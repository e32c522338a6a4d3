/**
 * The in-memory user store as a value: the list of records and the id
 * counter, and what each operation of the store does to them.  The class
 * in module Services keeps these two fields and is specified by the
 * functions here.
 */
module UserStore {
  import opened Wrappers
  import opened Dtos

  /** `users` is the list `_users` in insertion order; `nextId` is the counter `_nextId`. */
  datatype Store = Store(users: seq<UserDto>, nextId: int)

  /** Ids along the list strictly increase: records sit in the order they were added. */
  predicate IdsIncreasing(users: seq<UserDto>) {
    forall i, j :: 0 <= i < j < |users| ==> users[i].id < users[j].id
  }

  /** Every stored id was handed out already: it lies in [1, nextId). */
  predicate IdsBelow(users: seq<UserDto>, nextId: int) {
    forall i :: 0 <= i < |users| ==> 1 <= users[i].id < nextId
  }

  /** The invariant every reachable store satisfies. */
  predicate Valid(s: Store) {
    1 <= s.nextId && IdsIncreasing(s.users) && IdsBelow(s.users, s.nextId)
  }

  /** Some record of the list carries `id`. */
  predicate HasId(users: seq<UserDto>, id: int) {
    exists i :: 0 <= i < |users| && users[i].id == id
  }

  /** `k` is the position of the first record whose id is `id` (what `FirstOrDefault` finds). */
  predicate IsFirst(users: seq<UserDto>, id: int, k: int) {
    0 <= k < |users| && users[k].id == id && forall j :: 0 <= j < k ==> users[j].id != id
  }

  /** The store a new service starts with. */
  function Fresh(): (s: Store)
    ensures Valid(s) && s.users == [] && s.nextId == 1
  {
    Store([], 1)
  }

  /** Position of the first record with the given id, if any. */
  function IndexOf(users: seq<UserDto>, id: int): (r: Option<nat>)
    ensures r.Some? ==> IsFirst(users, id, r.value)
    ensures r.None? <==> !HasId(users, id)
  {
    if |users| == 0 then None
    else if users[0].id == id then Some(0)
    else match IndexOf(users[1..], id)
      case None => None
      case Some(k) => Some(k + 1)
  }

  /** `GetById`: the first record with that id, or None (the source's null). */
  function GetById(s: Store, id: int): (r: Option<UserDto>)
    ensures r.Some? <==> HasId(s.users, id)
    ensures r.Some? ==> r.value.id == id && exists k :: IsFirst(s.users, id, k) && s.users[k] == r.value
  {
    match IndexOf(s.users, id)
    case None => None
    case Some(k) => Some(s.users[k])
  }

  /** `Add`: stamp the record with the counter, append it, bump the counter. */
  function Add(s: Store, user: UserDto): (r: (Store, UserDto))
    ensures Valid(s) ==> Valid(r.0)
    ensures r.0.nextId > s.nextId
  {
    var stored := user.(id := s.nextId);
    (Store(s.users + [stored], s.nextId + 1), stored)
  }

  /** The record after `Update`: its id stays, the four mutable fields come from `submitted`. */
  function Overwrite(stored: UserDto, submitted: UserDto): UserDto {
    stored.(name := submitted.name, email := submitted.email,
            phone := submitted.phone, employeeNumber := submitted.employeeNumber)
  }

  /** Reference definition: every record with that id overwritten, the others kept. */
  function UpdateAll(users: seq<UserDto>, id: int, updated: UserDto): (r: seq<UserDto>)
    ensures |r| == |users|
    ensures forall i :: 0 <= i < |users| ==>
              r[i] == if users[i].id == id then Overwrite(users[i], updated) else users[i]
  {
    if users == [] then []
    else [if users[0].id == id then Overwrite(users[0], updated) else users[0]]
         + UpdateAll(users[1..], id, updated)
  }

  /** Reference definition: the records whose id is not `id`, in their original order. */
  function Without(users: seq<UserDto>, id: int): seq<UserDto> {
    if users == [] then []
    else (if users[0].id == id then [] else [users[0]]) + Without(users[1..], id)
  }

  /** Nothing to remove: the list stays as it is. */
  lemma {:induction false} WithoutAbsent(users: seq<UserDto>, id: int)
    requires !HasId(users, id)
    ensures Without(users, id) == users
  {
    if users != [] {
      assert !HasId(users[1..], id) by {
        forall i | 0 <= i < |users[1..]| ensures users[1..][i].id != id {
          assert users[1..][i] == users[i + 1];
        }
      }
      WithoutAbsent(users[1..], id);
    }
  }

  /** With increasing ids, overwriting the first match is overwriting every match. */
  lemma UpdateFirstIsUpdateAll(users: seq<UserDto>, id: int, updated: UserDto, k: nat)
    requires IdsIncreasing(users) && IsFirst(users, id, k)
    ensures users[k := Overwrite(users[k], updated)] == UpdateAll(users, id, updated)
  {
  }

  /** With increasing ids, removing the first match is removing every match. */
  lemma {:induction false} RemoveFirstIsWithout(users: seq<UserDto>, id: int, k: nat)
    requires IdsIncreasing(users) && IsFirst(users, id, k)
    ensures users[..k] + users[k + 1..] == Without(users, id)
    decreases k
  {
    var tail := users[1..];
    assert IdsIncreasing(tail) by {
      forall i, j | 0 <= i < j < |tail| ensures tail[i].id < tail[j].id {
        assert tail[i] == users[i + 1] && tail[j] == users[j + 1];
      }
    }
    if k == 0 {
      assert !HasId(tail, id) by {
        forall i | 0 <= i < |tail| ensures tail[i].id != id {
          assert tail[i] == users[i + 1];
          assert users[0].id < users[i + 1].id;
        }
      }
      WithoutAbsent(tail, id);
    } else {
      assert IsFirst(tail, id, k - 1) by {
        forall j | 0 <= j < k - 1 ensures tail[j].id != id { assert tail[j] == users[j + 1]; }
      }
      RemoveFirstIsWithout(tail, id, k - 1);
      assert users[..k] == [users[0]] + tail[..k - 1];
      assert users[k + 1..] == tail[k..];
    }
  }

  /** `Update`: overwrite the first record with that id, in place; report whether there was one. */
  function Update(s: Store, id: int, updated: UserDto): (r: (Store, bool))
    ensures r.1 <==> HasId(s.users, id)
    ensures !r.1 ==> r.0 == s
    ensures r.1 ==> exists k :: IsFirst(s.users, id, k) && r.0.users == s.users[k := Overwrite(s.users[k], updated)]
    ensures r.0.nextId == s.nextId
    ensures Valid(s) ==> Valid(r.0) && r.0.users == UpdateAll(s.users, id, updated)
  {
    match IndexOf(s.users, id)
    case None =>
      assert UpdateAll(s.users, id, updated) == s.users;
      (s, false)
    case Some(k) =>
      if Valid(s) then UpdateFirstIsUpdateAll(s.users, id, updated, k);
        (Store(s.users[k := Overwrite(s.users[k], updated)], s.nextId), true)
      else (Store(s.users[k := Overwrite(s.users[k], updated)], s.nextId), true)
  }

  /** Taking one record out of a valid list keeps it valid. */
  lemma RemoveAtPreservesValid(s: Store, k: nat)
    requires Valid(s) && k < |s.users|
    ensures Valid(Store(s.users[..k] + s.users[k + 1..], s.nextId))
  {
  }

  /** `Delete`: remove the first record with that id; report whether there was one. */
  function Delete(s: Store, id: int): (r: (Store, bool))
    ensures r.1 <==> HasId(s.users, id)
    ensures !r.1 ==> r.0 == s
    ensures r.1 ==> exists k :: IsFirst(s.users, id, k) && r.0.users == s.users[..k] + s.users[k + 1..]
    ensures r.0.nextId == s.nextId
    ensures Valid(s) ==> Valid(r.0) && r.0.users == Without(s.users, id)
  {
    match IndexOf(s.users, id)
    case None =>
      WithoutAbsent(s.users, id); (s, false)
    case Some(k) =>
      if Valid(s) then
        RemoveAtPreservesValid(s, k); RemoveFirstIsWithout(s.users, id, k);
        (Store(s.users[..k] + s.users[k + 1..], s.nextId), true)
      else (Store(s.users[..k] + s.users[k + 1..], s.nextId), true)
  }

  /** The first position of an id is unique, so `IndexOf` finds exactly it. */
  lemma IndexOfFirst(users: seq<UserDto>, id: int, k: nat)
    requires IsFirst(users, id, k)
    ensures IndexOf(users, id) == Some(k)
  {
  }

  /** In a valid store no two records share an id. */
  lemma IdsDistinct(s: Store)
    requires Valid(s)
    ensures forall i, j :: 0 <= i < |s.users| && 0 <= j < |s.users| && i != j ==> s.users[i].id != s.users[j].id
  {
  }

  /** After `Add`, the new id finds the stored record and every other lookup is as before. */
  lemma GetByIdAfterAdd(s: Store, user: UserDto, id: int)
    requires Valid(s)
    ensures GetById(Add(s, user).0, id) ==
            if id == s.nextId then Some(user.(id := s.nextId)) else GetById(s, id)
  {
    var t := Add(s, user).0;
    assert forall i :: 0 <= i < |s.users| ==> t.users[i] == s.users[i];
    if id == s.nextId {
      IndexOfFirst(t.users, id, |s.users|);
    } else if HasId(s.users, id) {
      var k := IndexOf(s.users, id).value;
      IndexOfFirst(t.users, id, k);
    } else {
      assert !HasId(t.users, id);
    }
  }

  /**
   * After an `Update` of `id`, looking `id` up yields the record with the
   * submitted fields and the old id; every other id is looked up as before.
   */
  lemma GetByIdAfterUpdate(s: Store, id: int, updated: UserDto, other: int)
    requires Valid(s)
    ensures GetById(Update(s, id, updated).0, other) ==
            if other == id && HasId(s.users, id) then Some(updated.(id := id)) else GetById(s, other)
  {
  }

  /** Removing the record at `k` from a list with increasing ids: its id is gone, other lookups agree. */
  lemma LookupAfterRemove(users: seq<UserDto>, n: int, k: nat, other: int)
    requires IdsIncreasing(users) && k < |users|
    ensures GetById(Store(users[..k] + users[k + 1..], n), other) ==
            if other == users[k].id then None else GetById(Store(users, n), other)
  {
    var t := users[..k] + users[k + 1..];
    assert forall i :: 0 <= i < |t| ==> t[i] == users[if i < k then i else i + 1];
    if other == users[k].id {
      assert !HasId(t, other);
    } else if HasId(users, other) {
      var m := IndexOf(users, other).value;
      if m < k {
        IndexOfFirst(t, other, m);
      } else {
        assert t[m - 1] == users[m];
        IndexOfFirst(t, other, m - 1);
      }
    } else {
      assert !HasId(t, other);
    }
  }

  /** After a `Delete` of `id`, `id` is absent and every other id is looked up as before. */
  lemma GetByIdAfterDelete(s: Store, id: int, other: int)
    requires Valid(s)
    ensures GetById(Delete(s, id).0, other) == if other == id then None else GetById(s, other)
  {
    if HasId(s.users, id) {
      var k := IndexOf(s.users, id).value;
      assert Delete(s, id).0 == Store(s.users[..k] + s.users[k + 1..], s.nextId);
      LookupAfterRemove(s.users, s.nextId, k, other);
    }
  }

  /** One request against the store. */
  datatype Op = AddOp(user: UserDto) | UpdateOp(id: int, updated: UserDto) | DeleteOp(id: int)

  function Apply(s: Store, op: Op): Store {
    match op
    case AddOp(u) => Add(s, u).0
    case UpdateOp(id, u) => Update(s, id, u).0
    case DeleteOp(id) => Delete(s, id).0
  }

  /** The store after a sequence of requests, applied in order. */
  function Run(s: Store, ops: seq<Op>): Store
    decreases |ops|
  {
    if ops == [] then s else Run(Apply(s, ops[0]), ops[1..])
  }

  /** The ids handed out by the `Add`s among `ops`, in the order they were handed out. */
  function AssignedIds(s: Store, ops: seq<Op>): seq<int>
    decreases |ops|
  {
    if ops == [] then []
    else (if ops[0].AddOp? then [s.nextId] else []) + AssignedIds(Apply(s, ops[0]), ops[1..])
  }

  /** Every sequence of requests keeps the store valid. */
  lemma {:induction false} RunPreservesValid(s: Store, ops: seq<Op>)
    requires Valid(s)
    ensures Valid(Run(s, ops))
    decreases |ops|
  {
    if ops != [] {
      var s' := Apply(s, ops[0]);
      assert Valid(s');
      RunPreservesValid(s', ops[1..]);
    }
  }

  /** The ids strictly increase along the sequence. */
  predicate Increasing(ids: seq<int>) {
    forall i, j :: 0 <= i < j < |ids| ==> ids[i] < ids[j]
  }

  /** Every id lies in [lo, hi). */
  predicate Within(ids: seq<int>, lo: int, hi: int) {
    forall i :: 0 <= i < |ids| ==> lo <= ids[i] < hi
  }

  /**
   * Ids are never reused: over any sequence of requests the counter never
   * decreases, and the ids handed out strictly increase, starting at the
   * counter's value before the first request, below its value after the last.
   * Since a valid store holds only ids below its counter, no id handed out
   * later equals one that was ever stored before.
   */
  lemma {:induction false} AssignedIdsIncrease(s: Store, ops: seq<Op>)
    ensures s.nextId <= Run(s, ops).nextId
    ensures Increasing(AssignedIds(s, ops))
    ensures Within(AssignedIds(s, ops), s.nextId, Run(s, ops).nextId)
    decreases |ops|
  {
    if ops != [] {
      var s' := Apply(s, ops[0]);
      AssignedIdsIncrease(s', ops[1..]);
      var rest := AssignedIds(s', ops[1..]);
      if ops[0].AddOp? {
        var ids := AssignedIds(s, ops);
        assert ids == [s.nextId] + rest;
        assert forall i :: 0 < i < |ids| ==> ids[i] == rest[i - 1];
      }
    }
  }
}
