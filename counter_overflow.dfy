/**
 * `_nextId` is a C# `int` and `_nextId++` is not in a checked context, so
 * the counter is 32-bit and wraps from int.MaxValue to int.MinValue.  This
 * module models `Add` with that counter and shows that the wrap lets the
 * store hand out an id that is still in use.  The rest of the model uses an
 * unbounded counter, which is what "ids are never reused" needs.
 */
module CounterOverflow {
  import opened Wrappers
  import opened Dtos
  import UserStore

  const Int32Min: int := -0x8000_0000
  const Int32Max: int := 0x7fff_ffff

  predicate InInt32(x: int) { Int32Min <= x <= Int32Max }

  /** `x + 1` in unchecked 32-bit two's-complement arithmetic. */
  function Increment(x: int): (r: int)
    requires InInt32(x)
    ensures InInt32(r)
    ensures (r - x - 1) % 0x1_0000_0000 == 0
  {
    if x == Int32Max then Int32Min else x + 1
  }

  /** `Add` as compiled: stamp with the counter, append, then the 32-bit increment. */
  function AddAsWritten(s: UserStore.Store, user: UserDto): (r: (UserStore.Store, UserDto))
    requires InInt32(s.nextId)
    ensures InInt32(r.0.nextId)
  {
    var stored := user.(id := s.nextId);
    (UserStore.Store(s.users + [stored], Increment(s.nextId)), stored)
  }

  /** Below int.MaxValue the 32-bit counter and the unbounded one agree. */
  lemma AsWrittenAgreesBelowMax(s: UserStore.Store, user: UserDto)
    requires InInt32(s.nextId) && s.nextId < Int32Max
    ensures AddAsWritten(s, user) == UserStore.Add(s, user)
  {
  }

  /** At int.MaxValue the counter goes down to int.MinValue and the store leaves its invariant. */
  lemma CounterWrapsAtMax(s: UserStore.Store, user: UserDto)
    requires UserStore.Valid(s) && s.nextId == Int32Max
    ensures AddAsWritten(s, user).0.nextId == Int32Min < s.nextId
    ensures !UserStore.Valid(AddAsWritten(s, user).0)
  {
  }

  /** `rounds` times: add `user`, then delete it again by the id it received. */
  function Churn(s: UserStore.Store, user: UserDto, rounds: nat): (r: UserStore.Store)
    requires InInt32(s.nextId)
    ensures InInt32(r.nextId)
    decreases rounds
  {
    if rounds == 0 then s
    else
      var (t, stored) := AddAsWritten(s, user);
      Churn(UserStore.Delete(t, stored.id).0, user, rounds - 1)
  }

  /** The counter value after `n - 1` unchecked increments from 1. */
  function CounterAfter(n: int): int {
    if n <= Int32Max then n else n - 0x1_0000_0000
  }

  /**
   * Churn never touches a record with id 1 while the counter runs from 2
   * through the wrap up to 0; it only advances the counter.
   */
  lemma {:induction false} ChurnKeepsFirst(first: UserDto, user: UserDto, n: int, rounds: nat)
    requires first.id == 1
    requires 2 <= n && n + rounds <= 0x1_0000_0001
    ensures InInt32(CounterAfter(n))
    ensures Churn(UserStore.Store([first], CounterAfter(n)), user, rounds)
            == UserStore.Store([first], CounterAfter(n + rounds))
    decreases rounds
  {
    if rounds > 0 {
      var s := UserStore.Store([first], CounterAfter(n));
      var (t, stored) := AddAsWritten(s, user);
      assert stored.id != 1;
      assert t.nextId == CounterAfter(n + 1);
      assert UserStore.IndexOf(t.users, stored.id) == Some(1);
      assert UserStore.Delete(t, stored.id).0 == UserStore.Store([first], CounterAfter(n + 1));
      ChurnKeepsFirst(first, user, n + 1, rounds - 1);
    }
  }

  /** On a fresh store: add `a` (id 1), then churn `b` 4294967295 times; the counter is back at 1. */
  lemma FirstAddThenChurn(a: UserDto, b: UserDto, rounds: nat)
    requires rounds == 0xFFFF_FFFF
    ensures Churn(AddAsWritten(UserStore.Fresh(), a).0, b, rounds) == UserStore.Store([a.(id := 1)], 1)
  {
    assert AddAsWritten(UserStore.Fresh(), a).0 == UserStore.Store([a.(id := 1)], CounterAfter(2));
    ChurnKeepsFirst(a.(id := 1), b, 2, rounds);
  }

  /**
   * A reachable duplicate: on a fresh store, add `a` (id 1), then add and
   * delete `b` 4294967295 times (`rounds`); the counter wraps round to 1,
   * and adding `c` stores a second record with id 1.
   */
  lemma AsWrittenReusesId(a: UserDto, b: UserDto, c: UserDto, rounds: nat)
    requires rounds == 0xFFFF_FFFF
    ensures AddAsWritten(Churn(AddAsWritten(UserStore.Fresh(), a).0, b, rounds), c).0.users
            == [a.(id := 1), c.(id := 1)]
    ensures !UserStore.Valid(AddAsWritten(Churn(AddAsWritten(UserStore.Fresh(), a).0, b, rounds), c).0)
  {
    FirstAddThenChurn(a, b, rounds);
    var s3 := AddAsWritten(UserStore.Store([a.(id := 1)], 1), c).0;
    assert s3.users[0].id == s3.users[1].id;
  }
}
