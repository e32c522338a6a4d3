/**
 * The in-memory `UserService`: a list of records and an id counter, updated
 * in place.  Each method is specified by the matching function of module
 * UserStore, whose properties are proved there.
 */
module Services {
  import opened Wrappers
  import opened Dtos
  import UserStore

  class UserService {
    /** `_users`, in insertion order. */
    var users: seq<UserDto>
    /** `_nextId`, the id the next `Add` hands out. */
    var nextId: int

    /** The abstract value of the service. */
    function State(): UserStore.Store
      reads this
    {
      UserStore.Store(users, nextId)
    }

    /** The object invariant: distinct, increasing ids, all below the counter. */
    predicate Valid()
      reads this
    {
      UserStore.Valid(State())
    }

    /** A new service holds no records and will hand out id 1 first. */
    constructor ()
      ensures Valid()
      ensures users == [] && nextId == 1
    {
      users := [];
      nextId := 1;
    }

    /** `GetAll` returns the current records, in insertion order. */
    method GetAll() returns (r: seq<UserDto>)
      ensures r == users
    {
      r := users;
    }

    /** `GetById`: the record whose id is `id`, or None. */
    method GetById(id: int) returns (r: Option<UserDto>)
      ensures r == UserStore.GetById(State(), id)
    {
      match UserStore.IndexOf(users, id)
      case None => r := None;
      case Some(k) => r := Some(users[k]);
    }

    /** `Add` stamps the record with the counter, appends it and returns the stored record. */
    method Add(user: UserDto) returns (r: UserDto)
      requires Valid()
      modifies this
      ensures Valid()
      ensures (State(), r) == UserStore.Add(old(State()), user)
      ensures r == user.(id := old(nextId))
      ensures users == old(users) + [r] && nextId == old(nextId) + 1
    {
      r := user.(id := nextId);
      nextId := nextId + 1;
      users := users + [r];
    }

    /**
     * `Update` overwrites Name, Email, Phone and EmployeeNumber of the record
     * with that id and reports whether there was one; a miss changes nothing.
     */
    method Update(id: int, updated: UserDto) returns (found: bool)
      requires Valid()
      modifies this
      ensures Valid()
      ensures (State(), found) == UserStore.Update(old(State()), id, updated)
      ensures found <==> UserStore.HasId(old(users), id)
      ensures !found ==> users == old(users)
      ensures nextId == old(nextId)
    {
      match UserStore.IndexOf(users, id)
      case None =>
        found := false;
      case Some(k) =>
        users := users[k := UserStore.Overwrite(users[k], updated)];
        found := true;
    }

    /** `Delete` removes the record with that id and reports whether there was one; a miss changes nothing. */
    method Delete(id: int) returns (found: bool)
      requires Valid()
      modifies this
      ensures Valid()
      ensures (State(), found) == UserStore.Delete(old(State()), id)
      ensures found <==> UserStore.HasId(old(users), id)
      ensures !found ==> users == old(users)
      ensures nextId == old(nextId)
    {
      match UserStore.IndexOf(users, id)
      case None =>
        found := false;
      case Some(k) =>
        users := users[..k] + users[k + 1..];
        found := true;
    }
  }
}
