/**
 * `UsersController`: each action makes one call on the user service and
 * maps its result to an HTTP response.
 */
module Controllers {
  import opened Wrappers
  import opened Dtos
  import opened Http
  import UserStore
  import Services

  class UsersController {
    const userService: Services.UserService

    constructor (userService: Services.UserService)
      ensures this.userService == userService
    {
      this.userService := userService;
    }

    /** GET api/users: always 200 with every record, in insertion order. */
    method GetAll() returns (r: Response)
      ensures r.status == StatusOk && r.routeId == None
      ensures r.body == Some(UsersBody(userService.users))
    {
      var all := userService.GetAll();
      r := Ok(UsersBody(all));
    }

    /** GET api/users/{id}: 404 when no record has that id, otherwise 200 with the record. */
    method GetById(id: int) returns (r: Response)
      ensures r.status == StatusOk || r.status == StatusNotFound
      ensures r.status == StatusNotFound <==> !UserStore.HasId(userService.users, id)
      ensures UserStore.GetById(userService.State(), id).None? ==> r == NotFound()
      ensures UserStore.GetById(userService.State(), id).Some? ==>
                r == Ok(UserBody(UserStore.GetById(userService.State(), id).value))
    {
      var user := userService.GetById(id);
      if user.None? {
        return NotFound();
      }
      return Ok(UserBody(user.value));
    }

    /**
     * POST api/users: always 201; the route value is the id the store
     * assigned and the body is the stored record.
     */
    method Add(dto: UserDto) returns (r: Response)
      requires userService.Valid()
      modifies userService
      ensures userService.Valid()
      ensures userService.State() == UserStore.Add(old(userService.State()), dto).0
      ensures r.status == StatusCreated
      ensures r.routeId == Some(old(userService.nextId))
      ensures r.body == Some(UserBody(dto.(id := old(userService.nextId))))
      ensures r.body.value.user == userService.users[|userService.users| - 1]
      ensures UserStore.GetById(userService.State(), r.routeId.value) == Some(r.body.value.user)
    {
      ghost var before := userService.State();
      var newUser := userService.Add(dto);
      UserStore.GetByIdAfterAdd(before, dto, newUser.id);
      r := Created(newUser.id, UserBody(newUser));
    }

    /**
     * PUT api/users/{id}: 404 exactly when no record has that id; otherwise
     * 200 whose body is the submitted record as it came in, not a re-read
     * of the store.
     */
    method Update(id: int, dto: UserDto) returns (r: Response)
      requires userService.Valid()
      modifies userService
      ensures userService.Valid()
      ensures userService.State() == UserStore.Update(old(userService.State()), id, dto).0
      ensures r.status == StatusOk || r.status == StatusNotFound
      ensures r.status == StatusNotFound <==> !UserStore.HasId(old(userService.users), id)
      ensures r.status == StatusNotFound ==> r == NotFound()
      ensures r.status == StatusOk ==> r == Ok(UserBody(dto))
      ensures r.status == StatusOk ==> UserStore.GetById(userService.State(), id) == Some(dto.(id := id))
    {
      ghost var before := userService.State();
      var updated := userService.Update(id, dto);
      UserStore.GetByIdAfterUpdate(before, id, dto, id);
      if !updated {
        return NotFound();
      }
      return Ok(UserBody(dto));
    }

    /** DELETE api/users/{id}: 404 exactly when no record has that id; otherwise 204 with no body. */
    method Delete(id: int) returns (r: Response)
      requires userService.Valid()
      modifies userService
      ensures userService.Valid()
      ensures userService.State() == UserStore.Delete(old(userService.State()), id).0
      ensures r.status == StatusNoContent || r.status == StatusNotFound
      ensures r.status == StatusNotFound <==> !UserStore.HasId(old(userService.users), id)
      ensures r.body == None && r.routeId == None
      ensures UserStore.GetById(userService.State(), id) == None
    {
      ghost var before := userService.State();
      var deleted := userService.Delete(id);
      UserStore.GetByIdAfterDelete(before, id, id);
      if !deleted {
        return NotFound();
      }
      return NoContent();
    }
  }
}
