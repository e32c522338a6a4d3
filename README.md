# User-Management API: the in-memory user store and its controllers, in Dafny

This project models the core of a small ASP.NET user-management backend:

- `UserService`, the in-memory implementation of `IUserService`
  (`Services/IUserService.cs:5-12`). It keeps a list of `UserDto` records and
  an id counter `_nextId`. `Add` stamps a record with the next id and appends
  it. `GetById` is a first-match lookup. `Update` overwrites Name, Email,
  Phone and EmployeeNumber of the matching record in place. `Delete` removes
  the matching record. `Update` and `Delete` report whether the id was found.
- `UsersController`, which makes one service call per action and maps the
  result to 200, 201, 204 or 404.
- `AuthController.Login`, which accepts exactly the pair admin / 1234 (200)
  and rejects every other pair (401).

Layout:

- `wrappers.dfy` (module `Wrappers`) holds `Option`. It stands for C#'s nullable references.
- `dtos.dfy` (module `Dtos`) holds `UserDto` and `LoginDto` as value records.
- `http.dfy` (module `Http`) holds the response datatype: a status code, the
  optional `id` route value of a Created result, and an optional body.
- `user_store.dfy` (module `UserStore`) describes the store as a value
  (`Store(users, nextId)`). It gives each operation as a function, the
  invariant `Valid`, independent reference definitions (`UpdateAll`,
  `Without`), and the lemmas. `Valid` says: the counter is at least 1, the
  ids strictly increase along the list (so they are distinct and the list is
  in insertion order), and every id lies in `[1, nextId)`.
- `user_service.dfy` (module `Services`) holds the class `UserService`. Its
  fields `users` and `nextId` are updated in place. Each method's
  postcondition ties the new state and the result to the `UserStore`
  function of the old state.
- `users_controller.dfy` (module `Controllers`) holds the class
  `UsersController`, whose actions call the service object.
- `auth_controller.dfy` (module `AuthController`) holds `Login` as a function.
- `counter_overflow.dfy` (module `CounterOverflow`) models the 32-bit counter as
  compiled (see Findings).
- `scenarios.dfy` (module `Scenarios`) holds client methods. They use only the
  contracts above and assert the outcomes of the documented example request
  sequences: Alice and Bob; id 99 on an empty store; update then lookup; the
  two logins.

A few decisions:

- The specification describes the store as a mapping keyed by id. The code
  keeps a list searched with `FirstOrDefault`, and the model follows the code.
  Under `Valid` the first match is the only match. `UserStore.UpdateFirstIsUpdateAll`
  and `UserStore.RemoveFirstIsWithout` prove that in valid stores.
- `Dtos/UserDto.cs` and `Dtos/LoginDto.cs` are not part of this model. The
  field types follow `Dtos/RegisterDto.cs`: Name and Email are strings, and
  Phone and EmployeeNumber are nullable strings (`Option<string>`).

## Model

| member | source | states |
|---|---|---|
| `UserStore.Fresh` | Services/UserService.cs:7-8 | a new store is empty, its counter is 1, and it satisfies the invariant |
| `UserStore.IndexOf` | Services/UserService.cs:12 | returns the position of the first record with the id, or None exactly when no record has it |
| `UserStore.GetById` | Services/UserService.cs:12 | returns a record exactly when some record has the id; that record is the first one with the id |
| `UserStore.Add` | Services/UserService.cs:14-19 | preserves the invariant and strictly increases the counter |
| `UserStore.UpdateAll` | Services/UserService.cs:26-29 | reference definition: has the same length, and every record with the id has the four submitted fields while its own id stays |
| `UserStore.Update` | Services/UserService.cs:21-31 | reports found exactly when the id is present; a miss leaves the store identical; a hit overwrites the first matching record in place and nothing else; the counter is unchanged; the invariant is preserved; in a valid store the result equals `UpdateAll` |
| `UserStore.RemoveAtPreservesValid` | Services/UserService.cs:37 | removing one record keeps the invariant |
| `UserStore.Delete` | Services/UserService.cs:33-39 | reports found exactly when the id is present; a miss leaves the store identical; a hit removes exactly the first matching record and keeps the rest in order; the counter is unchanged; the invariant is preserved; in a valid store the result equals `Without` (every record not carrying the id, in original order) |
| `UserStore.WithoutAbsent` | Services/UserService.cs:35-36 | filtering out an id that no record carries leaves the list unchanged |
| `UserStore.UpdateFirstIsUpdateAll` | Services/UserService.cs:23-29 | with increasing ids, overwriting the first match equals overwriting every match |
| `UserStore.RemoveFirstIsWithout` | Services/UserService.cs:35-37 | with increasing ids, removing the first match equals removing every record with the id |
| `UserStore.IndexOfFirst` | Services/UserService.cs:12 | the lookup finds exactly the first position carrying the id |
| `UserStore.IdsDistinct` | Services/UserService.cs:8-39 | in a valid store no two records share an id |
| `UserStore.GetByIdAfterAdd` | Services/UserService.cs:12-19 | after `Add`, the assigned id finds the stored record, and every other id is looked up as before |
| `UserStore.GetByIdAfterUpdate` | Services/UserService.cs:12-31 | after `Update` of a present id, that id finds the submitted fields with the old id; every other lookup is unchanged, and a miss changes no lookup |
| `UserStore.LookupAfterRemove` | Services/UserService.cs:37 | after one record is removed, its id is absent and other lookups agree |
| `UserStore.GetByIdAfterDelete` | Services/UserService.cs:12-39 | after `Delete`, the id is absent whether or not it was present, and every other id is looked up as before |
| `UserStore.RunPreservesValid` | Services/UserService.cs:7-39 | every sequence of Add/Update/Delete requests keeps the invariant (distinct, increasing ids below the counter) |
| `UserStore.AssignedIdsIncrease` | Services/UserService.cs:8-19 | over any request sequence the counter never decreases; the ids handed out strictly increase, all at least the starting counter and below the final one, so none is ever handed out twice |
| `Services.UserService.constructor` | Services/UserService.cs:7-8 | a new service is valid, empty and has counter 1 |
| `Services.UserService.GetAll` | Services/UserService.cs:10 | returns the current list in insertion order |
| `Services.UserService.GetById` | Services/UserService.cs:12 | returns the first-match lookup of the current state |
| `Services.UserService.Add` | Services/UserService.cs:14-19 | the returned record is the input with its id overwritten by the old counter; it is appended at the end, earlier records are unchanged, the counter goes up by one, and the invariant holds |
| `Services.UserService.Update` | Services/UserService.cs:21-31 | the new state and the flag are `UserStore.Update` of the old state: found exactly when present, nothing changed on a miss, counter unchanged |
| `Services.UserService.Delete` | Services/UserService.cs:33-39 | the new state and the flag are `UserStore.Delete` of the old state: found exactly when present, nothing changed on a miss, counter unchanged |
| `Controllers.UsersController.constructor` | Controllers/UsersController.cs:13-16 | the controller holds the injected service |
| `Controllers.UsersController.GetAll` | Controllers/UsersController.cs:18-22 | always 200 with the full current list and no route value |
| `Controllers.UsersController.GetById` | Controllers/UsersController.cs:24-30 | 404 with no body exactly when no record has the id, otherwise 200 whose body is the record the lookup finds |
| `Controllers.UsersController.Add` | Controllers/UsersController.cs:32-37 | always 201; the route value is the assigned id (the old counter) and the body is the stored record, which a lookup of that id now returns; the store changes only by `UserStore.Add` |
| `Controllers.UsersController.Update` | Controllers/UsersController.cs:39-45 | 404 exactly when the id was absent, otherwise 200 whose body is the submitted DTO as sent, while the store now holds it under the route id; the store changes only by `UserStore.Update` |
| `Controllers.UsersController.Delete` | Controllers/UsersController.cs:47-53 | 404 exactly when the id was absent, otherwise 204; there is never a body; afterwards the id is absent; the store changes only by `UserStore.Delete` |
| `AuthController.Login` | Controllers/AuthController.cs:10-18 | 200 exactly when the username is "admin" and the password is "1234", with success = true and "Login successful"; otherwise 401 with success = false and "Invalid credentials"; the result depends only on the two fields |
| `AuthController.OnlyOnePairSucceeds` | Controllers/AuthController.cs:13 | the one login body that succeeds is admin / 1234 |
| `CounterOverflow.Increment` | Services/UserService.cs:16 | the unchecked `_nextId++` stays in the 32-bit range and is congruent to x + 1 modulo 2^32 |
| `CounterOverflow.AddAsWritten` | Services/UserService.cs:14-19 | `Add` with the 32-bit counter keeps the counter in range |
| `CounterOverflow.AsWrittenAgreesBelowMax` | Services/UserService.cs:16 | below int.MaxValue the 32-bit `Add` equals the unbounded `UserStore.Add` |
| `CounterOverflow.CounterWrapsAtMax` | Services/UserService.cs:8-16 | an `Add` at int.MaxValue drops the counter to int.MinValue and breaks the invariant |
| `CounterOverflow.Churn` | Services/UserService.cs:14-39 | repeated add-then-delete rounds keep the 32-bit counter in range |
| `CounterOverflow.ChurnKeepsFirst` | Services/UserService.cs:16-37 | add-then-delete rounds leave the record with id 1 alone and only move the wrapping counter on |
| `CounterOverflow.FirstAddThenChurn` | Services/UserService.cs:14-39 | after one add and 4294967295 add-then-delete rounds, the counter is back at 1 |
| `CounterOverflow.AsWrittenReusesId` | Services/UserService.cs:14-39 | the as-compiled store reaches a state holding two records with id 1 |

## Left out

- Reference aliasing of `UserDto`. `Add` stores the caller's object, and
  `GetAll` and `GetById` return the live list and the stored objects, so a
  later mutation by a caller would change the store. The model treats records
  as values and returns snapshots. In particular it does not capture the same
  object being added twice, where both list entries would show the later id.
- Null inputs. A null DTO, and null Name, Email, Username or Password strings,
  are not modelled; strings are never null in the model. (A null
  Username or Password would simply fail the comparison and give 401.)
- Framework behaviour: routing, model binding, the automatic 400 response of
  `[ApiController]`, the URL that `CreatedAtAction` generates (only its `id`
  route value is modelled), and JSON serialization.
- Concurrency. The list is unsynchronised under concurrent requests; the model
  is sequential.
- Not modelled: the repository-backed `src/Application/Services/UserService.cs`,
  which is an async pass-through to an interface that is not shown, and its
  mock-based test. Also not modelled: the EF Core context factory and its
  configuration I/O, the schema migration, `RegisterDto`'s validation
  attributes, and the Angular client, including its separate client-side
  admin/admin check.
- The 32-bit width of `_nextId` outside `CounterOverflow`. `UserStore` and
  `Services` use an unbounded counter, the corrected behaviour of the Findings row.

## Findings

| source | as written | input that shows it | evidently intended | confidence | as-written member | corrected member |
|---|---|---|---|---|---|---|
| Services/UserService.cs:8-16 | `_nextId` is a 32-bit `int` and `_nextId++` runs unchecked (the C# default), so after int.MaxValue the counter wraps to int.MinValue and counts back up through 0 to 1 | on a fresh store, `Add(a)` gets id 1; then 4294967295 rounds of `Add(b)` followed by `Delete` of the id `b` received; then `Add(c)` also gets id 1, so two records share id 1 | ids strictly increase and are never reused, even after deletion (or `Add` fails once the ids are exhausted) | low: not executed; it needs about 8.6 billion requests, and a checked build would throw instead of wrapping | `CounterOverflow.AsWrittenReusesId` | `UserStore.AssignedIdsIncrease` |
