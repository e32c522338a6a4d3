/**
 * Client code that uses only the contracts above: the request sequences
 * the system's documentation gives as examples, with their outcomes asserted.
 */
module Scenarios {
  import opened Wrappers
  import opened Dtos
  import opened Http
  import Services
  import Controllers
  import AuthController

  /** Add Alice (id 1) and Bob (id 2), delete 1: the list is Bob alone, and 1 is gone for good. */
  method AliceAndBob() {
    var service := new Services.UserService();
    var controller := new Controllers.UsersController(service);
    var alice := UserDto(0, "Alice", "a@x.com", None, None);
    var bob := UserDto(0, "Bob", "b@x.com", None, None);
    var r1 := controller.Add(alice);
    assert r1.status == StatusCreated && r1.routeId == Some(1);
    var r2 := controller.Add(bob);
    assert r2.routeId == Some(2);
    assert service.users == [alice.(id := 1), bob.(id := 2)];
    var r3 := controller.Delete(1);
    assert r3.status == StatusNoContent;
    assert service.users == [bob.(id := 2)] by {
      var before := [alice.(id := 1), bob.(id := 2)];
      assert before[1..] == [bob.(id := 2)] && before[1..][1..] == [];
    }
    var r4 := controller.GetAll();
    assert r4 == Ok(UsersBody([bob.(id := 2)]));
    var r5 := controller.GetById(1);
    assert r5.status == StatusNotFound;
    var r6 := controller.Delete(1);
    assert r6.status == StatusNotFound;
    var r7 := controller.Add(alice);
    assert r7.routeId == Some(3);
  }

  /** On an empty store, id 99 is not found by any action. */
  method EmptyStore() {
    var service := new Services.UserService();
    var controller := new Controllers.UsersController(service);
    var r1 := controller.GetById(99);
    assert r1 == NotFound();
    var r2 := controller.Update(99, UserDto(99, "X", "x@x.com", None, None));
    assert r2 == NotFound();
    assert service.users == [];
  }

  /** An update is what a later lookup sees. */
  method UpdateThenGet() {
    var service := new Services.UserService();
    var controller := new Controllers.UsersController(service);
    var r1 := controller.Add(UserDto(0, "Alice", "a@x.com", None, None));
    var edit := UserDto(7, "Alicia", "alicia@x.com", Some("555"), Some("E1"));
    var r2 := controller.Update(1, edit);
    assert r2 == Ok(UserBody(edit));
    var r3 := controller.GetById(1);
    assert r3 == Ok(UserBody(edit.(id := 1)));
  }

  /** admin / 1234 logs in; admin / wrong does not. */
  method Logins() {
    var ok := AuthController.Login(LoginDto("admin", "1234"));
    assert ok.status == StatusOk && ok.body == Some(LoginBody(true, "Login successful"));
    var bad := AuthController.Login(LoginDto("admin", "wrong"));
    assert bad.status == StatusUnauthorized && bad.body == Some(LoginBody(false, "Invalid credentials"));
  }
}
