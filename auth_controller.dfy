/** `AuthController.Login`: a fixed credential pair, no state. */
module AuthController {
  import opened Wrappers
  import opened Dtos
  import opened Http

  const AdminUsername: string := "admin"
  const AdminPassword: string := "1234"

  /**
   * 200 with success = true exactly for the pair admin / 1234; every other
   * pair gets 401 with success = false.
   */
  function Login(dto: LoginDto): (r: Response)
    ensures r.status == StatusOk <==> dto.username == "admin" && dto.password == "1234"
    ensures r.status == StatusOk || r.status == StatusUnauthorized
    ensures r.routeId == None
    ensures r.status == StatusOk ==> r.body == Some(LoginBody(true, "Login successful"))
    ensures r.status == StatusUnauthorized ==> r.body == Some(LoginBody(false, "Invalid credentials"))
  {
    if dto.username == AdminUsername && dto.password == AdminPassword then
      Ok(LoginBody(true, "Login successful"))
    else
      Unauthorized(LoginBody(false, "Invalid credentials"))
  }

  /** Exactly one request body logs in. */
  lemma OnlyOnePairSucceeds(a: LoginDto, b: LoginDto)
    requires Login(a).status == StatusOk && Login(b).status == StatusOk
    ensures a == b == LoginDto("admin", "1234")
  {
  }
}
