/** The HTTP results the controllers produce: a status code, an optional route value and an optional body. */
module Http {
  import opened Wrappers
  import opened Dtos

  const StatusOk := 200
  const StatusCreated := 201
  const StatusNoContent := 204
  const StatusUnauthorized := 401
  const StatusNotFound := 404

  /** What a response body can carry. */
  datatype Payload =
    | UserBody(user: UserDto)
    | UsersBody(users: seq<UserDto>)
    | LoginBody(success: bool, message: string)

  /** `routeId` is the `id` route value of a Created result; the other results have none. */
  datatype Response = Response(status: int, routeId: Option<int>, body: Option<Payload>)

  function Ok(p: Payload): Response { Response(StatusOk, None, Some(p)) }
  function Created(id: int, p: Payload): Response { Response(StatusCreated, Some(id), Some(p)) }
  function NoContent(): Response { Response(StatusNoContent, None, None) }
  function NotFound(): Response { Response(StatusNotFound, None, None) }
  function Unauthorized(p: Payload): Response { Response(StatusUnauthorized, None, Some(p)) }
}
