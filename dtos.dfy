/** The data-transfer records that cross the API boundary, as values. */
module Dtos {
  import opened Wrappers

  /** A user record: the id is assigned by the store; Phone and EmployeeNumber are nullable strings. */
  datatype UserDto = UserDto(
    id: int,
    name: string,
    email: string,
    phone: Option<string>,
    employeeNumber: Option<string>)

  /** The body of a login request. */
  datatype LoginDto = LoginDto(username: string, password: string)
}
