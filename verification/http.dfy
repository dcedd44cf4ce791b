/**
 What a request handler sends back: an HTTP status code with either a JSON
 body or an error message (`res.status(code).json({ msg })`), and the
 `Option` used for request-body fields that may be absent.
 */
module Http {

  /** A request-body field: absent (`undefined`) or a string. */
  datatype Option<+T> = None | Some(value: T)

  const OK: nat := 200
  const Created: nat := 201
  const BadRequest: nat := 400
  const Unauthorized: nat := 401
  const NotFound: nat := 404
  const ServerError: nat := 500

  /** The message every handler's `catch` block sends with status 500. */
  const ServerErrorMsg: string := "Server error"

  /** A response: a success status with its JSON body, or an error status with
      the `msg` field of the error body. */
  datatype Reply<+T> = Ok(status: nat, value: T) | Error(status: nat, msg: string)
}
