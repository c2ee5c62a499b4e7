/**
 * The replies of the HTTP handlers, and the one step every handler shares:
 * reading a value the authentication middleware put in the request context
 * as a string. In Go this is the type assertion `c.Get(key).(string)`,
 * which panics on anything else; the server's recovery middleware turns
 * the panic into a 500 reply.
 */
module Replies {
  import opened Wrappers
  import opened Jwt

  const StatusBadRequest: int := 400
  const StatusUnauthorized: int := 401
  const StatusForbidden: int := 403
  const StatusInternalServerError: int := 500

  /** The reply of a handler or middleware: an HTTP error, or the request was handled further on. */
  datatype Reply = HttpError(status: int, message: string) | Handled

  const AccessDenied: Reply := HttpError(StatusForbidden, "access denied")
  const InvalidRequest: Reply := HttpError(StatusBadRequest, "invalid request")
  /** The reply after a recovered panic. */
  const Panicked: Reply := HttpError(StatusInternalServerError, "Internal Server Error")

  /** `v.(string)` under the recovery middleware: the string, or the 500 reply. */
  function AsString(v: Value): (r: Result<string, Reply>)
    ensures r.Ok? <==> v.Str?
    ensures r.Ok? ==> v == Str(r.value)
    ensures r.Err? ==> r.error == Panicked
  {
    match v
    case Str(s) => Ok(s)
    case _ => Err(Panicked)
  }
}
