/** The replies the controllers build (`ResponseEntity`) and the exceptions they catch. */
module Http {
  import opened Wrappers

  const Ok: int := 200
  const BadRequest: int := 400
  const Unauthorized: int := 401
  const NotFound: int := 404
  const InternalServerError: int := 500

  /** The exception classes the controllers' catch blocks tell apart. */
  datatype Failure =
    | TokenExpired    // com.auth0 `TokenExpiredException`
    | OtherException  // any other `Exception`

  /** Whether the repository read and the repository write of one request raise. */
  datatype Faults = Faults(onRead: Option<Failure>, onWrite: Option<Failure>)

  const NoFaults: Faults := Faults(None, None)

  /** A multipart upload: no part at all (`null`), or a file with a name and a size in bytes. */
  datatype Upload = NoPart | File(originalName: string, size: nat)

  /** A response body: a message, or the validator's list of errors. */
  datatype Body = Text(text: string) | Errors(errors: seq<string>)

  /**
   * What a handler produces: a response entity; an exception that escapes
   * the handler (Spring's own error handling then answers, outside this
   * model); or a `null` return.
   */
  datatype Reply = Respond(status: int, body: Body) | Uncaught | NullReply

  const ExpiredMessage: string := "The JWT Token is expired, pleas login in again"
  const ErrorMessage: string := "An error occurred while processing your request."
  const SelectFile: string := "Please select a file to upload."

  /** The two catch blocks that close every `try` of `UserController`. */
  function CatchFailure(f: Failure): (r: Reply)
    ensures r.Respond?
    ensures r.status == Unauthorized <==> f == TokenExpired
    ensures r.status == InternalServerError <==> f == OtherException
    ensures r.body == Text(if f == TokenExpired then ExpiredMessage else ErrorMessage)
  {
    match f
    case TokenExpired => Respond(Unauthorized, Text(ExpiredMessage))
    case OtherException => Respond(InternalServerError, Text(ErrorMessage))
  }
}
