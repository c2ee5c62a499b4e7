/**
 * The sentinel errors of the credential core, one constructor per Go error
 * variable, plus the wrappers the code builds around them with
 * `errors.Join` and `fmt.Errorf("...: %w", ...)`. A `cause` is the text of
 * the library error that was joined in; the model does not interpret it.
 */
module Errors {

  datatype Error =
    // validateservice
    | BadEmail
    | BadPassword
    // encryptservice
    | GeneratingSalt                   // what HashPassword returns, the cause dropped
    | GeneratingSaltFrom(cause: string) // errors.Join(ErrGeneratingSalt, err) inside saltGeneration
    | HashingPassword(cause: string)   // errors.Join(ErrHashingPassword, err)
    | InvalidPassword(cause: string)   // errors.Join(ErrInvalidPassword, err)
    // jwtservice
    | LifetimeIsOver
    | UnexpectedSigningMethod          // fmt.Errorf("failed to parse token: %w", ErrUnexpectedSigningMethod)
    | SignToken(cause: string)         // errors.Join(ErrSignToken, err)
    | InvalidTokenClaims
    // middlewares
    | MissingAuthorizationHeader
    | InvalidAuthorizationHeader
    // userservice
    | UserNotFound
    | WrongAnswer
    | UserAlreadyExists
    // a repository failure other than a missing row, passed through unchanged
    | Store(cause: string)

  /** The text `err.Error()` yields; `errors.Join` separates its parts by a newline. */
  function Message(e: Error): string
  {
    match e
    case BadEmail => "bad email"
    case BadPassword => "bad password"
    case GeneratingSalt => "error generating salt"
    case GeneratingSaltFrom(c) => "error generating salt\n" + c
    case HashingPassword(c) => "error hashing password\n" + c
    case InvalidPassword(c) => "invalid password\n" + c
    case LifetimeIsOver => "lifetime is over"
    case UnexpectedSigningMethod => "failed to parse token: unexpected signing method"
    case SignToken(c) => "error signing token\n" + c
    case InvalidTokenClaims => "invalid token claims"
    case MissingAuthorizationHeader => "missing authorization header"
    case InvalidAuthorizationHeader => "invalid authorization header"
    case UserNotFound => "user not found"
    case WrongAnswer => "wrong answer"
    case UserAlreadyExists => "user already exists"
    case Store(c) => c
  }
}
