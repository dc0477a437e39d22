/** The translation of service exceptions into HTTP error responses. Each
    exception kind has one handler; the handler copies the exception's code
    and message into the response body and picks the status by kind alone. */
module RestExceptionHandler {
  import opened Common
  import opened Http

  /** The body and status of an error response. */
  datatype ErrorResponse = ErrorResponse(code: string, message: string, status: int)

  /** The HTTP status each handler answers with. */
  function Status(k: Kind): (s: int)
    ensures s == Forbidden <==> k == AuthorizationFailedException
    ensures s == Unauthorized <==> k == AuthenticationFailedException || k == SignOutRestrictedException
    ensures s == Conflict <==> k == SignUpRestrictedException
    ensures s == NotFound <==> k == UserNotFoundException || k == InvalidQuestionException || k == AnswerNotFoundException
    ensures s == InternalServerError <==> k == UnexpectedException
  {
    match k
    case AuthorizationFailedException => Forbidden
    case AuthenticationFailedException => Unauthorized
    case SignOutRestrictedException => Unauthorized
    case SignUpRestrictedException => Conflict
    case UserNotFoundException => NotFound
    case InvalidQuestionException => NotFound
    case AnswerNotFoundException => NotFound
    case UnexpectedException => InternalServerError
  }

  /** The response a handler builds for an error. A persistence exception
      has no handler here and is left to the framework's default. */
  function Handle(e: Error): (r: Option<ErrorResponse>)
    ensures r.Some? <==> e.Raised?
    ensures r.Some? ==> r.value.code == e.code && r.value.message == e.message
    ensures r.Some? ==> r.value.status == Status(e.kind)
  {
    match e
    case Raised(k, code, message) => Some(ErrorResponse(code, message, Status(k)))
    case Persistence(_) => None
  }

  /** Every service exception is answered with a client error except an
      unexpected one, which is a server error. */
  lemma ClientErrors(k: Kind)
    ensures k != UnexpectedException ==> 400 <= Status(k) < 500
    ensures k == UnexpectedException ==> Status(k) == 500
  {
  }
}
