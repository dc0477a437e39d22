/** Values shared by every layer: optional values, outcomes of operations that
    can fail, the exception kinds the services raise, and the clock. */
module Common {

  datatype Option<+T> = None | Some(value: T)

  /** A point in time, in seconds. Every operation reads the clock once and
      receives the reading as a parameter. */
  type Time = int

  const SecondsPerHour: int := 3600

  /** The exception classes of the service layer. Each of them carries a
      (code, message) pair. */
  datatype Kind =
    | AuthorizationFailedException
    | AuthenticationFailedException
    | SignOutRestrictedException
    | SignUpRestrictedException
    | UserNotFoundException
    | InvalidQuestionException
    | AnswerNotFoundException
    | UnexpectedException

  /** Why the persistence layer refused a read or a write. */
  datatype PersistFailure =
    | ConstraintViolation(constraintName: string)  // a database constraint, by name
    | IntegrityViolation                           // a data-integrity failure with another cause
    | ValidationFailure                            // an entity field failed its declared bounds
    | NonUniqueResult                              // a single-row query matched several rows

  /** A failure: either a service exception with its code and message, or a
      persistence exception that no service catches. */
  datatype Error =
    | Raised(kind: Kind, code: string, message: string)
    | Persistence(cause: PersistFailure)

  /** The outcome of an operation: a value, or the error it was thrown with. */
  datatype Result<+T> = Ok(value: T) | Err(error: Error)
}
