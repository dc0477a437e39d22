/** The table of error conditions: each entry names one failure of one
    operation and carries a (code, message) pair. Codes are shared between
    entries; the pair as a whole identifies the entry. */
module ErrorConditions {
  import opened Common

  datatype Condition =
    // sign-up
    | UsernameAlreadyExists
    | EmailAlreadyExists
    // sign-in
    | UsernameNotFound
    | UserWrongPassword
    // sign-out
    | UserSignoutError
    // user profile
    | UserNotSignedIn
    | UserGetAuthFailure
    | UserNotFound
    // user deletion
    | UserSignedOut
    | UserDeleteUnauthorized
    | UserDeleteFailure
    // question creation
    | QuesCreateAuthFailure
    // all questions
    | QuesGetAllAuthFailure
    // question edit
    | QuesEditAuthFailure
    | QuesEditUnauthorized
    | QuesNotFound
    // question deletion
    | QuesDeleteAuthFailure
    | QuesDeleteUnauthorized
    // questions of one user
    | QuesGetAuthFailure
    | QuesGetFailure
    // answer creation
    | AnsCreateFailure
    | AnsCreateAuthFailure
    // answer edit
    | AnsEditAuthFailure
    | AnsEditUnauthorized
    | AnsNotFound
    // answer deletion
    | AnsDeleteAuthFailure
    | AnsDeleteUnauthorized
    // answers to a question
    | AnsGetAuthFailure
    | AnsGetFailure

  /** The entries raised when a caller's session has closed: every
      "auth failure" entry, and the generic signed-out entry. */
  predicate IsSignedOutEntry(c: Condition) {
    c in {UserGetAuthFailure, UserSignedOut, QuesCreateAuthFailure, QuesGetAllAuthFailure,
          QuesEditAuthFailure, QuesDeleteAuthFailure, QuesGetAuthFailure, AnsCreateAuthFailure,
          AnsEditAuthFailure, AnsDeleteAuthFailure, AnsGetAuthFailure}
  }

  /** The entries raised when a signed-in caller lacks ownership or the admin role. */
  predicate IsUnauthorizedEntry(c: Condition) {
    c in {UserDeleteUnauthorized, QuesEditUnauthorized, QuesDeleteUnauthorized,
          AnsEditUnauthorized, AnsDeleteUnauthorized}
  }

  /** The code of an entry. Every signed-out entry has code ATHR-002 and
      every unauthorized entry has code ATHR-003. */
  function Code(c: Condition): (r: string)
    ensures IsSignedOutEntry(c) ==> r == "ATHR-002"
    ensures IsUnauthorizedEntry(c) ==> r == "ATHR-003"
  {
    match c
    case UsernameAlreadyExists => "SGR-001"
    case EmailAlreadyExists => "SGR-002"
    case UsernameNotFound => "ATH-001"
    case UserWrongPassword => "ATH-002"
    case UserSignoutError => "SGR-001"
    case UserNotSignedIn => "ATHR-001"
    case UserGetAuthFailure => "ATHR-002"
    case UserNotFound => "USR-001"
    case UserSignedOut => "ATHR-002"
    case UserDeleteUnauthorized => "ATHR-003"
    case UserDeleteFailure => "USR-001"
    case QuesCreateAuthFailure => "ATHR-002"
    case QuesGetAllAuthFailure => "ATHR-002"
    case QuesEditAuthFailure => "ATHR-002"
    case QuesEditUnauthorized => "ATHR-003"
    case QuesNotFound => "QUES-001"
    case QuesDeleteAuthFailure => "ATHR-002"
    case QuesDeleteUnauthorized => "ATHR-003"
    case QuesGetAuthFailure => "ATHR-002"
    case QuesGetFailure => "USR-001"
    case AnsCreateFailure => "QUES-001"
    case AnsCreateAuthFailure => "ATHR-002"
    case AnsEditAuthFailure => "ATHR-002"
    case AnsEditUnauthorized => "ATHR-003"
    case AnsNotFound => "ANS-001"
    case AnsDeleteAuthFailure => "ATHR-002"
    case AnsDeleteUnauthorized => "ATHR-003"
    case AnsGetAuthFailure => "ATHR-002"
    case AnsGetFailure => "QUES-001"
  }

  /** The message of an entry. */
  function Message(c: Condition): string {
    match c
    case UsernameAlreadyExists => UsernameAlreadyExistsMessage
    case EmailAlreadyExists => EmailAlreadyExistsMessage
    case UsernameNotFound => UsernameNotFoundMessage
    case UserWrongPassword => UserWrongPasswordMessage
    case UserSignoutError => UserSignoutErrorMessage
    case UserNotSignedIn => UserNotSignedInMessage
    case UserGetAuthFailure => UserGetAuthFailureMessage
    case UserNotFound => UserNotFoundMessage
    case UserSignedOut => UserSignedOutMessage
    case UserDeleteUnauthorized => UserDeleteUnauthorizedMessage
    case UserDeleteFailure => UserDeleteFailureMessage
    case QuesCreateAuthFailure => QuesCreateAuthFailureMessage
    case QuesGetAllAuthFailure => QuesGetAllAuthFailureMessage
    case QuesEditAuthFailure => QuesEditAuthFailureMessage
    case QuesEditUnauthorized => QuesEditUnauthorizedMessage
    case QuesNotFound => QuesNotFoundMessage
    case QuesDeleteAuthFailure => QuesDeleteAuthFailureMessage
    case QuesDeleteUnauthorized => QuesDeleteUnauthorizedMessage
    case QuesGetAuthFailure => QuesGetAuthFailureMessage
    case QuesGetFailure => QuesGetFailureMessage
    case AnsCreateFailure => AnsCreateFailureMessage
    case AnsCreateAuthFailure => AnsCreateAuthFailureMessage
    case AnsEditAuthFailure => AnsEditAuthFailureMessage
    case AnsEditUnauthorized => AnsEditUnauthorizedMessage
    case AnsNotFound => AnsNotFoundMessage
    case AnsDeleteAuthFailure => AnsDeleteAuthFailureMessage
    case AnsDeleteUnauthorized => AnsDeleteUnauthorizedMessage
    case AnsGetAuthFailure => AnsGetAuthFailureMessage
    case AnsGetFailure => AnsGetFailureMessage
  }

  // The messages of the table, in its order.
  const UsernameAlreadyExistsMessage: string := "Try any other Username, this Username has already been taken"
  const EmailAlreadyExistsMessage: string := "This user has already been registered, try with any other emailId"
  const UsernameNotFoundMessage: string := "This username does not exist"
  const UserWrongPasswordMessage: string := "Password failed"
  const UserSignoutErrorMessage: string := "User is not Signed in"
  const UserNotSignedInMessage: string := "User has not signed in"
  const UserGetAuthFailureMessage: string := "User is signed out.Sign in first to get user details"
  const UserNotFoundMessage: string := "User with entered uuid does not exist"
  const UserSignedOutMessage: string := "User is signed out"
  const UserDeleteUnauthorizedMessage: string := "Unauthorized Access, Entered user is not an admin"
  const UserDeleteFailureMessage: string := "User with entered uuid to be deleted does not exist"
  const QuesCreateAuthFailureMessage: string := "User is signed out.Sign in first to post a question"
  const QuesGetAllAuthFailureMessage: string := "User is signed out.Sign in first to get all questions"
  const QuesEditAuthFailureMessage: string := "User is signed out.Sign in first to edit the question"
  const QuesEditUnauthorizedMessage: string := "Only the question owner can edit the question"
  const QuesNotFoundMessage: string := "Entered question uuid does not exist"
  const QuesDeleteAuthFailureMessage: string := "User is signed out.Sign in first to delete a question"
  const QuesDeleteUnauthorizedMessage: string := "Only the question owner or admin can delete the question"
  const QuesGetAuthFailureMessage: string := "User is signed out.Sign in first to get all questions posted by a specific user"
  const QuesGetFailureMessage: string := "User with entered uuid whose question details are to be seen does not exist"
  const AnsCreateFailureMessage: string := "The question entered is invalid"
  const AnsCreateAuthFailureMessage: string := "User is signed out.Sign in first to post an answer"
  const AnsEditAuthFailureMessage: string := "User is signed out.Sign in first to edit an answer"
  const AnsEditUnauthorizedMessage: string := "Only the answer owner can edit the answer"
  const AnsNotFoundMessage: string := "Entered answer uuid does not exist"
  const AnsDeleteAuthFailureMessage: string := "User is signed out.Sign in first to delete an answer"
  const AnsDeleteUnauthorizedMessage: string := "Only the answer owner or admin can delete the answer"
  const AnsGetAuthFailureMessage: string := "User is signed out.Sign in first to get the answers"
  const AnsGetFailureMessage: string := "The question with entered uuid whose details are to be seen does not exist"

  /** The exception of kind `k` carrying the entry's code and message. */
  function Raise(k: Kind, c: Condition): (e: Error)
    ensures e.Raised? && e.kind == k
    ensures e.code == Code(c) && e.message == Message(c)
  {
    Raised(k, Code(c), Message(c))
  }

  /** No two entries share a message, and therefore no two share their
      (code, message) pair, although codes alone are shared. */
  lemma PairsDistinct(c1: Condition, c2: Condition)
    requires c1 != c2
    ensures Message(c1) != Message(c2)
    ensures (Code(c1), Message(c1)) != (Code(c2), Message(c2))
  {
  }

  /** Codes alone do not identify entries: SGR-001, USR-001 and QUES-001 are
      each shared by several entries. The generic signed-out entry has the
      code of an expired session when reading a user's profile. */
  lemma CodesShared()
    ensures Code(UsernameAlreadyExists) == Code(UserSignoutError) == "SGR-001"
    ensures Code(UserNotFound) == Code(UserDeleteFailure) == Code(QuesGetFailure) == "USR-001"
    ensures Code(QuesNotFound) == Code(AnsCreateFailure) == Code(AnsGetFailure) == "QUES-001"
    ensures Code(UserSignedOut) == Code(UserGetAuthFailure) == "ATHR-002"
  {
  }
}
