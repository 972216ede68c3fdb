/** Requests and responses as the route handlers see them. Header names are
    lower-case; the error strings of the source are named by `Msg`. */
module Http {
  import opened Common
  import Password

  /** Request headers: lower-case name to value. */
  type Headers = map<string, string>

  /** `headers.get(name)`. */
  function Header(h: Headers, name: string): Option<string> {
    if name in h then Some(h[name]) else None
  }

  /** The fixed messages the handlers put in their responses. */
  datatype Msg =
    | InvalidRequest                 // "invalid request, reload the page" (CSRF failure)
    | FieldsRequired                 // "all fields are required"
    | TooManyAttempts(minutes: int)  // login lockout, with the minutes to wait
    | TooManyRequests(minutes: int)  // forgot-password lockout
    | InvalidCredentials             // the one generic login failure
    | InvalidData                    // "invalid data" (unknown company or user)
    | CodeInvalidOrExpired
    | WeakPassword(reason: Password.PwError)
    | PasswordTooShort               // registration's own length rule
    | SlugTaken
    | ResetCodeSentIfExists          // the non-enumerating forgot-password answer
    | EmailAndPasswordRequired
    | NotAuthenticated
    | SessionExpired
    | SessionCheckFailed
    | NoActiveSession
    | NoSessionToken
    | SessionInvalidOrExpired
    | Unauthorized
    | LoginFailed
    | RegistrationFailed
    | CleanupFailed
    | ServerError
    | InternalError
    | GenericError

  datatype UserView = UserView(id: string, name: string, email: string, role: Option<string>)

  datatype Body =
    | Error(error: Msg)
    | RateLimited(error: Msg, retryAfter: Option<int>)
    | Rejected(error: Msg, remainingAttempts: int)
    | Success
    | SuccessMessage(message: Msg)
    | LoggedIn(companyId: string, companySlug: string, csrfToken: string, user: UserView)
    | Registered(companyId: string, companySlug: string, userId: string)
    | Cleaned(deletedCount: nat, timestamp: int)

  datatype Response =
    | Json(status: int, body: Body)
    | Text(status: int, message: Msg)
    | Redirect(location: string)
}
