/**
 * The request context every controller action reads: the session keys
 * "Username" and "Role", and the kinds of action result an action returns.
 */
module Web {
  import opened Wrappers

  /** The session as the controllers read it; a missing key is None. */
  datatype Session = Session(username: Option<string>, role: Option<string>)

  /** The session after Session.Clear(). */
  const Anonymous := Session(None, None)

  /** Where a caller without a session username is sent, and where Register and Logout send them. */
  const LoginPage := Redirect("Login", "Index")

  /** Role == "Admin"; a missing role is not Admin. */
  predicate IsAdmin(s: Session) {
    s.role == Some("Admin")
  }

  /** The session holds a username that is neither missing nor empty. */
  predicate SignedIn(s: Session) {
    s.username.Some? && s.username.value != ""
  }

  /**
   * The per-record gate the controllers repeat: an Admin, or a caller whose
   * session username equals the stored owner (null equals null, as in C#).
   */
  predicate MayAccess(s: Session, owner: Option<string>) {
    IsAdmin(s) || owner == s.username
  }

  /** The action results the modelled actions return. */
  datatype Response =
    | Page                                    // View(...) rendered without an error
    | FormError(message: string)              // View(...) with a model-state error added
    | Redirect(controller: string, action: string)
    | NotFound
    | Unauthorized
    | BadRequest
    | Text(content: string)                   // Content(...)
    | ServerError                             // an exception escaped the action

  /** An action's result together with the state it leaves behind. */
  datatype Step<S> = Step(response: Response, state: S)
}
