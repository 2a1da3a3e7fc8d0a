// The session half of logging in (cmd/api/sessions.go) and getUserFromContext
// (cmd/api/helpers.go). The session is the data map scs keeps for the
// request's cookie; the logged-in user is the email under the key "user".
// Each database read is a lookup in an abstract users table whose success is
// passed in.
module Sessions {
  import opened Common
  import opened Validator
  import opened Users
  import opened Responses

  /** userContextKey. */
  const UserKey: string := "user"

  /** sessionManager.GetString: the value under `key`, "" when there is none. */
  function SessionString(values: map<string, string>, key: string): (s: string)
    ensures key !in values ==> s == ""
    ensures key in values ==> s == values[key]
  {
    if key in values then values[key] else ""
  }

  /** The session of one client. */
  class SessionStore {
    var values: map<string, string>

    /** A client without a session cookie. */
    constructor ()
      ensures values == map[]
    {
      values := map[];
    }

    function GetString(key: string): string
      reads this
    {
      SessionString(values, key)
    }

    predicate Exists(key: string)
      reads this
    {
      key in values
    }

    method Put(key: string, value: string)
      modifies this
      ensures values == old(values)[key := value]
    {
      values := values[key := value];
    }

    /** Destroy: deletes the session; when the store fails (`ok` false) the
        session is left as it was. */
    method Destroy(ok: bool) returns (err: Option<Err>)
      modifies this
      ensures err.None? <==> ok
      ensures ok ==> values == map[]
      ensures !ok ==> values == old(values)
    {
      if !ok {
        return Some(Storage);
      }
      values := map[];
      err := None;
    }
  }

  // ---- The login decision, as a function of the session, the input and
  // the users table.

  const DifferentUserMessage: string := "already logged in as different user, please logout first"

  /** The error map of a failed credential check: unknown email and wrong
      password alike. */
  const InvalidCredentials: Errors := map["email" := "invalid email or password"]

  /** respondWithExistingSession: the stored user's details, or 500. */
  function ExistingSessionResponse(users: map<string, User>, email: string, dbOk: bool): (r: Response)
    ensures dbOk && email in users ==> r == Response(200, DetailsOf(users[email]))
    ensures !(dbOk && email in users) ==> r.status == 500
  {
    match Lookup(users, email, dbOk)
    case Ok(u) => Response(200, DetailsOf(u))
    case Fail(e) => ServerError(e)
  }

  /** handleExistingSession: None when there is no logged-in email and the
      login goes on; otherwise the response it sent. */
  function ExistingSessionOutcome(existing: string, inputEmail: string, users: map<string, User>, dbOk: bool):
    (r: Option<Response>)
    ensures r.None? <==> existing == ""
    ensures existing != "" && existing == inputEmail ==> r == Some(ExistingSessionResponse(users, existing, dbOk))
    ensures existing != "" && existing != inputEmail ==> r == Some(ErrorResponse(409, Text(DifferentUserMessage)))
  {
    if existing == "" then None
    else if existing == inputEmail then Some(ExistingSessionResponse(users, existing, dbOk))
    else Some(ErrorResponse(409, Text(DifferentUserMessage)))
  }

  /** The shape errors of a login input. */
  function CredentialErrors(email: string, password: string, emailRX: string -> bool): Errors {
    ValidatePasswordPlaintext(ValidateEmail(map[], email, emailRX), password)
  }

  datatype AuthOutcome = Authenticated(user: User) | Rejected(response: Response)

  /** authenticateUser: the user when the input is well formed, the email is
      known and the password matches; otherwise the response it sent. */
  function AuthenticateOutcome(email: string, password: string, users: map<string, User>, dbOk: bool,
                               compare: (seq<Byte>, string) -> MatchOutcome, emailRX: string -> bool):
    (r: AuthOutcome)
    ensures CredentialErrors(email, password, emailRX) != map[] ==>
              r == Rejected(FailedValidation(CredentialErrors(email, password, emailRX)))
    ensures r.Authenticated? <==>
              && CredentialErrors(email, password, emailRX) == map[]
              && dbOk && email in users
              && Matches(users[email].password, password, compare) == Ok(true)
    ensures r.Authenticated? ==> r.user == users[email]
    ensures r.Rejected? ==> r.response.status == 422 || r.response.status == 500
  {
    var errs := CredentialErrors(email, password, emailRX);
    if errs != map[] then Rejected(FailedValidation(errs))
    else match Lookup(users, email, dbOk)
      case Fail(e) =>
        if e == ErrNoUserFound then Rejected(FailedValidation(WithError(errs, "email", "invalid email or password")))
        else Rejected(ServerError(e))
      case Ok(u) =>
        match Matches(u.password, password, compare)
        case Fail(e) => Rejected(ServerError(e))
        case Ok(matched) =>
          if matched then Authenticated(u)
          else Rejected(FailedValidation(WithError(errs, "email", "invalid email or password")))
  }

  /** The response of a login and the session it leaves behind. */
  datatype LoginResult = LoginResult(response: Response, session: map<string, string>)

  /** The decision handleLogin makes, composed of the sessions.go steps. */
  function LoginDecision(session: map<string, string>, email: string, password: string,
                         users: map<string, User>, dbOk: bool,
                         compare: (seq<Byte>, string) -> MatchOutcome, emailRX: string -> bool):
    (r: LoginResult)
    // only a successful login touches the session, and then only its "user"
    ensures r.session == session ||
            (r.response.status == 200 && UserKey in r.session && r.session == session[UserKey := r.session[UserKey]])
  {
    match ExistingSessionOutcome(SessionString(session, UserKey), email, users, dbOk)
    case Some(resp) => LoginResult(resp, session)
    case None =>
      match AuthenticateOutcome(email, password, users, dbOk, compare, emailRX)
      case Rejected(resp) => LoginResult(resp, session)
      case Authenticated(u) => LoginResult(Response(200, DetailsOf(u)), session[UserKey := u.email])
  }

  // ---- The sessions.go steps, each proved against its part of the decision.

  /** respondWithExistingSession. */
  method RespondWithExistingSession(users: UserStore, email: string, dbOk: bool) returns (resp: Response)
    ensures resp == ExistingSessionResponse(users.users, email, dbOk)
  {
    var r := users.GetByEmail(email, dbOk);
    if r.Fail? {
      return ServerError(r.err);
    }
    resp := Response(200, DetailsOf(r.value));
  }

  /** handleExistingSession: `handled` is true when a response was sent. */
  method HandleExistingSession(session: SessionStore, users: UserStore, inputEmail: string, dbOk: bool)
    returns (handled: bool, resp: Option<Response>)
    ensures handled <==> resp.Some?
    ensures resp == ExistingSessionOutcome(session.GetString(UserKey), inputEmail, users.users, dbOk)
  {
    var existingEmail := session.GetString(UserKey);
    if existingEmail == "" {
      return false, None;
    }
    if existingEmail == inputEmail {
      var r := RespondWithExistingSession(users, existingEmail, dbOk);
      return true, Some(r);
    }
    return true, Some(ErrorResponse(409, Text(DifferentUserMessage)));
  }

  /** authenticateUser: the user, or the response that was sent. */
  method AuthenticateUser(users: UserStore, email: string, password: string, dbOk: bool,
                          compare: (seq<Byte>, string) -> MatchOutcome, emailRX: string -> bool)
    returns (user: Option<User>, resp: Option<Response>)
    ensures user.Some? <==> resp.None?
    ensures var o := AuthenticateOutcome(email, password, users.users, dbOk, compare, emailRX);
            && (o.Authenticated? ==> user == Some(o.user))
            && (o.Rejected? ==> resp == Some(o.response))
  {
    var v := new Validator.New();
    CheckEmail(v, email, emailRX);
    CheckPasswordPlaintext(v, password);
    if !v.Valid() {
      return None, Some(FailedValidation(v.errors));
    }
    var r := users.GetByEmail(email, dbOk);
    if r.Fail? {
      if r.err == ErrNoUserFound {
        v.AddError("email", "invalid email or password");
        return None, Some(FailedValidation(v.errors));
      }
      return None, Some(ServerError(r.err));
    }
    var matched := Matches(r.value.password, password, compare);
    if matched.Fail? {
      return None, Some(ServerError(matched.err));
    }
    if !matched.value {
      v.AddError("email", "invalid email or password");
      return None, Some(FailedValidation(v.errors));
    }
    return Some(r.value), None;
  }

  /** createSessionAndRespond: stores the user's email under "user" and
      answers with name, email and validated. */
  method CreateSessionAndRespond(session: SessionStore, user: User) returns (resp: Response)
    modifies session
    ensures session.values == old(session.values)[UserKey := user.email]
    ensures resp == Response(200, DetailsOf(user))
  {
    session.Put(UserKey, user.email);
    resp := Response(200, DetailsOf(user));
  }

  /** What getUserFromContext reports for a session and a users table. */
  function ContextUser(session: map<string, string>, users: map<string, User>, dbOk: bool): (r: Result<User>)
    ensures UserKey !in session ==> r == Fail(ErrUserUnauthenticated)
    ensures UserKey in session ==> r == Lookup(users, session[UserKey], dbOk)
  {
    if UserKey !in session then Fail(ErrUserUnauthenticated) else Lookup(users, session[UserKey], dbOk)
  }

  /** getUserFromContext: errUserUnauthenticated, without a lookup, when the
      session has no "user"; otherwise GetByEmail's result for its email. */
  method GetUserFromContext(session: SessionStore, users: UserStore, dbOk: bool) returns (r: Result<User>)
    ensures UserKey !in session.values ==> r == Fail(ErrUserUnauthenticated)
    ensures UserKey in session.values ==> r == Lookup(users.users, session.values[UserKey], dbOk)
    ensures r == ContextUser(session.values, users.users, dbOk)
  {
    if !session.Exists(UserKey) {
      return Fail(ErrUserUnauthenticated);
    }
    var email := session.GetString(UserKey);
    r := users.GetByEmail(email, dbOk);
  }

  // ---- Properties of the decision.

  /** Logging in again as the logged-in user succeeds without a password
      check and leaves the session untouched. */
  lemma SameUserLoginIsIdempotent(session: map<string, string>, email: string, password: string,
                                  users: map<string, User>, dbOk: bool,
                                  compare: (seq<Byte>, string) -> MatchOutcome, emailRX: string -> bool)
    requires SessionString(session, UserKey) == email && email != ""
    ensures var r := LoginDecision(session, email, password, users, dbOk, compare, emailRX);
            && r.session == session
            && r.response == ExistingSessionResponse(users, email, dbOk)
            && (dbOk && email in users ==> r.response == Response(200, DetailsOf(users[email])))
  {
  }

  /** Logging in as someone else while logged in is a 409 that leaves the
      session untouched, whatever the credentials. */
  lemma DifferentUserLoginConflicts(session: map<string, string>, email: string, password: string,
                                    users: map<string, User>, dbOk: bool,
                                    compare: (seq<Byte>, string) -> MatchOutcome, emailRX: string -> bool)
    requires SessionString(session, UserKey) != "" && SessionString(session, UserKey) != email
    ensures var r := LoginDecision(session, email, password, users, dbOk, compare, emailRX);
            && r.session == session
            && r.response == Response(409, ErrorText(DifferentUserMessage))
  {
  }

  /** An input-shape failure is answered with 422 and its field errors, the
      same whatever the users table holds and whether it is reachable: no
      lookup is made. */
  lemma ShapeFailureBeforeLookup(email: string, password: string,
                                 users1: map<string, User>, dbOk1: bool,
                                 users2: map<string, User>, dbOk2: bool,
                                 compare: (seq<Byte>, string) -> MatchOutcome, emailRX: string -> bool)
    requires CredentialErrors(email, password, emailRX) != map[]
    ensures LoginDecision(map[], email, password, users1, dbOk1, compare, emailRX) ==
            LoginDecision(map[], email, password, users2, dbOk2, compare, emailRX)
    ensures LoginDecision(map[], email, password, users1, dbOk1, compare, emailRX).response ==
            FailedValidation(CredentialErrors(email, password, emailRX))
  {
  }

  /** An unknown email and a wrong password are indistinguishable: both are
      a 422 with {"email": "invalid email or password"} and no session. */
  lemma UnknownEmailLooksLikeWrongPassword(session: map<string, string>, email: string, password: string,
                                           unknown: map<string, User>, known: map<string, User>,
                                           compare: (seq<Byte>, string) -> MatchOutcome, emailRX: string -> bool)
    requires SessionString(session, UserKey) == ""
    requires CredentialErrors(email, password, emailRX) == map[]
    requires email !in unknown
    requires email in known && Matches(known[email].password, password, compare) == Ok(false)
    ensures LoginDecision(session, email, password, unknown, true, compare, emailRX) ==
            LoginDecision(session, email, password, known, true, compare, emailRX)
    ensures LoginDecision(session, email, password, unknown, true, compare, emailRX) ==
            LoginResult(FailedValidation(InvalidCredentials), session)
  {
    assert WithError(map[], "email", "invalid email or password") == InvalidCredentials;
  }

  /** A failing lookup or a failing hash comparison is a 500. */
  lemma InfrastructureFailureIs500(session: map<string, string>, email: string, password: string,
                                   users: map<string, User>, dbOk: bool,
                                   compare: (seq<Byte>, string) -> MatchOutcome, emailRX: string -> bool)
    requires SessionString(session, UserKey) == ""
    requires CredentialErrors(email, password, emailRX) == map[]
    requires !dbOk || (email in users && Matches(users[email].password, password, compare).Fail?)
    ensures LoginDecision(session, email, password, users, dbOk, compare, emailRX).response.status == 500
  {
  }

  /** A login from an anonymous session succeeds exactly when the input is
      well formed, the email is known and the password matches; the session
      then holds the user's email, and the body only name, email and
      validated. */
  lemma LoginSucceedsIffCredentialsMatch(session: map<string, string>, email: string, password: string,
                                         users: map<string, User>, dbOk: bool,
                                         compare: (seq<Byte>, string) -> MatchOutcome, emailRX: string -> bool)
    requires SessionString(session, UserKey) == ""
    ensures var r := LoginDecision(session, email, password, users, dbOk, compare, emailRX);
            && (r.response.status == 200 <==>
                  CredentialErrors(email, password, emailRX) == map[] && dbOk && email in users &&
                  Matches(users[email].password, password, compare) == Ok(true))
            && (r.response.status == 200 ==>
                  r.session == session[UserKey := users[email].email] &&
                  r.response.body == DetailsOf(users[email]))
            && (r.response.status != 200 ==> r.session == session)
  {
    var o := AuthenticateOutcome(email, password, users, dbOk, compare, emailRX);
    assert o.Rejected? ==> o.response.status != 200;
  }

  /** After a successful login, logging in again as the same user (any
      password) answers with the same details and keeps the session. */
  lemma LoginThenLoginAgain(email: string, password: string, again: string,
                            users: map<string, User>,
                            compare: (seq<Byte>, string) -> MatchOutcome, emailRX: string -> bool)
    requires email in users && users[email].email == email
    requires LoginDecision(map[], email, password, users, true, compare, emailRX).response.status == 200
    ensures var first := LoginDecision(map[], email, password, users, true, compare, emailRX);
            LoginDecision(first.session, email, again, users, true, compare, emailRX) ==
            LoginResult(first.response, first.session)
  {
    LoginSucceedsIffCredentialsMatch(map[], email, password, users, true, compare, emailRX);
  }
}
