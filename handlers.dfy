// The account handlers (cmd/api/users.go) as transitions over the users
// table, the registration-token table and the client's session. The decoded
// request body (or readJSON's error text), the outcomes of the database
// statements, of bcrypt and of the mail steps are inputs. The JSON writing of
// a success response is not modelled; the mail sending that the handlers
// start on a background goroutine is run after the response, in sequence.
module Handlers {
  import opened Common
  import opened Validator
  import opened Users
  import opened Registration
  import opened Mailer
  import opened Responses
  import opened Sessions

  // ---- A failed getUserFromContext.

  /** How handleGetLoggedInUser and handleSendRegistrationEmail answer a
      failed getUserFromContext, as written: only ErrNoUserFound is a 401.
      An anonymous request fails with errUserUnauthenticated, which is not
      ErrNoUserFound, and so gets a 500. */
  function ContextFailureAsWritten(err: Err): (r: Response)
    ensures r.status == 401 <==> err == ErrNoUserFound
    ensures r.status != 401 ==> r == ServerError(err)
  {
    if err == ErrNoUserFound then Unauthenticated() else ServerError(err)
  }

  /** The evident intent: a request without a session, or with a session
      whose user no longer exists, is unauthenticated (401); any other
      failure is a 500. The handlers below answer as written; this mapping
      is the correction, applied through LoggedInUserResponse. */
  function ContextFailure(err: Err): (r: Response)
    ensures r.status == 401 <==> err == ErrNoUserFound || err == ErrUserUnauthenticated
    ensures r.status != 401 ==> r == ServerError(err)
  {
    if err == ErrNoUserFound || err == ErrUserUnauthenticated then Unauthenticated() else ServerError(err)
  }

  /** The response of GET /user when a failed getUserFromContext is answered
      by `failure`: ContextFailureAsWritten for the code as written,
      ContextFailure for the correction. */
  function LoggedInUserResponse(session: map<string, string>, users: map<string, User>, dbOk: bool,
                                failure: Err -> Response): (r: Response)
    ensures UserKey in session && dbOk && session[UserKey] in users ==>
              r == Response(200, PublicUserOf(users[session[UserKey]]))
    ensures UserKey !in session ==> r == failure(ErrUserUnauthenticated)
    ensures UserKey in session && !dbOk ==> r == failure(Storage)
    ensures UserKey in session && dbOk && session[UserKey] !in users ==> r == failure(ErrNoUserFound)
  {
    match ContextUser(session, users, dbOk)
    case Ok(u) => Response(200, PublicUserOf(u))
    case Fail(e) => failure(e)
  }

  /** As written, GET /user is 401 only for a session whose user is gone;
      a request without a session is a 500. */
  lemma UserResponseAsWritten(session: map<string, string>, users: map<string, User>, dbOk: bool)
    ensures var r := LoggedInUserResponse(session, users, dbOk, ContextFailureAsWritten);
            && (r.status == 200 <==> UserKey in session && dbOk && session[UserKey] in users)
            && (r.status == 401 <==> UserKey in session && dbOk && session[UserKey] !in users)
            && (r.status != 200 && r.status != 401 ==> r.status == 500)
            && (UserKey !in session ==> r == ServerError(ErrUserUnauthenticated))
  {
  }

  /** With the correction, GET /user is 401 exactly for an anonymous session
      or one whose user is gone. */
  lemma UserResponseCorrected(session: map<string, string>, users: map<string, User>, dbOk: bool)
    ensures var r := LoggedInUserResponse(session, users, dbOk, ContextFailure);
            && (r.status == 200 <==> UserKey in session && dbOk && session[UserKey] in users)
            && (r.status == 401 <==> UserKey !in session || (dbOk && session[UserKey] !in users))
            && (r.status != 200 && r.status != 401 ==> r.status == 500)
  {
  }

  /** handleGetLoggedInUser, as written. */
  method HandleGetLoggedInUser(session: SessionStore, users: UserStore, dbOk: bool) returns (resp: Response)
    ensures resp == LoggedInUserResponse(session.values, users.users, dbOk, ContextFailureAsWritten)
  {
    var r := GetUserFromContext(session, users, dbOk);
    if r.Fail? {
      return ContextFailureAsWritten(r.err);
    }
    resp := Response(200, PublicUserOf(r.value));
  }

  /** handleSendRegistrationEmail: on success nothing is written, which is a
      200 with an empty body. */
  method HandleSendRegistrationEmail(session: SessionStore, users: UserStore, tokens: RegistrationStore,
                                     dbOk: bool, now: Time, env: SendEnv)
    returns (resp: Response)
    requires WellFormedEnv(env)
    modifies tokens
    ensures ContextUser(session.values, users.users, dbOk).Fail? ==>
              resp == ContextFailureAsWritten(ContextUser(session.values, users.users, dbOk).err) &&
              tokens.rows == old(tokens.rows)
    ensures ContextUser(session.values, users.users, dbOk).Ok? ==>
              var u := ContextUser(session.values, users.users, dbOk).value;
              && (resp.status == 200 <==> MailSucceeds(env))
              && (resp.status == 200 ==> resp.body == NoBody && |RowsOf(tokens.rows, u.id)| == 1)
              && (resp.status != 200 ==> resp.status == 500)
  {
    var r := GetUserFromContext(session, users, dbOk);
    if r.Fail? {
      return ContextFailureAsWritten(r.err);
    }
    var err, _ := SendRegistrationEmail(tokens, r.value, now, env);
    if err.Some? {
      return ServerError(err.value);
    }
    resp := Response(200, NoBody);
  }

  // ---- Sign-up.

  datatype SignupInput = SignupInput(name: string, email: string, password: string)

  /** The record handleCreateUser builds before inserting it. */
  function NewUser(input: SignupInput, password: Password): (u: User)
    ensures u.name == input.name && u.email == input.email && u.password == password && !u.validated
  {
    User(0, 0, input.name, input.email, password, false, 0)
  }

  const DuplicateEmailMessage: string := "a user with this email address already exists"

  /** handleCreateUser: validate, insert, answer 201 with the record, then
      send the registration email. `generated` is bcrypt's hash (None: it
      failed), `insertOk` whether the statement could run, `mail` what the
      mail steps do; `mailErr` is what the background send reports (it only
      reaches the log). */
  method HandleCreateUser(users: UserStore, tokens: RegistrationStore, input: Decoded<SignupInput>,
                          generated: Option<seq<Byte>>, now: Time, insertOk: bool, mail: SendEnv,
                          emailRX: string -> bool)
    returns (resp: Response, mailErr: Option<Err>)
    requires users.Valid() && WellFormedEnv(mail)
    modifies users, tokens
    ensures users.Valid()
    ensures input.Undecodable? ==> resp == BadRequest(input.message)
    ensures input.Decoded? && generated.None? ==> resp.status == 500
    ensures input.Decoded? && generated.Some? ==>
              var user := NewUser(input.value, SetPassword(input.value.password, generated).value);
              var errs := ValidateUser(map[], user, emailRX);
              && (errs != map[] ==> resp == FailedValidation(errs))
              && (errs == map[] && !insertOk ==> resp.status == 500)
              && (errs == map[] && insertOk && user.email in old(users.users) ==>
                    resp == ErrorResponse(409, Text(DuplicateEmailMessage)))
              && (errs == map[] && insertOk && user.email !in old(users.users) ==>
                    var stored := user.(id := old(users.nextID), createdAt := now, version := 1);
                    && resp == Response(201, PublicUserOf(stored))
                    && users.users == old(users.users)[user.email := Persisted(stored)]
                    && (mailErr.None? <==> MailSucceeds(mail))
                    && (mailErr.None? ==> |RowsOf(tokens.rows, stored.id)| == 1))
    // nothing is stored, and no email is sent, unless the response is 201
    ensures resp.status != 201 ==> users.users == old(users.users) && tokens.rows == old(tokens.rows) && mailErr.None?
  {
    mailErr := None;
    if input.Undecodable? {
      return BadRequest(input.message), None;
    }
    var pw := SetPassword(input.value.password, generated);
    if pw.None? {
      return ServerError(Storage), None;
    }
    var user := NewUser(input.value, pw.value);
    var v := new Validator.New();
    CheckUser(v, user, emailRX);
    if !v.Valid() {
      return FailedValidation(v.errors), None;
    }
    var stored, err := users.Insert(user, now, insertOk);
    if err.Some? {
      if err.value == ErrDuplicateEmail {
        return ErrorResponse(409, Text(DuplicateEmailMessage)), None;
      }
      return ServerError(err.value), None;
    }
    resp := Response(201, PublicUserOf(stored));
    var delivered;
    mailErr, delivered := SendRegistrationEmail(tokens, stored, now, mail);
  }

  // ---- Activation.

  const InvalidTokenMessage: string := "invalid or expired access token"

  /** Every row carrying `hash` belongs to one user. */
  ghost predicate SingleOwner(rows: seq<Row>, hash: Digest) {
    forall i, j :: 0 <= i < |rows| && 0 <= j < |rows| && rows[i].hash == hash && rows[j].hash == hash ==>
      rows[i].userID == rows[j].userID
  }

  /** handleRegisterUser at clock reading `now`: check the token's shape,
      resolve it, mark the user validated, store that (`update` is what the
      Update statement does), then revoke all the user's tokens and send the
      confirmation email, which touches no table; `mailErr` is what that send
      reports (it only reaches the log). */
  method HandleRegisterUser(users: UserStore, tokens: RegistrationStore, input: Decoded<string>,
                            now: Time, lookupOk: bool, update: UpdateOutcome, revokeOk: bool, mail: SendEnv)
    returns (resp: Response, mailErr: Option<Err>)
    requires users.Valid()
    modifies users, tokens
    ensures users.Valid()
    ensures input.Undecodable? ==> resp == BadRequest(input.message)
    // a malformed token is rejected before any lookup
    ensures input.Decoded? && ValidateRegistrationToken(map[], input.value) != map[] ==>
              resp == FailedValidation(ValidateRegistrationToken(map[], input.value))
    // an unknown or expired token is a 422 on "token"
    ensures input.Decoded? && ValidateRegistrationToken(map[], input.value) == map[] && lookupOk &&
            (forall u :: !JoinsTo(old(tokens.rows), old(users.users), input.value, now, u)) ==>
              resp == FailedValidation(map["token" := InvalidTokenMessage])
    ensures resp.status != 200 && resp.status != 500 ==>
              users.users == old(users.users) && tokens.rows == old(tokens.rows)
    ensures resp.status == 409 <==>
              && input.Decoded? && ValidateRegistrationToken(map[], input.value) == map[] && lookupOk
              && (exists u :: JoinsTo(old(tokens.rows), old(users.users), input.value, now, u))
              && update == Conflict
    // success: the user is stored as validated and none of its tokens is left
    ensures resp.status == 200 ==>
              && input.Decoded?
              && exists u :: JoinsTo(old(tokens.rows), old(users.users), input.value, now, u)
                   && users.users == old(users.users)[u.email := u.(validated := true)]
                   && tokens.rows == WithoutUser(old(tokens.rows), u.id)
                   && resp.body == ActivatedDetails(u.name, u.email, u.createdAt, true)
    // the confirmation email is attempted only after a success
    ensures resp.status != 200 ==> mailErr.None?
    ensures resp.status == 200 ==> (mailErr.None? <==> mail.templateParses && mail.renders && mail.accepted)
    // so the same token never resolves again, when it was that user's alone
    ensures resp.status == 200 && SingleOwner(old(tokens.rows), Sha256Of(input.value)) ==>
              forall u, at :: !JoinsTo(tokens.rows, users.users, input.value, at, u)
  {
    mailErr := None;
    if input.Undecodable? {
      return BadRequest(input.message), None;
    }
    var token := input.value;
    var v := new Validator.New();
    CheckRegistrationToken(v, token);
    if !v.Valid() {
      return FailedValidation(v.errors), None;
    }
    var r := tokens.GetUserFromToken(token, now, users, lookupOk);
    if r.Fail? {
      if r.err == ErrNoUserFound {
        v.AddError("token", InvalidTokenMessage);
        return FailedValidation(v.errors), None;
      }
      return ServerError(r.err), None;
    }
    ghost var u := r.value;
    ghost var rows0 := tokens.rows;
    assert JoinsTo(rows0, users.users, token, now, u);
    assert users.users[u.email] == u by {
      var e :| e in users.users && users.users[e] == u;
    }
    var user := r.value.(validated := true);
    var err := users.Update(user, update);
    if err.Some? {
      if err.value == ErrEditConflict {
        return DataConflict(err.value), None;
      }
      return ServerError(err.value), None;
    }
    err := tokens.RevokeTokensForUser(user.id, revokeOk);
    if err.Some? {
      return ServerError(err.value), None;
    }
    var delivered;
    mailErr, delivered := SendAccountActivatedEmail(user, mail.templateParses, mail.renders, mail.accepted);
    resp := Response(200, ActivatedDetails(user.name, user.email, user.createdAt, user.validated));
    if SingleOwner(rows0, Sha256Of(token)) {
      forall w, at ensures !JoinsTo(tokens.rows, users.users, token, at, w) {
        var i :| 0 <= i < |rows0| && Live(rows0[i], token, now) && u.id == rows0[i].userID;
        RevokedTokenDoesNotResolve(rows0, users.users, u.id, token, at, w);
      }
    }
  }

  /** The replay of an activation: once a token has activated its user, the
      same token is answered with 422, as expired or unknown tokens are. */
  method ActivationReplay(users: UserStore, tokens: RegistrationStore, token: string,
                          now: Time, later: Time, update: UpdateOutcome, mail: SendEnv)
    returns (first: Response, second: Response)
    requires users.Valid() && SingleOwner(tokens.rows, Sha256Of(token))
    modifies users, tokens
    ensures first.status == 200 ==> second == FailedValidation(map["token" := InvalidTokenMessage])
  {
    var firstMail, secondMail;
    first, firstMail := HandleRegisterUser(users, tokens, Decoded(token), now, true, update, true, mail);
    second, secondMail := HandleRegisterUser(users, tokens, Decoded(token), later, true, update, true, mail);
  }

  // ---- Log in and log out.

  datatype LoginInput = LoginInput(email: string, password: string)

  /** handleLogin, written out as users.go writes it (it repeats the
      sessions.go steps inline), proved to make the same decision. */
  method HandleLogin(session: SessionStore, users: UserStore, input: Decoded<LoginInput>, dbOk: bool,
                     compare: (seq<Byte>, string) -> MatchOutcome, emailRX: string -> bool)
    returns (resp: Response)
    modifies session
    ensures input.Undecodable? ==> resp == BadRequest(input.message) && session.values == old(session.values)
    ensures input.Decoded? ==>
              var d := LoginDecision(old(session.values), input.value.email, input.value.password,
                                     users.users, dbOk, compare, emailRX);
              resp == d.response && session.values == d.session
  {
    if input.Undecodable? {
      return BadRequest(input.message);
    }
    var email := input.value.email;
    var password := input.value.password;
    var existingEmail := session.GetString(UserKey);
    if existingEmail != "" {
      if existingEmail == email {
        var r := users.GetByEmail(existingEmail, dbOk);
        if r.Fail? {
          return ServerError(r.err);
        }
        return Response(200, DetailsOf(r.value));
      } else {
        return ErrorResponse(409, Text(DifferentUserMessage));
      }
    }
    var v := new Validator.New();
    CheckEmail(v, email, emailRX);
    CheckPasswordPlaintext(v, password);
    if !v.Valid() {
      return FailedValidation(v.errors);
    }
    var r := users.GetByEmail(email, dbOk);
    if r.Fail? {
      if r.err == ErrNoUserFound {
        v.AddError("email", "invalid email or password");
        return FailedValidation(v.errors);
      }
      return ServerError(r.err);
    }
    var matched := Matches(r.value.password, password, compare);
    if matched.Fail? {
      return ServerError(matched.err);
    }
    if !matched.value {
      v.AddError("email", "invalid email or password");
      return FailedValidation(v.errors);
    }
    session.Put(UserKey, r.value.email);
    resp := Response(200, DetailsOf(r.value));
  }

  const LoggedOutMessage: string := "logged out successfully"

  /** handleLogout: destroys the session whatever it holds. */
  method HandleLogout(session: SessionStore, destroyOk: bool) returns (resp: Response)
    modifies session
    ensures destroyOk ==> session.values == map[] && resp == Response(200, Notice(LoggedOutMessage))
    ensures !destroyOk ==> session.values == old(session.values) && resp.status == 500
  {
    var err := session.Destroy(destroyOk);
    if err.Some? {
      return ServerError(err.value);
    }
    resp := Response(200, Notice(LoggedOutMessage));
  }

  /** After a logout, GET /user is unauthenticated with the correction; as
      written it is a 500. */
  lemma LoggedOutIsUnauthenticated(users: map<string, User>, dbOk: bool)
    ensures LoggedInUserResponse(map[], users, dbOk, ContextFailure) == Unauthenticated()
    ensures LoggedInUserResponse(map[], users, dbOk, ContextFailureAsWritten) == ServerError(ErrUserUnauthenticated)
  {
  }
}
