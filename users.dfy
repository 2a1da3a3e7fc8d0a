// The user record and its store (internal/data/users.go).
module Users {
  import opened Common
  import opened Validator

  /** The password field: the plaintext when the record was built from a
      request, and the bcrypt hash (nil until Set or a database read). */
  datatype Password = Password(plaintext: Option<string>, hash: Option<seq<Byte>>)

  datatype User = User(
    id: int,
    createdAt: Time,
    name: string,
    email: string,
    password: Password,
    validated: bool,
    version: int)

  /** Result of bcrypt's CompareHashAndPassword as Matches reports it. */
  datatype MatchOutcome = Match | Mismatch | CompareError

  /** password.Set: the bcrypt hash is computed elsewhere; `generated` is
      GenerateFromPassword's result (None: it failed). */
  function SetPassword(plaintext: string, generated: Option<seq<Byte>>): (r: Option<Password>)
    ensures r.Some? <==> generated.Some?
    ensures r.Some? ==> r.value.plaintext == Some(plaintext) && r.value.hash == generated
  {
    if generated.Some? then Some(Password(Some(plaintext), generated)) else None
  }

  /** ValidateEmail: "must be provided" for an empty address, otherwise an
      error exactly when the address does not match EmailRX (`emailRX`). */
  function ValidateEmail(errs: Errors, email: string, emailRX: string -> bool): (r: Errors)
    ensures r.Keys == errs.Keys + (if email == "" || !emailRX(email) then {"email"} else {})
    ensures forall k :: k in errs ==> r[k] == errs[k]
    ensures "email" !in errs && email == "" ==> r["email"] == "must be provided"
    ensures "email" !in errs && email != "" && !emailRX(email) ==>
              r["email"] == "must be a valid email address"
  {
    var v := Checked(errs, email != "", "email", "must be provided");
    Checked(v, emailRX(email), "email", "must be a valid email address")
  }

  /** ValidatePasswordPlaintext: the length in bytes must lie in 8..72; the
      first failing check names the message. */
  function ValidatePasswordPlaintext(errs: Errors, password: string): (r: Errors)
    ensures r.Keys == errs.Keys + (if 8 <= |password| <= 72 then {} else {"password"})
    ensures forall k :: k in errs ==> r[k] == errs[k]
    ensures "password" !in errs && password == "" ==> r["password"] == "must be provided"
    ensures "password" !in errs && 0 < |password| < 8 ==>
              r["password"] == "must be at least 8 characters long"
    ensures "password" !in errs && |password| > 72 ==>
              r["password"] == "must not be more than 72 characters long"
  {
    var v := Checked(errs, password != "", "password", "must be provided");
    var v := Checked(v, |password| >= 8, "password", "must be at least 8 characters long");
    Checked(v, |password| <= 72, "password", "must not be more than 72 characters long")
  }

  /** The conditions ValidateUser checks, all at once. */
  predicate WellFormedUser(user: User, emailRX: string -> bool) {
    && user.name != "" && |user.name| <= 50
    && user.email != "" && emailRX(user.email)
    && (user.password.plaintext.Some? ==> 8 <= |user.password.plaintext.value| <= 72)
  }

  /** ValidateUser: name (non-empty, at most 50 bytes), email, and the
      password rule only when a plaintext is present. The Go code panics
      when the record has no password hash; callers must set one first. */
  function ValidateUser(errs: Errors, user: User, emailRX: string -> bool): (r: Errors)
    requires user.password.hash.Some?
    ensures errs.Keys <= r.Keys && forall k :: k in errs ==> r[k] == errs[k]
    ensures r.Keys - errs.Keys <= {"name", "email", "password"}
    ensures (r == map[]) <==> (errs == map[] && WellFormedUser(user, emailRX))
    ensures "name" in r <==> "name" in errs || user.name == "" || |user.name| > 50
    ensures "name" !in errs && user.name == "" ==> r["name"] == "must be provided"
    ensures "name" !in errs && |user.name| > 50 ==> r["name"] == "must not be more than 50 characters long"
    ensures user.password.plaintext.None? ==> ("password" in r <==> "password" in errs)
  {
    var v := Checked(errs, user.name != "", "name", "must be provided");
    var v := Checked(v, |user.name| <= 50, "name", "must not be more than 50 characters long");
    var v := ValidateEmail(v, user.email, emailRX);
    if user.password.plaintext.Some? then ValidatePasswordPlaintext(v, user.password.plaintext.value) else v
  }

  /** ValidateEmail as the Go code runs it: two Check calls on the
      validator. */
  method CheckEmail(v: Validator, email: string, emailRX: string -> bool)
    modifies v
    ensures v.errors == ValidateEmail(old(v.errors), email, emailRX)
  {
    v.Check(email != "", "email", "must be provided");
    v.Check(emailRX(email), "email", "must be a valid email address");
  }

  /** ValidatePasswordPlaintext as the Go code runs it. */
  method CheckPasswordPlaintext(v: Validator, password: string)
    modifies v
    ensures v.errors == ValidatePasswordPlaintext(old(v.errors), password)
  {
    v.Check(password != "", "password", "must be provided");
    v.Check(|password| >= 8, "password", "must be at least 8 characters long");
    v.Check(|password| <= 72, "password", "must not be more than 72 characters long");
  }

  /** ValidateUser as the Go code runs it. */
  method CheckUser(v: Validator, user: User, emailRX: string -> bool)
    requires user.password.hash.Some?
    modifies v
    ensures v.errors == ValidateUser(old(v.errors), user, emailRX)
  {
    v.Check(user.name != "", "name", "must be provided");
    v.Check(|user.name| <= 50, "name", "must not be more than 50 characters long");
    CheckEmail(v, user.email, emailRX);
    if user.password.plaintext.Some? {
      CheckPasswordPlaintext(v, user.password.plaintext.value);
    }
  }

  /** password.Matches, with bcrypt's CompareHashAndPassword passed in as
      `compare`: a mismatch is a plain false, any other failure of the
      comparison an error. A record without a hash cannot match: bcrypt
      rejects an empty hash as too short, which is such an error. */
  function Matches(p: Password, plaintext: string, compare: (seq<Byte>, string) -> MatchOutcome): (r: Result<bool>)
    ensures r == Ok(true) <==> p.hash.Some? && compare(p.hash.value, plaintext) == Match
    ensures r == Ok(false) <==> p.hash.Some? && compare(p.hash.value, plaintext) == Mismatch
    ensures r.Fail? <==> p.hash.None? || compare(p.hash.value, plaintext) == CompareError
  {
    if p.hash.None? then Fail(Storage)
    else match compare(p.hash.value, plaintext)
      case Match => Ok(true)
      case Mismatch => Ok(false)
      case CompareError => Fail(Storage)
  }

  /** What GetByEmail reports for a table `users` (`dbOk` false: the query
      failed). */
  function Lookup(users: map<string, User>, email: string, dbOk: bool): (r: Result<User>)
    ensures r.Ok? <==> dbOk && email in users
    ensures r.Ok? ==> r.value == users[email]
    ensures r.Fail? ==> (r.err == ErrNoUserFound <==> dbOk)
  {
    if !dbOk then Fail(Storage) else if email in users then Ok(users[email]) else Fail(ErrNoUserFound)
  }

  /** The record as the users table holds it: password_hash is the only
      password column, so a record read back has no plaintext. */
  function Persisted(user: User): (r: User)
    ensures r.password.plaintext.None? && r.password.hash == user.password.hash
    ensures r.(password := user.password) == user
  {
    user.(password := Password(None, user.password.hash))
  }

  /** Outcome of the Update statement, which is not part of this model:
      applied, rejected as an edit conflict, or failed. */
  datatype UpdateOutcome = Applied | Conflict | UpdateFailed

  /** The users table: one record per email (the table's unique constraint),
      ids handed out by a serial column. */
  class UserStore {
    var users: map<string, User>
    var nextID: int

    ghost predicate Valid()
      reads this
    {
      && (forall e :: e in users ==> users[e].email == e && users[e].id < nextID)
      && (forall e1, e2 :: e1 in users && e2 in users && e1 != e2 ==> users[e1].id != users[e2].id)
      && (forall e :: e in users ==> users[e].password.plaintext.None?)
    }

    constructor ()
      ensures Valid() && users == map[]
    {
      users := map[];
      nextID := 1;
    }

    /** Insert: fails with ErrDuplicateEmail when the email is taken; otherwise
        fills in ID, CreatedAt and Version (RETURNING) on the caller's record
        and stores it with its hash but without the plaintext.
        `dbOk` is false when the statement fails for another reason. */
    method Insert(user: User, now: Time, dbOk: bool) returns (stored: User, err: Option<Err>)
      requires Valid()
      modifies this
      ensures Valid()
      ensures !dbOk ==> err == Some(Storage) && users == old(users) && stored == user
      ensures dbOk && user.email in old(users) ==>
                err == Some(ErrDuplicateEmail) && users == old(users) && stored == user
      ensures dbOk && user.email !in old(users) ==>
                && err.None?
                && stored == user.(id := old(nextID), createdAt := now, version := 1)
                && users == old(users)[user.email := Persisted(stored)]
    {
      if !dbOk {
        return user, Some(Storage);
      }
      if user.email in users {
        return user, Some(ErrDuplicateEmail);
      }
      stored := user.(id := nextID, createdAt := now, version := 1);
      users := users[user.email := Persisted(stored)];
      nextID := nextID + 1;
      err := None;
    }

    /** GetByEmail: the stored record, or ErrNoUserFound. */
    method GetByEmail(email: string, dbOk: bool) returns (r: Result<User>)
      ensures !dbOk ==> r == Fail(Storage)
      ensures dbOk && email in users ==> r == Ok(users[email])
      ensures dbOk && email !in users ==> r == Fail(ErrNoUserFound)
      ensures r == Lookup(users, email, dbOk)
    {
      if !dbOk {
        return Fail(Storage);
      }
      if email in users {
        r := Ok(users[email]);
      } else {
        r := Fail(ErrNoUserFound);
      }
    }

    /** DeleteUser: removes the record with the user's email; ErrNoUserFound
        when no row was affected. */
    method DeleteUser(user: User, dbOk: bool) returns (err: Option<Err>)
      requires Valid()
      modifies this
      ensures Valid() && nextID == old(nextID)
      ensures !dbOk ==> err == Some(Storage) && users == old(users)
      ensures dbOk && user.email !in old(users) ==> err == Some(ErrNoUserFound) && users == old(users)
      ensures dbOk && user.email in old(users) ==> err.None? && users == old(users) - {user.email}
    {
      if !dbOk {
        return Some(Storage);
      }
      if user.email !in users {
        return Some(ErrNoUserFound);
      }
      users := users - {user.email};
      err := None;
    }

    /** Update: the statement itself is not part of this model. When it is
        applied it overwrites the record with this email and id (as every
        write, without a plaintext); a record that is not there is reported
        as an edit conflict. */
    method Update(user: User, outcome: UpdateOutcome) returns (err: Option<Err>)
      requires Valid()
      modifies this
      ensures Valid() && nextID == old(nextID)
      ensures err.None? <==>
                outcome == Applied && user.email in old(users) && old(users)[user.email].id == user.id
      ensures err.None? ==> users == old(users)[user.email := Persisted(user)]
      ensures err.Some? ==> users == old(users)
      ensures outcome == Conflict ==> err == Some(ErrEditConflict)
      ensures outcome == UpdateFailed ==> err == Some(Storage)
    {
      if outcome == UpdateFailed {
        return Some(Storage);
      }
      if outcome == Conflict || user.email !in users || users[user.email].id != user.id {
        return Some(ErrEditConflict);
      }
      users := users[user.email := Persisted(user)];
      err := None;
    }
  }
}
