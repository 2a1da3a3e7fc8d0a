// Registration (activation) tokens: minting, the shape check, and the token
// table with insert, revoke-all-for-user and lookup by plaintext
// (internal/data/registration.go).
module Registration {
  import opened Common
  import opened Validator
  import Base32
  import opened Users

  /** SHA-256 of a string, as an injective function that reveals nothing else:
      two digests are equal exactly when their inputs are. */
  datatype Digest = Sha256Of(preimage: string)

  /** Length of an encoded token: 16 random bytes in unpadded base32. */
  const TokenLength: nat := 26

  /** ValidateRegistrationToken: a missing token reports "must not be empty"
      (the first message for "token" wins), any other length but 26 reports
      "must be exactly 26 bytes". */
  function ValidateRegistrationToken(errs: Errors, token: string): (r: Errors)
    ensures r.Keys == errs.Keys + (if |token| == TokenLength then {} else {"token"})
    ensures forall k :: k in errs ==> r[k] == errs[k]
    ensures "token" !in errs && token == "" ==> r["token"] == "must not be empty"
    ensures "token" !in errs && token != "" && |token| != TokenLength ==>
              r["token"] == "must be exactly 26 bytes"
  {
    var v := Checked(errs, token != "", "token", "must not be empty");
    Checked(v, |token| == TokenLength, "token", "must be exactly 26 bytes")
  }

  /** ValidateRegistrationToken as the Go code runs it. */
  method CheckRegistrationToken(v: Validator, token: string)
    modifies v
    ensures v.errors == ValidateRegistrationToken(old(v.errors), token)
  {
    v.Check(token != "", "token", "must not be empty");
    v.Check(|token| == TokenLength, "token", "must be exactly 26 bytes");
  }

  /** generateRandomToken: `random` is what crypto/rand filled the 16-byte
      buffer with, or None when it failed. */
  function GenerateRandomToken(random: Option<seq<Byte>>): (r: Option<string>)
    requires random.Some? ==> |random.value| == 16
    ensures r.Some? <==> random.Some?
    ensures r.Some? ==> r.value == Base32.Encode(random.value)
  {
    if random.Some? then Some(Base32.Encode(random.value)) else None
  }

  /** Every generated plaintext is 26 symbols of the RFC 4648 alphabet and
      therefore passes ValidateRegistrationToken. */
  lemma GeneratedTokenIsWellFormed(random: seq<Byte>)
    requires |random| == 16
    ensures var t := GenerateRandomToken(Some(random)).value;
      && |t| == TokenLength
      && (forall i :: 0 <= i < |t| ==> Base32.IsSymbol(t[i]))
      && ValidateRegistrationToken(map[], t) == map[]
  {
    Base32.EncodeSixteen(random);
  }

  /** Different random bytes give different plaintexts, hence different hashes. */
  lemma GeneratedTokensDistinct(a: seq<Byte>, b: seq<Byte>)
    requires |a| == 16 && |b| == 16 && a != b
    ensures GenerateRandomToken(Some(a)) != GenerateRandomToken(Some(b))
    ensures Sha256Of(GenerateRandomToken(Some(a)).value) != Sha256Of(GenerateRandomToken(Some(b)).value)
  {
    if Base32.Encode(a) == Base32.Encode(b) {
      Base32.EncodeInjective(a, b);
    }
  }

  datatype RegistrationToken = RegistrationToken(
    plaintext: string,
    hash: Digest,
    userID: int,
    expiry: Time)

  /** generateRegistrationToken at clock reading `now`. */
  function GenerateRegistrationToken(userID: int, ttl: Time, random: Option<seq<Byte>>, now: Time):
    (r: Option<RegistrationToken>)
    requires random.Some? ==> |random.value| == 16
    ensures r.Some? <==> random.Some?
    ensures r.Some? ==>
      && r.value.plaintext == GenerateRandomToken(random).value
      && r.value.userID == userID
      && r.value.expiry == now + ttl
      && r.value.hash == Sha256Of(r.value.plaintext)
  {
    match GenerateRandomToken(random)
    case None => None
    case Some(p) => Some(RegistrationToken(p, Sha256Of(p), userID, now + ttl))
  }

  /** A row of the registration table: the plaintext is never stored. */
  datatype Row = Row(hash: Digest, userID: int, expiry: Time)

  function RowOf(t: RegistrationToken): Row {
    Row(t.hash, t.userID, t.expiry)
  }

  /** The condition of the lookup's WHERE clause: hash matches and the row
      has not yet expired (strictly later expiry). */
  predicate Live(row: Row, plaintext: string, now: Time) {
    row.hash == Sha256Of(plaintext) && row.expiry > now
  }

  /** The rows that DELETE ... WHERE user_id = $1 keeps, in their order. */
  function WithoutUser(rows: seq<Row>, userID: int): (r: seq<Row>)
    ensures forall i :: 0 <= i < |r| ==> r[i].userID != userID && r[i] in rows
    ensures forall i :: 0 <= i < |rows| && rows[i].userID != userID ==> rows[i] in r
    ensures |r| <= |rows|
  {
    if rows == [] then []
    else if rows[0].userID == userID then WithoutUser(rows[1..], userID)
    else [rows[0]] + WithoutUser(rows[1..], userID)
  }

  /** A token for `userID` is resolved by `plaintext` at `now` through the
      users table: the inner join of the lookup. */
  ghost predicate JoinsTo(rows: seq<Row>, users: map<string, User>, plaintext: string, now: Time, user: User) {
    exists i :: 0 <= i < |rows| && Live(rows[i], plaintext, now) && user in users.Values && user.id == rows[i].userID
  }

  class RegistrationStore {
    var rows: seq<Row>

    constructor ()
      ensures rows == []
    {
      rows := [];
    }

    /** Insert: adds the token's (hash, user_id, expiry) row; a failing
        statement (`dbOk` false) leaves the table as it was. */
    method Insert(token: RegistrationToken, dbOk: bool) returns (err: Option<Err>)
      modifies this
      ensures err.None? <==> dbOk
      ensures rows == if dbOk then old(rows) + [RowOf(token)] else old(rows)
    {
      if !dbOk {
        return Some(Storage);
      }
      rows := rows + [RowOf(token)];
      err := None;
    }

    /** NewToken: mints a token and inserts it; when the insert fails the
        token is still returned together with the error. */
    method NewToken(userID: int, ttl: Time, random: Option<seq<Byte>>, now: Time, dbOk: bool)
      returns (token: Option<RegistrationToken>, err: Option<Err>)
      requires random.Some? ==> |random.value| == 16
      modifies this
      ensures token == GenerateRegistrationToken(userID, ttl, random, now)
      ensures random.None? ==> err.Some? && rows == old(rows)
      ensures random.Some? ==> (err.None? <==> dbOk)
      ensures random.Some? && dbOk ==> rows == old(rows) + [RowOf(token.value)]
      ensures random.Some? && !dbOk ==> rows == old(rows)
    {
      token := GenerateRegistrationToken(userID, ttl, random, now);
      if token.None? {
        return token, Some(Storage);
      }
      err := Insert(token.value, dbOk);
    }

    /** RevokeTokensForUser: deletes every row of the user. */
    method RevokeTokensForUser(userID: int, dbOk: bool) returns (err: Option<Err>)
      modifies this
      ensures err.None? <==> dbOk
      ensures rows == if dbOk then WithoutUser(old(rows), userID) else old(rows)
    {
      if !dbOk {
        return Some(Storage);
      }
      rows := WithoutUser(rows, userID);
      err := None;
    }

    /** GetUserFromToken at clock reading `now`: the joined user of a live row
        whose hash is that of `plaintext`; ErrNoUserFound when there is none
        (absent and expired tokens alike). The rows are scanned in table
        order, as QueryRow takes the first row of the result. */
    method GetUserFromToken(plaintext: string, now: Time, users: UserStore, dbOk: bool)
      returns (r: Result<User>)
      ensures !dbOk ==> r == Fail(Storage)
      ensures dbOk ==> (r.Ok? <==> exists u :: JoinsTo(rows, users.users, plaintext, now, u))
      ensures r.Ok? ==> JoinsTo(rows, users.users, plaintext, now, r.value)
      ensures dbOk && r.Fail? ==> r.err == ErrNoUserFound
    {
      if !dbOk {
        return Fail(Storage);
      }
      var hash := Sha256Of(plaintext);
      var i := 0;
      while i < |rows|
        invariant 0 <= i <= |rows|
        invariant forall j, u :: 0 <= j < i && Live(rows[j], plaintext, now) && u in users.users.Values ==>
                    u.id != rows[j].userID
      {
        var row := rows[i];
        if row.hash == hash && row.expiry > now {
          if e :| e in users.users && users.users[e].id == row.userID {
            assert users.users[e] in users.users.Values;
            assert JoinsTo(rows, users.users, plaintext, now, users.users[e]);
            return Ok(users.users[e]);
          }
        }
        i := i + 1;
      }
      r := Fail(ErrNoUserFound);
    }
  }

  /** After revoking a user's tokens, a plaintext whose rows all belonged to
      that user no longer resolves to anyone, expired or not. */
  lemma RevokedTokenDoesNotResolve(rows: seq<Row>, users: map<string, User>, userID: int,
                                   plaintext: string, now: Time, u: User)
    requires forall i :: 0 <= i < |rows| && rows[i].hash == Sha256Of(plaintext) ==> rows[i].userID == userID
    ensures !JoinsTo(WithoutUser(rows, userID), users, plaintext, now, u)
  {
    var kept := WithoutUser(rows, userID);
    forall i | 0 <= i < |kept|
      ensures kept[i].hash != Sha256Of(plaintext)
    {
      assert kept[i] in rows;
    }
  }

  /** Revocation leaves every other user's rows in place, so their tokens
      resolve exactly as before. */
  lemma RevokeKeepsOtherUsers(rows: seq<Row>, users: map<string, User>, userID: int,
                              plaintext: string, now: Time, u: User)
    requires u.id != userID
    ensures JoinsTo(WithoutUser(rows, userID), users, plaintext, now, u) <==> JoinsTo(rows, users, plaintext, now, u)
  {
    var kept := WithoutUser(rows, userID);
    if JoinsTo(rows, users, plaintext, now, u) {
      var i :| 0 <= i < |rows| && Live(rows[i], plaintext, now) && u in users.Values && u.id == rows[i].userID;
      assert rows[i] in kept;
      var j :| 0 <= j < |kept| && kept[j] == rows[i];
      assert Live(kept[j], plaintext, now);
    }
    if JoinsTo(kept, users, plaintext, now, u) {
      var i :| 0 <= i < |kept| && Live(kept[i], plaintext, now) && u in users.Values && u.id == kept[i].userID;
      assert kept[i] in rows;
      var j :| 0 <= j < |rows| && rows[j] == kept[i];
      assert Live(rows[j], plaintext, now);
    }
  }

  /** A freshly minted token is live strictly before its expiry now + ttl and
      dead from then on. */
  lemma TokenLifetime(t: RegistrationToken, issued: Time, ttl: Time, at: Time)
    requires t.expiry == issued + ttl
    ensures Live(RowOf(t), t.plaintext, at) <==> t.hash == Sha256Of(t.plaintext) && at < issued + ttl
  {
  }
}
