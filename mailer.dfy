// The token steps of the transactional mailer (internal/mail/mailer.go):
// templates, rendering and the mail service are outcomes passed in.
module Mailer {
  import opened Common
  import opened Users
  import opened Registration

  /** RegistrationTokenTTL: 30 minutes. */
  const RegistrationTokenTTL: Time := 30 * Minute

  const ActivationLinkPrefix: string := "https://play.baduk.online/activate?code="

  datatype RegistrationEmailData = RegistrationEmailData(name: string, email: string, loginURL: string, token: string)

  datatype AccountActivatedEmailData = AccountActivatedEmailData(name: string, email: string)

  /** What the collaborators of one send do: whether the template parses,
      whether each database statement succeeds, the random bytes (None: the
      entropy source failed), whether the template renders and whether the
      mail service accepts the message. */
  datatype SendEnv = SendEnv(
    templateParses: bool,
    revokeOk: bool,
    random: Option<seq<Byte>>,
    insertOk: bool,
    renders: bool,
    accepted: bool)

  predicate WellFormedEnv(env: SendEnv) {
    env.random.Some? ==> |env.random.value| == 16
  }

  /** Every collaborator of a send succeeds. */
  predicate MailSucceeds(env: SendEnv) {
    env.templateParses && env.revokeOk && env.random.Some? && env.insertOk && env.renders && env.accepted
  }

  /** The rows of `userID` in the table. */
  function RowsOf(rows: seq<Row>, userID: int): (r: seq<Row>)
    ensures forall i :: 0 <= i < |r| ==> r[i].userID == userID && r[i] in rows
    ensures |r| <= |rows|
  {
    if rows == [] then []
    else if rows[0].userID == userID then [rows[0]] + RowsOf(rows[1..], userID)
    else RowsOf(rows[1..], userID)
  }

  lemma {:induction false} RowsOfWithoutUser(rows: seq<Row>, userID: int)
    ensures RowsOf(WithoutUser(rows, userID), userID) == []
  {
    if rows != [] {
      RowsOfWithoutUser(rows[1..], userID);
    }
  }

  lemma {:induction false} RowsOfAppend(a: seq<Row>, b: seq<Row>, userID: int)
    ensures RowsOf(a + b, userID) == RowsOf(a, userID) + RowsOf(b, userID)
  {
    if a == [] {
      assert a + b == b;
    } else {
      assert (a + b)[1..] == a[1..] + b;
      RowsOfAppend(a[1..], b, userID);
    }
  }

  /** SendRegistrationEmail: parse the template, revoke every token of the
      user, mint a new one (TTL 30 minutes from `now`), build the email data
      and hand the rendered message to the mail service. Returns the error,
      if any, and the data of the message the service accepted. */
  method SendRegistrationEmail(tokens: RegistrationStore, user: User, now: Time, env: SendEnv)
    returns (err: Option<Err>, delivered: Option<RegistrationEmailData>)
    requires WellFormedEnv(env)
    modifies tokens
    ensures delivered.Some? <==> err.None?
    ensures err.None? <==> MailSucceeds(env)
    // nothing happens to the table before the template parses and the revoke succeeds
    ensures !env.templateParses || !env.revokeOk ==> tokens.rows == old(tokens.rows)
    ensures env.templateParses && env.revokeOk ==>
              var kept := WithoutUser(old(tokens.rows), user.id);
              var minted := GenerateRegistrationToken(user.id, RegistrationTokenTTL, env.random, now);
              tokens.rows == if minted.Some? && env.insertOk then kept + [RowOf(minted.value)] else kept
    // minting failed after the revoke: the user is left without any token
    ensures env.templateParses && env.revokeOk && (env.random.None? || !env.insertOk) ==>
              RowsOf(tokens.rows, user.id) == []
    ensures delivered.Some? ==>
              var t := delivered.value.token;
              && delivered.value == RegistrationEmailData(user.name, user.email, ActivationLinkPrefix + t, t)
              && RowsOf(tokens.rows, user.id) == [Row(Sha256Of(t), user.id, now + RegistrationTokenTTL)]
  {
    if !env.templateParses {
      return Some(Storage), None;
    }
    err := tokens.RevokeTokensForUser(user.id, env.revokeOk);
    if err.Some? {
      return Some(Storage), None;
    }
    ghost var kept := tokens.rows;
    var token;
    token, err := tokens.NewToken(user.id, RegistrationTokenTTL, env.random, now, env.insertOk);
    if err.Some? {
      RowsOfWithoutUser(old(tokens.rows), user.id);
      return err, None;
    }
    var data := RegistrationEmailData(user.name, user.email, ActivationLinkPrefix + token.value.plaintext, token.value.plaintext);
    if !env.renders || !env.accepted {
      return Some(Storage), None;
    }
    RowsOfWithoutUser(old(tokens.rows), user.id);
    RowsOfAppend(kept, [RowOf(token.value)], user.id);
    return None, Some(data);
  }

  /** SendAccountActivatedEmail: no token table is reachable from here, so it
      cannot change one. */
  method SendAccountActivatedEmail(user: User, templateParses: bool, renders: bool, accepted: bool)
    returns (err: Option<Err>, delivered: Option<AccountActivatedEmailData>)
    ensures err.None? <==> templateParses && renders && accepted
    ensures delivered == if err.None? then Some(AccountActivatedEmailData(user.name, user.email)) else None
  {
    if !templateParses || !renders || !accepted {
      return Some(Storage), None;
    }
    return None, Some(AccountActivatedEmailData(user.name, user.email));
  }
}
