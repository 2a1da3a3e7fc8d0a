// The browser client's request helpers (frontend/src/lib/api.ts): reading
// the CSRF cookie, the CSRF header rule, turning a response into a value or
// an APIError, and getCurrentUser. Cookies and responses are values;
// decodeURIComponent is a parameter. Strings are split and trimmed as in the
// Origins module (ASCII white space).
module Client {
  import opened Common
  import opened Origins
  import opened Users
  import opened Responses
  import opened Handlers

  const CsrfCookie: string := "cross-origin-token"
  const CsrfHeader: string := "X-Cross-Origin-Token"

  // ---- getCSRFToken.

  /** `name` of `const [name, value] = cookie.trim().split("=")`. */
  function CookieName(cookie: string): string {
    Split(TrimSpace(cookie), '=')[0]
  }

  /** `value`: the text between the first and the second "="; without any
      "=" it is undefined, which decodeURIComponent turns into "undefined". */
  function CookieValue(cookie: string): string {
    var parts := Split(TrimSpace(cookie), '=');
    if |parts| >= 2 then parts[1] else "undefined"
  }

  predicate IsCsrfCookie(cookie: string) {
    CookieName(cookie) == CsrfCookie
  }

  /** Index of the first element satisfying `p`; |xs| if there is none. */
  function FirstWhere(xs: seq<string>, p: string -> bool): (i: nat)
    ensures i <= |xs|
    ensures forall j :: 0 <= j < i ==> !p(xs[j])
    ensures i < |xs| ==> p(xs[i])
    ensures i == |xs| <==> forall j :: 0 <= j < |xs| ==> !p(xs[j])
    decreases |xs|
  {
    if xs == [] then 0
    else if p(xs[0]) then 0
    else 1 + FirstWhere(xs[1..], p)
  }

  /** What getCSRFToken returns for `document.cookie` (None: no document). */
  function CsrfToken(document: Option<string>, decode: string -> string): (r: Option<string>)
    ensures document.None? ==> r.None?
    ensures document.Some? ==>
              var cookies := Split(document.value, ';');
              r.None? <==> FirstWhere(cookies, IsCsrfCookie) == |cookies|
    ensures document.Some? ==>
              var cookies := Split(document.value, ';');
              r.Some? ==> r.value == decode(CookieValue(cookies[FirstWhere(cookies, IsCsrfCookie)]))
  {
    if document.None? then None
    else
      var cookies := Split(document.value, ';');
      var i := FirstWhere(cookies, IsCsrfCookie);
      if i < |cookies| then Some(decode(CookieValue(cookies[i]))) else None
  }

  /** getCSRFToken: the loop with its early return. */
  method GetCSRFToken(document: Option<string>, decode: string -> string) returns (r: Option<string>)
    ensures r == CsrfToken(document, decode)
  {
    if document.None? {
      return None;
    }
    var cookies := Split(document.value, ';');
    ghost var isCsrf := IsCsrfCookie;
    var i := 0;
    while i < |cookies|
      invariant 0 <= i <= |cookies|
      invariant forall j :: 0 <= j < i ==> !isCsrf(cookies[j])
    {
      var parts := Split(TrimSpace(cookies[i]), '=');
      var name := parts[0];
      if name == CsrfCookie {
        var value := if |parts| >= 2 then parts[1] else "undefined";
        assert name == CookieName(cookies[i]) && value == CookieValue(cookies[i]);
        assert isCsrf(cookies[i]);
        assert FirstWhere(cookies, isCsrf) == i;
        return Some(decode(value));
      }
      assert name == CookieName(cookies[i]);
      assert !isCsrf(cookies[i]);
      i := i + 1;
    }
    return None;
  }

  lemma {:induction false} SplitAfterSep(a: string, sep: char, b: string)
    requires NoSep(a, sep)
    ensures Split(a + [sep] + b, sep) == [a] + Split(b, sep)
    decreases |a|
  {
    if a == [] {
      assert a + [sep] + b == [sep] + b;
      assert ([sep] + b)[1..] == b;
    } else {
      SplitAfterSep(a[1..], sep, b);
      assert (a + [sep] + b)[1..] == a[1..] + [sep] + b;
      assert [a[0]] + a[1..] == a;
    }
  }

  /** A cookie value stops at the second "=": whatever follows it is lost. */
  lemma ValueStopsAtSecondEquals(cookie: string, name: string, v: string, rest: string)
    requires NoSep(name, '=') && NoSep(v, '=')
    requires TrimSpace(cookie) == name + "=" + v + "=" + rest
    ensures CookieName(cookie) == name && CookieValue(cookie) == v
  {
    assert name + "=" + v + "=" + rest == name + ['='] + (v + ['='] + rest);
    SplitAfterSep(name, '=', v + ['='] + rest);
    SplitAfterSep(v, '=', rest);
  }

  // ---- The CSRF header and the request headers.

  predicate StateChanging(verb: string) {
    verb == "POST" || verb == "PUT" || verb == "DELETE"
  }

  /** The header is added when there is a non-empty token (JavaScript
      truthiness) and the method changes state; an absent method is "". */
  predicate AddsCsrfHeader(token: Option<string>, verb: string) {
    token.Some? && token.value != "" && StateChanging(verb)
  }

  /** The headers apiRequest sends: Content-Type, overridden by the caller's
      headers, then the CSRF header. */
  function RequestHeaders(optionHeaders: map<string, string>, token: Option<string>, verb: string):
    (h: map<string, string>)
    ensures forall k :: k in h <==> k == "Content-Type" || k in optionHeaders || (k == CsrfHeader && AddsCsrfHeader(token, verb))
    ensures AddsCsrfHeader(token, verb) ==> h[CsrfHeader] == token.value
    ensures forall k :: k in optionHeaders && !(k == CsrfHeader && AddsCsrfHeader(token, verb)) ==> h[k] == optionHeaders[k]
    ensures "Content-Type" !in optionHeaders ==> h["Content-Type"] == "application/json"
  {
    var base := map["Content-Type" := "application/json"] + optionHeaders;
    if AddsCsrfHeader(token, verb) then base[CsrfHeader := token.value] else base
  }

  /** A safe method never carries the token, whatever the cookie holds. */
  lemma SafeMethodsCarryNoToken(optionHeaders: map<string, string>, token: Option<string>)
    requires CsrfHeader !in optionHeaders
    ensures CsrfHeader !in RequestHeaders(optionHeaders, token, "GET")
    ensures CsrfHeader !in RequestHeaders(optionHeaders, token, "")
  {
  }

  // ---- Responses as the client sees them.

  /** What `data.error` is in a JSON body. */
  datatype ErrorField =
    | ErrorString(text: string)
    | ErrorObject(entries: seq<(string, string)>)   // in the body's key order
    | ErrorNull
    | ErrorOther                                     // a number or a boolean
    | ErrorMissing

  datatype FetchResponse = FetchResponse(status: nat, statusText: string, contentType: Option<string>, error: ErrorField)

  /** What apiRequest resolves or rejects with. */
  datatype Outcome =
    | Data                                             // the parsed JSON body
    | EmptyObject                                      // {} for a non-JSON success
    | ApiError(message: string, statusCode: nat, errors: Option<seq<(string, string)>>)
    | TypeError                                        // Object.values(null) throws

  predicate Contains(s: string, sub: string)
    decreases |s|
  {
    |sub| <= |s| && (s[..|sub|] == sub || Contains(s[1..], sub))
  }

  predicate IsJson(contentType: Option<string>) {
    contentType.Some? && Contains(contentType.value, "application/json")
  }

  predicate IsOk(status: nat) {
    200 <= status <= 299
  }

  function Digit(d: nat): char
    requires d < 10
  {
    ('0' as int + d) as char
  }

  /** The decimal numeral of a status in a template string. */
  function Decimal(n: nat): (s: string)
    ensures |s| >= 1
  {
    if n < 10 then [Digit(n)] else Decimal(n / 10) + [Digit(n % 10)]
  }

  /** The number a string of decimal digits denotes, most significant first. */
  function NumeralValue(s: string): int
    decreases |s|
  {
    if s == [] then 0 else NumeralValue(s[..|s| - 1]) * 10 + (s[|s| - 1] as int - '0' as int)
  }

  /** Decimal(n) is the base-10 numeral of n: digits only, denoting n, and
      without a leading zero. */
  lemma {:induction false} DecimalIsNumeral(n: nat)
    ensures forall i :: 0 <= i < |Decimal(n)| ==> '0' <= Decimal(n)[i] <= '9'
    ensures NumeralValue(Decimal(n)) == n
    ensures |Decimal(n)| > 1 ==> Decimal(n)[0] != '0'
    decreases n
  {
    if n >= 10 {
      DecimalIsNumeral(n / 10);
      var s := Decimal(n / 10);
      assert (s + [Digit(n % 10)])[..|s|] == s;
    }
  }

  function Values(entries: seq<(string, string)>): (vs: seq<string>)
    ensures |vs| == |entries| && forall i :: 0 <= i < |vs| ==> vs[i] == entries[i].1
  {
    if entries == [] then [] else [entries[0].1] + Values(entries[1..])
  }

  /** Array.prototype.join. */
  function JoinWith(parts: seq<string>, sep: string): string
    decreases |parts|
  {
    if parts == [] then "" else if |parts| == 1 then parts[0] else parts[0] + sep + JoinWith(parts[1..], sep)
  }

  /** The error apiRequest throws for a JSON body of a failed response. */
  function ErrorFrom(e: ErrorField, status: nat): (o: Outcome)
    ensures o.ApiError? <==> !e.ErrorNull?
    ensures o.ApiError? ==> o.statusCode == status
    ensures e.ErrorString? ==> o == ApiError(e.text, status, None)
    ensures e.ErrorObject? ==> o == ApiError(JoinWith(Values(e.entries), ", "), status, Some(e.entries))
    ensures e.ErrorOther? || e.ErrorMissing? ==> o == ApiError("An error occurred", status, None)
  {
    match e
    case ErrorString(t) => ApiError(t, status, None)
    case ErrorObject(entries) => ApiError(JoinWith(Values(entries), ", "), status, Some(entries))
    case ErrorNull => TypeError
    case _ => ApiError("An error occurred", status, None)
  }

  /** apiRequest, after the fetch. */
  function ApiRequest(r: FetchResponse): (o: Outcome)
    ensures !IsJson(r.contentType) && IsOk(r.status) ==> o == EmptyObject
    ensures !IsJson(r.contentType) && !IsOk(r.status) ==>
              o == ApiError("HTTP error " + Decimal(r.status) + ": " + r.statusText, r.status, None)
    ensures IsJson(r.contentType) && IsOk(r.status) ==> o == Data
    ensures IsJson(r.contentType) && !IsOk(r.status) ==> o == ErrorFrom(r.error, r.status)
    // every failed response is rejected, with its status when it is an APIError
    ensures !IsOk(r.status) ==> !o.Data? && !o.EmptyObject? && (o.ApiError? ==> o.statusCode == r.status)
  {
    if !IsJson(r.contentType) then
      if !IsOk(r.status) then ApiError("HTTP error " + Decimal(r.status) + ": " + r.statusText, r.status, None)
      else EmptyObject
    else if !IsOk(r.status) then ErrorFrom(r.error, r.status)
    else Data
  }

  datatype CurrentUser = UserData | NoUser | Rethrown(error: Outcome)

  /** getCurrentUser: a 401 APIError means nobody is logged in. */
  function GetCurrentUser(r: FetchResponse): (u: CurrentUser)
    ensures u == NoUser <==> !IsOk(r.status) && r.status == 401 && !(IsJson(r.contentType) && r.error.ErrorNull?)
    ensures u == UserData <==> IsOk(r.status)
  {
    var o := ApiRequest(r);
    if o.ApiError? && o.statusCode == 401 then NoUser
    else if o.Data? || o.EmptyObject? then UserData
    else Rethrown(o)
  }

  // ---- The server's responses on the wire.

  /** The entries of a field map in the order the encoder writes them. */
  function Entries(fields: map<string, string>, keys: seq<string>): (es: seq<(string, string)>)
    requires forall i :: 0 <= i < |keys| ==> keys[i] in fields
    ensures |es| == |keys| && forall i :: 0 <= i < |es| ==> es[i] == (keys[i], fields[keys[i]])
  {
    if keys == [] then [] else [(keys[0], fields[keys[0]])] + Entries(fields, keys[1..])
  }

  /** A server response as fetch sees it: writeJSON sets application/json;
      a handler that writes nothing sends no content type. `keys` is the
      order in which a field map's keys are written. */
  function OverHttp(resp: Response, keys: seq<string>, statusText: string): (r: FetchResponse)
    requires resp.status >= 0
    requires resp.body.ErrorFields? ==> forall i :: 0 <= i < |keys| ==> keys[i] in resp.body.fields
    ensures r.status == resp.status
  {
    var contentType := if resp.body.NoBody? then None else Some("application/json");
    var error := match resp.body
      case ErrorText(t) => ErrorString(t)
      case ErrorFields(f) => ErrorObject(Entries(f, keys))
      case _ => ErrorMissing;
    FetchResponse(resp.status, statusText, contentType, error)
  }

  lemma JsonContentType()
    ensures IsJson(Some("application/json"))
  {
    assert "application/json"[..|"application/json"|] == "application/json";
  }

  /** Every error text the server sends reaches the caller as the APIError
      message, with the server's status. */
  lemma ServerMessageReachesCaller(resp: Response, statusText: string)
    requires resp.body.ErrorText? && resp.status >= 400
    ensures ApiRequest(OverHttp(resp, [], statusText)) == ApiError(resp.body.text, resp.status, None)
  {
    JsonContentType();
  }

  /** A failed login shows "invalid email or password", with the field map
      attached for the form. */
  lemma FailedLoginMessage(statusText: string)
    ensures ApiRequest(OverHttp(FailedValidation(Sessions.InvalidCredentials), ["email"], statusText)) ==
            ApiError("invalid email or password", 422, Some([("email", "invalid email or password")]))
  {
    JsonContentType();
    var es := Entries(Sessions.InvalidCredentials, ["email"]);
    assert es == [("email", "invalid email or password")];
    assert Values(es) == ["invalid email or password"];
  }

  /** GET /user without a session: the client reports nobody logged in, as
      it expects, with the corrected server; as written, the 500 makes
      getCurrentUser throw. */
  lemma AnonymousCurrentUser(users: map<string, User>, dbOk: bool, statusText: string)
    ensures GetCurrentUser(OverHttp(LoggedInUserResponse(map[], users, dbOk, ContextFailure), [], statusText)) == NoUser
    ensures GetCurrentUser(OverHttp(LoggedInUserResponse(map[], users, dbOk, ContextFailureAsWritten), [], statusText)) ==
            Rethrown(ApiError("internal server error", 500, None))
  {
    JsonContentType();
  }
}
