# baduk-online account core in Dafny

This project models the account core of baduk-online, a Go backend with a
TypeScript browser client for playing Go (baduk) online. Users sign up and
receive an activation mail. The mail holds a one-time registration token that
activates the account. Users then log in and out with a server-side session.
The project also models two in-process services beside the handlers:

- a sliding-window rate limiter;
- a health check that coalesces probes of the database and the mail service.

Each module follows one source file:

| module | source | form |
|---|---|---|
| `Common` | — | shared `Option`/`Result`, the store errors, time in nanoseconds |
| `Validator` | internal/validator/validator_test.go (the asserted behaviour) | error-map functions and a `Validator` class |
| `Base32` | RFC 4648 section 6 alphabet, no padding | pure encoder/decoder with a round trip |
| `Users` | internal/data/users.go | validators as functions, `UserStore` class |
| `Registration` | internal/data/registration.go | token minting as functions, `RegistrationStore` class over `(hash, userID, expiry)` rows |
| `Mailer` | internal/mail/mailer.go | the token steps of the two sends as methods |
| `RateLimit` | cmd/api/ratelimit.go | `RateLimiter` class with `Allow` and `Sweep`, and a trace model for the window bound |
| `Health` | cmd/api/healthcheck.go | `HealthCache` class, `Serve` as its specification, a run model for coalescing |
| `Responses` | cmd/api/helpers.go | the status/body of every error helper |
| `Sessions` | cmd/api/sessions.go, helpers.go | `SessionStore` class, login decision as a function, the helper methods |
| `Handlers` | cmd/api/users.go | the six account handlers as methods over the stores |
| `Origins` | main.go | `parseTrustedOrigins` with `strings.Split`/`TrimSpace` written out |
| `Client` | frontend/src/lib/api.ts | cookie lookup, CSRF header rule, error derivation, `getCurrentUser` |

These things become parameters or inputs:

- SHA-256 is an injective constructor `Sha256Of`.
- bcrypt's compare, the email regex and `decodeURIComponent` are function-typed parameters.
- Random bytes, the clock and the success of each database statement, mail step, session write and JSON write are inputs.
- A database statement's result is a boolean or an `UpdateOutcome`.

Durations are integers in nanoseconds, as Go's `time.Duration` is. A Go
string is a `seq<char>` with one character per byte, so `len` is `|s|`.

## Model

| member | source | states |
|---|---|---|
| Common.Count | main.go:161-162 | the number of separators is at most the length of the string |
| Validator.WithError | internal/validator/validator_test.go:32-49 | adds the key; an existing message is never overwritten, a new key gets the message |
| Validator.Checked | internal/validator/validator_test.go:51-68 | a passing check changes nothing; a failing check is AddError |
| Validator.CheckedKeeps | internal/validator/validator_test.go:40-48 | a message already present survives any check |
| Validator.Validator.New | internal/validator/validator_test.go:7-18 | a new validator has no errors and is valid |
| Validator.Validator.AddError | internal/validator/validator_test.go:32-49 | the map becomes WithError of the old map, and the validator is no longer valid |
| Validator.Validator.Check | internal/validator/validator_test.go:51-68 | the map becomes Checked of the old map; unchanged when the condition holds |
| Validator.PermittedValue | internal/validator/validator_test.go:70-91 | true iff the value occurs in the list; false for the empty list |
| Validator.Unique | internal/validator/validator_test.go:115-134 | true iff no two positions hold equal values |
| Base32.Symbol | internal/data/registration.go:31-38 | values 0..25 are 'A'..'Z', 26..31 are '2'..'7' (RFC 4648 section 6) |
| Base32.SymbolValue | internal/data/registration.go:31-38 | inverse of Symbol on the alphabet |
| Base32.SymbolValueOfSymbol | internal/data/registration.go:31-38 | decoding a symbol's character gives the value back |
| Base32.NatOfBitsOfNat | internal/data/registration.go:31-38 | reading back a fixed-width bit string gives the number |
| Base32.BitsOfNatOfBits | internal/data/registration.go:31-38 | writing out a bit string's value gives the bits back |
| Base32.ByteBitsRoundTrip | internal/data/registration.go:31-38 | a byte's eight bits give the byte back |
| Base32.GroupRoundTrip | internal/data/registration.go:31-38 | a five-bit group survives value and back |
| Base32.EncodeBits | internal/data/registration.go:31-38 | one symbol per started five-bit group, all in the alphabet |
| Base32.Encode | internal/data/registration.go:31-38 | unpadded output of length ceil(8n/5), all characters in the alphabet |
| Base32.EncodeSixteen | internal/data/registration.go:31-38 | 16 bytes encode to 26 characters |
| Base32.Decode | internal/data/registration.go:31-38 | accepts exactly the strings over the alphabet |
| Base32.SymbolBitsAppend | internal/data/registration.go:31-38 | decoding to bits distributes over concatenation |
| Base32.SymbolBitsOfEncodeBits | internal/data/registration.go:31-38 | the encoding's bits are the input bits plus fewer than five zero bits of padding |
| Base32.BytesOfBitsOf | internal/data/registration.go:31-38 | fewer than eight trailing bits are dropped when regrouping into bytes |
| Base32.DecodeEncode | internal/data/registration.go:31-38 | decoding an encoding gives the bytes back |
| Base32.EncodeInjective | internal/data/registration.go:31-38 | different byte strings give different tokens |
| Users.SetPassword | internal/data/users.go:33-41 | fails iff bcrypt fails; on success keeps the plaintext and stores the hash |
| Users.ValidateEmail | internal/data/users.go:58-61 | an error for "email" iff it is empty ("must be provided") or does not match the pattern; earlier messages survive |
| Users.ValidatePasswordPlaintext | internal/data/users.go:64-68 | no error iff 8 <= bytes <= 72; empty reports "must be provided" and the length messages do not overwrite it |
| Users.ValidateUser | internal/data/users.go:71-84 | no error iff the name is non-empty and at most 50 bytes, the email is valid and a present plaintext passes the password rule; requires a hash, as the source panics without one |
| Users.CheckEmail | internal/data/users.go:58-61 | the Check calls on the validator leave exactly the map ValidateEmail describes |
| Users.CheckPasswordPlaintext | internal/data/users.go:64-68 | the Check calls leave exactly the map ValidatePasswordPlaintext describes |
| Users.CheckUser | internal/data/users.go:71-84 | the Check calls leave exactly the map ValidateUser describes |
| Users.Persisted | internal/data/users.go:130-141 | a record read back from the table keeps the hash and has no plaintext; otherwise it is the record written |
| Users.Matches | internal/data/users.go:44-55 | Ok(true)/Ok(false)/error exactly as bcrypt's outcome is match/mismatch/other error |
| Users.Lookup | internal/data/users.go:115-149 | the stored record iff the query succeeds and the email is present; ErrNoUserFound iff the query succeeded |
| Users.UserStore.Insert | internal/data/users.go:88-111 | a duplicate email gives ErrDuplicateEmail and changes nothing; otherwise the caller's record gets a fresh id, the creation time and version 1, and the table stores it under its email with the hash only; the table never holds a plaintext |
| Users.UserStore.GetByEmail | internal/data/users.go:115-149 | answers as Lookup on the stored records |
| Users.UserStore.DeleteUser | internal/data/users.go:153-174 | removes exactly that email's record; ErrNoUserFound and no change when absent |
| Users.UserStore.Update | cmd/api/users.go:142-150 | stores the record, without a plaintext, on success; on an edit conflict or failure returns ErrEditConflict or a storage error and changes nothing |
| Registration.ValidateRegistrationToken | internal/data/registration.go:25-28 | an error for "token" iff the length is not 26; empty reports "must not be empty" |
| Registration.CheckRegistrationToken | internal/data/registration.go:25-28 | the Check calls leave exactly the map ValidateRegistrationToken describes |
| Registration.GenerateRandomToken | internal/data/registration.go:31-38 | the base32 encoding of the 16 random bytes; fails iff the entropy source fails |
| Registration.GeneratedTokenIsWellFormed | internal/data/registration.go:31-38 | a generated token has 26 characters from A-Z and 2-7 and passes the shape check |
| Registration.GeneratedTokensDistinct | internal/data/registration.go:31-38 | different random bytes give different tokens and different hashes |
| Registration.GenerateRegistrationToken | internal/data/registration.go:41-54 | keeps the user id, expiry is now + ttl, hash is SHA-256 of the plaintext |
| Registration.WithoutUser | internal/data/registration.go:89-100 | exactly the rows of other users remain |
| Registration.RegistrationStore.Insert | internal/data/registration.go:62-75 | appends the token's (hash, user, expiry) row iff the statement succeeds |
| Registration.RegistrationStore.NewToken | internal/data/registration.go:78-86 | returns the generated token even when the insert fails; adds exactly one row iff minting and insert succeed |
| Registration.RegistrationStore.RevokeTokensForUser | internal/data/registration.go:89-100 | on success the table becomes WithoutUser of the old table |
| Registration.RegistrationStore.GetUserFromToken | internal/data/registration.go:103-152 | a user iff some row has the plaintext's hash, an expiry strictly after now and joins that user; otherwise ErrNoUserFound |
| Registration.RevokedTokenDoesNotResolve | internal/data/registration.go:89-100 | after revocation none of the user's tokens resolves, expired or not |
| Registration.RevokeKeepsOtherUsers | internal/data/registration.go:89-100 | revocation does not change how tokens of other users resolve |
| Registration.TokenLifetime | internal/data/registration.go:119-122 | a minted token resolves exactly before issue + ttl |
| Mailer.RowsOf | internal/mail/mailer.go:83-90 | the rows of one user, drawn from the table |
| Mailer.RowsOfWithoutUser | internal/mail/mailer.go:83-86 | after revocation the user has no rows |
| Mailer.RowsOfAppend | internal/mail/mailer.go:87-90 | a user's rows of a concatenation are the rows of each part |
| Mailer.SendRegistrationEmail | internal/mail/mailer.go:73-130 | a template failure comes before any token step; a failed revoke mints nothing; otherwise the user's old rows are gone and, if minting succeeds, exactly one row with expiry now + 30 minutes exists; the mail carries the plaintext and the activation link |
| Mailer.SendAccountActivatedEmail | internal/mail/mailer.go:139-186 | succeeds iff the template parses and renders and the service accepts; never touches the token table |
| RateLimit.After | cmd/api/ratelimit.go:72-78 | keeps only attempts strictly after the cutoff, never more than it was given |
| RateLimit.Step | cmd/api/ratelimit.go:53-90 | first call admitted with [now]; lastSeen is now; admitted iff the pruned count is below the limit; attempts are the pruned list plus now on admit, the pruned list on reject |
| RateLimit.Survivors | cmd/api/ratelimit.go:43-47 | exactly the visitors idle for at most three windows, unchanged |
| RateLimit.RateLimiter.constructor | cmd/api/ratelimit.go:23-34 | an empty visitor map with the given limit and window |
| RateLimit.RateLimiter.Allow | cmd/api/ratelimit.go:53-90 | the key's visitor becomes Step's, every other key is unchanged, the answer is Step's |
| RateLimit.RateLimiter.Sweep | cmd/api/ratelimit.go:43-47 | the map becomes Survivors of the old map |
| RateLimit.AfterMember | cmd/api/ratelimit.go:72-78 | a time is kept iff it was an attempt after the cutoff |
| RateLimit.AfterAppend | cmd/api/ratelimit.go:72-78 | pruning keeps the original order |
| RateLimit.AfterAfter | cmd/api/ratelimit.go:72-78 | pruning twice with a later cutoff is pruning once |
| RateLimit.AfterShrinks | cmd/api/ratelimit.go:72-78 | a later cutoff keeps no more attempts |
| RateLimit.AfterAllOlder | cmd/api/ratelimit.go:72-78 | attempts all at or before the cutoff are all dropped |
| RateLimit.StepKeepsWindow | cmd/api/ratelimit.go:72-85 | after a step every stored attempt is inside the window ending now |
| RateLimit.QuietKeyAdmitted | cmd/api/ratelimit.go:81-85 | a key with no attempt in the last window is admitted |
| RateLimit.CountIn | cmd/api/ratelimit.go:9 | counts times in a half-open interval, at most all of them |
| RateLimit.CountInAtMostAfter | cmd/api/ratelimit.go:72-78 | the count in (lo, hi] is at most what pruning at lo keeps |
| RateLimit.CountInAppend | cmd/api/ratelimit.go:81-85 | one more admission adds one to exactly the windows containing it |
| RateLimit.AfterSingleton | cmd/api/ratelimit.go:60-66 | the first attempt is inside its own window |
| RateLimit.TickKeepsInv | cmd/api/ratelimit.go:72-78 | time passing keeps the stored attempts equal to the recent admissions |
| RateLimit.FirstAdmissionInv | cmd/api/ratelimit.go:60-66 | the state a first request leaves behind records exactly that admission |
| RateLimit.RequestFromAbsent | cmd/api/ratelimit.go:60-66 | a first request is admitted and recorded |
| RateLimit.PresentPrunes | cmd/api/ratelimit.go:72-81 | the pruned list equals the admissions in the window, so the decision counts admissions |
| RateLimit.PresentAdmitted | cmd/api/ratelimit.go:81-85 | an admission keeps the stored attempts equal to the recent admissions |
| RateLimit.PresentRejected | cmd/api/ratelimit.go:87-89 | a rejection keeps the stored attempts equal to the recent admissions |
| RateLimit.RequestKeepsInv | cmd/api/ratelimit.go:53-90 | every request preserves that invariant and admits only below the limit |
| RateLimit.ReplayInvariant | cmd/api/ratelimit.go:53-90 | over a chronological trace the invariant holds after every event |
| RateLimit.BoundAfterAdmission | cmd/api/ratelimit.go:81-85 | admitting below the limit keeps every window at most the limit |
| RateLimit.EventKeepsBound | cmd/api/ratelimit.go:37-90 | one request or cleanup pass keeps every window at most the limit |
| RateLimit.AdmissionBound | cmd/api/ratelimit.go:9-90 | with limit >= 1 and a non-decreasing clock, no interval of one window length holds more than limit admissions of one key |
| Health.Probe | cmd/api/healthcheck.go:41-57 | exactly the keys "db" and "ses"; each "OK" iff its probe succeeded, "DOWN" otherwise; both probes always run |
| Health.Serve | cmd/api/healthcheck.go:13-64 | a fresh cache is returned as is with no probe; it probes iff neither check finds a fresh cache; a probe's result is cached with its time |
| Health.EmptyCacheProbes | cmd/api/healthcheck.go:16-32 | with nothing cached the call always probes |
| Health.CopyOf | cmd/api/healthcheck.go:17-20 | the copy loop gives an equal map |
| Health.HealthCache.CheckHealth | cmd/api/healthcheck.go:13-64 | result, probing and the new cache fields are Serve's; a hit leaves the fields unchanged |
| Health.HandleHealthCheck | cmd/api/healthcheck.go:66-80 | always status 200 with the statuses, environment and version; a failed body write cannot change the status, because writeJSON has already sent it, and only appends http.Error's text |
| Health.RefreshCoalesces | cmd/api/healthcheck.go:32-38 | a call within the interval after a refresh does not probe |
| Health.RunCalls | cmd/api/healthcheck.go:13-64 | a sequence of calls, with the times each one probed |
| Health.ProbesAtMostOncePerInterval | cmd/api/healthcheck.go:10-38 | over sequential calls, successive probes are at least 5 seconds apart |
| Responses.ErrorResponse | cmd/api/helpers.go:84-93 | the given status with {"error": data}, for text or a field map |
| Responses.BadRequest | cmd/api/helpers.go:79-82 | 400 carrying the error text |
| Responses.Unauthenticated | cmd/api/helpers.go:95-104 | 401 with an error text |
| Responses.ServerError | cmd/api/helpers.go:106-109 | 500 with an error text |
| Responses.FailedValidation | cmd/api/helpers.go:111-113 | 422 with the field map as the error |
| Responses.DataConflict | cmd/api/helpers.go:115-118 | 409 with an error text |
| Responses.RateLimitExceeded | cmd/api/helpers.go:120-123 | 429 with an error text |
| Responses.CsrfFailure | cmd/api/helpers.go:125-128 | 403 with an error text |
| Responses.Forbidden | cmd/api/helpers.go:130-133 | 403 carrying the caller's message |
| Responses.DetailsOf | cmd/api/sessions.go:47-52 | only name, email and validated of the record |
| Responses.PublicUserOf | cmd/api/users.go:23 | the JSON of a user omits id, password and version |
| Responses.ServerErrorHidesCause | cmd/api/helpers_test.go:164-222 | the 500 body is "internal server error" whatever the cause |
| Responses.PublicUserHidesSecrets | cmd/api/users.go:23 | records differing only in hidden fields give the same body |
| Responses.FixedStatusesDistinct | cmd/api/helpers.go:79-133 | the fixed helpers answer 400, 401, 403, 409, 422, 429 and 500 |
| Sessions.SessionString | cmd/api/sessions.go:15 | the stored string for a key, "" when absent |
| Sessions.SessionStore.Put | cmd/api/sessions.go:103 | sets exactly that key |
| Sessions.SessionStore.Destroy | cmd/api/users.go:287-293 | on success the session is empty; on failure unchanged |
| Sessions.ExistingSessionResponse | cmd/api/sessions.go:37-56 | 200 with the details of the stored user; 500 when the lookup fails |
| Sessions.ExistingSessionOutcome | cmd/api/sessions.go:14-34 | no response iff the session has no email; same email answers from the store; a different email is 409 |
| Sessions.AuthenticateOutcome | cmd/api/sessions.go:60-97 | shape errors answer 422 before the lookup; authenticated iff the email is stored and bcrypt matches; rejections are 422 or 500 |
| Sessions.LoginDecision | cmd/api/sessions.go:14-115 | the session is unchanged, or the answer is 200 and only the "user" key changed |
| Sessions.RespondWithExistingSession | cmd/api/sessions.go:37-56 | answers as ExistingSessionResponse |
| Sessions.HandleExistingSession | cmd/api/sessions.go:14-34 | handled iff a response is sent, which is ExistingSessionOutcome's |
| Sessions.AuthenticateUser | cmd/api/sessions.go:60-97 | a user iff no response is sent, both as AuthenticateOutcome |
| Sessions.CreateSessionAndRespond | cmd/api/sessions.go:100-115 | stores the user's email under "user" and answers 200 with the details only |
| Sessions.ContextUser | cmd/api/helpers.go:155-163 | no "user" key gives errUserUnauthenticated without a lookup; otherwise the store's answer for the session email unchanged |
| Sessions.GetUserFromContext | cmd/api/helpers.go:155-163 | answers as ContextUser |
| Sessions.SameUserLoginIsIdempotent | cmd/api/sessions.go:20-24 | logging in again as the session's user answers from the store with no password check and no session change; 200 with the details when the lookup succeeds |
| Sessions.DifferentUserLoginConflicts | cmd/api/sessions.go:26-33 | logging in as another user is 409 and leaves the session untouched |
| Sessions.ShapeFailureBeforeLookup | cmd/api/sessions.go:61-67 | a shape failure is 422 whatever the store holds or whether it is reachable |
| Sessions.UnknownEmailLooksLikeWrongPassword | cmd/api/sessions.go:70-94 | unknown email and wrong password give the identical 422 {"email": "invalid email or password"} |
| Sessions.InfrastructureFailureIs500 | cmd/api/sessions.go:76-87 | a store or compare failure is 500 |
| Sessions.LoginSucceedsIffCredentialsMatch | cmd/api/sessions.go:60-115 | from an empty session, 200 iff the input is well formed, the email is stored and the password matches; then the session holds that email |
| Sessions.LoginThenLoginAgain | cmd/api/sessions.go:14-34 | after a login, a second login with the same email gives the same answer and session whatever password it sends |
| Handlers.ContextFailureAsWritten | cmd/api/users.go:15-21 | as written: 401 iff ErrNoUserFound, otherwise 500 |
| Handlers.ContextFailure | cmd/api/users.go:15-21 | corrected: 401 iff no user is found or nobody is logged in, otherwise 500 |
| Handlers.LoggedInUserResponse | cmd/api/users.go:13-27 | 200 with the public user when logged in as a stored user; otherwise the given failure mapping applied to errUserUnauthenticated (no session), the storage error, or ErrNoUserFound (user gone) |
| Handlers.UserResponseAsWritten | cmd/api/users.go:13-27 | as written: 401 iff the session names a user that is gone; a request without a session is a 500 |
| Handlers.UserResponseCorrected | cmd/api/users.go:13-27 | corrected: 401 iff there is no session or its user is gone; 200 iff logged in as a stored user; 500 otherwise |
| Handlers.HandleGetLoggedInUser | cmd/api/users.go:13-27 | answers as LoggedInUserResponse with the as-written mapping |
| Handlers.HandleSendRegistrationEmail | cmd/api/users.go:85-101 | a failed context lookup answers as ContextFailureAsWritten and touches nothing; otherwise 200 with no body iff the send succeeds, and then the user has exactly one token row; 500 otherwise |
| Handlers.NewUser | cmd/api/users.go:42-48 | the input's name and email, the password, not validated |
| Handlers.HandleCreateUser | cmd/api/users.go:30-82 | 400 on a bad body; 500 if hashing fails; 422 on validation failure with nothing stored; 409 on a duplicate email; 201 then the registration mail after a successful insert; any non-201 changes nothing |
| Handlers.HandleRegisterUser | cmd/api/users.go:105-178 | 422 on a malformed token before any lookup; 422 with a "token" error for an unknown or expired token; 409 iff the update conflicts, with tokens kept; on 200 the user is stored validated and all their tokens are revoked, so the token no longer resolves; the confirmation email is attempted only after a success |
| Handlers.ActivationReplay | cmd/api/users_test.go:385-441 | replaying a token that just activated the account gives 422 |
| Handlers.HandleLogin | cmd/api/users.go:181-283 | 400 on a bad body; otherwise the same response and session as LoginDecision |
| Handlers.HandleLogout | cmd/api/users.go:286-311 | destroys the session in any state and answers "logged out successfully"; 500 and no change if destroying fails |
| Handlers.LoggedOutIsUnauthenticated | cmd/api/users.go:13-21 | after logout, GET /user is 401 with the corrected mapping and 500 with the mapping as written |
| Origins.Split | main.go:161 | one more piece than separators |
| Origins.SplitCount | main.go:161-162 | the number of pieces is the number of separators plus one |
| Origins.SplitPiecesHaveNoSep | main.go:161 | no piece contains the separator |
| Origins.JoinSplit | main.go:161 | joining the pieces gives the string back |
| Origins.SplitJoin | main.go:161 | splitting a join of separator-free pieces gives them back |
| Origins.Start | main.go:163 | the length of the leading white space: all of it is white space and the next character is not |
| Origins.EndAbove | main.go:163 | where the trailing white space begins: everything after it is white space and the character before it is not |
| Origins.TrimSpace | main.go:163 | the contiguous middle of the string with only white space outside it and none at its ends |
| Origins.TrimSpaceKeepsTrimmed | main.go:163 | a string without white space at its ends is unchanged |
| Origins.TrimSpaceIdempotent | main.go:163 | trimming twice is trimming once |
| Origins.NonBlank | main.go:162-168 | never more origins than pieces |
| Origins.TrustedOrigins | main.go:156-170 | the empty string gives no origins |
| Origins.ParseTrustedOrigins | main.go:156-170 | the loop returns TrustedOrigins of the input |
| Origins.NonBlankTrimmed | main.go:163-167 | every origin is non-empty and trimmed |
| Origins.OriginsBound | main.go:161-167 | at most commas + 1 origins, each non-empty and trimmed |
| Origins.OriginsRoundTrip | main.go:156-170 | writing trimmed comma-free origins as a list reads them back in order |
| Origins.NonBlankOfTrimmed | main.go:162-168 | already trimmed non-empty pieces are kept, in order |
| Client.FirstWhere | frontend/src/lib/api.ts:19-24 | the first index satisfying the test, or the length when none does |
| Client.CsrfToken | frontend/src/lib/api.ts:15-26 | no document gives null; null iff no cookie is named cross-origin-token; otherwise the decoded value of the first such cookie |
| Client.GetCSRFToken | frontend/src/lib/api.ts:15-26 | the loop's early return gives CsrfToken |
| Client.SplitAfterSep | frontend/src/lib/api.ts:20 | a separator-free prefix is the first piece |
| Client.ValueStopsAtSecondEquals | frontend/src/lib/api.ts:20 | the value is only the text between the first and second "=" |
| Client.RequestHeaders | frontend/src/lib/api.ts:36-44 | Content-Type, overridden by the caller's headers, plus the CSRF header iff a non-empty token exists and the method is POST, PUT or DELETE |
| Client.SafeMethodsCarryNoToken | frontend/src/lib/api.ts:42-44 | GET and a missing method never carry the token |
| Client.Decimal | frontend/src/lib/api.ts:57 | the status numeral is non-empty |
| Client.DecimalIsNumeral | frontend/src/lib/api.ts:57 | the status text is the base-10 numeral of the status: digits only, denoting it, no leading zero |
| Client.Values | frontend/src/lib/api.ts:75 | the values of the error object, in its order |
| Client.ErrorFrom | frontend/src/lib/api.ts:66-79 | a string error is the message; an object's values joined with ", " with the map attached; null makes Object.values throw; anything else is "An error occurred" |
| Client.ApiRequest | frontend/src/lib/api.ts:52-82 | non-JSON: "HTTP error status: text" when not ok, {} when ok; JSON: the data when ok, ErrorFrom otherwise; a failed response is never a value |
| Client.GetCurrentUser | frontend/src/lib/api.ts:109-120 | null iff the response is a 401 that becomes an APIError; the user iff the response is ok; everything else is rethrown |
| Client.Entries | frontend/src/lib/api.ts:73-75 | the field map's entries in the written key order |
| Client.OverHttp | cmd/api/helpers.go:22-33 | a server response as fetch sees it, with the same status |
| Client.JsonContentType | cmd/api/helpers.go:22-33 | writeJSON's content type is recognised as JSON |
| Client.ServerMessageReachesCaller | frontend/src/lib/api.ts:71-72 | every server error text becomes the APIError message with the server's status |
| Client.FailedLoginMessage | frontend/src/lib/api.ts:73-78 | a failed login shows "invalid email or password" with the field map attached |
| Client.AnonymousCurrentUser | frontend/src/lib/api.ts:109-120 | anonymous GET /user: null with the corrected server; a rethrown 500 with the server as written |

## Left out

- Concurrency: the mutexes of the rate limiter and the health cache, the cleanup ticker goroutine, `background` and its WaitGroup. `Allow`, `Sweep` and `CheckHealth` are atomic steps. A refresh by another request between the two health checks is the `meanwhile` input.
- `CheckHealth`: the hit path returns a copy and the miss path returns the map it caches; with value semantics the difference cannot be seen.
- `rateLimitMiddleware` and the response it sends are not modelled beyond `RateLimitExceeded`.
- SQL text, the pgx driver and the legacy `internal/database` layer. The tables are a map keyed by email and a sequence of token rows. The unique email constraint is the duplicate check in `Insert`.
- `Users.UserStore.Insert`: the stored version is 1, taken to be the column's default; the schema is not part of this model.
- `Users.UserStore.Update`: the users.go implementation of Update is not part of this model. Its outcome is an input.
- bcrypt, SHA-256 and `crypto/rand` are foreign. Passwords of more than 72 bytes make bcrypt fail before validation; this is the `generated == None` path (500).
- The email regular expression is a parameter, since its pattern is not part of this model.
- Mail delivery: SES, template parsing and rendering, and `Ping` are outcomes passed in. `NewSESMailer` is wiring.
- readJSON's error classification and writeJSON's failures are left out. These are inputs instead: the decoded body or its error text, and a write flag on the health handler only. The other handlers' writeJSON error paths, which call serverErrorResponse after the status has been sent, are not modelled.
- Routing and middleware: chi routes, `http.CrossOriginProtection` and template rendering. routes.go has no /login or /logout route; the handlers are modelled as written.
- `strings.TrimSpace` and JavaScript `trim` remove Unicode white space; the model removes ASCII white space only.
- `decodeURIComponent` is a parameter. Its URIError on malformed escapes is not modelled.
- `Handlers.HandleGetLoggedInUser` and `Handlers.HandleSendRegistrationEmail` answer with the mapping as written (see Findings). The corrected behaviour is stated for GET /user only, through `LoggedInUserResponse` with `ContextFailure`; no handler method runs the corrected mapping.
- `Client.ErrorFrom`: JSON arrays are `ErrorObject` with index keys; numbers and booleans are `ErrorOther`.
- `Client.OverHttp`: the caller gives the order in which a field map's keys are written (Go writes them sorted).
- The client's `login`, `logout` and `signup` wrappers only call `apiRequest`; `fetch` and the network are not modelled.
- Bootstrap in `main()`: flags, logging, migrations and signal handling.

## Findings

| source | as written | input that shows it | evidently intended | confidence | as-written member | corrected member |
|---|---|---|---|---|---|---|
| cmd/api/users.go:16 | only `ErrNoUserFound` is answered 401; getUserFromContext's `errUserUnauthenticated` falls through to 500 | GET /user with no session | 401 "user must be authenticated", which getCurrentUser maps to null | low, not executed (the definition of errUserUnauthenticated is not part of this model; it is taken to be a different error) | Handlers.HandleGetLoggedInUser, Handlers.UserResponseAsWritten | Handlers.UserResponseCorrected |
| cmd/api/users.go:88 | the same check in handleSendRegistrationEmail | POST to the send-registration-email route with no session | 401 | low, not executed | Handlers.HandleSendRegistrationEmail, Handlers.ContextFailureAsWritten | Handlers.ContextFailure |
