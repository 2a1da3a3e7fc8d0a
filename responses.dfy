// The HTTP responses of the API (cmd/api/helpers.go): a status code and the
// kind of JSON body. Writing the body is not modelled; every helper that
// reports an error writes {"error": <data>}.
module Responses {
  import opened Common
  import opened Validator
  import opened Users

  /** The JSON body of a response. */
  datatype Body =
    | ErrorText(text: string)        // {"error": "<text>"}
    | ErrorFields(fields: Errors)    // {"error": {"<field>": "<message>", ...}}
    | Details(name: string, email: string, validated: bool)
    | ActivatedDetails(name: string, email: string, createdAt: Time, validated: bool)
    | PublicUser(createdAt: Time, name: string, email: string, validated: bool)
    | Notice(message: string)        // {"message": "<message>"}
    | NoBody

  datatype Response = Response(status: int, body: Body)

  /** The `data` of errorResponse: a message or a field map. */
  datatype ErrorData = Text(text: string) | Fields(fields: Errors)

  /** How readJSON decoded a request body: the input, or its error text. */
  datatype Decoded<T> = Decoded(value: T) | Undecodable(message: string)

  /** errorResponse: {"error": data} with the given status. */
  function ErrorResponse(status: int, data: ErrorData): (r: Response)
    ensures r.status == status
    ensures data.Text? ==> r.body == ErrorText(data.text)
    ensures data.Fields? ==> r.body == ErrorFields(data.fields)
  {
    Response(status, match data case Text(t) => ErrorText(t) case Fields(f) => ErrorFields(f))
  }

  /** badRequestResponse: 400 carrying the error's text. */
  function BadRequest(message: string): (r: Response)
    ensures r == Response(400, ErrorText(message))
  {
    ErrorResponse(400, Text(message))
  }

  /** unauthenticatedResponse: 401. */
  function Unauthenticated(): (r: Response)
    ensures r.status == 401 && r.body.ErrorText?
  {
    Response(401, ErrorText("user must be authenticated to perform this function"))
  }

  /** serverErrorResponse: 500 with a fixed body; `cause` is only logged. */
  function ServerError(cause: Err): (r: Response)
    ensures r.status == 500 && r.body.ErrorText?
  {
    ErrorResponse(500, Text("internal server error"))
  }

  /** failedValidationResponse: 422 with the field map as the error value. */
  function FailedValidation(errs: Errors): (r: Response)
    ensures r == Response(422, ErrorFields(errs))
  {
    ErrorResponse(422, Fields(errs))
  }

  /** dataConflictResponse: 409. */
  function DataConflict(cause: Err): (r: Response)
    ensures r.status == 409 && r.body.ErrorText?
  {
    ErrorResponse(409, Text("tried to modify stale data, please refresh"))
  }

  /** rateLimitExceededResponse: 429. */
  function RateLimitExceeded(): (r: Response)
    ensures r.status == 429 && r.body.ErrorText?
  {
    ErrorResponse(429, Text("rate limit exceeded, please try again later"))
  }

  /** csrfFailureResponse: 403. */
  function CsrfFailure(): (r: Response)
    ensures r.status == 403 && r.body.ErrorText?
  {
    ErrorResponse(403, Text("CSRF check failed"))
  }

  /** forbiddenResponse: 403 with the caller's message. */
  function Forbidden(message: string): (r: Response)
    ensures r == Response(403, ErrorText(message))
  {
    ErrorResponse(403, Text(message))
  }

  /** The name/email/validated body the login paths return: nothing else of
      the record, in particular not the password hash. */
  function DetailsOf(u: User): (b: Body)
    ensures b.Details? && b.name == u.name && b.email == u.email && b.validated == u.validated
  {
    Details(u.name, u.email, u.validated)
  }

  /** The JSON of a User record: its `json:"-"` fields (ID, Password,
      Version) are omitted. */
  function PublicUserOf(u: User): (b: Body)
    ensures b == PublicUser(u.createdAt, u.name, u.email, u.validated)
  {
    PublicUser(u.createdAt, u.name, u.email, u.validated)
  }

  /** The server error body never depends on the error: no internal error
      text reaches the caller. */
  lemma ServerErrorHidesCause(a: Err, b: Err)
    ensures ServerError(a) == ServerError(b)
    ensures ServerError(a).body == ErrorText("internal server error")
  {
  }

  /** Users that differ only in fields the JSON omits (id, password,
      version) produce the same body. */
  lemma PublicUserHidesSecrets(u: User, v: User)
    requires u.createdAt == v.createdAt && u.name == v.name && u.email == v.email && u.validated == v.validated
    ensures PublicUserOf(u) == PublicUserOf(v) && DetailsOf(u) == DetailsOf(v)
  {
  }

  /** Each fixed helper has its own status: a client can tell the failure
      classes apart by status alone. */
  lemma FixedStatusesDistinct(c: Err, m: string, errs: Errors, msg: string)
    ensures var statuses := [BadRequest(m).status, Unauthenticated().status, CsrfFailure().status,
                             DataConflict(c).status, FailedValidation(errs).status,
                             RateLimitExceeded().status, ServerError(c).status];
            statuses == [400, 401, 403, 409, 422, 429, 500]
    ensures Forbidden(msg).status == CsrfFailure().status
  {
  }
}
