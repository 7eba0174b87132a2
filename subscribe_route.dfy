/**
 * `POST /api/v1/subscribe`: read the JSON body, run the subscription
 * service, and turn its outcome or the error it throws into a status code
 * and an `ApiResponse` envelope.
 */
module SubscribeRoute {

  import opened Wrappers
  import opened Schemas
  import opened SubscriptionService

  datatype ApiError = ApiError(code: string, message: string, details: seq<string>)

  /** The success payload `{}`. */
  datatype EmptyObject = EmptyObject

  /** `ApiResponse`: `data` and `error`, where null is `None`. */
  datatype ApiResponse = ApiResponse(data: Option<EmptyObject>, error: Option<ApiError>)

  datatype HttpResponse = HttpResponse(status: nat, body: ApiResponse)

  function ErrorResponse(status: nat, code: string, message: string): HttpResponse {
    HttpResponse(status, ApiResponse(None, Some(ApiError(code, message, []))))
  }

  /** The answer to an outcome of the service: the `try` block's success
      response and the `catch` block's mapping of errors. */
  function Answer(o: SubscribeOutcome): HttpResponse {
    match o
    case Subscribed => HttpResponse(200, ApiResponse(Some(EmptyObject), None))
    case Threw(ValidationError(_)) => ErrorResponse(400, "VALIDATION_ERROR", "Invalid request data")
    case Threw(EmailExistsError(_)) => ErrorResponse(409, "EMAIL_EXISTS", "Email already subscribed")
    case Threw(_) => ErrorResponse(500, "INTERNAL_ERROR", "An unexpected error occurred")
  }

  /** `POST`. `body` is `None` when `request.json()` throws. */
  function Post(body: Option<Json>, isEmail: string -> bool, env: ListIdEnv,
                registry: CreateContact -> RegistryResult): HttpResponse
  {
    if body.None? then ErrorResponse(500, "INTERNAL_ERROR", "An unexpected error occurred")
    else Answer(Subscribe(body.value, isEmail, env, registry).outcome)
  }

  /** Every response carries exactly one of `data` and `error`, an error
      never has details, and the status is one of 200, 400, 409 and 500,
      with 200 exactly for a response with data. */
  predicate WellFormed(r: HttpResponse) {
    && (r.body.data.Some? <==> r.body.error.None?)
    && (r.body.error.Some? ==> r.body.error.value.details == [])
    && (r.status == 200 || r.status == 400 || r.status == 409 || r.status == 500)
    && (r.status == 200 <==> r.body.data.Some?)
  }

  lemma AnswerWellFormed(o: SubscribeOutcome)
    ensures WellFormed(Answer(o))
  {
    match o
    case Subscribed =>
    case Threw(e) =>
      assert Answer(o).body.data.None?;
  }

  lemma EnvelopeWellFormed(body: Option<Json>, isEmail: string -> bool, env: ListIdEnv,
                           registry: CreateContact -> RegistryResult)
    ensures WellFormed(Post(body, isEmail, env, registry))
  {
    if body.Some? {
      AnswerWellFormed(Subscribe(body.value, isEmail, env, registry).outcome);
    }
  }

  /** The status tells the outcome: 200 for a subscription, 400 with
      `VALIDATION_ERROR` for a `ValidationError`, 409 with `EMAIL_EXISTS`
      for a duplicate, and 500 with `INTERNAL_ERROR` for everything else,
      an unreadable body and a schema failure included. */
  lemma StatusMapping(body: Option<Json>, isEmail: string -> bool, env: ListIdEnv,
                      registry: CreateContact -> RegistryResult)
    ensures var r := Post(body, isEmail, env, registry);
            body.None? ==> r == ErrorResponse(500, "INTERNAL_ERROR", "An unexpected error occurred")
    ensures var r := Post(body, isEmail, env, registry);
            body.Some? ==>
              var o := Subscribe(body.value, isEmail, env, registry).outcome;
              && (o.Subscribed? <==> r.status == 200)
              && (o.Threw? && o.error.ValidationError? <==> r == ErrorResponse(400, "VALIDATION_ERROR", "Invalid request data"))
              && (o.Threw? && o.error.EmailExistsError? <==> r == ErrorResponse(409, "EMAIL_EXISTS", "Email already subscribed"))
              && (o.Threw? && (o.error.SchemaError? || o.error.Rethrown?) <==> r.status == 500)
  {
  }

  /** A body with a filled decoy field is refused by the schema, whose
      error is not a `ValidationError`: the answer is 500, not 400, and the
      registry is never called. */
  lemma FilledDecoyAnswers500(fields: map<string, Json>, isEmail: string -> bool, env: ListIdEnv,
                              registry: CreateContact -> RegistryResult, key: string)
    requires key == "website" || key == "phone" || key == "company"
    requires key in fields && fields[key] != JString("")
    ensures Post(Some(JObject(fields)), isEmail, env, registry).status == 500
    ensures Subscribe(JObject(fields), isEmail, env, registry).registryCall.None?
  {
    FilledDecoyRejected(JObject(fields), isEmail, key);
  }

  /** An accepted body whose contact the registry reports as a duplicate
      is answered 409. */
  lemma DuplicateAnswers409(body: Json, isEmail: string -> bool, env: ListIdEnv,
                            registry: CreateContact -> RegistryResult)
    requires Subscribe(body, isEmail, env, registry).registryCall.Some?
    requires registry(Subscribe(body, isEmail, env, registry).registryCall.value) ==
             Rejected(RegistryError(Some("duplicate_parameter")))
    ensures Post(Some(body), isEmail, env, registry) ==
            ErrorResponse(409, "EMAIL_EXISTS", "Email already subscribed")
  {
    var run := Subscribe(body, isEmail, env, registry);
    RegistryAnswerDecides(body, isEmail, env, registry);
    RegistryOutcomeMapping(registry(run.registryCall.value));
    assert run.outcome == Threw(EmailExistsError("Email already subscribed"));
  }
}
