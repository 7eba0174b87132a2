/**
 * The subscription service: parse the payload, check the honeypot, resolve
 * the list id, then create the contact in the mailing-list registry and
 * translate the registry's answer.
 */
module SubscriptionService {

  import opened Wrappers
  import opened Js
  import opened Schemas

  /** `process.env.BREVO_TUTORS_LIST_ID` and `BREVO_VETS_LIST_ID`; `None`
      when unset. */
  datatype ListIdEnv = ListIdEnv(tutors: Option<string>, vets: Option<string>)

  /** `listIdMap[listName]`. */
  function ListIdFor(env: ListIdEnv, name: ListName): Option<string> {
    match name
    case Tutors => env.tutors
    case Vets => env.vets
  }

  /** The contact sent to the registry. */
  datatype CreateContact = CreateContact(email: string, listIds: seq<Num>)

  /** A rejection from the registry; `bodyCode` is `error.response.body.code`
      when the error carries one. */
  datatype RegistryError = RegistryError(bodyCode: Option<string>)

  /** The registry's answer to `createContact`. */
  datatype RegistryResult = Created | Rejected(error: RegistryError)

  /** What `subscribe` throws. */
  datatype ServiceError =
    | SchemaError(zod: ZodError)
    | ValidationError(message: string)
    | EmailExistsError(message: string)
    | Rethrown(error: RegistryError)

  datatype SubscribeOutcome = Subscribed | Threw(error: ServiceError)

  /** One run of `subscribe`: the contact passed to the registry, if it was
      called at all, and how the call ended. */
  datatype Subscription = Subscription(registryCall: Option<CreateContact>, outcome: SubscribeOutcome)

  const DuplicateCode := "duplicate_parameter"

  /** `validated.honeypot && validated.honeypot.length > 0`, read on the
      object the parser returned. */
  predicate HoneypotFilled(v: SubscriptionPayload) {
    var obj := ToObject(v);
    "honeypot" in obj && obj["honeypot"].JString? && Length(obj["honeypot"].s) > 0
  }

  /** The catch block: `duplicate_parameter` becomes `EmailExistsError`,
      anything else is rethrown as it is. */
  function RegistryOutcome(r: RegistryResult): SubscribeOutcome {
    match r
    case Created => Subscribed
    case Rejected(e) =>
      if e.bodyCode == Some(DuplicateCode) then Threw(EmailExistsError("Email already subscribed"))
      else Threw(Rethrown(e))
  }

  /** `subscribe(payload)`, with the registry as the function `registry`. */
  function Subscribe(body: Json, isEmail: string -> bool, env: ListIdEnv,
                     registry: CreateContact -> RegistryResult): Subscription
  {
    match Parse(body, isEmail)
    case Err(z) => Subscription(None, Threw(SchemaError(z)))
    case Ok(v) =>
      if HoneypotFilled(v) then Subscription(None, Threw(ValidationError("Bot submission detected")))
      else
        var listId := ListIdFor(env, v.listName);
        if listId.None? || listId.value == "" then
          Subscription(None, Threw(ValidationError("Invalid list name: " + (if v.listName == Tutors then "tutors" else "vets"))))
        else
          var contact := CreateContact(v.email, [ParseInt(listId.value)]);
          Subscription(Some(contact), RegistryOutcome(registry(contact)))
  }

  /** The schema declares no `honeypot` key and the parser drops undeclared
      keys, so the honeypot check can never fire. */
  lemma HoneypotCheckUnreachable(v: SubscriptionPayload)
    ensures !HoneypotFilled(v)
  {
    assert "honeypot" !in SchemaKeys;
  }

  /** The checks run in order: a body the schema refuses throws the
      schema's own error; an accepted body whose list has no id throws
      `ValidationError`; only then is the registry called, once. */
  lemma {:induction false} CheckOrder(body: Json, isEmail: string -> bool, env: ListIdEnv,
                                      registry: CreateContact -> RegistryResult)
    ensures var run := Subscribe(body, isEmail, env, registry);
            !Accepts(body, isEmail) ==> run == Subscription(None, Threw(SchemaError(ZodError)))
    ensures var run := Subscribe(body, isEmail, env, registry);
            Accepts(body, isEmail) ==>
              var id := ListIdFor(env, Parse(body, isEmail).value.listName);
              (run.registryCall.Some? <==> id.Some? && id.value != "") &&
              (run.registryCall.None? ==> run.outcome.Threw? && run.outcome.error.ValidationError?)
  {
    if Accepts(body, isEmail) {
      HoneypotCheckUnreachable(Parse(body, isEmail).value);
    }
  }

  /** The contact carries the validated address and exactly one list id,
      the parsed id of the chosen list; the outcome is the registry's
      answer translated. */
  lemma RegistryCallContents(body: Json, isEmail: string -> bool, env: ListIdEnv,
                             registry: CreateContact -> RegistryResult)
    requires Subscribe(body, isEmail, env, registry).registryCall.Some?
    ensures var run := Subscribe(body, isEmail, env, registry);
            var v := Parse(body, isEmail).value;
            && Accepts(body, isEmail)
            && run.registryCall.value == CreateContact(v.email, [ParseInt(ListIdFor(env, v.listName).value)])
            && run.outcome == RegistryOutcome(registry(run.registryCall.value))
  {
  }

  /** Once the registry is called, its answer alone decides the outcome. */
  lemma RegistryAnswerDecides(body: Json, isEmail: string -> bool, env: ListIdEnv,
                              registry: CreateContact -> RegistryResult)
    requires Subscribe(body, isEmail, env, registry).registryCall.Some?
    ensures var run := Subscribe(body, isEmail, env, registry);
            run.outcome == RegistryOutcome(registry(run.registryCall.value))
  {
  }

  /** A rejection coded `duplicate_parameter` becomes `EmailExistsError`;
      any other rejection is rethrown unchanged; success is success. */
  lemma RegistryOutcomeMapping(r: RegistryResult)
    ensures r.Created? ==> RegistryOutcome(r) == Subscribed
    ensures r.Rejected? && r.error.bodyCode == Some("duplicate_parameter") ==>
              RegistryOutcome(r) == Threw(EmailExistsError("Email already subscribed"))
    ensures r.Rejected? && r.error.bodyCode != Some("duplicate_parameter") ==>
              RegistryOutcome(r) == Threw(Rethrown(r.error))
  {
  }

  /** `ValidationError` is thrown only for a list without an id: the
      honeypot message never occurs. */
  lemma ValidationErrorMeansNoListId(body: Json, isEmail: string -> bool, env: ListIdEnv,
                                     registry: CreateContact -> RegistryResult)
    requires Subscribe(body, isEmail, env, registry).outcome.Threw?
    requires Subscribe(body, isEmail, env, registry).outcome.error.ValidationError?
    ensures Accepts(body, isEmail)
    ensures var id := ListIdFor(env, Parse(body, isEmail).value.listName);
            id.None? || id.value == ""
    ensures Subscribe(body, isEmail, env, registry).outcome.error.message != "Bot submission detected"
  {
    assert Accepts(body, isEmail);
    var v := Parse(body, isEmail).value;
    HoneypotCheckUnreachable(v);
    assert "Invalid list name: "[0] != "Bot submission detected"[0];
  }
}
