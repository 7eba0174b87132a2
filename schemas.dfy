/**
 * The subscription payload schema: which JSON bodies the parser accepts,
 * what it returns for them, and the cross-field rule that a vets
 * subscription names its clinic.
 */
module Schemas {

  import opened Wrappers
  import opened Js

  /** A JSON value as `request.json()` produces it. */
  datatype Json =
    | JNull
    | JBool(b: bool)
    | JNumber(n: real)
    | JString(s: string)
    | JArray(items: seq<Json>)
    | JObject(fields: map<string, Json>)

  datatype ListName = Tutors | Vets

  /** The parsed payload. Optional fields that were absent are `None`;
      `clinicName` is the trimmed text. */
  datatype SubscriptionPayload = SubscriptionPayload(
    email: string,
    listName: ListName,
    clinicName: Option<string>,
    website: Option<string>,
    phone: Option<string>,
    company: Option<string>,
    formLoadTime: int,
    formSubmitTime: Option<int>,
    interactionCount: nat,
    hasFocusEvents: bool,
    hasMouseMovement: bool)

  /** The schema's error, thrown by `parse`; its issue list is not modelled. */
  datatype ZodError = ZodError

  /** The keys the schema declares; the parser drops every other key. */
  const SchemaKeys: set<string> := {
    "email", "listName", "clinicName", "website", "phone", "company",
    "formLoadTime", "formSubmitTime", "interactionCount", "hasFocusEvents", "hasMouseMovement"
  }

  // ---------------------------------------------------------------------
  // Field checks
  // ---------------------------------------------------------------------

  /** The character class `[a-zA-ZÀ-ÿ0-9\s\-'\.]`. */
  predicate IsClinicNameChar(c: char) {
    ('a' <= c <= 'z') || ('A' <= c <= 'Z') || ('À' <= c <= 'ÿ') || ('0' <= c <= '9') ||
    IsWhitespace(c) || c == '-' || c == '\'' || c == '.'
  }

  /** `.min(2).max(100).regex(/^[a-zA-ZÀ-ÿ0-9\s\-'\.]+$/)` on a clinic name,
      applied to the text as given (before any trimming). */
  predicate ClinicNameChecks(s: string) {
    2 <= Length(s) <= 100 && |s| >= 1 && forall k :: 0 <= k < |s| ==> IsClinicNameChar(s[k])
  }

  /** A clinic name that passes the checks is 2 to 100 characters long:
      every allowed character is a single UTF-16 code unit. */
  lemma ClinicNameLength(s: string)
    requires ClinicNameChecks(s)
    ensures 2 <= |s| <= 100
  {
    LengthOfBmp(s);
  }

  predicate IsInteger(n: real) {
    n.Floor as real == n
  }

  /** `z.number().int().positive()`. */
  predicate IsPositiveInt(j: Json) {
    j.JNumber? && IsInteger(j.n) && j.n > 0.0
  }

  /** `z.number().int().min(0)`. */
  predicate IsNonNegativeInt(j: Json) {
    j.JNumber? && IsInteger(j.n) && j.n >= 0.0
  }

  /** `z.enum(['tutors', 'vets'])`. */
  function ListNameOf(j: Json): (r: Option<ListName>)
    ensures r == Some(Tutors) <==> j == JString("tutors")
    ensures r == Some(Vets) <==> j == JString("vets")
  {
    if j == JString("tutors") then Some(Tutors)
    else if j == JString("vets") then Some(Vets)
    else None
  }

  /** `z.string().max(0).optional()`: absent, or the empty string. */
  predicate DecoyOk(f: map<string, Json>, key: string) {
    key !in f || (f[key].JString? && Length(f[key].s) <= 0)
  }

  predicate ClinicNameOk(f: map<string, Json>) {
    "clinicName" !in f || (f["clinicName"].JString? && ClinicNameChecks(f["clinicName"].s))
  }

  /** Every field has the declared type and passes its own checks. */
  predicate FieldsOk(f: map<string, Json>, isEmail: string -> bool) {
    && "email" in f && f["email"].JString? && isEmail(f["email"].s)
    && "listName" in f && ListNameOf(f["listName"]).Some?
    && ClinicNameOk(f)
    && DecoyOk(f, "website") && DecoyOk(f, "phone") && DecoyOk(f, "company")
    && "formLoadTime" in f && IsPositiveInt(f["formLoadTime"])
    && ("formSubmitTime" !in f || IsPositiveInt(f["formSubmitTime"]))
    && "interactionCount" in f && IsNonNegativeInt(f["interactionCount"])
    && "hasFocusEvents" in f && f["hasFocusEvents"].JBool?
    && "hasMouseMovement" in f && f["hasMouseMovement"].JBool?
  }

  function OptionalString(f: map<string, Json>, key: string): Option<string> {
    if key in f && f[key].JString? then Some(f[key].s) else None
  }

  /** The object the field parsers produce: unknown keys dropped, the clinic
      name trimmed. */
  function Build(f: map<string, Json>, isEmail: string -> bool): SubscriptionPayload
    requires FieldsOk(f, isEmail)
  {
    SubscriptionPayload(
      f["email"].s,
      ListNameOf(f["listName"]).value,
      if "clinicName" in f then Some(Trim(f["clinicName"].s)) else None,
      OptionalString(f, "website"),
      OptionalString(f, "phone"),
      OptionalString(f, "company"),
      f["formLoadTime"].n.Floor,
      if "formSubmitTime" in f then Some(f["formSubmitTime"].n.Floor) else None,
      f["interactionCount"].n.Floor as nat,
      f["hasFocusEvents"].b,
      f["hasMouseMovement"].b)
  }

  /** The `refine`: a vets subscription needs a clinic name that is still
      at least 2 characters long once trimmed. */
  predicate VetsRule(p: SubscriptionPayload) {
    p.listName == Vets ==> p.clinicName.Some? && p.clinicName.value != "" && Length(Trim(p.clinicName.value)) >= 2
  }

  /** `subscriptionPayloadSchema.parse(body)`. */
  function Parse(body: Json, isEmail: string -> bool): Result<SubscriptionPayload, ZodError> {
    if body.JObject? && FieldsOk(body.fields, isEmail) && VetsRule(Build(body.fields, isEmail))
    then Ok(Build(body.fields, isEmail))
    else Err(ZodError)
  }

  predicate Accepts(body: Json, isEmail: string -> bool) {
    Parse(body, isEmail).Ok?
  }

  /** The parsed payload as a JavaScript object: one key per field that is
      present. */
  function ToObject(p: SubscriptionPayload): (o: map<string, Json>)
    ensures o.Keys <= SchemaKeys
  {
    var required := map[
      "email" := JString(p.email),
      "listName" := JString(if p.listName == Tutors then "tutors" else "vets"),
      "formLoadTime" := JNumber(p.formLoadTime as real),
      "interactionCount" := JNumber(p.interactionCount as real),
      "hasFocusEvents" := JBool(p.hasFocusEvents),
      "hasMouseMovement" := JBool(p.hasMouseMovement)];
    var withClinic := if p.clinicName.Some? then required["clinicName" := JString(p.clinicName.value)] else required;
    var withWebsite := if p.website.Some? then withClinic["website" := JString(p.website.value)] else withClinic;
    var withPhone := if p.phone.Some? then withWebsite["phone" := JString(p.phone.value)] else withWebsite;
    var withCompany := if p.company.Some? then withPhone["company" := JString(p.company.value)] else withPhone;
    if p.formSubmitTime.Some? then withCompany["formSubmitTime" := JNumber(p.formSubmitTime.value as real)] else withCompany
  }

  // ---------------------------------------------------------------------
  // Properties of the schema
  // ---------------------------------------------------------------------

  /** What an accepted body looks like: an object whose e-mail passes the
      address check, whose list name is exactly `tutors` or `vets`, whose
      clinic name, when present, passes the clinic-name checks whatever the
      list, whose decoy fields, when present, are empty, whose
      load time is a positive integer, whose submit time is absent or a
      positive integer, whose interaction count is a non-negative integer and
      whose two flags are booleans. */
  lemma AcceptedShape(body: Json, isEmail: string -> bool)
    requires Accepts(body, isEmail)
    ensures body.JObject?
    ensures body.fields["email"].JString? && isEmail(body.fields["email"].s)
    ensures body.fields["listName"] == JString("tutors") || body.fields["listName"] == JString("vets")
    ensures "clinicName" in body.fields ==>
              body.fields["clinicName"].JString? && ClinicNameChecks(body.fields["clinicName"].s)
    ensures forall key :: key in ["website", "phone", "company"] && key in body.fields ==>
              body.fields[key] == JString("")
    ensures IsPositiveInt(body.fields["formLoadTime"])
    ensures "formSubmitTime" in body.fields ==> IsPositiveInt(body.fields["formSubmitTime"])
    ensures IsNonNegativeInt(body.fields["interactionCount"])
    ensures body.fields["hasFocusEvents"].JBool? && body.fields["hasMouseMovement"].JBool?
  {
    assert body.JObject? && FieldsOk(body.fields, isEmail);
    var f := body.fields;
    assert ListNameOf(f["listName"]).Some?;
    assert ClinicNameOk(f);
    forall key | key in ["website", "phone", "company"] && key in f
      ensures f[key] == JString("")
    {
      assert key == "website" || key == "phone" || key == "company";
      assert DecoyOk(f, key);
    }
  }

  /** A filled decoy field makes the parser throw, whatever the other
      fields hold. */
  lemma FilledDecoyRejected(body: Json, isEmail: string -> bool, key: string)
    requires key == "website" || key == "phone" || key == "company"
    requires body.JObject? && key in body.fields && body.fields[key] != JString("")
    ensures Parse(body, isEmail) == Err(ZodError)
  {
    var v := body.fields[key];
    if v.JString? {
      assert v.s != "";
      assert Length(v.s) >= |v.s| > 0;
    }
    assert !DecoyOk(body.fields, key);
  }

  /** A vets body is accepted only with a clinic name that passes the checks
      as given and still has 2 characters once trimmed. */
  lemma VetsNeedClinicName(body: Json, isEmail: string -> bool)
    requires Accepts(body, isEmail)
    requires body.fields["listName"] == JString("vets")
    ensures "clinicName" in body.fields && body.fields["clinicName"].JString?
    ensures ClinicNameChecks(body.fields["clinicName"].s)
    ensures Length(Trim(body.fields["clinicName"].s)) >= 2
  {
    TrimIdempotent(body.fields["clinicName"].s);
  }

  /** A tutors body needs no clinic name: dropping it keeps an accepted body
      accepted. */
  lemma TutorsClinicNameOptional(f: map<string, Json>, isEmail: string -> bool)
    requires Accepts(JObject(f), isEmail)
    requires f["listName"] == JString("tutors")
    ensures Accepts(JObject(f - {"clinicName"}), isEmail)
  {
    var g := f - {"clinicName"};
    assert FieldsOk(g, isEmail);
  }

  /** A clinic name, when present, is returned trimmed. */
  lemma ParsedClinicNameTrimmed(body: Json, isEmail: string -> bool)
    requires Accepts(body, isEmail)
    ensures var p := Parse(body, isEmail).value;
            p.clinicName.Some? <==> "clinicName" in body.fields
    ensures var p := Parse(body, isEmail).value;
            p.clinicName.Some? ==> p.clinicName.value == Trim(body.fields["clinicName"].s)
  {
  }

  /** The length and character checks run on the name before it is trimmed:
      `" a"` passes them and becomes `"a"`, which a tutors body keeps and a
      vets body is refused for. */
  lemma ChecksPrecedeTrim(f: map<string, Json>, isEmail: string -> bool)
    requires FieldsOk(f, isEmail)
    requires "clinicName" in f && f["clinicName"] == JString(" a")
    ensures f["listName"] == JString("tutors") ==>
              Parse(JObject(f), isEmail).Ok? && Parse(JObject(f), isEmail).value.clinicName == Some("a")
    ensures f["listName"] == JString("vets") ==> Parse(JObject(f), isEmail) == Err(ZodError)
  {
    assert " a"[1..] == "a";
    assert TrimStart(" a") == "a";
    assert TrimEnd("a") == "a";
    assert Trim(" a") == "a";
    TrimIdempotent(" a");
    assert Length("a") == 1;
  }

  /** A value of the type the schema wants for one of the timing and
      behaviour fields. */
  predicate BehaviourValue(key: string, v: Json) {
    ((key == "formLoadTime" || key == "formSubmitTime") && IsPositiveInt(v)) ||
    (key == "interactionCount" && IsNonNegativeInt(v)) ||
    ((key == "hasFocusEvents" || key == "hasMouseMovement") && v.JBool?)
  }

  lemma ReplaceBehaviourField(f: map<string, Json>, isEmail: string -> bool, key: string, v: Json)
    requires Accepts(JObject(f), isEmail)
    requires BehaviourValue(key, v)
    ensures Accepts(JObject(f[key := v]), isEmail)
  {
    var g := f[key := v];
    assert FieldsOk(g, isEmail);
    assert Build(g, isEmail).listName == Build(f, isEmail).listName;
    assert Build(g, isEmail).clinicName == Build(f, isEmail).clinicName;
  }

  /** Acceptance does not depend on the order of the two timestamps, on the
      size of the interaction count or on the two flags: replacing any of
      them by another value of the right type keeps an accepted body
      accepted. */
  lemma AcceptanceIgnoresBehaviour(f: map<string, Json>, isEmail: string -> bool,
                                   load: nat, submit: nat, count: nat, focus: bool, mouse: bool)
    requires Accepts(JObject(f), isEmail)
    requires load > 0 && submit > 0
    ensures Accepts(JObject(f["formLoadTime" := JNumber(load as real)]
                             ["formSubmitTime" := JNumber(submit as real)]
                             ["interactionCount" := JNumber(count as real)]
                             ["hasFocusEvents" := JBool(focus)]
                             ["hasMouseMovement" := JBool(mouse)]), isEmail)
  {
    var f1 := f["formLoadTime" := JNumber(load as real)];
    ReplaceBehaviourField(f, isEmail, "formLoadTime", JNumber(load as real));
    var f2 := f1["formSubmitTime" := JNumber(submit as real)];
    ReplaceBehaviourField(f1, isEmail, "formSubmitTime", JNumber(submit as real));
    var f3 := f2["interactionCount" := JNumber(count as real)];
    ReplaceBehaviourField(f2, isEmail, "interactionCount", JNumber(count as real));
    var f4 := f3["hasFocusEvents" := JBool(focus)];
    ReplaceBehaviourField(f3, isEmail, "hasFocusEvents", JBool(focus));
    ReplaceBehaviourField(f4, isEmail, "hasMouseMovement", JBool(mouse));
  }

  /** Keys the schema does not declare are ignored: adding one changes
      neither acceptance nor the result. */
  lemma UnknownKeysIgnored(f: map<string, Json>, isEmail: string -> bool, key: string, v: Json)
    requires key !in SchemaKeys
    ensures Parse(JObject(f[key := v]), isEmail) == Parse(JObject(f), isEmail)
  {
    var g := f[key := v];
    assert FieldsOk(g, isEmail) <==> FieldsOk(f, isEmail);
    if FieldsOk(f, isEmail) {
      assert Build(g, isEmail) == Build(f, isEmail);
    }
  }
}
