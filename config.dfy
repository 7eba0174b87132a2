/**
 * The bot-detection configuration: thresholds and switches read once from
 * the process environment, with fixed defaults, and the enumeration of
 * detection reasons.
 */
module BotDetectionConfig {

  import opened Js

  /** The process environment: variable name to value; a name that is not
      a key is unset. */
  type Env = map<string, string>

  datatype Temporal = Temporal(minFormTimeMs: Num, maxFormTimeMs: Num)

  datatype Behavioral = Behavioral(
    minInteractionCount: Num,
    requireFocusEvents: bool,
    requireMouseMovement: bool)

  datatype Honeypot = Honeypot(enabled: bool, fieldNames: seq<string>)

  /** `level` is whatever string the environment holds: the source only
      casts it to `'info' | 'warn' | 'error'` and never checks it. */
  datatype Logging = Logging(enabled: bool, level: string, console: bool, persistent: bool)

  datatype Captcha = Captcha(enabled: bool, failureThreshold: Num)

  datatype Config = Config(
    temporal: Temporal,
    behavioral: Behavioral,
    honeypot: Honeypot,
    logging: Logging,
    captcha: Captcha)

  const MinFormTimeVar := "BOT_MIN_FORM_TIME_MS"
  const MaxFormTimeVar := "BOT_MAX_FORM_TIME_MS"
  const MinInteractionsVar := "BOT_MIN_INTERACTIONS"
  const RequireFocusVar := "BOT_REQUIRE_FOCUS"
  const RequireMouseVar := "BOT_REQUIRE_MOUSE"
  const HoneypotEnabledVar := "BOT_HONEYPOT_ENABLED"
  const LoggingEnabledVar := "BOT_LOGGING_ENABLED"
  const LogLevelVar := "BOT_LOG_LEVEL"
  const CaptchaEnabledVar := "BOT_CAPTCHA_ENABLED"
  const CaptchaThresholdVar := "BOT_CAPTCHA_THRESHOLD"

  const DecoyFieldNames: seq<string> := ["website", "phone", "company"]

  /** `process.env[name] || fallback`: an unset or empty variable is falsy. */
  function OrElse(env: Env, name: string, fallback: string): string {
    if name in env && env[name] != "" then env[name] else fallback
  }

  /** `process.env[name] !== 'false'`. */
  predicate NotFalse(env: Env, name: string) {
    !(name in env && env[name] == "false")
  }

  /** `process.env[name] === 'true'`. */
  predicate IsTrue(env: Env, name: string) {
    name in env && env[name] == "true"
  }

  /** `defaultBotDetectionConfig`, built from the environment seen when the
      module is loaded. */
  function DefaultConfig(env: Env): Config {
    Config(
      Temporal(
        ParseInt(OrElse(env, MinFormTimeVar, "2000")),
        ParseInt(OrElse(env, MaxFormTimeVar, "3600000"))),
      Behavioral(
        ParseInt(OrElse(env, MinInteractionsVar, "2")),
        NotFalse(env, RequireFocusVar),
        NotFalse(env, RequireMouseVar)),
      Honeypot(NotFalse(env, HoneypotEnabledVar), DecoyFieldNames),
      Logging(NotFalse(env, LoggingEnabledVar), OrElse(env, LogLevelVar, "warn"), true, false),
      Captcha(
        IsTrue(env, CaptchaEnabledVar),
        ParseInt(OrElse(env, CaptchaThresholdVar, "3"))))
  }

  predicate Unset(env: Env, name: string) {
    name !in env || env[name] == ""
  }

  /** With every variable unset (or empty) the documented defaults apply:
      a 2000 to 3600000 ms window, at least 2 interactions, every check
      switched on, captcha off with a threshold of 3, level `warn`. */
  lemma DefaultsWhenUnset(env: Env)
    requires Unset(env, MinFormTimeVar) && Unset(env, MaxFormTimeVar)
    requires Unset(env, MinInteractionsVar) && Unset(env, CaptchaThresholdVar)
    requires Unset(env, LogLevelVar) && Unset(env, CaptchaEnabledVar)
    requires Unset(env, RequireFocusVar) && Unset(env, RequireMouseVar)
    requires Unset(env, HoneypotEnabledVar) && Unset(env, LoggingEnabledVar)
    ensures DefaultConfig(env) == Config(
              Temporal(Int(2000), Int(3600000)),
              Behavioral(Int(2), true, true),
              Honeypot(true, ["website", "phone", "company"]),
              Logging(true, "warn", true, false),
              Captcha(false, Int(3)))
  {
    MinFormTimeDefaultParses();
    MaxFormTimeDefaultParses();
    SmallDefaultsParse();
  }

  /** The numeric defaults, as strings, parse to their values. */
  lemma MinFormTimeDefaultParses()
    ensures ParseInt("2000") == Int(2000)
  {
    assert DigitsValue("2", 10) == 2 by { assert "2"[..0] == ""; }
    assert DigitsValue("20", 10) == 20 by { assert "20"[..1] == "2"; }
    assert DigitsValue("200", 10) == 200 by { assert "200"[..2] == "20"; }
    assert DigitsValue("2000", 10) == 2000 by { assert "2000"[..3] == "200"; }
    ParseIntOfDigits("2000");
  }

  lemma MaxFormTimeDefaultParses()
    ensures ParseInt("3600000") == Int(3600000)
  {
    assert DigitsValue("3", 10) == 3 by { assert "3"[..0] == ""; }
    assert DigitsValue("36", 10) == 36 by { assert "36"[..1] == "3"; }
    assert DigitsValue("360", 10) == 360 by { assert "360"[..2] == "36"; }
    assert DigitsValue("3600", 10) == 3600 by { assert "3600"[..3] == "360"; }
    assert DigitsValue("36000", 10) == 36000 by { assert "36000"[..4] == "3600"; }
    assert DigitsValue("360000", 10) == 360000 by { assert "360000"[..5] == "36000"; }
    assert DigitsValue("3600000", 10) == 3600000 by { assert "3600000"[..6] == "360000"; }
    ParseIntOfDigits("3600000");
  }

  lemma SmallDefaultsParse()
    ensures ParseInt("2") == Int(2) && ParseInt("3") == Int(3)
  {
    assert DigitsValue("2", 10) == 2 by { assert "2"[..0] == ""; }
    assert DigitsValue("3", 10) == 3 by { assert "3"[..0] == ""; }
    ParseIntOfDigits("2");
    ParseIntOfDigits("3");
  }

  /** A switch that defaults to on is off exactly when its variable is the
      string `false`; any other value, `FALSE` or `0` included, keeps it on.
      Captcha is on exactly when its variable is the string `true`. */
  lemma SwitchSemantics(env: Env)
    ensures var c := DefaultConfig(env);
            && (c.behavioral.requireFocusEvents <==> !(RequireFocusVar in env && env[RequireFocusVar] == "false"))
            && (c.behavioral.requireMouseMovement <==> !(RequireMouseVar in env && env[RequireMouseVar] == "false"))
            && (c.honeypot.enabled <==> !(HoneypotEnabledVar in env && env[HoneypotEnabledVar] == "false"))
            && (c.logging.enabled <==> !(LoggingEnabledVar in env && env[LoggingEnabledVar] == "false"))
            && (c.captcha.enabled <==> CaptchaEnabledVar in env && env[CaptchaEnabledVar] == "true")
  {
  }

  /** The decoy field names, console logging and the absence of persistent
      logging do not depend on the environment. */
  lemma FixedSettings(env: Env)
    ensures DefaultConfig(env).honeypot.fieldNames == ["website", "phone", "company"]
    ensures DefaultConfig(env).logging.console && !DefaultConfig(env).logging.persistent
  {
  }

  /** The log level is `warn` when its variable is unset or empty and the
      variable's value, unchecked, otherwise. */
  lemma LogLevelSemantics(env: Env)
    ensures Unset(env, LogLevelVar) ==> DefaultConfig(env).logging.level == "warn"
    ensures !Unset(env, LogLevelVar) ==> DefaultConfig(env).logging.level == env[LogLevelVar]
  {
  }

  /** The four variables read with `parseInt(process.env[name] || default)`. */
  predicate IsNumericVar(name: string) {
    name == MinFormTimeVar || name == MaxFormTimeVar || name == MinInteractionsVar || name == CaptchaThresholdVar
  }

  /** The setting of `c` that the numeric variable `name` feeds. */
  function NumericSettingOf(c: Config, name: string): Num
    requires IsNumericVar(name)
  {
    if name == MinFormTimeVar then c.temporal.minFormTimeMs
    else if name == MaxFormTimeVar then c.temporal.maxFormTimeMs
    else if name == MinInteractionsVar then c.behavioral.minInteractionCount
    else c.captcha.failureThreshold
  }

  /** A set, non-empty numeric variable is parsed as it is: the default is
      never consulted. */
  lemma NumericSettingParsesVariable(env: Env, name: string)
    requires IsNumericVar(name)
    requires name in env && env[name] != ""
    ensures NumericSettingOf(DefaultConfig(env), name) == ParseInt(env[name])
  {
    assert MinFormTimeVar != MaxFormTimeVar && MinFormTimeVar != MinInteractionsVar;
    assert MaxFormTimeVar != MinInteractionsVar;
  }

  /** A numeric variable set to a decimal number gives that number; one set
      to a value without leading digits gives NaN, with no fall-back to the
      default (only an unset or empty variable falls back). This holds for
      each of the four numeric variables. */
  lemma NumericSettingSemantics(env: Env, name: string, n: int)
    requires IsNumericVar(name)
    ensures name in env && env[name] == ToRadixString(n, 10) ==>
              NumericSettingOf(DefaultConfig(env), name) == Int(n)
    ensures name in env && env[name] != "" &&
            DigitValue(env[name][0], 10).None? &&
            !IsWhitespace(env[name][0]) &&
            env[name][0] != '-' && env[name][0] != '+' ==>
              NumericSettingOf(DefaultConfig(env), name) == NaN
  {
    if name in env && env[name] != "" {
      NumericSettingParsesVariable(env, name);
      ParseIntOfDecimal(n);
      NoLeadingDigitIsNaN(env[name]);
    }
  }

  lemma NoLeadingDigitIsNaN(v: string)
    requires v != ""
    ensures DigitValue(v[0], 10).None? && !IsWhitespace(v[0]) && v[0] != '-' && v[0] != '+' ==>
              ParseInt(v) == NaN
  {
    if !IsWhitespace(v[0]) {
      TrimStartIdempotent(v);
      ParseIntNaN(v);
    }
  }

  /** The reasons a submission can be classed as a bot. */
  datatype Reason =
    | HoneypotFilled
    | TooFast
    | TooSlow
    | NoFocusEvents
    | InsufficientInteractions
    | NoMouseMovement

  /** The string value of each member of the enumeration. */
  function ReasonName(r: Reason): (name: string)
    ensures name != ""
  {
    match r
    case HoneypotFilled => "HONEYPOT_FILLED"
    case TooFast => "TOO_FAST"
    case TooSlow => "TOO_SLOW"
    case NoFocusEvents => "NO_FOCUS_EVENTS"
    case InsufficientInteractions => "INSUFFICIENT_INTERACTIONS"
    case NoMouseMovement => "NO_MOUSE_MOVEMENT"
  }

  /** No two reasons share a name, so a breakdown keyed by name loses nothing. */
  lemma ReasonNameInjective(r1: Reason, r2: Reason)
    requires ReasonName(r1) == ReasonName(r2)
    ensures r1 == r2
  {
  }
}
