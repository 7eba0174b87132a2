/**
 * The bot-detection telemetry log: a process-wide list of detection results
 * capped at 1000 entries (the oldest is dropped on overflow), the statistics
 * computed over it, its CSV export, and the 32-bit rolling hash that stands
 * in for e-mail addresses.
 */
module BotDetectionLogger {

  import opened Wrappers
  import opened Js
  import opened BotDetectionConfig

  const MaxLogSize: nat := 1000
  const RecentCount: nat := 50

  /** The details of a result, carried as the text `JSON.stringify` makes of
      them. */
  type Details = string

  /** One recorded decision. `timestamp` is the value of `Date.now()` at
      logging time; `email` holds a hash, never an address. */
  datatype BotDetectionResult = BotDetectionResult(
    isBot: bool,
    reason: Option<Reason>,
    details: Details,
    timestamp: int,
    email: Option<string>)

  // ---------------------------------------------------------------------
  // Appending with eviction
  // ---------------------------------------------------------------------

  /** The last `min(n, |s|)` elements of `s`, in order. */
  function LastN<T>(s: seq<T>, n: nat): (r: seq<T>)
    ensures |r| == if |s| < n then |s| else n
    ensures r == s[|s| - |r|..]
  {
    if |s| <= n then s else s[|s| - n..]
  }

  /** The log after `push(e)` followed by `shift()` when the length went over
      the cap: `e` is last, and at most the oldest entry is gone. */
  function Pushed(log: seq<BotDetectionResult>, e: BotDetectionResult): (r: seq<BotDetectionResult>)
    ensures |r| >= 1 && r[|r| - 1] == e
    ensures |log| < MaxLogSize ==> r == log + [e]
    ensures |log| >= MaxLogSize ==> |r| == |log| && r == log[1..] + [e]
  {
    var grown := log + [e];
    if |grown| > MaxLogSize then grown[1..] else grown
  }

  /** Pushing a whole sequence of results, one after the other. */
  function PushAll(log: seq<BotDetectionResult>, es: seq<BotDetectionResult>): seq<BotDetectionResult>
    decreases |es|
  {
    if es == [] then log else PushAll(Pushed(log, es[0]), es[1..])
  }

  /** On a log within the cap, one push keeps exactly the newest
      `MaxLogSize` results. */
  lemma PushedKeepsNewest(log: seq<BotDetectionResult>, e: BotDetectionResult)
    requires |log| <= MaxLogSize
    ensures Pushed(log, e) == LastN(log + [e], MaxLogSize)
    ensures |Pushed(log, e)| <= MaxLogSize
  {
  }

  lemma LastNOfLastN<T>(a: seq<T>, b: seq<T>, n: nat)
    ensures LastN(LastN(a, n) + b, n) == LastN(a + b, n)
  {
    if |a| > n {
      var l := LastN(a, n);
      var k := |a| - n;
      var u, v := LastN(l + b, n), LastN(a + b, n);
      assert |u| == n == |v|;
      forall i | 0 <= i < n ensures u[i] == v[i] {
        assert u[i] == (l + b)[|b| + i];
        assert v[i] == (a + b)[k + |b| + i];
        if |b| + i < n {
          assert l[|b| + i] == a[k + |b| + i];
        }
      }
    }
  }

  /** Keeping the last `n` after the first element and again after the
      others is keeping the last `n` of all of them. */
  lemma LastNOfFirstThenRest<T>(log: seq<T>, es: seq<T>, n: nat)
    requires es != []
    ensures LastN(LastN(log + [es[0]], n) + es[1..], n) == LastN(log + es, n)
  {
    var first, rest := log + [es[0]], es[1..];
    assert first + rest == log + es;
    LastNOfLastN(first, rest, n);
  }

  /** However many results are pushed, the log holds the newest
      `MaxLogSize` of everything pushed, in arrival order: the capacity is
      never exceeded and eviction is oldest first. */
  lemma {:induction false} PushAllKeepsNewest(log: seq<BotDetectionResult>, es: seq<BotDetectionResult>)
    requires |log| <= MaxLogSize
    ensures PushAll(log, es) == LastN(log + es, MaxLogSize)
    decreases |es|
  {
    if es == [] {
      assert log + es == log;
    } else {
      PushedKeepsNewest(log, es[0]);
      PushAllKeepsNewest(Pushed(log, es[0]), es[1..]);
      LastNOfFirstThenRest(log, es, MaxLogSize);
    }
  }

  /** After `MaxLogSize + 1` results go into an empty log, the first of
      them is gone and the others are all there, in order. */
  lemma OverflowEvictsOldest(es: seq<BotDetectionResult>)
    requires |es| == MaxLogSize + 1
    ensures PushAll([], es) == es[1..]
  {
    PushAllKeepsNewest([], es);
    assert [] + es == es;
  }

  // ---------------------------------------------------------------------
  // E-mail hashing
  // ---------------------------------------------------------------------

  /** The rolling hash over UTF-16 code units: start at 0 and, for each
      unit c, set h to ToInt32(31 * h + c). */
  function RollingHash(units: seq<int>): (h: int)
    ensures IsInt32(h)
  {
    if units == [] then 0
    else ToInt32(31 * RollingHash(units[..|units| - 1]) + units[|units| - 1])
  }

  /** `(h << 5) - h + c` followed by `& itself` is ToInt32(31 * h + c). */
  lemma ShiftSubtractIsTimes31(h: int, c: int)
    ensures ToInt32(ToInt32(h * 32) - h + c) == ToInt32(31 * h + c)
  {
    var shifted := ToInt32(h * 32);
    assert (shifted - h * 32) % TwoTo32 == 0;
    assert (shifted - h + c) - (31 * h + c) == shifted - h * 32;
    ToInt32Congruent(shifted - h + c, 31 * h + c);
  }

  /** The text `hashEmail` stores: the rolling hash written in base 36. */
  function EmailHash(email: string): string {
    ToRadixString(RollingHash(CodeUnits(email)), 36)
  }

  /** `hashEmail`: the loop over the e-mail's code units. */
  method HashEmail(email: string) returns (hashed: string)
    ensures hashed == EmailHash(email)
  {
    var units := CodeUnits(email);
    var hash := 0;
    var i := 0;
    while i < |units|
      invariant 0 <= i <= |units|
      invariant hash == RollingHash(units[..i])
    {
      var ch := units[i];
      ShiftSubtractIsTimes31(hash, ch);
      assert units[..i + 1][..i] == units[..i];
      hash := ToInt32(ToInt32(hash * 32) - hash + ch);
      i := i + 1;
    }
    assert units[..i] == units;
    hashed := ToRadixString(hash, 36);
  }

  /** A hash is made of base-36 digits and possibly a leading minus sign,
      so it never contains `@`. */
  lemma {:induction false} EmailHashHasNoAt(email: string)
    ensures '@' !in EmailHash(email)
  {
    var h := RollingHash(CodeUnits(email));
    var n: nat := if h < 0 then -h else h;
    RadixDigitsWellFormed(n, 36);
    var digits := RadixDigits(n, 36);
    assert forall k :: 0 <= k < |digits| ==> digits[k] != '@' by {
      forall k | 0 <= k < |digits| ensures digits[k] != '@' {
        assert DigitValue(digits[k], 36).Some?;
      }
    }
  }

  /** Two addresses get the same hash exactly when their rolling hashes
      agree: writing the hash in base 36 loses nothing. */
  lemma EmailHashFaithful(a: string, b: string)
    ensures EmailHash(a) == EmailHash(b) <==> RollingHash(CodeUnits(a)) == RollingHash(CodeUnits(b))
  {
    if EmailHash(a) == EmailHash(b) {
      RadixStringInjective(RollingHash(CodeUnits(a)), RollingHash(CodeUnits(b)), 36);
    }
  }

  /** `email ? hashEmail(email) : undefined`: an absent or empty address is
      stored as undefined. */
  function StoredEmail(email: Option<string>): (stored: Option<string>)
    ensures stored.Some? <==> email.Some? && email.value != ""
  {
    if email.Some? && email.value != "" then Some(EmailHash(email.value)) else None
  }

  /** What is stored for an address is never the address itself. */
  lemma StoredEmailNeverRaw(email: string)
    requires '@' in email
    ensures StoredEmail(Some(email)) != Some(email)
  {
    EmailHashHasNoAt(email);
  }

  // ---------------------------------------------------------------------
  // Counting
  // ---------------------------------------------------------------------

  /** The number of results classed as bots (`filter(log => log.isBot)`). */
  function CountBots(log: seq<BotDetectionResult>): (n: nat)
    ensures n <= |log|
  {
    if log == [] then 0
    else CountBots(log[..|log| - 1]) + (if log[|log| - 1].isBot then 1 else 0)
  }

  predicate IsBotFor(e: BotDetectionResult, r: Reason) {
    e.isBot && e.reason == Some(r)
  }

  /** The number of bot results recorded with reason `r`. */
  function CountReason(log: seq<BotDetectionResult>, r: Reason): nat {
    if log == [] then 0
    else CountReason(log[..|log| - 1], r) + (if IsBotFor(log[|log| - 1], r) then 1 else 0)
  }

  /** The number of bot results that carry a reason. */
  function CountBotsWithReason(log: seq<BotDetectionResult>): nat {
    if log == [] then 0
    else CountBotsWithReason(log[..|log| - 1]) +
         (if log[|log| - 1].isBot && log[|log| - 1].reason.Some? then 1 else 0)
  }

  /** The per-reason counts add up to the bot results that have a reason,
      which are at most all bot results: a breakdown never over-counts. */
  lemma {:induction false} BreakdownAddsUp(log: seq<BotDetectionResult>)
    ensures CountReason(log, HoneypotFilled) + CountReason(log, TooFast) + CountReason(log, TooSlow) +
            CountReason(log, NoFocusEvents) + CountReason(log, InsufficientInteractions) +
            CountReason(log, NoMouseMovement) == CountBotsWithReason(log)
    ensures CountBotsWithReason(log) <= CountBots(log)
  {
    if log != [] {
      BreakdownAddsUp(log[..|log| - 1]);
      var e := log[|log| - 1];
      if e.isBot && e.reason.Some? {
        assert forall r :: IsBotFor(e, r) <==> r == e.reason.value;
      } else {
        assert forall r :: !IsBotFor(e, r);
      }
    }
  }

  // ---------------------------------------------------------------------
  // Statistics
  // ---------------------------------------------------------------------

  /** The value `getBotDetectionStats` returns. `botPercentage` is the exact
      ratio; the source rounds it to two decimals. */
  datatype Stats = Stats(
    total: nat,
    botAttempts: nat,
    legitimateSubmissions: int,
    botPercentage: real,
    reasonBreakdown: map<Reason, nat>,
    recentAttempts: seq<BotDetectionResult>)

  /** `m` maps exactly the reasons that some bot result of `log` carries,
      each to the number of such results. */
  ghost predicate IsBreakdownOf(m: map<Reason, nat>, log: seq<BotDetectionResult>) {
    && (forall r :: r in m <==> CountReason(log, r) > 0)
    && (forall r :: r in m ==> m[r] == CountReason(log, r))
  }

  /** Tallying one more result keeps a breakdown exact: a bot result with a
      reason adds one to that reason, any other result changes nothing. */
  lemma BreakdownStep(m: map<Reason, nat>, log: seq<BotDetectionResult>, e: BotDetectionResult)
    requires IsBreakdownOf(m, log)
    ensures e.isBot && e.reason.Some? ==>
              IsBreakdownOf(m[e.reason.value := (if e.reason.value in m then m[e.reason.value] else 0) + 1],
                            log + [e])
    ensures !(e.isBot && e.reason.Some?) ==> IsBreakdownOf(m, log + [e])
  {
    assert (log + [e])[..|log|] == log;
    forall r ensures CountReason(log + [e], r) == CountReason(log, r) + (if IsBotFor(e, r) then 1 else 0) {
    }
  }

  /** `s` is the statistics of `log`: the total is the log length, the
      legitimate count is the total less the bot count, the bot share is 0
      for an empty log, the breakdown counts exactly the bot entries that
      have a reason, and the recent entries are the last 50 in log order. */
  ghost predicate IsStatsOf(s: Stats, log: seq<BotDetectionResult>) {
    && s.total == |log| && s.botAttempts == CountBots(log)
    && s.legitimateSubmissions == s.total - s.botAttempts >= 0
    && (s.total == 0 ==> s.botPercentage == 0.0)
    && (s.total > 0 ==> s.botPercentage == (s.botAttempts as real) / (s.total as real) * 100.0)
    && IsBreakdownOf(s.reasonBreakdown, log)
    && |s.recentAttempts| == (if |log| < RecentCount then |log| else RecentCount)
    && s.recentAttempts == log[|log| - |s.recentAttempts|..]
  }

  /** The statistics of a log are determined by it: computing them twice
      without logging in between gives the same value. */
  lemma StatsDetermined(s1: Stats, s2: Stats, log: seq<BotDetectionResult>)
    requires IsStatsOf(s1, log) && IsStatsOf(s2, log)
    ensures s1 == s2
  {
    assert s1.reasonBreakdown.Keys == s2.reasonBreakdown.Keys;
    assert s1.reasonBreakdown == s2.reasonBreakdown;
  }

  /** The bot share is a percentage, and the bot and legitimate counts
      split the total. */
  lemma StatsBounds(s: Stats, log: seq<BotDetectionResult>)
    requires IsStatsOf(s, log)
    ensures 0.0 <= s.botPercentage <= 100.0
    ensures s.botAttempts + s.legitimateSubmissions == s.total
    ensures 0 <= s.botAttempts <= s.total
  {
    if s.total > 0 {
      ShareIsPercentage(s.botAttempts as real, s.total as real);
    }
  }

  lemma ShareIsPercentage(part: real, whole: real)
    requires 0.0 <= part <= whole && whole > 0.0
    ensures 0.0 <= part / whole * 100.0 <= 100.0
  {
    assert part / whole <= 1.0;
  }

  // ---------------------------------------------------------------------
  // CSV export
  // ---------------------------------------------------------------------

  const HeaderLine := "Timestamp,IsBot,Reason,Details"

  /** `.replace(/"/g, '""')`: every double quote is doubled. */
  function EscapeQuotes(d: string): (r: string)
    ensures |r| >= |d|
    ensures '\n' !in d ==> '\n' !in r
  {
    if d == [] then []
    else (if d[0] == '"' then "\"\"" else [d[0]]) + EscapeQuotes(d[1..])
  }

  /** A quoted CSV field: the escaped text between double quotes. */
  function Quote(d: string): string {
    "\"" + EscapeQuotes(d) + "\""
  }

  /** Reads the inside of a quoted field in the manner of section 2, rule 7
      of RFC 4180: a pair of double quotes stands for one, and a lone double
      quote cannot occur. */
  function UnescapeQuotes(t: string): Option<string> {
    if t == [] then Some([])
    else if t[0] != '"' then
      match UnescapeQuotes(t[1..])
      case Some(rest) => Some([t[0]] + rest)
      case None => None
    else if |t| >= 2 && t[1] == '"' then
      match UnescapeQuotes(t[2..])
      case Some(rest) => Some("\"" + rest)
      case None => None
    else None
  }

  /** Reads a quoted field: surrounding quotes, escaped inside. */
  function Unquote(f: string): Option<string> {
    if |f| >= 2 && f[0] == '"' && f[|f| - 1] == '"' then UnescapeQuotes(f[1..|f| - 1]) else None
  }

  lemma {:induction false} UnescapeEscape(d: string)
    ensures UnescapeQuotes(EscapeQuotes(d)) == Some(d)
  {
    if d != [] {
      UnescapeEscape(d[1..]);
      var t := EscapeQuotes(d);
      if d[0] == '"' {
        assert t[2..] == EscapeQuotes(d[1..]);
      } else {
        assert t[1..] == EscapeQuotes(d[1..]);
      }
      assert [d[0]] + d[1..] == d;
    }
  }

  /** The Details column gives back the details exactly. */
  lemma UnquoteQuote(d: string)
    ensures Unquote(Quote(d)) == Some(d)
  {
    var f := Quote(d);
    assert f[1..|f| - 1] == EscapeQuotes(d);
    UnescapeEscape(d);
  }

  /** One CSV row: ISO timestamp, TRUE/FALSE, the reason or `N/A`, and the
      quoted details. `iso` stands for `new Date(t).toISOString()`. */
  function CsvRow(e: BotDetectionResult, iso: int -> string): string {
    iso(e.timestamp) + "," + (if e.isBot then "TRUE" else "FALSE") + "," +
    (if e.reason.Some? then ReasonName(e.reason.value) else "N/A") + "," + Quote(e.details)
  }

  function CsvRows(log: seq<BotDetectionResult>, iso: int -> string): (rows: seq<string>)
    ensures |rows| == |log|
    ensures forall i :: 0 <= i < |log| ==> rows[i] == CsvRow(log[i], iso)
  {
    seq(|log|, i requires 0 <= i < |log| => CsvRow(log[i], iso))
  }

  /** `exportBotDetectionLogs`: the header line, a line feed, and the rows
      joined by line feeds. */
  function ExportCsv(log: seq<BotDetectionResult>, iso: int -> string): string {
    HeaderLine + "\n" + Join(CsvRows(log, iso), '\n')
  }

  /** No line feed in the timestamps and details (neither `toISOString` nor
      `JSON.stringify` writes a raw one). */
  predicate SingleLine(log: seq<BotDetectionResult>, iso: int -> string) {
    forall i :: 0 <= i < |log| ==> '\n' !in iso(log[i].timestamp) && '\n' !in log[i].details
  }

  lemma ReasonNameSingleLine(r: Reason)
    ensures '\n' !in ReasonName(r)
  {
  }

  lemma CsvRowSingleLine(e: BotDetectionResult, iso: int -> string)
    requires '\n' !in iso(e.timestamp) && '\n' !in e.details
    ensures '\n' !in CsvRow(e, iso)
  {
    if e.reason.Some? {
      ReasonNameSingleLine(e.reason.value);
    }
  }

  /** The export is the header followed by exactly one line per entry, in
      log order; an empty log exports the header and an empty line. */
  lemma ExportLines(log: seq<BotDetectionResult>, iso: int -> string)
    requires SingleLine(log, iso)
    ensures |log| > 0 ==> Split(ExportCsv(log, iso), '\n') == [HeaderLine] + CsvRows(log, iso)
    ensures |log| == 0 ==> Split(ExportCsv(log, iso), '\n') == [HeaderLine, ""]
  {
    var rows := CsvRows(log, iso);
    forall i | 0 <= i < |rows| ensures '\n' !in rows[i] {
      CsvRowSingleLine(log[i], iso);
    }
    assert '\n' !in HeaderLine;
    SplitAtFirst(HeaderLine, Join(rows, '\n'), '\n');
    if |log| > 0 {
      SplitJoin(rows, '\n');
    } else {
      assert Join(rows, '\n') == "";
    }
  }

  // ---------------------------------------------------------------------
  // The module-level log
  // ---------------------------------------------------------------------

  /** The logger's module state: `config` is what `getBotDetectionConfig`
      returns on every call (fixed when the module is loaded) and `entries`
      is the array `botDetectionLog`. */
  class Logger {
    const config: Config
    var entries: seq<BotDetectionResult>

    ghost predicate Valid()
      reads this
    {
      |entries| <= MaxLogSize
    }

    /** The process starts with an empty log and the configuration built
        from the environment it was loaded with. */
    constructor (env: Env)
      ensures Valid()
      ensures config == DefaultConfig(env) && entries == []
    {
      config := DefaultConfig(env);
      entries := [];
    }

    /** `logBotDetection`: when logging is on, appends a bot result with the
        reason, the details, the current time and the hashed address. */
    method LogBotDetection(reason: Reason, details: Details, email: Option<string>, now: int)
      requires Valid()
      modifies this
      ensures Valid()
      ensures !config.logging.enabled ==> entries == old(entries)
      ensures config.logging.enabled ==>
                entries == Pushed(old(entries),
                                  BotDetectionResult(true, Some(reason), details, now, StoredEmail(email)))
    {
      if !config.logging.enabled {
        return;
      }
      var stored: Option<string> := None;
      if email.Some? && email.value != "" {
        var hashed := HashEmail(email.value);
        stored := Some(hashed);
      }
      var result := BotDetectionResult(true, Some(reason), details, now, stored);
      entries := entries + [result];
      if |entries| > MaxLogSize {
        entries := entries[1..];
      }
    }

    /** `logLegitimateSubmission`: when logging is on, appends a non-bot
        result with no reason and no address. */
    method LogLegitimateSubmission(details: Details, now: int)
      requires Valid()
      modifies this
      ensures Valid()
      ensures !config.logging.enabled ==> entries == old(entries)
      ensures config.logging.enabled ==>
                entries == Pushed(old(entries), BotDetectionResult(false, None, details, now, None))
    {
      if !config.logging.enabled {
        return;
      }
      var result := BotDetectionResult(false, None, details, now, None);
      entries := entries + [result];
      if |entries| > MaxLogSize {
        entries := entries[1..];
      }
    }

    /** `getBotDetectionStats`: totals, the bot share, the per-reason
        breakdown and the last 50 entries; it changes nothing. */
    method GetStats() returns (s: Stats)
      ensures IsStatsOf(s, entries)
    {
      var total := |entries|;
      var botAttempts := CountBots(entries);
      var percentage := if total > 0 then (botAttempts as real) / (total as real) * 100.0 else 0.0;
      var breakdown: map<Reason, nat> := map[];
      for i := 0 to |entries|
        invariant IsBreakdownOf(breakdown, entries[..i])
      {
        assert entries[..i + 1] == entries[..i] + [entries[i]];
        BreakdownStep(breakdown, entries[..i], entries[i]);
        var log := entries[i];
        if log.isBot && log.reason.Some? {
          var r := log.reason.value;
          breakdown := breakdown[r := (if r in breakdown then breakdown[r] else 0) + 1];
        }
      }
      assert entries[..|entries|] == entries;
      var recent := LastN(entries, RecentCount);
      s := Stats(total, botAttempts, total - botAttempts, percentage, breakdown, recent);
    }

    /** `clearBotDetectionLogs`: empties the log. */
    method Clear()
      modifies this
      ensures Valid() && entries == []
    {
      entries := [];
    }
  }
}
