/**
 * `GET` and `DELETE /api/v1/bot-detection/stats`: the admin view of the
 * bot-detection log. Both compare the `x-admin-token` header with the
 * `ADMIN_API_TOKEN` variable; GET lets everyone through when no token is
 * configured, DELETE lets nobody through.
 */
module StatsRoute {

  import opened Wrappers
  import opened Js
  import opened BotDetectionConfig
  import opened BotDetectionLogger

  /** GET refuses only when a non-empty token is configured and the header
      differs from it (`expectedToken && authToken !== expectedToken`). */
  predicate GetAuthorized(header: Option<string>, expected: Option<string>) {
    !(expected.Some? && expected.value != "" && header != expected)
  }

  /** DELETE refuses when no token is configured, or it is empty, or the
      header differs from it (`!expectedToken || authToken !== expectedToken`). */
  predicate DeleteAuthorized(header: Option<string>, expected: Option<string>) {
    !(expected.None? || expected.value == "" || header != expected)
  }

  /** A response of the route. `CsvFile` is the `text/csv` attachment,
      `StatsJson` the JSON body with `stats`, `timestamp` and, when asked
      for, `config`. */
  datatype StatsResponse =
    | Unauthorized
    | CsvFile(csv: string, fileName: string)
    | StatsJson(stats: Stats, timestamp: string, config: Option<Config>)
    | Cleared

  function Status(r: StatsResponse): nat {
    if r.Unauthorized? then 401 else 200
  }

  /** `searchParams.get(name) === value`. */
  predicate QueryIs(query: map<string, string>, name: string, value: string) {
    name in query && query[name] == value
  }

  /** The attachment name: `bot-detection-logs-` and the time in
      milliseconds, with the `.csv` extension. */
  function CsvFileName(now: int): string {
    "bot-detection-logs-" + ToRadixString(now, 10) + ".csv"
  }

  /** `GET`. It reads the log but changes nothing; `now` is `Date.now()`
      and `iso` is `toISOString`. */
  method Get(logger: Logger, header: Option<string>, expected: Option<string>,
             query: map<string, string>, now: int, iso: int -> string)
    returns (r: StatsResponse)
    requires logger.Valid()
    ensures !GetAuthorized(header, expected) <==> r.Unauthorized?
    ensures GetAuthorized(header, expected) && QueryIs(query, "export", "csv") ==>
              r == CsvFile(ExportCsv(logger.entries, iso), CsvFileName(now))
    ensures GetAuthorized(header, expected) && !QueryIs(query, "export", "csv") ==>
              && r.StatsJson?
              && IsStatsOf(r.stats, logger.entries)
              && r.timestamp == iso(now)
              && (r.config.Some? <==> QueryIs(query, "config", "true"))
              && (r.config.Some? ==> r.config.value == logger.config)
  {
    if !GetAuthorized(header, expected) {
      return Unauthorized;
    }
    if QueryIs(query, "export", "csv") {
      return CsvFile(ExportCsv(logger.entries, iso), CsvFileName(now));
    }
    var stats := logger.GetStats();
    var config := if QueryIs(query, "config", "true") then Some(logger.config) else None;
    r := StatsJson(stats, iso(now), config);
  }

  /** `DELETE`: an authorized request empties the log; any other leaves it
      as it was. */
  method Delete(logger: Logger, header: Option<string>, expected: Option<string>)
    returns (r: StatsResponse)
    requires logger.Valid()
    modifies logger
    ensures logger.Valid()
    ensures DeleteAuthorized(header, expected) ==> r == Cleared && logger.entries == []
    ensures !DeleteAuthorized(header, expected) ==>
              r == Unauthorized && logger.entries == old(logger.entries)
  {
    if !DeleteAuthorized(header, expected) {
      return Unauthorized;
    }
    logger.Clear();
    r := Cleared;
  }

  /** GET fails open: with no token configured, or an empty one, any
      request is let through, one without the header included. */
  lemma GetFailsOpen(header: Option<string>, expected: Option<string>)
    ensures (expected.None? || expected == Some("")) ==> GetAuthorized(header, expected)
    ensures expected.Some? && expected.value != "" ==>
              (GetAuthorized(header, expected) <==> header == expected)
  {
  }

  /** DELETE fails closed: with no token configured, or an empty one,
      every request is refused; otherwise exactly the matching header
      passes. */
  lemma DeleteFailsClosed(header: Option<string>, expected: Option<string>)
    ensures (expected.None? || expected == Some("")) ==> !DeleteAuthorized(header, expected)
    ensures expected.Some? && expected.value != "" ==>
              (DeleteAuthorized(header, expected) <==> header == expected)
  {
  }

  /** Whoever may clear the log may also read it, and the two gates agree
      as soon as a non-empty token is configured. */
  lemma DeleteGateStricter(header: Option<string>, expected: Option<string>)
    ensures DeleteAuthorized(header, expected) ==> GetAuthorized(header, expected)
    ensures GetAuthorized(header, expected) && !DeleteAuthorized(header, expected) <==>
              expected.None? || expected == Some("")
  {
  }

  /** The status is 401 exactly for a refused request, 200 otherwise. */
  lemma StatusOfResponses(r: StatsResponse)
    ensures Status(r) == 401 <==> r == Unauthorized
    ensures Status(r) == 200 <==> !r.Unauthorized?
  {
  }
}
