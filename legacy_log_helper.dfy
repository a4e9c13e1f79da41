// The in-memory part of log_helper.py, the older log helper: five noise patterns, no
// whole-entry exclusion and no anonymization, one row per event.
module LegacyLogHelper {
  import opened Text
  import opened ErrorTally
  import opened LogCleaning
  import opened LogPaging

  /** `noise_patterns` of the older `clean_log_message` */
  const LegacyNoise: seq<string> := ["java.base", "org.springframework", "org.apache", "jakarta.servlet", "jdk.internal"]

  lemma LegacyNoiseWithoutSpace()
    ensures forall n :: 0 <= n < |LegacyNoise| ==> NoSpaceIn(LegacyNoise[n])
  {
  }

  /** The row of one event: its converted timestamp and its cleaned message, possibly empty. */
  function LegacyEventRow(e: Event, iso: int -> string): LogRow
  {
    LogRow(iso(e.timestamp), CleanText(e.message, LegacyNoise))
  }

  /** `process_log_events` of log_helper.py: exactly one row per event, in order, nothing filtered. */
  method LegacyProcessLogEvents(events: seq<Event>, iso: int -> string) returns (rows: seq<LogRow>)
    ensures |rows| == |events|
    ensures forall k :: 0 <= k < |events| ==> rows[k] == LegacyEventRow(events[k], iso)
  {
    rows := [];
    for i := 0 to |events|
      invariant |rows| == i
      invariant forall k :: 0 <= k < i ==> rows[k] == LegacyEventRow(events[k], iso)
    {
      var message := CleanLogMessage(events[i].message, LegacyNoise);
      rows := rows + [LogRow(iso(events[i].timestamp), message)];
    }
  }

  /** The conversion the older collection loop applies to each page. */
  function LegacyProcessor(iso: int -> string): seq<Event> -> seq<LogRow>
  {
    events => seq(|events|, k requires 0 <= k < |events| => LegacyEventRow(events[k], iso))
  }

  /**
   * A message of the older helper is cleaned the same way, and with the same guarantees,
   * as by the newer one: its lines are non-empty, single-spaced and free of the five
   * noise patterns, and cleaning it again changes nothing.
   */
  lemma LegacyEventRowClean(e: Event, iso: int -> string)
    ensures var m := LegacyEventRow(e, iso).message;
            && (IsBlank(e.message) ==> m == "")
            && CleanText(m, LegacyNoise) == m
            && forall j :: 0 <= j < |CleanLines(SplitOn(e.message, '\n'), LegacyNoise)| ==>
                 CleanLine(CleanLines(SplitOn(e.message, '\n'), LegacyNoise)[j], LegacyNoise)
  {
    LegacyNoiseWithoutSpace();
    CleanTextIdempotent(e.message, LegacyNoise);
    CleanLinesAreClean(SplitOn(e.message, '\n'), LegacyNoise);
  }

  /** `collect_error_logs` of log_helper.py with its default limits 10000 and 100 as parameters. */
  method LegacyCollectErrorLogs(fetch: Fetcher, logGroup: string, maxEntries: int, maxIterations: int,
                                iso: int -> string, now: string) returns (rows: seq<LogRow>)
    ensures rows == Collected(FetchAll(fetch, LegacyProcessor(iso), maxEntries, maxIterations), logGroup, now)
  {
    rows := CollectPages(fetch, LegacyProcessor(iso), maxEntries, maxIterations, logGroup, now);
  }

}
