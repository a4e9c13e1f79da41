// The in-memory part of src/prod_monitoring/log_helper.py: which log entries are
// dropped whole, how each remaining one is cleaned and anonymized into a row, and
// `collect_error_logs` with its configured defaults.
module LogHelper {
  import opened Wrappers
  import opened Text
  import opened Anonymizer
  import opened ErrorTally
  import opened LogCleaning
  import opened LogPaging

  /** `exclude_patterns` of `should_exclude_log` */
  const ExcludePatterns: seq<string> := ["NotificationDispatcherImpl"]

  /** `noise_patterns` of `clean_log_message` */
  const Noise: seq<string> := ["shared.restclient", "platform.shared", "platform.boot", "java.base",
                               "org.springframework", "org.apache", "jakarta.servlet", "jdk.internal", "fasterxml.jackson"]

  /** MAX_LOG_ITERATIONS */
  const MaxLogIterations: int := 100

  /** `should_exclude_log`: blank entries and entries holding an exclude pattern are dropped whole. */
  function ShouldExcludeLog(message: string): (r: bool)
    ensures r <==> IsBlank(message) || Contains(message, "NotificationDispatcherImpl")
  {
    var hit := exists n :: 0 <= n < |ExcludePatterns| && Contains(message, ExcludePatterns[n]);
    assert hit <==> Contains(message, ExcludePatterns[0]);
    IsBlank(message) || hit
  }

  /** No noise pattern of this file holds whitespace. */
  lemma NoiseWithoutSpace()
    ensures forall n :: 0 <= n < |Noise| ==> NoSpaceIn(Noise[n])
  {
    PlatformNoSpace();
    LibraryNoSpace();
    JdkNoSpace();
  }

  // The patterns in threes: checked together, the characters of all nine
  // literals make one large proof.
  lemma PlatformNoSpace()
    ensures NoSpaceIn("shared.restclient") && NoSpaceIn("platform.shared") && NoSpaceIn("platform.boot")
  {
  }

  lemma LibraryNoSpace()
    ensures NoSpaceIn("java.base") && NoSpaceIn("org.springframework") && NoSpaceIn("org.apache")
  {
  }

  lemma JdkNoSpace()
    ensures NoSpaceIn("jakarta.servlet") && NoSpaceIn("jdk.internal") && NoSpaceIn("fasterxml.jackson")
  {
  }

  /** The row an event gives, if any; `iso` stands for the epoch-milliseconds-to-ISO conversion. */
  function EventRow(e: Event, iso: int -> string): Option<LogRow>
  {
    if ShouldExcludeLog(e.message) then None
    else
      var cleaned := CleanText(e.message, Noise);
      if cleaned == "" then None else Some(LogRow(iso(e.timestamp), AnonymizeLogMessage(cleaned)))
  }

  /** `log_rows` after the loop of `process_log_events` over the events. */
  function ProcessedRows(events: seq<Event>, iso: int -> string): seq<LogRow>
    decreases |events|
  {
    if |events| == 0 then []
    else
      var last := EventRow(events[|events| - 1], iso);
      ProcessedRows(events[..|events| - 1], iso) + (if last.Some? then [last.value] else [])
  }

  /** `process_log_events` */
  method ProcessLogEvents(events: seq<Event>, iso: int -> string) returns (rows: seq<LogRow>)
    ensures rows == ProcessedRows(events, iso)
  {
    rows := [];
    for i := 0 to |events|
      invariant rows == ProcessedRows(events[..i], iso)
    {
      assert events[..i + 1][..i] == events[..i];
      var event := events[i];
      if ShouldExcludeLog(event.message) {
        continue;
      }
      var cleanedMessage := CleanLogMessage(event.message, Noise);
      if cleanedMessage != "" {
        cleanedMessage := AnonymizeLogMessage(cleanedMessage);
        rows := rows + [LogRow(iso(event.timestamp), cleanedMessage)];
      }
    }
    assert events[..|events|] == events;
  }

  /** Rows come out in the order of their events: processing distributes over concatenation. */
  lemma {:induction false} ProcessedRowsAppend(a: seq<Event>, b: seq<Event>, iso: int -> string)
    ensures ProcessedRows(a + b, iso) == ProcessedRows(a, iso) + ProcessedRows(b, iso)
    decreases |b|
  {
    if |b| == 0 {
      assert a + b == a;
    } else {
      var init := b[..|b| - 1];
      assert (a + b)[..|a + b| - 1] == a + init;
      assert (a + b)[|a + b| - 1] == b[|b| - 1];
      ProcessedRowsAppend(a, init, iso);
    }
  }

  /**
   * One event gives no row exactly when it is excluded or cleans to nothing, and otherwise
   * the one row holding the anonymized cleaned text, which is never blank before anonymizing.
   */
  lemma SingleEventRow(e: Event, iso: int -> string)
    ensures var cleaned := CleanText(e.message, Noise);
            && (ProcessedRows([e], iso) == [] <==> ShouldExcludeLog(e.message) || cleaned == "")
            && (ProcessedRows([e], iso) != [] ==>
                  && !Contains(e.message, "NotificationDispatcherImpl")
                  && ProcessedRows([e], iso) == [LogRow(iso(e.timestamp), AnonymizeLogMessage(cleaned))]
                  && !IsBlank(cleaned))
  {
    assert [e][..0] == [];
    var cleaned := CleanText(e.message, Noise);
    if cleaned != "" && !IsBlank(e.message) {
      NoiseWithoutSpace();
      var ls := CleanLines(SplitOn(e.message, '\n'), Noise);
      CleanLinesAreClean(SplitOn(e.message, '\n'), Noise);
      assert ls != [];
      assert CleanLine(ls[0], Noise);
      assert cleaned[0] == ls[0][0] by {
        if |ls| > 1 {
          assert cleaned == ls[0] + "\n" + Join("\n", ls[1..]);
        }
      }
      assert !IsSpace(cleaned[0]);
    }
  }

  /** The per-page conversion the collection loop applies. */
  function Processor(iso: int -> string): seq<Event> -> seq<LogRow>
  {
    events => ProcessedRows(events, iso)
  }

  /**
   * `collect_error_logs`: the rows it saves (their count is its return value). Missing
   * limits take the configured MAX_LOG_ENTRIES, `configuredMaxEntries`, and MAX_LOG_ITERATIONS.
   */
  method CollectErrorLogs(fetch: Fetcher, logGroup: string, maxEntries: Option<int>, maxIterations: Option<int>,
                          configuredMaxEntries: int, iso: int -> string, now: string) returns (rows: seq<LogRow>)
    ensures var entries := if maxEntries.Some? then maxEntries.value else configuredMaxEntries;
            var iterations := if maxIterations.Some? then maxIterations.value else MaxLogIterations;
            rows == Collected(FetchAll(fetch, Processor(iso), entries, iterations), logGroup, now)
  {
    var entries := if maxEntries.None? then configuredMaxEntries else maxEntries.value;
    var iterations := if maxIterations.None? then MaxLogIterations else maxIterations.value;
    rows := CollectPages(fetch, Processor(iso), entries, iterations, logGroup, now);
  }

}
