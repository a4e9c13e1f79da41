// The pagination loop of `collect_error_logs` (src/prod_monitoring/log_helper.py and
// log_helper.py, the same loop in both): one initial fetch, then further fetches while
// a next token is present, fewer than max_entries rows were collected and fewer than
// max_iterations fetches were made. An exception from a fetch ends the collection
// with one synthetic error row after the rows collected so far.
//
// CloudWatch Logs is a parameter: `fetch(n, token)` is the response to the n-th call
// (counting from 0), made with the given pagination token, or the text of the
// exception it raised. The conversion of each event into rows is a parameter too,
// since the two files differ there.
module LogPaging {
  import opened Wrappers
  import opened ErrorTally

  /** A CloudWatch log event: epoch milliseconds and the message text. */
  datatype Event = Event(timestamp: int, message: string)

  /** `response['events']` and `response.get('nextToken')`. */
  datatype Page = Page(events: seq<Event>, nextToken: Option<string>)

  type Fetcher = (nat, Option<string>) -> Result<Page, string>

  /** `while next_token`: a token counts only when present and non-empty. */
  predicate Truthy(token: Option<string>) { token.Some? && token.value != "" }

  /** Where the loop stops: the rows from the pages, the calls made, the last token and the exception, if any. */
  datatype Fetched = Fetched(rows: seq<LogRow>, fetches: nat, lastToken: Option<string>, error: Option<string>)

  /** The loop from a state with `count` successful fetches behind it. */
  function Continue(fetch: Fetcher, process: seq<Event> -> seq<LogRow>, maxEntries: int, maxIterations: int,
                    rows: seq<LogRow>, token: Option<string>, count: nat): Fetched
    decreases if count < maxIterations then maxIterations - count else 0
  {
    if Truthy(token) && |rows| < maxEntries && count < maxIterations then
      match fetch(count, token)
      case Failure(e) => Fetched(rows, count + 1, token, Some(e))
      case Success(p) => Continue(fetch, process, maxEntries, maxIterations, rows + process(p.events), p.nextToken, count + 1)
    else Fetched(rows, count, token, None)
  }

  /** The initial request, which carries no token, followed by the loop. */
  function FetchAll(fetch: Fetcher, process: seq<Event> -> seq<LogRow>, maxEntries: int, maxIterations: int): Fetched
  {
    match fetch(0, None)
    case Failure(e) => Fetched([], 1, None, Some(e))
    case Success(p) => Continue(fetch, process, maxEntries, maxIterations, process(p.events), p.nextToken, 1)
  }

  /** The row appended by the exception handler; `now` stands for `datetime.now().isoformat()`. */
  function ErrorRow(logGroup: string, error: string, now: string): LogRow
  {
    LogRow(now, "Log fetch error from " + logGroup + ": " + error)
  }

  /** The rows `collect_error_logs` hands to `save_error_logs`. */
  function Collected(f: Fetched, logGroup: string, now: string): seq<LogRow>
  {
    f.rows + (if f.error.Some? then [ErrorRow(logGroup, f.error.value, now)] else [])
  }

  /** The try block and its exception handler. */
  method CollectPages(fetch: Fetcher, process: seq<Event> -> seq<LogRow>, maxEntries: int, maxIterations: int,
                      logGroup: string, now: string) returns (rows: seq<LogRow>)
    ensures rows == Collected(FetchAll(fetch, process, maxEntries, maxIterations), logGroup, now)
  {
    var response := fetch(0, None);
    if response.Failure? {
      return [ErrorRow(logGroup, response.error, now)];
    }
    rows := process(response.value.events);
    var nextToken := response.value.nextToken;
    var iterationCount: nat := 1;
    while Truthy(nextToken) && |rows| < maxEntries && iterationCount < maxIterations
      invariant Continue(fetch, process, maxEntries, maxIterations, rows, nextToken, iterationCount)
                == FetchAll(fetch, process, maxEntries, maxIterations)
      decreases maxIterations - iterationCount
    {
      response := fetch(iterationCount, nextToken);
      if response.Failure? {
        return rows + [ErrorRow(logGroup, response.error, now)];
      }
      rows := rows + process(response.value.events);
      nextToken := response.value.nextToken;
      iterationCount := iterationCount + 1;
    }
  }

  function Max(a: int, b: int): int { if a < b then b else a }

  lemma {:induction false} ContinueBounds(fetch: Fetcher, process: seq<Event> -> seq<LogRow>, maxEntries: int, maxIterations: int,
                                          rows: seq<LogRow>, token: Option<string>, count: nat)
    ensures var f := Continue(fetch, process, maxEntries, maxIterations, rows, token, count);
            && count <= f.fetches <= Max(count, maxIterations)
            && rows <= f.rows
            && (f.error.None? ==> !Truthy(f.lastToken) || |f.rows| >= maxEntries || f.fetches >= maxIterations)
    decreases if count < maxIterations then maxIterations - count else 0
  {
    if Truthy(token) && |rows| < maxEntries && count < maxIterations {
      match fetch(count, token)
      case Failure(e) =>
      case Success(p) =>
        ContinueBounds(fetch, process, maxEntries, maxIterations, rows + process(p.events), p.nextToken, count + 1);
    }
  }

  /**
   * At least one and at most max(1, max_iterations) fetches are made; without an
   * exception the loop stops only for a missing token, enough rows or the iteration cap.
   */
  lemma FetchAllBounds(fetch: Fetcher, process: seq<Event> -> seq<LogRow>, maxEntries: int, maxIterations: int)
    ensures var f := FetchAll(fetch, process, maxEntries, maxIterations);
            && 1 <= f.fetches <= Max(1, maxIterations)
            && (f.error.None? ==> !Truthy(f.lastToken) || |f.rows| >= maxEntries || f.fetches >= maxIterations)
  {
    match fetch(0, None)
    case Failure(e) =>
    case Success(p) =>
      ContinueBounds(fetch, process, maxEntries, maxIterations, process(p.events), p.nextToken, 1);
  }

  /**
   * The rows of the first page are kept whatever happens later, and an exception adds
   * exactly one row, the error row, after the rows collected so far.
   */
  lemma CollectedShape(fetch: Fetcher, process: seq<Event> -> seq<LogRow>, maxEntries: int, maxIterations: int,
                       logGroup: string, now: string)
    ensures var f := FetchAll(fetch, process, maxEntries, maxIterations);
            var rows := Collected(f, logGroup, now);
            && (fetch(0, None).Success? ==> process(fetch(0, None).value.events) <= rows)
            && (f.error.Some? ==> |rows| == |f.rows| + 1 && rows[|f.rows|] == ErrorRow(logGroup, f.error.value, now))
            && (f.error.None? ==> rows == f.rows)
  {
    match fetch(0, None)
    case Failure(e) =>
    case Success(p) =>
      ContinueBounds(fetch, process, maxEntries, maxIterations, process(p.events), p.nextToken, 1);
  }

}
