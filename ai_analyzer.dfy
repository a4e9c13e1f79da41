// The in-memory part of src/prod_monitoring/ai_analyzer.py: how a Lambda response
// is turned into an answer (`_parse_lambda_response`), the anonymized error summary
// sent to the model (`_prepare_error_summary`) and the status chosen by
// `analyze_error_patterns`. `json.loads` and Python's str() of decoded values are
// parameters; the HTTP call is a parameter that yields the answer text or the
// message of the exception it raised.
module AiAnalyzer {
  import opened Wrappers
  import opened Text
  import opened Numbers
  import opened PyDict
  import opened Anonymizer
  import opened Seqs

  /** A decoded JSON value; an object keeps its keys in document order. */
  datatype Json =
    | JNull
    | JBool(b: bool)
    | JInt(i: int)
    | JReal(r: real)
    | JStr(s: string)
    | JArr(items: seq<Json>)
    | JObj(fields: Dict<string, Json>)

  /** The exceptions `_parse_lambda_response` lets out. */
  datatype Raised =
    | ValueError(message: string)
    /** `in` on a number, a boolean or None, or indexing a list or string by a key. */
    | TypeError
    /** A dictionary method called on a list or a string. */
    | AttributeError

  /** Python's `json.loads`: None where it raises JSONDecodeError. */
  type JsonLoads = string -> Option<Json>

  /** Python's str() of a decoded value that is not a string. */
  type JsonStr = Json -> string

  /** f"{v}" and str(v): a string is itself, anything else as Python prints it. */
  function PyStr(v: Json, str: JsonStr): string
  {
    if v.JStr? then v.s else str(v)
  }

  /** Python truthiness of a decoded value. */
  predicate Truthy(v: Json)
  {
    match v
    case JNull => false
    case JBool(b) => b
    case JInt(i) => i != 0
    case JReal(r) => r != 0.0
    case JStr(s) => s != ""
    case JArr(items) => items != []
    case JObj(fields) => fields != []
  }

  /** `key in v` */
  function KeyIn(key: string, v: Json): (r: Result<bool, Raised>)
    ensures r.Failure? <==> !(v.JObj? || v.JArr? || v.JStr?)
  {
    match v
    case JObj(fields) => Success(Lookup(fields, key).Some?)
    case JArr(items) => Success(JStr(key) in items)
    case JStr(s) => Success(Contains(s, key))
    case _ => Failure(TypeError)
  }

  /** `d.get(key, default)` */
  function Get(d: Dict<string, Json>, key: string, default: Json): Json
  {
    match Lookup(d, key)
    case Some(v) => v
    case None => default
  }

  const ProcessingError: string := "Error processing your request"
  const SourcesHeader: string := "\n\n**Sources:**\n"

  // ---------------------------------------------------------------------
  // _parse_lambda_response

  /** The branch for text that is not JSON. */
  function NonJson(text: string): Result<string, Raised>
  {
    if text != "" && |Strip(text)| > 0 then
      if Strip(text) == ProcessingError then Failure(ValueError("Lambda returned error: " + ProcessingError))
      else Success(text)
    else Failure(ValueError("Empty or invalid response from Lambda: " + text))
  }

  /** The keys of an object, as `list(response_data.keys())` would list them. */
  function Keys(d: Dict<string, Json>): (r: seq<Json>)
    ensures |r| == |d|
    ensures forall k :: 0 <= k < |r| ==> r[k] == JStr(d[k].0)
  {
    if d == [] then [] else [JStr(d[0].0)] + Keys(d[1..])
  }

  /**
   * A source that `valid_sources` keeps: truthy and none of the generic messages (for a
   * value that is not a string, `in` on the list of messages is false).
   */
  predicate KeptSource(v: Json)
  {
    Truthy(v) && v != JStr("No sources found") && v != JStr("Error occurred") && v != JStr("")
  }

  /** `[s for s in sources if s and s not in [...]]` */
  function ValidSources(sources: seq<Json>): seq<Json>
  {
    if sources == [] then []
    else (if KeptSource(sources[0]) then [sources[0]] else []) + ValidSources(sources[1..])
  }

  /**
   * The answer of a successful response and the sources to append, or what the branches
   * of `_parse_lambda_response` raise: the runtime-error format, a missing answer and the processing error. The
   * missing-answer branch is the program's (MissingAnswerAsWritten), or with `corrected`
   * the one its comment describes (MissingAnswer).
   */
  function Interpret(data: Json, str: JsonStr, corrected: bool): Result<(string, seq<Json>), Raised>
  {
    var hasMessage := KeyIn("errorMessage", data);
    if hasMessage.Failure? then Failure(hasMessage.error)
    else if hasMessage.value && KeyIn("errorType", data).value then
      if data.JObj? then
        var errorType := Get(data.fields, "errorType", JStr("Error"));
        var errorMessage := Get(data.fields, "errorMessage", JStr("Unknown error"));
        Failure(ValueError("Lambda " + PyStr(errorType, str) + ": " + PyStr(errorMessage, str)))
      else Failure(AttributeError)
    else if !KeyIn("answer", data).value then
      if corrected then MissingAnswer(data, str) else MissingAnswerAsWritten(data, str)
    else if !data.JObj? then Failure(TypeError)
    else
      var answer := PyStr(Get(data.fields, "answer", JNull), str);
      if answer == ProcessingError then Failure(ValueError("Lambda processing error: " + ProcessingError))
      else
        var sources := Get(data.fields, "sources", JNull);
        Success((answer, if sources.JArr? && sources.items != [] then ValidSources(sources.items) else []))
  }

  /**
   * No "answer": an object is reported with its keys, and a JSON string is the answer
   * itself, as the comment of this branch intends (see MissingAnswerAsWritten).
   */
  function MissingAnswer(data: Json, str: JsonStr): (r: Result<(string, seq<Json>), Raised>)
    requires data.JObj? || data.JArr? || data.JStr?
  {
    match data
    case JObj(fields) => Failure(ValueError("No 'answer' field in Lambda response. Got keys: " + str(JArr(Keys(fields)))))
    case JStr(s) => Success((s, []))
    case JArr(_) => Failure(AttributeError)
  }

  /**
   * The same branch as the program runs it: the warning logged first formats
   * `response_data.keys()`, which a string does not have, so the string return after
   * it is never reached.
   */
  function MissingAnswerAsWritten(data: Json, str: JsonStr): (r: Result<(string, seq<Json>), Raised>)
    requires data.JObj? || data.JArr? || data.JStr?
  {
    match data
    case JObj(fields) => Failure(ValueError("No 'answer' field in Lambda response. Got keys: " + str(JArr(Keys(fields)))))
    case _ => Failure(AttributeError)
  }

  /** The line `answer +=` adds for the source numbered idx. */
  function SourceLine(idx: nat, source: Json, str: JsonStr): string
  {
    IntToString(idx) + ". " + PyStr(source, str) + "\n"
  }

  /** SourceLine as a function of the number and the source alone. */
  function SourceLineOf(str: JsonStr): (nat, Json) -> string
  {
    (idx: nat, source: Json) => SourceLine(idx, source, str)
  }

  /** The lines of the sources loop, numbered from `first`. */
  function SourceLines(sources: seq<Json>, first: nat, str: JsonStr): string
  {
    Numbered(sources, first, SourceLineOf(str))
  }

  /** The answer with the valid sources appended under their header, if there are any. */
  function WithSources(answer: string, valid: seq<Json>, str: JsonStr): string
  {
    if valid == [] then answer else answer + SourcesHeader + SourceLines(valid, 1, str)
  }

  /** `_parse_lambda_response`, with the missing-answer branch chosen by `corrected`. */
  function ParsedResponseWith(text: string, loads: JsonLoads, str: JsonStr, corrected: bool): Result<string, Raised>
  {
    match loads(text)
    case None => NonJson(text)
    case Some(data) =>
      match Interpret(data, str, corrected)
      case Success((answer, valid)) => Success(WithSources(answer, valid, str))
      case Failure(e) => Failure(e)
  }

  /** `_parse_lambda_response` as the program runs it. */
  function ParsedResponse(text: string, loads: JsonLoads, str: JsonStr): Result<string, Raised>
  {
    ParsedResponseWith(text, loads, str, false)
  }

  /** `_parse_lambda_response` with the string branch its comment intends. */
  function CorrectedParsedResponse(text: string, loads: JsonLoads, str: JsonStr): Result<string, Raised>
  {
    ParsedResponseWith(text, loads, str, true)
  }

  /** The `if valid_sources:` block and its numbering loop. */
  method AppendSources(answer: string, valid: seq<Json>, str: JsonStr) returns (r: string)
    ensures r == WithSources(answer, valid, str)
  {
    r := answer;
    if valid != [] {
      r := r + SourcesHeader;
      for idx := 0 to |valid|
        invariant r == answer + SourcesHeader + SourceLines(valid[..idx], 1, str)
      {
        NumberedSnoc(valid, idx, 1, SourceLineOf(str));
        AppendAssoc(answer + SourcesHeader, SourceLines(valid[..idx], 1, str), SourceLine(idx + 1, valid[idx], str));
        r := r + SourceLine(idx + 1, valid[idx], str);
      }
      assert valid[..|valid|] == valid;
    }
  }

  /** `_parse_lambda_response`, its sources loop included. */
  method ParseLambdaResponse(text: string, loads: JsonLoads, str: JsonStr) returns (r: Result<string, Raised>)
    ensures r == ParsedResponse(text, loads, str)
  {
    match loads(text)
    case None =>
      r := NonJson(text);
    case Some(data) =>
      var i := Interpret(data, str, false);
      if i.Failure? {
        r := Failure(i.error);
      } else {
        var answer := AppendSources(i.value.0, i.value.1, str);
        r := Success(answer);
      }
  }

  // ---------------------------------------------------------------------
  // What the parser promises

  /** Text that is not JSON: blank raises, the bare processing error raises, anything else is the answer verbatim. */
  lemma NonJsonCases(text: string, loads: JsonLoads, str: JsonStr)
    requires loads(text).None?
    ensures IsBlank(text) ==> ParsedResponse(text, loads, str) == Failure(ValueError("Empty or invalid response from Lambda: " + text))
    ensures !IsBlank(text) && Strip(text) == ProcessingError
            ==> ParsedResponse(text, loads, str) == Failure(ValueError("Lambda returned error: " + ProcessingError))
    ensures !IsBlank(text) && Strip(text) != ProcessingError ==> ParsedResponse(text, loads, str) == Success(text)
  {
    StripEmptyIffBlank(text);
  }

  /** An object holding both errorMessage and errorType always raises, with both in the message. */
  lemma RuntimeErrorRaises(text: string, loads: JsonLoads, str: JsonStr, d: Dict<string, Json>)
    requires loads(text) == Some(JObj(d))
    requires Lookup(d, "errorMessage").Some? && Lookup(d, "errorType").Some?
    ensures ParsedResponse(text, loads, str)
            == Failure(ValueError("Lambda " + PyStr(Lookup(d, "errorType").value, str) + ": "
                                  + PyStr(Lookup(d, "errorMessage").value, str)))
  {
  }

  /** An object without an answer raises, unless it is in the runtime-error format. */
  lemma MissingAnswerRaises(text: string, loads: JsonLoads, str: JsonStr, d: Dict<string, Json>)
    requires loads(text) == Some(JObj(d)) && Lookup(d, "answer").None?
    ensures ParsedResponse(text, loads, str).Failure?
    ensures ParsedResponse(text, loads, str).error.ValueError?
  {
  }

  /** The answer "Error processing your request" raises. */
  lemma ProcessingAnswerRaises(text: string, loads: JsonLoads, str: JsonStr, d: Dict<string, Json>)
    requires loads(text) == Some(JObj(d)) && Lookup(d, "errorMessage").None?
    requires Lookup(d, "answer") == Some(JStr(ProcessingError))
    ensures ParsedResponse(text, loads, str) == Failure(ValueError("Lambda processing error: " + ProcessingError))
  {
  }

  /**
   * A regular answer: the answer as str() gives it, then the kept sources under their
   * header, or the answer alone when no source is kept.
   */
  lemma AnswerWithSources(text: string, loads: JsonLoads, str: JsonStr, d: Dict<string, Json>, sources: seq<Json>)
    requires loads(text) == Some(JObj(d)) && Lookup(d, "errorMessage").None? && Lookup(d, "answer").Some?
    requires PyStr(Lookup(d, "answer").value, str) != ProcessingError
    requires Lookup(d, "sources") == Some(JArr(sources))
    ensures var answer := PyStr(Lookup(d, "answer").value, str);
            ParsedResponse(text, loads, str) == Success(WithSources(answer, ValidSources(sources), str))
  {
  }

  /** Without a sources list the answer comes back as it is. */
  lemma AnswerWithoutSources(text: string, loads: JsonLoads, str: JsonStr, d: Dict<string, Json>)
    requires loads(text) == Some(JObj(d)) && Lookup(d, "errorMessage").None? && Lookup(d, "answer").Some?
    requires PyStr(Lookup(d, "answer").value, str) != ProcessingError
    requires Lookup(d, "sources").None?
    ensures ParsedResponse(text, loads, str) == Success(PyStr(Lookup(d, "answer").value, str))
  {
  }

  /** The kept sources are exactly the truthy, non-generic ones, in their order. */
  lemma {:induction false} ValidSourcesFilter(sources: seq<Json>)
    ensures forall k :: 0 <= k < |ValidSources(sources)| ==> KeptSource(ValidSources(sources)[k])
    ensures forall v :: v in ValidSources(sources) <==> v in sources && KeptSource(v)
    ensures |ValidSources(sources)| <= |sources|
    decreases |sources|
  {
    if sources != [] {
      ValidSourcesFilter(sources[1..]);
      assert sources == [sources[0]] + sources[1..];
    }
  }

  /** The k-th kept source is the line "k. source" after the sources of lower number. */
  lemma SourceLineAt(valid: seq<Json>, k: nat, str: JsonStr)
    requires k < |valid|
    ensures SourceLines(valid, 1, str)
            == SourceLines(valid[..k], 1, str) + SourceLine(k + 1, valid[k], str) + SourceLines(valid[k + 1..], k + 2, str)
  {
    NumberedAt(valid, k, 1, SourceLineOf(str));
  }

  /** Corrected: a JSON string response without an answer is returned as the answer. */
  lemma StringResponseAnswered(text: string, loads: JsonLoads, str: JsonStr, s: string)
    requires loads(text) == Some(JStr(s))
    requires !Contains(s, "errorMessage") && !Contains(s, "answer")
    ensures CorrectedParsedResponse(text, loads, str) == Success(s)
  {
  }

  /** As the program is written, the same response raises AttributeError instead. */
  lemma StringResponseRaisesAsWritten(text: string, loads: JsonLoads, str: JsonStr, s: string)
    requires loads(text) == Some(JStr(s))
    requires !Contains(s, "errorMessage") && !Contains(s, "answer")
    ensures ParsedResponse(text, loads, str) == Failure(AttributeError)
  {
  }

  /** The two parsers differ only on a JSON string without an answer; everywhere else they agree. */
  lemma CorrectedAgreesElsewhere(text: string, loads: JsonLoads, str: JsonStr)
    requires loads(text).Some? ==> !loads(text).value.JStr?
    ensures CorrectedParsedResponse(text, loads, str) == ParsedResponse(text, loads, str)
  {
  }

  // ---------------------------------------------------------------------
  // _prepare_error_summary

  /** The number of errors the summary lists. */
  const SummaryLimit: nat := 20

  /** The length a sample is cut to before it is anonymized. */
  const SampleLimit: nat := 300

  /** The five lines of error number idx. */
  function EntryLines(idx: nat, e: Dict<string, Json>, str: JsonStr): seq<string>
  {
    [ IntToString(idx) + ". Error: " + AnonymizeLogMessage(PyStr(Get(e, "signature", JStr("Unknown")), str)),
      "   Count: " + PyStr(Get(e, "count", JInt(0)), str) + " occurrences",
      "   Location: " + AnonymizeLogMessage(PyStr(Get(e, "location", JStr("Unknown")), str)),
      "   Sample: " + AnonymizeLogMessage(Take(PyStr(Get(e, "sample", JStr("")), str), SampleLimit)),
      "" ]
  }

  /** EntryLines as a function of the number and the entry alone. */
  function EntryLinesOf(str: JsonStr): (nat, Dict<string, Json>) -> seq<string>
  {
    (idx: nat, e: Dict<string, Json>) => EntryLines(idx, e, str)
  }

  /** The lines of the entry loop over `errors`, numbered from 1. */
  function EntriesLines(errors: seq<Dict<string, Json>>, str: JsonStr): (r: seq<string>)
    ensures |r| == 5 * |errors|
  {
    NumberedWidth(errors, 1, EntryLinesOf(str), 5);
    Numbered(errors, 1, EntryLinesOf(str))
  }

  /** The metrics block, written only for a non-empty metrics summary. */
  function MetricsLines(metrics: Option<Dict<string, Json>>, str: JsonStr): seq<string>
  {
    if metrics.Some? && metrics.value != [] then
      [ "\n## Related Metrics:",
        "Performance issues: " + PyStr(Get(metrics.value, "performance_issues", JInt(0)), str),
        "Resource alerts: " + PyStr(Get(metrics.value, "resource_alerts", JInt(0)), str) ]
    else []
  }

  /** `errors[:20]`: the patterns the summary lists. */
  function TopErrors(errors: seq<Dict<string, Json>>): seq<Dict<string, Json>>
  {
    if |errors| <= SummaryLimit then errors else errors[..SummaryLimit]
  }

  /** The two lines the summary opens with. */
  function SummaryHeader(errors: seq<Dict<string, Json>>): seq<string>
  {
    [ "Total unique error patterns: " + IntToString(|errors|),
      "Analyzing top " + IntToString(|TopErrors(errors)|) + " errors:\n" ]
  }

  /** `summary_lines` at the end of `_prepare_error_summary`. */
  function SummaryLines(errors: seq<Dict<string, Json>>, metrics: Option<Dict<string, Json>>, str: JsonStr): seq<string>
  {
    SummaryHeader(errors) + EntriesLines(TopErrors(errors), str) + MetricsLines(metrics, str)
  }

  /**
   * `_prepare_error_summary`. Each pass of the loop appends the five lines of one
   * entry; the metrics block is appended as one piece.
   */
  method PrepareErrorSummary(errors: seq<Dict<string, Json>>, metrics: Option<Dict<string, Json>>, str: JsonStr)
    returns (summary: string)
    ensures summary == Join("\n", SummaryLines(errors, metrics, str))
  {
    var top := if |errors| <= SummaryLimit then errors else errors[..SummaryLimit];
    var head := ["Total unique error patterns: " + IntToString(|errors|),
                 "Analyzing top " + IntToString(|top|) + " errors:\n"];
    var lines := head;
    for j := 0 to |top|
      invariant lines == head + EntriesLines(top[..j], str)
    {
      NumberedSnoc(top, j, 1, EntryLinesOf(str));
      AppendAssoc(head, EntriesLines(top[..j], str), EntryLines(j + 1, top[j], str));
      lines := lines + EntryLines(j + 1, top[j], str);
    }
    TakeAll(top);
    lines := lines + MetricsLines(metrics, str);
    summary := Join("\n", lines);
  }

  /** Line 5k + t of the entry lines is line t of entry k, numbered k + 1. */
  lemma EntriesLinesAt(errors: seq<Dict<string, Json>>, str: JsonStr, k: nat, t: nat)
    requires k < |errors| && t < 5
    ensures EntriesLines(errors, str)[5 * k + t] == EntryLines(k + 1, errors[k], str)[t]
  {
    var f := EntryLinesOf(str);
    var before := Numbered(errors[..k], 1, f);
    var item := f(1 + k, errors[k]);
    var after := Numbered(errors[k + 1..], 1 + k + 1, f);
    NumberedAt(errors, k, 1, f);
    NumberedWidth(errors[..k], 1, f, 5);
    IndexInMiddle(before, item, after, t);
    assert item == EntryLines(k + 1, errors[k], str);
  }

  /** Line t of entry k of the summary comes after the two header lines and the k entries before it. */
  lemma SummaryEntryLine(errors: seq<Dict<string, Json>>, metrics: Option<Dict<string, Json>>, str: JsonStr, k: nat, t: nat)
    requires k < |errors| && k < SummaryLimit && t < 5
    ensures 2 + 5 * k + t < |SummaryLines(errors, metrics, str)|
    ensures SummaryLines(errors, metrics, str)[2 + 5 * k + t] == EntryLines(k + 1, errors[k], str)[t]
  {
    var top := TopErrors(errors);
    var head := SummaryHeader(errors);
    var entries := EntriesLines(top, str);
    var met := MetricsLines(metrics, str);
    assert top[k] == errors[k];
    EntriesLinesAt(top, str, k, t);
    IndexInMiddle(head, entries, met, 5 * k + t);
  }

  /**
   * The header counts every pattern, at most 20 are listed, each under its number with
   * its sample cut to 300 characters before it is anonymized.
   */
  lemma SummaryShape(errors: seq<Dict<string, Json>>, metrics: Option<Dict<string, Json>>, str: JsonStr, k: nat)
    requires k < |errors| && k < SummaryLimit
    ensures var lines := SummaryLines(errors, metrics, str);
            var listed := if |errors| <= SummaryLimit then |errors| else SummaryLimit;
            && lines[0] == "Total unique error patterns: " + IntToString(|errors|)
            && |lines| == 2 + 5 * listed + (if metrics.Some? && metrics.value != [] then 3 else 0)
            && lines[2 + 5 * k] == IntToString(k + 1) + ". Error: " + AnonymizeLogMessage(PyStr(Get(errors[k], "signature", JStr("Unknown")), str))
            && lines[2 + 5 * k + 3] == "   Sample: " + AnonymizeLogMessage(Take(PyStr(Get(errors[k], "sample", JStr("")), str), SampleLimit))
  {
    SummaryFrame(errors, metrics, str);
    var signature, sample := 0, 3;
    SummaryEntryLine(errors, metrics, str, k, signature);
    SummaryEntryLine(errors, metrics, str, k, sample);
    EntryLineFields(k + 1, errors[k], str);
    assert 2 + 5 * k + signature == 2 + 5 * k;
  }

  lemma EntryLineFields(idx: nat, e: Dict<string, Json>, str: JsonStr)
    ensures EntryLines(idx, e, str)[0] == IntToString(idx) + ". Error: " + AnonymizeLogMessage(PyStr(Get(e, "signature", JStr("Unknown")), str))
    ensures EntryLines(idx, e, str)[3] == "   Sample: " + AnonymizeLogMessage(Take(PyStr(Get(e, "sample", JStr("")), str), SampleLimit))
  {
  }

  /** The first line and the length of the summary. */
  lemma SummaryFrame(errors: seq<Dict<string, Json>>, metrics: Option<Dict<string, Json>>, str: JsonStr)
    ensures var lines := SummaryLines(errors, metrics, str);
            var listed := if |errors| <= SummaryLimit then |errors| else SummaryLimit;
            && lines[0] == "Total unique error patterns: " + IntToString(|errors|)
            && |lines| == 2 + 5 * listed + (if metrics.Some? && metrics.value != [] then 3 else 0)
  {
    var head := SummaryHeader(errors);
    var entries := EntriesLines(TopErrors(errors), str);
    assert (head + entries + MetricsLines(metrics, str))[0] == head[0];
  }

  // ---------------------------------------------------------------------
  // analyze_error_patterns

  /** The result dictionary, by status; timestamps are left out. */
  datatype Analysis =
    | Unavailable
    /** The report `_generate_healthy_system_report` writes when there is nothing to analyse. */
    | Healthy(region: string, service: string)
    | Analyzed(region: string, service: string, analysis: string, errorCount: nat)
    | AnalysisError(message: string)

  /** A decoded value `x > 0` accepts: a number or a boolean. */
  predicate IsNumber(j: Json) { j.JInt? || j.JReal? || j.JBool? }

  /** `x == 0` on a decoded value. */
  predicate IsZero(j: Json) { j == JInt(0) || j == JReal(0.0) || j == JBool(false) }

  /** `type(x).__name__` */
  function TypeName(j: Json): string
  {
    match j
    case JNull => "NoneType"
    case JBool(_) => "bool"
    case JInt(_) => "int"
    case JReal(_) => "float"
    case JStr(_) => "str"
    case JArr(_) => "list"
    case JObj(_) => "dict"
  }

  /** The TypeError of `x > 0` when x is not a number. */
  function CompareError(j: Json): string
  {
    "'>' not supported between instances of '" + TypeName(j) + "' and 'int'"
  }

  /**
   * The exception `_generate_healthy_system_report` raises, if any: unless the three counts
   * it reads (0 when missing) are all zero, it compares high_cpu_count, high_memory_count
   * and performance_issues with 0 in that order, and the first that is not a number raises.
   */
  function HealthyReportError(metrics: Option<Dict<string, Json>>): (r: Option<string>)
    ensures r.Some? <==> metrics.Some? && metrics.value != []
                         && !(IsZero(Get(metrics.value, "performance_issues", JInt(0)))
                              && IsZero(Get(metrics.value, "high_cpu_count", JInt(0)))
                              && IsZero(Get(metrics.value, "high_memory_count", JInt(0))))
                         && !(IsNumber(Get(metrics.value, "performance_issues", JInt(0)))
                              && IsNumber(Get(metrics.value, "high_cpu_count", JInt(0)))
                              && IsNumber(Get(metrics.value, "high_memory_count", JInt(0))))
  {
    if metrics.None? || metrics.value == [] then None
    else
      var perf := Get(metrics.value, "performance_issues", JInt(0));
      var cpu := Get(metrics.value, "high_cpu_count", JInt(0));
      var memory := Get(metrics.value, "high_memory_count", JInt(0));
      if IsZero(perf) && IsZero(cpu) && IsZero(memory) then None
      else if !IsNumber(cpu) then Some(CompareError(cpu))
      else if !IsNumber(memory) then Some(CompareError(memory))
      else if !IsNumber(perf) then Some(CompareError(perf))
      else None
  }

  /** `is_available` */
  predicate IsAvailable(requestsAvailable: bool, endpoint: Option<string>, apiKey: Option<string>)
  {
    requestsAvailable && endpoint.Some? && apiKey.Some?
  }

  /**
   * `analyze_error_patterns`. `prompt` stands for `_build_analysis_prompt` and `call`
   * for `_call_lambda_function` with its response parsing: the analysis text, or the
   * message of the exception it raised.
   */
  function AnalyzeErrorPatterns(available: bool, errors: seq<Dict<string, Json>>, metrics: Option<Dict<string, Json>>,
                                region: string, service: string, str: JsonStr,
                                prompt: (string, string, string) -> string, call: string -> Result<string, string>): (r: Analysis)
    ensures r == Unavailable <==> !available
    ensures r.Healthy? <==> available && errors == [] && HealthyReportError(metrics).None?
    ensures r.Healthy? ==> r.region == region && r.service == service
    ensures available && errors == [] && HealthyReportError(metrics).Some? ==> r == AnalysisError(HealthyReportError(metrics).value)
    ensures r.Analyzed? ==> && available && errors != [] && r.errorCount == |errors| && r.region == region && r.service == service
                            && call(prompt(Join("\n", SummaryLines(errors, metrics, str)), region, service)) == Success(r.analysis)
    ensures r.AnalysisError? && errors != [] ==> call(prompt(Join("\n", SummaryLines(errors, metrics, str)), region, service)) == Failure(r.message)
  {
    if !available then Unavailable
    else if errors == [] then
      match HealthyReportError(metrics)
      case Some(message) => AnalysisError(message)
      case None => Healthy(region, service)
    else
      match call(prompt(Join("\n", SummaryLines(errors, metrics, str)), region, service))
      case Success(text) => Analyzed(region, service, text, |errors|)
      case Failure(message) => AnalysisError(message)
  }

  /**
   * The analysis is "unavailable" exactly when `is_available` fails: requests is missing,
   * or no endpoint or no API key is configured.
   */
  lemma UnavailableUnlessConfigured(requestsAvailable: bool, endpoint: Option<string>, apiKey: Option<string>,
                                    errors: seq<Dict<string, Json>>, metrics: Option<Dict<string, Json>>,
                                    region: string, service: string, str: JsonStr,
                                    prompt: (string, string, string) -> string, call: string -> Result<string, string>)
    ensures AnalyzeErrorPatterns(IsAvailable(requestsAvailable, endpoint, apiKey), errors, metrics, region, service, str, prompt, call)
            == Unavailable
            <==> !requestsAvailable || endpoint.None? || apiKey.None?
  {
  }

  /** With counts that are numbers, or missing, an error-free call always gets the healthy report. */
  lemma NumericCountsHealthy(errors: seq<Dict<string, Json>>, metrics: Option<Dict<string, Json>>,
                             region: string, service: string, str: JsonStr,
                             prompt: (string, string, string) -> string, call: string -> Result<string, string>)
    requires metrics.Some? ==> forall n :: 0 <= n < |metrics.value| ==> IsNumber(metrics.value[n].1)
    ensures AnalyzeErrorPatterns(true, [], metrics, region, service, str, prompt, call) == Healthy(region, service)
  {
    if metrics.Some? {
      GetNumber(metrics.value, "performance_issues");
      GetNumber(metrics.value, "high_cpu_count");
      GetNumber(metrics.value, "high_memory_count");
    }
  }

  /** A value read from a dictionary whose values are all numbers, with 0 as default, is a number. */
  lemma GetNumber(d: Dict<string, Json>, key: string)
    requires forall n :: 0 <= n < |d| ==> IsNumber(d[n].1)
    ensures IsNumber(Get(d, key, JInt(0)))
  {
    if Lookup(d, key).Some? {
      LookupFound(d, key);
    }
  }

  /**
   * A count that is not a number, say a null performance_issues beside numeric CPU and memory
   * counts that are not all zero, makes the healthy report raise, and the call returns the
   * error status with the TypeError's message.
   */
  lemma NonNumericCountRaises(metrics: Dict<string, Json>, region: string, service: string, str: JsonStr,
                              prompt: (string, string, string) -> string, call: string -> Result<string, string>)
    requires metrics != []
    requires IsNumber(Get(metrics, "high_cpu_count", JInt(0))) && IsNumber(Get(metrics, "high_memory_count", JInt(0)))
    requires !IsNumber(Get(metrics, "performance_issues", JInt(0)))
    ensures AnalyzeErrorPatterns(true, [], Some(metrics), region, service, str, prompt, call)
            == AnalysisError(CompareError(Get(metrics, "performance_issues", JInt(0))))
  {
  }
}
