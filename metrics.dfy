// The rule functions of src/prod_monitoring/metrics_helper.py: the metric types of a
// service, the threshold and statistic chosen from a metric type's name, the widget
// lookup in a dashboard body, the construction of a CloudWatch metric query from a
// dashboard metric definition, the threshold filter over the returned values and the
// rows of one metric type. CloudWatch itself is a parameter: `fetch(query)` is the
// first MetricDataResults entry returned for the query.
module Metrics {
  import opened Wrappers
  import opened Text
  import opened PyDict
  import opened Seqs

  // ---------------------------------------------------------------------
  // get_metric_types and the threshold choice of process_metric_type

  datatype MetricType = MetricType(name: string, kind: string)

  const MetricTypeKeys: seq<string> := ["internalErrors", "externalErrors", "internalPerformance", "externalPerformance", "cpuUsage"]

  /** `get_metric_types(service_name)`, the dictionary as a list of (key, type) pairs in order. */
  function GetMetricTypes(service: string): (r: seq<(string, MetricType)>)
    ensures |r| == |MetricTypeKeys| && forall k :: 0 <= k < |r| ==> r[k].0 == MetricTypeKeys[k]
    ensures r[0].1.name == service + " MS Errors" && r[2].1.name == service + " performance in MS"
  {
    [("internalErrors", MetricType(service + " MS Errors", "Error")),
     ("externalErrors", MetricType("External APis Errors", "Error")),
     ("internalPerformance", MetricType(service + " performance in MS", "Performance")),
     ("externalPerformance", MetricType("External APIs performance in MS", "Performance")),
     ("cpuUsage", MetricType("Max CPU and Memory", "gauge"))]
  }

  /** A threshold and the CloudWatch statistic that goes with it. */
  datatype StatChoice = StatChoice(threshold: real, stat: string)

  /** The choice `process_metric_type` makes from the metric type's name. */
  function ThresholdChoice(name: string): (c: StatChoice)
    ensures Contains(name, "Error") ==> c == StatChoice(0.0, "Sum")
    ensures !Contains(name, "Error") && (Contains(name, "CPU") || Contains(name, "Memory")) ==> c == StatChoice(70.0, "Maximum")
    ensures !Contains(name, "Error") && !Contains(name, "CPU") && !Contains(name, "Memory") ==> c == StatChoice(500.0, "Average")
  {
    if Contains(name, "Error") then StatChoice(0.0, "Sum")
    else if Contains(name, "CPU") || Contains(name, "Memory") then StatChoice(70.0, "Maximum")
    else StatChoice(500.0, "Average")
  }

  /** The choice the declared type of a metric type stands for. */
  function KindChoice(kind: string): StatChoice
  {
    if kind == "Error" then StatChoice(0.0, "Sum")
    else if kind == "gauge" then StatChoice(70.0, "Maximum")
    else StatChoice(500.0, "Average")
  }

  lemma OccursWitness(s: string, i: nat, p: string)
    requires i + |p| <= |s| && s[i..i + |p|] == p
    ensures Contains(s, p)
  {
    assert OccursAt(s, i, p);
  }

  /** A pattern with a character the text lacks does not occur in it. */
  lemma AbsentChar(s: string, p: string, j: nat)
    requires j < |p| && p[j] !in s
    ensures !Contains(s, p)
  {
    forall i | 0 <= i <= |s| ensures !OccursAt(s, i, p) {
      if i + |p| <= |s| {
        assert s[i + j] in s;
        assert s[i..i + |p|][j] == s[i + j];
      }
    }
  }

  /** A pattern whose first character occurs only at the start of the text, followed by something else. */
  lemma AbsentAfterHead(h: char, t: string, p: string)
    requires |p| >= 2 && p[0] !in t && t != [] && t[0] != p[1]
    ensures !Contains([h] + t, p)
  {
    var s := [h] + t;
    forall i | 0 <= i <= |s| ensures !OccursAt(s, i, p) {
      if i + |p| <= |s| {
        if i == 0 {
          assert s[i..i + |p|][1] == s[1] == t[0];
        } else {
          assert s[i] == t[i - 1] && t[i - 1] in t;
          assert s[i..i + |p|][0] == s[i];
        }
      }
    }
  }

  /** The error types: both names hold "Error". */
  lemma ErrorTypeChoices(service: string)
    ensures ThresholdChoice(service + " MS Errors") == StatChoice(0.0, "Sum")
    ensures ThresholdChoice("External APis Errors") == StatChoice(0.0, "Sum")
  {
    var s := service + " MS Errors";
    assert s[|service| + 4..|service| + 9] == "Error";
    OccursWitness(s, |service| + 4, "Error");
    OccursWitness("External APis Errors", 14, "Error");
  }

  /** The gauge: its name holds "CPU" and no "Error". */
  lemma GaugeChoice()
    ensures ThresholdChoice("Max CPU and Memory") == StatChoice(70.0, "Maximum")
  {
    var name := "Max CPU and Memory";
    AbsentChar(name, "Error", 0);
    assert name[4..7] == "CPU" by {
      assert name[4] == 'C' && name[5] == 'P' && name[6] == 'U';
    }
    OccursWitness(name, 4, "CPU");
  }

  lemma ExternalNoError()
    ensures !Contains("External APIs performance in MS", "Error")
  {
    var tail := "xternal APIs performance in MS";
    assert "External APIs performance in MS" == ['E'] + tail;
    AbsentAfterHead('E', tail, "Error");
  }

  /** The external performance type: none of the three words occurs in its name. */
  lemma ExternalPerformanceChoice()
    ensures ThresholdChoice("External APIs performance in MS") == StatChoice(500.0, "Average")
  {
    ExternalNoError();
    AbsentChar("External APIs performance in MS", "CPU", 0);
    AbsentChar("External APIs performance in MS", "Memory", 5);
  }

  /** The internal performance type of SRA and SRM. */
  lemma InternalPerformanceChoice(service: string)
    requires service == "SRA" || service == "SRM"
    ensures ThresholdChoice(service + " performance in MS") == StatChoice(500.0, "Average")
  {
    var perf := service + " performance in MS";
    AbsentChar(perf, "Error", 0);
    AbsentChar(perf, "CPU", 0);
    AbsentChar(perf, "Memory", 5);
  }

  /**
   * For the two services of the program the choice made from the name agrees with the
   * declared type of every metric type: errors are summed above 0, the CPU/memory gauge
   * is maximized above 70, performance is averaged above 500.
   */
  lemma MetricTypeChoices(service: string)
    requires service == "SRA" || service == "SRM"
    ensures forall k :: 0 <= k < 5 ==> ThresholdChoice(GetMetricTypes(service)[k].1.name) == KindChoice(GetMetricTypes(service)[k].1.kind)
  {
    ErrorTypeChoices(service);
    GaugeChoice();
    ExternalPerformanceChoice();
    InternalPerformanceChoice(service);
  }

  // ---------------------------------------------------------------------
  // The query Id: "".join(name.split()).lower().replace(".", "_").replace("-", "_")

  /** str.replace(a, b) for single characters. */
  function ReplaceChar(s: string, a: char, b: char): (r: string)
    ensures |r| == |s|
    ensures forall k :: 0 <= k < |s| ==> r[k] == (if s[k] == a then b else s[k])
  {
    seq(|s|, k requires 0 <= k < |s| => if s[k] == a then b else s[k])
  }

  function MetricId(name: string): string
  {
    ReplaceChar(ReplaceChar(Lower(Join("", Words(name))), '.', '_'), '-', '_')
  }

  /** A character an Id can hold: no whitespace, no dot, no hyphen, no upper-case letter. */
  predicate IdChar(c: char) { !IsSpace(c) && c != '.' && c != '-' && !IsUpper(c) }

  lemma {:induction false} JoinTokensNoSpace(ws: seq<string>)
    requires forall j :: 0 <= j < |ws| ==> IsWordToken(ws[j])
    ensures NoSpaceIn(Join("", ws))
    decreases |ws|
  {
    if |ws| > 1 {
      JoinTokensNoSpace(ws[1..]);
      var r := Join("", ws);
      assert r == ws[0] + Join("", ws[1..]);
      forall k | 0 <= k < |r| ensures !IsSpace(r[k]) {
        if k < |ws[0]| {
          assert r[k] == ws[0][k];
        } else {
          assert r[k] == Join("", ws[1..])[k - |ws[0]|];
        }
      }
    } else if |ws| == 1 {
      assert Join("", ws) == ws[0];
    }
  }

  /** The Id holds no whitespace, dot, hyphen or upper-case letter, and is no longer than the name. */
  lemma MetricIdShape(name: string)
    ensures forall k :: 0 <= k < |MetricId(name)| ==> IdChar(MetricId(name)[k])
  {
    WordsAreTokens(name);
    JoinTokensNoSpace(Words(name));
  }

  /** A string made of Id characters is its own Id. */
  lemma MetricIdOfId(s: string)
    requires forall k :: 0 <= k < |s| ==> IdChar(s[k])
    ensures MetricId(s) == s
  {
    if s != [] {
      var e := RunEnd(s, 0, NonSpace);
      assert e == |s|;
      assert s[..e] == s && s[e..] == [];
      assert Words(s) == [s];
    }
    assert Lower(s) == s;
  }

  /** Building an Id is idempotent. */
  lemma MetricIdIdempotent(name: string)
    ensures MetricId(MetricId(name)) == MetricId(name)
  {
    MetricIdShape(name);
    MetricIdOfId(MetricId(name));
  }

  // ---------------------------------------------------------------------
  // get_metric_query

  datatype Dimension = Dimension(name: string, value: string)

  /** The MetricDataQuery dictionary; "ReturnData" is always true. */
  datatype MetricQuery = MetricQuery(id: string, namespace: string, metricName: string, dimensions: seq<Dimension>,
                                     period: int, stat: string, returnData: bool)

  /** PERIOD of src/prod_monitoring/config.py */
  const Period: int := 300

  /** The number of (key, value) pairs the loop visits: indices 2, 4, … while a partner follows. */
  function PairCount(def: seq<string>): nat
  {
    if |def| < 2 then 0 else (|def| - 2) / 2
  }

  function PairAt(def: seq<string>, k: nat): Dimension
    requires k < PairCount(def)
  {
    Dimension(def[2 + 2 * k], def[3 + 2 * k])
  }

  predicate Placeholder(d: Dimension) { d.name == "." || d.value == "." }

  /** The dimensions from the first n pairs, placeholders skipped. */
  function KeptPairs(def: seq<string>, n: nat): seq<Dimension>
    requires n <= PairCount(def)
  {
    if n == 0 then []
    else KeptPairs(def, n - 1) + (if Placeholder(PairAt(def, n - 1)) then [] else [PairAt(def, n - 1)])
  }

  /** The query built for a metric definition ["namespace", "MetricName", key, value, …]. */
  function QueryOf(def: seq<string>, stat: string): MetricQuery
    requires |def| >= 2
  {
    MetricQuery(MetricId(def[1]), def[0], def[1], KeptPairs(def, PairCount(def)), Period, stat, true)
  }

  /** `get_metric_query`; a definition with fewer than two elements raises IndexError. */
  method GetMetricQuery(def: seq<string>, statType: string) returns (q: MetricQuery)
    requires |def| >= 2
    ensures q == QueryOf(def, statType)
  {
    var namespace := def[0];
    var metricName := def[1];
    var dimensions: seq<Dimension> := [];
    var i := 2;
    while i < |def| - 1
      invariant 2 <= i && i % 2 == 0 && (i - 2) / 2 <= PairCount(def)
      invariant dimensions == KeptPairs(def, (i - 2) / 2)
      decreases |def| - i
    {
      var dimKey := def[i];
      var dimValue := def[i + 1];
      assert PairAt(def, (i - 2) / 2) == Dimension(dimKey, dimValue);
      if dimKey != "." && dimValue != "." {
        dimensions := dimensions + [Dimension(dimKey, dimValue)];
      }
      i := i + 2;
    }
    q := MetricQuery(MetricId(metricName), namespace, metricName, dimensions, Period, statType, true);
  }

  /** A dimension is in the query exactly when it is a visited pair without a "." key or value. */
  lemma {:induction false} KeptPairsMember(def: seq<string>, n: nat, d: Dimension)
    requires n <= PairCount(def)
    ensures d in KeptPairs(def, n) <==> !Placeholder(d) && exists k :: 0 <= k < n && PairAt(def, k) == d
  {
    if n > 0 {
      KeptPairsMember(def, n - 1, d);
    }
  }

  /** The pairs keep their order: the first n pairs give a prefix of the dimensions. */
  lemma {:induction false} KeptPairsPrefix(def: seq<string>, m: nat, n: nat)
    requires m <= n <= PairCount(def)
    ensures KeptPairs(def, m) <= KeptPairs(def, n)
    decreases n
  {
    if m < n {
      KeptPairsPrefix(def, m, n - 1);
    }
  }

  /** A trailing element without a partner is ignored. */
  lemma TrailingIgnored(def: seq<string>, extra: string)
    requires |def| >= 2 && |def| % 2 == 0
    ensures PairCount(def + [extra]) == PairCount(def)
    ensures KeptPairs(def + [extra], PairCount(def)) == KeptPairs(def, PairCount(def))
  {
    var d2 := def + [extra];
    forall k | 0 <= k < PairCount(def) ensures PairAt(d2, k) == PairAt(def, k) { }
    KeptPairsAgree(def, d2, PairCount(def));
  }

  lemma {:induction false} KeptPairsAgree(a: seq<string>, b: seq<string>, n: nat)
    requires n <= PairCount(a) && n <= PairCount(b)
    requires forall k :: 0 <= k < n ==> PairAt(a, k) == PairAt(b, k)
    ensures KeptPairs(a, n) == KeptPairs(b, n)
  {
    if n > 0 {
      KeptPairsAgree(a, b, n - 1);
    }
  }

  // ---------------------------------------------------------------------
  // getMetricsList

  /** A dashboard widget's properties: "title" and "metrics" may be absent. */
  datatype Widget = Widget(title: Option<string>, metrics: Option<seq<seq<string>>>)

  /** The index of the first widget with this title. */
  function FirstTitled(widgets: seq<Widget>, title: string): (r: Option<nat>)
    ensures r.Some? ==> r.value < |widgets| && widgets[r.value].title == Some(title)
    ensures r.Some? ==> forall j :: 0 <= j < r.value ==> widgets[j].title != Some(title)
    ensures r.None? ==> forall j :: 0 <= j < |widgets| ==> widgets[j].title != Some(title)
    decreases |widgets|
  {
    if |widgets| == 0 then None
    else if widgets[0].title == Some(title) then Some(0)
    else match FirstTitled(widgets[1..], title)
      case None => None
      case Some(k) => Some(k + 1)
  }

  /** `getMetricsList`: the metric definitions of the first widget with the title, [] if none. */
  function GetMetricsList(widgets: seq<Widget>, title: string): (r: seq<seq<string>>)
    ensures FirstTitled(widgets, title).None? ==> r == []
    ensures FirstTitled(widgets, title).Some? ==>
              var w := widgets[FirstTitled(widgets, title).value];
              r == if w.metrics.Some? then w.metrics.value else []
  {
    match FirstTitled(widgets, title)
    case None => []
    case Some(k) => if widgets[k].metrics.Some? then widgets[k].metrics.value else []
  }

  // ---------------------------------------------------------------------
  // get_metrics_with_threshold

  /** The values and timestamps of one MetricDataResults entry. */
  datatype MetricData = MetricData(values: seq<real>, timestamps: seq<string>)

  /** The sum of the first n values strictly above the threshold. */
  function SumAbove(values: seq<real>, threshold: real, n: nat): real
    requires n <= |values|
  {
    if n == 0 then 0.0
    else SumAbove(values, threshold, n - 1) + (if values[n - 1] > threshold then values[n - 1] else 0.0)
  }

  /** `errorsDict` after the first n values. */
  function ErrorsDict(values: seq<real>, timestamps: seq<string>, threshold: real, n: nat): Dict<string, real>
    requires n <= |values| <= |timestamps|
  {
    if n == 0 then []
    else
      var d := ErrorsDict(values, timestamps, threshold, n - 1);
      if values[n - 1] > threshold then Set(d, timestamps[n - 1], values[n - 1]) else d
  }

  /**
   * `get_metrics_with_threshold` over the fetched data; a data entry with fewer timestamps
   * than values raises IndexError.
   */
  method GetMetricsWithThreshold(data: MetricData, threshold: real) returns (errorCount: real, errorsDict: Dict<string, real>)
    requires |data.values| <= |data.timestamps|
    ensures errorCount == SumAbove(data.values, threshold, |data.values|)
    ensures errorsDict == ErrorsDict(data.values, data.timestamps, threshold, |data.values|)
  {
    errorsDict := [];
    errorCount := 0.0;
    for idx := 0 to |data.values|
      invariant errorCount == SumAbove(data.values, threshold, idx)
      invariant errorsDict == ErrorsDict(data.values, data.timestamps, threshold, idx)
    {
      var value := data.values[idx];
      if value > threshold {
        errorCount := errorCount + value;
        errorsDict := Set(errorsDict, data.timestamps[idx], value);
      }
    }
  }

  /** Some value at timestamp t among the first n exceeds the threshold. */
  ghost predicate SeenAbove(values: seq<real>, timestamps: seq<string>, threshold: real, n: nat, t: string)
    requires n <= |values| <= |timestamps|
  {
    exists i :: 0 <= i < n && timestamps[i] == t && values[i] > threshold
  }

  /** A timestamp is a key exactly when some value at that timestamp exceeds the threshold. */
  lemma {:induction false} ErrorsDictKeys(values: seq<real>, timestamps: seq<string>, threshold: real, n: nat, t: string)
    requires n <= |values| <= |timestamps|
    ensures Lookup(ErrorsDict(values, timestamps, threshold, n), t).Some? <==> SeenAbove(values, timestamps, threshold, n, t)
  {
    if n > 0 {
      ErrorsDictKeys(values, timestamps, threshold, n - 1, t);
      var d := ErrorsDict(values, timestamps, threshold, n - 1);
      if values[n - 1] > threshold && timestamps[n - 1] == t {
        SetShape(d, t, values[n - 1]);
        assert SeenAbove(values, timestamps, threshold, n, t) by {
          assert timestamps[n - 1] == t && values[n - 1] > threshold;
        }
      } else {
        if values[n - 1] > threshold {
          SetOther(d, timestamps[n - 1], values[n - 1], t);
        }
        assert Lookup(ErrorsDict(values, timestamps, threshold, n), t) == Lookup(d, t);
        assert SeenAbove(values, timestamps, threshold, n, t) <==> SeenAbove(values, timestamps, threshold, n - 1, t) by {
          if SeenAbove(values, timestamps, threshold, n, t) {
            var i :| 0 <= i < n && timestamps[i] == t && values[i] > threshold;
            assert i < n - 1;
          }
        }
      }
    }
  }

  /** Every stored value exceeds the threshold and was seen at its timestamp. */
  lemma {:induction false} ErrorsDictValues(values: seq<real>, timestamps: seq<string>, threshold: real, n: nat, t: string)
    requires n <= |values| <= |timestamps|
    requires Lookup(ErrorsDict(values, timestamps, threshold, n), t).Some?
    ensures var v := Lookup(ErrorsDict(values, timestamps, threshold, n), t).value;
            v > threshold && exists i :: 0 <= i < n && timestamps[i] == t && values[i] == v
  {
    var d := ErrorsDict(values, timestamps, threshold, n - 1);
    if values[n - 1] > threshold && timestamps[n - 1] == t {
      SetShape(d, t, values[n - 1]);
      assert Lookup(ErrorsDict(values, timestamps, threshold, n), t) == Some(values[n - 1]);
    } else {
      if values[n - 1] > threshold {
        SetOther(d, timestamps[n - 1], values[n - 1], t);
      }
      assert Lookup(ErrorsDict(values, timestamps, threshold, n), t) == Lookup(d, t);
      ErrorsDictValues(values, timestamps, threshold, n - 1, t);
    }
  }

  function SumValues(d: Dict<string, real>): real
  {
    if |d| == 0 then 0.0 else SumValues(d[..|d| - 1]) + d[|d| - 1].1
  }

  ghost predicate DistinctTimestamps(timestamps: seq<string>, n: nat)
    requires n <= |timestamps|
  {
    forall i, j :: 0 <= i < j < n ==> timestamps[i] != timestamps[j]
  }

  /** With distinct timestamps (as CloudWatch returns them) the count is the sum of the stored values. */
  lemma {:induction false} ErrorCountIsSum(values: seq<real>, timestamps: seq<string>, threshold: real, n: nat)
    requires n <= |values| <= |timestamps|
    requires DistinctTimestamps(timestamps, n)
    ensures SumValues(ErrorsDict(values, timestamps, threshold, n)) == SumAbove(values, threshold, n)
  {
    if n > 0 {
      var d := ErrorsDict(values, timestamps, threshold, n - 1);
      ErrorCountIsSum(values, timestamps, threshold, n - 1);
      if values[n - 1] > threshold {
        var t := timestamps[n - 1];
        assert forall i :: 0 <= i < n - 1 ==> timestamps[i] != t;
        ErrorsDictKeys(values, timestamps, threshold, n - 1, t);
        SetShape(d, t, values[n - 1]);
        assert (d + [(t, values[n - 1])])[..|d|] == d;
      }
    }
  }

  // ---------------------------------------------------------------------
  // process_metric_type

  /** One row of a metrics-group CSV. */
  datatype MetricRow = MetricRow(metric: string, timestamp: string, value: real)

  /** The rows of one metric definition: one per entry of its errors dictionary, in order. */
  function DefRows(def: seq<string>, c: StatChoice, fetch: MetricQuery -> MetricData): seq<MetricRow>
    requires |def| >= 2 && |fetch(QueryOf(def, c.stat)).values| <= |fetch(QueryOf(def, c.stat)).timestamps|
  {
    var data := fetch(QueryOf(def, c.stat));
    var d := ErrorsDict(data.values, data.timestamps, c.threshold, |data.values|);
    seq(|d|, k requires 0 <= k < |d| => MetricRow(def[1], d[k].0, d[k].1))
  }

  /** The fetched data has a timestamp for every value. */
  ghost predicate AlignedFetch(fetch: MetricQuery -> MetricData)
  {
    forall q :: |fetch(q).values| <= |fetch(q).timestamps|
  }

  /** `group_data` after the first n metric definitions. */
  function GroupRows(defs: seq<seq<string>>, n: nat, c: StatChoice, fetch: MetricQuery -> MetricData): seq<MetricRow>
    requires n <= |defs| && (forall k :: 0 <= k < |defs| ==> |defs[k]| >= 2) && AlignedFetch(fetch)
  {
    if n == 0 then [] else GroupRows(defs, n - 1, c, fetch) + DefRows(defs[n - 1], c, fetch)
  }

  /**
   * `process_metric_type`: the rows for the metric type with this name. Every metric
   * definition of the widget needs a namespace and a name.
   */
  method ProcessMetricType(widgets: seq<Widget>, name: string, fetch: MetricQuery -> MetricData) returns (groupData: seq<MetricRow>)
    requires forall k :: 0 <= k < |GetMetricsList(widgets, name)| ==> |GetMetricsList(widgets, name)[k]| >= 2
    requires AlignedFetch(fetch)
    ensures groupData == GroupRows(GetMetricsList(widgets, name), |GetMetricsList(widgets, name)|, ThresholdChoice(name), fetch)
  {
    var c := ThresholdChoice(name);
    var defs := GetMetricsList(widgets, name);
    groupData := [];
    for n := 0 to |defs|
      invariant groupData == GroupRows(defs, n, c, fetch)
    {
      var def := defs[n];
      var metricName := def[1];
      var query := GetMetricQuery(def, c.stat);
      var _, errorsDict := GetMetricsWithThreshold(fetch(query), c.threshold);
      ghost var before := groupData;
      ghost var rows := DefRows(def, c, fetch);
      for k := 0 to |errorsDict|
        invariant groupData == before + rows[..k]
      {
        assert rows[k] == MetricRow(metricName, errorsDict[k].0, errorsDict[k].1);
        TakeSnoc(rows, k);
        AppendAssoc(before, rows[..k], [rows[k]]);
        groupData := groupData + [MetricRow(metricName, errorsDict[k].0, errorsDict[k].1)];
      }
      TakeAll(rows);
    }
  }

  /** Every row of a metric type exceeds the threshold chosen for it and names a metric of the widget. */
  lemma {:induction false} GroupRowsAboveThreshold(defs: seq<seq<string>>, n: nat, c: StatChoice, fetch: MetricQuery -> MetricData)
    requires n <= |defs| && (forall k :: 0 <= k < |defs| ==> |defs[k]| >= 2) && AlignedFetch(fetch)
    ensures forall r :: r in GroupRows(defs, n, c, fetch) ==> r.value > c.threshold && exists k :: 0 <= k < n && r.metric == defs[k][1]
  {
    if n > 0 {
      GroupRowsAboveThreshold(defs, n - 1, c, fetch);
      var def := defs[n - 1];
      var data := fetch(QueryOf(def, c.stat));
      var d := ErrorsDict(data.values, data.timestamps, c.threshold, |data.values|);
      forall j | 0 <= j < |d| ensures d[j].1 > c.threshold {
        LookupDistinct(d, j, data.values, data.timestamps, c.threshold);
        ErrorsDictValues(data.values, data.timestamps, c.threshold, |data.values|, d[j].0);
      }
    }
  }

  /** The keys of an errors dictionary are distinct, so looking up the key of an entry finds that entry. */
  lemma LookupDistinct(d: Dict<string, real>, j: nat, values: seq<real>, timestamps: seq<string>, threshold: real)
    requires |values| <= |timestamps| && d == ErrorsDict(values, timestamps, threshold, |values|) && j < |d|
    ensures Lookup(d, d[j].0) == Some(d[j].1)
  {
    ErrorsDictDistinct(values, timestamps, threshold, |values|);
    LookupOfDistinct(d, j);
  }

  lemma {:induction false} ErrorsDictDistinct(values: seq<real>, timestamps: seq<string>, threshold: real, n: nat)
    requires n <= |values| <= |timestamps|
    ensures DistinctKeys(ErrorsDict(values, timestamps, threshold, n))
  {
    if n > 0 {
      ErrorsDictDistinct(values, timestamps, threshold, n - 1);
      if values[n - 1] > threshold {
        SetKeys(ErrorsDict(values, timestamps, threshold, n - 1), timestamps[n - 1], values[n - 1]);
      }
    }
  }

}
