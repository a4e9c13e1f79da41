// The rule functions of metrics_helper.py, the older metrics helper: four fixed SRA
// metric types, the threshold chosen from the declared type, the widget lookup that
// returns metric names, a query over a fixed namespace and dimension, and the run over
// all metric types, whose results that file only prints.
module LegacyMetrics {
  import opened Wrappers
  import opened Text
  import opened PyDict
  import opened Metrics
  import opened Seqs

  /** METRIC_TYPES */
  const LegacyMetricTypes: seq<(string, MetricType)> := [
    ("internalErrors", MetricType("SRA MS Errors", "Error")),
    ("externalErrors", MetricType("External APis Errors", "Error")),
    ("internalPerformance", MetricType("SRA performance in MS", "Performance")),
    ("externalPerformance", MetricType("External APIs performance in MS", "Performance"))
  ]

  /** NAMESPACE and PERIOD */
  const LegacyNamespace: string := "test.service.metrics"
  const LegacyPeriod: int := 60

  /** The threshold and statistic of `getAllMetricDetails`, chosen from the declared type. */
  function LegacyChoice(kind: string): (c: StatChoice)
    ensures kind == "Error" ==> c == StatChoice(0.0, "Sum")
    ensures kind != "Error" ==> c == StatChoice(500.0, "Average")
  {
    StatChoice(if kind == "Error" then 0.0 else 500.0, if kind == "Error" then "Sum" else "Average")
  }

  /**
   * The older choice from the declared type and the newer choice from the name agree on
   * the four older metric types.
   */
  lemma LegacyChoiceAgrees()
    ensures forall k :: 0 <= k < |LegacyMetricTypes| ==>
              LegacyChoice(LegacyMetricTypes[k].1.kind) == ThresholdChoice(LegacyMetricTypes[k].1.name)
  {
    forall k | 0 <= k < |LegacyMetricTypes|
      ensures LegacyChoice(LegacyMetricTypes[k].1.kind) == ThresholdChoice(LegacyMetricTypes[k].1.name)
    {
      if k == 0 {
        LegacyInternalErrors();
      } else if k == 1 {
        ErrorTypeChoices("SRA");
      } else if k == 2 {
        LegacyInternalPerformance();
      } else {
        ExternalPerformanceChoice();
      }
    }
  }

  lemma LegacyInternalErrors()
    ensures ThresholdChoice("SRA MS Errors") == StatChoice(0.0, "Sum")
  {
    ErrorTypeChoices("SRA");
    assert "SRA" + " MS Errors" == "SRA MS Errors";
  }

  lemma LegacyInternalPerformance()
    ensures ThresholdChoice("SRA performance in MS") == StatChoice(500.0, "Average")
  {
    InternalPerformanceChoice("SRA");
    assert "SRA" + " performance in MS" == "SRA performance in MS";
  }

  /** `get_metric_query(metricName, statType)` of metrics_helper.py */
  function LegacyGetMetricQuery(metricName: string, statType: string): (q: MetricQuery)
    ensures q.dimensions == [Dimension("type", "gauge")] && q.namespace == LegacyNamespace && q.period == LegacyPeriod
    ensures forall k :: 0 <= k < |q.id| ==> IdChar(q.id[k])
  {
    MetricIdShape(metricName);
    MetricQuery(MetricId(metricName), LegacyNamespace, metricName, [Dimension("type", "gauge")], LegacyPeriod, statType, true)
  }

  /**
   * The older query is the one the newer `get_metric_query` builds from the definition
   * [namespace, name, "type", "gauge"], apart from the period.
   */
  lemma LegacyQueryAsDefinition(metricName: string, statType: string)
    ensures LegacyGetMetricQuery(metricName, statType)
            == QueryOf([LegacyNamespace, metricName, "type", "gauge"], statType).(period := LegacyPeriod)
  {
    var def := [LegacyNamespace, metricName, "type", "gauge"];
    assert PairCount(def) == 1;
    assert PairAt(def, 0) == Dimension("type", "gauge");
    assert KeptPairs(def, 1) == [Dimension("type", "gauge")];
  }

  /**
   * The widgets the older lookup reads have a title, and the one it stops at has metrics
   * of at least two elements each; otherwise `widget["properties"]["title"]`,
   * `["metrics"]` or `metric[1]` raises.
   */
  predicate LegacyReadable(widgets: seq<Widget>, title: string)
    decreases |widgets|
  {
    if |widgets| == 0 then true
    else if widgets[0].title.None? then false
    else if widgets[0].title == Some(title) then
      widgets[0].metrics.Some? && forall m :: m in widgets[0].metrics.value ==> |m| >= 2
    else LegacyReadable(widgets[1..], title)
  }

  /** `getMetricsList(title)` of metrics_helper.py: the names (second elements) of the first match's metrics. */
  function LegacyGetMetricsList(widgets: seq<Widget>, title: string): (r: seq<string>)
    requires LegacyReadable(widgets, title)
    ensures var defs := GetMetricsList(widgets, title);
            |r| == |defs| && forall k :: 0 <= k < |r| ==> |defs[k]| >= 2 && r[k] == defs[k][1]
    decreases |widgets|
  {
    if |widgets| == 0 then []
    else if widgets[0].title == Some(title) then
      var ms := widgets[0].metrics.value;
      seq(|ms|, k requires 0 <= k < |ms| => assert ms[k] in ms; ms[k][1])
    else
      assert FirstTitled(widgets, title).Some? ==> FirstTitled(widgets, title).value == FirstTitled(widgets[1..], title).value + 1;
      LegacyGetMetricsList(widgets[1..], title)
  }

  /** What `getAllMetricDetails` prints for each query: its Id, the count and the errors dictionary. */
  datatype QueryReport = QueryReport(id: string, errorCount: real, errors: Dict<string, real>)

  /** The report of one metric name under a metric type. */
  function ReportOf(name: string, c: StatChoice, fetch: MetricQuery -> MetricData): QueryReport
    requires AlignedFetch(fetch)
  {
    var q := LegacyGetMetricQuery(name, c.stat);
    var data := fetch(q);
    QueryReport(q.id, SumAbove(data.values, c.threshold, |data.values|),
                ErrorsDict(data.values, data.timestamps, c.threshold, |data.values|))
  }

  /** The reports of the k-th metric type, one per metric name of its widget. */
  function TypeReports(widgets: seq<Widget>, k: nat, fetch: MetricQuery -> MetricData): seq<QueryReport>
    requires k < |LegacyMetricTypes| && LegacyReadable(widgets, LegacyMetricTypes[k].1.name) && AlignedFetch(fetch)
  {
    var info := LegacyMetricTypes[k].1;
    var names := LegacyGetMetricsList(widgets, info.name);
    seq(|names|, j requires 0 <= j < |names| => ReportOf(names[j], LegacyChoice(info.kind), fetch))
  }

  /** The reports of the first n metric types, in order. */
  function AllReports(widgets: seq<Widget>, n: nat, fetch: MetricQuery -> MetricData): seq<QueryReport>
    requires n <= |LegacyMetricTypes| && AlignedFetch(fetch)
    requires forall k :: 0 <= k < |LegacyMetricTypes| ==> LegacyReadable(widgets, LegacyMetricTypes[k].1.name)
  {
    if n == 0 then [] else AllReports(widgets, n - 1, fetch) + TypeReports(widgets, n - 1, fetch)
  }

  /** The inner loop of `getAllMetricDetails`: the queries of one metric type. */
  method ReportMetricType(widgets: seq<Widget>, k: nat, fetch: MetricQuery -> MetricData) returns (reports: seq<QueryReport>)
    requires k < |LegacyMetricTypes| && LegacyReadable(widgets, LegacyMetricTypes[k].1.name) && AlignedFetch(fetch)
    ensures reports == TypeReports(widgets, k, fetch)
  {
    var info := LegacyMetricTypes[k].1;
    var c := LegacyChoice(info.kind);
    var names := LegacyGetMetricsList(widgets, info.name);
    ghost var target := TypeReports(widgets, k, fetch);
    reports := [];
    for j := 0 to |names|
      invariant reports == target[..j]
    {
      var query := LegacyGetMetricQuery(names[j], c.stat);
      var count, errors := GetMetricsWithThreshold(fetch(query), c.threshold);
      assert target[j] == ReportOf(names[j], c, fetch);
      TakeSnoc(target, j);
      reports := reports + [QueryReport(query.id, count, errors)];
    }
    TakeAll(target);
  }

  /** `getAllMetricDetails`, returning what it prints, metric type by metric type. */
  method LegacyAllMetricDetails(widgets: seq<Widget>, fetch: MetricQuery -> MetricData) returns (reports: seq<QueryReport>)
    requires forall k :: 0 <= k < |LegacyMetricTypes| ==> LegacyReadable(widgets, LegacyMetricTypes[k].1.name)
    requires AlignedFetch(fetch)
    ensures reports == AllReports(widgets, |LegacyMetricTypes|, fetch)
  {
    reports := [];
    for k := 0 to |LegacyMetricTypes|
      invariant reports == AllReports(widgets, k, fetch)
    {
      var typeReports := ReportMetricType(widgets, k, fetch);
      reports := reports + typeReports;
    }
  }

  /** Every reported dictionary holds only values above its type's threshold. */
  lemma ReportsAboveThreshold(name: string, c: StatChoice, fetch: MetricQuery -> MetricData, t: string)
    requires AlignedFetch(fetch)
    requires Lookup(ReportOf(name, c, fetch).errors, t).Some?
    ensures Lookup(ReportOf(name, c, fetch).errors, t).value > c.threshold
  {
    var data := fetch(LegacyGetMetricQuery(name, c.stat));
    ErrorsDictValues(data.values, data.timestamps, c.threshold, |data.values|, t);
  }

}
