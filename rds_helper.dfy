// The in-memory part of src/prod_monitoring/rds_helper.py: which instances
// `get_rds_instances` reports for an identifier or pattern, the MaxResults clamp of
// the Performance Insights queries, how `get_top_queries` totals, cuts and ranks the
// queries, the records `get_rds_database_errors` builds, and the threshold filter of
// `save_rds_metric_to_csv`. The AWS calls are parameters.
module RdsHelper {
  import opened Wrappers
  import opened Text
  import opened PyDict
  import opened Sorting
  import opened Seqs

  // ---------------------------------------------------------------------
  // get_rds_instances

  /** One entry of `DBInstances` in a describe_db_instances response; the optional fields may be absent. */
  datatype DbInstance = DbInstance(
    identifier: string, instanceClass: string, engine: string, engineVersion: string, arn: string,
    performanceInsightsEnabled: Option<bool>, resourceId: Option<string>)

  /** The dictionary `get_rds_instances` reports for an instance. */
  datatype InstanceInfo = InstanceInfo(
    identifier: string, instanceClass: string, engine: string, engineVersion: string, arn: string,
    performanceInsightsEnabled: bool, performanceInsightsResourceId: string)

  /**
   * `describe_db_instances()` (None) or `describe_db_instances(DBInstanceIdentifier=id)`:
   * the instances, or the text of the exception it raised.
   */
  type Describe = Option<string> -> Result<seq<DbInstance>, string>

  /** Identifiers shorter than this are treated as patterns. */
  const PatternLimit: nat := 30

  /** `db_instance_identifier and len(db_instance_identifier) < 30` */
  predicate IsPattern(identifier: Option<string>)
  {
    identifier.Some? && identifier.value != "" && |identifier.value| < PatternLimit
  }

  function HasIdentifier(id: string): DbInstance -> bool
  {
    (db: DbInstance) => db.identifier == id
  }

  function MatchesPattern(id: string): DbInstance -> bool
  {
    (db: DbInstance) => Contains(Lower(db.identifier), Lower(id))
  }

  /** The exact matches if there are any, else the case-insensitive substring matches. */
  function Chosen(all: seq<DbInstance>, id: string): seq<DbInstance>
  {
    var exact := Filter(all, HasIdentifier(id));
    if exact != [] then exact else Filter(all, MatchesPattern(id))
  }

  /** `target_instances`, or the exception that ends the search. */
  function TargetInstances(describe: Describe, identifier: Option<string>): Result<seq<DbInstance>, string>
  {
    if IsPattern(identifier) then
      match describe(None)
      case Failure(e) => Failure(e)
      case Success(all) => Success(Chosen(all, identifier.value))
    else if identifier.Some? && identifier.value != "" then describe(identifier)
    else describe(None)
  }

  /** The dictionary built for one instance, with the defaults of `.get`. */
  function Info(db: DbInstance): InstanceInfo
  {
    InstanceInfo(db.identifier, db.instanceClass, db.engine, db.engineVersion, db.arn,
                 match db.performanceInsightsEnabled case Some(b) => b case None => false,
                 match db.resourceId case Some(r) => r case None => "")
  }

  /** `get_rds_instances` as a value: any exception gives the empty list. */
  function RdsInstances(describe: Describe, identifier: Option<string>): seq<InstanceInfo>
  {
    match TargetInstances(describe, identifier)
    case Failure(_) => []
    case Success(targets) => seq(|targets|, i requires 0 <= i < |targets| => Info(targets[i]))
  }

  /** `get_rds_instances` */
  method GetRdsInstances(describe: Describe, identifier: Option<string>) returns (instances: seq<InstanceInfo>)
    ensures instances == RdsInstances(describe, identifier)
  {
    var targets := TargetInstances(describe, identifier);
    if targets.Failure? {
      return [];
    }
    var t := targets.value;
    instances := [];
    for i := 0 to |t|
      invariant |instances| == i
      invariant forall k :: 0 <= k < i ==> instances[k] == Info(t[k])
    {
      instances := instances + [Info(t[i])];
    }
  }

  /** A short identifier that some instance has exactly selects the instances with that identifier and no other. */
  lemma ExactMatchWins(all: seq<DbInstance>, id: string)
    requires exists k :: 0 <= k < |all| && all[k].identifier == id
    ensures forall db :: db in Chosen(all, id) <==> db in all && db.identifier == id
  {
    FilterMembers(all, HasIdentifier(id));
    var k :| 0 <= k < |all| && all[k].identifier == id;
    assert all[k] in Filter(all, HasIdentifier(id));
  }

  /** Without an exact match, the instances whose identifier contains the pattern, ignoring case, are selected. */
  lemma PatternMatchFallback(all: seq<DbInstance>, id: string)
    requires forall k :: 0 <= k < |all| ==> all[k].identifier != id
    ensures forall db :: db in Chosen(all, id) <==> db in all && Contains(Lower(db.identifier), Lower(id))
  {
    FilterNone(all, HasIdentifier(id));
    FilterMembers(all, MatchesPattern(id));
  }

  lemma ContainsSelf(s: string)
    ensures Contains(s, s)
  {
    assert OccursAt(s, 0, s);
  }

  /** Whichever rule applies, every selected instance contains the pattern, ignoring case, and comes from the listing. */
  lemma ChosenMatchPattern(all: seq<DbInstance>, id: string)
    ensures forall db :: db in Chosen(all, id) ==> db in all && Contains(Lower(db.identifier), Lower(id))
  {
    FilterMembers(all, HasIdentifier(id));
    FilterMembers(all, MatchesPattern(id));
    ContainsSelf(Lower(id));
  }

  /** A pattern is looked up in the full listing; a long identifier is passed to the API as it is. */
  lemma TargetsByIdentifier(describe: Describe, identifier: Option<string>)
    ensures IsPattern(identifier) && describe(None).Success?
            ==> TargetInstances(describe, identifier) == Success(Chosen(describe(None).value, identifier.value))
    ensures identifier.Some? && |identifier.value| >= PatternLimit ==> TargetInstances(describe, identifier) == describe(identifier)
    ensures (identifier.None? || identifier.value == "") ==> TargetInstances(describe, identifier) == describe(None)
  {
  }

  /** An API error gives no instances; otherwise every target is reported, in order, with the field defaults. */
  lemma InstancesReported(describe: Describe, identifier: Option<string>)
    ensures TargetInstances(describe, identifier).Failure? ==> RdsInstances(describe, identifier) == []
    ensures TargetInstances(describe, identifier).Success? ==>
              var t := TargetInstances(describe, identifier).value;
              && |RdsInstances(describe, identifier)| == |t|
              && forall k :: 0 <= k < |t| ==>
                   && RdsInstances(describe, identifier)[k].identifier == t[k].identifier
                   && (RdsInstances(describe, identifier)[k].performanceInsightsEnabled <==> t[k].performanceInsightsEnabled == Some(true))
  {
  }

  // ---------------------------------------------------------------------
  // The MaxResults clamp of get_top_queries and get_slow_queries

  /** `min(max(max_results, 1), 10)` */
  function ClampMaxResults(n: int): (r: int)
    ensures 1 <= r <= 10
  {
    var low := if n > 1 then n else 1;
    if low < 10 then low else 10
  }

  /** The clamp keeps a request in 1..10 as it is and moves any other to the nearer end. */
  lemma ClampCases(n: int)
    ensures 1 <= n <= 10 ==> ClampMaxResults(n) == n
    ensures n < 1 ==> ClampMaxResults(n) == 1
    ensures n > 10 ==> ClampMaxResults(n) == 10
  {
  }

  /** Clamping twice is clamping once. */
  lemma ClampIdempotent(n: int)
    ensures ClampMaxResults(ClampMaxResults(n)) == ClampMaxResults(n)
  {
  }

  // ---------------------------------------------------------------------
  // get_top_queries

  /** A value of a key's `Metrics`: `isinstance(v, (int, float))` holds for numbers and for booleans. */
  datatype MetricValue = Num(n: int) | Flag(b: bool) | NonNumeric

  /** One entry of `Keys` in a describe_dimension_keys response. */
  datatype DimensionKey = DimensionKey(dimensions: Option<Dict<string, string>>, metrics: Option<Dict<string, MetricValue>>)

  /** A query as `get_top_queries` reports it. */
  datatype Query = Query(query: string, totalLoad: int, dimensions: Dict<string, string>)

  /** `describe_dimension_keys(..., MaxResults=n)`: the keys, or the text of the exception. */
  type DescribeKeys = int -> Result<seq<DimensionKey>, string>

  /** Query text is cut to this many characters. */
  const QueryLimit: nat := 500

  predicate IsNumeric(v: MetricValue)
  {
    !v.NonNumeric?
  }

  /** The value `total_load += metric` adds: True counts 1 and False 0, as Python's bool is an int. */
  function NumericValue(v: MetricValue): int
  {
    match v
    case Num(n) => n
    case Flag(b) => if b then 1 else 0
    case NonNumeric => 0
  }

  /** The sum of the numeric values. */
  function LoadSum(values: seq<MetricValue>): int
    decreases |values|
  {
    if values == [] then 0
    else (if IsNumeric(values[0]) then NumericValue(values[0]) else 0) + LoadSum(values[1..])
  }

  lemma {:induction false} LoadSumAppend(a: seq<MetricValue>, b: seq<MetricValue>)
    ensures LoadSum(a + b) == LoadSum(a) + LoadSum(b)
    decreases |a|
  {
    if a == [] {
      assert a + b == b;
    } else {
      assert (a + b)[0] == a[0] && (a + b)[1..] == a[1..] + b;
      LoadSumAppend(a[1..], b);
    }
  }

  /** Values that are not numbers are skipped: the total is that of the numeric values alone. */
  lemma {:induction false} LoadSumNumericOnly(values: seq<MetricValue>)
    ensures LoadSum(values) == LoadSum(Filter(values, IsNumeric))
    decreases |values|
  {
    if values != [] {
      LoadSumNumericOnly(values[1..]);
      var head := if IsNumeric(values[0]) then [values[0]] else [];
      LoadSumAppend(head, Filter(values[1..], IsNumeric));
      if head != [] {
        assert head[1..] == [];
      }
    }
  }

  /** `key.get('Metrics', {}).values()` */
  function MetricValues(key: DimensionKey): seq<MetricValue>
  {
    match key.metrics
    case None => []
    case Some(m) => seq(|m|, i requires 0 <= i < |m| => m[i].1)
  }

  /** `key.get('Dimensions', {})` */
  function DimensionsOf(key: DimensionKey): Dict<string, string>
  {
    match key.dimensions case Some(d) => d case None => []
  }

  /** The dictionary appended for one key. */
  function QueryOf(key: DimensionKey): Query
  {
    var text := match Lookup(DimensionsOf(key), "db.sql.statement") case Some(s) => s case None => "N/A";
    Query(Take(text, QueryLimit), LoadSum(MetricValues(key)), DimensionsOf(key))
  }

  function QueryLoad(q: Query): int
  {
    q.totalLoad
  }

  /** The queries before sorting, in response order. */
  function QueriesOf(keys: seq<DimensionKey>): (qs: seq<Query>)
    ensures |qs| == |keys|
  {
    seq(|keys|, i requires 0 <= i < |keys| => QueryOf(keys[i]))
  }

  /** `get_top_queries` as a value: the queries by decreasing load, or the empty list on an exception. */
  function TopQueries(describe: DescribeKeys, maxResults: int): seq<Query>
  {
    match describe(ClampMaxResults(maxResults))
    case Failure(_) => []
    case Success(keys) => SortDesc(QueriesOf(keys), QueryLoad)
  }

  /** The `total_load` loop over one key's metric values. */
  method TotalLoad(values: seq<MetricValue>) returns (total: int)
    ensures total == LoadSum(values)
  {
    total := 0;
    for i := 0 to |values|
      invariant total == LoadSum(values[..i])
    {
      LoadSumAppend(values[..i], [values[i]]);
      assert values[..i + 1] == values[..i] + [values[i]];
      assert [values[i]][1..] == [];
      if IsNumeric(values[i]) {
        total := total + NumericValue(values[i]);
      }
    }
    assert values[..|values|] == values;
  }

  /** `get_top_queries` */
  method GetTopQueries(describe: DescribeKeys, maxResults: int) returns (r: seq<Query>)
    ensures r == TopQueries(describe, maxResults)
  {
    var limit := ClampMaxResults(maxResults);
    var response := describe(limit);
    if response.Failure? {
      return [];
    }
    var keys := response.value;
    var queries: seq<Query> := [];
    for i := 0 to |keys|
      invariant |queries| == i
      invariant forall k :: 0 <= k < i ==> queries[k] == QueryOf(keys[k])
    {
      var dimensions := DimensionsOf(keys[i]);
      var text := match Lookup(dimensions, "db.sql.statement") case Some(s) => s case None => "N/A";
      var total := TotalLoad(MetricValues(keys[i]));
      queries := queries + [Query(Take(text, QueryLimit), total, dimensions)];
    }
    assert queries == QueriesOf(keys);
    r := SortDesc(queries, QueryLoad);
  }

  /**
   * The ranking: every query of the response appears once, by non-increasing total
   * load, queries of equal load in response order, each text at most 500 characters.
   */
  lemma TopQueriesRanked(keys: seq<DimensionKey>)
    ensures var r := SortDesc(QueriesOf(keys), QueryLoad);
            && multiset(r) == multiset(QueriesOf(keys))
            && (forall i, j :: 0 <= i < j < |r| ==> r[i].totalLoad >= r[j].totalLoad)
            && (forall v :: WithKey(r, QueryLoad, v) == WithKey(QueriesOf(keys), QueryLoad, v))
            && (forall k :: 0 <= k < |r| ==> |r[k].query| <= QueryLimit)
  {
    var qs := QueriesOf(keys);
    var r := SortDesc(qs, QueryLoad);
    forall v
      ensures WithKey(r, QueryLoad, v) == WithKey(qs, QueryLoad, v)
    {
      SortDescStable(qs, QueryLoad, v);
    }
    forall k | 0 <= k < |r|
      ensures |r[k].query| <= QueryLimit
    {
      assert r[k] in multiset(qs);
      var j :| 0 <= j < |qs| && qs[j] == r[k];
    }
  }

  /** Each reported query carries the statement cut to 500 characters, or "N/A", and the numeric load of its key. */
  lemma QueryOfKey(key: DimensionKey)
    ensures QueryOf(key).totalLoad == LoadSum(Filter(MetricValues(key), IsNumeric))
    ensures Lookup(DimensionsOf(key), "db.sql.statement").None? ==> QueryOf(key).query == "N/A"
    ensures Lookup(DimensionsOf(key), "db.sql.statement").Some?
            ==> QueryOf(key).query == Take(Lookup(DimensionsOf(key), "db.sql.statement").value, QueryLimit)
  {
    LoadSumNumericOnly(MetricValues(key));
  }

  /** The API is always asked for between 1 and 10 keys, and an error gives no queries. */
  lemma TopQueriesRequest(describe: DescribeKeys, maxResults: int)
    ensures describe(ClampMaxResults(maxResults)).Failure? ==> TopQueries(describe, maxResults) == []
    ensures 1 <= ClampMaxResults(maxResults) <= 10
  {
  }

  // ---------------------------------------------------------------------
  // get_rds_database_errors and the threshold filter of save_rds_metric_to_csv

  /** A data point as `get_rds_metric_data` returns it. */
  datatype DataPoint = DataPoint(timestamp: string, value: real, unit: string)

  /** A record of `get_rds_database_errors`. */
  datatype ErrorRecord = ErrorRecord(metricName: string, timestamp: string, value: real, dbInstance: string)

  /** `get_rds_metric_data(..., metric_name, stat='Sum')`, which gives [] on any error. */
  type FetchMetric = string -> seq<DataPoint>

  const ErrorMetricNames: seq<string> :=
    ["DatabaseConnections", "FailedSQLServerAgentJobsCount", "DeadlocksPerSecond", "BlockedProcesses"]

  /** The records for one metric's points. */
  function PointRecords(name: string, points: seq<DataPoint>, id: string): (r: seq<ErrorRecord>)
    ensures |r| == |points|
  {
    seq(|points|, i requires 0 <= i < |points| => ErrorRecord(name, points[i].timestamp, points[i].value, id))
  }

  /** The records for the given metrics, metric after metric. */
  function ErrorRecords(names: seq<string>, fetch: FetchMetric, id: string): seq<ErrorRecord>
    decreases |names|
  {
    if names == [] then []
    else
      var n := |names| - 1;
      ErrorRecords(names[..n], fetch, id) + PointRecords(names[n], fetch(names[n]), id)
  }

  /** The number of points fetched for the given metrics. */
  function PointCount(names: seq<string>, fetch: FetchMetric): nat
    decreases |names|
  {
    if names == [] then 0 else PointCount(names[..|names| - 1], fetch) + |fetch(names[|names| - 1])|
  }

  /** `get_rds_database_errors` */
  method GetRdsDatabaseErrors(fetch: FetchMetric, id: string) returns (errorMetrics: seq<ErrorRecord>)
    ensures errorMetrics == ErrorRecords(ErrorMetricNames, fetch, id)
  {
    errorMetrics := [];
    var names := ErrorMetricNames;
    for m := 0 to |names|
      invariant errorMetrics == ErrorRecords(names[..m], fetch, id)
    {
      assert names[..m + 1][..m] == names[..m];
      var data := fetch(names[m]);
      ghost var before := errorMetrics;
      for j := 0 to |data|
        invariant errorMetrics == before + PointRecords(names[m], data[..j], id)
      {
        assert PointRecords(names[m], data[..j + 1], id) == PointRecords(names[m], data[..j], id) + [ErrorRecord(names[m], data[j].timestamp, data[j].value, id)];
        errorMetrics := errorMetrics + [ErrorRecord(names[m], data[j].timestamp, data[j].value, id)];
      }
      assert data[..|data|] == data;
    }
    assert names[..|names|] == names;
  }

  /** One record per fetched point, each tagged with its metric and the instance. */
  lemma {:induction false} ErrorRecordsTagged(names: seq<string>, fetch: FetchMetric, id: string)
    ensures |ErrorRecords(names, fetch, id)| == PointCount(names, fetch)
    ensures forall r :: r in ErrorRecords(names, fetch, id) ==> r.dbInstance == id && r.metricName in names
    decreases |names|
  {
    if names != [] {
      var n := |names| - 1;
      ErrorRecordsTagged(names[..n], fetch, id);
      forall r | r in ErrorRecords(names, fetch, id)
        ensures r.dbInstance == id && r.metricName in names
      {
        if r in ErrorRecords(names[..n], fetch, id) {
          assert r.metricName in names[..n];
        } else {
          assert r in PointRecords(names[n], fetch(names[n]), id);
        }
      }
    }
  }

  /** Every point fetched for a metric gives a record with its timestamp and value. */
  lemma {:induction false} ErrorRecordsComplete(names: seq<string>, fetch: FetchMetric, id: string, m: nat, j: nat)
    requires m < |names| && j < |fetch(names[m])|
    ensures ErrorRecord(names[m], fetch(names[m])[j].timestamp, fetch(names[m])[j].value, id) in ErrorRecords(names, fetch, id)
    decreases |names|
  {
    var n := |names| - 1;
    if m < n {
      assert names[..n][m] == names[m];
      ErrorRecordsComplete(names[..n], fetch, id, m, j);
    } else {
      assert PointRecords(names[n], fetch(names[n]), id)[j] in PointRecords(names[n], fetch(names[n]), id);
    }
  }

  function Above(threshold: real): DataPoint -> bool
  {
    (p: DataPoint) => p.value > threshold
  }

  /** `filtered_points` in `save_rds_metric_to_csv` */
  function FilteredPoints(points: seq<DataPoint>, threshold: Option<real>): seq<DataPoint>
  {
    if threshold.None? then points else Filter(points, Above(threshold.value))
  }

  /** With a threshold, exactly the points strictly above it are written; without one, all of them. */
  lemma ThresholdFilter(points: seq<DataPoint>, threshold: Option<real>)
    ensures threshold.None? ==> FilteredPoints(points, threshold) == points
    ensures threshold.Some? ==> forall p :: p in FilteredPoints(points, threshold) <==> p in points && p.value > threshold.value
    ensures |FilteredPoints(points, threshold)| <= |points|
  {
    if threshold.Some? {
      FilterMembers(points, Above(threshold.value));
    }
  }

  /** A threshold below every point keeps them all, in order. */
  lemma ThresholdBelowAll(points: seq<DataPoint>, t: real)
    requires forall k :: 0 <= k < |points| ==> points[k].value > t
    ensures FilteredPoints(points, Some(t)) == points
  {
    FilterAllKept(points, Above(t));
  }
}
