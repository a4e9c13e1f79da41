// The consolidation step of src/prod_monitoring/consolidator.py: per-region metrics
// summaries computed from the region's CSV tables, the screenshot listing, the
// consolidator object that accumulates regions per service, and the executive
// summary with its critical-issue rule.
//
// Reading files and directories is not modelled: a region arrives as the already
// listed directory entry with its parsed CSV tables and its screenshot file names.
// Python's float() is a parameter `ParseFloat: string -> Option<real>`.
module Consolidator {
  import opened Wrappers
  import opened Text
  import opened Numbers
  import opened PyDict
  import opened Sorting
  import Seqs

  /** A csv.DictReader row: column name to cell text. */
  type Row = map<string, string>

  /** The CSV tables of a region, by file name without ".csv". */
  type CsvData = Dict<string, seq<Row>>

  type FloatParser = string -> Option<real>

  datatype MetricsSummary = MetricsSummary(
    totalErrors: int,
    uniqueErrorPatterns: nat,
    metricsCollected: nat,
    highCpuCount: nat,
    highMemoryCount: nat,
    performanceIssues: nat)

  const ClassifiedErrors := "classified_errors"
  const OccurrenceColumn := "Occurrence Count"
  const ValueColumn := "value"
  /** A CPU or memory reading above this is high. */
  const HighUsage: real := 80.0
  const ErrorLimit := 100
  const CpuLimit := 10

  // ---------------------------------------------------------------------
  // _generate_metrics_summary

  /**
   * What a classified-error row adds to total_errors: the integer its
   * "Occurrence Count" cell parses to, and 0 when the cell is missing or
   * does not parse (the ValueError/TypeError is swallowed).
   */
  function OccurrenceCount(row: Row): int
  {
    if OccurrenceColumn !in row then 0
    else match ParseInt(row[OccurrenceColumn])
      case Some(n) => n
      case None => 0
  }

  function ErrorTotal(rows: seq<Row>): int
  {
    if rows == [] then 0 else OccurrenceCount(rows[0]) + ErrorTotal(rows[1..])
  }

  /**
   * `float(row.get("value", 0)) > 80`: a missing cell reads as 0, and a cell
   * float() rejects is skipped.
   */
  predicate HighValue(row: Row, parseFloat: FloatParser)
  {
    ValueColumn in row && match parseFloat(row[ValueColumn])
      case Some(v) => v > HighUsage
      case None => false
  }

  function HighRows(rows: seq<Row>, parseFloat: FloatParser): (n: nat)
    ensures n <= |rows|
  {
    if rows == [] then 0 else (if HighValue(rows[0], parseFloat) then 1 else 0) + HighRows(rows[1..], parseFloat)
  }

  /** The lowercased table name contains `word`. */
  predicate NamedFor(name: string, word: string)
  {
    Contains(Lower(name), word)
  }

  predicate PerformanceTable(name: string)
  {
    NamedFor(name, "latency") || NamedFor(name, "duration") || NamedFor(name, "response")
  }

  /** The high rows of all tables named for `word`. */
  function HighCount(csv: CsvData, word: string, parseFloat: FloatParser): nat
  {
    if csv == [] then 0
    else (if NamedFor(csv[0].0, word) then HighRows(csv[0].1, parseFloat) else 0) + HighCount(csv[1..], word, parseFloat)
  }

  /** The rows of all performance tables. */
  function PerformanceRows(csv: CsvData): nat
  {
    if csv == [] then 0
    else (if PerformanceTable(csv[0].0) then |csv[0].1| else 0) + PerformanceRows(csv[1..])
  }

  /** All rows of all tables. */
  function RowCount(csv: CsvData): nat
  {
    if csv == [] then 0 else |csv[0].1| + RowCount(csv[1..])
  }

  function SummaryOf(csv: CsvData, parseFloat: FloatParser): MetricsSummary
  {
    var classified := Lookup(csv, ClassifiedErrors);
    MetricsSummary(
      if classified.Some? then ErrorTotal(classified.value) else 0,
      if classified.Some? then |classified.value| else 0,
      |csv|,
      HighCount(csv, "cpu", parseFloat),
      HighCount(csv, "memory", parseFloat),
      PerformanceRows(csv))
  }

  /** The loop over the classified errors. */
  method SumOccurrences(rows: seq<Row>) returns (total: int)
    ensures total == ErrorTotal(rows)
  {
    total := 0;
    for i := 0 to |rows|
      invariant total == ErrorTotal(rows[..i])
    {
      ErrorTotalAppend(rows[..i], [rows[i]]);
      assert rows[..i + 1] == rows[..i] + [rows[i]];
      total := total + OccurrenceCount(rows[i]);
    }
    assert rows[..|rows|] == rows;
  }

  /** The loop over one CPU or memory table. */
  method CountHighValues(rows: seq<Row>, parseFloat: FloatParser) returns (n: nat)
    ensures n == HighRows(rows, parseFloat)
  {
    n := 0;
    for i := 0 to |rows|
      invariant n == HighRows(rows[..i], parseFloat)
    {
      HighRowsAppend(rows[..i], [rows[i]], parseFloat);
      assert rows[..i + 1] == rows[..i] + [rows[i]];
      if HighValue(rows[i], parseFloat) {
        n := n + 1;
      }
    }
    assert rows[..|rows|] == rows;
  }

  /** `_generate_metrics_summary` */
  method GenerateMetricsSummary(csv: CsvData, parseFloat: FloatParser) returns (summary: MetricsSummary)
    ensures summary == SummaryOf(csv, parseFloat)
  {
    var totalErrors := 0;
    var unique := 0;
    var classified := Lookup(csv, ClassifiedErrors);
    if classified.Some? {
      unique := |classified.value|;
      totalErrors := SumOccurrences(classified.value);
    }
    var cpu, memory, performance := 0, 0, 0;
    for t := 0 to |csv|
      invariant cpu == HighCount(csv[..t], "cpu", parseFloat)
      invariant memory == HighCount(csv[..t], "memory", parseFloat)
      invariant performance == PerformanceRows(csv[..t])
    {
      var (name, rows) := csv[t];
      assert csv[..t + 1] == csv[..t] + [csv[t]];
      HighCountAppend(csv[..t], [csv[t]], "cpu", parseFloat);
      HighCountAppend(csv[..t], [csv[t]], "memory", parseFloat);
      PerformanceRowsAppend(csv[..t], [csv[t]]);
      if NamedFor(name, "cpu") {
        var n := CountHighValues(rows, parseFloat);
        cpu := cpu + n;
      }
      if NamedFor(name, "memory") {
        var n := CountHighValues(rows, parseFloat);
        memory := memory + n;
      }
      if PerformanceTable(name) {
        performance := performance + |rows|;
      }
    }
    assert csv[..|csv|] == csv;
    summary := MetricsSummary(totalErrors, unique, |csv|, cpu, memory, performance);
  }

  lemma {:induction false} ErrorTotalAppend(a: seq<Row>, b: seq<Row>)
    ensures ErrorTotal(a + b) == ErrorTotal(a) + ErrorTotal(b)
  {
    if a == [] {
      assert a + b == b;
    } else {
      assert (a + b)[0] == a[0] && (a + b)[1..] == a[1..] + b;
      ErrorTotalAppend(a[1..], b);
    }
  }

  lemma {:induction false} HighRowsAppend(a: seq<Row>, b: seq<Row>, parseFloat: FloatParser)
    ensures HighRows(a + b, parseFloat) == HighRows(a, parseFloat) + HighRows(b, parseFloat)
  {
    if a == [] {
      assert a + b == b;
    } else {
      assert (a + b)[0] == a[0] && (a + b)[1..] == a[1..] + b;
      HighRowsAppend(a[1..], b, parseFloat);
    }
  }

  /** Tables contribute independently: the count over a concatenation is the sum of the counts. */
  lemma {:induction false} HighCountAppend(a: CsvData, b: CsvData, word: string, parseFloat: FloatParser)
    ensures HighCount(a + b, word, parseFloat) == HighCount(a, word, parseFloat) + HighCount(b, word, parseFloat)
  {
    if a == [] {
      assert a + b == b;
    } else {
      assert (a + b)[0] == a[0] && (a + b)[1..] == a[1..] + b;
      HighCountAppend(a[1..], b, word, parseFloat);
    }
  }

  lemma {:induction false} PerformanceRowsAppend(a: CsvData, b: CsvData)
    ensures PerformanceRows(a + b) == PerformanceRows(a) + PerformanceRows(b)
  {
    if a == [] {
      assert a + b == b;
    } else {
      assert (a + b)[0] == a[0] && (a + b)[1..] == a[1..] + b;
      PerformanceRowsAppend(a[1..], b);
    }
  }

  /**
   * unique_error_patterns is the number of classified_errors rows, and
   * total_errors sums their counts; both are 0 without that table.
   * metrics_collected is the number of tables.
   */
  lemma ErrorFields(csv: CsvData, parseFloat: FloatParser)
    requires DistinctKeys(csv)
    ensures var s := SummaryOf(csv, parseFloat);
      && s.metricsCollected == |csv|
      && (forall j :: 0 <= j < |csv| && csv[j].0 == ClassifiedErrors ==>
            s.uniqueErrorPatterns == |csv[j].1| && s.totalErrors == ErrorTotal(csv[j].1))
      && ((forall j :: 0 <= j < |csv| ==> csv[j].0 != ClassifiedErrors) ==>
            s.uniqueErrorPatterns == 0 && s.totalErrors == 0)
  {
    forall j | 0 <= j < |csv| && csv[j].0 == ClassifiedErrors
      ensures Lookup(csv, ClassifiedErrors) == Some(csv[j].1)
    {
      LookupOfDistinct(csv, j);
    }
  }

  /** Counts written as decimal integers add up to their sum. */
  lemma {:induction false} ErrorTotalOfCounts(rows: seq<Row>, counts: seq<int>)
    requires |rows| == |counts|
    requires forall i :: 0 <= i < |rows| ==> OccurrenceColumn in rows[i] && rows[i][OccurrenceColumn] == IntToString(counts[i])
    ensures ErrorTotal(rows) == Sum(counts)
  {
    if rows != [] {
      OccurrenceOfCount(rows[0], counts[0]);
      assert forall i :: 0 <= i < |rows| - 1 ==> rows[1..][i] == rows[i + 1] && counts[1..][i] == counts[i + 1];
      ErrorTotalOfCounts(rows[1..], counts[1..]);
    }
  }

  lemma OccurrenceOfCount(row: Row, n: int)
    requires OccurrenceColumn in row && row[OccurrenceColumn] == IntToString(n)
    ensures OccurrenceCount(row) == n
  {
    ParseIntToString(n);
  }

  function Sum(xs: seq<int>): int
  {
    if xs == [] then 0 else xs[0] + Sum(xs[1..])
  }

  /** A row whose count is missing or does not parse as an int changes nothing. */
  lemma UnparseableSkipped(rows: seq<Row>, i: nat)
    requires i < |rows|
    requires OccurrenceColumn !in rows[i] || ParseInt(rows[i][OccurrenceColumn]).None?
    ensures ErrorTotal(rows) == ErrorTotal(rows[..i] + rows[i + 1..])
  {
    assert rows == rows[..i] + ([rows[i]] + rows[i + 1..]);
    ErrorTotalAppend(rows[..i], [rows[i]] + rows[i + 1..]);
    ErrorTotalAppend(rows[..i], rows[i + 1..]);
    assert ([rows[i]] + rows[i + 1..])[1..] == rows[i + 1..];
  }

  /**
   * A table is judged separately for CPU, memory and performance: one whose
   * name mentions both "cpu" and "memory" adds its high rows to both counts.
   */
  lemma TableContribution(csv: CsvData, name: string, rows: seq<Row>, parseFloat: FloatParser)
    ensures var before, after := SummaryOf(csv, parseFloat), SummaryOf(csv + [(name, rows)], parseFloat);
      && after.highCpuCount == before.highCpuCount + (if NamedFor(name, "cpu") then HighRows(rows, parseFloat) else 0)
      && after.highMemoryCount == before.highMemoryCount + (if NamedFor(name, "memory") then HighRows(rows, parseFloat) else 0)
      && after.performanceIssues == before.performanceIssues + (if PerformanceTable(name) then |rows| else 0)
  {
    HighCountAppend(csv, [(name, rows)], "cpu", parseFloat);
    HighCountAppend(csv, [(name, rows)], "memory", parseFloat);
    PerformanceRowsAppend(csv, [(name, rows)]);
    assert [(name, rows)][1..] == [];
  }

  /** Each count is bounded by the rows of the tables it looks at. */
  lemma {:induction false} CountsBounded(csv: CsvData, parseFloat: FloatParser)
    ensures var s := SummaryOf(csv, parseFloat);
      s.highCpuCount <= RowCount(csv) && s.highMemoryCount <= RowCount(csv) && s.performanceIssues <= RowCount(csv)
  {
    if csv != [] {
      CountsBounded(csv[1..], parseFloat);
    }
  }

  // ---------------------------------------------------------------------
  // _list_screenshots

  function Self(s: string): string { s }

  predicate IsPng(name: string) { EndsWith(name, ".png") }

  function PngNames(files: seq<string>): (r: seq<string>)
    ensures forall x :: x in r <==> x in files && IsPng(x)
  {
    if files == [] then [] else (if IsPng(files[0]) then [files[0]] else []) + PngNames(files[1..])
  }

  /**
   * `_list_screenshots`: the ".png" entries of the directory listing, sorted;
   * no listing (the directory does not exist) gives none.
   */
  method ListScreenshots(listing: Option<seq<string>>) returns (r: seq<string>)
    ensures listing.None? ==> r == []
    ensures listing.Some? ==> multiset(r) == multiset(PngNames(listing.value))
    ensures forall x :: x in r <==> listing.Some? && x in listing.value && IsPng(x)
    ensures SortedAsc(r, Self)
    ensures r == Screenshots(listing)
  {
    if listing.None? {
      return [];
    }
    var files := listing.value;
    var screenshots := [];
    for i := 0 to |files|
      invariant screenshots == PngNames(files[..i])
    {
      PngNamesAppend(files[..i], [files[i]]);
      assert files[..i + 1] == files[..i] + [files[i]];
      if IsPng(files[i]) {
        screenshots := screenshots + [files[i]];
      }
    }
    assert files[..|files|] == files;
    r := SortAsc(screenshots, Self);
    forall x ensures x in r <==> x in screenshots {
      assert x in r <==> x in multiset(r);
    }
  }

  /** The sorted ".png" names, as the region data stores them. */
  function Screenshots(listing: Option<seq<string>>): seq<string>
  {
    if listing.None? then [] else SortAsc(PngNames(listing.value), Self)
  }

  lemma {:induction false} PngNamesAppend(a: seq<string>, b: seq<string>)
    ensures PngNames(a + b) == PngNames(a) + PngNames(b)
  {
    if a == [] {
      assert a + b == b;
    } else {
      assert (a + b)[0] == a[0] && (a + b)[1..] == a[1..] + b;
      PngNamesAppend(a[1..], b);
    }
  }

  // ---------------------------------------------------------------------
  // Collecting regions: _collect_service_data

  datatype RegionData = RegionData(csvData: CsvData, screenshots: seq<string>, summary: MetricsSummary)

  /**
   * One entry of the service directory: its name, whether it is a directory,
   * the parsed tables of its csv_data directory and the listing of its
   * screenshots directory (None when that directory does not exist).
   */
  datatype RegionEntry = RegionEntry(name: string, isDir: bool, csv: Option<CsvData>, screenshots: Option<seq<string>>)

  type Services = Dict<string, Dict<string, RegionData>>

  function RegionsOf(services: Services, service: string): Dict<string, RegionData>
  {
    match Lookup(services, service)
    case Some(regions) => regions
    case None => []
  }

  /** The data stored for a region directory; a missing csv_data directory gives no tables. */
  function RegionOf(e: RegionEntry, parseFloat: FloatParser): RegionData
  {
    var csv := if e.csv.Some? then e.csv.value else [];
    RegionData(csv, Screenshots(e.screenshots), SummaryOf(csv, parseFloat))
  }

  /** The region dictionary after storing every directory entry, in listing order. */
  function AddRegions(regions: Dict<string, RegionData>, entries: seq<RegionEntry>, parseFloat: FloatParser): Dict<string, RegionData>
    decreases |entries|
  {
    if entries == [] then regions
    else
      var e := entries[0];
      AddRegions(if e.isDir then Set(regions, e.name, RegionOf(e, parseFloat)) else regions, entries[1..], parseFloat)
  }

  class MonitoringConsolidator {
    /** `consolidated_data["services"]`: each SRA/SRM service with its regions. */
    var services: Services

    constructor()
      ensures services == []
    {
      services := [];
    }

    /** The body of the region loop: the region's tables, screenshots and summary. */
    static method CollectRegion(e: RegionEntry, parseFloat: FloatParser) returns (data: RegionData)
      ensures data == RegionOf(e, parseFloat)
    {
      var csv := if e.csv.Some? then e.csv.value else [];
      var shots := ListScreenshots(e.screenshots);
      var summary := GenerateMetricsSummary(csv, parseFloat);
      data := RegionData(csv, shots, summary);
    }

    /**
     * `_collect_service_data`: the service gets a region dictionary (empty
     * when the service is new) and every directory entry of its listing is
     * stored under its name; the other services are left alone.
     */
    method CollectServiceData(service: string, entries: seq<RegionEntry>, parseFloat: FloatParser)
      modifies this
      ensures services == Set(old(services), service, AddRegions(RegionsOf(old(services), service), entries, parseFloat))
    {
      var regions := RegionsOf(services, service);
      for i := 0 to |entries|
        invariant services == old(services)
        invariant AddRegions(regions, entries[i..], parseFloat) == AddRegions(RegionsOf(services, service), entries, parseFloat)
      {
        var e := entries[i];
        assert entries[i..][0] == e && entries[i..][1..] == entries[i + 1..];
        if e.isDir {
          var data := CollectRegion(e, parseFloat);
          regions := Set(regions, e.name, data);
        }
      }
      assert entries[|entries|..] == [];
      services := Set(services, service, regions);
    }

    /** `_write_executive_summary`, without the text output: the totals and the critical issues. */
    method ExecutiveSummary() returns (totalRegions: nat, totalErrors: int, totalUnique: nat, critical: seq<string>)
      ensures totalRegions == MonitoredRegions(services)
      ensures totalErrors == MonitoredErrors(services)
      ensures totalUnique == MonitoredPatterns(services)
      ensures critical == CriticalIssues(services)
    {
      totalRegions, totalErrors, totalUnique, critical := 0, 0, 0, [];
      for i := 0 to |services|
        invariant totalRegions == MonitoredRegions(services[..i])
        invariant totalErrors == MonitoredErrors(services[..i])
        invariant totalUnique == MonitoredPatterns(services[..i])
        invariant critical == CriticalIssues(services[..i])
      {
        var (name, regions) := services[i];
        ServicesAppend(services[..i], [services[i]]);
        assert services[..i + 1] == services[..i] + [services[i]];
        if Monitored(name) {
          totalRegions := totalRegions + |regions|;
          var errors, unique, issues := SummarizeRegions(name, regions);
          totalErrors := totalErrors + errors;
          totalUnique := totalUnique + unique;
          critical := critical + issues;
        }
      }
      assert services[..|services|] == services;
    }
  }

  /** An entry no later directory entry shadows is stored with its data. */
  lemma {:induction false} AddRegionsFound(regions: Dict<string, RegionData>, entries: seq<RegionEntry>, parseFloat: FloatParser, k: nat)
    requires k < |entries| && entries[k].isDir
    requires forall l :: k < l < |entries| && entries[l].isDir ==> entries[l].name != entries[k].name
    ensures Lookup(AddRegions(regions, entries, parseFloat), entries[k].name) == Some(RegionOf(entries[k], parseFloat))
    decreases |entries|
  {
    var e := entries[0];
    var next := if e.isDir then Set(regions, e.name, RegionOf(e, parseFloat)) else regions;
    var rest := entries[1..];
    assert forall l :: 0 <= l < |rest| ==> rest[l] == entries[l + 1];
    if k == 0 {
      SetShape(regions, e.name, RegionOf(e, parseFloat));
      AddRegionsOther(next, rest, parseFloat, e.name);
    } else {
      AddRegionsFound(next, rest, parseFloat, k - 1);
    }
  }

  /** A name that no directory entry carries keeps its earlier value. */
  lemma {:induction false} AddRegionsOther(regions: Dict<string, RegionData>, entries: seq<RegionEntry>, parseFloat: FloatParser, x: string)
    requires forall l :: 0 <= l < |entries| && entries[l].isDir ==> entries[l].name != x
    ensures Lookup(AddRegions(regions, entries, parseFloat), x) == Lookup(regions, x)
    decreases |entries|
  {
    if entries != [] {
      var e := entries[0];
      var next := if e.isDir then Set(regions, e.name, RegionOf(e, parseFloat)) else regions;
      if e.isDir {
        SetOther(regions, e.name, RegionOf(e, parseFloat), x);
      }
      assert forall l :: 0 <= l < |entries[1..]| ==> entries[1..][l] == entries[l + 1];
      AddRegionsOther(next, entries[1..], parseFloat, x);
    }
  }

  /** Collecting one service leaves every other service's regions as they were. */
  lemma CollectKeepsOthers(services: Services, service: string, regions: Dict<string, RegionData>, other: string)
    requires other != service
    ensures RegionsOf(Set(services, service, regions), other) == RegionsOf(services, other)
    ensures RegionsOf(Set(services, service, regions), service) == regions
  {
    SetOther(services, service, regions, other);
  }

  // ---------------------------------------------------------------------
  // _write_executive_summary

  /** Only SRA and SRM regions enter the executive summary. */
  predicate Monitored(service: string) { service == "SRA" || service == "SRM" }

  function ErrorIssue(service: string, region: string, n: int): string
  {
    service + "/" + region + ": " + IntToString(n) + " errors"
  }

  function CpuIssue(service: string, region: string): string
  {
    service + "/" + region + ": High CPU detected"
  }

  /** The critical issues of one region: too many errors, and separately high CPU. */
  function RegionIssues(service: string, region: string, s: MetricsSummary): seq<string>
  {
    (if s.totalErrors > ErrorLimit then [ErrorIssue(service, region, s.totalErrors)] else [])
    + (if s.highCpuCount > CpuLimit then [CpuIssue(service, region)] else [])
  }

  function RegionsIssues(service: string, regions: Dict<string, RegionData>): seq<string>
  {
    if regions == [] then []
    else RegionIssues(service, regions[0].0, regions[0].1.summary) + RegionsIssues(service, regions[1..])
  }

  function RegionsErrors(regions: Dict<string, RegionData>): int
  {
    if regions == [] then 0 else regions[0].1.summary.totalErrors + RegionsErrors(regions[1..])
  }

  function RegionsPatterns(regions: Dict<string, RegionData>): nat
  {
    if regions == [] then 0 else regions[0].1.summary.uniqueErrorPatterns + RegionsPatterns(regions[1..])
  }

  function MonitoredRegions(services: Services): nat
  {
    if services == [] then 0
    else (if Monitored(services[0].0) then |services[0].1| else 0) + MonitoredRegions(services[1..])
  }

  function MonitoredErrors(services: Services): int
  {
    if services == [] then 0
    else (if Monitored(services[0].0) then RegionsErrors(services[0].1) else 0) + MonitoredErrors(services[1..])
  }

  function MonitoredPatterns(services: Services): nat
  {
    if services == [] then 0
    else (if Monitored(services[0].0) then RegionsPatterns(services[0].1) else 0) + MonitoredPatterns(services[1..])
  }

  function CriticalIssues(services: Services): seq<string>
  {
    if services == [] then []
    else (if Monitored(services[0].0) then RegionsIssues(services[0].0, services[0].1) else []) + CriticalIssues(services[1..])
  }

  /** The region loop of one service. */
  method SummarizeRegions(service: string, regions: Dict<string, RegionData>) returns (errors: int, unique: nat, issues: seq<string>)
    ensures errors == RegionsErrors(regions)
    ensures unique == RegionsPatterns(regions)
    ensures issues == RegionsIssues(service, regions)
  {
    errors, unique, issues := 0, 0, [];
    for j := 0 to |regions|
      invariant errors == RegionsErrors(regions[..j])
      invariant unique == RegionsPatterns(regions[..j])
      invariant issues == RegionsIssues(service, regions[..j])
    {
      var (name, data) := regions[j];
      Seqs.TakeSnoc(regions, j);
      RegionsAppend(service, regions[..j], [regions[j]]);
      RegionsSingle(service, regions[j]);
      ghost var before := issues;
      errors := errors + data.summary.totalErrors;
      unique := unique + data.summary.uniqueErrorPatterns;
      if data.summary.totalErrors > ErrorLimit {
        issues := issues + [ErrorIssue(service, name, data.summary.totalErrors)];
      }
      if data.summary.highCpuCount > CpuLimit {
        issues := issues + [CpuIssue(service, name)];
      }
      assert issues == before + RegionIssues(service, name, data.summary);
    }
    Seqs.TakeAll(regions);
  }

  lemma RegionsSingle(service: string, r: (string, RegionData))
    ensures RegionsErrors([r]) == r.1.summary.totalErrors
    ensures RegionsPatterns([r]) == r.1.summary.uniqueErrorPatterns
    ensures RegionsIssues(service, [r]) == RegionIssues(service, r.0, r.1.summary)
  {
    assert [r][1..] == [];
  }

  lemma {:induction false} RegionsAppend(service: string, a: Dict<string, RegionData>, b: Dict<string, RegionData>)
    ensures RegionsErrors(a + b) == RegionsErrors(a) + RegionsErrors(b)
    ensures RegionsPatterns(a + b) == RegionsPatterns(a) + RegionsPatterns(b)
    ensures RegionsIssues(service, a + b) == RegionsIssues(service, a) + RegionsIssues(service, b)
  {
    if a == [] {
      assert a + b == b;
    } else {
      var tail := a[1..];
      assert (a + b)[0] == a[0] && (a + b)[1..] == tail + b;
      RegionsAppend(service, tail, b);
      var h := RegionIssues(service, a[0].0, a[0].1.summary);
      assert RegionsIssues(service, a + b) == h + RegionsIssues(service, tail + b);
      assert RegionsIssues(service, a) == h + RegionsIssues(service, tail);
      Seqs.AppendAssoc(h, RegionsIssues(service, tail), RegionsIssues(service, b));
    }
  }

  lemma {:induction false} ServicesAppend(a: Services, b: Services)
    ensures MonitoredRegions(a + b) == MonitoredRegions(a) + MonitoredRegions(b)
    ensures MonitoredErrors(a + b) == MonitoredErrors(a) + MonitoredErrors(b)
    ensures MonitoredPatterns(a + b) == MonitoredPatterns(a) + MonitoredPatterns(b)
    ensures CriticalIssues(a + b) == CriticalIssues(a) + CriticalIssues(b)
  {
    if a == [] {
      assert a + b == b;
    } else {
      assert (a + b)[0] == a[0] && (a + b)[1..] == a[1..] + b;
      ServicesAppend(a[1..], b);
    }
  }

  /** A region is reported once for more than 100 errors and once for a CPU count above 10. */
  lemma {:induction false} RegionFlagged(service: string, regions: Dict<string, RegionData>, j: nat)
    requires j < |regions|
    ensures var s := regions[j].1.summary;
      && (s.totalErrors > ErrorLimit ==> ErrorIssue(service, regions[j].0, s.totalErrors) in RegionsIssues(service, regions))
      && (s.highCpuCount > CpuLimit ==> CpuIssue(service, regions[j].0) in RegionsIssues(service, regions))
  {
    if j > 0 {
      RegionFlagged(service, regions[1..], j - 1);
    }
  }

  /** Every region of SRA and SRM past a limit appears among the critical issues. */
  lemma {:induction false} CriticalComplete(services: Services, i: nat, j: nat)
    requires i < |services| && Monitored(services[i].0) && j < |services[i].1|
    ensures var (service, regions) := services[i];
      var s := regions[j].1.summary;
      && (s.totalErrors > ErrorLimit ==> ErrorIssue(service, regions[j].0, s.totalErrors) in CriticalIssues(services))
      && (s.highCpuCount > CpuLimit ==> CpuIssue(service, regions[j].0) in CriticalIssues(services))
  {
    if i == 0 {
      RegionFlagged(services[0].0, services[0].1, j);
    } else {
      CriticalComplete(services[1..], i - 1, j);
    }
  }

  /** A region issue is one of the two messages, each only past its limit. */
  ghost predicate IssueFor(issue: string, service: string, region: string, s: MetricsSummary)
  {
    (s.totalErrors > ErrorLimit && issue == ErrorIssue(service, region, s.totalErrors))
    || (s.highCpuCount > CpuLimit && issue == CpuIssue(service, region))
  }

  lemma {:induction false} RegionsIssuesSound(service: string, regions: Dict<string, RegionData>, issue: string)
    requires issue in RegionsIssues(service, regions)
    ensures exists j :: 0 <= j < |regions| && IssueFor(issue, service, regions[j].0, regions[j].1.summary)
  {
    if issue in RegionIssues(service, regions[0].0, regions[0].1.summary) {
      assert IssueFor(issue, service, regions[0].0, regions[0].1.summary);
    } else {
      RegionsIssuesSound(service, regions[1..], issue);
      var j :| 0 <= j < |regions[1..]| && IssueFor(issue, service, regions[1..][j].0, regions[1..][j].1.summary);
      assert regions[1..][j] == regions[j + 1];
    }
  }

  /** Every critical issue comes from an SRA or SRM region past one of the limits; other services are ignored. */
  lemma {:induction false} CriticalSound(services: Services, issue: string)
    requires issue in CriticalIssues(services)
    ensures exists i, j :: (0 <= i < |services| && Monitored(services[i].0) && 0 <= j < |services[i].1|
      && IssueFor(issue, services[i].0, services[i].1[j].0, services[i].1[j].1.summary))
  {
    var head := if Monitored(services[0].0) then RegionsIssues(services[0].0, services[0].1) else [];
    if issue in head {
      RegionsIssuesSound(services[0].0, services[0].1, issue);
      var j :| 0 <= j < |services[0].1| && IssueFor(issue, services[0].0, services[0].1[j].0, services[0].1[j].1.summary);
      assert Monitored(services[0].0);
    } else {
      CriticalSound(services[1..], issue);
      var i, j :| 0 <= i < |services[1..]| && Monitored(services[1..][i].0) && 0 <= j < |services[1..][i].1|
        && IssueFor(issue, services[1..][i].0, services[1..][i].1[j].0, services[1..][i].1[j].1.summary);
      assert services[1..][i] == services[i + 1];
    }
  }

}
