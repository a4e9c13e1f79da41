// The counting and ranking of classified errors: the row loop shared by
// `classify_and_save_errors` (src/prod_monitoring/csv_helper.py) and
// `classify_error_logs` (src/prod_monitoring/classify_errors.py), the rows of
// classified_errors.csv they write, and the statistics the older one returns.
module ErrorTally {
  import opened Wrappers
  import opened Sorting
  import opened Signature
  import opened LegacySignature

  /** One row of error_logs.csv; a missing column reads as "". */
  datatype LogRow = LogRow(timestamp: string, message: string)

  /** One row of classified_errors.csv. */
  datatype ClassifiedError = ClassifiedError(signature: string, count: nat, location: string, sample: string)

  /**
   * What the row loop gathers: the signatures in the order the Counter first saw them,
   * their counts, the first message and the last location seen for each.
   */
  datatype Tally = Tally(order: seq<string>, counts: map<string, nat>, samples: map<string, string>, locations: map<string, string>)

  /** No signature is listed twice. */
  ghost predicate Distinct(xs: seq<string>)
  {
    forall a, b :: 0 <= a < b < |xs| ==> xs[a] != xs[b]
  }

  lemma AppendFresh(xs: seq<string>, g: string)
    requires Distinct(xs) && g !in xs
    ensures Distinct(xs + [g])
  {
    var ys := xs + [g];
    forall a, b | 0 <= a < b < |ys| ensures ys[a] != ys[b] {
      assert ys[a] == xs[a];
      if b < |xs| {
        assert ys[b] == xs[b];
      } else {
        assert xs[a] in xs;
      }
    }
  }

  /** The loop's bookkeeping is consistent: one entry per signature in every map, counts positive. */
  ghost predicate ValidTally(t: Tally)
  {
    && Distinct(t.order)
    && (forall g :: g in t.counts <==> g in t.order)
    && t.samples.Keys == t.counts.Keys && t.locations.Keys == t.counts.Keys
    && (forall g :: g in t.counts ==> t.counts[g] > 0)
  }

  /** The row is classified at all (`if not log_message: continue` skips only the empty string). */
  predicate Classified(row: LogRow) { row.message != "" }

  /** The row is classified and gets signature g. */
  predicate HasSignature(row: LogRow, extract: string -> ErrorSignature, g: string)
  {
    Classified(row) && extract(row.message).signature == g
  }

  /** One pass of the loop body. */
  function Step(t: Tally, row: LogRow, extract: string -> ErrorSignature): Tally
  {
    if !Classified(row) then t
    else
      var r := extract(row.message);
      var g := r.signature;
      Tally(if g in t.counts then t.order else t.order + [g],
            t.counts[g := (if g in t.counts then t.counts[g] else 0) + 1],
            if g in t.samples then t.samples else t.samples[g := row.message],
            t.locations[g := r.location])
  }

  /** The state after the loop has read `rows`. */
  function TallyOf(rows: seq<LogRow>, extract: string -> ErrorSignature): Tally
    decreases |rows|
  {
    if |rows| == 0 then Tally([], map[], map[], map[])
    else Step(TallyOf(rows[..|rows| - 1], extract), rows[|rows| - 1], extract)
  }

  /**
   * The row loop. Besides the tally it counts every row read, as `total_errors`
   * of `classify_error_logs` does (the newer classifier keeps no such count).
   */
  method TallyRows(rows: seq<LogRow>, extract: string -> ErrorSignature) returns (t: Tally, total: nat)
    ensures t == TallyOf(rows, extract) && total == |rows|
  {
    var order: seq<string> := [];
    var counts: map<string, nat> := map[];
    var samples: map<string, string> := map[];
    var locations: map<string, string> := map[];
    total := 0;
    var i := 0;
    while i < |rows|
      invariant 0 <= i <= |rows| && total == i
      invariant Tally(order, counts, samples, locations) == TallyOf(rows[..i], extract)
    {
      assert rows[..i + 1][..i] == rows[..i];
      total := total + 1;
      var message := rows[i].message;
      if message != "" {
        var r := extract(message);
        var g := r.signature;
        if g !in counts {
          order := order + [g];
          counts := counts[g := 1];
        } else {
          counts := counts[g := counts[g] + 1];
        }
        if g !in samples {
          samples := samples[g := message];
        }
        locations := locations[g := r.location];
      }
      i := i + 1;
    }
    assert rows[..i] == rows;
    t := Tally(order, counts, samples, locations);
  }

  // ---------------------------------------------------------------------
  // What the tally means, stated over the rows

  /** The number of classified rows with signature g. */
  function CountIn(rows: seq<LogRow>, extract: string -> ErrorSignature, g: string): nat
    decreases |rows|
  {
    if |rows| == 0 then 0
    else CountIn(rows[..|rows| - 1], extract, g) + (if HasSignature(rows[|rows| - 1], extract, g) then 1 else 0)
  }

  /** The number of classified rows. */
  function ClassifiedCount(rows: seq<LogRow>): nat
    decreases |rows|
  {
    if |rows| == 0 then 0
    else ClassifiedCount(rows[..|rows| - 1]) + (if Classified(rows[|rows| - 1]) then 1 else 0)
  }

  /** k is the first row with signature g. */
  ghost predicate FirstRowOf(rows: seq<LogRow>, extract: string -> ErrorSignature, g: string, k: nat)
  {
    k < |rows| && HasSignature(rows[k], extract, g) && forall j :: 0 <= j < k ==> !HasSignature(rows[j], extract, g)
  }

  /** k is the last row with signature g. */
  ghost predicate LastRowOf(rows: seq<LogRow>, extract: string -> ErrorSignature, g: string, k: nat)
  {
    k < |rows| && HasSignature(rows[k], extract, g) && forall j :: k < j < |rows| ==> !HasSignature(rows[j], extract, g)
  }

  /** The sum of the counts of the signatures in `order`. */
  function SumCounts(order: seq<string>, counts: map<string, nat>): nat
    requires forall g :: g in order ==> g in counts
    decreases |order|
  {
    if |order| == 0 then 0 else SumCounts(order[..|order| - 1], counts) + counts[order[|order| - 1]]
  }

  lemma {:induction false} SumCountsIgnores(order: seq<string>, counts: map<string, nat>, g: string, n: nat)
    requires forall h :: h in order ==> h in counts
    requires g !in order
    ensures SumCounts(order, counts[g := n]) == SumCounts(order, counts)
    decreases |order|
  {
    if |order| > 0 {
      SumCountsIgnores(order[..|order| - 1], counts, g, n);
    }
  }

  lemma {:induction false} SumCountsBump(order: seq<string>, counts: map<string, nat>, g: string)
    requires forall h :: h in order ==> h in counts
    requires Distinct(order)
    requires g in order
    ensures SumCounts(order, counts[g := counts[g] + 1]) == SumCounts(order, counts) + 1
    decreases |order|
  {
    var init := order[..|order| - 1];
    if order[|order| - 1] == g {
      assert g !in init by {
        forall a | 0 <= a < |init| ensures init[a] != g { assert order[a] != order[|order| - 1]; }
      }
      SumCountsIgnores(init, counts, g, counts[g] + 1);
    } else {
      SumCountsBump(init, counts, g);
    }
  }

  /** One pass of the loop keeps the bookkeeping consistent and adds one to the total of a classified row. */
  lemma StepValid(t: Tally, row: LogRow, extract: string -> ErrorSignature)
    requires ValidTally(t)
    ensures ValidTally(Step(t, row, extract))
    ensures SumCounts(Step(t, row, extract).order, Step(t, row, extract).counts)
            == SumCounts(t.order, t.counts) + (if Classified(row) then 1 else 0)
  {
    if Classified(row) {
      var r := extract(row.message);
      if r.signature in t.counts {
        StepSeen(t, r.signature, r.location);
      } else {
        StepNew(t, r.signature, row.message, r.location);
      }
    }
  }

  lemma StepSeen(t: Tally, g: string, location: string)
    requires ValidTally(t) && g in t.counts
    ensures var t' := Tally(t.order, t.counts[g := t.counts[g] + 1], t.samples, t.locations[g := location]);
            ValidTally(t') && SumCounts(t'.order, t'.counts) == SumCounts(t.order, t.counts) + 1
  {
    SumCountsBump(t.order, t.counts, g);
  }

  lemma StepNew(t: Tally, g: string, message: string, location: string)
    requires ValidTally(t) && g !in t.counts
    ensures var t' := Tally(t.order + [g], t.counts[g := 1], t.samples[g := message], t.locations[g := location]);
            ValidTally(t') && SumCounts(t'.order, t'.counts) == SumCounts(t.order, t.counts) + 1
  {
    StepNewValid(t, g, message, location);
    StepNewSum(t, g);
  }

  lemma StepNewValid(t: Tally, g: string, message: string, location: string)
    requires ValidTally(t) && g !in t.counts
    ensures ValidTally(Tally(t.order + [g], t.counts[g := 1], t.samples[g := message], t.locations[g := location]))
  {
    AppendFresh(t.order, g);
    assert t.samples[g := message].Keys == t.samples.Keys + {g};
    assert t.locations[g := location].Keys == t.locations.Keys + {g};
    assert t.counts[g := 1].Keys == t.counts.Keys + {g};
  }

  lemma StepNewSum(t: Tally, g: string)
    requires ValidTally(t) && g !in t.counts
    ensures forall h :: h in t.order + [g] ==> h in t.counts[g := 1]
    ensures SumCounts(t.order + [g], t.counts[g := 1]) == SumCounts(t.order, t.counts) + 1
  {
    var order := t.order + [g];
    assert order[..|order| - 1] == t.order;
    SumCountsIgnores(t.order, t.counts, g, 1);
  }

  /** The tally is consistent, and its counts add up to the number of classified rows. */
  lemma {:induction false} TallyValid(rows: seq<LogRow>, extract: string -> ErrorSignature)
    ensures ValidTally(TallyOf(rows, extract))
    ensures SumCounts(TallyOf(rows, extract).order, TallyOf(rows, extract).counts) == ClassifiedCount(rows)
    decreases |rows|
  {
    if |rows| == 0 {
      EmptyTallyValid();
    } else {
      var init := rows[..|rows| - 1];
      TallyValid(init, extract);
      StepValid(TallyOf(init, extract), rows[|rows| - 1], extract);
    }
  }

  lemma EmptyTallyValid()
    ensures ValidTally(Tally([], map[], map[], map[]))
  {
  }

  /** A signature's count is its number of classified rows; empty-message rows count nowhere. */
  lemma {:induction false} TallyCounts(rows: seq<LogRow>, extract: string -> ErrorSignature, g: string)
    ensures var t := TallyOf(rows, extract);
            && (g in t.counts <==> CountIn(rows, extract, g) > 0)
            && (g in t.counts ==> t.counts[g] == CountIn(rows, extract, g))
    decreases |rows|
  {
    if |rows| > 0 {
      TallyCounts(rows[..|rows| - 1], extract, g);
    }
  }

  /** The sample stored for a signature is the message of its first row, and is never replaced. */
  lemma {:induction false} TallySamples(rows: seq<LogRow>, extract: string -> ErrorSignature, g: string)
    ensures var t := TallyOf(rows, extract);
            && (g in t.samples ==> exists k: nat :: FirstRowOf(rows, extract, g, k) && t.samples[g] == rows[k].message)
            && (g !in t.samples ==> forall j :: 0 <= j < |rows| ==> !HasSignature(rows[j], extract, g))
    decreases |rows|
  {
    if |rows| > 0 {
      var init := rows[..|rows| - 1];
      TallySamples(init, extract, g);
      var t := TallyOf(init, extract);
      if g in t.samples {
        var k: nat :| FirstRowOf(init, extract, g, k) && t.samples[g] == init[k].message;
        assert FirstRowOf(rows, extract, g, k);
      } else if HasSignature(rows[|rows| - 1], extract, g) {
        assert FirstRowOf(rows, extract, g, |rows| - 1);
      }
    }
  }

  /** The location kept for a signature is that of its last row. */
  lemma {:induction false} TallyLocations(rows: seq<LogRow>, extract: string -> ErrorSignature, g: string)
    ensures var t := TallyOf(rows, extract);
            g in t.locations ==> exists k: nat :: LastRowOf(rows, extract, g, k) && t.locations[g] == extract(rows[k].message).location
    decreases |rows|
  {
    if |rows| > 0 {
      var init := rows[..|rows| - 1];
      var last := |rows| - 1;
      if HasSignature(rows[last], extract, g) {
        assert LastRowOf(rows, extract, g, last);
      } else {
        TallyLocations(init, extract, g);
        var t := TallyOf(init, extract);
        if g in t.locations {
          var k: nat :| LastRowOf(init, extract, g, k) && t.locations[g] == extract(init[k].message).location;
          assert LastRowOf(rows, extract, g, k);
        }
      }
    }
  }

  /** A signature already in the tally of all rows but the last has its first row among them. */
  lemma FirstRowInInit(rows: seq<LogRow>, extract: string -> ErrorSignature, g: string, k: nat)
    requires |rows| > 0 && FirstRowOf(rows, extract, g, k)
    requires g in TallyOf(rows[..|rows| - 1], extract).samples
    ensures FirstRowOf(rows[..|rows| - 1], extract, g, k)
  {
    var init := rows[..|rows| - 1];
    TallySamples(init, extract, g);
    var k': nat :| FirstRowOf(init, extract, g, k');
    assert FirstRowOf(rows, extract, g, k');
    assert k' == k by {
      assert !(k' < k) && !(k < k') by {
        assert HasSignature(rows[k'], extract, g) && HasSignature(rows[k], extract, g);
      }
    }
  }

  /** Signatures are listed in the order of their first rows. */
  lemma {:induction false} TallyOrder(rows: seq<LogRow>, extract: string -> ErrorSignature, a: nat, b: nat, ka: nat, kb: nat)
    requires var t := TallyOf(rows, extract);
             a < b < |t.order| && FirstRowOf(rows, extract, t.order[a], ka) && FirstRowOf(rows, extract, t.order[b], kb)
    ensures ka < kb
    decreases |rows|
  {
    var init := rows[..|rows| - 1];
    var t, t' := TallyOf(init, extract), TallyOf(rows, extract);
    TallyValid(init, extract);
    if b < |t.order| {
      assert t'.order[a] == t.order[a] && t'.order[b] == t.order[b];
      assert t.order[a] in t.samples && t.order[b] in t.samples;
      FirstRowInInit(rows, extract, t.order[a], ka);
      FirstRowInInit(rows, extract, t.order[b], kb);
      TallyOrder(init, extract, a, b, ka, kb);
    } else {
      NewAtLast(rows, extract, t'.order[b], kb);
      assert ka != |rows| - 1 by {
        assert t'.order[a] != t'.order[b];
      }
    }
  }

  /** A signature that enters the tally with the last row has its first row there. */
  lemma NewAtLast(rows: seq<LogRow>, extract: string -> ErrorSignature, g: string, k: nat)
    requires |rows| > 0 && FirstRowOf(rows, extract, g, k)
    requires var t := TallyOf(rows[..|rows| - 1], extract); ValidTally(t) && g !in t.order
    ensures k == |rows| - 1
    ensures HasSignature(rows[|rows| - 1], extract, g)
  {
    var init := rows[..|rows| - 1];
    TallySamples(init, extract, g);
    assert HasSignature(rows[k], extract, g);
  }

  // ---------------------------------------------------------------------
  // classified_errors.csv

  /** The rows of the table before sorting, in the Counter's order. */
  function Entries(t: Tally): (es: seq<ClassifiedError>)
    requires ValidTally(t)
    ensures |es| == |t.order|
    ensures forall k :: 0 <= k < |es| ==> es[k] == ClassifiedError(t.order[k], t.counts[t.order[k]], t.locations[t.order[k]], t.samples[t.order[k]])
  {
    seq(|t.order|, k requires 0 <= k < |t.order| => var g := t.order[k]; ClassifiedError(g, t.counts[g], t.locations[g], t.samples[g]))
  }

  function EntryCount(e: ClassifiedError): int { e.count }

  /** `sorted(error_signatures.items(), key=lambda x: x[1], reverse=True)`, written out row by row. */
  function Ranked(t: Tally): (table: seq<ClassifiedError>)
    requires ValidTally(t)
    ensures multiset(table) == multiset(Entries(t))
    ensures SortedDesc(table, EntryCount)
  {
    SortDesc(Entries(t), EntryCount)
  }

  /** Ties keep the Counter's first-seen order. */
  lemma RankedTies(t: Tally, n: int)
    requires ValidTally(t)
    ensures WithKey(Ranked(t), EntryCount, n) == WithKey(Entries(t), EntryCount, n)
  {
    SortDescStable(Entries(t), EntryCount, n);
  }

  /** `classify_and_save_errors`: the rows of classified_errors.csv. */
  method ClassifyAndSaveErrors(rows: seq<LogRow>) returns (table: seq<ClassifiedError>)
    ensures ValidTally(TallyOf(rows, ExtractErrorSignature))
    ensures table == Ranked(TallyOf(rows, ExtractErrorSignature))
  {
    var t, _ := TallyRows(rows, ExtractErrorSignature);
    TallyValid(rows, ExtractErrorSignature);
    table := Ranked(t);
  }

  // ---------------------------------------------------------------------
  // classify_error_logs

  /** The statistics `classify_error_logs` returns. */
  datatype Stats = Stats(totalErrors: nat, uniquePatterns: nat, topErrors: seq<(string, nat)>)

  /** What `classify_error_logs` produces: the statistics and the table it writes. */
  datatype Classification = Classification(stats: Stats, table: seq<ClassifiedError>)

  /**
   * `classify_error_logs`: `None` stands for the missing input file, for which the
   * function writes nothing and returns `{}`.
   */
  method ClassifyErrorLogs(file: Option<seq<LogRow>>) returns (r: Option<Classification>)
    ensures file.None? <==> r.None?
    ensures file.Some? ==>
              var t := TallyOf(file.value, LegacyExtractErrorSignature);
              && ValidTally(t)
              && r.value.table == Ranked(t)
              && r.value.stats.totalErrors == |file.value|
              && r.value.stats.uniquePatterns == |t.order|
              && r.value.stats.topErrors == TopErrors(r.value.table)
  {
    if file.None? {
      return None;
    }
    var t, total := TallyRows(file.value, LegacyExtractErrorSignature);
    TallyValid(file.value, LegacyExtractErrorSignature);
    var table := Ranked(t);
    r := Some(Classification(Stats(total, |t.counts|, TopErrors(table)), table));
    assert |t.counts| == |t.order| by { DistinctCard(t.order, t.counts); }
  }

  /** `sorted_errors[:10]` as (signature, count) pairs. */
  function TopErrors(table: seq<ClassifiedError>): (top: seq<(string, nat)>)
    ensures |top| == if |table| < 10 then |table| else 10
    ensures forall k :: 0 <= k < |top| ==> top[k] == (table[k].signature, table[k].count)
  {
    var n := if |table| < 10 then |table| else 10;
    seq(n, k requires 0 <= k < n => (table[k].signature, table[k].count))
  }

  /** Distinct signatures listed once each: the map has as many keys as the list has entries. */
  lemma {:induction false} DistinctCard(order: seq<string>, counts: map<string, nat>)
    requires Distinct(order)
    requires forall g :: g in counts <==> g in order
    ensures |counts| == |order|
    decreases |order|
  {
    if |order| == 0 {
      assert counts.Keys == {};
    } else {
      var last := order[|order| - 1];
      var init := order[..|order| - 1];
      assert last !in init by {
        forall a | 0 <= a < |init| ensures init[a] != last { assert order[a] != order[|order| - 1]; }
      }
      var rest := counts - {last};
      assert forall g :: g in rest <==> g in init;
      DistinctCard(init, rest);
      assert counts.Keys == rest.Keys + {last};
    }
  }

}
