/**
  Repetition bands: the median and the range a metric showed over a run's repetitions, and what a
  move between two runs amounts to. Measurements are exact reals; rounding is not part of this model.
*/
module Repetition {
  import opened Wrappers
  import opened Lists

  const MIN_REPETITIONS_MEASURING_NOISE := 2

  datatype MetricDirection = HIGHER_IS_BETTER | LOWER_IS_BETTER | NEUTRAL

  datatype Movement = REGRESSION | IMPROVEMENT | VARIANCE | DRIFT | SHIFT

  datatype Span = Span(low: real, high: real)

  datatype MetricBand = MetricBand(metric: string, values: seq<Option<real>>, median: real, low: real, high: real)
  {
    function BandSpan(): Span { Span(low, high) }
  }

  datatype RepetitionSummary = RepetitionSummary(repetitions: nat, bands: seq<MetricBand>)
  {
    predicate MeasuresNoise() { repetitions >= MIN_REPETITIONS_MEASURING_NOISE }

    function Band(metric: string): Option<MetricBand> { FindBand(bands, metric) }
  }

  datatype MetricObservation = MetricObservation(value: Option<real>, span: Option<Span>)

  /** One repetition's metrics, in the order it reports them; the value is absent where unmeasured. */
  datatype Entry = Entry(metric: string, value: Option<real>)
  type Row = seq<Entry>

  function FindBand(bands: seq<MetricBand>, metric: string): Option<MetricBand> {
    if bands == [] then None
    else if bands[0].metric == metric then Some(bands[0])
    else FindBand(bands[1..], metric)
  }

  /** `run.get(metric)`. */
  function Lookup(row: Row, metric: string): Option<real> {
    if row == [] then None
    else if row[0].metric == metric then row[0].value
    else Lookup(row[1..], metric)
  }

  function Keys(row: Row): (r: seq<string>)
    ensures |r| == |row|
    ensures forall i :: 0 <= i < |row| ==> r[i] == row[i].metric
  {
    seq(|row|, i requires 0 <= i < |row| => row[i].metric)
  }

  function AllKeys(runs: seq<Row>): seq<string> {
    if runs == [] then [] else Keys(runs[0]) + AllKeys(runs[1..])
  }

  /** Every metric name any repetition reported, first-seen order. */
  function MetricNames(runs: seq<Row>): seq<string> {
    FirstSeen(AllKeys(runs))
  }

  // ---------- Order statistics ----------

  function InsertSorted(x: real, s: seq<real>): (r: seq<real>)
    ensures |r| == |s| + 1
  {
    if s == [] || x <= s[0] then [x] + s else [s[0]] + InsertSorted(x, s[1..])
  }

  function Sort(s: seq<real>): (r: seq<real>)
    ensures |r| == |s|
  {
    if s == [] then [] else InsertSorted(s[0], Sort(s[1..]))
  }

  /** `statistics.median`: the middle value, or the mean of the two middle ones. */
  function Median(s: seq<real>): real
    requires s != []
  {
    var sorted := Sort(s);
    var n := |s|;
    if n % 2 == 1 then sorted[n / 2] else (sorted[n / 2 - 1] + sorted[n / 2]) / 2.0
  }

  function Least(s: seq<real>): (m: real)
    requires s != []
    ensures m in s && forall x :: x in s ==> m <= x
  {
    if |s| == 1 then s[0]
    else
      assert forall x :: x in s ==> x == s[0] || x in s[1..];
      var m := Least(s[1..]);
      if s[0] <= m then s[0] else m
  }

  function Greatest(s: seq<real>): (m: real)
    requires s != []
    ensures m in s && forall x :: x in s ==> x <= m
  {
    if |s| == 1 then s[0]
    else
      assert forall x :: x in s ==> x == s[0] || x in s[1..];
      var m := Greatest(s[1..]);
      if s[0] >= m then s[0] else m
  }

  function Column(metric: string, runs: seq<Row>): (r: seq<Option<real>>)
    ensures |r| == |runs|
  {
    if runs == [] then [] else [Lookup(runs[0], metric)] + Column(metric, runs[1..])
  }

  function Measured(values: seq<Option<real>>): seq<real> {
    if values == [] then [] else (if values[0].Some? then [values[0].value] else []) + Measured(values[1..])
  }

  function BandOver(metric: string, values: seq<Option<real>>): Option<MetricBand> {
    var measured := Measured(values);
    if measured == [] then None
    else Some(MetricBand(metric, values, Median(measured), Least(measured), Greatest(measured)))
  }

  function BandOf(metric: string, runs: seq<Row>): Option<MetricBand> {
    BandOver(metric, Column(metric, runs))
  }

  function Bands(metrics: seq<string>, runs: seq<Row>): seq<MetricBand> {
    if metrics == [] then []
    else (match BandOf(metrics[0], runs) case Some(b) => [b] case None => []) + Bands(metrics[1..], runs)
  }

  /** Folds each repetition's metrics into one band per metric; no repetition at all is an error. */
  function Summarize(runs: seq<Row>): Option<RepetitionSummary> {
    if runs == [] then None else Some(RepetitionSummary(|runs|, Bands(MetricNames(runs), runs)))
  }

  ghost predicate WellFormed(s: RepetitionSummary) {
    && (forall i :: 0 <= i < |s.bands| ==> |s.bands[i].values| == s.repetitions)
    && Distinct(BandNames(s.bands))
  }

  function BandNames(bands: seq<MetricBand>): (r: seq<string>)
    ensures |r| == |bands|
    ensures forall i :: 0 <= i < |bands| ==> r[i] == bands[i].metric
  {
    seq(|bands|, i requires 0 <= i < |bands| => bands[i].metric)
  }

  function UnfoldRow(bands: seq<MetricBand>, index: nat): Row
    requires forall i :: 0 <= i < |bands| ==> index < |bands[i].values|
  {
    if bands == [] then [] else [Entry(bands[0].metric, bands[0].values[index])] + UnfoldRow(bands[1..], index)
  }

  /** Unfolds a summary back into the per-repetition metrics it was built from. */
  function RepetitionValues(s: RepetitionSummary): (r: seq<Row>)
    requires WellFormed(s)
    ensures |r| == s.repetitions
    ensures forall i :: 0 <= i < s.repetitions ==> r[i] == UnfoldRow(s.bands, i)
  {
    seq(s.repetitions, i requires 0 <= i < s.repetitions => UnfoldRow(s.bands, i))
  }

  // ---------- Movements ----------

  function SpanOf(o: MetricObservation): Span
    requires o.value.Some?
  {
    if o.span.Some? then o.span.value else Span(o.value.value, o.value.value)
  }

  predicate Overlap(first: Span, second: Span, allowance: real) {
    first.low - allowance <= second.high && second.low - allowance <= first.high
  }

  /** What the move from `base` to `run` is, against the noise both measured. */
  function ClassifyMovement(base: MetricObservation, run: MetricObservation,
                            direction: MetricDirection, allowance: real): Option<Movement>
  {
    if base.value.None? || run.value.None? then None
    else if Overlap(SpanOf(base), SpanOf(run), 0.0) then Some(VARIANCE)
    else if Overlap(SpanOf(base), SpanOf(run), allowance) then Some(DRIFT)
    else if direction == NEUTRAL then Some(SHIFT)
    else
      var improved := if direction == HIGHER_IS_BETTER then run.value.value > base.value.value
                      else run.value.value < base.value.value;
      Some(if improved then IMPROVEMENT else REGRESSION)
  }

  // ---------- Medians lie in their bands ----------

  lemma {:induction false} InsertKeeps(x: real, s: seq<real>)
    ensures forall y :: y in InsertSorted(x, s) <==> y == x || y in s
  {
    if s != [] && x > s[0] {
      InsertKeeps(x, s[1..]);
      assert forall y :: y in s <==> y == s[0] || y in s[1..];
    }
  }

  lemma {:induction false} SortKeeps(s: seq<real>)
    ensures forall y :: y in Sort(s) <==> y in s
  {
    if s != [] {
      SortKeeps(s[1..]);
      InsertKeeps(s[0], Sort(s[1..]));
      assert forall y :: y in s <==> y == s[0] || y in s[1..];
    }
  }

  lemma MedianIsInRange(s: seq<real>)
    requires s != []
    ensures Least(s) <= Median(s) <= Greatest(s)
  {
    SortKeeps(s);
    var sorted, n := Sort(s), |s|;
    assert sorted[n / 2] in sorted;
    if n % 2 == 0 { assert sorted[n / 2 - 1] in sorted; }
  }

  ghost predicate Sorted(s: seq<real>) {
    forall i, j :: 0 <= i < j < |s| ==> s[i] <= s[j]
  }

  lemma {:induction false} InsertIsSorted(x: real, s: seq<real>)
    requires Sorted(s)
    ensures Sorted(InsertSorted(x, s))
  {
    if s != [] && x > s[0] {
      InsertIsSorted(x, s[1..]);
      InsertKeeps(x, s[1..]);
      var rest := InsertSorted(x, s[1..]);
      forall j | 0 <= j < |rest| ensures s[0] <= rest[j] {
        assert rest[j] in rest;
      }
    }
  }

  lemma {:induction false} SortIsSorted(s: seq<real>)
    ensures Sorted(Sort(s))
  {
    if s != [] {
      SortIsSorted(s[1..]);
      InsertIsSorted(s[0], Sort(s[1..]));
    }
  }

  function AtMost(s: seq<real>, m: real): nat {
    if s == [] then 0 else (if s[0] <= m then 1 else 0) + AtMost(s[1..], m)
  }

  function AtLeast(s: seq<real>, m: real): nat {
    if s == [] then 0 else (if s[0] >= m then 1 else 0) + AtLeast(s[1..], m)
  }

  lemma {:induction false} InsertCounts(x: real, s: seq<real>, m: real)
    ensures AtMost(InsertSorted(x, s), m) == AtMost([x], m) + AtMost(s, m)
    ensures AtLeast(InsertSorted(x, s), m) == AtLeast([x], m) + AtLeast(s, m)
  {
    if s == [] || x <= s[0] {
      assert ([x] + s)[1..] == s && [x][1..] == [];
    } else {
      InsertCounts(x, s[1..], m);
      assert ([s[0]] + InsertSorted(x, s[1..]))[1..] == InsertSorted(x, s[1..]);
    }
  }

  lemma {:induction false} SortCounts(s: seq<real>, m: real)
    ensures AtMost(Sort(s), m) == AtMost(s, m) && AtLeast(Sort(s), m) == AtLeast(s, m)
  {
    if s != [] {
      SortCounts(s[1..], m);
      InsertCounts(s[0], Sort(s[1..]), m);
      assert [s[0]][1..] == [];
    }
  }

  lemma {:induction false} LowEnd(s: seq<real>, k: nat, m: real)
    requires k <= |s| && forall i :: 0 <= i < k ==> s[i] <= m
    ensures AtMost(s, m) >= k
  {
    if k > 0 { LowEnd(s[1..], k - 1, m); }
  }

  lemma {:induction false} HighEnd(s: seq<real>, k: nat, m: real)
    requires k <= |s| && forall i :: k <= i < |s| ==> s[i] >= m
    ensures AtLeast(s, m) >= |s| - k
  {
    if s != [] { HighEnd(s[1..], if k > 0 then k - 1 else 0, m); }
  }

  lemma MiddleSplits(sorted: seq<real>, m: real)
    requires sorted != [] && Sorted(sorted)
    requires var n := |sorted|;
      m == if n % 2 == 1 then sorted[n / 2] else (sorted[n / 2 - 1] + sorted[n / 2]) / 2.0
    ensures 2 * AtMost(sorted, m) >= |sorted| && 2 * AtLeast(sorted, m) >= |sorted|
  {
    var n := |sorted|;
    var k := if n % 2 == 1 then n / 2 + 1 else n / 2;
    forall i | 0 <= i < k ensures sorted[i] <= m {
      assert sorted[i] <= sorted[k - 1];
    }
    forall i | n / 2 <= i < n ensures sorted[i] >= m {
      assert sorted[n / 2] <= sorted[i];
    }
    LowEnd(sorted, k, m);
    HighEnd(sorted, n / 2, m);
  }

  /** At least half of the measurements are not above the median, and at least half not below it. */
  lemma MedianSplits(s: seq<real>)
    requires s != []
    ensures 2 * AtMost(s, Median(s)) >= |s| && 2 * AtLeast(s, Median(s)) >= |s|
  {
    SortIsSorted(s);
    SortCounts(s, Median(s));
    MiddleSplits(Sort(s), Median(s));
  }

  /** The measurement with `k` of them not above it, as they would stand in order. */
  ghost predicate IsKth(s: seq<real>, k: nat, x: real) {
    x in s && AtMost(s, x) > k && AtLeast(s, x) >= |s| - k
  }

  lemma SortedKth(s: seq<real>, k: nat)
    requires k < |s|
    ensures IsKth(s, k, Sort(s)[k])
  {
    SortKeeps(s);
    SortIsSorted(s);
    SortCounts(s, Sort(s)[k]);
    assert Sort(s)[k] in Sort(s);
    KthOfSorted(Sort(s), k);
  }

  lemma KthOfSorted(sorted: seq<real>, k: nat)
    requires Sorted(sorted) && k < |sorted|
    ensures AtMost(sorted, sorted[k]) > k && AtLeast(sorted, sorted[k]) >= |sorted| - k
  {
    LowEnd(sorted, k + 1, sorted[k]);
    HighEnd(sorted, k, sorted[k]);
  }

  lemma {:induction false} CountsCover(s: seq<real>, x: real, y: real)
    requires x < y
    ensures AtMost(s, x) + AtLeast(s, y) <= |s|
  {
    if s != [] { CountsCover(s[1..], x, y); }
  }

  lemma KthIsUnique(s: seq<real>, k: nat, x: real, y: real)
    requires IsKth(s, k, x) && IsKth(s, k, y)
    ensures x == y
  {
    if x < y { CountsCover(s, x, y); }
    if y < x { CountsCover(s, y, x); }
  }

  /** The median is the middle measurement of an odd number, and half-way between the two middle ones of an even one. */
  lemma MedianIsMiddle(s: seq<real>, x: real, y: real)
    requires s != []
    requires if |s| % 2 == 1 then IsKth(s, |s| / 2, x) && x == y else IsKth(s, |s| / 2 - 1, x) && IsKth(s, |s| / 2, y)
    ensures 2.0 * Median(s) == x + y
  {
    SortedKth(s, |s| / 2);
    KthIsUnique(s, |s| / 2, Sort(s)[|s| / 2], y);
    if |s| % 2 == 0 {
      SortedKth(s, |s| / 2 - 1);
      KthIsUnique(s, |s| / 2 - 1, Sort(s)[|s| / 2 - 1], x);
    }
  }

  // ---------- The loops ----------

  lemma {:induction false} AllKeysAppend(runs: seq<Row>, last: Row)
    ensures AllKeys(runs + [last]) == AllKeys(runs) + Keys(last)
  {
    if runs == [] {
      assert [] + [last] == [last] && [last][1..] == [];
    } else {
      assert (runs + [last])[0] == runs[0] && (runs + [last])[1..] == runs[1..] + [last];
      AllKeysAppend(runs[1..], last);
      AppendAssociates(Keys(runs[0]), AllKeys(runs[1..]), Keys(last));
    }
  }

  /** `names[metric] = None` over one run's metrics: the dictionary's keys, in first-seen order. */
  method NameRunMetrics(run: Row, names0: seq<string>, ghost before: seq<string>) returns (names: seq<string>)
    requires names0 == FirstSeen(before)
    ensures names == FirstSeen(before + Keys(run))
  {
    names := names0;
    ghost var keys := Keys(run);
    ghost var seen := before;
    assert seen == before + keys[..0];
    for n := 0 to |run|
      invariant seen == before + keys[..n] && names == FirstSeen(seen)
    {
      TakeOneMore(before, keys, n);
      FirstSeenStep(seen, run[n].metric);
      if run[n].metric !in names {
        names := names + [run[n].metric];
      }
      seen := seen + [run[n].metric];
    }
    assert keys[..|run|] == keys;
  }

  method CollectMetricNames(runs: seq<Row>) returns (names: seq<string>)
    ensures names == MetricNames(runs)
  {
    names := [];
    for n := 0 to |runs|
      invariant names == FirstSeen(AllKeys(runs[..n]))
    {
      assert runs[..n + 1] == runs[..n] + [runs[n]];
      AllKeysAppend(runs[..n], runs[n]);
      names := NameRunMetrics(runs[n], names, AllKeys(runs[..n]));
    }
    assert runs[..|runs|] == runs;
  }

  // ---------- Unfolding a summary inverts it ----------

  lemma {:induction false} UnfoldKeys(bands: seq<MetricBand>, index: nat)
    requires forall i :: 0 <= i < |bands| ==> index < |bands[i].values|
    ensures Keys(UnfoldRow(bands, index)) == BandNames(bands)
  {
    if bands != [] {
      UnfoldKeys(bands[1..], index);
      assert Keys(UnfoldRow(bands, index)) == [bands[0].metric] + Keys(UnfoldRow(bands[1..], index));
      assert BandNames(bands) == [bands[0].metric] + BandNames(bands[1..]);
    }
  }

  lemma {:induction false} UnfoldLookup(bands: seq<MetricBand>, index: nat, k: nat)
    requires forall i :: 0 <= i < |bands| ==> index < |bands[i].values|
    requires k < |bands| && Distinct(BandNames(bands))
    ensures Lookup(UnfoldRow(bands, index), bands[k].metric) == bands[k].values[index]
  {
    if k > 0 {
      assert BandNames(bands)[0] != BandNames(bands)[k];
      assert BandNames(bands)[1..] == BandNames(bands[1..]);
      DistinctTail(BandNames(bands));
      UnfoldLookup(bands[1..], index, k - 1);
    }
  }

  lemma {:induction false} ColumnAt(metric: string, runs: seq<Row>, i: nat)
    requires i < |runs|
    ensures Column(metric, runs)[i] == Lookup(runs[i], metric)
  {
    if i > 0 { ColumnAt(metric, runs[1..], i - 1); }
  }

  lemma {:induction false} SameKeysEverywhere(rows: seq<Row>, keys: seq<string>)
    requires forall i :: 0 <= i < |rows| ==> Keys(rows[i]) == keys
    ensures forall x :: x in AllKeys(rows) ==> x in keys
  {
    if rows != [] { SameKeysEverywhere(rows[1..], keys); }
  }

  lemma SameKeysNames(rows: seq<Row>, keys: seq<string>)
    requires rows != [] && Distinct(keys) && forall i :: 0 <= i < |rows| ==> Keys(rows[i]) == keys
    ensures MetricNames(rows) == keys
  {
    SameKeysEverywhere(rows[1..], keys);
    FirstSeenAbsorbs(keys, AllKeys(rows[1..]));
    FirstSeenKeepsDistinct(keys);
  }

  lemma {:induction false} BandsAreBands(metrics: seq<string>, runs: seq<Row>)
    requires Distinct(metrics)
    ensures forall b :: b in Bands(metrics, runs) ==> b.metric in metrics && BandOf(b.metric, runs) == Some(b)
    ensures Distinct(BandNames(Bands(metrics, runs)))
  {
    if metrics != [] {
      BandsAreBands(metrics[1..], runs);
      var rest := Bands(metrics[1..], runs);
      var all := Bands(metrics, runs);
      forall i, j | 0 <= i < j < |all| ensures BandNames(all)[i] != BandNames(all)[j] {
        if |all| == |rest| {
          assert all == rest;
        } else {
          assert all[j] in rest && all[j].metric in metrics[1..];
          if i > 0 { assert BandNames(rest)[i - 1] != BandNames(rest)[j - 1]; }
        }
      }
    }
  }

  lemma SummaryIsWellFormed(runs: seq<Row>)
    requires runs != []
    ensures WellFormed(Summarize(runs).value)
    ensures forall b :: b in Summarize(runs).value.bands ==> BandOf(b.metric, runs) == Some(b)
  {
    FirstSeenIsDistinct(AllKeys(runs));
    BandsAreBands(MetricNames(runs), runs);
    var bands := Summarize(runs).value.bands;
    assert forall i :: 0 <= i < |bands| ==> bands[i] in bands;
  }

  lemma {:induction false} BandsRebuilt(bands: seq<MetricBand>, rows: seq<Row>)
    requires forall i :: 0 <= i < |bands| ==> BandOf(bands[i].metric, rows) == Some(bands[i])
    ensures Bands(BandNames(bands), rows) == bands
  {
    if bands != [] {
      assert BandNames(bands)[1..] == BandNames(bands[1..]);
      BandsRebuilt(bands[1..], rows);
    }
  }

  lemma RebuiltBand(runs: seq<Row>, k: nat)
    requires runs != [] && k < |Summarize(runs).value.bands| && WellFormed(Summarize(runs).value)
    ensures var s := Summarize(runs).value;
      BandOf(s.bands[k].metric, RepetitionValues(s)) == Some(s.bands[k])
  {
    var s := Summarize(runs).value;
    SummaryIsWellFormed(runs);
    assert s.bands[k] in s.bands;
    RebuiltColumn(s, k);
  }

  lemma RebuiltNames(s: RepetitionSummary)
    requires WellFormed(s) && s.repetitions > 0
    ensures MetricNames(RepetitionValues(s)) == BandNames(s.bands)
  {
    var rows := RepetitionValues(s);
    forall i | 0 <= i < |rows| ensures Keys(rows[i]) == BandNames(s.bands) { UnfoldKeys(s.bands, i); }
    SameKeysNames(rows, BandNames(s.bands));
  }

  /** Summarizing what a summary unfolds into gives the same summary. */
  lemma UnfoldThenSummarize(runs: seq<Row>)
    requires runs != []
    ensures WellFormed(Summarize(runs).value)
    ensures Summarize(RepetitionValues(Summarize(runs).value)) == Summarize(runs)
  {
    SummaryIsWellFormed(runs);
    var s := Summarize(runs).value;
    RebuiltNames(s);
    forall k | 0 <= k < |s.bands| ensures BandOf(s.bands[k].metric, RepetitionValues(s)) == Some(s.bands[k]) {
      RebuiltBand(runs, k);
    }
    BandsRebuilt(s.bands, RepetitionValues(s));
  }

  lemma RebuiltColumn(s: RepetitionSummary, k: nat)
    requires WellFormed(s) && k < |s.bands|
    ensures Column(s.bands[k].metric, RepetitionValues(s)) == s.bands[k].values
  {
    var rows := RepetitionValues(s);
    forall i | 0 <= i < s.repetitions ensures Column(s.bands[k].metric, rows)[i] == s.bands[k].values[i] {
      ColumnAt(s.bands[k].metric, rows, i);
      UnfoldLookup(s.bands, i, k);
    }
  }

  // ---------- Pooling runs gives the hull of their ranges ----------

  lemma {:induction false} ColumnConcat(metric: string, a: seq<Row>, b: seq<Row>)
    ensures Column(metric, a + b) == Column(metric, a) + Column(metric, b)
  {
    if a == [] {
      assert a + b == b;
    } else {
      assert (a + b)[1..] == a[1..] + b;
      ColumnConcat(metric, a[1..], b);
    }
  }

  lemma MeasuredStep(a: seq<Option<real>>)
    requires a != []
    ensures Measured(a) == (if a[0].Some? then [a[0].value] else []) + Measured(a[1..])
  {
  }

  lemma {:induction false} MeasuredConcat(a: seq<Option<real>>, b: seq<Option<real>>)
    ensures Measured(a + b) == Measured(a) + Measured(b)
  {
    if a == [] {
      assert a + b == b;
    } else {
      assert (a + b)[0] == a[0] && (a + b)[1..] == a[1..] + b;
      MeasuredStep(a + b);
      MeasuredStep(a);
      MeasuredConcat(a[1..], b);
      AppendAssociates(if a[0].Some? then [a[0].value] else [], Measured(a[1..]), Measured(b));
    }
  }

  function Pool(runs: seq<seq<Row>>): seq<Row> {
    if runs == [] then [] else runs[0] + Pool(runs[1..])
  }

  lemma {:induction false} PoolAppend(runs: seq<seq<Row>>, last: seq<Row>)
    ensures Pool(runs + [last]) == Pool(runs) + last
  {
    if runs == [] {
      assert [] + [last] == [last] && [last][1..] == [];
    } else {
      assert (runs + [last])[0] == runs[0] && (runs + [last])[1..] == runs[1..] + [last];
      PoolAppend(runs[1..], last);
      AppendAssociates(runs[0], Pool(runs[1..]), last);
    }
  }

  ghost predicate IsHull(band: MetricBand, metric: string, runs: seq<seq<Row>>) {
    && (forall i :: 0 <= i < |runs| && BandOf(metric, runs[i]).Some? ==>
      band.low <= BandOf(metric, runs[i]).value.low && BandOf(metric, runs[i]).value.high <= band.high)
    && (exists i :: 0 <= i < |runs| && BandOf(metric, runs[i]).Some? && BandOf(metric, runs[i]).value.low == band.low)
    && (exists i :: 0 <= i < |runs| && BandOf(metric, runs[i]).Some? && BandOf(metric, runs[i]).value.high == band.high)
  }

  lemma {:induction false} PoolMeasured(metric: string, runs: seq<seq<Row>>, x: real)
    ensures x in Measured(Column(metric, Pool(runs))) <==>
      exists i :: 0 <= i < |runs| && x in Measured(Column(metric, runs[i]))
  {
    if runs != [] {
      ColumnConcat(metric, runs[0], Pool(runs[1..]));
      MeasuredConcat(Column(metric, runs[0]), Column(metric, Pool(runs[1..])));
      PoolMeasured(metric, runs[1..], x);
      if exists i :: 0 <= i < |runs[1..]| && x in Measured(Column(metric, runs[1..][i])) {
        var i :| 0 <= i < |runs[1..]| && x in Measured(Column(metric, runs[1..][i]));
        assert x in Measured(Column(metric, runs[i + 1]));
      }
    }
  }

  /** A metric is banded over the pooled runs exactly when some run bands it, by the hull of their ranges. */
  lemma PooledBandIsHull(metric: string, runs: seq<seq<Row>>)
    ensures BandOf(metric, Pool(runs)).Some? <==> exists i :: 0 <= i < |runs| && BandOf(metric, runs[i]).Some?
    ensures BandOf(metric, Pool(runs)).Some? ==> IsHull(BandOf(metric, Pool(runs)).value, metric, runs)
  {
    var pooled := Measured(Column(metric, Pool(runs)));
    forall i | 0 <= i < |runs| && BandOf(metric, runs[i]).Some?
      ensures BandOf(metric, runs[i]).value.low in pooled && BandOf(metric, runs[i]).value.high in pooled
    {
      PoolMeasured(metric, runs, BandOf(metric, runs[i]).value.low);
      PoolMeasured(metric, runs, BandOf(metric, runs[i]).value.high);
    }
    if pooled != [] {
      PoolMeasured(metric, runs, Least(pooled));
      PoolMeasured(metric, runs, Greatest(pooled));
      var i :| 0 <= i < |runs| && Least(pooled) in Measured(Column(metric, runs[i]));
      var j :| 0 <= j < |runs| && Greatest(pooled) in Measured(Column(metric, runs[j]));
      assert BandOf(metric, runs[i]).value.low == Least(pooled);
      assert BandOf(metric, runs[j]).value.high == Greatest(pooled);
    }
  }

  // ---------- Laws of the classification ----------

  /** An observation whose published value lies in its own range. */
  ghost predicate Centred(o: MetricObservation) {
    o.value.Some? && o.span.Some? ==> o.span.value.low <= o.value.value <= o.span.value.high
  }

  /** The range an observation was read over: its own, or the single point of its value. */
  ghost predicate ReadOver(o: MetricObservation, low: real, high: real) {
    && o.value.Some? && low <= o.value.value <= high
    && (if o.span.Some? then o.span.value.low == low && o.span.value.high == high else low == high)
  }

  /**
    What a move is, from the two ranges alone. Ranges that meet vary; a gap the allowance covers
    drifts; past it a neutral metric shifts, and another one improved exactly when the whole range of
    the run lies on the better side of the baseline's: above it if more is better, below it if less is.
  */
  lemma MovementIs(base: MetricObservation, run: MetricObservation, direction: MetricDirection, allowance: real,
                   baseLow: real, baseHigh: real, runLow: real, runHigh: real)
    requires ReadOver(base, baseLow, baseHigh) && ReadOver(run, runLow, runHigh) && allowance >= 0.0
    ensures var m := ClassifyMovement(base, run, direction, allowance);
      && m.Some?
      && (m.value == VARIANCE <==> baseLow <= runHigh && runLow <= baseHigh)
      && (m.value == DRIFT <==> 0.0 < runLow - baseHigh <= allowance || 0.0 < baseLow - runHigh <= allowance)
      && (m.value == SHIFT <==> direction == NEUTRAL && (runLow - baseHigh > allowance || baseLow - runHigh > allowance))
      && (m.value == IMPROVEMENT <==>
            (direction == HIGHER_IS_BETTER && runLow - baseHigh > allowance) ||
            (direction == LOWER_IS_BETTER && baseLow - runHigh > allowance))
      && (m.value == REGRESSION <==>
            (direction == HIGHER_IS_BETTER && baseLow - runHigh > allowance) ||
            (direction == LOWER_IS_BETTER && runLow - baseHigh > allowance))
  {
  }

  /** A metric one side did not measure has not moved. */
  lemma UnmeasuredHasNotMoved(base: MetricObservation, run: MetricObservation, direction: MetricDirection, allowance: real)
    ensures ClassifyMovement(base, run, direction, allowance).Some? <==> base.value.Some? && run.value.Some?
  {
  }

  function Mirrored(m: Option<Movement>): Option<Movement> {
    match m
    case Some(REGRESSION) => Some(IMPROVEMENT)
    case Some(IMPROVEMENT) => Some(REGRESSION)
    case _ => m
  }

  /** Swapping the sides of a comparison exchanges regression and improvement and nothing else. */
  lemma SwapMirrors(base: MetricObservation, run: MetricObservation, direction: MetricDirection, allowance: real)
    requires Centred(base) && Centred(run)
    ensures ClassifyMovement(run, base, direction, allowance) ==
            Mirrored(ClassifyMovement(base, run, direction, allowance))
  {
  }

  /** A wider allowance can only turn a result into drift. */
  lemma AllowanceOnlyAddsDrift(base: MetricObservation, run: MetricObservation, direction: MetricDirection,
                               narrow: real, wide: real)
    requires 0.0 <= narrow <= wide
    ensures var before := ClassifyMovement(base, run, direction, narrow);
      var after := ClassifyMovement(base, run, direction, wide);
      after == before || (after == Some(DRIFT) && before in {Some(REGRESSION), Some(IMPROVEMENT), Some(SHIFT)})
  {
  }
}
