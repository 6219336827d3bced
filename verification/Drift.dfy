/**
  Between-session drift: the allowance an archive of runs measures for a metric, and the comparison
  that uses it.
*/
module Drift {
  import opened Wrappers
  import opened Lists
  import opened Repetition

  const MIN_SESSIONS_MEASURING_DRIFT := 2

  /** One archived run: its fingerprint, what it published, and the bands of its repetitions. */
  datatype Artifact = Artifact(name: string, fingerprint: string, values: Row, repetitions: Option<RepetitionSummary>)

  /** One archived run as drift reads it. */
  datatype RunObservation = RunObservation(run: string, fingerprint: string, values: Row, spans: map<string, Span>)

  datatype DriftBand = DriftBand(
    metric: string, betweenSessions: real, withinSession: Option<real>, fingerprint: string, runs: seq<string>)

  datatype DriftRecord = DriftRecord(runs: seq<string>, bands: seq<DriftBand>)
  {
    function Band(metric: string): Option<DriftBand> { FindDrift(bands, metric) }

    /** How far a metric may move between sessions before the move is a result. */
    function Allowance(metric: string): real {
      match Band(metric) case Some(b) => b.betweenSessions case None => 0.0
    }
  }

  function FindDrift(bands: seq<DriftBand>, metric: string): Option<DriftBand> {
    if bands == [] then None
    else if bands[0].metric == metric then Some(bands[0])
    else FindDrift(bands[1..], metric)
  }

  // ---------- Reading a run ----------

  /** The run's bands, none when it ran too few repetitions to band. */
  function MeasuredBands(repetitions: Option<RepetitionSummary>): seq<MetricBand> {
    if repetitions.Some? && repetitions.value.MeasuresNoise() then repetitions.value.bands else []
  }

  /** `{**values, metric: value}`: the entry overwritten where it stands, or added at the end. */
  function Put(row: Row, metric: string, value: Option<real>): Row {
    if row == [] then [Entry(metric, value)]
    else if row[0].metric == metric then [Entry(metric, value)] + row[1..]
    else [row[0]] + Put(row[1..], metric, value)
  }

  function PutMedians(row: Row, bands: seq<MetricBand>): Row
    decreases |bands|
  {
    if bands == [] then row else PutMedians(Put(row, bands[0].metric, Some(bands[0].median)), bands[1..])
  }

  function Spans(bands: seq<MetricBand>): map<string, Span> {
    if bands == [] then map[] else Spans(bands[..|bands| - 1])[bands[|bands| - 1].metric := bands[|bands| - 1].BandSpan()]
  }

  /** Folds a run's published values and its repetition bands into one observation. */
  function ObserveRun(a: Artifact): RunObservation {
    var bands := MeasuredBands(a.repetitions);
    RunObservation(a.name, a.fingerprint, PutMedians(a.values, bands), Spans(bands))
  }

  /** One side of a comparison: the band's median and span, else the bare value. */
  function ObservationFor(metric: string, a: Artifact): MetricObservation {
    match (if a.repetitions.Some? then a.repetitions.value.Band(metric) else None)
    case None => MetricObservation(Lookup(a.values, metric), None)
    case Some(band) =>
      MetricObservation(Some(band.median), if a.repetitions.value.MeasuresNoise() then Some(band.BandSpan()) else None)
  }

  // ---------- Measuring drift ----------

  function SameFingerprint(observations: seq<RunObservation>, fingerprint: string): seq<RunObservation> {
    if observations == [] then []
    else
      var init, last := observations[..|observations| - 1], observations[|observations| - 1];
      SameFingerprint(init, fingerprint) + (if last.fingerprint == fingerprint then [last] else [])
  }

  function Fingerprints(observations: seq<RunObservation>): (r: seq<string>)
    ensures |r| == |observations|
    ensures forall i :: 0 <= i < |observations| ==> r[i] == observations[i].fingerprint
  {
    seq(|observations|, i requires 0 <= i < |observations| => observations[i].fingerprint)
  }

  function GroupsOf(fingerprints: seq<string>, observations: seq<RunObservation>): seq<seq<RunObservation>> {
    if fingerprints == [] then []
    else
      var group := SameFingerprint(observations, fingerprints[0]);
      (if |group| >= MIN_SESSIONS_MEASURING_DRIFT then [group] else []) + GroupsOf(fingerprints[1..], observations)
  }

  /** The runs that share a fingerprint, keeping only groups that span sessions. */
  function GroupByFingerprint(observations: seq<RunObservation>): seq<seq<RunObservation>> {
    GroupsOf(FirstSeen(Fingerprints(observations)), observations)
  }

  function Max3(a: real, b: real, c: real): real {
    var m := if a >= b then a else b;
    if m >= c then m else c
  }

  /** How far apart two ranges lie, zero when they overlap at all. */
  function Gap(first: Span, second: Span): real {
    Max3(0.0, first.low - second.high, second.low - first.high)
  }

  /** The range a run is read at: its band, or the zero-width range of its single value. */
  function RangeOf(o: RunObservation, metric: string): Option<Span> {
    match Lookup(o.values, metric)
    case None => None
    case Some(v) => Some(if metric in o.spans then o.spans[metric] else Span(v, v))
  }

  function Ranges(metric: string, group: seq<RunObservation>): seq<Span> {
    if group == [] then []
    else (match RangeOf(group[0], metric) case Some(s) => [s] case None => []) + Ranges(metric, group[1..])
  }

  function GapsFrom(first: Span, ranges: seq<Span>): (r: seq<real>)
    ensures |r| == |ranges|
    ensures forall i :: 0 <= i < |ranges| ==> r[i] == Gap(first, ranges[i])
  {
    seq(|ranges|, i requires 0 <= i < |ranges| => Gap(first, ranges[i]))
  }

  function AllGaps(firsts: seq<Span>, ranges: seq<Span>): seq<real> {
    if firsts == [] then [] else GapsFrom(firsts[0], ranges) + AllGaps(firsts[1..], ranges)
  }

  /** The widest gap between two runs' ranges, absent if under two read the metric. */
  function GroupDrift(metric: string, group: seq<RunObservation>): Option<real> {
    var ranges := Ranges(metric, group);
    if |ranges| < MIN_SESSIONS_MEASURING_DRIFT then None
    else
      assert AllGaps(ranges, ranges) != [] by { assert GapsFrom(ranges[0], ranges)[0] == Gap(ranges[0], ranges[0]); }
      Some(Greatest(AllGaps(ranges, ranges)))
  }

  datatype Measurement = Measurement(drift: real, group: seq<RunObservation>)

  function Measurements(metric: string, groups: seq<seq<RunObservation>>): (r: seq<Measurement>)
  {
    if groups == [] then []
    else
      (match GroupDrift(metric, groups[0]) case Some(d) => [Measurement(d, groups[0])] case None => [])
      + Measurements(metric, groups[1..])
  }

  /** `max(measured, key=drift)`: the first of the widest. */
  function Widest(ms: seq<Measurement>): (w: Measurement)
    requires ms != []
    ensures w in ms && forall m :: m in ms ==> m.drift <= w.drift
  {
    if |ms| == 1 then ms[0]
    else
      assert forall m :: m in ms ==> m == ms[0] || m in ms[1..];
      var rest := Widest(ms[1..]);
      if ms[0].drift >= rest.drift then ms[0] else rest
  }

  function SpanWidths(metric: string, observations: seq<RunObservation>): seq<real> {
    if observations == [] then []
    else
      (if metric in observations[0].spans then [observations[0].spans[metric].high - observations[0].spans[metric].low] else [])
      + SpanWidths(metric, observations[1..])
  }

  function RunsReading(metric: string, group: seq<RunObservation>): seq<string> {
    if group == [] then []
    else (if Lookup(group[0].values, metric).Some? then [group[0].run] else []) + RunsReading(metric, group[1..])
  }

  function BandFor(metric: string, groups: seq<seq<RunObservation>>, archive: seq<RunObservation>): Option<DriftBand> {
    var measured := Measurements(metric, groups);
    if measured == [] then None
    else
      var widest := Widest(measured);
      var widths := SpanWidths(metric, archive);
      Some(DriftBand(metric, widest.drift, if widths == [] then None else Some(Greatest(widths)),
                     if widest.group == [] then "" else widest.group[0].fingerprint, RunsReading(metric, widest.group)))
  }

  function BandsFor(metrics: seq<string>, groups: seq<seq<RunObservation>>, archive: seq<RunObservation>): seq<DriftBand> {
    if metrics == [] then []
    else (match BandFor(metrics[0], groups, archive) case Some(b) => [b] case None => []) + BandsFor(metrics[1..], groups, archive)
  }

  function RowsOf(observations: seq<RunObservation>): (r: seq<Row>)
    ensures |r| == |observations|
    ensures forall i :: 0 <= i < |observations| ==> r[i] == observations[i].values
  {
    seq(|observations|, i requires 0 <= i < |observations| => observations[i].values)
  }

  function Names(observations: seq<RunObservation>): seq<string> {
    seq(|observations|, i requires 0 <= i < |observations| => observations[i].run)
  }

  /** Each metric's between-session drift over an archive; no run at all is an error. */
  function MeasureDrift(observations: seq<RunObservation>): Option<DriftRecord> {
    if observations == [] then None
    else Some(DriftRecord(Names(observations),
                          BandsFor(MetricNames(RowsOf(observations)), GroupByFingerprint(observations), observations)))
  }

  // ---------- The grouping loop ----------

  /** The dictionary of lists after reading `seen`: its keys in first-seen order, and their runs. */
  ghost predicate Filled(seen: seq<RunObservation>, keys: seq<string>, byKey: map<string, seq<RunObservation>>) {
    && keys == FirstSeen(Fingerprints(seen))
    && (forall k :: k in byKey <==> k in keys)
    && (forall k :: SameFingerprint(seen, k) == if k in byKey then byKey[k] else [])
  }

  lemma SameFingerprintAppend(seen: seq<RunObservation>, o: RunObservation, k: string)
    ensures SameFingerprint(seen + [o], k) == SameFingerprint(seen, k) + (if o.fingerprint == k then [o] else [])
  {
    assert (seen + [o])[..|seen|] == seen;
  }

  lemma FillOne(seen: seq<RunObservation>, keys: seq<string>, byKey: map<string, seq<RunObservation>>, o: RunObservation)
    requires Filled(seen, keys, byKey)
    ensures Filled(seen + [o], if o.fingerprint in byKey then keys else keys + [o.fingerprint],
                   byKey[o.fingerprint := (if o.fingerprint in byKey then byKey[o.fingerprint] else []) + [o]])
  {
    var f := o.fingerprint;
    var keys' := if f in byKey then keys else keys + [f];
    var byKey' := byKey[f := (if f in byKey then byKey[f] else []) + [o]];
    assert Fingerprints(seen + [o]) == Fingerprints(seen) + [f];
    FirstSeenStep(Fingerprints(seen), f);
    forall k ensures SameFingerprint(seen + [o], k) == if k in byKey' then byKey'[k] else [] {
      SameFingerprintAppend(seen, o, k);
    }
  }

  method FillGroups(observations: seq<RunObservation>) returns (keys: seq<string>, byKey: map<string, seq<RunObservation>>)
    ensures Filled(observations, keys, byKey)
  {
    keys, byKey := [], map[];
    assert Fingerprints([]) == [];
    for n := 0 to |observations|
      invariant Filled(observations[..n], keys, byKey)
    {
      var o := observations[n];
      assert observations[..n + 1] == observations[..n] + [o];
      FillOne(observations[..n], keys, byKey, o);
      if o.fingerprint !in byKey {
        keys := keys + [o.fingerprint];
        byKey := byKey[o.fingerprint := []];
      }
      byKey := byKey[o.fingerprint := byKey[o.fingerprint] + [o]];
    }
    assert observations[..|observations|] == observations;
  }

  lemma {:induction false} GroupsOfAppend(keys: seq<string>, k: string, observations: seq<RunObservation>)
    ensures GroupsOf(keys + [k], observations) ==
            GroupsOf(keys, observations) +
            (if |SameFingerprint(observations, k)| >= MIN_SESSIONS_MEASURING_DRIFT then [SameFingerprint(observations, k)] else [])
  {
    if keys == [] {
      assert keys + [k] == [k] && [k][1..] == [];
    } else {
      assert (keys + [k])[0] == keys[0] && (keys + [k])[1..] == keys[1..] + [k];
      GroupsOfAppend(keys[1..], k, observations);
    }
  }

  ghost predicate HoldsGroups(keys: seq<string>, byKey: map<string, seq<RunObservation>>, observations: seq<RunObservation>) {
    forall i :: 0 <= i < |keys| ==> keys[i] in byKey && byKey[keys[i]] == SameFingerprint(observations, keys[i])
  }

  lemma FilledLists(keys: seq<string>, byKey: map<string, seq<RunObservation>>, observations: seq<RunObservation>)
    requires Filled(observations, keys, byKey)
    ensures HoldsGroups(keys, byKey, observations) && keys == FirstSeen(Fingerprints(observations))
  {
    assert forall i :: 0 <= i < |keys| ==> keys[i] in keys;
  }

  method KeepSpanning(keys: seq<string>, byKey: map<string, seq<RunObservation>>, ghost observations: seq<RunObservation>)
    returns (groups: seq<seq<RunObservation>>)
    requires HoldsGroups(keys, byKey, observations)
    ensures groups == GroupsOf(keys, observations)
  {
    groups := [];
    for i := 0 to |keys|
      invariant groups == GroupsOf(keys[..i], observations)
    {
      assert keys[..i + 1] == keys[..i] + [keys[i]];
      GroupsOfAppend(keys[..i], keys[i], observations);
      if |byKey[keys[i]]| >= MIN_SESSIONS_MEASURING_DRIFT {
        groups := groups + [byKey[keys[i]]];
      }
    }
    assert keys[..|keys|] == keys;
  }

  /** The grouping as the code does it: fill a dictionary of lists, keep the lists that span sessions. */
  method CollectGroups(observations: seq<RunObservation>) returns (groups: seq<seq<RunObservation>>)
    ensures groups == GroupByFingerprint(observations)
  {
    var keys, byKey := FillGroups(observations);
    FilledLists(keys, byKey, observations);
    groups := KeepSpanning(keys, byKey, observations);
  }

  // ---------- The allowance is sound and tight ----------

  lemma {:induction false} InGroup(observations: seq<RunObservation>, fingerprint: string, o: RunObservation)
    ensures o in SameFingerprint(observations, fingerprint) <==> o in observations && o.fingerprint == fingerprint
  {
    if observations != [] {
      InGroup(observations[..|observations| - 1], fingerprint, o);
      assert observations == observations[..|observations| - 1] + [observations[|observations| - 1]];
    }
  }

  lemma {:induction false} GroupHasBoth(observations: seq<RunObservation>, i: nat, j: nat) returns (x: nat, y: nat)
    requires i < j < |observations| && observations[i].fingerprint == observations[j].fingerprint
    ensures var group := SameFingerprint(observations, observations[i].fingerprint);
      x < y < |group| && group[x] == observations[i] && group[y] == observations[j]
    decreases |observations|
  {
    var init, last := observations[..|observations| - 1], observations[|observations| - 1];
    var f := observations[i].fingerprint;
    var earlier := SameFingerprint(init, f);
    if j < |init| {
      x, y := GroupHasBoth(init, i, j);
    } else {
      assert init[i] == observations[i];
      InGroup(init, f, observations[i]);
      x :| 0 <= x < |earlier| && earlier[x] == observations[i];
      y := |earlier|;
    }
  }

  lemma {:induction false} IsAGroup(fingerprints: seq<string>, observations: seq<RunObservation>, f: string)
    requires f in fingerprints && |SameFingerprint(observations, f)| >= MIN_SESSIONS_MEASURING_DRIFT
    ensures SameFingerprint(observations, f) in GroupsOf(fingerprints, observations)
  {
    if fingerprints[0] != f { IsAGroup(fingerprints[1..], observations, f); }
  }

  lemma {:induction false} GroupsAreSameFingerprint(fingerprints: seq<string>, observations: seq<RunObservation>)
    ensures forall g :: g in GroupsOf(fingerprints, observations) ==> exists f :: f in fingerprints && g == SameFingerprint(observations, f)
  {
    if fingerprints != [] {
      GroupsAreSameFingerprint(fingerprints[1..], observations);
      forall g | g in GroupsOf(fingerprints, observations)
        ensures exists f :: f in fingerprints && g == SameFingerprint(observations, f)
      {
        if g in GroupsOf(fingerprints[1..], observations) {
          var f :| f in fingerprints[1..] && g == SameFingerprint(observations, f);
          assert f in fingerprints;
        } else {
          assert fingerprints[0] in fingerprints;
        }
      }
    }
  }

  lemma {:induction false} RangesHold(metric: string, group: seq<RunObservation>, x: nat) returns (k: nat)
    requires x < |group| && RangeOf(group[x], metric).Some?
    ensures k <= x && k < |Ranges(metric, group)| && Ranges(metric, group)[k] == RangeOf(group[x], metric).value
  {
    if x == 0 {
      k := 0;
    } else {
      k := RangesHold(metric, group[1..], x - 1);
      if RangeOf(group[0], metric).Some? { k := k + 1; }
    }
  }

  lemma {:induction false} TwoRanges(metric: string, group: seq<RunObservation>, x: nat, y: nat)
    requires x < y < |group| && RangeOf(group[x], metric).Some? && RangeOf(group[y], metric).Some?
    ensures |Ranges(metric, group)| >= 2
  {
    if x == 0 {
      var k := RangesHold(metric, group[1..], y - 1);
    } else {
      TwoRanges(metric, group[1..], x - 1, y - 1);
    }
  }

  lemma {:induction false} RangesComeFrom(metric: string, group: seq<RunObservation>, k: nat) returns (x: nat)
    requires k < |Ranges(metric, group)|
    ensures k <= x < |group| && RangeOf(group[x], metric) == Some(Ranges(metric, group)[k])
  {
    if RangeOf(group[0], metric).Some? && k == 0 {
      x := 0;
    } else {
      x := RangesComeFrom(metric, group[1..], if RangeOf(group[0], metric).Some? then k - 1 else k);
      x := x + 1;
    }
  }

  lemma {:induction false} GapIsListed(firsts: seq<Span>, ranges: seq<Span>, i: nat, j: nat)
    requires i < |firsts| && j < |ranges|
    ensures Gap(firsts[i], ranges[j]) in AllGaps(firsts, ranges)
  {
    if i == 0 {
      assert GapsFrom(firsts[0], ranges)[j] == Gap(firsts[0], ranges[j]);
    } else {
      GapIsListed(firsts[1..], ranges, i - 1, j);
    }
  }

  lemma {:induction false} ListedIsGap(firsts: seq<Span>, ranges: seq<Span>, g: real) returns (i: nat, j: nat)
    requires g in AllGaps(firsts, ranges)
    ensures i < |firsts| && j < |ranges| && g == Gap(firsts[i], ranges[j])
  {
    if g in GapsFrom(firsts[0], ranges) {
      i := 0;
      j :| 0 <= j < |ranges| && GapsFrom(firsts[0], ranges)[j] == g;
    } else {
      i, j := ListedIsGap(firsts[1..], ranges, g);
      i := i + 1;
    }
  }

  lemma {:induction false} IsMeasured(metric: string, groups: seq<seq<RunObservation>>, group: seq<RunObservation>)
    requires group in groups && GroupDrift(metric, group).Some?
    ensures Measurement(GroupDrift(metric, group).value, group) in Measurements(metric, groups)
  {
    if groups[0] != group { IsMeasured(metric, groups[1..], group); }
  }

  lemma {:induction false} MeasuredAreGroups(metric: string, groups: seq<seq<RunObservation>>)
    ensures forall m :: m in Measurements(metric, groups) ==> m.group in groups && GroupDrift(metric, m.group) == Some(m.drift)
  {
    if groups != [] {
      MeasuredAreGroups(metric, groups[1..]);
      assert forall g :: g in groups[1..] ==> g in groups;
    }
  }

  lemma {:induction false} FoundDrift(metrics: seq<string>, groups: seq<seq<RunObservation>>, archive: seq<RunObservation>, metric: string)
    ensures FindDrift(BandsFor(metrics, groups, archive), metric) ==
            if metric in metrics then BandFor(metric, groups, archive) else None
  {
    if metrics != [] {
      FoundDrift(metrics[1..], groups, archive, metric);
      var head, rest := BandFor(metrics[0], groups, archive), BandsFor(metrics[1..], groups, archive);
      if head.Some? {
        assert head.value.metric == metrics[0];
        assert BandsFor(metrics, groups, archive) == [head.value] + rest;
        assert ([head.value] + rest)[1..] == rest;
      } else {
        assert BandsFor(metrics, groups, archive) == [] + rest == rest;
      }
    }
  }

  lemma {:induction false} MeasuredMetricIsNamed(rows: seq<Row>, i: nat, metric: string)
    requires i < |rows| && Lookup(rows[i], metric).Some?
    ensures metric in AllKeys(rows)
  {
    if i == 0 {
      LookedUpIsKey(rows[0], metric);
    } else {
      MeasuredMetricIsNamed(rows[1..], i - 1, metric);
    }
  }

  lemma {:induction false} LookedUpIsKey(row: Row, metric: string)
    requires Lookup(row, metric).Some?
    ensures metric in Keys(row)
  {
    assert Keys(row)[0] == row[0].metric;
    if row[0].metric != metric {
      LookedUpIsKey(row[1..], metric);
      var i :| 0 <= i < |Keys(row[1..])| && Keys(row[1..])[i] == metric;
      assert Keys(row)[i + 1] == metric;
    }
  }

  /** The allowance of a metric a run measured is what the groups measured, none if they did not. */
  lemma AllowanceIsWidest(observations: seq<RunObservation>, i: nat, metric: string)
    requires i < |observations| && RangeOf(observations[i], metric).Some?
    ensures MeasureDrift(observations).value.Allowance(metric) ==
            var measured := Measurements(metric, GroupByFingerprint(observations));
            if measured == [] then 0.0 else Widest(measured).drift
  {
    var rows := RowsOf(observations);
    MeasuredMetricIsNamed(rows, i, metric);
    FirstSeenIsDistinct(AllKeys(rows));
    FoundDrift(MetricNames(rows), GroupByFingerprint(observations), observations, metric);
  }

  /** No two archived runs of one fingerprint lie farther apart on a metric than its allowance. */
  lemma AllowanceCoversEveryPair(observations: seq<RunObservation>, i: nat, j: nat, metric: string)
    requires i < j < |observations| && observations[i].fingerprint == observations[j].fingerprint
    requires RangeOf(observations[i], metric).Some? && RangeOf(observations[j], metric).Some?
    ensures Gap(RangeOf(observations[i], metric).value, RangeOf(observations[j], metric).value)
            <= MeasureDrift(observations).value.Allowance(metric)
  {
    var f := observations[i].fingerprint;
    var group := SameFingerprint(observations, f);
    var x, y := GroupHasBoth(observations, i, j);
    var fingerprints := Fingerprints(observations);
    assert fingerprints[i] == f;
    FirstSeenIsDistinct(fingerprints);
    IsAGroup(FirstSeen(fingerprints), observations, f);
    TwoRanges(metric, group, x, y);
    var k := RangesHold(metric, group, x);
    var l := RangesHold(metric, group, y);
    GapIsListed(Ranges(metric, group), Ranges(metric, group), k, l);
    IsMeasured(metric, GroupByFingerprint(observations), group);
    AllowanceIsWidest(observations, i, metric);
  }

  lemma {:induction false} DriftIsAttained(metric: string, group: seq<RunObservation>) returns (x: nat, y: nat)
    requires GroupDrift(metric, group).Some?
    ensures x < |group| && y < |group| && RangeOf(group[x], metric).Some? && RangeOf(group[y], metric).Some?
    ensures GroupDrift(metric, group).value == Gap(RangeOf(group[x], metric).value, RangeOf(group[y], metric).value)
  {
    var ranges := Ranges(metric, group);
    var i, j := ListedIsGap(ranges, ranges, GroupDrift(metric, group).value);
    x := RangesComeFrom(metric, group, i);
    y := RangesComeFrom(metric, group, j);
  }

  /** A positive allowance is the gap of two archived runs of one fingerprint: no smaller one covers them. */
  lemma AllowanceIsTight(observations: seq<RunObservation>, metric: string) returns (i: nat, j: nat)
    requires observations != [] && MeasureDrift(observations).value.Allowance(metric) > 0.0
    ensures i < |observations| && j < |observations| && observations[i].fingerprint == observations[j].fingerprint
    ensures RangeOf(observations[i], metric).Some? && RangeOf(observations[j], metric).Some?
    ensures Gap(RangeOf(observations[i], metric).value, RangeOf(observations[j], metric).value)
            == MeasureDrift(observations).value.Allowance(metric)
  {
    var groups := GroupByFingerprint(observations);
    var rows := RowsOf(observations);
    FoundDrift(MetricNames(rows), groups, observations, metric);
    var widest := Widest(Measurements(metric, groups));
    MeasuredAreGroups(metric, groups);
    GroupsAreSameFingerprint(FirstSeen(Fingerprints(observations)), observations);
    var f :| f in FirstSeen(Fingerprints(observations)) && widest.group == SameFingerprint(observations, f);
    var x, y := DriftIsAttained(metric, widest.group);
    InGroup(observations, f, widest.group[x]);
    InGroup(observations, f, widest.group[y]);
    i :| 0 <= i < |observations| && observations[i] == widest.group[x];
    j :| 0 <= j < |observations| && observations[j] == widest.group[y];
  }

  // ---------- What a band reports ----------

  lemma {:induction false} ReadingRuns(metric: string, group: seq<RunObservation>, name: string)
    ensures name in RunsReading(metric, group) <==>
      exists o :: o in group && Lookup(o.values, metric).Some? && o.run == name
  {
    if group != [] {
      ReadingRuns(metric, group[1..], name);
      assert forall o :: o in group <==> o == group[0] || o in group[1..];
    }
  }

  lemma {:induction false} WidthsAre(metric: string, observations: seq<RunObservation>, w: real)
    ensures w in SpanWidths(metric, observations) <==>
      exists o :: o in observations && metric in o.spans && w == o.spans[metric].high - o.spans[metric].low
  {
    if observations != [] {
      WidthsAre(metric, observations[1..], w);
      assert forall o :: o in observations <==> o == observations[0] || o in observations[1..];
    }
  }

  /**
    What a band says besides its allowance: the runs of one fingerprint that read the metric, all of them,
    and the widest spread any run of the archive saw inside its own session.
  */
  lemma BandReports(observations: seq<RunObservation>, metric: string, name: string)
    requires observations != [] && MeasureDrift(observations).value.Band(metric).Some?
    ensures var b := MeasureDrift(observations).value.Band(metric).value;
      && (name in b.runs <==>
            exists o :: o in observations && o.fingerprint == b.fingerprint && Lookup(o.values, metric).Some? && o.run == name)
      && (b.withinSession.None? <==> forall o :: o in observations ==> metric !in o.spans)
      && (b.withinSession.Some? ==>
            && (forall o :: o in observations && metric in o.spans ==>
                  o.spans[metric].high - o.spans[metric].low <= b.withinSession.value)
            && exists o :: o in observations && metric in o.spans &&
                 o.spans[metric].high - o.spans[metric].low == b.withinSession.value)
  {
    var groups, rows := GroupByFingerprint(observations), RowsOf(observations);
    FoundDrift(MetricNames(rows), groups, observations, metric);
    var b := BandFor(metric, groups, observations).value;
    var widest := Widest(Measurements(metric, groups));
    MeasuredAreGroups(metric, groups);
    GroupsAreSameFingerprint(FirstSeen(Fingerprints(observations)), observations);
    var f :| f in FirstSeen(Fingerprints(observations)) && widest.group == SameFingerprint(observations, f);
    forall o ensures o in widest.group <==> o in observations && o.fingerprint == f {
      InGroup(observations, f, o);
    }
    assert widest.group[0] in widest.group;
    ReadingRuns(metric, widest.group, name);
    WidthsReport(metric, observations);
  }

  lemma WidthsReport(metric: string, observations: seq<RunObservation>)
    ensures var widths := SpanWidths(metric, observations);
      && (widths == [] <==> forall o :: o in observations ==> metric !in o.spans)
      && (widths != [] ==>
            && (forall o :: o in observations && metric in o.spans ==>
                  o.spans[metric].high - o.spans[metric].low <= Greatest(widths))
            && exists o :: o in observations && metric in o.spans &&
                 o.spans[metric].high - o.spans[metric].low == Greatest(widths))
  {
    var widths := SpanWidths(metric, observations);
    forall o | o in observations && metric in o.spans ensures o.spans[metric].high - o.spans[metric].low in widths {
      WidthsAre(metric, observations, o.spans[metric].high - o.spans[metric].low);
    }
    if widths != [] {
      WidthsAre(metric, observations, Greatest(widths));
    }
  }
}
