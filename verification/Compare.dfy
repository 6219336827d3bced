/**
  Comparing a run against a baseline: the allowance drift measured over an archive is exactly the
  one that makes comparison sound on that archive.
*/
module Compare {
  import opened Wrappers
  import opened Lists
  import opened Repetition
  import opened Drift

  datatype MetricDelta = MetricDelta(
    metric: string, base: Option<real>, run: Option<real>, delta: Option<real>, movement: Option<Movement>,
    baseSpan: Option<Span>, runSpan: Option<Span>, driftAllowance: Option<real>)

  datatype Comparison = Comparison(
    fingerprintChanged: bool, baseFingerprint: string, runFingerprint: string,
    noiseMeasured: bool, driftMeasured: bool, deltas: seq<MetricDelta>)

  function DeltaOf(metric: string, base: MetricObservation, run: MetricObservation,
                   direction: MetricDirection, allowance: Option<real>): MetricDelta
  {
    MetricDelta(metric, base.value, run.value,
                if base.value.Some? && run.value.Some? then Some(run.value.value - base.value.value) else None,
                ClassifyMovement(base, run, direction, if allowance.Some? then allowance.value else 0.0),
                base.span, run.span, allowance)
  }

  /** The baseline's metrics in their order, then those only the run has. */
  function ComparedMetrics(base: Row, run: Row): seq<string> {
    Keys(base) + Missing(Keys(run), Keys(base))
  }

  function Missing(keys: seq<string>, from: seq<string>): seq<string> {
    if keys == [] then [] else (if keys[0] !in from then [keys[0]] else []) + Missing(keys[1..], from)
  }

  function CompareMetric(metric: string, base: Artifact, run: Artifact, directions: map<string, MetricDirection>,
                         drift: Option<DriftRecord>): MetricDelta
  {
    DeltaOf(metric, ObservationFor(metric, base), ObservationFor(metric, run),
            if metric in directions then directions[metric] else NEUTRAL,
            if drift.Some? then Some(drift.value.Allowance(metric)) else None)
  }

  function Deltas(metrics: seq<string>, base: Artifact, run: Artifact, directions: map<string, MetricDirection>,
                  drift: Option<DriftRecord>): (r: seq<MetricDelta>)
    ensures |r| == |metrics|
    ensures forall k :: 0 <= k < |metrics| ==> r[k] == CompareMetric(metrics[k], base, run, directions, drift)
  {
    seq(|metrics|, k requires 0 <= k < |metrics| => CompareMetric(metrics[k], base, run, directions, drift))
  }

  function MeasuresNoise(repetitions: Option<RepetitionSummary>): bool {
    repetitions.Some? && repetitions.value.MeasuresNoise()
  }

  function CompareRuns(base: Artifact, run: Artifact, directions: map<string, MetricDirection>,
                       drift: Option<DriftRecord>): Comparison
  {
    Comparison(base.fingerprint != run.fingerprint, base.fingerprint, run.fingerprint,
               MeasuresNoise(base.repetitions) && MeasuresNoise(run.repetitions), drift.Some?,
               Deltas(ComparedMetrics(base.values, run.values), base, run, directions, drift))
  }

  function ObserveAll(archive: seq<Artifact>): (r: seq<RunObservation>)
    ensures |r| == |archive|
    ensures forall i :: 0 <= i < |archive| ==> r[i] == ObserveRun(archive[i])
  {
    seq(|archive|, i requires 0 <= i < |archive| => ObserveRun(archive[i]))
  }

  // ---------- What a delta says ----------

  /** The allowance a comparison classifies a metric against: what drift measured for it, or none. */
  ghost predicate Allows(drift: Option<DriftRecord>, metric: string, allowance: real) {
    allowance == if drift.Some? then drift.value.Allowance(metric) else 0.0
  }

  /**
    A delta's movement, from the two ranges it reports: noise while they are within the allowance of each
    other, an improvement exactly when the run's lies past it on the better side, a regression on the other.
  */
  lemma DeltaMoves(base: Artifact, run: Artifact, directions: map<string, MetricDirection>, drift: Option<DriftRecord>, k: nat,
                   baseLow: real, baseHigh: real, runLow: real, runHigh: real, allowance: real)
    requires k < |CompareRuns(base, run, directions, drift).deltas|
    requires var d := CompareRuns(base, run, directions, drift).deltas[k];
      && ReadOver(MetricObservation(d.base, d.baseSpan), baseLow, baseHigh)
      && ReadOver(MetricObservation(d.run, d.runSpan), runLow, runHigh)
      && Allows(drift, d.metric, allowance) && allowance >= 0.0
    ensures var d := CompareRuns(base, run, directions, drift).deltas[k];
      var higher := d.metric in directions && directions[d.metric] == HIGHER_IS_BETTER;
      var lower := d.metric in directions && directions[d.metric] == LOWER_IS_BETTER;
      var above, below := runLow - baseHigh > allowance, baseLow - runHigh > allowance;
      && (d.movement in {Some(VARIANCE), Some(DRIFT)} <==> !above && !below)
      && (d.movement == Some(VARIANCE) <==> baseLow <= runHigh && runLow <= baseHigh)
      && (d.movement == Some(IMPROVEMENT) <==> (higher && above) || (lower && below))
      && (d.movement == Some(REGRESSION) <==> (higher && below) || (lower && above))
      && (d.movement == Some(SHIFT) <==> !higher && !lower && (above || below))
      && d.delta == Some(d.run.value - d.base.value)
  {
    var c := CompareRuns(base, run, directions, drift);
    var metric := c.deltas[k].metric;
    MovementIs(ObservationFor(metric, base), ObservationFor(metric, run),
               if metric in directions then directions[metric] else NEUTRAL, allowance, baseLow, baseHigh, runLow, runHigh);
  }

  // ---------- Drift and comparison read the same ranges ----------

  function ComparedRange(metric: string, a: Artifact): Option<Span> {
    var o := ObservationFor(metric, a);
    if o.value.Some? then Some(SpanOf(o)) else None
  }

  /** An artifact's summary keeps one band per metric, as summarizing gives it. */
  ghost predicate Summarized(a: Artifact) {
    a.repetitions.Some? ==> Distinct(BandNames(a.repetitions.value.bands))
  }

  /** A single repetition's band repeats the value the run published. */
  ghost predicate Coherent(a: Artifact, metric: string) {
    a.repetitions.Some? && !a.repetitions.value.MeasuresNoise() && a.repetitions.value.Band(metric).Some? ==>
      Lookup(a.values, metric) == Some(a.repetitions.value.Band(metric).value.median)
  }

  lemma {:induction false} LookupPut(row: Row, metric: string, value: Option<real>, m: string)
    ensures Lookup(Put(row, metric, value), m) == if m == metric then value else Lookup(row, m)
  {
    if row != [] && row[0].metric != metric { LookupPut(row[1..], metric, value, m); }
  }

  lemma {:induction false} NoBandNamed(bands: seq<MetricBand>, metric: string)
    ensures FindBand(bands, metric).Some? <==> metric in BandNames(bands)
    ensures FindBand(bands, metric).Some? ==> FindBand(bands, metric).value.metric == metric
  {
    if bands != [] {
      NoBandNamed(bands[1..], metric);
      assert BandNames(bands) == [bands[0].metric] + BandNames(bands[1..]);
    }
  }

  lemma {:induction false} LookupMedians(row: Row, bands: seq<MetricBand>, metric: string)
    requires Distinct(BandNames(bands))
    ensures Lookup(PutMedians(row, bands), metric) ==
            match FindBand(bands, metric) case Some(b) => Some(b.median) case None => Lookup(row, metric)
    decreases |bands|
  {
    if bands != [] {
      assert BandNames(bands)[1..] == BandNames(bands[1..]) && BandNames(bands)[0] == bands[0].metric;
      DistinctTail(BandNames(bands));
      var row' := Put(row, bands[0].metric, Some(bands[0].median));
      LookupMedians(row', bands[1..], metric);
      LookupPut(row, bands[0].metric, Some(bands[0].median), metric);
      NoBandNamed(bands[1..], metric);
    }
  }

  lemma {:induction false} FindInFront(init: seq<MetricBand>, last: MetricBand, metric: string)
    ensures FindBand(init + [last], metric) ==
            if FindBand(init, metric).Some? then FindBand(init, metric)
            else if last.metric == metric then Some(last) else None
  {
    if init == [] {
      assert init + [last] == [last];
    } else {
      assert (init + [last])[1..] == init[1..] + [last];
      FindInFront(init[1..], last, metric);
    }
  }

  lemma {:induction false} SpansAreBands(bands: seq<MetricBand>, metric: string)
    requires Distinct(BandNames(bands))
    ensures metric in Spans(bands) <==> FindBand(bands, metric).Some?
    ensures metric in Spans(bands) ==> Spans(bands)[metric] == FindBand(bands, metric).value.BandSpan()
    decreases |bands|
  {
    if bands != [] {
      var init, last := bands[..|bands| - 1], bands[|bands| - 1];
      assert bands == init + [last];
      assert forall i :: 0 <= i < |init| ==> BandNames(init)[i] == BandNames(bands)[i] && BandNames(bands)[i] != BandNames(bands)[|init|];
      SpansAreBands(init, metric);
      FindInFront(init, last, metric);
      NoBandNamed(init, last.metric);
    }
  }

  /** The comparison reads the range drift measured exactly when the artifact is coherent. */
  lemma ReadingsAgreeIffCoherent(metric: string, a: Artifact)
    requires Summarized(a)
    ensures ComparedRange(metric, a) == RangeOf(ObserveRun(a), metric) <==> Coherent(a, metric)
  {
    var bands := MeasuredBands(a.repetitions);
    assert BandNames([]) == [];
    LookupMedians(a.values, bands, metric);
    SpansAreBands(bands, metric);
  }

  // ---------- Soundness and tightness over an archive ----------

  lemma OverlapIffGap(first: Span, second: Span, allowance: real)
    requires allowance >= 0.0
    ensures Overlap(first, second, allowance) <==> Gap(first, second) <= allowance
  {
  }

  lemma GapIsSymmetric(first: Span, second: Span)
    ensures Gap(first, second) == Gap(second, first) >= 0.0
  {
  }

  predicate IsNoise(m: Option<Movement>) {
    m == Some(VARIANCE) || m == Some(DRIFT)
  }

  lemma NoiseIffCovered(metric: string, base: Artifact, run: Artifact, direction: MetricDirection, allowance: real)
    requires allowance >= 0.0 && ComparedRange(metric, base).Some? && ComparedRange(metric, run).Some?
    ensures IsNoise(ClassifyMovement(ObservationFor(metric, base), ObservationFor(metric, run), direction, allowance)) <==>
            Gap(ComparedRange(metric, base).value, ComparedRange(metric, run).value) <= allowance
  {
    OverlapIffGap(ComparedRange(metric, base).value, ComparedRange(metric, run).value, 0.0);
    OverlapIffGap(ComparedRange(metric, base).value, ComparedRange(metric, run).value, allowance);
  }

  lemma PairIsNoise(archive: seq<Artifact>, i: nat, j: nat, metric: string, direction: MetricDirection)
    requires i < |archive| && j < |archive| && i != j && archive[i].fingerprint == archive[j].fingerprint
    requires Summarized(archive[i]) && Coherent(archive[i], metric)
    requires Summarized(archive[j]) && Coherent(archive[j], metric)
    requires ComparedRange(metric, archive[i]).Some? && ComparedRange(metric, archive[j]).Some?
    ensures IsNoise(ClassifyMovement(ObservationFor(metric, archive[i]), ObservationFor(metric, archive[j]), direction,
                                     MeasureDrift(ObserveAll(archive)).value.Allowance(metric)))
  {
    var observations := ObserveAll(archive);
    var allowance := MeasureDrift(observations).value.Allowance(metric);
    ReadingsAgreeIffCoherent(metric, archive[i]);
    ReadingsAgreeIffCoherent(metric, archive[j]);
    AllowanceCoversEveryPair(observations, if i < j then i else j, if i < j then j else i, metric);
    GapIsSymmetric(ComparedRange(metric, archive[i]).value, ComparedRange(metric, archive[j]).value);
    NoiseIffCovered(metric, archive[i], archive[j], direction, allowance);
  }

  lemma {:induction false} MissingAre(keys: seq<string>, from: seq<string>)
    requires Distinct(keys)
    ensures Distinct(Missing(keys, from)) && forall m :: m in Missing(keys, from) <==> m in keys && m !in from
  {
    if keys != [] {
      DistinctTail(keys);
      MissingAre(keys[1..], from);
      assert keys == [keys[0]] + keys[1..];
    }
  }

  lemma ComparedOnce(base: Row, run: Row)
    requires Distinct(Keys(base)) && Distinct(Keys(run))
    ensures Distinct(ComparedMetrics(base, run))
    ensures forall m :: m in ComparedMetrics(base, run) <==> m in Keys(base) || m in Keys(run)
  {
    MissingAre(Keys(run), Keys(base));
    DistinctConcat(Keys(base), Missing(Keys(run), Keys(base)));
  }

  /** The metrics a comparison reports on, in order. */
  function Reported(c: Comparison): (r: seq<string>)
    ensures |r| == |c.deltas| && forall k :: 0 <= k < |r| ==> r[k] == c.deltas[k].metric
  {
    seq(|c.deltas|, k requires 0 <= k < |c.deltas| => c.deltas[k].metric)
  }

  /** A comparison of one configuration with itself that reports every metric once, and none as a result. */
  ghost predicate FindsNoResult(c: Comparison, base: Artifact, run: Artifact) {
    && !c.fingerprintChanged && c.driftMeasured
    && Distinct(Reported(c)) && (forall m :: m in Reported(c) <==> m in Keys(base.values) || m in Keys(run.values))
    && (forall k :: 0 <= k < |c.deltas| ==> QuietDelta(c.deltas[k], base, run))
  }

  /** What one metric's delta says: both readings, their difference, and noise if both sides measured. */
  ghost predicate QuietDelta(d: MetricDelta, base: Artifact, run: Artifact) {
    && SideRead(d.metric, d.base, d.baseSpan, base) && SideRead(d.metric, d.run, d.runSpan, run)
    && (if d.base.Some? && d.run.Some? then d.delta == Some(d.run.value - d.base.value) && IsNoise(d.movement)
        else d.delta.None? && d.movement.None?)
  }

  ghost predicate SideRead(metric: string, value: Option<real>, span: Option<Span>, a: Artifact) {
    ComparedRange(metric, a) ==
    match value case None => None case Some(v) => Some(if span.Some? then span.value else Span(v, v))
  }

  ghost predicate CoherentRun(a: Artifact) {
    Summarized(a) && Distinct(Keys(a.values)) && forall metric :: Coherent(a, metric)
  }

  lemma NoiseIsQuiet(metric: string, base: Artifact, run: Artifact, directions: map<string, MetricDirection>, drift: DriftRecord)
    requires var o, p := ObservationFor(metric, base), ObservationFor(metric, run);
      o.value.Some? && p.value.Some? ==>
        IsNoise(ClassifyMovement(o, p, if metric in directions then directions[metric] else NEUTRAL, drift.Allowance(metric)))
    ensures QuietDelta(CompareMetric(metric, base, run, directions, Some(drift)), base, run)
  {
  }

  lemma DeltaIsQuiet(archive: seq<Artifact>, i: nat, j: nat, metric: string, directions: map<string, MetricDirection>,
                     drift: DriftRecord)
    requires i < |archive| && j < |archive| && i != j && archive[i].fingerprint == archive[j].fingerprint
    requires Summarized(archive[i]) && Coherent(archive[i], metric)
    requires Summarized(archive[j]) && Coherent(archive[j], metric)
    requires MeasureDrift(ObserveAll(archive)) == Some(drift)
    ensures QuietDelta(CompareMetric(metric, archive[i], archive[j], directions, Some(drift)), archive[i], archive[j])
  {
    if ComparedRange(metric, archive[i]).Some? && ComparedRange(metric, archive[j]).Some? {
      PairIsNoise(archive, i, j, metric, if metric in directions then directions[metric] else NEUTRAL);
    }
    NoiseIsQuiet(metric, archive[i], archive[j], directions, drift);
  }

  lemma ReportsCompared(base: Artifact, run: Artifact, directions: map<string, MetricDirection>, drift: Option<DriftRecord>)
    ensures Reported(CompareRuns(base, run, directions, drift)) == ComparedMetrics(base.values, run.values)
  {
  }

  /**
    After measuring drift over any archive of coherent runs, comparing any two of them of equal
    fingerprint, either way round, never finds a result.
  */
  lemma ArchiveComparisonsAreNoise(archive: seq<Artifact>, i: nat, j: nat, directions: map<string, MetricDirection>,
                                    drift: DriftRecord)
    requires i < |archive| && j < |archive| && i != j && archive[i].fingerprint == archive[j].fingerprint
    requires CoherentRun(archive[i]) && CoherentRun(archive[j])
    requires MeasureDrift(ObserveAll(archive)) == Some(drift)
    ensures FindsNoResult(CompareRuns(archive[i], archive[j], directions, Some(drift)), archive[i], archive[j])
  {
    var c := CompareRuns(archive[i], archive[j], directions, Some(drift));
    ComparedOnce(archive[i].values, archive[j].values);
    ReportsCompared(archive[i], archive[j], directions, Some(drift));
    forall k | 0 <= k < |c.deltas| ensures QuietDelta(c.deltas[k], archive[i], archive[j]) {
      DeltaIsQuiet(archive, i, j, ComparedMetrics(archive[i].values, archive[j].values)[k], directions, drift);
    }
  }

  /** A positive allowance is tight: under any smaller one, two archived runs of one fingerprint differ by a result. */
  lemma SmallerAllowanceIsUnsound(archive: seq<Artifact>, metric: string, direction: MetricDirection, smaller: real)
    returns (i: nat, j: nat)
    requires archive != [] && forall k :: 0 <= k < |archive| ==> Summarized(archive[k]) && Coherent(archive[k], metric)
    requires 0.0 <= smaller < MeasureDrift(ObserveAll(archive)).value.Allowance(metric)
    ensures i < |archive| && j < |archive| && archive[i].fingerprint == archive[j].fingerprint
    ensures ClassifyMovement(ObservationFor(metric, archive[i]), ObservationFor(metric, archive[j]), direction, smaller)
            in {Some(REGRESSION), Some(IMPROVEMENT), Some(SHIFT)}
  {
    var observations := ObserveAll(archive);
    i, j := AllowanceIsTight(observations, metric);
    ReadingsAgreeIffCoherent(metric, archive[i]);
    ReadingsAgreeIffCoherent(metric, archive[j]);
    ApartIsResult(metric, archive[i], archive[j], direction, smaller);
  }

  lemma ApartIsResult(metric: string, base: Artifact, run: Artifact, direction: MetricDirection, allowance: real)
    requires allowance >= 0.0 && ComparedRange(metric, base).Some? && ComparedRange(metric, run).Some?
    requires Gap(ComparedRange(metric, base).value, ComparedRange(metric, run).value) > allowance
    ensures ClassifyMovement(ObservationFor(metric, base), ObservationFor(metric, run), direction, allowance)
            in {Some(REGRESSION), Some(IMPROVEMENT), Some(SHIFT)}
  {
    NoiseIffCovered(metric, base, run, direction, allowance);
  }

  // ---------- What the harness archives is coherent ----------

  /** The artifact of a run of the harness: it publishes its first repetition and summarizes them all. */
  function ArtifactOf(name: string, fingerprint: string, draws: seq<Row>): Artifact
    requires draws != []
  {
    Artifact(name, fingerprint, draws[0], Summarize(draws))
  }

  lemma {:induction false} FoundBandIsThere(bands: seq<MetricBand>, metric: string)
    requires FindBand(bands, metric).Some?
    ensures FindBand(bands, metric).value in bands && FindBand(bands, metric).value.metric == metric
  {
    if bands[0].metric != metric { FoundBandIsThere(bands[1..], metric); }
  }

  lemma MedianOfOne(x: real)
    ensures Median([x]) == x
  {
    assert [x][1..] == [];
    assert Sort([x][1..]) == [] && Sort([x]) == [x];
  }

  lemma OneDraw(metric: string, row: Row)
    ensures BandOf(metric, [row]).Some? ==> Lookup(row, metric) == Some(BandOf(metric, [row]).value.median)
  {
    var v := Lookup(row, metric);
    assert [row][1..] == [] && Column(metric, [row][1..]) == [];
    assert Column(metric, [row]) == [v];
    assert [v][1..] == [] && Measured([v][1..]) == [];
    if v.Some? {
      assert Measured([v]) == [v.value];
      MedianOfOne(v.value);
    } else {
      assert Measured([v]) == [];
    }
  }

  lemma HarnessReading(name: string, fingerprint: string, draws: seq<Row>, metric: string)
    requires draws != []
    ensures Summarized(ArtifactOf(name, fingerprint, draws)) && Coherent(ArtifactOf(name, fingerprint, draws), metric)
    ensures Centred(ObservationFor(metric, ArtifactOf(name, fingerprint, draws)))
  {
    var s := Summarize(draws).value;
    SummaryIsWellFormed(draws);
    if s.Band(metric).Some? {
      FoundBandIsThere(s.bands, metric);
      var measured := Measured(Column(metric, draws));
      MedianIsInRange(measured);
      if |draws| == 1 {
        OneDraw(metric, draws[0]);
        assert draws == [draws[0]];
      }
    }
  }

  ghost predicate WellRead(a: Artifact, metric: string) {
    Summarized(a) && Coherent(a, metric) && Centred(ObservationFor(metric, a))
  }

  lemma WellReadThroughout(a: Artifact)
    requires Distinct(Keys(a.values)) && forall metric :: WellRead(a, metric)
    ensures CoherentRun(a) && forall metric :: Centred(ObservationFor(metric, a))
  {
    assert WellRead(a, "");
    assert forall metric :: WellRead(a, metric) ==> Coherent(a, metric) && Centred(ObservationFor(metric, a));
  }

  /** Every artifact the harness writes is coherent, and every observation read off it is centred. */
  lemma HarnessIsCoherent(name: string, fingerprint: string, draws: seq<Row>)
    requires draws != [] && Distinct(Keys(draws[0]))
    ensures CoherentRun(ArtifactOf(name, fingerprint, draws))
    ensures forall metric :: Centred(ObservationFor(metric, ArtifactOf(name, fingerprint, draws)))
  {
    var a := ArtifactOf(name, fingerprint, draws);
    forall metric ensures WellRead(a, metric) {
      HarnessReading(name, fingerprint, draws, metric);
    }
    WellReadThroughout(a);
  }

  // ---------- An incoherent archive breaks the promise ----------

  /** A run of one repetition whose band was written at `median` while it published `published`. */
  function Incoherent(name: string, published: real, median: real): Artifact {
    Artifact(name, "fp", [Entry("m", Some(published))],
             Some(RepetitionSummary(1, [MetricBand("m", [Some(median)], median, median, median)])))
  }

  lemma IncoherentReadings(name: string, published: real, median: real)
    ensures Summarized(Incoherent(name, published, median))
    ensures ComparedRange("m", Incoherent(name, published, median)) == Some(Span(median, median))
    ensures RangeOf(ObserveRun(Incoherent(name, published, median)), "m") == Some(Span(published, published))
  {
  }

  lemma IncoherentAllowance(archive: seq<Artifact>)
    requires archive == [Incoherent("a", 5.0, 0.0), Incoherent("b", 5.0, 9.0)]
    ensures MeasureDrift(ObserveAll(archive)).value.Allowance("m") == 0.0
  {
    var observations := ObserveAll(archive);
    IncoherentReadings("a", 5.0, 0.0);
    IncoherentReadings("b", 5.0, 9.0);
    AllowanceCoversEveryPair(observations, 0, 1, "m");
    if MeasureDrift(observations).value.Allowance("m") > 0.0 {
      var i, j := AllowanceIsTight(observations, "m");
    }
  }

  /** Two runs that published the same value but band different ones: drift sees no gap, comparison does. */
  lemma IncoherentArchiveFails() returns (archive: seq<Artifact>)
    ensures |archive| == 2 && archive[0].fingerprint == archive[1].fingerprint
    ensures Summarized(archive[0]) && Summarized(archive[1])
    ensures ClassifyMovement(ObservationFor("m", archive[0]), ObservationFor("m", archive[1]), NEUTRAL,
                             MeasureDrift(ObserveAll(archive)).value.Allowance("m")) == Some(SHIFT)
  {
    archive := [Incoherent("a", 5.0, 0.0), Incoherent("b", 5.0, 9.0)];
    IncoherentAllowance(archive);
    IncoherentReadings("a", 5.0, 0.0);
    IncoherentReadings("b", 5.0, 9.0);
    NoiseIffCovered("m", archive[0], archive[1], NEUTRAL, 0.0);
  }

  // ---------- What a comparison says first ----------

  /** A run measured its noise if it ran at least twice. */
  ghost predicate RanTwice(a: Artifact) {
    a.repetitions.Some? && a.repetitions.value.repetitions >= 2
  }

  /** The frame of a comparison: whose, whether of one configuration, and which noise it was read against. */
  lemma ComparisonFrames(base: Artifact, run: Artifact, directions: map<string, MetricDirection>, drift: Option<DriftRecord>, k: nat)
    requires k < |CompareRuns(base, run, directions, drift).deltas|
    ensures var c := CompareRuns(base, run, directions, drift);
      && c.baseFingerprint == base.fingerprint && c.runFingerprint == run.fingerprint
      && (c.fingerprintChanged <==> base.fingerprint != run.fingerprint)
      && (c.noiseMeasured <==> RanTwice(base) && RanTwice(run)) && (c.driftMeasured <==> drift.Some?)
      && SideRead(c.deltas[k].metric, c.deltas[k].base, c.deltas[k].baseSpan, base)
      && SideRead(c.deltas[k].metric, c.deltas[k].run, c.deltas[k].runSpan, run)
      && (drift.None? ==> c.deltas[k].driftAllowance == None)
      && (drift.Some? ==> c.deltas[k].driftAllowance == Some(drift.value.Allowance(c.deltas[k].metric)))
  {
  }
}
