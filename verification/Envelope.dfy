/** The envelope of a configuration: every repetition of every archived run of it, banded together. */
module Envelope {
  import opened Wrappers
  import opened Lists
  import opened Repetition
  import opened Drift
  import opened Compare

  /** The repetitions a run contributes: those its summary unfolds into, or the one draw it published. */
  function DrawsOf(a: Artifact): seq<Row>
    requires a.repetitions.Some? ==> WellFormed(a.repetitions.value)
  {
    if a.repetitions.None? then [a.values] else RepetitionValues(a.repetitions.value)
  }

  ghost predicate AllWellFormed(archive: seq<Artifact>) {
    forall i :: 0 <= i < |archive| && archive[i].repetitions.Some? ==> WellFormed(archive[i].repetitions.value)
  }

  function AllDraws(archive: seq<Artifact>): (r: seq<seq<Row>>)
    requires AllWellFormed(archive)
    ensures |r| == |archive|
    ensures forall i :: 0 <= i < |archive| ==> r[i] == DrawsOf(archive[i])
  {
    seq(|archive|, i requires 0 <= i < |archive| && AllWellFormed(archive) => DrawsOf(archive[i]))
  }

  lemma AllDrawsStep(archive: seq<Artifact>, n: nat)
    requires AllWellFormed(archive) && n < |archive|
    ensures AllWellFormed(archive[..n]) && AllWellFormed(archive[..n + 1])
    ensures Pool(AllDraws(archive[..n + 1])) == Pool(AllDraws(archive[..n])) + DrawsOf(archive[n])
  {
    assert AllDraws(archive[..n + 1]) == AllDraws(archive[..n]) + [DrawsOf(archive[n])];
    PoolAppend(AllDraws(archive[..n]), DrawsOf(archive[n]));
  }

  /** Folds every repetition of every pooled run into one band per metric. */
  method PooledRepetitions(archive: seq<Artifact>) returns (r: Option<RepetitionSummary>)
    requires AllWellFormed(archive)
    ensures r == Summarize(Pool(AllDraws(archive)))
  {
    var draws: seq<Row> := [];
    for n := 0 to |archive|
      invariant AllWellFormed(archive[..n]) && draws == Pool(AllDraws(archive[..n]))
    {
      AllDrawsStep(archive, n);
      var repetitions := archive[n].repetitions;
      if repetitions.None? {
        draws := draws + [archive[n].values];
        continue;
      }
      draws := draws + RepetitionValues(repetitions.value);
    }
    assert archive[..|archive|] == archive;
    r := Summarize(draws);
  }

  // ---------- The envelope is the hull of what the runs banded ----------

  lemma {:induction false} NotUnfolded(bands: seq<MetricBand>, index: nat, metric: string)
    requires forall i :: 0 <= i < |bands| ==> index < |bands[i].values|
    requires FindBand(bands, metric).None?
    ensures Lookup(UnfoldRow(bands, index), metric).None?
  {
    if bands != [] { NotUnfolded(bands[1..], index, metric); }
  }

  lemma {:induction false} NothingMeasured(values: seq<Option<real>>)
    requires forall i :: 0 <= i < |values| ==> values[i].None?
    ensures Measured(values) == []
  {
    if values != [] { NothingMeasured(values[1..]); }
  }

  lemma {:induction false} FoundBand(bands: seq<MetricBand>, metric: string) returns (k: nat)
    requires FindBand(bands, metric).Some?
    ensures k < |bands| && bands[k].metric == metric && FindBand(bands, metric) == Some(bands[k])
  {
    if bands[0].metric == metric {
      k := 0;
    } else {
      k := FoundBand(bands[1..], metric);
      k := k + 1;
    }
  }

  /** What a summary unfolds into is banded, metric by metric, exactly as the summary says. */
  lemma UnfoldedBand(runs: seq<Row>, metric: string)
    requires runs != []
    ensures WellFormed(Summarize(runs).value)
    ensures BandOf(metric, RepetitionValues(Summarize(runs).value)) == Summarize(runs).value.Band(metric)
  {
    SummaryIsWellFormed(runs);
    var s := Summarize(runs).value;
    var rows := RepetitionValues(s);
    if s.Band(metric).Some? {
      var k := FoundBand(s.bands, metric);
      RebuiltBand(runs, k);
    } else {
      forall i | 0 <= i < |rows| ensures Column(metric, rows)[i].None? {
        ColumnAt(metric, rows, i);
        NotUnfolded(s.bands, i, metric);
      }
      NothingMeasured(Column(metric, rows));
    }
  }

  /** The bands a run published for a metric: its summary's, or its one draw's. */
  function PublishedBand(a: Artifact, metric: string): Option<MetricBand> {
    if a.repetitions.Some? then a.repetitions.value.Band(metric) else BandOf(metric, [a.values])
  }

  /** A run whose summary, if it has one, is the summary of some repetitions. */
  ghost predicate Harnessed(a: Artifact) {
    a.repetitions.Some? ==> exists draws: seq<Row> :: draws != [] && a.repetitions == Summarize(draws)
  }

  lemma DrawsAreBanded(a: Artifact, metric: string)
    requires Harnessed(a)
    ensures a.repetitions.Some? ==> WellFormed(a.repetitions.value)
    ensures BandOf(metric, DrawsOf(a)) == PublishedBand(a, metric)
  {
    if a.repetitions.Some? {
      var draws: seq<Row> :| draws != [] && a.repetitions == Summarize(draws);
      UnfoldedBand(draws, metric);
    }
  }

  /** The envelope spans what the runs published: nothing less, and no more than some run reached. */
  ghost predicate CoversRuns(band: MetricBand, metric: string, archive: seq<Artifact>) {
    && (forall i :: 0 <= i < |archive| && PublishedBand(archive[i], metric).Some? ==>
          band.low <= PublishedBand(archive[i], metric).value.low && PublishedBand(archive[i], metric).value.high <= band.high)
    && (exists i :: 0 <= i < |archive| && PublishedBand(archive[i], metric).Some? && PublishedBand(archive[i], metric).value.low == band.low)
    && (exists i :: 0 <= i < |archive| && PublishedBand(archive[i], metric).Some? && PublishedBand(archive[i], metric).value.high == band.high)
  }

  /** The pooled band of a metric exists exactly when some run banded it, and is the hull of what they banded. */
  lemma EnvelopeIsHull(archive: seq<Artifact>, metric: string)
    requires forall i :: 0 <= i < |archive| ==> Harnessed(archive[i])
    ensures AllWellFormed(archive)
    ensures BandOf(metric, Pool(AllDraws(archive))).Some? <==>
      exists i :: 0 <= i < |archive| && PublishedBand(archive[i], metric).Some?
    ensures BandOf(metric, Pool(AllDraws(archive))).Some? ==> CoversRuns(BandOf(metric, Pool(AllDraws(archive))).value, metric, archive)
  {
    forall i | 0 <= i < |archive|
      ensures archive[i].repetitions.Some? ==> WellFormed(archive[i].repetitions.value)
      ensures BandOf(metric, DrawsOf(archive[i])) == PublishedBand(archive[i], metric)
    {
      DrawsAreBanded(archive[i], metric);
    }
    var runs := AllDraws(archive);
    forall i | 0 <= i < |archive| ensures BandOf(metric, runs[i]) == PublishedBand(archive[i], metric) {
    }
    PooledBandIsHull(metric, runs);
    if BandOf(metric, Pool(runs)).Some? {
      SameHull(BandOf(metric, Pool(runs)).value, metric, archive, runs);
    }
    if exists i :: 0 <= i < |archive| && PublishedBand(archive[i], metric).Some? {
      var i :| 0 <= i < |archive| && PublishedBand(archive[i], metric).Some?;
      assert BandOf(metric, runs[i]).Some?;
    }
  }

  lemma SameHull(band: MetricBand, metric: string, archive: seq<Artifact>, runs: seq<seq<Row>>)
    requires |runs| == |archive| && forall i :: 0 <= i < |archive| ==> BandOf(metric, runs[i]) == PublishedBand(archive[i], metric)
    requires IsHull(band, metric, runs)
    ensures CoversRuns(band, metric, archive)
  {
    var i :| 0 <= i < |runs| && BandOf(metric, runs[i]).Some? && BandOf(metric, runs[i]).value.low == band.low;
    var j :| 0 <= j < |runs| && BandOf(metric, runs[j]).Some? && BandOf(metric, runs[j]).value.high == band.high;
    assert PublishedBand(archive[i], metric).Some? && PublishedBand(archive[j], metric).Some?;
    forall k | 0 <= k < |archive| && PublishedBand(archive[k], metric).Some?
      ensures band.low <= PublishedBand(archive[k], metric).value.low && PublishedBand(archive[k], metric).value.high <= band.high
    {
      assert BandOf(metric, runs[k]).Some?;
    }
  }
}
