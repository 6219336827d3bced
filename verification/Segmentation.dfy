/** The segmentation layer of the Mode 2 evaluation: reference spans against predicted spans. */
module Segmentation {
  import opened Wrappers

  const DEFAULT_IOU_THRESHOLD := 0.8

  /** A half-open character range carrying its owner's id. */
  datatype LabeledSpan = LabeledSpan(id: string, start: int, end: int)

  datatype SpanMatch = SpanMatch(referenceId: string, predictedId: Option<string>, iou: real, matched: bool)

  function Min(x: int, y: int): int { if x <= y then x else y }

  function Max(x: int, y: int): int { if x >= y then x else y }

  function Intersection(a: LabeledSpan, b: LabeledSpan): int {
    Max(0, Min(a.end, b.end) - Max(a.start, b.start))
  }

  function CharacterIou(a: LabeledSpan, b: LabeledSpan): real {
    var intersection := Intersection(a, b);
    if intersection == 0 then 0.0
    else
      var union := (a.end - a.start) + (b.end - b.start) - intersection;
      if union <= 0 then 0.0 else intersection as real / union as real
  }

  // ---------- What the overlap measures ----------

  /** The characters a span covers; an inverted span covers none. */
  ghost function Positions(s: LabeledSpan): set<int> {
    Range(s.start, s.end)
  }

  predicate Within(p: int, lo: int, hi: int) { lo <= p < hi }

  ghost function Range(lo: int, hi: int): set<int> {
    set p | lo <= p < hi && Within(p, lo, hi)
  }

  lemma {:induction false} RangeSize(lo: int, hi: int)
    ensures |Range(lo, hi)| == Max(0, hi - lo)
    decreases hi - lo
  {
    if lo < hi {
      RangeSize(lo, hi - 1);
      assert Range(lo, hi) == Range(lo, hi - 1) + {hi - 1};
    } else {
      assert Range(lo, hi) == {};
    }
  }

  /** The overlap is intersection over union of the two sets of characters, for any spans at all. */
  lemma IouIsOverSets(a: LabeledSpan, b: LabeledSpan)
    ensures var common, all := Positions(a) * Positions(b), Positions(a) + Positions(b);
      CharacterIou(a, b) == if common == {} then 0.0 else |common| as real / |all| as real
  {
    var common, all := Positions(a) * Positions(b), Positions(a) + Positions(b);
    assert common == Range(Max(a.start, b.start), Min(a.end, b.end));
    RangeSize(Max(a.start, b.start), Min(a.end, b.end));
    RangeSize(a.start, a.end);
    RangeSize(b.start, b.end);
    assert |all| == |Positions(a)| + |Positions(b)| - |common|;
    if common != {} {
      var p :| p in common;
    }
  }

  lemma PositiveProduct(x: real, y: real)
    requires x > 0.0 && y > 0.0
    ensures x * y > 0.0
  {
  }

  lemma CompareFraction(n: int, d: int, q: real)
    requires d > 0
    ensures n as real / d as real > q <==> n as real > q * d as real
    ensures n as real / d as real == q <==> n as real == q * d as real
  {
    var x, y := n as real / d as real, d as real;
    assert x * y == n as real;
    assert (x - q) * y == x * y - q * y && (q - x) * y == q * y - x * y;
    if x > q { PositiveProduct(x - q, y); }
    if x < q { PositiveProduct(q - x, y); }
  }

  /** The overlap is total exactly for spans that coincide and are not empty. */
  lemma IouRange(a: LabeledSpan, b: LabeledSpan)
    ensures 0.0 <= CharacterIou(a, b) <= 1.0
    ensures CharacterIou(a, b) > 0.0 <==> Intersection(a, b) > 0
    ensures CharacterIou(a, b) == 1.0 <==> a.start == b.start < a.end == b.end
    ensures CharacterIou(a, b) == CharacterIou(b, a)
  {
    var n := Intersection(a, b);
    if n > 0 {
      var d := (a.end - a.start) + (b.end - b.start) - n;
      UnionSize(a, b);
      CompareFraction(n, d, 0.0);
      CompareFraction(n, d, 1.0);
    }
  }

  lemma UnionSize(a: LabeledSpan, b: LabeledSpan)
    requires Intersection(a, b) > 0
    ensures var d := (a.end - a.start) + (b.end - b.start) - Intersection(a, b);
      && Intersection(a, b) <= d && d >= a.end - a.start && d >= b.end - b.start
      && (Intersection(a, b) == d <==> a.start == b.start && a.end == b.end)
  {
  }

  // ---------- The match of a reference span ----------

  /** The position of the predicted span a reference overlaps most: the first of the best, if any overlaps. */
  function BestIndex(ref: LabeledSpan, predicted: seq<LabeledSpan>): (r: Option<nat>)
    ensures r.Some? ==> r.value < |predicted|
  {
    if predicted == [] then None
    else
      var n := |predicted| - 1;
      if CharacterIou(ref, predicted[n]) > BestIou(ref, predicted[..n]) then Some(n)
      else BestIndex(ref, predicted[..n])
  }

  function BestIou(ref: LabeledSpan, predicted: seq<LabeledSpan>): real {
    if predicted == [] then 0.0
    else
      var n := |predicted| - 1;
      var iou, best := CharacterIou(ref, predicted[n]), BestIou(ref, predicted[..n]);
      if iou > best then iou else best
  }

  ghost predicate IsBest(ref: LabeledSpan, predicted: seq<LabeledSpan>, k: nat) {
    && k < |predicted|
    && CharacterIou(ref, predicted[k]) > 0.0
    && (forall j :: 0 <= j < |predicted| ==> CharacterIou(ref, predicted[j]) <= CharacterIou(ref, predicted[k]))
    && (forall j :: 0 <= j < k ==> CharacterIou(ref, predicted[j]) < CharacterIou(ref, predicted[k]))
  }

  ghost predicate OverlapsNone(ref: LabeledSpan, predicted: seq<LabeledSpan>) {
    forall j :: 0 <= j < |predicted| ==> CharacterIou(ref, predicted[j]) == 0.0
  }

  lemma {:induction false} BestIsFirstMaximum(ref: LabeledSpan, predicted: seq<LabeledSpan>)
    ensures BestIndex(ref, predicted).None? ==> OverlapsNone(ref, predicted) && BestIou(ref, predicted) == 0.0
    ensures BestIndex(ref, predicted).Some? ==>
      var k := BestIndex(ref, predicted).value;
      IsBest(ref, predicted, k) && BestIou(ref, predicted) == CharacterIou(ref, predicted[k])
  {
    if predicted != [] {
      var init, last := predicted[..|predicted| - 1], predicted[|predicted| - 1];
      BestIsFirstMaximum(ref, init);
      IouRange(ref, last);
      assert forall j :: 0 <= j < |init| ==> init[j] == predicted[j];
      if BestIndex(ref, predicted) == Some(|init|) {
        assert forall j :: 0 <= j < |init| ==> CharacterIou(ref, init[j]) <= BestIou(ref, init);
      }
    }
  }

  lemma OnlyOneBest(ref: LabeledSpan, predicted: seq<LabeledSpan>, k: nat)
    requires IsBest(ref, predicted, k)
    ensures BestIndex(ref, predicted) == Some(k)
  {
    BestIsFirstMaximum(ref, predicted);
  }

  function MatchOf(ref: LabeledSpan, predicted: seq<LabeledSpan>, threshold: real): SpanMatch {
    var best := BestIndex(ref, predicted);
    var iou := BestIou(ref, predicted);
    SpanMatch(ref.id, if best.Some? then Some(predicted[best.value].id) else None, iou, iou >= threshold)
  }

  function MatchesOf(reference: seq<LabeledSpan>, predicted: seq<LabeledSpan>, threshold: real): (r: seq<SpanMatch>)
    ensures |r| == |reference|
    ensures forall i :: 0 <= i < |reference| ==> r[i] == MatchOf(reference[i], predicted, threshold)
  {
    seq(|reference|, i requires 0 <= i < |reference| => MatchOf(reference[i], predicted, threshold))
  }

  method BestOverlap(ref: LabeledSpan, predicted: seq<LabeledSpan>) returns (bestId: Option<string>, bestIou: real)
    ensures bestIou == BestIou(ref, predicted)
    ensures bestId == if BestIndex(ref, predicted).Some? then Some(predicted[BestIndex(ref, predicted).value].id) else None
  {
    bestId, bestIou := None, 0.0;
    for n := 0 to |predicted|
      invariant bestIou == BestIou(ref, predicted[..n])
      invariant bestId == if BestIndex(ref, predicted[..n]).Some? then Some(predicted[BestIndex(ref, predicted[..n]).value].id) else None
    {
      var candidate := predicted[n];
      assert predicted[..n + 1][..n] == predicted[..n] && predicted[..n + 1][n] == candidate;
      var iou := CharacterIou(ref, candidate);
      if iou > bestIou {
        bestId, bestIou := Some(candidate.id), iou;
      }
    }
    assert predicted[..|predicted|] == predicted;
  }

  method MatchSpans(reference: seq<LabeledSpan>, predicted: seq<LabeledSpan>, threshold: real)
    returns (matches: seq<SpanMatch>)
    ensures matches == MatchesOf(reference, predicted, threshold)
  {
    matches := [];
    for n := 0 to |reference|
      invariant |matches| == n
      invariant forall i :: 0 <= i < n ==> matches[i] == MatchOf(reference[i], predicted, threshold)
    {
      var bestId, bestIou := BestOverlap(reference[n], predicted);
      matches := matches + [SpanMatch(reference[n].id, bestId, bestIou, bestIou >= threshold)];
    }
  }

  // ---------- No prediction answers for two clauses ----------

  predicate Disjoint(a: LabeledSpan, b: LabeledSpan) {
    a.end <= b.start || b.end <= a.start
  }

  lemma MoreThanHalf(a: LabeledSpan, b: LabeledSpan)
    requires CharacterIou(a, b) > 0.5
    ensures 2 * Intersection(a, b) > b.end - b.start > 0
  {
    IouRange(a, b);
    UnionSize(a, b);
    CompareFraction(Intersection(a, b), (a.end - a.start) + (b.end - b.start) - Intersection(a, b), 0.5);
  }

  lemma DisjointReferencesShareNone(a: LabeledSpan, c: LabeledSpan, b: LabeledSpan, threshold: real)
    requires threshold > 0.5 && Disjoint(a, c)
    ensures !(CharacterIou(a, b) >= threshold && CharacterIou(c, b) >= threshold)
  {
    if CharacterIou(a, b) >= threshold && CharacterIou(c, b) >= threshold {
      MoreThanHalf(a, b);
      MoreThanHalf(c, b);
      assert false;
    }
  }

  ghost predicate Separates(threshold: real) {
    forall a: LabeledSpan, c: LabeledSpan, b: LabeledSpan :: Disjoint(a, c) ==>
      !(CharacterIou(a, b) >= threshold && CharacterIou(c, b) >= threshold)
  }

  /** A threshold keeps two disjoint references from sharing a prediction exactly when it is above one half. */
  lemma SeparatesIffAboveHalf(threshold: real)
    ensures Separates(threshold) <==> threshold > 0.5
  {
    if threshold > 0.5 {
      forall a: LabeledSpan, c: LabeledSpan, b: LabeledSpan | Disjoint(a, c)
        ensures !(CharacterIou(a, b) >= threshold && CharacterIou(c, b) >= threshold)
      {
        DisjointReferencesShareNone(a, c, b, threshold);
      }
    } else {
      var a, c, b := LabeledSpan("a", 0, 1), LabeledSpan("c", 1, 2), LabeledSpan("b", 0, 2);
      assert Disjoint(a, c) && CharacterIou(a, b) == 0.5 && CharacterIou(c, b) == 0.5;
    }
  }

  ghost predicate PairwiseDisjoint(spans: seq<LabeledSpan>) {
    forall i, j :: 0 <= i < j < |spans| ==> Disjoint(spans[i], spans[j])
  }

  ghost predicate DistinctIds(spans: seq<LabeledSpan>) {
    forall i, j :: 0 <= i < j < |spans| ==> spans[i].id != spans[j].id
  }

  /** Two delimited reference clauses are matched to different predictions. */
  lemma DelimitedIsInjective(reference: seq<LabeledSpan>, predicted: seq<LabeledSpan>, threshold: real, i: nat, j: nat)
    requires threshold > 0.5 && PairwiseDisjoint(reference) && DistinctIds(predicted)
    requires i < j < |reference|
    ensures var matches := MatchesOf(reference, predicted, threshold);
      matches[i].matched && matches[j].matched ==>
        matches[i].predictedId.Some? && matches[j].predictedId.Some? && matches[i].predictedId != matches[j].predictedId
  {
    var matches := MatchesOf(reference, predicted, threshold);
    BestIsFirstMaximum(reference[i], predicted);
    BestIsFirstMaximum(reference[j], predicted);
    if matches[i].matched && matches[j].matched {
      var p, q := BestIndex(reference[i], predicted).value, BestIndex(reference[j], predicted).value;
      DisjointReferencesShareNone(reference[i], reference[j], predicted[p], threshold);
    }
  }

  /** Among disjoint predictions, one that overlaps a reference by more than half is its match. */
  lemma AboveHalfIsBest(ref: LabeledSpan, predicted: seq<LabeledSpan>, k: nat)
    requires PairwiseDisjoint(predicted) && k < |predicted| && CharacterIou(ref, predicted[k]) > 0.5
    ensures BestIndex(ref, predicted) == Some(k)
  {
    var best := predicted[k];
    forall j | 0 <= j < |predicted| && j != k ensures CharacterIou(ref, predicted[j]) < CharacterIou(ref, best) {
      assert Disjoint(predicted[j], best);
      IouRange(predicted[j], ref);
      IouRange(best, ref);
      DisjointReferencesShareNone(predicted[j], best, ref, CharacterIou(ref, best));
    }
    OnlyOneBest(ref, predicted, k);
  }

  ghost predicate Reaches(ref: LabeledSpan, predicted: seq<LabeledSpan>, threshold: real, k: nat) {
    k < |predicted| && CharacterIou(ref, predicted[k]) >= threshold
  }

  /** A match names the first prediction of greatest overlap, and it is that one which meets the threshold. */
  lemma MatchedIsBest(ref: LabeledSpan, predicted: seq<LabeledSpan>, threshold: real) returns (k: nat)
    requires threshold > 0.0
    ensures var m := MatchOf(ref, predicted, threshold);
      m.matched ==> Reaches(ref, predicted, threshold, k) && m.predictedId == Some(predicted[k].id)
  {
    BestIsFirstMaximum(ref, predicted);
    k := if BestIndex(ref, predicted).Some? then BestIndex(ref, predicted).value else 0;
  }

  lemma ReachingIsMatched(ref: LabeledSpan, predicted: seq<LabeledSpan>, threshold: real, k: nat)
    requires threshold > 0.0 && Reaches(ref, predicted, threshold, k)
    ensures MatchOf(ref, predicted, threshold).matched
  {
    BestIsFirstMaximum(ref, predicted);
  }

  /** A segmentation that delimits every reference exactly is credited with every clause that has text. */
  lemma ExactSegmentation(reference: seq<LabeledSpan>, predicted: seq<LabeledSpan>, threshold: real, i: nat)
    requires 0.0 < threshold <= 1.0 && PairwiseDisjoint(reference) && |predicted| == |reference|
    requires forall k :: 0 <= k < |reference| ==> predicted[k].start == reference[k].start && predicted[k].end == reference[k].end
    requires i < |reference|
    ensures MatchOf(reference[i], predicted, threshold) ==
      if reference[i].start < reference[i].end then SpanMatch(reference[i].id, Some(predicted[i].id), 1.0, true)
      else SpanMatch(reference[i].id, None, 0.0, false)
  {
    var ref := reference[i];
    forall j | 0 <= j < |predicted| ensures CharacterIou(ref, predicted[j]) == if j == i && ref.start < ref.end then 1.0 else 0.0 {
      IouRange(ref, predicted[j]);
      if j != i { assert Disjoint(ref, reference[j]); }
    }
    BestIsFirstMaximum(ref, predicted);
    if ref.start < ref.end {
      OnlyOneBest(ref, predicted, i);
    }
  }
}
