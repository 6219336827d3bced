/**
  Deterministic snap repair: align a citation to the real block text.

  `difflib.SequenceMatcher` is a parameter of which only the contract `IsMatcher` is used: it
  returns runs that are equal in both texts and strictly increasing without overlap in both.
*/
module Snap {
  import opened Wrappers
  import opened Lists
  import opened Typography
  import opened Ellipsis
  import opened Placement

  const SNAP_SIMILARITY_THRESHOLD: real := 0.90
  const SNAP_LENGTH_TOLERANCE: real := 0.20

  datatype Match = Match(a: nat, b: nat, size: nat)

  type Matcher = (string, string) -> seq<Match>

  datatype SegmentSnap = SegmentSnap(start: nat, end: nat, text: string, similarity: real)

  datatype SnapResult = SnapResult(text: string, similarity: real)

  ghost predicate IsMatch(m: Match, a: string, b: string) {
    && m.a + m.size <= |a| && m.b + m.size <= |b|
    && a[m.a..m.a + m.size] == b[m.b..m.b + m.size]
  }

  ghost predicate Before(m: Match, n: Match) {
    m.a + m.size <= n.a && m.b + m.size <= n.b
  }

  /** `get_matching_blocks()`: equal runs, strictly increasing in both texts. */
  ghost predicate AreMatches(ms: seq<Match>, a: string, b: string) {
    && (forall i :: 0 <= i < |ms| ==> IsMatch(ms[i], a, b))
    && (forall i, j :: 0 <= i < j < |ms| ==> Before(ms[i], ms[j]))
  }

  ghost predicate IsMatcher(matcher: Matcher) {
    forall a, b :: AreMatches(matcher(a, b), a, b)
  }

  function MatchedSize(ms: seq<Match>): nat {
    if ms == [] then 0 else MatchedSize(ms[..|ms| - 1]) + ms[|ms| - 1].size
  }

  /** `SequenceMatcher.ratio()`: twice the matched characters over all characters. */
  function Ratio(matcher: Matcher, a: string, b: string): real {
    if |a| + |b| == 0 then 1.0
    else 2.0 * MatchedSize(matcher(a, b)) as real / (|a| + |b|) as real
  }

  function Sized(ms: seq<Match>): (r: seq<Match>)
    ensures forall m :: m in r ==> m in ms && m.size > 0
  {
    if ms == [] then [] else (if ms[0].size > 0 then [ms[0]] else []) + Sized(ms[1..])
  }

  function Abs(x: int): nat { if x < 0 then -x else x }

  predicate WithinLengthTolerance(spanLength: nat, segmentLength: nat) {
    segmentLength != 0 &&
    Abs(spanLength - segmentLength) as real <= SNAP_LENGTH_TOLERANCE * segmentLength as real
  }

  /** The slice `text[start:end]`, clamped the way Python clamps it. */
  function Slice(text: string, start: nat, end: nat): string {
    if start <= end <= |text| then text[start..end]
    else if start <= |text| < end then text[start..] else ""
  }

  /** One stretch of the block, if it is similar enough to the segment and not too much longer or shorter. */
  function AcceptSpan(matcher: Matcher, segment: string, blockText: string, start: nat, end: nat): Option<SegmentSnap> {
    var span := Slice(blockText, start, end);
    var similarity := Ratio(matcher, span, segment);
    if similarity < SNAP_SIMILARITY_THRESHOLD then None
    else if !WithinLengthTolerance(|span|, |segment|) then None
    else Some(SegmentSnap(start, end, span, similarity))
  }

  /** The stretch from the first aligned run to the last, if any aligns. */
  function AcceptAligned(matcher: Matcher, segment: string, blockText: string, offset: nat, matches: seq<Match>): Option<SegmentSnap> {
    if matches == [] then None
    else
      var last := matches[|matches| - 1];
      AcceptSpan(matcher, segment, blockText, offset + matches[0].a, offset + last.a + last.size)
  }

  /** Aligns one segment to the best span of the block at or after `offset`. */
  function SnapSegment(matcher: Matcher, segment: string, blockText: string, offset: nat): Option<SegmentSnap>
    requires offset <= |blockText|
  {
    AcceptAligned(matcher, segment, blockText, offset, Sized(matcher(blockText[offset..], segment)))
  }

  /** Every segment snapped from `cursor` on, each past the end of the one before. */
  function Snaps(matcher: Matcher, segments: seq<string>, blockText: string, cursor: nat): (r: Option<seq<SegmentSnap>>)
    ensures r.Some? ==> |r.value| == |segments|
  {
    if segments == [] then Some([])
    else if cursor > |blockText| then None
    else match SnapSegment(matcher, segments[0], blockText, cursor)
      case None => None
      case Some(snap) =>
        match Snaps(matcher, segments[1..], blockText, snap.end)
        case None => None
        case Some(rest) => Some([snap] + rest)
  }

  function Texts(snaps: seq<SegmentSnap>): (r: seq<string>)
    ensures |r| == |snaps|
    ensures forall i :: 0 <= i < |snaps| ==> r[i] == snaps[i].text
  {
    seq(|snaps|, i requires 0 <= i < |snaps| => snaps[i].text)
  }

  function Weakest(snaps: seq<SegmentSnap>): (r: real)
    requires snaps != []
    ensures forall i :: 0 <= i < |snaps| ==> r <= snaps[i].similarity
    ensures exists i :: 0 <= i < |snaps| && r == snaps[i].similarity
  {
    if |snaps| == 1 then snaps[0].similarity
    else
      var rest := Weakest(snaps[1..]);
      assert forall i :: 0 < i < |snaps| ==> snaps[i] == snaps[1..][i - 1];
      assert exists i :: 0 < i < |snaps| && rest == snaps[i].similarity by {
        var k :| 0 <= k < |snaps[1..]| && rest == snaps[1..][k].similarity;
        assert snaps[k + 1].similarity == rest;
      }
      if snaps[0].similarity <= rest then snaps[0].similarity else rest
  }

  /** Snaps a whole citation onto one block, or nothing. */
  function SnapOnto(matcher: Matcher, segments: seq<string>, blockText: string): Option<SnapResult>
    requires segments != []
  {
    match Snaps(matcher, segments, blockText, 0)
    case Some(snaps) => Some(SnapResult(Render(Texts(snaps)), Weakest(snaps)))
    case None => None
  }

  // ---------- What a snap is ----------

  lemma {:induction false} MatchedFits(ms: seq<Match>, a: string, b: string)
    requires AreMatches(ms, a, b)
    ensures MatchedSize(ms) <= |a| && MatchedSize(ms) <= |b|
    ensures ms != [] ==> var last := ms[|ms| - 1];
      MatchedSize(ms) <= last.a + last.size && MatchedSize(ms) <= last.b + last.size
  {
    if ms != [] { MatchedFits(ms[..|ms| - 1], a, b); }
  }

  lemma QuotientBound(x: real, n: real, q: real)
    requires n > 0.0 && x / n >= q
    ensures x >= q * n
  {
    var y := x / n;
    assert y * n == x;
    assert (y - q) * n >= 0.0;
  }

  /** The two acceptance thresholds bound the span's length from both sides. */
  lemma AcceptedLength(matcher: Matcher, span: string, segment: string)
    requires IsMatcher(matcher)
    requires Ratio(matcher, span, segment) >= SNAP_SIMILARITY_THRESHOLD
    requires WithinLengthTolerance(|span|, |segment|)
    ensures 9 * |segment| <= 11 * |span| && 5 * |span| <= 6 * |segment|
  {
    var m := MatchedSize(matcher(span, segment)) as real;
    MatchedFits(matcher(span, segment), span, segment);
    var n := (|span| + |segment|) as real;
    QuotientBound(2.0 * m, n, SNAP_SIMILARITY_THRESHOLD);
  }

  /** A literal span of the block, similar to its segment and between 9/11 and 6/5 of its length. */
  ghost predicate IsSpan(snap: SegmentSnap, segment: string, blockText: string) {
    && snap.start < snap.end <= |blockText|
    && snap.text == blockText[snap.start..snap.end]
    && snap.similarity >= SNAP_SIMILARITY_THRESHOLD
    && 9 * |segment| <= 11 * |snap.text| && 5 * |snap.text| <= 6 * |segment|
  }

  /** One span per segment, left to right from `cursor` on and disjoint. */
  ghost predicate AreSpans(snaps: seq<SegmentSnap>, segments: seq<string>, blockText: string, cursor: nat) {
    && |snaps| == |segments|
    && (forall i :: 0 <= i < |snaps| ==> cursor <= snaps[i].start && IsSpan(snaps[i], segments[i], blockText))
    && (forall i, j :: 0 <= i < j < |snaps| ==> snaps[i].end <= snaps[j].start)
  }

  lemma AfterFirst(ms: seq<Match>, a: string, b: string, m: Match)
    requires ms != [] && AreMatches(ms, a, b) && m in ms[1..]
    ensures IsMatch(m, a, b) && Before(ms[0], m)
  {
  }

  lemma {:induction false} SizedAreMatches(ms: seq<Match>, a: string, b: string)
    requires AreMatches(ms, a, b)
    ensures AreMatches(Sized(ms), a, b)
  {
    if ms != [] {
      SizedAreMatches(ms[1..], a, b);
      var r := Sized(ms[1..]);
      forall i | 0 <= i < |r| ensures Before(ms[0], r[i]) {
        assert r[i] in r;
        AfterFirst(ms, a, b, r[i]);
      }
      assert Sized(ms) == r || Sized(ms) == [ms[0]] + r;
    }
  }

  lemma SnapSegmentIsSpan(matcher: Matcher, segment: string, blockText: string, offset: nat)
    requires IsMatcher(matcher) && offset <= |blockText|
    requires SnapSegment(matcher, segment, blockText, offset).Some?
    ensures var snap := SnapSegment(matcher, segment, blockText, offset).value;
      offset <= snap.start && IsSpan(snap, segment, blockText)
  {
    var region := blockText[offset..];
    SizedAreMatches(matcher(region, segment), region, segment);
    var matches := Sized(matcher(region, segment));
    FirstBeforeLast(matches, region, segment);
    AcceptedLength(matcher, SnapSegment(matcher, segment, blockText, offset).value.text, segment);
  }

  lemma FirstBeforeLast(ms: seq<Match>, a: string, b: string)
    requires ms != [] && AreMatches(ms, a, b) && forall m :: m in ms ==> m.size > 0
    ensures ms[0].a < ms[|ms| - 1].a + ms[|ms| - 1].size <= |a|
  {
    var last := ms[|ms| - 1];
    assert last in ms && IsMatch(last, a, b);
    assert |ms| > 1 ==> Before(ms[0], last);
  }

  lemma PrependSpan(snap: SegmentSnap, rest: seq<SegmentSnap>, segments: seq<string>, blockText: string, cursor: nat)
    requires segments != [] && AreSpans(rest, segments[1..], blockText, snap.end)
    requires cursor <= snap.start && IsSpan(snap, segments[0], blockText)
    ensures AreSpans([snap] + rest, segments, blockText, cursor)
  {
    var all := [snap] + rest;
    forall i | 0 <= i < |all| ensures cursor <= all[i].start && IsSpan(all[i], segments[i], blockText) {
      if i > 0 { assert all[i] == rest[i - 1] && segments[i] == segments[1..][i - 1]; }
    }
  }

  lemma {:induction false} SnapsAreSpans(matcher: Matcher, segments: seq<string>, blockText: string, cursor: nat)
    requires IsMatcher(matcher) && Snaps(matcher, segments, blockText, cursor).Some?
    ensures AreSpans(Snaps(matcher, segments, blockText, cursor).value, segments, blockText, cursor)
  {
    if segments != [] {
      var snap := SnapSegment(matcher, segments[0], blockText, cursor).value;
      SnapSegmentIsSpan(matcher, segments[0], blockText, cursor);
      SnapsAreSpans(matcher, segments[1..], blockText, snap.end);
      var rest := Snaps(matcher, segments[1..], blockText, snap.end).value;
      PrependSpan(snap, rest, segments, blockText, cursor);
    }
  }

  lemma {:induction false} SpansAreScattered(snaps: seq<SegmentSnap>, segments: seq<string>, blockText: string, cursor: nat)
    requires cursor <= |blockText| && AreSpans(snaps, segments, blockText, cursor)
    ensures Scattered(Texts(snaps), blockText[cursor..])
  {
    if snaps != [] {
      var s := snaps[0];
      assert AreSpans(snaps[1..], segments[1..], blockText, s.end);
      SpansAreScattered(snaps[1..], segments[1..], blockText, s.end);
      assert blockText[cursor..][s.start - cursor + |s.text|..] == blockText[s.end..];
      assert At(blockText, cursor + (s.start - cursor), s.text);
      OccurrencesAhead(blockText, cursor, s.text, s.start - cursor);
      PlaceFirst(s.text, Texts(snaps[1..]), blockText[cursor..], s.start - cursor);
      assert [s.text] + Texts(snaps[1..]) == Texts(snaps);
    }
  }

  // ---------- Which snap a segment gets ----------

  /** The first and the last of the matching blocks that are not empty. */
  ghost predicate Ends(ms: seq<Match>, i: nat, j: nat) {
    && i <= j < |ms| && ms[i].size > 0 && ms[j].size > 0
    && (forall k :: 0 <= k < i ==> ms[k].size == 0) && (forall k :: j < k < |ms| ==> ms[k].size == 0)
  }

  lemma {:induction false} SizedHasEnds(ms: seq<Match>, i: nat, j: nat)
    requires Ends(ms, i, j)
    ensures Sized(ms) != [] && Sized(ms)[0] == ms[i] && Sized(ms)[|Sized(ms)| - 1] == ms[j]
    decreases |ms|
  {
    if i > 0 {
      SizedHasEnds(ms[1..], i - 1, j - 1);
    } else if j > 0 {
      var k := FirstSized(ms[1..], j - 1);
      SizedHasEnds(ms[1..], k, j - 1);
    } else {
      NoneSized(ms[1..]);
    }
  }

  lemma FirstSized(ms: seq<Match>, j: nat) returns (i: nat)
    requires j < |ms| && ms[j].size > 0
    ensures i <= j && ms[i].size > 0 && forall k :: 0 <= k < i ==> ms[k].size == 0
  {
    i := 0;
    while ms[i].size == 0
      invariant i <= j && forall k :: 0 <= k < i ==> ms[k].size == 0
      decreases j - i
    {
      i := i + 1;
    }
  }

  lemma {:induction false} NoneSized(ms: seq<Match>)
    requires forall k :: 0 <= k < |ms| ==> ms[k].size == 0
    ensures Sized(ms) == []
  {
    if ms != [] { NoneSized(ms[1..]); }
  }

  /** What a stretch of the block must be to stand in for a segment. */
  ghost predicate Acceptable(matcher: Matcher, span: string, segment: string) {
    && 10.0 * Ratio(matcher, span, segment) >= 9.0
    && segment != "" && 5 * |span| <= 6 * |segment| && 4 * |segment| <= 5 * |span|
  }

  lemma AcceptSpanIs(matcher: Matcher, segment: string, blockText: string, start: nat, end: nat, span: string)
    requires start <= end <= |blockText| && span == blockText[start..end]
    ensures AcceptSpan(matcher, segment, blockText, start, end) ==
            if Acceptable(matcher, span, segment) then Some(SegmentSnap(start, end, span, Ratio(matcher, span, segment))) else None
  {
    ToleranceIs(|span|, |segment|);
  }

  lemma EndsInside(ms: seq<Match>, region: string, segment: string, i: nat, j: nat)
    requires AreMatches(ms, region, segment) && Ends(ms, i, j)
    ensures ms[i].a < ms[j].a + ms[j].size <= |region|
  {
    assert IsMatch(ms[j], region, segment) && (i < j ==> Before(ms[i], ms[j]));
  }

  lemma AlignedIs(matcher: Matcher, segment: string, blockText: string, offset: nat, sized: seq<Match>, start: nat, end: nat)
    requires sized != [] && start == offset + sized[0].a && end == offset + sized[|sized| - 1].a + sized[|sized| - 1].size
    ensures AcceptAligned(matcher, segment, blockText, offset, sized) == AcceptSpan(matcher, segment, blockText, start, end)
  {
  }

  /**
    A segment takes the stretch from its first aligned run to its last, if that is nine tenths similar
    and no more than a fifth longer or shorter.
  */
  lemma SnapSegmentIs(matcher: Matcher, segment: string, blockText: string, offset: nat, ms: seq<Match>, i: nat, j: nat,
                      start: nat, end: nat, span: string)
    requires IsMatcher(matcher) && offset <= |blockText| && ms == matcher(blockText[offset..], segment) && Ends(ms, i, j)
    requires start == offset + ms[i].a && end == offset + ms[j].a + ms[j].size
    requires start <= end <= |blockText| ==> span == blockText[start..end]
    ensures start < end <= |blockText|
    ensures SnapSegment(matcher, segment, blockText, offset) ==
            if Acceptable(matcher, span, segment) then Some(SegmentSnap(start, end, span, Ratio(matcher, span, segment))) else None
  {
    EndsInside(ms, blockText[offset..], segment, i, j);
    SizedHasEnds(ms, i, j);
    AlignedIs(matcher, segment, blockText, offset, Sized(ms), start, end);
    AcceptSpanIs(matcher, segment, blockText, start, end, span);
  }

  lemma ToleranceIs(span: nat, segment: nat)
    ensures WithinLengthTolerance(span, segment) <==> segment != 0 && 5 * span <= 6 * segment && 4 * segment <= 5 * span
  {
  }

  /** A segment that shares no run with the rest of the block snaps nowhere. */
  lemma NoRunNoSnap(matcher: Matcher, segment: string, blockText: string, offset: nat)
    requires offset <= |blockText|
    requires var ms := matcher(blockText[offset..], segment); forall k :: 0 <= k < |ms| ==> ms[k].size == 0
    ensures SnapSegment(matcher, segment, blockText, offset) == None
  {
    NoneSized(matcher(blockText[offset..], segment));
  }

  function CursorAt(snaps: seq<SegmentSnap>, cursor: nat, i: nat): nat
    requires i <= |snaps|
  {
    if i == 0 then cursor else snaps[i - 1].end
  }

  /** Each segment snapped in turn, looking past the end of the one before. */
  ghost predicate Chained(matcher: Matcher, segments: seq<string>, blockText: string, cursor: nat, snaps: seq<SegmentSnap>) {
    && |snaps| == |segments|
    && forall i :: 0 <= i < |snaps| ==>
         && CursorAt(snaps, cursor, i) <= |blockText|
         && SnapSegment(matcher, segments[i], blockText, CursorAt(snaps, cursor, i)) == Some(snaps[i])
  }

  lemma ChainedTail(matcher: Matcher, segments: seq<string>, blockText: string, cursor: nat, snaps: seq<SegmentSnap>)
    requires segments != [] && snaps != []
    ensures Chained(matcher, segments, blockText, cursor, snaps) <==>
      && cursor <= |blockText| && SnapSegment(matcher, segments[0], blockText, cursor) == Some(snaps[0])
      && Chained(matcher, segments[1..], blockText, snaps[0].end, snaps[1..])
  {
    forall i | 0 < i < |snaps| ensures CursorAt(snaps, cursor, i) == CursorAt(snaps[1..], snaps[0].end, i - 1) {
    }
    if Chained(matcher, segments[1..], blockText, snaps[0].end, snaps[1..]) && |snaps| == |segments| {
      forall i | 0 < i < |snaps|
        ensures CursorAt(snaps, cursor, i) <= |blockText|
        ensures SnapSegment(matcher, segments[i], blockText, CursorAt(snaps, cursor, i)) == Some(snaps[i])
      {
        assert segments[i] == segments[1..][i - 1] && snaps[i] == snaps[1..][i - 1];
      }
    }
    if Chained(matcher, segments, blockText, cursor, snaps) {
      forall i | 0 <= i < |snaps| - 1
        ensures CursorAt(snaps[1..], snaps[0].end, i) <= |blockText|
        ensures SnapSegment(matcher, segments[1..][i], blockText, CursorAt(snaps[1..], snaps[0].end, i)) == Some(snaps[1..][i])
      {
        assert CursorAt(snaps, cursor, i + 1) == CursorAt(snaps[1..], snaps[0].end, i);
      }
    }
  }

  lemma SnapsStep(matcher: Matcher, segments: seq<string>, blockText: string, cursor: nat, snaps: seq<SegmentSnap>)
    requires segments != [] && snaps != []
    ensures Snaps(matcher, segments, blockText, cursor) == Some(snaps) <==>
      && cursor <= |blockText| && SnapSegment(matcher, segments[0], blockText, cursor) == Some(snaps[0])
      && Snaps(matcher, segments[1..], blockText, snaps[0].end) == Some(snaps[1..])
  {
    assert snaps == [snaps[0]] + snaps[1..];
    assert forall head: SegmentSnap, tail: seq<SegmentSnap> :: ([head] + tail)[0] == head && ([head] + tail)[1..] == tail;
  }

  /** A citation snaps exactly when its segments do, one after the other; then it shows their texts. */
  lemma {:induction false} SnapsAreChained(matcher: Matcher, segments: seq<string>, blockText: string, cursor: nat,
                                           snaps: seq<SegmentSnap>)
    ensures Snaps(matcher, segments, blockText, cursor) == Some(snaps) <==> Chained(matcher, segments, blockText, cursor, snaps)
    decreases |segments|
  {
    if segments == [] {
      assert Snaps(matcher, segments, blockText, cursor) == Some([]);
    } else if snaps != [] {
      SnapsAreChained(matcher, segments[1..], blockText, snaps[0].end, snaps[1..]);
      ChainedTail(matcher, segments, blockText, cursor, snaps);
      SnapsStep(matcher, segments, blockText, cursor, snaps);
    }
  }

  // ---------- The loop ----------

  /** `Snaps` continued after a prefix already done. */
  ghost function Continued(done: seq<SegmentSnap>, rest: Option<seq<SegmentSnap>>): Option<seq<SegmentSnap>> {
    match rest case Some(r) => Some(done + r) case None => None
  }

  lemma ContinuedFromNothing(rest: Option<seq<SegmentSnap>>)
    ensures Continued([], rest) == rest
  {
    if rest.Some? { assert [] + rest.value == rest.value; }
  }

  lemma ContinuedToEnd(matcher: Matcher, blockText: string, cursor: nat, done: seq<SegmentSnap>)
    ensures Continued(done, Snaps(matcher, [], blockText, cursor)) == Some(done)
  {
    assert done + [] == done;
  }

  lemma SnapsContinue(matcher: Matcher, segments: seq<string>, blockText: string, cursor: nat, done: seq<SegmentSnap>)
    requires segments != [] && cursor <= |blockText|
    ensures Continued(done, Snaps(matcher, segments, blockText, cursor)) ==
      match SnapSegment(matcher, segments[0], blockText, cursor)
      case None => None
      case Some(snap) => Continued(done + [snap], Snaps(matcher, segments[1..], blockText, snap.end))
  {
    var head := SnapSegment(matcher, segments[0], blockText, cursor);
    if head.Some? {
      var tail := Snaps(matcher, segments[1..], blockText, head.value.end);
      if tail.Some? { AppendAssociates(done, [head.value], tail.value); }
    }
  }

  /** The snap loop: it computes exactly `SnapOnto`. */
  method SnapCitation(matcher: Matcher, segments: seq<string>, blockText: string) returns (r: Option<SnapResult>)
    requires IsMatcher(matcher) && segments != []
    ensures r == SnapOnto(matcher, segments, blockText)
  {
    var snaps: seq<SegmentSnap> := [];
    var cursor := 0;
    assert segments[0..] == segments;
    ContinuedFromNothing(Snaps(matcher, segments, blockText, 0));
    for n := 0 to |segments|
      invariant 0 <= cursor <= |blockText| && |snaps| == n
      invariant Snaps(matcher, segments, blockText, 0) ==
                Continued(snaps, Snaps(matcher, segments[n..], blockText, cursor))
    {
      assert segments[n..][1..] == segments[n + 1..];
      SnapsContinue(matcher, segments[n..], blockText, cursor, snaps);
      var snap := SnapSegment(matcher, segments[n], blockText, cursor);
      if snap.None? { return None; }
      SnapSegmentIsSpan(matcher, segments[n], blockText, cursor);
      snaps := snaps + [snap.value];
      cursor := snap.value.end;
    }
    assert segments[|segments|..] == [];
    ContinuedToEnd(matcher, blockText, cursor, snaps);
    r := Some(SnapResult(Render(Texts(snaps)), Weakest(snaps)));
  }
}
