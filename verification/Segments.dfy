/**
  What the segments of a quote look like, where they stand in it, and when there are none.
*/
module Segments {
  import opened Wrappers
  import opened Typography
  import opened Ellipsis
  import opened Reparse
  import opened Placement

  // ---------- Words of an expanded text are stretches of the text itself ----------

  function SkipMarks(x: string): string {
    if x != "" && (x[0] == '.' || x[0] == '\U{2026}') then SkipMarks(x[1..]) else x
  }

  lemma {:induction false} SkipMarksIsSuffix(x: string)
    ensures Suffix(SkipMarks(x), x)
  {
    if x != "" && (x[0] == '.' || x[0] == '\U{2026}') { SkipMarksIsSuffix(x[1..]); }
  }

  lemma {:induction false} SkipSpacesExpand(x: string)
    ensures SkipSpaces(Expand(x)) == Expand(SkipSpaces(x))
  {
    if x != "" && IsSpace(x[0]) { SkipSpacesExpand(x[1..]); }
  }

  lemma DotsInFront(r: string)
    ensures SkipDots("..." + r) == SkipDots(r)
  {
    assert ("..." + r)[1..] == ".." + r && (".." + r)[1..] == "." + r && ("." + r)[1..] == r;
    assert SkipDots("." + r) == SkipDots(r);
    assert SkipDots(".." + r) == SkipDots(r);
  }

  lemma {:induction false} SkipDotsExpand(x: string)
    ensures SkipDots(Expand(x)) == Expand(SkipMarks(x))
  {
    if x != "" {
      if x[0] == '\U{2026}' { DotsInFront(Expand(x[1..])); }
      SkipDotsExpand(x[1..]);
    }
  }

  lemma BracketsExpand(x: string)
    ensures AfterOpen(Expand(x)) == Expand(AfterOpen(x))
    ensures AfterClose(Expand(x)) == Expand(AfterClose(x))
  {
  }

  /** A mark in the expanded text ends where a character of the text begins. */
  lemma RunExpand(x: string) returns (y: string)
    requires EllipsisRun(Expand(x)).Some?
    ensures |y| < |x| && Suffix(y, x) && EllipsisRun(Expand(x)) == Some(Expand(y))
  {
    var dots := SkipSpaces(AfterOpen(x));
    var rest := SkipMarks(dots);
    y := AfterClose(SkipSpaces(rest));
    BracketsExpand(x);
    SkipSpacesExpand(AfterOpen(x));
    SkipDotsExpand(dots);
    SkipSpacesExpand(rest);
    BracketsExpand(SkipSpaces(rest));
    BracketIsSuffix(x);
    BracketIsSuffix(SkipSpaces(rest));
    SkipMarksIsSuffix(dots);
    SpacesBetween(rest, y, dots);
    SpacesBetween(AfterOpen(x), y, x);
  }

  /** The first word is a prefix of the text and the rest follow it in order. */
  ghost predicate Laid(ws: seq<string>, x: string)
    requires ws != []
  {
    |ws[0]| <= |x| && ws[0] == x[..|ws[0]|] && Scattered(ws[1..], x[|ws[0]|..])
  }

  lemma LaidIsScattered(ws: seq<string>, x: string)
    requires ws != [] && Laid(ws, x)
    ensures Scattered(ws, x)
  {
    PlaceFirst(ws[0], ws[1..], x, 0);
    assert [ws[0]] + ws[1..] == ws;
  }

  lemma LaidPrepend(c: char, ws: seq<string>, x: string)
    requires ws != [] && Laid(ws, x)
    ensures Laid(PrependFirst(c, ws), [c] + x)
  {
    var r, t := PrependFirst(c, ws), [c] + x;
    assert t[|r[0]|..] == x[|ws[0]|..];
    assert r[1..] == ws[1..];
  }

  lemma LaidMark(ws: seq<string>, y: string, x: string)
    requires ws != [] && Laid(ws, y) && Suffix(y, x)
    ensures Laid([""] + ws, x)
  {
    LaidIsScattered(ws, y);
    ScatteredInSuffix(ws, y, x);
    assert ([""] + ws)[1..] == ws && x[0..] == x;
  }

  lemma {:induction false} WordsAreLaid(x: string)
    ensures Laid(Words(Expand(x)), x)
    decreases |x|
  {
    if x != "" {
      var t := Expand(x);
      if EllipsisRun(t).Some? {
        var y := RunExpand(x);
        WordsAreLaid(y);
        LaidMark(Words(Expand(y)), y, x);
      } else {
        ExpandedStart(x);
        WordsAreLaid(x[1..]);
        LaidPrepend(x[0], Words(Expand(x[1..])), x[1..]);
        assert [x[0]] + x[1..] == x;
      }
    }
  }

  /** An ellipsis character always expands to a mark. */
  lemma EllipsisIsMark(x: string)
    requires x != "" && x[0] == '\U{2026}'
    ensures EllipsisRun(Expand(x)).Some?
  {
    DotsInFront(Expand(x[1..]));
    var t := Expand(x);
    assert AfterOpen(t) == t && SkipSpaces(t) == t;
  }

  lemma ExpandedStart(x: string)
    requires x != "" && EllipsisRun(Expand(x)) == None
    ensures x[0] != '\U{2026}' && Expand(x)[0] == x[0] && Expand(x)[1..] == Expand(x[1..])
  {
    if x[0] == '\U{2026}' { EllipsisIsMark(x); }
  }

  lemma SegmentsAreScattered(x: string)
    ensures Scattered(SegmentsOf(Expand(x)), x)
  {
    WordsAreLaid(x);
    LaidIsScattered(Words(Expand(x)), x);
    ScatteredStrip(Words(Expand(x)), x);
  }

  lemma {:induction false} ScatteredLists(spans: seq<string>, lists: seq<seq<string>>, t: string)
    requires |lists| == |spans| && Scattered(spans, t)
    requires forall i :: 0 <= i < |spans| ==> Scattered(lists[i], spans[i])
    ensures Scattered(Flat(lists), t)
  {
    if spans != [] {
      var k :| At(t, k, spans[0]) && Scattered(spans[1..], t[k + |spans[0]|..]);
      ScatteredLists(spans[1..], lists[1..], t[k + |spans[0]|..]);
      ScatteredFrom(lists[0], Flat(lists[1..]), t, k, spans[0]);
    }
  }

  /** Segments of spans that are themselves in order in a text are in order in it. */
  lemma AllSegmentsAreScattered(spans: seq<string>, t: string)
    requires Scattered(spans, t)
    ensures Scattered(AllSegments(spans), t)
  {
    forall i | 0 <= i < |spans| ensures Scattered(SegmentLists(spans)[i], spans[i]) {
      SegmentsAreScattered(spans[i]);
    }
    ScatteredLists(spans, SegmentLists(spans), t);
  }

  // ---------- Clean segments survive the print ----------

  ghost predicate NoTripleDot(w: string) {
    forall i, j, k :: 0 <= i < j < k < |w| && j == i + 1 && k == j + 1 ==> w[i] != '.' || w[j] != '.' || w[k] != '.'
  }

  /** What every segment of a quote is: tidy, trimmed, non-empty and free of ellipsis marks. */
  ghost predicate Clean(nfc: string -> string, s: string) {
    Tidy(nfc, s) && Trimmed(s) && s != "" && HasNoMark(s) && NoTripleDot(s)
  }

  lemma {:induction false} ThreeDots(t: string)
    requires |t| - |SkipDots(t)| >= 3
    ensures |t| >= 3 && t[0] == t[1] == t[2] == '.'
  {
    assert SkipDots(t) == SkipDots(t[1..]);
    assert SkipDots(t[1..]) == SkipDots(t[1..][1..]);
    assert t[1..][0] == t[1] && t[1..][1..][0] == t[2];
  }

  lemma SuffixHasNoTripleDot(w: string, r: string)
    requires NoTripleDot(w) && Suffix(r, w)
    ensures NoTripleDot(r)
  {
  }

  lemma NoTripleDotNoRun(w: string)
    requires NoTripleDot(w)
    ensures EllipsisRun(w) == None
  {
    var dots := SkipSpaces(AfterOpen(w));
    BracketIsSuffix(w);
    SkipSpacesIsSuffix(AfterOpen(w));
    SuffixHasNoTripleDot(w, AfterOpen(w));
    SuffixHasNoTripleDot(AfterOpen(w), dots);
    if |dots| - |SkipDots(dots)| >= 3 { ThreeDots(dots); }
  }

  lemma {:induction false} CleanIsOneWord(w: string)
    requires NoTripleDot(w)
    ensures Words(w) == [w]
  {
    if w != "" {
      NoTripleDotNoRun(w);
      SuffixHasNoTripleDot(w, w[1..]);
      CleanIsOneWord(w[1..]);
      assert [w[0]] + w[1..] == w;
    }
  }

  lemma {:induction false} ExpandKeeps(s: string)
    requires HasNoMark(s)
    ensures Expand(s) == s
  {
    if s != "" { ExpandKeeps(s[1..]); }
  }

  lemma CleanIsOneSegment(nfc: string -> string, s: string)
    requires Clean(nfc, s)
    ensures SegmentsOf(Expand(s)) == [s]
  {
    ExpandKeeps(s);
    CleanIsOneWord(s);
    StripKeepsTrimmed(s);
    assert StripAll([s]) == [Strip(s)];
    assert NonEmpty([s]) == [s];
  }

  lemma {:induction false} CleanSegmentsStay(nfc: string -> string, segments: seq<string>)
    requires forall i :: 0 <= i < |segments| ==> Clean(nfc, segments[i])
    ensures AllSegments(segments) == segments
  {
    if segments != [] {
      AllSegmentsStep(segments);
      CleanIsOneSegment(nfc, segments[0]);
      CleanSegmentsStay(nfc, segments[1..]);
    }
  }

  /** Three dots in front are always a mark. */
  lemma DotsAreARun(t: string)
    requires |t| >= 3 && t[0] == t[1] == t[2] == '.'
    ensures EllipsisRun(t).Some?
  {
    assert t == "..." + t[3..];
    DotsInFront(t[3..]);
    assert AfterOpen(t) == t && SkipSpaces(t) == t;
  }

  ghost predicate CleanWord(w: string) {
    NoTripleDot(w) && HasNoMark(w)
  }

  lemma CleanWordPrepend(c: char, w: string, t: string)
    requires CleanWord(w) && c != '\U{2026}' && |w| <= |t| && w == t[..|w|]
    requires EllipsisRun([c] + t) == None
    ensures CleanWord([c] + w)
  {
    var x := [c] + w;
    if |x| >= 3 && x[0] == x[1] == x[2] == '.' {
      DotsAreARun([c] + t);
    }
    forall i, j, k | 0 <= i < j < k < |x| && j == i + 1 && k == j + 1
      ensures x[i] != '.' || x[j] != '.' || x[k] != '.'
    {
      if i > 0 { assert x[i] == w[i - 1] && x[j] == w[j - 1] && x[k] == w[k - 1]; }
    }
  }

  lemma {:induction false} WordsAreClean(t: string)
    requires HasNoMark(t)
    ensures |Words(t)[0]| <= |t| && Words(t)[0] == t[..|Words(t)[0]|]
    ensures forall i :: 0 <= i < |Words(t)| ==> CleanWord(Words(t)[i])
    decreases |t|
  {
    if t != "" {
      match EllipsisRun(t)
      case Some(rest) =>
        RunIsSuffix(t);
        WordsAreClean(rest);
      case None =>
        WordsAreClean(t[1..]);
        assert [t[0]] + t[1..] == t;
        CleanWordPrepend(t[0], Words(t[1..])[0], t[1..]);
    }
  }

  lemma CleanWordSlice(w: string, i: nat, j: nat)
    requires CleanWord(w) && i <= j <= |w|
    ensures CleanWord(w[i..j])
  {
  }

  lemma {:induction false} NonEmptyKeeps(ws: seq<string>, i: nat) returns (j: nat)
    requires i < |NonEmpty(ws)|
    ensures j < |ws| && ws[j] == NonEmpty(ws)[i] && ws[j] != ""
  {
    if ws[0] != "" && i == 0 {
      j := 0;
    } else {
      var k := NonEmptyKeeps(ws[1..], if ws[0] != "" then i - 1 else i);
      j := k + 1;
    }
  }

  lemma SegmentIsCleanWord(t: string, i: nat)
    requires HasNoMark(t) && i < |SegmentsOf(t)|
    ensures CleanWord(SegmentsOf(t)[i]) && Trimmed(SegmentsOf(t)[i]) && SegmentsOf(t)[i] != ""
  {
    WordsAreClean(t);
    var j := NonEmptyKeeps(StripAll(Words(t)), i);
    StripAllAt(Words(t), j);
    var a, b := StripIsTrimmed(Words(t)[j]);
    CleanWordSlice(Words(t)[j], a, b);
  }

  lemma SegmentIsClean(nfc: string -> string, x: string, i: nat)
    requires IsNormalForm(nfc) && Tidy(nfc, x) && i < |SegmentsOf(Expand(x))|
    ensures Clean(nfc, SegmentsOf(Expand(x))[i])
  {
    var segments := SegmentsOf(Expand(x));
    ExpandHasNoMark(x);
    SegmentIsCleanWord(Expand(x), i);
    SegmentsAreScattered(x);
    var k := ScatteredIsInside(segments, x, i);
    TidySubstring(nfc, x, k, k + |segments[i]|);
  }

  /** Every segment of a quote is clean. */
  lemma SegmentsAreClean(nfc: string -> string, quote: string)
    requires IsNormalForm(nfc)
    ensures var segments := SplitIntoSegments(nfc, quote).segments;
      forall i :: 0 <= i < |segments| ==> Clean(nfc, segments[i])
  {
    var x := Normalize(nfc, quote);
    SplitIsSegmentsOf(nfc, quote);
    NormalizeIsTidy(nfc, quote);
    forall i | 0 <= i < |SegmentsOf(Expand(x))| ensures Clean(nfc, SegmentsOf(Expand(x))[i]) {
      SegmentIsClean(nfc, x, i);
    }
  }

  /** Splitting a quote, printing its segments and splitting again gives the same segments. */
  lemma RenderRoundTrip(nfc: string -> string, quote: string)
    requires IsNormalForm(nfc)
    requires SplitIntoSegments(nfc, quote).segments != []
    ensures var segments := SplitIntoSegments(nfc, quote).segments;
      SplitIntoSegments(nfc, Render(segments)).segments == segments
  {
    var segments := SplitIntoSegments(nfc, quote).segments;
    SegmentsAreClean(nfc, quote);
    assert forall i :: 0 <= i < |segments| ==> Clean(nfc, segments[i]) ==> Tidy(nfc, segments[i]);
    RenderSplits(nfc, segments);
    CleanSegmentsStay(nfc, segments);
  }

  // ---------- Texts with nothing to quote ----------

  /** Nothing but whitespace and ellipsis marks. */
  predicate OnlyMarks(t: string)
    decreases |t|
  {
    if t == "" then true else
    match EllipsisRun(t)
    case Some(rest) => OnlyMarks(rest)
    case None => IsSpace(t[0]) && OnlyMarks(t[1..])
  }

  ghost predicate Blank(ws: seq<string>) {
    NonEmpty(StripAll(ws)) == []
  }

  lemma BlankPrepend(c: char, ws: seq<string>)
    requires ws != []
    ensures Blank(PrependFirst(c, ws)) <==> IsSpace(c) && Blank(ws)
  {
    var r := PrependFirst(c, ws);
    assert StripAll(r) == [Strip([c] + ws[0])] + StripAll(ws[1..]);
    assert StripAll(ws) == [Strip(ws[0])] + StripAll(ws[1..]);
    if IsSpace(c) {
      StripPrepend(c, ws);
    } else {
      assert SkipSpaces([c] + ws[0]) == [c] + ws[0];
      KeepsFirst(c, ws[0]);
    }
  }

  lemma {:induction false} KeepsFirst(c: char, s: string)
    requires !IsSpace(c)
    ensures TrimEnd([c] + s) != ""
  {
    if s != "" {
      assert ([c] + s)[..|s|] == [c] + s[..|s| - 1];
      assert ([c] + s)[|s|] == s[|s| - 1];
      KeepsFirst(c, s[..|s| - 1]);
    }
  }

  /** A text has no segment exactly when it holds nothing but whitespace and ellipsis marks. */
  lemma {:induction false} NoSegmentsIffOnlyMarks(t: string)
    ensures SegmentsOf(t) == [] <==> OnlyMarks(t)
    decreases |t|
  {
    if t != "" {
      match EllipsisRun(t)
      case Some(rest) => NoSegmentsIffOnlyMarks(rest);
      case None =>
        NoSegmentsIffOnlyMarks(t[1..]);
        BlankPrepend(t[0], Words(t[1..]));
    }
  }
}
