/**
  Ellipsis marks: how a quote is cut into segments, and how segments are printed back.

  The mark `[(\[]?\s*\.{3,}\s*[)\]]?` is read as a function from a text to the text left after a
  match at its start. Each part of the mark stops at a character the next part rejects, so the
  leftmost match is also the only one.
*/
module Ellipsis {
  import opened Wrappers
  import opened Typography

  const ELLIPSIS := "[\U{2026}]"
  const SEPARATOR := " [\U{2026}] "
  const MIN_SEGMENT_CHARS := 15

  datatype Segmentation = Segmentation(segments: seq<string>, hasEllipsis: bool)

  function SkipDots(t: string): (r: string)
    ensures |r| <= |t|
  {
    if t != "" && t[0] == '.' then SkipDots(t[1..]) else t
  }

  function AfterOpen(t: string): string {
    if t != "" && (t[0] == '(' || t[0] == '[') then t[1..] else t
  }

  function AfterClose(t: string): string {
    if t != "" && (t[0] == ')' || t[0] == ']') then t[1..] else t
  }

  /** What is left of `t` after an ellipsis mark at its start, if there is one. */
  function EllipsisRun(t: string): (r: Option<string>)
    ensures r.Some? ==> |r.value| < |t|
  {
    var dots := SkipSpaces(AfterOpen(t));
    var rest := SkipDots(dots);
    if |dots| - |rest| >= 3 then Some(AfterClose(SkipSpaces(rest))) else None
  }

  /** Every ellipsis mark replaced by the canonical one, set off by spaces. */
  function MarkEllipses(t: string): string
    decreases |t|
  {
    if t == "" then "" else
    match EllipsisRun(t)
    case Some(rest) => SEPARATOR + MarkEllipses(rest)
    case None => [t[0]] + MarkEllipses(t[1..])
  }

  /** `text.replace("…", "...")`. */
  function Expand(s: string): string {
    if s == "" then ""
    else (if s[0] == '\U{2026}' then "..." else [s[0]]) + Expand(s[1..])
  }

  function Canonicalize(text: string): string {
    MarkEllipses(Expand(text))
  }

  function PrependFirst(c: char, ws: seq<string>): (r: seq<string>)
    requires ws != []
    ensures |r| == |ws|
  {
    [[c] + ws[0]] + ws[1..]
  }

  /** `text.split("[…]")`. */
  function SplitOnMark(s: string): (ws: seq<string>)
    ensures ws != []
  {
    if s == "" then [""]
    else if |s| >= 3 && s[..3] == ELLIPSIS then [""] + SplitOnMark(s[3..])
    else PrependFirst(s[0], SplitOnMark(s[1..]))
  }

  function StripAll(ws: seq<string>): (r: seq<string>)
    ensures |r| == |ws|
  {
    if ws == [] then [] else [Strip(ws[0])] + StripAll(ws[1..])
  }

  function NonEmpty(ws: seq<string>): seq<string> {
    if ws == [] then [] else (if ws[0] != "" then [ws[0]] else []) + NonEmpty(ws[1..])
  }

  /** The segments of a quote, and whether an ellipsis separates them. */
  function SplitIntoSegments(nfc: string -> string, quote: string): Segmentation {
    var pieces := SplitOnMark(Canonicalize(Normalize(nfc, quote)));
    Segmentation(NonEmpty(StripAll(pieces)), |pieces| > 1)
  }

  predicate SegmentsMeetMinimum(s: Segmentation) {
    s.hasEllipsis ==> forall i :: 0 <= i < |s.segments| ==> |s.segments[i]| >= MIN_SEGMENT_CHARS
  }

  /** Segments rejoined with the canonical ellipsis for display. */
  function Render(segments: seq<string>): string {
    if segments == [] then ""
    else if |segments| == 1 then segments[0]
    else segments[0] + SEPARATOR + Render(segments[1..])
  }

  // ---------- The words between marks ----------

  /** The stretches of `t` between its ellipsis marks. */
  function Words(t: string): (ws: seq<string>)
    ensures ws != []
    decreases |t|
  {
    if t == "" then [""] else
    match EllipsisRun(t)
    case Some(rest) => [""] + Words(rest)
    case None => PrependFirst(t[0], Words(t[1..]))
  }

  function SegmentsOf(t: string): seq<string> {
    NonEmpty(StripAll(Words(t)))
  }

  lemma {:induction false} StripAllAt(ws: seq<string>, i: nat)
    requires i < |ws|
    ensures StripAll(ws)[i] == Strip(ws[i])
  {
    if i > 0 { StripAllAt(ws[1..], i - 1); }
  }

  /** Lists that agree after stripping, element by element, agree as a whole. */
  lemma StripAllAgree(a: seq<string>, b: seq<string>)
    requires |a| == |b| && forall i :: 0 <= i < |a| ==> Strip(a[i]) == Strip(b[i])
    ensures StripAll(a) == StripAll(b)
  {
    forall i | 0 <= i < |a| ensures StripAll(a)[i] == StripAll(b)[i] {
      StripAllAt(a, i);
      StripAllAt(b, i);
    }
  }

  ghost predicate HasNoMark(t: string) {
    forall i :: 0 <= i < |t| ==> t[i] != '\U{2026}'
  }

  function Padded(ws: seq<string>): (r: seq<string>)
    ensures |r| == |ws|
    ensures forall i :: 0 <= i < |ws| ==>
      r[i] == (if i > 0 then " " else "") + ws[i] + (if i < |ws| - 1 then " " else "")
  {
    seq(|ws|, i requires 0 <= i < |ws| =>
      (if i > 0 then " " else "") + ws[i] + (if i < |ws| - 1 then " " else ""))
  }

  lemma SuffixTransitive(r: string, s: string, t: string)
    requires Suffix(r, s) && Suffix(s, t)
    ensures Suffix(r, t)
  {
  }

  lemma {:induction false} SkipDotsIsSuffix(t: string)
    ensures Suffix(SkipDots(t), t)
  {
    if t != "" && t[0] == '.' { SkipDotsIsSuffix(t[1..]); }
  }

  lemma BracketIsSuffix(t: string)
    ensures Suffix(AfterOpen(t), t) && Suffix(AfterClose(t), t)
  {
  }

  lemma SpacesBetween(a: string, b: string, t: string)
    requires Suffix(b, SkipSpaces(a)) && Suffix(a, t)
    ensures Suffix(b, t)
  {
    SkipSpacesIsSuffix(a);
    SuffixTransitive(b, SkipSpaces(a), a);
    SuffixTransitive(b, a, t);
  }

  lemma RunIsSuffix(t: string)
    requires EllipsisRun(t).Some?
    ensures Suffix(EllipsisRun(t).value, t)
  {
    var dots := SkipSpaces(AfterOpen(t));
    var rest := SkipDots(dots);
    var last := AfterClose(SkipSpaces(rest));
    BracketIsSuffix(t);
    BracketIsSuffix(SkipSpaces(rest));
    SkipDotsIsSuffix(dots);
    SpacesBetween(rest, last, dots);
    SpacesBetween(AfterOpen(t), last, t);
  }

  lemma SuffixHasNoMark(t: string, r: string)
    requires HasNoMark(t) && Suffix(r, t)
    ensures HasNoMark(r)
  {
  }

  lemma MarkedStart(t: string)
    requires HasNoMark(t)
    ensures MarkEllipses(t) != "" ==> MarkEllipses(t)[0] != '\U{2026}'
  {
  }

  lemma SplitSeparator(s: string)
    ensures SplitOnMark(SEPARATOR + s) == [" "] + SplitOnMark([' '] + s)
  {
    var x := ELLIPSIS + ([' '] + s);
    assert SEPARATOR + s == [' '] + x;
    assert x[..3] == ELLIPSIS && x[3..] == [' '] + s;
    assert ([' '] + x)[0] != ELLIPSIS[0];
    assert ([' '] + x)[1..] == x;
    assert SplitOnMark(x) == [""] + SplitOnMark([' '] + s);
    assert [' '] + "" == " ";
    assert PrependFirst(' ', [""] + SplitOnMark([' '] + s)) == [" "] + SplitOnMark([' '] + s);
  }

  lemma SplitChar(c: char, s: string)
    requires s != "" ==> s[0] != '\U{2026}'
    ensures SplitOnMark([c] + s) == PrependFirst(c, SplitOnMark(s))
  {
    var x := [c] + s;
    assert x[1..] == s;
    assert |x| >= 3 ==> x[..3][1] == s[0] != ELLIPSIS[1];
  }

  lemma PaddedPrepend(c: char, ws: seq<string>)
    requires ws != []
    ensures PrependFirst(c, Padded(ws)) == Padded(PrependFirst(c, ws))
  {
    assert Padded(PrependFirst(c, ws))[0] == [c] + Padded(ws)[0];
  }

  lemma PaddedMark(ws: seq<string>)
    requires ws != []
    ensures [" "] + PrependFirst(' ', Padded(ws)) == Padded([""] + ws)
  {
    var p := Padded([""] + ws);
    assert p[0] == " ";
    assert p[1] == [' '] + Padded(ws)[0];
    assert forall i :: 1 < i < |p| ==> p[i] == Padded(ws)[i - 1];
  }

  /** Splitting the canonical text gives the words, each padded where a mark stood. */
  lemma {:induction false} SplitGivesWords(t: string)
    requires HasNoMark(t)
    ensures SplitOnMark(MarkEllipses(t)) == Padded(Words(t))
    decreases |t|
  {
    if t == "" {
      assert Padded([""]) == [""];
    } else {
      match EllipsisRun(t)
      case Some(rest) =>
        RunIsSuffix(t);
        SuffixHasNoMark(t, rest);
        SplitGivesWords(rest);
        SplitSeparator(MarkEllipses(rest));
        MarkedStart(rest);
        SplitChar(' ', MarkEllipses(rest));
        PaddedMark(Words(rest));
      case None =>
        SuffixHasNoMark(t, t[1..]);
        SplitGivesWords(t[1..]);
        MarkedStart(t[1..]);
        SplitChar(t[0], MarkEllipses(t[1..]));
        PaddedPrepend(t[0], Words(t[1..]));
    }
  }

  lemma {:induction false} ExpandHasNoMark(s: string)
    ensures HasNoMark(Expand(s))
  {
    if s != "" { ExpandHasNoMark(s[1..]); }
  }

  lemma SplitIsSegmentsOf(nfc: string -> string, quote: string)
    ensures SplitIntoSegments(nfc, quote).segments == SegmentsOf(Expand(Normalize(nfc, quote)))
  {
    var t := Expand(Normalize(nfc, quote));
    ExpandHasNoMark(Normalize(nfc, quote));
    SplitGivesWords(t);
    StripPadded(Words(t));
  }

  lemma StripPaddedAt(ws: seq<string>, i: nat)
    requires i < |ws|
    ensures Strip(Padded(ws)[i]) == Strip(ws[i])
  {
    StripSpaces(if i > 0 then " " else "", ws[i], if i < |ws| - 1 then " " else "");
  }

  lemma StripPadded(ws: seq<string>)
    ensures StripAll(Padded(ws)) == StripAll(ws)
  {
    forall i | 0 <= i < |ws| ensures Strip(Padded(ws)[i]) == Strip(ws[i]) {
      StripPaddedAt(ws, i);
    }
    StripAllAgree(Padded(ws), ws);
  }

  lemma SkipSpacesUnique(p: string, s: string)
    requires forall i :: 0 <= i < |p| ==> IsSpace(p[i])
    ensures SkipSpaces(p + s) == SkipSpaces(s)
  {
    if p != "" {
      assert (p + s)[1..] == p[1..] + s;
      SkipSpacesUnique(p[1..], s);
    } else {
      assert p + s == s;
    }
  }

  lemma TrimEndUnique(s: string, q: string)
    requires forall i :: 0 <= i < |q| ==> IsSpace(q[i])
    ensures TrimEnd(s + q) == TrimEnd(s)
    decreases |q|
  {
    if q != "" {
      assert (s + q)[..|s + q| - 1] == s + q[..|q| - 1];
      TrimEndUnique(s, q[..|q| - 1]);
    } else {
      assert s + q == s;
    }
  }

  lemma SkipSpacesAppend(s: string, q: string)
    requires forall i :: 0 <= i < |q| ==> IsSpace(q[i])
    ensures SkipSpaces(s) == "" ==> SkipSpaces(s + q) == ""
    ensures SkipSpaces(s) != "" ==> SkipSpaces(s + q) == SkipSpaces(s) + q
  {
    if s == "" {
      assert s + q == q && q + "" == q;
      SkipSpacesUnique(q, "");
    } else {
      assert (s + q)[1..] == s[1..] + q;
      if IsSpace(s[0]) { SkipSpacesAppend(s[1..], q); }
    }
  }

  lemma StripSpaces(p: string, s: string, q: string)
    requires forall i :: 0 <= i < |p| ==> IsSpace(p[i])
    requires forall i :: 0 <= i < |q| ==> IsSpace(q[i])
    ensures Strip(p + s + q) == Strip(s)
  {
    assert p + s + q == p + (s + q);
    SkipSpacesUnique(p, s + q);
    SkipSpacesAppend(s, q);
    if SkipSpaces(s) != "" {
      TrimEndUnique(SkipSpaces(s), q);
    }
  }

  // ---------- What counts as a mark ----------

  /** A mark at the start: perhaps an opening bracket, perhaps whitespace, then three dots at least. */
  ghost predicate MarkStarts(t: string, i: nat, m: nat, n: nat) {
    && i <= m && m + 3 <= n <= |t|
    && (i == 0 || (i == 1 && (t[0] == '(' || t[0] == '[')))
    && (forall j :: i <= j < m ==> IsSpace(t[j])) && (forall j :: m <= j < n ==> t[j] == '.')
  }

  lemma {:induction false} DotsCounted(s: string, n: nat)
    requires n <= |s| && forall j :: 0 <= j < n ==> s[j] == '.'
    ensures |s| - |SkipDots(s)| >= n
  {
    if n > 0 { DotsCounted(s[1..], n - 1); }
  }

  lemma {:induction false} SkippedAreDots(s: string)
    ensures forall j :: 0 <= j < |s| - |SkipDots(s)| ==> s[j] == '.'
  {
    if s != "" && s[0] == '.' {
      SkippedAreDots(s[1..]);
      assert forall j :: 0 < j < |s| ==> s[j] == s[1..][j - 1];
    }
  }

  lemma {:induction false} SkipTo(s: string, m: nat)
    requires m < |s| && !IsSpace(s[m]) && forall j :: 0 <= j < m ==> IsSpace(s[j])
    ensures SkipSpaces(s) == s[m..]
  {
    if m > 0 { SkipTo(s[1..], m - 1); }
  }

  lemma {:induction false} SkipsOnlySpaces(s: string) returns (m: nat)
    ensures m <= |s| && SkipSpaces(s) == s[m..] && forall j :: 0 <= j < m ==> IsSpace(s[j])
  {
    m := 0;
    if s != "" && IsSpace(s[0]) {
      var k := SkipsOnlySpaces(s[1..]);
      m := k + 1;
      assert forall j :: 0 < j < |s| ==> s[j] == s[1..][j - 1];
    }
  }

  lemma RunHasMark(t: string) returns (i: nat, m: nat, n: nat)
    requires EllipsisRun(t).Some?
    ensures MarkStarts(t, i, m, n)
  {
    var open := AfterOpen(t);
    var dots := SkipSpaces(open);
    i := |t| - |open|;
    var k := SkipsOnlySpaces(open);
    SkippedAreDots(dots);
    m := i + k;
    n := m + |dots| - |SkipDots(dots)|;
    assert forall j :: 0 <= j < |open| ==> open[j] == t[i + j];
    assert forall j :: 0 <= j < |dots| ==> dots[j] == open[k + j];
    assert forall j :: m <= j < n ==> t[j] == dots[j - m];
    assert forall j :: i <= j < m ==> t[j] == open[j - i];
  }

  lemma MarkHasRun(t: string, i: nat, m: nat, n: nat)
    requires MarkStarts(t, i, m, n)
    ensures EllipsisRun(t).Some?
  {
    var open := AfterOpen(t);
    assert t[m] == '.' && i == |t| - |open|;
    SkipTo(open, m - i);
    assert open[m - i..] == t[m..];
    DotsCounted(t[m..], n - m);
  }

  /** A text starts with an ellipsis mark exactly when it starts so. */
  lemma MarkIsRead(t: string)
    ensures EllipsisRun(t).Some? <==> exists i: nat, m: nat, n: nat :: MarkStarts(t, i, m, n)
  {
    if EllipsisRun(t).Some? {
      var i, m, n := RunHasMark(t);
    }
    if i: nat, m: nat, n: nat :| MarkStarts(t, i, m, n) {
      MarkHasRun(t, i, m, n);
    }
  }

  ghost predicate HoldsMark(t: string) {
    exists k :: 0 <= k <= |t| && EllipsisRun(t[k..]).Some?
  }

  lemma HoldsMarkLater(t: string)
    requires t != "" && EllipsisRun(t).None?
    ensures HoldsMark(t) <==> HoldsMark(t[1..])
  {
    assert t[0..] == t;
    if k :| 0 <= k <= |t| && EllipsisRun(t[k..]).Some? {
      assert k > 0 && t[1..][k - 1..] == t[k..];
    }
    if k :| 0 <= k <= |t[1..]| && EllipsisRun(t[1..][k..]).Some? {
      assert t[1..][k..] == t[k + 1..];
    }
  }

  lemma {:induction false} SeveralWordsIffMark(t: string)
    ensures |Words(t)| > 1 <==> HoldsMark(t)
    decreases |t|
  {
    if t == "" {
      assert EllipsisRun("").None? && t[0..] == "";
    } else {
      assert t[0..] == t;
      if EllipsisRun(t).None? {
        SeveralWordsIffMark(t[1..]);
        HoldsMarkLater(t);
      }
    }
  }

  /** A quote counts as split by an ellipsis exactly when it holds a mark somewhere. */
  lemma HasEllipsisIs(nfc: string -> string, quote: string)
    ensures SplitIntoSegments(nfc, quote).hasEllipsis <==> HoldsMark(Expand(Normalize(nfc, quote)))
  {
    var t := Expand(Normalize(nfc, quote));
    ExpandHasNoMark(Normalize(nfc, quote));
    SplitGivesWords(t);
    SeveralWordsIffMark(t);
  }
}
