/**
  Printing segments and splitting the print again.

  `RenderSplits` is the general law: splitting a rendered list of tidy spans gives the segments
  of each span, in order. `RenderRoundTrip` is the special case that matters for a direct hit:
  segments that came out of a split come back unchanged.
*/
module Reparse {
  import opened Wrappers
  import opened Lists
  import opened Typography
  import opened Ellipsis

  const MARK := "[...]"

  // ---------- An opening bracket stops every part of a mark ----------

  ghost predicate Opens(z: string) {
    z != "" && z[0] == '['
  }

  lemma {:induction false} SkipSpacesStops(w: string, z: string)
    requires z != "" && !IsSpace(z[0])
    ensures SkipSpaces(w + z) == SkipSpaces(w) + z
  {
    if w == "" {
      assert w + z == z;
    } else {
      assert (w + z)[1..] == w[1..] + z;
      SkipSpacesStops(w[1..], z);
    }
  }

  lemma {:induction false} SkipDotsStops(w: string, z: string)
    requires Opens(z)
    ensures SkipDots(w + z) == SkipDots(w) + z
  {
    if w == "" {
      assert w + z == z;
    } else {
      assert (w + z)[1..] == w[1..] + z;
      SkipDotsStops(w[1..], z);
    }
  }

  lemma BracketsStop(w: string, z: string)
    requires Opens(z)
    ensures AfterClose(w + z) == AfterClose(w) + z
    ensures w != "" ==> AfterOpen(w + z) == AfterOpen(w) + z
  {
    if w == "" {
      assert w + z == z;
    } else {
      assert (w + z)[1..] == w[1..] + z;
    }
  }

  lemma RunStops(w: string, z: string)
    requires Opens(z) && w != ""
    ensures EllipsisRun(w + z) ==
            match EllipsisRun(w) case Some(r) => Some(r + z) case None => None
  {
    BracketsStop(w, z);
    SkipSpacesStops(AfterOpen(w), z);
    SkipDotsStops(SkipSpaces(AfterOpen(w)), z);
    var rest := SkipDots(SkipSpaces(AfterOpen(w)));
    SkipSpacesStops(rest, z);
    BracketsStop(SkipSpaces(rest), z);
  }

  lemma MarkIsOneRun(r: string)
    ensures EllipsisRun(MARK + r) == Some(r)
  {
    var t := MARK + r;
    var d := "...]" + r;
    var c := "]" + r;
    assert t[1..] == d;
    assert d[0] == '.' && d[1..] == "..]" + r;
    assert d[1..][1..] == ".]" + r;
    assert d[1..][1..][1..] == c;
    assert c[1..] == r;
    assert SkipSpaces(d) == d;
    assert SkipDots(c) == c;
    assert SkipDots(".]" + r) == c;
    assert SkipDots("..]" + r) == c;
    assert SkipDots(d) == c;
    assert SkipSpaces(c) == c;
  }

  lemma PrependConcat(c: char, a: seq<string>, b: seq<string>)
    requires a != []
    ensures PrependFirst(c, a + b) == PrependFirst(c, a) + b
  {
  }

  lemma WordsStep(t: string)
    requires t != ""
    ensures EllipsisRun(t).Some? ==> Words(t) == [""] + Words(EllipsisRun(t).value)
    ensures EllipsisRun(t).None? ==> Words(t) == PrependFirst(t[0], Words(t[1..]))
  {
  }

  /** The words of two texts joined by a mark are the words of each. */
  lemma {:induction false} WordsConcat(w: string, r: string)
    ensures Words(w + (MARK + r)) == Words(w) + Words(r)
    decreases |w|
  {
    var z := MARK + r;
    if w == "" {
      assert w + z == z;
      MarkIsOneRun(r);
    } else {
      var t := w + z;
      assert t[0] == w[0] && t[1..] == w[1..] + z;
      RunStops(w, z);
      WordsStep(t);
      WordsStep(w);
      match EllipsisRun(w)
      case Some(x) =>
        WordsConcat(x, r);
        AppendAssociates([""], Words(x), Words(r));
      case None =>
        WordsConcat(w[1..], r);
        PrependConcat(w[0], Words(w[1..]), Words(r));
    }
  }

  lemma {:induction false} NonEmptyConcat(a: seq<string>, b: seq<string>)
    ensures NonEmpty(a + b) == NonEmpty(a) + NonEmpty(b)
  {
    if a == [] {
      assert a + b == b;
    } else {
      assert (a + b)[1..] == a[1..] + b;
      NonEmptyConcat(a[1..], b);
    }
  }

  lemma {:induction false} StripAllConcat(a: seq<string>, b: seq<string>)
    ensures StripAll(a + b) == StripAll(a) + StripAll(b)
  {
    if a == [] {
      assert a + b == b;
    } else {
      assert (a + b)[1..] == a[1..] + b;
      StripAllConcat(a[1..], b);
      AppendAssociates([Strip(a[0])], StripAll(a[1..]), StripAll(b));
    }
  }

  lemma SegmentsConcat(w: string, r: string)
    ensures SegmentsOf(w + (MARK + r)) == SegmentsOf(w) + SegmentsOf(r)
  {
    WordsConcat(w, r);
    StripAllConcat(Words(w), Words(r));
    NonEmptyConcat(StripAll(Words(w)), StripAll(Words(r)));
  }

  // ---------- Spaces at the ends do not matter ----------

  lemma RunAfterSpace(c: char, t: string)
    requires IsSpace(c)
    ensures EllipsisRun([c] + t) == EllipsisRun(t) || EllipsisRun([c] + t) == None
    ensures EllipsisRun(t) == None ==> EllipsisRun([c] + t) == None
  {
    assert ([c] + t)[1..] == t;
    assert SkipSpaces([c] + t) == SkipSpaces(t);
    if t != "" && (t[0] == '(' || t[0] == '[') {
      assert SkipSpaces(t) == t && SkipDots(t) == t;
    }
  }

  lemma StripPrepend(c: char, ws: seq<string>)
    requires ws != [] && IsSpace(c)
    ensures StripAll(PrependFirst(c, ws)) == StripAll(ws)
  {
    StripSpaces([c], ws[0], "");
    assert [c] + ws[0] + "" == [c] + ws[0];
    StripAllAgree(PrependFirst(c, ws), ws);
  }

  lemma SpaceInFront(c: char, t: string)
    requires IsSpace(c)
    ensures StripAll(Words([c] + t)) == StripAll(Words(t))
  {
    RunAfterSpace(c, t);
    assert ([c] + t)[1..] == t;
    if EllipsisRun([c] + t) == None {
      StripPrepend(c, Words(t));
    }
  }

  lemma {:induction false} SkipSpacesThen(t: string, c: char)
    requires IsSpace(c)
    ensures SkipSpaces(t) != "" ==> SkipSpaces(t + [c]) == SkipSpaces(t) + [c]
    ensures SkipSpaces(t) == "" ==> SkipSpaces(t + [c]) == ""
  {
    if t == "" {
      assert t + [c] == [c];
    } else {
      assert (t + [c])[1..] == t[1..] + [c];
      SkipSpacesThen(t[1..], c);
    }
  }

  lemma {:induction false} SkipDotsThen(t: string, c: char)
    requires IsSpace(c)
    ensures SkipDots(t + [c]) == SkipDots(t) + [c]
  {
    if t == "" {
      assert t + [c] == [c];
    } else {
      assert (t + [c])[1..] == t[1..] + [c];
      SkipDotsThen(t[1..], c);
    }
  }

  lemma BracketsThen(t: string, c: char)
    requires IsSpace(c)
    ensures AfterOpen(t + [c]) == AfterOpen(t) + [c]
    ensures AfterClose(t + [c]) == AfterClose(t) + [c]
  {
    if t == "" {
      assert t + [c] == [c];
    } else {
      assert (t + [c])[1..] == t[1..] + [c];
    }
  }

  /** A space at the end either is swallowed by a mark that reaches it, or stays at the end. */
  lemma RunThenSpace(t: string, c: char)
    requires IsSpace(c)
    ensures EllipsisRun(t) == None ==> EllipsisRun(t + [c]) == None
    ensures EllipsisRun(t).Some? ==>
      || EllipsisRun(t + [c]) == Some(EllipsisRun(t).value + [c])
      || (EllipsisRun(t).value == "" && EllipsisRun(t + [c]) == Some(""))
  {
    var open := AfterOpen(t);
    var dots := SkipSpaces(open);
    var rest := SkipDots(dots);
    BracketsThen(t, c);
    SkipSpacesThen(open, c);
    SkipDotsThen(dots, c);
    SkipSpacesThen(rest, c);
    BracketsThen(SkipSpaces(rest), c);
  }

  function AppendLast(ws: seq<string>, c: char): seq<string>
    requires ws != []
  {
    ws[..|ws| - 1] + [ws[|ws| - 1] + [c]]
  }

  lemma StripAppend(ws: seq<string>, c: char)
    requires ws != [] && IsSpace(c)
    ensures StripAll(AppendLast(ws, c)) == StripAll(ws)
  {
    var n := |ws| - 1;
    StripSpaces("", ws[n], [c]);
    assert "" + ws[n] + [c] == ws[n] + [c];
    assert forall i :: 0 <= i < n ==> AppendLast(ws, c)[i] == ws[i];
    StripAllAgree(AppendLast(ws, c), ws);
  }

  lemma AppendLastTail(w: string, ws: seq<string>, c: char)
    requires ws != []
    ensures AppendLast([w] + ws, c) == [w] + AppendLast(ws, c)
  {
  }

  lemma AppendLastPrepend(b: char, ws: seq<string>, c: char)
    requires ws != []
    ensures AppendLast(PrependFirst(b, ws), c) == PrependFirst(b, AppendLast(ws, c))
  {
    if |ws| == 1 {
      assert ([b] + ws[0]) + [c] == [b] + (ws[0] + [c]);
    }
  }

  lemma {:induction false} SpaceAtEnd(t: string, c: char)
    requires IsSpace(c)
    ensures Words(t + [c]) == Words(t) || Words(t + [c]) == AppendLast(Words(t), c)
    decreases |t|
  {
    if t == "" {
      assert t + [c] == [c] && [c][1..] == "";
      assert AppendLast([""], c) == [[c]];
      assert [c] + "" == [c];
      assert PrependFirst(c, [""]) == [[c]];
      assert SkipSpaces([c]) == "";
    } else {
      RunThenSpace(t, c);
      match EllipsisRun(t)
      case Some(rest) =>
        SpaceAtEnd(rest, c);
        AppendLastTail("", Words(rest), c);
      case None =>
        assert (t + [c])[1..] == t[1..] + [c];
        SpaceAtEnd(t[1..], c);
        AppendLastPrepend(t[0], Words(t[1..]), c);
    }
  }

  lemma SpaceBehind(t: string, c: char)
    requires IsSpace(c)
    ensures StripAll(Words(t + [c])) == StripAll(Words(t))
  {
    SpaceAtEnd(t, c);
    StripAppend(Words(t), c);
  }

  lemma {:induction false} ExpandConcat(a: string, b: string)
    ensures Expand(a + b) == Expand(a) + Expand(b)
  {
    if a == "" {
      assert a + b == b;
    } else {
      assert (a + b)[1..] == a[1..] + b;
      ExpandConcat(a[1..], b);
    }
  }

  lemma ExpandChar(c: char)
    requires c != '\U{2026}'
    ensures Expand([c]) == [c]
  {
    assert [c][1..] == "";
  }

  lemma {:induction false} SegmentsSkip(s: string)
    ensures SegmentsOf(Expand(SkipSpaces(s))) == SegmentsOf(Expand(s))
  {
    if s != "" && IsSpace(s[0]) {
      SegmentsSkip(s[1..]);
      SpaceInFront(s[0], Expand(s[1..]));
    }
  }

  lemma SegmentsAppendSpace(s: string, c: char)
    requires IsSpace(c)
    ensures SegmentsOf(Expand(s + [c])) == SegmentsOf(Expand(s))
  {
    ExpandConcat(s, [c]);
    ExpandChar(c);
    SpaceBehind(Expand(s), c);
  }

  lemma {:induction false} SegmentsAppendSpaces(s: string, q: string)
    requires forall i :: 0 <= i < |q| ==> IsSpace(q[i])
    ensures SegmentsOf(Expand(s + q)) == SegmentsOf(Expand(s))
    decreases |q|
  {
    if q == "" {
      assert s + q == s;
    } else {
      assert s + q == (s + [q[0]]) + q[1..];
      SegmentsAppendSpaces(s + [q[0]], q[1..]);
      SegmentsAppendSpace(s, q[0]);
    }
  }

  ghost predicate AllSpaces(s: string) {
    forall i :: 0 <= i < |s| ==> IsSpace(s[i])
  }

  lemma {:induction false} TrimmedTail(s: string)
    ensures forall i :: |TrimEnd(s)| <= i < |s| ==> IsSpace(s[i])
  {
    if s != "" && IsSpace(s[|s| - 1]) {
      var init := s[..|s| - 1];
      TrimmedTail(init);
      assert forall i :: 0 <= i < |init| ==> init[i] == s[i];
    }
  }

  lemma TrimEndRest(s: string)
    ensures AllSpaces(s[|TrimEnd(s)|..]) && s == TrimEnd(s) + s[|TrimEnd(s)|..]
  {
    TrimEndIsPrefix(s);
    TrimmedTail(s);
    SplitAt(s, |TrimEnd(s)|);
  }

  lemma SegmentsTrim(s: string)
    ensures SegmentsOf(Expand(TrimEnd(s))) == SegmentsOf(Expand(s))
  {
    TrimEndRest(s);
    SegmentsAppendSpaces(TrimEnd(s), s[|TrimEnd(s)|..]);
  }

  lemma SegmentsStrip(s: string)
    ensures SegmentsOf(Expand(Strip(s))) == SegmentsOf(Expand(s))
  {
    SegmentsSkip(s);
    SegmentsTrim(SkipSpaces(s));
  }

  // ---------- Printing, normalizing and splitting again ----------

  lemma {:induction false} CollapseConcat(a: string, z: string)
    requires z != "" && !IsSpace(z[0])
    ensures Collapse(a + z) == Collapse(a) + Collapse(z)
    decreases |a|
  {
    if a == "" {
      assert a + z == z;
    } else {
      assert (a + z)[1..] == a[1..] + z;
      if IsSpace(a[0]) {
        SkipSpacesStops(a[1..], z);
        CollapseConcat(SkipSpaces(a[1..]), z);
      } else {
        CollapseConcat(a[1..], z);
      }
    }
  }

  lemma CollapseMark(x: string)
    ensures Collapse(ELLIPSIS + x) == ELLIPSIS + Collapse(x)
  {
    var y := "\U{2026}]" + x;
    assert ELLIPSIS + x == ['['] + y && y[1..] == "]" + x && ("]" + x)[1..] == x;
    assert Collapse(y) == ['\U{2026}'] + Collapse("]" + x);
    assert Collapse("]" + x) == [']'] + Collapse(x);
  }

  lemma SkipCollapse(x: string)
    ensures SkipSpaces(Collapse(x)) == Collapse(SkipSpaces(x))
  {
    if x != "" && IsSpace(x[0]) {
      SkipSpacesIsSuffix(x[1..]);
    }
  }

  lemma SegmentsCollapseFront(x: string)
    ensures SegmentsOf(Expand(Collapse(" " + x))) == SegmentsOf(Expand(Collapse(x)))
  {
    assert (" " + x)[1..] == x;
    var c := Collapse(SkipSpaces(x));
    assert Collapse(" " + x) == " " + c;
    assert (" " + c)[1..] == c;
    assert SkipSpaces(" " + c) == SkipSpaces(c);
    SegmentsSkip(" " + c);
    SegmentsSkip(c);
    SkipCollapse(x);
    SegmentsSkip(Collapse(x));
  }

  lemma {:induction false} CollapseSpaceAtEnd(x: string)
    ensures Collapse(x + " ") == Collapse(x) || Collapse(x + " ") == Collapse(x) + " "
    decreases |x|
  {
    if x == "" {
      assert x + " " == " ";
    } else {
      assert (x + " ")[1..] == x[1..] + " ";
      if IsSpace(x[0]) {
        SkipSpacesThen(x[1..], ' ');
        if SkipSpaces(x[1..]) != "" { CollapseSpaceAtEnd(SkipSpaces(x[1..])); }
      } else {
        CollapseSpaceAtEnd(x[1..]);
      }
    }
  }

  lemma SegmentsCollapseBack(x: string)
    ensures SegmentsOf(Expand(Collapse(x + " "))) == SegmentsOf(Expand(Collapse(x)))
  {
    CollapseSpaceAtEnd(x);
    SegmentsAppendSpace(Collapse(x), ' ');
  }

  function Flat(lists: seq<seq<string>>): seq<string> {
    if lists == [] then [] else lists[0] + Flat(lists[1..])
  }

  ghost function SegmentLists(spans: seq<string>): seq<seq<string>> {
    seq(|spans|, i requires 0 <= i < |spans| => SegmentsOf(Expand(spans[i])))
  }

  /** The segments of every span, one after the other. */
  ghost function AllSegments(spans: seq<string>): seq<string> {
    Flat(SegmentLists(spans))
  }

  lemma AllSegmentsStep(spans: seq<string>)
    requires spans != []
    ensures AllSegments(spans) == SegmentsOf(Expand(spans[0])) + AllSegments(spans[1..])
  {
    assert SegmentLists(spans)[1..] == SegmentLists(spans[1..]);
  }

  /** Splitting a printed separator, spaces collapsed, separates the segments of its two sides. */
  lemma SeparatorSplits(head: string, tail: string)
    ensures SegmentsOf(Expand(Collapse(head + SEPARATOR + tail))) ==
            SegmentsOf(Expand(Collapse(head))) + SegmentsOf(Expand(Collapse(tail)))
  {
    var front, back := head + " ", " " + tail;
    assert head + SEPARATOR + tail == front + (ELLIPSIS + back);
    CollapseConcat(front, ELLIPSIS + back);
    CollapseMark(back);
    ExpandConcat(Collapse(front), ELLIPSIS + Collapse(back));
    ExpandConcat(ELLIPSIS, Collapse(back));
    ExpandMark();
    SegmentsConcat(Expand(Collapse(front)), Expand(Collapse(back)));
    SegmentsCollapseBack(head);
    SegmentsCollapseFront(tail);
  }

  lemma {:induction false} CollapseRender(spans: seq<string>)
    requires spans != [] && forall i :: 0 <= i < |spans| ==> SingleSpaced(spans[i])
    ensures SegmentsOf(Expand(Collapse(Render(spans)))) == AllSegments(spans)
  {
    CollapseKeepsSingleSpaced(spans[0]);
    AllSegmentsStep(spans);
    if |spans| == 1 {
      assert SegmentLists(spans[1..]) == [];
    } else {
      SeparatorSplits(spans[0], Render(spans[1..]));
      CollapseRender(spans[1..]);
    }
  }

  lemma ExpandMark()
    ensures Expand(ELLIPSIS) == MARK
  {
    assert ELLIPSIS[1..] == "\U{2026}]" && ELLIPSIS[1..][1..] == "]" && ELLIPSIS[1..][1..][1..] == "";
    assert Expand("]") == "]";
    assert Expand("\U{2026}]") == "...]";
  }

  lemma InsertStable(nfc: string -> string, a: string, c: char, b: string)
    requires IsNormalForm(nfc) && Inert(c) && Stable(nfc, a) && Stable(nfc, b)
    ensures Stable(nfc, a + ([c] + b))
  {
    assert Insert(a, c, b) == a + ([c] + b);
  }

  lemma EmptyStable(nfc: string -> string, s: string)
    requires IsNormalForm(nfc) && Stable(nfc, s)
    ensures Stable(nfc, "")
  {
    assert Cut(s, 0, 0) == "";
  }

  lemma PrependStable(nfc: string -> string, c: char, b: string)
    requires IsNormalForm(nfc) && Inert(c) && Stable(nfc, b)
    ensures Stable(nfc, [c] + b)
  {
    EmptyStable(nfc, b);
    InsertStable(nfc, "", c, b);
    assert "" + ([c] + b) == [c] + b;
  }

  lemma {:induction false} RenderIsNormal(nfc: string -> string, spans: seq<string>)
    requires IsNormalForm(nfc) && spans != [] && forall i :: 0 <= i < |spans| ==> Tidy(nfc, spans[i])
    ensures Stable(nfc, Render(spans)) && Unified(Render(spans))
  {
    if |spans| > 1 {
      var tail := Render(spans[1..]);
      RenderIsNormal(nfc, spans[1..]);
      PrependStable(nfc, ' ', tail);
      PrependStable(nfc, ']', [' '] + tail);
      PrependStable(nfc, '\U{2026}', [']'] + ([' '] + tail));
      PrependStable(nfc, '[', ['\U{2026}'] + ([']'] + ([' '] + tail)));
      var rest := ['['] + (['\U{2026}'] + ([']'] + ([' '] + tail)));
      InsertStable(nfc, spans[0], ' ', rest);
      assert Render(spans) == spans[0] + ([' '] + rest);
    }
  }

  /** Splitting the print of tidy spans gives the segments of each span, in order. */
  lemma RenderSplits(nfc: string -> string, spans: seq<string>)
    requires IsNormalForm(nfc) && spans != [] && forall i :: 0 <= i < |spans| ==> Tidy(nfc, spans[i])
    ensures SplitIntoSegments(nfc, Render(spans)).segments == AllSegments(spans)
  {
    var r := Render(spans);
    RenderIsNormal(nfc, spans);
    UnifyKeepsUnified(r);
    SplitIsSegmentsOf(nfc, r);
    SegmentsStrip(Collapse(r));
    CollapseRender(spans);
  }
}
