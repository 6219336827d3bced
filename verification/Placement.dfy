/** Ordered, non-overlapping placement of segments in a text, and the greedy search for one. */
module Placement {
  import opened Typography
  import opened Ellipsis

  ghost predicate At(t: string, k: int, w: string) {
    0 <= k && k + |w| <= |t| && t[k..k + |w|] == w
  }

  /** Every segment occurs in `t`, each past the end of the one before. */
  ghost predicate Scattered(ws: seq<string>, t: string)
    decreases |ws|
  {
    ws == [] || exists k :: At(t, k, ws[0]) && Scattered(ws[1..], t[k + |ws[0]|..])
  }

  lemma PlaceFirst(w: string, ws: seq<string>, t: string, k: int)
    requires At(t, k, w) && Scattered(ws, t[k + |w|..])
    ensures Scattered([w] + ws, t)
  {
    var l := [w] + ws;
    assert l[0] == w && l[1..] == ws;
    assert At(t, k, l[0]) && Scattered(l[1..], t[k + |l[0]|..]);
  }

  /** More text in front never hurts: this is why the leftmost choice is safe. */
  lemma {:induction false} ScatteredInMore(ws: seq<string>, pre: string, t: string)
    requires Scattered(ws, t)
    ensures Scattered(ws, pre + t)
  {
    if ws != [] {
      var k :| At(t, k, ws[0]) && Scattered(ws[1..], t[k + |ws[0]|..]);
      assert (pre + t)[|pre| + k + |ws[0]|..] == t[k + |ws[0]|..];
      assert At(pre + t, |pre| + k, ws[0]);
    }
  }

  lemma ScatteredInSuffix(ws: seq<string>, s: string, t: string)
    requires Scattered(ws, s) && Suffix(s, t)
    ensures Scattered(ws, t)
  {
    assert t == t[..|t| - |s|] + s;
    ScatteredInMore(ws, t[..|t| - |s|], s);
  }

  lemma AtInFront(s: string, r: string, k: int, w: string)
    requires At(s, k, w)
    ensures At(s + r, k, w) && (s + r)[k + |w|..] == s[k + |w|..] + r
  {
    assert (s + r)[k..k + |w|] == s[k..k + |w|];
  }

  lemma ListConcat(a: seq<string>, b: seq<string>)
    requires a != []
    ensures [a[0]] + (a[1..] + b) == a + b
  {
  }

  lemma {:induction false} ScatteredConcat(a: seq<string>, b: seq<string>, s: string, r: string)
    requires Scattered(a, s) && Scattered(b, r)
    ensures Scattered(a + b, s + r)
  {
    if a == [] {
      assert a + b == b;
      ScatteredInMore(b, s, r);
    } else {
      var k :| At(s, k, a[0]) && Scattered(a[1..], s[k + |a[0]|..]);
      ScatteredConcat(a[1..], b, s[k + |a[0]|..], r);
      AtInFront(s, r, k, a[0]);
      PlaceFirst(a[0], a[1..] + b, s + r, k);
      ListConcat(a, b);
    }
  }

  /** What is in order in an occurrence, then in all that follows it, is in order in the text. */
  lemma ScatteredFrom(head: seq<string>, tail: seq<string>, t: string, k: int, w: string)
    requires At(t, k, w) && Scattered(head, w) && Scattered(tail, t[k + |w|..])
    ensures Scattered(head + tail, t)
  {
    var rest := t[k + |w|..];
    ScatteredConcat(head, tail, w, rest);
    assert t == t[..k] + (w + rest);
    ScatteredInMore(head + tail, t[..k], w + rest);
  }

  lemma SliceOfSlice(t: string, a: nat, b: nat, i: nat, j: nat)
    requires a <= b <= |t| && i <= j <= b - a
    ensures t[a..b][i..j] == t[a + i..a + j]
  {
    var l, r := t[a..b][i..j], t[a + i..a + j];
    assert |l| == |r| && forall k :: 0 <= k < |l| ==> l[k] == r[k];
  }

  lemma PlaceStripped(w: string, ws: seq<string>, t: string, k: int)
    requires At(t, k, w) && Scattered(ws, t[k + |w|..])
    ensures Scattered((if Strip(w) != "" then [Strip(w)] else []) + ws, t)
  {
    var i, j := StripIsTrimmed(w);
    var rest := t[k + |w|..];
    if Strip(w) == "" {
      assert [] + ws == ws;
      ScatteredInSuffix(ws, rest, t);
    } else {
      SliceOfSlice(t, k, k + |w|, i, j);
      ScatteredInSuffix(ws, rest, t[k + j..]);
      PlaceFirst(Strip(w), ws, t, k + i);
    }
  }

  lemma {:induction false} ScatteredStrip(ws: seq<string>, t: string)
    requires Scattered(ws, t)
    ensures Scattered(NonEmpty(StripAll(ws)), t)
  {
    if ws != [] {
      var k :| At(t, k, ws[0]) && Scattered(ws[1..], t[k + |ws[0]|..]);
      ScatteredStrip(ws[1..], t[k + |ws[0]|..]);
      PlaceStripped(ws[0], NonEmpty(StripAll(ws[1..])), t, k);
    }
  }

  /** A scattered segment is a substring of the text. */
  lemma {:induction false} ScatteredIsInside(ws: seq<string>, t: string, i: nat) returns (k: int)
    requires Scattered(ws, t) && i < |ws|
    ensures At(t, k, ws[i])
  {
    var k0 :| At(t, k0, ws[0]) && Scattered(ws[1..], t[k0 + |ws[0]|..]);
    if i == 0 {
      k := k0;
    } else {
      var rest := k0 + |ws[0]|;
      var j := ScatteredIsInside(ws[1..], t[rest..], i - 1);
      k := rest + j;
      OccurrencesAhead(t, rest, ws[i], j);
    }
  }

  /** Each segment at its own position, the positions increasing and no two segments sharing a character. */
  ghost predicate Placed(ws: seq<string>, t: string, at: seq<int>) {
    && |at| == |ws|
    && (forall i :: 0 <= i < |ws| ==> At(t, at[i], ws[i]))
    && (forall i, j :: 0 <= i < j < |ws| ==> at[i] + |ws[i]| <= at[j])
  }

  function Moved(at: seq<int>, shift: int): (r: seq<int>)
    ensures |r| == |at| && forall i :: 0 <= i < |at| ==> r[i] == at[i] + shift
  {
    seq(|at|, i requires 0 <= i < |at| => at[i] + shift)
  }

  lemma PlacedAhead(ws: seq<string>, t: string, at: seq<int>, front: nat, i: nat)
    requires ws != [] && front <= |t| && Placed(ws[1..], t[front..], at) && i < |at|
    ensures 0 <= at[i] && At(t, at[i] + front, ws[i + 1])
    ensures forall j :: i < j < |at| ==> at[i] + |ws[i + 1]| <= at[j]
  {
    assert ws[1..][i] == ws[i + 1] && At(t[front..], at[i], ws[1..][i]);
    OccurrencesAhead(t, front, ws[i + 1], at[i]);
  }

  lemma BackAt(ws: seq<string>, t: string, at: seq<int>, k: int, all: seq<int>, i: nat)
    requires ws != [] && At(t, k, ws[0]) && Placed(ws[1..], t[k + |ws[0]|..], at)
    requires all == [k] + Moved(at, k + |ws[0]|) && i < |ws|
    ensures At(t, all[i], ws[i]) && all[i] >= if i == 0 then k else k + |ws[0]|
    ensures i > 0 ==> forall j :: i < j < |ws| ==> all[i] + |ws[i]| <= all[j]
  {
    if i > 0 { PlacedAhead(ws, t, at, k + |ws[0]|, i - 1); }
  }

  lemma ShiftBack(ws: seq<string>, t: string, at: seq<int>, k: int, all: seq<int>)
    requires ws != [] && At(t, k, ws[0]) && Placed(ws[1..], t[k + |ws[0]|..], at)
    requires all == [k] + Moved(at, k + |ws[0]|)
    ensures Placed(ws, t, all)
  {
    forall i | 0 <= i < |ws| ensures At(t, all[i], ws[i]) {
      BackAt(ws, t, at, k, all, i);
    }
    forall i, j | 0 <= i < j < |ws| ensures all[i] + |ws[i]| <= all[j] {
      BackAt(ws, t, at, k, all, if i == 0 then j else i);
    }
  }

  lemma {:induction false} ScatteredIsPlaced(ws: seq<string>, t: string) returns (at: seq<int>)
    requires Scattered(ws, t)
    ensures Placed(ws, t, at)
  {
    if ws == [] {
      at := [];
    } else {
      var k :| At(t, k, ws[0]) && Scattered(ws[1..], t[k + |ws[0]|..]);
      var rest := ScatteredIsPlaced(ws[1..], t[k + |ws[0]|..]);
      at := [k] + Moved(rest, k + |ws[0]|);
      ShiftBack(ws, t, rest, k, at);
    }
  }

  lemma {:induction false} PlacedIsScattered(ws: seq<string>, t: string, at: seq<int>)
    requires Placed(ws, t, at)
    ensures Scattered(ws, t)
  {
    if ws != [] {
      var k, front := at[0], at[0] + |ws[0]|;
      var rest := Moved(at[1..], -front);
      forall i | 0 <= i < |rest| ensures 0 <= rest[i] && At(t[front..], rest[i], ws[1..][i]) {
        assert at[0] + |ws[0]| <= at[i + 1];
        OccurrencesAhead(t, front, ws[i + 1], rest[i]);
      }
      PlacedIsScattered(ws[1..], t[front..], rest);
      assert At(t, k, ws[0]);
    }
  }

  /** Being in order is having increasing, disjoint positions. */
  lemma ScatteredIffPlaced(ws: seq<string>, t: string)
    ensures Scattered(ws, t) <==> exists at :: Placed(ws, t, at)
  {
    if Scattered(ws, t) {
      var at := ScatteredIsPlaced(ws, t);
    }
    if at :| Placed(ws, t, at) {
      PlacedIsScattered(ws, t, at);
    }
  }

  // ---------- The greedy search ----------

  /** `text.find(needle, cursor)`: the leftmost occurrence at or past the cursor, or -1. */
  function FindFrom(text: string, needle: string, cursor: nat): (index: int)
    requires cursor <= |text|
    ensures index == -1 || (cursor <= index && At(text, index, needle))
    decreases |text| - cursor
  {
    if cursor + |needle| > |text| then -1
    else if text[cursor..cursor + |needle|] == needle then cursor
    else if cursor == |text| then -1
    else FindFrom(text, needle, cursor + 1)
  }

  lemma {:induction false} FoundIsLeftmost(text: string, needle: string, cursor: nat)
    requires cursor <= |text|
    ensures var index := FindFrom(text, needle, cursor);
      forall k :: cursor <= k && (index == -1 || k < index) ==> !At(text, k, needle)
    decreases |text| - cursor
  {
    if cursor + |needle| <= |text| && text[cursor..cursor + |needle|] != needle && cursor < |text| {
      FoundIsLeftmost(text, needle, cursor + 1);
    }
  }

  /** The search, position by position. */
  method Find(text: string, needle: string, cursor: nat) returns (index: int)
    requires cursor <= |text|
    ensures index == FindFrom(text, needle, cursor)
    ensures index >= 0 ==> cursor <= index && At(text, index, needle)
    ensures index >= 0 ==> forall k :: cursor <= k < index ==> !At(text, k, needle)
    ensures index < 0 ==> index == -1 && forall k :: cursor <= k ==> !At(text, k, needle)
  {
    FoundIsLeftmost(text, needle, cursor);
    index := cursor;
    while index + |needle| <= |text|
      invariant cursor <= index
      invariant forall k :: cursor <= k < index ==> !At(text, k, needle)
      invariant index <= |text| ==> FindFrom(text, needle, index) == FindFrom(text, needle, cursor)
    {
      if text[index..index + |needle|] == needle { return; }
      index := index + 1;
    }
    index := -1;
  }

  /** The leftmost occurrence of the first segment is as good as any other. */
  lemma LeftmostIsEnough(w: string, ws: seq<string>, t: string, k: int)
    requires At(t, k, w)
    requires forall j :: 0 <= j < k ==> !At(t, j, w)
    ensures Scattered([w] + ws, t) <==> Scattered(ws, t[k + |w|..])
  {
    if Scattered([w] + ws, t) {
      assert ([w] + ws)[1..] == ws;
      var j :| At(t, j, w) && Scattered(ws, t[j + |w|..]);
      assert k <= j;
      assert Suffix(t[j + |w|..], t[k + |w|..]);
      ScatteredInSuffix(ws, t[j + |w|..], t[k + |w|..]);
    }
    if Scattered(ws, t[k + |w|..]) {
      PlaceFirst(w, ws, t, k);
    }
  }

  lemma OccurrencesAhead(t: string, cursor: nat, w: string, k: int)
    requires cursor <= |t| && 0 <= k
    ensures At(t[cursor..], k, w) <==> At(t, cursor + k, w)
  {
    if k + |w| <= |t| - cursor {
      assert t[cursor..][k..k + |w|] == t[cursor + k..cursor + k + |w|];
    }
  }

  lemma FoundNext(segments: seq<string>, n: nat, t: string, cursor: nat, index: int)
    requires n < |segments| && cursor <= index && cursor <= |t| && At(t, index, segments[n])
    requires forall k :: cursor <= k < index ==> !At(t, k, segments[n])
    ensures Scattered(segments[n..], t[cursor..]) <==> Scattered(segments[n + 1..], t[index + |segments[n]|..])
  {
    var w, rest := segments[n], t[cursor..];
    assert segments[n..] == [w] + segments[n + 1..];
    OccurrencesAhead(t, cursor, w, index - cursor);
    forall j | 0 <= j < index - cursor ensures !At(rest, j, w) {
      OccurrencesAhead(t, cursor, w, j);
    }
    LeftmostIsEnough(w, segments[n + 1..], rest, index - cursor);
    assert rest[index - cursor + |w|..] == t[index + |w|..];
  }

  lemma NoneNext(segments: seq<string>, n: nat, t: string, cursor: nat)
    requires n < |segments| && cursor <= |t| && forall k :: cursor <= k ==> !At(t, k, segments[n])
    ensures !Scattered(segments[n..], t[cursor..])
  {
    if Scattered(segments[n..], t[cursor..]) {
      var k :| At(t[cursor..], k, segments[n..][0]) && Scattered(segments[n..][1..], t[cursor..][k + |segments[n..][0]|..]);
      OccurrencesAhead(t, cursor, segments[n], k);
    }
  }

  /** The greedy left-to-right search succeeds exactly when some placement exists. */
  method ContainsSegmentsInOrder(blockText: string, segments: seq<string>) returns (found: bool)
    ensures found <==> Scattered(segments, blockText)
  {
    var cursor := 0;
    assert blockText[0..] == blockText && segments[0..] == segments;
    for i := 0 to |segments|
      invariant 0 <= cursor <= |blockText|
      invariant Scattered(segments, blockText) <==> Scattered(segments[i..], blockText[cursor..])
    {
      var segment := segments[i];
      var index := Find(blockText, segment, cursor);
      if index == -1 {
        NoneNext(segments, i, blockText, cursor);
        return false;
      }
      FoundNext(segments, i, blockText, cursor, index);
      cursor := index + |segment|;
    }
    return true;
  }
}
