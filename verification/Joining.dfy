/** Normalizing texts joined by a line break or a space: the parts are normalized apart and joined by one space. */
module Joining {
  import opened Lists
  import opened Typography
  import opened Ellipsis
  import opened Reparse

  /** Two normalized texts with one space between them, if neither is blank. */
  function SpaceJoined(a: string, b: string): string {
    if a == "" then b else if b == "" then a else a + " " + b
  }

  lemma {:induction false} UnifyConcat(a: string, b: string)
    ensures Unify(a + b) == Unify(a) + Unify(b)
  {
    if a == "" {
      assert a + b == b;
    } else {
      assert (a + b)[1..] == a[1..] + b;
      UnifyConcat(a[1..], b);
      AppendAssociates([UnifyDash(UnifyQuote(a[0]))], Unify(a[1..]), Unify(b));
    }
  }

  lemma UnifySeparated(a: string, c: char, b: string)
    requires c == ' ' || c == '\n'
    ensures Unify(a + [c] + b) == Unify(a) + [c] + Unify(b)
  {
    UnifyConcat(a + [c], b);
    UnifyConcat(a, [c]);
    assert [c][1..] == "" && Unify([c]) == [c];
  }

  // ---------- Collapsing and stripping ----------

  lemma {:induction false} CollapseTail(w: string, q: string)
    requires (w != "" ==> !IsSpace(w[|w| - 1])) && q != "" && AllSpaces(q)
    ensures Collapse(w + q) == Collapse(w) + " "
    decreases |w|
  {
    if w == "" {
      assert w + q == q;
      SkipSpacesUnique(q[1..], "");
      assert q[1..] + "" == q[1..];
    } else {
      assert (w + q)[1..] == w[1..] + q;
      if IsSpace(w[0]) {
        SkipSpacesIsSuffix(w[1..]);
        LastStays(w[1..]);
        SkipSpacesAppend(w[1..], q);
        CollapseTail(SkipSpaces(w[1..]), q);
        AppendAssociates(" ", Collapse(SkipSpaces(w[1..])), " ");
      } else {
        CollapseTail(w[1..], q);
        AppendAssociates([w[0]], Collapse(w[1..]), " ");
      }
    }
  }

  lemma {:induction false} LastStays(s: string)
    requires s != "" && !IsSpace(s[|s| - 1])
    ensures SkipSpaces(s) != "" && SkipSpaces(s)[|SkipSpaces(s)| - 1] == s[|s| - 1]
  {
    if IsSpace(s[0]) { LastStays(s[1..]); }
  }

  lemma {:induction false} CollapseEnds(s: string)
    requires s != "" && !IsSpace(s[|s| - 1])
    ensures Collapse(s) != "" && !IsSpace(Collapse(s)[|Collapse(s)| - 1])
    decreases |s|
  {
    if IsSpace(s[0]) {
      LastStays(s[1..]);
      CollapseEnds(SkipSpaces(s[1..]));
    } else if |s| > 1 {
      CollapseEnds(s[1..]);
    }
  }

  lemma TrimEndKeeps(s: string, q: string)
    requires (s != "" ==> !IsSpace(s[|s| - 1])) && AllSpaces(q)
    ensures TrimEnd(s + q) == s
  {
    TrimEndUnique(s, q);
  }

  lemma CollapseTrimEnd(s: string)
    ensures TrimEnd(Collapse(s)) == Collapse(TrimEnd(s))
  {
    var t := TrimEnd(s);
    var q := s[|t|..];
    TrimEndRest(s);
    TrimEndIsPrefix(s);
    if t != "" { CollapseEnds(t); }
    if q == "" {
      assert s == t && Collapse(s) + "" == Collapse(s);
      TrimEndKeeps(Collapse(s), "");
    } else {
      CollapseTail(t, q);
      TrimEndKeeps(Collapse(t), " ");
    }
  }

  lemma CollapseStrip(s: string)
    ensures Strip(Collapse(s)) == Collapse(Strip(s))
  {
    SkipCollapse(s);
    CollapseTrimEnd(SkipSpaces(s));
  }

  // ---------- Joining ----------

  lemma {:induction false} SkippedAreSpaces(s: string)
    ensures forall i :: 0 <= i < |s| - |SkipSpaces(s)| ==> IsSpace(s[i])
  {
    if s != "" && IsSpace(s[0]) {
      SkippedAreSpaces(s[1..]);
      assert forall i :: 0 < i < |s| ==> s[i] == s[1..][i - 1];
    }
  }

  lemma SkippedRest(s: string)
    ensures |SkipSpaces(s)| <= |s| && AllSpaces(s[..|s| - |SkipSpaces(s)|])
    ensures s == s[..|s| - |SkipSpaces(s)|] + SkipSpaces(s)
  {
    SkipSpacesIsSuffix(s);
    SkippedAreSpaces(s);
    SplitAt(s, |s| - |SkipSpaces(s)|);
  }

  /** A text is its stripped core between whitespace. */
  lemma StripParts(s: string) returns (p: string, q: string)
    ensures AllSpaces(p) && AllSpaces(q) && s == p + Strip(s) + q && Trimmed(Strip(s))
  {
    var t := SkipSpaces(s);
    SkippedRest(s);
    TrimEndRest(t);
    p, q := s[..|s| - |t|], t[|TrimEnd(t)|..];
    AppendAssociates(p, Strip(s), q);
    var i, j := StripIsTrimmed(s);
  }

  lemma Regrouped(p: string, a: string, q: string, c: char, x: string, b: string, y: string)
    ensures (p + a + q) + [c] + (x + b + y) == p + (a + (q + [c] + x) + b) + y
  {
  }

  lemma SpacesConcat(a: string, c: char, b: string)
    requires AllSpaces(a) && IsSpace(c) && AllSpaces(b)
    ensures AllSpaces(a + [c] + b)
  {
  }

  lemma MiddleCollapses(a: string, m: string, b: string)
    requires a != "" && b != "" && Trimmed(a) && Trimmed(b) && m != "" && AllSpaces(m)
    ensures Strip(a + m + b) == a + m + b
    ensures Collapse(a + m + b) == Collapse(a) + " " + Collapse(b)
  {
    StripKeepsTrimmed(a + m + b);
    CollapseConcat(a + m, b);
    CollapseTail(a, m);
  }

  lemma StripCollapseJoined(a: string, c: char, b: string)
    requires IsSpace(c)
    ensures Collapse(Strip(a + [c] + b)) == SpaceJoined(Collapse(Strip(a)), Collapse(Strip(b)))
  {
    var p, q := StripParts(a);
    var x, y := StripParts(b);
    var a1, b1, m := Strip(a), Strip(b), q + [c] + x;
    SpacesConcat(q, c, x);
    Regrouped(p, a1, q, c, x, b1, y);
    StripSpaces(p, a1 + m + b1, y);
    if a1 != "" && b1 != "" {
      MiddleCollapses(a1, m, b1);
      CollapseEnds(a1);
      CollapseEnds(b1);
    } else if a1 == "" {
      assert a1 + m + b1 + "" == m + b1 + "" == a1 + m + b1;
      StripSpaces(m, b1, "");
      StripKeepsTrimmed(b1);
    } else {
      assert "" + a1 + m == a1 + m + b1;
      StripSpaces("", a1, m);
      StripKeepsTrimmed(a1);
    }
  }

  /** Across a line break or a space the two sides are normalized apart. */
  lemma NormalizeJoined(nfc: string -> string, a: string, c: char, b: string)
    requires IsNormalForm(nfc) && (c == ' ' || c == '\n')
    ensures Normalize(nfc, a + [c] + b) == SpaceJoined(Normalize(nfc, a), Normalize(nfc, b))
  {
    var u, v := Unify(nfc(a)), Unify(nfc(b));
    assert Insert(a, c, b) == a + [c] + b;
    assert nfc(a + [c] + b) == nfc(a) + [c] + nfc(b);
    UnifySeparated(nfc(a), c, nfc(b));
    CollapseStrip(u + [c] + v);
    CollapseStrip(u);
    CollapseStrip(v);
    StripCollapseJoined(u, c, v);
  }

  lemma NormalizeNothing(nfc: string -> string)
    requires IsNormalForm(nfc)
    ensures Normalize(nfc, "") == ""
  {
    EmptyStable(nfc, nfc(""));
    assert Stable(nfc, nfc(""));
  }
}
