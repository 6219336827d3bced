/**
  Conservative typographic normalization of quotes and block texts.

  Unicode NFC is a parameter `nfc` of which only the contract `IsNormalForm` is used: it is
  idempotent, substrings of normalized text are normalized, and the two sides of a character that
  never composes (`Inert`) are normalized apart from each other (section 1.4 of UAX #15).
*/
module Typography {
  import opened Lists

  predicate IsSpace(c: char) {
    || '\U{0009}' <= c <= '\U{000D}'
    || '\U{001C}' <= c <= '\U{0020}'
    || c == '\U{0085}' || c == '\U{00A0}' || c == '\U{1680}'
    || '\U{2000}' <= c <= '\U{200A}'
    || c == '\U{2028}' || c == '\U{2029}' || c == '\U{202F}' || c == '\U{205F}' || c == '\U{3000}'
  }

  function UnifyQuote(c: char): char {
    if c == '\U{00AB}' || c == '\U{00BB}' || '\U{201C}' <= c <= '\U{201F}' then '"'
    else if '\U{2018}' <= c <= '\U{201B}' then '\''
    else c
  }

  function UnifyDash(c: char): char {
    if '\U{2010}' <= c <= '\U{2011}' || '\U{2013}' <= c <= '\U{2015}' || c == '\U{2212}' then '-' else c
  }

  /** Both translation tables applied to every character. */
  function Unify(s: string): string {
    if s == "" then "" else [UnifyDash(UnifyQuote(s[0]))] + Unify(s[1..])
  }

  /** `str.lstrip()`: the text past its leading whitespace. */
  function SkipSpaces(s: string): (r: string)
    ensures |r| <= |s|
  {
    if s != "" && IsSpace(s[0]) then SkipSpaces(s[1..]) else s
  }

  /** `str.rstrip()`: the text up to its trailing whitespace. */
  function TrimEnd(s: string): (r: string)
    ensures |r| <= |s|
  {
    if s != "" && IsSpace(s[|s| - 1]) then TrimEnd(s[..|s| - 1]) else s
  }

  /** `str.strip()`. */
  function Strip(s: string): string {
    TrimEnd(SkipSpaces(s))
  }

  /** Every maximal whitespace run replaced by one space. */
  function Collapse(s: string): string
    decreases |s|
  {
    if s == "" then ""
    else if IsSpace(s[0]) then " " + Collapse(SkipSpaces(s[1..]))
    else [s[0]] + Collapse(s[1..])
  }

  function Normalize(nfc: string -> string, text: string): string {
    Strip(Collapse(Unify(nfc(text))))
  }

  // ---------- What normalized text looks like ----------

  predicate Inert(c: char) {
    c == ' ' || c == '\n' || c == '"' || c == '\'' || c == '-' || c == '[' || c == ']' || c == '\U{2026}'
  }

  ghost predicate Stable(nfc: string -> string, s: string) {
    nfc(s) == s
  }

  function Cut(s: string, i: nat, j: nat): string
    requires i <= j <= |s|
  {
    s[i..j]
  }

  function Insert(a: string, c: char, b: string): string {
    a + [c] + b
  }

  ghost predicate IsNormalForm(nfc: string -> string) {
    && (forall s {:trigger Stable(nfc, nfc(s))} :: Stable(nfc, nfc(s)))
    && (forall s, i: nat, j: nat {:trigger Cut(s, i, j)} ::
      i <= j <= |s| && Stable(nfc, s) ==> Stable(nfc, Cut(s, i, j)))
    && (forall a, c, b {:trigger nfc(Insert(a, c, b))} ::
      Inert(c) ==> nfc(Insert(a, c, b)) == Insert(nfc(a), c, nfc(b)))
  }

  function Identity(s: string): string { s }

  /** The contract is not vacuous: on text without composable characters NFC is the identity. */
  lemma IdentityIsNormalForm()
    ensures IsNormalForm(Identity)
  {
  }

  ghost predicate Unified(s: string) {
    forall i :: 0 <= i < |s| ==> UnifyDash(UnifyQuote(s[i])) == s[i]
  }

  /** Single spaces only: no other whitespace, and never two in a row. */
  ghost predicate SingleSpaced(s: string) {
    && (forall i :: 0 <= i < |s| && IsSpace(s[i]) ==> s[i] == ' ')
    && (forall i, j :: 0 <= i < j < |s| && j == i + 1 && s[i] == ' ' ==> s[j] != ' ')
  }

  ghost predicate Trimmed(s: string) {
    s != "" ==> !IsSpace(s[0]) && !IsSpace(s[|s| - 1])
  }

  /** Text that normalization leaves alone, up to spaces at its ends. */
  ghost predicate Tidy(nfc: string -> string, s: string) {
    Stable(nfc, s) && Unified(s) && SingleSpaced(s)
  }

  ghost predicate Suffix(r: string, t: string) {
    |r| <= |t| && r == t[|t| - |r|..]
  }

  lemma SuffixOfTail(r: string, s: string)
    requires s != "" && Suffix(r, s[1..])
    ensures Suffix(r, s)
  {
  }

  lemma {:induction false} SkipSpacesIsSuffix(s: string)
    ensures Suffix(SkipSpaces(s), s)
    ensures SkipSpaces(s) != "" ==> !IsSpace(SkipSpaces(s)[0])
  {
    if s != "" && IsSpace(s[0]) {
      SkipSpacesIsSuffix(s[1..]);
      SuffixOfTail(SkipSpaces(s[1..]), s);
    }
  }

  lemma {:induction false} TrimEndIsPrefix(s: string)
    ensures TrimEnd(s) == s[..|TrimEnd(s)|]
    ensures TrimEnd(s) != "" ==> !IsSpace(TrimEnd(s)[|TrimEnd(s)| - 1])
  {
    if s != "" && IsSpace(s[|s| - 1]) { TrimEndIsPrefix(s[..|s| - 1]); }
  }

  lemma StripKeepsTrimmed(s: string)
    requires Trimmed(s)
    ensures Strip(s) == s
  {
  }

  lemma StripIsTrimmed(s: string) returns (i: nat, j: nat)
    ensures Trimmed(Strip(s))
    ensures i <= j <= |s| && Strip(s) == s[i..j]
  {
    var r := SkipSpaces(s);
    SkipSpacesIsSuffix(s);
    TrimEndIsPrefix(r);
    i, j := |s| - |r|, |s| - |r| + |TrimEnd(r)|;
  }

  lemma TidySubstring(nfc: string -> string, s: string, i: nat, j: nat)
    requires IsNormalForm(nfc) && Tidy(nfc, s) && i <= j <= |s|
    ensures Tidy(nfc, s[i..j])
  {
    assert Cut(s, i, j) == s[i..j];
  }

  /** Putting a character that never composes in place of a stretch keeps the text normalized. */
  lemma ReplaceStretch(nfc: string -> string, pre: string, mid: string, post: string, c: char)
    requires IsNormalForm(nfc) && Stable(nfc, pre + mid + post)
    requires Inert(c) || mid == [c]
    ensures Stable(nfc, (pre + [c]) + post)
  {
    var t := pre + mid + post;
    if mid != [c] {
      assert Cut(t, 0, |pre|) == pre && Cut(t, |pre + mid|, |t|) == post;
      assert Insert(pre, c, post) == (pre + [c]) + post;
    }
  }

  lemma {:induction false} UnifyStaysNormal(nfc: string -> string, pre: string, s: string)
    requires IsNormalForm(nfc) && Stable(nfc, pre + s)
    ensures Stable(nfc, pre + Unify(s))
    decreases |s|
  {
    if s == "" {
      assert pre + Unify(s) == pre + s;
    } else {
      var c := UnifyDash(UnifyQuote(s[0]));
      assert pre + [s[0]] + s[1..] == pre + s;
      ReplaceStretch(nfc, pre, [s[0]], s[1..], c);
      UnifyStaysNormal(nfc, pre + [c], s[1..]);
      AppendAssociates(pre, [c], Unify(s[1..]));
    }
  }

  lemma {:induction false} CollapseStaysNormal(nfc: string -> string, pre: string, s: string)
    requires IsNormalForm(nfc) && Stable(nfc, pre + s)
    ensures Stable(nfc, pre + Collapse(s))
    decreases |s|
  {
    if s == "" {
      assert pre + Collapse(s) == pre + s;
    } else {
      var c := if IsSpace(s[0]) then ' ' else s[0];
      var rest := if IsSpace(s[0]) then SkipSpaces(s[1..]) else s[1..];
      SkipSpacesIsSuffix(s[1..]);
      var run := s[..|s| - |rest|];
      assert run + rest == s;
      assert pre + run + rest == pre + s;
      ReplaceStretch(nfc, pre, run, rest, c);
      CollapseStaysNormal(nfc, pre + [c], rest);
      AppendAssociates(pre, [c], Collapse(rest));
    }
  }

  lemma {:induction false} UnifyIsUnified(s: string)
    ensures Unified(Unify(s))
  {
    if s != "" {
      UnifyIsUnified(s[1..]);
      var c := UnifyDash(UnifyQuote(s[0]));
      assert UnifyDash(UnifyQuote(c)) == c;
      assert forall i :: 0 < i < |Unify(s)| ==> Unify(s)[i] == Unify(s[1..])[i - 1];
    }
  }

  lemma PrependSingleSpaced(c: char, s: string)
    requires SingleSpaced(s) && Unified(s) && Unified([c])
    requires IsSpace(c) ==> c == ' ' && (s == "" || s[0] != ' ')
    ensures SingleSpaced([c] + s) && Unified([c] + s)
  {
    assert forall i :: 0 < i < |s| + 1 ==> ([c] + s)[i] == s[i - 1];
  }

  lemma {:induction false} CollapseIsSingleSpaced(s: string)
    requires Unified(s)
    ensures SingleSpaced(Collapse(s)) && Unified(Collapse(s))
    ensures s != "" && !IsSpace(s[0]) ==> Collapse(s)[0] == s[0]
    decreases |s|
  {
    if s != "" {
      var c := if IsSpace(s[0]) then ' ' else s[0];
      var rest := if IsSpace(s[0]) then SkipSpaces(s[1..]) else s[1..];
      SkipSpacesIsSuffix(s[1..]);
      assert Unified(rest);
      CollapseIsSingleSpaced(rest);
      assert Unified([c]);
      PrependSingleSpaced(c, Collapse(rest));
    }
  }

  lemma {:induction false} CollapseKeepsSingleSpaced(s: string)
    requires SingleSpaced(s)
    ensures Collapse(s) == s
  {
    if s != "" {
      if IsSpace(s[0]) {
        assert SkipSpaces(s[1..]) == s[1..];
      }
      CollapseKeepsSingleSpaced(s[1..]);
    }
  }

  /** Normalized text is tidy and trimmed. */
  lemma NormalizeIsTidy(nfc: string -> string, text: string)
    requires IsNormalForm(nfc)
    ensures Tidy(nfc, Normalize(nfc, text)) && Trimmed(Normalize(nfc, text))
  {
    var u := Unify(nfc(text));
    UnifyIsUnified(nfc(text));
    assert "" + nfc(text) == nfc(text) && "" + u == u && "" + Collapse(u) == Collapse(u);
    UnifyStaysNormal(nfc, "", nfc(text));
    CollapseStaysNormal(nfc, "", u);
    CollapseIsSingleSpaced(u);
    var i, j := StripIsTrimmed(Collapse(u));
    TidySubstring(nfc, Collapse(u), i, j);
  }

  lemma UnifyKeepsUnified(s: string)
    requires Unified(s)
    ensures Unify(s) == s
  {
  }

  /** Normalization is idempotent: it fixes exactly the tidy, trimmed texts. */
  lemma NormalizeFixes(nfc: string -> string, s: string)
    requires IsNormalForm(nfc)
    ensures Normalize(nfc, s) == s <==> Tidy(nfc, s) && Trimmed(s)
  {
    NormalizeIsTidy(nfc, s);
    if Tidy(nfc, s) && Trimmed(s) {
      UnifyKeepsUnified(s);
      CollapseKeepsSingleSpaced(s);
      StripKeepsTrimmed(s);
    }
  }

  /** Which characters count as one: six double quotes, four single ones, six dashes; the rest are themselves. */
  lemma CharactersUnify(c: char)
    ensures Unify([c]) == [
      if c in "\U{00AB}\U{00BB}\U{201C}\U{201D}\U{201E}\U{201F}" then '"'
      else if c in "\U{2018}\U{2019}\U{201A}\U{201B}" then '\''
      else if c in "\U{2010}\U{2011}\U{2013}\U{2014}\U{2015}\U{2212}" then '-'
      else c]
  {
    assert [c][1..] == "";
  }

  // ---------- Normalizing loses nothing but whitespace ----------

  /** What a text holds besides whitespace, in order. */
  function Ink(s: string): string {
    if s == "" then "" else (if IsSpace(s[0]) then "" else [s[0]]) + Ink(s[1..])
  }

  lemma {:induction false} InkAppend(s: string, c: char)
    ensures Ink(s + [c]) == Ink(s) + (if IsSpace(c) then "" else [c])
  {
    if s == "" {
      assert s + [c] == [c] && [c][1..] == "";
    } else {
      assert (s + [c])[0] == s[0] && (s + [c])[1..] == s[1..] + [c];
      InkAppend(s[1..], c);
    }
  }

  lemma {:induction false} SkipKeepsInk(s: string)
    ensures Ink(SkipSpaces(s)) == Ink(s)
  {
    if s != "" && IsSpace(s[0]) { SkipKeepsInk(s[1..]); }
  }

  lemma {:induction false} TrimKeepsInk(s: string)
    ensures Ink(TrimEnd(s)) == Ink(s)
  {
    if s != "" && IsSpace(s[|s| - 1]) {
      TrimKeepsInk(s[..|s| - 1]);
      InkAppend(s[..|s| - 1], s[|s| - 1]);
      assert s == s[..|s| - 1] + [s[|s| - 1]];
    }
  }

  lemma {:induction false} CollapseKeepsInk(s: string)
    ensures Ink(Collapse(s)) == Ink(s)
    decreases |s|
  {
    if s != "" {
      var rest := if IsSpace(s[0]) then SkipSpaces(s[1..]) else s[1..];
      var first := if IsSpace(s[0]) then ' ' else s[0];
      CollapseKeepsInk(rest);
      SkipKeepsInk(s[1..]);
      assert Collapse(s) == [first] + Collapse(rest);
      assert ([first] + Collapse(rest))[1..] == Collapse(rest);
    }
  }

  /** Normalization changes whitespace and unifies characters, and loses or adds no other. */
  lemma NormalizeKeepsInk(nfc: string -> string, text: string)
    ensures Ink(Normalize(nfc, text)) == Ink(Unify(nfc(text)))
    ensures |Unify(nfc(text))| == |nfc(text)|
  {
    var u := Unify(nfc(text));
    CollapseKeepsInk(u);
    SkipKeepsInk(Collapse(u));
    TrimKeepsInk(SkipSpaces(Collapse(u)));
    UnifyLength(nfc(text));
  }

  lemma {:induction false} UnifyLength(s: string)
    ensures |Unify(s)| == |s|
    ensures forall i :: 0 <= i < |s| ==> [Unify(s)[i]] == Unify([s[i]])
  {
    if s != "" {
      UnifyLength(s[1..]);
      forall i | 0 <= i < |s| ensures [Unify(s)[i]] == Unify([s[i]]) {
        assert [s[i]][1..] == "";
        if i > 0 { assert s[i] == s[1..][i - 1] && Unify(s)[i] == Unify(s[1..])[i - 1]; }
      }
    }
  }
}
