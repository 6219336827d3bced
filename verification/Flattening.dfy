/** What normalizing does to an assembled contract, and where its clauses lie afterwards. */
module Flattening {
  import opened Lists
  import opened Typography
  import opened Placement
  import opened Joining
  import A = Assembler

  lemma AssembledIsNeverNormal(nfc: string -> string, header: string, clauses: seq<A.BankClause>)
    requires IsNormalForm(nfc) && clauses != []
    ensures Normalize(nfc, A.Document(header, clauses)) != A.Document(header, clauses)
  {
    var document := A.Document(header, clauses);
    NormalizeIsTidy(nfc, document);
    assert document[|document| - 1] == '\n';
  }

  // ---------- What it normalizes to ----------

  /** The parts normalized apart, one space between those that are not blank. */
  function Flattened(nfc: string -> string, header: string, clauses: seq<A.BankClause>): string {
    if clauses == [] then Normalize(nfc, Strip(header))
    else
      var init, last := clauses[..|clauses| - 1], clauses[|clauses| - 1];
      SpaceJoined(SpaceJoined(Flattened(nfc, header, init), Normalize(nfc, last.heading)), Normalize(nfc, last.text))
  }

  ghost predicate Broken(s: string) {
    s == "" || s[|s| - 1] == '\n'
  }

  lemma JoinNothing(a: string)
    ensures SpaceJoined(a, "") == a && SpaceJoined("", a) == a
  {
  }

  lemma DropBreak(nfc: string -> string, s: string)
    requires IsNormalForm(nfc)
    ensures Normalize(nfc, s + "\n") == Normalize(nfc, s)
  {
    NormalizeJoined(nfc, s, '\n', "");
    NormalizeNothing(nfc);
    JoinNothing(Normalize(nfc, s));
    AppendNothing(s + ['\n']);
  }

  lemma LastBreak(s: string)
    requires s != "" && Broken(s)
    ensures s == s[..|s| - 1] + "\n"
  {
  }

  lemma AfterBreak(nfc: string -> string, d: string, s: string)
    requires IsNormalForm(nfc) && Broken(d)
    ensures Normalize(nfc, d + s) == SpaceJoined(Normalize(nfc, d), Normalize(nfc, s))
  {
    if d == "" {
      assert d + s == s;
      NormalizeNothing(nfc);
      JoinNothing(Normalize(nfc, s));
    } else {
      var front := d[..|d| - 1];
      LastBreak(d);
      DropBreak(nfc, front);
      NormalizeJoined(nfc, front, '\n', s);
    }
  }

  lemma ClauseParts(d: string, c: A.BankClause)
    ensures d + A.Rendered(c) == ((d + c.heading) + ['\n'] + c.text) + "\n" + "\n"
  {
  }

  lemma ClauseFlattens(nfc: string -> string, d: string, c: A.BankClause)
    requires IsNormalForm(nfc) && Broken(d)
    ensures Normalize(nfc, d + A.Rendered(c)) ==
            SpaceJoined(SpaceJoined(Normalize(nfc, d), Normalize(nfc, c.heading)), Normalize(nfc, c.text))
  {
    var joined := (d + c.heading) + ['\n'] + c.text;
    ClauseParts(d, c);
    DropBreak(nfc, joined + "\n");
    DropBreak(nfc, joined);
    NormalizeJoined(nfc, d + c.heading, '\n', c.text);
    AfterBreak(nfc, d, c.heading);
  }

  lemma DocumentGrows(header: string, clauses: seq<A.BankClause>)
    requires clauses != []
    ensures A.Document(header, clauses) == A.Document(header, clauses[..|clauses| - 1]) + A.Rendered(clauses[|clauses| - 1])
  {
    A.DocumentStep(header, clauses, |clauses| - 1);
    assert clauses[..|clauses|] == clauses;
  }

  lemma DocumentBreaks(header: string, clauses: seq<A.BankClause>)
    ensures Broken(A.Document(header, clauses))
  {
    AppendNothing(A.Preamble(header));
  }

  lemma TwoBreaks(s: string)
    ensures s + "\n\n" == (s + "\n") + "\n"
  {
  }

  lemma PreambleFlattens(nfc: string -> string, header: string)
    requires IsNormalForm(nfc)
    ensures Normalize(nfc, A.Preamble(header)) == Normalize(nfc, Strip(header))
  {
    if Strip(header) != "" {
      DropBreak(nfc, Strip(header) + "\n");
      DropBreak(nfc, Strip(header));
      TwoBreaks(Strip(header));
    }
  }

  /** Normalizing collapses each separator to one space, and drops the last, whatever the texts are. */
  lemma {:induction false} AssembledNormalizesFlat(nfc: string -> string, header: string, clauses: seq<A.BankClause>)
    requires IsNormalForm(nfc)
    ensures Normalize(nfc, A.Document(header, clauses)) == Flattened(nfc, header, clauses)
  {
    if clauses == [] {
      PreambleFlattens(nfc, header);
      AppendNothing(A.Preamble(header));
    } else {
      var init := clauses[..|clauses| - 1];
      AssembledNormalizesFlat(nfc, header, init);
      DocumentGrows(header, clauses);
      DocumentBreaks(header, init);
      ClauseFlattens(nfc, A.Document(header, init), clauses[|clauses| - 1]);
    }
  }

  // ---------- Clauses that are normal already ----------

  /** Headings and texts as they read after normalization, and not blank. */
  ghost predicate Plain(nfc: string -> string, s: string) {
    s != "" && Tidy(nfc, s) && Trimmed(s)
  }

  ghost predicate PlainClauses(nfc: string -> string, clauses: seq<A.BankClause>) {
    forall i :: 0 <= i < |clauses| ==> Plain(nfc, clauses[i].heading) && Plain(nfc, clauses[i].text)
  }

  ghost predicate PlainHeader(nfc: string -> string, header: string) {
    Strip(header) != "" ==> Plain(nfc, Strip(header))
  }

  function Spaced(s: string): string {
    if s == "" then "" else s + " "
  }

  function FlatClause(c: A.BankClause): string {
    c.heading + " " + c.text + " "
  }

  function FlatDocument(header: string, clauses: seq<A.BankClause>): string {
    if clauses == [] then Spaced(Strip(header))
    else FlatDocument(header, clauses[..|clauses| - 1]) + FlatClause(clauses[|clauses| - 1])
  }

  lemma SpacedJoin(f: string, h: string, t: string)
    requires h != "" && t != ""
    ensures Spaced(SpaceJoined(SpaceJoined(f, h), t)) == Spaced(f) + (h + " " + t + " ")
  {
  }

  lemma {:induction false} FlatIsSpaced(nfc: string -> string, header: string, clauses: seq<A.BankClause>)
    requires IsNormalForm(nfc) && PlainClauses(nfc, clauses) && PlainHeader(nfc, header)
    ensures FlatDocument(header, clauses) == Spaced(Flattened(nfc, header, clauses))
  {
    if clauses == [] {
      if Strip(header) == "" { NormalizeNothing(nfc); } else { NormalizeFixes(nfc, Strip(header)); }
    } else {
      var init, last := clauses[..|clauses| - 1], clauses[|clauses| - 1];
      FlatIsSpaced(nfc, header, init);
      NormalizeFixes(nfc, last.heading);
      NormalizeFixes(nfc, last.text);
      SpacedJoin(Flattened(nfc, header, init), last.heading, last.text);
    }
  }

  lemma DropLastSpace(flat: string, normalized: string)
    requires flat == Spaced(normalized) && flat != ""
    ensures normalized == flat[..|flat| - 1]
  {
  }

  // ---------- Where a clause lies ----------

  /** How many characters normalization drops before clause `i`: one per separator. */
  function Lost(header: string, i: nat): nat {
    i + if Strip(header) == "" then 0 else 1
  }

  lemma {:induction false} FlatLength(header: string, clauses: seq<A.BankClause>)
    ensures |A.Document(header, clauses)| == |FlatDocument(header, clauses)| + Lost(header, |clauses|)
  {
    if clauses != [] {
      FlatLength(header, clauses[..|clauses| - 1]);
      DocumentGrows(header, clauses);
    }
  }

  lemma {:induction false} FlatPrefix(header: string, clauses: seq<A.BankClause>, n: nat)
    requires n <= |clauses|
    ensures |FlatDocument(header, clauses[..n])| <= |FlatDocument(header, clauses)|
    ensures FlatDocument(header, clauses)[..|FlatDocument(header, clauses[..n])|] == FlatDocument(header, clauses[..n])
    decreases |clauses|
  {
    if n == |clauses| {
      assert clauses[..n] == clauses;
    } else {
      var init := clauses[..|clauses| - 1];
      FlatPrefix(header, init, n);
      assert init[..n] == clauses[..n];
    }
  }

  lemma {:induction false} TruthAt(caseId: string, header: string, clauses: seq<A.BankClause>, i: nat)
    requires i < |clauses|
    ensures |A.TruthsOf(caseId, header, clauses)| == |clauses|
    ensures A.TruthsOf(caseId, header, clauses)[i] ==
            A.TruthOf(caseId, i + 1, clauses[i], |A.Document(header, clauses[..i])| + |clauses[i].heading| + 1)
    decreases |clauses|
  {
    var init := clauses[..|clauses| - 1];
    if i < |init| {
      TruthAt(caseId, header, init, i);
      assert init[..i] == clauses[..i] && init[i] == clauses[i];
    } else if |init| > 0 {
      TruthAt(caseId, header, init, 0);
    }
  }

  lemma FlatStep(header: string, clauses: seq<A.BankClause>, i: nat)
    requires i < |clauses|
    ensures FlatDocument(header, clauses[..i + 1]) == FlatDocument(header, clauses[..i]) + FlatClause(clauses[i])
  {
    assert clauses[..i + 1][..i] == clauses[..i] && clauses[..i + 1][i] == clauses[i];
  }

  /** Where clause `i` starts once the document is normalized. */
  function FlatStart(header: string, clauses: seq<A.BankClause>, i: nat): nat
    requires i < |clauses|
  {
    |FlatDocument(header, clauses[..i])| + |clauses[i].heading| + 1
  }

  function FlatEnd(header: string, clauses: seq<A.BankClause>, i: nat): nat
    requires i < |clauses|
  {
    FlatStart(header, clauses, i) + |clauses[i].text|
  }

  lemma FlatNext(header: string, clauses: seq<A.BankClause>, i: nat)
    requires i + 1 < |clauses|
    ensures FlatStart(header, clauses, i + 1) == FlatEnd(header, clauses, i) + |clauses[i + 1].heading| + 2
  {
    FlatStep(header, clauses, i);
  }

  /** Later clauses start past the end of earlier ones. */
  lemma {:induction false} FlatOrder(header: string, clauses: seq<A.BankClause>, i: nat, j: nat)
    requires i < j < |clauses|
    ensures FlatStart(header, clauses, j) >= FlatEnd(header, clauses, i) + |clauses[i + 1].heading| + 2
    decreases j
  {
    FlatNext(header, clauses, j - 1);
    if i < j - 1 { FlatOrder(header, clauses, i, j - 1); }
  }

  lemma SlicePrefix(t: string, n: nat, i: nat, j: nat)
    requires i <= j <= n <= |t|
    ensures t[i..j] == t[..n][i..j]
  {
  }

  lemma TextInside(front: string, text: string, after: string)
    ensures (front + text + after)[|front|..|front| + |text|] == text
  {
  }

  lemma FlatHoldsText(header: string, clauses: seq<A.BankClause>, i: nat)
    requires i < |clauses|
    ensures FlatEnd(header, clauses, i) < |FlatDocument(header, clauses)|
    ensures FlatDocument(header, clauses)[FlatStart(header, clauses, i)..FlatEnd(header, clauses, i)] == clauses[i].text
  {
    var before := FlatDocument(header, clauses[..i]);
    var front := before + (clauses[i].heading + " ");
    FlatStep(header, clauses, i);
    FlatPrefix(header, clauses, i + 1);
    assert before + FlatClause(clauses[i]) == front + clauses[i].text + " ";
    TextInside(front, clauses[i].text, " ");
    SlicePrefix(FlatDocument(header, clauses), |front| + |clauses[i].text| + 1, |front|, |front| + |clauses[i].text|);
  }

  lemma AtWithoutLast(flat: string, document: string, k: nat, w: string)
    requires k + |w| < |flat| && flat[k..k + |w|] == w && document == flat[..|flat| - 1]
    ensures At(document, k, w)
  {
    SlicePrefix(flat, |flat| - 1, k, k + |w|);
  }

  lemma FlatStands(header: string, clauses: seq<A.BankClause>, i: nat, flat: string, document: string, text: string, k: nat)
    requires i < |clauses| && flat == FlatDocument(header, clauses) && flat == Spaced(document)
    requires text == clauses[i].text && k == FlatStart(header, clauses, i)
    ensures At(document, k, text)
  {
    FlatHoldsText(header, clauses, i);
    DropLastSpace(flat, document);
    AtWithoutLast(flat, document, k, text);
  }

  lemma NormalizesToFlat(nfc: string -> string, header: string, clauses: seq<A.BankClause>)
    requires IsNormalForm(nfc) && PlainClauses(nfc, clauses) && PlainHeader(nfc, header)
    ensures FlatDocument(header, clauses) == Spaced(Normalize(nfc, A.Document(header, clauses)))
  {
    AssembledNormalizesFlat(nfc, header, clauses);
    FlatIsSpaced(nfc, header, clauses);
  }

  /** In the normalized document each clause's text stands at its flat place. */
  lemma ClauseStands(nfc: string -> string, header: string, clauses: seq<A.BankClause>, i: nat, document: string, text: string, k: nat)
    requires IsNormalForm(nfc) && PlainClauses(nfc, clauses) && PlainHeader(nfc, header) && i < |clauses|
    requires document == Normalize(nfc, A.Document(header, clauses))
    requires text == clauses[i].text && k == FlatStart(header, clauses, i)
    ensures At(document, k, text)
  {
    NormalizesToFlat(nfc, header, clauses);
    FlatStands(header, clauses, i, FlatDocument(header, clauses), document, text, k);
  }

  /** The reference span of clause `i` starts that much later, by what normalizing dropped before it. */
  lemma ClauseIsShifted(caseId: string, header: string, clauses: seq<A.BankClause>, i: nat)
    requires i < |clauses|
    ensures |A.TruthsOf(caseId, header, clauses)| == |clauses|
    ensures var t := A.TruthsOf(caseId, header, clauses)[i];
      && t.clauseId == A.ClauseId(caseId, i + 1) && t.text == clauses[i].text
      && t.start == FlatStart(header, clauses, i) + Lost(header, i) && t.end == t.start + |t.text|
  {
    TruthAt(caseId, header, clauses, i);
    FlatLength(header, clauses[..i]);
  }
}
