/**
  What the evaluation makes of a perfect segmentation. Anchors index the normalized document, reference
  spans the document as it was assembled: the credit each clause then gets, over all the anchors.
*/
module BoundaryShift {
  import opened Wrappers
  import opened Typography
  import opened Placement
  import opened Verifier
  import opened Segmentation
  import opened Risk
  import opened Anchoring
  import opened Flattening
  import A = Assembler

  function TextsOf(clauses: seq<A.BankClause>): (r: seq<string>)
    ensures |r| == |clauses| && forall i :: 0 <= i < |clauses| ==> r[i] == clauses[i].text
  {
    seq(|clauses|, i requires 0 <= i < |clauses| => clauses[i].text)
  }

  /** The anchored clauses as predictions, under the ids the analysis numbers them by. */
  function Predicted(spans: seq<AnchoredSpan>): (r: seq<LabeledSpan>)
    ensures |r| == |spans|
    ensures forall i :: 0 <= i < |spans| ==> r[i] == LabeledSpan(A.PipelineId(i + 1), spans[i].start, spans[i].end)
  {
    seq(|spans|, i requires 0 <= i < |spans| => LabeledSpan(A.PipelineId(i + 1), spans[i].start, spans[i].end))
  }

  function ReferenceOf(caseId: string, header: string, clauses: seq<A.BankClause>): (r: seq<LabeledSpan>) {
    A.ReferenceSpans(A.TruthsOf(caseId, header, clauses))
  }

  function OwnAnchor(header: string, clauses: seq<A.BankClause>, i: nat): AnchoredSpan
    requires i < |clauses|
  {
    AnchoredSpan(FlatStart(header, clauses, i), FlatEnd(header, clauses, i), clauses[i].text)
  }

  /** Proposing every clause's exact text anchors each where its text stands. */
  ghost predicate AnchoredAtOwn(header: string, clauses: seq<A.BankClause>, spans: seq<AnchoredSpan>) {
    |spans| == |clauses| && forall i :: 0 <= i < |clauses| ==> spans[i] == OwnAnchor(header, clauses, i)
  }

  /** Each text is long enough to anchor and does not occur before its own place. */
  ghost predicate Anchorable(document: string, header: string, clauses: seq<A.BankClause>) {
    forall i :: 0 <= i < |clauses| ==> FirstAt(document, clauses[i].text, FlatStart(header, clauses, i))
  }

  ghost predicate FirstAt(document: string, text: string, k: nat) {
    |text| >= MIN_CLAUSE_CHARS && !(0 <= FindFrom(document, text, 0) < k)
  }

  ghost predicate PlainContract(nfc: string -> string, header: string, clauses: seq<A.BankClause>) {
    IsNormalForm(nfc) && PlainHeader(nfc, header) && PlainClauses(nfc, clauses)
  }

  lemma StandingIsFound(document: string, text: string, k: int)
    requires At(document, k, text) && !(0 <= FindFrom(document, text, 0) < k)
    ensures FindFrom(document, text, 0) == k
  {
    FoundIsLeftmost(document, text, 0);
  }

  lemma FoundIsAnchored(tools: Tools, document: string, text: string, k: nat)
    requires |text| >= MIN_CLAUSE_CHARS && Normalize(tools.nfc, text) == text
    requires At(document, k, text) && !(0 <= FindFrom(document, text, 0) < k)
    ensures AnchorOne(tools, document, text) == Some(AnchoredSpan(k, k + |text|, text))
  {
    StandingIsFound(document, text, k);
  }

  lemma OwnTextStands(nfc: string -> string, header: string, clauses: seq<A.BankClause>, document: string, i: nat, text: string, k: nat)
    requires PlainContract(nfc, header, clauses) && i < |clauses|
    requires document == Normalize(nfc, A.Document(header, clauses))
    requires text == clauses[i].text && k == FlatStart(header, clauses, i)
    ensures At(document, k, text) && Normalize(nfc, text) == text
  {
    ClauseStands(nfc, header, clauses, i, document, text, k);
    NormalizeFixes(nfc, text);
  }

  ghost predicate AnchorsAt(tools: Tools, document: string, text: string, k: nat) {
    AnchorOne(tools, document, text) == Some(AnchoredSpan(k, k + |text|, text))
  }

  lemma OwnTextAnchors(tools: Tools, header: string, clauses: seq<A.BankClause>, document: string, i: nat, text: string, k: nat)
    requires PlainContract(tools.nfc, header, clauses) && i < |clauses|
    requires document == Normalize(tools.nfc, A.Document(header, clauses))
    requires text == clauses[i].text && k == FlatStart(header, clauses, i) && FirstAt(document, text, k)
    ensures AnchorsAt(tools, document, text, k)
  {
    OwnTextStands(tools.nfc, header, clauses, document, i, text, k);
    FoundIsAnchored(tools, document, text, k);
  }

  ghost predicate OwnTextsAnchor(tools: Tools, document: string, header: string, clauses: seq<A.BankClause>) {
    forall i :: 0 <= i < |clauses| ==> AnchorsAt(tools, document, clauses[i].text, FlatStart(header, clauses, i))
  }

  lemma AllOwnTextsAnchor(tools: Tools, header: string, clauses: seq<A.BankClause>, document: string)
    requires PlainContract(tools.nfc, header, clauses) && Anchorable(document, header, clauses)
    requires document == Normalize(tools.nfc, A.Document(header, clauses))
    ensures OwnTextsAnchor(tools, document, header, clauses)
  {
    forall i | 0 <= i < |clauses| ensures AnchorsAt(tools, document, clauses[i].text, FlatStart(header, clauses, i)) {
      OwnTextAnchors(tools, header, clauses, document, i, clauses[i].text, FlatStart(header, clauses, i));
    }
  }

  lemma AnchoredTogether(tools: Tools, document: string, header: string, clauses: seq<A.BankClause>, spans: seq<AnchoredSpan>)
    requires OwnTextsAnchor(tools, document, header, clauses)
    requires |spans| == |clauses| && AnchoredAs(tools, document, TextsOf(clauses), spans)
    ensures AnchoredAtOwn(header, clauses, spans)
  {
  }

  /** A perfect proposal is anchored whole, each text where it stands. */
  method AnchorOwnTexts(tools: Tools, header: string, clauses: seq<A.BankClause>) returns (r: Option<seq<AnchoredSpan>>)
    requires PlainContract(tools.nfc, header, clauses)
    requires Anchorable(Normalize(tools.nfc, A.Document(header, clauses)), header, clauses)
    ensures r.Some? && AnchoredAtOwn(header, clauses, r.value)
  {
    ghost var failed;
    ghost var document := Normalize(tools.nfc, A.Document(header, clauses));
    AllOwnTextsAnchor(tools, header, clauses, document);
    r, failed := AnchorClauses(tools, A.Document(header, clauses), TextsOf(clauses));
    AnchoredTogether(tools, document, header, clauses, r.value);
  }

  // ---------- One clause against its own anchor ----------

  /** A span of length `size` and its copy shifted left by `lost` overlap by `(size - lost) / (size + lost)`. */
  lemma ShiftedOverlap(id: string, other: string, start: int, end: int, lost: nat, threshold: real)
    requires start < end && 0.0 < threshold <= 1.0
    ensures CharacterIou(LabeledSpan(id, start, end), LabeledSpan(other, start - lost, end - lost)) ==
            if lost < end - start then (end - start - lost) as real / (end - start + lost) as real else 0.0
    ensures CharacterIou(LabeledSpan(id, start, end), LabeledSpan(other, start - lost, end - lost)) >= threshold <==>
            (end - start - lost) as real >= threshold * (end - start + lost) as real
  {
    var a, b := LabeledSpan(id, start, end), LabeledSpan(other, start - lost, end - lost);
    var size := end - start;
    if lost < size {
      assert Intersection(a, b) == size - lost;
      CompareFraction(size - lost, size + lost, threshold);
    } else {
      assert Intersection(a, b) == 0;
      PositiveProduct(threshold, (size + lost) as real);
    }
  }

  lemma NineToOne(size: int, lost: nat)
    ensures (size - lost) as real >= DEFAULT_IOU_THRESHOLD * (size + lost) as real <==> size >= 9 * lost
  {
  }

  /** Clause `i`'s reference span, that of its own anchor, and the shift between them. */
  lemma SpansOf(caseId: string, header: string, clauses: seq<A.BankClause>, spans: seq<AnchoredSpan>, i: nat)
    requires AnchoredAtOwn(header, clauses, spans) && i < |clauses|
    ensures |ReferenceOf(caseId, header, clauses)| == |clauses|
    ensures var s, e, lost := FlatStart(header, clauses, i), FlatEnd(header, clauses, i), Lost(header, i);
      && ReferenceOf(caseId, header, clauses)[i] == LabeledSpan(A.ClauseId(caseId, i + 1), s + lost, e + lost)
      && Predicted(spans)[i] == LabeledSpan(A.PipelineId(i + 1), s, e)
  {
    ClauseIsShifted(caseId, header, clauses, i);
  }

  ghost predicate NinefoldOfLost(header: string, clauses: seq<A.BankClause>, i: nat)
    requires i < |clauses|
  {
    |clauses[i].text| >= 9 * Lost(header, i)
  }

  lemma ShiftedPair(ref: LabeledSpan, anchor: LabeledSpan, lost: nat)
    requires ref.start < ref.end && anchor.start == ref.start - lost && anchor.end == ref.end - lost
    ensures CharacterIou(ref, anchor) >= DEFAULT_IOU_THRESHOLD <==> ref.end - ref.start >= 9 * lost
  {
    ShiftedOverlap(ref.id, anchor.id, ref.start, ref.end, lost, DEFAULT_IOU_THRESHOLD);
    NineToOne(ref.end - ref.start, lost);
  }

  lemma OwnOverlap(caseId: string, header: string, clauses: seq<A.BankClause>, spans: seq<AnchoredSpan>, i: nat)
    requires AnchoredAtOwn(header, clauses, spans) && i < |clauses| && clauses[i].text != ""
    ensures |ReferenceOf(caseId, header, clauses)| == |clauses|
    ensures CharacterIou(ReferenceOf(caseId, header, clauses)[i], Predicted(spans)[i]) >= DEFAULT_IOU_THRESHOLD
            <==> NinefoldOfLost(header, clauses, i)
  {
    SpansOf(caseId, header, clauses, spans, i);
    ShiftedPair(ReferenceOf(caseId, header, clauses)[i], Predicted(spans)[i], Lost(header, i));
  }

  // ---------- One clause against all the anchors ----------

  lemma AnchorsAreApart(header: string, clauses: seq<A.BankClause>, spans: seq<AnchoredSpan>)
    requires AnchoredAtOwn(header, clauses, spans)
    ensures PairwiseDisjoint(Predicted(spans)) && DistinctIds(Predicted(spans))
  {
    forall i, j | 0 <= i < j < |spans|
      ensures Disjoint(Predicted(spans)[i], Predicted(spans)[j]) && Predicted(spans)[i].id != Predicted(spans)[j].id
    {
      FlatOrder(header, clauses, i, j);
      A.PipelineIdsDiffer(i + 1, j + 1);
    }
  }

  /** An earlier anchor ends before the reference starts; so does a later one start past it, behind a heading that long. */
  lemma OtherAnchors(caseId: string, header: string, clauses: seq<A.BankClause>, spans: seq<AnchoredSpan>, i: nat, j: nat)
    requires AnchoredAtOwn(header, clauses, spans) && i < |clauses| && j < |clauses|
    requires j < i || (j > i && Lost(header, i) <= |clauses[i + 1].heading| + 2)
    ensures |ReferenceOf(caseId, header, clauses)| == |clauses|
    ensures CharacterIou(ReferenceOf(caseId, header, clauses)[i], Predicted(spans)[j]) == 0.0
  {
    SpansOf(caseId, header, clauses, spans, i);
    SpansOf(caseId, header, clauses, spans, j);
    if j < i { FlatOrder(header, clauses, j, i); } else { FlatOrder(header, clauses, i, j); }
  }

  /** What the evaluation makes of clause `i`. */
  function CreditOf(caseId: string, header: string, clauses: seq<A.BankClause>, spans: seq<AnchoredSpan>, i: nat): SpanMatch
    requires i < |ReferenceOf(caseId, header, clauses)|
  {
    MatchOf(ReferenceOf(caseId, header, clauses)[i], Predicted(spans), DEFAULT_IOU_THRESHOLD)
  }

  /**
    A perfect segmentation of an assembled contract is not credited as one. Clause `i` (from zero) is
    delimited by its own anchor exactly when its text has nine characters for each one normalization
    dropped before it: one per clause before it, one more under a header.
  */
  lemma PerfectProposalIsShifted(caseId: string, header: string, clauses: seq<A.BankClause>, spans: seq<AnchoredSpan>, i: nat)
    requires AnchoredAtOwn(header, clauses, spans) && i < |clauses| && clauses[i].text != ""
    ensures |ReferenceOf(caseId, header, clauses)| == |clauses|
    ensures var m := CreditOf(caseId, header, clauses, spans, i);
      m.matched && m.predictedId == Some(A.PipelineId(i + 1)) <==> |clauses[i].text| >= 9 * Lost(header, i)
  {
    SpansOf(caseId, header, clauses, spans, i);
    OwnOverlap(caseId, header, clauses, spans, i);
    AnchorsAreApart(header, clauses, spans);
    var ref := ReferenceOf(caseId, header, clauses)[i];
    if NinefoldOfLost(header, clauses, i) {
      AboveHalfIsBest(ref, Predicted(spans), i);
      ReachingIsMatched(ref, Predicted(spans), DEFAULT_IOU_THRESHOLD, i);
    } else {
      var k := MatchedIsBest(ref, Predicted(spans), DEFAULT_IOU_THRESHOLD);
      if k != i { A.PipelineIdsDiffer(k + 1, i + 1); }
    }
  }

  /** A shorter text is missed, or credited with the finding of some later clause. */
  lemma ShortClauseIsMissedOrMisread(caseId: string, header: string, clauses: seq<A.BankClause>, spans: seq<AnchoredSpan>,
                                     i: nat) returns (j: nat)
    requires AnchoredAtOwn(header, clauses, spans) && i < |clauses| && clauses[i].text != ""
    requires |clauses[i].text| < 9 * Lost(header, i)
    ensures |ReferenceOf(caseId, header, clauses)| == |clauses|
    ensures var m := CreditOf(caseId, header, clauses, spans, i);
      m.matched ==> i < j < |clauses| && m.predictedId == Some(A.PipelineId(j + 1)) && Lost(header, i) > |clauses[i + 1].heading| + 2
  {
    OwnOverlap(caseId, header, clauses, spans, i);
    j := MatchedIsBest(ReferenceOf(caseId, header, clauses)[i], Predicted(spans), DEFAULT_IOU_THRESHOLD);
    if j < |clauses| && (j < i || (j > i && Lost(header, i) <= |clauses[i + 1].heading| + 2)) {
      OtherAnchors(caseId, header, clauses, spans, i, j);
    }
  }

  /** Reaching four fifths: nine times the common characters are at least four times those of both texts. */
  lemma FourFifths(a: LabeledSpan, b: LabeledSpan)
    requires a.start < a.end && b.start <= b.end
    ensures CharacterIou(a, b) >= DEFAULT_IOU_THRESHOLD <==> 9 * Intersection(a, b) >= 4 * (a.end - a.start + b.end - b.start)
  {
    var n := Intersection(a, b);
    if n > 0 {
      UnionSize(a, b);
      CompareFraction(n, a.end - a.start + b.end - b.start - n, DEFAULT_IOU_THRESHOLD);
    }
  }

  /** How many characters the reference of clause `i` shares with the anchor of clause `j`. */
  function Common(header: string, clauses: seq<A.BankClause>, i: nat, j: nat): int
    requires i < |clauses| && j < |clauses|
  {
    var lost := Lost(header, i);
    Max(0, Min(FlatEnd(header, clauses, i) + lost, FlatEnd(header, clauses, j))
           - Max(FlatStart(header, clauses, i) + lost, FlatStart(header, clauses, j)))
  }

  ghost predicate Covers(header: string, clauses: seq<A.BankClause>, i: nat, j: nat)
    requires i < |clauses|
  {
    j < |clauses| && 9 * Common(header, clauses, i, j) >= 4 * (|clauses[i].text| + |clauses[j].text|)
  }

  lemma CoversIffReaches(caseId: string, header: string, clauses: seq<A.BankClause>, spans: seq<AnchoredSpan>, i: nat, j: nat)
    requires AnchoredAtOwn(header, clauses, spans) && i < |clauses| && j < |clauses| && clauses[i].text != ""
    ensures |ReferenceOf(caseId, header, clauses)| == |clauses|
    ensures Covers(header, clauses, i, j) <==>
            Reaches(ReferenceOf(caseId, header, clauses)[i], Predicted(spans), DEFAULT_IOU_THRESHOLD, j)
  {
    SpansOf(caseId, header, clauses, spans, i);
    SpansOf(caseId, header, clauses, spans, j);
    FourFifths(ReferenceOf(caseId, header, clauses)[i], Predicted(spans)[j]);
  }

  /** Clause `i` is credited exactly when its own anchor, or a later clause's, covers its shifted place well enough. */
  lemma CreditedIff(caseId: string, header: string, clauses: seq<A.BankClause>, spans: seq<AnchoredSpan>, i: nat)
    requires AnchoredAtOwn(header, clauses, spans) && i < |clauses| && clauses[i].text != ""
    ensures |ReferenceOf(caseId, header, clauses)| == |clauses|
    ensures CreditOf(caseId, header, clauses, spans, i).matched <==>
            |clauses[i].text| >= 9 * Lost(header, i) || exists j :: i < j < |clauses| && Covers(header, clauses, i, j)
  {
    PerfectProposalIsShifted(caseId, header, clauses, spans, i);
    var ref := ReferenceOf(caseId, header, clauses)[i];
    if |clauses[i].text| < 9 * Lost(header, i) && CreditOf(caseId, header, clauses, spans, i).matched {
      var k := MatchedIsBest(ref, Predicted(spans), DEFAULT_IOU_THRESHOLD);
      CoversIffReaches(caseId, header, clauses, spans, i, k);
      if k == i { OwnOverlap(caseId, header, clauses, spans, i); }
      if k < i { OtherAnchors(caseId, header, clauses, spans, i, k); }
      assert i < k;
    }
    if j :| i < j < |clauses| && Covers(header, clauses, i, j) {
      CoversIffReaches(caseId, header, clauses, spans, i, j);
      ReachingIsMatched(ref, Predicted(spans), DEFAULT_IOU_THRESHOLD, j);
    }
  }

  /** Unless the loss outruns the next heading, nothing can take the clause over: the bound decides the credit. */
  lemma NoNeighbourReaches(caseId: string, header: string, clauses: seq<A.BankClause>, spans: seq<AnchoredSpan>, i: nat)
    requires AnchoredAtOwn(header, clauses, spans) && i < |clauses| && clauses[i].text != ""
    requires i + 1 < |clauses| ==> Lost(header, i) <= |clauses[i + 1].heading| + 2
    ensures |ReferenceOf(caseId, header, clauses)| == |clauses|
    ensures CreditOf(caseId, header, clauses, spans, i).matched <==> |clauses[i].text| >= 9 * Lost(header, i)
  {
    PerfectProposalIsShifted(caseId, header, clauses, spans, i);
    if |clauses[i].text| < 9 * Lost(header, i) {
      var j := ShortClauseIsMissedOrMisread(caseId, header, clauses, spans, i);
    }
  }

  /** Once the loss is a text, its separator and the next heading line, the next clause's anchor lies on the reference. */
  lemma NeighbourTakesOver(caseId: string, header: string, clauses: seq<A.BankClause>, spans: seq<AnchoredSpan>, i: nat)
    requires AnchoredAtOwn(header, clauses, spans) && i + 1 < |clauses| && clauses[i].text != ""
    requires Lost(header, i) == |clauses[i].text| + |clauses[i + 1].heading| + 2
    requires |clauses[i + 1].text| == |clauses[i].text|
    ensures |ReferenceOf(caseId, header, clauses)| == |clauses|
    ensures CreditOf(caseId, header, clauses, spans, i) ==
            SpanMatch(A.ClauseId(caseId, i + 1), Some(A.PipelineId(i + 2)), 1.0, true)
  {
    var ref := ReferenceOf(caseId, header, clauses);
    SpansOf(caseId, header, clauses, spans, i);
    SpansOf(caseId, header, clauses, spans, i + 1);
    FlatNext(header, clauses, i);
    AnchorsAreApart(header, clauses, spans);
    IouRange(ref[i], Predicted(spans)[i + 1]);
    AboveHalfIsBest(ref[i], Predicted(spans), i + 1);
    BestIsFirstMaximum(ref[i], Predicted(spans));
  }

  // ---------- Two contracts ----------

  function Letter(i: nat): char
    requires i < 26
  {
    'a' + i as char
  }

  function Twenty(c: char): string {
    seq(20, n => c)
  }

  /** Clauses headed `H`, each twenty times its own letter. */
  function LetterClauses(n: nat): (r: seq<A.BankClause>)
    requires n <= 26
    ensures |r| == n && forall i :: 0 <= i < n ==> r[i].heading == "H" && r[i].text == Twenty(Letter(i))
    ensures n > 0 ==> r[..n - 1] == LetterClauses(n - 1)
  {
    if n == 0 then []
    else LetterClauses(n - 1) + [A.BankClause("", "H", Twenty(Letter(n - 1)), ILEGAL, [], "")]
  }

  lemma {:induction false} LetterPrefix(n: nat, i: nat)
    requires i <= n <= 26
    ensures LetterClauses(n)[..i] == LetterClauses(i)
  {
    if i < n {
      LetterPrefix(n - 1, i);
      assert LetterClauses(n)[..n - 1][..i] == LetterClauses(n)[..i];
    }
  }

  lemma PlainWord(s: string)
    requires s != "" && forall k :: 0 <= k < |s| ==> 'A' <= s[k] <= 'z'
    ensures Plain(Identity, s)
  {
  }

  lemma LettersArePlain(n: nat)
    requires n <= 26
    ensures PlainClauses(Identity, LetterClauses(n))
  {
    PlainWord("H");
    forall i | 0 <= i < n ensures Plain(Identity, LetterClauses(n)[i].text) {
      PlainWord(Twenty(Letter(i)));
    }
  }

  ghost predicate Earlier(s: string, i: nat) {
    forall k :: 0 <= k < |s| ==> s[k] == 'H' || s[k] == ' ' || 'a' as int <= s[k] as int < 'a' as int + i
  }

  lemma EarlierStep(s: string, text: string, i: nat)
    requires i < 26 && Earlier(s, i) && text == Twenty(Letter(i))
    ensures Earlier(s + ("H" + " " + text + " "), i + 1)
  {
  }

  /** Nothing in front of a clause's text holds its letter. */
  lemma {:induction false} LettersBefore(i: nat)
    requires i <= 26
    ensures |FlatDocument("", LetterClauses(i))| == 23 * i && Earlier(FlatDocument("", LetterClauses(i)), i)
  {
    if i > 0 {
      LettersBefore(i - 1);
      EarlierStep(FlatDocument("", LetterClauses(i - 1)), LetterClauses(i)[i - 1].text, i - 1);
    }
  }

  lemma LetterStart(n: nat, i: nat)
    requires i < n <= 26
    ensures FlatStart("", LetterClauses(n), i) == 23 * i + 2 && Lost("", i) == i
  {
    LettersBefore(i);
    LetterPrefix(n, i);
  }

  /** The text behind `before` and a heading line is the first place where its letter stands. */
  lemma LetterFirst(document: string, before: string, rest: string, i: nat, k: nat)
    requires i < 26 && |before| == 23 * i && Earlier(before, i) && |rest| > 2 && rest[0] == 'H' && rest[1] == ' '
    requires |document| + 1 >= |before| + |rest| && k < 23 * i + 2
    requires (document + " ")[..|before| + |rest|] == before + rest
    ensures k < |document| && document[k] != Letter(i)
  {
    var flat := document + " ";
    assert document[k] == flat[k];
    assert flat[k] == flat[..|before| + |rest|][k];
  }

  lemma FoundNotBefore(document: string, text: string, k: nat)
    requires |text| >= MIN_CLAUSE_CHARS && forall j :: 0 <= j < k && j < |document| ==> document[j] != text[0]
    ensures FirstAt(document, text, k)
  {
    var j := FindFrom(document, text, 0);
    if j != -1 { assert document[j..j + |text|][0] == document[j]; }
  }

  lemma LetterFront(n: nat, i: nat, flat: string, before: string, rest: string)
    requires i < n <= 26 && flat == FlatDocument("", LetterClauses(n))
    requires before == FlatDocument("", LetterClauses(i)) && rest == FlatClause(LetterClauses(n)[i])
    ensures |before| + |rest| <= |flat| && flat[..|before| + |rest|] == before + rest
  {
    LetterPrefix(n, i);
    FlatStep("", LetterClauses(n), i);
    FlatPrefix("", LetterClauses(n), i + 1);
  }

  lemma LetterClauseText(i: nat, c: A.BankClause)
    requires i < 26 && c.heading == "H" && c.text == Twenty(Letter(i))
    ensures |FlatClause(c)| == 23 && FlatClause(c)[0] == 'H' && FlatClause(c)[1] == ' '
  {
  }

  lemma FirstBehind(document: string, before: string, rest: string, i: nat)
    requires i < 26 && |before| == 23 * i && Earlier(before, i) && |rest| > 2 && rest[0] == 'H' && rest[1] == ' '
    requires |document| + 1 >= |before| + |rest| && (document + " ")[..|before| + |rest|] == before + rest
    ensures FirstAt(document, Twenty(Letter(i)), 23 * i + 2)
  {
    forall j | 0 <= j < 23 * i + 2 ensures j < |document| && document[j] != Letter(i) {
      LetterFirst(document, before, rest, i, j);
    }
    FoundNotBefore(document, Twenty(Letter(i)), 23 * i + 2);
  }

  lemma LetterAnchors(n: nat, i: nat, document: string)
    requires i < n <= 26 && FlatDocument("", LetterClauses(n)) == document + " "
    ensures FirstAt(document, Twenty(Letter(i)), 23 * i + 2)
  {
    var c, before := LetterClauses(n)[i], FlatDocument("", LetterClauses(i));
    var rest := FlatClause(c);
    LettersBefore(i);
    LetterFront(n, i, document + " ", before, rest);
    LetterClauseText(i, c);
    FirstBehind(document, before, rest, i);
  }

  lemma LettersFlat(n: nat, document: string)
    requires 0 < n <= 26 && document == Normalize(Identity, A.Document("", LetterClauses(n)))
    ensures PlainContract(Identity, "", LetterClauses(n)) && FlatDocument("", LetterClauses(n)) == document + " "
  {
    IdentityIsNormalForm();
    LettersArePlain(n);
    NormalizesToFlat(Identity, "", LetterClauses(n));
    LettersBefore(n);
  }

  /** Their texts anchor: such a contract meets what a perfect proposal needs. */
  lemma LettersAnchor(n: nat, document: string)
    requires 0 < n <= 26 && document == Normalize(Identity, A.Document("", LetterClauses(n)))
    ensures PlainContract(Identity, "", LetterClauses(n)) && Anchorable(document, "", LetterClauses(n))
  {
    LettersFlat(n, document);
    forall i | 0 <= i < n ensures FirstAt(document, LetterClauses(n)[i].text, FlatStart("", LetterClauses(n), i)) {
      LetterAnchors(n, i, document);
      LetterStart(n, i);
    }
  }

  /** From four such clauses on the last is counted as a miss: three characters lost of twenty are too many. */
  lemma LateClauseIsMissed(caseId: string, n: nat, spans: seq<AnchoredSpan>)
    requires 4 <= n <= 26 && AnchoredAtOwn("", LetterClauses(n), spans)
    ensures |ReferenceOf(caseId, "", LetterClauses(n))| == n
    ensures !CreditOf(caseId, "", LetterClauses(n), spans, n - 1).matched
  {
    LetterStart(n, n - 1);
    NoNeighbourReaches(caseId, "", LetterClauses(n), spans, n - 1);
  }

  /** Of twenty-five or more, the one at index 23 is credited in full with the finding of the next. */
  lemma LateClauseIsMisread(caseId: string, n: nat, spans: seq<AnchoredSpan>, i: nat)
    requires i == 23 && i + 1 < n <= 26 && AnchoredAtOwn("", LetterClauses(n), spans)
    ensures |ReferenceOf(caseId, "", LetterClauses(n))| == n
    ensures CreditOf(caseId, "", LetterClauses(n), spans, i) ==
            SpanMatch(A.ClauseId(caseId, i + 1), Some(A.PipelineId(i + 2)), 1.0, true)
  {
    LetterStart(n, i);
    NeighbourTakesOver(caseId, "", LetterClauses(n), spans, i);
  }
}
