/** The assembler of synthetic contracts: labelled clauses laid into one document, with their spans. */
module Assembler {
  import opened Wrappers
  import opened Lists
  import opened Typography
  import opened Checklists
  import opened Segmentation
  import opened Risk

  datatype BankClause = BankClause(
    id: string, heading: string, text: string, expectedLevel: RiskLevel, chkIds: seq<string>, source: string)

  datatype ClauseGroundTruth = ClauseGroundTruth(
    clauseId: string, heading: string, text: string, start: int, end: int, expectedLevel: RiskLevel,
    chkIds: seq<string>, source: string)

  datatype ExpectedAbsence = ExpectedAbsence(itemId: string, right: string)

  datatype Mode2ReferenceCase = Mode2ReferenceCase(
    id: string, document: string, clauses: seq<ClauseGroundTruth>, expectedAbsences: seq<ExpectedAbsence>)

  /** A clause's position in the contract, printed in decimal. */
  function Decimal(n: nat): string {
    if n < 10 then ["0123456789"[n]] else Decimal(n / 10) + ["0123456789"[n % 10]]
  }

  lemma {:induction false} DecimalIsInjective(m: nat, n: nat)
    requires Decimal(m) == Decimal(n)
    ensures m == n
    decreases m + n
  {
    DecimalEnds(m);
    DecimalEnds(n);
    if m >= 10 && n >= 10 {
      var a, b := Decimal(m / 10), Decimal(n / 10);
      assert a == Decimal(m)[..|Decimal(m)| - 1] && b == Decimal(n)[..|Decimal(n)| - 1];
      DecimalIsInjective(m / 10, n / 10);
    }
  }

  lemma DecimalEnds(n: nat)
    ensures |Decimal(n)| >= 1 && (|Decimal(n)| == 1 <==> n < 10)
    ensures Decimal(n)[|Decimal(n)| - 1] == "0123456789"[n % 10]
    ensures forall d, e :: 0 <= d < 10 && 0 <= e < 10 && "0123456789"[d] == "0123456789"[e] ==> d == e
  {
    if n >= 10 { DecimalEnds(n / 10); }
  }

  function ClauseId(caseId: string, index: nat): string {
    caseId + "-c" + Decimal(index)
  }

  /** The id the analysis gives a clause it has proposed itself: `c1`, `c2` and so on. */
  function PipelineId(index: nat): string {
    "c" + Decimal(index)
  }

  lemma SuffixedDiffer(head: string, i: nat, j: nat)
    requires i != j
    ensures head + Decimal(i) != head + Decimal(j)
  {
    if head + Decimal(i) == head + Decimal(j) {
      assert (head + Decimal(i))[|head|..] == Decimal(i);
      assert (head + Decimal(j))[|head|..] == Decimal(j);
      DecimalIsInjective(i, j);
    }
  }

  lemma ClauseIdsDiffer(caseId: string, i: nat, j: nat)
    requires i != j
    ensures ClauseId(caseId, i) != ClauseId(caseId, j)
  {
    SuffixedDiffer(caseId + "-c", i, j);
  }

  lemma PipelineIdsDiffer(i: nat, j: nat)
    requires i != j
    ensures PipelineId(i) != PipelineId(j)
  {
    SuffixedDiffer("c", i, j);
  }

  // ---------- The document ----------

  function Preamble(header: string): string {
    if Strip(header) == "" then "" else Strip(header) + "\n\n"
  }

  function Rendered(c: BankClause): string {
    c.heading + "\n" + c.text + "\n\n"
  }

  function Body(clauses: seq<BankClause>): string {
    if clauses == [] then "" else Body(clauses[..|clauses| - 1]) + Rendered(clauses[|clauses| - 1])
  }

  lemma BodyStep(clauses: seq<BankClause>, n: nat)
    requires n < |clauses|
    ensures Body(clauses[..n + 1]) == Body(clauses[..n]) + Rendered(clauses[n])
  {
    assert clauses[..n + 1][..n] == clauses[..n] && clauses[..n + 1][n] == clauses[n];
  }

  /** A recorded truth is its bank clause's, under its own id, and its span quotes the document exactly. */
  ghost predicate Records(document: string, caseId: string, index: nat, c: BankClause, t: ClauseGroundTruth) {
    && t.clauseId == ClauseId(caseId, index)
    && t.heading == c.heading && t.text == c.text && t.source == c.source
    && t.expectedLevel == c.expectedLevel && t.chkIds == c.chkIds
    && Quotes(document, t.start, t.end, c.text)
    && Quotes(document, t.start - |c.heading| - 1, t.start, c.heading + "\n")
  }

  ghost predicate Quotes(document: string, start: int, end: int, text: string) {
    0 <= start <= end <= |document| && document[start..end] == text
  }

  lemma QuotesMore(document: string, more: string, start: int, end: int, text: string)
    requires Quotes(document, start, end, text)
    ensures Quotes(document + more, start, end, text)
  {
    assert (document + more)[start..end] == document[start..end];
  }

  lemma QuotesLast(document: string, more: string)
    ensures Quotes(document + more, |document|, |document| + |more|, more)
  {
    assert (document + more)[|document|..] == more;
  }

  /** The truths of the clauses laid so far: one each, in order, the spans apart and inside the document. */
  ghost predicate Laid(document: string, caseId: string, clauses: seq<BankClause>, truths: seq<ClauseGroundTruth>) {
    && |truths| == |clauses|
    && (forall i :: 0 <= i < |clauses| ==> Records(document, caseId, i + 1, clauses[i], truths[i]))
    && (forall i :: 0 <= i < |truths| ==> truths[i].end + 2 <= |document|)
    && (forall i, j :: 0 <= i < j < |truths| ==> truths[i].end + 2 <= truths[j].start)
  }

  lemma LaidMore(document: string, more: string, caseId: string, clauses: seq<BankClause>, truths: seq<ClauseGroundTruth>)
    requires Laid(document, caseId, clauses, truths)
    ensures Laid(document + more, caseId, clauses, truths)
  {
    forall i | 0 <= i < |clauses| ensures Records(document + more, caseId, i + 1, clauses[i], truths[i]) {
      var t := truths[i];
      QuotesMore(document, more, t.start, t.end, t.text);
      QuotesMore(document, more, t.start - |t.heading| - 1, t.start, t.heading + "\n");
    }
  }

  function TruthOf(caseId: string, index: nat, c: BankClause, start: int): ClauseGroundTruth {
    ClauseGroundTruth(ClauseId(caseId, index), c.heading, c.text, start, start + |c.text|, c.expectedLevel, c.chkIds, c.source)
  }

  lemma LaidOne(document: string, caseId: string, clauses: seq<BankClause>, truths: seq<ClauseGroundTruth>, n: nat)
    requires n < |clauses| && Laid(document, caseId, clauses[..n], truths)
    ensures var c := clauses[n];
      Laid(document + Rendered(c), caseId, clauses[..n + 1],
           truths + [TruthOf(caseId, n + 1, c, |document| + |c.heading| + 1)])
  {
    var c := clauses[n];
    var t := TruthOf(caseId, n + 1, c, |document| + |c.heading| + 1);
    LaidMore(document, Rendered(c), caseId, clauses[..n], truths);
    LaidRecord(document, caseId, n + 1, c);
    assert forall i :: 0 <= i < |truths| ==> truths[i].end + 2 <= |document|;
  }

  lemma LaidRecord(document: string, caseId: string, index: nat, c: BankClause)
    ensures Records(document + Rendered(c), caseId, index, c, TruthOf(caseId, index, c, |document| + |c.heading| + 1))
  {
    var headed := document + (c.heading + "\n");
    QuotesLast(document, c.heading + "\n");
    QuotesLast(headed, c.text);
    QuotesMore(headed, c.text, |document|, |headed|, c.heading + "\n");
    QuotesMore(headed + c.text, "\n\n", |document|, |headed|, c.heading + "\n");
    QuotesMore(headed + c.text, "\n\n", |headed|, |headed| + |c.text|, c.text);
    RenderedIs(document, c);
  }

  lemma RenderedIs(document: string, c: BankClause)
    ensures document + (c.heading + "\n") + c.text + "\n\n" == document + Rendered(c)
  {
  }

  /** Lays one clause: its heading line, its body, its separator. */
  method LayClause(caseId: string, index: nat, clause: BankClause, parts0: seq<string>, offset0: nat)
    returns (parts: seq<string>, offset: nat, truth: ClauseGroundTruth)
    requires offset0 == |Joined(parts0)|
    ensures Joined(parts) == Joined(parts0) + Rendered(clause) && offset == |Joined(parts)|
    ensures truth == TruthOf(caseId, index, clause, offset0 + |clause.heading| + 1)
  {
    parts, offset := parts0, offset0;
    var headingLine := clause.heading + "\n";
    JoinedAppend(parts, headingLine);
    parts := parts + [headingLine];
    offset := offset + |headingLine|;

    var start := offset;
    JoinedAppend(parts, clause.text);
    parts := parts + [clause.text];
    offset := offset + |clause.text|;
    var end := offset;

    JoinedAppend(parts, "\n\n");
    parts := parts + ["\n\n"];
    offset := offset + |"\n\n"|;
    RenderedIs(Joined(parts0), clause);

    truth := ClauseGroundTruth(ClauseId(caseId, index), clause.heading, clause.text, start, end,
                               clause.expectedLevel, clause.chkIds, clause.source);
  }

  method LayHeader(header: string) returns (parts: seq<string>, offset: nat)
    ensures Joined(parts) == Preamble(header) && offset == |Joined(parts)|
  {
    parts, offset := [], 0;
    if Strip(header) != "" {
      var block := Strip(header) + "\n\n";
      JoinedAppend(parts, block);
      parts := parts + [block];
      offset := offset + |block|;
    }
  }

  function Document(header: string, clauses: seq<BankClause>): string {
    Preamble(header) + Body(clauses)
  }

  function TruthsOf(caseId: string, header: string, clauses: seq<BankClause>): seq<ClauseGroundTruth> {
    if clauses == [] then []
    else
      var init, last := clauses[..|clauses| - 1], clauses[|clauses| - 1];
      TruthsOf(caseId, header, init) +
      [TruthOf(caseId, |clauses|, last, |Document(header, init)| + |last.heading| + 1)]
  }

  lemma DocumentStep(header: string, clauses: seq<BankClause>, n: nat)
    requires n < |clauses|
    ensures Document(header, clauses[..n + 1]) == Document(header, clauses[..n]) + Rendered(clauses[n])
  {
    BodyStep(clauses, n);
    AppendAssociates(Preamble(header), Body(clauses[..n]), Rendered(clauses[n]));
  }

  lemma TruthsStep(caseId: string, header: string, clauses: seq<BankClause>, n: nat)
    requires n < |clauses|
    ensures TruthsOf(caseId, header, clauses[..n + 1]) ==
            TruthsOf(caseId, header, clauses[..n]) +
            [TruthOf(caseId, n + 1, clauses[n], |Document(header, clauses[..n])| + |clauses[n].heading| + 1)]
  {
    assert clauses[..n + 1][..n] == clauses[..n] && clauses[..n + 1][n] == clauses[n];
  }

  lemma LaidStep(document: string, after: string, caseId: string, clauses: seq<BankClause>, n: nat,
                 truths: seq<ClauseGroundTruth>, more: seq<ClauseGroundTruth>)
    requires n < |clauses| && Laid(document, caseId, clauses[..n], truths)
    requires after == document + Rendered(clauses[n])
    requires more == truths + [TruthOf(caseId, n + 1, clauses[n], |document| + |clauses[n].heading| + 1)]
    ensures Laid(after, caseId, clauses[..n + 1], more)
  {
    LaidOne(document, caseId, clauses, truths, n);
  }

  lemma LaidNone(document: string, caseId: string, clauses: seq<BankClause>)
    ensures Laid(document, caseId, clauses[..0], [])
  {
  }

  lemma {:induction false} TruthsAreLaidUpTo(caseId: string, header: string, clauses: seq<BankClause>, n: nat)
    requires n <= |clauses|
    ensures Laid(Document(header, clauses[..n]), caseId, clauses[..n], TruthsOf(caseId, header, clauses[..n]))
  {
    if n == 0 {
      LaidNone(Document(header, clauses[..0]), caseId, clauses);
    } else {
      var m := n - 1;
      TruthsAreLaidUpTo(caseId, header, clauses, m);
      DocumentStep(header, clauses, m);
      TruthsStep(caseId, header, clauses, m);
      LaidStep(Document(header, clauses[..m]), Document(header, clauses[..n]), caseId, clauses, m,
               TruthsOf(caseId, header, clauses[..m]), TruthsOf(caseId, header, clauses[..n]));
    }
  }

  lemma TruthsAreLaid(caseId: string, header: string, clauses: seq<BankClause>)
    ensures Laid(Document(header, clauses), caseId, clauses, TruthsOf(caseId, header, clauses))
  {
    TruthsAreLaidUpTo(caseId, header, clauses, |clauses|);
    assert clauses[..|clauses|] == clauses;
  }

  /** Lays the clauses into a document; what is not a clause's body is header, heading lines and separators. */
  method LayOut(caseId: string, clauses: seq<BankClause>, header: string)
    returns (document: string, truths: seq<ClauseGroundTruth>)
    ensures document == Document(header, clauses)
    ensures truths == TruthsOf(caseId, header, clauses)
  {
    var parts, offset := LayHeader(header);
    truths := [];
    for n := 0 to |clauses|
      invariant Joined(parts) == Document(header, clauses[..n]) && offset == |Joined(parts)|
      invariant truths == TruthsOf(caseId, header, clauses[..n])
    {
      DocumentStep(header, clauses, n);
      TruthsStep(caseId, header, clauses, n);
      var truth;
      parts, offset, truth := LayClause(caseId, n + 1, clauses[n], parts, offset);
      truths := truths + [truth];
    }
    assert clauses[..|clauses|] == clauses;
    document := Joined(parts);
  }

  // ---------- The whole case ----------

  function CoveredBy(clauses: seq<BankClause>): set<string> {
    set c, id | c in clauses && id in c.chkIds :: id
  }

  function AbsencesOf(items: seq<ChecklistItem>): (r: seq<ExpectedAbsence>)
    ensures |r| == |items|
    ensures forall i :: 0 <= i < |items| ==> r[i] == ExpectedAbsence(items[i].id, items[i].right)
  {
    seq(|items|, i requires 0 <= i < |items| => ExpectedAbsence(items[i].id, items[i].right))
  }

  datatype AssemblyError = NoClauses

  method AssembleContract(caseId: string, clauses: seq<BankClause>, checklist: Checklist, header: string)
    returns (r: Result<Mode2ReferenceCase, AssemblyError>)
    ensures r.Err? <==> clauses == []
    ensures r.Ok? ==>
      && r.value.id == caseId
      && r.value.document == Document(header, clauses)
      && Laid(r.value.document, caseId, clauses, r.value.clauses)
      && r.value.expectedAbsences == AbsencesOf(AbsentItems(checklist.items, CoveredBy(clauses)))
  {
    if clauses == [] { return Err(NoClauses); }
    var document, truths := LayOut(caseId, clauses, header);
    TruthsAreLaid(caseId, header, clauses);
    r := Ok(Mode2ReferenceCase(caseId, document, truths, AbsencesOf(AbsentItems(checklist.items, CoveredBy(clauses)))));
  }

  // ---------- The assembled spans as reference boundaries ----------

  function ReferenceSpans(truths: seq<ClauseGroundTruth>): (r: seq<LabeledSpan>)
    ensures |r| == |truths|
    ensures forall i :: 0 <= i < |truths| ==> r[i] == LabeledSpan(truths[i].clauseId, truths[i].start, truths[i].end)
  {
    seq(|truths|, i requires 0 <= i < |truths| => LabeledSpan(truths[i].clauseId, truths[i].start, truths[i].end))
  }

  lemma AssembledSpansAreApart(document: string, caseId: string, clauses: seq<BankClause>, truths: seq<ClauseGroundTruth>)
    requires Laid(document, caseId, clauses, truths)
    ensures PairwiseDisjoint(ReferenceSpans(truths)) && DistinctIds(ReferenceSpans(truths))
  {
    forall i, j | 0 <= i < j < |truths| ensures truths[i].clauseId != truths[j].clauseId {
      assert Records(document, caseId, i + 1, clauses[i], truths[i]);
      assert Records(document, caseId, j + 1, clauses[j], truths[j]);
      ClauseIdsDiffer(caseId, i + 1, j + 1);
    }
    forall i, j | 0 <= i < j < |truths| ensures Disjoint(ReferenceSpans(truths)[i], ReferenceSpans(truths)[j]) {
      assert truths[i].end + 2 <= truths[j].start;
    }
  }

  /** The delimited clauses of an assembled contract are matched to different predictions. */
  lemma AssembledClausesMatchInjectively(document: string, caseId: string, clauses: seq<BankClause>,
                                         truths: seq<ClauseGroundTruth>, predicted: seq<LabeledSpan>,
                                         threshold: real, i: nat, j: nat)
    requires Laid(document, caseId, clauses, truths) && DistinctIds(predicted)
    requires threshold > 0.5 && i < j < |truths|
    ensures var matches := MatchesOf(ReferenceSpans(truths), predicted, threshold);
      matches[i].matched && matches[j].matched ==> matches[i].predictedId != matches[j].predictedId
  {
    AssembledSpansAreApart(document, caseId, clauses, truths);
    DelimitedIsInjective(ReferenceSpans(truths), predicted, threshold, i, j);
  }

  /** Predicting the assembler's own spans delimits exactly the clauses with a text, each by its own prediction. */
  lemma OwnSpansAreDelimited(document: string, caseId: string, clauses: seq<BankClause>,
                             truths: seq<ClauseGroundTruth>, predicted: seq<LabeledSpan>, threshold: real, i: nat)
    requires Laid(document, caseId, clauses, truths) && |predicted| == |truths| && i < |truths|
    requires forall k :: 0 <= k < |truths| ==> predicted[k].start == truths[k].start && predicted[k].end == truths[k].end
    requires 0.0 < threshold <= 1.0
    ensures var m := MatchOf(ReferenceSpans(truths)[i], predicted, threshold);
      if clauses[i].text != "" then m.matched && m.iou == 1.0 && m.predictedId == Some(predicted[i].id)
      else !m.matched && m.predictedId == None
  {
    AssembledSpansAreApart(document, caseId, clauses, truths);
    ExactSegmentation(ReferenceSpans(truths), predicted, threshold, i);
    assert Records(document, caseId, i + 1, clauses[i], truths[i]);
  }
}
