/**
  The Mode 2 quality metrics: what each reference clause was called, the confusion matrix, the counts
  over delimited clauses and over the whole contract, and their pooling over a suite.
*/
module Mode2Metrics {
  import opened Wrappers
  import opened Lists
  import opened Risk
  import opened Classification
  import opened Segmentation
  import A = Assembler

  datatype PredictedClass = Level(level: RiskLevel) | CLASS_INFORMATIVA | CLASS_NO_CONCLUYENTE | CLASS_FUERA_DE_AMBITO

  const GOLD_LEVELS: seq<RiskLevel> := [ILEGAL, PEOR_QUE_DEFAULT, NEGOCIABLE, CORRECTO]

  const PREDICTED_CLASSES: seq<PredictedClass> :=
    [Level(ILEGAL), Level(PEOR_QUE_DEFAULT), Level(NEGOCIABLE), Level(CORRECTO),
     CLASS_INFORMATIVA, CLASS_NO_CONCLUYENTE, CLASS_FUERA_DE_AMBITO]

  predicate IsProblematic(level: RiskLevel) { level in {ILEGAL, PEOR_QUE_DEFAULT} }

  predicate Flags(c: Option<PredictedClass>) { c in {Some(Level(ILEGAL)), Some(Level(PEOR_QUE_DEFAULT))} }

  predicate Reassures(c: Option<PredictedClass>) { c in {Some(Level(CORRECTO)), Some(CLASS_INFORMATIVA)} }

  predicate Abstains(c: Option<PredictedClass>) { c in {Some(CLASS_NO_CONCLUYENTE), Some(CLASS_FUERA_DE_AMBITO)} }

  /** A clause as the case file carries it, written by the assembler. */
  type ClauseTruth = A.ClauseGroundTruth

  datatype ClausePrediction = ClausePrediction(
    clauseId: string, expectedLevel: RiskLevel, predictedClass: Option<PredictedClass>, iou: real, matched: bool)

  /** The class a finding is placed in; none for an evaluated finding without a level, on which the source raises. */
  function PredictedClassOf(f: ClauseFinding): Option<PredictedClass> {
    match f.coverage
    case EVALUADA => if f.level.Some? then Some(Level(f.level.value)) else None
    case INFORMATIVA => Some(CLASS_INFORMATIVA)
    case FUERA_DE_AMBITO => Some(CLASS_FUERA_DE_AMBITO)
    case NO_CONCLUYENTE => Some(CLASS_NO_CONCLUYENTE)
  }

  function PredictedSpans(findings: seq<ClauseFinding>): (r: seq<LabeledSpan>)
    ensures |r| == |findings|
    ensures forall i :: 0 <= i < |findings| ==> r[i] == LabeledSpan(findings[i].clauseId, findings[i].start, findings[i].end)
  {
    seq(|findings|, i requires 0 <= i < |findings| => LabeledSpan(findings[i].clauseId, findings[i].start, findings[i].end))
  }

  /** The class of each finding by its id, the last one under a repeated id. */
  function ClassesById(findings: seq<ClauseFinding>): map<string, PredictedClass> {
    if findings == [] then map[]
    else
      var earlier, last := ClassesById(findings[..|findings| - 1]), findings[|findings| - 1];
      if PredictedClassOf(last).Some? then earlier[last.clauseId := PredictedClassOf(last).value] else earlier
  }

  lemma {:induction false} ClassesByIdAre(findings: seq<ClauseFinding>, k: nat)
    requires k < |findings| && PredictedClassOf(findings[k]).Some?
    requires forall i, j :: 0 <= i < j < |findings| ==> findings[i].clauseId != findings[j].clauseId
    ensures findings[k].clauseId in ClassesById(findings)
    ensures ClassesById(findings)[findings[k].clauseId] == PredictedClassOf(findings[k]).value
  {
    if k < |findings| - 1 {
      ClassesByIdAre(findings[..|findings| - 1], k);
    }
  }

  // ---------- The predictions ----------

  function PredictionOf(truth: ClauseTruth, m: SpanMatch, classes: map<string, PredictedClass>): ClausePrediction {
    var predicted :=
      if m.matched && m.predictedId.Some? && m.predictedId.value != "" && m.predictedId.value in classes
      then Some(classes[m.predictedId.value]) else None;
    ClausePrediction(truth.clauseId, truth.expectedLevel, predicted, m.iou, m.matched)
  }

  function Paired(truths: seq<ClauseTruth>, matches: seq<SpanMatch>, classes: map<string, PredictedClass>): (r: seq<ClausePrediction>)
    requires |matches| == |truths|
    ensures |r| == |truths|
    ensures forall i :: 0 <= i < |truths| ==> r[i] == PredictionOf(truths[i], matches[i], classes)
  {
    seq(|truths|, i requires 0 <= i < |truths| => PredictionOf(truths[i], matches[i], classes))
  }

  function SpanMatches(truths: seq<ClauseTruth>, findings: seq<ClauseFinding>, threshold: real): (r: seq<SpanMatch>)
    ensures |r| == |truths|
  {
    MatchesOf(A.ReferenceSpans(truths), PredictedSpans(findings), threshold)
  }

  function PredictionsOf(truths: seq<ClauseTruth>, findings: seq<ClauseFinding>, threshold: real): (r: seq<ClausePrediction>)
    ensures |r| == |truths|
  {
    Paired(truths, SpanMatches(truths, findings, threshold), ClassesById(findings))
  }

  method ClausePredictions(truths: seq<ClauseTruth>, matches: seq<SpanMatch>, classes: map<string, PredictedClass>)
    returns (predictions: seq<ClausePrediction>)
    requires |matches| == |truths|
    ensures predictions == Paired(truths, matches, classes)
  {
    predictions := [];
    for n := 0 to |truths|
      invariant |predictions| == n
      invariant forall i :: 0 <= i < n ==> predictions[i] == PredictionOf(truths[i], matches[i], classes)
    {
      predictions := predictions + [PredictionOf(truths[n], matches[n], classes)];
    }
  }

  /** A finding set as the risk map gives it: ids of their own, not blank, each finding well placed. */
  ghost predicate ProperFindings(findings: seq<ClauseFinding>) {
    && (forall i, j :: 0 <= i < j < |findings| ==> findings[i].clauseId != findings[j].clauseId)
    && (forall i :: 0 <= i < |findings| ==> findings[i].clauseId != "" && WellPlaced(findings[i]))
  }

  /** A delimited clause gets the class of the finding it overlaps most, if it overlaps any; no other clause gets one. */
  lemma DelimitedClausesAreClassified(truths: seq<ClauseTruth>, findings: seq<ClauseFinding>, threshold: real, i: nat)
    requires ProperFindings(findings) && i < |truths|
    ensures var p, ref, spans := PredictionsOf(truths, findings, threshold)[i], A.ReferenceSpans(truths)[i], PredictedSpans(findings);
      && p.clauseId == truths[i].clauseId && p.expectedLevel == truths[i].expectedLevel
      && (p.matched <==> p.iou >= threshold) && (OverlapsNone(ref, spans) ==> p.iou == 0.0)
      && (forall k: nat :: IsBest(ref, spans, k) ==> p.iou == CharacterIou(ref, spans[k]))
      && (p.predictedClass.Some? <==> p.matched && !OverlapsNone(ref, spans))
      && (OverlapsNone(ref, spans) ==> (p.matched <==> threshold <= 0.0))
    ensures var p, ref, spans := PredictionsOf(truths, findings, threshold)[i], A.ReferenceSpans(truths)[i], PredictedSpans(findings);
      p.predictedClass.Some? ==>
        && p.predictedClass != Some(Level(AUSENTE))
        && exists k: nat :: IsBest(ref, spans, k) && CharacterIou(ref, spans[k]) >= threshold &&
             p.predictedClass == PredictedClassOf(findings[k])
  {
    var ref, spans := A.ReferenceSpans(truths)[i], PredictedSpans(findings);
    BestIsFirstMaximum(ref, spans);
    if BestIndex(ref, spans).Some? {
      var k := BestIndex(ref, spans).value;
      assert WellPlaced(findings[k]);
      ClassesByIdAre(findings, k);
      assert IsBest(ref, spans, k);
    }
  }

  // ---------- Counting ----------

  function CountIf(ps: seq<ClausePrediction>, f: ClausePrediction -> bool): nat {
    if ps == [] then 0 else CountIf(ps[..|ps| - 1], f) + (if f(ps[|ps| - 1]) then 1 else 0)
  }

  function Delimited(ps: seq<ClausePrediction>): seq<ClausePrediction> {
    if ps == [] then []
    else Delimited(ps[..|ps| - 1]) + (if ps[|ps| - 1].matched then [ps[|ps| - 1]] else [])
  }

  lemma CountAppend(ps: seq<ClausePrediction>, last: ClausePrediction, f: ClausePrediction -> bool)
    ensures CountIf(ps + [last], f) == CountIf(ps, f) + (if f(last) then 1 else 0)
  {
    assert (ps + [last])[..|ps|] == ps;
  }

  /** Counting over the delimited clauses is counting the delimited ones over all of them. */
  lemma {:induction false} CountOverDelimited(ps: seq<ClausePrediction>, f: ClausePrediction -> bool, g: ClausePrediction -> bool)
    requires forall p :: g(p) <==> p.matched && f(p)
    ensures CountIf(Delimited(ps), f) == CountIf(ps, g)
  {
    if ps != [] {
      var init, last := ps[..|ps| - 1], ps[|ps| - 1];
      CountOverDelimited(init, f, g);
      if last.matched {
        CountAppend(Delimited(init), last, f);
      } else {
        assert Delimited(init) + [] == Delimited(init);
      }
    }
  }

  /** Two ways to count that exclude one another and exhaust a third add up to it. */
  lemma {:induction false} CountSplits(ps: seq<ClausePrediction>, whole: ClausePrediction -> bool, a: ClausePrediction -> bool,
                                       b: ClausePrediction -> bool)
    requires forall p :: whole(p) <==> a(p) || b(p)
    requires forall p :: !(a(p) && b(p))
    ensures CountIf(ps, whole) == CountIf(ps, a) + CountIf(ps, b)
  {
    if ps != [] { CountSplits(ps[..|ps| - 1], whole, a, b); }
  }

  lemma {:induction false} CountAgrees(ps: seq<ClausePrediction>, f: ClausePrediction -> bool, g: ClausePrediction -> bool)
    requires forall p :: f(p) <==> g(p)
    ensures CountIf(ps, f) == CountIf(ps, g)
  {
    if ps != [] { CountAgrees(ps[..|ps| - 1], f, g); }
  }

  lemma {:induction false} CountWithin(ps: seq<ClausePrediction>, f: ClausePrediction -> bool, g: ClausePrediction -> bool)
    requires forall p :: f(p) ==> g(p)
    ensures CountIf(ps, f) <= CountIf(ps, g)
  {
    if ps != [] { CountWithin(ps[..|ps| - 1], f, g); }
  }

  // What the counts count.

  predicate Problematic(p: ClausePrediction) { IsProblematic(p.expectedLevel) }

  predicate Detection(p: ClausePrediction) { Problematic(p) && Flags(p.predictedClass) }

  predicate FalseCalm(p: ClausePrediction) { Problematic(p) && Reassures(p.predictedClass) }

  predicate Flag(p: ClausePrediction) { Flags(p.predictedClass) }

  predicate TruePositive(p: ClausePrediction) { Flags(p.predictedClass) && Problematic(p) }

  predicate Abstention(p: ClausePrediction) { Abstains(p.predictedClass) }

  predicate DelimitedProblematic(p: ClausePrediction) { Problematic(p) && p.matched }

  predicate DelimitedDetection(p: ClausePrediction) { Problematic(p) && p.matched && Flags(p.predictedClass) }

  predicate DelimitedFalseCalm(p: ClausePrediction) { Problematic(p) && p.matched && Reassures(p.predictedClass) }

  predicate NotReported(p: ClausePrediction) { Problematic(p) && !p.matched }

  predicate DetectionOrCalm(p: ClausePrediction) { Detection(p) || FalseCalm(p) }

  // The conditioned counts, over the delimited clauses `matched`.

  function ProblematicTotal(matched: seq<ClausePrediction>): nat { CountIf(matched, Problematic) }

  function ProblematicDetected(matched: seq<ClausePrediction>): nat { CountIf(matched, Detection) }

  function FalseTranquility(matched: seq<ClausePrediction>): nat { CountIf(matched, FalseCalm) }

  function Flagged(matched: seq<ClausePrediction>): nat { CountIf(matched, Flag) }

  function FlaggedTruePositive(matched: seq<ClausePrediction>): nat { CountIf(matched, TruePositive) }

  function Abstained(matched: seq<ClausePrediction>): nat { CountIf(matched, Abstention) }

  // The end-to-end counts, over every reference clause.

  function ProblematicTotalE2e(ps: seq<ClausePrediction>): nat { CountIf(ps, Problematic) }

  function ProblematicDetectedE2e(ps: seq<ClausePrediction>): nat { CountIf(ps, DelimitedDetection) }

  function FalseTranquilityE2e(ps: seq<ClausePrediction>): nat { CountIf(ps, DelimitedFalseCalm) }

  function NotReportedProblematic(ps: seq<ClausePrediction>): nat { CountIf(ps, NotReported) }

  function Ratio(numerator: nat, denominator: nat): Option<real> {
    if denominator == 0 then None else Some(numerator as real / denominator as real)
  }

  /**
    End to end loses no problematic clause: it has the conditioned ones and those never reported, with
    the same detections and the same false tranquility.
  */
  lemma EndToEndConserves(ps: seq<ClausePrediction>)
    ensures ProblematicTotalE2e(ps) == ProblematicTotal(Delimited(ps)) + NotReportedProblematic(ps)
    ensures ProblematicDetectedE2e(ps) == ProblematicDetected(Delimited(ps))
    ensures FalseTranquilityE2e(ps) == FalseTranquility(Delimited(ps))
  {
    CountOverDelimited(ps, Problematic, DelimitedProblematic);
    CountSplits(ps, Problematic, DelimitedProblematic, NotReported);
    CountOverDelimited(ps, Detection, DelimitedDetection);
    CountOverDelimited(ps, FalseCalm, DelimitedFalseCalm);
  }

  /** Detections and false tranquility are apart, and a true positive of the flags is a detection. */
  lemma EventsAreApart(matched: seq<ClausePrediction>)
    ensures ProblematicDetected(matched) + FalseTranquility(matched) <= ProblematicTotal(matched)
    ensures FlaggedTruePositive(matched) == ProblematicDetected(matched) <= Flagged(matched)
  {
    CountSplits(matched, DetectionOrCalm, Detection, FalseCalm);
    CountWithin(matched, DetectionOrCalm, Problematic);
    CountAgrees(matched, TruePositive, Detection);
    CountWithin(matched, TruePositive, Flag);
  }

  lemma ProductOrder(x: real, y: real, d: real)
    requires d > 0.0 && x * d <= y * d
    ensures x <= y
  {
    assert (x - y) * d == x * d - y * d;
    if x > y { PositiveProduct(x - y, d); }
  }

  lemma LargerDenominator(n: nat, d: nat, more: nat)
    requires d > 0
    ensures Ratio(n, d + more).value <= Ratio(n, d).value
    ensures Ratio(n, d + more).value == Ratio(n, d).value <==> n == 0 || more == 0
  {
    var x, y := Ratio(n, d + more).value, Ratio(n, d).value;
    var e, m := d as real, more as real;
    assert x * (e + m) == n as real && y * e == n as real;
    assert x * (e + m) == x * e + x * m;
    assert x >= 0.0 by { ProductOrder(0.0, x, e + m); }
    assert x * m >= 0.0;
    ProductOrder(x, y, e);
    if x == y { assert x * m == 0.0; }
    if n > 0 && more > 0 {
      assert x > 0.0;
      assert x * m > 0.0;
    }
  }

  /** An end-to-end rate is at most its conditioned one; they agree only when nothing was missed or nothing happened. */
  lemma EndToEndIsNoHigher(ps: seq<ClausePrediction>)
    requires ProblematicTotal(Delimited(ps)) > 0
    ensures var total, all := ProblematicTotal(Delimited(ps)), ProblematicTotalE2e(ps);
      && Ratio(ProblematicDetectedE2e(ps), all).Some? && Ratio(FalseTranquilityE2e(ps), all).Some?
      && Ratio(ProblematicDetectedE2e(ps), all).value <= Ratio(ProblematicDetected(Delimited(ps)), total).value
      && Ratio(FalseTranquilityE2e(ps), all).value <= Ratio(FalseTranquility(Delimited(ps)), total).value
      && (Ratio(ProblematicDetectedE2e(ps), all) == Ratio(ProblematicDetected(Delimited(ps)), total) <==>
            ProblematicDetectedE2e(ps) == 0 || NotReportedProblematic(ps) == 0)
  {
    EndToEndConserves(ps);
    LargerDenominator(ProblematicDetectedE2e(ps), ProblematicTotal(Delimited(ps)), NotReportedProblematic(ps));
    LargerDenominator(FalseTranquilityE2e(ps), ProblematicTotal(Delimited(ps)), NotReportedProblematic(ps));
  }

  // ---------- The confusion matrix ----------

  datatype Cell = Cell(gold: RiskLevel, predicted: PredictedClass)

  type Matrix = map<Cell, nat>

  /** Absence grades no clause, so it has neither a row nor a column. */
  predicate InMatrix(c: Cell) {
    c.gold != AUSENTE && c.predicted != Level(AUSENTE)
  }

  lemma RowsAndColumns(c: Cell)
    ensures InMatrix(c) <==> c.gold in GOLD_LEVELS && c.predicted in PREDICTED_CLASSES
  {
    if c.gold != AUSENTE { EveryLevelIsARow(c.gold); }
    if c.predicted != Level(AUSENTE) { EveryClassIsAColumn(c.predicted); }
  }

  lemma EveryLevelIsARow(level: RiskLevel)
    requires level != AUSENTE
    ensures level in GOLD_LEVELS
  {
    match level
    case ILEGAL => assert GOLD_LEVELS[0] == level;
    case PEOR_QUE_DEFAULT => assert GOLD_LEVELS[1] == level;
    case NEGOCIABLE => assert GOLD_LEVELS[2] == level;
    case CORRECTO => assert GOLD_LEVELS[3] == level;
  }

  lemma EveryClassIsAColumn(c: PredictedClass)
    requires c != Level(AUSENTE)
    ensures c in PREDICTED_CLASSES
  {
    match c
    case Level(ILEGAL) => assert PREDICTED_CLASSES[0] == c;
    case Level(PEOR_QUE_DEFAULT) => assert PREDICTED_CLASSES[1] == c;
    case Level(NEGOCIABLE) => assert PREDICTED_CLASSES[2] == c;
    case Level(CORRECTO) => assert PREDICTED_CLASSES[3] == c;
    case CLASS_INFORMATIVA => assert PREDICTED_CLASSES[4] == c;
    case CLASS_NO_CONCLUYENTE => assert PREDICTED_CLASSES[5] == c;
    case CLASS_FUERA_DE_AMBITO => assert PREDICTED_CLASSES[6] == c;
  }

  ghost predicate Shaped(m: Matrix) {
    forall c :: c in m <==> InMatrix(c)
  }

  method ZeroMatrix() returns (m: Matrix)
    ensures Counted(m, [])
  {
    m := map gold, p | gold in GOLD_LEVELS && p in PREDICTED_CLASSES :: Cell(gold, p) := 0;
    forall c ensures c in m <==> InMatrix(c) {
      RowsAndColumns(c);
    }
  }

  function CountCell(ps: seq<ClausePrediction>, c: Cell): nat {
    if ps == [] then 0
    else
      var last := ps[|ps| - 1];
      CountCell(ps[..|ps| - 1], c) +
      (if last.expectedLevel == c.gold && last.predictedClass == Some(c.predicted) then 1 else 0)
  }

  lemma CountCellStep(ps: seq<ClausePrediction>, n: nat, c: Cell)
    requires n < |ps|
    ensures CountCell(ps[..n + 1], c) == CountCell(ps[..n], c) +
            (if ps[n].expectedLevel == c.gold && ps[n].predictedClass == Some(c.predicted) then 1 else 0)
  {
    assert ps[..n + 1][..n] == ps[..n] && ps[..n + 1][n] == ps[n];
  }

  predicate Placeable(p: ClausePrediction) {
    p.predictedClass.Some? && InMatrix(Cell(p.expectedLevel, p.predictedClass.value))
  }

  predicate AllPlaceable(ps: seq<ClausePrediction>) {
    forall i :: 0 <= i < |ps| ==> Placeable(ps[i])
  }

  datatype MetricsError = NoPredictedClass(clauseId: string) | UnknownCell(clauseId: string)

  ghost predicate Counted(m: Matrix, ps: seq<ClausePrediction>) {
    Shaped(m) && forall c :: c in m ==> m[c] == CountCell(ps, c)
  }

  lemma CountedStep(m: Matrix, ps: seq<ClausePrediction>, n: nat)
    requires n < |ps| && Counted(m, ps[..n]) && Placeable(ps[n])
    ensures var cell := Cell(ps[n].expectedLevel, ps[n].predictedClass.value);
      Counted(m[cell := m[cell] + 1], ps[..n + 1])
  {
    var cell := Cell(ps[n].expectedLevel, ps[n].predictedClass.value);
    forall c ensures CountCell(ps[..n + 1], c) == CountCell(ps[..n], c) + (if c == cell then 1 else 0) {
      CountCellStep(ps, n, c);
    }
  }

  /** The matrix over delimited clauses; it raises exactly when one of them has no place in it. */
  method Confusion(matched: seq<ClausePrediction>) returns (r: Result<Matrix, MetricsError>)
    ensures r.Ok? <==> AllPlaceable(matched)
    ensures r.Ok? ==> Counted(r.value, matched)
  {
    var matrix := ZeroMatrix();
    for n := 0 to |matched|
      invariant forall i :: 0 <= i < n ==> Placeable(matched[i])
      invariant Counted(matrix, matched[..n])
    {
      var p := matched[n];
      if p.predictedClass.None? { return Err(NoPredictedClass(p.clauseId)); }
      var cell := Cell(p.expectedLevel, p.predictedClass.value);
      if cell !in matrix { return Err(UnknownCell(p.clauseId)); }
      CountedStep(matrix, matched, n);
      matrix := matrix[cell := matrix[cell] + 1];
    }
    assert matched[..|matched|] == matched;
    r := Ok(matrix);
  }

  function RowSum(ps: seq<ClausePrediction>, gold: RiskLevel, classes: seq<PredictedClass>): nat {
    if classes == [] then 0
    else RowSum(ps, gold, classes[..|classes| - 1]) + CountCell(ps, Cell(gold, classes[|classes| - 1]))
  }

  function MatrixSum(ps: seq<ClausePrediction>, golds: seq<RiskLevel>, classes: seq<PredictedClass>): nat {
    if golds == [] then 0
    else MatrixSum(ps, golds[..|golds| - 1], classes) + RowSum(ps, golds[|golds| - 1], classes)
  }

  lemma {:induction false} EmptyRow(gold: RiskLevel, classes: seq<PredictedClass>)
    ensures RowSum([], gold, classes) == 0
  {
    if classes != [] { EmptyRow(gold, classes[..|classes| - 1]); }
  }

  lemma {:induction false} EmptyMatrix(golds: seq<RiskLevel>, classes: seq<PredictedClass>)
    ensures MatrixSum([], golds, classes) == 0
  {
    if golds != [] {
      EmptyMatrix(golds[..|golds| - 1], classes);
      EmptyRow(golds[|golds| - 1], classes);
    }
  }

  lemma {:induction false} RowGains(ps: seq<ClausePrediction>, gold: RiskLevel, classes: seq<PredictedClass>)
    requires ps != [] && Distinct(classes)
    ensures var last := ps[|ps| - 1];
      RowSum(ps, gold, classes) == RowSum(ps[..|ps| - 1], gold, classes) +
        (if last.expectedLevel == gold && last.predictedClass.Some? && last.predictedClass.value in classes then 1 else 0)
  {
    if classes != [] {
      var init, c := classes[..|classes| - 1], classes[|classes| - 1];
      RowGains(ps, gold, init);
      assert classes == init + [c];
      assert c !in init;
    }
  }

  lemma {:induction false} MatrixGains(ps: seq<ClausePrediction>, golds: seq<RiskLevel>, classes: seq<PredictedClass>)
    requires ps != [] && Distinct(classes) && Distinct(golds)
    ensures var last := ps[|ps| - 1];
      MatrixSum(ps, golds, classes) == MatrixSum(ps[..|ps| - 1], golds, classes) +
        (if last.expectedLevel in golds && last.predictedClass.Some? && last.predictedClass.value in classes then 1 else 0)
  {
    if golds != [] {
      var init, g := golds[..|golds| - 1], golds[|golds| - 1];
      MatrixGains(ps, init, classes);
      RowGains(ps, g, classes);
      assert golds == init + [g];
      assert g !in init;
    }
  }

  /** The cells of the matrix add up to the delimited clauses. */
  lemma {:induction false} MatrixSumsToDelimited(ps: seq<ClausePrediction>)
    requires AllPlaceable(ps)
    ensures MatrixSum(ps, GOLD_LEVELS, PREDICTED_CLASSES) == |ps|
  {
    if ps == [] {
      EmptyMatrix(GOLD_LEVELS, PREDICTED_CLASSES);
    } else {
      MatrixSumsToDelimited(ps[..|ps| - 1]);
      MatrixGains(ps, GOLD_LEVELS, PREDICTED_CLASSES);
      var last := ps[|ps| - 1];
      assert Placeable(last);
      RowsAndColumns(Cell(last.expectedLevel, last.predictedClass.value));
    }
  }

  /** The entries of a matrix, summed row by row. */
  function RowTotal(m: Matrix, gold: RiskLevel, classes: seq<PredictedClass>): nat {
    if classes == [] then 0
    else
      var cell := Cell(gold, classes[|classes| - 1]);
      RowTotal(m, gold, classes[..|classes| - 1]) + (if cell in m then m[cell] else 0)
  }

  function Total(m: Matrix, golds: seq<RiskLevel>, classes: seq<PredictedClass>): nat {
    if golds == [] then 0
    else Total(m, golds[..|golds| - 1], classes) + RowTotal(m, golds[|golds| - 1], classes)
  }

  lemma {:induction false} RowTotalIs(m: Matrix, ps: seq<ClausePrediction>, gold: RiskLevel, classes: seq<PredictedClass>)
    requires Counted(m, ps) && gold != AUSENTE && Level(AUSENTE) !in classes
    ensures RowTotal(m, gold, classes) == RowSum(ps, gold, classes)
  {
    if classes != [] { RowTotalIs(m, ps, gold, classes[..|classes| - 1]); }
  }

  lemma {:induction false} TotalIs(m: Matrix, ps: seq<ClausePrediction>, golds: seq<RiskLevel>, classes: seq<PredictedClass>)
    requires Counted(m, ps) && AUSENTE !in golds && Level(AUSENTE) !in classes
    ensures Total(m, golds, classes) == MatrixSum(ps, golds, classes)
  {
    if golds != [] {
      TotalIs(m, ps, golds[..|golds| - 1], classes);
      RowTotalIs(m, ps, golds[|golds| - 1], classes);
    }
  }

  /** Whenever the matrix exists, its entries add up to the delimited clauses. */
  lemma MatrixTotal(m: Matrix, matched: seq<ClausePrediction>)
    requires Counted(m, matched) && AllPlaceable(matched)
    ensures Total(m, GOLD_LEVELS, PREDICTED_CLASSES) == |matched|
  {
    TotalIs(m, matched, GOLD_LEVELS, PREDICTED_CLASSES);
    MatrixSumsToDelimited(matched);
  }

  // ---------- The counts, read off the matrix ----------

  function CellOf(m: Matrix, gold: RiskLevel, predicted: PredictedClass): nat {
    if Cell(gold, predicted) in m then m[Cell(gold, predicted)] else 0
  }

  /** The reds and oranges that were called red or orange. */
  function DetectedCells(m: Matrix): nat {
    CellOf(m, ILEGAL, Level(ILEGAL)) + CellOf(m, ILEGAL, Level(PEOR_QUE_DEFAULT)) +
    CellOf(m, PEOR_QUE_DEFAULT, Level(ILEGAL)) + CellOf(m, PEOR_QUE_DEFAULT, Level(PEOR_QUE_DEFAULT))
  }

  /** The reds and oranges that were called green, or passed over in silence. */
  function CalmCells(m: Matrix): nat {
    CellOf(m, ILEGAL, Level(CORRECTO)) + CellOf(m, ILEGAL, CLASS_INFORMATIVA) +
    CellOf(m, PEOR_QUE_DEFAULT, Level(CORRECTO)) + CellOf(m, PEOR_QUE_DEFAULT, CLASS_INFORMATIVA)
  }

  function ColumnCells(m: Matrix, predicted: PredictedClass): nat {
    CellOf(m, ILEGAL, predicted) + CellOf(m, PEOR_QUE_DEFAULT, predicted) +
    CellOf(m, NEGOCIABLE, predicted) + CellOf(m, CORRECTO, predicted)
  }

  function RowCells(m: Matrix, gold: RiskLevel): nat {
    CellOf(m, gold, Level(ILEGAL)) + CellOf(m, gold, Level(PEOR_QUE_DEFAULT)) + CellOf(m, gold, Level(NEGOCIABLE)) +
    CellOf(m, gold, Level(CORRECTO)) + CellOf(m, gold, CLASS_INFORMATIVA) + CellOf(m, gold, CLASS_NO_CONCLUYENTE) +
    CellOf(m, gold, CLASS_FUERA_DE_AMBITO)
  }

  /** The counts of delimited clauses are sums of cells. */
  ghost predicate ReadsOff(m: Matrix, total: nat, detected: nat, calm: nat, flagged: nat, abstained: nat) {
    && total == RowCells(m, ILEGAL) + RowCells(m, PEOR_QUE_DEFAULT)
    && detected == DetectedCells(m) && calm == CalmCells(m)
    && flagged == ColumnCells(m, Level(ILEGAL)) + ColumnCells(m, Level(PEOR_QUE_DEFAULT))
    && abstained == ColumnCells(m, CLASS_NO_CONCLUYENTE) + ColumnCells(m, CLASS_FUERA_DE_AMBITO)
  }

  lemma {:induction false} DetectionCells(ps: seq<ClausePrediction>)
    ensures ProblematicDetected(ps) ==
            CountCell(ps, Cell(ILEGAL, Level(ILEGAL))) + CountCell(ps, Cell(ILEGAL, Level(PEOR_QUE_DEFAULT))) +
            CountCell(ps, Cell(PEOR_QUE_DEFAULT, Level(ILEGAL))) + CountCell(ps, Cell(PEOR_QUE_DEFAULT, Level(PEOR_QUE_DEFAULT)))
    ensures FalseTranquility(ps) ==
            CountCell(ps, Cell(ILEGAL, Level(CORRECTO))) + CountCell(ps, Cell(ILEGAL, CLASS_INFORMATIVA)) +
            CountCell(ps, Cell(PEOR_QUE_DEFAULT, Level(CORRECTO))) + CountCell(ps, Cell(PEOR_QUE_DEFAULT, CLASS_INFORMATIVA))
  {
    if ps != [] { DetectionCells(ps[..|ps| - 1]); }
  }

  function CalledAs(predicted: PredictedClass): ClausePrediction -> bool { (p: ClausePrediction) => p.predictedClass == Some(predicted) }

  function GradedAs(gold: RiskLevel): ClausePrediction -> bool { (p: ClausePrediction) => p.expectedLevel == gold }

  lemma {:induction false} ColumnCounts(ps: seq<ClausePrediction>, predicted: PredictedClass)
    requires AllPlaceable(ps)
    ensures CountIf(ps, CalledAs(predicted)) ==
            CountCell(ps, Cell(ILEGAL, predicted)) + CountCell(ps, Cell(PEOR_QUE_DEFAULT, predicted)) +
            CountCell(ps, Cell(NEGOCIABLE, predicted)) + CountCell(ps, Cell(CORRECTO, predicted))
  {
    if ps != [] {
      ColumnCounts(ps[..|ps| - 1], predicted);
      assert Placeable(ps[|ps| - 1]);
    }
  }

  lemma OneOfSeven(p: ClausePrediction)
    requires Placeable(p)
    ensures exists predicted :: predicted in PREDICTED_CLASSES && p.predictedClass == Some(predicted)
  {
    RowsAndColumns(Cell(p.expectedLevel, p.predictedClass.value));
  }

  lemma {:induction false} RowCounts(ps: seq<ClausePrediction>, gold: RiskLevel)
    requires AllPlaceable(ps)
    ensures CountIf(ps, GradedAs(gold)) ==
            CountCell(ps, Cell(gold, Level(ILEGAL))) + CountCell(ps, Cell(gold, Level(PEOR_QUE_DEFAULT))) +
            CountCell(ps, Cell(gold, Level(NEGOCIABLE))) + CountCell(ps, Cell(gold, Level(CORRECTO))) +
            CountCell(ps, Cell(gold, CLASS_INFORMATIVA)) + CountCell(ps, Cell(gold, CLASS_NO_CONCLUYENTE)) +
            CountCell(ps, Cell(gold, CLASS_FUERA_DE_AMBITO))
  {
    if ps != [] {
      RowCounts(ps[..|ps| - 1], gold);
      OneOfSeven(ps[|ps| - 1]);
    }
  }

  lemma CellsAre(m: Matrix, ps: seq<ClausePrediction>)
    requires Counted(m, ps)
    ensures forall gold, predicted :: gold != AUSENTE && predicted != Level(AUSENTE) ==>
      CellOf(m, gold, predicted) == CountCell(ps, Cell(gold, predicted))
  {
  }

  lemma TwoWays(ps: seq<ClausePrediction>)
    ensures ProblematicTotal(ps) == CountIf(ps, GradedAs(ILEGAL)) + CountIf(ps, GradedAs(PEOR_QUE_DEFAULT))
    ensures Flagged(ps) == CountIf(ps, CalledAs(Level(ILEGAL))) + CountIf(ps, CalledAs(Level(PEOR_QUE_DEFAULT)))
    ensures Abstained(ps) == CountIf(ps, CalledAs(CLASS_NO_CONCLUYENTE)) + CountIf(ps, CalledAs(CLASS_FUERA_DE_AMBITO))
  {
    CountSplits(ps, Problematic, GradedAs(ILEGAL), GradedAs(PEOR_QUE_DEFAULT));
    CountSplits(ps, Flag, CalledAs(Level(ILEGAL)), CalledAs(Level(PEOR_QUE_DEFAULT)));
    CountSplits(ps, Abstention, CalledAs(CLASS_NO_CONCLUYENTE), CalledAs(CLASS_FUERA_DE_AMBITO));
  }

  /** What the matrix shows and what the counts say are the same: which levels are red, what is a flag, what is calm. */
  lemma CountsReadOffMatrix(m: Matrix, matched: seq<ClausePrediction>)
    requires Counted(m, matched) && AllPlaceable(matched)
    ensures ReadsOff(m, ProblematicTotal(matched), ProblematicDetected(matched), FalseTranquility(matched), Flagged(matched),
                     Abstained(matched))
  {
    CellsAre(m, matched);
    TwoWays(matched);
    DetectionCells(matched);
    RowCounts(matched, ILEGAL);
    RowCounts(matched, PEOR_QUE_DEFAULT);
    ColumnCounts(matched, Level(ILEGAL));
    ColumnCounts(matched, Level(PEOR_QUE_DEFAULT));
    ColumnCounts(matched, CLASS_NO_CONCLUYENTE);
    ColumnCounts(matched, CLASS_FUERA_DE_AMBITO);
  }

  /** Reading off adds up cell by cell. */
  lemma ReadsOffAdds(m: Matrix, a: Matrix, b: Matrix, na: seq<nat>, nb: seq<nat>)
    requires Shaped(m) && Shaped(a) && Shaped(b) && forall c :: c in m ==> m[c] == a[c] + b[c]
    requires |na| == |nb| == 5
    requires ReadsOff(a, na[0], na[1], na[2], na[3], na[4]) && ReadsOff(b, nb[0], nb[1], nb[2], nb[3], nb[4])
    ensures ReadsOff(m, na[0] + nb[0], na[1] + nb[1], na[2] + nb[2], na[3] + nb[3], na[4] + nb[4])
  {
    forall gold, predicted ensures CellOf(m, gold, predicted) == CellOf(a, gold, predicted) + CellOf(b, gold, predicted) {
    }
  }

  lemma {:induction false} RowTotalsAdd(m: Matrix, a: Matrix, b: Matrix, gold: RiskLevel, classes: seq<PredictedClass>)
    requires Shaped(m) && Shaped(a) && Shaped(b) && forall c :: c in m ==> m[c] == a[c] + b[c]
    ensures RowTotal(m, gold, classes) == RowTotal(a, gold, classes) + RowTotal(b, gold, classes)
  {
    if classes != [] { RowTotalsAdd(m, a, b, gold, classes[..|classes| - 1]); }
  }

  lemma {:induction false} TotalsAdd(m: Matrix, a: Matrix, b: Matrix, golds: seq<RiskLevel>, classes: seq<PredictedClass>)
    requires Shaped(m) && Shaped(a) && Shaped(b) && forall c :: c in m ==> m[c] == a[c] + b[c]
    ensures Total(m, golds, classes) == Total(a, golds, classes) + Total(b, golds, classes)
  {
    if golds != [] {
      TotalsAdd(m, a, b, golds[..|golds| - 1], classes);
      RowTotalsAdd(m, a, b, golds[|golds| - 1], classes);
    }
  }

  lemma {:induction false} DelimitedAre(ps: seq<ClausePrediction>, p: ClausePrediction)
    ensures p in Delimited(ps) <==> p in ps && p.matched
  {
    if ps != [] {
      DelimitedAre(ps[..|ps| - 1], p);
      assert ps == ps[..|ps| - 1] + [ps[|ps| - 1]];
    }
  }

  ghost predicate EveryClauseOverlaps(truths: seq<ClauseTruth>, findings: seq<ClauseFinding>) {
    forall i :: 0 <= i < |truths| ==> !OverlapsNone(A.ReferenceSpans(truths)[i], PredictedSpans(findings))
  }

  /**
    Over a risk map's findings the matrix raises exactly when the threshold is not positive and some
    reference clause overlaps no prediction.
  */
  lemma MatrixExistsIff(truths: seq<ClauseTruth>, findings: seq<ClauseFinding>, threshold: real)
    requires ProperFindings(findings)
    requires forall i :: 0 <= i < |truths| ==> truths[i].expectedLevel != AUSENTE
    ensures var matched := Delimited(PredictionsOf(truths, findings, threshold));
      AllPlaceable(matched) <==>
      (threshold > 0.0 || EveryClauseOverlaps(truths, findings))
  {
    var ps := PredictionsOf(truths, findings, threshold);
    var matched := Delimited(ps);
    if threshold > 0.0 || EveryClauseOverlaps(truths, findings) {
      forall i | 0 <= i < |matched| ensures Placeable(matched[i]) {
        DelimitedAre(ps, matched[i]);
        assert matched[i] in matched;
        var k :| 0 <= k < |ps| && ps[k] == matched[i];
        DelimitedClausesAreClassified(truths, findings, threshold, k);
      }
    } else {
      var k :| 0 <= k < |truths| && OverlapsNone(A.ReferenceSpans(truths)[k], PredictedSpans(findings));
      DelimitedClausesAreClassified(truths, findings, threshold, k);
      assert ps[k] in ps;
      DelimitedAre(ps, ps[k]);
      var i :| 0 <= i < |matched| && matched[i] == ps[k];
      assert !Placeable(matched[i]);
    }
  }
}
