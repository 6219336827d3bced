/** One contract's measured outcome, and the pooling of a suite: counts are added, rates are never averaged. */
module Mode2Suite {
  import opened Wrappers
  import opened Lists
  import opened Checklists
  import opened Risk
  import opened Corpus
  import opened Verifier
  import opened Guardrail
  import opened Mode2Guardrail
  import opened Mode2Metrics
  import opened Classification
  import opened Segmentation
  import A = Assembler
  import M = Mode1Graph
  import CrossCheck
  import RiskMaps

  datatype Mode2EvalCase = Mode2EvalCase(
    id: string, expectedOutcome: string, clauses: seq<ClauseTruth>, expectedAbsences: seq<A.ExpectedAbsence>)

  /** An analysis as the metrics read it: the outcome's label, and the risk map unless it stopped at a gate. */
  datatype Analysis = Analysis(outcome: string, riskMap: Option<RiskMap>)

  datatype Counts = Counts(
    displayedCitations: nat, referenceClauses: nat, delimited: nat, matchedClauses: nat,
    problematicTotal: nat, problematicDetected: nat, falseTranquility: nat,
    flagged: nat, flaggedTruePositive: nat, abstained: nat,
    problematicTotalE2e: nat, problematicDetectedE2e: nat, falseTranquilityE2e: nat, notReported: nat,
    absenceExpected: nat, absenceDetected: nat, absencePredicted: nat)

  /** The published rates over the delimited clauses, and the two over the whole contract. */
  datatype Rates = Rates(
    recallProblematic: Option<real>, falseTranquilityRate: Option<real>, precisionProblematic: Option<real>,
    abstentionRate: Option<real>, recallProblematicE2e: Option<real>, falseTranquilityRateE2e: Option<real>)

  datatype SegmentationLayer = SegmentationLayer(
    threshold: real, referenceClauses: nat, delimited: nat, delimitedRate: Option<real>, matches: seq<SpanMatch>)

  /** The item ids as sets; the source lists each in sorted order. */
  datatype AbsenceRecall = AbsenceRecall(
    expected: set<string>, detected: set<string>, missed: set<string>, spurious: set<string>,
    recall: Option<real>, precision: Option<real>)

  datatype CaseResult = CaseResult(
    id: string, outcome: string, outcomeAsExpected: Option<bool>, segmentation: SegmentationLayer,
    predictions: seq<ClausePrediction>, confusion: Matrix, counts: Counts, rates: Rates,
    absences: AbsenceRecall, violations: seq<Violation>)

  datatype SuiteMetrics = SuiteMetrics(
    cases: nat, outcomes: map<string, nat>, outcomeMatchRate: Option<real>, counts: Counts, confusion: Matrix, rates: Rates,
    segmentationDelimitedRate: Option<real>, absenceRecall: Option<real>, absencePrecision: Option<real>)

  // ---------- One case ----------

  function CountShown(shown: seq<Option<VerifiedCitation>>): nat {
    if shown == [] then 0 else CountShown(shown[..|shown| - 1]) + (if shown[|shown| - 1].Some? then 1 else 0)
  }

  function DisplayedCitations(analysis: Analysis): nat {
    if analysis.riskMap.None? then 0 else CountShown(ShownBy(analysis.riskMap.value))
  }

  /** The guardrail's verdict is out of the displayed citations: it never counts more violations than that. */
  lemma {:induction false} ViolationsAreOfShown(tools: Tools, store: Store, date: Date, caseId: string, shown: seq<Option<VerifiedCitation>>)
    ensures |ShownViolations(tools, store, date, caseId, shown)| <= CountShown(shown)
  {
    if shown != [] { ViolationsAreOfShown(tools, store, date, caseId, shown[..|shown| - 1]); }
  }

  function ExpectedIds(absences: seq<A.ExpectedAbsence>): set<string> {
    set a | a in absences :: a.itemId
  }

  function ProducedIds(analysis: Analysis): set<string> {
    if analysis.riskMap.None? then {} else set w | w in analysis.riskMap.value.absenceFindings :: w.itemId
  }

  function FindingsIn(analysis: Analysis): seq<ClauseFinding> {
    if analysis.riskMap.None? then [] else analysis.riskMap.value.clauseFindings
  }

  function CountMatched(matches: seq<SpanMatch>): nat {
    if matches == [] then 0 else CountMatched(matches[..|matches| - 1]) + (if matches[|matches| - 1].matched then 1 else 0)
  }

  function LayerOf(matches: seq<SpanMatch>, threshold: real): SegmentationLayer {
    SegmentationLayer(threshold, |matches|, CountMatched(matches), Ratio(CountMatched(matches), |matches|), matches)
  }

  function AbsencesOf(expected: set<string>, produced: set<string>): AbsenceRecall {
    var detected := expected * produced;
    AbsenceRecall(expected, detected, expected - produced, produced - expected,
                  Ratio(|detected|, |expected|), Ratio(|detected|, |produced|))
  }

  function CountsOf(ps: seq<ClausePrediction>, layer: SegmentationLayer, displayed: nat, absences: AbsenceRecall): Counts {
    var matched := Delimited(ps);
    Counts(displayed, layer.referenceClauses, layer.delimited, |matched|,
           ProblematicTotal(matched), ProblematicDetected(matched), FalseTranquility(matched),
           Flagged(matched), FlaggedTruePositive(matched), Abstained(matched),
           ProblematicTotalE2e(ps), ProblematicDetectedE2e(ps), FalseTranquilityE2e(ps), NotReportedProblematic(ps),
           |absences.expected|, |absences.detected|, |absences.detected| + |absences.spurious|)
  }

  function RatesOf(n: Counts): Rates {
    Rates(Ratio(n.problematicDetected, n.problematicTotal), Ratio(n.falseTranquility, n.problematicTotal),
          Ratio(n.flaggedTruePositive, n.flagged), Ratio(n.abstained, n.matchedClauses),
          Ratio(n.problematicDetectedE2e, n.problematicTotalE2e), Ratio(n.falseTranquilityE2e, n.problematicTotalE2e))
  }

  function AbsencesFound(c: Mode2EvalCase, analysis: Analysis): AbsenceRecall {
    AbsencesOf(ExpectedIds(c.expectedAbsences), ProducedIds(analysis))
  }

  ghost predicate IsCaseResult(c: Mode2EvalCase, analysis: Analysis, violations: seq<Violation>, threshold: real, r: CaseResult) {
    && r.id == c.id && r.outcome == analysis.outcome && r.outcomeAsExpected == Some(c.expectedOutcome == analysis.outcome)
    && r.segmentation == LayerOf(SpanMatches(c.clauses, FindingsIn(analysis), threshold), threshold)
    && r.predictions == PredictionsOf(c.clauses, FindingsIn(analysis), threshold)
    && r.absences == AbsencesFound(c, analysis)
    && r.counts == CountsOf(r.predictions, r.segmentation, DisplayedCitations(analysis), r.absences)
    && r.rates == RatesOf(r.counts)
    && Counted(r.confusion, Delimited(r.predictions))
    && r.violations == violations
  }

  predicate AllClassed(findings: seq<ClauseFinding>) {
    forall i :: 0 <= i < |findings| ==> PredictedClassOf(findings[i]).Some?
  }

  ghost predicate Measurable(c: Mode2EvalCase, analysis: Analysis, threshold: real) {
    AllClassed(FindingsIn(analysis)) && AllPlaceable(Delimited(PredictionsOf(c.clauses, FindingsIn(analysis), threshold)))
  }

  /** Measures one analysis, or raises when a finding or a delimited clause has no class in the matrix. */
  method BuildCaseResult(c: Mode2EvalCase, analysis: Analysis, violations: seq<Violation>, threshold: real)
    returns (r: Result<CaseResult, MetricsError>)
    ensures r.Ok? <==> Measurable(c, analysis, threshold)
    ensures r.Ok? ==> IsCaseResult(c, analysis, violations, threshold, r.value)
  {
    var findings := FindingsIn(analysis);
    for n := 0 to |findings|
      invariant AllClassed(findings[..n])
    {
      if PredictedClassOf(findings[n]).None? {
        assert !AllClassed(findings);
        return Err(NoPredictedClass(findings[n].clauseId));
      }
    }
    assert findings[..|findings|] == findings;
    var matches := MatchSpans(A.ReferenceSpans(c.clauses), PredictedSpans(findings), threshold);
    var predictions := ClausePredictions(c.clauses, matches, ClassesById(findings));
    var confusion := Confusion(Delimited(predictions));
    if confusion.Err? { return Err(confusion.error); }
    var layer, absences := LayerOf(matches, threshold), AbsencesFound(c, analysis);
    var counts := CountsOf(predictions, layer, DisplayedCitations(analysis), absences);
    r := Ok(CaseResult(c.id, analysis.outcome, Some(c.expectedOutcome == analysis.outcome), layer, predictions, confusion.value,
                       counts, RatesOf(counts), absences, violations));
  }

  /** A risk map against a case that grades no clause absent raises only at a threshold that is not positive. */
  lemma RiskMapsAreMeasurable(c: Mode2EvalCase, analysis: Analysis, threshold: real)
    requires ProperFindings(FindingsIn(analysis))
    requires forall i :: 0 <= i < |c.clauses| ==> c.clauses[i].expectedLevel != AUSENTE
    ensures Measurable(c, analysis, threshold) <==>
      (threshold > 0.0 || EveryClauseOverlaps(c.clauses, FindingsIn(analysis)))
  {
    var findings := FindingsIn(analysis);
    forall i | 0 <= i < |findings| ensures PredictedClassOf(findings[i]).Some? {
      assert WellPlaced(findings[i]);
    }
    MatrixExistsIff(c.clauses, findings, threshold);
  }

  /** The clauses as the pipeline numbers them: `c1`, `c2` and so on. */
  ghost predicate Numbered(clauses: seq<Clause>) {
    forall i :: 0 <= i < |clauses| ==> clauses[i].id == A.PipelineId(i + 1)
  }

  /** The findings of any risk map over numbered clauses are such as the metrics can always place. */
  lemma RiskMapFindingsAreProper(ground: Ground, clauses: seq<Clause>, proposed: seq<ClauseMap>,
                                 judgements: seq<RiskMaps.Judgement>, r: RiskMap)
    requires Sound(ground.tools) && |judgements| == |clauses| && Numbered(clauses)
    requires RiskMaps.IsRiskMap(ground, clauses, proposed, judgements, r)
    ensures ProperFindings(r.clauseFindings)
  {
    var findings := r.clauseFindings;
    forall i | 0 <= i < |findings| ensures findings[i].clauseId == clauses[i].id != "" && WellPlaced(findings[i]) {
      RiskMaps.EveryClauseHasItsFinding(ground, clauses, proposed, judgements, r, i);
    }
    forall i, j | 0 <= i < j < |findings| ensures findings[i].clauseId != findings[j].clauseId {
      A.PipelineIdsDiffer(i + 1, j + 1);
    }
  }

  /**
    What the metrics see of a judged clause: flagged exactly for a cited proposal of illegal or worse than
    the default, reassuring for a cited one of correct, and an abstention when it is out of scope or
    inconclusive, the latter also for want of a citation.
  */
  lemma FlaggedExactlyWhenCited(f: ClauseFinding, c: ClauseClassification, survivor: Option<VerifiedCitation>)
    requires PlacedAs(f, c, survivor)
    ensures PredictedClassOf(f).Some?
    ensures Flags(PredictedClassOf(f)) <==> c.level in {PROPOSED_ILEGAL, PROPOSED_PEOR_QUE_DEFAULT} && survivor.Some?
    ensures Reassures(PredictedClassOf(f)) <==> c.level == PROPOSED_CORRECTO && survivor.Some?
    ensures PredictedClassOf(f) == Some(CLASS_FUERA_DE_AMBITO) <==> c.level == PROPOSED_FUERA_DE_AMBITO
    ensures PredictedClassOf(f) == Some(Level(NEGOCIABLE)) <==> c.level == PROPOSED_NEGOCIABLE
    ensures PredictedClassOf(f) == Some(CLASS_NO_CONCLUYENTE) <==> f.coverage == NO_CONCLUYENTE
    ensures Abstains(PredictedClassOf(f)) <==>
      c.level in {PROPOSED_FUERA_DE_AMBITO, PROPOSED_NO_CONCLUYENTE} ||
      (c.level in {PROPOSED_ILEGAL, PROPOSED_PEOR_QUE_DEFAULT, PROPOSED_CORRECTO} && survivor.None?)
  {
  }

  /** So no illegal clause of a map is told as reassuring unless the model proposes it as correct, and cites it. */
  lemma MapFlags(ground: Ground, clauses: seq<Clause>, proposed: seq<ClauseMap>, judgements: seq<RiskMaps.Judgement>,
                 r: RiskMap, i: nat) returns (survivor: Option<VerifiedCitation>)
    requires Sound(ground.tools) && |judgements| == |clauses|
    requires RiskMaps.IsRiskMap(ground, clauses, proposed, judgements, r) && i < |clauses|
    ensures |r.clauseFindings| == |clauses|
    ensures RiskMaps.Backs(ground, M.Refs(Evidence(ground, RiskMaps.MapAt(ground, clauses, proposed, i), judgements[i].retrieved)),
                           judgements[i].classification.citation, survivor)
    ensures var seen, c := PredictedClassOf(r.clauseFindings[i]), judgements[i].classification;
      if !RiskMaps.Evaluable(proposed, clauses[i].id) then seen == Some(CLASS_INFORMATIVA)
      else
        && (Flags(seen) <==> c.level in {PROPOSED_ILEGAL, PROPOSED_PEOR_QUE_DEFAULT} && survivor.Some?)
        && (Reassures(seen) <==> c.level == PROPOSED_CORRECTO && survivor.Some?)
  {
    survivor := RiskMaps.ClausesArePlacedAsJudged(ground, clauses, proposed, judgements, r, i);
    if RiskMaps.Evaluable(proposed, clauses[i].id) {
      FlaggedExactlyWhenCited(r.clauseFindings[i], judgements[i].classification, survivor);
    }
  }

  /** What the counts of every case, and of every suite, keep. */
  ghost predicate Conserving(n: Counts) {
    && n.delimited == n.matchedClauses <= n.referenceClauses
    && n.problematicTotalE2e == n.problematicTotal + n.notReported
    && n.problematicDetectedE2e == n.problematicDetected
    && n.falseTranquilityE2e == n.falseTranquility
    && n.problematicDetected + n.falseTranquility <= n.problematicTotal <= n.matchedClauses
    && n.flaggedTruePositive == n.problematicDetected <= n.flagged
    && n.flagged + n.abstained <= n.matchedClauses
    && n.absenceDetected <= n.absenceExpected && n.absenceDetected <= n.absencePredicted
  }

  lemma {:induction false} DelimitedCounted(truths: seq<ClauseTruth>, matches: seq<SpanMatch>, classes: map<string, PredictedClass>)
    requires |matches| == |truths|
    ensures |Delimited(Paired(truths, matches, classes))| == CountMatched(matches) <= |matches|
    decreases |truths|
  {
    if truths != [] {
      var n := |truths| - 1;
      DelimitedCounted(truths[..n], matches[..n], classes);
      assert Paired(truths, matches, classes)[..n] == Paired(truths[..n], matches[..n], classes);
    }
  }

  predicate FlagOrAbstention(p: ClausePrediction) { Flag(p) || Abstention(p) }

  predicate Any(p: ClausePrediction) { true }

  lemma {:induction false} CountAll(ps: seq<ClausePrediction>)
    ensures CountIf(ps, Any) == |ps|
  {
    if ps != [] { CountAll(ps[..|ps| - 1]); }
  }

  lemma CountsConserve(ps: seq<ClausePrediction>, layer: SegmentationLayer, displayed: nat, expected: set<string>,
                       produced: set<string>)
    requires |Delimited(ps)| == layer.delimited <= layer.referenceClauses
    ensures Conserving(CountsOf(ps, layer, displayed, AbsencesOf(expected, produced)))
  {
    var matched := Delimited(ps);
    EndToEndConserves(ps);
    EventsAreApart(matched);
    CountAll(matched);
    CountWithin(matched, Problematic, Any);
    CountSplits(matched, FlagOrAbstention, Flag, Abstention);
    CountWithin(matched, FlagOrAbstention, Any);
    assert expected * produced + (expected - produced) == expected;
  }

  lemma CaseCounts(c: Mode2EvalCase, findings: seq<ClauseFinding>, threshold: real, ps: seq<ClausePrediction>,
                   layer: SegmentationLayer, displayed: nat, expected: set<string>, produced: set<string>)
    requires ps == PredictionsOf(c.clauses, findings, threshold)
    requires layer == LayerOf(SpanMatches(c.clauses, findings, threshold), threshold)
    ensures Conserving(CountsOf(ps, layer, displayed, AbsencesOf(expected, produced)))
  {
    DelimitedCounted(c.clauses, SpanMatches(c.clauses, findings, threshold), ClassesById(findings));
    CountsConserve(ps, layer, displayed, expected, produced);
  }

  lemma CasePrecision(r: CaseResult, expected: set<string>, produced: set<string>)
    requires r.absences == AbsencesOf(expected, produced)
    requires r.counts.absenceDetected == |r.absences.detected|
    requires r.counts.absencePredicted == |r.absences.detected| + |r.absences.spurious|
    ensures r.absences.precision == Ratio(r.counts.absenceDetected, r.counts.absencePredicted)
  {
    PredictedAbsencesAreTheWhites(expected, produced);
  }

  /** The conditioned counts are what the matrix shows. */
  ghost predicate CountsShown(m: Matrix, n: Counts) {
    ReadsOff(m, n.problematicTotal, n.problematicDetected, n.falseTranquility, n.flagged, n.abstained)
  }

  /** Every measured case's counts fit together, and its matrix adds up to its delimited clauses. */
  lemma CaseCountsConserve(c: Mode2EvalCase, analysis: Analysis, violations: seq<Violation>, threshold: real, r: CaseResult)
    requires Measurable(c, analysis, threshold) && IsCaseResult(c, analysis, violations, threshold, r)
    ensures Conserving(r.counts) && Shaped(r.confusion)
    ensures Total(r.confusion, GOLD_LEVELS, PREDICTED_CLASSES) == r.counts.matchedClauses && CountsShown(r.confusion, r.counts)
    ensures r.absences.precision == Ratio(r.counts.absenceDetected, r.counts.absencePredicted)
  {
    var expected, produced := ExpectedIds(c.expectedAbsences), ProducedIds(analysis);
    CaseCounts(c, FindingsIn(analysis), threshold, r.predictions, r.segmentation, DisplayedCitations(analysis), expected, produced);
    CasePrecision(r, expected, produced);
    MatrixTotal(r.confusion, Delimited(r.predictions));
    CountsReadOffMatrix(r.confusion, Delimited(r.predictions));
  }

  /** The predicted absences are the whites produced, each once. */
  lemma PredictedAbsencesAreTheWhites(expected: set<string>, produced: set<string>)
    ensures |expected * produced| + |produced - expected| == |produced|
    ensures |expected * produced| == |expected| <==> expected <= produced
    ensures |expected * produced| == |produced| <==> produced <= expected
  {
    assert expected * produced + (produced - expected) == produced;
    assert expected * produced + (expected - produced) == expected;
    if expected <= produced { assert expected - produced == {}; }
    if produced <= expected { assert produced - expected == {}; }
  }

  /** Which absences are listed: expected, detected, missed and spurious ones, by what was expected and what is white. */
  lemma AbsencesAre(c: Mode2EvalCase, analysis: Analysis, id: string)
    ensures var r := AbsencesFound(c, analysis);
      var expected := exists a :: a in c.expectedAbsences && a.itemId == id;
      var white := analysis.riskMap.Some? && exists w :: w in analysis.riskMap.value.absenceFindings && w.itemId == id;
      && (id in r.expected <==> expected) && (id in r.detected <==> expected && white)
      && (id in r.missed <==> expected && !white) && (id in r.spurious <==> white && !expected)
    ensures var r := AbsencesFound(c, analysis);
      Share(r.recall, |r.detected|, |r.expected|) && Share(r.precision, |r.detected|, |r.detected| + |r.spurious|)
  {
    var r := AbsencesFound(c, analysis);
    RatioIsShare(|r.detected|, |r.expected|);
    RatioIsShare(|r.detected|, |r.detected| + |r.spurious|);
    PredictedAbsencesAreTheWhites(ExpectedIds(c.expectedAbsences), ProducedIds(analysis));
  }

  /** When the judged clauses reflect what was assembled, the whites score perfectly. */
  lemma CoincidingItemsScorePerfectly(checklist: Checklist, findings: seq<ClauseFinding>, clauses: seq<A.BankClause>,
                                      store: Store, date: Date, c: Mode2EvalCase, analysis: Analysis)
    requires CrossCheck.JudgedItemsCoincide(checklist, findings, clauses)
    requires c.expectedAbsences == A.AbsencesOf(AbsentItems(checklist.items, A.CoveredBy(clauses)))
    requires analysis.riskMap.Some? && analysis.riskMap.value.absenceFindings == CrossCheck.Whites(checklist, findings, store, date)
    ensures ExpectedIds(c.expectedAbsences) == ProducedIds(analysis)
  {
    CrossCheck.WhitesAreTheExpectedAbsences(checklist, findings, clauses, store, date);
    var whites := analysis.riskMap.value.absenceFindings;
    var expected := c.expectedAbsences;
    assert CrossCheck.Named(whites) == expected;
    forall id | id in ExpectedIds(expected) ensures id in ProducedIds(analysis) {
      var k :| 0 <= k < |expected| && expected[k].itemId == id;
      assert CrossCheck.Named(whites)[k].itemId == whites[k].itemId && whites[k] in whites;
    }
    forall id | id in ProducedIds(analysis) ensures id in ExpectedIds(expected) {
      var k :| 0 <= k < |whites| && whites[k].itemId == id;
      assert CrossCheck.Named(whites)[k].itemId == id && expected[k] in expected;
    }
  }

  // ---------- The suite ----------

  function Plus(a: Counts, b: Counts): Counts {
    Counts(a.displayedCitations + b.displayedCitations, a.referenceClauses + b.referenceClauses, a.delimited + b.delimited,
           a.matchedClauses + b.matchedClauses, a.problematicTotal + b.problematicTotal,
           a.problematicDetected + b.problematicDetected, a.falseTranquility + b.falseTranquility, a.flagged + b.flagged,
           a.flaggedTruePositive + b.flaggedTruePositive, a.abstained + b.abstained,
           a.problematicTotalE2e + b.problematicTotalE2e, a.problematicDetectedE2e + b.problematicDetectedE2e,
           a.falseTranquilityE2e + b.falseTranquilityE2e, a.notReported + b.notReported,
           a.absenceExpected + b.absenceExpected, a.absenceDetected + b.absenceDetected, a.absencePredicted + b.absencePredicted)
  }

  const ZERO := Counts(0, 0, 0, 0, 0, 0, 0, 0, 0, 0, 0, 0, 0, 0, 0, 0, 0)

  function PooledCounts(results: seq<CaseResult>): Counts {
    if results == [] then ZERO else Plus(PooledCounts(results[..|results| - 1]), results[|results| - 1].counts)
  }

  function PooledCell(results: seq<CaseResult>, c: Cell): nat
    requires forall i :: 0 <= i < |results| ==> Shaped(results[i].confusion)
    requires InMatrix(c)
  {
    if results == [] then 0
    else
      var last := results[|results| - 1];
      assert Shaped(last.confusion);
      PooledCell(results[..|results| - 1], c) + last.confusion[c]
  }

  function CountOutcome(results: seq<CaseResult>, outcome: string): nat {
    if results == [] then 0
    else CountOutcome(results[..|results| - 1], outcome) + (if results[|results| - 1].outcome == outcome then 1 else 0)
  }

  function CountExpected(results: seq<CaseResult>, met: bool): nat {
    if results == [] then 0
    else CountExpected(results[..|results| - 1], met) + (if results[|results| - 1].outcomeAsExpected == Some(met) then 1 else 0)
  }

  ghost predicate OutcomesOf(counts: map<string, nat>, results: seq<CaseResult>) {
    && (forall o :: o in counts <==> CountOutcome(results, o) > 0)
    && (forall o :: o in counts ==> counts[o] == CountOutcome(results, o))
  }

  lemma OutcomeStep(results: seq<CaseResult>, n: nat, o: string)
    requires n < |results|
    ensures CountOutcome(results[..n + 1], o) == CountOutcome(results[..n], o) + (if results[n].outcome == o then 1 else 0)
  {
    assert results[..n + 1][..n] == results[..n] && results[..n + 1][n] == results[n];
  }

  method CountOutcomes(results: seq<CaseResult>) returns (counts: map<string, nat>)
    ensures OutcomesOf(counts, results)
  {
    counts := map[];
    for n := 0 to |results|
      invariant OutcomesOf(counts, results[..n])
    {
      var outcome := results[n].outcome;
      forall o ensures CountOutcome(results[..n + 1], o) == CountOutcome(results[..n], o) + (if outcome == o then 1 else 0) {
        OutcomeStep(results, n, o);
      }
      counts := counts[outcome := (if outcome in counts then counts[outcome] else 0) + 1];
    }
    assert results[..|results|] == results;
  }

  ghost predicate AllShaped(results: seq<CaseResult>) {
    forall i :: 0 <= i < |results| ==> Shaped(results[i].confusion)
  }

  ghost predicate Pools(matrix: Matrix, results: seq<CaseResult>)
    requires AllShaped(results)
  {
    Shaped(matrix) && forall c :: c in matrix ==> matrix[c] == PooledCell(results, c)
  }

  /** Adds one case's matrix, cell by cell. */
  method AddMatrix(matrix0: Matrix, more: Matrix) returns (matrix: Matrix)
    requires Shaped(matrix0) && Shaped(more)
    ensures Shaped(matrix) && forall c :: c in matrix ==> matrix[c] == matrix0[c] + more[c]
  {
    matrix := matrix0;
    var left := more.Keys;
    while left != {}
      invariant Shaped(matrix) && left <= more.Keys
      invariant forall c :: c in matrix ==> matrix[c] == matrix0[c] + (if c in left then 0 else more[c])
      decreases |left|
    {
      var c :| c in left;
      matrix := matrix[c := matrix[c] + more[c]];
      left := left - {c};
    }
  }

  lemma PoolsOneMore(matrix: Matrix, results: seq<CaseResult>, n: nat)
    requires AllShaped(results) && n < |results|
    requires Shaped(matrix)
    requires forall c :: c in matrix ==> matrix[c] == PooledCell(results[..n], c) + results[n].confusion[c]
    ensures Pools(matrix, results[..n + 1])
  {
    assert results[..n + 1][..n] == results[..n] && results[..n + 1][n] == results[n];
  }

  method PoolConfusion(results: seq<CaseResult>) returns (matrix: Matrix)
    requires AllShaped(results)
    ensures Pools(matrix, results)
  {
    matrix := ZeroMatrix();
    for n := 0 to |results|
      invariant Pools(matrix, results[..n])
    {
      matrix := AddMatrix(matrix, results[n].confusion);
      PoolsOneMore(matrix, results, n);
    }
    assert results[..|results|] == results;
  }

  /** The aggregate: counts pooled, and every rate taken over the pooled counts. */
  ghost predicate IsAggregate(results: seq<CaseResult>, metrics: SuiteMetrics)
    requires AllShaped(results)
  {
    && metrics.cases == |results| && metrics.counts == PooledCounts(results)
    && OutcomesOf(metrics.outcomes, results) && Pools(metrics.confusion, results)
    && metrics.outcomeMatchRate == Ratio(CountExpected(results, true), CountExpected(results, true) + CountExpected(results, false))
    && metrics.rates == RatesOf(metrics.counts)
    && metrics.segmentationDelimitedRate == Ratio(metrics.counts.delimited, metrics.counts.referenceClauses)
    && metrics.absenceRecall == Ratio(metrics.counts.absenceDetected, metrics.counts.absenceExpected)
    && metrics.absencePrecision == Ratio(metrics.counts.absenceDetected, metrics.counts.absencePredicted)
  }

  method AggregateMode2(results: seq<CaseResult>) returns (metrics: SuiteMetrics)
    requires AllShaped(results)
    ensures IsAggregate(results, metrics)
  {
    var outcomes := CountOutcomes(results);
    var confusion := PoolConfusion(results);
    var counts := PooledCounts(results);
    var matches, total := CountExpected(results, true), CountExpected(results, true) + CountExpected(results, false);
    metrics := SuiteMetrics(|results|, outcomes, Ratio(matches, total), counts, confusion, RatesOf(counts),
                            Ratio(counts.delimited, counts.referenceClauses),
                            Ratio(counts.absenceDetected, counts.absenceExpected),
                            Ratio(counts.absenceDetected, counts.absencePredicted));
  }

  // ---------- Suites add ----------

  lemma PlusZero(n: Counts)
    ensures Plus(n, ZERO) == n
  {
  }

  lemma PlusAssociates(a: Counts, b: Counts, c: Counts)
    ensures Plus(Plus(a, b), c) == Plus(a, Plus(b, c))
  {
  }

  /** The counts of two suites run together are the sums of theirs. */
  lemma {:induction false} SuitesAdd(a: seq<CaseResult>, b: seq<CaseResult>)
    ensures PooledCounts(a + b) == Plus(PooledCounts(a), PooledCounts(b))
  {
    if b == [] {
      assert a + b == a;
      PlusZero(PooledCounts(a));
    } else {
      InitOfConcat(a, b);
      SuitesAdd(a, b[..|b| - 1]);
      PlusAssociates(PooledCounts(a), PooledCounts(b[..|b| - 1]), b[|b| - 1].counts);
    }
  }

  /** So are their matrices, cell by cell, and their outcomes. */
  lemma {:induction false} MatricesAdd(a: seq<CaseResult>, b: seq<CaseResult>, c: Cell, outcome: string)
    requires AllShaped(a) && AllShaped(b) && InMatrix(c)
    ensures AllShaped(a + b) && PooledCell(a + b, c) == PooledCell(a, c) + PooledCell(b, c)
    ensures CountOutcome(a + b, outcome) == CountOutcome(a, outcome) + CountOutcome(b, outcome)
  {
    if b == [] {
      assert a + b == a;
    } else {
      InitOfConcat(a, b);
      MatricesAdd(a, b[..|b| - 1], c, outcome);
    }
  }

  /** The pooled matrix adds up to the pooled delimited clauses. */
  lemma {:induction false} PooledMatrixTotal(results: seq<CaseResult>, matrix: Matrix)
    requires AllShaped(results) && Pools(matrix, results)
    requires forall i :: 0 <= i < |results| ==>
      Total(results[i].confusion, GOLD_LEVELS, PREDICTED_CLASSES) == results[i].counts.matchedClauses
    ensures Total(matrix, GOLD_LEVELS, PREDICTED_CLASSES) == PooledCounts(results).matchedClauses
  {
    if results == [] {
      assert Counted(matrix, []);
      MatrixTotal(matrix, []);
    } else {
      var init, last := results[..|results| - 1], results[|results| - 1];
      var earlier := map c | c in matrix :: PooledCell(init, c);
      assert Pools(earlier, init);
      PooledMatrixTotal(init, earlier);
      TotalsAdd(matrix, earlier, last.confusion, GOLD_LEVELS, PREDICTED_CLASSES);
    }
  }

  function FiveCounts(n: Counts): seq<nat> {
    [n.problematicTotal, n.problematicDetected, n.falseTranquility, n.flagged, n.abstained]
  }

  lemma CountsShownAdd(m: Matrix, a: Matrix, b: Matrix, na: Counts, nb: Counts)
    requires Shaped(m) && Shaped(a) && Shaped(b) && forall c :: c in m ==> m[c] == a[c] + b[c]
    requires CountsShown(a, na) && CountsShown(b, nb)
    ensures CountsShown(m, Plus(na, nb))
  {
    ReadsOffAdds(m, a, b, FiveCounts(na), FiveCounts(nb));
  }

  lemma NothingShown(m: Matrix)
    requires forall c :: c in m ==> m[c] == 0
    ensures CountsShown(m, ZERO)
  {
  }

  lemma PooledShownStep(results: seq<CaseResult>, matrix: Matrix, earlier: Matrix, last: CaseResult)
    requires results != [] && last == results[|results| - 1] && AllShaped(results) && Pools(matrix, results)
    requires Pools(earlier, results[..|results| - 1]) && CountsShown(earlier, PooledCounts(results[..|results| - 1]))
    requires CountsShown(last.confusion, last.counts)
    ensures CountsShown(matrix, PooledCounts(results))
  {
    assert Shaped(last.confusion);
    CountsShownAdd(matrix, earlier, last.confusion, PooledCounts(results[..|results| - 1]), last.counts);
  }

  ghost predicate AllShown(results: seq<CaseResult>) {
    forall i :: 0 <= i < |results| ==> CountsShown(results[i].confusion, results[i].counts)
  }

  lemma ShownWithoutLast(results: seq<CaseResult>)
    requires results != [] && AllShown(results)
    ensures AllShown(results[..|results| - 1]) && CountsShown(results[|results| - 1].confusion, results[|results| - 1].counts)
  {
  }

  lemma PooledBefore(results: seq<CaseResult>, matrix: Matrix) returns (earlier: Matrix)
    requires results != [] && AllShaped(results) && Pools(matrix, results)
    ensures AllShaped(results[..|results| - 1]) && Pools(earlier, results[..|results| - 1])
  {
    earlier := map c | c in matrix :: PooledCell(results[..|results| - 1], c);
  }

  /** The pooled counts are what the pooled matrix shows. */
  lemma {:induction false} PooledCountsShown(results: seq<CaseResult>, matrix: Matrix)
    requires AllShaped(results) && Pools(matrix, results) && AllShown(results)
    ensures CountsShown(matrix, PooledCounts(results))
  {
    if results == [] {
      NothingShown(matrix);
    } else {
      var earlier := PooledBefore(results, matrix);
      ShownWithoutLast(results);
      PooledCountsShown(results[..|results| - 1], earlier);
      PooledShownStep(results, matrix, earlier, results[|results| - 1]);
    }
  }

  /** Pooling keeps what every case's counts keep. */
  lemma {:induction false} SuitesConserve(results: seq<CaseResult>)
    requires forall i :: 0 <= i < |results| ==> Conserving(results[i].counts)
    ensures Conserving(PooledCounts(results))
  {
    if results != [] {
      SuitesConserve(results[..|results| - 1]);
      assert Conserving(results[|results| - 1].counts);
    }
  }

  lemma CompareRatio(n: nat, d: nat, q: real)
    requires d > 0
    ensures Ratio(n, d).value <= q <==> n as real <= q * d as real
    ensures Ratio(n, d).value >= q <==> n as real >= q * d as real
  {
    var x, y := Ratio(n, d).value, d as real;
    assert x * y == n as real;
    if x <= q { assert (q - x) * y >= 0.0; }
    if x >= q { assert (x - q) * y >= 0.0; }
    if x * y <= q * y { ProductOrder(x, q, y); }
    if x * y >= q * y { ProductOrder(q, x, y); }
  }

  /** A pooled rate lies between the rates of the two suites, so no contract can push it outside. */
  lemma PooledRateIsBetween(n: nat, d: nat, m: nat, e: nat)
    requires d > 0 && e > 0
    ensures var a, b, pooled := Ratio(n, d).value, Ratio(m, e).value, Ratio(n + m, d + e).value;
      (a <= b ==> a <= pooled <= b) && (b <= a ==> b <= pooled <= a)
  {
    var a, b := Ratio(n, d).value, Ratio(m, e).value;
    CompareRatio(n, d, a);
    CompareRatio(n, d, b);
    CompareRatio(m, e, a);
    CompareRatio(m, e, b);
    CompareRatio(n + m, d + e, a);
    CompareRatio(n + m, d + e, b);
    Distribute(a, d, e);
    Distribute(b, d, e);
  }

  lemma Distribute(q: real, d: nat, e: nat)
    ensures q * (d + e) as real == q * d as real + q * e as real
  {
  }

  // ---------- A whole pass ----------

  /** The results of driving the first contracts once: each is its case's, measured at the default threshold. */
  ghost predicate RanFirst(tools: Tools, store: Store, date: Date, cases: seq<Mode2EvalCase>, analyses: seq<Analysis>,
                           results: seq<CaseResult>)
  {
    && |results| <= |cases| == |analyses|
    && forall i :: 0 <= i < |results| ==> RanCase(tools, store, date, cases[i], analyses[i], results[i])
  }

  ghost predicate Ran(tools: Tools, store: Store, date: Date, cases: seq<Mode2EvalCase>, analyses: seq<Analysis>,
                      results: seq<CaseResult>)
  {
    RanFirst(tools, store, date, cases, analyses, results) && |results| == |cases|
  }

  ghost predicate RanCase(tools: Tools, store: Store, date: Date, c: Mode2EvalCase, analysis: Analysis, result: CaseResult) {
    && Measurable(c, analysis, DEFAULT_IOU_THRESHOLD)
    && IsCaseResult(c, analysis, ViolationsOf(tools, store, date, c.id, analysis), DEFAULT_IOU_THRESHOLD, result)
  }

  /** Drives one contract and measures it. */
  method RunCase(tools: Tools, store: Store, date: Date, c: Mode2EvalCase, analysis: Analysis)
    returns (r: Result<CaseResult, MetricsError>)
    ensures r.Ok? <==> Measurable(c, analysis, DEFAULT_IOU_THRESHOLD)
    ensures r.Ok? ==> RanCase(tools, store, date, c, analysis, r.value)
  {
    var violations := CheckMode2Citations(tools, store, date, c.id, analysis.riskMap);
    r := BuildCaseResult(c, analysis, violations, DEFAULT_IOU_THRESHOLD);
  }

  ghost predicate AllMeasurable(cases: seq<Mode2EvalCase>, analyses: seq<Analysis>)
    requires |analyses| == |cases|
  {
    forall i :: 0 <= i < |cases| ==> Measurable(cases[i], analyses[i], DEFAULT_IOU_THRESHOLD)
  }

  lemma RanOneMore(tools: Tools, store: Store, date: Date, cases: seq<Mode2EvalCase>, analyses: seq<Analysis>,
                   results: seq<CaseResult>, last: CaseResult)
    requires RanFirst(tools, store, date, cases, analyses, results) && |results| < |cases|
    requires RanCase(tools, store, date, cases[|results|], analyses[|results|], last)
    ensures RanFirst(tools, store, date, cases, analyses, results + [last])
  {
  }

  lemma RanAreMeasurable(tools: Tools, store: Store, date: Date, cases: seq<Mode2EvalCase>, analyses: seq<Analysis>,
                         results: seq<CaseResult>)
    requires Ran(tools, store, date, cases, analyses, results)
    ensures AllMeasurable(cases, analyses)
  {
    forall i | 0 <= i < |cases| ensures Measurable(cases[i], analyses[i], DEFAULT_IOU_THRESHOLD) {
      assert RanCase(tools, store, date, cases[i], analyses[i], results[i]);
    }
  }

  ghost function ViolationsOf(tools: Tools, store: Store, date: Date, caseId: string, analysis: Analysis): seq<Violation> {
    if analysis.riskMap.None? then [] else ShownViolations(tools, store, date, caseId, ShownBy(analysis.riskMap.value))
  }

  function Failures(results: seq<CaseResult>): seq<Violation> {
    if results == [] then [] else Failures(results[..|results| - 1]) + results[|results| - 1].violations
  }

  lemma FailuresAppend(results: seq<CaseResult>, last: CaseResult)
    ensures Failures(results + [last]) == Failures(results) + last.violations
  {
    assert (results + [last])[..|results|] == results;
  }

  /** Over risk maps, and cases that grade no clause absent, no measurement raises. */
  lemma RiskMapSuitesAreMeasurable(cases: seq<Mode2EvalCase>, analyses: seq<Analysis>)
    requires |analyses| == |cases|
    requires forall i :: 0 <= i < |cases| ==> ProperFindings(FindingsIn(analyses[i]))
    requires forall i, k :: 0 <= i < |cases| && 0 <= k < |cases[i].clauses| ==> cases[i].clauses[k].expectedLevel != AUSENTE
    ensures AllMeasurable(cases, analyses)
  {
    forall i | 0 <= i < |cases| ensures Measurable(cases[i], analyses[i], DEFAULT_IOU_THRESHOLD) {
      RiskMapsAreMeasurable(cases[i], analyses[i], DEFAULT_IOU_THRESHOLD);
    }
  }

  /** Drives every contract once: measures each analysis and collects the guardrail's failures. */
  method RunPass(tools: Tools, store: Store, date: Date, cases: seq<Mode2EvalCase>, analyses: seq<Analysis>)
    returns (r: Result<seq<CaseResult>, MetricsError>, hardFailures: seq<Violation>)
    requires |analyses| == |cases|
    ensures r.Ok? <==> AllMeasurable(cases, analyses)
    ensures r.Ok? ==> Ran(tools, store, date, cases, analyses, r.value) && hardFailures == Failures(r.value)
  {
    var results: seq<CaseResult> := [];
    hardFailures := [];
    for n := 0 to |cases|
      invariant |results| == n && RanFirst(tools, store, date, cases, analyses, results)
      invariant hardFailures == Failures(results)
    {
      var result := RunCase(tools, store, date, cases[n], analyses[n]);
      if result.Err? { return Err(result.error), hardFailures; }
      RanOneMore(tools, store, date, cases, analyses, results, result.value);
      FailuresAppend(results, result.value);
      hardFailures := hardFailures + result.value.violations;
      results := results + [result.value];
    }
    RanAreMeasurable(tools, store, date, cases, analyses, results);
    r := Ok(results);
  }

  predicate InUnit(rate: Option<real>) {
    rate.Some? ==> 0.0 <= rate.value <= 1.0
  }

  predicate NoHigher(a: Option<real>, b: Option<real>) {
    b.Some? ==> a.Some? && a.value <= b.value
  }

  lemma RatioInUnit(n: nat, d: nat)
    requires n <= d
    ensures InUnit(Ratio(n, d))
  {
    if d > 0 {
      CompareRatio(n, d, 0.0);
      CompareRatio(n, d, 1.0);
    }
  }

  lemma ConservedRates(n: Counts)
    requires Conserving(n)
    ensures NoHigher(RatesOf(n).recallProblematicE2e, RatesOf(n).recallProblematic)
    ensures NoHigher(RatesOf(n).falseTranquilityRateE2e, RatesOf(n).falseTranquilityRate)
  {
    if n.problematicTotal > 0 {
      LargerDenominator(n.problematicDetected, n.problematicTotal, n.notReported);
      LargerDenominator(n.falseTranquility, n.problematicTotal, n.notReported);
    }
  }

  ghost predicate RatesInUnit(m: SuiteMetrics) {
    && InUnit(m.rates.recallProblematic) && InUnit(m.rates.falseTranquilityRate) && InUnit(m.rates.precisionProblematic)
    && InUnit(m.rates.abstentionRate) && InUnit(m.rates.recallProblematicE2e) && InUnit(m.rates.falseTranquilityRateE2e)
    && InUnit(m.segmentationDelimitedRate) && InUnit(m.absenceRecall) && InUnit(m.absencePrecision)
  }

  lemma ConservedInUnit(results: seq<CaseResult>, m: SuiteMetrics)
    requires AllShaped(results) && IsAggregate(results, m) && Conserving(m.counts)
    ensures RatesInUnit(m)
  {
    var n := m.counts;
    RatioInUnit(n.problematicDetected, n.problematicTotal);
    RatioInUnit(n.falseTranquility, n.problematicTotal);
    RatioInUnit(n.flaggedTruePositive, n.flagged);
    RatioInUnit(n.abstained, n.matchedClauses);
    RatioInUnit(n.problematicDetectedE2e, n.problematicTotalE2e);
    RatioInUnit(n.falseTranquilityE2e, n.problematicTotalE2e);
    RatioInUnit(n.delimited, n.referenceClauses);
    RatioInUnit(n.absenceDetected, n.absenceExpected);
    RatioInUnit(n.absenceDetected, n.absencePredicted);
  }

  lemma {:induction false} FailuresAreOfShown(tools: Tools, store: Store, date: Date, cases: seq<Mode2EvalCase>,
                                              analyses: seq<Analysis>, results: seq<CaseResult>)
    requires RanFirst(tools, store, date, cases, analyses, results)
    ensures |Failures(results)| <= PooledCounts(results).displayedCitations
  {
    if results != [] {
      var n := |results| - 1;
      FailuresAreOfShown(tools, store, date, cases, analyses, results[..n]);
      assert RanCase(tools, store, date, cases[n], analyses[n], results[n]);
      if analyses[n].riskMap.Some? {
        ViolationsAreOfShown(tools, store, date, cases[n].id, ShownBy(analyses[n].riskMap.value));
      }
    }
  }

  /** Each published rate is a ratio of two counts, absent where there is nothing to count over. */
  ghost predicate RatesOverCounts(m: SuiteMetrics) {
    var n, rates := m.counts, m.rates;
    && Share(rates.recallProblematic, n.problematicDetected, n.problematicTotal)
    && Share(rates.falseTranquilityRate, n.falseTranquility, n.problematicTotal)
    && Share(rates.precisionProblematic, n.flaggedTruePositive, n.flagged)
    && Share(rates.abstentionRate, n.abstained, n.matchedClauses)
    && Share(rates.recallProblematicE2e, n.problematicDetectedE2e, n.problematicTotalE2e)
    && Share(rates.falseTranquilityRateE2e, n.falseTranquilityE2e, n.problematicTotalE2e)
    && Share(m.segmentationDelimitedRate, n.delimited, n.referenceClauses)
    && Share(m.absenceRecall, n.absenceDetected, n.absenceExpected)
    && Share(m.absencePrecision, n.absenceDetected, n.absencePredicted)
  }

  ghost predicate Share(rate: Option<real>, part: nat, whole: nat) {
    if whole == 0 then rate.None? else rate.Some? && rate.value * whole as real == part as real
  }

  lemma RatioIsShare(part: nat, whole: nat)
    ensures Share(Ratio(part, whole), part, whole)
  {
  }

  lemma AggregateRates(results: seq<CaseResult>, m: SuiteMetrics)
    requires AllShaped(results) && IsAggregate(results, m)
    ensures RatesOverCounts(m)
  {
    var n := m.counts;
    RatioIsShare(n.problematicDetected, n.problematicTotal);
    RatioIsShare(n.falseTranquility, n.problematicTotal);
    RatioIsShare(n.flaggedTruePositive, n.flagged);
    RatioIsShare(n.abstained, n.matchedClauses);
    RatioIsShare(n.problematicDetectedE2e, n.problematicTotalE2e);
    RatioIsShare(n.falseTranquilityE2e, n.problematicTotalE2e);
    RatioIsShare(n.delimited, n.referenceClauses);
    RatioIsShare(n.absenceDetected, n.absenceExpected);
    RatioIsShare(n.absenceDetected, n.absencePredicted);
  }

  /** What the published aggregate of any pass keeps, whatever the analyses were. */
  ghost predicate SoundMetrics(m: SuiteMetrics, hardFailures: seq<Violation>) {
    && Conserving(m.counts)
    && Total(m.confusion, GOLD_LEVELS, PREDICTED_CLASSES) == m.counts.matchedClauses
    && CountsShown(m.confusion, m.counts) && RatesOverCounts(m)
    && NoHigher(m.rates.recallProblematicE2e, m.rates.recallProblematic)
    && NoHigher(m.rates.falseTranquilityRateE2e, m.rates.falseTranquilityRate)
    && RatesInUnit(m)
    && |hardFailures| <= m.counts.displayedCitations
  }

  ghost function MetPlaces(cases: seq<Mode2EvalCase>, analyses: seq<Analysis>): set<int> {
    set i | 0 <= i < |cases| && i < |analyses| && analyses[i].outcome == cases[i].expectedOutcome
  }

  ghost function OutcomePlaces(analyses: seq<Analysis>, outcome: string): set<int> {
    set i | 0 <= i < |analyses| && analyses[i].outcome == outcome
  }

  /** The outcomes told are those the analyses reached, each as often, and the rate is the share that were expected. */
  ghost predicate OutcomesTold(cases: seq<Mode2EvalCase>, analyses: seq<Analysis>, m: SuiteMetrics) {
    && m.cases == |cases|
    && (forall o :: o in m.outcomes <==> exists i :: 0 <= i < |analyses| && analyses[i].outcome == o)
    && (forall o :: o in m.outcomes ==> m.outcomes[o] == |OutcomePlaces(analyses, o)|)
    && Share(m.outcomeMatchRate, |MetPlaces(cases, analyses)|, |cases|)
  }

  lemma MetStep(cases: seq<Mode2EvalCase>, analyses: seq<Analysis>, n: nat)
    requires n < |cases| == |analyses|
    ensures |MetPlaces(cases[..n + 1], analyses[..n + 1])| ==
            |MetPlaces(cases[..n], analyses[..n])| + if analyses[n].outcome == cases[n].expectedOutcome then 1 else 0
  {
    var before := MetPlaces(cases[..n], analyses[..n]);
    assert MetPlaces(cases[..n + 1], analyses[..n + 1]) ==
           if analyses[n].outcome == cases[n].expectedOutcome then before + {n} else before;
  }

  lemma OutcomePlacesStep(analyses: seq<Analysis>, n: nat, outcome: string)
    requires n < |analyses|
    ensures |OutcomePlaces(analyses[..n + 1], outcome)| ==
            |OutcomePlaces(analyses[..n], outcome)| + if analyses[n].outcome == outcome then 1 else 0
  {
    var before := OutcomePlaces(analyses[..n], outcome);
    assert OutcomePlaces(analyses[..n + 1], outcome) == if analyses[n].outcome == outcome then before + {n} else before;
  }

  /** Each result tells its analysis' outcome, and whether it is the one its case expects. */
  ghost predicate Tells(cases: seq<Mode2EvalCase>, analyses: seq<Analysis>, results: seq<CaseResult>) {
    && |results| == |analyses| == |cases|
    && forall i :: 0 <= i < |results| ==>
         && results[i].outcome == analyses[i].outcome
         && results[i].outcomeAsExpected == Some(analyses[i].outcome == cases[i].expectedOutcome)
  }

  lemma {:induction false} OutcomesCounted(cases: seq<Mode2EvalCase>, analyses: seq<Analysis>, results: seq<CaseResult>,
                                           n: nat, outcome: string)
    requires Tells(cases, analyses, results) && n <= |results|
    ensures CountOutcome(results[..n], outcome) == |OutcomePlaces(analyses[..n], outcome)|
    ensures CountExpected(results[..n], true) == |MetPlaces(cases[..n], analyses[..n])|
    ensures CountExpected(results[..n], true) + CountExpected(results[..n], false) == n
  {
    if n == 0 {
      assert OutcomePlaces(analyses[..0], outcome) == {} && MetPlaces(cases[..0], analyses[..0]) == {};
    } else {
      var m := n - 1;
      OutcomesCounted(cases, analyses, results, m, outcome);
      assert results[..n][..m] == results[..m] && results[..n][m] == results[m];
      MetStep(cases, analyses, m);
      OutcomePlacesStep(analyses, m, outcome);
    }
  }

  lemma OutcomesAreTold(cases: seq<Mode2EvalCase>, analyses: seq<Analysis>, results: seq<CaseResult>, m: SuiteMetrics)
    requires Tells(cases, analyses, results) && AllShaped(results) && IsAggregate(results, m)
    ensures OutcomesTold(cases, analyses, m)
  {
    assert results[..|results|] == results && cases[..|cases|] == cases && analyses[..|analyses|] == analyses;
    forall o ensures CountOutcome(results, o) == |OutcomePlaces(analyses, o)| {
      OutcomesCounted(cases, analyses, results, |results|, o);
    }
    OutcomesCounted(cases, analyses, results, |results|, "");
    RatioIsShare(|MetPlaces(cases, analyses)|, |cases|);
    forall o ensures |OutcomePlaces(analyses, o)| > 0 <==> exists i :: 0 <= i < |analyses| && analyses[i].outcome == o {
      if i :| 0 <= i < |analyses| && analyses[i].outcome == o {
        assert i in OutcomePlaces(analyses, o);
      } else {
        assert OutcomePlaces(analyses, o) == {};
      }
    }
  }

  lemma RanTells(tools: Tools, store: Store, date: Date, cases: seq<Mode2EvalCase>, analyses: seq<Analysis>,
                 results: seq<CaseResult>)
    requires Ran(tools, store, date, cases, analyses, results)
    ensures Tells(cases, analyses, results)
  {
    forall i | 0 <= i < |results|
      ensures results[i].outcome == analyses[i].outcome
      ensures results[i].outcomeAsExpected == Some(analyses[i].outcome == cases[i].expectedOutcome)
    {
      assert RanCase(tools, store, date, cases[i], analyses[i], results[i]);
    }
  }

  lemma RanCasesConserve(tools: Tools, store: Store, date: Date, cases: seq<Mode2EvalCase>, analyses: seq<Analysis>,
                         results: seq<CaseResult>)
    requires Ran(tools, store, date, cases, analyses, results)
    ensures AllShaped(results)
    ensures forall i :: 0 <= i < |results| ==> Conserving(results[i].counts)
    ensures forall i :: 0 <= i < |results| ==>
      Total(results[i].confusion, GOLD_LEVELS, PREDICTED_CLASSES) == results[i].counts.matchedClauses
    ensures AllShown(results)
  {
    forall i | 0 <= i < |results|
      ensures Shaped(results[i].confusion) && Conserving(results[i].counts) && CountsShown(results[i].confusion, results[i].counts)
      ensures Total(results[i].confusion, GOLD_LEVELS, PREDICTED_CLASSES) == results[i].counts.matchedClauses
    {
      CaseCountsConserve(cases[i], analyses[i], ViolationsOf(tools, store, date, cases[i].id, analyses[i]),
                         DEFAULT_IOU_THRESHOLD, results[i]);
    }
  }

  /**
    The aggregate of a pass conserves: its counts fit together, its matrix adds up to the delimited
    clauses, every rate is a fraction, and the end-to-end rates exist with the conditioned ones and
    are no higher.
  */
  lemma SuiteIsSound(tools: Tools, store: Store, date: Date, cases: seq<Mode2EvalCase>, analyses: seq<Analysis>,
                     results: seq<CaseResult>, metrics: SuiteMetrics)
    requires Ran(tools, store, date, cases, analyses, results) && AllShaped(results) && IsAggregate(results, metrics)
    ensures SoundMetrics(metrics, Failures(results)) && OutcomesTold(cases, analyses, metrics)
  {
    RanTells(tools, store, date, cases, analyses, results);
    OutcomesAreTold(cases, analyses, results, metrics);
    RanCasesConserve(tools, store, date, cases, analyses, results);
    SuitesConserve(results);
    PooledMatrixTotal(results, metrics.confusion);
    PooledCountsShown(results, metrics.confusion);
    AggregateRates(results, metrics);
    ConservedRates(metrics.counts);
    ConservedInUnit(results, metrics);
    FailuresAreOfShown(tools, store, date, cases, analyses, results);
  }

  /** One repetition of a suite: the pass, then its aggregate. */
  method MeasureSuite(tools: Tools, store: Store, date: Date, cases: seq<Mode2EvalCase>, analyses: seq<Analysis>)
    returns (r: Result<SuiteMetrics, MetricsError>, hardFailures: seq<Violation>)
    requires |analyses| == |cases|
    ensures r.Ok? <==> AllMeasurable(cases, analyses)
    ensures r.Ok? ==> OutcomesTold(cases, analyses, r.value) && SoundMetrics(r.value, hardFailures)
  {
    var pass;
    pass, hardFailures := RunPass(tools, store, date, cases, analyses);
    if pass.Err? { return Err(pass.error), hardFailures; }
    RanCasesConserve(tools, store, date, cases, analyses, pass.value);
    var metrics := AggregateMode2(pass.value);
    SuiteIsSound(tools, store, date, cases, analyses, pass.value, metrics);
    r := Ok(metrics);
  }
}
