/**
  The assembly of the risk map: the model's mapping reconciled against the real clauses, one finding
  per clause, the whites, and the counts. The mapping reply and the verdicts are arbitrary.
*/
module RiskMaps {
  import opened Wrappers
  import opened Lists
  import opened BlockRefs
  import opened Corpus
  import opened Verifier
  import opened Guardrail
  import opened Checklists
  import opened Risk
  import opened Classification
  import opened CrossCheck
  import opened ChecklistValidation
  import opened Mode2Guardrail
  import M = Mode1Graph

  /** What the collaborators answer if a clause is judged: the verdict, and what hybrid retrieval finds. */
  datatype Judgement = Judgement(classification: ClauseClassification, retrieved: seq<RetrievedBlock>)

  // ---------- Reconciling the mapping ----------

  /** The first mapping proposed for a clause id. */
  function FirstEntry(proposed: seq<ClauseMap>, id: string): (r: Option<ClauseMap>)
    ensures r.Some? ==> r.value.clauseId == id
  {
    if proposed == [] then None
    else
      var earlier := FirstEntry(proposed[..|proposed| - 1], id);
      var last := proposed[|proposed| - 1];
      if earlier.Some? then earlier else if last.clauseId == id then Some(last) else None
  }

  lemma {:induction false} FirstEntryIsFirst(proposed: seq<ClauseMap>, id: string)
    ensures FirstEntry(proposed, id).None? ==> forall i :: 0 <= i < |proposed| ==> proposed[i].clauseId != id
    ensures FirstEntry(proposed, id).Some? ==>
      exists i :: 0 <= i < |proposed| && FirstEntry(proposed, id) == Some(proposed[i]) &&
        forall j :: 0 <= j < i ==> proposed[j].clauseId != id
  {
    if proposed != [] {
      var init := proposed[..|proposed| - 1];
      FirstEntryIsFirst(init, id);
      if FirstEntry(init, id).Some? {
        var i :| 0 <= i < |init| && FirstEntry(init, id) == Some(init[i]) && forall j :: 0 <= j < i ==> init[j].clauseId != id;
        assert proposed[i] == init[i] && forall j :: 0 <= j < i ==> proposed[j] == init[j];
      } else {
        assert forall j :: 0 <= j < |init| ==> proposed[j] == init[j];
      }
    }
  }

  function Keep(ids: seq<string>, valid: set<string>): seq<string> {
    if ids == [] then [] else (if ids[0] in valid then [ids[0]] else []) + Keep(ids[1..], valid)
  }

  lemma {:induction false} KeptAreValid(ids: seq<string>, valid: set<string>)
    ensures forall id :: id in Keep(ids, valid) <==> id in ids && id in valid
  {
    if ids != [] { KeptAreValid(ids[1..], valid); }
  }

  function IdsOf(clauses: seq<Clause>): set<string> {
    set c | c in clauses :: c.id
  }

  function ItemIds(items: seq<ChecklistItem>): set<string> {
    set item | item in items :: item.id
  }

  function Cleaned(entry: ClauseMap, clauseIds: set<string>, itemIds: set<string>): ClauseMap {
    ClauseMap(entry.clauseId, entry.evaluable, Keep(entry.chkIds, itemIds),
              Keep(entry.relatedClauseIds, clauseIds - {entry.clauseId}))
  }

  /** The mapping a clause ends with: its first entry, cleaned, or to be evaluated. */
  function MapFor(proposed: seq<ClauseMap>, clauseIds: set<string>, itemIds: set<string>, id: string): ClauseMap {
    match FirstEntry(proposed, id)
    case Some(entry) => Cleaned(entry, clauseIds, itemIds)
    case None => ClauseMap(id, true, [], [])
  }

  lemma FirstEntryStep(proposed: seq<ClauseMap>, n: nat, id: string)
    requires n < |proposed|
    ensures FirstEntry(proposed[..n + 1], id) ==
            if FirstEntry(proposed[..n], id).Some? then FirstEntry(proposed[..n], id)
            else if proposed[n].clauseId == id then Some(proposed[n]) else None
  {
    assert proposed[..n + 1][..n] == proposed[..n] && proposed[..n + 1][n] == proposed[n];
  }

  /** The dictionary after reading some entries: the real ids among them, each with its first entry cleaned. */
  ghost predicate Read(entries: seq<ClauseMap>, clauseIds: set<string>, itemIds: set<string>, byId: map<string, ClauseMap>) {
    && (forall id :: id in byId <==> id in clauseIds && FirstEntry(entries, id).Some?)
    && (forall id :: id in byId ==> byId[id] == Cleaned(FirstEntry(entries, id).value, clauseIds, itemIds))
  }

  method ReadEntries(proposed: seq<ClauseMap>, clauseIds: set<string>, itemIds: set<string>)
    returns (byId: map<string, ClauseMap>)
    ensures Read(proposed, clauseIds, itemIds, byId)
  {
    byId := map[];
    for n := 0 to |proposed|
      invariant Read(proposed[..n], clauseIds, itemIds, byId)
    {
      var entry := proposed[n];
      forall id ensures FirstEntry(proposed[..n + 1], id) ==
        if FirstEntry(proposed[..n], id).Some? then FirstEntry(proposed[..n], id)
        else if entry.clauseId == id then Some(entry) else None
      {
        FirstEntryStep(proposed, n, id);
      }
      if entry.clauseId !in clauseIds || entry.clauseId in byId { continue; }
      byId := byId[entry.clauseId := Cleaned(entry, clauseIds, itemIds)];
    }
    assert proposed[..|proposed|] == proposed;
  }

  /** Reconciles a mapping reply with the clauses: every clause is in the result, and nothing else is. */
  method Reconcile(proposed: seq<ClauseMap>, clauses: seq<Clause>, items: seq<ChecklistItem>)
    returns (byId: map<string, ClauseMap>)
    ensures byId.Keys == IdsOf(clauses)
    ensures forall id :: id in byId ==> byId[id] == MapFor(proposed, IdsOf(clauses), ItemIds(items), id)
  {
    var clauseIds := IdsOf(clauses);
    byId := ReadEntries(proposed, clauseIds, ItemIds(items));
    for n := 0 to |clauses|
      invariant forall id :: id in byId ==> id in clauseIds && byId[id] == MapFor(proposed, clauseIds, ItemIds(items), id)
      invariant forall id :: id in clauseIds && FirstEntry(proposed, id).Some? ==> id in byId
      invariant forall i :: 0 <= i < n ==> clauses[i].id in byId
    {
      var id := clauses[n].id;
      assert clauses[n] in clauses;
      if id !in byId {
        byId := byId[id := ClauseMap(id, true, [], [])];
      }
    }
    forall id | id in clauseIds ensures id in byId {
      var c :| c in clauses && c.id == id;
    }
  }

  /** A reply read in two parts: what the first already mapped, the second cannot change. */
  lemma {:induction false} FirstEntryConcat(a: seq<ClauseMap>, b: seq<ClauseMap>, id: string)
    ensures FirstEntry(a + b, id) == if FirstEntry(a, id).Some? then FirstEntry(a, id) else FirstEntry(b, id)
  {
    if b == [] {
      assert a + b == a;
    } else {
      assert (a + b)[..|a + b| - 1] == a + b[..|b| - 1];
      FirstEntryConcat(a, b[..|b| - 1], id);
    }
  }

  /** A stray or repeated entry anywhere in the reply leaves every clause's mapping as it was. */
  lemma StrayEntryChangesNothing(a: seq<ClauseMap>, stray: ClauseMap, b: seq<ClauseMap>, clauses: seq<Clause>,
                                 items: seq<ChecklistItem>, c: Clause)
    requires c in clauses
    requires stray.clauseId !in IdsOf(clauses) || FirstEntry(a, stray.clauseId).Some?
    ensures MapFor(a + [stray] + b, IdsOf(clauses), ItemIds(items), c.id) == MapFor(a + b, IdsOf(clauses), ItemIds(items), c.id)
  {
    FirstEntryConcat(a + [stray], b, c.id);
    FirstEntryConcat(a, [stray], c.id);
    FirstEntryConcat(a, b, c.id);
    assert FirstEntry([], c.id) == None && [stray][..0] == [];
    assert c.id in IdsOf(clauses);
  }

  // ---------- The findings ----------

  ghost function FindingFor(ground: Ground, clause: Clause, clauseMap: ClauseMap, j: Judgement): ClauseFinding
    requires Sound(ground.tools)
  {
    if !clauseMap.evaluable then FindingOf(clause, clauseMap, INFORMATIVA)
    else ClassifiedFinding(ground, clause, clauseMap, j.classification, j.retrieved)
  }

  function MapAt(ground: Ground, clauses: seq<Clause>, proposed: seq<ClauseMap>, i: nat): ClauseMap
    requires i < |clauses|
  {
    MapFor(proposed, IdsOf(clauses), ItemIds(ground.checklist.items), clauses[i].id)
  }

  ghost function FindingsOf(ground: Ground, clauses: seq<Clause>, proposed: seq<ClauseMap>, judgements: seq<Judgement>): (r: seq<ClauseFinding>)
    requires Sound(ground.tools) && |judgements| == |clauses|
    ensures |r| == |clauses|
    ensures forall i :: 0 <= i < |clauses| ==>
      r[i] == FindingFor(ground, clauses[i], MapAt(ground, clauses, proposed, i), judgements[i])
  {
    seq(|clauses|, i requires 0 <= i < |clauses| =>
      FindingFor(ground, clauses[i], MapAt(ground, clauses, proposed, i), judgements[i]))
  }

  method FindAll(ground: Ground, clauses: seq<Clause>, proposed: seq<ClauseMap>, judgements: seq<Judgement>)
    returns (findings: seq<ClauseFinding>)
    requires Sound(ground.tools) && |judgements| == |clauses|
    ensures findings == FindingsOf(ground, clauses, proposed, judgements)
  {
    var byId := Reconcile(proposed, clauses, ground.checklist.items);
    findings := [];
    for n := 0 to |clauses|
      invariant |findings| == n
      invariant forall i :: 0 <= i < n ==>
        findings[i] == FindingFor(ground, clauses[i], MapAt(ground, clauses, proposed, i), judgements[i])
    {
      assert clauses[n] in clauses && clauses[n].id in IdsOf(clauses);
      var clauseMap := byId[clauses[n].id];
      var finding;
      if !clauseMap.evaluable {
        finding := FindingOf(clauses[n], clauseMap, INFORMATIVA);
      } else {
        finding := ClassifyClause(ground, clauses[n], clauseMap, judgements[n].classification, judgements[n].retrieved);
      }
      findings := findings + [finding];
    }
  }

  // ---------- The counts ----------

  function CountLevel(findings: seq<ClauseFinding>, level: RiskLevel): nat {
    if findings == [] then 0
    else CountLevel(findings[..|findings| - 1], level) + (if findings[|findings| - 1].level == Some(level) then 1 else 0)
  }

  function CountCoverage(findings: seq<ClauseFinding>, status: CoverageStatus): nat {
    if findings == [] then 0
    else
      CountCoverage(findings[..|findings| - 1], status) +
      (if findings[|findings| - 1].coverage == status then 1 else 0)
  }

  lemma LevelStep(findings: seq<ClauseFinding>, n: nat, level: RiskLevel)
    requires n < |findings|
    ensures CountLevel(findings[..n + 1], level) ==
            CountLevel(findings[..n], level) + (if findings[n].level == Some(level) then 1 else 0)
  {
    assert findings[..n + 1][..n] == findings[..n] && findings[..n + 1][n] == findings[n];
  }

  lemma CoverageStep(findings: seq<ClauseFinding>, n: nat, status: CoverageStatus)
    requires n < |findings|
    ensures CountCoverage(findings[..n + 1], status) ==
            CountCoverage(findings[..n], status) + (if findings[n].coverage == status then 1 else 0)
  {
    assert findings[..n + 1][..n] == findings[..n] && findings[..n + 1][n] == findings[n];
  }

  method LevelCounts(findings: seq<ClauseFinding>, whites: seq<AbsenceFinding>) returns (counts: map<RiskLevel, nat>)
    ensures forall level :: level in counts
    ensures forall level :: level in counts ==>
      counts[level] == if level == AUSENTE then |whites| else CountLevel(findings, level)
  {
    counts := map[ILEGAL := 0, PEOR_QUE_DEFAULT := 0, NEGOCIABLE := 0, AUSENTE := 0, CORRECTO := 0];
    forall level: RiskLevel ensures level in counts {
      match level case ILEGAL => case PEOR_QUE_DEFAULT => case NEGOCIABLE => case AUSENTE => case CORRECTO =>
    }
    for n := 0 to |findings|
      invariant forall level :: level in counts
      invariant forall level :: level in counts ==> counts[level] == CountLevel(findings[..n], level)
    {
      forall level ensures CountLevel(findings[..n + 1], level) ==
        CountLevel(findings[..n], level) + (if findings[n].level == Some(level) then 1 else 0)
      {
        LevelStep(findings, n, level);
      }
      if findings[n].level.Some? {
        var level := findings[n].level.value;
        counts := counts[level := counts[level] + 1];
      }
    }
    assert findings[..|findings|] == findings;
    counts := counts[AUSENTE := |whites|];
  }

  method CoverageCounts(findings: seq<ClauseFinding>) returns (counts: map<CoverageStatus, nat>)
    ensures forall status :: status in counts
    ensures forall status :: status in counts ==> counts[status] == CountCoverage(findings, status)
  {
    counts := map[EVALUADA := 0, INFORMATIVA := 0, FUERA_DE_AMBITO := 0, NO_CONCLUYENTE := 0];
    forall status: CoverageStatus ensures status in counts {
      match status case EVALUADA => case INFORMATIVA => case FUERA_DE_AMBITO => case NO_CONCLUYENTE =>
    }
    for n := 0 to |findings|
      invariant forall status :: status in counts
      invariant forall status :: status in counts ==> counts[status] == CountCoverage(findings[..n], status)
    {
      forall status ensures CountCoverage(findings[..n + 1], status) ==
        CountCoverage(findings[..n], status) + (if findings[n].coverage == status then 1 else 0)
      {
        CoverageStep(findings, n, status);
      }
      counts := counts[findings[n].coverage := counts[findings[n].coverage] + 1];
    }
    assert findings[..|findings|] == findings;
  }

  /** The recount has no gaps: the coverages add up to the clauses, and the levels to the judged clauses. */
  lemma {:induction false} CountsConserve(findings: seq<ClauseFinding>)
    requires forall i :: 0 <= i < |findings| ==> WellPlaced(findings[i])
    ensures CountCoverage(findings, EVALUADA) + CountCoverage(findings, INFORMATIVA) +
            CountCoverage(findings, FUERA_DE_AMBITO) + CountCoverage(findings, NO_CONCLUYENTE) == |findings|
    ensures CountLevel(findings, ILEGAL) + CountLevel(findings, PEOR_QUE_DEFAULT) + CountLevel(findings, NEGOCIABLE) +
            CountLevel(findings, CORRECTO) == CountCoverage(findings, EVALUADA)
  {
    if findings != [] {
      CountsConserve(findings[..|findings| - 1]);
      assert WellPlaced(findings[|findings| - 1]);
    }
  }

  // ---------- The map ----------

  ghost predicate IsRiskMap(ground: Ground, clauses: seq<Clause>, proposed: seq<ClauseMap>, judgements: seq<Judgement>, r: RiskMap)
    requires Sound(ground.tools) && |judgements| == |clauses|
  {
    && r.clauseFindings == FindingsOf(ground, clauses, proposed, judgements)
    && r.absenceFindings == Whites(ground.checklist, r.clauseFindings, ground.store, ground.targetDate)
    && (forall level :: level in r.levelCounts)
    && (forall level :: level in r.levelCounts ==>
          r.levelCounts[level] == if level == AUSENTE then |r.absenceFindings| else CountLevel(r.clauseFindings, level))
    && (forall status :: status in r.coverageCounts)
    && (forall status :: status in r.coverageCounts ==> r.coverageCounts[status] == CountCoverage(r.clauseFindings, status))
  }

  method BuildRiskMap(ground: Ground, clauses: seq<Clause>, proposed: seq<ClauseMap>, judgements: seq<Judgement>)
    returns (r: RiskMap)
    requires Sound(ground.tools) && |judgements| == |clauses|
    ensures IsRiskMap(ground, clauses, proposed, judgements, r)
  {
    var findings := FindAll(ground, clauses, proposed, judgements);
    var whites := CheckChecklist(ground.checklist, findings, ground.store, ground.targetDate);
    var levels := LevelCounts(findings, whites);
    var coverages := CoverageCounts(findings);
    r := RiskMap(findings, whites, levels, coverages);
  }

  // ---------- What every map is ----------

  /** The findings name the clauses, in document order, each well placed and never silenced by a bad mapping. */
  lemma EveryClauseHasItsFinding(ground: Ground, clauses: seq<Clause>, proposed: seq<ClauseMap>,
                                 judgements: seq<Judgement>, r: RiskMap, i: nat)
    requires Sound(ground.tools) && |judgements| == |clauses|
    requires IsRiskMap(ground, clauses, proposed, judgements, r) && i < |clauses|
    ensures |r.clauseFindings| == |clauses|
    ensures var f, c := r.clauseFindings[i], clauses[i];
      && f.clauseId == c.id && f.heading == c.heading && f.snippet == c.text && f.start == c.start && f.end == c.end
      && WellPlaced(f)
      && (f.coverage == INFORMATIVA <==> FirstEntry(proposed, c.id).Some? && !FirstEntry(proposed, c.id).value.evaluable)
    ensures forall id :: id in r.clauseFindings[i].chkIds ==> exists item :: item in ground.checklist.items && item.id == id
    ensures forall id :: id in r.clauseFindings[i].relatedClauseIds ==>
      id != clauses[i].id && exists c :: c in clauses && c.id == id
  {
    var clauseMap, j := MapAt(ground, clauses, proposed, i), judgements[i];
    var f := FindingFor(ground, clauses[i], clauseMap, j);
    PlacedWell(clauses[i], clauseMap, j.classification,
               Grounding(ground, Evidence(ground, clauseMap, j.retrieved), j.classification.citation));
    if FirstEntry(proposed, clauses[i].id).Some? {
      var entry := FirstEntry(proposed, clauses[i].id).value;
      KeptAreValid(entry.chkIds, ItemIds(ground.checklist.items));
      KeptAreValid(entry.relatedClauseIds, IdsOf(clauses) - {entry.clauseId});
    }
    assert f.chkIds == clauseMap.chkIds && f.relatedClauseIds == clauseMap.relatedClauseIds;
  }

  /** The header adds up: coverages to the clauses, levels to the judged clauses and the whites. */
  lemma HeaderAddsUp(ground: Ground, clauses: seq<Clause>, proposed: seq<ClauseMap>, judgements: seq<Judgement>, r: RiskMap)
    requires Sound(ground.tools) && |judgements| == |clauses|
    requires IsRiskMap(ground, clauses, proposed, judgements, r)
    ensures r.coverageCounts[EVALUADA] + r.coverageCounts[INFORMATIVA] + r.coverageCounts[FUERA_DE_AMBITO] +
            r.coverageCounts[NO_CONCLUYENTE] == |clauses|
    ensures r.levelCounts[ILEGAL] + r.levelCounts[PEOR_QUE_DEFAULT] + r.levelCounts[NEGOCIABLE] +
            r.levelCounts[CORRECTO] + r.levelCounts[AUSENTE] == r.coverageCounts[EVALUADA] + |r.absenceFindings|
  {
    forall i | 0 <= i < |clauses| ensures WellPlaced(r.clauseFindings[i]) {
      EveryClauseHasItsFinding(ground, clauses, proposed, judgements, r, i);
    }
    CountsConserve(r.clauseFindings);
  }

  /** The citation that backs a judgement: the one proposed, as the verifier shows it, unless it is discarded. */
  ghost predicate Backs(ground: Ground, evidence: seq<BlockRef>, proposed: Option<ProposedCitation>, survivor: Option<VerifiedCitation>) {
    if proposed.None? || VerifyOne(ground.tools, ground.store, ground.targetDate, evidence, proposed.value).verdict == DISCARDED
    then survivor == None
    else
      var r := VerifyOne(ground.tools, ground.store, ground.targetDate, evidence, proposed.value);
      r.anchor.Some? && survivor == Some(VerifiedCitation(r.blockRef, r.text, r.verdict, r.anchor.value))
  }

  lemma GroundingBacks(ground: Ground, evidence: seq<RetrievedBlock>, citation: Option<ProposedCitation>)
    requires Sound(ground.tools)
    ensures Backs(ground, M.Refs(evidence), citation, Grounding(ground, evidence, citation))
  {
    if citation.Some? &&
       VerifyOne(ground.tools, ground.store, ground.targetDate, M.Refs(evidence), citation.value).verdict != DISCARDED {
      SurvivorIsAnchored(ground, M.Refs(evidence), citation.value);
    }
  }

  /** A clause nobody could judge says nothing; any other one is placed as judged. */
  ghost predicate ShownAs(f: ClauseFinding, evaluable: bool, c: ClauseClassification, survivor: Option<VerifiedCitation>) {
    if evaluable then PlacedAs(f, c, survivor)
    else f.coverage == INFORMATIVA && f.level == None && f.citation == None && f.explanation == "" && f.whatYouCanDo == []
  }

  lemma FindingIsShown(ground: Ground, clause: Clause, clauseMap: ClauseMap, j: Judgement)
    requires Sound(ground.tools)
    ensures ShownAs(FindingFor(ground, clause, clauseMap, j), clauseMap.evaluable, j.classification,
                    Grounding(ground, Evidence(ground, clauseMap, j.retrieved), j.classification.citation))
  {
    LevelsAreAsProposed(clause, clauseMap, j.classification,
                        Grounding(ground, Evidence(ground, clauseMap, j.retrieved), j.classification.citation));
  }

  /** Whether a clause is judged: its first entry says so, or none does. */
  ghost predicate Evaluable(proposed: seq<ClauseMap>, id: string) {
    FirstEntry(proposed, id).Some? ==> FirstEntry(proposed, id).value.evaluable
  }

  lemma MapIsEvaluable(ground: Ground, clauses: seq<Clause>, proposed: seq<ClauseMap>, i: nat)
    requires i < |clauses|
    ensures MapAt(ground, clauses, proposed, i).evaluable <==> Evaluable(proposed, clauses[i].id)
  {
  }

  /**
    On any map, a clause mapped as not evaluable is informative and says nothing more; every other one
    is placed as it was judged, with the citation that survived verification against its evidence.
  */
  lemma ClausesArePlacedAsJudged(ground: Ground, clauses: seq<Clause>, proposed: seq<ClauseMap>, judgements: seq<Judgement>,
                                 r: RiskMap, i: nat) returns (survivor: Option<VerifiedCitation>)
    requires Sound(ground.tools) && |judgements| == |clauses|
    requires IsRiskMap(ground, clauses, proposed, judgements, r) && i < |clauses|
    ensures |r.clauseFindings| == |clauses|
    ensures Backs(ground, M.Refs(Evidence(ground, MapAt(ground, clauses, proposed, i), judgements[i].retrieved)),
                  judgements[i].classification.citation, survivor)
    ensures ShownAs(r.clauseFindings[i], Evaluable(proposed, clauses[i].id), judgements[i].classification, survivor)
  {
    var clauseMap, j := MapAt(ground, clauses, proposed, i), judgements[i];
    survivor := Grounding(ground, Evidence(ground, clauseMap, j.retrieved), j.classification.citation);
    GroundingBacks(ground, Evidence(ground, clauseMap, j.retrieved), j.classification.citation);
    MapIsEvaluable(ground, clauses, proposed, i);
    FindingIsShown(ground, clauses[i], clauseMap, j);
  }

  lemma {:induction false} KeptExactly(ids: seq<string>, valid: set<string>, id: string)
    ensures id in Keep(ids, valid) <==> id in ids && id in valid
  {
    if ids != [] { KeptExactly(ids[1..], valid, id); }
  }

  /** A finding reflects exactly the real items, and names exactly the other real clauses, of its clause's first entry. */
  lemma IdsAreKept(ground: Ground, clauses: seq<Clause>, proposed: seq<ClauseMap>, judgements: seq<Judgement>,
                   r: RiskMap, i: nat, id: string)
    requires Sound(ground.tools) && |judgements| == |clauses|
    requires IsRiskMap(ground, clauses, proposed, judgements, r) && i < |clauses|
    ensures |r.clauseFindings| == |clauses|
    ensures var f, entry := r.clauseFindings[i], FirstEntry(proposed, clauses[i].id);
      && (id in f.chkIds <==>
            entry.Some? && id in entry.value.chkIds && exists item :: item in ground.checklist.items && item.id == id)
      && (id in f.relatedClauseIds <==>
            entry.Some? && id in entry.value.relatedClauseIds && id != clauses[i].id && exists c :: c in clauses && c.id == id)
  {
    var entry := FirstEntry(proposed, clauses[i].id);
    FindingKeepsIds(ground, clauses[i], MapAt(ground, clauses, proposed, i), judgements[i]);
    FirstEntryIsFirst(proposed, clauses[i].id);
    if entry.Some? {
      KeptExactly(entry.value.chkIds, ItemIds(ground.checklist.items), id);
      KeptExactly(entry.value.relatedClauseIds, IdsOf(clauses) - {entry.value.clauseId}, id);
    }
  }

  lemma FindingKeepsIds(ground: Ground, clause: Clause, clauseMap: ClauseMap, j: Judgement)
    requires Sound(ground.tools)
    ensures var f := FindingFor(ground, clause, clauseMap, j);
      f.chkIds == clauseMap.chkIds && f.relatedClauseIds == clauseMap.relatedClauseIds
  {
  }

  /** The header counts the findings at each level and at each coverage, by their places on the map. */
  lemma HeaderCounts(ground: Ground, clauses: seq<Clause>, proposed: seq<ClauseMap>, judgements: seq<Judgement>,
                     r: RiskMap, level: RiskLevel, status: CoverageStatus)
    requires Sound(ground.tools) && |judgements| == |clauses|
    requires IsRiskMap(ground, clauses, proposed, judgements, r)
    ensures level in r.levelCounts && status in r.coverageCounts
    ensures r.levelCounts[level] ==
            if level == AUSENTE then |r.absenceFindings|
            else |LevelAt(r.clauseFindings, level)|
    ensures r.coverageCounts[status] == |CoverageAt(r.clauseFindings, status)|
  {
    PlacesCounted(r.clauseFindings, level, status);
  }

  ghost function LevelAt(findings: seq<ClauseFinding>, level: RiskLevel): set<int> {
    Where(findings, (f: ClauseFinding) => f.level == Some(level))
  }

  ghost function CoverageAt(findings: seq<ClauseFinding>, status: CoverageStatus): set<int> {
    Where(findings, (f: ClauseFinding) => f.coverage == status)
  }

  lemma {:induction false} PlacesCounted(findings: seq<ClauseFinding>, level: RiskLevel, status: CoverageStatus)
    ensures CountLevel(findings, level) == |LevelAt(findings, level)|
    ensures CountCoverage(findings, status) == |CoverageAt(findings, status)|
  {
    if findings == [] {
      WhereNothing((f: ClauseFinding) => f.level == Some(level));
      WhereNothing((f: ClauseFinding) => f.coverage == status);
    } else {
      PlacesCounted(findings[..|findings| - 1], level, status);
      WhereStep(findings, (f: ClauseFinding) => f.level == Some(level));
      WhereStep(findings, (f: ClauseFinding) => f.coverage == status);
    }
  }

  /** However the model maps and judges, each omissible right is addressed by a judged clause or is one white. */
  lemma EveryRightIsOnTheMap(ground: Ground, clauses: seq<Clause>, proposed: seq<ClauseMap>, judgements: seq<Judgement>,
                             r: RiskMap, item: ChecklistItem)
    requires Sound(ground.tools) && |judgements| == |clauses|
    requires IsRiskMap(ground, clauses, proposed, judgements, r)
    requires DistinctItems(ground.checklist) && item in ground.checklist.items
    ensures CountWhites(r.absenceFindings, item.id) ==
            if item.silenceTone != NOT_APPLICABLE && !AddressedBy(r.clauseFindings, item.id) then 1 else 0
  {
    EveryRightIsAccountedFor(ground.checklist, r.clauseFindings, ground.store, ground.targetDate, item);
  }

  // ---------- Everything shown is literal ----------

  /** The checklist came through its loader and validates cleanly at the date. */
  ghost predicate Validated(ground: Ground) {
    && ground.checklist.normId != ""
    && (forall item :: item in ground.checklist.items ==> Loaded(item))
    && Report(ground.tools, ground.checklist.normId, ground.checklist.items, ground.store, ground.targetDate) == []
  }

  lemma ValidatedItems(ground: Ground, item: ChecklistItem)
    requires Validated(ground) && item in ground.checklist.items
    ensures Loaded(item) && ItemStands(ground.tools, item, ground.checklist.normId, ground.store, ground.targetDate)
  {
    ValidIffAllStand(ground.tools, ground.checklist.normId, ground.checklist.items, ground.store, ground.targetDate);
  }

  /** Every white of a validated checklist carries its citation, and the citation passes the guardrail. */
  lemma WhitesPass(ground: Ground, findings: seq<ClauseFinding>, w: AbsenceFinding)
    requires Validated(ground)
    requires w in Whites(ground.checklist, findings, ground.store, ground.targetDate)
    ensures w.citation.Some?
    ensures CheckShown(ground.tools, ground.store, ground.targetDate, w.citation.value) == None
  {
    var item := NoStrayWhite(ground.checklist, findings, ground.store, ground.targetDate, w);
    ValidatedItems(ground, item);
    StandingItem(ground.tools, item, ground.checklist.normId, ground.store, ground.targetDate);
  }

  lemma {:induction false} AnchorsOf(items: seq<ChecklistItem>, a: string)
    requires a in AllAnchors(items)
    ensures exists item :: item in items && a in item.anchors
  {
    var init, last := items[..|items| - 1], items[|items| - 1];
    assert last in items && forall item :: item in init ==> item in items;
    if a in AllAnchors(init) {
      AnchorsOf(init, a);
    }
  }

  function TouchedBy(ground: Ground, clauseMap: ClauseMap): seq<ChecklistItem> {
    TouchedItems(ItemsById(ground.checklist.items), clauseMap.chkIds)
  }

  /** The anchor references a clause is judged on read back from their tokens; retrieved ones need not. */
  lemma EvidenceIsPrintable(ground: Ground, clauseMap: ClauseMap, retrieved: seq<RetrievedBlock>)
    requires Validated(ground) && TouchedBy(ground, clauseMap) != []
    ensures forall ref :: ref in M.Refs(Evidence(ground, clauseMap, retrieved)) ==> Printable(ref)
  {
    var evidence := Evidence(ground, clauseMap, retrieved);
    forall k | 0 <= k < |evidence| ensures Printable(M.KeyOf(evidence[k])) {
      AnchorIsPrintable(ground, clauseMap.chkIds, k);
    }
  }

  lemma AnchorIsPrintable(ground: Ground, chkIds: seq<string>, k: nat)
    requires Validated(ground)
    requires var items := TouchedItems(ItemsById(ground.checklist.items), chkIds);
      k < |AnchorEvidence(ground, AllAnchors(items))|
    ensures var items := TouchedItems(ItemsById(ground.checklist.items), chkIds);
      Printable(M.KeyOf(AnchorEvidence(ground, AllAnchors(items))[k]))
  {
    var items := TouchedItems(ItemsById(ground.checklist.items), chkIds);
    var anchors := AllAnchors(items);
    AnchorKeysAre(ground, anchors);
    var a := AnchorKeys(ground, anchors)[k];
    AnchorsOf(items, a);
    var item :| item in items && a in item.anchors;
    ItemsByIdAre(ground.checklist.items);
    ValidatedItems(ground, item);
    StandingItem(ground.tools, item, ground.checklist.normId, ground.store, ground.targetDate);
  }

  /**
    A shown clause citation that reads back passes the guardrail, unless it is a repair that holds
    nothing but ellipsis marks. Only a clause that touches no item, judged on retrieved blocks and
    re-anchored among them, can fail to read back.
  */
  lemma ClauseCitationPasses(ground: Ground, clauses: seq<Clause>, proposed: seq<ClauseMap>, judgements: seq<Judgement>,
                             r: RiskMap, i: nat)
    requires Sound(ground.tools) && |judgements| == |clauses|
    requires IsRiskMap(ground, clauses, proposed, judgements, r) && Validated(ground)
    requires i < |clauses| && r.clauseFindings[i].citation.Some?
    ensures var c := r.clauseFindings[i].citation.value;
      && (ReadsBack(c) ==> (Passes(ground, c) <==> !EllipsisOnly(ground.tools.nfc, c.text)))
      && (!ReadsBack(c) ==> c.verdict == REPAIRED_ANCHOR && TouchedBy(ground, MapAt(ground, clauses, proposed, i)) == [])
      && (EllipsisOnly(ground.tools.nfc, c.text) ==> !Passes(ground, c))
      && (c.verdict == VERIFIED_DIRECT ==> !EllipsisOnly(ground.tools.nfc, c.text))
  {
    var clauseMap, j := MapAt(ground, clauses, proposed, i), judgements[i];
    var evidence := M.Refs(Evidence(ground, clauseMap, j.retrieved));
    var proposal, c := j.classification.citation, r.clauseFindings[i].citation.value;
    PlacedWell(clauses[i], clauseMap, j.classification, Grounding(ground, Evidence(ground, clauseMap, j.retrieved), proposal));
    SurvivorReverifies(ground.tools, ground.store, ground.targetDate, evidence, proposal.value);
    if TouchedBy(ground, clauseMap) != [] {
      EvidenceIsPrintable(ground, clauseMap, j.retrieved);
      PrintThenParse(AnchorRef(c));
    }
    PassesAlike(ground, evidence, c);
  }

  ghost predicate Passes(ground: Ground, c: VerifiedCitation) {
    CheckShown(ground.tools, ground.store, ground.targetDate, c).None?
  }

  lemma PassesAlike(ground: Ground, evidence: seq<BlockRef>, c: VerifiedCitation)
    ensures ReadsBack(c) && AnchorRef(c) in evidence ==>
      (Passes(ground, c) <==> CheckOne(ground.tools, ground.store, ground.targetDate, RefSet(evidence), c).None?)
    ensures EllipsisOnly(ground.tools.nfc, c.text) ==> !Passes(ground, c)
  {
    SameButForEvidence(ground.tools, ground.store, ground.targetDate, RefSet(evidence), c);
    NothingToQuoteIffEllipsisOnly(ground.tools.nfc, c.text);
  }

  /** A shown clause citation the guardrail refuses: nothing but ellipses, or misread and refused there. */
  ghost predicate Refused(ground: Ground, c: VerifiedCitation) {
    EllipsisOnly(ground.tools.nfc, c.text) || (!ReadsBack(c) && !Passes(ground, c))
  }

  /**
    For every mapping and every verdict, over a validated checklist and at the same date, the whole
    risk map has no guardrail violation, except exactly when a repaired quote is nothing but ellipses
    or is refused where its token misreads.
  */
  lemma RiskMapIsLiteral(ground: Ground, clauses: seq<Clause>, proposed: seq<ClauseMap>, judgements: seq<Judgement>,
                         r: RiskMap, caseId: string)
    requires Sound(ground.tools) && |judgements| == |clauses|
    requires IsRiskMap(ground, clauses, proposed, judgements, r) && Validated(ground)
    ensures ShownViolations(ground.tools, ground.store, ground.targetDate, caseId, ShownBy(r)) == [] <==>
            forall f :: f in r.clauseFindings && f.citation.Some? ==> !Refused(ground, f.citation.value)
  {
    forall i | 0 <= i < |r.clauseFindings| && r.clauseFindings[i].citation.Some?
      ensures Passes(ground, r.clauseFindings[i].citation.value) <==> !Refused(ground, r.clauseFindings[i].citation.value)
    {
      ClauseCitationPasses(ground, clauses, proposed, judgements, r, i);
    }
    forall w | w in r.absenceFindings ensures w.citation.Some? && Passes(ground, w.citation.value) {
      WhitesPass(ground, r.clauseFindings, w);
    }
    CleanUnlessRefused(ground, r, caseId);
  }

  lemma CleanUnlessRefused(ground: Ground, r: RiskMap, caseId: string)
    requires forall i :: 0 <= i < |r.clauseFindings| && r.clauseFindings[i].citation.Some? ==>
      (Passes(ground, r.clauseFindings[i].citation.value) <==> !Refused(ground, r.clauseFindings[i].citation.value))
    requires forall w :: w in r.absenceFindings ==> w.citation.Some? && Passes(ground, w.citation.value)
    ensures ShownViolations(ground.tools, ground.store, ground.targetDate, caseId, ShownBy(r)) == [] <==>
            forall f :: f in r.clauseFindings && f.citation.Some? ==> !Refused(ground, f.citation.value)
  {
    CleanIffAllPass(ground.tools, ground.store, ground.targetDate, caseId, ShownBy(r));
    ShownAre(r);
  }

  lemma ShownAre(r: RiskMap)
    ensures forall i :: 0 <= i < |r.clauseFindings| ==> r.clauseFindings[i].citation in ShownBy(r)
    ensures forall w :: w in r.absenceFindings ==> w.citation in ShownBy(r)
    ensures forall c :: c in ShownBy(r) ==>
      (exists i :: 0 <= i < |r.clauseFindings| && r.clauseFindings[i].citation == c) ||
      (exists w :: w in r.absenceFindings && w.citation == c)
  {
    var shown := ShownBy(r);
    forall i | 0 <= i < |r.clauseFindings| ensures r.clauseFindings[i].citation in shown {
      assert shown[i] == r.clauseFindings[i].citation;
    }
    forall w | w in r.absenceFindings ensures w.citation in shown {
      var k :| 0 <= k < |r.absenceFindings| && r.absenceFindings[k] == w;
      assert shown[|r.clauseFindings| + k] == w.citation;
    }
    forall c | c in shown
      ensures (exists i :: 0 <= i < |r.clauseFindings| && r.clauseFindings[i].citation == c) ||
              (exists w :: w in r.absenceFindings && w.citation == c)
    {
      var k :| 0 <= k < |shown| && shown[k] == c;
      if k >= |r.clauseFindings| {
        assert r.absenceFindings[k - |r.clauseFindings|] in r.absenceFindings;
      }
    }
  }
}
