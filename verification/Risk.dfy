/** The Mode 2 risk map: clauses, their findings, the absence whites. */
module Risk {
  import opened Wrappers
  import opened Checklists
  import opened Guardrail

  datatype RiskLevel = ILEGAL | PEOR_QUE_DEFAULT | NEGOCIABLE | AUSENTE | CORRECTO

  datatype CoverageStatus = EVALUADA | INFORMATIVA | FUERA_DE_AMBITO | NO_CONCLUYENTE

  datatype ProposedClauseLevel =
    | PROPOSED_ILEGAL | PROPOSED_PEOR_QUE_DEFAULT | PROPOSED_NEGOCIABLE | PROPOSED_CORRECTO
    | PROPOSED_FUERA_DE_AMBITO | PROPOSED_NO_CONCLUYENTE

  predicate RequiresCitation(level: RiskLevel) {
    level in {ILEGAL, PEOR_QUE_DEFAULT, CORRECTO}
  }

  /** A clause anchored to a span of the document. */
  datatype Clause = Clause(id: string, heading: string, text: string, start: int, end: int)

  /** How one clause relates to the checklist, as the mapping call reports it. */
  datatype ClauseMap = ClauseMap(clauseId: string, evaluable: bool, chkIds: seq<string>, relatedClauseIds: seq<string>)

  datatype ClauseFinding = ClauseFinding(
    clauseId: string, heading: string, snippet: string, start: int, end: int, coverage: CoverageStatus,
    level: Option<RiskLevel>, explanation: string, whatYouCanDo: seq<string>, citation: Option<VerifiedCitation>,
    outOfScopeMatter: string, chkIds: seq<string>, relatedClauseIds: seq<string>)

  datatype AbsenceFinding = AbsenceFinding(
    itemId: string, right: string, silenceTone: SilenceTone, explanation: string, citation: Option<VerifiedCitation>)

  datatype RiskMap = RiskMap(
    clauseFindings: seq<ClauseFinding>, absenceFindings: seq<AbsenceFinding>,
    levelCounts: map<RiskLevel, nat>, coverageCounts: map<CoverageStatus, nat>)
}
