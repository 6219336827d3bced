/**
  The Mode 1 graph: its state, its nodes and the step from one node to the next.

  What the model, the retrievers and the user say at a step arrives in a `Reply`, about which
  nothing is assumed. `Step` runs the current node and moves on; a paused run moves only with the
  user's answer, and then runs the clarify node again from its start.
*/
module Mode1Graph {
  import opened Wrappers
  import opened Lists
  import opened Typography
  import opened BlockRefs
  import opened Corpus
  import opened Verifier
  import opened Guardrail
  import opened Notices

  const MAX_SUBQUERIES := 4
  const MAX_PASSES := 3
  const DEFAULT_REJECTION :=
    "Tu pregunta queda fuera de lo que puedo cubrir: solo respondo sobre el alquiler de vivienda en la legislación estatal española."

  // ---------- What the collaborators say ----------

  datatype RouterScope = IN_SCOPE | OUT_OF_SCOPE
  datatype QueryType = INFORMATIONAL | SITUATIONAL | PROCEDURAL
  datatype SubQueryVerdict = SUFFICIENT | INSUFFICIENT

  datatype RouterDecision = RouterDecision(scope: RouterScope, queryType: QueryType, rejectionMessage: string)

  datatype PlannedSubQuery = PlannedSubQuery(text: string, purpose: string, isCritical: bool)

  datatype Plan = Plan(
    subqueries: seq<PlannedSubQuery>, assumptions: seq<string>, targetDateReference: string, unresolvedBranchIds: seq<string>)

  datatype RetrievedBlock = RetrievedBlock(
    normId: string, normLabel: string, blockId: string, title: string, text: string, effectiveDate: Date)

  datatype SubQueryCritique = SubQueryCritique(subqueryId: string, verdict: SubQueryVerdict, reformulation: string)

  datatype Synthesis = Synthesis(fundamento: seq<ProposedCitation>, explicacion: string, accion: seq<string>)

  datatype Reply = Reply(
    router: RouterDecision, plan: Plan, retrieved: SubQueryState -> seq<RetrievedBlock>,
    critique: seq<SubQueryCritique>, synthesis: Synthesis, answer: string)

  // ---------- The run's fixed surroundings ----------

  datatype Branch = Branch(
    id: string, question: string, setsTargetDate: bool, assumption: string, stateFact: string -> string)

  /** The corpus, the library oracles, the vertical's branches, and the date parser and printer. */
  datatype Env = Env(
    tools: Tools, store: Store, branches: seq<Branch>,
    parseTargetDate: string -> Option<TargetDate>, isoFormat: Date -> string, yearEnd: Date -> Date)

  // ---------- The state ----------

  datatype SubQuery = SubQuery(id: string, text: string, purpose: string, isCritical: bool)

  datatype SubQueryState = SubQueryState(
    subquery: SubQuery, queryText: string, evidence: seq<RetrievedBlock>, verdict: Option<SubQueryVerdict>)
  {
    predicate IsSufficient() { verdict == Some(SUFFICIENT) }
  }

  datatype PassRecord = PassRecord(
    passNumber: nat, sufficientIds: seq<string>, insufficientIds: seq<string>, evidenceCount: nat, evidenceBlockRefs: seq<string>)

  datatype Outcome = ANSWER | PARTIAL_ANSWER | ABSTENTION | ROUTER_REJECTION | CLARIFICATION
  datatype AbstentionReason = NO_EVIDENCE | NO_VERIFIABLE_CITATION | INSUFFICIENT_CORE

  datatype State = State(
    question: string, today: Date, targetDate: Date, targetDatePrecision: DatePrecision,
    scope: Option<RouterScope>, queryType: Option<QueryType>, routerMessage: Option<string>,
    subqueries: seq<SubQueryState>, assumptions: seq<string>,
    unresolvedBranchIds: seq<string>, clarificationAsked: bool, caseFacts: seq<string>,
    passes: seq<PassRecord>, passNumber: nat,
    synthesis: Option<Synthesis>, verified: seq<VerifiedCitation>, citationVerdicts: map<Verdict, nat>,
    notices: seq<InForceNotice>, outcome: Option<Outcome>, abstentionReason: Option<AbstentionReason>)
  {
    predicate AllSufficient() {
      subqueries != [] && forall i :: 0 <= i < |subqueries| ==> subqueries[i].IsSufficient()
    }
  }

  function InitialState(question: string, today: Date): State {
    State(question, today, today, DatePrecision.NONE, None, None, None, [], [], [], false, [], [], 0,
          None, [], map[], [], None, None)
  }

  datatype Node = Route | Plan | Clarify | Paused | Retrieve | Critique | Synthesize | Gate | Notify | End

  datatype Config = Config(node: Node, state: State)

  function Start(question: string, today: Date): Config {
    Config(Route, InitialState(question, today))
  }

  // ---------- Route and plan ----------

  function RouterNode(s: State, decision: RouterDecision): State {
    var s' := s.(scope := Some(decision.scope), queryType := Some(decision.queryType));
    if decision.scope == OUT_OF_SCOPE then
      var message := Strip(decision.rejectionMessage);
      s'.(outcome := Some(ROUTER_REJECTION),
          routerMessage := Some(if message != "" then message else DEFAULT_REJECTION))
    else s'
  }

  function SubQueryId(index: nat): string
    requires 1 <= index <= MAX_SUBQUERIES
  {
    ["sq1", "sq2", "sq3", "sq4"][index - 1]
  }

  function PlannedState(item: PlannedSubQuery, index: nat): SubQueryState
    requires 1 <= index <= MAX_SUBQUERIES
  {
    SubQueryState(SubQuery(SubQueryId(index), item.text, item.purpose, item.isCritical), item.text, [], None)
  }

  function ToStates(planned: seq<PlannedSubQuery>): (r: seq<SubQueryState>)
    ensures |r| == if |planned| < MAX_SUBQUERIES then |planned| else MAX_SUBQUERIES
    ensures forall i :: 0 <= i < |r| ==> r[i] == PlannedState(planned[i], i + 1)
  {
    var n := if |planned| < MAX_SUBQUERIES then |planned| else MAX_SUBQUERIES;
    seq(n, i requires 0 <= i < n => PlannedState(planned[i], i + 1))
  }

  function Fallback(question: string): SubQueryState {
    SubQueryState(SubQuery(SubQueryId(1), question, "Responder la pregunta tal como se planteó.", true), question, [], None)
  }

  function ResolveTargetDate(env: Env, reference: string, today: Date): TargetDate {
    match env.parseTargetDate(reference)
    case None => TargetDate(today, DatePrecision.NONE)
    case Some(parsed) => if parsed.value > today then TargetDate(today, DatePrecision.NONE) else parsed
  }

  /** The reported ids the vertical declares, in its own priority order. */
  function DeclaredOrder(reported: seq<string>, branches: seq<Branch>): seq<string> {
    if branches == [] then []
    else (if branches[0].id in reported then [branches[0].id] else []) + DeclaredOrder(reported, branches[1..])
  }

  function PlannerNode(env: Env, s: State, plan: Plan): State {
    var subqueries := if ToStates(plan.subqueries) != [] then ToStates(plan.subqueries) else [Fallback(s.question)];
    var anchor := ResolveTargetDate(env, plan.targetDateReference, s.today);
    s.(subqueries := subqueries, assumptions := plan.assumptions,
       targetDate := anchor.value, targetDatePrecision := anchor.precision,
       unresolvedBranchIds := DeclaredOrder(plan.unresolvedBranchIds, env.branches))
  }

  // ---------- Clarify ----------

  function FirstOpen(branches: seq<Branch>, pending: seq<string>): Option<Branch> {
    if branches == [] then None
    else if branches[0].id in pending then Some(branches[0])
    else FirstOpen(branches[1..], pending)
  }

  function BranchToAsk(s: State, branches: seq<Branch>): Option<Branch> {
    if s.clarificationAsked || s.queryType == Some(INFORMATIONAL) then None
    else FirstOpen(branches, s.unresolvedBranchIds)
  }

  datatype Resolution = Resolution(fact: string, target: Option<TargetDate>)

  /** Reads the user's reply, or nothing when it does not resolve the branch. */
  function ResolveBranch(env: Env, today: Date, branch: Branch, answer: string): Option<Resolution> {
    var reply := Strip(answer);
    if reply == "" then None
    else if !branch.setsTargetDate then Some(Resolution(branch.stateFact(reply), None))
    else match env.parseTargetDate(reply)
      case None => None
      case Some(signedOn) =>
        if signedOn.value > today then None
        else Some(Resolution(branch.stateFact(env.isoFormat(signedOn.value)), Some(signedOn)))
  }

  /** The branches still open: reported unresolved, and not the one resolved. */
  function OpenBranches(branches: seq<Branch>, unresolved: seq<string>, resolved: Option<string>): seq<Branch> {
    if branches == [] then []
    else
      (if branches[0].id in unresolved && resolved != Some(branches[0].id) then [branches[0]] else [])
      + OpenBranches(branches[1..], unresolved, resolved)
  }

  function Assumptions(branches: seq<Branch>): seq<string> {
    if branches == [] then [] else [branches[0].assumption] + Assumptions(branches[1..])
  }

  function Situate(env: Env, s: State, asked: Option<Branch>, resolution: Option<Resolution>): State {
    var resolvedId := if asked.Some? && resolution.Some? then Some(asked.value.id) else None;
    var s' := s.(clarificationAsked := true,
                 assumptions := s.assumptions + Assumptions(OpenBranches(env.branches, s.unresolvedBranchIds, resolvedId)));
    match resolution
    case None => s'
    case Some(r) =>
      var s'' := s'.(caseFacts := s.caseFacts + [r.fact]);
      match r.target
      case None => s''
      case Some(t) => s''.(targetDate := t.value, targetDatePrecision := t.precision)
  }

  // ---------- Retrieve and critique ----------

  function RetrieveOne(sub: SubQueryState, retrieved: SubQueryState -> seq<RetrievedBlock>): SubQueryState {
    if sub.IsSufficient() then sub else sub.(evidence := retrieved(sub))
  }

  function RetrieveNode(s: State, retrieved: SubQueryState -> seq<RetrievedBlock>): State {
    s.(subqueries := seq(|s.subqueries|, i requires 0 <= i < |s.subqueries| => RetrieveOne(s.subqueries[i], retrieved)),
       passNumber := s.passNumber + 1)
  }

  /** The ruling that stands for a sub-query: the last one the critique gave it. */
  function RulingFor(rulings: seq<SubQueryCritique>, id: string): Option<SubQueryCritique> {
    if rulings == [] then None
    else if rulings[|rulings| - 1].subqueryId == id then Some(rulings[|rulings| - 1])
    else RulingFor(rulings[..|rulings| - 1], id)
  }

  function Apply(sub: SubQueryState, ruling: Option<SubQueryCritique>): SubQueryState {
    if sub.IsSufficient() || ruling.None? then sub
    else
      var reformulation := Strip(ruling.value.reformulation);
      var nextText := if ruling.value.verdict == INSUFFICIENT && reformulation != "" then reformulation else sub.queryText;
      sub.(verdict := Some(ruling.value.verdict), queryText := nextText)
  }

  function IdsRuled(subs: seq<SubQueryState>, sufficient: bool): seq<string> {
    if subs == [] then []
    else (if subs[0].IsSufficient() == sufficient then [subs[0].subquery.id] else []) + IdsRuled(subs[1..], sufficient)
  }

  function TotalEvidence(subs: seq<SubQueryState>): nat {
    if subs == [] then 0 else |subs[0].evidence| + TotalEvidence(subs[1..])
  }

  function KeyOf(b: RetrievedBlock): BlockRef {
    BlockRef(b.normId, b.blockId)
  }

  function AllEvidence(subs: seq<SubQueryState>): seq<RetrievedBlock> {
    if subs == [] then [] else AllEvidence(subs[..|subs| - 1]) + subs[|subs| - 1].evidence
  }

  predicate HasKey(blocks: seq<RetrievedBlock>, key: BlockRef) {
    exists i :: 0 <= i < |blocks| && KeyOf(blocks[i]) == key
  }

  /** The blocks in first-seen order, the first one for each key. */
  function FirstPerKey(blocks: seq<RetrievedBlock>): seq<RetrievedBlock> {
    if blocks == [] then []
    else
      var earlier := FirstPerKey(blocks[..|blocks| - 1]);
      var last := blocks[|blocks| - 1];
      if HasKey(earlier, KeyOf(last)) then earlier else earlier + [last]
  }

  lemma HasKeyAppend(blocks: seq<RetrievedBlock>, last: RetrievedBlock, key: BlockRef)
    ensures HasKey(blocks + [last], key) <==> HasKey(blocks, key) || KeyOf(last) == key
  {
    if HasKey(blocks, key) {
      var i :| 0 <= i < |blocks| && KeyOf(blocks[i]) == key;
      assert KeyOf((blocks + [last])[i]) == key;
    }
    assert (blocks + [last])[|blocks|] == last;
  }

  function Refs(blocks: seq<RetrievedBlock>): (r: seq<BlockRef>)
    ensures |r| == |blocks|
    ensures forall i :: 0 <= i < |blocks| ==> r[i] == KeyOf(blocks[i])
  {
    seq(|blocks|, i requires 0 <= i < |blocks| => KeyOf(blocks[i]))
  }

  function Tokens(refs: seq<BlockRef>): (r: seq<string>)
    ensures |r| == |refs|
  {
    seq(|refs|, i requires 0 <= i < |refs| => Print(refs[i]))
  }

  function Record(passNumber: nat, subs: seq<SubQueryState>): PassRecord {
    PassRecord(passNumber, IdsRuled(subs, true), IdsRuled(subs, false), TotalEvidence(subs), FirstSeen(Tokens(Refs(AllEvidence(subs)))))
  }

  function CritiqueNode(s: State, rulings: seq<SubQueryCritique>): State {
    var judged := seq(|s.subqueries|, i requires 0 <= i < |s.subqueries| =>
      Apply(s.subqueries[i], RulingFor(rulings, s.subqueries[i].subquery.id)));
    s.(subqueries := judged, passes := s.passes + [Record(s.passNumber, judged)])
  }

  // ---------- Synthesize, gate and notify ----------

  /** The deduplicated union of every sub-query's evidence, in first-seen order. */
  function UnionEvidence(subs: seq<SubQueryState>): seq<RetrievedBlock> {
    FirstPerKey(AllEvidence(subs))
  }

  function Held(results: seq<CitationResult>): seq<VerifiedCitation>
    requires forall i :: 0 <= i < |results| && results[i].verdict != DISCARDED ==> results[i].anchor.Some?
  {
    if results == [] then []
    else
      var last := results[|results| - 1];
      Held(results[..|results| - 1]) + (if last.verdict == DISCARDED then [] else [Shown(last)])
  }

  function CountVerdict(results: seq<CitationResult>, v: Verdict): nat {
    if results == [] then 0
    else CountVerdict(results[..|results| - 1], v) + (if results[|results| - 1].verdict == v then 1 else 0)
  }

  function Summarize(results: seq<CitationResult>): map<Verdict, nat> {
    map v | v in {VERIFIED_DIRECT, REPAIRED_SNAP, REPAIRED_ANCHOR, DISCARDED} :: CountVerdict(results, v)
  }

  /** Every result that is not discarded carries the anchor the display citation requires. */
  lemma HeldCarryAnchors(tools: Tools, store: Store, date: Date, evidence: seq<BlockRef>, citations: seq<ProposedCitation>)
    ensures var results := VerifyAll(tools, store, date, evidence, citations);
      forall i :: 0 <= i < |results| && results[i].verdict != DISCARDED ==> results[i].anchor.Some?
  {
  }

  /** The citations shown: the proposed ones that survive verification against the union of the evidence. */
  ghost function Survivors(env: Env, subs: seq<SubQueryState>, date: Date, citations: seq<ProposedCitation>): seq<VerifiedCitation> {
    var evidence := Refs(UnionEvidence(subs));
    HeldCarryAnchors(env.tools, env.store, date, evidence, citations);
    Held(VerifyAll(env.tools, env.store, date, evidence, citations))
  }

  ghost function SynthesizeNode(env: Env, s: State, synthesis: Synthesis): State {
    if UnionEvidence(s.subqueries) == [] then
      s.(synthesis := None, verified := [], citationVerdicts := map[])
    else
      s.(synthesis := Some(synthesis),
         verified := Survivors(env, s.subqueries, s.targetDate, synthesis.fundamento),
         citationVerdicts := Summarize(
           VerifyAll(env.tools, env.store, s.targetDate, Refs(UnionEvidence(s.subqueries)), synthesis.fundamento)))
  }

  predicate HasUngrounded(subs: seq<SubQueryState>, critical: bool) {
    exists i :: 0 <= i < |subs| && subs[i].subquery.isCritical == critical && !subs[i].IsSufficient()
  }

  /** The terminal outcome and, for an abstention, its reason. */
  function GateVerdict(subs: seq<SubQueryState>, verified: seq<VerifiedCitation>): (Outcome, Option<AbstentionReason>) {
    if TotalEvidence(subs) == 0 then (ABSTENTION, Some(NO_EVIDENCE))
    else if verified == [] then (ABSTENTION, Some(NO_VERIFIABLE_CITATION))
    else if HasUngrounded(subs, true) then (ABSTENTION, Some(INSUFFICIENT_CORE))
    else if HasUngrounded(subs, false) then (PARTIAL_ANSWER, None)
    else (ANSWER, None)
  }

  function GateNode(s: State): State {
    var (outcome, reason) := GateVerdict(s.subqueries, s.verified);
    s.(outcome := Some(outcome), abstentionReason := if reason.Some? then reason else s.abstentionReason)
  }

  function CitedBlocks(verified: seq<VerifiedCitation>): (r: seq<CitedBlock>)
    ensures |r| == |verified|
    ensures forall i :: 0 <= i < |verified| ==>
      r[i] == CitedBlock(BlockRef(verified[i].anchor.normId, verified[i].anchor.blockId), verified[i].anchor.title, verified[i].anchor.effectiveDate)
  {
    seq(|verified|, i requires 0 <= i < |verified| =>
      CitedBlock(BlockRef(verified[i].anchor.normId, verified[i].anchor.blockId), verified[i].anchor.title, verified[i].anchor.effectiveDate))
  }

  function NotifyNode(env: Env, s: State): State {
    if s.outcome != Some(ANSWER) && s.outcome != Some(PARTIAL_ANSWER) then s.(notices := [])
    else s.(notices := BuildNotices(env.store, CitedBlocks(s.verified), TargetDate(s.targetDate, s.targetDatePrecision), s.today, env.yearEnd))
  }

  // ---------- The step ----------

  function AfterRoute(s: State): Node {
    if s.outcome == Some(ROUTER_REJECTION) then End else Node.Plan
  }

  function AfterCritique(s: State): Node {
    if s.AllSufficient() || s.passNumber >= MAX_PASSES then Synthesize else Retrieve
  }

  /** Runs the current node on one reply and moves to the next. */
  ghost function Step(env: Env, c: Config, r: Reply): Config {
    var s := c.state;
    match c.node
    case Route => var s' := RouterNode(s, r.router); Config(AfterRoute(s'), s')
    case Plan => Config(Clarify, PlannerNode(env, s, r.plan))
    case Clarify =>
      if BranchToAsk(s, env.branches).None? then Config(Retrieve, Situate(env, s, None, None))
      else Config(Paused, s)
    case Paused =>
      var asked := BranchToAsk(s, env.branches);
      var resolution := if asked.Some? then ResolveBranch(env, s.today, asked.value, r.answer) else None;
      Config(Retrieve, Situate(env, s, asked, resolution))
    case Retrieve => Config(Critique, RetrieveNode(s, r.retrieved))
    case Critique => var s' := CritiqueNode(s, r.critique); Config(AfterCritique(s'), s')
    case Synthesize => Config(Gate, SynthesizeNode(env, s, r.synthesis))
    case Gate => Config(Notify, GateNode(s))
    case Notify => Config(End, NotifyNode(env, s))
    case End => c
  }

  /** The configuration after a sequence of replies. */
  ghost function Run(env: Env, c: Config, replies: seq<Reply>): Config
    decreases |replies|
  {
    if replies == [] then c else Step(env, Run(env, c, replies[..|replies| - 1]), replies[|replies| - 1])
  }

  // ---------- The response ----------

  datatype Answer = Answer(
    fundamento: seq<VerifiedCitation>, explicacion: string, accion: seq<string>, fechaObjetivo: Date,
    avisosVigencia: seq<InForceNotice>, asunciones: seq<string>, huecosDeclarados: seq<string>)

  datatype SubQueryReport = SubQueryReport(subquery: SubQuery, verdict: Option<SubQueryVerdict>, evidence: seq<BlockRef>)

  datatype AgenticTrace = AgenticTrace(
    queryType: Option<QueryType>, subqueries: seq<SubQueryReport>, passes: seq<PassRecord>,
    firstPassSufficient: nat, finalSufficient: nat, agenticDelta: int)

  datatype Rejection = Rejection(message: string)
  datatype Abstention = Abstention(reason: AbstentionReason)
  datatype Clarification = Clarification(branchId: string, question: string)

  datatype AskResponse = AskResponse(
    outcome: Outcome, answer: Option<Answer>, abstention: Option<Abstention>, rejection: Option<Rejection>,
    clarification: Option<Clarification>, agentic: Option<AgenticTrace>)

  function BuildAgenticTrace(s: State): AgenticTrace {
    var first := if s.passes != [] then |s.passes[0].sufficientIds| else 0;
    var final := if s.passes != [] then |s.passes[|s.passes| - 1].sufficientIds| else 0;
    AgenticTrace(
      s.queryType,
      seq(|s.subqueries|, i requires 0 <= i < |s.subqueries| =>
        SubQueryReport(s.subqueries[i].subquery, s.subqueries[i].verdict, Refs(s.subqueries[i].evidence))),
      s.passes, first, final, final - first)
  }

  function PeripheralGaps(subs: seq<SubQueryState>): seq<string> {
    if subs == [] then []
    else
      (if !subs[0].subquery.isCritical && !subs[0].IsSufficient() then [subs[0].subquery.purpose] else [])
      + PeripheralGaps(subs[1..])
  }

  function BuildAnswer(s: State): Answer {
    Answer(
      s.verified,
      if s.synthesis.Some? then s.synthesis.value.explicacion else "",
      if s.synthesis.Some? then s.synthesis.value.accion else [],
      s.targetDate, s.notices, s.assumptions,
      if s.outcome == Some(PARTIAL_ANSWER) then PeripheralGaps(s.subqueries) else [])
  }

  function BuildResponse(s: State): AskResponse {
    if s.outcome == Some(ROUTER_REJECTION) then
      AskResponse(ROUTER_REJECTION, None, None,
                  Some(Rejection(if s.routerMessage.Some? then s.routerMessage.value else "")), None, None)
    else
      var trace := Some(BuildAgenticTrace(s));
      if s.outcome == Some(ABSTENTION) then
        var reason := if s.abstentionReason.Some? then s.abstentionReason.value else NO_VERIFIABLE_CITATION;
        AskResponse(ABSTENTION, None, Some(Abstention(reason)), None, None, trace)
      else
        AskResponse(if s.outcome.Some? then s.outcome.value else ANSWER, Some(BuildAnswer(s)), None, None, None, trace)
  }

  /** The response read off a checkpoint: the pending question if there is one, else the outcome. */
  function ResponseOf(env: Env, c: Config): AskResponse {
    var asked := BranchToAsk(c.state, env.branches);
    if c.node == Paused && asked.Some? then
      AskResponse(CLARIFICATION, None, None, None,
                  Some(Clarification(asked.value.id, asked.value.question)), Some(BuildAgenticTrace(c.state)))
    else BuildResponse(c.state)
  }

  // ---------- The Mode 1 guardrail over a response ----------

  function EvidenceRefs(response: AskResponse): set<BlockRef> {
    if response.agentic.None? then {}
    else set i, j | 0 <= i < |response.agentic.value.subqueries| && 0 <= j < |response.agentic.value.subqueries[i].evidence|
           :: response.agentic.value.subqueries[i].evidence[j]
  }

  function ReadVerificationDate(response: AskResponse, caseDate: Date): Date {
    if response.answer.None? then caseDate else response.answer.value.fechaObjetivo
  }

  ghost function CheckCaseCitations(env: Env, caseId: string, response: AskResponse, caseDate: Date): seq<Violation> {
    if response.answer.None? then []
    else Violations(env.tools, env.store, ReadVerificationDate(response, caseDate), EvidenceRefs(response),
                    caseId, response.answer.value.fundamento)
  }
}
