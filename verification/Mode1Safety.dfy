/** What is true of every run of the Mode 1 graph, from the first node to the response. */
module Mode1Safety {
  import opened Wrappers
  import opened Typography
  import opened BlockRefs
  import opened Corpus
  import opened Verifier
  import opened Guardrail
  import opened Notices
  import opened Mode1Graph
  import opened Mode1Loop

  lemma ReachableInvariant(env: Env, question: string, today: Date, replies: seq<Reply>)
    ensures Inv(env, Run(env, Start(question, today), replies))
  {
    RunKeepsInvariant(env, Start(question, today), replies);
  }

  lemma {:induction false} RunsCompose(env: Env, c: Config, a: seq<Reply>, b: seq<Reply>)
    ensures Run(env, c, a + b) == Run(env, Run(env, c, a), b)
    decreases |b|
  {
    if b == [] {
      assert a + b == a;
    } else {
      assert (a + b)[..|a + b| - 1] == a + b[..|b| - 1];
      RunsCompose(env, c, a, b[..|b| - 1]);
    }
  }

  // ---------- What is settled before the first retrieval stays ----------

  predicate Situated(c: Config) {
    c.node !in {Route, Node.Plan, Clarify, Paused}
  }

  ghost predicate SameSituation(s: State, t: State) {
    && t.today == s.today && t.targetDate == s.targetDate && t.targetDatePrecision == s.targetDatePrecision
    && t.assumptions == s.assumptions && t.caseFacts == s.caseFacts && t.unresolvedBranchIds == s.unresolvedBranchIds
  }

  lemma StepKeepsSituation(env: Env, c: Config, r: Reply)
    requires Situated(c)
    ensures Situated(Step(env, c, r)) && SameSituation(c.state, Step(env, c, r).state)
    ensures Advances(c.state.subqueries, Step(env, c, r).state.subqueries)
  {
    match c.node
    case Retrieve =>
    case Critique => CritiqueAdvances(c.state, r.critique);
    case Synthesize => SynthesizeEffect(env, c.state, r.synthesis);
    case Gate =>
    case Notify => NotifyEffect(env, c.state);
    case End =>
  }

  lemma AdvancesTransitive(a: seq<SubQueryState>, b: seq<SubQueryState>, c: seq<SubQueryState>)
    requires Advances(a, b) && Advances(b, c)
    ensures Advances(a, c)
  {
  }

  /**
    From the first retrieval on, in every continuation of every run, the target date, the case
    facts and the assumptions never change, and a sub-query once ruled sufficient keeps its
    verdict and its evidence.
  */
  lemma {:induction false} SettledForGood(env: Env, c: Config, replies: seq<Reply>)
    requires Situated(c)
    ensures Situated(Run(env, c, replies)) && SameSituation(c.state, Run(env, c, replies).state)
    ensures Advances(c.state.subqueries, Run(env, c, replies).state.subqueries)
    decreases |replies|
  {
    if replies != [] {
      var init := replies[..|replies| - 1];
      SettledForGood(env, c, init);
      var mid := Run(env, c, init);
      StepKeepsSituation(env, mid, replies[|replies| - 1]);
      AdvancesTransitive(c.state.subqueries, mid.state.subqueries, Run(env, c, replies).state.subqueries);
    }
  }

  // ---------- The loop ----------

  /** Exactly k passes: k is the first that left no gap, or the third; the sufficient ids only grew. */
  ghost predicate RanExactly(s: State, k: nat) {
    && 1 <= k == |s.passes| <= 3
    && (forall i :: 0 <= i < k - 1 ==> s.passes[i].insufficientIds != [])
    && (s.passes[k - 1].insufficientIds == [] || k == 3)
    && (s.passes[k - 1].insufficientIds == [] <==> s.AllSufficient())
    && (forall i :: 0 <= i < k ==> s.passes[i].passNumber == i + 1 && Partitions(s.passes[i], IdsOf(s.subqueries)))
    && (forall i, j :: 0 <= i < j < k ==> Grows(s.passes[i].sufficientIds, s.passes[j].sufficientIds))
  }

  lemma ExhaustedRanExactly(s: State)
    requires Exhausted(s)
    ensures RanExactly(s, |s.passes|)
  {
    NoneInsufficient(s.subqueries);
  }

  lemma DeltaIsNotNegative(s: State)
    requires s.passes != [] && AllGrow(s.passes)
    ensures BuildAgenticTrace(s).agenticDelta >= 0
  {
    assert |s.passes| > 1 ==> Grows(s.passes[0].sufficientIds, s.passes[|s.passes| - 1].sufficientIds);
  }

  /**
    A run that was not rejected ran exactly k passes: k is the first pass that left no gap, or the
    third. Each pass splits the same ids, the sufficient ones only grow, and the agentic delta is
    never negative.
  */
  lemma LoopRunsExactly(env: Env, question: string, today: Date, replies: seq<Reply>)
    requires Run(env, Start(question, today), replies).node == End
    requires Run(env, Start(question, today), replies).state.outcome != Some(ROUTER_REJECTION)
    ensures var s := Run(env, Start(question, today), replies).state;
      RanExactly(s, |s.passes|) && BuildAgenticTrace(s).agenticDelta >= 0
  {
    ReachableInvariant(env, question, today, replies);
    var s := Run(env, Start(question, today), replies).state;
    ExhaustedRanExactly(s);
    DeltaIsNotNegative(s);
  }

  // ---------- What a pass works on ----------

  /**
    At every critique of every run, a sub-query not yet sufficient holds exactly what this pass retrieved
    for its current text: evidence is replaced, never accumulated.
  */
  lemma EvidenceIsTheLast(env: Env, question: string, today: Date, replies: seq<Reply>, i: nat)
    requires Run(env, Start(question, today), replies).node == Critique
    requires i < |Run(env, Start(question, today), replies).state.subqueries|
    ensures |replies| >= 3
    ensures var subs := Run(env, Start(question, today), replies).state.subqueries;
      var before := Run(env, Start(question, today), replies[..|replies| - 1]).state.subqueries;
      && |before| == |subs|
      && (if subs[i].IsSufficient() then subs[i] == before[i]
          else subs[i] == before[i].(evidence := replies[|replies| - 1].retrieved(before[i])))
  {
    RunPosition(env, question, today, replies);
    var init := replies[..|replies| - 1];
    CameFromRetrieve(env, Run(env, Start(question, today), init), replies[|replies| - 1]);
  }

  lemma CameFromRetrieve(env: Env, c: Config, r: Reply)
    requires Step(env, c, r).node == Critique
    ensures c.node == Retrieve && Step(env, c, r).state == RetrieveNode(c.state, r.retrieved)
  {
  }

  predicate Rules(ruling: SubQueryCritique, id: string, text: string) {
    ruling.subqueryId == id && ruling.verdict == INSUFFICIENT && Strip(ruling.reformulation) == text != ""
  }

  lemma {:induction false} RulingIsListed(rulings: seq<SubQueryCritique>, id: string)
    requires RulingFor(rulings, id).Some?
    ensures RulingFor(rulings, id).value in rulings && RulingFor(rulings, id).value.subqueryId == id
  {
    if rulings[|rulings| - 1].subqueryId != id { RulingIsListed(rulings[..|rulings| - 1], id); }
  }

  /** A critique rewrites a sub-query's text only to a reformulation it gave while ruling it insufficient. */
  lemma RewrittenOnlyWhenInsufficient(s: State, rulings: seq<SubQueryCritique>, i: nat)
    requires i < |s.subqueries| && CritiqueNode(s, rulings).subqueries[i].queryText != s.subqueries[i].queryText
    ensures var sub := CritiqueNode(s, rulings).subqueries[i];
      && !s.subqueries[i].IsSufficient() && sub.verdict == Some(INSUFFICIENT)
      && exists ruling :: ruling in rulings && Rules(ruling, sub.subquery.id, sub.queryText)
  {
    var id := s.subqueries[i].subquery.id;
    RulingIsListed(rulings, id);
    assert Rules(RulingFor(rulings, id).value, id, CritiqueNode(s, rulings).subqueries[i].queryText);
  }

  // ---------- The payload ----------

  function Payloads(r: AskResponse): nat {
    (if r.answer.Some? then 1 else 0) + (if r.abstention.Some? then 1 else 0) +
    (if r.rejection.Some? then 1 else 0) + (if r.clarification.Some? then 1 else 0)
  }

  lemma {:induction false} GapsIffUngrounded(subs: seq<SubQueryState>)
    ensures PeripheralGaps(subs) != [] <==> HasUngrounded(subs, false)
  {
    if subs != [] {
      GapsIffUngrounded(subs[1..]);
      assert forall i :: 0 < i < |subs| ==> subs[i] == subs[1..][i - 1];
      if HasUngrounded(subs[1..], false) {
        var i :| 0 <= i < |subs[1..]| && !subs[1..][i].subquery.isCritical && !subs[1..][i].IsSufficient();
        assert !subs[i + 1].subquery.isCritical && !subs[i + 1].IsSufficient();
      }
    }
  }

  function AbstentionCause(s: State): AbstentionReason {
    if TotalEvidence(s.subqueries) == 0 then NO_EVIDENCE
    else if s.verified == [] then NO_VERIFIABLE_CITATION else INSUFFICIENT_CORE
  }

  /** What a response says of the state it was built from. */
  ghost predicate PayloadFits(s: State, r: AskResponse) {
    && Payloads(r) == 1
    && (r.clarification.Some? <==> r.outcome == CLARIFICATION)
    && (r.rejection.Some? <==> r.outcome == ROUTER_REJECTION)
    && (r.abstention.Some? <==> r.outcome == ABSTENTION)
    && (r.answer.Some? <==> r.outcome == ANSWER || r.outcome == PARTIAL_ANSWER)
    && (r.answer.Some? ==> r.answer.value.fundamento != [] && !HasUngrounded(s.subqueries, true))
    && (r.outcome == ANSWER ==> s.AllSufficient() && r.answer.value.huecosDeclarados == [])
    && (r.outcome == PARTIAL_ANSWER ==> r.answer.value.huecosDeclarados != [])
    && (r.abstention.Some? ==>
      r.abstention.value.reason == AbstentionCause(s) &&
      (AbstentionCause(s) == INSUFFICIENT_CORE ==> HasUngrounded(s.subqueries, true)))
    && (r.rejection.Some? ==>
      s.subqueries == [] && s.passes == [] && r.agentic.None? && r.rejection.value.message != "")
  }

  lemma RejectedPayload(s: State)
    requires Rejected(s)
    ensures PayloadFits(s, BuildResponse(s)) && BuildResponse(s).outcome == ROUTER_REJECTION
  {
  }

  lemma DecidedPayload(s: State)
    requires Decided(s) && s.subqueries != []
    ensures PayloadFits(s, BuildResponse(s)) && BuildResponse(s).outcome != CLARIFICATION
  {
    GapsIffUngrounded(s.subqueries);
    assert s.outcome == Some(ANSWER) ==> s.AllSufficient();
  }

  /**
    Every ended or paused run answers with exactly one payload, of the kind its outcome names. A
    full answer has a verified citation and every sub-query sufficient; a partial one a verified
    citation, every critical sub-query sufficient and a gap it declares; a rejection no plan, no
    evidence and no pass.
  */
  lemma OnePayload(env: Env, question: string, today: Date, replies: seq<Reply>)
    requires Run(env, Start(question, today), replies).node in {Paused, End}
    ensures var c := Run(env, Start(question, today), replies);
      PayloadFits(c.state, ResponseOf(env, c)) && (ResponseOf(env, c).outcome == CLARIFICATION <==> c.node == Paused)
  {
    ReachableInvariant(env, question, today, replies);
    var c := Run(env, Start(question, today), replies);
    if c.node == End {
      EndedState(env, c.state);
      if Rejected(c.state) { RejectedPayload(c.state); } else { DecidedPayload(c.state); }
    } else {
      PausedPayload(env, c.state);
    }
  }

  lemma EndedState(env: Env, s: State)
    requires Inv(env, Config(End, s))
    ensures Rejected(s) || (Decided(s) && s.subqueries != [])
  {
  }

  lemma PausedPayload(env: Env, s: State)
    requires Inv(env, Config(Paused, s))
    ensures var r := ResponseOf(env, Config(Paused, s)); PayloadFits(s, r) && r.outcome == CLARIFICATION
  {
  }

  // ---------- Critical sub-queries ----------

  ghost predicate HasCritical(subs: seq<SubQueryState>) {
    exists i :: 0 <= i < |subs| && subs[i].subquery.isCritical
  }

  /**
    The plan has a critical sub-query exactly when the model reports one among its first four, or
    reports none at all: a reply with peripheral ones only leaves the run without a core.
  */
  lemma CriticalIffReported(env: Env, s: State, plan: Plan)
    ensures HasCritical(PlannerNode(env, s, plan).subqueries) <==>
      plan.subqueries == [] || exists i :: 0 <= i < |plan.subqueries| && i < MAX_SUBQUERIES && plan.subqueries[i].isCritical
  {
    var subs := PlannerNode(env, s, plan).subqueries;
    if plan.subqueries == [] {
      assert ToStates(plan.subqueries) == [] && subs[0].subquery.isCritical;
    } else {
      assert subs == ToStates(plan.subqueries);
      assert forall i :: 0 <= i < |subs| ==> subs[i] == PlannedState(plan.subqueries[i], i + 1);
      if exists i :: 0 <= i < |plan.subqueries| && i < MAX_SUBQUERIES && plan.subqueries[i].isCritical {
        var i :| 0 <= i < |plan.subqueries| && i < MAX_SUBQUERIES && plan.subqueries[i].isCritical;
        assert subs[i].subquery.isCritical;
      }
    }
  }

  /** One peripheral sub-query and nothing else: the plan the source's promise does not cover. */
  lemma PeripheralPlan(env: Env, s: State) returns (plan: Plan)
    ensures !HasCritical(PlannerNode(env, s, plan).subqueries)
  {
    plan := Plan.Plan([PlannedSubQuery("", "", false)], [], "", []);
    CriticalIffReported(env, s, plan);
  }

  // ---------- Branches, facts and assumptions ----------

  /** The branch a run asks about: the first declared one the plan leaves open, unless the question is informational. */
  function Asked(env: Env, queryType: Option<QueryType>, plan: Plan): Option<Branch> {
    if queryType == Some(INFORMATIONAL) then None
    else FirstOpen(env.branches, DeclaredOrder(plan.unresolvedBranchIds, env.branches))
  }

  /** How the branches the planner left open ended: the asked one as a fact if it was resolved, the rest as assumptions. */
  ghost predicate Settled(env: Env, s: State, plan: Plan, asked: Option<Branch>, resolution: Option<Resolution>) {
    && s.unresolvedBranchIds == DeclaredOrder(plan.unresolvedBranchIds, env.branches)
    && s.caseFacts == (if resolution.Some? then [resolution.value.fact] else [])
    && s.assumptions == plan.assumptions + Assumptions(OpenBranches(env.branches, s.unresolvedBranchIds, ResolvedId(asked, resolution)))
    && TargetDate(s.targetDate, s.targetDatePrecision) == SettledDate(env, s.today, plan, resolution)
  }

  /** The date a run answers at: the one the user's reply sets, else the one the plan reads in the question. */
  function SettledDate(env: Env, today: Date, plan: Plan, resolution: Option<Resolution>): TargetDate {
    if resolution.Some? && resolution.value.target.Some? then resolution.value.target.value
    else ResolveTargetDate(env, plan.targetDateReference, today)
  }

  function ResolvedId(asked: Option<Branch>, resolution: Option<Resolution>): Option<string> {
    if asked.Some? && resolution.Some? then Some(asked.value.id) else None
  }

  /** Where a run can be after each of its first replies. */
  lemma {:induction false} RunPosition(env: Env, question: string, today: Date, replies: seq<Reply>)
    ensures var node := Run(env, Start(question, today), replies).node;
      && (node == Route <==> |replies| == 0) && (node == Node.Plan ==> |replies| == 1)
      && (node == Clarify ==> |replies| == 2) && (node == Paused ==> |replies| == 3)
      && (node !in {Route, Node.Plan, Clarify, End} ==> |replies| >= 3)
    decreases |replies|
  {
    if replies != [] {
      RunPosition(env, question, today, replies[..|replies| - 1]);
    }
  }

  lemma {:induction false} PlanIsRead(env: Env, question: string, today: Date, replies: seq<Reply>)
    requires Run(env, Start(question, today), replies).node in {Clarify, Paused}
    ensures |replies| >= 2
    ensures var s := Run(env, Start(question, today), replies).state;
      s.assumptions == replies[1].plan.assumptions && s.caseFacts == [] &&
      s.unresolvedBranchIds == DeclaredOrder(replies[1].plan.unresolvedBranchIds, env.branches) &&
      TargetDate(s.targetDate, s.targetDatePrecision) == ResolveTargetDate(env, replies[1].plan.targetDateReference, s.today)
    decreases |replies|
  {
    ReachableInvariant(env, question, today, replies);
    RunPosition(env, question, today, replies);
    var init := replies[..|replies| - 1];
    RunPosition(env, question, today, init);
    if Run(env, Start(question, today), init).node == Clarify {
      PlanIsRead(env, question, today, init);
    }
  }

  lemma SettledStays(env: Env, s: State, t: State, plan: Plan, asked: Option<Branch>, resolution: Option<Resolution>)
    requires Settled(env, s, plan, asked, resolution) && SameSituation(s, t)
    ensures Settled(env, t, plan, asked, resolution)
  {
  }

  /** The state the planner left, before anything is asked. */
  ghost predicate AsPlanned(env: Env, s: State, plan: Plan) {
    && s.assumptions == plan.assumptions && s.caseFacts == [] && !s.clarificationAsked
    && s.unresolvedBranchIds == DeclaredOrder(plan.unresolvedBranchIds, env.branches)
    && TargetDate(s.targetDate, s.targetDatePrecision) == ResolveTargetDate(env, plan.targetDateReference, s.today)
  }

  lemma SituatedIsSettled(env: Env, s: State, plan: Plan, asked: Option<Branch>, resolution: Option<Resolution>)
    requires AsPlanned(env, s, plan)
    ensures Settled(env, Situate(env, s, asked, resolution), plan, asked, resolution)
  {
    if resolution.Some? {
      assert [] + [resolution.value.fact] == [resolution.value.fact];
    }
  }

  /** A run about to leave the clarify node is still as it was planned, and asks what its plan leaves open. */
  lemma AskedAsPlanned(env: Env, question: string, today: Date, replies: seq<Reply>)
    requires Run(env, Start(question, today), replies).node in {Clarify, Paused}
    ensures |replies| >= 2 && AsPlanned(env, Run(env, Start(question, today), replies).state, replies[1].plan)
    ensures var c := Run(env, Start(question, today), replies);
      && BranchToAsk(c.state, env.branches) == Asked(env, Some(replies[0].router.queryType), replies[1].plan)
      && (c.node == Paused ==> BranchToAsk(c.state, env.branches).Some?)
  {
    PlanIsRead(env, question, today, replies);
    IntentIsRead(env, question, today, replies);
    ReachableInvariant(env, question, today, replies);
  }

  /** The intent of a run is the router's first reply. */
  lemma {:induction false} IntentIsRead(env: Env, question: string, today: Date, replies: seq<Reply>)
    requires replies != []
    ensures Run(env, Start(question, today), replies).state.queryType == Some(replies[0].router.queryType)
    decreases |replies|
  {
    var init := replies[..|replies| - 1];
    RunPosition(env, question, today, init);
    if init != [] { IntentIsRead(env, question, today, init); }
  }

  /** What a step past the clarify node came from. */
  lemma StepBefore(env: Env, c: Config, r: Reply)
    requires Inv(env, c) && Situated(Step(env, c, r)) && Step(env, c, r).state.outcome != Some(ROUTER_REJECTION)
    ensures if Situated(c) then c.state.outcome != Some(ROUTER_REJECTION)
            else c.node == Paused || (c.node == Clarify && BranchToAsk(c.state, env.branches).None?)
  {
    if Situated(c) { StepKeepsIntent(env, c, r); }
  }

  /** What a run asks, as its replies decide it. */
  function AskedBy(env: Env, replies: seq<Reply>): Option<Branch>
    requires |replies| >= 2
  {
    Asked(env, Some(replies[0].router.queryType), replies[1].plan)
  }

  /** What the user's answer resolves, if anything was asked. */
  function ResolvedBy(env: Env, today: Date, replies: seq<Reply>): Option<Resolution>
    requires |replies| >= 2 && (AskedBy(env, replies).Some? ==> |replies| >= 4)
  {
    if AskedBy(env, replies).None? then None else ResolveBranch(env, today, AskedBy(env, replies).value, replies[3].answer)
  }

  /** Leaving the clarify node settles every branch. */
  lemma StepSettles(env: Env, question: string, today: Date, replies: seq<Reply>)
    requires |replies| >= 3
    requires var c := Run(env, Start(question, today), replies[..|replies| - 1]);
      c.node == Paused || (c.node == Clarify && BranchToAsk(c.state, env.branches).None?)
    ensures AskedBy(env, replies).Some? ==> |replies| >= 4
    ensures Settled(env, Run(env, Start(question, today), replies).state, replies[1].plan, AskedBy(env, replies),
                    ResolvedBy(env, today, replies))
  {
    var init, last := replies[..|replies| - 1], replies[|replies| - 1];
    var c := Run(env, Start(question, today), init);
    RunPosition(env, question, today, init);
    AskedAsPlanned(env, question, today, init);
    ClockNeverMoves(env, Start(question, today), init);
    SituatedIsSettled(env, c.state, replies[1].plan, AskedBy(env, replies), ResolvedBy(env, today, replies));
  }

  /**
    In every run past the clarify node, each branch the planner left open ended as the one fact the
    user's reply resolved, or as its stated assumption; none is dropped and none is both. Which of
    the two is decided by the replies: the plan, the intent and the answer.
  */
  lemma {:induction false} BranchesAreSettled(env: Env, question: string, today: Date, replies: seq<Reply>)
    requires Situated(Run(env, Start(question, today), replies))
    requires Run(env, Start(question, today), replies).state.outcome != Some(ROUTER_REJECTION)
    ensures |replies| >= 3 && (AskedBy(env, replies).Some? ==> |replies| >= 4)
    ensures Settled(env, Run(env, Start(question, today), replies).state, replies[1].plan, AskedBy(env, replies),
                    ResolvedBy(env, today, replies))
    decreases |replies|
  {
    RunPosition(env, question, today, replies);
    var init, last := replies[..|replies| - 1], replies[|replies| - 1];
    var c := Run(env, Start(question, today), init);
    ReachableInvariant(env, question, today, init);
    StepBefore(env, c, last);
    RunPosition(env, question, today, init);
    if Situated(c) {
      BranchesAreSettled(env, question, today, init);
      StepKeepsSituation(env, c, last);
      SettledStays(env, c.state, Step(env, c, last).state, init[1].plan, AskedBy(env, init), ResolvedBy(env, today, init));
    } else {
      StepSettles(env, question, today, replies);
    }
  }

  lemma StepKeepsIntent(env: Env, c: Config, r: Reply)
    requires Situated(c)
    ensures Step(env, c, r).state.queryType == c.state.queryType
    ensures c.state.outcome == Some(ROUTER_REJECTION) && c.node == End ==> Step(env, c, r) == c
    ensures Step(env, c, r).state.outcome != Some(ROUTER_REJECTION) ==>
      c.node == Gate || c.state.outcome != Some(ROUTER_REJECTION)
  {
  }

  /** Which branches an assumption is stated for: the open ones but the resolved one, each in turn. */
  lemma {:induction false} OpenBranchesAreTheRest(branches: seq<Branch>, unresolved: seq<string>, resolved: Option<string>)
    ensures forall b :: b in OpenBranches(branches, unresolved, resolved) <==>
      b in branches && b.id in unresolved && resolved != Some(b.id)
    ensures |Assumptions(OpenBranches(branches, unresolved, resolved))| == |OpenBranches(branches, unresolved, resolved)|
  {
    if branches != [] {
      OpenBranchesAreTheRest(branches[1..], unresolved, resolved);
      assert forall b :: b in branches <==> b == branches[0] || b in branches[1..];
      AssumptionsLength(OpenBranches(branches, unresolved, resolved));
    }
  }

  lemma {:induction false} AssumptionsLength(branches: seq<Branch>)
    ensures |Assumptions(branches)| == |branches|
    ensures forall i :: 0 <= i < |branches| ==> Assumptions(branches)[i] == branches[i].assumption
  {
    if branches != [] { AssumptionsLength(branches[1..]); }
  }

  /** No run asks twice: two moments at which it is paused are the same moment. */
  lemma AsksAtMostOnce(env: Env, question: string, today: Date, replies: seq<Reply>, i: nat, j: nat)
    requires i <= j <= |replies|
    requires Run(env, Start(question, today), replies[..i]).node == Paused
    requires Run(env, Start(question, today), replies[..j]).node == Paused
    ensures i == j
  {
    RunPosition(env, question, today, replies[..i]);
    RunPosition(env, question, today, replies[..j]);
  }

  /** No run ever resolves the corpus past its own clock. */
  lemma {:induction false} NeverPastToday(env: Env, question: string, today: Date, replies: seq<Reply>)
    ensures var s := Run(env, Start(question, today), replies).state; s.targetDate <= s.today == today
  {
    ReachableInvariant(env, question, today, replies);
    ClockNeverMoves(env, Start(question, today), replies);
  }

  lemma {:induction false} ClockNeverMoves(env: Env, c: Config, replies: seq<Reply>)
    ensures Run(env, c, replies).state.today == c.state.today
    decreases |replies|
  {
    if replies != [] {
      var init := replies[..|replies| - 1];
      ClockNeverMoves(env, c, init);
      StepKeepsClock(env, Run(env, c, init), replies[|replies| - 1]);
    }
  }

  lemma StepKeepsClock(env: Env, c: Config, r: Reply)
    ensures Step(env, c, r).state.today == c.state.today
  {
  }
}
