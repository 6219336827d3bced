/** How a run ends: which outcome, what it shows, what it declares missing, and the plan it kept to. */
module Mode1Outcomes {
  import opened Wrappers
  import opened Lists
  import opened Typography
  import opened BlockRefs
  import opened Corpus
  import opened Verifier
  import opened Guardrail
  import opened Mode1Graph
  import opened Mode1Loop
  import opened Mode1Safety

  // ---------- The outcome ----------

  lemma {:induction false} NoEvidenceIffEmpty(subs: seq<SubQueryState>)
    ensures TotalEvidence(subs) == 0 <==> forall i :: 0 <= i < |subs| ==> subs[i].evidence == []
  {
    if subs != [] {
      NoEvidenceIffEmpty(subs[1..]);
      assert forall i :: 1 <= i < |subs| ==> subs[i] == subs[1..][i - 1];
    }
  }

  /** Some sub-query of the kind was left without a sufficient ruling. */
  ghost predicate LeftGap(subs: seq<SubQueryState>, critical: bool) {
    exists i :: 0 <= i < |subs| && subs[i].subquery.isCritical == critical && subs[i].verdict != Some(SUFFICIENT)
  }

  /** What a run that reached the gate answers with, from its evidence, its surviving citations and its gaps. */
  ghost predicate OutcomeFits(s: State, r: AskResponse) {
    var nothing := forall i :: 0 <= i < |s.subqueries| ==> s.subqueries[i].evidence == [];
    && (r.outcome == ABSTENTION <==> nothing || s.verified == [] || LeftGap(s.subqueries, true))
    && (r.outcome == PARTIAL_ANSWER <==>
          !nothing && s.verified != [] && !LeftGap(s.subqueries, true) && LeftGap(s.subqueries, false))
    && (r.outcome == ANSWER <==>
          !nothing && s.verified != [] && !LeftGap(s.subqueries, true) && !LeftGap(s.subqueries, false))
    && (r.abstention == Some(Abstention(NO_EVIDENCE)) <==> nothing)
    && (r.abstention == Some(Abstention(NO_VERIFIABLE_CITATION)) <==> !nothing && s.verified == [])
    && (r.abstention == Some(Abstention(INSUFFICIENT_CORE)) <==>
          !nothing && s.verified != [] && LeftGap(s.subqueries, true))
  }

  lemma DecidedFits(s: State)
    requires Decided(s) && s.outcome != Some(ROUTER_REJECTION)
    ensures OutcomeFits(s, BuildResponse(s))
  {
    NoEvidenceIffEmpty(s.subqueries);
    assert LeftGap(s.subqueries, true) <==> HasUngrounded(s.subqueries, true);
    assert LeftGap(s.subqueries, false) <==> HasUngrounded(s.subqueries, false);
  }

  /** A run is rejected exactly when the router puts the question out of scope, with its message or the default one. */
  lemma {:induction false} RejectedIffOutOfScope(env: Env, question: string, today: Date, replies: seq<Reply>)
    requires replies != []
    ensures var s := Run(env, Start(question, today), replies).state;
      var message := Strip(replies[0].router.rejectionMessage);
      && (s.outcome == Some(ROUTER_REJECTION) <==> replies[0].router.scope == OUT_OF_SCOPE)
      && (replies[0].router.scope == OUT_OF_SCOPE ==>
            && Run(env, Start(question, today), replies).node == End
            && s.routerMessage == Some(if message != "" then message else DEFAULT_REJECTION))
    decreases |replies|
  {
    var init, last := replies[..|replies| - 1], replies[|replies| - 1];
    RunPosition(env, question, today, init);
    if init != [] {
      RejectedIffOutOfScope(env, question, today, init);
      assert init[0] == replies[0];
      NeverRejectedLater(env, Run(env, Start(question, today), init), last);
    }
  }

  lemma NeverRejectedLater(env: Env, c: Config, r: Reply)
    requires c.node != Route
    ensures c.node != Gate ==> (Step(env, c, r).state.outcome == Some(ROUTER_REJECTION) <==> c.state.outcome == Some(ROUTER_REJECTION))
    ensures c.node == Gate ==> Step(env, c, r).state.outcome != Some(ROUTER_REJECTION)
    ensures c.node == End ==> Step(env, c, r) == c
  {
  }

  /** In every ended run the outcome, and the reason of an abstention, are those its evidence, citations and gaps call for. */
  lemma OutcomeIs(env: Env, question: string, today: Date, replies: seq<Reply>)
    requires Run(env, Start(question, today), replies).node == End
    ensures replies != []
    ensures var s := Run(env, Start(question, today), replies).state;
      if replies[0].router.scope == OUT_OF_SCOPE
      then BuildResponse(s).outcome == ROUTER_REJECTION && BuildResponse(s).rejection.Some?
      else OutcomeFits(s, BuildResponse(s))
  {
    var c := Run(env, Start(question, today), replies);
    RunPosition(env, question, today, replies);
    RejectedIffOutOfScope(env, question, today, replies);
    ReachableInvariant(env, question, today, replies);
    EndedState(env, c.state);
    if c.state.outcome != Some(ROUTER_REJECTION) { DecidedFits(c.state); }
  }

  // ---------- What is shown ----------

  /** The places of the results that were not discarded. */
  function KeptPlaces(results: seq<CitationResult>): seq<int> {
    if results == [] then []
    else KeptPlaces(results[..|results| - 1]) + (if results[|results| - 1].verdict != DISCARDED then [|results| - 1] else [])
  }

  ghost predicate ShownAt(shown: seq<VerifiedCitation>, results: seq<CitationResult>, places: seq<int>) {
    && |shown| == |places|
    && (forall i :: 0 <= i < |places| ==>
          && 0 <= places[i] < |results| && results[places[i]].anchor.Some?
          && shown[i] == Shown(results[places[i]]))
    && (forall i, j :: 0 <= i < j < |places| ==> places[i] < places[j])
    && (forall k :: k in places <==> 0 <= k < |results| && results[k].verdict != DISCARDED)
  }

  lemma ShownOneMore(shown: seq<VerifiedCitation>, results: seq<CitationResult>, places: seq<int>)
    requires results != [] && ShownAt(shown, results[..|results| - 1], places)
    requires results[|results| - 1].verdict != DISCARDED ==> results[|results| - 1].anchor.Some?
    ensures var last := results[|results| - 1];
      if last.verdict != DISCARDED then ShownAt(shown + [Shown(last)], results, places + [|results| - 1])
      else ShownAt(shown, results, places)
  {
  }

  lemma {:induction false} HeldAreKept(results: seq<CitationResult>)
    requires forall i :: 0 <= i < |results| && results[i].verdict != DISCARDED ==> results[i].anchor.Some?
    ensures ShownAt(Held(results), results, KeptPlaces(results))
  {
    if results != [] {
      var init := results[..|results| - 1];
      HeldAreKept(init);
      ShownOneMore(Held(init), results, KeptPlaces(init));
      AppendNothing(Held(init));
      AppendNothing(KeptPlaces(init));
    }
  }

  /** What synthesis shows of the citations proposed: each one that is not discarded, once, in the order proposed. */
  lemma SurvivorsAreThoseKept(env: Env, subs: seq<SubQueryState>, date: Date, citations: seq<ProposedCitation>)
    returns (places: seq<int>)
    ensures ShownAt(Survivors(env, subs, date, citations),
                    VerifyAll(env.tools, env.store, date, Refs(UnionEvidence(subs)), citations), places)
  {
    var results := VerifyAll(env.tools, env.store, date, Refs(UnionEvidence(subs)), citations);
    HeldCarryAnchors(env.tools, env.store, date, Refs(UnionEvidence(subs)), citations);
    HeldAreKept(results);
    places := KeptPlaces(results);
  }

  /** A partial answer declares the purpose of each peripheral sub-query left open, and of no other. */
  lemma {:induction false} GapsAre(subs: seq<SubQueryState>, purpose: string)
    ensures purpose in PeripheralGaps(subs) <==>
      exists i :: 0 <= i < |subs| && !subs[i].subquery.isCritical && subs[i].verdict != Some(SUFFICIENT) &&
                  subs[i].subquery.purpose == purpose
  {
    if subs != [] {
      GapsAre(subs[1..], purpose);
      assert forall i :: 1 <= i < |subs| ==> subs[i] == subs[1..][i - 1];
      if i :| 0 <= i < |subs[1..]| && !subs[1..][i].subquery.isCritical && subs[1..][i].verdict != Some(SUFFICIENT) &&
              subs[1..][i].subquery.purpose == purpose {
        assert subs[i + 1].subquery.purpose == purpose;
      }
    }
  }

  // ---------- What a critique rules ----------

  ghost predicate LastRuling(rulings: seq<SubQueryCritique>, id: string, k: int) {
    0 <= k < |rulings| && rulings[k].subqueryId == id && forall j :: k < j < |rulings| ==> rulings[j].subqueryId != id
  }

  lemma {:induction false} RulingForIs(rulings: seq<SubQueryCritique>, id: string) returns (k: int)
    ensures RulingFor(rulings, id).Some? <==> LastRuling(rulings, id, k)
    ensures RulingFor(rulings, id).Some? ==> RulingFor(rulings, id) == Some(rulings[k])
    ensures RulingFor(rulings, id).None? ==> forall j :: 0 <= j < |rulings| ==> rulings[j].subqueryId != id
  {
    k := |rulings| - 1;
    if rulings != [] && rulings[k].subqueryId != id {
      k := RulingForIs(rulings[..|rulings| - 1], id);
      assert forall j :: 0 <= j < |rulings| - 1 ==> rulings[j] == rulings[..|rulings| - 1][j];
    }
  }

  /**
    A critique leaves a sufficient sub-query as it is, and one it does not name; another one takes the
    verdict of the last ruling that names it, and its reformulation if that rules it insufficient.
  */
  lemma CritiqueRules(s: State, rulings: seq<SubQueryCritique>, i: nat, k: int)
    requires i < |s.subqueries|
    ensures var before, after := s.subqueries[i], CritiqueNode(s, rulings).subqueries[i];
      && (before.verdict == Some(SUFFICIENT) || (forall j :: 0 <= j < |rulings| ==> rulings[j].subqueryId != before.subquery.id) ==>
            after == before)
      && (before.verdict != Some(SUFFICIENT) && LastRuling(rulings, before.subquery.id, k) ==>
            && after.verdict == Some(rulings[k].verdict) && after.evidence == before.evidence && after.subquery == before.subquery
            && after.queryText == (if rulings[k].verdict == INSUFFICIENT && Strip(rulings[k].reformulation) != ""
                                   then Strip(rulings[k].reformulation) else before.queryText))
  {
    var id := s.subqueries[i].subquery.id;
    var last := RulingForIs(rulings, id);
    if LastRuling(rulings, id, k) {
      assert k == last;
    }
  }

  // ---------- The plan is kept ----------

  ghost predicate SamePlan(a: seq<SubQueryState>, b: seq<SubQueryState>) {
    |b| == |a| && forall i :: 0 <= i < |a| ==> b[i].subquery == a[i].subquery
  }

  lemma WorkKeepsPlan(s: State, r: Reply)
    ensures SamePlan(s.subqueries, RetrieveNode(s, r.retrieved).subqueries)
    ensures SamePlan(s.subqueries, CritiqueNode(s, r.critique).subqueries)
  {
  }

  lemma OthersKeepSubqueries(env: Env, c: Config, r: Reply)
    requires c.node !in {Route, Node.Plan, Retrieve, Critique}
    ensures Step(env, c, r).state.subqueries == c.state.subqueries
  {
  }

  lemma StepKeepsPlan(env: Env, c: Config, r: Reply)
    requires c.node !in {Route, Node.Plan}
    ensures SamePlan(c.state.subqueries, Step(env, c, r).state.subqueries)
  {
    if c.node in {Retrieve, Critique} { WorkKeepsPlan(c.state, r); } else { OthersKeepSubqueries(env, c, r); }
  }

  /** The sub-queries a plan sets: the first four it proposes, or the question itself if it proposes none. */
  ghost predicate KeepsPlan(subs: seq<SubQueryState>, question: string, plan: Plan) {
    if plan.subqueries == [] then |subs| == 1 && subs[0].subquery.text == question && subs[0].subquery.isCritical
    else
      && |subs| == (if |plan.subqueries| < 4 then |plan.subqueries| else 4)
      && forall i :: 0 <= i < |subs| ==>
           && subs[i].subquery.text == plan.subqueries[i].text && subs[i].subquery.purpose == plan.subqueries[i].purpose
           && subs[i].subquery.isCritical == plan.subqueries[i].isCritical
  }

  lemma PlannerKeeps(env: Env, s: State, plan: Plan)
    ensures KeepsPlan(PlannerNode(env, s, plan).subqueries, s.question, plan)
  {
    if plan.subqueries == [] { assert ToStates(plan.subqueries) == []; }
  }

  lemma {:induction false} QuestionStays(env: Env, c: Config, replies: seq<Reply>)
    ensures Run(env, c, replies).state.question == c.state.question
    decreases |replies|
  {
    if replies != [] {
      QuestionStays(env, c, replies[..|replies| - 1]);
      StepKeepsQuestion(env, Run(env, c, replies[..|replies| - 1]), replies[|replies| - 1]);
    }
  }

  lemma StepKeepsQuestion(env: Env, c: Config, r: Reply)
    ensures Step(env, c, r).state.question == c.state.question
  {
  }

  /** From the plan on, every run that was not rejected works on the sub-queries its plan proposed. */
  lemma {:induction false} PlanIsKept(env: Env, question: string, today: Date, replies: seq<Reply>)
    requires |replies| >= 2 && replies[0].router.scope == IN_SCOPE
    ensures Run(env, Start(question, today), replies).node !in {Route, Node.Plan}
    ensures KeepsPlan(Run(env, Start(question, today), replies).state.subqueries, question, replies[1].plan)
    decreases |replies|
  {
    var init, last := replies[..|replies| - 1], replies[|replies| - 1];
    var c := Run(env, Start(question, today), init);
    QuestionStays(env, Start(question, today), init);
    if |replies| == 2 {
      RejectedIffOutOfScope(env, question, today, init);
      assert init[..0] == [] && Run(env, Start(question, today), init[..0]) == Start(question, today);
      PlannerKeeps(env, c.state, last.plan);
    } else {
      PlanIsKept(env, question, today, init);
      RunPosition(env, question, today, replies);
      StepKeepsPlan(env, c, last);
    }
  }

  /** The run has not retrieved anything yet. */
  predicate BeforeFirstPass(c: Config) {
    c.node in {Clarify, Paused} || (c.node == Retrieve && c.state.passNumber == 0)
  }

  /** Each sub-query is searched for in its own words, and nothing has been found yet. */
  ghost predicate AsksThePlan(subs: seq<SubQueryState>) {
    forall i :: 0 <= i < |subs| ==> subs[i].queryText == subs[i].subquery.text && subs[i].evidence == []
  }

  lemma FirstPassFrom(env: Env, c: Config, r: Reply)
    requires Inv(env, c) && c.node != Node.Plan && BeforeFirstPass(Step(env, c, r))
    ensures BeforeFirstPass(c) && Step(env, c, r).state.subqueries == c.state.subqueries
  {
  }

  /** The first pass of every run searches for each sub-query in the plan's own words. */
  lemma {:induction false} FirstPassAsksThePlan(env: Env, question: string, today: Date, replies: seq<Reply>)
    requires BeforeFirstPass(Run(env, Start(question, today), replies))
    ensures AsksThePlan(Run(env, Start(question, today), replies).state.subqueries)
    decreases |replies|
  {
    if replies != [] {
      var init, last := replies[..|replies| - 1], replies[|replies| - 1];
      var c := Run(env, Start(question, today), init);
      ReachableInvariant(env, question, today, init);
      if c.node == Node.Plan {
        PlannedAsk(env, c.state, last.plan);
      } else {
        FirstPassFrom(env, c, last);
        FirstPassAsksThePlan(env, question, today, init);
      }
    }
  }

  lemma PlannedAsk(env: Env, s: State, plan: Plan)
    ensures AsksThePlan(PlannerNode(env, s, plan).subqueries)
  {
  }

  // ---------- What the response carries ----------

  /** An answer carries what its state holds, and its explanation and steps are those of the synthesis. */
  lemma AnswerCarries(s: State)
    requires BuildResponse(s).answer.Some? && s.synthesis.Some?
    ensures var answer := BuildResponse(s).answer.value;
      && answer.fundamento == s.verified && answer.fechaObjetivo == s.targetDate && answer.avisosVigencia == s.notices
      && answer.explicacion == s.synthesis.value.explicacion && answer.accion == s.synthesis.value.accion
      && answer.asunciones == s.assumptions
      && (answer.huecosDeclarados != [] ==> s.outcome == Some(PARTIAL_ANSWER) && answer.huecosDeclarados == PeripheralGaps(s.subqueries))
  {
  }

  lemma SynthesisStays(env: Env, c: Config, r: Reply)
    requires c.node != Synthesize
    ensures Step(env, c, r).state.synthesis == c.state.synthesis
  {
  }

  lemma SynthesisIsReply(env: Env, c: Config, r: Reply)
    requires c.node == Synthesize && Step(env, c, r).state.synthesis.Some?
    ensures Step(env, c, r).state.synthesis == Some(r.synthesis)
  {
  }

  /** The synthesis of a run is the reply its one synthesis step read. */
  lemma {:induction false} SynthesisIsRead(env: Env, question: string, today: Date, replies: seq<Reply>) returns (k: nat)
    requires Run(env, Start(question, today), replies).state.synthesis.Some?
    ensures k < |replies| && Run(env, Start(question, today), replies[..k]).node == Synthesize
    ensures Run(env, Start(question, today), replies).state.synthesis == Some(replies[k].synthesis)
    decreases |replies|
  {
    var init, last := replies[..|replies| - 1], replies[|replies| - 1];
    var c := Run(env, Start(question, today), init);
    if c.node == Synthesize {
      k := |init|;
      SynthesisIsReply(env, c, last);
    } else {
      SynthesisStays(env, c, last);
      k := SynthesisIsRead(env, question, today, init);
      assert replies[..k] == init[..k] && replies[k] == init[k];
    }
  }

  /** The trace reports every sub-query as it stands, and how many more the last pass grounded than the first. */
  lemma TraceIs(s: State)
    ensures var trace := BuildAgenticTrace(s);
      && trace.queryType == s.queryType && trace.passes == s.passes && |trace.subqueries| == |s.subqueries|
      && (forall i :: 0 <= i < |s.subqueries| ==>
            && trace.subqueries[i].subquery == s.subqueries[i].subquery && trace.subqueries[i].verdict == s.subqueries[i].verdict
            && trace.subqueries[i].evidence == Refs(s.subqueries[i].evidence))
      && trace.agenticDelta == trace.finalSufficient - trace.firstPassSufficient
      && (s.passes == [] ==> trace.firstPassSufficient == trace.finalSufficient == 0)
      && (s.passes != [] ==>
            && trace.firstPassSufficient == |s.passes[0].sufficientIds|
            && trace.finalSufficient == |s.passes[|s.passes| - 1].sufficientIds|)
  {
  }

  ghost function PlacesOf(results: seq<CitationResult>, v: Verdict): set<int> {
    Where(results, (r: CitationResult) => r.verdict == v)
  }

  lemma {:induction false} VerdictPlaces(results: seq<CitationResult>, v: Verdict)
    ensures CountVerdict(results, v) == |PlacesOf(results, v)|
  {
    if results == [] {
      WhereNothing((r: CitationResult) => r.verdict == v);
    } else {
      VerdictPlaces(results[..|results| - 1], v);
      WhereStep(results, (r: CitationResult) => r.verdict == v);
    }
  }

  /** The verdict counts of a synthesis count its citations, discarded ones included. */
  lemma VerdictsAreCounted(env: Env, s: State, synthesis: Synthesis, v: Verdict)
    requires exists i :: 0 <= i < |s.subqueries| && s.subqueries[i].evidence != []
    ensures var results := VerifyAll(env.tools, env.store, s.targetDate, Refs(UnionEvidence(s.subqueries)), synthesis.fundamento);
      var t := SynthesizeNode(env, s, synthesis);
      v in t.citationVerdicts && t.citationVerdicts[v] == |PlacesOf(results, v)|
  {
    var results := VerifyAll(env.tools, env.store, s.targetDate, Refs(UnionEvidence(s.subqueries)), synthesis.fundamento);
    SomeEvidence(s.subqueries);
    VerdictPlaces(results, v);
  }

  lemma {:induction false} SomeEvidence(subs: seq<SubQueryState>)
    requires exists i :: 0 <= i < |subs| && subs[i].evidence != []
    ensures UnionEvidence(subs) != []
  {
    var init, last := subs[..|subs| - 1], subs[|subs| - 1];
    if last.evidence != [] {
      SomeUnion(AllEvidence(subs));
    } else {
      var i :| 0 <= i < |subs| && subs[i].evidence != [];
      assert init[i].evidence != [];
      SomeEvidence(init);
      assert AllEvidence(subs) == AllEvidence(init);
    }
  }

  lemma {:induction false} SomeUnion(blocks: seq<RetrievedBlock>)
    requires blocks != []
    ensures FirstPerKey(blocks) != []
  {
    if |blocks| > 1 { SomeUnion(blocks[..|blocks| - 1]); }
  }

  // ---------- The union of the evidence ----------

  lemma LaterPlace(blocks: seq<RetrievedBlock>, last: RetrievedBlock, b: RetrievedBlock)
    ensures FirstWithKey(blocks + [last], b) <==> FirstWithKey(blocks, b) || (b == last && !HasKey(blocks, KeyOf(last)))
  {
    var all := blocks + [last];
    if FirstWithKey(blocks, b) {
      var i :| 0 <= i < |blocks| && blocks[i] == b && forall j :: 0 <= j < i ==> KeyOf(blocks[j]) != KeyOf(b);
      assert all[i] == b && forall j :: 0 <= j < i ==> all[j] == blocks[j];
    }
    if FirstWithKey(all, b) {
      var i :| 0 <= i < |all| && all[i] == b && forall j :: 0 <= j < i ==> KeyOf(all[j]) != KeyOf(b);
      assert forall j :: 0 <= j < |blocks| ==> blocks[j] == all[j];
      if i < |blocks| { assert blocks[i] == b; }
    }
    if b == last && !HasKey(blocks, KeyOf(last)) {
      assert all[|blocks|] == b && forall j :: 0 <= j < |blocks| ==> KeyOf(all[j]) != KeyOf(b);
    }
  }

  /** The first block of the list with its key. */
  ghost predicate FirstWithKey(blocks: seq<RetrievedBlock>, b: RetrievedBlock) {
    exists i :: 0 <= i < |blocks| && blocks[i] == b && forall j :: 0 <= j < i ==> KeyOf(blocks[j]) != KeyOf(b)
  }

  /** Of the evidence retrieved, the union keeps the first block under each key, once each. */
  lemma {:induction false} UnionKeepsFirst(blocks: seq<RetrievedBlock>, b: RetrievedBlock)
    ensures b in FirstPerKey(blocks) <==> FirstWithKey(blocks, b)
    ensures forall i, j :: 0 <= i < j < |FirstPerKey(blocks)| ==> KeyOf(FirstPerKey(blocks)[i]) != KeyOf(FirstPerKey(blocks)[j])
    ensures forall key :: HasKey(FirstPerKey(blocks), key) <==> HasKey(blocks, key)
  {
    if blocks != [] {
      var init, last := blocks[..|blocks| - 1], blocks[|blocks| - 1];
      UnionKeepsFirst(init, b);
      LaterPlace(init, last, b);
      assert blocks == init + [last];
      forall key ensures HasKey(blocks, key) <==> HasKey(init, key) || KeyOf(last) == key {
        HasKeyAppend(init, last, key);
      }
      forall key ensures HasKey(FirstPerKey(init) + [last], key) <==> HasKey(FirstPerKey(init), key) || KeyOf(last) == key {
        HasKeyAppend(FirstPerKey(init), last, key);
      }
    }
  }
}
