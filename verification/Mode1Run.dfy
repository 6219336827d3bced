/**
  One Mode 1 consultation as the caller drives it: start it, and resume it if it paused.

  The class runs the graph node by node over its checkpoint, with the loops the nodes have, and is
  proved to take exactly the steps of `Mode1Graph.Step`.
*/
module Mode1Run {
  import opened Wrappers
  import opened Lists
  import opened Typography
  import opened BlockRefs
  import opened Corpus
  import opened Verifier
  import opened Guardrail
  import opened Notices
  import opened Mode1Graph
  import opened Mode1Loop
  import opened Mode1Safety

  // ---------- The loops of the nodes ----------

  lemma AllEvidenceStep(subs: seq<SubQueryState>, n: nat)
    requires n < |subs|
    ensures AllEvidence(subs[..n + 1]) == AllEvidence(subs[..n]) + subs[n].evidence
  {
    assert subs[..n + 1][..n] == subs[..n] && subs[..n + 1][n] == subs[n];
  }

  lemma FirstPerKeyStep(blocks: seq<RetrievedBlock>, last: RetrievedBlock)
    ensures FirstPerKey(blocks + [last]) ==
            if HasKey(FirstPerKey(blocks), KeyOf(last)) then FirstPerKey(blocks) else FirstPerKey(blocks) + [last]
  {
    assert (blocks + [last])[..|blocks|] == blocks;
  }

  lemma FirstPerKeyPrefix(before: seq<RetrievedBlock>, evidence: seq<RetrievedBlock>, m: nat)
    requires m < |evidence|
    ensures FirstPerKey(before + evidence[..m + 1]) ==
            var seen := FirstPerKey(before + evidence[..m]);
            if HasKey(seen, KeyOf(evidence[m])) then seen else seen + [evidence[m]]
  {
    FirstPerKeyStep(before + evidence[..m], evidence[m]);
    assert before + evidence[..m + 1] == before + evidence[..m] + [evidence[m]];
  }

  method AddEvidence(held: seq<RetrievedBlock>, evidence: seq<RetrievedBlock>, ghost before: seq<RetrievedBlock>)
    returns (seen: seq<RetrievedBlock>)
    requires held == FirstPerKey(before)
    ensures seen == FirstPerKey(before + evidence)
  {
    seen := held;
    assert before + evidence[..0] == before;
    for m := 0 to |evidence|
      invariant seen == FirstPerKey(before + evidence[..m])
    {
      FirstPerKeyPrefix(before, evidence, m);
      if !HasKey(seen, KeyOf(evidence[m])) {
        seen := seen + [evidence[m]];
      }
    }
    assert evidence[..|evidence|] == evidence;
  }

  /** The union of the evidence, collected block by block in first-seen order. */
  method CollectUnion(subs: seq<SubQueryState>) returns (seen: seq<RetrievedBlock>)
    ensures seen == UnionEvidence(subs)
  {
    seen := [];
    for n := 0 to |subs|
      invariant seen == FirstPerKey(AllEvidence(subs[..n]))
    {
      AllEvidenceStep(subs, n);
      seen := AddEvidence(seen, subs[n].evidence, AllEvidence(subs[..n]));
    }
    assert subs[..|subs|] == subs;
  }

  /** The planned sub-queries, at most four, each under its id. */
  method NumberPlanned(planned: seq<PlannedSubQuery>) returns (states: seq<SubQueryState>)
    ensures states == ToStates(planned)
  {
    states := [];
    var n := 0;
    while n < |planned| && n < MAX_SUBQUERIES
      invariant n <= |planned| && n <= MAX_SUBQUERIES && |states| == n
      invariant forall i :: 0 <= i < n ==> states[i] == PlannedState(planned[i], i + 1)
    {
      states := states + [PlannedState(planned[n], n + 1)];
      n := n + 1;
    }
  }

  method RunPlanner(env: Env, s: State, plan: Plan) returns (t: State)
    ensures t == PlannerNode(env, s, plan)
  {
    var states := NumberPlanned(plan.subqueries);
    if states == [] { states := [Fallback(s.question)]; }
    var anchor := ResolveTargetDate(env, plan.targetDateReference, s.today);
    t := s.(subqueries := states, assumptions := plan.assumptions,
            targetDate := anchor.value, targetDatePrecision := anchor.precision,
            unresolvedBranchIds := DeclaredOrder(plan.unresolvedBranchIds, env.branches));
  }

  /** The rulings by sub-query id; a later one for the same id replaces an earlier one. */
  method RulingsById(rulings: seq<SubQueryCritique>) returns (byId: map<string, SubQueryCritique>)
    ensures forall id :: RulingFor(rulings, id) == if id in byId then Some(byId[id]) else None
  {
    byId := map[];
    for n := 0 to |rulings|
      invariant forall id :: RulingFor(rulings[..n], id) == if id in byId then Some(byId[id]) else None
    {
      assert rulings[..n + 1][..n] == rulings[..n] && rulings[..n + 1][n] == rulings[n];
      byId := byId[rulings[n].subqueryId := rulings[n]];
    }
    assert rulings[..|rulings|] == rulings;
  }

  method JudgeAll(subs: seq<SubQueryState>, byId: map<string, SubQueryCritique>) returns (judged: seq<SubQueryState>)
    ensures |judged| == |subs|
    ensures forall i :: 0 <= i < |subs| ==>
      judged[i] == Apply(subs[i], if subs[i].subquery.id in byId then Some(byId[subs[i].subquery.id]) else None)
  {
    judged := [];
    for n := 0 to |subs|
      invariant |judged| == n
      invariant forall i :: 0 <= i < n ==>
        judged[i] == Apply(subs[i], if subs[i].subquery.id in byId then Some(byId[subs[i].subquery.id]) else None)
    {
      var id := subs[n].subquery.id;
      judged := judged + [Apply(subs[n], if id in byId then Some(byId[id]) else None)];
    }
  }

  lemma IdsRuledStep(subs: seq<SubQueryState>, sufficient: bool, n: nat)
    requires n < |subs|
    ensures IdsRuled(subs[n..], sufficient) ==
            (if subs[n].IsSufficient() == sufficient then [subs[n].subquery.id] else []) + IdsRuled(subs[n + 1..], sufficient)
    ensures TotalEvidence(subs[n..]) == |subs[n].evidence| + TotalEvidence(subs[n + 1..])
  {
    assert subs[n..][1..] == subs[n + 1..];
  }

  method CollectIds(subs: seq<SubQueryState>, sufficient: bool) returns (ids: seq<string>)
    ensures ids == IdsRuled(subs, sufficient)
  {
    ids := [];
    assert subs[0..] == subs;
    for n := 0 to |subs|
      invariant ids + IdsRuled(subs[n..], sufficient) == IdsRuled(subs, sufficient)
    {
      IdsRuledStep(subs, sufficient, n);
      AppendAssociates(ids, if subs[n].IsSufficient() == sufficient then [subs[n].subquery.id] else [], IdsRuled(subs[n + 1..], sufficient));
      AppendNothing(ids);
      if subs[n].IsSufficient() == sufficient { ids := ids + [subs[n].subquery.id]; }
    }
    AppendNothing(ids);
  }

  method CountEvidence(subs: seq<SubQueryState>) returns (count: nat)
    ensures count == TotalEvidence(subs)
  {
    count := 0;
    assert subs[0..] == subs;
    for n := 0 to |subs|
      invariant count + TotalEvidence(subs[n..]) == TotalEvidence(subs)
    {
      IdsRuledStep(subs, true, n);
      count := count + |subs[n].evidence|;
    }
  }

  lemma TokensStep(before: seq<RetrievedBlock>, evidence: seq<RetrievedBlock>, m: nat)
    requires m < |evidence|
    ensures FirstSeen(Tokens(Refs(before + evidence[..m + 1]))) ==
            var seen, token := FirstSeen(Tokens(Refs(before + evidence[..m]))), Print(KeyOf(evidence[m]));
            if token in seen then seen else seen + [token]
  {
    TakeOneMore(before, evidence, m);
    var held := before + evidence[..m];
    assert Tokens(Refs(held + [evidence[m]])) == Tokens(Refs(held)) + [Print(KeyOf(evidence[m]))];
    FirstSeenStep(Tokens(Refs(held)), Print(KeyOf(evidence[m])));
  }

  /** The distinct tokens of the evidence of every sub-query, in first-seen order. */
  method AccumulatedBlockRefs(subs: seq<SubQueryState>) returns (seen: seq<string>)
    ensures seen == FirstSeen(Tokens(Refs(AllEvidence(subs))))
  {
    seen := [];
    for n := 0 to |subs|
      invariant seen == FirstSeen(Tokens(Refs(AllEvidence(subs[..n]))))
    {
      AllEvidenceStep(subs, n);
      seen := AddTokens(seen, subs[n].evidence, AllEvidence(subs[..n]));
    }
    assert subs[..|subs|] == subs;
  }

  method AddTokens(held: seq<string>, evidence: seq<RetrievedBlock>, ghost before: seq<RetrievedBlock>)
    returns (seen: seq<string>)
    requires held == FirstSeen(Tokens(Refs(before)))
    ensures seen == FirstSeen(Tokens(Refs(before + evidence)))
  {
    seen := held;
    AppendNothing(before);
    for m := 0 to |evidence|
      invariant seen == FirstSeen(Tokens(Refs(before + evidence[..m])))
    {
      TokensStep(before, evidence, m);
      var token := Print(KeyOf(evidence[m]));
      if token !in seen { seen := seen + [token]; }
    }
    assert evidence[..|evidence|] == evidence;
  }

  /** Judges every sub-query by its last ruling and tallies the pass. */
  method RunCritique(s: State, rulings: seq<SubQueryCritique>) returns (t: State)
    ensures t == CritiqueNode(s, rulings)
  {
    var byId := RulingsById(rulings);
    var judged := JudgeAll(s.subqueries, byId);
    var sufficient := CollectIds(judged, true);
    var insufficient := CollectIds(judged, false);
    var count := CountEvidence(judged);
    var tokens := AccumulatedBlockRefs(judged);
    t := s.(subqueries := judged, passes := s.passes + [PassRecord(s.passNumber, sufficient, insufficient, count, tokens)]);
    assert judged == CritiqueNode(s, rulings).subqueries;
  }

  method RunSynthesis(env: Env, s: State, synthesis: Synthesis) returns (t: State)
    requires Sound(env.tools)
    ensures t == SynthesizeNode(env, s, synthesis)
  {
    var evidence := CollectUnion(s.subqueries);
    if evidence == [] {
      return s.(synthesis := None, verified := [], citationVerdicts := map[]);
    }
    HeldCarryAnchors(env.tools, env.store, s.targetDate, Refs(evidence), synthesis.fundamento);
    var results := VerifyCitations(env.tools, synthesis.fundamento, Refs(evidence), s.targetDate, env.store);
    t := s.(synthesis := Some(synthesis), verified := Held(results), citationVerdicts := Summarize(results));
  }

  method RunNotices(env: Env, s: State) returns (t: State)
    ensures t == NotifyNode(env, s)
  {
    if s.outcome != Some(ANSWER) && s.outcome != Some(PARTIAL_ANSWER) { return s.(notices := []); }
    var notices := DeriveNotices(env.store, CitedBlocks(s.verified),
                                 TargetDate(s.targetDate, s.targetDatePrecision), s.today, env.yearEnd);
    t := s.(notices := notices);
  }

  method Advance(env: Env, c: Config, r: Reply) returns (d: Config)
    requires Sound(env.tools)
    ensures d == Step(env, c, r)
  {
    var s := c.state;
    match c.node {
      case Route =>
        s := RouterNode(s, r.router);
        d := Config(AfterRoute(s), s);
      case Plan =>
        s := RunPlanner(env, s, r.plan);
        d := Config(Clarify, s);
      case Clarify =>
        if BranchToAsk(s, env.branches).None? {
          d := Config(Retrieve, Situate(env, s, None, None));
        } else {
          d := Config(Paused, s);
        }
      case Paused =>
        var asked := BranchToAsk(s, env.branches);
        var resolution := if asked.Some? then ResolveBranch(env, s.today, asked.value, r.answer) else None;
        d := Config(Retrieve, Situate(env, s, asked, resolution));
      case Retrieve =>
        d := Config(Critique, RetrieveNode(s, r.retrieved));
      case Critique =>
        s := RunCritique(s, r.critique);
        d := Config(AfterCritique(s), s);
      case Synthesize =>
        s := RunSynthesis(env, s, r.synthesis);
        d := Config(Gate, s);
      case Gate =>
        d := Config(Notify, GateNode(s));
      case Notify =>
        s := RunNotices(env, s);
        d := Config(End, s);
      case End =>
        d := c;
    }
  }

  // ---------- The run ----------

  predicate Stopped(c: Config) {
    c.node == Paused || c.node == End
  }

  function FirstReplies(replies: nat -> Reply, n: nat): seq<Reply> {
    seq(n, i requires 0 <= i < n => replies(i))
  }

  function Later(replies: nat -> Reply): nat -> Reply {
    (n: nat) => replies(n + 1)
  }

  lemma OneMoreReply(env: Env, c: Config, replies: nat -> Reply, n: nat)
    ensures Run(env, c, FirstReplies(replies, n + 1)) == Step(env, Run(env, c, FirstReplies(replies, n)), replies(n))
  {
    assert FirstReplies(replies, n + 1)[..n] == FirstReplies(replies, n);
  }

  lemma OneMoreStep(env: Env, c: Config, replies: nat -> Reply, n: nat)
    requires Inv(env, c) && !Stopped(Run(env, c, FirstReplies(replies, n)))
    ensures var d := Run(env, c, FirstReplies(replies, n));
      var e := Run(env, c, FirstReplies(replies, n + 1));
      e == Step(env, d, replies(n)) && Rank(e) < Rank(d)
  {
    RunKeepsInvariant(env, c, FirstReplies(replies, n));
    OneMoreReply(env, c, replies, n);
    StepDescends(env, Run(env, c, FirstReplies(replies, n)), replies(n));
  }

  /** How far a run has come: after `n` replies it is at `d`, and it did not stop on the way. */
  ghost predicate Reached(env: Env, c: Config, replies: nat -> Reply, n: nat, d: Config) {
    && d == Run(env, c, FirstReplies(replies, n)) && n + Rank(d) <= Rank(c)
    && forall k :: 0 <= k < n ==> !Stopped(Run(env, c, FirstReplies(replies, k)))
  }

  lemma ReachedStart(env: Env, c: Config, replies: nat -> Reply)
    ensures Reached(env, c, replies, 0, c)
  {
    assert FirstReplies(replies, 0) == [];
  }

  lemma ReachedNext(env: Env, c: Config, replies: nat -> Reply, n: nat, d: Config)
    requires Inv(env, c) && Reached(env, c, replies, n, d) && !Stopped(d)
    ensures Reached(env, c, replies, n + 1, Step(env, d, replies(n)))
    ensures Rank(Step(env, d, replies(n))) < Rank(d)
  {
    OneMoreStep(env, c, replies, n);
  }

  lemma ReachedKeepsInvariant(env: Env, c: Config, replies: nat -> Reply, n: nat, d: Config)
    requires Inv(env, c) && Reached(env, c, replies, n, d)
    ensures Inv(env, d)
  {
    RunKeepsInvariant(env, c, FirstReplies(replies, n));
  }

  /** Drives the graph from `c` until it pauses or ends, one reply a node. */
  method Drive(env: Env, c: Config, replies: nat -> Reply) returns (d: Config, ghost steps: nat)
    requires Sound(env.tools) && Inv(env, c)
    ensures Inv(env, d) && Stopped(d) && Reached(env, c, replies, steps, d)
  {
    d := c;
    var n := 0;
    ReachedStart(env, c, replies);
    while !Stopped(d)
      invariant 0 <= n && Reached(env, c, replies, n, d)
      decreases Rank(d)
    {
      ReachedNext(env, c, replies, n, d);
      d := Advance(env, d, replies(n));
      n := n + 1;
    }
    ReachedKeepsInvariant(env, c, replies, n, d);
    steps := n;
  }

  class Mode1Run {
    const env: Env
    const today: Date
    /** The thread's checkpoint; none before the first question. */
    var checkpoint: Option<Config>

    ghost predicate Valid()
      reads this
    {
      && Sound(env.tools)
      && (checkpoint.Some? ==> Inv(env, checkpoint.value) && Stopped(checkpoint.value))
    }

    constructor (env: Env, today: Date)
      requires Sound(env.tools)
      ensures Valid() && checkpoint.None? && this.env == env && this.today == today
    {
      this.env := env;
      this.today := today;
      checkpoint := None;
    }

    /** Runs the graph over a question; the answer is the outcome it reached, or its one question. */
    method Ask(question: string, replies: nat -> Reply) returns (response: AskResponse, ghost steps: nat)
      requires Valid()
      modifies this
      ensures Valid() && checkpoint.Some? && steps <= 13
      ensures checkpoint.value == Run(env, Start(question, today), FirstReplies(replies, steps))
      ensures response == ResponseOf(env, checkpoint.value)
    {
      var d, n := Drive(env, Start(question, today), replies);
      steps := n;
      checkpoint := Some(d);
      response := ResponseOf(env, d);
    }

    /**
      Continues a paused run to its end with the user's answer. On a thread that is not paused it
      fails and changes nothing.
    */
    method Resume(answer: string, replies: nat -> Reply) returns (response: Option<AskResponse>, ghost steps: nat)
      requires Valid()
      modifies this
      ensures Valid()
      ensures response.Some? <==> old(checkpoint).Some? && old(checkpoint).value.node == Paused
      ensures response.None? ==> checkpoint == old(checkpoint)
      ensures response.Some? ==>
        && checkpoint.Some? && checkpoint.value.node == End && response.value == ResponseOf(env, checkpoint.value)
        && checkpoint.value == Run(env, Step(env, old(checkpoint).value, replies(0).(answer := answer)),
                                   FirstReplies(Later(replies), steps))
    {
      steps := 0;
      if checkpoint.None? || checkpoint.value.node != Paused { return None, 0; }
      var c := checkpoint.value;
      var reply := replies(0).(answer := answer);
      StepKeepsInvariant(env, c, reply);
      var d := Advance(env, c, reply);
      var e, n := Drive(env, d, Later(replies));
      steps := n;
      SettledForGood(env, d, FirstReplies(Later(replies), steps));
      checkpoint := Some(e);
      response := Some(ResponseOf(env, e));
    }
  }
}
