/**
  What every run of the Mode 1 graph keeps, whatever its collaborators reply: the shape of the
  state at each node, the record of the passes, and the bound on the steps.
*/
module Mode1Loop {
  import opened Wrappers
  import opened Lists
  import opened Corpus
  import opened Verifier
  import opened Guardrail
  import opened Notices
  import opened Mode1Graph

  // ---------- Sub-query ids and rulings ----------

  /** One to four sub-queries under their fixed, distinct ids. */
  ghost predicate Numbered(subs: seq<SubQueryState>) {
    1 <= |subs| <= MAX_SUBQUERIES && forall i :: 0 <= i < |subs| ==> subs[i].subquery.id == SubQueryId(i + 1)
  }

  lemma IdsAreDistinct(subs: seq<SubQueryState>, i: nat, j: nat)
    requires Numbered(subs) && i < j < |subs|
    ensures subs[i].subquery.id != subs[j].subquery.id
  {
    assert subs[i].subquery.id == SubQueryId(i + 1) && subs[j].subquery.id == SubQueryId(j + 1);
    assert SubQueryId(i + 1)[2] != SubQueryId(j + 1)[2];
  }

  /** The same plan, with every sub-query already sufficient left exactly as it was. */
  ghost predicate Advances(a: seq<SubQueryState>, b: seq<SubQueryState>) {
    && |a| == |b|
    && forall i :: 0 <= i < |a| ==>
      a[i].subquery == b[i].subquery && (a[i].IsSufficient() ==> b[i] == a[i])
  }

  function IdsOf(subs: seq<SubQueryState>): seq<string> {
    if subs == [] then [] else [subs[0].subquery.id] + IdsOf(subs[1..])
  }

  lemma {:induction false} SameIds(a: seq<SubQueryState>, b: seq<SubQueryState>)
    requires Advances(a, b)
    ensures IdsOf(a) == IdsOf(b)
  {
    if a != [] {
      assert Advances(a[1..], b[1..]);
      SameIds(a[1..], b[1..]);
    }
  }

  ghost predicate Partitions(p: PassRecord, ids: seq<string>) {
    multiset(p.sufficientIds) + multiset(p.insufficientIds) == multiset(ids)
  }

  lemma {:induction false} RecordPartitions(n: nat, subs: seq<SubQueryState>)
    ensures Partitions(Record(n, subs), IdsOf(subs))
  {
    if subs != [] {
      RecordPartitions(n, subs[1..]);
    }
  }

  /** A pass's sufficient ids are among a later one's, and no more of them. */
  ghost predicate Grows(a: seq<string>, b: seq<string>) {
    |a| <= |b| && forall x :: x in a ==> x in b
  }

  lemma {:induction false} SufficientIdsGrow(a: seq<SubQueryState>, b: seq<SubQueryState>)
    requires Advances(a, b)
    ensures Grows(IdsRuled(a, true), IdsRuled(b, true))
  {
    if a != [] {
      assert Advances(a[1..], b[1..]);
      SufficientIdsGrow(a[1..], b[1..]);
    }
  }

  lemma {:induction false} NoneInsufficient(subs: seq<SubQueryState>)
    ensures IdsRuled(subs, false) == [] <==> forall i :: 0 <= i < |subs| ==> subs[i].IsSufficient()
  {
    if subs != [] {
      NoneInsufficient(subs[1..]);
      assert forall i :: 0 < i < |subs| ==> subs[i] == subs[1..][i - 1];
    }
  }

  lemma {:induction false} SameRulings(a: seq<SubQueryState>, b: seq<SubQueryState>, sufficient: bool)
    requires |a| == |b|
    requires forall i :: 0 <= i < |a| ==> a[i].subquery == b[i].subquery && a[i].verdict == b[i].verdict
    ensures IdsRuled(a, sufficient) == IdsRuled(b, sufficient)
  {
    if a != [] { SameRulings(a[1..], b[1..], sufficient); }
  }

  // ---------- The record of the passes ----------

  /** Passes are numbered from one and each splits the same ids. */
  ghost predicate AllPartition(passes: seq<PassRecord>, ids: seq<string>) {
    forall i :: 0 <= i < |passes| ==> passes[i].passNumber == i + 1 && Partitions(passes[i], ids)
  }

  ghost predicate AllGrow(passes: seq<PassRecord>) {
    forall i, j :: 0 <= i < j < |passes| ==> Grows(passes[i].sufficientIds, passes[j].sufficientIds)
  }

  /** Every pass but the last left a gap. */
  ghost predicate AllButLastGap(passes: seq<PassRecord>) {
    forall i :: 0 <= i < |passes| - 1 ==> passes[i].insufficientIds != []
  }

  ghost predicate LastIsNow(passes: seq<PassRecord>, subs: seq<SubQueryState>) {
    passes != [] ==>
      passes[|passes| - 1].sufficientIds == IdsRuled(subs, true) &&
      passes[|passes| - 1].insufficientIds == IdsRuled(subs, false)
  }

  ghost predicate PassHistory(subs: seq<SubQueryState>, passes: seq<PassRecord>) {
    AllPartition(passes, IdsOf(subs)) && AllGrow(passes) && AllButLastGap(passes) && LastIsNow(passes, subs)
  }

  lemma {:induction false} IdsAt(subs: seq<SubQueryState>, i: nat)
    requires i < |subs|
    ensures |IdsOf(subs)| == |subs| && IdsOf(subs)[i] == subs[i].subquery.id
  {
    if i > 0 { IdsAt(subs[1..], i - 1); } else if |subs| > 1 { IdsAt(subs[1..], 0); }
  }

  lemma {:induction false} OneEach(ids: seq<string>, id: string)
    requires Distinct(ids)
    ensures multiset(ids)[id] == if id in ids then 1 else 0
  {
    if ids != [] {
      DistinctTail(ids);
      OneEach(ids[1..], id);
      assert ids == [ids[0]] + ids[1..];
    }
  }

  lemma NumberedIdsAreDistinct(subs: seq<SubQueryState>)
    requires Numbered(subs)
    ensures Distinct(IdsOf(subs))
  {
    IdsAt(subs, 0);
    forall i, j | 0 <= i < j < |subs| ensures IdsOf(subs)[i] != IdsOf(subs)[j] {
      IdsAt(subs, i);
      IdsAt(subs, j);
      IdsAreDistinct(subs, i, j);
    }
  }

  /** Every recorded pass rules each planned sub-query once: sufficient or insufficient, never both, and no other. */
  lemma PassRulesEachOnce(subs: seq<SubQueryState>, passes: seq<PassRecord>, i: nat, id: string)
    requires Numbered(subs) && PassHistory(subs, passes) && i < |passes|
    ensures id in IdsOf(subs) <==> id in passes[i].sufficientIds || id in passes[i].insufficientIds
    ensures !(id in passes[i].sufficientIds && id in passes[i].insufficientIds)
    ensures multiset(passes[i].sufficientIds)[id] <= 1 && multiset(passes[i].insufficientIds)[id] <= 1
  {
    NumberedIdsAreDistinct(subs);
    OneEach(IdsOf(subs), id);
    var p := passes[i];
    assert (multiset(p.sufficientIds) + multiset(p.insufficientIds))[id] == multiset(IdsOf(subs))[id];
  }

  lemma RetrieveKeepsHistory(s: State, retrieved: SubQueryState -> seq<RetrievedBlock>)
    requires PassHistory(s.subqueries, s.passes)
    ensures PassHistory(RetrieveNode(s, retrieved).subqueries, s.passes)
    ensures Advances(s.subqueries, RetrieveNode(s, retrieved).subqueries)
  {
    var subs := RetrieveNode(s, retrieved).subqueries;
    SameIds(s.subqueries, subs);
    SameRulings(s.subqueries, subs, true);
    SameRulings(s.subqueries, subs, false);
  }

  lemma GrowsTransitive(a: seq<string>, b: seq<string>, c: seq<string>)
    requires Grows(a, b) && Grows(b, c)
    ensures Grows(a, c)
  {
  }

  lemma GrowthAppend(passes: seq<PassRecord>, last: PassRecord)
    requires AllGrow(passes)
    requires passes != [] ==> Grows(passes[|passes| - 1].sufficientIds, last.sufficientIds)
    ensures AllGrow(passes + [last])
  {
    forall i | 0 <= i < |passes| ensures Grows(passes[i].sufficientIds, last.sufficientIds) {
      if i < |passes| - 1 {
        GrowsTransitive(passes[i].sufficientIds, passes[|passes| - 1].sufficientIds, last.sufficientIds);
      }
    }
  }

  lemma PartitionAppend(passes: seq<PassRecord>, last: PassRecord, ids: seq<string>)
    requires AllPartition(passes, ids) && last.passNumber == |passes| + 1 && Partitions(last, ids)
    ensures AllPartition(passes + [last], ids)
  {
  }

  lemma GapAppend(passes: seq<PassRecord>, last: PassRecord)
    requires AllButLastGap(passes) && (passes != [] ==> passes[|passes| - 1].insufficientIds != [])
    ensures AllButLastGap(passes + [last])
  {
  }

  lemma HistoryAppend(a: seq<SubQueryState>, b: seq<SubQueryState>, passes: seq<PassRecord>)
    requires PassHistory(a, passes) && Advances(a, b)
    requires passes != [] ==> IdsRuled(a, false) != []
    ensures PassHistory(b, passes + [Record(|passes| + 1, b)])
  {
    var last := Record(|passes| + 1, b);
    SameIds(a, b);
    RecordPartitions(|passes| + 1, b);
    SufficientIdsGrow(a, b);
    PartitionAppend(passes, last, IdsOf(b));
    GrowthAppend(passes, last);
    GapAppend(passes, last);
  }

  lemma CritiqueAdvances(s: State, rulings: seq<SubQueryCritique>)
    ensures Advances(s.subqueries, CritiqueNode(s, rulings).subqueries)
    ensures CritiqueNode(s, rulings).passes == s.passes + [Record(s.passNumber, CritiqueNode(s, rulings).subqueries)]
  {
  }

  // ---------- The invariant ----------

  ghost predicate Fresh(s: State) {
    && s.subqueries == [] && s.passes == [] && s.passNumber == 0 && s.assumptions == [] && s.caseFacts == []
    && s.unresolvedBranchIds == [] && !s.clarificationAsked && s.targetDate == s.today
    && s.synthesis.None? && s.verified == [] && s.notices == [] && s.abstentionReason.None?
  }

  ghost predicate Planned(s: State) {
    && Numbered(s.subqueries) && s.targetDate <= s.today
    && s.synthesis.None? && s.verified == [] && s.notices == [] && s.outcome.None? && s.abstentionReason.None?
  }

  ghost predicate Unstarted(s: State) {
    && s.passes == [] && s.passNumber == 0 && s.caseFacts == [] && !s.clarificationAsked
    && forall i :: 0 <= i < |s.subqueries| ==> s.subqueries[i].evidence == [] && s.subqueries[i].verdict.None?
  }

  ghost predicate Looping(s: State) {
    Numbered(s.subqueries) && s.targetDate <= s.today && s.clarificationAsked && PassHistory(s.subqueries, s.passes)
  }

  /** The loop is over: some pass ran, and the last one either left no gap or was the third. */
  ghost predicate Exhausted(s: State) {
    && Looping(s) && 1 <= |s.passes| == s.passNumber <= MAX_PASSES
    && (s.passes[|s.passes| - 1].insufficientIds == [] || |s.passes| == MAX_PASSES)
  }

  /** What is shown is what survived verification at the run's date, against the evidence it traced. */
  ghost predicate Synthesized(env: Env, s: State) {
    if UnionEvidence(s.subqueries) == [] then s.synthesis.None? && s.verified == []
    else
      && s.synthesis.Some?
      && s.verified == Survivors(env, s.subqueries, s.targetDate, s.synthesis.value.fundamento)
  }

  ghost predicate Decided(s: State) {
    s.outcome == Some(GateVerdict(s.subqueries, s.verified).0) && s.abstentionReason == GateVerdict(s.subqueries, s.verified).1
  }

  ghost predicate Rejected(s: State) {
    Fresh(s) && s.outcome == Some(ROUTER_REJECTION) && s.routerMessage.Some? && s.routerMessage.value != ""
  }

  ghost predicate Inv(env: Env, c: Config) {
    var s := c.state;
    match c.node
    case Route => s == InitialState(s.question, s.today)
    case Plan => Fresh(s) && s.outcome.None?
    case Clarify => Planned(s) && Unstarted(s)
    case Paused => Planned(s) && Unstarted(s) && BranchToAsk(s, env.branches).Some?
    case Retrieve =>
      && Planned(s) && Looping(s) && s.passNumber == |s.passes| < MAX_PASSES
      && (s.passes != [] ==> IdsRuled(s.subqueries, false) != [])
    case Critique =>
      && Planned(s) && Looping(s) && s.passNumber == |s.passes| + 1 <= MAX_PASSES
      && (s.passes != [] ==> IdsRuled(s.subqueries, false) != [])
    case Synthesize => Planned(s) && Exhausted(s)
    case Gate => Exhausted(s) && Synthesized(env, s) && s.notices == [] && s.outcome.None? && s.abstentionReason.None?
    case Notify => Exhausted(s) && Synthesized(env, s) && Decided(s) && s.notices == []
    case End => Rejected(s) || (Exhausted(s) && Synthesized(env, s) && Decided(s) && s == NotifyNode(env, s))
  }

  lemma PlanIsPlanned(env: Env, s: State, plan: Plan)
    requires Fresh(s) && s.outcome.None?
    ensures Planned(PlannerNode(env, s, plan)) && Unstarted(PlannerNode(env, s, plan))
  {
  }

  lemma SituateStartsLoop(env: Env, s: State, asked: Option<Branch>, answer: string)
    requires Planned(s) && Unstarted(s)
    ensures var resolution := if asked.Some? then ResolveBranch(env, s.today, asked.value, answer) else None;
      Inv(env, Config(Retrieve, Situate(env, s, asked, resolution)))
  {
  }

  lemma AdvancesNumbered(a: seq<SubQueryState>, b: seq<SubQueryState>)
    requires Numbered(a) && Advances(a, b)
    ensures Numbered(b)
  {
  }

  lemma AfterJudging(env: Env, s: State, judged: seq<SubQueryState>, passes: seq<PassRecord>)
    requires Planned(s) && s.clarificationAsked && Numbered(judged) && PassHistory(judged, passes)
    requires 1 <= |passes| == s.passNumber <= MAX_PASSES
    ensures var s' := s.(subqueries := judged, passes := passes); Inv(env, Config(AfterCritique(s'), s'))
  {
    NoneInsufficient(judged);
  }

  lemma JudgedKeepsInvariant(env: Env, s: State, judged: seq<SubQueryState>)
    requires Inv(env, Config(Critique, s)) && Advances(s.subqueries, judged)
    ensures var s' := s.(subqueries := judged, passes := s.passes + [Record(s.passNumber, judged)]);
      Inv(env, Config(AfterCritique(s'), s'))
  {
    AdvancesNumbered(s.subqueries, judged);
    HistoryAppend(s.subqueries, judged, s.passes);
    AfterJudging(env, s, judged, s.passes + [Record(s.passNumber, judged)]);
  }

  lemma CritiqueKeepsInvariant(env: Env, s: State, rulings: seq<SubQueryCritique>)
    requires Inv(env, Config(Critique, s))
    ensures var s' := CritiqueNode(s, rulings); Inv(env, Config(AfterCritique(s'), s'))
  {
    CritiqueAdvances(s, rulings);
    JudgedKeepsInvariant(env, s, CritiqueNode(s, rulings).subqueries);
  }

  lemma RetrieveKeepsInvariant(env: Env, s: State, retrieved: SubQueryState -> seq<RetrievedBlock>)
    requires Inv(env, Config(Retrieve, s))
    ensures Inv(env, Config(Critique, RetrieveNode(s, retrieved)))
  {
    var s' := RetrieveNode(s, retrieved);
    RetrieveKeepsHistory(s, retrieved);
    AdvancesNumbered(s.subqueries, s'.subqueries);
    SameRulings(s.subqueries, s'.subqueries, false);
  }

  /** The loop's record does not read what comes after it. */
  lemma ExhaustedStays(s: State, t: State)
    requires Exhausted(s)
    requires t == s.(synthesis := t.synthesis, verified := t.verified, citationVerdicts := t.citationVerdicts,
                     notices := t.notices, outcome := t.outcome, abstentionReason := t.abstentionReason)
    ensures Exhausted(t)
  {
  }

  lemma SynthesizeEffect(env: Env, s: State, synthesis: Synthesis)
    ensures var t := SynthesizeNode(env, s, synthesis);
      && t == s.(synthesis := t.synthesis, verified := t.verified, citationVerdicts := t.citationVerdicts)
      && Synthesized(env, t)
  {
  }

  lemma SynthesizeKeepsInvariant(env: Env, s: State, synthesis: Synthesis)
    requires Inv(env, Config(Synthesize, s))
    ensures Inv(env, Config(Gate, SynthesizeNode(env, s, synthesis)))
  {
    SynthesizeEffect(env, s, synthesis);
    ExhaustedStays(s, SynthesizeNode(env, s, synthesis));
  }

  lemma GateKeepsInvariant(env: Env, s: State)
    requires Inv(env, Config(Gate, s))
    ensures Inv(env, Config(Notify, GateNode(s)))
  {
    ExhaustedStays(s, GateNode(s));
  }

  lemma NotifyEffect(env: Env, s: State)
    ensures NotifyNode(env, s) == s.(notices := NotifyNode(env, s).notices)
    ensures NotifyNode(env, NotifyNode(env, s)) == NotifyNode(env, s)
  {
  }

  lemma NotifyKeepsInvariant(env: Env, s: State)
    requires Inv(env, Config(Notify, s))
    ensures Inv(env, Config(End, NotifyNode(env, s)))
  {
    NotifyEffect(env, s);
    ExhaustedStays(s, NotifyNode(env, s));
  }

  lemma StepKeepsInvariant(env: Env, c: Config, r: Reply)
    requires Inv(env, c)
    ensures Inv(env, Step(env, c, r))
  {
    var s := c.state;
    match c.node
    case Route =>
    case Plan => PlanIsPlanned(env, s, r.plan);
    case Clarify => SituateStartsLoop(env, s, None, "");
    case Paused => SituateStartsLoop(env, s, BranchToAsk(s, env.branches), r.answer);
    case Retrieve => RetrieveKeepsInvariant(env, s, r.retrieved);
    case Critique => CritiqueKeepsInvariant(env, s, r.critique);
    case Synthesize => SynthesizeKeepsInvariant(env, s, r.synthesis);
    case Gate => GateKeepsInvariant(env, s);
    case Notify => NotifyKeepsInvariant(env, s);
    case End =>
  }

  /** Every configuration of every run satisfies the invariant. */
  lemma {:induction false} RunKeepsInvariant(env: Env, c: Config, replies: seq<Reply>)
    requires Inv(env, c)
    ensures Inv(env, Run(env, c, replies))
    decreases |replies|
  {
    if replies != [] {
      RunKeepsInvariant(env, c, replies[..|replies| - 1]);
      StepKeepsInvariant(env, Run(env, c, replies[..|replies| - 1]), replies[|replies| - 1]);
    }
  }

  /** Steps left before the run must have ended. */
  function Rank(c: Config): nat {
    match c.node
    case Route => 13
    case Plan => 12
    case Clarify => 11
    case Paused => 10
    case Retrieve => if |c.state.passes| <= 3 then 9 - 2 * |c.state.passes| else 0
    case Critique => if |c.state.passes| <= 2 then 8 - 2 * |c.state.passes| else 0
    case Synthesize => 3
    case Gate => 2
    case Notify => 1
    case End => 0
  }

  lemma StepDescends(env: Env, c: Config, r: Reply)
    requires Inv(env, c) && c.node != End
    ensures Rank(Step(env, c, r)) < Rank(c)
  {
    StepKeepsInvariant(env, c, r);
  }

  /** Every run has ended after thirteen steps, the pause for the user's answer included. */
  lemma {:induction false} RunEnds(env: Env, c: Config, replies: seq<Reply>)
    requires Inv(env, c) && |replies| >= Rank(c)
    ensures Run(env, c, replies).node == End
  {
    RankDrops(env, c, replies);
    RunKeepsInvariant(env, c, replies);
  }

  lemma {:induction false} RankDrops(env: Env, c: Config, replies: seq<Reply>)
    requires Inv(env, c)
    ensures Run(env, c, replies).node == End || Rank(Run(env, c, replies)) + |replies| <= Rank(c)
    decreases |replies|
  {
    if replies != [] {
      var init := replies[..|replies| - 1];
      RankDrops(env, c, init);
      RunKeepsInvariant(env, c, init);
      if Run(env, c, init).node != End {
        StepDescends(env, Run(env, c, init), replies[|replies| - 1]);
      }
    }
  }
}
