/**
  How the branches a plan leaves open end, over whole runs: which one is asked, what the reply settles,
  what is assumed for the rest, and the date the run answers at.
*/
module Mode1Branches {
  import opened Wrappers
  import opened Lists
  import opened Typography
  import opened Corpus
  import opened Notices
  import opened Mode1Graph
  import opened Mode1Safety

  /** The vertical's branch at `k` is one the plan reports unresolved. */
  ghost predicate LeftOpen(env: Env, plan: Plan, k: int) {
    0 <= k < |env.branches| && env.branches[k].id in plan.unresolvedBranchIds
  }

  /** The branch a run asks about: the first the plan leaves open, unless the question is informational. */
  ghost predicate AskedAt(env: Env, replies: seq<Reply>, k: int)
    requires |replies| >= 2
  {
    && replies[0].router.queryType != INFORMATIONAL
    && LeftOpen(env, replies[1].plan, k) && forall j :: 0 <= j < k ==> !LeftOpen(env, replies[1].plan, j)
  }

  /** The reply settles the branch: it is not blank and, if it must be a date, it reads as one not after today. */
  ghost predicate Answers(env: Env, today: Date, branch: Branch, answer: string) {
    && Strip(answer) != ""
    && (branch.setsTargetDate ==>
          env.parseTargetDate(Strip(answer)).Some? && env.parseTargetDate(Strip(answer)).value.value <= today)
  }

  ghost function FactOf(env: Env, branch: Branch, answer: string): string
    requires branch.setsTargetDate ==> env.parseTargetDate(Strip(answer)).Some?
  {
    branch.stateFact(if branch.setsTargetDate then env.isoFormat(env.parseTargetDate(Strip(answer)).value.value) else Strip(answer))
  }

  ghost predicate AnsweredAt(env: Env, today: Date, replies: seq<Reply>, k: int)
    requires |replies| >= 2
  {
    AskedAt(env, replies, k) && |replies| >= 4 && Answers(env, today, env.branches[k], replies[3].answer)
  }

  lemma ReplyResolves(env: Env, today: Date, branch: Branch, answer: string)
    ensures var r := ResolveBranch(env, today, branch, answer);
      && (r.Some? <==> Answers(env, today, branch, answer))
      && (r.Some? ==> r.value.fact == FactOf(env, branch, answer))
      && (r.Some? ==> r.value.target == if branch.setsTargetDate then env.parseTargetDate(Strip(answer)) else None)
  {
  }

  lemma {:induction false} DeclaredAre(reported: seq<string>, branches: seq<Branch>, id: string)
    ensures id in DeclaredOrder(reported, branches) <==> id in reported && exists k :: 0 <= k < |branches| && branches[k].id == id
  {
    if branches != [] {
      DeclaredAre(reported, branches[1..], id);
      if k :| 0 <= k < |branches[1..]| && branches[1..][k].id == id {
        assert branches[k + 1].id == id;
      }
      if k :| 0 <= k < |branches| && branches[k].id == id && k > 0 {
        assert branches[1..][k - 1].id == id;
      }
    }
  }

  ghost predicate FirstPending(branches: seq<Branch>, pending: seq<string>, k: int) {
    0 <= k < |branches| && branches[k].id in pending && forall j :: 0 <= j < k ==> branches[j].id !in pending
  }

  lemma {:induction false} FirstOpenIs(branches: seq<Branch>, pending: seq<string>) returns (k: int)
    ensures FirstOpen(branches, pending).Some? ==> FirstPending(branches, pending, k) && FirstOpen(branches, pending) == Some(branches[k])
    ensures FirstOpen(branches, pending).None? ==> forall j :: 0 <= j < |branches| ==> branches[j].id !in pending
  {
    k := 0;
    if branches != [] && branches[0].id !in pending {
      var i := FirstOpenIs(branches[1..], pending);
      k := i + 1;
      assert forall j :: 1 <= j < |branches| ==> branches[j] == branches[1..][j - 1];
    }
  }

  lemma OpenIffReported(env: Env, plan: Plan)
    ensures forall k :: 0 <= k < |env.branches| ==>
      (env.branches[k].id in DeclaredOrder(plan.unresolvedBranchIds, env.branches) <==> LeftOpen(env, plan, k))
  {
    forall k | 0 <= k < |env.branches|
      ensures env.branches[k].id in DeclaredOrder(plan.unresolvedBranchIds, env.branches) <==> LeftOpen(env, plan, k)
    {
      DeclaredAre(plan.unresolvedBranchIds, env.branches, env.branches[k].id);
    }
  }

  /** What a run asks, by index. */
  lemma AskedIs(env: Env, replies: seq<Reply>) returns (k: int)
    requires |replies| >= 2
    ensures AskedBy(env, replies).Some? <==> AskedAt(env, replies, k)
    ensures AskedBy(env, replies).Some? ==> AskedBy(env, replies) == Some(env.branches[k])
    ensures forall j :: AskedAt(env, replies, j) ==> AskedBy(env, replies).Some? && j == k
  {
    var plan := replies[1].plan;
    OpenIffReported(env, plan);
    k := FirstOpenIs(env.branches, DeclaredOrder(plan.unresolvedBranchIds, env.branches));
  }

  /** The assumptions stated are those of the branches at these places, in order. */
  ghost predicate StatedAt(stated: seq<string>, branches: seq<Branch>, places: seq<int>) {
    && |stated| == |places|
    && (forall i :: 0 <= i < |places| ==> 0 <= places[i] < |branches| && stated[i] == branches[places[i]].assumption)
    && (forall i, j :: 0 <= i < j < |places| ==> places[i] < places[j])
  }

  predicate StaysOpen(branches: seq<Branch>, unresolved: seq<string>, resolved: Option<string>, k: int) {
    0 <= k < |branches| && branches[k].id in unresolved && resolved != Some(branches[k].id)
  }

  function Ahead(places: seq<int>): (r: seq<int>)
    ensures |r| == |places| && forall i :: 0 <= i < |places| ==> r[i] == places[i] + 1
  {
    seq(|places|, i requires 0 <= i < |places| => places[i] + 1)
  }

  lemma AheadHolds(places: seq<int>, k: int)
    ensures k in Ahead(places) <==> k - 1 in places
  {
    if k - 1 in places {
      var i :| 0 <= i < |places| && places[i] == k - 1;
      assert Ahead(places)[i] == k;
    }
  }

  lemma StatedAhead(stated: seq<string>, branches: seq<Branch>, places: seq<int>)
    requires branches != [] && StatedAt(stated, branches[1..], places)
    ensures StatedAt(stated, branches, Ahead(places))
  {
  }

  lemma StatedFirst(stated: seq<string>, branches: seq<Branch>, later: seq<int>)
    requires branches != [] && StatedAt(stated, branches, later) && forall i :: 0 <= i < |later| ==> later[i] > 0
    ensures StatedAt([branches[0].assumption] + stated, branches, [0] + later)
  {
  }

  lemma StaysOpenTail(branches: seq<Branch>, unresolved: seq<string>, resolved: Option<string>, k: int)
    requires branches != []
    ensures StaysOpen(branches, unresolved, resolved, k) <==>
      (k == 0 && branches[0].id in unresolved && resolved != Some(branches[0].id)) ||
      StaysOpen(branches[1..], unresolved, resolved, k - 1)
  {
  }

  lemma AssumeFirst(branch: Branch, rest: seq<Branch>)
    ensures Assumptions([branch] + rest) == [branch.assumption] + Assumptions(rest)
  {
    assert ([branch] + rest)[1..] == rest;
  }

  /** The places of the branches that stay open. */
  function OpenPlaces(branches: seq<Branch>, unresolved: seq<string>, resolved: Option<string>): seq<int> {
    if branches == [] then []
    else
      (if branches[0].id in unresolved && resolved != Some(branches[0].id) then [0] else [])
      + Ahead(OpenPlaces(branches[1..], unresolved, resolved))
  }

  lemma {:induction false} OpenPlacesAre(branches: seq<Branch>, unresolved: seq<string>, resolved: Option<string>, k: int)
    ensures k in OpenPlaces(branches, unresolved, resolved) <==> StaysOpen(branches, unresolved, resolved, k)
  {
    if branches != [] {
      OpenPlacesAre(branches[1..], unresolved, resolved, k - 1);
      AheadHolds(OpenPlaces(branches[1..], unresolved, resolved), k);
      StaysOpenTail(branches, unresolved, resolved, k);
    }
  }

  lemma AheadIsPositive(branches: seq<Branch>, stated: seq<string>, places: seq<int>)
    requires StatedAt(stated, branches, places)
    ensures forall i :: 0 <= i < |places| ==> Ahead(places)[i] > 0
  {
  }

  lemma {:induction false} OpenAreStated(branches: seq<Branch>, unresolved: seq<string>, resolved: Option<string>)
    ensures StatedAt(Assumptions(OpenBranches(branches, unresolved, resolved)), branches, OpenPlaces(branches, unresolved, resolved))
  {
    if branches != [] {
      var rest, tail := OpenBranches(branches[1..], unresolved, resolved), OpenPlaces(branches[1..], unresolved, resolved);
      OpenAreStated(branches[1..], unresolved, resolved);
      StatedAhead(Assumptions(rest), branches, tail);
      AheadIsPositive(branches[1..], Assumptions(rest), tail);
      if branches[0].id in unresolved && resolved != Some(branches[0].id) {
        StatedFirst(Assumptions(rest), branches, Ahead(tail));
        AssumeFirst(branches[0], rest);
      } else {
        assert [] + rest == rest && [] + Ahead(tail) == Ahead(tail);
      }
    }
  }

  /** How a run that was not rejected stands once it is past the question: each open branch in one way, and a date. */
  ghost predicate BranchesEnded(env: Env, today: Date, replies: seq<Reply>, s: State, places: seq<int>)
    requires |replies| >= 2
  {
    var plan := replies[1].plan;
    && |s.assumptions| >= |plan.assumptions| && s.assumptions[..|plan.assumptions|] == plan.assumptions
    && StatedAt(s.assumptions[|plan.assumptions|..], env.branches, places)
    && (forall k :: k in places <==>
          LeftOpen(env, plan, k) &&
          forall a :: AnsweredAt(env, today, replies, a) ==> env.branches[a].id != env.branches[k].id)
    && (forall a :: AnsweredAt(env, today, replies, a) ==> s.caseFacts == [FactOf(env, env.branches[a], replies[3].answer)])
    && ((forall a :: !AnsweredAt(env, today, replies, a)) ==> s.caseFacts == [])
  }

  /** The date the run answers at: the one the reply sets, else the one read in the question, else today. */
  ghost predicate DateIsRead(env: Env, today: Date, replies: seq<Reply>, s: State)
    requires |replies| >= 2
  {
    var read := env.parseTargetDate(replies[1].plan.targetDateReference);
    && (forall a :: AnsweredAt(env, today, replies, a) && env.branches[a].setsTargetDate ==>
          env.parseTargetDate(Strip(replies[3].answer)) == Some(TargetDate(s.targetDate, s.targetDatePrecision)))
    && ((forall a :: AnsweredAt(env, today, replies, a) ==> !env.branches[a].setsTargetDate) ==>
          TargetDate(s.targetDate, s.targetDatePrecision) ==
          if read.Some? && read.value.value <= today then read.value else TargetDate(today, DatePrecision.NONE))
  }

  lemma DateOfReference(env: Env, reference: string, today: Date)
    ensures var read := env.parseTargetDate(reference);
      ResolveTargetDate(env, reference, today) ==
      if read.Some? && read.value.value <= today then read.value else TargetDate(today, DatePrecision.NONE)
  {
  }

  lemma SettledIsEnded(env: Env, today: Date, replies: seq<Reply>, s: State) returns (places: seq<int>)
    requires |replies| >= 2 && (AskedBy(env, replies).Some? ==> |replies| >= 4) && s.today == today
    requires Settled(env, s, replies[1].plan, AskedBy(env, replies), ResolvedBy(env, today, replies))
    ensures BranchesEnded(env, today, replies, s, places) && DateIsRead(env, today, replies, s)
  {
    var plan, asked, resolution := replies[1].plan, AskedBy(env, replies), ResolvedBy(env, today, replies);
    var k := AskedIs(env, replies);
    if asked.Some? { ReplyResolves(env, today, asked.value, replies[3].answer); }
    assert resolution.Some? <==> AnsweredAt(env, today, replies, k);
    assert forall a :: AnsweredAt(env, today, replies, a) ==> a == k;
    DateOfReference(env, plan.targetDateReference, today);
    OpenIffReported(env, plan);
    var resolved := ResolvedId(asked, resolution);
    places := OpenPlaces(env.branches, s.unresolvedBranchIds, resolved);
    OpenAreStated(env.branches, s.unresolvedBranchIds, resolved);
    forall j ensures j in places <==> StaysOpen(env.branches, s.unresolvedBranchIds, resolved, j) {
      OpenPlacesAre(env.branches, s.unresolvedBranchIds, resolved, j);
    }
    assert s.assumptions[|plan.assumptions|..] == Assumptions(OpenBranches(env.branches, s.unresolvedBranchIds, resolved));
  }

  /**
    In every run past the question that was not rejected, each branch of the vertical the plan reports
    ends in one of two ways: it is the one asked and the reply's fact is the run's one fact, or its
    assumption is stated; and the run answers at the date the reply sets, or else at the one it read.
  */
  lemma EveryBranchEndsOnce(env: Env, question: string, today: Date, replies: seq<Reply>) returns (places: seq<int>)
    requires Situated(Run(env, Start(question, today), replies))
    requires Run(env, Start(question, today), replies).state.outcome != Some(ROUTER_REJECTION)
    ensures |replies| >= 3 && ((exists k :: AskedAt(env, replies, k)) ==> |replies| >= 4)
    ensures BranchesEnded(env, today, replies, Run(env, Start(question, today), replies).state, places)
    ensures DateIsRead(env, today, replies, Run(env, Start(question, today), replies).state)
  {
    BranchesAreSettled(env, question, today, replies);
    ClockNeverMoves(env, Start(question, today), replies);
    var k := AskedIs(env, replies);
    places := SettledIsEnded(env, today, replies, Run(env, Start(question, today), replies).state);
  }

  /** A run pauses exactly when there is a branch to ask, and then asks that branch's question. */
  lemma PausesToAsk(env: Env, question: string, today: Date, replies: seq<Reply>)
    requires |replies| == 3 && replies[0].router.scope == IN_SCOPE
    ensures var c := Run(env, Start(question, today), replies);
      && (c.node == Paused <==> exists k :: AskedAt(env, replies, k))
      && (forall k :: AskedAt(env, replies, k) ==>
            ResponseOf(env, c).clarification == Some(Clarification(env.branches[k].id, env.branches[k].question)))
  {
    var init := replies[..2];
    assert replies[..2][..1] == replies[..1] && replies[..1][..0] == [];
    assert Run(env, Start(question, today), replies[..1]).node == Node.Plan;
    assert Run(env, Start(question, today), init).node == Clarify;
    AskedAsPlanned(env, question, today, init);
    var k := AskedIs(env, replies);
    var c := Run(env, Start(question, today), replies);
    if c.node == Paused { AskedAsPlanned(env, question, today, replies); }
  }
}
