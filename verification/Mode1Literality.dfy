/**
  The safety claim of Mode 1: whatever the model and the retrievers reply, every citation a run
  displays passes the independent guardrail, and its notices tell exactly which of them the law of
  today has left behind.
*/
module Mode1Literality {
  import opened Wrappers
  import opened Typography
  import opened BlockRefs
  import opened Corpus
  import opened Verifier
  import opened Guardrail
  import opened Notices
  import opened Mode1Graph
  import opened Mode1Loop
  import opened Mode1Safety

  // ---------- The traced evidence is the evidence verified against ----------

  lemma {:induction false} HasKeyConcat(a: seq<RetrievedBlock>, b: seq<RetrievedBlock>, key: BlockRef)
    ensures HasKey(a + b, key) <==> HasKey(a, key) || HasKey(b, key)
  {
    if HasKey(a, key) {
      var i :| 0 <= i < |a| && KeyOf(a[i]) == key;
      assert KeyOf((a + b)[i]) == key;
    }
    if HasKey(b, key) {
      var i :| 0 <= i < |b| && KeyOf(b[i]) == key;
      assert KeyOf((a + b)[|a| + i]) == key;
    }
  }

  lemma {:induction false} FirstPerKeyMissesNone(blocks: seq<RetrievedBlock>, key: BlockRef)
    ensures HasKey(FirstPerKey(blocks), key) <==> HasKey(blocks, key)
  {
    if blocks != [] {
      var init, last := blocks[..|blocks| - 1], blocks[|blocks| - 1];
      FirstPerKeyMissesNone(init, key);
      HasKeyAppend(init, last, key);
      HasKeyAppend(FirstPerKey(init), last, key);
      assert blocks == init + [last];
    }
  }

  ghost predicate Retrieved(subs: seq<SubQueryState>, key: BlockRef) {
    exists i :: 0 <= i < |subs| && HasKey(subs[i].evidence, key)
  }

  lemma {:induction false} AllEvidenceIsRetrieved(subs: seq<SubQueryState>, key: BlockRef)
    ensures HasKey(AllEvidence(subs), key) <==> Retrieved(subs, key)
  {
    if subs != [] {
      var init, last := subs[..|subs| - 1], subs[|subs| - 1];
      AllEvidenceIsRetrieved(init, key);
      HasKeyConcat(AllEvidence(init), last.evidence, key);
      if Retrieved(init, key) {
        var i :| 0 <= i < |init| && HasKey(init[i].evidence, key);
        assert HasKey(subs[i].evidence, key);
      }
    }
  }

  lemma KeysAreRefs(blocks: seq<RetrievedBlock>, key: BlockRef)
    ensures key in Refs(blocks) <==> HasKey(blocks, key)
  {
    if HasKey(blocks, key) {
      var i :| 0 <= i < |blocks| && KeyOf(blocks[i]) == key;
      assert Refs(blocks)[i] == key;
    }
  }

  lemma TracedEvidence(s: State, key: BlockRef)
    requires BuildResponse(s).agentic.Some?
    ensures key in EvidenceRefs(BuildResponse(s)) <==> Retrieved(s.subqueries, key)
  {
    var reports := BuildResponse(s).agentic.value.subqueries;
    if key in EvidenceRefs(BuildResponse(s)) {
      var i, j :| 0 <= i < |reports| && 0 <= j < |reports[i].evidence| && reports[i].evidence[j] == key;
      KeysAreRefs(s.subqueries[i].evidence, key);
    }
    if Retrieved(s.subqueries, key) {
      var i :| 0 <= i < |s.subqueries| && HasKey(s.subqueries[i].evidence, key);
      KeysAreRefs(s.subqueries[i].evidence, key);
      var j :| 0 <= j < |reports[i].evidence| && reports[i].evidence[j] == key;
    }
  }

  /** The evidence the response traces is exactly the evidence the citations were verified against. */
  lemma TracedIsVerifiedAgainst(s: State)
    requires BuildResponse(s).agentic.Some?
    ensures EvidenceRefs(BuildResponse(s)) == RefSet(Refs(UnionEvidence(s.subqueries)))
  {
    forall key ensures key in EvidenceRefs(BuildResponse(s)) <==> key in Refs(UnionEvidence(s.subqueries)) {
      TracedEvidence(s, key);
      AllEvidenceIsRetrieved(s.subqueries, key);
      FirstPerKeyMissesNone(AllEvidence(s.subqueries), key);
      KeysAreRefs(UnionEvidence(s.subqueries), key);
    }
  }

  // ---------- What is displayed ----------

  lemma {:induction false} HeldIsShown(results: seq<CitationResult>, c: VerifiedCitation)
    requires forall i :: 0 <= i < |results| && results[i].verdict != DISCARDED ==> results[i].anchor.Some?
    requires c in Held(results)
    ensures exists i :: 0 <= i < |results| && results[i].verdict != DISCARDED && c == Shown(results[i])
  {
    var init, last := results[..|results| - 1], results[|results| - 1];
    if c in Held(init) {
      HeldIsShown(init, c);
      var i :| 0 <= i < |init| && init[i].verdict != DISCARDED && c == Shown(init[i]);
      assert results[i] == init[i];
    }
  }

  /** Each displayed citation is one proposed citation the verifier let through. */
  lemma SurvivorOf(env: Env, subs: seq<SubQueryState>, date: Date, citations: seq<ProposedCitation>, c: VerifiedCitation)
    returns (proposed: ProposedCitation)
    requires c in Survivors(env, subs, date, citations)
    ensures var r := VerifyOne(env.tools, env.store, date, Refs(UnionEvidence(subs)), proposed);
      r.verdict != DISCARDED && r.anchor.Some? && c == Shown(r)
  {
    var evidence := Refs(UnionEvidence(subs));
    var results := VerifyAll(env.tools, env.store, date, evidence, citations);
    HeldCarryAnchors(env.tools, env.store, date, evidence, citations);
    HeldIsShown(results, c);
    var i :| 0 <= i < |results| && results[i].verdict != DISCARDED && c == Shown(results[i]);
    proposed := citations[i];
  }

  lemma AnsweredFromSynthesis(env: Env, question: string, today: Date, replies: seq<Reply>)
    requires Run(env, Start(question, today), replies).node == End
    requires BuildResponse(Run(env, Start(question, today), replies).state).answer.Some?
    ensures var s := Run(env, Start(question, today), replies).state;
      && Exhausted(s) && Synthesized(env, s) && Decided(s) && s == NotifyNode(env, s)
      && s.synthesis.Some? && s.verified == Survivors(env, s.subqueries, s.targetDate, s.synthesis.value.fundamento)
      && (s.outcome == Some(ANSWER) || s.outcome == Some(PARTIAL_ANSWER))
      && BuildResponse(s).answer.value.fundamento == s.verified
      && BuildResponse(s).answer.value.fechaObjetivo == s.targetDate
      && BuildResponse(s).answer.value.avisosVigencia == s.notices
      && BuildResponse(s).agentic.Some?
  {
    ReachableInvariant(env, question, today, replies);
  }

  /** What the guardrail makes of one displayed citation. */
  ghost predicate Passes(env: Env, response: AskResponse, date: Date, c: VerifiedCitation) {
    CheckOne(env.tools, env.store, date, EvidenceRefs(response), c).None?
  }

  /** A displayed citation passes unless it shows only ellipses, or misreads and is refused where it reads. */
  ghost predicate Judged(env: Env, response: AskResponse, date: Date, c: VerifiedCitation) {
    && (ReadsBack(c) ==> (Passes(env, response, date, c) <==> !EllipsisOnly(env.tools.nfc, c.text)))
    && (c.verdict != REPAIRED_ANCHOR ==> ReadsBack(c))
    && (EllipsisOnly(env.tools.nfc, c.text) ==> !Passes(env, response, date, c))
    && (c.verdict == VERIFIED_DIRECT ==> !EllipsisOnly(env.tools.nfc, c.text))
  }

  lemma DisplayedCitation(env: Env, s: State, c: VerifiedCitation)
    requires Sound(env.tools) && s.synthesis.Some?
    requires c in Survivors(env, s.subqueries, s.targetDate, s.synthesis.value.fundamento)
    requires BuildResponse(s).agentic.Some?
    ensures Judged(env, BuildResponse(s), s.targetDate, c)
  {
    var evidence := Refs(UnionEvidence(s.subqueries));
    var proposed := SurvivorOf(env, s.subqueries, s.targetDate, s.synthesis.value.fundamento, c);
    TracedIsVerifiedAgainst(s);
    SurvivorReverifies(env.tools, env.store, s.targetDate, evidence, proposed);
  }

  /** A displayed citation the guardrail refuses. */
  ghost predicate Refused(env: Env, response: AskResponse, date: Date, c: VerifiedCitation) {
    EllipsisOnly(env.tools.nfc, c.text) || (!ReadsBack(c) && !Passes(env, response, date, c))
  }

  /** What the guardrail makes of citations each of which is judged so. */
  ghost predicate AllJudged(env: Env, response: AskResponse, date: Date, citations: seq<VerifiedCitation>) {
    forall c :: c in citations ==> Judged(env, response, date, c)
  }

  lemma CleanIffNoneRefused(env: Env, response: AskResponse, date: Date, caseId: string, citations: seq<VerifiedCitation>)
    requires AllJudged(env, response, date, citations)
    ensures Violations(env.tools, env.store, date, EvidenceRefs(response), caseId, citations) == [] <==>
            forall c :: c in citations ==> !Refused(env, response, date, c)
  {
    NoViolations(env.tools, env.store, date, EvidenceRefs(response), caseId, citations);
    forall c | c in citations ensures Passes(env, response, date, c) <==> !Refused(env, response, date, c) {
      assert Judged(env, response, date, c);
    }
  }

  /**
    Whatever the collaborators reply and whatever date the case was launched at, the citations of
    any ended run pass the guardrail over the same corpus. It reports a violation exactly when a
    displayed text is ellipsis-only, which a directly verified text never is, or when a re-anchored
    citation names a block that does not read back from its token, and is refused where it reads.
  */
  lemma DisplayedCitationsPass(env: Env, question: string, today: Date, replies: seq<Reply>, caseId: string, caseDate: Date)
    requires Sound(env.tools) && Run(env, Start(question, today), replies).node == End
    ensures var response := BuildResponse(Run(env, Start(question, today), replies).state);
      if response.answer.None? then CheckCaseCitations(env, caseId, response, caseDate) == []
      else
        var answer := response.answer.value;
        && (CheckCaseCitations(env, caseId, response, caseDate) == [] <==>
            forall c :: c in answer.fundamento ==> !Refused(env, response, answer.fechaObjetivo, c))
        && AllJudged(env, response, answer.fechaObjetivo, answer.fundamento)
  {
    var s := Run(env, Start(question, today), replies).state;
    var response := BuildResponse(s);
    if response.answer.Some? {
      AnsweredFromSynthesis(env, question, today, replies);
      forall c | c in s.verified ensures Judged(env, response, s.targetDate, c) {
        DisplayedCitation(env, s, c);
      }
      CleanIffNoneRefused(env, response, s.targetDate, caseId, s.verified);
    }
  }

  // ---------- What the notices say of what is displayed ----------

  lemma DisplayedIsResolved(env: Env, s: State, c: VerifiedCitation)
    requires Sound(env.tools) && s.synthesis.Some?
    requires forall b :: b in env.store ==> DistinctDates(env.store[b].versions)
    requires c in Survivors(env, s.subqueries, s.targetDate, s.synthesis.value.fundamento)
    ensures ResolvedAt(env.store, CitedBlock(AnchorRef(c), c.anchor.title, c.anchor.effectiveDate), s.targetDate)
  {
    var evidence := Refs(UnionEvidence(s.subqueries));
    var proposed := SurvivorOf(env, s.subqueries, s.targetDate, s.synthesis.value.fundamento, c);
    var block, spans := SurvivorIsBacked(env.tools, env.store, s.targetDate, evidence, proposed);
    assert AnchorRef(c) == block;
  }

  /**
    What the notices say of a displayed citation: its token is named once for each displayed block that
    prints it and is superseded today; once or not at all, where no other displayed block prints it.
  */
  ghost predicate TellsSuperseded(store: Store, shown: seq<VerifiedCitation>, target: Date, today: Date,
                                  notices: seq<InForceNotice>, c: VerifiedCitation)
    requires AnchorRef(c) in store
  {
    var versions, token := store[AnchorRef(c)].versions, Print(AnchorRef(c));
    var n := Count(notices, SUPERSEDED_REDACTION, token);
    && n == |SupersededUnder(store, CitedBlocks(shown), target, today, token)|
    && (TokenIsOwn(shown, c) ==> n == if InForce(versions, today) != InForce(versions, target) then 1 else 0)
  }

  ghost predicate TokenIsOwn(shown: seq<VerifiedCitation>, c: VerifiedCitation) {
    forall d :: d in shown && Print(AnchorRef(d)) == Print(AnchorRef(c)) ==> AnchorRef(d) == AnchorRef(c)
  }

  lemma CitedAreResolved(env: Env, s: State)
    requires Sound(env.tools) && s.synthesis.Some?
    requires forall b :: b in env.store ==> DistinctDates(env.store[b].versions)
    requires s.verified == Survivors(env, s.subqueries, s.targetDate, s.synthesis.value.fundamento)
    ensures forall d :: d in CitedBlocks(s.verified) ==> ResolvedAt(env.store, d, s.targetDate)
  {
    var cited := CitedBlocks(s.verified);
    forall d | d in cited ensures ResolvedAt(env.store, d, s.targetDate) {
      var i :| 0 <= i < |cited| && cited[i] == d;
      DisplayedIsResolved(env, s, s.verified[i]);
    }
  }

  lemma NoticesTell(store: Store, shown: seq<VerifiedCitation>, target: TargetDate, today: Date, yearEnd: Date -> Date,
                    c: VerifiedCitation)
    requires c in shown && target.value <= today
    requires forall d :: d in CitedBlocks(shown) ==> ResolvedAt(store, d, target.value)
    ensures AnchorRef(c) in store
    ensures TellsSuperseded(store, shown, target.value, today, BuildNotices(store, CitedBlocks(shown), target, today, yearEnd), c)
  {
    var cited := CitedBlocks(shown);
    var k :| 0 <= k < |shown| && shown[k] == c;
    assert cited[k] in cited;
    SupersededOncePerBlock(store, cited, target, today, yearEnd, Print(AnchorRef(c)));
    if TokenIsOwn(shown, c) {
      forall d | d in cited && Print(d.ref) == Print(cited[k].ref) ensures d.ref == cited[k].ref {
        var i :| 0 <= i < |cited| && cited[i] == d;
        assert shown[i] in shown;
      }
      OwnTokenCountsOnce(store, cited, target.value, today, cited[k]);
    }
  }

  /** In every run that answers, the notices tell which displayed citations the law of today has left behind. */
  lemma NoticesTellTheSuperseded(env: Env, question: string, today: Date, replies: seq<Reply>, c: VerifiedCitation)
    requires Sound(env.tools) && Run(env, Start(question, today), replies).node == End
    requires forall b :: b in env.store ==> DistinctDates(env.store[b].versions)
    requires BuildResponse(Run(env, Start(question, today), replies).state).answer.Some?
    requires c in BuildResponse(Run(env, Start(question, today), replies).state).answer.value.fundamento
    ensures AnchorRef(c) in env.store
    ensures var answer := BuildResponse(Run(env, Start(question, today), replies).state).answer.value;
      TellsSuperseded(env.store, answer.fundamento, answer.fechaObjetivo, today, answer.avisosVigencia, c)
  {
    var s := Run(env, Start(question, today), replies).state;
    AnsweredFromSynthesis(env, question, today, replies);
    NeverPastToday(env, question, today, replies);
    CitedAreResolved(env, s);
    NoticesTell(env.store, s.verified, TargetDate(s.targetDate, s.targetDatePrecision), s.today, env.yearEnd, c);
  }
}
