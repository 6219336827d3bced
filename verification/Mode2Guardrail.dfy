/** The literality guardrail over a risk map: clause citations and absence whites alike. */
module Mode2Guardrail {
  import opened Wrappers
  import opened Lists
  import opened BlockRefs
  import opened Corpus
  import opened Verifier
  import opened Guardrail
  import opened Risk

  ghost function CheckShown(tools: Tools, store: Store, date: Date, c: VerifiedCitation): Option<Reason> {
    if c.verdict == DISCARDED then Some(REASON_DISCARDED) else
    match Parse(c.blockRef)
    case None => Some(REASON_UNQUALIFIED)
    case Some(cited) => Reverify(tools, store, date, cited, c.text)
  }

  /** What one shown citation, if there is one, adds to the violations. */
  ghost function ViolationOf(tools: Tools, store: Store, date: Date, caseId: string, c: Option<VerifiedCitation>): seq<Violation> {
    if c.None? then [] else
    match CheckShown(tools, store, date, c.value)
    case None => []
    case Some(reason) => [Violation(caseId, c.value.blockRef, reason, c.value.text, date)]
  }

  ghost function ShownViolations(tools: Tools, store: Store, date: Date, caseId: string, shown: seq<Option<VerifiedCitation>>): seq<Violation> {
    if shown == [] then []
    else
      ShownViolations(tools, store, date, caseId, shown[..|shown| - 1]) +
      ViolationOf(tools, store, date, caseId, shown[|shown| - 1])
  }

  function ClauseCitations(findings: seq<ClauseFinding>): (r: seq<Option<VerifiedCitation>>)
    ensures |r| == |findings| && forall i :: 0 <= i < |findings| ==> r[i] == findings[i].citation
  {
    seq(|findings|, i requires 0 <= i < |findings| => findings[i].citation)
  }

  function WhiteCitations(whites: seq<AbsenceFinding>): (r: seq<Option<VerifiedCitation>>)
    ensures |r| == |whites| && forall i :: 0 <= i < |whites| ==> r[i] == whites[i].citation
  {
    seq(|whites|, i requires 0 <= i < |whites| => whites[i].citation)
  }

  /** Everything a risk map shows a reader, clauses first. */
  function ShownBy(riskMap: RiskMap): seq<Option<VerifiedCitation>> {
    ClauseCitations(riskMap.clauseFindings) + WhiteCitations(riskMap.absenceFindings)
  }

  /** Appends to the violations the one a citation amounts to, if any. */
  method Collect(violations0: seq<Violation>, tools: Tools, store: Store, date: Date, caseId: string,
                 citation: Option<VerifiedCitation>)
    returns (violations: seq<Violation>)
    ensures violations == violations0 + ViolationOf(tools, store, date, caseId, citation)
  {
    violations := violations0;
    if citation.None? { return; }
    var c := citation.value;
    var reason: Option<Reason>;
    var cited := Parse(c.blockRef);
    if c.verdict == DISCARDED {
      reason := Some(REASON_DISCARDED);
    } else if cited.None? {
      reason := Some(REASON_UNQUALIFIED);
    } else {
      reason := ReverifyQuote(tools, store, date, cited.value, c.text);
    }
    if reason.Some? {
      violations := violations + [Violation(caseId, c.blockRef, reason.value, c.text, date)];
    }
  }

  lemma ShownStep(tools: Tools, store: Store, date: Date, caseId: string, shown: seq<Option<VerifiedCitation>>, n: nat)
    requires n < |shown|
    ensures ShownViolations(tools, store, date, caseId, shown[..n + 1]) ==
            ShownViolations(tools, store, date, caseId, shown[..n]) + ViolationOf(tools, store, date, caseId, shown[n])
  {
    assert shown[..n + 1][..n] == shown[..n] && shown[..n + 1][n] == shown[n];
  }

  lemma {:induction false} ShownConcat(tools: Tools, store: Store, date: Date, caseId: string,
                                       a: seq<Option<VerifiedCitation>>, b: seq<Option<VerifiedCitation>>)
    ensures ShownViolations(tools, store, date, caseId, a + b) ==
            ShownViolations(tools, store, date, caseId, a) + ShownViolations(tools, store, date, caseId, b)
  {
    if b == [] {
      assert a + b == a;
    } else {
      var init := b[..|b| - 1];
      ShownConcat(tools, store, date, caseId, a, init);
      InitOfConcat(a, b);
    }
  }

  method CollectFindings(tools: Tools, store: Store, date: Date, caseId: string, findings: seq<ClauseFinding>)
    returns (violations: seq<Violation>)
    ensures violations == ShownViolations(tools, store, date, caseId, ClauseCitations(findings))
  {
    violations := [];
    ghost var shown := ClauseCitations(findings);
    for n := 0 to |findings|
      invariant violations == ShownViolations(tools, store, date, caseId, shown[..n])
    {
      ShownStep(tools, store, date, caseId, shown, n);
      violations := Collect(violations, tools, store, date, caseId, findings[n].citation);
    }
    assert shown[..|findings|] == shown;
  }

  method CollectWhites(violations0: seq<Violation>, tools: Tools, store: Store, date: Date, caseId: string,
                       whites: seq<AbsenceFinding>)
    returns (violations: seq<Violation>)
    ensures violations == violations0 + ShownViolations(tools, store, date, caseId, WhiteCitations(whites))
  {
    violations := violations0;
    ghost var shown := WhiteCitations(whites);
    for n := 0 to |whites|
      invariant violations == violations0 + ShownViolations(tools, store, date, caseId, shown[..n])
    {
      ShownStep(tools, store, date, caseId, shown, n);
      AppendAssociates(violations0, ShownViolations(tools, store, date, caseId, shown[..n]),
                       ViolationOf(tools, store, date, caseId, shown[n]));
      violations := Collect(violations, tools, store, date, caseId, whites[n].citation);
    }
    assert shown[..|whites|] == shown;
  }

  /** The violations of an analysis; one that stopped at a gate has no risk map and no violation. */
  method CheckMode2Citations(tools: Tools, store: Store, date: Date, caseId: string, riskMap: Option<RiskMap>)
    returns (violations: seq<Violation>)
    ensures violations == if riskMap.None? then [] else ShownViolations(tools, store, date, caseId, ShownBy(riskMap.value))
  {
    if riskMap.None? { return []; }
    violations := CollectFindings(tools, store, date, caseId, riskMap.value.clauseFindings);
    violations := CollectWhites(violations, tools, store, date, caseId, riskMap.value.absenceFindings);
    ShownConcat(tools, store, date, caseId, ClauseCitations(riskMap.value.clauseFindings),
                WhiteCitations(riskMap.value.absenceFindings));
  }

  lemma {:induction false} CleanIffAllPass(tools: Tools, store: Store, date: Date, caseId: string, shown: seq<Option<VerifiedCitation>>)
    ensures ShownViolations(tools, store, date, caseId, shown) == [] <==>
      forall c :: c in shown && c.Some? ==> CheckShown(tools, store, date, c.value).None?
  {
    if shown != [] {
      var init, last := shown[..|shown| - 1], shown[|shown| - 1];
      CleanIffAllPass(tools, store, date, caseId, init);
      assert forall c :: c in shown <==> c in init || c == last;
    }
  }

  /** The violations are those of the shown citations that fail, each with its reason. */
  lemma {:induction false} ShownViolationsAre(tools: Tools, store: Store, date: Date, caseId: string,
                                              shown: seq<Option<VerifiedCitation>>, v: Violation)
    ensures v in ShownViolations(tools, store, date, caseId, shown) <==>
      exists c :: Some(c) in shown && CheckShown(tools, store, date, c) == Some(v.reason) &&
                  v.caseId == caseId && v.blockRef == c.blockRef && v.quote == c.text && v.verifiedAt == date
  {
    if shown != [] {
      var init, last := shown[..|shown| - 1], shown[|shown| - 1];
      ShownViolationsAre(tools, store, date, caseId, init, v);
      assert forall c :: c in shown <==> c in init || c == last by { assert shown == init + [last]; }
    }
  }

  /** A citation the risk map shows can be looked up: its token names a block in force. */
  ghost predicate Locatable(store: Store, date: Date, c: VerifiedCitation) {
    c.verdict != DISCARDED && Parse(c.blockRef).Some? && ResolveBlock(store, Parse(c.blockRef).value, date).Some?
  }

  /** A shown citation passes exactly when its token names a block in force that holds the shown text literally. */
  lemma ShownPassesIffLiteral(tools: Tools, store: Store, date: Date, c: VerifiedCitation)
    ensures CheckShown(tools, store, date, c).None? <==>
      && Locatable(store, date, c)
      && Literal(tools.nfc, c.text, ResolveBlock(store, Parse(c.blockRef).value, date).value.text)
    ensures CheckShown(tools, store, date, c) == Some(REASON_NOT_LITERAL) <==>
      && Locatable(store, date, c) && !EllipsisOnly(tools.nfc, c.text)
      && !Literal(tools.nfc, c.text, ResolveBlock(store, Parse(c.blockRef).value, date).value.text)
  {
    if Parse(c.blockRef).Some? {
      var evidence := {Parse(c.blockRef).value};
      PassesIffLiteral(tools, store, date, evidence, c);
      ReasonsAre(tools, store, date, evidence, c);
      SameButForEvidence(tools, store, date, evidence, c);
    }
  }

  /** A citation Mode 1's guardrail passes, Mode 2's passes too; it lacks only the evidence check. */
  lemma SameButForEvidence(tools: Tools, store: Store, date: Date, evidence: set<BlockRef>, c: VerifiedCitation)
    ensures CheckOne(tools, store, date, evidence, c) ==
            if c.verdict != DISCARDED && Parse(c.blockRef).Some? && Parse(c.blockRef).value !in evidence
            then Some(REASON_NO_EVIDENCE) else CheckShown(tools, store, date, c)
  {
  }
}
