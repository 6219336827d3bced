/** Phase B of the risk map: one clause judged against its evidence, its citation verified. */
module Classification {
  import opened Wrappers
  import opened Lists
  import opened BlockRefs
  import opened Corpus
  import opened Verifier
  import opened Guardrail
  import opened Checklists
  import opened Risk
  import M = Mode1Graph

  type RetrievedBlock = M.RetrievedBlock

  /** The verdict the model proposes for one clause. */
  datatype ClauseClassification = ClauseClassification(
    level: ProposedClauseLevel, explanation: string, whatYouCanDo: seq<string>, citation: Option<ProposedCitation>)

  /** What a contract is judged against. */
  datatype Ground = Ground(tools: Tools, store: Store, checklist: Checklist, targetDate: Date)

  // ---------- The evidence ----------

  function BlockAt(ground: Ground, anchor: string): (r: Option<RetrievedBlock>)
    ensures r.Some? ==> M.KeyOf(r.value) == BlockRef(ground.checklist.normId, anchor)
  {
    match ResolveBlock(ground.store, BlockRef(ground.checklist.normId, anchor), ground.targetDate)
    case None => None
    case Some(resolved) =>
      Some(M.RetrievedBlock(ground.checklist.normId, resolved.anchor.normLabel, anchor, resolved.anchor.title,
                            resolved.text, resolved.anchor.effectiveDate))
  }

  function AllAnchors(items: seq<ChecklistItem>): seq<string> {
    if items == [] then [] else AllAnchors(items[..|items| - 1]) + items[|items| - 1].anchors
  }

  function Resolvable(ground: Ground, anchors: seq<string>): seq<string> {
    if anchors == [] then []
    else
      var last := anchors[|anchors| - 1];
      Resolvable(ground, anchors[..|anchors| - 1]) + (if BlockAt(ground, last).Some? then [last] else [])
  }

  lemma {:induction false} ResolvableAre(ground: Ground, anchors: seq<string>, a: string)
    ensures a in Resolvable(ground, anchors) <==> a in anchors && BlockAt(ground, a).Some?
  {
    if anchors != [] {
      ResolvableAre(ground, anchors[..|anchors| - 1], a);
      assert anchors == anchors[..|anchors| - 1] + [anchors[|anchors| - 1]];
    }
  }

  lemma ResolvableStep(ground: Ground, anchors: seq<string>, last: string)
    ensures Resolvable(ground, anchors + [last]) ==
            Resolvable(ground, anchors) + (if BlockAt(ground, last).Some? then [last] else [])
  {
    assert (anchors + [last])[..|anchors|] == anchors;
  }

  /** The keys of the evidence: every anchor that resolves, once, in first-seen order. */
  function AnchorKeys(ground: Ground, anchors: seq<string>): seq<string> {
    FirstSeen(Resolvable(ground, anchors))
  }

  lemma AnchorKeysStep(ground: Ground, anchors: seq<string>, last: string)
    ensures AnchorKeys(ground, anchors + [last]) ==
            if last in AnchorKeys(ground, anchors) || BlockAt(ground, last).None? then AnchorKeys(ground, anchors)
            else AnchorKeys(ground, anchors) + [last]
  {
    ResolvableStep(ground, anchors, last);
    if BlockAt(ground, last).Some? {
      FirstSeenStep(Resolvable(ground, anchors), last);
    } else {
      AppendNothing(Resolvable(ground, anchors));
      FirstSeenIsDistinct(Resolvable(ground, anchors));
      ResolvableAre(ground, anchors, last);
    }
  }

  lemma AnchorKeysAre(ground: Ground, anchors: seq<string>)
    ensures Distinct(AnchorKeys(ground, anchors))
    ensures forall a :: a in AnchorKeys(ground, anchors) <==> a in anchors && BlockAt(ground, a).Some?
  {
    FirstSeenIsDistinct(Resolvable(ground, anchors));
    forall a ensures a in Resolvable(ground, anchors) <==> a in anchors && BlockAt(ground, a).Some? {
      ResolvableAre(ground, anchors, a);
    }
  }

  /** The evidence of a clause tied to checklist items: their anchor blocks in force, without repeats. */
  function AnchorEvidence(ground: Ground, anchors: seq<string>): (r: seq<RetrievedBlock>) {
    AnchorKeysAre(ground, anchors);
    BlocksAt(ground, AnchorKeys(ground, anchors))
  }

  function BlocksAt(ground: Ground, keys: seq<string>): (r: seq<RetrievedBlock>)
    requires forall k :: k in keys ==> BlockAt(ground, k).Some?
    ensures |r| == |keys|
    ensures forall i :: 0 <= i < |keys| ==> BlockAt(ground, keys[i]) == Some(r[i])
  {
    seq(|keys|, i requires 0 <= i < |keys| => assert keys[i] in keys; BlockAt(ground, keys[i]).value)
  }

  lemma SameBlocks(ground: Ground, keys: seq<string>, evidence: seq<RetrievedBlock>)
    requires forall k :: k in keys ==> BlockAt(ground, k).Some?
    requires |evidence| == |keys| && forall i :: 0 <= i < |keys| ==> BlockAt(ground, keys[i]) == Some(evidence[i])
    ensures evidence == BlocksAt(ground, keys)
  {
  }

  /** The insertion-ordered dictionary of resolved anchors: its keys in order, and what each holds. */
  ghost predicate HoldsAnchors(ground: Ground, anchors: seq<string>, order: seq<string>, blocks: map<string, RetrievedBlock>) {
    && order == AnchorKeys(ground, anchors)
    && (forall a :: a in blocks <==> a in order)
    && (forall a :: a in blocks ==> BlockAt(ground, a) == Some(blocks[a]))
  }

  method ResolveAnchor(ground: Ground, anchor: string, ghost anchors: seq<string>, order0: seq<string>,
                       blocks0: map<string, RetrievedBlock>)
    returns (order: seq<string>, blocks: map<string, RetrievedBlock>)
    requires HoldsAnchors(ground, anchors, order0, blocks0)
    ensures HoldsAnchors(ground, anchors + [anchor], order, blocks)
  {
    order, blocks := order0, blocks0;
    AnchorKeysStep(ground, anchors, anchor);
    if anchor in blocks { return; }
    var block := BlockAt(ground, anchor);
    if block.None? { return; }
    blocks := blocks[anchor := block.value];
    order := order + [anchor];
  }

  method ResolveItemAnchors(ground: Ground, item: ChecklistItem, ghost anchors: seq<string>, order0: seq<string>,
                            blocks0: map<string, RetrievedBlock>)
    returns (order: seq<string>, blocks: map<string, RetrievedBlock>)
    requires HoldsAnchors(ground, anchors, order0, blocks0)
    ensures HoldsAnchors(ground, anchors + item.anchors, order, blocks)
  {
    order, blocks := order0, blocks0;
    ghost var seen := anchors;
    assert seen == anchors + item.anchors[..0];
    for n := 0 to |item.anchors|
      invariant seen == anchors + item.anchors[..n]
      invariant HoldsAnchors(ground, seen, order, blocks)
    {
      TakeOneMore(anchors, item.anchors, n);
      order, blocks := ResolveAnchor(ground, item.anchors[n], seen, order, blocks);
      seen := seen + [item.anchors[n]];
    }
    assert item.anchors[..|item.anchors|] == item.anchors;
  }

  method ResolveAnchorBlocks(ground: Ground, items: seq<ChecklistItem>) returns (evidence: seq<RetrievedBlock>)
    ensures evidence == AnchorEvidence(ground, AllAnchors(items))
  {
    var order: seq<string>, blocks: map<string, RetrievedBlock> := [], map[];
    for n := 0 to |items|
      invariant HoldsAnchors(ground, AllAnchors(items[..n]), order, blocks)
    {
      assert items[..n + 1][..n] == items[..n] && items[..n + 1][n] == items[n];
      order, blocks := ResolveItemAnchors(ground, items[n], AllAnchors(items[..n]), order, blocks);
    }
    assert items[..|items|] == items;
    evidence := seq(|order|, i requires 0 <= i < |order| && order[i] in blocks => blocks[order[i]]);
    AnchorKeysAre(ground, AllAnchors(items));
    SameBlocks(ground, order, evidence);
  }

  /** `{item.id: item for item in items}`. */
  function ItemsById(items: seq<ChecklistItem>): map<string, ChecklistItem> {
    if items == [] then map[] else ItemsById(items[..|items| - 1])[items[|items| - 1].id := items[|items| - 1]]
  }

  lemma {:induction false} ItemsByIdAre(items: seq<ChecklistItem>)
    ensures forall id :: id in ItemsById(items) ==> ItemsById(items)[id] in items && ItemsById(items)[id].id == id
    ensures forall item :: item in items ==> item.id in ItemsById(items)
  {
    if items != [] {
      ItemsByIdAre(items[..|items| - 1]);
      assert items == items[..|items| - 1] + [items[|items| - 1]];
    }
  }

  /** The checklist items a clause is mapped to, in mapping order. */
  function TouchedItems(byId: map<string, ChecklistItem>, chkIds: seq<string>): (r: seq<ChecklistItem>)
    ensures forall item :: item in r ==> exists id :: id in byId && byId[id] == item
  {
    if chkIds == [] then []
    else (if chkIds[0] in byId then [byId[chkIds[0]]] else []) + TouchedItems(byId, chkIds[1..])
  }

  function Evidence(ground: Ground, clauseMap: ClauseMap, retrieved: seq<RetrievedBlock>): seq<RetrievedBlock> {
    var items := TouchedItems(ItemsById(ground.checklist.items), clauseMap.chkIds);
    if items == [] then retrieved else AnchorEvidence(ground, AllAnchors(items))
  }

  // ---------- The finding ----------

  lemma SurvivorIsAnchored(ground: Ground, evidence: seq<BlockRef>, citation: ProposedCitation)
    requires Sound(ground.tools)
    requires VerifyOne(ground.tools, ground.store, ground.targetDate, evidence, citation).verdict != DISCARDED
    ensures VerifyOne(ground.tools, ground.store, ground.targetDate, evidence, citation).anchor.Some?
  {
    var block, spans := SurvivorIsBacked(ground.tools, ground.store, ground.targetDate, evidence, citation);
  }

  /** The citation behind a level: what the verifier makes of the one the model proposed. */
  ghost function Grounding(ground: Ground, evidence: seq<RetrievedBlock>, citation: Option<ProposedCitation>): Option<VerifiedCitation>
    requires Sound(ground.tools)
  {
    if citation.None? then None
    else
      var r := VerifyOne(ground.tools, ground.store, ground.targetDate, M.Refs(evidence), citation.value);
      if r.verdict == DISCARDED then None
      else
        SurvivorIsAnchored(ground, M.Refs(evidence), citation.value);
        Some(Shown(r))
  }

  /** The level a proposal stands for, or none for the two escapes. */
  function ProposedLevel(p: ProposedClauseLevel): Option<RiskLevel> {
    match p
    case PROPOSED_ILEGAL => Some(ILEGAL)
    case PROPOSED_PEOR_QUE_DEFAULT => Some(PEOR_QUE_DEFAULT)
    case PROPOSED_NEGOCIABLE => Some(NEGOCIABLE)
    case PROPOSED_CORRECTO => Some(CORRECTO)
    case PROPOSED_FUERA_DE_AMBITO => None
    case PROPOSED_NO_CONCLUYENTE => None
  }

  function FindingOf(clause: Clause, clauseMap: ClauseMap, coverage: CoverageStatus): ClauseFinding {
    ClauseFinding(clause.id, clause.heading, clause.text, clause.start, clause.end, coverage, None, "", [], None, "",
                  clauseMap.chkIds, clauseMap.relatedClauseIds)
  }

  function Inconclusive(clause: Clause, clauseMap: ClauseMap, c: ClauseClassification): ClauseFinding {
    FindingOf(clause, clauseMap, NO_CONCLUYENTE).(explanation := c.explanation, whatYouCanDo := c.whatYouCanDo)
  }

  function OutOfScope(clause: Clause, clauseMap: ClauseMap, c: ClauseClassification): ClauseFinding {
    FindingOf(clause, clauseMap, FUERA_DE_AMBITO).(explanation := c.explanation, outOfScopeMatter := c.explanation)
  }

  function Evaluated(clause: Clause, clauseMap: ClauseMap, c: ClauseClassification, level: RiskLevel,
                     citation: Option<VerifiedCitation>): ClauseFinding
  {
    FindingOf(clause, clauseMap, EVALUADA).(
      level := Some(level), explanation := c.explanation, whatYouCanDo := c.whatYouCanDo, citation := citation)
  }

  /** A level that must cite the law and has no verified citation degrades to inconclusive. */
  function PlaceFinding(clause: Clause, clauseMap: ClauseMap, c: ClauseClassification,
                        citation: Option<VerifiedCitation>): ClauseFinding
  {
    if c.level == PROPOSED_FUERA_DE_AMBITO then OutOfScope(clause, clauseMap, c)
    else if c.level == PROPOSED_NO_CONCLUYENTE then Inconclusive(clause, clauseMap, c)
    else
      var level := ProposedLevel(c.level).value;
      if RequiresCitation(level) && citation.None? then Inconclusive(clause, clauseMap, c)
      else Evaluated(clause, clauseMap, c, level, citation)
  }

  ghost function ClassifiedFinding(ground: Ground, clause: Clause, clauseMap: ClauseMap, c: ClauseClassification,
                                   retrieved: seq<RetrievedBlock>): ClauseFinding
    requires Sound(ground.tools)
  {
    PlaceFinding(clause, clauseMap, c, Grounding(ground, Evidence(ground, clauseMap, retrieved), c.citation))
  }

  method VerifyGround(ground: Ground, evidence: seq<RetrievedBlock>, citation: Option<ProposedCitation>)
    returns (verified: Option<VerifiedCitation>)
    requires Sound(ground.tools)
    ensures verified == Grounding(ground, evidence, citation)
  {
    if citation.None? { return None; }
    var results := VerifyCitations(ground.tools, [citation.value], M.Refs(evidence), ground.targetDate, ground.store);
    var result := results[0];
    if result.verdict == DISCARDED { return None; }
    SurvivorIsAnchored(ground, M.Refs(evidence), citation.value);
    verified := Some(Shown(result));
  }

  method ClassifyClause(ground: Ground, clause: Clause, clauseMap: ClauseMap, c: ClauseClassification,
                        retrieved: seq<RetrievedBlock>)
    returns (finding: ClauseFinding)
    requires Sound(ground.tools)
    ensures finding == ClassifiedFinding(ground, clause, clauseMap, c, retrieved)
  {
    var items := TouchedItems(ItemsById(ground.checklist.items), clauseMap.chkIds);
    var evidence := retrieved;
    if items != [] {
      evidence := ResolveAnchorBlocks(ground, items);
    }
    // The code verifies a citation only for a level; the two escapes return before it.
    if c.level == PROPOSED_FUERA_DE_AMBITO { return OutOfScope(clause, clauseMap, c); }
    if c.level == PROPOSED_NO_CONCLUYENTE { return Inconclusive(clause, clauseMap, c); }
    var level := ProposedLevel(c.level).value;
    var citation := VerifyGround(ground, evidence, c.citation);
    if RequiresCitation(level) && citation.None? { return Inconclusive(clause, clauseMap, c); }
    finding := Evaluated(clause, clauseMap, c, level, citation);
  }

  // ---------- What every finding is ----------

  /** A level exactly when judged, a citation behind every level that requires one, none without a level. */
  ghost predicate WellPlaced(f: ClauseFinding) {
    && (f.level.Some? <==> f.coverage == EVALUADA)
    && (f.level.Some? ==> f.level.value != AUSENTE)
    && (f.level in {Some(ILEGAL), Some(PEOR_QUE_DEFAULT), Some(CORRECTO)} ==> f.citation.Some?)
    && (f.citation.Some? ==> f.coverage == EVALUADA)
  }

  lemma PlacedWell(clause: Clause, clauseMap: ClauseMap, c: ClauseClassification, citation: Option<VerifiedCitation>)
    ensures WellPlaced(PlaceFinding(clause, clauseMap, c, citation))
    ensures var f := PlaceFinding(clause, clauseMap, c, citation);
      && f.coverage != INFORMATIVA
      && (f.level.Some? ==> f.level == ProposedLevel(c.level) && f.citation == citation)
      && (f.level.None? && ProposedLevel(c.level).Some? <==>
            f.coverage == NO_CONCLUYENTE && c.level != PROPOSED_NO_CONCLUYENTE)
  {
  }

  /** What a proposal becomes, given the citation that survived for it, if any. */
  ghost predicate PlacedAs(f: ClauseFinding, c: ClauseClassification, citation: Option<VerifiedCitation>) {
    && (f.level == Some(ILEGAL) <==> c.level == PROPOSED_ILEGAL && citation.Some?)
    && (f.level == Some(PEOR_QUE_DEFAULT) <==> c.level == PROPOSED_PEOR_QUE_DEFAULT && citation.Some?)
    && (f.level == Some(CORRECTO) <==> c.level == PROPOSED_CORRECTO && citation.Some?)
    && (f.level == Some(NEGOCIABLE) <==> c.level == PROPOSED_NEGOCIABLE)
    && f.level != Some(AUSENTE)
    && (f.coverage == EVALUADA <==> f.level.Some?)
    && (f.coverage == FUERA_DE_AMBITO <==> c.level == PROPOSED_FUERA_DE_AMBITO)
    && (f.coverage == NO_CONCLUYENTE <==>
          c.level == PROPOSED_NO_CONCLUYENTE ||
          (c.level in {PROPOSED_ILEGAL, PROPOSED_PEOR_QUE_DEFAULT, PROPOSED_CORRECTO} && citation.None?))
    && f.citation == (if f.level.Some? then citation else None)
    && f.explanation == c.explanation
    && f.whatYouCanDo == (if c.level == PROPOSED_FUERA_DE_AMBITO then [] else c.whatYouCanDo)
    && f.outOfScopeMatter == (if c.level == PROPOSED_FUERA_DE_AMBITO then c.explanation else "")
  }

  /**
    A clause is shown at the level proposed for it; illegal, worse than the default and correct only
    with a citation that survived, and inconclusive without one.
  */
  lemma LevelsAreAsProposed(clause: Clause, clauseMap: ClauseMap, c: ClauseClassification, citation: Option<VerifiedCitation>)
    ensures PlacedAs(PlaceFinding(clause, clauseMap, c, citation), c, citation)
  {
  }

  lemma {:induction false} TouchedAre(byId: map<string, ChecklistItem>, chkIds: seq<string>, item: ChecklistItem)
    ensures item in TouchedItems(byId, chkIds) <==> exists id :: id in chkIds && id in byId && byId[id] == item
  {
    if chkIds != [] {
      TouchedAre(byId, chkIds[1..], item);
      assert forall id :: id in chkIds <==> id == chkIds[0] || id in chkIds[1..];
    }
  }

  lemma {:induction false} AnchorsAre(items: seq<ChecklistItem>, a: string)
    ensures a in AllAnchors(items) <==> exists item :: item in items && a in item.anchors
  {
    if items != [] {
      var init, last := items[..|items| - 1], items[|items| - 1];
      AnchorsAre(init, a);
      assert forall item :: item in items <==> item in init || item == last by { assert items == init + [last]; }
    }
  }

  /** A clause reflects an item of the checklist, which holds its ids once each. */
  ghost predicate Reflects(ground: Ground, clauseMap: ClauseMap, item: ChecklistItem) {
    item in ground.checklist.items && item.id in clauseMap.chkIds
  }

  /**
    What a clause is judged on: every anchor of the items it reflects that is in force at the date, in its
    redaction of that date, and nothing else; the blocks retrieved for it, if it reflects none.
  */
  lemma EvidenceIs(ground: Ground, clauseMap: ClauseMap, retrieved: seq<RetrievedBlock>, a: string)
    requires DistinctItems(ground.checklist)
    ensures var evidence := Evidence(ground, clauseMap, retrieved);
      if forall item :: !Reflects(ground, clauseMap, item) then evidence == retrieved
      else
        var block := BlockRef(ground.checklist.normId, a);
        && (block in M.Refs(evidence) <==>
              (exists item :: Reflects(ground, clauseMap, item) && a in item.anchors) &&
              ResolveBlock(ground.store, block, ground.targetDate).Some?)
        && (forall b :: b in evidence ==>
              && b.normId == ground.checklist.normId
              && ResolveBlock(ground.store, BlockRef(b.normId, b.blockId), ground.targetDate).Some?
              && b.text == ResolveBlock(ground.store, BlockRef(b.normId, b.blockId), ground.targetDate).value.text)
  {
    var byId := ItemsById(ground.checklist.items);
    var items := TouchedItems(byId, clauseMap.chkIds);
    ItemsByIdAre(ground.checklist.items);
    forall item ensures item in items <==> Reflects(ground, clauseMap, item) {
      TouchedAre(byId, clauseMap.chkIds, item);
      if Reflects(ground, clauseMap, item) { OneItemPerId(ground.checklist, byId[item.id], item); }
    }
    if items != [] {
      assert Reflects(ground, clauseMap, items[0]);
      AnchorsAre(items, a);
      AnchorsInForce(ground, AllAnchors(items), a);
    }
  }

  lemma OneItemPerId(checklist: Checklist, a: ChecklistItem, b: ChecklistItem)
    requires DistinctItems(checklist) && a in checklist.items && b in checklist.items && a.id == b.id
    ensures a == b
  {
  }

  lemma AnchorsInForce(ground: Ground, anchors: seq<string>, a: string)
    ensures var evidence, block := AnchorEvidence(ground, anchors), BlockRef(ground.checklist.normId, a);
      && (block in M.Refs(evidence) <==> a in anchors && ResolveBlock(ground.store, block, ground.targetDate).Some?)
      && (forall b :: b in evidence ==>
            && b.normId == ground.checklist.normId
            && ResolveBlock(ground.store, BlockRef(b.normId, b.blockId), ground.targetDate).Some?
            && b.text == ResolveBlock(ground.store, BlockRef(b.normId, b.blockId), ground.targetDate).value.text)
  {
    AnchorKeysAre(ground, anchors);
    var keys, evidence := AnchorKeys(ground, anchors), AnchorEvidence(ground, anchors);
    ResolvableAre(ground, anchors, a);
    FirstSeenIsDistinct(Resolvable(ground, anchors));
    var block := BlockRef(ground.checklist.normId, a);
    if a in keys {
      var i :| 0 <= i < |keys| && keys[i] == a;
      assert M.Refs(evidence)[i] == block;
    }
    if block in M.Refs(evidence) {
      var i :| 0 <= i < |evidence| && M.Refs(evidence)[i] == block;
      assert keys[i] in keys;
    }
    forall b | b in evidence
      ensures b.normId == ground.checklist.normId
      ensures ResolveBlock(ground.store, BlockRef(b.normId, b.blockId), ground.targetDate).Some?
      ensures b.text == ResolveBlock(ground.store, BlockRef(b.normId, b.blockId), ground.targetDate).value.text
    {
      var i :| 0 <= i < |evidence| && evidence[i] == b;
      assert BlockAt(ground, keys[i]) == Some(b);
    }
  }
}
