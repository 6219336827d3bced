/** The validation of a checklist against the corpus at a date. */
module ChecklistValidation {
  import opened Wrappers
  import opened Typography
  import opened Ellipsis
  import opened Placement
  import opened BlockRefs
  import opened Corpus
  import opened Verifier
  import opened Guardrail
  import opened Checklists

  datatype Problem = UNRESOLVED_ANCHOR | NOT_VERIFIED_DIRECTLY(verdict: Verdict)

  datatype ChecklistFinding = ChecklistFinding(itemId: string, blockId: string, problem: Problem)

  function AnchorRefs(normId: string, anchors: seq<string>): (r: seq<BlockRef>)
    ensures |r| == |anchors|
    ensures forall i :: 0 <= i < |anchors| ==> r[i] == BlockRef(normId, anchors[i])
  {
    seq(|anchors|, i requires 0 <= i < |anchors| => BlockRef(normId, anchors[i]))
  }

  function UnresolvedAnchors(item: ChecklistItem, refs: seq<BlockRef>, store: Store, date: Date): seq<ChecklistFinding> {
    if refs == [] then []
    else
      var last := refs[|refs| - 1];
      UnresolvedAnchors(item, refs[..|refs| - 1], store, date) +
      if ResolveBlock(store, last, date).None? then [ChecklistFinding(item.id, last.blockId, UNRESOLVED_ANCHOR)] else []
  }

  function CitationOf(item: ChecklistItem, normId: string): ProposedCitation {
    ProposedCitation(Print(BlockRef(normId, item.citation.blockId)), item.citation.text)
  }

  ghost function CitationVerdict(tools: Tools, item: ChecklistItem, normId: string, store: Store, date: Date): Verdict {
    VerifyOne(tools, store, date, AnchorRefs(normId, item.anchors), CitationOf(item, normId)).verdict
  }

  ghost function CitationFindings(tools: Tools, item: ChecklistItem, normId: string, store: Store, date: Date): seq<ChecklistFinding> {
    var verdict := CitationVerdict(tools, item, normId, store, date);
    if verdict == VERIFIED_DIRECT then []
    else [ChecklistFinding(item.id, item.citation.blockId, NOT_VERIFIED_DIRECTLY(verdict))]
  }

  ghost function ItemFindings(tools: Tools, item: ChecklistItem, normId: string, store: Store, date: Date): seq<ChecklistFinding> {
    UnresolvedAnchors(item, AnchorRefs(normId, item.anchors), store, date) + CitationFindings(tools, item, normId, store, date)
  }

  ghost function Report(tools: Tools, normId: string, items: seq<ChecklistItem>, store: Store, date: Date): seq<ChecklistFinding> {
    if items == [] then []
    else
      Report(tools, normId, items[..|items| - 1], store, date) +
      ItemFindings(tools, items[|items| - 1], normId, store, date)
  }

  method FindUnresolvedAnchors(item: ChecklistItem, refs: seq<BlockRef>, store: Store, date: Date)
    returns (findings: seq<ChecklistFinding>)
    ensures findings == UnresolvedAnchors(item, refs, store, date)
  {
    findings := [];
    for n := 0 to |refs|
      invariant findings == UnresolvedAnchors(item, refs[..n], store, date)
    {
      assert refs[..n + 1][..n] == refs[..n] && refs[..n + 1][n] == refs[n];
      if ResolveBlock(store, refs[n], date).None? {
        findings := findings + [ChecklistFinding(item.id, refs[n].blockId, UNRESOLVED_ANCHOR)];
      }
    }
    assert refs[..|refs|] == refs;
  }

  method ValidateItem(tools: Tools, item: ChecklistItem, normId: string, store: Store, date: Date)
    returns (findings: seq<ChecklistFinding>)
    requires Sound(tools)
    ensures findings == ItemFindings(tools, item, normId, store, date)
  {
    var evidence := AnchorRefs(normId, item.anchors);
    findings := FindUnresolvedAnchors(item, evidence, store, date);
    var results := VerifyCitations(tools, [CitationOf(item, normId)], evidence, date, store);
    if results[0].verdict != VERIFIED_DIRECT {
      findings := findings + [ChecklistFinding(item.id, item.citation.blockId, NOT_VERIFIED_DIRECTLY(results[0].verdict))];
    }
  }

  /** Every problem of every item, in item order. */
  method ValidateChecklist(tools: Tools, checklist: Checklist, store: Store, date: Date)
    returns (findings: seq<ChecklistFinding>)
    requires Sound(tools)
    ensures findings == Report(tools, checklist.normId, checklist.items, store, date)
  {
    var items := checklist.items;
    findings := [];
    for n := 0 to |items|
      invariant findings == Report(tools, checklist.normId, items[..n], store, date)
    {
      ReportStep(tools, checklist.normId, items, n, store, date);
      var more := ValidateItem(tools, items[n], checklist.normId, store, date);
      findings := findings + more;
    }
    assert items[..|items|] == items;
  }

  lemma ReportStep(tools: Tools, normId: string, items: seq<ChecklistItem>, n: nat, store: Store, date: Date)
    requires n < |items|
    ensures Report(tools, normId, items[..n + 1], store, date) ==
            Report(tools, normId, items[..n], store, date) + ItemFindings(tools, items[n], normId, store, date)
  {
    assert items[..n + 1][..n] == items[..n] && items[..n + 1][n] == items[n];
  }

  // ---------- What a clean validation means ----------

  lemma {:induction false} NoUnresolvedAnchors(item: ChecklistItem, refs: seq<BlockRef>, store: Store, date: Date)
    ensures UnresolvedAnchors(item, refs, store, date) == [] <==>
      forall ref :: ref in refs ==> ResolveBlock(store, ref, date).Some?
  {
    if refs != [] {
      var init, last := refs[..|refs| - 1], refs[|refs| - 1];
      NoUnresolvedAnchors(item, init, store, date);
      assert forall ref :: ref in refs <==> ref in init || ref == last;
    }
  }

  /** An item stands: all its anchors are in force and its quote is literally in its block. */
  ghost predicate ItemStands(tools: Tools, item: ChecklistItem, normId: string, store: Store, date: Date) {
    && (forall a :: a in item.anchors ==> ResolveBlock(store, BlockRef(normId, a), date).Some?)
    && CitationVerdict(tools, item, normId, store, date) == VERIFIED_DIRECT
  }

  lemma NoFindingsIffItemStands(tools: Tools, item: ChecklistItem, normId: string, store: Store, date: Date)
    ensures ItemFindings(tools, item, normId, store, date) == [] <==> ItemStands(tools, item, normId, store, date)
  {
    var refs := AnchorRefs(normId, item.anchors);
    NoUnresolvedAnchors(item, refs, store, date);
    if forall ref :: ref in refs ==> ResolveBlock(store, ref, date).Some? {
      forall a | a in item.anchors ensures ResolveBlock(store, BlockRef(normId, a), date).Some? {
        var i :| 0 <= i < |item.anchors| && item.anchors[i] == a;
        assert refs[i] in refs;
      }
    }
  }

  /** The report is empty exactly when every item stands. */
  lemma {:induction false} ValidIffAllStand(tools: Tools, normId: string, items: seq<ChecklistItem>, store: Store, date: Date)
    ensures Report(tools, normId, items, store, date) == [] <==>
      forall item :: item in items ==> ItemStands(tools, item, normId, store, date)
  {
    if items != [] {
      var init, last := items[..|items| - 1], items[|items| - 1];
      ValidIffAllStand(tools, normId, init, store, date);
      NoFindingsIffItemStands(tools, last, normId, store, date);
      assert forall item :: item in items <==> item in init || item == last;
    }
  }

  /** What the loader guarantees of an item: ids are stripped and not blank, and the quoted block is an anchor. */
  ghost predicate Loaded(item: ChecklistItem) {
    && item.citation.blockId in item.anchors
    && forall a :: a in item.anchors ==> a != "" && !IsSpace(a[0]) && !IsSpace(a[|a| - 1])
  }

  /**
    A standing item's quote reads back from its own token, its block is in force, and its own
    segments lie in that block: what the runtime assumes of it without looking again.
  */
  lemma StandingItem(tools: Tools, item: ChecklistItem, normId: string, store: Store, date: Date)
    requires Loaded(item) && normId != "" && ItemStands(tools, item, normId, store, date)
    ensures forall a :: a in item.anchors ==> Printable(BlockRef(normId, a))
    ensures var ref := BlockRef(normId, item.citation.blockId);
      Parse(Print(ref)) == Some(ref) && ResolveBlock(store, ref, date).Some? &&
      Reverify(tools, store, date, ref, item.citation.text) == None
  {
    var ref := BlockRef(normId, item.citation.blockId);
    var cited := Parse(Print(ref)).value;
    assert cited in AnchorRefs(normId, item.anchors);
    ParsedIsPrintable(Print(ref));
    assert cited.normId == normId;
    PrintThenParse(ref);
  }

  // ---------- What a report says ----------

  /** Why an item is reported: an anchor not in force, or a quote not verified directly. */
  ghost predicate Reports(tools: Tools, item: ChecklistItem, normId: string, store: Store, date: Date, f: ChecklistFinding) {
    var verdict := VerifyOne(tools, store, date, AnchorRefs(normId, item.anchors),
                             ProposedCitation(Print(BlockRef(normId, item.citation.blockId)), item.citation.text)).verdict;
    || (exists a :: a in item.anchors && ResolveBlock(store, BlockRef(normId, a), date).None? &&
                    f == ChecklistFinding(item.id, a, UNRESOLVED_ANCHOR))
    || (verdict != VERIFIED_DIRECT && f == ChecklistFinding(item.id, item.citation.blockId, NOT_VERIFIED_DIRECTLY(verdict)))
  }

  lemma {:induction false} UnresolvedAre(item: ChecklistItem, refs: seq<BlockRef>, store: Store, date: Date, f: ChecklistFinding)
    ensures f in UnresolvedAnchors(item, refs, store, date) <==>
      exists ref :: ref in refs && ResolveBlock(store, ref, date).None? && f == ChecklistFinding(item.id, ref.blockId, UNRESOLVED_ANCHOR)
  {
    if refs != [] {
      var init, last := refs[..|refs| - 1], refs[|refs| - 1];
      UnresolvedAre(item, init, store, date, f);
      assert forall ref :: ref in refs <==> ref in init || ref == last by { assert refs == init + [last]; }
    }
  }

  lemma ItemIsReported(tools: Tools, item: ChecklistItem, normId: string, store: Store, date: Date, f: ChecklistFinding)
    ensures f in ItemFindings(tools, item, normId, store, date) <==> Reports(tools, item, normId, store, date, f)
  {
    var refs := AnchorRefs(normId, item.anchors);
    UnresolvedAre(item, refs, store, date, f);
    forall a | a in item.anchors ensures BlockRef(normId, a) in refs {
      var i :| 0 <= i < |item.anchors| && item.anchors[i] == a;
      assert refs[i] == BlockRef(normId, a);
    }
    forall ref | ref in refs ensures ref.normId == normId && ref.blockId in item.anchors {
      var i :| 0 <= i < |refs| && refs[i] == ref;
    }
  }

  ghost predicate SomeReports(tools: Tools, items: seq<ChecklistItem>, normId: string, store: Store, date: Date, f: ChecklistFinding) {
    exists i :: 0 <= i < |items| && Reports(tools, items[i], normId, store, date, f)
  }

  lemma SomeReportsStep(tools: Tools, items: seq<ChecklistItem>, normId: string, store: Store, date: Date, f: ChecklistFinding)
    requires items != []
    ensures SomeReports(tools, items, normId, store, date, f) <==>
      SomeReports(tools, items[..|items| - 1], normId, store, date, f) ||
      Reports(tools, items[|items| - 1], normId, store, date, f)
  {
    var init := items[..|items| - 1];
    if SomeReports(tools, init, normId, store, date, f) {
      var i :| 0 <= i < |init| && Reports(tools, init[i], normId, store, date, f);
      assert items[i] == init[i];
    }
    if SomeReports(tools, items, normId, store, date, f) {
      var i :| 0 <= i < |items| && Reports(tools, items[i], normId, store, date, f);
      if i < |init| { assert init[i] == items[i]; }
    }
  }

  /** A report holds exactly the unresolved anchors and the unverified quotes of the items. */
  lemma {:induction false} ReportIs(tools: Tools, normId: string, items: seq<ChecklistItem>, store: Store, date: Date, f: ChecklistFinding)
    ensures f in Report(tools, normId, items, store, date) <==> SomeReports(tools, items, normId, store, date, f)
  {
    if items != [] {
      ReportIs(tools, normId, items[..|items| - 1], store, date, f);
      ItemIsReported(tools, items[|items| - 1], normId, store, date, f);
      SomeReportsStep(tools, items, normId, store, date, f);
    }
  }
}
