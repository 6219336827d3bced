/** The checklist against the contract: one white for every right no judged clause addresses. */
module CrossCheck {
  import opened Wrappers
  import opened BlockRefs
  import opened Corpus
  import opened Verifier
  import opened Guardrail
  import opened Checklists
  import opened Risk
  import opened Assembler

  predicate Addresses(f: ClauseFinding) {
    f.coverage in {EVALUADA, NO_CONCLUYENTE}
  }

  function Addressed(findings: seq<ClauseFinding>): set<string> {
    set f, id | f in findings && Addresses(f) && id in f.chkIds :: id
  }

  /** The item's static citation with its anchor read from the corpus, if its block is in force. */
  function HydrateCitation(item: ChecklistItem, normId: string, store: Store, date: Date): Option<VerifiedCitation> {
    var ref := BlockRef(normId, item.citation.blockId);
    match ResolveBlock(store, ref, date)
    case None => None
    case Some(resolved) => Some(VerifiedCitation(Print(ref), item.citation.text, VERIFIED_DIRECT, resolved.anchor))
  }

  function WhiteOf(item: ChecklistItem, normId: string, store: Store, date: Date): AbsenceFinding {
    AbsenceFinding(item.id, item.right, item.silenceTone, item.absenceTemplate, HydrateCitation(item, normId, store, date))
  }

  function WhitesOf(items: seq<ChecklistItem>, normId: string, store: Store, date: Date): (r: seq<AbsenceFinding>)
    ensures |r| == |items|
    ensures forall i :: 0 <= i < |items| ==> r[i] == WhiteOf(items[i], normId, store, date)
  {
    seq(|items|, i requires 0 <= i < |items| => WhiteOf(items[i], normId, store, date))
  }

  function Whites(checklist: Checklist, findings: seq<ClauseFinding>, store: Store, date: Date): seq<AbsenceFinding> {
    WhitesOf(AbsentItems(checklist.items, Addressed(findings)), checklist.normId, store, date)
  }

  lemma WhitesAppend(items: seq<ChecklistItem>, last: ChecklistItem, normId: string, store: Store, date: Date)
    ensures WhitesOf(items + [last], normId, store, date) ==
            WhitesOf(items, normId, store, date) + [WhiteOf(last, normId, store, date)]
  {
  }

  method CheckChecklist(checklist: Checklist, findings: seq<ClauseFinding>, store: Store, date: Date)
    returns (whites: seq<AbsenceFinding>)
    ensures whites == Whites(checklist, findings, store, date)
  {
    var addressed := Addressed(findings);
    var items := checklist.items;
    whites := [];
    for n := 0 to |items|
      invariant whites == WhitesOf(AbsentItems(items[..n], addressed), checklist.normId, store, date)
    {
      var item := items[n];
      AbsentItemsStep(items, addressed, n);
      if item.silenceTone == NOT_APPLICABLE { NothingMore(items, addressed, n); continue; }
      if item.id in addressed { NothingMore(items, addressed, n); continue; }
      WhitesAppend(AbsentItems(items[..n], addressed), item, checklist.normId, store, date);
      whites := whites + [WhiteOf(item, checklist.normId, store, date)];
    }
    assert items[..|items|] == items;
  }

  lemma NothingMore(items: seq<ChecklistItem>, addressed: set<string>, n: nat)
    requires n < |items| && (!Omissible(items[n]) || items[n].id in addressed)
    ensures AbsentItems(items[..n + 1], addressed) == AbsentItems(items[..n], addressed)
  {
    AbsentItemsStep(items, addressed, n);
    assert AbsentItems(items[..n], addressed) + [] == AbsentItems(items[..n], addressed);
  }

  // ---------- Every omissible right is addressed or white, once ----------

  function CountWhites(whites: seq<AbsenceFinding>, id: string): nat {
    if whites == [] then 0
    else CountWhites(whites[..|whites| - 1], id) + (if whites[|whites| - 1].itemId == id then 1 else 0)
  }

  ghost predicate CanBeAbsent(items: seq<ChecklistItem>, id: string) {
    exists item :: item in items && Omissible(item) && item.id == id
  }

  lemma CanBeAbsentStep(items: seq<ChecklistItem>, n: nat, id: string)
    requires n < |items|
    ensures CanBeAbsent(items[..n + 1], id) <==> CanBeAbsent(items[..n], id) || (Omissible(items[n]) && items[n].id == id)
  {
    assert forall item :: item in items[..n + 1] <==> item in items[..n] || item == items[n];
  }

  lemma WhiteGained(items: seq<ChecklistItem>, n: nat, covered: set<string>, normId: string, store: Store, date: Date, id: string)
    requires n < |items| && Omissible(items[n]) && items[n].id !in covered
    ensures CountWhites(WhitesOf(AbsentItems(items[..n + 1], covered), normId, store, date), id) ==
            CountWhites(WhitesOf(AbsentItems(items[..n], covered), normId, store, date), id) + (if items[n].id == id then 1 else 0)
  {
    AbsentItemsStep(items, covered, n);
    WhitesAppend(AbsentItems(items[..n], covered), items[n], normId, store, date);
    CountAppend(WhitesOf(AbsentItems(items[..n], covered), normId, store, date), WhiteOf(items[n], normId, store, date), id);
  }

  lemma NotYet(items: seq<ChecklistItem>, n: nat)
    requires n < |items| && forall i, j :: 0 <= i < j < |items| ==> items[i].id != items[j].id
    ensures !CanBeAbsent(items[..n], items[n].id)
  {
  }

  lemma {:induction false} WhitesCounted(items: seq<ChecklistItem>, n: nat, covered: set<string>, normId: string,
                                         store: Store, date: Date, id: string)
    requires n <= |items| && forall i, j :: 0 <= i < j < |items| ==> items[i].id != items[j].id
    ensures CountWhites(WhitesOf(AbsentItems(items[..n], covered), normId, store, date), id) ==
            if id !in covered && CanBeAbsent(items[..n], id) then 1 else 0
  {
    if n > 0 {
      var m := n - 1;
      WhitesCounted(items, m, covered, normId, store, date, id);
      CanBeAbsentStep(items, m, id);
      NotYet(items, m);
      if Omissible(items[m]) && items[m].id !in covered {
        WhiteGained(items, m, covered, normId, store, date, id);
      } else {
        NothingMore(items, covered, m);
      }
    }
  }

  lemma CountAppend(whites: seq<AbsenceFinding>, last: AbsenceFinding, id: string)
    ensures CountWhites(whites + [last], id) == CountWhites(whites, id) + (if last.itemId == id then 1 else 0)
  {
    assert (whites + [last])[..|whites|] == whites;
  }

  /** Some clause that was really judged reflects the item. */
  ghost predicate AddressedBy(findings: seq<ClauseFinding>, id: string) {
    exists f :: f in findings && (f.coverage == EVALUADA || f.coverage == NO_CONCLUYENTE) && id in f.chkIds
  }

  /** An item is white exactly once, or not at all: because a judged clause addresses it, or it is the closing rule. */
  lemma EveryRightIsAccountedFor(checklist: Checklist, findings: seq<ClauseFinding>, store: Store, date: Date, item: ChecklistItem)
    requires DistinctItems(checklist) && item in checklist.items
    ensures CountWhites(Whites(checklist, findings, store, date), item.id) ==
            if item.silenceTone != NOT_APPLICABLE && !AddressedBy(findings, item.id) then 1 else 0
  {
    WhitesCounted(checklist.items, |checklist.items|, Addressed(findings), checklist.normId, store, date, item.id);
    assert checklist.items[..|checklist.items|] == checklist.items;
    assert AddressedBy(findings, item.id) <==> item.id in Addressed(findings);
    var k :| 0 <= k < |checklist.items| && checklist.items[k] == item;
    forall other | other in checklist.items && other.id == item.id ensures other == item {
      var j :| 0 <= j < |checklist.items| && checklist.items[j] == other;
    }
  }

  /** No white names anything but an omissible item of the checklist that nothing addresses. */
  lemma NoStrayWhite(checklist: Checklist, findings: seq<ClauseFinding>, store: Store, date: Date, w: AbsenceFinding)
    returns (item: ChecklistItem)
    requires w in Whites(checklist, findings, store, date)
    ensures item in checklist.items && item.silenceTone != NOT_APPLICABLE && !AddressedBy(findings, item.id)
    ensures w == WhiteOf(item, checklist.normId, store, date)
    ensures w.itemId == item.id && w.right == item.right && w.silenceTone == item.silenceTone && w.explanation == item.absenceTemplate
    ensures w.citation.Some? <==> ResolveBlock(store, BlockRef(checklist.normId, item.citation.blockId), date).Some?
    ensures w.citation.Some? ==>
      var block := BlockRef(checklist.normId, item.citation.blockId);
      w.citation.value == VerifiedCitation(Print(block), item.citation.text, VERIFIED_DIRECT, ResolveBlock(store, block, date).value.anchor)
  {
    var items := AbsentItems(checklist.items, Addressed(findings));
    var whites := WhitesOf(items, checklist.normId, store, date);
    var k :| 0 <= k < |whites| && whites[k] == w;
    item := items[k];
    AbsentItemsAre(checklist.items, Addressed(findings), item);
    assert AddressedBy(findings, item.id) <==> item.id in Addressed(findings);
  }

  // ---------- The whites of an assembled contract ----------

  function Named(whites: seq<AbsenceFinding>): (r: seq<ExpectedAbsence>)
    ensures |r| == |whites|
    ensures forall i :: 0 <= i < |whites| ==> r[i] == ExpectedAbsence(whites[i].itemId, whites[i].right)
  {
    seq(|whites|, i requires 0 <= i < |whites| => ExpectedAbsence(whites[i].itemId, whites[i].right))
  }

  /** What judged clauses address and what the assembled clauses cover agree on every omissible item. */
  ghost predicate JudgedItemsCoincide(checklist: Checklist, findings: seq<ClauseFinding>, clauses: seq<BankClause>) {
    forall item :: item in checklist.items && Omissible(item) ==>
      (item.id in Addressed(findings) <==> item.id in CoveredBy(clauses))
  }

  lemma NamedWhites(items: seq<ChecklistItem>, normId: string, store: Store, date: Date)
    ensures Named(WhitesOf(items, normId, store, date)) == AbsencesOf(items)
  {
  }

  lemma NamedOnBoth(a: seq<ChecklistItem>, b: seq<ChecklistItem>, item: ChecklistItem) returns (other: ChecklistItem)
    requires AbsencesOf(a) == AbsencesOf(b) && item in a
    ensures other in b && other.id == item.id
  {
    var k :| 0 <= k < |a| && a[k] == item;
    assert AbsencesOf(a)[k] == AbsencesOf(b)[k];
    other := b[k];
  }

  /** The whites are the assembler's expected absences, in order, exactly when the judged items coincide. */
  lemma WhitesAreTheExpectedAbsences(checklist: Checklist, findings: seq<ClauseFinding>, clauses: seq<BankClause>,
                                     store: Store, date: Date)
    ensures Named(Whites(checklist, findings, store, date)) == AbsencesOf(AbsentItems(checklist.items, CoveredBy(clauses)))
            <==> JudgedItemsCoincide(checklist, findings, clauses)
  {
    var addressed, covered := Addressed(findings), CoveredBy(clauses);
    var a, b := AbsentItems(checklist.items, addressed), AbsentItems(checklist.items, covered);
    NamedWhites(a, checklist.normId, store, date);
    if JudgedItemsCoincide(checklist, findings, clauses) {
      AbsentItemsAgree(checklist.items, addressed, covered);
    }
    if AbsencesOf(a) == AbsencesOf(b) {
      forall item | item in checklist.items && Omissible(item) ensures item.id in addressed <==> item.id in covered {
        AbsentItemsAre(checklist.items, addressed, item);
        AbsentItemsAre(checklist.items, covered, item);
        if item in a {
          var other := NamedOnBoth(a, b, item);
          AbsentItemsAre(checklist.items, covered, other);
        }
        if item in b {
          var other := NamedOnBoth(b, a, item);
          AbsentItemsAre(checklist.items, addressed, other);
        }
      }
    }
  }
}
