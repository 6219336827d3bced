/** A vertical's checklist of default rights, and which of them a set of clauses leaves unsaid. */
module Checklists {

  datatype SilenceTone = FAVORABLE | EX_LEGE_INFORMATIVE | EX_LEGE_WITH_BURDEN | NOT_APPLICABLE

  datatype ChecklistCitation = ChecklistCitation(blockId: string, text: string)

  datatype ChecklistItem = ChecklistItem(
    id: string, right: string, anchors: seq<string>, silenceTone: SilenceTone, absenceTemplate: string,
    citation: ChecklistCitation)

  datatype Checklist = Checklist(normId: string, items: seq<ChecklistItem>)

  ghost predicate DistinctItems(checklist: Checklist) {
    forall i, j :: 0 <= i < j < |checklist.items| ==> checklist.items[i].id != checklist.items[j].id
  }

  /** A right that a contract can leave unsaid: every one but the closing meta-rule. */
  predicate Omissible(item: ChecklistItem) {
    item.silenceTone != NOT_APPLICABLE
  }

  /** The omissible items no clause covers, in checklist order. */
  function AbsentItems(items: seq<ChecklistItem>, covered: set<string>): seq<ChecklistItem> {
    if items == [] then []
    else
      var last := items[|items| - 1];
      AbsentItems(items[..|items| - 1], covered) + if Omissible(last) && last.id !in covered then [last] else []
  }

  lemma AbsentItemsStep(items: seq<ChecklistItem>, covered: set<string>, n: nat)
    requires n < |items|
    ensures AbsentItems(items[..n + 1], covered) ==
            AbsentItems(items[..n], covered) + if Omissible(items[n]) && items[n].id !in covered then [items[n]] else []
  {
    assert items[..n + 1][..n] == items[..n] && items[..n + 1][n] == items[n];
  }

  lemma {:induction false} AbsentItemsAre(items: seq<ChecklistItem>, covered: set<string>, item: ChecklistItem)
    ensures item in AbsentItems(items, covered) <==>
      item in items && item.silenceTone != NOT_APPLICABLE && item.id !in covered
  {
    if items != [] {
      var init, last := items[..|items| - 1], items[|items| - 1];
      AbsentItemsAre(init, covered, item);
      assert item in items <==> item in init || item == last;
    }
  }

  /** Only which item ids are covered matters, and only among the checklist's own. */
  lemma {:induction false} AbsentItemsAgree(items: seq<ChecklistItem>, a: set<string>, b: set<string>)
    requires forall item :: item in items && Omissible(item) ==> (item.id in a <==> item.id in b)
    ensures AbsentItems(items, a) == AbsentItems(items, b)
  {
    if items != [] {
      var init, last := items[..|items| - 1], items[|items| - 1];
      assert last in items && forall item :: item in init ==> item in items;
      AbsentItemsAgree(init, a, b);
    }
  }
}
