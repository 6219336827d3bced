/** The point-in-time corpus: which redaction of a block is in force at a date. */
module Corpus {
  import opened Wrappers
  import opened BlockRefs

  /** A calendar day, as its ordinal. */
  type Date = int

  datatype Version = Version(effectiveDate: Date, text: string)

  datatype StoredBlock = StoredBlock(normLabel: string, title: string, versions: seq<Version>)

  type Store = map<BlockRef, StoredBlock>

  datatype Anchor = Anchor(normId: string, normLabel: string, blockId: string, title: string, effectiveDate: Date)

  datatype ResolvedBlock = ResolvedBlock(text: string, anchor: Anchor)

  /** The version with the latest effective date not after `date`. */
  function InForce(versions: seq<Version>, date: Date): Option<Version> {
    if versions == [] then None
    else
      var rest := InForce(versions[1..], date);
      if versions[0].effectiveDate <= date &&
         (rest.Some? ==> rest.value.effectiveDate < versions[0].effectiveDate)
      then Some(versions[0]) else rest
  }

  function ResolveBlock(store: Store, ref: BlockRef, date: Date): Option<ResolvedBlock> {
    if ref !in store then None else
    match InForce(store[ref].versions, date)
    case None => None
    case Some(v) =>
      Some(ResolvedBlock(v.text, Anchor(ref.normId, store[ref].normLabel, ref.blockId, store[ref].title, v.effectiveDate)))
  }

  ghost predicate DistinctDates(versions: seq<Version>) {
    forall i, j :: 0 <= i < j < |versions| ==> versions[i].effectiveDate != versions[j].effectiveDate
  }

  /** What the point-in-time query means: a version not after the date, and none later qualifies. */
  lemma {:induction false} InForceIsLatest(versions: seq<Version>, date: Date)
    ensures InForce(versions, date).None? <==>
      forall i :: 0 <= i < |versions| ==> date < versions[i].effectiveDate
    ensures InForce(versions, date).Some? ==>
      var v := InForce(versions, date).value;
      v in versions && v.effectiveDate <= date &&
      forall i :: 0 <= i < |versions| && versions[i].effectiveDate <= date ==>
        versions[i].effectiveDate <= v.effectiveDate
  {
    if versions != [] {
      InForceIsLatest(versions[1..], date);
      assert forall i :: 0 < i < |versions| ==> versions[i] == versions[1..][i - 1];
      assert InForce(versions[1..], date).Some? ==> InForce(versions[1..], date).value in versions;
    }
  }

  /** With one version per date the query has a single answer. */
  lemma InForceIsUnique(versions: seq<Version>, date: Date, v: Version)
    requires DistinctDates(versions) && v in versions && v.effectiveDate <= date
    requires forall i :: 0 <= i < |versions| && versions[i].effectiveDate <= date ==>
      versions[i].effectiveDate <= v.effectiveDate
    ensures InForce(versions, date) == Some(v)
  {
    InForceIsLatest(versions, date);
    var k :| 0 <= k < |versions| && versions[k] == v;
    var w := InForce(versions, date).value;
    var j :| 0 <= j < |versions| && versions[j] == w;
    assert versions[j].effectiveDate <= versions[k].effectiveDate <= versions[j].effectiveDate;
  }

  /** A block resolves exactly when it has a version by the date, and then shows that version under its own labels. */
  lemma ResolvedIs(store: Store, ref: BlockRef, date: Date)
    ensures ResolveBlock(store, ref, date).Some? <==>
      ref in store && exists v :: v in store[ref].versions && v.effectiveDate <= date
    ensures ResolveBlock(store, ref, date).Some? ==>
      var resolved, block := ResolveBlock(store, ref, date).value, store[ref];
      && resolved.anchor.normId == ref.normId && resolved.anchor.blockId == ref.blockId
      && resolved.anchor.normLabel == block.normLabel && resolved.anchor.title == block.title
      && Version(resolved.anchor.effectiveDate, resolved.text) in block.versions && resolved.anchor.effectiveDate <= date
      && (forall v :: v in block.versions && v.effectiveDate <= date ==> v.effectiveDate <= resolved.anchor.effectiveDate)
  {
    if ref in store {
      InForceIsLatest(store[ref].versions, date);
      var versions := store[ref].versions;
      assert forall i :: 0 <= i < |versions| ==> versions[i] in versions;
    }
  }

  // ---------- Ingestion: one version per effective date ----------

  ghost predicate LastListed(versions: seq<Version>, v: Version) {
    exists i :: 0 <= i < |versions| && versions[i] == v &&
      forall j :: i < j < |versions| ==> versions[j].effectiveDate != v.effectiveDate
  }

  /** The dictionary after reading `seen`: each date once, holding the last redaction listed for it. */
  ghost predicate Collapsed(seen: seq<Version>, order: seq<Date>, byDate: map<Date, Version>) {
    && (forall i, j :: 0 <= i < j < |order| ==> order[i] != order[j])
    && (forall d :: d in order <==> d in byDate)
    && (forall d :: d in byDate ==> byDate[d].effectiveDate == d && LastListed(seen, byDate[d]))
    && (forall v :: v in seen ==> v.effectiveDate in byDate)
  }

  lemma StillLast(seen: seq<Version>, v: Version, w: Version)
    requires LastListed(seen, w) && w.effectiveDate != v.effectiveDate
    ensures LastListed(seen + [v], w)
  {
    var i :| 0 <= i < |seen| && seen[i] == w &&
      forall j :: i < j < |seen| ==> seen[j].effectiveDate != w.effectiveDate;
    assert (seen + [v])[i] == w;
  }

  lemma NowLast(seen: seq<Version>, v: Version)
    ensures LastListed(seen + [v], v)
  {
    assert (seen + [v])[|seen|] == v;
  }

  lemma CollapseOne(seen: seq<Version>, order: seq<Date>, byDate: map<Date, Version>, v: Version)
    requires Collapsed(seen, order, byDate)
    ensures Collapsed(seen + [v], if v.effectiveDate in byDate then order else order + [v.effectiveDate],
                      byDate[v.effectiveDate := v])
  {
    forall d | d in byDate && d != v.effectiveDate ensures LastListed(seen + [v], byDate[d]) {
      StillLast(seen, v, byDate[d]);
    }
    NowLast(seen, v);
  }

  lemma SameLast(versions: seq<Version>, v: Version, w: Version)
    requires LastListed(versions, v) && LastListed(versions, w) && v.effectiveDate == w.effectiveDate
    ensures v == w
  {
  }

  /**
    Collapses redactions that share an effective date: every date listed is kept once, with the
    last redaction listed for it.
  */
  method OneVersionPerDate(versions: seq<Version>) returns (kept: seq<Version>)
    ensures DistinctDates(kept)
    ensures forall v :: v in kept <==> LastListed(versions, v)
    ensures forall v :: v in versions ==> exists w :: w in kept && w.effectiveDate == v.effectiveDate
  {
    // The dictionary: its keys in first-seen order, and the version each key holds.
    var order: seq<Date> := [];
    var byDate: map<Date, Version> := map[];
    for n := 0 to |versions|
      invariant Collapsed(versions[..n], order, byDate)
    {
      var v := versions[n];
      assert versions[..n + 1] == versions[..n] + [v];
      CollapseOne(versions[..n], order, byDate, v);
      if v.effectiveDate !in byDate {
        order := order + [v.effectiveDate];
      }
      byDate := byDate[v.effectiveDate := v];
    }
    assert versions[..|versions|] == versions;
    assert forall i :: 0 <= i < |order| ==> order[i] in order;
    kept := Values(order, byDate);
    ValuesAreTheLast(versions, order, byDate);
  }

  lemma ValuesAreTheLast(versions: seq<Version>, order: seq<Date>, byDate: map<Date, Version>)
    requires Collapsed(versions, order, byDate)
    requires forall i :: 0 <= i < |order| ==> order[i] in byDate
    ensures var kept := Values(order, byDate);
      && DistinctDates(kept)
      && (forall v :: v in kept <==> LastListed(versions, v))
      && (forall v :: v in versions ==> exists w :: w in kept && w.effectiveDate == v.effectiveDate)
  {
    var kept := Values(order, byDate);
    forall d | d in order ensures byDate[d] in kept {
      var k :| 0 <= k < |order| && order[k] == d;
      assert kept[k] == byDate[d];
    }
    forall v | LastListed(versions, v) ensures v in kept {
      assert v in versions;
      SameLast(versions, v, byDate[v.effectiveDate]);
    }
    forall v | v in kept ensures LastListed(versions, v) {
      var k :| 0 <= k < |kept| && kept[k] == v;
      assert order[k] in order;
    }
    forall v | v in versions ensures exists w :: w in kept && w.effectiveDate == v.effectiveDate {
      assert byDate[v.effectiveDate] in kept;
    }
  }

  function Values(order: seq<Date>, byDate: map<Date, Version>): (r: seq<Version>)
    requires forall i :: 0 <= i < |order| ==> order[i] in byDate
    ensures |r| == |order| && forall i :: 0 <= i < |order| ==> r[i] == byDate[order[i]]
  {
    seq(|order|, i requires 0 <= i < |order| && order[i] in byDate => byDate[order[i]])
  }
}
