/**
  The runtime citation verifier: every citation ends at exactly one verdict.

  `VerifyOne` says what the verdict of one citation is when the corpus is read afresh each time.
  The class `BlockResolver` and the methods after it are the code, with its memo and its loops,
  proved to compute exactly that.
*/
module Verifier {
  import opened Wrappers
  import opened Lists
  import opened Typography
  import opened Ellipsis
  import opened Placement
  import opened BlockRefs
  import opened Corpus
  import opened Snap

  /** The library oracles the verifier calls: NFC and sequence matching. */
  datatype Tools = Tools(nfc: string -> string, matcher: Matcher)

  ghost predicate Sound(tools: Tools) {
    IsNormalForm(tools.nfc) && IsMatcher(tools.matcher)
  }

  datatype Verdict = VERIFIED_DIRECT | REPAIRED_SNAP | REPAIRED_ANCHOR | DISCARDED

  datatype ProposedCitation = ProposedCitation(blockRef: string, text: string)

  datatype CitationResult = CitationResult(
    verdict: Verdict, blockRef: string, text: string, anchor: Option<Anchor>, snapSimilarity: Option<real>)

  function Discarded(blockRef: string): CitationResult {
    CitationResult(DISCARDED, blockRef, "", None, None)
  }

  function Repaired(verdict: Verdict, block: BlockRef, resolved: ResolvedBlock, snap: SnapResult): CitationResult {
    CitationResult(verdict, Print(block), snap.text, Some(resolved.anchor), Some(snap.similarity))
  }

  datatype Reanchoring = Reanchoring(resolved: ResolvedBlock, block: BlockRef, snap: SnapResult)

  /** What one evidence block adds to the candidates for re-anchoring: itself, if the citation snaps into it. */
  function ReanchorOne(tools: Tools, store: Store, date: Date, segments: seq<string>,
                       cited: BlockRef, block: BlockRef): seq<Reanchoring>
    requires segments != []
  {
    if block == cited then [] else
    match ResolveBlock(store, block, date)
    case None => []
    case Some(resolved) =>
      match SnapOnto(tools.matcher, segments, Normalize(tools.nfc, resolved.text))
      case None => []
      case Some(snap) => [Reanchoring(resolved, block, snap)]
  }

  /** The other evidence blocks the citation snaps into, in evidence order. */
  function Reanchorings(tools: Tools, store: Store, date: Date, segments: seq<string>,
                        cited: BlockRef, evidence: seq<BlockRef>): seq<Reanchoring>
    requires segments != []
    decreases |evidence|
  {
    if evidence == [] then [] else
      var last := evidence[|evidence| - 1];
      Reanchorings(tools, store, date, segments, cited, evidence[..|evidence| - 1]) +
      ReanchorOne(tools, store, date, segments, cited, last)
  }

  function ReanchorResult(cited: BlockRef, matches: seq<Reanchoring>): CitationResult {
    if |matches| != 1 then Discarded(Print(cited))
    else Repaired(REPAIRED_ANCHOR, matches[0].block, matches[0].resolved, matches[0].snap)
  }

  /** The single verdict of one citation. */
  ghost function VerifyOne(tools: Tools, store: Store, date: Date, evidence: seq<BlockRef>,
                           citation: ProposedCitation): CitationResult
  {
    match Parse(citation.blockRef)
    case None => Discarded(citation.blockRef)
    case Some(cited) =>
      if cited !in evidence then Discarded(citation.blockRef) else
      match ResolveBlock(store, cited, date)
      case None => Discarded(citation.blockRef)
      case Some(resolved) =>
        var split := SplitIntoSegments(tools.nfc, citation.text);
        if split.segments == [] || !SegmentsMeetMinimum(split) then Discarded(citation.blockRef) else
        var blockText := Normalize(tools.nfc, resolved.text);
        if Scattered(split.segments, blockText) then
          CitationResult(VERIFIED_DIRECT, Print(cited), Render(split.segments), Some(resolved.anchor), None)
        else match SnapOnto(tools.matcher, split.segments, blockText)
          case Some(snap) => Repaired(REPAIRED_SNAP, cited, resolved, snap)
          case None => ReanchorResult(cited, Reanchorings(tools, store, date, split.segments, cited, evidence))
  }

  ghost function VerifyAll(tools: Tools, store: Store, date: Date, evidence: seq<BlockRef>,
                           citations: seq<ProposedCitation>): (r: seq<CitationResult>)
    ensures |r| == |citations|
    ensures forall i :: 0 <= i < |citations| ==> r[i] == VerifyOne(tools, store, date, evidence, citations[i])
  {
    seq(|citations|, i requires 0 <= i < |citations| => VerifyOne(tools, store, date, evidence, citations[i]))
  }

  // ---------- The code ----------

  /** Resolves evidence blocks through the corpus, caching by block. */
  class BlockResolver {
    const store: Store
    const targetDate: Date
    var cache: map<BlockRef, Option<ResolvedBlock>>
    /** Every read of the corpus so far. */
    ghost var lookups: seq<BlockRef>

    /** The cache never differs from the corpus, and no block was read twice. */
    ghost predicate Valid()
      reads this
    {
      && (forall b :: b in cache ==> cache[b] == ResolveBlock(store, b, targetDate))
      && (forall b :: b in lookups <==> b in cache)
      && (forall i, j :: 0 <= i < j < |lookups| ==> lookups[i] != lookups[j])
    }

    constructor (store: Store, targetDate: Date)
      ensures Valid() && cache == map[] && lookups == []
      ensures this.store == store && this.targetDate == targetDate
    {
      this.store := store;
      this.targetDate := targetDate;
      cache := map[];
      lookups := [];
    }

    method Resolve(block: BlockRef) returns (r: Option<ResolvedBlock>)
      requires Valid()
      modifies this
      ensures Valid()
      ensures r == ResolveBlock(store, block, targetDate)
      ensures cache == old(cache)[block := r]
      ensures lookups == if block in old(cache) then old(lookups) else old(lookups) + [block]
    {
      if block !in cache {
        cache := cache[block := ResolveBlock(store, block, targetDate)];
        lookups := lookups + [block];
      }
      r := cache[block];
    }
  }

  method Reanchor(tools: Tools, segments: seq<string>, cited: BlockRef, evidence: seq<BlockRef>,
                  resolver: BlockResolver)
    returns (r: CitationResult)
    requires Sound(tools) && segments != [] && resolver.Valid()
    modifies resolver
    ensures resolver.Valid()
    ensures r == ReanchorResult(cited, Reanchorings(tools, resolver.store, resolver.targetDate, segments, cited, evidence))
  {
    var matches: seq<Reanchoring> := [];
    for n := 0 to |evidence|
      invariant resolver.Valid()
      invariant matches == Reanchorings(tools, resolver.store, resolver.targetDate, segments, cited, evidence[..n])
    {
      var block := evidence[n];
      ReanchoringsStep(tools, resolver.store, resolver.targetDate, segments, cited, evidence, n);
      if block == cited { continue; }
      var resolved := resolver.Resolve(block);
      if resolved.None? { continue; }
      var snap := SnapCitation(tools.matcher, segments, Normalize(tools.nfc, resolved.value.text));
      if snap.Some? {
        matches := matches + [Reanchoring(resolved.value, block, snap.value)];
      }
    }
    assert evidence[..|evidence|] == evidence;
    r := ReanchorResult(cited, matches);
  }

  lemma ReanchoringsStep(tools: Tools, store: Store, date: Date, segments: seq<string>,
                         cited: BlockRef, evidence: seq<BlockRef>, n: nat)
    requires segments != [] && n < |evidence|
    ensures Reanchorings(tools, store, date, segments, cited, evidence[..n + 1]) ==
            Reanchorings(tools, store, date, segments, cited, evidence[..n]) +
            ReanchorOne(tools, store, date, segments, cited, evidence[n])
  {
    assert evidence[..n + 1][..n] == evidence[..n] && evidence[..n + 1][n] == evidence[n];
  }

  method VerifyCitation(tools: Tools, citation: ProposedCitation, evidence: seq<BlockRef>, resolver: BlockResolver)
    returns (r: CitationResult)
    requires Sound(tools) && resolver.Valid()
    modifies resolver
    ensures resolver.Valid()
    ensures r == VerifyOne(tools, resolver.store, resolver.targetDate, evidence, citation)
  {
    var parsed := Parse(citation.blockRef);
    if parsed.None? || parsed.value !in evidence { return Discarded(citation.blockRef); }
    var cited := parsed.value;
    var resolved := resolver.Resolve(cited);
    if resolved.None? { return Discarded(citation.blockRef); }
    var split := SplitIntoSegments(tools.nfc, citation.text);
    if split.segments == [] || !SegmentsMeetMinimum(split) { return Discarded(citation.blockRef); }
    var blockText := Normalize(tools.nfc, resolved.value.text);
    var literal := ContainsSegmentsInOrder(blockText, split.segments);
    if literal {
      return CitationResult(VERIFIED_DIRECT, Print(cited), Render(split.segments), Some(resolved.value.anchor), None);
    }
    var snap := SnapCitation(tools.matcher, split.segments, blockText);
    if snap.Some? { return Repaired(REPAIRED_SNAP, cited, resolved.value, snap.value); }
    r := Reanchor(tools, split.segments, cited, evidence, resolver);
  }

  /** One result per citation, in order, each what a fresh reading of the corpus gives. */
  method VerifyCitations(tools: Tools, citations: seq<ProposedCitation>, evidence: seq<BlockRef>,
                         targetDate: Date, store: Store)
    returns (results: seq<CitationResult>)
    requires Sound(tools)
    ensures results == VerifyAll(tools, store, targetDate, evidence, citations)
  {
    var resolver := new BlockResolver(store, targetDate);
    results := [];
    for n := 0 to |citations|
      invariant resolver.Valid() && resolver.store == store && resolver.targetDate == targetDate
      invariant fresh(resolver)
      invariant |results| == n
      invariant forall i :: 0 <= i < n ==> results[i] == VerifyOne(tools, store, targetDate, evidence, citations[i])
    {
      var result := VerifyCitation(tools, citations[n], evidence, resolver);
      results := results + [result];
    }
  }

  // ---------- Which verdict a citation gets ----------

  /** A citation that may be verified at all: it names evidence in force, and quotes enough of it. */
  ghost predicate Quotable(tools: Tools, store: Store, date: Date, evidence: seq<BlockRef>, citation: ProposedCitation) {
    var split := SplitIntoSegments(tools.nfc, citation.text);
    && Parse(citation.blockRef).Some? && Parse(citation.blockRef).value in evidence
    && ResolveBlock(store, Parse(citation.blockRef).value, date).Some?
    && split.segments != []
    && (split.hasEllipsis ==> forall i :: 0 <= i < |split.segments| ==> |split.segments[i]| >= 15)
  }

  /** The segments snap onto the block, if it is in force. */
  ghost predicate SnapsOn(tools: Tools, store: Store, date: Date, segments: seq<string>, block: BlockRef)
    requires segments != []
  {
    && ResolveBlock(store, block, date).Some?
    && SnapOnto(tools.matcher, segments, Normalize(tools.nfc, ResolveBlock(store, block, date).value.text)).Some?
  }

  /** A place in the evidence the citation could be re-anchored to. */
  ghost predicate CandidateAt(tools: Tools, store: Store, date: Date, segments: seq<string>, cited: BlockRef,
                              evidence: seq<BlockRef>, k: int)
    requires segments != []
  {
    0 <= k < |evidence| && evidence[k] != cited && SnapsOn(tools, store, date, segments, evidence[k])
  }

  /** What a repair shows: the block's token and anchor, the snapped text and its similarity. */
  ghost predicate RepairedOn(tools: Tools, store: Store, date: Date, segments: seq<string>, block: BlockRef,
                             verdict: Verdict, r: CitationResult)
    requires segments != [] && SnapsOn(tools, store, date, segments, block)
  {
    var resolved := ResolveBlock(store, block, date).value;
    var snap := SnapOnto(tools.matcher, segments, Normalize(tools.nfc, resolved.text)).value;
    r == CitationResult(verdict, Print(block), snap.text, Some(resolved.anchor), Some(snap.similarity))
  }

  /** The one place of the evidence that could take the citation. */
  ghost predicate OnlyCandidate(tools: Tools, store: Store, date: Date, segments: seq<string>, cited: BlockRef,
                                evidence: seq<BlockRef>, k: int)
    requires segments != []
  {
    && CandidateAt(tools, store, date, segments, cited, evidence, k)
    && forall j :: CandidateAt(tools, store, date, segments, cited, evidence, j) ==> j == k
  }

  function Taking(tools: Tools, store: Store, date: Date, segments: seq<string>, cited: BlockRef): BlockRef -> seq<Reanchoring>
    requires segments != []
  {
    block => ReanchorOne(tools, store, date, segments, cited, block)
  }

  lemma {:induction false} ReanchoringsAreYielded(tools: Tools, store: Store, date: Date, segments: seq<string>,
                                                  cited: BlockRef, evidence: seq<BlockRef>)
    requires segments != []
    ensures Reanchorings(tools, store, date, segments, cited, evidence) ==
            Yield(evidence, Taking(tools, store, date, segments, cited))
    decreases |evidence|
  {
    if evidence != [] {
      ReanchoringsAreYielded(tools, store, date, segments, cited, evidence[..|evidence| - 1]);
    }
  }

  lemma TakesOneOrNone(tools: Tools, store: Store, date: Date, segments: seq<string>, cited: BlockRef, block: BlockRef)
    requires segments != []
    ensures var one := Taking(tools, store, date, segments, cited)(block);
      && |one| <= 1
      && (one != [] <==> block != cited && SnapsOn(tools, store, date, segments, block))
      && (one != [] ==> RepairedOn(tools, store, date, segments, block, REPAIRED_ANCHOR, ReanchorResult(cited, one)))
  {
  }

  lemma TakesAt(tools: Tools, store: Store, date: Date, segments: seq<string>, cited: BlockRef, evidence: seq<BlockRef>, k: int)
    requires segments != []
    ensures YieldsAt(evidence, Taking(tools, store, date, segments, cited), k) <==>
            CandidateAt(tools, store, date, segments, cited, evidence, k)
  {
    if 0 <= k < |evidence| { TakesOneOrNone(tools, store, date, segments, cited, evidence[k]); }
  }

  lemma TakesOnlyAt(tools: Tools, store: Store, date: Date, segments: seq<string>, cited: BlockRef, evidence: seq<BlockRef>)
    requires segments != []
    ensures forall k :: YieldsOnlyAt(evidence, Taking(tools, store, date, segments, cited), k) <==>
                        OnlyCandidate(tools, store, date, segments, cited, evidence, k)
  {
    forall k ensures YieldsAt(evidence, Taking(tools, store, date, segments, cited), k) <==>
                     CandidateAt(tools, store, date, segments, cited, evidence, k)
    {
      TakesAt(tools, store, date, segments, cited, evidence, k);
    }
  }

  /** The citation moves exactly when one place of the evidence, and no other, takes it. */
  lemma ReanchoredIffOnly(tools: Tools, store: Store, date: Date, evidence: seq<BlockRef>, segments: seq<string>, cited: BlockRef)
    requires segments != []
    ensures var r := ReanchorResult(cited, Reanchorings(tools, store, date, segments, cited, evidence));
      && (forall k :: OnlyCandidate(tools, store, date, segments, cited, evidence, k) ==>
            RepairedOn(tools, store, date, segments, evidence[k], REPAIRED_ANCHOR, r))
      && ((forall k :: !OnlyCandidate(tools, store, date, segments, cited, evidence, k)) ==>
            r == CitationResult(DISCARDED, Print(cited), "", None, None))
  {
    var taking := Taking(tools, store, date, segments, cited);
    var found := Reanchorings(tools, store, date, segments, cited, evidence);
    ReanchoringsAreYielded(tools, store, date, segments, cited, evidence);
    TakesOnlyAt(tools, store, date, segments, cited, evidence);
    forall block ensures |taking(block)| <= 1 {
      TakesOneOrNone(tools, store, date, segments, cited, block);
    }
    OneYielded(evidence, taking);
    forall k | OnlyCandidate(tools, store, date, segments, cited, evidence, k)
      ensures RepairedOn(tools, store, date, segments, evidence[k], REPAIRED_ANCHOR, ReanchorResult(cited, found))
    {
      assert YieldsOnlyAt(evidence, taking, k);
      TakesOneOrNone(tools, store, date, segments, cited, evidence[k]);
    }
    if forall k :: !OnlyCandidate(tools, store, date, segments, cited, evidence, k) {
      assert |found| != 1;
    }
  }

  /**
    The verdict of any citation. A quote too poor to verify is discarded; one that lies in order in its
    block is verified directly; else it is repaired in place if it snaps there; else re-anchored if
    exactly one other place of the evidence takes it; else discarded.
  */
  lemma VerdictIs(tools: Tools, store: Store, date: Date, evidence: seq<BlockRef>, citation: ProposedCitation)
    ensures var r := VerifyOne(tools, store, date, evidence, citation);
      if !Quotable(tools, store, date, evidence, citation) then
        r == CitationResult(DISCARDED, citation.blockRef, "", None, None)
      else
        var cited, segments := Parse(citation.blockRef).value, SplitIntoSegments(tools.nfc, citation.text).segments;
        var resolved := ResolveBlock(store, cited, date).value;
        if exists at :: Placed(segments, Normalize(tools.nfc, resolved.text), at) then
          r == CitationResult(VERIFIED_DIRECT, Print(cited), Render(segments), Some(resolved.anchor), None)
        else if SnapsOn(tools, store, date, segments, cited) then
          RepairedOn(tools, store, date, segments, cited, REPAIRED_SNAP, r)
        else
          && (r.verdict == REPAIRED_ANCHOR <==> exists k :: OnlyCandidate(tools, store, date, segments, cited, evidence, k))
          && (forall k :: OnlyCandidate(tools, store, date, segments, cited, evidence, k) ==>
                RepairedOn(tools, store, date, segments, evidence[k], REPAIRED_ANCHOR, r))
          && (r.verdict != REPAIRED_ANCHOR ==> r == CitationResult(DISCARDED, Print(cited), "", None, None))
  {
    if Quotable(tools, store, date, evidence, citation) {
      var cited, segments := Parse(citation.blockRef).value, SplitIntoSegments(tools.nfc, citation.text).segments;
      ScatteredIffPlaced(segments, Normalize(tools.nfc, ResolveBlock(store, cited, date).value.text));
      ReanchoredIffOnly(tools, store, date, evidence, segments, cited);
    }
  }

  // ---------- What every survivor is ----------

  /** Where a result's text came from: the block it is anchored to, and how it lies in it. */
  ghost predicate Backed(tools: Tools, store: Store, date: Date, evidence: seq<BlockRef>,
                         block: BlockRef, spans: seq<string>, r: CitationResult)
  {
    && block in evidence
    && r.blockRef == Print(block)
    && ResolveBlock(store, block, date).Some?
    && var resolved := ResolveBlock(store, block, date).value;
       && r.anchor == Some(resolved.anchor)
       && spans != [] && r.text == Render(spans)
       && Scattered(spans, Normalize(tools.nfc, resolved.text))
  }

  lemma SnapIsBacked(tools: Tools, segments: seq<string>, blockText: string) returns (spans: seq<string>)
    requires Sound(tools) && segments != []
    requires SnapOnto(tools.matcher, segments, blockText).Some?
    ensures |spans| == |segments| && Scattered(spans, blockText)
    ensures SnapOnto(tools.matcher, segments, blockText).value.text == Render(spans)
    ensures forall i :: 0 <= i < |spans| ==>
      9 * |segments[i]| <= 11 * |spans[i]| && 5 * |spans[i]| <= 6 * |segments[i]|
    ensures SNAP_SIMILARITY_THRESHOLD <= SnapOnto(tools.matcher, segments, blockText).value.similarity
  {
    var snaps := Snaps(tools.matcher, segments, blockText, 0).value;
    SnapsAreSpans(tools.matcher, segments, blockText, 0);
    SpansAreScattered(snaps, segments, blockText, 0);
    assert blockText[0..] == blockText;
    spans := Texts(snaps);
  }

  lemma {:induction false} ReanchoringsAreReal(tools: Tools, store: Store, date: Date, segments: seq<string>,
                                               cited: BlockRef, evidence: seq<BlockRef>)
    requires segments != []
    ensures forall m :: m in Reanchorings(tools, store, date, segments, cited, evidence) ==>
      && m.block in evidence && m.block != cited
      && ResolveBlock(store, m.block, date) == Some(m.resolved)
      && SnapOnto(tools.matcher, segments, Normalize(tools.nfc, m.resolved.text)) == Some(m.snap)
    decreases |evidence|
  {
    if evidence != [] {
      ReanchoringsAreReal(tools, store, date, segments, cited, evidence[..|evidence| - 1]);
    }
  }

  /**
    Every result that is not discarded shows ordered, disjoint literal pieces of the block it is
    anchored to, and that block is evidence in force at the date.
  */
  lemma SurvivorIsBacked(tools: Tools, store: Store, date: Date, evidence: seq<BlockRef>, citation: ProposedCitation)
    returns (block: BlockRef, spans: seq<string>)
    requires Sound(tools)
    requires VerifyOne(tools, store, date, evidence, citation).verdict != DISCARDED
    ensures Backed(tools, store, date, evidence, block, spans, VerifyOne(tools, store, date, evidence, citation))
    ensures var r := VerifyOne(tools, store, date, evidence, citation);
      && (r.verdict == VERIFIED_DIRECT ==> spans == SplitIntoSegments(tools.nfc, citation.text).segments)
      && (r.verdict != REPAIRED_ANCHOR ==> Parse(citation.blockRef) == Some(block))
      && (r.verdict == REPAIRED_ANCHOR ==> Parse(citation.blockRef) != Some(block))
  {
    var r := VerifyOne(tools, store, date, evidence, citation);
    var cited := Parse(citation.blockRef).value;
    var resolved := ResolveBlock(store, cited, date).value;
    var segments := SplitIntoSegments(tools.nfc, citation.text).segments;
    var blockText := Normalize(tools.nfc, resolved.text);
    block := cited;
    if Scattered(segments, blockText) {
      spans := segments;
    } else if SnapOnto(tools.matcher, segments, blockText).Some? {
      spans := SnapIsBacked(tools, segments, blockText);
    } else {
      var matches := Reanchorings(tools, store, date, segments, cited, evidence);
      ReanchoringsAreReal(tools, store, date, segments, cited, evidence);
      assert matches[0] in matches;
      block := matches[0].block;
      spans := SnapIsBacked(tools, segments, Normalize(tools.nfc, matches[0].resolved.text));
    }
  }
}
