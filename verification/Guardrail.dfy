/**
  The literality guardrail of the evaluation harness: every displayed citation is read again from
  its own text, re-resolved and searched again, independently of the runtime verdict.
*/
module Guardrail {
  import opened Wrappers
  import opened Typography
  import opened Ellipsis
  import opened Reparse
  import opened Placement
  import opened Segments
  import opened BlockRefs
  import opened Corpus
  import opened Snap
  import opened Verifier

  datatype VerifiedCitation = VerifiedCitation(blockRef: string, text: string, verdict: Verdict, anchor: Anchor)

  datatype Reason =
    | REASON_DISCARDED | REASON_UNQUALIFIED | REASON_NO_EVIDENCE | REASON_UNRESOLVED | REASON_EMPTY | REASON_NOT_LITERAL

  datatype Violation = Violation(caseId: string, blockRef: string, reason: Reason, quote: string, verifiedAt: Date)

  /** Whether a shown quote still stands in its block; shared by both modes' guardrails. */
  ghost function Reverify(tools: Tools, store: Store, date: Date, cited: BlockRef, quote: string): Option<Reason> {
    match ResolveBlock(store, cited, date)
    case None => Some(REASON_UNRESOLVED)
    case Some(resolved) =>
      var segments := SplitIntoSegments(tools.nfc, quote).segments;
      if segments == [] then Some(REASON_EMPTY)
      else if !Scattered(segments, Normalize(tools.nfc, resolved.text)) then Some(REASON_NOT_LITERAL)
      else None
  }

  ghost function CheckOne(tools: Tools, store: Store, date: Date, evidence: set<BlockRef>,
                          citation: VerifiedCitation): Option<Reason>
  {
    if citation.verdict == DISCARDED then Some(REASON_DISCARDED) else
    match Parse(citation.blockRef)
    case None => Some(REASON_UNQUALIFIED)
    case Some(cited) =>
      if cited !in evidence then Some(REASON_NO_EVIDENCE)
      else Reverify(tools, store, date, cited, citation.text)
  }

  /** The violations of a list of citations: one per failing citation, in order. */
  ghost function Violations(tools: Tools, store: Store, date: Date, evidence: set<BlockRef>,
                            caseId: string, citations: seq<VerifiedCitation>): seq<Violation>
  {
    if citations == [] then [] else
      var last := citations[|citations| - 1];
      Violations(tools, store, date, evidence, caseId, citations[..|citations| - 1]) +
      match CheckOne(tools, store, date, evidence, last)
      case None => []
      case Some(reason) => [Violation(caseId, last.blockRef, reason, last.text, date)]
  }

  method ReverifyQuote(tools: Tools, store: Store, date: Date, cited: BlockRef, quote: string)
    returns (reason: Option<Reason>)
    ensures reason == Reverify(tools, store, date, cited, quote)
  {
    var resolved := ResolveBlock(store, cited, date);
    if resolved.None? { return Some(REASON_UNRESOLVED); }
    var segments := SplitIntoSegments(tools.nfc, quote).segments;
    if segments == [] { return Some(REASON_EMPTY); }
    var literal := ContainsSegmentsInOrder(Normalize(tools.nfc, resolved.value.text), segments);
    reason := if literal then None else Some(REASON_NOT_LITERAL);
  }

  method CheckCitations(tools: Tools, store: Store, date: Date, evidence: set<BlockRef>,
                        caseId: string, citations: seq<VerifiedCitation>)
    returns (violations: seq<Violation>)
    ensures violations == Violations(tools, store, date, evidence, caseId, citations)
  {
    violations := [];
    for n := 0 to |citations|
      invariant violations == Violations(tools, store, date, evidence, caseId, citations[..n])
    {
      var citation := citations[n];
      assert citations[..n + 1][..n] == citations[..n] && citations[..n + 1][n] == citation;
      var reason: Option<Reason>;
      var cited := Parse(citation.blockRef);
      if citation.verdict == DISCARDED {
        reason := Some(REASON_DISCARDED);
      } else if cited.None? {
        reason := Some(REASON_UNQUALIFIED);
      } else if cited.value !in evidence {
        reason := Some(REASON_NO_EVIDENCE);
      } else {
        reason := ReverifyQuote(tools, store, date, cited.value, citation.text);
      }
      if reason.Some? {
        violations := violations + [Violation(caseId, citation.blockRef, reason.value, citation.text, date)];
      }
    }
    assert citations[..|citations|] == citations;
  }

  lemma {:induction false} NoViolations(tools: Tools, store: Store, date: Date, evidence: set<BlockRef>,
                                        caseId: string, citations: seq<VerifiedCitation>)
    ensures Violations(tools, store, date, evidence, caseId, citations) == [] <==>
      forall c :: c in citations ==> CheckOne(tools, store, date, evidence, c).None?
  {
    if citations != [] {
      var init, last := citations[..|citations| - 1], citations[|citations| - 1];
      NoViolations(tools, store, date, evidence, caseId, init);
      assert citations == init + [last];
      assert forall c :: c in citations <==> c in init || c == last;
    }
  }

  /** The violations are those of the citations that fail, each with its reason. */
  lemma {:induction false} ViolationsAre(tools: Tools, store: Store, date: Date, evidence: set<BlockRef>,
                                         caseId: string, citations: seq<VerifiedCitation>, v: Violation)
    ensures v in Violations(tools, store, date, evidence, caseId, citations) <==>
      exists c :: c in citations && CheckOne(tools, store, date, evidence, c) == Some(v.reason) &&
                  v.caseId == caseId && v.blockRef == c.blockRef && v.quote == c.text && v.verifiedAt == date
  {
    if citations != [] {
      var init, last := citations[..|citations| - 1], citations[|citations| - 1];
      ViolationsAre(tools, store, date, evidence, caseId, init, v);
      assert forall c :: c in citations <==> c in init || c == last by { assert citations == init + [last]; }
    }
  }

  // ---------- What passing means ----------

  /** The quote has something to search for, and all of it stands in the text in order, nowhere overlapping. */
  ghost predicate Literal(nfc: string -> string, quote: string, text: string) {
    var segments := SplitIntoSegments(nfc, quote).segments;
    segments != [] && exists at :: Placed(segments, Normalize(nfc, text), at)
  }

  /** A citation the guardrail can look up: not discarded, its token naming evidence in force. */
  ghost predicate Resolvable(store: Store, date: Date, evidence: set<BlockRef>, c: VerifiedCitation) {
    && c.verdict != DISCARDED && Parse(c.blockRef).Some? && Parse(c.blockRef).value in evidence
    && ResolveBlock(store, Parse(c.blockRef).value, date).Some?
  }

  /** A citation passes exactly when its token names evidence in force that holds the shown text literally. */
  lemma PassesIffLiteral(tools: Tools, store: Store, date: Date, evidence: set<BlockRef>, c: VerifiedCitation)
    ensures CheckOne(tools, store, date, evidence, c).None? <==>
      && Resolvable(store, date, evidence, c)
      && Literal(tools.nfc, c.text, ResolveBlock(store, Parse(c.blockRef).value, date).value.text)
  {
    if Resolvable(store, date, evidence, c) {
      ScatteredIffPlaced(SplitIntoSegments(tools.nfc, c.text).segments,
                         Normalize(tools.nfc, ResolveBlock(store, Parse(c.blockRef).value, date).value.text));
    }
  }

  /** The reason a citation fails names the first thing that is wrong with it. */
  lemma ReasonsAre(tools: Tools, store: Store, date: Date, evidence: set<BlockRef>, c: VerifiedCitation)
    ensures var reason, cited := CheckOne(tools, store, date, evidence, c), Parse(c.blockRef);
      && (reason == Some(REASON_DISCARDED) <==> c.verdict == DISCARDED)
      && (reason == Some(REASON_UNQUALIFIED) <==> c.verdict != DISCARDED && cited.None?)
      && (reason == Some(REASON_NO_EVIDENCE) <==> c.verdict != DISCARDED && cited.Some? && cited.value !in evidence)
      && (reason == Some(REASON_UNRESOLVED) <==>
            c.verdict != DISCARDED && cited.Some? && cited.value in evidence && ResolveBlock(store, cited.value, date).None?)
      && (reason == Some(REASON_EMPTY) <==>
            Resolvable(store, date, evidence, c) && EllipsisOnly(tools.nfc, c.text))
      && (reason == Some(REASON_NOT_LITERAL) <==>
            && Resolvable(store, date, evidence, c) && !EllipsisOnly(tools.nfc, c.text)
            && !Literal(tools.nfc, c.text, ResolveBlock(store, cited.value, date).value.text))
  {
    PassesIffLiteral(tools, store, date, evidence, c);
    NothingToQuoteIffEllipsisOnly(tools.nfc, c.text);
  }

  // ---------- Runtime survivors re-verify ----------

  /** A shown text that holds nothing but whitespace and ellipsis marks. */
  predicate EllipsisOnly(nfc: string -> string, text: string) {
    OnlyMarks(Expand(Normalize(nfc, text)))
  }

  lemma NothingToQuoteIffEllipsisOnly(nfc: string -> string, text: string)
    ensures SplitIntoSegments(nfc, text).segments == [] <==> EllipsisOnly(nfc, text)
  {
    SplitIsSegmentsOf(nfc, text);
    NoSegmentsIffOnlyMarks(Expand(Normalize(nfc, text)));
  }

  /** Literal pieces of a block, printed and split again, are again literal pieces of it. */
  lemma PrintedSpansStayLiteral(tools: Tools, spans: seq<string>, text: string)
    requires Sound(tools) && spans != [] && Scattered(spans, Normalize(tools.nfc, text))
    ensures Scattered(SplitIntoSegments(tools.nfc, Render(spans)).segments, Normalize(tools.nfc, text))
  {
    var blockText := Normalize(tools.nfc, text);
    NormalizeIsTidy(tools.nfc, text);
    forall i | 0 <= i < |spans| ensures Tidy(tools.nfc, spans[i]) {
      var k := ScatteredIsInside(spans, blockText, i);
      TidySubstring(tools.nfc, blockText, k, k + |spans[i]|);
    }
    RenderSplits(tools.nfc, spans);
    AllSegmentsAreScattered(spans, blockText);
  }

  lemma ShownQuoteStands(tools: Tools, store: Store, date: Date, block: BlockRef, spans: seq<string>)
    requires Sound(tools) && spans != [] && ResolveBlock(store, block, date).Some?
    requires Scattered(spans, Normalize(tools.nfc, ResolveBlock(store, block, date).value.text))
    ensures Reverify(tools, store, date, block, Render(spans)) ==
            if EllipsisOnly(tools.nfc, Render(spans)) then Some(REASON_EMPTY) else None
  {
    PrintedSpansStayLiteral(tools, spans, ResolveBlock(store, block, date).value.text);
    NothingToQuoteIffEllipsisOnly(tools.nfc, Render(spans));
  }

  function RefSet(evidence: seq<BlockRef>): set<BlockRef> {
    set b | b in evidence
  }

  function Shown(r: CitationResult): (c: VerifiedCitation)
    requires r.anchor.Some?
  {
    VerifiedCitation(r.blockRef, r.text, r.verdict, r.anchor.value)
  }

  function AnchorRef(c: VerifiedCitation): BlockRef {
    BlockRef(c.anchor.normId, c.anchor.blockId)
  }

  /** The token of a citation reads as the block it is anchored to. */
  predicate ReadsBack(c: VerifiedCitation) {
    Parse(c.blockRef) == Some(AnchorRef(c))
  }

  /** A citation that reads back fails only as empty, and only if it shows nothing but ellipsis marks. */
  ghost predicate FailsOnlyAsEmpty(tools: Tools, store: Store, date: Date, evidence: set<BlockRef>, c: VerifiedCitation) {
    CheckOne(tools, store, date, evidence, c) == if EllipsisOnly(tools.nfc, c.text) then Some(REASON_EMPTY) else None
  }

  lemma EllipsisOnlyFails(tools: Tools, store: Store, date: Date, evidence: set<BlockRef>, c: VerifiedCitation)
    requires EllipsisOnly(tools.nfc, c.text)
    ensures CheckOne(tools, store, date, evidence, c).Some?
  {
    NothingToQuoteIffEllipsisOnly(tools.nfc, c.text);
  }

  /**
    Every citation the verifier lets through passes the guardrail over the same corpus, date and
    evidence, with two exceptions: a repaired text that holds nothing but ellipsis marks always fails,
    and a citation re-anchored to a block whose own token reads as another block is judged there.
  */
  lemma SurvivorReverifies(tools: Tools, store: Store, date: Date, evidence: seq<BlockRef>, citation: ProposedCitation)
    requires Sound(tools)
    requires VerifyOne(tools, store, date, evidence, citation).verdict != DISCARDED
    ensures VerifyOne(tools, store, date, evidence, citation).anchor.Some?
    ensures var c := Shown(VerifyOne(tools, store, date, evidence, citation));
      && AnchorRef(c) in evidence && c.blockRef == Print(AnchorRef(c))
      && (ReadsBack(c) ==> FailsOnlyAsEmpty(tools, store, date, RefSet(evidence), c))
      && (c.verdict != REPAIRED_ANCHOR ==> ReadsBack(c))
      && (EllipsisOnly(tools.nfc, c.text) ==> CheckOne(tools, store, date, RefSet(evidence), c).Some?)
      && (c.verdict == VERIFIED_DIRECT ==> !EllipsisOnly(tools.nfc, c.text))
  {
    var r := VerifyOne(tools, store, date, evidence, citation);
    var block, spans := SurvivorIsBacked(tools, store, date, evidence, citation);
    var c := Shown(r);
    assert AnchorRef(c) == block;
    if r.verdict != REPAIRED_ANCHOR {
      ParsedIsPrintable(citation.blockRef);
      PrintThenParse(block);
    }
    ShownQuoteStands(tools, store, date, block, spans);
    if EllipsisOnly(tools.nfc, c.text) {
      EllipsisOnlyFails(tools, store, date, RefSet(evidence), c);
    }
    if r.verdict == VERIFIED_DIRECT {
      RenderRoundTrip(tools.nfc, citation.text);
      NothingToQuoteIffEllipsisOnly(tools.nfc, r.text);
    }
  }

  /** Evidence whose tokens read back leaves ellipses as the one exception. */
  lemma PrintableSurvivorReverifies(tools: Tools, store: Store, date: Date, evidence: seq<BlockRef>, citation: ProposedCitation)
    requires Sound(tools) && forall b :: b in evidence ==> Printable(b)
    requires VerifyOne(tools, store, date, evidence, citation).verdict != DISCARDED
    ensures VerifyOne(tools, store, date, evidence, citation).anchor.Some?
    ensures var c := Shown(VerifyOne(tools, store, date, evidence, citation));
      ReadsBack(c) && FailsOnlyAsEmpty(tools, store, date, RefSet(evidence), c)
  {
    SurvivorReverifies(tools, store, date, evidence, citation);
    PrintThenParse(AnchorRef(Shown(VerifyOne(tools, store, date, evidence, citation))));
  }

  /**
    The converse: a quote printed from ordered literal pieces of an evidence block in force, long
    enough to be quoted, is always verified directly and anchored to that block.
  */
  lemma VerbatimQuoteVerifies(tools: Tools, store: Store, date: Date, evidence: seq<BlockRef>,
                              block: BlockRef, spans: seq<string>)
    requires Sound(tools) && Printable(block) && block in evidence && spans != []
    requires ResolveBlock(store, block, date).Some?
    requires Scattered(spans, Normalize(tools.nfc, ResolveBlock(store, block, date).value.text))
    requires SegmentsMeetMinimum(SplitIntoSegments(tools.nfc, Render(spans)))
    ensures var r := VerifyOne(tools, store, date, evidence, ProposedCitation(Print(block), Render(spans)));
      if EllipsisOnly(tools.nfc, Render(spans)) then r == Discarded(Print(block))
      else r.verdict == VERIFIED_DIRECT && r.blockRef == Print(block) &&
           r.anchor == Some(ResolveBlock(store, block, date).value.anchor)
  {
    PrintThenParse(block);
    PrintedSpansStayLiteral(tools, spans, ResolveBlock(store, block, date).value.text);
    NothingToQuoteIffEllipsisOnly(tools.nfc, Render(spans));
  }

  // ---------- The exception is real ----------

  const DOTTED := "( ... )"
  const NEAR_DOTTED := "( .. )"

  function NearMatcher(a: string, b: string): seq<Match> {
    if a == DOTTED && b == NEAR_DOTTED then [Match(0, 0, 4), Match(5, 4, 2)] else []
  }

  lemma NearMatcherIsMatcher()
    ensures IsMatcher(NearMatcher)
  {
    assert DOTTED[0..4] == NEAR_DOTTED[0..4];
    assert DOTTED[5..7] == NEAR_DOTTED[4..6];
  }

  ghost predicate MarkText(s: string) {
    && (forall i :: 0 <= i < |s| ==> s[i] == '(' || s[i] == ')' || s[i] == '.' || s[i] == ' ')
    && (forall i, j :: 0 <= i < j < |s| && j == i + 1 && s[i] == ' ' ==> s[j] != ' ')
    && Trimmed(s)
  }

  lemma PlainIsTidy(s: string)
    requires MarkText(s)
    ensures Tidy(Identity, s) && HasNoMark(s)
  {
  }

  lemma PlainIsNormal(s: string)
    requires MarkText(s)
    ensures Normalize(Identity, s) == s && Tidy(Identity, s)
    ensures Expand(s) == s && HasNoMark(s)
  {
    PlainIsTidy(s);
    IdentityIsNormalForm();
    ExpandKeeps(s);
    NormalizeFixes(Identity, s);
  }

  /** Two dots are no mark, so the near text is a single segment. */
  lemma PlainIsOneSegment(s: string)
    requires MarkText(s) && s != "" && NoTripleDot(s)
    ensures SplitIntoSegments(Identity, s) == Segmentation([s], false)
  {
    PlainIsNormal(s);
    CleanIsOneWord(s);
    SplitGivesWords(s);
    SplitIsSegmentsOf(Identity, s);
    CleanIsOneSegment(Identity, s);
  }

  /** Three dots are a mark, so the block's text holds nothing to quote. */
  lemma MarkIsEllipsisOnly(s: string)
    requires MarkText(s) && s == "( " + ("..." + " )")
    ensures EllipsisOnly(Identity, s)
  {
    PlainIsNormal(s);
    var d := "..." + " )";
    assert s[1..] == " " + d && (" " + d)[1..] == d;
    assert AfterOpen(s) == " " + d;
    assert SkipSpaces(" " + d) == SkipSpaces(d) == d;
    DotsInFront(" )");
    assert SkipDots(" )") == " )";
    assert " )"[1..] == ")" && ")"[1..] == "";
    assert SkipSpaces(" )") == SkipSpaces(")") == ")" && AfterClose(")") == "";
    assert EllipsisRun(s) == Some("");
  }

  lemma AtChar(t: string, k: int, w: string, i: nat)
    requires At(t, k, w) && i < |w|
    ensures t[k + i] == w[i]
  {
    assert t[k..k + |w|][i] == t[k + i];
  }

  lemma NearMarkIsNotLiteral(a: string, b: string)
    requires a == DOTTED && b == NEAR_DOTTED
    ensures !Scattered([b], a)
  {
    if Scattered([b], a) {
      var k :| At(a, k, [b][0]) && Scattered([b][1..], a[k + |[b][0]|..]);
      AtChar(a, k, b, if k == 0 then 4 else 0);
    }
  }

  lemma NearMarkSnaps(a: string, b: string)
    requires a == DOTTED && b == NEAR_DOTTED
    ensures SnapOnto(NearMatcher, [b], a) == Some(SnapResult(a, 12.0 / 13.0))
  {
    var m0, m1 := Match(0, 0, 4), Match(5, 4, 2);
    var ms := [m0, m1];
    assert a[0..] == a && a[0..7] == a && NearMatcher(a, b) == ms;
    assert ms[1..] == [m1] && [m1][1..] == [];
    assert Sized([]) == [] && Sized([m1]) == [m1] && Sized(ms) == ms;
    assert ms[..1] == [m0] && [m0][..0] == [];
    assert MatchedSize([]) == 0 && MatchedSize([m0]) == 4 && MatchedSize(ms) == 6;
    var snap := SegmentSnap(0, 7, a, 12.0 / 13.0);
    assert SnapSegment(NearMatcher, b, a, 0) == Some(snap);
    assert [b][1..] == [] && Snaps(NearMatcher, [], a, 7) == Some([]);
    assert [snap] + [] == [snap];
    assert Snaps(NearMatcher, [b], a, 0) == Some([snap]);
    assert Texts([snap]) == [a];
  }

  /** A quote that is not literal but snaps onto the whole block is shown as the whole block. */
  lemma SnappedWhole(tools: Tools, ref: BlockRef, text: string, quote: string, similarity: real)
    returns (store: Store, citation: ProposedCitation)
    requires Parse(Print(ref)) == Some(ref)
    requires Normalize(tools.nfc, text) == text
    requires SplitIntoSegments(tools.nfc, quote) == Segmentation([quote], false)
    requires !Scattered([quote], text)
    requires SnapOnto(tools.matcher, [quote], text) == Some(SnapResult(text, similarity))
    ensures var r := VerifyOne(tools, store, 0, [ref], citation);
      r.verdict == REPAIRED_SNAP && r.text == text
  {
    store := map[ref := StoredBlock("", "", [Version(0, text)])];
    citation := ProposedCitation(Print(ref), quote);
    assert InForce(store[ref].versions, 0) == Some(Version(0, text));
  }

  lemma MarksArePlain()
    ensures MarkText(DOTTED) && MarkText(NEAR_DOTTED) && NoTripleDot(NEAR_DOTTED)
    ensures NEAR_DOTTED != "" && DOTTED == "( " + ("..." + " )")
  {
  }

  lemma NearMarkOnMark(mark: string, near: string)
    requires MarkText(mark) && mark == "( " + ("..." + " )")
    requires MarkText(near) && near != "" && NoTripleDot(near)
    ensures Normalize(Identity, mark) == mark && EllipsisOnly(Identity, mark)
    ensures SplitIntoSegments(Identity, near) == Segmentation([near], false)
  {
    PlainIsNormal(mark);
    PlainIsOneSegment(near);
    MarkIsEllipsisOnly(mark);
  }

  lemma NearMarkExample() returns (mark: string, near: string)
    ensures near != ""
    ensures Normalize(Identity, mark) == mark && EllipsisOnly(Identity, mark)
    ensures SplitIntoSegments(Identity, near) == Segmentation([near], false)
    ensures !Scattered([near], mark)
    ensures SnapOnto(NearMatcher, [near], mark) == Some(SnapResult(mark, 12.0 / 13.0))
  {
    mark, near := DOTTED, NEAR_DOTTED;
    MarksArePlain();
    NearMarkOnMark(mark, near);
    NearMarkIsNotLiteral(mark, near);
    NearMarkSnaps(mark, near);
  }

  /** A concrete citation whose repair shows nothing but ellipsis marks, and so fails as empty. */
  lemma EllipsisRepairFails(ref: BlockRef)
    returns (tools: Tools, store: Store, citation: ProposedCitation)
    requires Printable(ref)
    ensures Sound(tools)
    ensures var r := VerifyOne(tools, store, 0, [ref], citation);
      && r.verdict == REPAIRED_SNAP && r.anchor.Some?
      && CheckOne(tools, store, 0, RefSet([ref]), Shown(r)) == Some(REASON_EMPTY)
  {
    tools := Tools(Identity, NearMatcher);
    PrintThenParse(ref);
    IdentityIsSound();
    var mark, near := NearMarkExample();
    store, citation := SnappedWhole(tools, ref, mark, near, 12.0 / 13.0);
    SurvivorReverifies(tools, store, 0, [ref], citation);
  }

  lemma IdentityIsSound()
    ensures Sound(Tools(Identity, NearMatcher))
  {
    IdentityIsNormalForm();
    NearMatcherIsMatcher();
  }

  // ---------- A quote that is not there is refused ----------

  lemma MisquoteFails(tools: Tools, store: Store, ref: BlockRef, mark: string, near: string, anchor: Anchor)
    requires tools.nfc == Identity && Printable(ref) && Normalize(Identity, mark) == mark && near != ""
    requires SplitIntoSegments(Identity, near) == Segmentation([near], false) && !Scattered([near], mark)
    requires ResolveBlock(store, ref, 0).Some? && ResolveBlock(store, ref, 0).value.text == mark
    ensures CheckOne(tools, store, 0, {ref}, VerifiedCitation(Print(ref), near, VERIFIED_DIRECT, anchor)) == Some(REASON_NOT_LITERAL)
  {
    PrintThenParse(ref);
  }

  /** A concrete citation of evidence in force whose text is not in its block: shown as verified, it is refused. */
  lemma MisquoteIsRefused(ref: BlockRef, anchor: Anchor) returns (tools: Tools, store: Store, c: VerifiedCitation)
    requires Printable(ref)
    ensures Sound(tools) && c.verdict == VERIFIED_DIRECT && c.anchor == anchor
    ensures Resolvable(store, 0, {ref}, c)
    ensures CheckOne(tools, store, 0, {ref}, c) == Some(REASON_NOT_LITERAL)
  {
    var mark, near := NearMarkExample();
    IdentityIsSound();
    tools, store := Tools(Identity, NearMatcher), OneBlock(ref, mark);
    c := VerifiedCitation(Print(ref), near, VERIFIED_DIRECT, anchor);
    OneBlockResolves(ref, mark, store);
    MisquoteFails(tools, store, ref, mark, near, anchor);
    ReasonsAre(tools, store, 0, {ref}, c);
  }

  function OneBlock(ref: BlockRef, text: string): Store {
    map[ref := StoredBlock("", "", [Version(0, text)])]
  }

  lemma OneBlockResolves(ref: BlockRef, text: string, store: Store)
    requires store == OneBlock(ref, text)
    ensures ResolveBlock(store, ref, 0).Some? && ResolveBlock(store, ref, 0).value.text == text
  {
    assert InForce(store[ref].versions, 0) == Some(Version(0, text));
  }

  // ---------- A re-anchored citation may not read back ----------

  function WholeMatcher(a: string, b: string): seq<Match> {
    if a == b && a != "" then [Match(0, 0, |a|)] else []
  }

  lemma WholeIsSound()
    ensures Sound(Tools(Identity, WholeMatcher))
  {
    IdentityIsNormalForm();
  }

  lemma WholeRatio(quote: string)
    requires quote != ""
    ensures Ratio(WholeMatcher, quote, quote) == 1.0 && WithinLengthTolerance(|quote|, |quote|)
  {
    var m := Match(0, 0, |quote|);
    assert WholeMatcher(quote, quote) == [m] && [m][..0] == [] && MatchedSize([m]) == |quote|;
    var n := |quote| as real;
    assert 2.0 * n / (n + n) == 1.0;
  }

  lemma WholeSnaps(quote: string)
    requires quote != ""
    ensures SnapOnto(WholeMatcher, [quote], quote) == Some(SnapResult(quote, 1.0))
    ensures SnapOnto(WholeMatcher, [quote], "") == None
  {
    var m := Match(0, 0, |quote|);
    assert quote[0..] == quote && quote[0..|quote|] == quote && WholeMatcher(quote, quote) == [m];
    assert [m][1..] == [] && Sized([]) == [] && Sized([m]) == [m];
    var snap := SegmentSnap(0, |quote|, quote, 1.0);
    WholeRatio(quote);
    assert SnapSegment(WholeMatcher, quote, quote, 0) == Some(snap);
    assert [quote][1..] == [] && Snaps(WholeMatcher, [], quote, |quote|) == Some([]);
    assert [snap] + [] == [snap] && Texts([snap]) == [quote];
    assert ""[0..] == "" && WholeMatcher("", quote) == [];
  }

  lemma SoleReanchoring(tools: Tools, store: Store, cited: BlockRef, other: BlockRef, segments: seq<string>,
                        resolved: ResolvedBlock, snap: SnapResult)
    requires segments != [] && cited != other && ResolveBlock(store, other, 0) == Some(resolved)
    requires SnapOnto(tools.matcher, segments, Normalize(tools.nfc, resolved.text)) == Some(snap)
    ensures Reanchorings(tools, store, 0, segments, cited, [cited, other]) == [Reanchoring(resolved, other, snap)]
  {
    var evidence := [cited, other];
    assert evidence[..1] == [cited] && [cited][..0] == [];
    assert Reanchorings(tools, store, 0, segments, cited, [cited]) == [];
  }

  /** The quote lies in the evidence block that was not cited, so the citation is re-anchored there. */
  lemma Reanchored(tools: Tools, store: Store, cited: BlockRef, other: BlockRef, quote: string, resolved: ResolvedBlock,
                   snap: SnapResult)
    requires Printable(cited) && cited != other && SplitIntoSegments(tools.nfc, quote) == Segmentation([quote], false)
    requires ResolveBlock(store, cited, 0).Some? && quote != ""
    requires Normalize(tools.nfc, ResolveBlock(store, cited, 0).value.text) == "" && SnapOnto(tools.matcher, [quote], "") == None
    requires ResolveBlock(store, other, 0) == Some(resolved)
    requires SnapOnto(tools.matcher, [quote], Normalize(tools.nfc, resolved.text)) == Some(snap)
    ensures VerifyOne(tools, store, 0, [cited, other], ProposedCitation(Print(cited), quote)) ==
            Repaired(REPAIRED_ANCHOR, other, resolved, snap)
  {
    PrintThenParse(cited);
    SoleReanchoring(tools, store, cited, other, [quote], resolved, snap);
    assert !Scattered([quote], "");
  }

  function TwoBlocks(cited: BlockRef, other: BlockRef, quote: string): Store {
    map[cited := StoredBlock("", "", [Version(0, "")]), other := StoredBlock("", "", [Version(0, quote)])]
  }

  lemma TwoBlocksResolve(cited: BlockRef, other: BlockRef, quote: string, store: Store)
    requires cited != other && store == TwoBlocks(cited, other, quote)
    ensures ResolveBlock(store, cited, 0).Some? && ResolveBlock(store, cited, 0).value.text == ""
    ensures ResolveBlock(store, other, 0).Some? && ResolveBlock(store, other, 0).value.text == quote
  {
    assert InForce(store[cited].versions, 0) == Some(Version(0, ""));
    assert InForce(store[other].versions, 0) == Some(Version(0, quote));
  }

  lemma NormalAndSnapped(quote: string)
    requires MarkText(quote) && NoTripleDot(quote) && quote != ""
    ensures Normalize(Identity, "") == "" && Normalize(Identity, quote) == quote && !EllipsisOnly(Identity, quote)
    ensures SplitIntoSegments(Identity, quote) == Segmentation([quote], false)
    ensures SnapOnto(WholeMatcher, [quote], quote) == Some(SnapResult(quote, 1.0))
    ensures SnapOnto(WholeMatcher, [quote], "") == None
  {
    PlainIsOneSegment(quote);
    PlainIsNormal(quote);
    PlainIsNormal("");
    WholeSnaps(quote);
    NothingToQuoteIffEllipsisOnly(Identity, quote);
  }

  lemma ReanchorExample(cited: BlockRef, other: BlockRef, quote: string, tools: Tools, store: Store)
    requires Printable(cited) && cited != other && MarkText(quote) && NoTripleDot(quote) && quote != ""
    requires tools == Tools(Identity, WholeMatcher) && store == TwoBlocks(cited, other, quote)
    ensures var r := VerifyOne(tools, store, 0, [cited, other], ProposedCitation(Print(cited), quote));
      r.verdict == REPAIRED_ANCHOR && r.blockRef == Print(other) && r.text == quote && r.anchor.Some?
    ensures !EllipsisOnly(tools.nfc, quote)
  {
    NormalAndSnapped(quote);
    TwoBlocksResolve(cited, other, quote, store);
    Reanchored(tools, store, cited, other, quote, ResolveBlock(store, other, 0).value, SnapResult(quote, 1.0));
  }

  /** A block whose token names no evidence takes what was re-anchored to it out of the evidence. */
  lemma LostInPrint(cited: BlockRef, other: BlockRef, quote: string, tools: Tools, store: Store)
    requires Printable(cited) && cited != other && MarkText(quote) && NoTripleDot(quote) && quote != ""
    requires tools == Tools(Identity, WholeMatcher) && store == TwoBlocks(cited, other, quote)
    requires Parse(Print(other)).Some? && Parse(Print(other)).value !in [cited, other]
    ensures var r := VerifyOne(tools, store, 0, [cited, other], ProposedCitation(Print(cited), quote));
      && r.verdict == REPAIRED_ANCHOR && r.anchor.Some? && !EllipsisOnly(tools.nfc, r.text)
      && CheckOne(tools, store, 0, RefSet([cited, other]), Shown(r)) == Some(REASON_NO_EVIDENCE)
  {
    ReanchorExample(cited, other, quote, tools, store);
  }

  lemma SpacedBlockIsLost(other: BlockRef, read: BlockRef)
    requires other == BlockRef("n", "y ") && read == BlockRef("n", "y")
    ensures Parse(Print(other)) == Some(read)
  {
    PrintThenParse(read);
    StripSpaces("", Print(read), " ");
    assert "" + Print(read) + " " == Print(other);
    StripKeepsTrimmed(Print(read));
  }

  /** A block id that ends in a space is lost in print: the repaired citation names no evidence any more. */
  lemma MisreadRepairFails() returns (tools: Tools, store: Store, evidence: seq<BlockRef>, citation: ProposedCitation)
    ensures Sound(tools)
    ensures var r := VerifyOne(tools, store, 0, evidence, citation);
      && r.verdict == REPAIRED_ANCHOR && r.anchor.Some? && !EllipsisOnly(tools.nfc, r.text)
      && CheckOne(tools, store, 0, RefSet(evidence), Shown(r)) == Some(REASON_NO_EVIDENCE)
  {
    var cited, other, read := BlockRef("n", "x"), BlockRef("n", "y "), BlockRef("n", "y");
    WholeIsSound();
    MarksArePlain();
    SpacedBlockIsLost(other, read);
    tools, store, evidence := Tools(Identity, WholeMatcher), TwoBlocks(cited, other, NEAR_DOTTED), [cited, other];
    citation := ProposedCitation(Print(cited), NEAR_DOTTED);
    LostInPrint(cited, other, NEAR_DOTTED, tools, store);
  }
}
