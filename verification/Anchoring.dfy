/** The anchoring of proposed clauses to literal spans of the normalized document. */
module Anchoring {
  import opened Wrappers
  import opened Typography
  import opened Placement
  import opened Snap
  import opened Verifier

  const MIN_CLAUSE_CHARS := 20

  datatype AnchoredSpan = AnchoredSpan(start: int, end: int, text: string)

  /** One snippet: exact containment, else a near-exact snap over the whole document. */
  function AnchorOne(tools: Tools, document: string, snippet: string): Option<AnchoredSpan> {
    var needle := Normalize(tools.nfc, snippet);
    if |needle| < MIN_CLAUSE_CHARS then None
    else
      var index := FindFrom(document, needle, 0);
      if index != -1 then Some(AnchoredSpan(index, index + |needle|, needle))
      else match SnapSegment(tools.matcher, needle, document, 0)
        case None => None
        case Some(snap) => Some(AnchoredSpan(snap.start, snap.end, snap.text))
  }

  ghost predicate AnchoredAs(tools: Tools, document: string, snippets: seq<string>, spans: seq<AnchoredSpan>) {
    |spans| <= |snippets| && forall i :: 0 <= i < |spans| ==> AnchorOne(tools, document, snippets[i]) == Some(spans[i])
  }

  lemma OneMoreAnchored(tools: Tools, document: string, snippets: seq<string>, spans: seq<AnchoredSpan>, span: AnchoredSpan)
    requires AnchoredAs(tools, document, snippets, spans) && |spans| < |snippets|
    requires AnchorOne(tools, document, snippets[|spans|]) == Some(span)
    ensures AnchoredAs(tools, document, snippets, spans + [span])
  {
  }

  /** Anchors every snippet, or nothing: the first one that will not anchor fails the whole segmentation. */
  method AnchorClauses(tools: Tools, document: string, snippets: seq<string>)
    returns (r: Option<seq<AnchoredSpan>>, ghost failed: nat)
    ensures r.Some? ==> |r.value| == |snippets| && AnchoredAs(tools, Normalize(tools.nfc, document), snippets, r.value)
    ensures r.None? ==> failed < |snippets| && AnchorOne(tools, Normalize(tools.nfc, document), snippets[failed]).None?
  {
    failed := 0;
    var normalized := Normalize(tools.nfc, document);
    var spans: seq<AnchoredSpan> := [];
    for n := 0 to |snippets|
      invariant |spans| == n && AnchoredAs(tools, normalized, snippets, spans)
    {
      var span := AnchorOne(tools, normalized, snippets[n]);
      if span.None? { return None, n; }
      OneMoreAnchored(tools, normalized, snippets, spans, span.value);
      spans := spans + [span.value];
    }
    r := Some(spans);
  }

  /** Whatever the model proposed, an anchored clause quotes the document literally, near the snippet's length. */
  lemma AnchoredIsLiteral(tools: Tools, document: string, snippet: string)
    requires Sound(tools) && AnchorOne(tools, document, snippet).Some?
    ensures var span, needle := AnchorOne(tools, document, snippet).value, Normalize(tools.nfc, snippet);
      && 0 <= span.start < span.end <= |document| && document[span.start..span.end] == span.text
      && 9 * |needle| <= 11 * |span.text| && 5 * |span.text| <= 6 * |needle|
  {
    var needle := Normalize(tools.nfc, snippet);
    if FindFrom(document, needle, 0) == -1 {
      SnapSegmentIsSpan(tools.matcher, needle, document, 0);
    }
  }

  /**
    Where a proposed clause anchors: nowhere if it is too short; at its leftmost literal occurrence if it
    has one; and else where it snaps over the whole document, if it does.
  */
  lemma AnchorIs(tools: Tools, document: string, snippet: string, k: int)
    ensures var needle, anchored := Normalize(tools.nfc, snippet), AnchorOne(tools, document, snippet);
      && (|needle| < 20 ==> anchored == None)
      && (|needle| >= 20 && At(document, k, needle) && (forall j :: 0 <= j < k ==> !At(document, j, needle)) ==>
            anchored == Some(AnchoredSpan(k, k + |needle|, needle)))
      && (|needle| >= 20 && (forall j :: 0 <= j ==> !At(document, j, needle)) ==>
            var snap := SnapSegment(tools.matcher, needle, document, 0);
            anchored == if snap.None? then None else Some(AnchoredSpan(snap.value.start, snap.value.end, snap.value.text)))
  {
    FoundIsLeftmost(document, Normalize(tools.nfc, snippet), 0);
  }
}
