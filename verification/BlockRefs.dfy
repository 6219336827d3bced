/** The corpus-wide identity of a block and its `norm:block` token. */
module BlockRefs {
  import opened Wrappers
  import opened Typography

  datatype BlockRef = BlockRef(normId: string, blockId: string)

  function Print(b: BlockRef): string {
    b.normId + ":" + b.blockId
  }

  /** `str.partition(":")`, as the text before and after the first separator. */
  function Partition(s: string): Option<(string, string)> {
    if s == "" then None
    else if s[0] == ':' then Some(("", s[1..]))
    else match Partition(s[1..])
      case Some((before, after)) => Some(([s[0]] + before, after))
      case None => None
  }

  function Parse(raw: string): Option<BlockRef> {
    match Partition(Strip(raw))
    case Some((norm, block)) => if norm == "" || block == "" then None else Some(BlockRef(norm, block))
    case None => None
  }

  /** A reference whose token reads back: norm ids hold no separator, and no id is blank-edged. */
  predicate Printable(b: BlockRef) {
    && b.normId != "" && b.blockId != ""
    && (forall i :: 0 <= i < |b.normId| ==> b.normId[i] != ':')
    && !IsSpace(b.normId[0]) && !IsSpace(b.blockId[|b.blockId| - 1])
  }

  lemma {:induction false} PartitionSplits(s: string)
    ensures Partition(s).Some? ==>
      var (before, after) := Partition(s).value;
      s == before + ":" + after && forall i :: 0 <= i < |before| ==> before[i] != ':'
  {
    if s != "" && s[0] != ':' {
      PartitionSplits(s[1..]);
      if Partition(s[1..]).Some? {
        var (before, after) := Partition(s[1..]).value;
        assert [s[0]] + before + ":" + after == [s[0]] + (before + ":" + after);
      }
    }
  }

  lemma {:induction false} PartitionJoined(before: string, after: string)
    requires forall i :: 0 <= i < |before| ==> before[i] != ':'
    ensures Partition(before + ":" + after) == Some((before, after))
  {
    var s := before + ":" + after;
    if before == "" {
      assert s == ":" + after;
    } else {
      PartitionJoined(before[1..], after);
      assert s[1..] == before[1..] + ":" + after;
      assert [before[0]] + before[1..] == before;
    }
  }

  /** Whatever a token reads as can be printed and read again. */
  lemma ParsedIsPrintable(raw: string)
    requires Parse(raw).Some?
    ensures Printable(Parse(raw).value)
  {
    var s := Strip(raw);
    var i, j := StripIsTrimmed(raw);
    PartitionSplits(s);
    var b := Parse(raw).value;
    assert s[0] == b.normId[0] && s[|s| - 1] == b.blockId[|b.blockId| - 1];
  }

  /** Printing then reading gives the reference back exactly when it is printable. */
  lemma PrintThenParse(b: BlockRef)
    ensures Parse(Print(b)) == Some(b) <==> Printable(b)
  {
    if Printable(b) {
      var s := Print(b);
      assert s[0] == b.normId[0] && s[|s| - 1] == b.blockId[|b.blockId| - 1];
      StripKeepsTrimmed(s);
      PartitionJoined(b.normId, b.blockId);
    }
    if Parse(Print(b)) == Some(b) {
      ParsedIsPrintable(Print(b));
    }
  }
}
