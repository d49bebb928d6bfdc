/** Reading a document out as text (`_get_doc_content`) and as a heading outline
    (`_get_doc_outline`), both over the blocks the collector returns. */
module Extractors {
  import opened Common
  import opened Strings
  import opened Blocks
  import opened Collector

  /** What `get_doc_content` answers. */
  datatype DocContent = DocContent(
    documentId: string,
    blockCount: int,
    textLength: int,
    content: string,
    truncated: bool)

  /** One entry of the outline: a heading level, the heading's text and its block id. */
  datatype OutlineEntry = OutlineEntry(level: int, text: string, blockId: string)

  /** What `get_doc_outline` answers. */
  datatype DocOutline = DocOutline(documentId: string, headingCount: int, outline: seq<OutlineEntry>)

  /** The text of every block, in order. */
  function BlockTexts(bs: seq<Block>): seq<string>
  {
    seq(|bs|, i requires 0 <= i < |bs| => BlockText(bs[i]))
  }

  /** The non-empty texts, in order. */
  function NonEmpty(texts: seq<string>): (r: seq<string>)
    ensures |r| <= |texts|
  {
    if texts == [] then []
    else (if texts[0] != "" then [texts[0]] else []) + NonEmpty(texts[1..])
  }

  /** No kept text is empty. */
  lemma {:induction false} NonEmptyHasNoEmpty(texts: seq<string>)
    ensures forall k :: 0 <= k < |NonEmpty(texts)| ==> NonEmpty(texts)[k] != ""
    decreases |texts|
  {
    if texts != [] {
      NonEmptyHasNoEmpty(texts[1..]);
      var head := if texts[0] != "" then [texts[0]] else [];
      var r, rest := NonEmpty(texts), NonEmpty(texts[1..]);
      forall k | 0 <= k < |r| ensures r[k] != "" {
        if k >= |head| {
          assert r[k] == rest[k - |head|];
        }
      }
    }
  }

  /** Python's `t[:n]` for a positive `n`. */
  function Prefix(t: string, n: int): (p: string)
    requires n > 0
    ensures |p| == Min(|t|, n)
  {
    if n < |t| then t[..n] else t
  }

  /** The cut piece is where the text starts. */
  lemma PrefixIsPrefix(t: string, n: int)
    requires n > 0
    ensures Prefix(t, n) == t[..|Prefix(t, n)|]
  {
  }

  /** The lines `_get_doc_content` emits from `texts` with `budget` characters left:
      empty texts are skipped, each other text is cut to what is left of the budget,
      and nothing more is emitted once the budget is used up. */
  function ContentPieces(texts: seq<string>, budget: int): seq<string>
  {
    if texts == [] then []
    else if texts[0] == "" then ContentPieces(texts[1..], budget)
    else if budget <= 0 then []
    else
      var p := Prefix(texts[0], budget);
      [p] + ContentPieces(texts[1..], budget - |p|)
  }

  /** The answer of `get_doc_content` for the collected blocks. */
  function DocContentOf(documentId: string, blocks: seq<Block>, maxChars: int): DocContent
  {
    var pieces := ContentPieces(BlockTexts(blocks), maxChars);
    var total := TotalLength(pieces);
    DocContent(documentId, |blocks|, total, Join(pieces, "\n"), total >= maxChars)
  }

  lemma {:induction false} NonEmptyCons(t: string, rest: seq<string>)
    ensures NonEmpty([t] + rest) == (if t != "" then [t] else []) + NonEmpty(rest)
  {
    assert ([t] + rest)[0] == t;
    assert ([t] + rest)[1..] == rest;
  }

  lemma {:induction false} TotalLengthCons(p: string, rest: seq<string>)
    ensures TotalLength([p] + rest) == |p| + TotalLength(rest)
  {
    assert ([p] + rest)[0] == p;
    assert ([p] + rest)[1..] == rest;
  }

  /** With no budget left nothing more is emitted. */
  lemma {:induction false} ContentPiecesExhausted(texts: seq<string>, budget: int)
    requires budget <= 0
    ensures ContentPieces(texts, budget) == []
    decreases |texts|
  {
    if texts != [] && texts[0] == "" {
      ContentPiecesExhausted(texts[1..], budget);
    }
  }

  /** The emitted length is the length of all non-empty texts, capped by the budget
      (and zero when the budget is not positive). */
  lemma {:induction false} ContentPiecesLength(texts: seq<string>, budget: int)
    ensures TotalLength(ContentPieces(texts, budget)) == Min(TotalLength(NonEmpty(texts)), Max(budget, 0))
    decreases |texts|
  {
    if texts != [] {
      var t, rest := texts[0], texts[1..];
      assert texts == [t] + rest;
      NonEmptyCons(t, rest);
      ContentPiecesLength(rest, budget);
      if t != "" {
        TotalLengthCons(t, NonEmpty(rest));
        if budget > 0 {
          var p := Prefix(t, budget);
          ContentPiecesLength(rest, budget - |p|);
          TotalLengthCons(p, ContentPieces(rest, budget - |p|));
        }
      } else {
        assert NonEmpty(texts) == NonEmpty(rest);
      }
    }
  }

  /** When every non-empty text fits in the budget, all of them are emitted whole. */
  lemma {:induction false} ContentPiecesWhole(texts: seq<string>, budget: int)
    requires TotalLength(NonEmpty(texts)) <= budget
    ensures ContentPieces(texts, budget) == NonEmpty(texts)
    decreases |texts|
  {
    if texts != [] {
      var t, rest := texts[0], texts[1..];
      assert texts == [t] + rest;
      NonEmptyCons(t, rest);
      if t != "" {
        TotalLengthCons(t, NonEmpty(rest));
        ContentPiecesWhole(rest, budget - |t|);
      } else {
        assert [] + NonEmpty(rest) == NonEmpty(rest);
        ContentPiecesWhole(rest, budget);
      }
    }
  }

  /** `p` is where `t` starts. */
  predicate IsPrefixOf(p: string, t: string)
  {
    |p| <= |t| && p == t[..|p|]
  }

  /** Each emitted line is a non-empty prefix of the non-empty text at the same
      position. */
  lemma {:induction false} ContentPiecesPrefixes(texts: seq<string>, budget: int)
    ensures var pieces, f := ContentPieces(texts, budget), NonEmpty(texts);
      && |pieces| <= |f|
      && forall k :: 0 <= k < |pieces| ==> pieces[k] != "" && IsPrefixOf(pieces[k], f[k])
    decreases |texts|
  {
    if texts != [] {
      var t, rest := texts[0], texts[1..];
      assert texts == [t] + rest;
      NonEmptyCons(t, rest);
      if t == "" {
        ContentPiecesPrefixes(rest, budget);
        assert ContentPieces(texts, budget) == ContentPieces(rest, budget);
        assert NonEmpty(texts) == NonEmpty(rest);
      } else if budget > 0 {
        var p := Prefix(t, budget);
        var tail, fr := ContentPieces(rest, budget - |p|), NonEmpty(rest);
        var pieces, f := [p] + tail, [t] + fr;
        assert ContentPieces(texts, budget) == pieces && NonEmpty(texts) == f;
        PrefixIsPrefix(t, budget);
        ContentPiecesPrefixes(rest, budget - |p|);
        forall k | 0 <= k < |pieces| ensures pieces[k] != "" && IsPrefixOf(pieces[k], f[k]) {
          if k > 0 {
            assert pieces[k] == tail[k - 1] && f[k] == fr[k - 1];
          }
        }
      }
    }
  }

  /** Every emitted line but the last is the non-empty text at its position, whole. */
  lemma {:induction false} ContentPiecesWholeButLast(texts: seq<string>, budget: int)
    ensures var pieces, f := ContentPieces(texts, budget), NonEmpty(texts);
      && |pieces| <= |f|
      && forall k :: 0 <= k < |pieces| - 1 ==> pieces[k] == f[k]
    decreases |texts|
  {
    ContentPiecesPrefixes(texts, budget);
    if texts != [] {
      var t, rest := texts[0], texts[1..];
      assert texts == [t] + rest;
      NonEmptyCons(t, rest);
      if t == "" {
        ContentPiecesWholeButLast(rest, budget);
        assert ContentPieces(texts, budget) == ContentPieces(rest, budget);
        assert NonEmpty(texts) == NonEmpty(rest);
      } else if budget > 0 {
        var p := Prefix(t, budget);
        var tail, fr := ContentPieces(rest, budget - |p|), NonEmpty(rest);
        var pieces, f := [p] + tail, [t] + fr;
        assert ContentPieces(texts, budget) == pieces && NonEmpty(texts) == f;
        ContentPiecesWholeButLast(rest, budget - |p|);
        if tail != [] {
          if |p| < |t| {
            ContentPiecesExhausted(rest, budget - |p|);
          }
          PrefixIsPrefix(t, budget);
          assert p == t;
        }
        forall k | 0 <= k < |pieces| - 1 ensures pieces[k] == f[k] {
          if k > 0 {
            assert pieces[k] == tail[k - 1] && f[k] == fr[k - 1];
          }
        }
      }
    }
  }

  /** Every non-empty text is among the non-empty texts. */
  lemma {:induction false} NonEmptyHas(texts: seq<string>, k: int)
    requires 0 <= k < |texts| && texts[k] != ""
    ensures texts[k] in NonEmpty(texts)
    decreases |texts|
  {
    var t, rest := texts[0], texts[1..];
    assert texts == [t] + rest;
    NonEmptyCons(t, rest);
    if k > 0 {
      assert texts[k] == rest[k - 1];
      NonEmptyHas(rest, k - 1);
    }
  }

  /** `truncated` is set exactly when the document's text does not fit in `max_chars`;
      and `text_length` is that text's length capped at `max_chars`. */
  lemma DocContentTruncation(documentId: string, blocks: seq<Block>, maxChars: int)
    ensures var d, all := DocContentOf(documentId, blocks, maxChars), TotalLength(NonEmpty(BlockTexts(blocks)));
      && d.textLength == Min(all, Max(maxChars, 0))
      && (d.truncated <==> all >= maxChars)
  {
    ContentPiecesLength(BlockTexts(blocks), maxChars);
  }

  /** The content joins the lines with one newline between each two. */
  lemma DocContentLength(documentId: string, blocks: seq<Block>, maxChars: int)
    ensures var d := DocContentOf(documentId, blocks, maxChars);
      var pieces := ContentPieces(BlockTexts(blocks), maxChars);
      |d.content| == d.textLength + (if pieces == [] then 0 else |pieces| - 1)
  {
    JoinLength(ContentPieces(BlockTexts(blocks), maxChars), "\n");
  }

  /** When the content is not truncated, the text of every block occurs in it. */
  lemma DocContentHasEveryText(documentId: string, blocks: seq<Block>, maxChars: int, i: int)
    requires 0 <= i < |blocks|
    requires !DocContentOf(documentId, blocks, maxChars).truncated
    ensures IsInfix(BlockText(blocks[i]), DocContentOf(documentId, blocks, maxChars).content)
  {
    var texts := BlockTexts(blocks);
    var t := BlockText(blocks[i]);
    var content := DocContentOf(documentId, blocks, maxChars).content;
    if t == "" {
      assert OccursAt(t, content, 0);
    } else {
      ContentPiecesLength(texts, maxChars);
      ContentPiecesWhole(texts, maxChars);
      assert texts[i] == t;
      NonEmptyHas(texts, i);
      var f := NonEmpty(texts);
      var j :| 0 <= j < |f| && f[j] == t;
      JoinHasPart(f, "\n", j);
    }
  }

  /** One step of `ContentPieces` at position `i`. */
  lemma ContentPiecesStep(texts: seq<string>, i: int, budget: int)
    requires 0 <= i < |texts|
    ensures texts[i] == "" ==> ContentPieces(texts[i..], budget) == ContentPieces(texts[i + 1..], budget)
    ensures texts[i] != "" && budget <= 0 ==> ContentPieces(texts[i..], budget) == []
    ensures texts[i] != "" && budget > 0 ==>
      var p := Prefix(texts[i], budget);
      ContentPieces(texts[i..], budget) == [p] + ContentPieces(texts[i + 1..], budget - |p|)
  {
    assert texts[i..][0] == texts[i] && texts[i..][1..] == texts[i + 1..];
  }

  /** The lines the loop of `_get_doc_content` ends with when it has reached block
      `i` holding `lines`, `total` characters long. */
  function LinesFrom(texts: seq<string>, i: nat, lines: seq<string>, total: int, maxChars: int): seq<string>
    requires i <= |texts|
    decreases |texts| - i
  {
    if i == |texts| then lines
    else if texts[i] == "" then LinesFrom(texts, i + 1, lines, total, maxChars)
    else if maxChars - total <= 0 then lines
    else
      var p := Prefix(texts[i], maxChars - total);
      LinesFrom(texts, i + 1, lines + [p], total + |p|, maxChars)
  }

  /** The loop emits, after what it holds, the lines of the remaining texts with
      what is left of the budget. */
  lemma {:induction false} LinesFromPieces(texts: seq<string>, i: nat, lines: seq<string>, total: int, maxChars: int)
    requires i <= |texts|
    ensures LinesFrom(texts, i, lines, total, maxChars) == lines + ContentPieces(texts[i..], maxChars - total)
    decreases |texts| - i
  {
    if i == |texts| {
      assert texts[i..] == [];
      assert lines + [] == lines;
    } else {
      var budget := maxChars - total;
      ContentPiecesStep(texts, i, budget);
      if texts[i] == "" {
        LinesFromPieces(texts, i + 1, lines, total, maxChars);
      } else if budget <= 0 {
        assert lines + [] == lines;
      } else {
        var p := Prefix(texts[i], budget);
        LinesFromPieces(texts, i + 1, lines + [p], total + |p|, maxChars);
        assert maxChars - (total + |p|) == budget - |p|;
        var rest := ContentPieces(texts[i + 1..], budget - |p|);
        assert lines + [p] + rest == lines + ([p] + rest);
      }
    }
  }

  lemma TotalLengthSnoc(lines: seq<string>, p: string)
    ensures TotalLength(lines + [p]) == TotalLength(lines) + |p|
  {
    TotalLengthAppend(lines, [p]);
    TotalLengthCons(p, []);
  }

  /** One turn of the loop of `_get_doc_content` on the text of block `i`: an empty
      text is skipped, the loop ends once the budget is used up, and otherwise the
      text, cut to what is left of the budget, is added. */
  method AddText(ghost texts: seq<string>, i: nat, text: string, lines: seq<string>, total: int, maxChars: int)
    returns (done: bool, lines': seq<string>, total': int)
    requires i < |texts| && text == texts[i] && total == TotalLength(lines)
    ensures total' == TotalLength(lines')
    ensures done ==> LinesFrom(texts, i, lines, total, maxChars) == lines'
    ensures !done ==> LinesFrom(texts, i, lines, total, maxChars) == LinesFrom(texts, i + 1, lines', total', maxChars)
  {
    done, lines', total' := false, lines, total;
    if text == "" {
      return;
    }
    var remaining := maxChars - total;
    if remaining <= 0 {
      done := true;
      return;
    }
    var piece := if remaining < |text| then text[..remaining] else text;
    assert piece == Prefix(texts[i], remaining);
    TotalLengthSnoc(lines, piece);
    lines' := lines + [piece];
    total' := total + |piece|;
  }

  /** The loop of `_get_doc_content` over the collected blocks. */
  method RenderContent(documentId: string, blocks: seq<Block>, maxChars: int) returns (d: DocContent)
    ensures d == DocContentOf(documentId, blocks, maxChars)
  {
    ghost var texts := BlockTexts(blocks);
    ghost var final := LinesFrom(texts, 0, [], 0, maxChars);
    var lines: seq<string> := [];
    var totalChars := 0;
    var i := 0;
    while i < |blocks|
      invariant 0 <= i <= |blocks|
      invariant totalChars == TotalLength(lines)
      invariant LinesFrom(texts, i, lines, totalChars, maxChars) == final
      decreases |blocks| - i
    {
      var done;
      done, lines, totalChars := AddText(texts, i, BlockText(blocks[i]), lines, totalChars, maxChars);
      if done {
        break;
      }
      i := i + 1;
    }
    LinesFromPieces(texts, 0, [], 0, maxChars);
    assert texts[0..] == texts && [] + ContentPieces(texts, maxChars) == ContentPieces(texts, maxChars);
    d := DocContent(documentId, |blocks|, totalChars, Join(lines, "\n"), totalChars >= maxChars);
  }

  /** What `_get_doc_content` answers: the id check, then the rendering of the
      collection's blocks or the collection's error. */
  function DocContentAnswer(api: ChildrenApi, documentId: string, maxBlocks: int, maxChars: int): Result<DocContent>
  {
    if documentId == "" then Err(MissingArgument("get_doc_content", "document_id"))
    else
      match CollectFrom(api, maxBlocks, Start(documentId))
      case Err(e) => Err(e)
      case Ok(blocks) => Ok(DocContentOf(documentId, blocks, maxChars))
  }

  /** `_get_doc_content`: refuses an empty document id before any request, then
      collects the document's blocks and renders their text. */
  method GetDocContent(api: ChildrenApi, documentId: string, maxBlocks: int, maxChars: int)
    returns (r: Result<DocContent>)
    ensures r == DocContentAnswer(api, documentId, maxBlocks, maxChars)
    ensures documentId == "" ==> r == Err(MissingArgument("get_doc_content", "document_id"))
    ensures r.Ok? ==>
      && documentId != "" && r.value.documentId == documentId
      && exists blocks :: Collected(api, documentId, maxBlocks, blocks) && r.value == DocContentOf(documentId, blocks, maxChars)
    ensures r.Err? && documentId != "" ==> FailsAt(api, documentId, r.error)
  {
    if documentId == "" {
      return Err(MissingArgument("get_doc_content", "document_id"));
    }
    var collected := CollectDocumentBlocks(api, documentId, maxBlocks);
    if collected.Err? {
      return Err(collected.error);
    }
    var d := RenderContent(documentId, collected.value, maxChars);
    r := Ok(d);
  }

  /** The outline entry of a heading block; None for any other block. */
  function EntryOf(b: Block): (e: Option<OutlineEntry>)
    ensures e.Some? <==> HeadingLevel(b.blockType).Some?
  {
    match HeadingLevel(b.blockType)
    case None => None
    case Some(level) => Some(OutlineEntry(level, BlockText(b), b.blockId))
  }

  /** The entries one block adds to the outline: its own, or none. */
  function EntriesOf(b: Block): (es: seq<OutlineEntry>)
    ensures |es| <= 1
  {
    match EntryOf(b)
    case None => []
    case Some(e) => [e]
  }

  /** The outline of the collected blocks: an entry for each heading block, in block order. */
  function OutlineOf(bs: seq<Block>): (r: seq<OutlineEntry>)
    ensures |r| <= |bs|
  {
    if bs == [] then []
    else EntriesOf(bs[0]) + OutlineOf(bs[1..])
  }

  lemma {:induction false} OutlineAppend(a: seq<Block>, b: seq<Block>)
    ensures OutlineOf(a + b) == OutlineOf(a) + OutlineOf(b)
    decreases |a|
  {
    if a == [] {
      assert a + b == b;
    } else {
      var head := EntriesOf(a[0]);
      assert (a + b)[0] == a[0];
      assert (a + b)[1..] == a[1..] + b;
      assert OutlineOf(a + b) == head + OutlineOf(a[1..] + b);
      OutlineAppend(a[1..], b);
      assert head + (OutlineOf(a[1..]) + OutlineOf(b)) == (head + OutlineOf(a[1..])) + OutlineOf(b);
    }
  }

  /** Every heading block has its entry in the outline. */
  lemma {:induction false} OutlineHasEveryHeading(bs: seq<Block>, i: int)
    requires 0 <= i < |bs| && HeadingLevel(bs[i].blockType).Some?
    ensures OutlineEntry(bs[i].blockType - 2, BlockText(bs[i]), bs[i].blockId) in OutlineOf(bs)
    decreases |bs|
  {
    if i == 0 {
      assert OutlineOf(bs)[0] == OutlineEntry(bs[0].blockType - 2, BlockText(bs[0]), bs[0].blockId);
    } else {
      assert bs[1..][i - 1] == bs[i];
      OutlineHasEveryHeading(bs[1..], i - 1);
    }
  }

  /** Every outline entry comes from a heading block: its level is the block's heading
      level, its text the block's text and its id the block's id. */
  lemma {:induction false} OutlineEntriesAreHeadings(bs: seq<Block>, e: OutlineEntry)
    requires e in OutlineOf(bs)
    ensures exists i :: (0 <= i < |bs| && HeadingLevel(bs[i].blockType) == Some(e.level) &&
      e.text == BlockText(bs[i]) && e.blockId == bs[i].blockId)
    decreases |bs|
  {
    var head := EntriesOf(bs[0]);
    if e in head {
      assert HeadingLevel(bs[0].blockType) == Some(e.level);
    } else {
      OutlineEntriesAreHeadings(bs[1..], e);
      var i :| 0 <= i < |bs[1..]| && HeadingLevel(bs[1..][i].blockType) == Some(e.level) &&
        e.text == BlockText(bs[1..][i]) && e.blockId == bs[1..][i].blockId;
      assert bs[1..][i] == bs[i + 1];
    }
  }

  /** Every outline level is a heading level, 1 .. 6. */
  lemma OutlineLevels(bs: seq<Block>)
    ensures forall k :: 0 <= k < |OutlineOf(bs)| ==> 1 <= OutlineOf(bs)[k].level <= 6
  {
    var r := OutlineOf(bs);
    forall k | 0 <= k < |r| ensures 1 <= r[k].level <= 6 {
      OutlineEntriesAreHeadings(bs, r[k]);
    }
  }

  /** The outline of a document with no heading block is empty. */
  lemma {:induction false} OutlineWithoutHeadings(bs: seq<Block>)
    requires forall i :: 0 <= i < |bs| ==> HeadingLevel(bs[i].blockType).None?
    ensures OutlineOf(bs) == []
    decreases |bs|
  {
    if bs != [] {
      assert forall i :: 0 <= i < |bs[1..]| ==> bs[1..][i] == bs[i + 1];
      OutlineWithoutHeadings(bs[1..]);
    }
  }

  /** The loop of `_get_doc_outline` over the collected blocks. */
  method RenderOutline(documentId: string, blocks: seq<Block>) returns (d: DocOutline)
    ensures d == DocOutline(documentId, |OutlineOf(blocks)|, OutlineOf(blocks))
  {
    var outline: seq<OutlineEntry> := [];
    var i := 0;
    while i < |blocks|
      invariant 0 <= i <= |blocks|
      invariant outline == OutlineOf(blocks[..i])
      decreases |blocks| - i
    {
      var block := blocks[i];
      assert blocks[..i + 1] == blocks[..i] + [block];
      OutlineAppend(blocks[..i], [block]);
      assert [block][1..] == [];
      var level := HeadingLevel(block.blockType);
      if level.Some? {
        outline := outline + [OutlineEntry(level.value, BlockText(block), block.blockId)];
      }
      i := i + 1;
    }
    assert blocks[..i] == blocks;
    d := DocOutline(documentId, |outline|, outline);
  }

  /** What `_get_doc_outline` answers: the id check, then the headings of the
      collection's blocks or the collection's error. */
  function DocOutlineAnswer(api: ChildrenApi, documentId: string, maxBlocks: int): Result<DocOutline>
  {
    if documentId == "" then Err(MissingArgument("get_doc_outline", "document_id"))
    else
      match CollectFrom(api, maxBlocks, Start(documentId))
      case Err(e) => Err(e)
      case Ok(blocks) => var outline := OutlineOf(blocks); Ok(DocOutline(documentId, |outline|, outline))
  }

  /** `_get_doc_outline`: refuses an empty document id before any request, then
      collects the document's blocks and lists their headings. */
  method GetDocOutline(api: ChildrenApi, documentId: string, maxBlocks: int) returns (r: Result<DocOutline>)
    ensures r == DocOutlineAnswer(api, documentId, maxBlocks)
    ensures documentId == "" ==> r == Err(MissingArgument("get_doc_outline", "document_id"))
    ensures r.Ok? ==>
      && documentId != "" && r.value.documentId == documentId
      && r.value.headingCount == |r.value.outline|
      && exists blocks :: Collected(api, documentId, maxBlocks, blocks) && r.value.outline == OutlineOf(blocks)
    ensures r.Err? && documentId != "" ==> FailsAt(api, documentId, r.error)
  {
    if documentId == "" {
      return Err(MissingArgument("get_doc_outline", "document_id"));
    }
    var collected := CollectDocumentBlocks(api, documentId, maxBlocks);
    if collected.Err? {
      return Err(collected.error);
    }
    var d := RenderOutline(documentId, collected.value);
    r := Ok(d);
  }
}
