/** Blocks of a docx document and the text the skill reads out of them
    (`_extract_elements_text`, `_block_text`, `HEADING_TYPE_MAP`). */
module Blocks {
  import opened Common
  import opened Strings

  /** A `text_run` of an element; a run without `content` has None. */
  datatype TextRun = TextRun(content: Option<string>)

  /** An inline element of a text payload; an element without `text_run` has None. */
  datatype Element = Element(textRun: Option<TextRun>)

  /** A block as the block-children endpoint describes it: its `block_id`
      ("" when absent), its `block_type` (0 when absent) and the `elements` of each
      of its payload keys (`paragraph`, `heading1`, ...; a key not in the map has no
      elements). */
  datatype Block = Block(blockId: string, blockType: int, payload: map<string, seq<Element>>)

  /** The content an element contributes: "" for a missing run or content. */
  function RunContent(e: Element): string
  {
    match e.textRun
    case None => ""
    case Some(run) =>
      match run.content
      case None => ""
      case Some(c) => c
  }

  /** The parts `_extract_elements_text` collects: the non-empty run contents, in element order. */
  function RunContents(es: seq<Element>): (r: seq<string>)
    ensures |r| <= |es|
    ensures forall k :: 0 <= k < |r| ==> r[k] != ""
  {
    if es == [] then []
    else (if RunContent(es[0]) != "" then [RunContent(es[0])] else []) + RunContents(es[1..])
  }

  /** The text of a sequence of elements: their runs concatenated in order, then stripped. */
  function ElementsText(es: seq<Element>): string
  {
    Strip(Join(RunContents(es), ""))
  }

  lemma {:induction false} RunContentsAppend(a: seq<Element>, b: seq<Element>)
    ensures RunContents(a + b) == RunContents(a) + RunContents(b)
    decreases |a|
  {
    if a == [] {
      assert a + b == b;
    } else {
      assert (a + b)[0] == a[0];
      assert (a + b)[1..] == a[1..] + b;
      RunContentsAppend(a[1..], b);
    }
  }

  /** Element text is built from the runs of both halves in order. */
  lemma ElementsTextAppend(a: seq<Element>, b: seq<Element>)
    ensures ElementsText(a + b) == Strip(Join(RunContents(a), "") + Join(RunContents(b), ""))
  {
    RunContentsAppend(a, b);
    ConcatAppend(RunContents(a), RunContents(b));
  }

  /** An element whose run or content is missing or empty contributes nothing. */
  lemma ElementsTextSkipsEmptyRun(a: seq<Element>, e: Element, b: seq<Element>)
    requires RunContent(e) == ""
    ensures ElementsText(a + [e] + b) == ElementsText(a + b)
  {
    RunContentsAppend(a + [e], b);
    RunContentsAppend(a, [e]);
    assert RunContents([e]) == [] by { assert [e][1..] == []; }
    assert RunContents(a + [e]) == RunContents(a);
    RunContentsAppend(a, b);
  }

  /** `_extract_elements_text`: walks the elements, keeps the non-empty run
      contents, joins them and strips the result. */
  method ExtractElementsText(elements: seq<Element>) returns (text: string)
    ensures text == ElementsText(elements)
  {
    var parts: seq<string> := [];
    var i := 0;
    while i < |elements|
      invariant 0 <= i <= |elements|
      invariant parts == RunContents(elements[..i])
    {
      var el := elements[i];
      var content := match el.textRun case None => None case Some(run) => run.content;
      if content.Some? && content.value != "" {
        parts := parts + [content.value];
      }
      assert elements[..i + 1] == elements[..i] + [el];
      RunContentsAppend(elements[..i], [el]);
      assert [el][1..] == [];
      i := i + 1;
    }
    assert elements[..i] == elements;
    text := Strip(Join(parts, ""));
  }

  /** The payload keys `_block_text` tries, in this order. */
  const TEXT_KEYS: seq<string> :=
    ["paragraph", "heading1", "heading2", "heading3", "heading4", "heading5", "heading6"]

  /** The text under one payload key; a missing key has no elements. */
  function KeyText(b: Block, key: string): string
  {
    ElementsText(if key in b.payload then b.payload[key] else [])
  }

  /** Every text under a key is stripped. */
  lemma KeyTextStripped(b: Block, key: string)
    ensures var t := KeyText(b, key); t != "" ==> !IsSpace(t[0]) && !IsSpace(t[|t| - 1])
  {
    var es := if key in b.payload then b.payload[key] else [];
    assert KeyText(b, key) == Strip(Join(RunContents(es), ""));
  }

  /** The loop of `_block_text` over `keys`: the first non-empty text under one of them. */
  function FirstKeyText(b: Block, keys: seq<string>): string
  {
    if keys == [] then ""
    else
      var t := KeyText(b, keys[0]);
      if t != "" then t else FirstKeyText(b, keys[1..])
  }

  /** `_block_text`: the text of the first of paragraph, heading1 .. heading6 whose
      stripped runs are non-empty; "" when none is. */
  function BlockText(b: Block): string
  {
    FirstKeyText(b, TEXT_KEYS)
  }

  /** The first key text is empty exactly when the text under every key is. */
  lemma {:induction false} FirstKeyTextEmptyIff(b: Block, keys: seq<string>)
    ensures FirstKeyText(b, keys) == "" <==> forall k :: 0 <= k < |keys| ==> KeyText(b, keys[k]) == ""
    decreases |keys|
  {
    if keys != [] {
      var rest := keys[1..];
      if KeyText(b, keys[0]) == "" {
        FirstKeyTextEmptyIff(b, rest);
        assert FirstKeyText(b, keys) == FirstKeyText(b, rest);
        if forall k :: 0 <= k < |rest| ==> KeyText(b, rest[k]) == "" {
          forall k | 0 <= k < |keys| ensures KeyText(b, keys[k]) == "" {
            if k > 0 { assert keys[k] == rest[k - 1]; }
          }
        } else {
          var k :| 0 <= k < |rest| && KeyText(b, rest[k]) != "";
          assert keys[k + 1] == rest[k];
        }
      }
    }
  }

  /** Keys a block has no payload under give no text. */
  lemma {:induction false} FirstKeyTextNoKeys(b: Block, keys: seq<string>)
    requires forall k :: 0 <= k < |keys| ==> keys[k] !in b.payload
    ensures FirstKeyText(b, keys) == ""
    decreases |keys|
  {
    if keys != [] {
      assert Strip(Join(RunContents([]), "")) == "";
      FirstKeyTextNoKeys(b, keys[1..]);
    }
  }

  /** A non-empty first key text is the text under the first key whose text is
      non-empty, already stripped. */
  lemma {:induction false} FirstKeyTextIsFirstNonEmpty(b: Block, keys: seq<string>)
    ensures var r := FirstKeyText(b, keys);
      && (r != "" ==>
            exists k :: 0 <= k < |keys| && KeyText(b, keys[k]) == r &&
              (forall j :: 0 <= j < k ==> KeyText(b, keys[j]) == ""))
      && (r != "" ==> !IsSpace(r[0]) && !IsSpace(r[|r| - 1]))
    decreases |keys|
  {
    if keys != [] {
      var r := FirstKeyText(b, keys);
      var rest := keys[1..];
      KeyTextStripped(b, keys[0]);
      if KeyText(b, keys[0]) != "" {
        assert KeyText(b, keys[0]) == r;
      } else {
        assert r == FirstKeyText(b, rest);
        FirstKeyTextIsFirstNonEmpty(b, rest);
        if r != "" {
          var k :| 0 <= k < |rest| && KeyText(b, rest[k]) == r &&
            (forall j :: 0 <= j < k ==> KeyText(b, rest[j]) == "");
          assert keys[k + 1] == rest[k];
          forall j | 0 <= j < k + 1 ensures KeyText(b, keys[j]) == "" {
            if j > 0 { assert keys[j] == rest[j - 1]; }
          }
        }
      }
    }
  }

  /** `HEADING_TYPE_MAP`: block types 3 .. 8 are the headings of levels 1 .. 6. */
  const HEADING_TYPE_MAP: map<int, int> := map[3 := 1, 4 := 2, 5 := 3, 6 := 4, 7 := 5, 8 := 6]

  /** The heading level of a block type, if it is a heading type. */
  function HeadingLevel(blockType: int): (r: Option<int>)
    ensures r.Some? <==> 3 <= blockType <= 8
    ensures r.Some? ==> r.value == blockType - 2 && 1 <= r.value <= 6
  {
    if blockType in HEADING_TYPE_MAP then Some(HEADING_TYPE_MAP[blockType]) else None
  }
}
