# Feishu folder-document skill, modelled in Dafny

The skill (`skill.py`) manages the documents of one Feishu ("Lark") cloud-drive
folder through the platform's open API. It has six actions:

- `list_folder_docs` lists the document files of a folder.
- `create_doc` creates a document in a folder.
- `write_doc` appends a paragraph of text to a document.
- `get_doc_content` returns a document's text, cut to a character budget.
- `get_doc_outline` returns a document's headings.
- `self_test` checks the connection.

Each action answers with an envelope holding `ok`, `action`, `data` and `error`.

This project models the logic that turns the platform's answers into those
results. The platform is an oracle:
- The block-children endpoint is a function from a parent block id to the finite
  sequence of pages it answers, one page per request of one pagination.
- The drive listing is a finite sequence of pages.
- The credential exchange, document creation and paragraph append are functions
  from the request sent to the answer received.

An absent JSON field is modelled the way the source's `x or default` reads it:
- "" for strings, 0 for numbers, `[]` for lists, false for `has_more`.
- An absent `code` is any non-zero code.

Modules, in dependency order:

| module | file | models |
|---|---|---|
| `Common` | common.dfy | `Option`, `Result`, the kinds of error, the `msg` fallback, the two-part pagination rule |
| `Strings` | strings.dfy | `strip`, `lower`, `join` over `seq<char>`, with their algebra |
| `Blocks` | blocks.dfy | text runs, `_extract_elements_text`, `_block_text`, `HEADING_TYPE_MAP` |
| `Collector` | collector.dfy | `_get_block_children`, the depth-first `_collect_document_blocks` |
| `Extractors` | extractors.dfy | `_get_doc_content` (budgeted text), `_get_doc_outline` |
| `Drive` | drive.dfy | `_list_folder_docs`: page size clamp, type filter, cap, pagination |
| `Writer` | writer.dfy | `_create_doc`, `_write_doc`: input checks, request shape, result |
| `Skill` | skill.dfy | `_to_bool`, credential resolution, the tenant credential checks, dispatch |

The loops of the source are Dafny methods with loop invariants:
- the two paginators;
- the collector's stack walk and its inner loop over one parent's children;
- the content and outline accumulators;
- the element-text loop;
- the item loop of the lister.

Each method is proved equal to a reference function. Three of these functions
take the loop one step at a time:
- the collector's is `Collector.CollectFrom`, with `Collector.AdoptFrom` for the
  inner loop;
- the lister's is `Drive.ListFrom`;
- the content accumulator's is `Extractors.LinesFrom`.

The other loops are proved equal to a definition of their outcome:
- `Collector.GetBlockChildren` equals `Collector.FetchChildren`, which is built
  from the stopping answer (`StopFrom`) and the blocks of the answers up to it
  (`BlocksUpTo`);
- `Blocks.ExtractElementsText` equals `Blocks.ElementsText`, the stripped join of
  the run contents;
- `Drive.TakeDocs` equals `Drive.Capped` of the list so far followed by the
  answer's document files;
- `Extractors.RenderOutline` equals the outline `Extractors.OutlineOf` gives.

What the source promises is then proved as lemmas about those functions. For
example, every result of `CollectFrom` from the start state is
`Collector.Collected` (`Collector.CollectFromStart`).

Two properties of the code are easy to miss:
- `get_doc_content`'s content can exceed `max_chars`. Its pieces are joined
  with newlines, so the content is `text_length` plus one character per piece
  after the first (`Extractors.DocContentLength`).
- `truncated` is set whenever `total_chars >= max_chars`. So it is also true
  when the texts exactly fill the budget and nothing was cut
  (`Extractors.DocContentTruncation`).

## Model

| member | source | states |
|---|---|---|
| Common.MessageOr | skill.py:161 | the platform's message when the answer carries one (even an empty one), else "unknown error" |
| Common.Continues | skill.py:182-184 | a pagination goes on only when the answer says there is more and also hands out a non-empty cursor; the block-children pagination uses the same rule at skill.py:273-275 |
| Strings.TrimStart | skill.py:101 | the left strip is no longer than the input and does not start with whitespace |
| Strings.TrimEnd | skill.py:101 | the right strip is no longer than the input and does not end with whitespace |
| Strings.Lower | skill.py:90 | lower-cases letter by letter |
| Strings.Join | skill.py:101 | the parts with the separator between each two |
| Strings.Strip | skill.py:101 | the stripped string is no longer than the input and neither starts nor ends with whitespace |
| Strings.TrimStartShape | skill.py:101 | what the left strip drops is a whitespace prefix; the result is the rest of the string |
| Strings.TrimEndShape | skill.py:101 | what the right strip drops is a whitespace suffix; the result is the rest of the string |
| Strings.StripEmptyIff | skill.py:101 | stripping gives "" exactly when the string is all whitespace |
| Strings.StripPadded | skill.py:91 | surrounding whitespace never changes the stripped string |
| Strings.StripIdempotent | skill.py:101 | stripping twice is stripping once |
| Strings.LowerAt | skill.py:91 | lower-casing keeps the length and maps each character on its own |
| Strings.LowerIdempotent | skill.py:91 | lower-casing twice is lower-casing once |
| Strings.StripLower | skill.py:91 | stripping and lower-casing commute |
| Strings.JoinLength | skill.py:325 | a joined string is the parts' total length plus one separator between each two parts |
| Strings.ConcatAppend | skill.py:101 | joining with "" maps concatenation of part lists to concatenation of strings |
| Strings.JoinHasPart | skill.py:325 | every part occurs in the joined string |
| Blocks.RunContent | skill.py:97-98 | an element's content, or "" when it has no text run or its run has no content |
| Blocks.ElementsText | skill.py:94-101 | the stripped concatenation of the non-empty run contents |
| Blocks.FirstKeyText | skill.py:104-120 | the text under the first key, in order, whose text is non-empty |
| Blocks.BlockText | skill.py:104-120 | the text of the first of paragraph, heading1 .. heading6 whose stripped runs are non-empty; "" when none is |
| Blocks.RunContents | skill.py:96-100 | the collected parts are the non-empty run contents, at most one per element |
| Blocks.RunContentsAppend | skill.py:96-100 | the parts of two element runs are the parts of each, in order |
| Blocks.ElementsTextAppend | skill.py:94-101 | the text of two element runs is their parts concatenated in order, then stripped |
| Blocks.ElementsTextSkipsEmptyRun | skill.py:98-100 | an element with a missing or empty run content contributes nothing |
| Blocks.ExtractElementsText | skill.py:94-101 | the loop returns the stripped concatenation of the non-empty run contents |
| Blocks.KeyText | skill.py:115-117 | the element text under one payload key, where a missing key has no elements |
| Blocks.KeyTextStripped | skill.py:115-117 | a non-empty text under a payload key has no surrounding whitespace |
| Blocks.FirstKeyTextEmptyIff | skill.py:104-120 | a block's text is "" exactly when the text under every key is |
| Blocks.FirstKeyTextNoKeys | skill.py:104-120 | keys a block has no payload under give no text |
| Blocks.FirstKeyTextIsFirstNonEmpty | skill.py:104-120 | a non-empty block text is the text of the first key, in the order paragraph, heading1 .. heading6, whose text is non-empty, and has no surrounding whitespace |
| Blocks.HeadingLevel | skill.py:30-37 | a block type has a heading level exactly when it is 3 .. 8; the level is the type minus 2, in 1 .. 6 |
| Collector.PageBlocks | skill.py:270 | the blocks of one answer: its items when there are any, else its children (none when both are absent) |
| Collector.PageCursor | skill.py:274 | the cursor of one answer: its page token when non-empty, else its next page token |
| Collector.PageContinues | skill.py:266-275 | an answer continues the pagination exactly when it succeeded, says there is more and gives a non-empty cursor |
| Collector.FetchChildren | skill.py:252-278 | what one pagination over a block's children yields: the first answer that fails or does not continue decides; its failure is the error, or else the children are the blocks of every answer up to it |
| Collector.BlocksUpToAppend | skill.py:269-271 | the blocks of the first answers do not depend on later answers |
| Collector.StopAt | skill.py:266-276 | an answer before the stop continues the pagination; the one at the stop does not |
| Collector.StopFrom | skill.py:266-276 | the pagination stop is the first answer that fails or lacks either `has_more` or a non-empty cursor; every answer before it continues |
| Collector.FetchChildrenIgnoresLaterPages | skill.py:252-278 | answers after the one that ends the pagination never change the result |
| Collector.GetBlockChildren | skill.py:252-278 | the loop returns the concatenated blocks of every answer up to the stop, or that answer's failure; the first request has no cursor and each later one the cursor of the answer before it |
| Collector.IdSetAppend | skill.py:293-294 | adding a block adds its id to the visited ids |
| Collector.AdoptKeepsDistinct | skill.py:291-293 | a block whose id is not yet visited keeps the collected ids distinct |
| Collector.AdoptKeepsDerivation | skill.py:289-294 | a newly collected child extends the record of which parent reported each block, in page order |
| Collector.AdoptKeepsStack | skill.py:295 | pushing the new block's id keeps the stack in the order its parents were found |
| Collector.AdoptKeepsWalk | skill.py:291-295 | adopting a fresh child keeps the whole traversal invariant |
| Collector.PopKeepsFrontier | skill.py:288 | popping a parent leaves every known id either still on the stack, being explored, or already explored |
| Collector.Start | skill.py:283-285 | the walk starts with the document id alone on the stack, nothing collected and nothing visited |
| Collector.AdoptFrom | skill.py:289-297 | from child `k` on, each child with a non-empty id not yet visited is marked visited, collected and pushed, and the loop ends as soon as the cap is reached; it adds as many ids to the stack as blocks to the collection, and never goes past the cap |
| Collector.CollectFrom | skill.py:281-299 | the stack walk one step at a time: while the stack is not empty and the cap is not reached, pop the top id, fetch its children (a failure ends the walk with that error) and adopt them |
| Collector.AdoptOne | skill.py:293-297 | adopting one fresh child keeps the traversal invariant and the inner loop's state |
| Collector.SkipOne | skill.py:290-292 | passing over a child with no id or a visited id keeps the inner loop's state |
| Collector.AdoptFromWalk | skill.py:289-297 | the inner loop keeps the traversal invariant; when it runs to the end below the cap, the popped parent is explored |
| Collector.PopKeepsStack | skill.py:288 | popping the stack keeps its invariant and gives a parent occurrence no collected block claims yet |
| Collector.PopAdopting | skill.py:287-289 | popping the top and fetching its children starts the inner loop in a correct state |
| Collector.WalkDone | skill.py:287 | a walk that ends on an empty stack or a full budget holds a correct collection |
| Collector.WalkFails | skill.py:288-289 | a failed fetch of the top of the stack is a failed fetch of the root or of a collected block |
| Collector.CollectFromWalk | skill.py:281-299 | from every reachable walk state, a success is `Collected` and a failure is a failed fetch under the root |
| Collector.CollectFromStart | skill.py:281-299 | from the start state, a successful collection has at most `max_blocks` blocks (none when it is not positive). Each has a non-empty id and no id repeats. Each block is a reported child of the root or of an earlier block, in page order under each parent. Below the cap every reported child of every collected block is collected. A failure is the failed fetch of the root or of a block reached from it |
| Collector.CollectFromOk | skill.py:281-299 | when no children fetch fails, the collection does not fail |
| Collector.CollectFromExampleCapped | skill.py:281-299 | on a root with children a, b where a has child c, a cap of two collects exactly a, b |
| Collector.CollectFromExampleOrder | skill.py:281-299 | on the same tree below the cap, the collection is a, b, c: the last child pushed is explored first |
| Collector.AdoptChildren | skill.py:289-297 | the loop over one parent's children leaves exactly the stack, blocks and visited set `AdoptFrom` gives |
| Collector.CollectDocumentBlocks | skill.py:281-299 | the walk returns exactly what `CollectFrom` gives from the start state; hence a success is `Collected` and a failure is a failed fetch under the root |
| Extractors.BlockTexts | skill.py:310-311 | the text of every collected block, in collection order |
| Extractors.NonEmpty | skill.py:311-313 | no more texts are kept than there are |
| Extractors.NonEmptyHasNoEmpty | skill.py:311-313 | no kept text is empty |
| Extractors.Prefix | skill.py:317 | the cut piece is as long as the smaller of the text and `remaining` |
| Extractors.PrefixIsPrefix | skill.py:317 | the cut piece is the start of the text |
| Extractors.ContentPiecesExhausted | skill.py:314-316 | once the budget is used up, nothing more is emitted |
| Extractors.ContentPiecesLength | skill.py:310-319 | the emitted character count is the smaller of the non-empty texts' total and the budget (0 when the budget is not positive) |
| Extractors.ContentPiecesWhole | skill.py:310-319 | when the texts fit the budget, every non-empty text is emitted whole, in order |
| Extractors.ContentPiecesPrefixes | skill.py:311-319 | there are no more pieces than non-empty texts, and each piece is a non-empty prefix of the non-empty text at its position |
| Extractors.ContentPiecesWholeButLast | skill.py:314-319 | every piece but the last is the non-empty text at its position, whole |
| Extractors.DocContentTruncation | skill.py:314-326 | `text_length` is the smaller of the total text and the budget; `truncated` holds exactly when the total text reaches the budget |
| Extractors.DocContentLength | skill.py:325 | the content is `text_length` plus one newline between each two pieces long |
| Extractors.DocContentHasEveryText | skill.py:310-325 | when not truncated, every block's text occurs in the content |
| Extractors.ContentPieces | skill.py:310-319 | the lines emitted for a budget: empty texts skipped, each other text cut to the budget left, nothing once it is used up |
| Extractors.DocContentOf | skill.py:307-327 | the content record of the collected blocks: id, block count, emitted length, the pieces joined by newlines, and `truncated` when the length reaches the budget |
| Extractors.LinesFrom | skill.py:307-319 | the content loop from block `i` on, holding `lines` with `total` characters: it skips empty texts, stops once the budget is used up, and appends each text cut to the budget left |
| Extractors.LinesFromPieces | skill.py:308-319 | the loop, from any block on, ends with the lines it holds followed by the `ContentPieces` of the remaining texts for the budget left |
| Extractors.AddText | skill.py:311-319 | one turn skips an empty text, ends the loop once the budget is used up, or adds the cut text and its length, keeping the character count equal to the lines' total length and the loop's end unchanged |
| Extractors.RenderContent | skill.py:307-327 | the accumulation loop produces the content record `DocContentOf` gives |
| Extractors.DocContentAnswer | skill.py:302-327 | the answer of `_get_doc_content`: an empty id is refused, otherwise the collection's error or the rendering of its blocks |
| Extractors.GetDocContent | skill.py:302-327 | the result is exactly `DocContentAnswer`: an empty document id is refused before any request; otherwise the result renders the collected blocks (a correct collection), or is the failed fetch under the document root |
| Extractors.EntriesOf | skill.py:337-350 | a block adds at most one entry to the outline: its own when it is a heading, else none |
| Extractors.EntryOf | skill.py:337-350 | a block gives an outline entry exactly when its type is a heading type |
| Extractors.OutlineOf | skill.py:337-350 | there are no more entries than blocks |
| Extractors.OutlineLevels | skill.py:337-350 | every level is in 1 .. 6 |
| Extractors.OutlineAppend | skill.py:337-350 | the outline of two block runs is the two outlines in order |
| Extractors.OutlineHasEveryHeading | skill.py:337-350 | every heading block appears with level type − 2, its block text and its id |
| Extractors.OutlineEntriesAreHeadings | skill.py:337-350 | every entry comes from a heading block whose level, text and id it carries |
| Extractors.OutlineWithoutHeadings | skill.py:337-341 | blocks without headings give an empty outline |
| Extractors.RenderOutline | skill.py:335-354 | the loop produces the outline of the blocks, with `heading_count` its length |
| Extractors.DocOutlineAnswer | skill.py:330-354 | the answer of `_get_doc_outline`: an empty id is refused, otherwise the collection's error or the headings of its blocks with their count |
| Extractors.GetDocOutline | skill.py:330-354 | the result is exactly `DocOutlineAnswer`: an empty document id is refused before any request; otherwise `heading_count` is the outline's length and the outline is that of the collected blocks (a correct collection), or the result is the failed fetch under the document root |
| Drive.EffectivePageSize | skill.py:141 | the page size sent is in 1 .. 200; 0 (absent) becomes 100; sizes in range pass unchanged; larger ones become 200, negative ones 1 |
| Drive.Limit | skill.py:142 | the cap is at least 1; 0 (absent) becomes 500, a positive value stays, a negative one becomes 1 |
| Drive.IsDocType | skill.py:166-168 | a file is listed when its type, lower-cased, is doc, docx or wiki |
| Drive.DocsOf | skill.py:165-168 | the document files of one answer, in listing order |
| Drive.DocsOfAreDocs | skill.py:165-168 | the filter keeps only files whose lower-cased type is doc, docx or wiki, and no more files than it was given |
| Drive.DocsOfFromFiles | skill.py:165-178 | every kept file is one of the listed files |
| Drive.DocsOfAppend | skill.py:165-178 | the filter keeps listing order across pages |
| Drive.DocsOfKeepsDocs | skill.py:165-178 | every document file is kept |
| Drive.StopOutcome | skill.py:160-185 | a listing that stops at answer `n` ends with no response when the answer is missing, with the platform's error when its code is non-zero, and otherwise with the first `limit` document files of the answers up to `n`; `n + 1` requests are sent |
| Drive.ListStop | skill.py:182-185 | the stop is at or after the starting answer and at most the number of answers |
| Drive.ListStopContinues | skill.py:182-185 | every answer before the stop succeeded, stayed below the cap and had both `has_more` and a cursor |
| Drive.ListStopEnds | skill.py:182-185 | the answer the listing stops at (when there is one) failed, reached the cap or lacked `has_more` or a cursor |
| Drive.Capped | skill.py:179-180 | the cap keeps as many items as the smaller of their number and the cap |
| Drive.CappedIsPrefix | skill.py:179-180 | the capped items are the first ones, in order |
| Drive.ListFrom | skill.py:147-185 | the listing sends at least one more request and never more than one past the last answer |
| Drive.ListFromStops | skill.py:147-185 | the listing ends as the answer at the stop decides (`StopOutcome`): no answer is no response, a non-zero code is its message, and otherwise the items are the first `limit` document files of the answers up to the stop |
| Drive.ListingOf | skill.py:137-191 | an empty folder token is refused before any request; a listing echoes the folder token and counts its items |
| Drive.ListingOfStops | skill.py:137-191 | the listing's error or items as decided at the stop; the items are document files only, at most `limit` of them |
| Drive.ListingBelowCapIsComplete | skill.py:165-185 | below the cap, every document file of the answers read is listed |
| Drive.RequestFor | skill.py:155 | an empty cursor is not sent |
| Drive.Requests | skill.py:148-159 | the first `k` requests of a listing: exactly `k` of them, the first without a cursor and each later one with the cursor of the answer before it |
| Drive.RequestsShape | skill.py:146-159 | each query names the folder, a page size in 1 .. 200, newest edit first; the first has no cursor and each later one the cursor of the answer before |
| Drive.TakeDocs | skill.py:165-180 | the item loop appends the page's document files in order, stopping exactly at the cap |
| Drive.ReadAnswer | skill.py:160-185 | reading one answer either ends the listing with the result `ListFrom` gives, or leaves items below the cap from which `ListFrom` goes on to the same result |
| Drive.ListFolderDocs | skill.py:137-191 | the paginated loop returns the listing `ListingOf` gives and sends exactly the queries `Requests` gives, as many as `ListFrom` counts |
| Writer.CreateDoc | skill.py:194-216 | an empty title, then an empty folder, is refused before any request. Otherwise a non-zero code is an error with the answer's message, and success returns the created document's fields and the folder token |
| Writer.AppendRequestFor | skill.py:225-240 | the paragraph is appended under the document's root block (the document's own id) at the given index, as a single block |
| Writer.WriteDoc | skill.py:219-249 | an empty document id, then empty content, is refused before any request. Otherwise a non-zero code is an error, and success reports the document id, the content's length and the created blocks |
| Writer.ParagraphBlock | skill.py:231-238 | the block `write_doc` sends: a paragraph (block type 2) whose payload holds the content as its single text run |
| Writer.ParagraphReadsBack | skill.py:231-238 | read back like any block, the paragraph sent holds exactly the stripped content, and it is not a heading |
| Skill.Or | skill.py:397-407 | Python's `a or b` on strings: `a` unless it is empty, else `b` |
| Skill.OrNumber | skill.py:409-416 | Python's `n or default` on numbers: `n` unless it is 0, else the default |
| Skill.ActionOf | skill.py:397 | the action argument, else its alias, stripped |
| Skill.AccessTokenOf | skill.py:398 | the access-token argument, else the environment's, stripped |
| Skill.AppIdOf | skill.py:399 | the app-id argument, else the environment's, stripped |
| Skill.AppSecretOf | skill.py:400 | the app-secret argument, else the environment's, stripped |
| Skill.FolderOf | skill.py:402-407 | the AI folder argument, else the folder argument, else the environment's folder, stripped |
| Skill.TokenOf | skill.py:433-445 | the token `run` uses: resolved from the access token, else the app credentials, with the arguments and environment read as above |
| Skill.ToBool | skill.py:83-91 | absent is the default, a boolean is itself, a number is true when non-zero, a string is true when stripped and lower-cased it is a true word |
| Skill.StripSplits | skill.py:90 | a string is its leading whitespace, its stripped core and its trailing whitespace |
| Skill.ToBoolStringIff | skill.py:90-91 | a string is true exactly when it is 1, true, yes, y or on, in any letter case, with any surrounding whitespace |
| Skill.TrueWordCoreStripped | skill.py:90-91 | a string that lower-cases to a true word has no whitespace to strip |
| Skill.ToBoolIgnoresCase | skill.py:90-91 | letter case never changes how a string reads |
| Skill.ToBoolIgnoresPadding | skill.py:90-91 | surrounding whitespace never changes how a string reads |
| Skill.TenantToken | skill.py:129-134 | the exchange succeeds exactly when its code is 0 and it carries a credential; a non-zero code fails with its message, a missing credential fails on its own |
| Skill.ResolveToken | skill.py:434-446 | a user token is used as given; otherwise both app credentials are required before the exchange, whose checks decide; the credential used is never empty |
| Skill.SortedActionsAreSorted | skill.py:419-431 | the list in the refusal holds exactly the six accepted actions, each before the next in string order |
| Skill.Respond | skill.py:448-475 | an operation's success is an ok answer carrying its data; a failure is a not-ok answer carrying the error |
| Skill.Run | skill.py:396-475 | an empty action is refused as "unknown"; an unknown action is refused with the sorted accepted list; missing or refused credentials end the call. All three happen before any operation. Otherwise each action answers its operation's result under the cleaned arguments and defaults: `get_doc_content` and `get_doc_outline` answer exactly `DocContentAnswer` and `DocOutlineAnswer`, and `self_test` first requires a folder, and `ok` holds exactly when there is no error |

## Left out

- HTTP transport (`_request_json`): URLs, headers, JSON encoding, timeouts and HTTP or network failures. Each endpoint is an oracle; a request with no answer is `NoResponse`.
- The access token sent with every request: the oracles answer the same whatever token is used. `Skill.Run` still resolves and checks it, and hands it to `self_test`.
- The children oracle is deterministic: fetching the children of the same block id twice gets the same answers both times.
- The block-children request's fixed page size of 200 and its document and block path parameters are not part of the modelled request; only the cursors sent are (`Collector.GetBlockChildren`).
- `_json_result`: the envelope is a datatype, not a JSON string. Errors are the structured `Error` kinds, not the source's message texts.
- `os.getenv`: the environment is the parameter `Env`.
- `logger` calls.
- `_self_test` (skill.py:357-393): it depends on the clock and live answers. `Skill.Run` checks its folder and returns its inputs as `SelfTest`, so the modelled `self_test` answer is always ok once a folder is given. In the source, its listing step (and, with the write test, its later steps) can fail, and that failure becomes an error answer.
- `ToBool`: no float arguments, and no values other than absent, bool, int and string. Numbers are ints; Python's `str()` of other objects is not modelled.
- `LowerChar`: only the ASCII letters A .. Z are lower-cased. Python's Unicode lower-casing of other letters is not modelled. `ToBool` reads every string as the source does, because no non-ASCII character lower-cases into any letter of 1, true, yes, y or on.
- `Drive.IsDocType`: lower-cases the file type with `Lower`, which is ASCII only. U+212A KELVIN SIGN lower-cases to "k" in Python, so the source counts a file of type "WI\u212AI" as a wiki, and the model does not.
- Python's `int(...)` conversions of numeric arguments: arguments are already integers, so a conversion failure cannot happen in the model.
- Strings are sequences of Unicode scalar values, and Python's are sequences of code points, so lengths agree. Python strings holding lone surrogates have no Dafny counterpart.
- `Writer.CreateDoc` and `Writer.WriteDoc`: the created document's fields and the new blocks are passed through as the oracle answers them. Their JSON shape is not checked.
