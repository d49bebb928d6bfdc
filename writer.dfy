/** Creating a document and appending text to it (`_create_doc`, `_write_doc`):
    the input checks made before any request, the request each one sends, and how
    the answer becomes the result. The endpoint is an oracle: a function from the
    request sent to the answer it gets. */
module Writer {
  import opened Common
  import opened Strings
  import opened Blocks

  /** The body of the document-creation request. */
  datatype CreateRequest = CreateRequest(title: string, folderToken: string)

  /** The answer of the document-creation endpoint; the fields of `data.document`
      are None when absent, and an absent `code` is any non-zero code. */
  datatype CreateResponse = CreateResponse(
    code: int,
    msg: Option<string>,
    documentId: Option<string>,
    title: Option<string>,
    url: Option<string>,
    revisionId: Option<int>)

  /** What `create_doc` answers. */
  datatype CreatedDoc = CreatedDoc(
    documentId: Option<string>,
    title: Option<string>,
    url: Option<string>,
    revisionId: Option<int>,
    folderToken: string)

  /** The append request: it adds `children` under the block `parentId` of the
      document `documentId`, at position `index` (-1 is the end). */
  datatype AppendRequest = AppendRequest(documentId: string, parentId: string, index: int, children: seq<Block>)

  /** The answer of the append endpoint; `children` are the blocks it created. */
  datatype AppendResponse = AppendResponse(code: int, msg: Option<string>, children: seq<Block>)

  /** What `write_doc` answers. */
  datatype WriteResult = WriteResult(documentId: string, writtenContentLength: int, newBlocks: seq<Block>)

  /** The block type of a text paragraph. */
  const PARAGRAPH_TYPE: int := 2

  /** The paragraph block `write_doc` sends: one text run holding `content`. It
      carries no block id. */
  function ParagraphBlock(content: string): Block
  {
    Block("", PARAGRAPH_TYPE, map["paragraph" := [Element(Some(TextRun(Some(content))))]])
  }

  /** `_create_doc`: the title, then the folder, must be non-empty before the
      request is sent; a non-zero code is an error and otherwise the created
      document's fields are returned beside the folder it was created in. */
  function CreateDoc(respond: CreateRequest -> CreateResponse, title: string, folderToken: string): (r: Result<CreatedDoc>)
    ensures title == "" ==> r == Err(MissingArgument("create_doc", "title"))
    ensures title != "" && folderToken == "" ==> r == Err(MissingArgument("create_doc", "folder_token"))
    ensures title != "" && folderToken != "" ==>
      var resp := respond(CreateRequest(title, folderToken));
      && (resp.code != 0 <==> r.Err?)
      && (resp.code != 0 ==> r.error == ApiError("create_doc", MessageOr(resp.msg)))
      && (r.Ok? ==> r.value == CreatedDoc(resp.documentId, resp.title, resp.url, resp.revisionId, folderToken))
  {
    if title == "" then Err(MissingArgument("create_doc", "title"))
    else if folderToken == "" then Err(MissingArgument("create_doc", "folder_token"))
    else
      var resp := respond(CreateRequest(title, folderToken));
      if resp.code != 0 then Err(ApiError("create_doc", MessageOr(resp.msg)))
      else Ok(CreatedDoc(resp.documentId, resp.title, resp.url, resp.revisionId, folderToken))
  }

  /** The request `write_doc` sends: one paragraph appended under the document's
      root block, which has the document's own id. */
  function AppendRequestFor(documentId: string, content: string, index: int): (q: AppendRequest)
    ensures q.parentId == q.documentId == documentId && q.index == index && |q.children| == 1
  {
    AppendRequest(documentId, documentId, index, [ParagraphBlock(content)])
  }

  /** `_write_doc`: the document id, then the content, must be non-empty before
      the request is sent; a non-zero code is an error and otherwise the result
      reports the length of the content written and the blocks created. */
  function WriteDoc(respond: AppendRequest -> AppendResponse, documentId: string, content: string, index: int)
    : (r: Result<WriteResult>)
    ensures documentId == "" ==> r == Err(MissingArgument("write_doc", "document_id"))
    ensures documentId != "" && content == "" ==> r == Err(MissingArgument("write_doc", "content"))
    ensures documentId != "" && content != "" ==>
      var resp := respond(AppendRequestFor(documentId, content, index));
      && (resp.code != 0 <==> r.Err?)
      && (resp.code != 0 ==> r.error == ApiError("write_doc", MessageOr(resp.msg)))
      && (r.Ok? ==> r.value == WriteResult(documentId, |content|, resp.children))
  {
    if documentId == "" then Err(MissingArgument("write_doc", "document_id"))
    else if content == "" then Err(MissingArgument("write_doc", "content"))
    else
      var resp := respond(AppendRequestFor(documentId, content, index));
      if resp.code != 0 then Err(ApiError("write_doc", MessageOr(resp.msg)))
      else Ok(WriteResult(documentId, |content|, resp.children))
  }

  /** Read back the way `_block_text` reads blocks, the paragraph `write_doc` sends
      holds exactly the stripped content, and it is not a heading. */
  lemma ParagraphReadsBack(content: string)
    ensures BlockText(ParagraphBlock(content)) == Strip(content)
    ensures HeadingLevel(ParagraphBlock(content).blockType).None?
  {
    var b := ParagraphBlock(content);
    var e := Element(Some(TextRun(Some(content))));
    assert KeyText(b, "paragraph") == Strip(Join(RunContents([e]), "")) by {
      assert b.payload["paragraph"] == [e];
    }
    assert [e][1..] == [];
    if content == "" {
      assert RunContents([e]) == [];
    } else {
      assert RunContents([e]) == [content];
    }
    assert Strip("") == "";
    if Strip(content) == "" {
      var keys := TEXT_KEYS[1..];
      forall k | 0 <= k < |keys| ensures keys[k] !in b.payload {
        assert keys[k] != "paragraph";
      }
      FirstKeyTextNoKeys(b, keys);
    }
  }
}
