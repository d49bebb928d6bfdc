/** Listing the documents of a Drive folder (`_list_folder_docs`): the paginated
    file-list endpoint, the document-type filter and the item cap. */
module Drive {
  import opened Common
  import opened Strings

  /** A file as the file-list endpoint reports it; an absent field is None. A listed
      item carries the same six fields (`owner_id` is the `id` inside the file's
      `owner_id` object). */
  datatype DriveFile = DriveFile(
    name: Option<string>,
    fileType: Option<string>,
    token: Option<string>,
    url: Option<string>,
    ownerId: Option<string>,
    modifiedTime: Option<string>)

  /** One answer of the file-list endpoint; absent fields are empty, `has_more`
      absent is false, and an absent `code` is any non-zero code. */
  datatype FileListResponse = FileListResponse(
    code: int,
    msg: Option<string>,
    files: seq<DriveFile>,
    hasMore: bool,
    nextPageToken: string)

  /** The query of one file-list request; an empty cursor is not sent (None). */
  datatype ListRequest = ListRequest(
    folderToken: string,
    pageSize: int,
    pageToken: Option<string>,
    orderBy: string,
    direction: string)

  /** What `list_folder_docs` answers. */
  datatype Listing = Listing(folderToken: string, count: int, items: seq<DriveFile>)

  /** `DOC_TYPES`: the file types that count as documents. */
  const DOC_TYPES: set<string> := {"doc", "docx", "wiki"}

  /** The page size sent: 100 when none (0) is given, otherwise clamped to 1 .. 200. */
  function EffectivePageSize(pageSize: int): (size: int)
    ensures 1 <= size <= 200
    ensures pageSize == 0 ==> size == 100
    ensures 1 <= pageSize <= 200 ==> size == pageSize
    ensures pageSize > 200 ==> size == 200
    ensures pageSize < 0 ==> size == 1
  {
    var p := if pageSize == 0 then 100 else pageSize;
    if p < 1 then 1 else if p > 200 then 200 else p
  }

  /** The item cap: 500 when none (0) is given, otherwise at least 1. */
  function Limit(maxItems: int): (limit: int)
    ensures limit >= 1
    ensures maxItems == 0 ==> limit == 500
    ensures maxItems >= 1 ==> limit == maxItems
    ensures maxItems < 0 ==> limit == 1
  {
    var m := if maxItems == 0 then 500 else maxItems;
    if m < 1 then 1 else m
  }

  /** A file is a document when its type, lower-cased ("" when it has none), is one of `DOC_TYPES`. */
  predicate IsDocType(f: DriveFile)
  {
    Lower(match f.fileType case None => "" case Some(t) => t) in DOC_TYPES
  }

  /** The document files among `files`, in order. */
  function DocsOf(files: seq<DriveFile>): seq<DriveFile>
  {
    if files == [] then []
    else
      var last := files[|files| - 1];
      DocsOf(files[..|files| - 1]) + (if IsDocType(last) then [last] else [])
  }

  /** Only document files are kept. */
  lemma {:induction false} DocsOfAreDocs(files: seq<DriveFile>)
    ensures |DocsOf(files)| <= |files|
    ensures forall k :: 0 <= k < |DocsOf(files)| ==> IsDocType(DocsOf(files)[k])
    decreases |files|
  {
    if files != [] {
      var init := files[..|files| - 1];
      DocsOfAreDocs(init);
      var r := DocsOf(files);
      forall k | 0 <= k < |r| ensures IsDocType(r[k]) {
        if k < |DocsOf(init)| {
          assert r[k] == DocsOf(init)[k];
        }
      }
    }
  }

  /** Every kept file is one of the listed files. */
  lemma {:induction false} DocsOfFromFiles(files: seq<DriveFile>, f: DriveFile)
    requires f in DocsOf(files)
    ensures f in files
    decreases |files|
  {
    var init := files[..|files| - 1];
    if f in DocsOf(init) {
      DocsOfFromFiles(init, f);
      var j :| 0 <= j < |init| && init[j] == f;
      assert files[j] == f;
    }
  }

  lemma {:induction false} DocsOfAppend(a: seq<DriveFile>, b: seq<DriveFile>)
    ensures DocsOf(a + b) == DocsOf(a) + DocsOf(b)
    decreases |b|
  {
    if b == [] {
      assert a + b == a;
    } else {
      var b' := b[..|b| - 1];
      assert (a + b)[..|a + b| - 1] == a + b';
      assert (a + b)[|a + b| - 1] == b[|b| - 1];
      DocsOfAppend(a, b');
    }
  }

  /** Every document file is kept, wherever it is. */
  lemma {:induction false} DocsOfKeepsDocs(files: seq<DriveFile>, i: int)
    requires 0 <= i < |files| && IsDocType(files[i])
    ensures files[i] in DocsOf(files)
    decreases |files|
  {
    if i < |files| - 1 {
      var init := files[..|files| - 1];
      assert files[i] == init[i];
      DocsOfKeepsDocs(init, i);
    }
  }

  /** The files of the first `k` answers, concatenated in order. */
  function FilesUpTo(pages: seq<FileListResponse>, k: int): seq<DriveFile>
    requires 0 <= k <= |pages|
  {
    if k == 0 then [] else FilesUpTo(pages, k - 1) + pages[k - 1].files
  }

  /** The document files of the first `k` answers. */
  function DocsUpTo(pages: seq<FileListResponse>, k: int): seq<DriveFile>
    requires 0 <= k <= |pages|
  {
    if k == 0 then [] else DocsUpTo(pages, k - 1) + DocsOf(pages[k - 1].files)
  }

  /** They are the document files among the files of those answers. */
  lemma {:induction false} DocsUpToFiles(pages: seq<FileListResponse>, k: int)
    requires 0 <= k <= |pages|
    ensures DocsUpTo(pages, k) == DocsOf(FilesUpTo(pages, k))
    decreases k
  {
    if k > 0 {
      DocsUpToFiles(pages, k - 1);
      DocsOfAppend(FilesUpTo(pages, k - 1), pages[k - 1].files);
    }
  }

  /** Answer `k` succeeded, left the item count below the cap, and asks for more. */
  predicate ListContinues(pages: seq<FileListResponse>, limit: int, k: int)
    requires 0 <= k < |pages|
  {
    pages[k].code == 0 && |DocsUpTo(pages, k + 1)| < limit && Continues(pages[k].hasMore, pages[k].nextPageToken)
  }

  /** The index of the first answer, from `i` on, after which the listing stops;
      `|pages|` when every one of them continues. */
  function ListStop(pages: seq<FileListResponse>, limit: int, i: nat): (n: nat)
    requires i <= |pages|
    ensures i <= n <= |pages|
    decreases |pages| - i
  {
    if i == |pages| || !ListContinues(pages, limit, i) then i else ListStop(pages, limit, i + 1)
  }

  /** Every answer before the stop continues the listing. */
  lemma {:induction false} ListStopContinues(pages: seq<FileListResponse>, limit: int, i: nat, k: nat)
    requires i <= |pages| && i <= k < ListStop(pages, limit, i)
    ensures ListContinues(pages, limit, k)
    decreases k - i
  {
    if k > i {
      assert ListStop(pages, limit, i) == ListStop(pages, limit, i + 1);
      ListStopContinues(pages, limit, i + 1, k);
    }
  }

  /** The stop, when an answer is there, does not continue the listing. */
  lemma {:induction false} ListStopEnds(pages: seq<FileListResponse>, limit: int, i: nat)
    requires i <= |pages| && ListStop(pages, limit, i) < |pages|
    ensures !ListContinues(pages, limit, ListStop(pages, limit, i))
    decreases |pages| - i
  {
    if ListContinues(pages, limit, i) {
      assert ListStop(pages, limit, i) == ListStop(pages, limit, i + 1);
      ListStopEnds(pages, limit, i + 1);
    }
  }

  /** The first `limit` entries of `s` (all of them when there are fewer). */
  function Capped(s: seq<DriveFile>, limit: int): (r: seq<DriveFile>)
    requires limit >= 0
    ensures |r| == Min(|s|, limit)
  {
    if |s| <= limit then s else s[..limit]
  }

  /** The capped entries are a prefix of `s`. */
  lemma CappedIsPrefix(s: seq<DriveFile>, limit: int)
    requires limit >= 0
    ensures Capped(s, limit) == s[..|Capped(s, limit)|]
  {
  }

  /** How a listing that has read answers `0 .. i - 1` and holds `items` ends: the
      result and the number of requests sent in all. */
  datatype ListOutcome = ListOutcome(result: Result<seq<DriveFile>>, sent: nat)

  /** The listing from answer `i` on, one answer per request: a missing answer or a
      non-zero code ends it with an error; otherwise the answer's document files are
      added up to the cap, and the listing ends at the cap or when the answer does
      not ask for more. */
  function ListFrom(pages: seq<FileListResponse>, limit: int, i: nat, items: seq<DriveFile>): (o: ListOutcome)
    requires i <= |pages| && limit >= 0
    ensures i < o.sent <= |pages| + 1
    decreases |pages| - i
  {
    if i == |pages| then ListOutcome(Err(NoResponse), i + 1)
    else if pages[i].code != 0 then ListOutcome(Err(ApiError("list_folder_docs", MessageOr(pages[i].msg))), i + 1)
    else
      var next := Capped(items + DocsOf(pages[i].files), limit);
      if |next| >= limit || !Continues(pages[i].hasMore, pages[i].nextPageToken) then ListOutcome(Ok(next), i + 1)
      else ListFrom(pages, limit, i + 1, next)
  }

  /** How a listing ends at answer `n` when that answer does not continue it (or
      is missing): the answer decides the result, and a successful listing holds
      the first `limit` document files of the answers up to it. */
  function StopOutcome(pages: seq<FileListResponse>, limit: int, n: nat): (o: ListOutcome)
    requires n <= |pages| && limit >= 0
    ensures o.sent == n + 1
  {
    if n == |pages| then ListOutcome(Err(NoResponse), n + 1)
    else if pages[n].code != 0 then ListOutcome(Err(ApiError("list_folder_docs", MessageOr(pages[n].msg))), n + 1)
    else ListOutcome(Ok(Capped(DocsUpTo(pages, n + 1), limit)), n + 1)
  }

  /** The listing from answer `i` on, stated by where it stops: it ends the way
      the answer `ListStop` names ends it. */
  lemma {:induction false} ListFromStops(pages: seq<FileListResponse>, limit: int, i: nat)
    requires i <= |pages| && limit >= 0
    requires |DocsUpTo(pages, i)| < limit
    ensures ListFrom(pages, limit, i, DocsUpTo(pages, i)) == StopOutcome(pages, limit, ListStop(pages, limit, i))
    decreases |pages| - i
  {
    if i < |pages| && pages[i].code == 0 {
      var docs := DocsUpTo(pages, i + 1);
      assert ListFrom(pages, limit, i, DocsUpTo(pages, i)) ==
        if |Capped(docs, limit)| >= limit || !Continues(pages[i].hasMore, pages[i].nextPageToken)
        then ListOutcome(Ok(Capped(docs, limit)), i + 1)
        else ListFrom(pages, limit, i + 1, Capped(docs, limit));
      if ListContinues(pages, limit, i) {
        assert Capped(docs, limit) == docs;
        assert ListStop(pages, limit, i) == ListStop(pages, limit, i + 1);
        ListFromStops(pages, limit, i + 1);
      } else {
        assert ListStop(pages, limit, i) == i;
        assert StopOutcome(pages, limit, i) == ListOutcome(Ok(Capped(docs, limit)), i + 1);
      }
    } else {
      assert ListStop(pages, limit, i) == i;
    }
  }

  /** What `_list_folder_docs` answers: an error for an empty folder token before
      any request, otherwise the end of the listing from the first answer on. */
  function ListingOf(pages: seq<FileListResponse>, folderToken: string, maxItems: int): (r: Result<Listing>)
    ensures folderToken == "" ==> r == Err(MissingArgument("list_folder_docs", "folder_token"))
    ensures r.Ok? ==> r.value.folderToken == folderToken && r.value.count == |r.value.items|
  {
    if folderToken == "" then Err(MissingArgument("list_folder_docs", "folder_token"))
    else
      match ListFrom(pages, Limit(maxItems), 0, []).result
      case Err(e) => Err(e)
      case Ok(items) => Ok(Listing(folderToken, |items|, items))
  }

  /** A listing is decided by the first answer that does not continue it: its
      failure is the error, and otherwise the items are the first `limit` document
      files of the answers read, in listing order; only document files are listed,
      at most `limit` of them. */
  lemma ListingOfStops(pages: seq<FileListResponse>, folderToken: string, maxItems: int)
    requires folderToken != ""
    ensures var limit := Limit(maxItems);
      var n := ListStop(pages, limit, 0);
      var r := ListingOf(pages, folderToken, maxItems);
      && (n == |pages| ==> r == Err(NoResponse))
      && (n < |pages| && pages[n].code != 0 ==> r == Err(ApiError("list_folder_docs", MessageOr(pages[n].msg))))
      && (n < |pages| && pages[n].code == 0 ==> r.Ok? && r.value.items == Capped(DocsUpTo(pages, n + 1), limit))
    ensures var r := ListingOf(pages, folderToken, maxItems);
      r.Ok? ==>
        && |r.value.items| <= Limit(maxItems)
        && forall k :: 0 <= k < |r.value.items| ==> IsDocType(r.value.items[k])
  {
    var limit := Limit(maxItems);
    var n := ListStop(pages, limit, 0);
    assert DocsUpTo(pages, 0) == [];
    ListFromStops(pages, limit, 0);
    assert ListFrom(pages, limit, 0, []) == StopOutcome(pages, limit, n);
    if n < |pages| && pages[n].code == 0 {
      var docs := DocsUpTo(pages, n + 1);
      DocsUpToFiles(pages, n + 1);
      DocsOfAreDocs(FilesUpTo(pages, n + 1));
      CappedIsPrefix(docs, limit);
      var items := Capped(docs, limit);
      assert forall k :: 0 <= k < |items| ==> items[k] == docs[k];
    }
  }

  /** Every document file of the first `k` answers is among their document files. */
  lemma DocsUpToKeepsDocs(pages: seq<FileListResponse>, k: int, f: DriveFile)
    requires 0 <= k <= |pages|
    requires f in FilesUpTo(pages, k) && IsDocType(f)
    ensures f in DocsUpTo(pages, k)
  {
    var all := FilesUpTo(pages, k);
    var j :| 0 <= j < |all| && all[j] == f;
    DocsOfKeepsDocs(all, j);
    DocsUpToFiles(pages, k);
  }

  /** Below the cap, no document file of the answers read is left out. */
  lemma ListingBelowCapIsComplete(pages: seq<FileListResponse>, folderToken: string, maxItems: int, f: DriveFile)
    requires ListingOf(pages, folderToken, maxItems).Ok?
    requires |ListingOf(pages, folderToken, maxItems).value.items| < Limit(maxItems)
    requires ListStop(pages, Limit(maxItems), 0) < |pages|
    requires f in FilesUpTo(pages, ListStop(pages, Limit(maxItems), 0) + 1) && IsDocType(f)
    ensures f in ListingOf(pages, folderToken, maxItems).value.items
  {
    var limit := Limit(maxItems);
    var n := ListStop(pages, limit, 0);
    var items := ListingOf(pages, folderToken, maxItems).value.items;
    var docs := DocsUpTo(pages, n + 1);
    ListingOfStops(pages, folderToken, maxItems);
    assert pages[n].code == 0;
    assert items == Capped(docs, limit) == docs;
    DocsUpToKeepsDocs(pages, n + 1, f);
  }

  /** The query of the request that sends `cursor` ("" for none). */
  function RequestFor(folderToken: string, size: int, cursor: string): (q: ListRequest)
    ensures q.pageToken.None? <==> cursor == ""
  {
    ListRequest(folderToken, size, if cursor == "" then None else Some(cursor), "EditedTime", "DESC")
  }

  /** The first `k` queries a listing sends: the first without a cursor, each later
      one with the cursor of the answer before it. */
  function Requests(pages: seq<FileListResponse>, folderToken: string, size: int, k: int): (qs: seq<ListRequest>)
    requires 0 <= k <= |pages| + 1
    ensures |qs| == k
  {
    if k == 0 then []
    else Requests(pages, folderToken, size, k - 1) + [RequestFor(folderToken, size, if k == 1 then "" else pages[k - 2].nextPageToken)]
  }

  /** Every query asks for the folder's files, newest edit first, in pages of the
      clamped size; only the first goes without a cursor. */
  lemma {:induction false} RequestsShape(pages: seq<FileListResponse>, folderToken: string, pageSize: int, k: int)
    requires 0 <= k <= |pages| + 1
    ensures var qs := Requests(pages, folderToken, EffectivePageSize(pageSize), k);
      && |qs| == k
      && forall j :: 0 <= j < k ==>
           && qs[j].folderToken == folderToken
           && 1 <= qs[j].pageSize <= 200
           && qs[j].orderBy == "EditedTime" && qs[j].direction == "DESC"
           && qs[j].pageToken == (if j == 0 then None else
                                  if pages[j - 1].nextPageToken == "" then None else Some(pages[j - 1].nextPageToken))
    decreases k
  {
    if k > 0 {
      RequestsShape(pages, folderToken, pageSize, k - 1);
    }
  }

  /** The query a listing sends after reading `i` answers. */
  lemma RequestsNext(pages: seq<FileListResponse>, folderToken: string, size: int, i: int, cursor: string)
    requires 0 <= i <= |pages|
    requires cursor == if i == 0 then "" else pages[i - 1].nextPageToken
    ensures Requests(pages, folderToken, size, i + 1) ==
      Requests(pages, folderToken, size, i) + [RequestFor(folderToken, size, cursor)]
  {
  }

  lemma DocsOfStep(files: seq<DriveFile>, j: int)
    requires 0 <= j < |files|
    ensures DocsOf(files[..j + 1]) == DocsOf(files[..j]) + (if IsDocType(files[j]) then [files[j]] else [])
  {
    assert files[..j + 1][..j] == files[..j];
  }

  /** The break out of the loop over one answer's files at the cap. */
  lemma CapReached(before: seq<DriveFile>, files: seq<DriveFile>, j: int, items: seq<DriveFile>, limit: int)
    requires 0 <= j < |files|
    requires items == before + DocsOf(files[..j + 1])
    requires |items| == limit
    ensures |before + DocsOf(files)| >= limit
    ensures items == (before + DocsOf(files))[..limit]
  {
    var head, tail := files[..j + 1], files[j + 1..];
    var h, t := DocsOf(head), DocsOf(tail);
    assert DocsOf(files) == h + t by {
      assert files == head + tail;
      DocsOfAppend(head, tail);
    }
    assert before + (h + t) == (before + h) + t;
    assert (items + t)[..limit] == items;
  }

  /** The loop of `_list_folder_docs` over the files of one answer: appends the
      document files to `before` and stops as soon as the cap is reached. */
  method TakeDocs(before: seq<DriveFile>, files: seq<DriveFile>, limit: int) returns (items: seq<DriveFile>, full: bool)
    requires |before| < limit
    ensures items == Capped(before + DocsOf(files), limit)
    ensures full <==> |items| >= limit
  {
    items := before;
    full := false;
    var j := 0;
    while j < |files|
      invariant 0 <= j <= |files|
      invariant items == before + DocsOf(files[..j]) && |items| < limit
      decreases |files| - j
    {
      var f := files[j];
      DocsOfStep(files, j);
      if IsDocType(f) {
        items := items + [f];
        if |items| >= limit {
          CapReached(before, files, j, items, limit);
          full := true;
          return;
        }
      }
      j := j + 1;
    }
    assert files[..j] == files;
  }

  /** `_list_folder_docs` reading one answer `pages[i]`: a failure ends the listing
      with an error; otherwise the document files are added up to the cap and the
      listing ends at the cap or when the answer does not ask for more. `stop` is
      the result when the listing ends here. */
  method ReadAnswer(pages: seq<FileListResponse>, limit: int, i: nat, before: seq<DriveFile>)
    returns (stop: Option<Result<seq<DriveFile>>>, items: seq<DriveFile>)
    requires i < |pages| && |before| < limit
    ensures stop.Some? ==> ListFrom(pages, limit, i, before) == ListOutcome(stop.value, i + 1)
    ensures stop.None? ==> |items| < limit && ListFrom(pages, limit, i, before) == ListFrom(pages, limit, i + 1, items)
  {
    var resp := pages[i];
    if resp.code != 0 {
      stop, items := Some(Err(ApiError("list_folder_docs", MessageOr(resp.msg)))), before;
      return;
    }
    var full;
    items, full := TakeDocs(before, resp.files, limit);
    if |items| >= limit || !resp.hasMore || resp.nextPageToken == "" {
      stop := Some(Ok(items));
    } else {
      stop := None;
    }
  }

  /** `_list_folder_docs`: requests answers one after another, keeps the document
      files in order and stops at the cap, at a failure, or when the answer does not
      ask for more. `requests` are the queries sent. */
  method ListFolderDocs(pages: seq<FileListResponse>, folderToken: string, pageSize: int, maxItems: int)
    returns (r: Result<Listing>, requests: seq<ListRequest>)
    ensures r == ListingOf(pages, folderToken, maxItems)
    ensures folderToken == "" ==> requests == []
    ensures folderToken != "" ==>
      && |requests| == ListFrom(pages, Limit(maxItems), 0, []).sent
      && requests == Requests(pages, folderToken, EffectivePageSize(pageSize), |requests|)
  {
    requests := [];
    if folderToken == "" {
      r := Err(MissingArgument("list_folder_docs", "folder_token"));
      return;
    }
    var size := EffectivePageSize(pageSize);
    var limit := Limit(maxItems);
    ghost var outcome := ListFrom(pages, limit, 0, []);
    var items: seq<DriveFile> := [];
    var pageToken := "";
    var i := 0;
    while true
      invariant 0 <= i <= |pages| && |items| < limit
      invariant ListFrom(pages, limit, i, items) == outcome
      invariant pageToken == if i == 0 then "" else pages[i - 1].nextPageToken
      invariant requests == Requests(pages, folderToken, size, i)
      decreases |pages| - i
    {
      RequestsNext(pages, folderToken, size, i, pageToken);
      requests := requests + [RequestFor(folderToken, size, pageToken)];
      if i == |pages| {
        r := Err(NoResponse);
        return;
      }
      var stop;
      stop, items := ReadAnswer(pages, limit, i, items);
      pageToken := pages[i].nextPageToken;
      if stop.Some? {
        match stop.value {
          case Err(e) => r := Err(e);
          case Ok(found) => r := Ok(Listing(folderToken, |found|, found));
        }
        return;
      }
      i := i + 1;
    }
  }
}
