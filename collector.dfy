/** Reading a document's block tree: the paginated block-children endpoint
    (`_get_block_children`) and the bounded depth-first collector built on it
    (`_collect_document_blocks`). */
module Collector {
  import opened Common
  import opened Blocks

  /** One answer of the block-children endpoint. `items` and `children` are the two
      places the block list may come in; `pageToken` and `nextPageToken` the two
      places the cursor may come in. Absent fields are empty, `has_more` absent is
      false, and an absent `code` is any non-zero code. */
  datatype ChildrenPage = ChildrenPage(
    code: int,
    msg: Option<string>,
    items: seq<Block>,
    children: seq<Block>,
    hasMore: bool,
    pageToken: string,
    nextPageToken: string)

  /** The block-children endpoint of one document, as an oracle: for each block id,
      the answers it gives to the successive requests of one pagination over that
      block's children. A request past the last answer gets no response. */
  type ChildrenApi = string -> seq<ChildrenPage>

  /** The blocks of one answer: its items, else its children, else none. */
  function PageBlocks(p: ChildrenPage): seq<Block>
  {
    if p.items != [] then p.items else p.children
  }

  /** The cursor of one answer: its page token, else its next page token, else "". */
  function PageCursor(p: ChildrenPage): string
  {
    if p.pageToken != "" then p.pageToken else p.nextPageToken
  }

  /** The answer succeeded and asks for one more request. */
  predicate PageContinues(p: ChildrenPage)
  {
    p.code == 0 && Continues(p.hasMore, PageCursor(p))
  }

  /** The index of the first answer, from `i` on, that fails or does not continue;
      `|pages|` when every one of them continues. */
  function StopFrom(pages: seq<ChildrenPage>, i: nat): (n: nat)
    requires i <= |pages|
    ensures i <= n <= |pages|
    ensures forall k :: i <= k < n ==> PageContinues(pages[k])
    ensures n < |pages| ==> !PageContinues(pages[n])
    decreases |pages| - i
  {
    if i == |pages| || !PageContinues(pages[i]) then i else StopFrom(pages, i + 1)
  }

  /** The blocks of the first `k` answers, concatenated in order. */
  function BlocksUpTo(pages: seq<ChildrenPage>, k: nat): seq<Block>
    requires k <= |pages|
  {
    if k == 0 then [] else BlocksUpTo(pages, k - 1) + PageBlocks(pages[k - 1])
  }

  /** What a pagination over one block's children yields: the last answer read is
      the first that fails or does not continue; its failure is the error, and
      otherwise the children are every answer's blocks up to it, in order. */
  function FetchChildren(pages: seq<ChildrenPage>): Result<seq<Block>>
  {
    var n := StopFrom(pages, 0);
    if n == |pages| then Err(NoResponse)
    else if pages[n].code != 0 then Err(ApiError("read_blocks", MessageOr(pages[n].msg)))
    else Ok(BlocksUpTo(pages, n + 1))
  }

  /** Answers after the one that ends the pagination are never consulted. */
  lemma FetchChildrenIgnoresLaterPages(pages: seq<ChildrenPage>, later: seq<ChildrenPage>)
    requires StopFrom(pages, 0) < |pages|
    ensures FetchChildren(pages + later) == FetchChildren(pages)
  {
    var n := StopFrom(pages, 0);
    var all := pages + later;
    var m := StopFrom(all, 0);
    assert forall k :: 0 <= k < |pages| ==> all[k] == pages[k];
    assert m == n;
    BlocksUpToAppend(pages, later, n + 1);
  }

  /** The blocks of the first `k` answers do not depend on the answers after them. */
  lemma {:induction false} BlocksUpToAppend(pages: seq<ChildrenPage>, later: seq<ChildrenPage>, k: nat)
    requires k <= |pages|
    ensures BlocksUpTo(pages + later, k) == BlocksUpTo(pages, k)
  {
    if k > 0 {
      BlocksUpToAppend(pages, later, k - 1);
      assert (pages + later)[k - 1] == pages[k - 1];
    }
  }

  /** An answer before the end of the pagination continues it; the answer at the
      end does not. */
  lemma StopAt(pages: seq<ChildrenPage>, i: nat)
    requires i <= StopFrom(pages, 0) && i < |pages|
    ensures PageContinues(pages[i]) <==> i < StopFrom(pages, 0)
  {
  }

  /** `_get_block_children`: requests answers one after another until one fails or
      does not continue. `cursors` are the `page_token` values sent, "" meaning none. */
  method GetBlockChildren(pages: seq<ChildrenPage>) returns (r: Result<seq<Block>>, cursors: seq<string>)
    ensures r == FetchChildren(pages)
    ensures |cursors| == StopFrom(pages, 0) + 1
    ensures cursors[0] == ""
    ensures forall k :: 0 < k < |cursors| ==> cursors[k] == PageCursor(pages[k - 1]) && cursors[k] != ""
  {
    var pageToken := "";
    var children: seq<Block> := [];
    var i := 0;
    cursors := [];
    ghost var n := StopFrom(pages, 0);
    while true
      invariant 0 <= i <= n
      invariant children == BlocksUpTo(pages, i)
      invariant |cursors| == i
      invariant pageToken == if i == 0 then "" else PageCursor(pages[i - 1])
      invariant i > 0 ==> cursors[0] == ""
      invariant forall k :: 0 < k < i ==> cursors[k] == PageCursor(pages[k - 1])
      decreases |pages| - i
    {
      cursors := cursors + [pageToken];
      if i == |pages| {
        r := Err(NoResponse);
        return;
      }
      var resp := pages[i];
      StopAt(pages, i);
      if resp.code != 0 {
        r := Err(ApiError("read_blocks", MessageOr(resp.msg)));
        return;
      }
      children := children + PageBlocks(resp);
      var hasMore := resp.hasMore;
      pageToken := PageCursor(resp);
      if !hasMore || pageToken == "" {
        r := Ok(children);
        return;
      }
      i := i + 1;
    }
  }

  /** The set of ids of a sequence of blocks. */
  function IdSet(bs: seq<Block>): set<string>
  {
    set i | 0 <= i < |bs| :: bs[i].blockId
  }

  lemma IdSetAppend(bs: seq<Block>, b: Block)
    ensures IdSet(bs + [b]) == IdSet(bs) + {b.blockId}
  {
    var bs' := bs + [b];
    assert forall i :: 0 <= i < |bs| ==> bs'[i] == bs[i];
    assert bs'[|bs|] == b;
  }

  /** No block id occurs twice. */
  predicate DistinctIds(bs: seq<Block>)
  {
    forall i, j :: 0 <= i < j < |bs| ==> bs[i].blockId != bs[j].blockId
  }

  /** `b` is the `k`-th child the endpoint reports for `parent`. */
  ghost predicate ChildAt(api: ChildrenApi, parent: string, k: int, b: Block)
  {
    var c := FetchChildren(api(parent));
    c.Ok? && 0 <= k < |c.value| && c.value[k] == b
  }

  /** The id of the parent occurrence `o`: the root for -1, else the `o`-th collected block. */
  function ParentId(root: string, bs: seq<Block>, o: int): string
    requires -1 <= o < |bs|
  {
    if o < 0 then root else bs[o].blockId
  }

  /** How the collected blocks were found: block `i` is child number `pos[i]` of the
      root (`origin[i] == -1`) or of an earlier block `origin[i]`, and the blocks found
      under one parent keep the order in which its pages list them. */
  ghost predicate Derivation(api: ChildrenApi, root: string, bs: seq<Block>, origin: seq<int>, pos: seq<int>)
  {
    && |origin| == |bs| && |pos| == |bs|
    && (forall i :: 0 <= i < |bs| ==> -1 <= origin[i] < i)
    && (forall i :: 0 <= i < |bs| ==> ChildAt(api, ParentId(root, bs, origin[i]), pos[i], bs[i]))
    && (forall i, j :: 0 <= i < j < |bs| && origin[i] == origin[j] ==> pos[i] < pos[j])
  }

  /** The children of `p` were fetched without error and every one with an id is in `seen`. */
  ghost predicate Explored(api: ChildrenApi, p: string, seen: set<string>)
  {
    var c := FetchChildren(api(p));
    c.Ok? && forall b :: b in c.value && b.blockId != "" ==> b.blockId in seen
  }

  /** The collected blocks are closed under the reported child relation: the root's
      children and the children of every collected block are all collected. */
  ghost predicate Closed(api: ChildrenApi, root: string, bs: seq<Block>)
  {
    Explored(api, root, IdSet(bs)) && forall i :: 0 <= i < |bs| ==> Explored(api, bs[i].blockId, IdSet(bs))
  }

  /** What `_collect_document_blocks` promises of a successful collection. */
  ghost predicate Collected(api: ChildrenApi, root: string, maxBlocks: int, bs: seq<Block>)
  {
    && (bs == [] || |bs| <= maxBlocks)
    && (forall i :: 0 <= i < |bs| ==> bs[i].blockId != "")
    && DistinctIds(bs)
    && (exists origin, pos :: Derivation(api, root, bs, origin, pos))
    && (|bs| < maxBlocks ==> Closed(api, root, bs))
  }

  /** The stack holds the ids of parent occurrences `stackOcc` (-1 for the root,
      else an index into the collected blocks), pushed in increasing order, and no
      collected block yet claims an occurrence still on the stack as its parent. */
  ghost predicate StackInv(root: string, bs: seq<Block>, origin: seq<int>, stack: seq<string>, stackOcc: seq<int>)
    requires |origin| == |bs|
  {
    && |stackOcc| == |stack|
    && (forall t :: 0 <= t < |stack| ==> -1 <= stackOcc[t] < |bs| && stack[t] == ParentId(root, bs, stackOcc[t]))
    && (forall t, u :: 0 <= t < u < |stack| ==> stackOcc[t] < stackOcc[u])
    && (forall i, t :: 0 <= i < |bs| && 0 <= t < |stack| ==> origin[i] != stackOcc[t])
  }

  /** The state of the traversal between two steps. */
  ghost predicate Walk(api: ChildrenApi, root: string, maxBlocks: int, stack: seq<string>, stackOcc: seq<int>,
                       bs: seq<Block>, visited: set<string>, origin: seq<int>, pos: seq<int>)
  {
    && (bs == [] || |bs| <= maxBlocks)
    && (forall i :: 0 <= i < |bs| ==> bs[i].blockId != "")
    && DistinctIds(bs)
    && visited == IdSet(bs)
    && Derivation(api, root, bs, origin, pos)
    && StackInv(root, bs, origin, stack, stackOcc)
  }

  /** Every known id (the root and the collected blocks) is still on the stack, is
      the one in `current`, or has been explored. */
  ghost predicate Frontier(api: ChildrenApi, root: string, bs: seq<Block>, stack: seq<string>,
                           visited: set<string>, current: set<string>)
  {
    && (root in stack || root in current || Explored(api, root, visited))
    && forall i :: 0 <= i < |bs| ==>
         bs[i].blockId in stack || bs[i].blockId in current || Explored(api, bs[i].blockId, visited)
  }

  lemma ParentIdAppend(root: string, bs: seq<Block>, b: Block)
    ensures forall q :: -1 <= q < |bs| ==> ParentId(root, bs + [b], q) == ParentId(root, bs, q)
  {
    forall q | 0 <= q < |bs| ensures ParentId(root, bs + [b], q) == ParentId(root, bs, q) {
      assert (bs + [b])[q] == bs[q];
    }
  }

  lemma AdoptKeepsDistinct(bs: seq<Block>, b: Block)
    requires DistinctIds(bs)
    requires b.blockId !in IdSet(bs)
    ensures DistinctIds(bs + [b])
  {
    var bs' := bs + [b];
    forall i, j | 0 <= i < j < |bs'| ensures bs'[i].blockId != bs'[j].blockId {
      if j == |bs| { assert bs'[i] == bs[i]; assert bs[i].blockId in IdSet(bs); }
      else { assert bs'[i] == bs[i] && bs'[j] == bs[j]; }
    }
  }

  lemma AdoptKeepsDerivation(api: ChildrenApi, root: string, bs: seq<Block>, origin: seq<int>, pos: seq<int>,
                             o: int, k: int, b: Block)
    requires Derivation(api, root, bs, origin, pos)
    requires -1 <= o < |bs|
    requires ChildAt(api, ParentId(root, bs, o), k, b)
    requires forall i :: 0 <= i < |bs| && origin[i] == o ==> pos[i] < k
    ensures Derivation(api, root, bs + [b], origin + [o], pos + [k])
  {
    var bs', origin', pos' := bs + [b], origin + [o], pos + [k];
    ParentIdAppend(root, bs, b);
    forall i | 0 <= i < |bs'|
      ensures -1 <= origin'[i] < i
      ensures ChildAt(api, ParentId(root, bs', origin'[i]), pos'[i], bs'[i])
    {
      if i < |bs| { assert origin'[i] == origin[i] && pos'[i] == pos[i] && bs'[i] == bs[i]; }
    }
    forall i, j | 0 <= i < j < |bs'| && origin'[i] == origin'[j] ensures pos'[i] < pos'[j] {
      if j < |bs| { assert origin'[i] == origin[i] && origin'[j] == origin[j]; }
      else { assert origin'[i] == origin[i] && pos'[i] == pos[i]; }
    }
  }

  lemma AdoptKeepsStack(root: string, bs: seq<Block>, origin: seq<int>, stack: seq<string>, stackOcc: seq<int>,
                        o: int, before: int, b: Block)
    requires |origin| == |bs|
    requires forall i :: 0 <= i < |bs| ==> -1 <= origin[i] < i
    requires StackInv(root, bs, origin, stack, stackOcc)
    requires -1 <= o < before <= |bs|
    requires forall t :: 0 <= t < |stack| ==> stackOcc[t] < o || stackOcc[t] >= before
    ensures StackInv(root, bs + [b], origin + [o], stack + [b.blockId], stackOcc + [|bs|])
  {
    var bs', origin', stack', stackOcc' := bs + [b], origin + [o], stack + [b.blockId], stackOcc + [|bs|];
    ParentIdAppend(root, bs, b);
    forall t | 0 <= t < |stack'|
      ensures -1 <= stackOcc'[t] < |bs'| && stack'[t] == ParentId(root, bs', stackOcc'[t])
    {
      if t < |stack| { assert stack'[t] == stack[t] && stackOcc'[t] == stackOcc[t]; }
    }
    forall t, u | 0 <= t < u < |stack'| ensures stackOcc'[t] < stackOcc'[u] {
      if u < |stack| { assert stackOcc'[t] == stackOcc[t] && stackOcc'[u] == stackOcc[u]; }
      else { assert stackOcc'[t] == stackOcc[t]; }
    }
    forall i, t | 0 <= i < |bs'| && 0 <= t < |stack'| ensures origin'[i] != stackOcc'[t] {
      if t == |stack| {
        if i < |bs| { assert origin'[i] == origin[i]; }
      } else if i == |bs| {
        assert stackOcc'[t] == stackOcc[t];
      } else {
        assert origin'[i] == origin[i] && stackOcc'[t] == stackOcc[t];
      }
    }
  }

  /** Appending a newly found child keeps the traversal state. */
  lemma AdoptKeepsWalk(api: ChildrenApi, root: string, maxBlocks: int, stack: seq<string>, stackOcc: seq<int>,
                       bs: seq<Block>, visited: set<string>, origin: seq<int>, pos: seq<int>,
                       o: int, before: int, k: int, b: Block)
    requires Walk(api, root, maxBlocks, stack, stackOcc, bs, visited, origin, pos)
    requires |bs| < maxBlocks
    requires -1 <= o < before <= |bs|
    requires ChildAt(api, ParentId(root, bs, o), k, b)
    requires b.blockId != "" && b.blockId !in visited
    requires forall i :: 0 <= i < |bs| && origin[i] == o ==> pos[i] < k
    requires forall t :: 0 <= t < |stack| ==> stackOcc[t] < o || stackOcc[t] >= before
    ensures Walk(api, root, maxBlocks, stack + [b.blockId], stackOcc + [|bs|],
                 bs + [b], visited + {b.blockId}, origin + [o], pos + [k])
  {
    IdSetAppend(bs, b);
    AdoptKeepsDistinct(bs, b);
    AdoptKeepsDerivation(api, root, bs, origin, pos, o, k, b);
    AdoptKeepsStack(root, bs, origin, stack, stackOcc, o, before, b);
    var bs' := bs + [b];
    assert forall i :: 0 <= i < |bs'| ==> bs'[i].blockId != "" by {
      forall i | 0 <= i < |bs'| ensures bs'[i].blockId != "" { if i < |bs| { assert bs'[i] == bs[i]; } }
    }
  }

  /** Appending a newly found child keeps the frontier: its id goes onto the stack. */
  lemma AdoptKeepsFrontier(api: ChildrenApi, root: string, bs: seq<Block>, stack: seq<string>,
                           visited: set<string>, current: set<string>, b: Block)
    requires Frontier(api, root, bs, stack, visited, current)
    ensures Frontier(api, root, bs + [b], stack + [b.blockId], visited + {b.blockId}, current)
  {
    var bs' := bs + [b];
    forall i | 0 <= i < |bs'|
      ensures bs'[i].blockId in stack + [b.blockId] || bs'[i].blockId in current ||
              Explored(api, bs'[i].blockId, visited + {b.blockId})
    {
      if i < |bs| && bs[i].blockId !in stack && bs[i].blockId !in current {
        assert bs'[i] == bs[i];
      }
    }
  }

  /** Popping `parent` off the stack exempts it from the frontier until it is explored. */
  lemma PopKeepsFrontier(api: ChildrenApi, root: string, bs: seq<Block>, stack: seq<string>, visited: set<string>)
    requires stack != []
    requires Frontier(api, root, bs, stack, visited, {})
    ensures Frontier(api, root, bs, stack[..|stack| - 1], visited, {stack[|stack| - 1]})
  {
    var s' := stack[..|stack| - 1];
    assert forall x :: x in stack ==> x in s' || x == stack[|stack| - 1] by {
      forall x | x in stack ensures x in s' || x == stack[|stack| - 1] {
        var t :| 0 <= t < |stack| && stack[t] == x;
        if t < |stack| - 1 { assert s'[t] == x; }
      }
    }
  }

  /** Every child before position `k` that has an id has been visited. */
  ghost predicate Covered(children: seq<Block>, k: int, visited: set<string>)
    requires 0 <= k <= |children|
  {
    forall j :: 0 <= j < k && children[j].blockId != "" ==> children[j].blockId in visited
  }

  /** The blocks found so far under occurrence `o` came from child positions below `k`. */
  ghost predicate FoundBefore(origin: seq<int>, pos: seq<int>, o: int, k: int)
    requires |origin| == |pos|
  {
    forall i :: 0 <= i < |origin| && origin[i] == o ==> pos[i] < k
  }

  lemma FoundBeforeStep(origin: seq<int>, pos: seq<int>, o: int, k: int, adopted: bool)
    requires |origin| == |pos|
    requires FoundBefore(origin, pos, o, k)
    ensures adopted ==> FoundBefore(origin + [o], pos + [k], o, k + 1)
    ensures !adopted ==> FoundBefore(origin, pos, o, k + 1)
  {
    if adopted {
      var origin', pos' := origin + [o], pos + [k];
      forall i | 0 <= i < |origin'| && origin'[i] == o ensures pos'[i] < k + 1 {
        if i < |origin| { assert origin'[i] == origin[i] && pos'[i] == pos[i]; }
      }
    }
  }

  /** The state of `_collect_document_blocks` between two steps: the stack of ids
      still to explore (top last), the collected blocks and the visited ids. */
  datatype Traversal = Traversal(stack: seq<string>, blocks: seq<Block>, visited: set<string>)

  /** The inner loop of `_collect_document_blocks` from child `k` of one popped
      parent on: a child with a non-empty id not yet visited is marked visited,
      collected and pushed, and the loop ends as soon as `maxBlocks` blocks are
      collected. */
  function AdoptFrom(children: seq<Block>, k: nat, maxBlocks: int, t: Traversal): (r: Traversal)
    requires k <= |children|
    ensures |t.blocks| <= |r.blocks| && |r.stack| == |t.stack| + (|r.blocks| - |t.blocks|)
    ensures |t.blocks| < maxBlocks ==> |r.blocks| <= maxBlocks
    decreases |children| - k
  {
    if k == |children| then t
    else
      var b := children[k];
      if b.blockId == "" || b.blockId in t.visited then AdoptFrom(children, k + 1, maxBlocks, t)
      else
        var t' := Traversal(t.stack + [b.blockId], t.blocks + [b], t.visited + {b.blockId});
        if |t'.blocks| >= maxBlocks then t' else AdoptFrom(children, k + 1, maxBlocks, t')
  }

  /** The outer loop of `_collect_document_blocks` from traversal state `t` on: while
      the stack is not empty and fewer than `maxBlocks` blocks are collected, pop the
      top id, fetch its children (a failure ends the collection with that error) and
      adopt them. */
  function CollectFrom(api: ChildrenApi, maxBlocks: int, t: Traversal): Result<seq<Block>>
    decreases maxBlocks - |t.blocks|, |t.stack|
  {
    if t.stack == [] || |t.blocks| >= maxBlocks then Ok(t.blocks)
    else
      var parentId := t.stack[|t.stack| - 1];
      match FetchChildren(api(parentId))
      case Err(e) => Err(e)
      case Ok(children) =>
        CollectFrom(api, maxBlocks, AdoptFrom(children, 0, maxBlocks, Traversal(t.stack[..|t.stack| - 1], t.blocks, t.visited)))
  }

  /** The traversal `_collect_document_blocks` starts from. */
  function Start(documentId: string): Traversal
  {
    Traversal([documentId], [], {})
  }

  /** A failure of a collection from `root`: fetching the children of the root, or
      of a block reached from it through reported children, failed with `e`. */
  ghost predicate FailsAt(api: ChildrenApi, root: string, e: Error)
  {
    exists bs: seq<Block>, origin: seq<int>, pos: seq<int>, o: int ::
      Derivation(api, root, bs, origin, pos) && -1 <= o < |bs| && FetchChildren(api(ParentId(root, bs, o))) == Err(e)
  }

  /** The state of the traversal inside the loop over the children of the popped
      parent `parentId`, occurrence `o`, at child `k`: `before` blocks were collected
      when it was popped, the blocks found since come from its children before `k`,
      and its children before `k` are all visited. */
  ghost predicate Adopting(api: ChildrenApi, root: string, maxBlocks: int, parentId: string, children: seq<Block>,
                           k: nat, t: Traversal, stackOcc: seq<int>, origin: seq<int>, pos: seq<int>, o: int, before: int)
  {
    && FetchChildren(api(parentId)) == Ok(children)
    && k <= |children|
    && Walk(api, root, maxBlocks, t.stack, stackOcc, t.blocks, t.visited, origin, pos)
    && |t.blocks| < maxBlocks
    && -1 <= o < before <= |t.blocks|
    && parentId == ParentId(root, t.blocks, o)
    && FoundBefore(origin, pos, o, k)
    && (forall s :: 0 <= s < |t.stack| ==> stackOcc[s] < o || stackOcc[s] >= before)
    && Frontier(api, root, t.blocks, t.stack, t.visited, {parentId})
    && Covered(children, k, t.visited)
  }

  /** The inner loop keeps the traversal state: the blocks it adopts are reported
      children of the parent occurrence `o`, in page order, and once it has run to
      the end every child of the popped parent is visited. */
  lemma AdoptFromWalk(api: ChildrenApi, root: string, maxBlocks: int, parentId: string, children: seq<Block>,
                      k: nat, t: Traversal, stackOcc: seq<int>, origin: seq<int>, pos: seq<int>, o: int, before: int)
    returns (stackOcc': seq<int>, origin': seq<int>, pos': seq<int>)
    requires Adopting(api, root, maxBlocks, parentId, children, k, t, stackOcc, origin, pos, o, before)
    ensures var r := AdoptFrom(children, k, maxBlocks, t);
      && Walk(api, root, maxBlocks, r.stack, stackOcc', r.blocks, r.visited, origin', pos')
      && (|r.blocks| < maxBlocks ==> Frontier(api, root, r.blocks, r.stack, r.visited, {}))
    decreases |children| - k
  {
    if k == |children| {
      // every child, and so the popped parent itself, is now explored
      assert Explored(api, parentId, t.visited);
      stackOcc', origin', pos' := stackOcc, origin, pos;
    } else {
      var b := children[k];
      if b.blockId == "" || b.blockId in t.visited {
        assert AdoptFrom(children, k, maxBlocks, t) == AdoptFrom(children, k + 1, maxBlocks, t);
        SkipOne(api, root, maxBlocks, parentId, children, k, t, stackOcc, origin, pos, o, before);
        stackOcc', origin', pos' := AdoptFromWalk(api, root, maxBlocks, parentId, children, k + 1, t,
                                                  stackOcc, origin, pos, o, before);
      } else {
        var t' := Traversal(t.stack + [b.blockId], t.blocks + [b], t.visited + {b.blockId});
        var so, og, ps := AdoptOne(api, root, maxBlocks, parentId, children, k, t, stackOcc, origin, pos, o, before);
        if |t'.blocks| >= maxBlocks {
          assert AdoptFrom(children, k, maxBlocks, t) == t';
          stackOcc', origin', pos' := so, og, ps;
        } else {
          assert AdoptFrom(children, k, maxBlocks, t) == AdoptFrom(children, k + 1, maxBlocks, t');
          stackOcc', origin', pos' := AdoptFromWalk(api, root, maxBlocks, parentId, children, k + 1, t',
                                                    so, og, ps, o, before);
        }
      }
    }
  }

  /** Passing over child `k` (no id, or already visited) keeps the loop state. */
  lemma SkipOne(api: ChildrenApi, root: string, maxBlocks: int, parentId: string, children: seq<Block>,
                k: nat, t: Traversal, stackOcc: seq<int>, origin: seq<int>, pos: seq<int>, o: int, before: int)
    requires Adopting(api, root, maxBlocks, parentId, children, k, t, stackOcc, origin, pos, o, before)
    requires k < |children| && (children[k].blockId == "" || children[k].blockId in t.visited)
    ensures Adopting(api, root, maxBlocks, parentId, children, k + 1, t, stackOcc, origin, pos, o, before)
  {
    FoundBeforeStep(origin, pos, o, k, false);
    assert Covered(children, k + 1, t.visited);
  }

  /** Adopting child `k` of the popped parent keeps the traversal state. */
  lemma AdoptOne(api: ChildrenApi, root: string, maxBlocks: int, parentId: string, children: seq<Block>,
                 k: nat, t: Traversal, stackOcc: seq<int>, origin: seq<int>, pos: seq<int>, o: int, before: int)
    returns (stackOcc': seq<int>, origin': seq<int>, pos': seq<int>)
    requires Adopting(api, root, maxBlocks, parentId, children, k, t, stackOcc, origin, pos, o, before)
    requires k < |children| && children[k].blockId != "" && children[k].blockId !in t.visited
    ensures var b := children[k];
      var t' := Traversal(t.stack + [b.blockId], t.blocks + [b], t.visited + {b.blockId});
      && Walk(api, root, maxBlocks, t'.stack, stackOcc', t'.blocks, t'.visited, origin', pos')
      && (|t'.blocks| < maxBlocks ==> Adopting(api, root, maxBlocks, parentId, children, k + 1, t', stackOcc', origin', pos', o, before))
  {
    var b := children[k];
    FoundBeforeStep(origin, pos, o, k, true);
    assert ChildAt(api, ParentId(root, t.blocks, o), k, b);
    AdoptKeepsWalk(api, root, maxBlocks, t.stack, stackOcc, t.blocks, t.visited, origin, pos, o, before, k, b);
    AdoptKeepsFrontier(api, root, t.blocks, t.stack, t.visited, {parentId}, b);
    ParentIdAppend(root, t.blocks, b);
    assert Covered(children, k + 1, t.visited + {b.blockId});
    stackOcc', origin', pos' := stackOcc + [|t.blocks|], origin + [o], pos + [k];
  }

  /** Popping the top of the stack keeps the stack invariant, and gives a parent
      occurrence no block claims and that is above every occurrence left below it. */
  lemma PopKeepsStack(root: string, bs: seq<Block>, origin: seq<int>, stack: seq<string>, stackOcc: seq<int>)
    requires |origin| == |bs|
    requires StackInv(root, bs, origin, stack, stackOcc)
    requires stack != []
    ensures var o := stackOcc[|stack| - 1];
      && StackInv(root, bs, origin, stack[..|stack| - 1], stackOcc[..|stack| - 1])
      && -1 <= o < |bs| && stack[|stack| - 1] == ParentId(root, bs, o)
      && (forall i :: 0 <= i < |bs| ==> origin[i] != o)
      && (forall s :: 0 <= s < |stack| - 1 ==> stackOcc[s] < o)
  {
  }

  /** Every traversal state reachable from the start of `_collect_document_blocks`
      ends in what the collector promises: a successful result is `Collected`, and a
      failure is a failed fetch under the root. */
  lemma CollectFromWalk(api: ChildrenApi, root: string, maxBlocks: int, t: Traversal,
                        stackOcc: seq<int>, origin: seq<int>, pos: seq<int>)
    requires Walk(api, root, maxBlocks, t.stack, stackOcc, t.blocks, t.visited, origin, pos)
    requires |t.blocks| < maxBlocks ==> Frontier(api, root, t.blocks, t.stack, t.visited, {})
    ensures var r := CollectFrom(api, maxBlocks, t);
      && (r.Ok? ==> Collected(api, root, maxBlocks, r.value))
      && (r.Err? ==> FailsAt(api, root, r.error))
    decreases maxBlocks - |t.blocks|, |t.stack|
  {
    if t.stack == [] || |t.blocks| >= maxBlocks {
      assert CollectFrom(api, maxBlocks, t) == Ok(t.blocks);
      WalkDone(api, root, maxBlocks, t, stackOcc, origin, pos);
    } else {
      var top := |t.stack| - 1;
      var fetched := FetchChildren(api(t.stack[top]));
      if fetched.Err? {
        assert CollectFrom(api, maxBlocks, t) == Err(fetched.error);
        WalkFails(api, root, maxBlocks, t, stackOcc, origin, pos);
      } else {
        var t0 := Traversal(t.stack[..top], t.blocks, t.visited);
        var t' := AdoptFrom(fetched.value, 0, maxBlocks, t0);
        assert CollectFrom(api, maxBlocks, t) == CollectFrom(api, maxBlocks, t');
        PopAdopting(api, root, maxBlocks, t, stackOcc, origin, pos, fetched.value);
        var so, og, ps := AdoptFromWalk(api, root, maxBlocks, t.stack[top], fetched.value, 0, t0,
                                        stackOcc[..top], origin, pos, stackOcc[top], |t.blocks|);
        CollectFromWalk(api, root, maxBlocks, t', so, og, ps);
      }
    }
  }

  /** A traversal state with an empty stack or a full budget is a correct collection. */
  lemma WalkDone(api: ChildrenApi, root: string, maxBlocks: int, t: Traversal,
                 stackOcc: seq<int>, origin: seq<int>, pos: seq<int>)
    requires Walk(api, root, maxBlocks, t.stack, stackOcc, t.blocks, t.visited, origin, pos)
    requires |t.blocks| < maxBlocks ==> Frontier(api, root, t.blocks, t.stack, t.visited, {})
    requires t.stack == [] || |t.blocks| >= maxBlocks
    ensures Collected(api, root, maxBlocks, t.blocks)
  {
    assert Derivation(api, root, t.blocks, origin, pos);
  }

  /** A failed fetch of the top of the stack is a failed fetch under the root. */
  lemma WalkFails(api: ChildrenApi, root: string, maxBlocks: int, t: Traversal,
                  stackOcc: seq<int>, origin: seq<int>, pos: seq<int>)
    requires Walk(api, root, maxBlocks, t.stack, stackOcc, t.blocks, t.visited, origin, pos)
    requires t.stack != [] && FetchChildren(api(t.stack[|t.stack| - 1])).Err?
    ensures FailsAt(api, root, FetchChildren(api(t.stack[|t.stack| - 1])).error)
  {
    var top := |t.stack| - 1;
    var o := stackOcc[top];
    assert -1 <= o < |t.blocks| && t.stack[top] == ParentId(root, t.blocks, o);
    assert Derivation(api, root, t.blocks, origin, pos);
  }

  /** Popping the top of the stack and fetching its children starts the inner loop. */
  lemma PopAdopting(api: ChildrenApi, root: string, maxBlocks: int, t: Traversal,
                    stackOcc: seq<int>, origin: seq<int>, pos: seq<int>, children: seq<Block>)
    requires Walk(api, root, maxBlocks, t.stack, stackOcc, t.blocks, t.visited, origin, pos)
    requires t.stack != [] && |t.blocks| < maxBlocks
    requires Frontier(api, root, t.blocks, t.stack, t.visited, {})
    requires FetchChildren(api(t.stack[|t.stack| - 1])) == Ok(children)
    ensures var top := |t.stack| - 1;
      Adopting(api, root, maxBlocks, t.stack[top], children, 0, Traversal(t.stack[..top], t.blocks, t.visited),
               stackOcc[..top], origin, pos, stackOcc[top], |t.blocks|)
  {
    PopKeepsStack(root, t.blocks, origin, t.stack, stackOcc);
    PopKeepsFrontier(api, root, t.blocks, t.stack, t.visited);
  }

  /** What `_collect_document_blocks` promises, from its start state. */
  lemma CollectFromStart(api: ChildrenApi, documentId: string, maxBlocks: int)
    ensures var r := CollectFrom(api, maxBlocks, Start(documentId));
      && (r.Ok? ==> Collected(api, documentId, maxBlocks, r.value))
      && (r.Err? ==> FailsAt(api, documentId, r.error))
  {
    CollectFromWalk(api, documentId, maxBlocks, Start(documentId), [-1], [], []);
  }

  /** When no fetch fails, neither does the collection. */
  lemma CollectFromOk(api: ChildrenApi, maxBlocks: int, t: Traversal)
    requires forall p :: FetchChildren(api(p)).Ok?
    ensures CollectFrom(api, maxBlocks, t).Ok?
    decreases maxBlocks - |t.blocks|, |t.stack|
  {
    if t.stack != [] && |t.blocks| < maxBlocks {
      var children := FetchChildren(api(t.stack[|t.stack| - 1])).value;
      CollectFromOk(api, maxBlocks, AdoptFrom(children, 0, maxBlocks, Traversal(t.stack[..|t.stack| - 1], t.blocks, t.visited)));
    }
  }

  /** A single successful answer listing `bs`, with no further page. */
  function LastPage(bs: seq<Block>): ChildrenPage
  {
    ChildrenPage(0, None, bs, [], false, "", "")
  }

  /** A single successful answer ends the pagination with its blocks. */
  lemma FetchLastPage(bs: seq<Block>)
    ensures FetchChildren([LastPage(bs)]) == Ok(bs)
  {
    var pages := [LastPage(bs)];
    assert StopFrom(pages, 0) == 0;
    assert PageBlocks(pages[0]) == bs;
    assert BlocksUpTo(pages, 1) == BlocksUpTo(pages, 0) + bs == bs;
  }

  /** A small tree: the root "r" lists blocks `a` then `b`, and "a" lists `c`. */
  function ExampleTree(a: Block, b: Block, c: Block, p: string): seq<ChildrenPage>
  {
    if p == "r" then [LastPage([a, b])] else if p == "a" then [LastPage([c])] else [LastPage([])]
  }

  /** The children `ExampleTree` reports, for blocks `a`, `b` and `c` with ids
      "a", "b" and "c". */
  lemma ExampleFetches(a: Block, b: Block, c: Block)
    requires a.blockId == "a" && b.blockId == "b" && c.blockId == "c"
    ensures FetchChildren(ExampleTree(a, b, c, "r")) == Ok([a, b])
    ensures FetchChildren(ExampleTree(a, b, c, "a")) == Ok([c])
    ensures FetchChildren(ExampleTree(a, b, c, "b")) == Ok([])
    ensures FetchChildren(ExampleTree(a, b, c, "c")) == Ok([])
  {
    assert "b" != "r" && "b" != "a" && "c" != "r" && "c" != "a" by {
      assert "b"[0] != "r"[0] && "b"[0] != "a"[0] && "c"[0] != "r"[0] && "c"[0] != "a"[0];
    }
    FetchLastPage([a, b]);
    FetchLastPage([c]);
    FetchLastPage([]);
  }

  /** The root's children are adopted in page order, each pushed on the stack. */
  lemma ExampleRootAdopted(a: Block, b: Block, maxBlocks: int)
    requires a.blockId == "a" && b.blockId == "b" && maxBlocks >= 2
    ensures AdoptFrom([a, b], 0, maxBlocks, Traversal([], [], {})) == Traversal(["a", "b"], [a, b], {"a", "b"})
  {
    assert "b" != "a" by { assert "b"[0] != "a"[0]; }
    var t0 := Traversal([], [], {});
    var ta := Traversal(["a"], [a], {"a"});
    var t1 := Traversal(["a", "b"], [a, b], {"a", "b"});
    assert t0.stack + [a.blockId] == ta.stack && t0.blocks + [a] == ta.blocks && t0.visited + {"a"} == ta.visited;
    assert ta.stack + [b.blockId] == t1.stack && ta.blocks + [b] == t1.blocks && ta.visited + {"b"} == t1.visited;
    assert AdoptFrom([a, b], 2, maxBlocks, t1) == t1;
    assert AdoptFrom([a, b], 1, maxBlocks, ta) == t1;
  }

  /** The walk on `ExampleTree` with a cap of two: the root's two children fill it,
      and "a" is never explored. */
  lemma CollectFromExampleCapped(a: Block, b: Block, c: Block)
    requires a.blockId == "a" && b.blockId == "b" && c.blockId == "c"
    ensures CollectFrom(p => ExampleTree(a, b, c, p), 2, Start("r")) == Ok([a, b])
  {
    var api := p => ExampleTree(a, b, c, p);
    ExampleFetches(a, b, c);
    assert FetchChildren(api("r")) == Ok([a, b]);
    ExampleRootAdopted(a, b, 2);
    assert Start("r").stack[..0] == [];
  }

  /** The walk on `ExampleTree` below the cap: "b" is pushed last and so explored
      first, which leaves "c", found under "a", for the end. */
  lemma CollectFromExampleOrder(a: Block, b: Block, c: Block)
    requires a.blockId == "a" && b.blockId == "b" && c.blockId == "c"
    ensures CollectFrom(p => ExampleTree(a, b, c, p), 3, Start("r")) == Ok([a, b, c])
  {
    var api := p => ExampleTree(a, b, c, p);
    ExampleFetches(a, b, c);
    assert FetchChildren(api("r")) == Ok([a, b]);
    ExampleRootAdopted(a, b, 3);
    assert Start("r").stack[..0] == [];
    ExampleAfterRoot(api, a, b, c);
  }

  /** The rest of that walk, once the root's children are on the stack. */
  lemma ExampleAfterRoot(api: ChildrenApi, a: Block, b: Block, c: Block)
    requires a.blockId == "a" && b.blockId == "b" && c.blockId == "c"
    requires FetchChildren(api("b")) == Ok([]) && FetchChildren(api("a")) == Ok([c])
    ensures CollectFrom(api, 3, Traversal(["a", "b"], [a, b], {"a", "b"})) == Ok([a, b, c])
  {
    var t1 := Traversal(["a", "b"], [a, b], {"a", "b"});
    var t2 := Traversal(["a"], [a, b], {"a", "b"});
    assert t1.stack[..1] == t2.stack;
    assert AdoptFrom([], 0, 3, t2) == t2;
    assert CollectFrom(api, 3, t1) == CollectFrom(api, 3, t2);
    ExampleUnderA(api, a, b, c);
  }

  /** The last step of that walk: "a" is popped and its child `c` collected. */
  lemma ExampleUnderA(api: ChildrenApi, a: Block, b: Block, c: Block)
    requires a.blockId == "a" && b.blockId == "b" && c.blockId == "c"
    requires FetchChildren(api("a")) == Ok([c])
    ensures CollectFrom(api, 3, Traversal(["a"], [a, b], {"a", "b"})) == Ok([a, b, c])
  {
    var t2 := Traversal(["a"], [a, b], {"a", "b"});
    var t2' := Traversal([], [a, b], {"a", "b"});
    assert t2.stack[..0] == t2'.stack;
    var t3 := Traversal(["c"], [a, b, c], {"a", "b", "c"});
    assert "c" !in t2'.visited by { assert "c"[0] != "a"[0] && "c"[0] != "b"[0]; }
    assert t2'.stack + [c.blockId] == t3.stack && t2'.blocks + [c] == t3.blocks && t2'.visited + {"c"} == t3.visited;
    assert AdoptFrom([c], 0, 3, t2') == t3;
  }

  /** The inner loop of `_collect_document_blocks` over the children of one popped
      parent: each child with a fresh non-empty id is marked visited, collected and
      pushed; the loop stops as soon as `maxBlocks` blocks are collected. */
  method AdoptChildren(maxBlocks: int, children: seq<Block>, stack0: seq<string>, blocks0: seq<Block>, visited0: set<string>)
    returns (stack: seq<string>, blocks: seq<Block>, visited: set<string>)
    ensures Traversal(stack, blocks, visited) == AdoptFrom(children, 0, maxBlocks, Traversal(stack0, blocks0, visited0))
  {
    stack, blocks, visited := stack0, blocks0, visited0;
    var k := 0;
    while k < |children|
      invariant 0 <= k <= |children|
      invariant AdoptFrom(children, k, maxBlocks, Traversal(stack, blocks, visited))
             == AdoptFrom(children, 0, maxBlocks, Traversal(stack0, blocks0, visited0))
      decreases |children| - k
    {
      var block := children[k];
      var bid := block.blockId;
      if bid != "" && bid !in visited {
        visited := visited + {bid};
        blocks := blocks + [block];
        stack := stack + [bid];
        if |blocks| >= maxBlocks {
          return;
        }
      }
      k := k + 1;
    }
  }

  /** `_collect_document_blocks`: depth-first traversal from the document id with an
      explicit stack and a visited set, stopping as soon as `maxBlocks` blocks are
      collected, even in the middle of a parent's children. */
  method CollectDocumentBlocks(api: ChildrenApi, documentId: string, maxBlocks: int)
    returns (r: Result<seq<Block>>)
    ensures r == CollectFrom(api, maxBlocks, Start(documentId))
    ensures r.Ok? ==> Collected(api, documentId, maxBlocks, r.value)
    ensures r.Err? ==> FailsAt(api, documentId, r.error)
  {
    var stack := [documentId];
    var blocks: seq<Block> := [];
    var visited: set<string> := {};
    CollectFromStart(api, documentId, maxBlocks);
    while stack != [] && |blocks| < maxBlocks
      invariant CollectFrom(api, maxBlocks, Traversal(stack, blocks, visited)) == CollectFrom(api, maxBlocks, Start(documentId))
      decreases maxBlocks - |blocks|, |stack|
    {
      var parentId := stack[|stack| - 1];
      stack := stack[..|stack| - 1];
      var fetched, _ := GetBlockChildren(api(parentId));
      if fetched.Err? {
        return Err(fetched.error);
      }
      stack, blocks, visited := AdoptChildren(maxBlocks, fetched.value, stack, blocks, visited);
    }
    r := Ok(blocks);
  }
}
