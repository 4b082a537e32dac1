/** The steps an allocation and a free are made of, on lists, trees and pages. */
module AllocSteps {
  import opened Words
  import opened SizeTree
  import opened BufferList
  import opened PageMemory
  import opened PageRange
  import opened PagedCopy
  import opened Allocator
  import opened AllocTrees

  /** The position of the buffer that starts at `a`; stands for following a buffer pointer. */
  method Locate(list: seq<Buffer>, total: nat, a: nat, free: bool) returns (i: nat)
    requires Tiles(list, total) && a in Addresses(list, free)
    ensures i < |list| && Start(list, i) == a && list[i].free == free
  {
    i := 0;
    ghost var k := FreeMember(list, free, a);
    while Start(list, i) != a
      invariant i <= k
      decreases k - i
    {
      i := i + 1;
    }
    SameStart(list, total, i, k);
  }

  /** Pages after an allocation took the range of buffer i. */
  lemma AccountedCarve(list: seq<Buffer>, total: nat, ps: seq<Page>, ps': seq<Page>, i: nat, size: nat, rq: Request)
    requires Tiles(list, total) && NoFreePair(list) && Accounted(list, total, ps) && |ps'| == |ps|
    requires i < |list| && list[i].free && 0 < size <= Size(list, total, i)
    requires forall p :: 0 <= p < |ps| ==>
               ps'[p] == if TakenPage(list, total, i, size, p) then Woken(ps[p]) else ps[p]
    ensures Accounted(Carve(list, total, i, size, rq), total, ps')
  {
    forall p | 0 <= p < |ps|
      ensures (Active(ps'[p]) <==> Used(Carve(list, total, i, size, rq), total, p))
              && |ps'[p].bytes| == PAGE && (ps'[p].lru ==> ps'[p].present)
    {
      CarveUses(list, total, i, size, rq, p);
    }
  }

  lemma SplitOrder(pre: seq<nat>, l: seq<nat>, b: nat, r: seq<nat>, post: seq<nat>)
    ensures pre + (l + [b] + r) + post == pre + l + ([b] + r + post)
    ensures pre + (l + [b] + r) + post == (pre + l + [b]) + r + post
    ensures (pre + (l + [b] + r) + post)[|pre| + |l|] == b
  {
  }

  /** An order that reads `pre`, all smaller than the request, then `post`, is best served by post's head. */
  lemma HeadIsBest(t: Tree, keys: Keys, members: set<nat>, want: nat, pre: seq<nat>, post: seq<nat>)
    requires Ordered(t, keys, members) && InOrder(t) == pre + post && post != []
    requires forall i :: 0 <= i < |pre| ==> keys[InOrder(t)[i]] < want
    requires keys[InOrder(t)[|pre|]] >= want
    ensures BestFit(t, keys, want, post[0]) && post[0] in members
  {
    assert InOrder(t)[|pre|] == post[0];
  }

  lemma AllTooSmall(t: Tree, keys: Keys, members: set<nat>, want: nat)
    requires Ordered(t, keys, members)
    requires forall i :: 0 <= i < |InOrder(t)| ==> keys[InOrder(t)[i]] < want
    ensures forall x :: x in members ==> x in keys && keys[x] < want
  {
  }

  lemma HitIsBest(t: Tree, keys: Keys, members: set<nat>, want: nat, k: nat)
    requires Ordered(t, keys, members) && k < |InOrder(t)| && keys[InOrder(t)[k]] == want
    ensures BestFit(t, keys, want, InOrder(t)[k]) && InOrder(t)[k] in members
  {
  }

  /** Loop invariant of the descent: what was passed on the left is too small, the last node passed
      on the right is the best so far and everything right of it is at least as large. */
  ghost predicate Descent(s: seq<nat>, keys: Keys, want: nat, n: Tree, pre: seq<nat>, post: seq<nat>, best: Option<nat>)
    requires Keyed(s, keys)
  {
    && s == pre + InOrder(n) + post
    && (forall i :: 0 <= i < |pre| ==> keys[s[i]] < want)
    && (post == [] <==> best.None?)
    && (best.Some? ==> best.value == post[0] && keys[s[|pre| + |InOrder(n)|]] >= want)
  }

  lemma DescendLeft(s: seq<nat>, keys: Keys, want: nat, n: Tree, pre: seq<nat>, post: seq<nat>, best: Option<nat>)
    requires Keyed(s, keys) && n.Node? && n.at in keys && want < keys[n.at]
    requires Descent(s, keys, want, n, pre, post, best)
    ensures Descent(s, keys, want, n.left, pre, [n.at] + InOrder(n.right) + post, Some(n.at))
  {
    SplitOrder(pre, InOrder(n.left), n.at, InOrder(n.right), post);
  }

  lemma DescendRight(s: seq<nat>, keys: Keys, want: nat, n: Tree, pre: seq<nat>, post: seq<nat>, best: Option<nat>)
    requires Keyed(s, keys) && Sorted(s, keys) && n.Node? && n.at in keys && want > keys[n.at]
    requires Descent(s, keys, want, n, pre, post, best)
    ensures Descent(s, keys, want, n.right, pre + InOrder(n.left) + [n.at], post, best)
  {
    SplitOrder(pre, InOrder(n.left), n.at, InOrder(n.right), post);
    var k := |pre| + |InOrder(n.left)|;
    forall i | 0 <= i < k ensures keys[s[i]] < want { assert keys[s[i]] <= keys[s[k]]; }
  }

  lemma DescendHit(s: seq<nat>, keys: Keys, want: nat, n: Tree, pre: seq<nat>, post: seq<nat>, best: Option<nat>) returns (k: nat)
    requires Keyed(s, keys) && n.Node? && Descent(s, keys, want, n, pre, post, best)
    ensures k < |s| && s[k] == n.at && n.at in keys
  {
    SplitOrder(pre, InOrder(n.left), n.at, InOrder(n.right), post);
    k := |pre| + |InOrder(n.left)|;
  }

  lemma DescendEnd(t: Tree, keys: Keys, members: set<nat>, want: nat, pre: seq<nat>, post: seq<nat>, best: Option<nat>)
    requires Ordered(t, keys, members) && Descent(InOrder(t), keys, want, Leaf, pre, post, best)
    ensures best.Some? ==> BestFit(t, keys, want, best.value) && best.value in members
    ensures best.None? ==> forall x :: x in members ==> x in keys && keys[x] < want
  {
    assert InOrder(t) == pre + post;
    if best.Some? { HeadIsBest(t, keys, members, want, pre, post); } else { AllTooSmall(t, keys, members, want); }
  }

  /** The best-fit descent of binder_alloc_new_buf_locked. */
  method BestFitSearch(t: Tree, keys: Keys, want: nat, ghost members: set<nat>) returns (best: Option<nat>)
    requires Ordered(t, keys, members)
    ensures Keyed(InOrder(t), keys)
    ensures best.Some? ==> BestFit(t, keys, want, best.value) && best.value in members
    ensures best.None? ==> forall x :: x in members ==> x in keys && keys[x] < want
  {
    hide *;
    var n := t;
    best := None;
    ghost var pre, post: seq<nat> := [], [];
    ghost var s := InOrder(t);
    DescentStart(t, keys, members, want);
    while n.Node?
      invariant Descent(s, keys, want, n, pre, post, best)
      decreases n
    {
      ghost var k := DescendHit(s, keys, want, n, pre, post, best);
      if want < keys[n.at] {
        DescendLeft(s, keys, want, n, pre, post, best);
        best := Some(n.at);
        post := [n.at] + InOrder(n.right) + post;
        n := n.left;
      } else if want > keys[n.at] {
        DescendRight(s, keys, want, n, pre, post, best);
        pre := pre + InOrder(n.left) + [n.at];
        n := n.right;
      } else {
        HitIsBest(t, keys, members, want, k);
        return Some(n.at);
      }
    }
    DescendEnd(t, keys, members, want, pre, post, best);
  }

  lemma DescentStart(t: Tree, keys: Keys, members: set<nat>, want: nat)
    requires Ordered(t, keys, members)
    ensures Keyed(InOrder(t), keys) && Sorted(InOrder(t), keys)
    ensures Descent(InOrder(t), keys, want, t, [], [], None)
  {
    assert InOrder(t) == [] + InOrder(t) + [];
  }

  lemma StructureParts(list: seq<Buffer>, total: nat, freeTree: Tree, allocTree: Tree)
    requires Structure(list, total, freeTree, allocTree)
    ensures Tiles(list, total) && NoFreePair(list) && Exact(list, total)
    ensures Ordered(freeTree, SizeKeys(list, total), Addresses(list, true))
    ensures Ordered(allocTree, AddressKeys(list), Addresses(list, false))
  {
  }

  lemma NoneLargeEnough(list: seq<Buffer>, total: nat, want: nat)
    requires Tiles(list, total)
    requires forall x :: x in Addresses(list, true) ==> x in SizeKeys(list, total) && SizeKeys(list, total)[x] < want
    ensures forall i: nat :: !Fits(list, total, i, want)
  {
    forall i: nat ensures !Fits(list, total, i, want) {
      if i < |list| && list[i].free {
        assert Start(list, i) in Addresses(list, true);
        assert SizeKeys(list, total)[Start(list, i)] == Size(list, total, i);
      }
    }
  }

  lemma IdlePages(list: seq<Buffer>, total: nat, ps: seq<Page>, i: nat, size: nat)
    requires Tiles(list, total) && Accounted(list, total, ps)
    requires i < |list| && list[i].free && 0 < size <= Size(list, total, i)
    ensures WellFormed(ps)
    ensures forall p :: 0 <= p < |ps| && TakenPage(list, total, i, size, p) ==> !Active(ps[p])
  {
    forall p | 0 <= p < |ps| && TakenPage(list, total, i, size, p) ensures !Active(ps[p]) {
      TakenUnused(list, total, i, size, p);
    }
  }

  /** Pages that stayed idle leave the accounting as it was. */
  lemma AccountedIdle(list: seq<Buffer>, total: nat, ps: seq<Page>, ps': seq<Page>, start: nat, end: nat)
    requires Accounted(list, total, ps) && |ps'| == |ps|
    requires forall p :: 0 <= p < |ps| && InRange(start, end, p) ==> !Active(ps[p]) && StillIdle(ps[p], ps'[p])
    requires forall p :: 0 <= p < |ps| && !InRange(start, end, p) ==> ps'[p] == ps[p]
    ensures Accounted(list, total, ps')
  {
  }

  /** The page range that a request of `size` bytes at the start of buffer i takes, as the code bounds it. */
  function RangeStart(list: seq<Buffer>, i: nat): nat
    requires i < |list|
  {
    PageUp(Start(list, i))
  }

  function RangeEnd(list: seq<Buffer>, total: nat, i: nat, size: nat): nat
    requires Tiles(list, total) && i < |list|
  {
    Min(PageUp(Start(list, i) + size), PageDown(Start(list, i) + Size(list, total, i)))
  }

  lemma RangeFacts(list: seq<Buffer>, total: nat, i: nat, size: nat)
    requires Tiles(list, total) && i < |list|
    ensures RangeStart(list, i) % PAGE == 0 && RangeEnd(list, total, i, size) % PAGE == 0
    ensures RangeEnd(list, total, i, size) <= total
    ensures forall p: nat :: TakenPage(list, total, i, size, p) <==> InRange(RangeStart(list, i), RangeEnd(list, total, i, size), p)
  {
    Apart(list, total, i, i);
    PageBounds(Start(list, i)); PageBounds(Start(list, i) + size); PageBounds(Start(list, i) + Size(list, total, i));
  }

  ghost predicate ActiveKept(ps: seq<Page>, ps': seq<Page>) {
    |ps'| == |ps| && forall p :: 0 <= p < |ps| && Active(ps[p]) ==> ps'[p] == ps[p]
  }

  lemma TakenKeepsActive(list: seq<Buffer>, total: nat, ps: seq<Page>, ps': seq<Page>, start: nat, end: nat)
    requires |ps'| == |ps|
    requires forall p :: 0 <= p < |ps| && InRange(start, end, p) ==> !Active(ps[p])
    requires forall p :: 0 <= p < |ps| && !InRange(start, end, p) ==> ps'[p] == ps[p]
    ensures ActiveKept(ps, ps')
  {
  }

  /** Takes the pages of the carved buffer, or none. */
  /** Some page that the request needs is absent and cannot be had. */
  ghost predicate NoPageFor(list: seq<Buffer>, total: nat, ps: seq<Page>, i: nat, size: nat, mapped: bool, noPage: set<nat>, noMap: set<nat>)
    requires i < |list|
  {
    exists p :: 0 <= p < |ps| && TakenPage(list, total, i, size, p) && !ps[p].present && (!mapped || p in noPage || p in noMap)
  }

  /** Why a request that fits buffer i may still fail: a page, or the memory to describe what is left of the buffer. */
  ghost predicate Blocked(list: seq<Buffer>, total: nat, ps: seq<Page>, i: nat, size: nat, mapped: bool, noPage: set<nat>, noMap: set<nat>, structOk: bool)
    requires Tiles(list, total) && i < |list|
  {
    NoPageFor(list, total, ps, i, size, mapped, noPage, noMap) || (size != Size(list, total, i) && !structOk)
  }

  /** Pages that were there keep their bytes, and a page that is new is zero. */
  ghost predicate PagesReady(ps: seq<Page>, ps': seq<Page>) {
    |ps'| == |ps| && forall p :: 0 <= p < |ps| && ps'[p].present ==> ps'[p].bytes == if ps[p].present then ps[p].bytes else Zeroes(PAGE)
  }

  lemma WokenReady(ps: seq<Page>, ps': seq<Page>)
    requires |ps'| == |ps| && forall p :: 0 <= p < |ps| ==> ps'[p] == ps[p] || ps'[p] == Woken(ps[p])
    ensures PagesReady(ps, ps')
  {
  }

  lemma NoPageIff(list: seq<Buffer>, total: nat, ps: seq<Page>, i: nat, size: nat, mapped: bool, noPage: set<nat>, noMap: set<nat>)
    requires Tiles(list, total) && i < |list| && 0 < size <= Size(list, total, i) && |ps| * PAGE == total
    ensures CannotTake(ps, RangeStart(list, i), RangeEnd(list, total, i, size), mapped, noPage, noMap)
            <==> NoPageFor(list, total, ps, i, size, mapped, noPage, noMap)
  {
    RangeFacts(list, total, i, size);
    hide Tiles, TakenPage, RangeStart, RangeEnd;
  }

  method TakePages(pages: array<Page>, list: seq<Buffer>, total: nat, i: nat, size: nat,
                   vma: bool, mm: bool, noPage: set<nat>, noMap: set<nat>) returns (r: Result<()>, warned: bool)
    requires Tiles(list, total) && Accounted(list, total, pages[..])
    requires i < |list| && list[i].free && 0 < size <= Size(list, total, i)
    modifies pages
    ensures !warned && ActiveKept(old(pages[..]), pages[..])
    ensures r.Ok? ==> forall p :: 0 <= p < pages.Length ==>
              pages[p] == if TakenPage(list, total, i, size, p) then Woken(old(pages[p])) else old(pages[p])
    ensures r.Err? ==> Accounted(list, total, pages[..]) && r.error == if vma && mm then ENOMEM else ESRCH
    ensures r.Err? <==> NoPageFor(list, total, old(pages[..]), i, size, vma && mm, noPage, noMap)
  {
    hide Tiles, Accounted, TakenPage, RangeStart, RangeEnd, Active, StillIdle, WellFormed, Woken, NoPageFor, CannotTake;
    ghost var ps := pages[..];
    AccountedLength(list, total, ps);
    NoPageIff(list, total, ps, i, size, vma && mm, noPage, noMap);
    RangeFacts(list, total, i, size);
    IdlePages(list, total, ps, i, size);
    var start, end := RangeStart(list, i), RangeEnd(list, total, i, size);
    r, warned := TakeRange(pages, start, end, vma, mm, noPage, noMap);
    TakenKeepsActive(list, total, ps, pages[..], start, end);
    if r.Err? {
      AccountedIdle(list, total, ps, pages[..], start, end);
    }
  }

  lemma UpToLast(start: nat, end: nat)
    requires end % PAGE == 0 && start < end
    ensures forall p: nat :: InRange(start, end, p) <==> start <= p * PAGE <= end - PAGE
  {
    forall p: nat ensures p * PAGE < end <==> p * PAGE <= end - PAGE {
    }
  }

  /** Puts pages just taken for a carve back on the LRU list (err_alloc_buf_struct_failed). */
  method UntakePages(pages: array<Page>, list: seq<Buffer>, total: nat, i: nat, size: nat, ghost ps: seq<Page>) returns (warned: bool)
    requires Tiles(list, total) && Accounted(list, total, ps) && pages.Length == |ps|
    requires i < |list| && list[i].free && 0 < size <= Size(list, total, i)
    requires forall p :: 0 <= p < pages.Length ==>
              pages[p] == if TakenPage(list, total, i, size, p) then Woken(ps[p]) else ps[p]
    modifies pages
    ensures !warned && ActiveKept(ps, pages[..]) && Accounted(list, total, pages[..])
  {
    hide Tiles, Accounted, TakenPage, RangeStart, RangeEnd, StillIdle, ActiveKept, InRange;
    warned := false;
    ghost var ps' := pages[..];
    AccountedLength(list, total, ps);
    RangeFacts(list, total, i, size);
    IdlePages(list, total, ps, i, size);
    var start, end := RangeStart(list, i), RangeEnd(list, total, i, size);
    if start < end {
      UpToLast(start, end);
      warned := GiveRange(pages, start, end - PAGE);
      RolledBack(ps, ps', pages[..], start, end);
    } else {
      EmptyRange(start, end);
    }
    TakenKeepsActive(list, total, ps, pages[..], start, end);
    AccountedIdle(list, total, ps, pages[..], start, end);
  }

  lemma EmptyRange(start: nat, end: nat)
    requires end <= start
    ensures forall p: nat :: !InRange(start, end, p)
  {
  }

  /** Page work of an allocation: the carved buffer's pages are in use afterwards, or the accounting is as before. */
  method ReservePages(pages: array<Page>, list: seq<Buffer>, total: nat, i: nat, size: nat, ghost rq: Request,
                      vma: bool, mm: bool, noPage: set<nat>, noMap: set<nat>, structOk: bool) returns (r: Result<()>, warned: bool)
    requires Tiles(list, total) && NoFreePair(list) && Accounted(list, total, pages[..])
    requires i < |list| && list[i].free && 0 < size <= Size(list, total, i)
    modifies pages
    ensures !warned && ActiveKept(old(pages[..]), pages[..])
    ensures r.Ok? ==> Accounted(Carve(list, total, i, size, rq), total, pages[..])
    ensures r.Err? ==> Accounted(list, total, pages[..])
                       && r.error == if (vma && mm) || !NoPageFor(list, total, old(pages[..]), i, size, vma && mm, noPage, noMap) then ENOMEM else ESRCH
    ensures r.Err? <==> Blocked(list, total, old(pages[..]), i, size, vma && mm, noPage, noMap, structOk)
    ensures r.Ok? ==> PagesReady(old(pages[..]), pages[..])
  {
    hide Tiles, Accounted, TakenPage, Active, StillIdle, WellFormed, Woken, ActiveKept, Carve, NoFreePair, NoPageFor, PagesReady;
    ghost var ps := pages[..];
    r, warned := TakePages(pages, list, total, i, size, vma, mm, noPage, noMap);
    if r.Err? { return; }
    if Size(list, total, i) != size && !structOk {
      warned := UntakePages(pages, list, total, i, size, ps);
      return Err(ENOMEM), warned;
    }
    AccountedCarve(list, total, ps, pages[..], i, size, rq);
    WokenReady(ps, pages[..]);
  }

  /** The list while the remainder is already linked in and the chosen buffer is still free. */
  function WithRest(list: seq<Buffer>, i: nat, rest: nat): seq<Buffer>
    requires i < |list|
  {
    list[..i + 1] + [FreshFree(rest)] + list[i + 1..]
  }

  lemma WithRestIsCarve(list: seq<Buffer>, total: nat, i: nat, size: nat, rq: Request)
    requires Tiles(list, total) && i < |list| && 0 < size < Size(list, total, i)
    requires Tiles(Carve(list, total, i, size, rq), total)
    ensures var mid := WithRest(list, i, Start(list, i) + size);
            && i < |mid| && mid[i] == list[i]
            && mid[i := Taken(mid[i], rq)] == Carve(list, total, i, size, rq)
            && Tiles(mid, total) && SizeKeys(mid, total) == SizeKeys(Carve(list, total, i, size, rq), total)
  {
    var mid, list' := WithRest(list, i, Start(list, i) + size), Carve(list, total, i, size, rq);
    assert mid[i := Taken(mid[i], rq)] == list';
    assert SameStarts(list', mid);
    SameTiles(list', mid, total);
    SameSizeKeys(list', mid, total);
  }

  /** List, trees, pages and budget after the carve, put together. */
  lemma CarveStructure(list: seq<Buffer>, total: nat, i: nat, rq: Request)
    requires Tiles(list, total) && NoFreePair(list) && Exact(list, total)
    requires WordSized(rq) && Fits(list, total, i, Extent(rq))
    ensures var list' := Carve(list, total, i, Extent(rq), rq);
            Tiles(list', total) && NoFreePair(list') && Exact(list', total)
  {
    hide *;
    FitsParts(list, total, i, Extent(rq));
    ExtentPositive(rq);
    CarveTiles(list, total, i, Extent(rq), rq);
    ExactCarve(list, total, i, rq);
  }

  lemma MakeStructure(list: seq<Buffer>, total: nat, freeTree: Tree, allocTree: Tree)
    requires Tiles(list, total) && NoFreePair(list) && Exact(list, total)
    requires Ordered(freeTree, SizeKeys(list, total), Addresses(list, true))
    requires Ordered(allocTree, AddressKeys(list), Addresses(list, false))
    ensures Structure(list, total, freeTree, allocTree)
  {
  }

  /** The free tree's part of an allocation: the remainder is linked in and inserted while the
      chosen buffer, already shrunk, is still in the free tree; then the chosen buffer is erased. */
  method CarveFree(list: seq<Buffer>, total: nat, freeTree: Tree, i: nat, size: nat, ghost rq: Request)
    returns (list': seq<Buffer>, freeTree': Tree)
    requires Tiles(list, total) && i < |list| && list[i].free && 0 < size <= Size(list, total, i)
    requires Ordered(freeTree, SizeKeys(list, total), Addresses(list, true)) && Keyed(InOrder(freeTree), SizeKeys(list, total))
    requires BestFit(freeTree, SizeKeys(list, total), size, Start(list, i))
    requires Tiles(Carve(list, total, i, size, rq), total)
    ensures i < |list'| && list'[i] == list[i] && list'[i := Taken(list[i], rq)] == Carve(list, total, i, size, rq)
    ensures Ordered(freeTree', SizeKeys(Carve(list, total, i, size, rq), total), Addresses(Carve(list, total, i, size, rq), true))
  {
    hide *;
    var start := Start(list, i);
    list', freeTree' := list, freeTree;
    if Size(list, total, i) != size {
      FreeTreeSplit(list, total, freeTree, i, size, rq);
      WithRestIsCarve(list, total, i, size, rq);
      list' := WithRest(list', i, start + size);
      freeTree' := Insert(freeTree', start + size, SizeKeys(list', total));
    } else {
      FreeTreeTaken(list, total, freeTree, i, size, rq);
      ExactIsCarve(list, total, i, rq);
    }
    freeTree' := Erase(freeTree', start);
  }

  /** The list and tree part of an allocation. */
  method CarveTrees(list: seq<Buffer>, total: nat, freeTree: Tree, allocTree: Tree, i: nat, rq: Request)
    returns (list': seq<Buffer>, freeTree': Tree, allocTree': Tree)
    requires Structure(list, total, freeTree, allocTree)
    requires WordSized(rq) && Fits(list, total, i, Extent(rq)) && Keyed(InOrder(freeTree), SizeKeys(list, total))
    requires BestFit(freeTree, SizeKeys(list, total), Extent(rq), Start(list, i))
    ensures list' == Carve(list, total, i, Extent(rq), rq)
    ensures Structure(list', total, freeTree', allocTree')
  {
    hide *;
    StructureParts(list, total, freeTree, allocTree);
    FitsParts(list, total, i, Extent(rq));
    ExtentPositive(rq);
    CarveStructure(list, total, i, rq);
    list', freeTree' := CarveFree(list, total, freeTree, i, Extent(rq), rq);
    list' := list'[i := Taken(list'[i], rq)];
    AllocTreeCarved(list, total, allocTree, i, Extent(rq), rq);
    allocTree' := Insert(allocTree, Start(list, i), AddressKeys(list'));
    MakeStructure(list', total, freeTree', allocTree');
  }

  lemma TookChosen(list: seq<Buffer>, total: nat, i: nat, size: nat, rq: Request)
    requires Tiles(list, total) && Chosen(list, total, i, size)
    ensures TookFree(list, Carve(list, total, i, size, rq), Start(list, i), rq)
  {
    hide Tiles, Carve;
    CarveLive(list, total, i, size, rq);
    assert list[i] in list;
  }

  lemma TookExactly(list: seq<Buffer>, list': seq<Buffer>, total: nat, freeTree: Tree, allocTree: Tree, a: nat, rq: Request)
    requires Tiles(list, total) && Structure(list', total, freeTree, allocTree) && TookFree(list, list', a, rq)
    ensures exists b :: b in list' && b.start == a
    ensures forall b :: b in list' && b.start == a ==> !b.free && !b.userFree && b.rq == rq
    ensures forall b :: b in list' && !b.free && b.start != a <==> b in list && !b.free
  {
    hide Tiles, TookFree;
    StructureParts(list', total, freeTree, allocTree);
    TookOne(list, list', total, a, rq);
  }

  /** Changing the flags of a buffer and then freeing it takes that buffer away. */
  lemma FlagLive(list: seq<Buffer>, total: nat, freeTree: Tree, allocTree: Tree, i: nat, b: Buffer)
    requires Structure(list, total, freeTree, allocTree) && i < |list| && !list[i].free && b.start == list[i].start
    ensures Live(Released(list[i := b], i)) == Live(list) - {list[i]}
  {
    var mid := list[i := b];
    assert SameStarts(list, mid);
    hide *;
    StructureParts(list, total, freeTree, allocTree);
    SameTiles(list, mid, total);
    ReleasedLive(mid, total, i);
    MarkLive(mid, total, i);
    MarkLive(list, total, i);
    LiveWithout(list, i, b);
  }

  lemma LiveWithout(list: seq<Buffer>, i: nat, b: Buffer)
    requires i < |list| && Live(MarkFree(list, i)) == Live(list) - {list[i]} && Live(MarkFree(list[i := b], i)) == Live(list[i := b]) - {b}
    ensures Live(list[i := b]) - {b} == Live(list) - {list[i]}
  {
    var l1, l2 := MarkFree(list, i), MarkFree(list[i := b], i);
    forall x ensures x in Live(l1) <==> x in Live(l2) {
      if x in l1 && !x.free { var k :| 0 <= k < |l1| && l1[k] == x; assert l2[k] == x; }
      if x in l2 && !x.free { var k :| 0 <= k < |l2| && l2[k] == x; assert l1[k] == x; }
    }
  }

  lemma ChosenParts(list: seq<Buffer>, total: nat, i: nat, n: nat)
    requires Tiles(list, total) && Chosen(list, total, i, n)
    ensures Fits(list, total, i, n) && i < |list| && list[i].free && n <= Size(list, total, i)
  {
  }

  lemma FitsParts(list: seq<Buffer>, total: nat, i: nat, n: nat)
    requires Tiles(list, total) && Fits(list, total, i, n)
    ensures i < |list| && list[i].free && n <= Size(list, total, i)
  {
  }

  /** The async budget: as long as no 0-size async buffer was seen, what is free and what live async
      buffers hold add up to half the region; in general the 0-size losses and the wraps show. */
  ghost predicate Budget(freeAsync: nat, list: seq<Buffer>, unit: nat, zeroFreed: nat, wraps: int, zeroSeen: bool, total: nat) {
    && Balanced(freeAsync, Charges(list, unit), zeroFreed, wraps, total)
    && (!zeroSeen ==> zeroFreed == 0 && wraps == 0 && NoZeroAsync(list))
  }

  function AsyncAfter(freeAsync: nat, rq: Request, unit: nat): nat {
    if rq.async then WSub(freeAsync, Extent(rq) + unit) else freeAsync
  }

  lemma BudgetCarve(freeAsync: nat, list: seq<Buffer>, unit: nat, zeroFreed: nat, wraps: int, zeroSeen: bool, total: nat, i: nat, rq: Request)
    requires Tiles(list, total) && Fits(list, total, i, Extent(rq))
    requires Budget(freeAsync, list, unit, zeroFreed, wraps, zeroSeen, total) && unit < WORD
    requires rq.async ==> freeAsync >= Demand(rq) + unit
    ensures var wraps' := if rq.async && freeAsync < Extent(rq) + unit then wraps + 1 else wraps;
            Budget(AsyncAfter(freeAsync, rq, unit), Carve(list, total, i, Extent(rq), rq), unit, zeroFreed, wraps',
                   zeroSeen || (rq.async && Demand(rq) == 0), total)
  {
    hide Tiles, Charges, Carve, NoZeroAsync, Size;
    ExtentPositive(rq);
    ChargesCarve(list, total, i, Extent(rq), rq, unit);
    if rq.async { AsyncWrapIff(freeAsync, rq, unit); }
    if !zeroSeen && (rq.async ==> Demand(rq) > 0) { NoZeroCarve(list, total, i, Extent(rq), rq); }
  }

  ghost predicate NoZeroAsync(list: seq<Buffer>) {
    forall i :: 0 <= i < |list| && !list[i].free && list[i].rq.async ==> Demand(list[i].rq) > 0
  }

  lemma NoZeroCarve(list: seq<Buffer>, total: nat, i: nat, size: nat, rq: Request)
    requires Tiles(list, total) && i < |list| && NoZeroAsync(list) && 0 < size <= Size(list, total, i)
    requires rq.async ==> Demand(rq) > 0
    ensures NoZeroAsync(Carve(list, total, i, size, rq))
  {
    CarveShape(list, total, i, size, rq, i);
    forall k | 0 <= k < |Carve(list, total, i, size, rq)| {
      CarveShape(list, total, i, size, rq, k);
    }
  }

  // ---- Pages across a free ----

  function Parked(pg: Page): Page {
    pg.(lru := true)
  }

  /** The three page moves of a free, one predicate each. */
  ghost predicate InsidePage(list: seq<Buffer>, total: nat, i: nat, p: nat)
    requires i < |list|
  {
    PageUp(Start(list, i)) <= p * PAGE < PageDown(End(list, total, i))
  }

  ghost predicate EndPage(list: seq<Buffer>, i: nat, p: nat)
    requires i < |list|
  {
    MergesNext(list, i) && StartPageLoose(MarkFree(list, i), i + 1) && p * PAGE == PageDown(Start(MarkFree(list, i), i + 1))
  }

  ghost predicate StartPage(list: seq<Buffer>, i: nat, p: nat)
    requires i < |list|
  {
    MergesPrev(list, i) && StartPageLoose(AfterNext(list, i), i) && p * PAGE == PageDown(Start(AfterNext(list, i), i))
  }

  ghost predicate Parks(ps: seq<Page>, ps': seq<Page>, p: nat, moved: bool)
    requires p < |ps| && |ps'| == |ps|
  {
    ps'[p] == if moved then Parked(ps[p]) else ps[p]
  }

  /** The three moves are disjoint and together give back exactly the pages the free must give back. */
  lemma MovesAreGiven(list: seq<Buffer>, total: nat, i: nat, p: nat)
    requires Tiles(list, total) && i < |list|
    ensures GivenPage(list, total, i, p) <==> InsidePage(list, total, i, p) || EndPage(list, i, p) || StartPage(list, i, p)
    ensures !(InsidePage(list, total, i, p) && EndPage(list, i, p))
    ensures !(InsidePage(list, total, i, p) && StartPage(list, i, p))
    ensures !(EndPage(list, i, p) && StartPage(list, i, p))
  {
    var s: int := Start(list, i);
    AfterNextShape(list, total, i, i);
    PageCompare(s, p); PageCompare(End(list, total, i), p);
    if i + 1 < |list| {
      LooseMarked(list, total, i);
      MarkShape(list, total, i, i + 1);
      PageBounds(s - 1);
      PageBounds(Start(list, i + 1));
    }
    LooseStart(list, total, i);
  }

  lemma LooseStart(list: seq<Buffer>, total: nat, i: nat)
    requires Tiles(list, total) && i < |list|
    ensures i > 0 && StartPageLoose(AfterNext(list, i), i) ==> Start(list, i) % PAGE != 0
  {
    AfterNextShape(list, total, i, i);
  }

  /** Any page a free is about to give back is in use until it is given back. */
  lemma GivenIsActive(list: seq<Buffer>, total: nat, i: nat, ps: seq<Page>, p: nat)
    requires Tiles(list, total) && NoFreePair(list) && i < |list| && !list[i].free && Accounted(list, total, ps) && p < |ps|
    requires InsidePage(list, total, i, p) || EndPage(list, i, p) || StartPage(list, i, p)
    ensures Active(ps[p])
  {
    MovesAreGiven(list, total, i, p);
    GivenExact(list, total, i, p);
  }

  lemma AccountedReleased(list: seq<Buffer>, total: nat, i: nat, ps: seq<Page>, ps': seq<Page>)
    requires Tiles(list, total) && NoFreePair(list) && i < |list| && !list[i].free && Accounted(list, total, ps) && |ps'| == |ps|
    requires forall p :: 0 <= p < |ps| ==> Parks(ps, ps', p, InsidePage(list, total, i, p) || EndPage(list, i, p) || StartPage(list, i, p))
    ensures Accounted(Released(list, i), total, ps')
  {
    hide Tiles, Released, InsidePage, EndPage, StartPage, Used, GivenPage, NoFreePair;
    forall p | 0 <= p < |ps|
      ensures (Active(ps'[p]) <==> Used(Released(list, i), total, p)) && |ps'[p].bytes| == PAGE && (ps'[p].lru ==> ps'[p].present)
    {
      assert Parks(ps, ps', p, InsidePage(list, total, i, p) || EndPage(list, i, p) || StartPage(list, i, p));
      MovesAreGiven(list, total, i, p);
      GivenExact(list, total, i, p);
    }
  }

  lemma ExactIsCarve(list: seq<Buffer>, total: nat, i: nat, rq: Request)
    requires Tiles(list, total) && i < |list|
    ensures list[i := Taken(list[i], rq)] == Carve(list, total, i, Size(list, total, i), rq)
  {
  }

  lemma ExtentPositive(rq: Request)
    ensures Extent(rq) >= 8 && Extent(rq) % 8 == 0 && Extent(rq) == Max(Demand(rq), 8)
    ensures Demand(rq) > 0 ==> Extent(rq) == Demand(rq)
  {
  }

  /** The size_t addition of the budget test may wrap, but only for requests that fit nowhere. */
  lemma AsyncTest(list: seq<Buffer>, total: nat, rq: Request, freeAsync: nat, unit: nat)
    requires Tiles(list, total) && total <= MAX_MAP && unit <= PAGE && Demand(rq) < WORD
    ensures freeAsync < WAdd(Demand(rq), unit) ==> freeAsync < Demand(rq) + unit
    ensures freeAsync < Demand(rq) + unit ==> freeAsync < WAdd(Demand(rq), unit) || !exists i :: Fits(list, total, i, Extent(rq))
  {
    hide Tiles, Demand;
    if Demand(rq) + unit >= WORD {
      forall i: nat ensures !Fits(list, total, i, Extent(rq)) {
        if i < |list| { Apart(list, total, i, i); }
      }
    }
  }

  lemma AccountedLength(list: seq<Buffer>, total: nat, ps: seq<Page>)
    requires Accounted(list, total, ps)
    ensures |ps| * PAGE == total && WellFormed(ps)
  {
  }

  lemma MappedSize(vmSize: nat)
    requires vmSize > 0 && vmSize % PAGE == 0
    ensures var total := Min(vmSize, MAX_MAP); 0 < total <= MAX_MAP && total % PAGE == 0 && total / PAGE * PAGE == total
  {
  }

  lemma MappedFresh(total: nat, unit: nat, ps: seq<Page>)
    requires 0 < total <= MAX_MAP && total % PAGE == 0 && |ps| * PAGE == total
    requires forall p :: 0 <= p < |ps| ==> ps[p] == Page(false, false, Zeroes(PAGE))
    ensures var list := [FreshFree(0)];
            && Tiles(list, total)
            && Keyed(InOrder(Leaf), SizeKeys(list, total)) && 0 in SizeKeys(list, total)
            && Structure(list, total, Insert(Leaf, 0, SizeKeys(list, total)), Leaf)
            && Accounted(list, total, ps)
            && Budget(total / 2, list, unit, 0, 0, false, total)
  {
    var list := [FreshFree(0)];
    assert Start(list, 0) == 0;
    assert Charges(list, unit) == 0;
    assert Tiles(list, total);
    assert Addresses(list, true) == {0} && Addresses(list, false) == {};
    assert InOrder(Insert(Leaf, 0, SizeKeys(list, total))) == [0];
    assert list[1..] == [];
  }

  // ---- The budget across a free ----

  function AsyncRefund(freeAsync: nat, rq: Request, unit: nat): nat {
    if rq.async then freeAsync + Demand(rq) + unit else freeAsync
  }

  lemma NoZeroRemove(list: seq<Buffer>, j: nat)
    requires j < |list| && NoZeroAsync(list)
    ensures NoZeroAsync(RemoveAt(list, j))
  {
    var list' := RemoveAt(list, j);
    forall k | 0 <= k < |list'| && !list'[k].free && list'[k].rq.async ensures Demand(list'[k].rq) > 0 {
      assert list'[k] == list[if k < j then k else k + 1];
    }
  }

  lemma NoZeroReleased(list: seq<Buffer>, i: nat)
    requires i < |list| && NoZeroAsync(list)
    ensures NoZeroAsync(Released(list, i))
  {
    hide Demand, RemoveAt;
    assert NoZeroAsync(MarkFree(list, i));
    if MergesNext(list, i) { NoZeroRemove(MarkFree(list, i), i + 1); }
    if MergesPrev(list, i) { NoZeroRemove(AfterNext(list, i), i); }
  }

  lemma ExactAt(list: seq<Buffer>, total: nat, i: nat)
    requires Tiles(list, total) && Exact(list, total) && i < |list| && !list[i].free
    ensures WordSized(list[i].rq) && End(list, total, i) - Start(list, i) == Extent(list[i].rq) <= total
  {
    Apart(list, total, i, i);
    assert Size(list, total, i) == Extent(list[i].rq);
  }

  /** A refund keeps the budget: a 0-size async buffer loses its 8 bytes of padding, and a budget that had
      wrapped below zero may wrap back. */
  lemma BudgetReleased(freeAsync: nat, list: seq<Buffer>, unit: nat, zeroFreed: nat, wraps: int, zeroSeen: bool, total: nat, i: nat)
    requires Tiles(list, total) && Exact(list, total) && i < |list| && !list[i].free && total <= MAX_MAP
    requires Budget(freeAsync, list, unit, zeroFreed, wraps, zeroSeen, total)
    ensures var rq := list[i].rq; var sum := AsyncRefund(freeAsync, rq, unit);
            Budget(sum % WORD, Released(list, i), unit, if rq.async && Demand(rq) == 0 then zeroFreed + 1 else zeroFreed,
                   wraps - sum / WORD, zeroSeen, total)
  {
    hide Tiles, Exact, Charges, Released, NoZeroAsync, Demand, Extent;
    ExactAt(list, total, i);
    ExtentPositive(list[i].rq);
    ChargesReleased(list, i, unit);
    if !zeroSeen {
      NoZeroReleased(list, i);
      NoZeroAt(list, i);
    }
  }

  lemma NoZeroAt(list: seq<Buffer>, i: nat)
    requires NoZeroAsync(list) && i < |list| && !list[i].free
    ensures list[i].rq.async ==> Demand(list[i].rq) > 0
  {
  }

  /** List and trees after a free, put together. */
  lemma ReleasedStructure(list: seq<Buffer>, total: nat, freeTree: Tree, allocTree: Tree, i: nat)
    requires Structure(list, total, freeTree, allocTree) && i < |list| && !list[i].free
    ensures Tiles(list, total) && Tiles(Released(list, i), total)
    ensures var keys, t := SizeKeys(Released(list, i), total), FreeTreeWithout(list, freeTree, i);
            && Keyed(InOrder(t), keys) && MergedStart(list, i) in keys
            && Structure(Released(list, i), total, Insert(t, MergedStart(list, i), keys), Erase(allocTree, Start(list, i)))
  {
    hide *;
    StructureParts(list, total, freeTree, allocTree);
    ReleasedTiles(list, total, i);
    ReleasedNoPair(list, total, i);
    ExactReleased(list, total, i);
    FreeTreeReleased(list, total, freeTree, i);
    AllocTreeReleased(list, total, allocTree, i);
    var keys := SizeKeys(Released(list, i), total);
    MakeStructure(Released(list, i), total, Insert(FreeTreeWithout(list, freeTree, i), MergedStart(list, i), keys),
                  Erase(allocTree, Start(list, i)));
  }

  lemma SizeIs(list: seq<Buffer>, total: nat, i: nat)
    requires Tiles(list, total) && i < |list|
    ensures Size(list, total, i) == End(list, total, i) - Start(list, i) && End(list, total, i) <= total
  {
    Apart(list, total, i, i);
  }

  /** A page keeps what it holds; it may be put on the LRU list. */
  ghost predicate Remains(pg: Page, pg': Page) {
    pg' == pg || pg' == Parked(pg)
  }

  /** Gives back the pages that lie wholly inside buffer i. */
  method GiveInside(pages: array<Page>, ghost list: seq<Buffer>, total: nat, i: nat, start: nat, size: nat) returns (warned: bool)
    requires Tiles(list, total) && i < |list| && pages.Length * PAGE == total
    requires start == Start(list, i) && size == Size(list, total, i)
    requires forall p :: 0 <= p < pages.Length && InsidePage(list, total, i, p) ==> Active(pages[p])
    modifies pages
    ensures forall p :: 0 <= p < pages.Length ==>
              pages[p] == if InsidePage(list, total, i, p) then Parked(old(pages[p])) else old(pages[p])
    ensures !warned
  {
    hide Tiles, Active;
    SizeIs(list, total, i);
    PageBounds(start);
    PageBounds(start + size);
    warned := false;
    if PageUp(start) < PageDown(start + size) {
      UpToLast(PageUp(start), PageDown(start + size));
      assert forall p: nat :: InsidePage(list, total, i, p) <==> InRange(PageUp(start), PageDown(start + size), p);
      warned := GiveRange(pages, PageUp(start), PageDown(start + size) - PAGE);
    }
  }

  /** The boundary pages that a free of buffer i gives back are in use. */
  ghost predicate BoundaryActive(list: seq<Buffer>, i: nat, ps: seq<Page>)
    requires i < |list|
  {
    forall p :: 0 <= p < |ps| && (EndPage(list, i, p) || StartPage(list, i, p)) ==> Active(ps[p])
  }

  /** The page that a vanishing free buffer j gives back is in use. */
  ghost predicate LooseActive(list: seq<Buffer>, j: nat, ps: seq<Page>)
    requires 0 < j < |list|
  {
    StartPageLoose(list, j) ==> forall p :: 0 <= p < |ps| && p * PAGE == PageDown(Start(list, j)) ==> Active(ps[p])
  }

  /** ps' is ps with the page of a vanishing free buffer j parked, if it is loose. */
  ghost predicate LooseParked(list: seq<Buffer>, j: nat, ps: seq<Page>, ps': seq<Page>)
    requires 0 < j < |list|
  {
    && |ps'| == |ps|
    && forall p :: 0 <= p < |ps| ==>
         ps'[p] == if StartPageLoose(list, j) && p * PAGE == PageDown(Start(list, j)) then Parked(ps[p]) else ps[p]
  }

  lemma NextLooseActive(list: seq<Buffer>, i: nat, ps: seq<Page>)
    requires i < |list| && MergesNext(list, i) && BoundaryActive(list, i, ps)
    ensures LooseActive(MarkFree(list, i), i + 1, ps)
  {
  }

  /** After the first boundary page, if any, was given back, the second one is still in use. */
  lemma PrevLooseActive(list: seq<Buffer>, total: nat, i: nat, ps: seq<Page>, mid: seq<Page>)
    requires Tiles(list, total) && i < |list| && MergesPrev(list, i) && BoundaryActive(list, i, ps)
    requires if MergesNext(list, i) then LooseParked(MarkFree(list, i), i + 1, ps, mid) else mid == ps
    ensures LooseActive(AfterNext(list, i), i, mid)
  {
    hide Tiles, StartPageLoose, PageDown, Active, AfterNext;
    forall p | 0 <= p < |ps| && StartPage(list, i, p) ensures Active(mid[p]) { MovesAreGiven(list, total, i, p); }
  }

  /** Both boundary moves together. */
  lemma BoundaryParked(list: seq<Buffer>, total: nat, i: nat, ps: seq<Page>, mid: seq<Page>, ps': seq<Page>, p: nat)
    requires Tiles(list, total) && i < |list| && p < |ps| && |ps'| == |ps|
    requires if MergesNext(list, i) then LooseParked(MarkFree(list, i), i + 1, ps, mid) else mid == ps
    requires if MergesPrev(list, i) then LooseParked(AfterNext(list, i), i, mid, ps') else ps' == mid
    ensures ps'[p] == if EndPage(list, i, p) || StartPage(list, i, p) then Parked(ps[p]) else ps[p]
  {
    hide Tiles, StartPageLoose, PageDown, AfterNext, Parked;
    MovesAreGiven(list, total, i, p);
  }

  /** Giving the inside pages leaves the two boundary pages as they were. */
  lemma GivenApart(list: seq<Buffer>, total: nat, i: nat, ps: seq<Page>, ps': seq<Page>)
    requires Tiles(list, total) && i < |list| && |ps'| == |ps|
    requires forall p :: 0 <= p < |ps| && (EndPage(list, i, p) || StartPage(list, i, p)) ==> Active(ps[p])
    requires forall p :: 0 <= p < |ps| ==> ps'[p] == if InsidePage(list, total, i, p) then Parked(ps[p]) else ps[p]
    ensures BoundaryActive(list, i, ps')
  {
    hide Tiles, InsidePage, EndPage, StartPage, Active, Parked;
    forall p | 0 <= p < |ps| && (EndPage(list, i, p) || StartPage(list, i, p)) ensures Active(ps'[p]) {
      MovesAreGiven(list, total, i, p);
    }
  }

  /** The inside pages, then the boundary pages: the accounting of the released list. */
  lemma GivenAll(list: seq<Buffer>, total: nat, i: nat, ps: seq<Page>, mid: seq<Page>, ps': seq<Page>)
    requires Tiles(list, total) && NoFreePair(list) && i < |list| && !list[i].free && Accounted(list, total, ps)
    requires |ps'| == |mid| == |ps|
    requires forall p :: 0 <= p < |ps| ==> mid[p] == if InsidePage(list, total, i, p) then Parked(ps[p]) else ps[p]
    requires forall p :: 0 <= p < |ps| ==> ps'[p] == if EndPage(list, i, p) || StartPage(list, i, p) then Parked(mid[p]) else mid[p]
    ensures Accounted(Released(list, i), total, ps')
    ensures forall p :: 0 <= p < |ps| ==> Remains(ps[p], ps'[p])
  {
    hide Tiles, NoFreePair, Accounted, InsidePage, EndPage, StartPage, Released;
    forall p | 0 <= p < |ps|
      ensures Parks(ps, ps', p, InsidePage(list, total, i, p) || EndPage(list, i, p) || StartPage(list, i, p))
    {
      MovesAreGiven(list, total, i, p);
    }
    AccountedReleased(list, total, i, ps, ps');
  }

  /** Every buffer that stays allocated is one of the old ones, unchanged. */
  lemma RemovedFrom(list: seq<Buffer>, j: nat)
    requires j < |list|
    ensures forall b :: b in RemoveAt(list, j) ==> b in list
  {
  }

  lemma ReleasedFrom(list: seq<Buffer>, i: nat)
    requires i < |list|
    ensures forall b :: b in Released(list, i) && !b.free ==> b in list
  {
    hide RemoveAt;
    assert forall b :: b in MarkFree(list, i) && !b.free ==> b in list;
    if MergesNext(list, i) { RemovedFrom(MarkFree(list, i), i + 1); }
    if MergesPrev(list, i) { RemovedFrom(AfterNext(list, i), i); }
  }

  lemma FullOf(ps: seq<Page>)
    requires WellFormed(ps)
    ensures FullPages(ps)
  {
  }

  /** Pages under an allocated buffer are in use. */
  lemma TouchedActive(list: seq<Buffer>, total: nat, ps: seq<Page>, i: nat, offset: nat, n: nat, p: nat)
    requires Tiles(list, total) && Accounted(list, total, ps) && i < |list| && !list[i].free && p < |ps|
    requires Start(list, i) + offset + n <= End(list, total, i)
    requires Touched(Start(list, i) + offset, n, p)
    ensures Active(ps[p])
  {
    assert Overlaps(list, total, i, p);
  }

  lemma AccountedContents(list: seq<Buffer>, total: nat, ps: seq<Page>, ps': seq<Page>, at: nat, n: nat)
    requires Accounted(list, total, ps) && FullPages(ps') && OnlyContents(ps, ps', at, n)
    ensures Accounted(list, total, ps')
  {
    hide Used;
    forall p | 0 <= p < |ps| ensures Active(ps'[p]) <==> Active(ps[p]) { }
  }

  /** What buffer k holds. */
  ghost function Content(list: seq<Buffer>, total: nat, ps: seq<Page>, k: nat): seq<byte>
    requires Tiles(list, total) && FullPages(ps) && |ps| * PAGE == total && k < |list|
  {
    SizeIs(list, total, k);
    Flat(ps)[Start(list, k)..End(list, total, k)]
  }

  /** Writing inside one buffer is a splice of that buffer and leaves every other one alone. */
  lemma WriteContent(list: seq<Buffer>, total: nat, ps: seq<Page>, ps': seq<Page>, i: nat, offset: nat, src: seq<byte>, k: nat)
    requires Tiles(list, total) && FullPages(ps) && FullPages(ps') && |ps'| == |ps| && |ps| * PAGE == total
    requires i < |list| && k < |list| && offset + |src| <= Size(list, total, i)
    requires End(list, total, i) <= total
    requires Flat(ps') == Splice(Flat(ps), Start(list, i) + offset, src)
    ensures k != i ==> Content(list, total, ps', k) == Content(list, total, ps, k)
    ensures k == i ==> offset + |src| <= |Content(list, total, ps, i)|
                       && Content(list, total, ps', i) == Splice(Content(list, total, ps, i), offset, src)
  {
    hide Tiles, FullPages, Flat, Splice, Start, End, Size;
    SizeIs(list, total, i);
    SizeIs(list, total, k);
    Apart(list, total, i, k);
    if k != i {
      ReadOverWrite(Flat(ps), Start(list, i) + offset, src, Start(list, k), End(list, total, k) - Start(list, k));
    } else {
      SliceOfSplice(Flat(ps), Start(list, i) + offset, src, Start(list, i), End(list, total, i));
    }
  }

  lemma SliceOfSplice(f: seq<byte>, at: nat, src: seq<byte>, from: nat, to: nat)
    requires from <= at && at + |src| <= to <= |f|
    ensures |Splice(f, at, src)| == |f| && Splice(f, at, src)[from..to] == Splice(f[from..to], at - from, src)
  {
    var g := f[from..to];
    assert g[..at - from] == f[from..at];
    assert g[at - from + |src|..] == f[at + |src|..to];
    assert f[..at] == f[..from] + f[from..at];
    assert f[at + |src|..] == f[at + |src|..to] + f[to..];
  }

  /** Contents depend only on the pages a buffer overlaps, so whoever leaves the pages in use alone
      leaves the contents of every allocated buffer alone. */
  lemma ContentFrame(list: seq<Buffer>, total: nat, ps: seq<Page>, ps': seq<Page>, k: nat)
    requires Tiles(list, total) && Accounted(list, total, ps) && FullPages(ps) && FullPages(ps') && |ps'| == |ps|
    requires k < |list| && !list[k].free
    requires forall p :: 0 <= p < |ps| && Active(ps[p]) ==> ps'[p].bytes == ps[p].bytes
    ensures Content(list, total, ps', k) == Content(list, total, ps, k)
  {
    var s, e := Start(list, k), End(list, total, k);
    SizeIs(list, total, k);
    var f, f' := Flat(ps), Flat(ps');
    forall a | s <= a < e ensures f'[a] == f[a] {
      var p, off := PageOf(a);
      assert Overlaps(list, total, k, p);
      assert Used(list, total, p) && Active(ps[p]);
    }
    assert f[s..e] == f'[s..e];
  }

  // ---- Looking a buffer up ----

  lemma AscendingTree(t: Tree, list: seq<Buffer>)
    requires Ordered(t, AddressKeys(list), Addresses(list, false))
    ensures Ascending(InOrder(t))
    ensures forall a :: a in InOrder(t) <==> a in Addresses(list, false)
  {
  }

  lemma AscendingParts(l: seq<nat>, b: nat, r: seq<nat>, a: nat)
    requires Ascending(l + [b] + r)
    ensures Ascending(l) && Ascending(r)
    ensures a < b && a in l + [b] + r ==> a in l
    ensures a > b && a in l + [b] + r ==> a in r
  {
    var s := l + [b] + r;
    assert s[|l|] == b;
    assert forall i :: 0 <= i < |l| ==> s[i] == l[i];
    assert forall i :: 0 <= i < |r| ==> s[|l| + 1 + i] == r[i];
  }

  lemma InOrderNode(n: Tree)
    requires n.Node?
    ensures InOrder(n) == InOrder(n.left) + [n.at] + InOrder(n.right)
    ensures n.at in InOrder(n)
    ensures forall a :: a in InOrder(n.left) || a in InOrder(n.right) ==> a in InOrder(n)
  {
  }

  /** The descent of binder_alloc_prepare_to_free_locked through the tree of allocated buffers. */
  method FindAllocated(t: Tree, a: nat, ghost list: seq<Buffer>) returns (found: bool)
    requires Ordered(t, AddressKeys(list), Addresses(list, false))
    ensures found <==> a in Addresses(list, false)
  {
    hide Ordered, AddressKeys, Addresses, InOrder, Ascending;
    AscendingTree(t, list);
    var n := t;
    while n.Node?
      invariant Ascending(InOrder(n))
      invariant a in InOrder(t) <==> a in InOrder(n)
      decreases n
    {
      InOrderNode(n);
      AscendingParts(InOrder(n.left), n.at, InOrder(n.right), a);
      if a < n.at {
        n := n.left;
      } else if a > n.at {
        n := n.right;
      } else {
        return true;
      }
    }
    LeafIsEmpty(a);
    return false;
  }

  lemma LeafIsEmpty(a: nat)
    ensures a !in InOrder(Leaf)
  {
  }

  /** Buffers that differ only in flags and pending transactions leave everything else as it was. */
  ghost predicate Reflagged(list: seq<Buffer>, list': seq<Buffer>) {
    && |list'| == |list|
    && forall k :: 0 <= k < |list| ==> Start(list', k) == Start(list, k) && list'[k].free == list[k].free && list'[k].rq == list[k].rq
  }

  lemma ReflaggedShape(list: seq<Buffer>, list': seq<Buffer>, total: nat)
    requires Tiles(list, total) && NoFreePair(list) && Exact(list, total) && Reflagged(list, list')
    ensures SameStarts(list, list') && Tiles(list', total) && NoFreePair(list') && Exact(list', total)
  {
    assert SameStarts(list, list');
    SameTiles(list, list', total);
    hide Tiles, Size, Extent;
    forall k ensures !FreePair(list', k) { assert !FreePair(list, k); }
  }

  lemma ReflaggedStructure(list: seq<Buffer>, list': seq<Buffer>, total: nat, freeTree: Tree, allocTree: Tree)
    requires Structure(list, total, freeTree, allocTree) && Reflagged(list, list')
    ensures Structure(list', total, freeTree, allocTree)
  {
    hide *;
    StructureParts(list, total, freeTree, allocTree);
    ReflaggedShape(list, list', total);
    SameSizeKeys(list, list', total);
    SameAddressKeys(list, list');
    ReflaggedAddresses(list, list', true);
    ReflaggedAddresses(list, list', false);
    MakeStructure(list', total, freeTree, allocTree);
  }

  lemma ReflaggedAddresses(list: seq<Buffer>, list': seq<Buffer>, f: bool)
    requires Reflagged(list, list')
    ensures Addresses(list, f) == Addresses(list', f)
  {
    forall x ensures x in Addresses(list, f) <==> x in Addresses(list', f) {
      if x in Addresses(list, f) { var k := FreeMember(list, f, x); assert Start(list', k) in Addresses(list', f); }
      if x in Addresses(list', f) { var k := FreeMember(list', f, x); assert Start(list, k) in Addresses(list, f); }
    }
  }

  lemma ReflaggedUsed(list: seq<Buffer>, list': seq<Buffer>, total: nat, p: nat)
    requires Reflagged(list, list')
    ensures Used(list, total, p) <==> Used(list', total, p)
  {
    forall k | 0 <= k < |list| ensures Overlaps(list, total, k, p) <==> Overlaps(list', total, k, p) {
      assert k + 1 < |list| ==> Start(list, k + 1) == Start(list', k + 1);
    }
  }

  lemma ReflaggedAccounted(list: seq<Buffer>, list': seq<Buffer>, total: nat, ps: seq<Page>)
    requires Reflagged(list, list') && Accounted(list, total, ps)
    ensures Accounted(list', total, ps)
  {
    hide Used, Reflagged, Active;
    forall p | 0 <= p < |ps| ensures Active(ps[p]) <==> Used(list', total, p) { ReflaggedUsed(list, list', total, p); }
  }

  lemma ReflaggedCharge(a: Buffer, b: Buffer, unit: nat)
    requires a.free == b.free && a.rq == b.rq
    ensures Charge(a, unit) == Charge(b, unit)
  {
  }

  lemma {:induction false} ReflaggedCharges(list: seq<Buffer>, list': seq<Buffer>, unit: nat)
    requires Reflagged(list, list')
    ensures Charges(list, unit) == Charges(list', unit)
  {
    if list != [] {
      assert forall k :: 0 <= k < |list| - 1 ==> Start(list[1..], k) == Start(list, k + 1) && Start(list'[1..], k) == Start(list', k + 1);
      ReflaggedCharges(list[1..], list'[1..], unit);
      ReflaggedCharge(list[0], list'[0], unit);
    }
  }

  lemma ReflaggedBudget(freeAsync: nat, list: seq<Buffer>, list': seq<Buffer>, unit: nat, zeroFreed: nat, wraps: int, zeroSeen: bool, total: nat)
    requires Reflagged(list, list') && Budget(freeAsync, list, unit, zeroFreed, wraps, zeroSeen, total)
    ensures Budget(freeAsync, list', unit, zeroFreed, wraps, zeroSeen, total)
  {
    ReflaggedCharges(list, list', unit);
  }

  lemma FlagsOnly(list: seq<Buffer>, i: nat, b: Buffer)
    requires i < |list| && b.start == list[i].start && b.free == list[i].free && b.rq == list[i].rq
    ensures Reflagged(list, list[i := b])
  {
  }

  lemma ReadContent(list: seq<Buffer>, total: nat, ps: seq<Page>, i: nat, offset: nat, n: nat)
    requires Tiles(list, total) && FullPages(ps) && |ps| * PAGE == total
    requires i < |list| && offset + n <= Size(list, total, i)
    requires Start(list, i) + offset + n <= total
    ensures offset + n <= |Content(list, total, ps, i)|
    ensures Flat(ps)[Start(list, i) + offset..Start(list, i) + offset + n] == Content(list, total, ps, i)[offset..offset + n]
  {
    SizeIs(list, total, i);
  }

  lemma WholeSplice(list: seq<Buffer>, total: nat, ps: seq<Page>, i: nat)
    requires Tiles(list, total) && FullPages(ps) && |ps| * PAGE == total && i < |list|
    ensures var c, n := Content(list, total, ps, i), Size(list, total, i);
            |c| == n && Splice(c, 0, Zeroes(n)) == Zeroes(n)
  {
    SizeIs(list, total, i);
  }

  ghost predicate Mapped(list: seq<Buffer>, total: nat, ps: seq<Page>) {
    Tiles(list, total) && FullPages(ps) && |ps| * PAGE == total
  }

  /** Buffer k holds the same before and after. */
  ghost predicate Kept(list: seq<Buffer>, total: nat, ps: seq<Page>, ps': seq<Page>, k: nat) {
    && Mapped(list, total, ps) && Mapped(list, total, ps') && k < |list|
    && Content(list, total, ps', k) == Content(list, total, ps, k)
  }

  /** src was written over what buffer i holds, from `offset` on, and no other buffer was touched. */
  ghost predicate Written(list: seq<Buffer>, total: nat, ps: seq<Page>, ps': seq<Page>, i: nat, offset: nat, src: seq<byte>) {
    && Mapped(list, total, ps) && Mapped(list, total, ps') && i < |list|
    && offset + |src| <= |Content(list, total, ps, i)|
    && Content(list, total, ps', i) == Splice(Content(list, total, ps, i), offset, src)
    && forall k :: 0 <= k < |list| && k != i ==> Kept(list, total, ps, ps', k)
  }

  /** `out` is what buffer i holds from `offset` on. */
  ghost predicate Reads(list: seq<Buffer>, total: nat, ps: seq<Page>, i: nat, offset: nat, out: seq<byte>) {
    && Mapped(list, total, ps) && i < |list|
    && offset + |out| <= |Content(list, total, ps, i)|
    && out == Content(list, total, ps, i)[offset..offset + |out|]
  }

  /** Buffer i holds only zero bytes afterwards, and no other buffer was touched. */
  ghost predicate Cleared(list: seq<Buffer>, total: nat, ps: seq<Page>, ps': seq<Page>, i: nat) {
    && Mapped(list, total, ps) && Mapped(list, total, ps') && i < |list|
    && Content(list, total, ps', i) == Zeroes(|Content(list, total, ps, i)|)
    && forall k :: 0 <= k < |list| && k != i ==> Kept(list, total, ps, ps', k)
  }

  /** What was copied in is what is copied out again. */
  lemma WrittenThenRead(list: seq<Buffer>, total: nat, ps: seq<Page>, ps': seq<Page>, i: nat, offset: nat, src: seq<byte>, out: seq<byte>)
    requires Written(list, total, ps, ps', i, offset, src)
    requires Reads(list, total, ps', i, offset, out) && |out| == |src|
    ensures out == src
  {
    ReadOverWrite(Content(list, total, ps, i), offset, src, offset, |src|);
  }

  method CopyBuffer(pages: array<Page>, toBuffer: bool, list: seq<Buffer>, total: nat, i: nat, offset: nat, ptr: seq<byte>)
    returns (out: seq<byte>)
    requires Tiles(list, total) && Accounted(list, total, pages[..]) && i < |list| && !list[i].free
    requires offset + |ptr| <= Size(list, total, i)
    modifies pages
    ensures Accounted(list, total, pages[..])
    ensures toBuffer ==> Written(list, total, old(pages[..]), pages[..], i, offset, ptr)
    ensures !toBuffer ==> pages[..] == old(pages[..]) && Reads(list, total, pages[..], i, offset, out) && |out| == |ptr|
  {
    hide Accounted, Tiles, Splice, FullPages, Start, End, Size, Touched, Flat, Active, OnlyContents, Written, Reads;
    ghost var ps := pages[..];
    AccountedLength(list, total, ps);
    FullOf(ps);
    SizeIs(list, total, i);
    var at := Start(list, i) + offset;
    forall p | 0 <= p < pages.Length && Touched(at, |ptr|, p) ensures Active(ps[p]) {
      TouchedActive(list, total, ps, i, offset, |ptr|, p);
    }
    out := CopyLoop(pages, toBuffer, at, ptr);
    AccountedContents(list, total, ps, pages[..], at, |ptr|);
    if toBuffer {
      SplicedWritten(list, total, ps, pages[..], i, offset, ptr);
    } else {
      SlicedReads(list, total, ps, i, offset, out);
    }
  }

  lemma SplicedWritten(list: seq<Buffer>, total: nat, ps: seq<Page>, ps': seq<Page>, i: nat, offset: nat, src: seq<byte>)
    requires Tiles(list, total) && FullPages(ps) && FullPages(ps') && |ps'| == |ps| && |ps| * PAGE == total
    requires i < |list| && offset + |src| <= Size(list, total, i)
    requires End(list, total, i) <= total
    requires Flat(ps') == Splice(Flat(ps), Start(list, i) + offset, src)
    ensures Written(list, total, ps, ps', i, offset, src)
  {
    hide Tiles, FullPages, Start, End, Size, Flat, Splice, Content;
    WriteContent(list, total, ps, ps', i, offset, src, i);
    forall k | 0 <= k < |list| && k != i ensures Kept(list, total, ps, ps', k) {
      WriteContent(list, total, ps, ps', i, offset, src, k);
    }
  }

  lemma SlicedReads(list: seq<Buffer>, total: nat, ps: seq<Page>, i: nat, offset: nat, out: seq<byte>)
    requires Tiles(list, total) && FullPages(ps) && |ps| * PAGE == total
    requires i < |list| && offset + |out| <= Size(list, total, i)
    requires Start(list, i) + offset + |out| <= total
    requires out == Flat(ps)[Start(list, i) + offset..Start(list, i) + offset + |out|]
    ensures Reads(list, total, ps, i, offset, out)
  {
    hide Tiles, FullPages, Start, Size, Flat, Content;
    ReadContent(list, total, ps, i, offset, |out|);
  }

  method ClearBuffer(pages: array<Page>, list: seq<Buffer>, total: nat, i: nat)
    requires Tiles(list, total) && Accounted(list, total, pages[..]) && i < |list| && !list[i].free
    modifies pages
    ensures Accounted(list, total, pages[..]) && Cleared(list, total, old(pages[..]), pages[..], i)
  {
    hide Accounted, Tiles, Splice, FullPages, Start, End, Size, Touched, Flat, Active, OnlyContents, Written, Cleared;
    ghost var ps := pages[..];
    AccountedLength(list, total, ps);
    FullOf(ps);
    SizeIs(list, total, i);
    var at, bytes := Start(list, i), Size(list, total, i);
    forall p | 0 <= p < pages.Length && Touched(at, bytes, p) ensures Active(ps[p]) {
      TouchedActive(list, total, ps, i, 0, bytes, p);
    }
    ClearLoop(pages, at, bytes);
    AccountedContents(list, total, ps, pages[..], at, bytes);
    SplicedWritten(list, total, ps, pages[..], i, 0, Zeroes(bytes));
    WrittenCleared(list, total, ps, pages[..], i);
  }

  lemma WrittenCleared(list: seq<Buffer>, total: nat, ps: seq<Page>, ps': seq<Page>, i: nat)
    requires Tiles(list, total) && i < |list|
    requires Written(list, total, ps, ps', i, 0, Zeroes(Size(list, total, i)))
    ensures Cleared(list, total, ps, ps', i)
  {
    hide Tiles, FullPages, Flat, Splice, Content;
    WholeSplice(list, total, ps, i);
  }

  lemma RemainsContent(list: seq<Buffer>, total: nat, ps: seq<Page>, ps': seq<Page>, k: nat)
    requires Mapped(list, total, ps) && |ps'| == |ps| && k < |list|
    requires forall p :: 0 <= p < |ps| ==> Remains(ps[p], ps'[p])
    ensures Kept(list, total, ps, ps', k)
  {
    SizeIs(list, total, k);
    assert FullPages(ps');
    assert Flat(ps) == Flat(ps');
  }

  /** Dropping a page that is up for reclaim. */
  lemma FreePageAccounted(list: seq<Buffer>, total: nat, ps: seq<Page>, ps': seq<Page>, p: nat)
    requires Accounted(list, total, ps) && p < |ps| && ps[p].lru
    requires ps' == ps[p := ps[p].(present := false, lru := false)]
    ensures Accounted(list, total, ps') && FullPages(ps')
    ensures forall q :: 0 <= q < |ps| && Active(ps[q]) ==> ps'[q] == ps[q]
  {
  }

  /** A free whose buffer was cleared first, seen from the list before. */
  lemma FreedContents(list: seq<Buffer>, mid: seq<Buffer>, total: nat, ps: seq<Page>, ps1: seq<Page>, ps2: seq<Page>, i: nat, clear: bool)
    requires Mapped(list, total, ps) && i < |list| && Mapped(mid, total, ps1) && Reflagged(list, mid)
    requires if clear then Cleared(list, total, ps, ps1, i) else ps1 == ps
    requires |ps2| == |ps1| && forall p :: 0 <= p < |ps1| ==> Remains(ps1[p], ps2[p])
    ensures if clear then Cleared(list, total, ps, ps2, i) else forall k :: 0 <= k < |list| ==> Kept(list, total, ps, ps2, k)
  {
    hide Tiles, FullPages, Flat, Content, Remains, Zeroes, Start, Reflagged;
    forall k | 0 <= k < |list| ensures Kept(list, total, ps1, ps2, k) {
      RemainsContent(list, total, ps1, ps2, k);
    }
    forall k | 0 <= k < |list| && k != i ensures Kept(list, total, ps, ps2, k) {
      assert clear ==> Kept(list, total, ps, ps1, k);
      assert Kept(list, total, ps1, ps2, k);
    }
    assert Kept(list, total, ps1, ps2, i);
  }

  /** The pages of the region are mapped one to one. */
  lemma MappedOf(list: seq<Buffer>, total: nat, ps: seq<Page>)
    requires Tiles(list, total) && Accounted(list, total, ps)
    ensures Mapped(list, total, ps)
  {
  }

  lemma FreePageKept(list: seq<Buffer>, total: nat, ps: seq<Page>, ps': seq<Page>)
    requires Tiles(list, total) && Accounted(list, total, ps) && FullPages(ps') && |ps'| == |ps|
    requires forall p :: 0 <= p < |ps| && Active(ps[p]) ==> ps'[p] == ps[p]
    ensures forall k :: 0 <= k < |list| && !list[k].free ==> Kept(list, total, ps, ps', k)
  {
    hide Tiles, Content, Used, Flat, Active;
    MappedOf(list, total, ps);
    forall k | 0 <= k < |list| && !list[k].free ensures Kept(list, total, ps, ps', k) {
      ContentFrame(list, total, ps, ps', k);
    }
  }

  lemma SameKept(list: seq<Buffer>, total: nat, ps: seq<Page>)
    requires Tiles(list, total) && Accounted(list, total, ps)
    ensures forall k :: 0 <= k < |list| && !list[k].free ==> Kept(list, total, ps, ps, k)
  {
    MappedOf(list, total, ps);
  }

  lemma StructureMapped(list: seq<Buffer>, total: nat, freeTree: Tree, allocTree: Tree, ps: seq<Page>)
    requires Structure(list, total, freeTree, allocTree) && Accounted(list, total, ps)
    ensures Mapped(list, total, ps)
  {
  }

  // ---- Tearing the allocator down ----

  /** rb_first */
  method First(t: Tree) returns (a: nat)
    requires t.Node?
    ensures a in InOrder(t)
  {
    var n := t;
    while n.left.Node?
      invariant n.Node? && forall x :: x in InOrder(n) ==> x in InOrder(t)
      decreases n
    {
      InOrderNode(n);
      n := n.left;
    }
    return n.at;
  }

  lemma ReleasedAllocated(list: seq<Buffer>, total: nat, freeTree: Tree, allocTree: Tree, i: nat)
    requires Structure(list, total, freeTree, allocTree) && i < |list| && !list[i].free
    ensures Start(list, i) in Addresses(list, false)
    ensures Addresses(Released(list, i), false) == Addresses(list, false) - {Start(list, i)}
  {
    hide Structure, Tiles, Released, Start;
    StructureParts(list, total, freeTree, allocTree);
    ReleasedTiles(list, total, i);
    FreeTreeReleased(list, total, freeTree, i);
  }

  lemma AllocatedOf(list: seq<Buffer>, total: nat, freeTree: Tree, allocTree: Tree)
    requires Structure(list, total, freeTree, allocTree)
    ensures forall a :: a in InOrder(allocTree) <==> a in Addresses(list, false)
  {
  }

  lemma {:induction false} NothingCharged(list: seq<Buffer>, unit: nat)
    requires forall b :: b in list ==> b.free
    ensures Charges(list, unit) == 0
  {
    if list != [] {
      assert list[0] in list;
      NothingCharged(list[1..], unit);
    }
  }

  /** With nothing allocated a single free buffer is left, and the async budget is back to half the region. */
  lemma AllFree(list: seq<Buffer>, total: nat, freeTree: Tree, unit: nat, freeAsync: nat, zeroFreed: nat, wraps: int, zeroSeen: bool)
    requires Structure(list, total, freeTree, Leaf)
    requires Budget(freeAsync, list, unit, zeroFreed, wraps, zeroSeen, total)
    ensures |list| == 1 && list[0].free
    ensures !zeroSeen ==> freeAsync == total / 2
    ensures Addresses(list, false) == {}
  {
    AllocatedOf(list, total, freeTree, Leaf);
    LeafIsEmpty(0);
    assert InOrder(Leaf) == [];
    forall b | b in list ensures b.free {
      var k :| 0 <= k < |list| && list[k] == b;
      AllocatedAddress(list, k);
    }
    assert !FreePair(list, 1);
    NothingCharged(list, unit);
  }

  lemma AllocatedAddress(list: seq<Buffer>, k: nat)
    requires k < |list|
    ensures !list[k].free ==> Start(list, k) in Addresses(list, false)
  {
  }

  ghost predicate NonePending(list: seq<Buffer>) {
    forall b :: b in list && !b.free ==> !b.active
  }

  lemma PendingReleased(list: seq<Buffer>, mid: seq<Buffer>, i: nat)
    requires i < |list| && NonePending(list) && mid == list[i := list[i].(clearOnFree := false)]
    ensures NonePending(Released(mid, i))
  {
    hide Released;
    forall b | b in mid && !b.free ensures !b.active {
      var k :| 0 <= k < |mid| && mid[k] == b;
      assert list[k] in list;
    }
    ReleasedFrom(mid, i);
  }

  lemma NotPending(list: seq<Buffer>, i: nat)
    requires NonePending(list) && i < |list| && !list[i].free
    ensures !list[i].active
  {
    assert list[i] in list;
  }

  lemma NoneAllocated()
    ensures Addresses([], false) == {}
  {
  }

  /** What freeing buffer i, its flag cleared first, does to the set of allocated buffers. */
  lemma ReleasedNext(list: seq<Buffer>, total: nat, freeTree: Tree, allocTree: Tree, i: nat, mid: seq<Buffer>)
    requires Structure(list, total, freeTree, allocTree) && i < |list| && !list[i].free && NonePending(list)
    requires mid == list[i := list[i].(clearOnFree := false)]
    ensures !list[i].active && NonePending(Released(mid, i))
    ensures |Addresses(Released(mid, i), false)| == |Addresses(list, false)| - 1
  {
    hide Structure, Released, Start, Addresses, NonePending;
    FlagsOnly(list, i, mid[i]);
    ReflaggedStructure(list, mid, total, freeTree, allocTree);
    ReflaggedAddresses(list, mid, false);
    ReleasedAllocated(mid, total, freeTree, allocTree, i);
    PendingReleased(list, mid, i);
    NotPending(list, i);
  }

  lemma FirstAllocated(list: seq<Buffer>, total: nat, freeTree: Tree, allocTree: Tree, a: nat)
    requires Structure(list, total, freeTree, allocTree) && a in InOrder(allocTree)
    ensures Tiles(list, total) && a in Addresses(list, false)
  {
  }

  /** Allocating and freeing an async buffer restores the budget exactly when its request is not empty. */
  lemma AsyncRoundTrip(freeAsync: nat, rq: Request, unit: nat)
    requires freeAsync < WORD && freeAsync >= Demand(rq) + unit
    ensures AsyncRefund(AsyncAfter(freeAsync, rq, unit), rq, unit) % WORD == freeAsync <==> !rq.async || Demand(rq) > 0
    ensures rq.async && Demand(rq) == 0 ==>
              AsyncRefund(AsyncAfter(freeAsync, rq, unit), rq, unit) % WORD == if freeAsync >= 8 then freeAsync - 8 else freeAsync + WORD - 8
  {
    hide Demand;
    ExtentPositive(rq);
    AsyncWrapIff(freeAsync, rq, unit);
  }

  /** The budget equation without corrections holds exactly when the 8-byte losses and the wraps cancel;
      in particular whenever no 0-size async buffer was ever allocated, and then nothing is below zero. */
  lemma BudgetExact(freeAsync: nat, list: seq<Buffer>, unit: nat, zeroFreed: nat, wraps: int, zeroSeen: bool, total: nat)
    requires Budget(freeAsync, list, unit, zeroFreed, wraps, zeroSeen, total)
    ensures freeAsync + Charges(list, unit) == total / 2 <==> 8 * zeroFreed == WORD * wraps
    ensures !zeroSeen ==> freeAsync + Charges(list, unit) == total / 2
  {
  }

  lemma FreedFits(list: seq<Buffer>, total: nat, i: nat)
    requires Tiles(list, total) && Exact(list, total) && i < |list| && !list[i].free
    ensures Demand(list[i].rq) <= Size(list, total, i) && Start(list, i) <= total
  {
    ExactAt(list, total, i);
    Apart(list, total, i, i);
  }
}
