/** The allocator object: buffer list, two trees, page states and async budget, changed in place. */
module BinderAlloc {
  import opened Words
  import opened SizeTree
  import opened BufferList
  import opened PageMemory
  import opened PageRange
  import opened PagedCopy
  import opened Allocator
  import opened AllocTrees
  import opened AllocSteps

  class Alloc {
    const unit: nat            // sizeof(struct binder_buffer)
    var total: nat             // buffer_size
    var vma: bool              // vma != NULL
    var buffers: seq<Buffer>
    var freeTree: Tree
    var allocTree: Tree
    var pages: array<Page>
    var freeAsync: nat         // free_async_space
    var warned: bool           // some WARN_ON on the LRU list fired
    ghost var zeroFreed: nat   // freed 0-size async buffers
    ghost var wraps: int       // times the budget wrapped below zero, less times it wrapped back
    ghost var zeroSeen: bool   // some 0-size async buffer was ever allocated

    ghost predicate Valid()
      reads this, pages
    {
      && unit <= PAGE && !warned
      && if total == 0 then buffers == [] && freeTree == Leaf && allocTree == Leaf && !vma && pages.Length == 0
         else
           && total % PAGE == 0 && total <= MAX_MAP
           && Structure(buffers, total, freeTree, allocTree)
           && Accounted(buffers, total, pages[..])
           && Budget(freeAsync, buffers, unit, zeroFreed, wraps, zeroSeen, total)
    }

    constructor (unit: nat)
      requires unit <= PAGE
      ensures Valid() && total == 0 && this.unit == unit
    {
      this.unit := unit;
      total, vma, buffers, freeTree, allocTree := 0, false, [], Leaf, Leaf;
      pages := new Page[0];
      freeAsync, warned, zeroFreed, wraps, zeroSeen := 0, false, 0, 0, false;
    }

    /** binder_alloc_mmap_handler: one free buffer covers the region, no page is present. */
    method MmapHandler(vmSize: nat, arrayOk: bool, structOk: bool) returns (r: Result<()>)
      requires Valid()
      requires vmSize > 0 && vmSize % PAGE == 0
      modifies this
      ensures Valid()
      ensures r.Ok? <==> old(total) == 0 && arrayOk && structOk
      ensures r.Err? ==> total == old(total) && buffers == old(buffers) && freeAsync == old(freeAsync)
                         && r.error == if old(total) != 0 then EBUSY else ENOMEM
      ensures r.Ok? ==> total == Min(vmSize, MAX_MAP) && vma && buffers == [FreshFree(0)] && freeAsync == total / 2
      ensures r.Ok? ==> buffers[0].start == 0 && buffers[0].free && (forall p :: 0 <= p < pages.Length ==> !pages[p].present && !pages[p].lru)
    {
      hide Structure, Accounted, Budget, InOrder, Tiles, SizeKeys, Keyed, Insert, Min;
      if total != 0 { return Err(EBUSY); }
      if !arrayOk || !structOk { return Err(ENOMEM); }
      MappedSize(vmSize);
      total := Min(vmSize, MAX_MAP);
      pages := new Page[total / PAGE](_ => Page(false, false, Zeroes(PAGE)));
      buffers := [FreshFree(0)];
      MappedFresh(total, unit, pages[..]);
      freeTree := Insert(Leaf, 0, SizeKeys(buffers, total));
      freeAsync := total / 2;
      zeroFreed, wraps, zeroSeen := 0, 0, false;
      vma := true;
      return Ok(());
    }

    /** The part of binder_alloc_new_buf_locked after the best fit has been found. */
    method TakeBuffer(i: nat, rq: Request, mm: bool, noPage: set<nat>, noMap: set<nat>, structOk: bool) returns (r: Result<()>)
      requires Valid() && total > 0 && vma && WordSized(rq) && Tiles(buffers, total)
      requires Chosen(buffers, total, i, Extent(rq)) && Keyed(InOrder(freeTree), SizeKeys(buffers, total))
      requires BestFit(freeTree, SizeKeys(buffers, total), Extent(rq), Start(buffers, i))
      requires rq.async ==> freeAsync >= Demand(rq) + unit
      modifies this, pages
      ensures Valid() && total == old(total) && vma == old(vma) && pages == old(pages)
      ensures r.Err? <==> Blocked(old(buffers), total, old(pages[..]), i, Extent(rq), mm, noPage, noMap, structOk)
      ensures r.Ok? ==> PagesReady(old(pages[..]), pages[..])
      ensures r.Err? ==> r.error == (if mm || !NoPageFor(old(buffers), total, old(pages[..]), i, Extent(rq), mm, noPage, noMap) then ENOMEM else ESRCH)
                         && buffers == old(buffers) && freeTree == old(freeTree) && allocTree == old(allocTree)
                         && freeAsync == old(freeAsync)
      ensures r.Ok? ==> buffers == Carve(old(buffers), total, i, Extent(rq), rq) && TookFree(old(buffers), buffers, Start(old(buffers), i), rq)
                        && freeAsync == AsyncAfter(old(freeAsync), rq, unit)
      ensures ActiveKept(old(pages[..]), pages[..])
    {
      hide Structure, Accounted, Charges, InOrder, Tiles, SizeKeys, Keyed, Ordered, BestFit, Addresses, Chosen, Fits,
           Exact, NoFreePair, Budget, Carve, Demand, Extent, ActiveKept, AsyncAfter, Size, Start, WordSized, TookFree, Blocked, NoPageFor, PagesReady;
      ChosenParts(buffers, total, i, Extent(rq));
      TookChosen(buffers, total, i, Extent(rq), rq);
      ghost var list := buffers;
      StructureParts(list, total, freeTree, allocTree);
      ExtentPositive(rq);
      var res, w := ReservePages(pages, buffers, total, i, Extent(rq), rq, vma, mm, noPage, noMap, structOk);
      warned := w;
      if res.Err? { return Err(res.error); }
      ghost var ps := pages[..];
      var list', freeTree', allocTree' := CarveTrees(buffers, total, freeTree, allocTree, i, rq);
      BudgetCarve(freeAsync, list, unit, zeroFreed, wraps, zeroSeen, total, i, rq);
      buffers, freeTree, allocTree := list', freeTree', allocTree';
      zeroSeen := zeroSeen || (rq.async && Demand(rq) == 0);
      wraps := if rq.async && freeAsync < Extent(rq) + unit then wraps + 1 else wraps;
      freeAsync := AsyncAfter(freeAsync, rq, unit);
      assert pages[..] == ps;
      return Ok(());
    }

    /** binder_alloc_new_buf_locked. `mm`, noPage and noMap say which page operations the kernel
        refuses, structOk whether memory for the remainder's struct can be had. */
    method NewBuf(rq: Request, mm: bool, noPage: set<nat>, noMap: set<nat>, structOk: bool) returns (r: Result<nat>)
      requires Valid() && WordSized(rq)
      modifies this, pages
      ensures Valid() && total == old(total) && vma == old(vma) && pages == old(pages)
      // Refusals, in the order they are tested.
      ensures !old(vma) ==> r == Err(ESRCH)
      ensures old(vma) && Demand(rq) >= WORD ==> r == Err(EINVAL)
      ensures old(vma) && Demand(rq) < WORD ==>
                (r == Err(ENOSPC) <==> || (rq.async && old(freeAsync) < Demand(rq) + unit)
                                       || !exists i :: Fits(old(buffers), total, i, Extent(rq)))
      ensures old(vma) && Demand(rq) < WORD && r.Err? && r.error != ENOSPC ==>
                exists i :: && Chosen(old(buffers), total, i, Extent(rq))
                            && Blocked(old(buffers), total, old(pages[..]), i, Extent(rq), mm, noPage, noMap, structOk)
                            && r.error == if mm || !NoPageFor(old(buffers), total, old(pages[..]), i, Extent(rq), mm, noPage, noMap) then ENOMEM else ESRCH
      ensures r.Err? ==> buffers == old(buffers) && freeTree == old(freeTree) && allocTree == old(allocTree)
                         && freeAsync == old(freeAsync)
      // Success: the smallest free buffer that fits is carved to exactly the padded request.
      ensures r.Ok? ==> exists i :: && Chosen(old(buffers), total, i, Extent(rq)) && r.value == Start(old(buffers), i)
                                    && buffers == Carve(old(buffers), total, i, Extent(rq), rq)
                                    && !Blocked(old(buffers), total, old(pages[..]), i, Extent(rq), mm, noPage, noMap, structOk)
      // What is allocated: a buffer at the result with the sizes asked for, not yet user space's to free, and all others as before.
      ensures r.Ok? ==> exists f :: f in old(buffers) && f.free && f.start == r.value
                                    && Live(buffers) == old(Live(buffers)) + {Buffer(r.value, false, false, rq, f.active, f.clearOnFree)}
      ensures r.Ok? ==> exists b :: b in buffers && b.start == r.value
      ensures r.Ok? ==> forall b :: b in buffers && b.start == r.value ==> !b.free && !b.userFree && b.rq == rq
      ensures r.Ok? ==> forall b :: b in buffers && !b.free && b.start != r.value <==> b in old(buffers) && !b.free
      ensures r.Ok? ==> freeAsync == AsyncAfter(old(freeAsync), rq, unit)
      // Contents of pages in use are untouched, pages taken into use keep what they held or are zero.
      ensures r.Ok? ==> PagesReady(old(pages[..]), pages[..])
      ensures ActiveKept(old(pages[..]), pages[..])
    {
      hide Structure, Accounted, Charges, InOrder, Tiles, SizeKeys, Keyed, Insert, Ordered, Erase, BestFit, Addresses, Exact, NoFreePair, WAdd, Fits, Blocked, NoPageFor, PagesReady;
      if !vma { return Err(ESRCH); }
      PackedSizeExact(rq.data, rq.offsets, rq.extra);
      var packed := PackedSize(rq.data, rq.offsets, rq.extra);
      if packed == None { return Err(EINVAL); }
      var size := packed.value;
      StructureParts(buffers, total, freeTree, allocTree);
      AsyncTest(buffers, total, rq, freeAsync, unit);
      if rq.async && freeAsync < WAdd(size, unit) { return Err(ENOSPC); }
      size := Max(size, 8);
      var best := BestFitSearch(freeTree, SizeKeys(buffers, total), size, Addresses(buffers, true));
      if best == None {
        NoneLargeEnough(buffers, total, size);
        return Err(ENOSPC);
      }
      var i := Locate(buffers, total, best.value, true);
      BestIsChosen(buffers, total, freeTree, size, i);
      var taken := TakeBuffer(i, rq, mm, noPage, noMap, structOk);
      if taken.Err? { return Err(taken.error); }
      TookExactly(old(buffers), buffers, total, freeTree, allocTree, best.value, rq);
      return Ok(best.value);
    }

    /** A buffer just allocated is not user space's to free. */
    method NewBufThenFree(rq: Request, mm: bool, noPage: set<nat>, noMap: set<nat>, structOk: bool) returns (r: Result<nat>, freed: Result<Option<nat>>)
      requires Valid() && WordSized(rq)
      modifies this, pages
      ensures Valid() && (r.Ok? ==> freed == Err(EPERM))
    {
      hide *;
      r := NewBuf(rq, mm, noPage, noMap, structOk);
      freed := Err(EINVAL);
      if r.Ok? {
        ghost var list := buffers;
        freed := PrepareToFree(r.value);
        StartsAt(list, r.value);
      }
    }

    /** binder_delete_free_buffer: buffer j disappears into its free predecessor; the page holding its
        start is given back when neither neighbour needs it. */
    method DeleteFreeBuffer(j: nat)
      requires Tiles(buffers, total) && 0 < j < |buffers| && buffers[j - 1].free && buffers[j].free
      requires pages.Length * PAGE == total
      requires LooseActive(buffers, j, pages[..])
      modifies this`buffers, this`warned, pages
      ensures buffers == RemoveAt(old(buffers), j) && warned == old(warned)
      ensures LooseParked(old(buffers), j, old(pages[..]), pages[..])
    {
      hide Tiles, Active;
      var prev: int := Start(buffers, j - 1);
      var start := Start(buffers, j);
      var toFree := true;
      if PageDown(prev - 1) == PageDown(start) { toFree := false; }
      if j + 1 < |buffers| {
        var next := Start(buffers, j + 1);
        if PageDown(next) == PageDown(start) { toFree := false; }
      }
      if start % PAGE == 0 { toFree := false; }
      if toFree {
        PageBounds(start);
        Apart(buffers, total, j, j);
        var w := GiveRange(pages, PageDown(start), PageDown(start));
        warned := warned || w;
      }
      buffers := RemoveAt(buffers, j);
    }

    /** The part of binder_free_buf_locked that merges the freed buffer with its free neighbours. */
    method MergeFreed(i: nat) returns (at: nat)
      requires Tiles(buffers, total) && i < |buffers| && !buffers[i].free && pages.Length * PAGE == total
      requires BoundaryActive(buffers, i, pages[..])
      modifies this`buffers, this`freeTree, this`warned, pages
      ensures buffers == Released(old(buffers), i) && at == MergedStart(old(buffers), i)
      ensures freeTree == FreeTreeWithout(old(buffers), old(freeTree), i) && warned == old(warned)
      ensures forall p :: 0 <= p < pages.Length ==>
                pages[p] == if EndPage(old(buffers), i, p) || StartPage(old(buffers), i, p) then Parked(old(pages[p])) else old(pages[p])
    {
      hide Tiles, RemoveAt, Erase, LooseActive, LooseParked, BoundaryActive, EndPage, StartPage, Parked;
      ghost var list, ps := buffers, pages[..];
      AfterNextShape(list, total, i, i);
      ReleasedTiles(list, total, i);
      at := Start(buffers, i);
      buffers := MarkFree(buffers, i);
      MarkShape(list, total, i, i);
      if i + 1 < |buffers| && buffers[i + 1].free {
        NextLooseActive(list, i, ps);
        freeTree := Erase(freeTree, Start(buffers, i + 1));
        DeleteFreeBuffer(i + 1);
      }
      ghost var mid := pages[..];
      assert buffers == AfterNext(list, i);
      if i > 0 {
        AfterNextShape(list, total, i, i - 1);
        if buffers[i - 1].free {
          PrevLooseActive(list, total, i, ps, mid);
          at := Start(buffers, i - 1);
          DeleteFreeBuffer(i);
          freeTree := Erase(freeTree, at);
        }
      }
      forall p | 0 <= p < pages.Length
        ensures pages[..][p] == if EndPage(list, i, p) || StartPage(list, i, p) then Parked(ps[p]) else ps[p]
      {
        BoundaryParked(list, total, i, ps, mid, pages[..], p);
      }
    }

    /** The page, list and tree moves of binder_free_buf_locked, up to the final insertion. */
    method GiveAndMerge(i: nat) returns (at: nat)
      requires Tiles(buffers, total) && NoFreePair(buffers) && i < |buffers| && !buffers[i].free && Accounted(buffers, total, pages[..])
      modifies this`buffers, this`freeTree, this`allocTree, this`warned, pages
      ensures buffers == Released(old(buffers), i) && at == MergedStart(old(buffers), i)
      ensures freeTree == FreeTreeWithout(old(buffers), old(freeTree), i)
      ensures allocTree == Erase(old(allocTree), Start(old(buffers), i)) && warned == old(warned)
      ensures Accounted(buffers, total, pages[..])
      ensures forall p :: 0 <= p < pages.Length ==> Remains(old(pages[p]), pages[p])
    {
      hide Accounted, Tiles, Erase, NoFreePair, Released, FreeTreeWithout, MergedStart, InsidePage, EndPage, StartPage, Active,
           Parked, Start, End, Size, Remains, BoundaryActive;
      ghost var list, ps := buffers, pages[..];
      AccountedLength(list, total, ps);
      forall p | 0 <= p < |ps| && (InsidePage(list, total, i, p) || EndPage(list, i, p) || StartPage(list, i, p)) ensures Active(ps[p]) {
        GivenIsActive(list, total, i, ps, p);
      }
      var start := Start(buffers, i);
      var w := GiveInside(pages, list, total, i, start, Size(buffers, total, i));
      warned := warned || w;
      ghost var mid := pages[..];
      GivenApart(list, total, i, ps, mid);
      allocTree := Erase(allocTree, start);
      assert mid == pages[..];
      at := MergeFreed(i);
      GivenAll(list, total, i, ps, mid, pages[..]);
    }

    /** binder_free_buf_locked. Its BUG_ONs on an oversized request and on the address never fire; the ones
        on a free buffer and on a pending transaction are the caller's duty. */
    method FreeBufLocked(i: nat)
      requires Valid() && i < |buffers| && !buffers[i].free && !buffers[i].active
      modifies this, pages
      ensures Valid() && total == old(total) && vma == old(vma) && pages == old(pages)
      ensures buffers == Released(old(buffers), i) && Live(buffers) == old(Live(buffers)) - {old(buffers[i])}
      ensures freeAsync == AsyncRefund(old(freeAsync), old(buffers[i].rq), unit) % WORD
      ensures zeroSeen == old(zeroSeen)
      ensures forall p :: 0 <= p < pages.Length ==> Remains(old(pages[p]), pages[p])
    {
      hide Structure, Accounted, InOrder, Tiles, SizeKeys, Keyed, Insert, Erase, Exact, NoFreePair, Ordered, Addresses, AddressKeys,
           Budget, Released, FreeTreeWithout, MergedStart, Demand, AsyncRefund, Start, End, Size, Remains;
      ghost var list := buffers;
      StructureParts(list, total, freeTree, allocTree);
      ReleasedStructure(list, total, freeTree, allocTree, i);
      ReleasedLive(list, total, i);
      BudgetReleased(freeAsync, list, unit, zeroFreed, wraps, zeroSeen, total, i);
      var rq := buffers[i].rq;
      FreedFits(list, total, i);
      assert Demand(rq) <= Size(buffers, total, i) && Start(buffers, i) <= total;
      zeroFreed := if rq.async && Demand(rq) == 0 then zeroFreed + 1 else zeroFreed;
      wraps := wraps - AsyncRefund(freeAsync, rq, unit) / WORD;
      freeAsync := AsyncRefund(freeAsync, rq, unit) % WORD;
      var at := GiveAndMerge(i);
      freeTree := Insert(freeTree, at, SizeKeys(buffers, total));
    }

    /** The driver's writes to a buffer's allow_user_free, transaction and clear_on_free. */
    method SetFlags(i: nat, userFree: bool, active: bool, clearOnFree: bool)
      requires Valid() && i < |buffers|
      modifies this`buffers
      ensures Valid() && buffers == old(buffers)[i := old(buffers[i]).(userFree := userFree, active := active, clearOnFree := clearOnFree)]
    {
      hide Structure, Accounted, Budget, Start;
      ghost var list := buffers;
      buffers := buffers[i := buffers[i].(userFree := userFree, active := active, clearOnFree := clearOnFree)];
      FlagsOnly(list, i, buffers[i]);
      ReflaggedStructure(list, buffers, total, freeTree, allocTree);
      ReflaggedAccounted(list, buffers, total, pages[..]);
      ReflaggedBudget(freeAsync, list, buffers, unit, zeroFreed, wraps, zeroSeen, total);
    }

    /** binder_alloc_prepare_to_free: hands an allocated buffer to user space's free request once. */
    method PrepareToFree(a: nat) returns (r: Result<Option<nat>>)
      requires Valid()
      modifies this`buffers
      ensures Valid()
      ensures r == Ok(None) <==> !exists k :: 0 <= k < |old(buffers)| && !old(buffers)[k].free && Start(old(buffers), k) == a
      ensures r == Ok(None) || r.Err? ==> buffers == old(buffers)
      ensures r.Err? ==> r.error == EPERM && exists k :: 0 <= k < |buffers| && !buffers[k].free && Start(buffers, k) == a && !buffers[k].userFree
      ensures r.Ok? && r.value.Some? ==>
                && r.value.value < |old(buffers)|
                && var b := old(buffers)[r.value.value];
                   b.start == a && !b.free && b.userFree && buffers == old(buffers)[r.value.value := b.(userFree := false)]
    {
      hide Structure, Accounted, Budget, Ordered, AddressKeys, Tiles, SizeKeys, NoFreePair, Exact;
      if total == 0 { return Ok(None); }
      StructureParts(buffers, total, freeTree, allocTree);
      var found := FindAllocated(allocTree, a, buffers);
      if !found { return Ok(None); }
      var i := Locate(buffers, total, a, false);
      if !buffers[i].userFree { return Err(EPERM); }
      SetFlags(i, false, buffers[i].active, buffers[i].clearOnFree);
      return Ok(Some(i));
    }

    /** check_buffer */
    predicate CheckBuffer(i: nat, offset: nat, bytes: nat)
      requires Tiles(buffers, total) && i < |buffers|
      reads this
    {
      && Size(buffers, total, i) >= bytes
      && offset <= Size(buffers, total, i) - bytes
      && offset % 4 == 0
      && !buffers[i].free
      && (!buffers[i].userFree || !buffers[i].active)
    }

    /** binder_alloc_do_buffer_copy: refused without effect, or a splice of, or a slice from, the buffer's
        contents; no other buffer is touched. */
    method DoBufferCopy(toBuffer: bool, i: nat, offset: nat, ptr: seq<byte>) returns (r: Result<seq<byte>>)
      requires Valid() && i < |buffers| && Tiles(buffers, total)
      modifies pages
      ensures Valid()
      ensures r.Ok? <==> && offset % 4 == 0 && offset + |ptr| <= Size(buffers, total, i)
                         && !buffers[i].free && !(buffers[i].userFree && buffers[i].active)
      ensures r.Err? ==> r.error == EINVAL && pages[..] == old(pages[..])
      ensures r.Ok? && toBuffer ==> Written(buffers, total, old(pages[..]), pages[..], i, offset, ptr)
      ensures r.Ok? && !toBuffer ==>
                pages[..] == old(pages[..]) && |r.value| == |ptr| && Reads(buffers, total, pages[..], i, offset, r.value)
    {
      hide Structure, Accounted, Budget, Tiles, Start, End, Size, Written, Reads;
      if !CheckBuffer(i, offset, |ptr|) { return Err(EINVAL); }
      var out := CopyBuffer(pages, toBuffer, buffers, total, i, offset, ptr);
      return Ok(out);
    }

    /** binder_alloc_clear_buf */
    method ClearBuf(i: nat)
      requires Valid() && i < |buffers| && !buffers[i].free
      modifies pages
      ensures Valid() && Cleared(buffers, total, old(pages[..]), pages[..], i)
    {
      hide Structure, Accounted, Budget, Tiles, Cleared;
      StructureParts(buffers, total, freeTree, allocTree);
      ClearBuffer(pages, buffers, total, i);
    }

    /** binder_alloc_free_buf */
    method FreeBuf(i: nat)
      requires Valid() && i < |buffers| && !buffers[i].free && !buffers[i].active
      modifies this, pages
      ensures Valid() && total == old(total) && vma == old(vma) && pages == old(pages) && zeroSeen == old(zeroSeen)
      ensures buffers == Released(old(buffers)[i := old(buffers[i]).(clearOnFree := false)], i)
      ensures Live(buffers) == old(Live(buffers)) - {old(buffers[i])}
      ensures freeAsync == AsyncRefund(old(freeAsync), old(buffers[i].rq), unit) % WORD
      ensures if old(buffers[i].clearOnFree) then Cleared(old(buffers), total, old(pages[..]), pages[..], i)
              else forall k :: 0 <= k < |old(buffers)| ==> Kept(old(buffers), total, old(pages[..]), pages[..], k)
    {
      hide Structure, Accounted, Budget, Start, Released, Remains, Reflagged, Cleared, Kept, AsyncRefund, Mapped;
      ghost var list, ps := buffers, pages[..];
      StructureMapped(list, total, freeTree, allocTree, ps);
      FlagLive(list, total, freeTree, allocTree, i, list[i].(clearOnFree := false));
      if buffers[i].clearOnFree {
        ClearBuf(i);
        SetFlags(i, buffers[i].userFree, buffers[i].active, false);
      }
      ghost var mid, ps1 := buffers, pages[..];
      StructureMapped(mid, total, freeTree, allocTree, ps1);
      FlagsOnly(list, i, list[i].(clearOnFree := false));
      assert mid == list[i := list[i].(clearOnFree := false)];
      FreeBufLocked(i);
      FreedContents(list, mid, total, ps, ps1, pages[..], i, list[i].clearOnFree);
    }

    /** binder_alloc_vma_close */
    method VmaClose()
      requires Valid()
      modifies this`vma
      ensures Valid() && !vma
    {
      hide Structure, Accounted, Budget;
      vma := false;
    }

    /** binder_alloc_free_page, the shrinker's callback on a page of the LRU list. The page is taken off the
        list and dropped, or skipped; a listed page is always present. */
    method FreePage(p: nat, locked: bool, mmAlive: bool, mmapLocked: bool) returns (removed: bool)
      requires Valid() && p < pages.Length && pages[p].lru
      modifies pages
      ensures Valid()
      ensures removed <==> locked && mmAlive && mmapLocked
      ensures !removed ==> pages[..] == old(pages[..])
      ensures removed ==> pages[..] == old(pages[..])[p := old(pages[p]).(present := false, lru := false)]
      ensures forall k :: 0 <= k < |buffers| && !buffers[k].free ==> Kept(buffers, total, old(pages[..]), pages[..], k)
    {
      hide Structure, Accounted, Budget, Tiles, NoFreePair, Exact, Kept, Ordered, SizeKeys, AddressKeys, Addresses, FullPages;
      ghost var ps := pages[..];
      StructureParts(buffers, total, freeTree, allocTree);
      AccountedLength(buffers, total, ps);
      SameKept(buffers, total, ps);
      if !locked { return false; }
      if !pages[p].present { return false; }
      if !mmAlive || !mmapLocked { return false; }
      pages[p] := pages[p].(lru := false);
      pages[p] := pages[p].(present := false);
      FreePageAccounted(buffers, total, ps, pages[..], p);
      FreePageKept(buffers, total, ps, pages[..]);
      return true;
    }

    /** One round of the first loop of binder_alloc_deferred_release. */
    method ReleaseFirst()
      requires Valid() && allocTree.Node? && !vma && NonePending(buffers)
      modifies this, pages
      ensures Valid() && total == old(total) && pages == old(pages) && !vma && NonePending(buffers) && zeroSeen == old(zeroSeen)
      ensures |Addresses(buffers, false)| == |old(Addresses(buffers, false))| - 1
    {
      hide Structure, Accounted, Budget, Tiles, Released, Start, Addresses, NonePending, AsyncRefund, InOrder, Cleared, Kept;
      ghost var list := buffers;
      var a := First(allocTree);
      FirstAllocated(list, total, freeTree, allocTree, a);
      var i := Locate(buffers, total, a, false);
      ReleasedNext(list, total, freeTree, allocTree, i, list[i := list[i].(clearOnFree := false)]);
      FreeBuf(i);
    }

    /** The first loop of binder_alloc_deferred_release: every buffer still allocated is cleared if asked for, and freed. */
    method ReleaseAll() returns (freed: nat)
      requires Valid() && total > 0 && !vma && NonePending(buffers)
      modifies this, pages
      ensures Valid() && total == old(total) && pages == old(pages)
      ensures |buffers| == 1 && buffers[0].free && freed == |old(Addresses(buffers, false))|
      ensures !old(zeroSeen) ==> freeAsync == total / 2
    {
      hide Structure, Accounted, Budget, Addresses, NonePending;
      freed := 0;
      while allocTree.Node?
        invariant Valid() && total == old(total) && pages == old(pages) && !vma && NonePending(buffers) && zeroSeen == old(zeroSeen)
        invariant freed + |Addresses(buffers, false)| == |old(Addresses(buffers, false))|
        decreases |Addresses(buffers, false)|
      {
        ReleaseFirst();
        freed := freed + 1;
      }
      AllFree(buffers, total, freeTree, unit, freeAsync, zeroFreed, wraps, zeroSeen);
    }

    /** binder_alloc_deferred_release: nothing stays behind, and neither warning about the buffer list fires. */
    method DeferredRelease() returns (freed: nat)
      requires Valid() && !vma && NonePending(buffers)
      modifies this, pages
      ensures freed == |old(Addresses(buffers, false))| && buffers == [] && !warned
      ensures pages == old(pages) && forall p :: 0 <= p < pages.Length ==> !pages[p].present
      ensures !old(zeroSeen) && total > 0 ==> freeAsync == total / 2
    {
      hide Structure, Accounted, Budget, Addresses, NonePending;
      freed := 0;
      if total > 0 {
        freed := ReleaseAll();
      } else {
        NoneAllocated();
      }
      while buffers != []
        invariant |buffers| <= 1 && (buffers != [] ==> buffers[0].free)
        decreases |buffers|
        modifies this`buffers
      {
        assert buffers[0].free;
        buffers := buffers[1..];
        assert buffers == [];
      }
      for i := 0 to pages.Length
        invariant forall p :: 0 <= p < i ==> !pages[p].present
        modifies pages
      {
        if pages[i].present { pages[i] := pages[i].(present := false, lru := false); }
      }
    }
  }
}
