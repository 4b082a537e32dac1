/** Moving a range of pages into use or onto the LRU list (binder_update_page_range). */
module PageRange {
  import opened Words
  import opened PageMemory

  /** A page after it has been taken: off the LRU list, or freshly zeroed. */
  function Woken(pg: Page): Page {
    if pg.present then pg.(lru := false) else Page(true, false, Zeroes(PAGE))
  }

  ghost predicate InRange(start: nat, end: nat, p: nat) {
    start <= p * PAGE < end
  }

  /** A page not in use stays out of use, keeps its contents if it has any, and stays well formed. */
  ghost predicate StillIdle(pg: Page, pg': Page) {
    && !Active(pg')
    && (pg'.lru ==> pg'.present)
    && (pg.present ==> pg'.present && pg'.bytes == pg.bytes)
    && |pg'.bytes| == PAGE
  }

  /** Whether taking the range must fail: some page is absent, and either there is no
      address space to map it into or memory for an absent page cannot be had. */
  ghost predicate CannotTake(ps: seq<Page>, start: nat, end: nat, mapped: bool, noPage: set<nat>, noMap: set<nat>) {
    exists p :: 0 <= p < |ps| && InRange(start, end, p) && !ps[p].present && (!mapped || p in noPage || p in noMap)
  }

  /** Puts pages last, last - PAGE, ..., start on the LRU list. */
  method GiveRange(pages: array<Page>, start: nat, last: nat) returns (warned: bool)
    requires start % PAGE == 0 && last % PAGE == 0 && start <= last && last / PAGE < pages.Length
    requires forall p :: 0 <= p < pages.Length && start <= p * PAGE <= last ==> Active(pages[p])
    modifies pages
    ensures forall p :: 0 <= p < pages.Length ==>
              pages[p] == if start <= p * PAGE <= last then old(pages[p]).(lru := true) else old(pages[p])
    ensures !warned
  {
    warned := false;
    var addr := last;
    while true
      invariant addr % PAGE == 0 && start <= addr <= last
      invariant !warned
      invariant forall p :: 0 <= p < pages.Length ==>
                  pages[p] == if addr < p * PAGE <= last then old(pages[p]).(lru := true) else old(pages[p])
      decreases addr
    {
      var p := addr / PAGE;
      assert addr == p * PAGE;
      var added := !pages[p].lru;
      pages[p] := pages[p].(lru := true);
      if !added { warned := true; }
      if addr == start { break; }
      addr := addr - PAGE;
    }
  }

  /** The first pass: is any page of the range absent? */
  method AnyAbsent(pages: array<Page>, start: nat, end: nat) returns (needMm: bool)
    requires start % PAGE == 0 && end % PAGE == 0 && start <= end <= pages.Length * PAGE
    ensures needMm <==> exists p :: 0 <= p < pages.Length && InRange(start, end, p) && !pages[p].present
  {
    var addr := start;
    while addr < end
      invariant addr % PAGE == 0 && start <= addr <= end
      invariant forall p :: 0 <= p < pages.Length && InRange(start, addr, p) ==> pages[p].present
    {
      var p := addr / PAGE;
      assert addr == p * PAGE;
      if !pages[p].present {
        assert InRange(start, end, p);
        return true;
      }
      addr := addr + PAGE;
    }
    assert addr == end;
    return false;
  }

  /** One page of the second pass. */
  method TakeOne(pages: array<Page>, p: nat, noPage: set<nat>, noMap: set<nat>) returns (ok: bool, warned: bool)
    requires p < pages.Length && !Active(pages[p]) && |pages[p].bytes| == PAGE && (pages[p].lru ==> pages[p].present)
    modifies pages
    ensures forall q :: 0 <= q < pages.Length && q != p ==> pages[q] == old(pages[q])
    ensures ok ==> pages[p] == Woken(old(pages[p]))
    ensures !ok ==> StillIdle(old(pages[p]), pages[p])
    ensures !ok <==> !old(pages[p]).present && (p in noPage || p in noMap)
    ensures !warned
  {
    warned := false;
    if pages[p].present {
      var onLru := pages[p].lru;
      pages[p] := pages[p].(lru := false);
      if !onLru { warned := true; }
      return true, warned;
    }
    if p in noPage { return false, warned; }
    pages[p] := Page(true, false, Zeroes(PAGE));
    if p in noMap {
      pages[p] := pages[p].(present := false);
      return false, warned;
    }
    return true, warned;
  }

  /** Pages taken and then put back are idle again. */
  lemma RolledBack(ps: seq<Page>, ps': seq<Page>, ps'': seq<Page>, start: nat, addr: nat)
    requires |ps| == |ps'| == |ps''| && WellFormed(ps)
    requires forall p :: 0 <= p < |ps| && InRange(start, addr, p) ==>
               !Active(ps[p]) && ps'[p] == Woken(ps[p]) && ps''[p] == ps'[p].(lru := true)
    ensures forall p :: 0 <= p < |ps| && InRange(start, addr, p) ==> StillIdle(ps[p], ps''[p])
  {
  }

  /** Takes the pages of [start, end) into use, or rolls back to none of them. `mm` says whether
      the address space could be pinned, `vma` whether it is still mapped; noPage and noMap are
      the pages whose allocation or user mapping fails. */
  method TakeRange(pages: array<Page>, start: nat, end: nat, vma: bool, mm: bool, noPage: set<nat>, noMap: set<nat>)
    returns (r: Result<()>, warned: bool)
    requires start % PAGE == 0 && end % PAGE == 0 && end <= pages.Length * PAGE
    requires WellFormed(pages[..])
    requires forall p :: 0 <= p < pages.Length && InRange(start, end, p) ==> !Active(pages[p])
    modifies pages
    ensures forall p :: 0 <= p < pages.Length && !InRange(start, end, p) ==> pages[p] == old(pages[p])
    ensures r.Ok? ==> forall p :: 0 <= p < pages.Length && InRange(start, end, p) ==> pages[p] == Woken(old(pages[p]))
    ensures r.Err? ==> forall p :: 0 <= p < pages.Length && InRange(start, end, p) ==> StillIdle(old(pages[p]), pages[p])
    ensures r.Err? <==> CannotTake(old(pages[..]), start, end, vma && mm, noPage, noMap)
    ensures r.Err? ==> r.error == if vma && mm then ENOMEM else ESRCH
    ensures !warned
  {
    warned := false;
    ghost var ps := pages[..];
    assert forall p :: 0 <= p < pages.Length ==> ps[p] == pages[p];
    if end <= start { return Ok(()), warned; }
    var needMm := AnyAbsent(pages, start, end);
    var area := needMm && mm && vma;
    if !area && needMm {
      assert CannotTake(ps, start, end, vma && mm, noPage, noMap);
      return Err(ESRCH), warned;
    }
    var addr := start;
    while addr < end
      invariant addr % PAGE == 0 && start <= addr <= end
      invariant !warned
      invariant forall p :: 0 <= p < pages.Length ==>
                  pages[p] == if InRange(start, addr, p) then Woken(ps[p]) else ps[p]
      invariant forall p :: 0 <= p < pages.Length && InRange(start, addr, p) ==>
                  ps[p].present || !(p in noPage || p in noMap)
    {
      var p := addr / PAGE;
      assert addr == p * PAGE && InRange(start, end, p) && !InRange(start, addr, p);
      assert ps[p].present || area;   // WARN_ON(!vma) cannot fire
      var ok, w := TakeOne(pages, p, noPage, noMap);
      warned := w;
      if !ok {
        assert !ps[p].present && CannotTake(ps, start, end, vma && mm, noPage, noMap);
        if addr != start {
          ghost var ps' := pages[..];
          var w' := GiveRange(pages, start, addr - PAGE);
          warned := w';
          RolledBack(ps, ps', pages[..], start, addr);
        }
        return Err(if area then ENOMEM else ESRCH), warned;
      }
      addr := addr + PAGE;
    }
    return Ok(()), warned;
  }
}
