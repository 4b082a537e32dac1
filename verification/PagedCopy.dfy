/** Copying and clearing page by page, against the flat view of the pages. */
module PagedCopy {
  import opened Words
  import opened PageMemory

  /** Pages that a run of bytes at `at` lies on. */
  ghost predicate Touched(at: nat, n: nat, p: nat) {
    p * PAGE < at + n && at < (p + 1) * PAGE
  }

  /** Only contents of touched pages changed, never whether a page is present or up for reclaim. */
  ghost predicate OnlyContents(ps: seq<Page>, ps': seq<Page>, at: nat, n: nat) {
    && |ps'| == |ps|
    && (forall p :: 0 <= p < |ps| ==> ps'[p].present == ps[p].present && ps'[p].lru == ps[p].lru)
    && (forall p :: 0 <= p < |ps| && !Touched(at, n, p) ==> ps'[p] == ps[p])
  }

  lemma PageOf(a: nat) returns (p: nat, off: nat)
    ensures p == a / PAGE && off == a % PAGE && a == p * PAGE + off && off < PAGE
  {
    p, off := a / PAGE, a % PAGE;
  }

  /** One more chunk extends the copied run. */
  lemma ChunkExtends(ps0: seq<Page>, ps: seq<Page>, at: nat, src: seq<byte>, done: nat, size: nat, p: nat, off: nat)
    requires FullPages(ps0) && FullPages(ps) && |ps| == |ps0| && at + |src| <= |ps| * PAGE && done + size <= |src|
    requires Flat(ps) == Splice(Flat(ps0), at, src[..done]) && OnlyContents(ps0, ps, at, done)
    requires p < |ps| && at + done == p * PAGE + off && 0 < size && off + size <= PAGE
    ensures var ps' := ps[p := ps[p].(bytes := Splice(ps[p].bytes, off, src[done..done + size]))];
            && FullPages(ps') && Flat(ps') == Splice(Flat(ps0), at, src[..done + size]) && OnlyContents(ps0, ps', at, done + size)
  {
    var chunk := src[done..done + size];
    var ps' := ps[p := ps[p].(bytes := Splice(ps[p].bytes, off, chunk))];
    ChunkSplices(ps, p, off, chunk);
    SpliceSplice(Flat(ps0), at, src[..done], chunk);
    assert src[..done] + chunk == src[..done + size];
    forall q | 0 <= q < |ps| && !Touched(at, done + size, q) ensures ps'[q] == ps0[q] {
      assert !Touched(at, done, q) && q != p;
    }
  }

  /** binder_alloc_get_page: the page an address lies on and the offset in it. */
  method GetPage(a: nat) returns (index: nat, pgoff: nat)
    ensures a == index * PAGE + pgoff && pgoff < PAGE
  {
    return a / PAGE, a % PAGE;
  }

  /** memcpy or memset into one mapped page. */
  method WriteChunk(pages: array<Page>, p: nat, off: nat, chunk: seq<byte>)
    requires p < pages.Length && |pages[p].bytes| == PAGE && off + |chunk| <= PAGE && pages[p].present
    modifies pages
    ensures pages[..] == old(pages[..])[p := old(pages[p]).(bytes := Splice(old(pages[p].bytes), off, chunk))]
  {
    hide Splice;
    pages[p] := pages[p].(bytes := Splice(pages[p].bytes, off, chunk));
  }

  lemma ChunkTouched(ps: seq<Page>, ps': seq<Page>, at: nat, n: nat, done: nat, p: nat, off: nat)
    requires done < n && p < |ps| && at + done == p * PAGE + off && off < PAGE
    requires FullPages(ps') && OnlyContents(ps, ps', at, done)
    requires forall q :: 0 <= q < |ps| && Touched(at, n, q) ==> Active(ps[q])
    ensures p < |ps'| && ps'[p].present && |ps'[p].bytes| == PAGE
  {
    assert Touched(at, n, p);
  }

  lemma ContentsUntouched(ps: seq<Page>, at: nat, n: nat)
    ensures OnlyContents(ps, ps, at, n)
  {
  }

  /** The loop of binder_alloc_do_buffer_copy. */
  method CopyLoop(pages: array<Page>, toBuffer: bool, at: nat, ptr: seq<byte>) returns (out: seq<byte>)
    requires FullPages(pages[..]) && at + |ptr| <= pages.Length * PAGE
    requires forall p :: 0 <= p < pages.Length && Touched(at, |ptr|, p) ==> Active(pages[p])
    modifies pages
    ensures FullPages(pages[..]) && OnlyContents(old(pages[..]), pages[..], at, |ptr|)
    ensures toBuffer ==> out == ptr && Flat(pages[..]) == Splice(old(Flat(pages[..])), at, ptr)
    ensures !toBuffer ==> pages[..] == old(pages[..]) && out == Flat(pages[..])[at..at + |ptr|]
  {
    hide Flat, Splice, FullPages, OnlyContents, Touched, Active;
    ghost var ps := pages[..];
    var bytes: nat := |ptr|;
    var done: nat := 0;
    out := [];
    assert ps == pages[..];
    assert forall q :: 0 <= q < |ps| && Touched(at, |ptr|, q) ==> Active(ps[q]);
    SpliceNothing(Flat(ps), at, ptr[..0]);
    SliceNothing(Flat(ps), at);
    ContentsUntouched(ps, at, 0);
    while bytes > 0
      invariant done + bytes == |ptr|
      invariant FullPages(pages[..]) && OnlyContents(ps, pages[..], at, done)
      invariant toBuffer ==> Flat(pages[..]) == Splice(Flat(ps), at, ptr[..done])
      invariant !toBuffer ==> pages[..] == ps && out == Flat(ps)[at..at + done]
    {
      var index, pgoff := GetPage(at + done);
      var size := if bytes < PAGE - pgoff then bytes else PAGE - pgoff;
      ChunkTouched(ps, pages[..], at, |ptr|, done, index, pgoff);
      if toBuffer {
        ChunkExtends(ps, pages[..], at, ptr, done, size, index, pgoff);
        WriteChunk(pages, index, pgoff, ptr[done..done + size]);
      } else {
        ChunkReads(ps, index, pgoff, size);
        SliceJoin(Flat(ps), at, done, size);
        ContentsUntouched(ps, at, done + size);
        out := out + pages[index].bytes[pgoff..pgoff + size];
      }
      bytes := bytes - size;
      done := done + size;
    }
    assert ptr[..done] == ptr;
    if toBuffer { out := ptr; }
  }

  lemma SpliceNothing(f: seq<byte>, at: nat, none: seq<byte>)
    requires at <= |f| && none == []
    ensures Splice(f, at, none) == f
  {
  }

  lemma SliceNothing(f: seq<byte>, at: nat)
    requires at <= |f|
    ensures f[at..at + 0] == []
  {
  }

  lemma SliceJoin(f: seq<byte>, at: nat, done: nat, size: nat)
    requires at + done + size <= |f|
    ensures f[at..at + done] + f[at + done..at + done + size] == f[at..at + (done + size)]
  {
  }

  /** The loop of binder_alloc_clear_buf. */
  method ClearLoop(pages: array<Page>, at: nat, n: nat)
    requires FullPages(pages[..]) && at + n <= pages.Length * PAGE
    requires forall p :: 0 <= p < pages.Length && Touched(at, n, p) ==> Active(pages[p])
    modifies pages
    ensures FullPages(pages[..]) && OnlyContents(old(pages[..]), pages[..], at, n)
    ensures Flat(pages[..]) == Splice(old(Flat(pages[..])), at, Zeroes(n))
  {
    hide Flat, Splice, FullPages, OnlyContents, Touched, Active;
    ghost var ps, zeroes := pages[..], Zeroes(n);
    var bytes: nat := n;
    var done: nat := 0;
    assert forall q :: 0 <= q < |ps| && Touched(at, n, q) ==> Active(ps[q]);
    SpliceNothing(Flat(ps), at, zeroes[..0]);
    ContentsUntouched(ps, at, 0);
    while bytes > 0
      invariant done + bytes == n
      invariant FullPages(pages[..]) && OnlyContents(ps, pages[..], at, done)
      invariant Flat(pages[..]) == Splice(Flat(ps), at, zeroes[..done])
    {
      var index, pgoff := GetPage(at + done);
      var size := if bytes < PAGE - pgoff then bytes else PAGE - pgoff;
      ChunkTouched(ps, pages[..], at, n, done, index, pgoff);
      ChunkExtends(ps, pages[..], at, zeroes, done, size, index, pgoff);
      assert zeroes[done..done + size] == Zeroes(size);
      WriteChunk(pages, index, pgoff, Zeroes(size));
      bytes := bytes - size;
      done := done + size;
    }
    assert zeroes[..done] == zeroes;
  }
}
