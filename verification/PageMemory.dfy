/** The pages behind the mapped region and their contents as one flat byte sequence. */
module PageMemory {
  import opened Words

  /** page_ptr != NULL, membership in the LRU list, and the page's contents. */
  datatype Page = Page(present: bool, lru: bool, bytes: seq<byte>)

  /** In use: backed by memory and not up for reclaim. */
  predicate Active(pg: Page) {
    pg.present && !pg.lru
  }

  ghost predicate WellFormed(ps: seq<Page>) {
    forall p :: 0 <= p < |ps| ==> |ps[p].bytes| == PAGE && (ps[p].lru ==> ps[p].present)
  }

  ghost predicate FullPages(ps: seq<Page>) {
    forall p :: 0 <= p < |ps| ==> |ps[p].bytes| == PAGE
  }

  /** The flat view: the contents of all pages, one after the other. */
  ghost function Flat(ps: seq<Page>): (f: seq<byte>)
    requires FullPages(ps)
    ensures |f| == |ps| * PAGE
    ensures forall a :: 0 <= a < |f| ==> f[a] == ps[a / PAGE].bytes[a % PAGE]
  {
    seq(|ps| * PAGE, a requires 0 <= a < |ps| * PAGE => ps[a / PAGE].bytes[a % PAGE])
  }

  /** f with src written over it from position at. */
  function Splice(f: seq<byte>, at: nat, src: seq<byte>): seq<byte>
    requires at + |src| <= |f|
  {
    f[..at] + src + f[at + |src|..]
  }

  /** Writing chunk at offset off of page p is a splice of the flat view. */
  lemma ChunkSplices(ps: seq<Page>, p: nat, off: nat, chunk: seq<byte>)
    requires FullPages(ps) && p < |ps| && off + |chunk| <= PAGE
    ensures var ps' := ps[p := ps[p].(bytes := Splice(ps[p].bytes, off, chunk))];
            FullPages(ps') && p * PAGE + off + |chunk| <= |ps| * PAGE
            && Flat(ps') == Splice(Flat(ps), p * PAGE + off, chunk)
  {
    var ps' := ps[p := ps[p].(bytes := Splice(ps[p].bytes, off, chunk))];
    var f, g := Flat(ps'), Splice(Flat(ps), p * PAGE + off, chunk);
    forall a | 0 <= a < |ps| * PAGE ensures f[a] == g[a] {
      var q, r := a / PAGE, a % PAGE;
      assert a == q * PAGE + r;
      if q == p {
        assert ps'[p].bytes[r] == Splice(ps[p].bytes, off, chunk)[r];
      } else {
        assert ps'[q] == ps[q];
      }
    }
    assert f == g;
  }

  /** Two adjacent splices are one. */
  lemma SpliceSplice(f: seq<byte>, at: nat, a: seq<byte>, b: seq<byte>)
    requires at + |a| + |b| <= |f|
    ensures Splice(Splice(f, at, a), at + |a|, b) == Splice(f, at, a + b)
  {
  }

  /** Reading a chunk of page p reads a slice of the flat view. */
  lemma ChunkReads(ps: seq<Page>, p: nat, off: nat, n: nat)
    requires FullPages(ps) && p < |ps| && off + n <= PAGE
    ensures p * PAGE + off + n <= |ps| * PAGE
    ensures ps[p].bytes[off..off + n] == Flat(ps)[p * PAGE + off..p * PAGE + off + n]
  {
    var f := Flat(ps);
    var x, y := ps[p].bytes[off..off + n], f[p * PAGE + off..p * PAGE + off + n];
    forall k | 0 <= k < n ensures x[k] == y[k] {
      var a := p * PAGE + off + k;
      assert a / PAGE == p && a % PAGE == off + k;
    }
  }

  /** Reading back what was written returns it, and reading elsewhere is unaffected. */
  lemma ReadOverWrite(f: seq<byte>, at: nat, src: seq<byte>, from: nat, n: nat)
    requires at + |src| <= |f| && from + n <= |f|
    ensures from == at && n == |src| ==> Splice(f, at, src)[from..from + n] == src
    ensures from + n <= at || at + |src| <= from ==> Splice(f, at, src)[from..from + n] == f[from..from + n]
  {
  }
}
