/** The ordered list of buffers that carves up the mapped region. Only starts are
    stored: a buffer's size is computed from its successor. Addresses are offsets
    from the page-aligned start of the region. */
module BufferList {
  import opened Words
  import opened SizeTree

  datatype Request = Request(data: nat, offsets: nat, extra: nat, async: bool)

  datatype Buffer = Buffer(
    start: nat,
    free: bool,
    userFree: bool,     // allow_user_free
    rq: Request,        // data_size, offsets_size, extra_buffers_size, async_transaction
    active: bool,       // transaction != NULL
    clearOnFree: bool)

  function FreshFree(start: nat): Buffer {
    Buffer(start, true, false, Request(0, 0, 0, false), false, false)
  }

  function Start(list: seq<Buffer>, i: nat): nat
    requires i < |list|
  {
    list[i].start
  }

  function End(list: seq<Buffer>, total: nat, i: nat): nat
    requires i < |list|
  {
    if i + 1 < |list| then Start(list, i + 1) else total
  }

  /** Buffers tile the region: the first starts at 0 and each ends where its successor starts. */
  ghost predicate Tiles(list: seq<Buffer>, total: nat) {
    && |list| > 0 && Start(list, 0) == 0
    && total % PAGE == 0
    && (forall i :: 0 <= i < |list| ==> Start(list, i) < total && Start(list, i) % 8 == 0)
    && (forall i, j :: 0 <= i < j < |list| ==> Start(list, i) < Start(list, j))
  }

  ghost predicate FreePair(list: seq<Buffer>, i: int) {
    0 < i < |list| && list[i - 1].free && list[i].free
  }

  ghost predicate NoFreePair(list: seq<Buffer>) {
    forall i :: !FreePair(list, i)
  }

  function Size(list: seq<Buffer>, total: nat, i: nat): nat
    requires Tiles(list, total) && i < |list|
  {
    assert i + 1 < |list| ==> Start(list, i) < Start(list, i + 1);
    assert Start(list, i) < total;
    End(list, total, i) - Start(list, i)
  }

  function SizeKeys(list: seq<Buffer>, total: nat): (m: Keys)
    requires Tiles(list, total)
    ensures forall i :: 0 <= i < |list| ==> Start(list, i) in m && m[Start(list, i)] == Size(list, total, i)
  {
    map i | 0 <= i < |list| :: Start(list, i) := Size(list, total, i)
  }

  function AddressKeys(list: seq<Buffer>): (m: Keys)
    ensures forall i :: 0 <= i < |list| ==> Start(list, i) in m
    ensures forall a :: a in m ==> m[a] == a
  {
    var starts := set i | 0 <= i < |list| :: Start(list, i);
    map a | a in starts :: a
  }

  function Addresses(list: seq<Buffer>, free: bool): (s: set<nat>)
    ensures forall i :: 0 <= i < |list| && list[i].free == free ==> Start(list, i) in s
  {
    set i | 0 <= i < |list| && list[i].free == free :: Start(list, i)
  }

  function RemoveAt(list: seq<Buffer>, j: nat): seq<Buffer>
    requires j < |list|
  {
    list[..j] + list[j + 1..]
  }

  /** Buffer i as the allocation leaves it. */
  function Taken(b: Buffer, rq: Request): Buffer {
    b.(free := false, userFree := false, rq := rq)
  }

  /** Request satisfied from buffer i: it shrinks to `size`, the rest becomes a free buffer after it. */
  function Carve(list: seq<Buffer>, total: nat, i: nat, size: nat, rq: Request): seq<Buffer>
    requires Tiles(list, total) && i < |list|
  {
    if size == Size(list, total, i) then list[i := Taken(list[i], rq)]
    else list[..i] + [Taken(list[i], rq), FreshFree(Start(list, i) + size)] + list[i + 1..]
  }

  function MarkFree(list: seq<Buffer>, i: nat): seq<Buffer>
    requires i < |list|
  {
    list[i := list[i].(free := true)]
  }

  predicate MergesNext(list: seq<Buffer>, i: nat)
    requires i < |list|
  {
    i + 1 < |list| && list[i + 1].free
  }

  predicate MergesPrev(list: seq<Buffer>, i: nat)
    requires i < |list|
  {
    i > 0 && list[i - 1].free
  }

  function AfterNext(list: seq<Buffer>, i: nat): (l: seq<Buffer>)
    requires i < |list|
    ensures i < |l|
  {
    if MergesNext(list, i) then RemoveAt(MarkFree(list, i), i + 1) else MarkFree(list, i)
  }

  /** Buffer i freed and coalesced with its free neighbours. */
  function Released(list: seq<Buffer>, i: nat): seq<Buffer>
    requires i < |list|
  {
    if MergesPrev(list, i) then RemoveAt(AfterNext(list, i), i) else AfterNext(list, i)
  }

  // ---- What is allocated ----

  /** The allocated buffers, each with its start and everything that is recorded about it. */
  ghost function Live(list: seq<Buffer>): set<Buffer> {
    set b | b in list && !b.free
  }

  /** An allocation turns one free buffer into one allocated buffer with the request's sizes, not yet user space's to free;
      every other allocated buffer stays as it is. */
  lemma CarveLive(list: seq<Buffer>, total: nat, i: nat, size: nat, rq: Request)
    requires Tiles(list, total) && i < |list| && list[i].free
    ensures Live(Carve(list, total, i, size, rq)) == Live(list) + {Buffer(Start(list, i), false, false, rq, list[i].active, list[i].clearOnFree)}
  {
    hide Tiles;
    var list' := Carve(list, total, i, size, rq);
    var b := Buffer(Start(list, i), false, false, rq, list[i].active, list[i].clearOnFree);
    assert list == list[..i] + [list[i]] + list[i + 1..];
    assert list[i := b] == list[..i] + [b] + list[i + 1..];
    forall x ensures x in list' && !x.free <==> (x in list && !x.free) || x == b {
      assert x in list <==> x in list[..i] || x == list[i] || x in list[i + 1..];
    }
  }

  lemma RemoveLive(list: seq<Buffer>, j: nat)
    requires j < |list| && list[j].free
    ensures Live(RemoveAt(list, j)) == Live(list)
  {
    assert list == list[..j] + [list[j]] + list[j + 1..];
  }

  lemma MarkLive(list: seq<Buffer>, total: nat, i: nat)
    requires Tiles(list, total) && i < |list|
    ensures Live(MarkFree(list, i)) == Live(list) - {list[i]}
  {
    var list' := MarkFree(list, i);
    forall x | x in list && x != list[i] ensures x in list' {
      var k :| 0 <= k < |list| && list[k] == x;
      assert list'[k] == x;
    }
    forall x | x in list' && !x.free ensures x in list && x != list[i] {
      var k :| 0 <= k < |list'| && list'[k] == x;
      assert k != i && Start(list, k) != Start(list, i);
    }
  }

  /** A free takes exactly that buffer away, whatever is merged. */
  lemma ReleasedLive(list: seq<Buffer>, total: nat, i: nat)
    requires Tiles(list, total) && i < |list|
    ensures Live(Released(list, i)) == Live(list) - {list[i]}
  {
    MarkLive(list, total, i);
    if MergesNext(list, i) { RemoveLive(MarkFree(list, i), i + 1); }
    AfterNextShape(list, total, i, i);
    if MergesPrev(list, i) { RemoveLive(AfterNext(list, i), i); }
  }

  /** A free buffer at `a` became an allocated one with that request, and nothing else became allocated or ceased to be. */
  ghost predicate TookFree(list: seq<Buffer>, list': seq<Buffer>, a: nat, rq: Request) {
    exists f :: f in list && f.free && f.start == a && Live(list') == Live(list) + {Buffer(a, false, false, rq, f.active, f.clearOnFree)}
  }

  lemma StartsApart(list: seq<Buffer>, total: nat, b: Buffer, c: Buffer)
    requires Tiles(list, total) && b in list && c in list && b.start == c.start
    ensures b == c
  {
    var j :| 0 <= j < |list| && list[j] == b;
    var k :| 0 <= k < |list| && list[k] == c;
    assert Start(list, j) == Start(list, k);
  }

  lemma StartsAt(list: seq<Buffer>, a: nat)
    ensures (exists b :: b in list && b.start == a) ==> exists k :: 0 <= k < |list| && Start(list, k) == a
    ensures forall k :: 0 <= k < |list| ==> list[k] in list && Start(list, k) == list[k].start
  {
    if b :| b in list && b.start == a {
      var k :| 0 <= k < |list| && list[k] == b;
      assert Start(list, k) == a;
    }
  }

  /** Seen from outside: one buffer more, and all others as before. */
  lemma TookOne(list: seq<Buffer>, list': seq<Buffer>, total: nat, a: nat, rq: Request)
    requires Tiles(list, total) && Tiles(list', total) && TookFree(list, list', a, rq)
    ensures exists b :: b in list' && b.start == a
    ensures forall b :: b in list' && b.start == a ==> !b.free && !b.userFree && b.rq == rq
    ensures forall b :: b in list' && !b.free && b.start != a <==> b in list && !b.free
  {
    hide Tiles;
    var f :| f in list && f.free && f.start == a && Live(list') == Live(list) + {Buffer(a, false, false, rq, f.active, f.clearOnFree)};
    var c := Buffer(a, false, false, rq, f.active, f.clearOnFree);
    assert c in Live(list');
    forall b | b in list' && b.start == a ensures b == c { StartsApart(list', total, b, c); }
    forall b ensures b in list' && !b.free && b.start != a <==> b in list && !b.free {
      assert b in Live(list') <==> b in Live(list) || b == c;
      if b in list && b.start == a { StartsApart(list, total, b, f); }
    }
  }

  // ---- Pages ----

  ghost predicate Overlaps(list: seq<Buffer>, total: nat, i: nat, p: nat)
    requires i < |list|
  {
    Start(list, i) < (p + 1) * PAGE && p * PAGE < End(list, total, i)
  }

  /** Some allocated buffer overlaps page p. */
  ghost predicate Used(list: seq<Buffer>, total: nat, p: nat) {
    exists i :: 0 <= i < |list| && !list[i].free && Overlaps(list, total, i, p)
  }

  /** Some allocated buffer other than i overlaps page p. */
  ghost predicate UsedByOther(list: seq<Buffer>, total: nat, i: nat, p: nat) {
    exists k :: 0 <= k < |list| && k != i && !list[k].free && Overlaps(list, total, k, p)
  }

  /** The two neighbour tests and the alignment test that decide whether the page
      holding the start of a vanishing free buffer is given back. */
  predicate StartPageLoose(list: seq<Buffer>, j: nat)
    requires 0 < j < |list|
  {
    && PageDown(Start(list, j - 1) - 1) != PageDown(Start(list, j))
    && (j + 1 < |list| ==> PageDown(Start(list, j + 1)) != PageDown(Start(list, j)))
    && Start(list, j) % PAGE != 0
  }

  /** The pages an allocation of `size` bytes at the start of buffer i takes into use. */
  ghost predicate TakenPage(list: seq<Buffer>, total: nat, i: nat, size: nat, p: nat)
    requires i < |list|
  {
    PageUp(Start(list, i)) <= p * PAGE < Min(PageUp(Start(list, i) + size), PageDown(End(list, total, i)))
  }

  /** The pages a free of buffer i gives back: whole pages inside it, and the two boundary pages when no one else needs them. */
  ghost predicate GivenPage(list: seq<Buffer>, total: nat, i: nat, p: nat)
    requires i < |list|
  {
    || PageUp(Start(list, i)) <= p * PAGE < PageDown(End(list, total, i))
    || (MergesNext(list, i) && StartPageLoose(MarkFree(list, i), i + 1) && p * PAGE == PageDown(Start(list, i + 1)))
    || (MergesPrev(list, i) && StartPageLoose(AfterNext(list, i), i) && p * PAGE == PageDown(Start(list, i)))
  }

  // ---- Order ----

  /** Two different buffers do not overlap. */
  lemma Apart(list: seq<Buffer>, total: nat, i: nat, k: nat)
    requires Tiles(list, total) && i < |list| && k < |list|
    ensures k < i ==> Start(list, k) < End(list, total, k) <= Start(list, i)
    ensures k > i ==> End(list, total, i) <= Start(list, k)
    ensures Start(list, k) < End(list, total, k) <= total
  {
    assert Start(list, k) < total;
    if k + 1 < |list| {
      assert Start(list, k) < Start(list, k + 1) < total;
      assert k + 1 < i ==> Start(list, k + 1) < Start(list, i);
    }
    if i + 1 < |list| {
      assert i + 1 < k ==> Start(list, i + 1) < Start(list, k);
    }
  }

  lemma TakenIff(list: seq<Buffer>, total: nat, i: nat, size: nat, p: nat)
    requires i < |list|
    ensures TakenPage(list, total, i, size, p) <==>
              Start(list, i) <= p * PAGE < Start(list, i) + size && (p + 1) * PAGE <= End(list, total, i)
  {
    PageCompare(Start(list, i), p);
    PageCompare(Start(list, i) + size, p);
    PageCompare(End(list, total, i), p);
  }

  // ---- Carving ----

  /** How far the buffers after i move when i is carved. */
  function Shift(list: seq<Buffer>, total: nat, i: nat, size: nat): nat
    requires Tiles(list, total) && i < |list|
  {
    if size == Size(list, total, i) then 0 else 1
  }

  /** Where buffer k of the carved list comes from. */
  lemma CarveShape(list: seq<Buffer>, total: nat, i: nat, size: nat, rq: Request, k: nat)
    requires Tiles(list, total) && i < |list| && 0 < size <= Size(list, total, i)
    requires k < |list| + Shift(list, total, i, size)
    ensures var list', d := Carve(list, total, i, size, rq), Shift(list, total, i, size);
            && |list'| == |list| + d
            && (k < i ==> list'[k] == list[k])
            && (k == i ==> list'[k] == Taken(list[i], rq))
            && (d == 1 && k == i + 1 ==> list'[k] == FreshFree(Start(list, i) + size))
            && (k > i + d ==> list'[k] == list[k - d])
  {
  }

  lemma CarveEnds(list: seq<Buffer>, total: nat, i: nat, size: nat, rq: Request, k: nat)
    requires Tiles(list, total) && i < |list| && 0 < size <= Size(list, total, i)
    requires k < |list| + Shift(list, total, i, size)
    ensures var list', d := Carve(list, total, i, size, rq), Shift(list, total, i, size);
            && |list'| == |list| + d
            && (k < i ==> Start(list', k) == Start(list, k) && End(list', total, k) == End(list, total, k))
            && (k == i ==> Start(list', k) == Start(list, k) && End(list', total, k) == Start(list, i) + size)
            && (d == 1 && k == i + 1 ==> Start(list', k) == Start(list, i) + size && End(list', total, k) == End(list, total, i))
            && (k > i + d ==> Start(list', k) == Start(list, k - d) && End(list', total, k) == End(list, total, k - d))
  {
    CarveShape(list, total, i, size, rq, k);
    if k + 1 < |list| + Shift(list, total, i, size) { CarveShape(list, total, i, size, rq, k + 1); }
  }

  lemma TakenUnused(list: seq<Buffer>, total: nat, i: nat, size: nat, p: nat)
    requires Tiles(list, total) && i < |list| && list[i].free
    requires 0 < size <= Size(list, total, i)
    requires TakenPage(list, total, i, size, p)
    ensures !Used(list, total, p)
    ensures Start(list, i) < (p + 1) * PAGE && p * PAGE < Start(list, i) + size
  {
    TakenIff(list, total, i, size, p);
    hide TakenPage;
    forall k | 0 <= k < |list| && !list[k].free ensures !Overlaps(list, total, k, p) {
      Apart(list, total, i, k);
    }
  }

  lemma CarveKeepsUsed(list: seq<Buffer>, total: nat, i: nat, size: nat, rq: Request, p: nat)
    requires Tiles(list, total) && i < |list| && list[i].free
    requires 0 < size <= Size(list, total, i)
    requires Used(list, total, p)
    ensures Used(Carve(list, total, i, size, rq), total, p)
  {
    var list', d := Carve(list, total, i, size, rq), Shift(list, total, i, size);
    var k :| 0 <= k < |list| && !list[k].free && Overlaps(list, total, k, p);
    var k' := if k > i then k + d else k;
    CarveShape(list, total, i, size, rq, k');
    CarveEnds(list, total, i, size, rq, k');
    assert Overlaps(list', total, k', p);
  }

  lemma CarvedStartPage(list: seq<Buffer>, total: nat, i: nat, p: nat)
    requires Tiles(list, total) && NoFreePair(list) && i < |list| && list[i].free
    requires p * PAGE < Start(list, i) < (p + 1) * PAGE
    ensures Used(list, total, p)
  {
    assert i > 0;
    assert !FreePair(list, i);
    Apart(list, total, i, i - 1);
    assert Overlaps(list, total, i - 1, p);
  }

  lemma CarvedEndPage(list: seq<Buffer>, total: nat, i: nat, p: nat)
    requires Tiles(list, total) && NoFreePair(list) && i < |list| && list[i].free
    requires p * PAGE < End(list, total, i) < (p + 1) * PAGE
    ensures Used(list, total, p)
  {
    PageBounds(total);
    Apart(list, total, i, i);
    assert i + 1 < |list|;
    assert !FreePair(list, i + 1);
    Apart(list, total, i, i + 1);
    assert Overlaps(list, total, i + 1, p);
  }

  /** A page of the carved piece is either taken now or already in use by an allocated neighbour. */
  lemma CarvedPage(list: seq<Buffer>, total: nat, i: nat, size: nat, p: nat)
    requires Tiles(list, total) && NoFreePair(list) && i < |list| && list[i].free
    requires 0 < size <= Size(list, total, i)
    requires Start(list, i) < (p + 1) * PAGE && p * PAGE < Start(list, i) + size
    ensures Used(list, total, p) || TakenPage(list, total, i, size, p)
  {
    hide TakenPage;
    TakenIff(list, total, i, size, p);
    if p * PAGE < Start(list, i) {
      CarvedStartPage(list, total, i, p);
    } else if (p + 1) * PAGE > End(list, total, i) {
      CarvedEndPage(list, total, i, p);
    }
  }

  lemma CarveUsedFrom(list: seq<Buffer>, total: nat, i: nat, size: nat, rq: Request, p: nat)
    requires Tiles(list, total) && NoFreePair(list) && i < |list| && list[i].free
    requires 0 < size <= Size(list, total, i)
    requires Used(Carve(list, total, i, size, rq), total, p)
    ensures Used(list, total, p) || TakenPage(list, total, i, size, p)
  {
    var list', d := Carve(list, total, i, size, rq), Shift(list, total, i, size);
    CarveShape(list, total, i, size, rq, i);
    var k :| 0 <= k < |list'| && !list'[k].free && Overlaps(list', total, k, p);
    CarveShape(list, total, i, size, rq, k);
    CarveEnds(list, total, i, size, rq, k);
    if k == i {
      CarvedPage(list, total, i, size, p);
    } else {
      var k0 := if k > i then k - d else k;
      assert Overlaps(list, total, k0, p);
    }
  }

  /** An allocation takes unused pages, and afterwards a page is used exactly if it was, or was taken. */
  lemma CarveUses(list: seq<Buffer>, total: nat, i: nat, size: nat, rq: Request, p: nat)
    requires Tiles(list, total) && NoFreePair(list) && i < |list| && list[i].free
    requires 0 < size <= Size(list, total, i)
    ensures TakenPage(list, total, i, size, p) ==> !Used(list, total, p)
    ensures Used(Carve(list, total, i, size, rq), total, p) <==> Used(list, total, p) || TakenPage(list, total, i, size, p)
  {
    var list' := Carve(list, total, i, size, rq);
    if TakenPage(list, total, i, size, p) {
      TakenUnused(list, total, i, size, p);
      CarveShape(list, total, i, size, rq, i);
      CarveEnds(list, total, i, size, rq, i);
      assert Overlaps(list', total, i, p);
    }
    if Used(list, total, p) { CarveKeepsUsed(list, total, i, size, rq, p); }
    if Used(list', total, p) { CarveUsedFrom(list, total, i, size, rq, p); }
  }

  lemma CarveOrder(list: seq<Buffer>, total: nat, i: nat, size: nat, rq: Request, j: nat, k: nat)
    requires Tiles(list, total) && i < |list| && 0 < size <= Size(list, total, i)
    requires j < k < |list| + Shift(list, total, i, size)
    ensures |Carve(list, total, i, size, rq)| == |list| + Shift(list, total, i, size)
    ensures Start(Carve(list, total, i, size, rq), j) < Start(Carve(list, total, i, size, rq), k)
  {
    var d := Shift(list, total, i, size);
    CarveEnds(list, total, i, size, rq, j);
    CarveEnds(list, total, i, size, rq, k);
    var j0 := if j > i + d then j - d else if j > i then i else j;
    var k0 := if k > i + d then k - d else if k > i then i else k;
    if j0 < k0 { Apart(list, total, k0, j0); }
  }

  lemma CarveNoPair(list: seq<Buffer>, total: nat, i: nat, size: nat, rq: Request, k: int)
    requires Tiles(list, total) && NoFreePair(list) && i < |list| && list[i].free
    requires 0 < size <= Size(list, total, i)
    ensures !FreePair(Carve(list, total, i, size, rq), k)
  {
    var d := Shift(list, total, i, size);
    CarveShape(list, total, i, size, rq, i);
    if 0 < k < |list| + d {
      CarveShape(list, total, i, size, rq, k - 1);
      CarveShape(list, total, i, size, rq, k);
      assert !FreePair(list, k) && !FreePair(list, k - d) && !FreePair(list, i + 1);
    }
  }

  /** Carving keeps the tiling; no two free buffers become neighbours. */
  lemma CarveTiles(list: seq<Buffer>, total: nat, i: nat, size: nat, rq: Request)
    requires Tiles(list, total) && NoFreePair(list) && i < |list| && list[i].free
    requires 0 < size <= Size(list, total, i) && size % 8 == 0
    ensures Tiles(Carve(list, total, i, size, rq), total)
    ensures NoFreePair(Carve(list, total, i, size, rq))
  {
    var list', d := Carve(list, total, i, size, rq), Shift(list, total, i, size);
    CarveEnds(list, total, i, size, rq, 0);
    forall k | 0 <= k < |list'| ensures Start(list', k) < total && Start(list', k) % 8 == 0 {
      Apart(list, total, i, i);
      CarveEnds(list, total, i, size, rq, k);
    }
    forall j, k | 0 <= j < k < |list'| ensures Start(list', j) < Start(list', k) {
      CarveOrder(list, total, i, size, rq, j, k);
    }
    forall k ensures !FreePair(list', k) {
      CarveNoPair(list, total, i, size, rq, k);
    }
  }

  /** A buffer other than the carved one keeps its size. */
  lemma CarveSizeOther(list: seq<Buffer>, total: nat, i: nat, size: nat, rq: Request, k: nat)
    requires Tiles(list, total) && i < |list| && k < |list| && k != i
    requires 0 < size <= Size(list, total, i)
    requires Tiles(Carve(list, total, i, size, rq), total)
    ensures var keys := SizeKeys(Carve(list, total, i, size, rq), total);
            Start(list, k) in keys && keys[Start(list, k)] == Size(list, total, k)
  {
    var d := Shift(list, total, i, size);
    var k' := if k > i then k + d else k;
    CarveEnds(list, total, i, size, rq, k');
    var list' := Carve(list, total, i, size, rq);
    assert Start(list', k') == Start(list, k) && Size(list', total, k') == Size(list, total, k);
  }

  /** The chosen buffer shrinks to the request, and the new free buffer gets what is left. */
  lemma CarveSizeChosen(list: seq<Buffer>, total: nat, i: nat, size: nat, rq: Request)
    requires Tiles(list, total) && i < |list|
    requires 0 < size <= Size(list, total, i)
    requires Tiles(Carve(list, total, i, size, rq), total)
    ensures var keys, s := SizeKeys(Carve(list, total, i, size, rq), total), Start(list, i);
            && s in keys && keys[s] == size
            && (size < Size(list, total, i) ==> s + size in keys && keys[s + size] == Size(list, total, i) - size)
  {
    var list' := Carve(list, total, i, size, rq);
    CarveEnds(list, total, i, size, rq, i);
    assert Size(list', total, i) == size;
    if size < Size(list, total, i) {
      CarveEnds(list, total, i, size, rq, i + 1);
      assert Size(list', total, i + 1) == Size(list, total, i) - size;
    }
  }

  /** The start of a buffer tells it apart. */
  lemma SameStart(list: seq<Buffer>, total: nat, i: nat, k: nat)
    requires Tiles(list, total) && i < |list| && k < |list| && Start(list, i) == Start(list, k)
    ensures i == k
  {
  }

  lemma CarveAddressesTo(list: seq<Buffer>, total: nat, i: nat, size: nat, rq: Request, k: nat)
    requires Tiles(list, total) && i < |list| && list[i].free
    requires 0 < size <= Size(list, total, i) && k < |list|
    ensures var list' := Carve(list, total, i, size, rq);
            if k == i then Start(list, k) in Addresses(list', false)
                           && (size < Size(list, total, i) ==> Start(list, i) + size in Addresses(list', true))
            else Start(list, k) in Addresses(list', list[k].free) && Start(list, k) != Start(list, i)
  {
    var list', d := Carve(list, total, i, size, rq), Shift(list, total, i, size);
    var k' := if k > i then k + d else k;
    CarveShape(list, total, i, size, rq, k');
    CarveEnds(list, total, i, size, rq, k');
    assert Start(list', k') in Addresses(list', list'[k'].free);
    if k == i && d == 1 {
      CarveShape(list, total, i, size, rq, i + 1);
      CarveEnds(list, total, i, size, rq, i + 1);
      assert Start(list', i + 1) in Addresses(list', true);
    }
    if k != i && Start(list, k) == Start(list, i) { SameStart(list, total, i, k); }
  }

  lemma CarveAddressesFrom(list: seq<Buffer>, total: nat, i: nat, size: nat, rq: Request, k: nat)
    requires Tiles(list, total) && i < |list| && list[i].free
    requires 0 < size <= Size(list, total, i) && k < |Carve(list, total, i, size, rq)|
    ensures var list', d := Carve(list, total, i, size, rq), Shift(list, total, i, size);
            if k == i then Start(list', k) == Start(list, i) && !list'[k].free
            else if d == 1 && k == i + 1 then Start(list', k) == Start(list, i) + size && list'[k].free
            else Start(list', k) in Addresses(list, list'[k].free) && Start(list', k) != Start(list, i)
  {
    var d := Shift(list, total, i, size);
    CarveShape(list, total, i, size, rq, i);
    CarveShape(list, total, i, size, rq, k);
    CarveEnds(list, total, i, size, rq, k);
    var k0 := if k > i then k - d else k;
    if k != i && !(d == 1 && k == i + 1) {
      assert Start(list, k0) in Addresses(list, list[k0].free);
      if Start(list, k0) == Start(list, i) { SameStart(list, total, i, k0); }
    }
  }

  lemma CarveAddress(list: seq<Buffer>, total: nat, i: nat, size: nat, rq: Request, free: bool, x: nat)
    requires Tiles(list, total) && i < |list| && list[i].free
    requires 0 < size <= Size(list, total, i)
    ensures x in Addresses(Carve(list, total, i, size, rq), free) <==>
              if x == Start(list, i) then !free
              else x in Addresses(list, free) || (free && size < Size(list, total, i) && x == Start(list, i) + size)
  {
    var list', s := Carve(list, total, i, size, rq), Start(list, i);
    CarveAddressesTo(list, total, i, size, rq, i);
    if x in Addresses(list, free) && x != s {
      var k :| 0 <= k < |list| && list[k].free == free && Start(list, k) == x;
      CarveAddressesTo(list, total, i, size, rq, k);
    }
    if x in Addresses(list', free) {
      var k :| 0 <= k < |list'| && list'[k].free == free && Start(list', k) == x;
      CarveAddressesFrom(list, total, i, size, rq, k);
    }
  }

  /** The chosen buffer moves from the free to the allocated buffers; a rest joins the free ones. */
  lemma CarveAddresses(list: seq<Buffer>, total: nat, i: nat, size: nat, rq: Request)
    requires Tiles(list, total) && i < |list| && list[i].free
    requires 0 < size <= Size(list, total, i)
    ensures var list', s := Carve(list, total, i, size, rq), Start(list, i);
            && Addresses(list', true) == Addresses(list, true) - {s} + (if size < Size(list, total, i) then {s + size} else {})
            && Addresses(list', false) == Addresses(list, false) + {s}
  {
    forall free, x ensures x in Addresses(Carve(list, total, i, size, rq), free) <==>
              if x == Start(list, i) then !free
              else x in Addresses(list, free) || (free && size < Size(list, total, i) && x == Start(list, i) + size)
    {
      CarveAddress(list, total, i, size, rq, free, x);
    }
  }

  // ---- Free and coalesce ----

  lemma RemoveShape(list: seq<Buffer>, total: nat, j: nat, k: nat)
    requires Tiles(list, total) && 0 < j < |list| && k < |list| - 1
    ensures var list' := RemoveAt(list, j);
            && |list'| == |list| - 1
            && list'[k] == list[if k < j then k else k + 1]
            && Start(list', k) == Start(list, if k < j then k else k + 1)
            && End(list', total, k) == End(list, total, if k < j - 1 then k else k + 1)
  {
    var list' := RemoveAt(list, j);
    if k + 1 < |list'| { assert list'[k + 1] == list[if k + 1 < j then k + 1 else k + 2]; }
  }

  lemma RemoveTiles(list: seq<Buffer>, total: nat, j: nat)
    requires Tiles(list, total) && 0 < j < |list|
    ensures Tiles(RemoveAt(list, j), total)
  {
    var list' := RemoveAt(list, j);
    RemoveShape(list, total, j, 0);
    forall k | 0 <= k < |list'| ensures Start(list', k) < total && Start(list', k) % 8 == 0 {
      RemoveShape(list, total, j, k);
    }
    forall h, k | 0 <= h < k < |list'| ensures Start(list', h) < Start(list', k) {
      RemoveShape(list, total, j, h);
      RemoveShape(list, total, j, k);
    }
  }

  /** Dropping the boundary between two free buffers does not change which pages are used. */
  lemma RemoveUses(list: seq<Buffer>, total: nat, j: nat, p: nat)
    requires Tiles(list, total) && 0 < j < |list| && list[j - 1].free && list[j].free
    ensures Used(RemoveAt(list, j), total, p) <==> Used(list, total, p)
  {
    var list' := RemoveAt(list, j);
    if Used(list, total, p) {
      var k :| 0 <= k < |list| && !list[k].free && Overlaps(list, total, k, p);
      var k' := if k > j then k - 1 else k;
      RemoveShape(list, total, j, k');
      assert Overlaps(list', total, k', p);
    }
    if Used(list', total, p) {
      RemoveShape(list, total, j, 0);
      var k :| 0 <= k < |list'| && !list'[k].free && Overlaps(list', total, k, p);
      RemoveShape(list, total, j, k);
      assert Overlaps(list, total, if k >= j then k + 1 else k, p);
    }
  }

  lemma MarkShape(list: seq<Buffer>, total: nat, i: nat, k: nat)
    requires i < |list| && k < |list|
    ensures var l1 := MarkFree(list, i);
            && |l1| == |list| && (k != i ==> l1[k] == list[k]) && l1[i].free
            && Start(l1, k) == Start(list, k) && End(l1, total, k) == End(list, total, k)
  {
    assert k + 1 < |list| ==> Start(MarkFree(list, i), k + 1) == Start(list, k + 1);
  }

  lemma MarkTiles(list: seq<Buffer>, total: nat, i: nat)
    requires Tiles(list, total) && i < |list|
    ensures Tiles(MarkFree(list, i), total)
  {
    var l1 := MarkFree(list, i);
    forall k | 0 <= k < |list| ensures Start(l1, k) == Start(list, k) { MarkShape(list, total, i, k); }
  }

  lemma MarkUses(list: seq<Buffer>, total: nat, i: nat, p: nat)
    requires i < |list|
    ensures Used(MarkFree(list, i), total, p) <==> UsedByOther(list, total, i, p)
  {
    var l1 := MarkFree(list, i);
    if UsedByOther(list, total, i, p) {
      var k :| 0 <= k < |list| && k != i && !list[k].free && Overlaps(list, total, k, p);
      MarkShape(list, total, i, k);
      assert Overlaps(l1, total, k, p);
    }
    if Used(l1, total, p) {
      var k :| 0 <= k < |l1| && !l1[k].free && Overlaps(l1, total, k, p);
      MarkShape(list, total, i, k);
      assert Overlaps(list, total, k, p);
    }
  }

  lemma AfterNextShape(list: seq<Buffer>, total: nat, i: nat, k: nat)
    requires Tiles(list, total) && i < |list| && k < |AfterNext(list, i)|
    ensures var l2, m := AfterNext(list, i), if MergesNext(list, i) then 1 else 0;
            && |l2| == |list| - m
            && l2[i].free && Start(l2, i) == Start(list, i)
            && (k < i ==> l2[k] == list[k] && Start(l2, k) == Start(list, k))
            && (k > i ==> l2[k] == list[k + m] && Start(l2, k) == Start(list, k + m))
  {
    MarkTiles(list, total, i);
    MarkShape(list, total, i, i);
    if MergesNext(list, i) {
      RemoveShape(MarkFree(list, i), total, i + 1, k);
      RemoveShape(MarkFree(list, i), total, i + 1, i);
      MarkShape(list, total, i, if k <= i then k else k + 1);
    } else {
      MarkShape(list, total, i, k);
    }
  }

  lemma ReleasedTiles(list: seq<Buffer>, total: nat, i: nat)
    requires Tiles(list, total) && i < |list|
    ensures Tiles(MarkFree(list, i), total) && Tiles(AfterNext(list, i), total) && Tiles(Released(list, i), total)
  {
    MarkTiles(list, total, i);
    if MergesNext(list, i) { RemoveTiles(MarkFree(list, i), total, i + 1); }
    if MergesPrev(list, i) { RemoveTiles(AfterNext(list, i), total, i); }
  }

  /** Only the freed buffer itself can have a free neighbour, and only to its left. */
  lemma AfterNextPairs(list: seq<Buffer>, total: nat, i: nat)
    requires Tiles(list, total) && NoFreePair(list) && i < |list| && !list[i].free
    ensures forall k :: FreePair(AfterNext(list, i), k) ==> k == i
  {
    hide Tiles, AfterNext;
    var l2 := AfterNext(list, i);
    forall k ensures FreePair(l2, k) ==> k == i {
      if 0 < k < |l2| {
        AfterNextShape(list, total, i, k - 1);
        AfterNextShape(list, total, i, k);
        assert !FreePair(list, k) && !FreePair(list, k + 1) && !FreePair(list, i + 2);
      }
    }
  }

  /** Coalescing leaves no two free neighbours. */
  lemma ReleasedNoPair(list: seq<Buffer>, total: nat, i: nat)
    requires Tiles(list, total) && NoFreePair(list) && i < |list| && !list[i].free
    ensures NoFreePair(Released(list, i))
  {
    ReleasedTiles(list, total, i);
    var l2, l3 := AfterNext(list, i), Released(list, i);
    AfterNextPairs(list, total, i);
    hide Tiles, AfterNext;
    if MergesPrev(list, i) {
      forall k ensures !FreePair(l3, k) {
        if 0 < k < |l3| {
          RemoveShape(l2, total, i, k - 1);
          RemoveShape(l2, total, i, k);
          AfterNextShape(list, total, i, i - 1);
          assert FreePair(l2, k) ==> k == i;
          assert FreePair(l2, k + 1) ==> k + 1 == i;
          assert k == i ==> !FreePair(l2, i + 1) && l2[i].free;
        }
      }
    } else {
      assert !FreePair(l2, i) by { if i > 0 { AfterNextShape(list, total, i, i - 1); } }
    }
  }

  lemma ReleasedUses(list: seq<Buffer>, total: nat, i: nat, p: nat)
    requires Tiles(list, total) && i < |list| && !list[i].free
    ensures Used(Released(list, i), total, p) <==> UsedByOther(list, total, i, p)
    ensures Used(list, total, p) <==> UsedByOther(list, total, i, p) || Overlaps(list, total, i, p)
  {
    ReleasedTiles(list, total, i);
    MarkUses(list, total, i, p);
    MarkShape(list, total, i, i);
    if MergesNext(list, i) {
      MarkShape(list, total, i, i + 1);
      RemoveUses(MarkFree(list, i), total, i + 1, p);
    }
    if MergesPrev(list, i) {
      AfterNextShape(list, total, i, i - 1);
      RemoveUses(AfterNext(list, i), total, i, p);
    }
  }

  /** A page that only i uses, but which is not wholly inside i, is its start page with a
      free buffer before, or its end page with a free buffer after. */
  lemma StartBoundary(list: seq<Buffer>, total: nat, i: nat, p: nat)
    requires Tiles(list, total) && NoFreePair(list) && i < |list| && !list[i].free
    requires Overlaps(list, total, i, p) && !UsedByOther(list, total, i, p)
    requires p * PAGE < Start(list, i)
    ensures MergesPrev(list, i) && Start(list, i - 1) <= p * PAGE
  {
    assert i > 0;
    NoPairAt(list, i - 1);
    hide Tiles, UsedByOther, NoFreePair;
    Apart(list, total, i, i - 1);
    NotByOther(list, total, i, i - 1, p);
    if i > 1 {
      Apart(list, total, i - 1, i - 2);
      NotByOther(list, total, i, i - 2, p);
    }
  }

  lemma NotByOther(list: seq<Buffer>, total: nat, i: nat, k: nat, p: nat)
    requires k < |list| && !UsedByOther(list, total, i, p)
    ensures k != i && !list[k].free ==> !Overlaps(list, total, k, p)
  {
  }

  lemma NoPartialPage(total: nat, p: nat)
    requires total % PAGE == 0
    ensures !(p * PAGE < total < (p + 1) * PAGE)
  {
  }

  /** The region ends with a page, so a buffer that ends inside one has a successor. */
  lemma EndInside(list: seq<Buffer>, total: nat, i: nat, p: nat)
    requires Tiles(list, total) && i < |list| && Overlaps(list, total, i, p) && (p + 1) * PAGE > End(list, total, i)
    ensures i + 1 < |list| && (p + 1) * PAGE <= total
  {
    NoPartialPage(total, p);
  }

  lemma NoPairAt(list: seq<Buffer>, k: int)
    requires NoFreePair(list)
    ensures !FreePair(list, k)
  {
  }

  lemma EndBoundary(list: seq<Buffer>, total: nat, i: nat, p: nat)
    requires Tiles(list, total) && NoFreePair(list) && i < |list| && !list[i].free
    requires Overlaps(list, total, i, p) && !UsedByOther(list, total, i, p)
    requires (p + 1) * PAGE > End(list, total, i)
    ensures MergesNext(list, i) && (p + 1) * PAGE <= End(list, total, i + 1)
  {
    hide Tiles, UsedByOther, NoFreePair;
    EndInside(list, total, i, p);
    NoPairAt(list, i + 2);
    Apart(list, total, i, i + 1);
    NotByOther(list, total, i, i + 1, p);
    if i + 2 < |list| {
      Apart(list, total, i + 1, i + 2);
      NotByOther(list, total, i, i + 2, p);
    }
  }

  lemma PageInside(s: nat, e: nat, p: nat)
    requires s <= p * PAGE && (p + 1) * PAGE <= e
    ensures PageUp(s) <= p * PAGE < PageDown(e)
  {
    PageCompare(s, p);
    PageCompare(e, p);
  }

  lemma GivenIfOnly(list: seq<Buffer>, total: nat, i: nat, p: nat)
    requires Tiles(list, total) && NoFreePair(list) && i < |list| && !list[i].free
    requires Overlaps(list, total, i, p) && !UsedByOther(list, total, i, p)
    ensures GivenPage(list, total, i, p)
  {
    var s, e := Start(list, i), End(list, total, i);
    hide NoFreePair, UsedByOther, Tiles, Overlaps, StartPageLoose, MergesNext, MergesPrev, AfterNext, MarkFree, PageUp, PageDown;
    if s <= p * PAGE && (p + 1) * PAGE <= e { PageInside(s, e, p); }
    if (p + 1) * PAGE > e { EndBoundary(list, total, i, p); }
    if p * PAGE < s {
      StartBoundary(list, total, i, p);
      StartGiven(list, total, i, p);
    } else if (p + 1) * PAGE > e {
      EndGiven(list, total, i, p);
    }
  }

  lemma StartGiven(list: seq<Buffer>, total: nat, i: nat, p: nat)
    requires Tiles(list, total) && i < |list| && !list[i].free
    requires Overlaps(list, total, i, p) && !UsedByOther(list, total, i, p)
    requires p * PAGE < Start(list, i) && MergesPrev(list, i) && Start(list, i - 1) <= p * PAGE
    requires (p + 1) * PAGE > End(list, total, i) ==> MergesNext(list, i) && (p + 1) * PAGE <= End(list, total, i + 1)
    ensures StartPageLoose(AfterNext(list, i), i) && p * PAGE == PageDown(Start(list, i))
  {
    var s, l2 := Start(list, i), AfterNext(list, i);
    PageBounds(s);
    PageCompare(s, p);
    AfterNextShape(list, total, i, i - 1);
    PageBounds(Start(list, i - 1) - 1);
    if i + 1 < |l2| {
      AfterNextShape(list, total, i, i + 1);
      PageCompare(Start(l2, i + 1), p);
      Apart(list, total, i, i + 1);
    }
  }

  lemma EndGiven(list: seq<Buffer>, total: nat, i: nat, p: nat)
    requires Tiles(list, total) && i < |list| && !list[i].free
    requires Overlaps(list, total, i, p) && !UsedByOther(list, total, i, p)
    requires p * PAGE >= Start(list, i) && (p + 1) * PAGE > End(list, total, i)
    requires MergesNext(list, i) && (p + 1) * PAGE <= End(list, total, i + 1)
    ensures StartPageLoose(MarkFree(list, i), i + 1) && p * PAGE == PageDown(Start(list, i + 1))
  {
    var e := End(list, total, i);
    PageBounds(e);
    PageCompare(e, p);
    PageBounds(Start(list, i) - 1);
    MarkShape(list, total, i, i);
    MarkShape(list, total, i, i + 1);
    if i + 2 < |list| {
      MarkShape(list, total, i, i + 2);
      PageCompare(Start(list, i + 2), p);
    }
  }

  lemma NoneBelow(list: seq<Buffer>, total: nat, j: nat, p: nat)
    requires Tiles(list, total) && j < |list| && Start(list, j) <= p * PAGE
    ensures forall k :: 0 <= k < j ==> !Overlaps(list, total, k, p)
  {
    forall k | 0 <= k < j ensures !Overlaps(list, total, k, p) { Apart(list, total, j, k); }
  }

  lemma NoneAbove(list: seq<Buffer>, total: nat, j: nat, p: nat)
    requires Tiles(list, total) && j < |list| && (p + 1) * PAGE <= Start(list, j)
    ensures forall k :: j <= k < |list| ==> !Overlaps(list, total, k, p)
  {
    forall k | j <= k < |list| ensures !Overlaps(list, total, k, p) { if k > j { Apart(list, total, j, k); } }
  }

  lemma OnlyIfInside(list: seq<Buffer>, total: nat, i: nat, p: nat)
    requires Tiles(list, total) && i < |list|
    requires PageUp(Start(list, i)) <= p * PAGE < PageDown(End(list, total, i))
    ensures Overlaps(list, total, i, p) && !UsedByOther(list, total, i, p)
  {
    hide Tiles, PageUp, PageDown;
    PageCompare(Start(list, i), p);
    PageCompare(End(list, total, i), p);
    NoneBelow(list, total, i, p);
    if i + 1 < |list| { NoneAbove(list, total, i + 1, p); }
  }

  lemma LooseMarked(list: seq<Buffer>, total: nat, i: nat)
    requires i + 1 < |list|
    ensures StartPageLoose(MarkFree(list, i), i + 1) <==>
              && PageDown(Start(list, i) - 1) != PageDown(Start(list, i + 1))
              && (i + 2 < |list| ==> PageDown(Start(list, i + 2)) != PageDown(Start(list, i + 1)))
              && Start(list, i + 1) % PAGE != 0
  {
    MarkShape(list, total, i, i);
    MarkShape(list, total, i, i + 1);
    if i + 2 < |list| { MarkShape(list, total, i, i + 2); }
  }

  lemma OnlyIfEnd(list: seq<Buffer>, total: nat, i: nat, p: nat)
    requires Tiles(list, total) && i < |list|
    requires MergesNext(list, i) && StartPageLoose(MarkFree(list, i), i + 1) && p * PAGE == PageDown(Start(list, i + 1))
    ensures Overlaps(list, total, i, p) && !UsedByOther(list, total, i, p)
  {
    LooseMarked(list, total, i);
    OnlyIfEndPlain(list, total, i, p);
  }

  lemma OnlyIfEndPlain(list: seq<Buffer>, total: nat, i: nat, p: nat)
    requires Tiles(list, total) && i + 1 < |list| && list[i + 1].free
    requires p * PAGE == PageDown(Start(list, i + 1))
    requires PageDown(Start(list, i) - 1) != PageDown(Start(list, i + 1))
    requires i + 2 < |list| ==> PageDown(Start(list, i + 2)) != PageDown(Start(list, i + 1))
    requires Start(list, i + 1) % PAGE != 0
    ensures Overlaps(list, total, i, p) && !UsedByOther(list, total, i, p)
  {
    PageCompare(Start(list, i + 1), p);
    PageBounds(Start(list, i + 1)); PageBounds(Start(list, i) - 1);
    Apart(list, total, i, i);
    NoneBelow(list, total, i, p);
    if i + 2 < |list| {
      PageCompare(Start(list, i + 2), p);
      Apart(list, total, i + 1, i + 2);
      NoneAbove(list, total, i + 2, p);
    }
  }

  lemma OnlyIfStart(list: seq<Buffer>, total: nat, i: nat, p: nat)
    requires Tiles(list, total) && i < |list|
    requires MergesPrev(list, i) && StartPageLoose(AfterNext(list, i), i) && p * PAGE == PageDown(Start(list, i))
    ensures Overlaps(list, total, i, p) && !UsedByOther(list, total, i, p)
  {
    var l2, s := AfterNext(list, i), Start(list, i);
    PageCompare(s, p);
    PageBounds(s); PageBounds(Start(list, i - 1) - 1);
    Apart(list, total, i, i);
    AfterNextShape(list, total, i, i - 1);
    Apart(list, total, i, i - 1);
    NoneBelow(list, total, i - 1, p);
    var after := if MergesNext(list, i) then i + 2 else i + 1;
    AfterNextShape(list, total, i, i);
    if after < |list| {
      AfterNextShape(list, total, i, i + 1);
      PageCompare(Start(l2, i + 1), p);
      Apart(list, total, i, after);
      NoneAbove(list, total, after, p);
    }
  }

  lemma OnlyIfGiven(list: seq<Buffer>, total: nat, i: nat, p: nat)
    requires Tiles(list, total) && i < |list|
    requires GivenPage(list, total, i, p)
    ensures Overlaps(list, total, i, p) && !UsedByOther(list, total, i, p)
  {
    if PageUp(Start(list, i)) <= p * PAGE < PageDown(End(list, total, i)) {
      OnlyIfInside(list, total, i, p);
    } else if MergesNext(list, i) && StartPageLoose(MarkFree(list, i), i + 1) && p * PAGE == PageDown(Start(list, i + 1)) {
      OnlyIfEnd(list, total, i, p);
    } else {
      OnlyIfStart(list, total, i, p);
    }
  }

  /** A free gives back exactly the pages that were used and no longer are. */
  lemma GivenExact(list: seq<Buffer>, total: nat, i: nat, p: nat)
    requires Tiles(list, total) && NoFreePair(list) && i < |list| && !list[i].free
    ensures GivenPage(list, total, i, p) <==> Used(list, total, p) && !Used(Released(list, i), total, p)
    ensures Used(Released(list, i), total, p) ==> Used(list, total, p)
  {
    ReleasedUses(list, total, i, p);
    if GivenPage(list, total, i, p) { OnlyIfGiven(list, total, i, p); }
    if Overlaps(list, total, i, p) && !UsedByOther(list, total, i, p) { GivenIfOnly(list, total, i, p); }
  }
}
