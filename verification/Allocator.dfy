/** The Binder buffer allocator: one object per process. */
module Allocator {
  import opened Words
  import opened BufferList

  const MAX_MAP: nat := 0x40_0000   // SZ_4M

  /** The three aligned sizes added without bound. */
  function Demand(rq: Request): nat {
    Align8(rq.data) + Align8(rq.offsets) + Align8(rq.extra)
  }

  predicate WordSized(rq: Request) {
    rq.data < WORD && rq.offsets < WORD && rq.extra < WORD
  }

  /** What a buffer really occupies: 0-size requests are padded to a pointer. */
  function Extent(rq: Request): nat {
    Max(Demand(rq), 8)
  }

  /** Every allocated buffer is exactly as large as its padded request. */
  ghost predicate Exact(list: seq<Buffer>, total: nat)
    requires Tiles(list, total)
  {
    forall i :: 0 <= i < |list| && !list[i].free ==>
      WordSized(list[i].rq) && Size(list, total, i) == Extent(list[i].rq)
  }

  /** What one buffer takes from the async budget; `unit` is sizeof(struct binder_buffer). */
  function Charge(b: Buffer, unit: nat): nat {
    if !b.free && b.rq.async then Extent(b.rq) + unit else 0
  }

  function Charges(list: seq<Buffer>, unit: nat): nat {
    if list == [] then 0 else Charge(list[0], unit) + Charges(list[1..], unit)
  }

  lemma {:induction false} ChargesConcat(a: seq<Buffer>, b: seq<Buffer>, unit: nat)
    ensures Charges(a + b, unit) == Charges(a, unit) + Charges(b, unit)
  {
    if a == [] {
      assert a + b == b;
    } else {
      assert (a + b)[1..] == a[1..] + b;
      ChargesConcat(a[1..], b, unit);
    }
  }

  lemma ChargesAt(list: seq<Buffer>, i: nat, unit: nat)
    requires i < |list|
    ensures Charges(list, unit) == Charges(list[..i], unit) + Charge(list[i], unit) + Charges(list[i + 1..], unit)
  {
    assert list == list[..i] + ([list[i]] + list[i + 1..]);
    ChargesConcat(list[..i], [list[i]] + list[i + 1..], unit);
    ChargesConcat([list[i]], list[i + 1..], unit);
    assert Charges([list[i]], unit) == Charge(list[i], unit);
  }

  lemma ChargesUpdate(list: seq<Buffer>, i: nat, b: Buffer, unit: nat)
    requires i < |list|
    ensures Charges(list[i := b], unit) == Charges(list, unit) - Charge(list[i], unit) + Charge(b, unit)
  {
    ChargesAt(list, i, unit);
    ChargesAt(list[i := b], i, unit);
    assert list[i := b][..i] == list[..i] && list[i := b][i + 1..] == list[i + 1..];
  }

  lemma ChargesRemove(list: seq<Buffer>, j: nat, unit: nat)
    requires j < |list|
    ensures Charges(RemoveAt(list, j), unit) == Charges(list, unit) - Charge(list[j], unit)
  {
    ChargesAt(list, j, unit);
    ChargesConcat(list[..j], list[j + 1..], unit);
  }

  /** An async allocation adds its padded request plus the bookkeeping unit to the charges. */
  lemma ChargesCarve(list: seq<Buffer>, total: nat, i: nat, size: nat, rq: Request, unit: nat)
    requires Tiles(list, total) && i < |list| && list[i].free
    ensures Charges(Carve(list, total, i, size, rq), unit)
            == Charges(list, unit) + (if rq.async then Extent(rq) + unit else 0)
  {
    var b, r := Taken(list[i], rq), FreshFree(Start(list, i) + size);
    ChargesAt(list, i, unit);
    if size == Size(list, total, i) {
      ChargesUpdate(list, i, b, unit);
    } else {
      assert Carve(list, total, i, size, rq) == list[..i] + ([b, r] + list[i + 1..]);
      ChargesConcat(list[..i], [b, r] + list[i + 1..], unit);
      ChargesConcat([b, r], list[i + 1..], unit);
      assert [b, r][1..] == [r] && [r][1..] == [];
      assert Charges([b, r], unit) == Charge(b, unit) + Charges([r], unit);
    }
  }

  /** Freeing removes the buffer's own charge and nothing else. */
  lemma ChargesReleased(list: seq<Buffer>, i: nat, unit: nat)
    requires i < |list|
    ensures Charges(Released(list, i), unit) == Charges(list, unit) - Charge(list[i], unit)
  {
    var l1 := MarkFree(list, i);
    ChargesUpdate(list, i, list[i].(free := true), unit);
    if MergesNext(list, i) {
      assert l1[i + 1] == list[i + 1];
      ChargesRemove(l1, i + 1, unit);
    }
    var l2 := AfterNext(list, i);
    if MergesPrev(list, i) {
      assert l2[i].free;
      ChargesRemove(l2, i, unit);
    }
  }

  lemma ExactCarveAt(list: seq<Buffer>, total: nat, i: nat, rq: Request, k: nat)
    requires Tiles(list, total) && Exact(list, total) && i < |list| && list[i].free
    requires WordSized(rq) && Extent(rq) <= Size(list, total, i)
    requires Tiles(Carve(list, total, i, Extent(rq), rq), total)
    requires k < |Carve(list, total, i, Extent(rq), rq)|
    ensures var list' := Carve(list, total, i, Extent(rq), rq);
            !list'[k].free ==> WordSized(list'[k].rq) && Size(list', total, k) == Extent(list'[k].rq)
  {
    var d := Shift(list, total, i, Extent(rq));
    CarveShape(list, total, i, Extent(rq), rq, i);
    CarveShape(list, total, i, Extent(rq), rq, k);
    CarveEnds(list, total, i, Extent(rq), rq, k);
    var k0 := if k > i && k - d > 0 then k - d else k;
    assert k0 < |list| && !list[k0].free ==> Size(list, total, k0) == Extent(list[k0].rq);
  }

  lemma ExactCarve(list: seq<Buffer>, total: nat, i: nat, rq: Request)
    requires Tiles(list, total) && Exact(list, total) && i < |list| && list[i].free
    requires WordSized(rq) && Extent(rq) <= Size(list, total, i)
    requires Tiles(Carve(list, total, i, Extent(rq), rq), total)
    ensures Exact(Carve(list, total, i, Extent(rq), rq), total)
  {
    forall k | 0 <= k < |Carve(list, total, i, Extent(rq), rq)| {
      ExactCarveAt(list, total, i, rq, k);
    }
  }

  lemma RemoveKeepsExact(list: seq<Buffer>, total: nat, j: nat)
    requires Tiles(list, total) && 0 < j < |list| && Exact(list, total) && list[j - 1].free && list[j].free
    requires Tiles(RemoveAt(list, j), total)
    ensures Exact(RemoveAt(list, j), total)
  {
    var list' := RemoveAt(list, j);
    forall k | 0 <= k < |list'| && !list'[k].free
      ensures WordSized(list'[k].rq) && Size(list', total, k) == Extent(list'[k].rq)
    {
      RemoveShape(list, total, j, k);
      var k0 := if k < j then k else k + 1;
      assert Size(list', total, k) == Size(list, total, k0);
    }
  }

  lemma ExactReleased(list: seq<Buffer>, total: nat, i: nat)
    requires Tiles(list, total) && Exact(list, total) && i < |list|
    requires Tiles(Released(list, i), total)
    ensures Exact(Released(list, i), total)
  {
    ReleasedTiles(list, total, i);
    var l1, l2 := MarkFree(list, i), AfterNext(list, i);
    forall k | 0 <= k < |l1| && !l1[k].free
      ensures WordSized(l1[k].rq) && Size(l1, total, k) == Extent(l1[k].rq)
    {
      MarkShape(list, total, i, k);
      assert Size(l1, total, k) == Size(list, total, k);
    }
    MarkShape(list, total, i, i);
    if MergesNext(list, i) {
      MarkShape(list, total, i, i + 1);
      RemoveKeepsExact(l1, total, i + 1);
    }
    if MergesPrev(list, i) {
      AfterNextShape(list, total, i, i - 1);
      RemoveKeepsExact(l2, total, i);
    }
  }

  // ---- Address space ----

  /** Bytes [at, at + n) all lie in free buffers. */
  ghost predicate FreeExtent(list: seq<Buffer>, total: nat, at: nat, n: nat) {
    && at + n <= total
    && forall x :: at <= x < at + n ==> FreeByte(list, total, x)
  }

  ghost predicate FreeByte(list: seq<Buffer>, total: nat, x: nat) {
    exists i :: 0 <= i < |list| && list[i].free && Start(list, i) <= x < End(list, total, i)
  }

  ghost predicate Fits(list: seq<Buffer>, total: nat, i: nat, n: nat)
    requires Tiles(list, total)
  {
    i < |list| && list[i].free && n <= Size(list, total, i)
  }

  lemma EndNotFree(list: seq<Buffer>, total: nat, i: nat)
    requires Tiles(list, total) && NoFreePair(list) && i < |list| && list[i].free
    ensures !FreeByte(list, total, End(list, total, i))
  {
    assert !FreePair(list, i + 1);
    forall j | 0 <= j < |list| && list[j].free
      ensures !(Start(list, j) <= End(list, total, i) < End(list, total, j))
    {
      Apart(list, total, i, j);
      if i + 1 < |list| { Apart(list, total, i + 1, j); }
    }
  }

  /** Since free neighbours are always merged, a contiguous free extent of n bytes
      exists exactly when a single free buffer has n bytes. */
  lemma FreeExtentIsOneBuffer(list: seq<Buffer>, total: nat, n: nat)
    requires Tiles(list, total) && NoFreePair(list) && n > 0
    ensures (exists at :: FreeExtent(list, total, at, n)) <==> (exists i :: Fits(list, total, i, n))
  {
    if i: nat :| Fits(list, total, i, n) {
      Apart(list, total, i, i);
      assert forall x: nat :: Start(list, i) <= x < Start(list, i) + n ==> FreeByte(list, total, x);
      assert FreeExtent(list, total, Start(list, i), n);
    }
    if at: nat :| FreeExtent(list, total, at, n) {
      assert FreeByte(list, total, at);
      var i :| 0 <= i < |list| && list[i].free && Start(list, i) <= at < End(list, total, i);
      if End(list, total, i) < at + n {
        EndNotFree(list, total, i);
      }
      assert Fits(list, total, i, n);
    }
  }

  /** The smallest free buffer with room for n bytes. */
  ghost predicate Chosen(list: seq<Buffer>, total: nat, i: nat, n: nat)
    requires Tiles(list, total)
  {
    && Fits(list, total, i, n)
    && forall k :: Fits(list, total, k, n) ==> Size(list, total, i) <= Size(list, total, k)
  }

  // ---- Async budget ----

  /** size_t subtraction. */
  function WSub(a: nat, b: nat): nat { (a - b) % WORD }

  /** The budget equation: what is free, what live async buffers hold, the 8 bytes lost by each
      freed 0-size buffer, and whole words gained by wrapping below zero. */
  ghost predicate Balanced(freeAsync: nat, charges: nat, zeroFreed: nat, wraps: int, total: nat) {
    && freeAsync < WORD
    && freeAsync + charges + 8 * zeroFreed == total / 2 + WORD * wraps
  }

  /** The budget test runs before padding, so an accepted request wraps the budget
      below zero exactly when it is empty and the padding is not covered. */
  lemma AsyncWrapIff(freeAsync: nat, rq: Request, unit: nat)
    requires freeAsync < WORD && freeAsync >= Demand(rq) + unit
    ensures freeAsync < Extent(rq) + unit <==> Demand(rq) == 0 && freeAsync < 8 + unit
    ensures freeAsync >= Extent(rq) + unit ==> WSub(freeAsync, Extent(rq) + unit) == freeAsync - (Extent(rq) + unit)
    ensures freeAsync < Extent(rq) + unit ==> WSub(freeAsync, Extent(rq) + unit) > WORD - 16
  {
  }

  /** Such a request exists: a budget of exactly one bookkeeping unit passes the test and wraps. */
  lemma AsyncWrapHappens(unit: nat)
    requires unit < WORD
    ensures var rq := Request(0, 0, 0, true);
            unit >= Demand(rq) + unit && WSub(unit, Extent(rq) + unit) == WORD - 8
  {
  }
}
