/** The free and allocated trees across a split and across a coalescing free. */
module AllocTrees {
  import opened Words
  import opened SizeTree
  import opened BufferList
  import opened PageMemory
  import opened Allocator

  /** List and trees agree: the buffers tile the region, no two neighbours are free, every allocated
      buffer has exactly its padded size, and the two trees hold the free and the allocated buffers
      in size and address order. */
  ghost predicate Structure(list: seq<Buffer>, total: nat, freeTree: Tree, allocTree: Tree) {
    && Tiles(list, total) && NoFreePair(list) && Exact(list, total)
    && Ordered(freeTree, SizeKeys(list, total), Addresses(list, true))
    && Ordered(allocTree, AddressKeys(list), Addresses(list, false))
  }

  /** A page is in use exactly when some allocated buffer overlaps it. */
  ghost predicate Accounted(list: seq<Buffer>, total: nat, ps: seq<Page>) {
    && |ps| * PAGE == total
    && WellFormed(ps)
    && forall p :: 0 <= p < |ps| ==> (Active(ps[p]) <==> Used(list, total, p))
  }

  lemma KeyAt(list: seq<Buffer>, total: nat, a: nat) returns (k: nat)
    requires Tiles(list, total) && a in SizeKeys(list, total)
    ensures k < |list| && Start(list, k) == a && SizeKeys(list, total)[a] == Size(list, total, k)
  {
    k :| 0 <= k < |list| && Start(list, k) == a;
  }

  ghost predicate SameStarts(l1: seq<Buffer>, l2: seq<Buffer>) {
    && |l1| == |l2|
    && forall k :: 0 <= k < |l1| ==> Start(l1, k) == Start(l2, k)
  }

  /** Lists with the same starts have the same tiling and sizes. */
  lemma SameTiles(l1: seq<Buffer>, l2: seq<Buffer>, total: nat)
    requires Tiles(l1, total) && SameStarts(l1, l2)
    ensures Tiles(l2, total)
    ensures forall k :: 0 <= k < |l1| ==> Size(l1, total, k) == Size(l2, total, k)
  {
    assert Start(l1, 0) == Start(l2, 0);
    forall i, j | 0 <= i < j < |l2| ensures Start(l2, i) < Start(l2, j) {
      assert Start(l1, i) < Start(l1, j);
    }
    forall k | 0 <= k < |l1| ensures End(l1, total, k) == End(l2, total, k) {
      assert k + 1 < |l1| ==> Start(l1, k + 1) == Start(l2, k + 1);
    }
  }

  lemma SameSizeKeys(l1: seq<Buffer>, l2: seq<Buffer>, total: nat)
    requires Tiles(l1, total) && Tiles(l2, total) && SameStarts(l1, l2)
    ensures SizeKeys(l1, total) == SizeKeys(l2, total)
  {
    hide *;
    forall a ensures a in SizeKeys(l1, total) ==> a in SizeKeys(l2, total) && SizeKeys(l2, total)[a] == SizeKeys(l1, total)[a] {
      if a in SizeKeys(l1, total) { SameKey(l1, l2, total, a); }
    }
    forall a ensures a in SizeKeys(l2, total) ==> a in SizeKeys(l1, total) {
      if a in SizeKeys(l2, total) {
        StartsBack(l1, l2);
        SameKey(l2, l1, total, a);
      }
    }
  }

  lemma SameKey(l1: seq<Buffer>, l2: seq<Buffer>, total: nat, a: nat)
    requires Tiles(l1, total) && Tiles(l2, total) && SameStarts(l1, l2) && a in SizeKeys(l1, total)
    ensures a in SizeKeys(l2, total) && SizeKeys(l2, total)[a] == SizeKeys(l1, total)[a]
  {
    SameTiles(l1, l2, total);
    hide Tiles, Size, SizeKeys;
    var k := KeyAt(l1, total, a);
    assert Start(l2, k) == a && SizeKeys(l2, total)[Start(l2, k)] == Size(l2, total, k);
  }

  lemma StartsBack(l1: seq<Buffer>, l2: seq<Buffer>)
    requires SameStarts(l1, l2)
    ensures SameStarts(l2, l1)
  {
  }

  lemma SameAddressKeys(l1: seq<Buffer>, l2: seq<Buffer>)
    requires SameStarts(l1, l2)
    ensures AddressKeys(l1) == AddressKeys(l2)
  {
    var n1, n2 := AddressKeys(l1), AddressKeys(l2);
    forall a ensures a in n1 <==> a in n2 {
      if a in n1 { var k :| 0 <= k < |l1| && Start(l1, k) == a; assert Start(l2, k) in n2; }
      if a in n2 { var k :| 0 <= k < |l2| && Start(l2, k) == a; assert Start(l1, k) in n1; }
    }
  }

  lemma FreeMember(list: seq<Buffer>, free: bool, a: nat) returns (k: nat)
    requires a in Addresses(list, free)
    ensures k < |list| && list[k].free == free && Start(list, k) == a
  {
    k :| 0 <= k < |list| && list[k].free == free && Start(list, k) == a;
  }

  /** The best fit of the size tree is the smallest free buffer with room. */
  lemma BestIsChosen(list: seq<Buffer>, total: nat, t: Tree, want: nat, i: nat)
    requires Tiles(list, total) && Ordered(t, SizeKeys(list, total), Addresses(list, true))
    requires i < |list| && list[i].free && BestFit(t, SizeKeys(list, total), want, Start(list, i))
    ensures Chosen(list, total, i, want)
  {
    var keys, free := SizeKeys(list, total), Addresses(list, true);
    hide Ordered, BestFit, Tiles, SizeKeys, Addresses;
    BestFitSmallest(t, keys, free, want, Start(list, i), Start(list, i));
    forall j: nat | Fits(list, total, j, want) ensures Size(list, total, i) <= Size(list, total, j) {
      BestFitSmallest(t, keys, free, want, Start(list, i), Start(list, j));
    }
  }

  /** After a carve the keys of the other free buffers are as before, and the chosen one's is the request. */
  lemma CarveShrinks(list: seq<Buffer>, total: nat, i: nat, size: nat, rq: Request)
    requires Tiles(list, total) && i < |list| && list[i].free
    requires 0 < size <= Size(list, total, i)
    requires Tiles(Carve(list, total, i, size, rq), total)
    ensures Shrunk(SizeKeys(list, total), SizeKeys(Carve(list, total, i, size, rq), total), Addresses(list, true), size, Start(list, i))
  {
    var keys, keys' := SizeKeys(list, total), SizeKeys(Carve(list, total, i, size, rq), total);
    CarveSizeChosen(list, total, i, size, rq);
    forall a | a in Addresses(list, true) && a != Start(list, i) ensures a in keys && a in keys' && keys'[a] == keys[a] {
      var k := FreeMember(list, true, a);
      CarveSizeOther(list, total, i, size, rq, k);
    }
  }

  lemma ShrunkElsewhere(keys: Keys, keys': Keys, members: set<nat>, want: nat, best: nat)
    requires Shrunk(keys, keys', members, want, best)
    ensures forall a :: a in members - {best} ==> a in keys && a in keys' && keys'[a] == keys[a]
  {
  }

  lemma SizePositive(list: seq<Buffer>, total: nat, i: nat)
    requires Tiles(list, total) && i < |list|
    ensures Size(list, total, i) > 0
  {
    Apart(list, total, i, i);
  }

  lemma ChosenIsFree(list: seq<Buffer>, i: nat)
    requires i < |list| && list[i].free
    ensures Start(list, i) in Addresses(list, true)
  {
  }

  /** An exact fit only takes the chosen buffer out of the free tree. */
  lemma FreeTreeTaken(list: seq<Buffer>, total: nat, t: Tree, i: nat, size: nat, rq: Request)
    requires Tiles(list, total) && i < |list| && list[i].free && size == Size(list, total, i)
    requires Ordered(t, SizeKeys(list, total), Addresses(list, true))
    requires Tiles(Carve(list, total, i, size, rq), total)
    ensures var list' := Carve(list, total, i, size, rq);
            Ordered(Erase(t, Start(list, i)), SizeKeys(list', total), Addresses(list', true))
  {
    hide *;
    SizePositive(list, total, i);
    CarveAddresses(list, total, i, size, rq);
    CarveShrinks(list, total, i, size, rq);
    ChosenIsFree(list, i);
    var keys, keys' := SizeKeys(list, total), SizeKeys(Carve(list, total, i, size, rq), total);
    var free, s := Addresses(list, true), Start(list, i);
    EraseOrdered(t, s, keys, free);
    ShrunkElsewhere(keys, keys', free, size, s);
    OrderedFrame(Erase(t, s), keys, keys', free - {s});
    assert free - {s} + {} == free - {s};
  }

  /** A split inserts the rest while the chosen buffer, already shrunk, is still in the tree, and then erases it. */
  lemma FreeTreeSplit(list: seq<Buffer>, total: nat, t: Tree, i: nat, size: nat, rq: Request)
    requires Tiles(list, total) && i < |list| && list[i].free && 0 < size < Size(list, total, i)
    requires Ordered(t, SizeKeys(list, total), Addresses(list, true))
    requires BestFit(t, SizeKeys(list, total), size, Start(list, i))
    requires Tiles(Carve(list, total, i, size, rq), total)
    ensures var list' := Carve(list, total, i, size, rq);
            var keys', s, rest := SizeKeys(list', total), Start(list, i), Start(list, i) + size;
            && Keyed(InOrder(t), keys') && rest in keys'
            && Ordered(Erase(Insert(t, rest, keys'), s), keys', Addresses(list', true))
  {
    hide *;
    CarveAddresses(list, total, i, size, rq);
    CarveShrinks(list, total, i, size, rq);
    CarveSizeChosen(list, total, i, size, rq);
    var keys, keys' := SizeKeys(list, total), SizeKeys(Carve(list, total, i, size, rq), total);
    var free, s, rest := Addresses(list, true), Start(list, i), Start(list, i) + size;
    RestIsNew(list, total, i, size);
    StaleKeySplit(t, keys, keys', free, size, s, rest);
  }

  lemma RestIsNew(list: seq<Buffer>, total: nat, i: nat, size: nat)
    requires Tiles(list, total) && i < |list| && 0 < size < Size(list, total, i)
    ensures Start(list, i) + size !in Addresses(list, true)
  {
    if Start(list, i) + size in Addresses(list, true) {
      var k := FreeMember(list, true, Start(list, i) + size);
      Apart(list, total, i, k);
    }
  }

  lemma AllocTreeCarved(list: seq<Buffer>, total: nat, t: Tree, i: nat, size: nat, rq: Request)
    requires Tiles(list, total) && i < |list| && list[i].free
    requires 0 < size <= Size(list, total, i)
    requires Ordered(t, AddressKeys(list), Addresses(list, false))
    ensures var list' := Carve(list, total, i, size, rq);
            && Keyed(InOrder(t), AddressKeys(list')) && Start(list, i) in AddressKeys(list')
            && Start(list, i) !in InOrder(t)
            && Ordered(Insert(t, Start(list, i), AddressKeys(list')), AddressKeys(list'), Addresses(list', false))
  {
    var list' := Carve(list, total, i, size, rq);
    var keys, keys', s := AddressKeys(list), AddressKeys(list'), Start(list, i);
    CarveAddresses(list, total, i, size, rq);
    CarveEnds(list, total, i, size, rq, i);
    forall a | a in Addresses(list, false) ensures a in keys' && a in keys {
      assert a in Addresses(list', false);
      var k := FreeMember(list', false, a);
    }
    if s in Addresses(list, false) {
      var k := FreeMember(list, false, s);
      SameStart(list, total, i, k);
    }
    OrderedFrame(t, keys, keys', Addresses(list, false));
    InsertOrdered(t, s, keys', Addresses(list, false));
  }

  // ---- Trees across a free ----

  /** Keys of the buffers that a removal does not touch. */
  lemma RemoveSizeOther(list: seq<Buffer>, total: nat, j: nat, k: nat)
    requires Tiles(list, total) && 0 < j < |list| && k < |list| && k != j && k != j - 1
    requires Tiles(RemoveAt(list, j), total)
    ensures var keys := SizeKeys(RemoveAt(list, j), total);
            Start(list, k) in keys && keys[Start(list, k)] == Size(list, total, k)
  {
    var k' := if k > j then k - 1 else k;
    RemoveShape(list, total, j, k');
    assert Size(RemoveAt(list, j), total, k') == Size(list, total, k);
  }

  lemma RemoveAddress(list: seq<Buffer>, total: nat, j: nat, free: bool, x: nat)
    requires Tiles(list, total) && 0 < j < |list| && list[j].free
    ensures x in Addresses(RemoveAt(list, j), free) <==> x in Addresses(list, free) && x != Start(list, j)
  {
    var list' := RemoveAt(list, j);
    if x in Addresses(list, free) && x != Start(list, j) {
      var k := FreeMember(list, free, x);
      RemoveShape(list, total, j, if k > j then k - 1 else k);
      assert Start(list', if k > j then k - 1 else k) in Addresses(list', free);
    }
    if x in Addresses(list', free) {
      var k := FreeMember(list', free, x);
      RemoveShape(list, total, j, 0);
      RemoveShape(list, total, j, k);
      var k0 := if k < j then k else k + 1;
      assert Start(list, k0) in Addresses(list, free);
      if Start(list, k0) == Start(list, j) { SameStart(list, total, k0, j); }
    }
  }

  /** Dropping free buffer j takes its address out of the free ones. */
  lemma RemoveMembers(list: seq<Buffer>, total: nat, j: nat)
    requires Tiles(list, total) && 0 < j < |list| && list[j].free
    ensures Addresses(RemoveAt(list, j), true) == Addresses(list, true) - {Start(list, j)}
    ensures Addresses(RemoveAt(list, j), false) == Addresses(list, false)
  {
    var list' := RemoveAt(list, j);
    forall free, x ensures x in Addresses(list', free) <==> x in Addresses(list, free) && x != Start(list, j) {
      RemoveAddress(list, total, j, free, x);
    }
    if Start(list, j) in Addresses(list, false) {
      var k := FreeMember(list, false, Start(list, j));
      SameStart(list, total, k, j);
    }
  }

  /** The sizes of the free buffers other than the dropped one and its predecessor stay. */
  lemma RemoveKeepsKeys(list: seq<Buffer>, total: nat, j: nat, members: set<nat>)
    requires Tiles(list, total) && 0 < j < |list|
    requires Tiles(RemoveAt(list, j), total)
    requires members <= Addresses(list, true) && Start(list, j) !in members && Start(list, j - 1) !in members
    ensures SameKeys(SizeKeys(list, total), SizeKeys(RemoveAt(list, j), total), members)
  {
    forall a | a in members
      ensures a in SizeKeys(list, total) && a in SizeKeys(RemoveAt(list, j), total)
              && SizeKeys(RemoveAt(list, j), total)[a] == SizeKeys(list, total)[a]
    {
      var k := FreeMember(list, true, a);
      RemoveSizeOther(list, total, j, k);
    }
  }

  /** The free tree after buffer i was freed: its free neighbours leave, the coalesced buffer joins. */
  function FreeTreeWithout(list: seq<Buffer>, t: Tree, i: nat): Tree
    requires i < |list|
  {
    var t1 := if MergesNext(list, i) then Erase(t, Start(list, i + 1)) else t;
    if MergesPrev(list, i) then Erase(t1, Start(list, i - 1)) else t1
  }

  function MergedStart(list: seq<Buffer>, i: nat): nat
    requires i < |list|
  {
    if MergesPrev(list, i) then Start(list, i - 1) else Start(list, i)
  }

  lemma MarkMembers(list: seq<Buffer>, total: nat, i: nat)
    requires Tiles(list, total) && i < |list| && !list[i].free
    ensures var l1 := MarkFree(list, i);
            && Tiles(l1, total) && SameStarts(list, l1)
            && Addresses(l1, true) == Addresses(list, true) + {Start(list, i)}
            && Addresses(l1, false) == Addresses(list, false) - {Start(list, i)}
            && Start(list, i) !in Addresses(list, true)
  {
    var l1, s := MarkFree(list, i), Start(list, i);
    MarkTiles(list, total, i);
    forall k | 0 <= k < |list| ensures Start(list, k) == Start(l1, k) { MarkShape(list, total, i, k); }
    if s in Addresses(list, true) { var k := FreeMember(list, true, s); SameStart(list, total, i, k); }
    if s in Addresses(l1, false) { var k := FreeMember(l1, false, s); SameStart(list, total, i, k); }
    forall f, x | x in Addresses(list, f) && x != s ensures x in Addresses(l1, f) {
      var k := FreeMember(list, f, x);
      assert l1[k] == list[k];
    }
    forall f, x | x in Addresses(l1, f) && x != s ensures x in Addresses(list, f) {
      var k := FreeMember(l1, f, x);
      assert l1[k] == list[k];
    }
  }

  lemma TwoFree(list: seq<Buffer>, total: nat, j: nat)
    requires Tiles(list, total) && 0 < j < |list| && list[j - 1].free && list[j].free
    ensures Start(list, j) in Addresses(list, true) && Start(list, j - 1) in Addresses(list, true)
    ensures Start(list, j) != Start(list, j - 1)
  {
  }

  /** Dropping the free successor of a buffer that has just been freed and is not in the tree yet. */
  lemma DropSuccessor(l1: seq<Buffer>, total: nat, t: Tree, j: nat)
    requires Tiles(l1, total) && 0 < j < |l1| && l1[j - 1].free && l1[j].free
    requires Tiles(RemoveAt(l1, j), total)
    requires Ordered(t, SizeKeys(l1, total), Addresses(l1, true) - {Start(l1, j - 1)})
    ensures Ordered(Erase(t, Start(l1, j)), SizeKeys(RemoveAt(l1, j), total), Addresses(RemoveAt(l1, j), true) - {Start(l1, j - 1)})
  {
    hide *;
    var n, s, l2 := Start(l1, j), Start(l1, j - 1), RemoveAt(l1, j);
    TwoFree(l1, total, j);
    RemoveMembers(l1, total, j);
    var free := Addresses(l1, true) - {s};
    RemoveKeepsKeys(l1, total, j, free - {n});
    EraseRekeyed(t, SizeKeys(l1, total), SizeKeys(l2, total), free, n);
    assert free - {n} == Addresses(l2, true) - {s};
  }

  /** Dropping a freed buffer into its free predecessor: the predecessor leaves the tree and comes back with its new size. */
  lemma DropIntoPredecessor(l2: seq<Buffer>, total: nat, t: Tree, j: nat)
    requires Tiles(l2, total) && 0 < j < |l2| && l2[j - 1].free && l2[j].free
    requires Tiles(RemoveAt(l2, j), total)
    requires Ordered(t, SizeKeys(l2, total), Addresses(l2, true) - {Start(l2, j)})
    requires Start(l2, j - 1) in SizeKeys(RemoveAt(l2, j), total)
    ensures Keyed(InOrder(Erase(t, Start(l2, j - 1))), SizeKeys(RemoveAt(l2, j), total))
    ensures var keys := SizeKeys(RemoveAt(l2, j), total);
            Ordered(Insert(Erase(t, Start(l2, j - 1)), Start(l2, j - 1), keys), keys, Addresses(RemoveAt(l2, j), true))
  {
    hide *;
    var p, s, l3 := Start(l2, j - 1), Start(l2, j), RemoveAt(l2, j);
    TwoFree(l2, total, j);
    RemoveMembers(l2, total, j);
    RemoveKeepsKeys(l2, total, j, Addresses(l2, true) - {s} - {p});
    Reinsert(t, SizeKeys(l2, total), SizeKeys(l3, total), Addresses(l2, true) - {s}, p);
  }

  lemma AfterNextMembers(list: seq<Buffer>, total: nat, t: Tree, i: nat)
    requires Tiles(list, total) && i < |list| && !list[i].free
    requires Ordered(t, SizeKeys(list, total), Addresses(list, true))
    requires Tiles(AfterNext(list, i), total)
    ensures var l2 := AfterNext(list, i);
            var t1 := if MergesNext(list, i) then Erase(t, Start(list, i + 1)) else t;
            && Ordered(t1, SizeKeys(l2, total), Addresses(l2, true) - {Start(list, i)})
            && Addresses(l2, false) == Addresses(list, false) - {Start(list, i)}
  {
    hide Ordered, Addresses, SizeKeys, Tiles, Erase;
    var l1, s := MarkFree(list, i), Start(list, i);
    MarkMembers(list, total, i);
    SameSizeKeys(list, l1, total);
    assert Addresses(list, true) + {s} - {s} == Addresses(list, true);
    MarkShape(list, total, i, i);
    if MergesNext(list, i) {
      MarkShape(list, total, i, i + 1);
      RemoveMembers(l1, total, i + 1);
      DropSuccessor(l1, total, t, i + 1);
    }
  }

  lemma FreeTreeReleased(list: seq<Buffer>, total: nat, t: Tree, i: nat)
    requires Tiles(list, total) && i < |list| && !list[i].free
    requires Ordered(t, SizeKeys(list, total), Addresses(list, true))
    requires Tiles(AfterNext(list, i), total) && Tiles(Released(list, i), total)
    ensures Keyed(InOrder(FreeTreeWithout(list, t, i)), SizeKeys(Released(list, i), total))
    ensures MergedStart(list, i) in SizeKeys(Released(list, i), total)
    ensures var keys := SizeKeys(Released(list, i), total);
            Ordered(Insert(FreeTreeWithout(list, t, i), MergedStart(list, i), keys), keys, Addresses(Released(list, i), true))
    ensures Addresses(Released(list, i), false) == Addresses(list, false) - {Start(list, i)}
  {
    hide Ordered, Addresses, SizeKeys, Insert, InOrder, Erase, Keyed, AfterNext, Tiles;
    AfterNextMembers(list, total, t, i);
    var l2, s := AfterNext(list, i), Start(list, i);
    var t1 := if MergesNext(list, i) then Erase(t, Start(list, i + 1)) else t;
    AfterNextShape(list, total, i, i);
    if MergesPrev(list, i) {
      AfterNextShape(list, total, i, i - 1);
      RemoveShape(l2, total, i, i - 1);
      RemoveMembers(l2, total, i);
      KeyPresent(RemoveAt(l2, i), total, i - 1);
      DropIntoPredecessor(l2, total, t1, i);
    } else {
      KeyPresent(l2, total, i);
      ChosenIsFree(l2, i);
      Join1(t1, SizeKeys(l2, total), Addresses(l2, true), s);
    }
  }

  lemma KeyPresent(list: seq<Buffer>, total: nat, i: nat)
    requires Tiles(list, total) && i < |list|
    ensures Start(list, i) in SizeKeys(list, total)
  {
  }

  lemma AllocTreeReleased(list: seq<Buffer>, total: nat, t: Tree, i: nat)
    requires Tiles(list, total) && i < |list| && !list[i].free
    requires Ordered(t, AddressKeys(list), Addresses(list, false))
    requires Addresses(Released(list, i), false) == Addresses(list, false) - {Start(list, i)}
    ensures Ordered(Erase(t, Start(list, i)), AddressKeys(Released(list, i)), Addresses(Released(list, i), false))
  {
    var s, l3 := Start(list, i), Released(list, i);
    assert s in Addresses(list, false);
    EraseOrdered(t, s, AddressKeys(list), Addresses(list, false));
    forall a | a in Addresses(l3, false) ensures a in AddressKeys(l3) && a in AddressKeys(list) {
      var k := FreeMember(l3, false, a);
      var k' := FreeMember(list, false, a);
    }
    OrderedFrame(Erase(t, s), AddressKeys(list), AddressKeys(l3), Addresses(l3, false));
  }
}
