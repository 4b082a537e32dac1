/** The object table of a parcel: which positions of its data hold objects, with a search hint and a
    cache of the buffer objects. */
module ParcelObjects {
  import opened Words

  /** The object header found at a position of the data, with the fields that matter here. */
  datatype Header =
    | Flat(binder: nat, cookie: nat)
    | Fd
    | FdArray
    | Buffer(buffer: nat, length: nat)

  datatype Info = Info(index: nat, buffer: nat, bufend: nat)

  function SizeOf(h: Header): nat {
    match h
    case Flat(_, _) => 24
    case Fd => 24
    case FdArray => 32
    case Buffer(_, _) => 40
  }

  /** writeObject puts an object in the table unless it is null. */
  predicate Listed(h: Header) {
    match h
    case Flat(binder, _) => binder != 0
    case Fd => true
    case FdArray => true
    case Buffer(buffer, _) => buffer != 0
  }

  /** readObject returns a null object without looking at the table. */
  predicate Exempt(h: Header) {
    match h
    case Flat(binder, cookie) => binder == 0 && cookie == 0
    case Fd => false
    case FdArray => false
    case Buffer(buffer, _) => buffer == 0
  }

  /** The two rules complement each other except for a flat object without binder but with a cookie. */
  lemma ListedOrExempt(h: Header)
    ensures !(Listed(h) && Exempt(h))
    ensures Listed(h) || Exempt(h) <==> !(h.Flat? && h.binder == 0 && h.cookie != 0)
  {
  }

  type Heads = map<nat, Header>

  ghost predicate Headed(objects: seq<nat>, heads: Heads) {
    forall i :: 0 <= i < |objects| ==> objects[i] in heads
  }

  function InfoOf(i: nat, h: Header): Info
    requires h.Buffer?
  {
    Info(i, h.buffer, WAdd(h.buffer, h.length))
  }

  /** A full scan of the first n objects. */
  function Rescan(objects: seq<nat>, heads: Heads, n: nat): seq<Info>
    requires n <= |objects| && Headed(objects, heads)
  {
    if n == 0 then []
    else Rescan(objects, heads, n - 1) + (if heads[objects[n - 1]].Buffer? then [InfoOf(n - 1, heads[objects[n - 1]])] else [])
  }

  /** What the cache keeps of an object. */
  function View(h: Header): Option<(nat, nat)> {
    if h.Buffer? then Some((h.buffer, WAdd(h.buffer, h.length))) else None
  }

  ghost predicate SameViews(objects: seq<nat>, heads: Heads, objects': seq<nat>, heads': Heads, n: nat)
    requires n <= |objects| && n <= |objects'| && Headed(objects, heads) && Headed(objects', heads')
  {
    forall i :: 0 <= i < n ==> View(heads'[objects'[i]]) == View(heads[objects[i]])
  }

  /** A scan depends on what the scanned positions hold only. */
  lemma {:induction false} RescanFrame(objects: seq<nat>, heads: Heads, objects': seq<nat>, heads': Heads, n: nat)
    requires n <= |objects| && n <= |objects'| && Headed(objects, heads) && Headed(objects', heads')
    requires SameViews(objects, heads, objects', heads', n)
    ensures Rescan(objects', heads', n) == Rescan(objects, heads, n)
  {
    if n > 0 { RescanFrame(objects, heads, objects', heads', n - 1); }
  }

  /** Whether a lookup of [ptr, ptr + length) matches a cached buffer; the machine's additions may wrap. */
  predicate Holds(e: Info, ptr: nat, length: nat) {
    e.buffer <= ptr < e.bufend && WAdd(ptr, length) <= e.bufend
  }

  /** The same in terms of the buffer object itself: ptr lies in the buffer, and so does the end of the range, as far as the
      machine can tell. */
  predicate Within(h: Header, ptr: nat, length: nat) {
    Touches(h, ptr) && (ptr + length) % WORD <= (h.buffer + h.length) % WORD
  }

  predicate Touches(h: Header, ptr: nat) {
    h.Buffer? && h.buffer <= ptr < (h.buffer + h.length) % WORD
  }

  lemma HoldsIff(i: nat, h: Header, ptr: nat, length: nat)
    requires h.Buffer?
    ensures Holds(InfoOf(i, h), ptr, length) <==> Within(h, ptr, length)
    ensures InfoOf(i, h).buffer <= ptr < InfoOf(i, h).bufend <==> Touches(h, ptr)
  {
  }

  /** Where no addition wraps, that is containment of the range. */
  lemma WithinPlain(h: Header, ptr: nat, length: nat)
    requires h.Buffer? && h.buffer + h.length < WORD && ptr + length < WORD
    ensures Within(h, ptr, length) <==> h.buffer <= ptr < h.buffer + h.length && ptr + length <= h.buffer + h.length
  {
  }

  lemma {:induction false} RescanIndexes(objects: seq<nat>, heads: Heads, n: nat, k: nat)
    requires n <= |objects| && Headed(objects, heads) && k < |Rescan(objects, heads, n)|
    ensures var e := Rescan(objects, heads, n)[k];
            e.index < n && heads[objects[e.index]].Buffer? && e == InfoOf(e.index, heads[objects[e.index]])
    ensures forall j :: k < j < |Rescan(objects, heads, n)| ==> Rescan(objects, heads, n)[k].index < Rescan(objects, heads, n)[j].index
  {
    var r := Rescan(objects, heads, n);
    if k < |Rescan(objects, heads, n - 1)| {
      RescanIndexes(objects, heads, n - 1, k);
    }
  }

  lemma {:induction false} RescanHas(objects: seq<nat>, heads: Heads, n: nat, i: nat) returns (k: nat)
    requires i < n <= |objects| && Headed(objects, heads) && heads[objects[i]].Buffer?
    ensures k < |Rescan(objects, heads, n)| && Rescan(objects, heads, n)[k] == InfoOf(i, heads[objects[i]])
  {
    if i == n - 1 {
      k := |Rescan(objects, heads, n - 1)|;
    } else {
      k := RescanHas(objects, heads, n - 1, i);
    }
  }

  /** And it depends on all of that. */
  lemma RescanTells(objects: seq<nat>, heads: Heads, objects': seq<nat>, heads': Heads, n: nat)
    requires n <= |objects| && n <= |objects'| && Headed(objects, heads) && Headed(objects', heads')
    ensures Rescan(objects', heads', n) == Rescan(objects, heads, n) <==> SameViews(objects, heads, objects', heads', n)
  {
    if SameViews(objects, heads, objects', heads', n) { RescanFrame(objects, heads, objects', heads', n); }
    if Rescan(objects', heads', n) == Rescan(objects, heads, n) {
      forall i | 0 <= i < n ensures View(heads'[objects'[i]]) == View(heads[objects[i]]) {
        if heads'[objects'[i]].Buffer? {
          var k := RescanHas(objects', heads', n, i);
          RescanIndexes(objects, heads, n, k);
        } else if heads[objects[i]].Buffer? {
          var k := RescanHas(objects, heads, n, i);
          RescanIndexes(objects', heads', n, k);
        }
      }
    }
  }

  datatype Lookup = Found(handle: nat, offset: nat) | NotFound | Suspect

  class ObjectTable {
    var objects: seq<nat>     // mObjects[..mObjectsSize]
    var heads: Heads          // what the data holds at the positions of objects
    var dataSize: nat
    var hint: nat             // mNextObjectHint
    var cache: seq<Info>      // mBufCache
    var cachePos: nat         // mBufCachePos
    var foreign: bool         // mOwner is set

    ghost predicate Valid()
      reads this
    {
      && Headed(objects, heads)
      && cachePos <= |objects| && cache == Rescan(objects, heads, cachePos)
    }

    constructor ()
      ensures Valid() && objects == [] && dataSize == 0 && !foreign && Ascending(objects)
    {
      objects, heads, dataSize, hint, cache, cachePos, foreign := [], map[], 0, 0, [], 0, false;
    }

    /** clearCache */
    method ClearCache()
      requires Headed(objects, heads)
      modifies this`cache, this`cachePos
      ensures Valid() && cache == [] && cachePos == 0
    {
      cache, cachePos := [], 0;
    }

    /** updateCache: afterwards the cache is what a full scan would give. */
    method UpdateCache()
      requires Valid()
      modifies this`cache, this`cachePos
      ensures Valid() && cachePos == |objects| && cache == Rescan(objects, heads, |objects|)
    {
      var i := cachePos;
      while i < |objects|
        invariant cachePos <= i <= |objects| && cache == Rescan(objects, heads, i) && cachePos == old(cachePos)
      {
        var h := heads[objects[i]];
        if h.Buffer? { cache := cache + [InfoOf(i, h)]; }
        i := i + 1;
      }
      cachePos := |objects|;
    }

    /** writeObject, at any position. Nothing resets the cache, so afterwards it is right exactly if no object that was
        cached already got a header which the cache would show differently. */
    method WriteObject(at: nat, h: Header, allowFds: bool, memOk: bool) returns (ok: bool)
      requires Valid()
      modifies this
      ensures ok <==> memOk && (h.Fd? ==> allowFds)
      ensures heads == if memOk then old(heads)[at := h] else old(heads)
      ensures ok ==> objects == old(objects) + (if (h.Flat? ==> h.binder != 0) && (h.Buffer? ==> h.buffer != 0) then [at] else [])
      ensures ok ==> dataSize == Max(old(dataSize), at + if h.Buffer? then 40 else if h.FdArray? then 32 else 24)
      ensures !ok ==> objects == old(objects) && dataSize == old(dataSize)
      ensures Headed(objects, heads) && cachePos == old(cachePos) && cache == old(cache)
      ensures Valid() <==> memOk && at in old(objects)[..old(cachePos)] ==> at in old(heads) && View(h) == View(old(heads)[at])
      ensures old(Ascending(objects)) && (forall i :: 0 <= i < |old(objects)| ==> old(objects)[i] < at) ==> Ascending(objects)
    {
      if !memOk { return false; }
      ghost var objects0, heads0 := objects, heads;
      heads := heads[at := h];
      ok := !h.Fd? || allowFds;
      if ok {
        if Listed(h) { objects := objects + [at]; }
        dataSize := Max(dataSize, at + SizeOf(h));
      }
      RescanTells(objects0, heads0, objects, heads, cachePos);
      Rewritten(objects0, heads0, objects, heads, cachePos, at, h);
    }

    /** continueWrite, as far as the object table goes: objects at or beyond the new size are dropped. */
    method Truncate(desired: nat)
      requires Valid()
      modifies this
      ensures Valid() && heads == old(heads)
      ensures objects <= old(objects) && dataSize == Min(old(dataSize), desired)
      ensures old(Ascending(objects)) ==>
                Ascending(objects)
                && forall at :: at in objects <==> at in old(objects) && (desired < old(dataSize) ==> at < desired)
      ensures objects != old(objects) ==> hint == 0
    {
      var n := |objects|;
      ghost var before := objects;
      if desired < dataSize {
        if desired == 0 {
          n := 0;
        } else {
          while n > 0
            invariant 0 <= n <= |objects|
            invariant forall i :: n <= i < |objects| ==> objects[i] >= desired
          {
            if objects[n - 1] < desired { break; }
            n := n - 1;
          }
        }
      }
      if foreign || n < |objects| {
        objects := objects[..n];
        hint := 0;
        ClearCache();
        foreign := false;
      }
      dataSize := Min(dataSize, desired);
      TruncatedTable(before, n);
    }

    /** findBuffer: the latest buffer object that contains the range. */
    method FindBuffer(ptr: nat, length: nat) returns (r: Lookup)
      requires Valid()
      modifies this`cache, this`cachePos
      ensures Valid()
      ensures r.Found? ==> r.handle < |objects| && Within(heads[objects[r.handle]], ptr, length) && r.offset + heads[objects[r.handle]].buffer == ptr
      ensures r.Found? ==> forall i :: r.handle < i < |objects| ==> !Within(heads[objects[i]], ptr, length)
      ensures r.Found? <==> exists i :: 0 <= i < |objects| && Within(heads[objects[i]], ptr, length)
      ensures r == Suspect <==> !r.Found? && exists i :: 0 <= i < |objects| && Touches(heads[objects[i]], ptr)
    {
      hide Within, Touches;
      UpdateCache();
      var k := |cache|;
      var suspect := false;
      while k > 0
        invariant 0 <= k <= |cache|
        invariant forall j :: k <= j < |cache| ==> !Holds(cache[j], ptr, length)
        invariant suspect <==> exists j :: k <= j < |cache| && cache[j].buffer <= ptr < cache[j].bufend
      {
        k := k - 1;
        var e := cache[k];
        if e.buffer <= ptr < e.bufend {
          if WAdd(ptr, length) <= e.bufend {
            RescanIndexes(objects, heads, |objects|, k);
            HoldsIff(e.index, heads[objects[e.index]], ptr, length);
            forall i | e.index < i < |objects| ensures !Within(heads[objects[i]], ptr, length) {
              if heads[objects[i]].Buffer? {
                var j := RescanHas(objects, heads, |objects|, i);
                RescanIndexes(objects, heads, |objects|, j);
                HoldsIff(i, heads[objects[i]], ptr, length);
              } else {
                NotWithin(heads[objects[i]], ptr, length);
              }
            }
            return Found(e.index, ptr - e.buffer);
          } else {
            suspect := true;
          }
        }
      }
      forall i | 0 <= i < |objects| ensures !Within(heads[objects[i]], ptr, length) && (Touches(heads[objects[i]], ptr) ==> suspect) {
        if heads[objects[i]].Buffer? {
          var j := RescanHas(objects, heads, |objects|, i);
          HoldsIff(i, heads[objects[i]], ptr, length);
        } else {
          NotWithin(heads[objects[i]], ptr, length);
        }
      }
      if suspect {
        ghost var j :| 0 <= j < |cache| && cache[j].buffer <= ptr < cache[j].bufend;
        RescanIndexes(objects, heads, |objects|, j);
        HoldsIff(cache[j].index, heads[objects[cache[j].index]], ptr, length);
      }
      return if suspect then Suspect else NotFound;
    }

    /** The search of readObject: forward from the hint, then backward. */
    method Search(at: nat) returns (index: Option<nat>)
      requires Ascending(objects)
      modifies this`hint
      ensures index.Some? <==> at in objects
      ensures index.Some? ==> index.value < |objects| && objects[index.value] == at && hint == index.value + 1
      ensures index == None ==> hint == old(hint)
    {
      var n := |objects|;
      if n == 0 { return None; }
      var opos := hint;
      if opos < n {
        while opos < n - 1 && objects[opos] < at
          invariant hint <= opos < n
          invariant forall j :: hint <= j < opos ==> objects[j] < at
        {
          opos := opos + 1;
        }
      } else {
        opos := n - 1;
      }
      ghost var turn := opos;
      if objects[opos] == at {
        hint := opos + 1;
        return Some(opos);
      }
      while opos > 0 && objects[opos] > at
        invariant 0 <= opos <= turn
        invariant forall j :: opos < j <= turn ==> objects[j] > at
      {
        opos := opos - 1;
      }
      if objects[opos] == at {
        hint := opos + 1;
        return Some(opos);
      }
      SearchFails(objects, at, hint, turn, opos);
      return None;
    }

    /** readObject: an object that is null needs no entry, any other one is returned exactly if it is listed. */
    method ReadObject(at: nat) returns (r: Option<Header>)
      requires Ascending(objects)
      modifies this`hint
      ensures r.Some? <==> at in heads
                           && var h := heads[at];
                              && at + (if h.Buffer? then 40 else if h.FdArray? then 32 else 24) <= dataSize
                              && (at in objects || (h.Flat? && h.binder == 0 && h.cookie == 0) || (h.Buffer? && h.buffer == 0))
      ensures r.Some? ==> r.value == heads[at]
    {
      if at !in heads { return None; }
      var h := heads[at];
      if at + SizeOf(h) > dataSize { return None; }
      if Exempt(h) { return Some(h); }
      var index := Search(at);
      return if index.Some? then Some(h) else None;
    }
  }

  lemma NotWithin(h: Header, ptr: nat, length: nat)
    ensures !h.Buffer? ==> !Within(h, ptr, length) && !Touches(h, ptr)
  {
  }

  lemma Rewritten(objects: seq<nat>, heads: Heads, objects': seq<nat>, heads': Heads, n: nat, at: nat, h: Header)
    requires n <= |objects| && objects <= objects' && Headed(objects, heads) && Headed(objects', heads') && heads' == heads[at := h]
    ensures at in objects[..n] ==> at in heads
    ensures SameViews(objects, heads, objects', heads', n) <==> (at in objects[..n] ==> View(h) == View(heads[at]))
  {
    if at in objects[..n] {
      var k: nat :| k < n && objects[k] == at;
      assert View(heads'[objects'[k]]) == View(h);
    }
  }

  lemma AscendingAt(objects: seq<nat>, i: nat, j: nat)
    requires Ascending(objects)
    ensures i < j < |objects| ==> objects[i] < objects[j]
  {
  }

  lemma PrefixHas(objects: seq<nat>, n: nat, i: nat)
    requires n <= |objects|
    ensures i < n ==> objects[i] in objects[..n]
  {
    if i < n { assert objects[..n][i] == objects[i]; }
  }

  lemma TruncatedTable(objects: seq<nat>, n: nat)
    requires n <= |objects|
    ensures Ascending(objects) ==> Ascending(objects[..n])
    ensures forall at :: at in objects[..n] ==> at in objects
    ensures Ascending(objects) ==> forall at :: at in objects && at !in objects[..n] ==> n < |objects| && at >= objects[n]
    ensures Ascending(objects) ==> forall at :: at in objects[..n] ==> at <= objects[n - 1]
  {
    if Ascending(objects) {
      forall at | at in objects && at !in objects[..n] ensures n < |objects| && at >= objects[n] {
        var i: nat :| i < |objects| && objects[i] == at;
        PrefixHas(objects, n, i);
        AscendingAt(objects, n, i);
      }
    }
  }

  /** After a forward walk to `turn` and a backward walk to `opos` without a hit, the position is not listed. */
  lemma SearchFails(objects: seq<nat>, at: nat, hint: nat, turn: nat, opos: nat)
    requires Ascending(objects) && opos <= turn < |objects|
    requires turn == |objects| - 1 || objects[turn] >= at
    requires objects[turn] != at && objects[opos] != at
    requires forall j :: opos < j <= turn ==> objects[j] > at
    requires opos == 0 || objects[opos] <= at
    ensures at !in objects
  {
    forall i: nat | i < |objects| ensures objects[i] != at {
      AscendingAt(objects, turn, i);
      AscendingAt(objects, i, opos);
    }
  }

  /** An object that was cached is overwritten in place: the cache no longer is what a full scan would give. */
  method StaleCache() returns (t: ObjectTable)
    ensures !t.Valid()
  {
    t := new ObjectTable();
    var ok := t.WriteObject(0, Buffer(8, 8), true, true);
    assert t.objects[0] == 0;
    t.UpdateCache();
    assert t.objects[..t.cachePos] == [0];
    ok := t.WriteObject(0, Fd, true, true);
  }
}
