/** Buffers inside a transaction and the pointers and descriptors that are patched into them: the order
    check that keeps patches apart. */
module Fixups {
  import opened Words
  import opened ScatterGather

  /** An object of the table. Flat covers nodes, handles and single descriptors. */
  datatype Obj =
    | Flat
    | Ptr(hasParent: bool, parent: nat, parentOffset: nat, length: nat)
    | Fda(parent: nat, parentOffset: nat, numFds: nat)

  const PTR_SIZE: nat := 8
  const FD: nat := 4

  function ObjSize(o: Obj): nat {
    match o
    case Flat => 24
    case Ptr(_, _, _, _) => 40
    case Fda(_, _, _) => 32
  }

  /** An accepted patch: `len` bytes at `at` inside the buffer of object `parent`. `last` is the buffer
      object that was current when it was accepted. */
  datatype Fix = Fix(parent: nat, at: nat, len: nat, last: nat)

  /** The loop variables of binder_transaction that matter here; the current buffer object is known by its index. */
  datatype Cursor = Cursor(sg: nat, last: Option<nat>, lastMin: nat, offMin: nat, fixes: seq<Fix>)

  // ---- The walk up the parents ----

  /** From buffer object `last` upwards to `target`: the least offset at which target may still be patched. */
  function MinAt(objs: seq<Obj>, last: nat, lastMin: nat, target: nat): Option<nat>
    decreases last
  {
    if last == target then Some(lastMin)
    else if last < |objs| && objs[last].Ptr? && objs[last].hasParent && objs[last].parent < last then
      MinAt(objs, objs[last].parent, objs[last].parentOffset + PTR_SIZE, target)
    else None
  }

  /** The first n objects were accepted, as far as their parents go. */
  ghost predicate Parented(objs: seq<Obj>, n: nat) {
    n <= |objs| && forall j :: 0 <= j < n && objs[j].Ptr? && objs[j].hasParent ==> objs[j].parent < j && objs[objs[j].parent].Ptr?
  }

  ghost predicate Spaced(objs: seq<Obj>, offs: seq<nat>, n: nat) {
    n <= |objs| && n <= |offs| && forall i, j :: 0 <= i < j < n ==> offs[i] + ObjSize(objs[i]) <= offs[j]
  }

  /** binder_validate_fixup. The walk ends because every parent comes earlier in the table. */
  method ValidateFixup(objs: seq<Obj>, offs: seq<nat>, n: nat, target: nat, fixup: nat, last: Option<nat>, lastMin: nat) returns (ok: bool)
    requires Parented(objs, n) && Spaced(objs, offs, n)
    requires target < n && objs[target].Ptr?
    requires last.Some? ==> last.value < n && objs[last.value].Ptr?
    ensures ok <==> Allowed(objs, offs, target, fixup, last, lastMin)
  {
    if last == None || offs[last.value] == 0 { return false; }
    var cur: nat := last.value;
    var min: nat := lastMin;
    while offs[cur] != offs[target]
      invariant cur < n && objs[cur].Ptr?
      invariant MinAt(objs, cur, min, target) == MinAt(objs, last.value, lastMin, target)
      decreases cur
    {
      if ObjSize(objs[cur]) != 40 { return false; }
      if !objs[cur].hasParent { return false; }
      min := objs[cur].parentOffset + PTR_SIZE;
      cur := objs[cur].parent;
    }
    SameOffset(objs, offs, n, cur, target);
    return fixup >= min;
  }

  lemma SameOffset(objs: seq<Obj>, offs: seq<nat>, n: nat, i: nat, j: nat)
    requires Spaced(objs, offs, n) && i < n && j < n && offs[i] == offs[j]
    ensures i == j
  {
  }

  /** When the order check lets a patch through: there is a current buffer object, it does not lie at offset 0,
      and the target is it or one of its parents, not patched beyond `fixup` yet. */
  predicate Allowed(objs: seq<Obj>, offs: seq<nat>, target: nat, fixup: nat, last: Option<nat>, lastMin: nat)
    requires last.Some? ==> last.value < |offs|
  {
    && last.Some? && offs[last.value] != 0
    && MinAt(objs, last.value, lastMin, target).Some? && fixup >= MinAt(objs, last.value, lastMin, target).value
  }

  // ---- One object ----

  function Lengths(objs: seq<Obj>): seq<nat> {
    if objs == [] then []
    else Lengths(objs[..|objs| - 1]) + (if objs[|objs| - 1].Ptr? then [objs[|objs| - 1].length] else [])
  }

  /** Where the buffer of object i lies: after those of the objects before it. */
  function SlotStart(objs: seq<Obj>, start: nat, i: nat): nat
    requires i <= |objs|
  {
    start + Need(Lengths(objs[..i]))
  }

  predicate ParentIsBuffer(objs: seq<Obj>, parent: nat, n: nat) {
    parent < n <= |objs| && objs[parent].Ptr?
  }

  /** A buffer object: it gets its slot; if it has a parent, its address is patched into the parent's buffer. */
  function StepPtr(objs: seq<Obj>, offs: seq<nat>, end: nat, i: nat, c: Cursor): Option<Cursor>
    requires i < |objs| && |offs| == |objs| && objs[i].Ptr?
    requires c.last.Some? ==> c.last.value < |offs|
  {
    var o := objs[i];
    if c.sg + o.length > end then None
    else
      var c1 := c.(sg := c.sg + Align8(o.length));
      if !o.hasParent then Some(c1.(last := Some(i), lastMin := 0))
      else if !ParentIsBuffer(objs, o.parent, i) then None
      else if !Allowed(objs, offs, o.parent, o.parentOffset, c.last, c.lastMin) then None
      else if objs[o.parent].length < PTR_SIZE || o.parentOffset > objs[o.parent].length - PTR_SIZE then None
      else Some(c1.(last := Some(i), lastMin := 0, fixes := c.fixes + [Fix(o.parent, o.parentOffset, PTR_SIZE, c.last.value)]))
  }

  /** An array of descriptors inside an earlier buffer. `fdsOk` says whether each of them can be translated. */
  function StepFda(objs: seq<Obj>, offs: seq<nat>, start: nat, i: nat, c: Cursor, fdsOk: bool): Option<Cursor>
    requires i < |objs| && |offs| == |objs| && objs[i].Fda?
    requires c.last.Some? ==> c.last.value < |offs|
  {
    var o := objs[i];
    if !ParentIsBuffer(objs, o.parent, i) then None
    else if !Allowed(objs, offs, o.parent, o.parentOffset, c.last, c.lastMin) then None
    else if o.numFds >= (WORD - 1) / FD then None
    else if FD * o.numFds > objs[o.parent].length || o.parentOffset > objs[o.parent].length - FD * o.numFds then None
    else if (SlotStart(objs, start, o.parent) + o.parentOffset) % FD != 0 || !fdsOk then None
    else Some(c.(last := Some(o.parent), lastMin := o.parentOffset + FD * o.numFds,
                 fixes := c.fixes + [Fix(o.parent, o.parentOffset, FD * o.numFds, c.last.value)]))
  }

  function Step(objs: seq<Obj>, offs: seq<nat>, start: nat, end: nat, i: nat, c: Cursor, fdsOk: bool): Option<Cursor>
    requires i < |objs| && |offs| == |objs|
    requires c.last.Some? ==> c.last.value < |offs|
  {
    if offs[i] < c.offMin then None
    else
      var c1 := c.(offMin := offs[i] + ObjSize(objs[i]));
      match objs[i]
      case Flat => Some(c1)
      case Ptr(_, _, _, _) => StepPtr(objs, offs, end, i, c1)
      case Fda(_, _, _) => StepFda(objs, offs, start, i, c1, fdsOk)
  }

  // ---- What the accepted patches satisfy ----

  /** All patches of object q end at or below m. */
  ghost predicate EndsBy(fixes: seq<Fix>, q: nat, m: nat) {
    forall k :: 0 <= k < |fixes| && fixes[k].parent == q ==> fixes[k].at + fixes[k].len <= m
  }

  /** Along the chain of parents from j, nothing was patched at or beyond the least offset still allowed there. */
  ghost predicate ChainOk(objs: seq<Obj>, fixes: seq<Fix>, j: nat, m: nat)
    decreases j
  {
    && EndsBy(fixes, j, m)
    && (j < |objs| && objs[j].Ptr? && objs[j].hasParent && objs[j].parent < j ==>
          ChainOk(objs, fixes, objs[j].parent, objs[j].parentOffset + PTR_SIZE))
  }

  /** Patches of one buffer come at increasing offsets and do not overlap. */
  ghost predicate InOrder(fixes: seq<Fix>) {
    forall a, b :: 0 <= a < b < |fixes| && fixes[a].parent == fixes[b].parent ==> fixes[a].at + fixes[a].len <= fixes[b].at
  }

  /** Every patch lies inside its buffer, and that buffer was the current object or one of its parents. */
  ghost predicate FixOk(objs: seq<Obj>, offs: seq<nat>, n: nat, f: Fix) {
    && n <= |objs| && n <= |offs|
    && f.parent < n && objs[f.parent].Ptr? && f.at + f.len <= objs[f.parent].length
    && f.last < n && MinAt(objs, f.last, 0, f.parent).Some?
    && offs[f.parent] != 0
  }

  ghost predicate CursorOk(objs: seq<Obj>, offs: seq<nat>, start: nat, end: nat, n: nat, c: Cursor) {
    && |offs| == |objs| && Parented(objs, n) && Spaced(objs, offs, n)
    && (forall j :: 0 <= j < n ==> offs[j] + ObjSize(objs[j]) <= c.offMin)
    && c.sg == SlotStart(objs, start, n) && c.sg <= end && (end - c.sg) % 8 == 0
    && (c.last.Some? ==> c.last.value < n && objs[c.last.value].Ptr? && ChainOk(objs, c.fixes, c.last.value, c.lastMin))
    && InOrder(c.fixes)
    && (forall k :: 0 <= k < |c.fixes| ==> FixOk(objs, offs, n, c.fixes[k]))
    && NoneAtZero(objs, offs, n)
  }

  /** No accepted object was patched into a buffer at offset 0. */
  ghost predicate NoneAtZero(objs: seq<Obj>, offs: seq<nat>, n: nat)
    requires Parented(objs, n) && |offs| == |objs|
  {
    forall j :: 0 <= j < n && objs[j].Ptr? && objs[j].hasParent ==> offs[objs[j].parent] != 0
  }

  /** On the chain, the walk's result bounds the patches made so far. */
  lemma {:induction false} ChainAt(objs: seq<Obj>, fixes: seq<Fix>, j: nat, m: nat, target: nat)
    requires ChainOk(objs, fixes, j, m) && MinAt(objs, j, m, target).Some?
    ensures EndsBy(fixes, target, MinAt(objs, j, m, target).value)
    ensures target <= j
    decreases j
  {
    if j != target { ChainAt(objs, fixes, objs[j].parent, objs[j].parentOffset + PTR_SIZE, target); }
  }

  /** From the target upwards the chain is the same one. */
  lemma {:induction false} ChainFrom(objs: seq<Obj>, fixes: seq<Fix>, j: nat, m: nat, target: nat)
    requires ChainOk(objs, fixes, j, m) && MinAt(objs, j, m, target).Some?
    ensures ChainOk(objs, fixes, target, MinAt(objs, j, m, target).value)
    decreases j
  {
    if j != target { ChainFrom(objs, fixes, objs[j].parent, objs[j].parentOffset + PTR_SIZE, target); }
  }

  /** A patch of q leaves the chains above q alone. */
  lemma {:induction false} ChainAbove(objs: seq<Obj>, fixes: seq<Fix>, j: nat, m: nat, f: Fix)
    requires ChainOk(objs, fixes, j, m) && f.parent > j
    ensures ChainOk(objs, fixes + [f], j, m)
    decreases j
  {
    if j < |objs| && objs[j].Ptr? && objs[j].hasParent && objs[j].parent < j {
      ChainAbove(objs, fixes, objs[j].parent, objs[j].parentOffset + PTR_SIZE, f);
    }
  }

  /** The chain after a patch of q, seen from q. */
  lemma ChainPatched(objs: seq<Obj>, fixes: seq<Fix>, m: nat, f: Fix)
    requires ChainOk(objs, fixes, f.parent, m) && m <= f.at
    ensures ChainOk(objs, fixes + [f], f.parent, f.at + f.len)
  {
    var q := f.parent;
    if q < |objs| && objs[q].Ptr? && objs[q].hasParent && objs[q].parent < q {
      ChainAbove(objs, fixes, objs[q].parent, objs[q].parentOffset + PTR_SIZE, f);
    }
  }

  lemma AppendInOrder(fixes: seq<Fix>, f: Fix, m: nat)
    requires InOrder(fixes) && EndsBy(fixes, f.parent, m) && m <= f.at
    ensures InOrder(fixes + [f])
  {
  }

  /** Whether a buffer is on the chain does not depend on the offsets. */
  lemma {:induction false} MinAtAny(objs: seq<Obj>, last: nat, m: nat, m': nat, target: nat)
    ensures MinAt(objs, last, m, target).Some? <==> MinAt(objs, last, m', target).Some?
    decreases last
  {
  }

  /** A buffer at offset 0 cannot be reached: not as the current object, and not from below, since nothing was patched into it. */
  lemma {:induction false} ZeroUnreachable(objs: seq<Obj>, offs: seq<nat>, n: nat, last: nat, m: nat, target: nat)
    requires |offs| == |objs| && Parented(objs, n) && NoneAtZero(objs, offs, n) && last < n && offs[last] != 0
    requires MinAt(objs, last, m, target).Some?
    ensures target < n && offs[target] != 0
    decreases last
  {
    if last != target { ZeroUnreachable(objs, offs, n, objs[last].parent, objs[last].parentOffset + PTR_SIZE, target); }
  }

  lemma SlotNext(objs: seq<Obj>, start: nat, i: nat)
    requires i < |objs|
    ensures SlotStart(objs, start, i + 1) == SlotStart(objs, start, i) + (if objs[i].Ptr? then Align8(objs[i].length) else 0)
  {
    assert objs[..i + 1][..i] == objs[..i];
    if objs[i].Ptr? {
      NeedAppend(Lengths(objs[..i]), objs[i].length);
    } else {
      assert Lengths(objs[..i]) + [] == Lengths(objs[..i]);
    }
  }

  lemma SpacedNext(objs: seq<Obj>, offs: seq<nat>, i: nat, offMin: nat)
    requires i < |objs| && i < |offs| && Spaced(objs, offs, i) && offMin <= offs[i]
    requires forall j :: 0 <= j < i ==> offs[j] + ObjSize(objs[j]) <= offMin
    ensures Spaced(objs, offs, i + 1)
    ensures forall j :: 0 <= j < i + 1 ==> offs[j] + ObjSize(objs[j]) <= offs[i] + ObjSize(objs[i])
  {
  }

  /** What the order check and the bounds check give together about one accepted patch. */
  lemma PatchOk(objs: seq<Obj>, offs: seq<nat>, start: nat, end: nat, i: nat, c: Cursor, f: Fix)
    requires CursorOk(objs, offs, start, end, i, c) && i < |objs| && ParentIsBuffer(objs, f.parent, i)
    requires Allowed(objs, offs, f.parent, f.at, c.last, c.lastMin) && f.last == c.last.value
    requires f.at + f.len <= objs[f.parent].length
    ensures InOrder(c.fixes + [f]) && FixOk(objs, offs, i + 1, f)
    ensures ChainOk(objs, c.fixes + [f], f.parent, f.at + f.len)
  {
    hide InOrder, Spaced, SlotStart;
    var last := c.last.value;
    var m := MinAt(objs, last, c.lastMin, f.parent).value;
    ChainAt(objs, c.fixes, last, c.lastMin, f.parent);
    ChainFrom(objs, c.fixes, last, c.lastMin, f.parent);
    ChainPatched(objs, c.fixes, m, f);
    AppendInOrder(c.fixes, f, m);
    MinAtAny(objs, last, c.lastMin, 0, f.parent);
    ZeroUnreachable(objs, offs, i, last, c.lastMin, f.parent);
  }

  lemma FixesLater(objs: seq<Obj>, offs: seq<nat>, n: nat, fixes: seq<Fix>)
    requires n < |objs| && n < |offs| && forall k :: 0 <= k < |fixes| ==> FixOk(objs, offs, n, fixes[k])
    ensures forall k :: 0 <= k < |fixes| ==> FixOk(objs, offs, n + 1, fixes[k])
    ensures EndsBy(fixes, n, 0)
  {
  }

  /** A new buffer has no patches yet. */
  lemma FreshChain(objs: seq<Obj>, fixes: seq<Fix>, i: nat)
    requires i < |objs| && objs[i].Ptr? && EndsBy(fixes, i, 0)
    requires objs[i].hasParent && objs[i].parent < i ==> ChainOk(objs, fixes, objs[i].parent, objs[i].parentOffset + PTR_SIZE)
    ensures ChainOk(objs, fixes, i, 0)
  {
  }

  lemma EndsByAppend(fixes: seq<Fix>, q: nat, m: nat, f: Fix)
    requires EndsBy(fixes, q, m) && f.parent != q
    ensures EndsBy(fixes + [f], q, m)
  {
  }

  /** The parts of CursorOk that do not depend on the kind of object. */
  ghost predicate Placed(objs: seq<Obj>, offs: seq<nat>, start: nat, end: nat, n: nat, c: Cursor) {
    && |offs| == |objs| && Spaced(objs, offs, n)
    && (forall j :: 0 <= j < n ==> offs[j] + ObjSize(objs[j]) <= c.offMin)
    && n <= |objs| && c.sg == SlotStart(objs, start, n) && c.sg <= end && (end - c.sg) % 8 == 0
  }

  lemma StepPlaced(objs: seq<Obj>, offs: seq<nat>, start: nat, end: nat, i: nat, c: Cursor, fdsOk: bool)
    requires CursorOk(objs, offs, start, end, i, c) && i < |objs|
    requires Step(objs, offs, start, end, i, c, fdsOk).Some?
    ensures Placed(objs, offs, start, end, i + 1, Step(objs, offs, start, end, i, c, fdsOk).value)
    ensures Parented(objs, i + 1)
  {
    hide ChainOk, InOrder, FixOk, NoneAtZero, MinAt, SlotStart, Align8, Spaced;
    SlotNext(objs, start, i);
    SpacedNext(objs, offs, i, c.offMin);
    if objs[i].Ptr? { AlignFits(objs[i].length, end - c.sg); }
  }

  lemma StepPtrKeeps(objs: seq<Obj>, offs: seq<nat>, start: nat, end: nat, i: nat, c: Cursor)
    requires CursorOk(objs, offs, start, end, i, c) && i < |objs| && objs[i].Ptr? && StepPtr(objs, offs, end, i, c).Some?
    requires Parented(objs, i + 1)
    ensures var c' := StepPtr(objs, offs, end, i, c).value;
            && c'.last == Some(i) && ChainOk(objs, c'.fixes, i, c'.lastMin) && InOrder(c'.fixes)
            && (forall k :: 0 <= k < |c'.fixes| ==> FixOk(objs, offs, i + 1, c'.fixes[k]))
            && NoneAtZero(objs, offs, i + 1)
  {
    hide InOrder, FixOk, MinAt, SlotStart, Align8, Spaced, EndsBy, ChainOk, Allowed;
    FixesLater(objs, offs, i, c.fixes);
    var o := objs[i];
    if o.hasParent {
      AllowedLast(objs, offs, o.parent, o.parentOffset, c.last, c.lastMin);
      var f := Fix(o.parent, o.parentOffset, PTR_SIZE, c.last.value);
      PatchOk(objs, offs, start, end, i, c, f);
      EndsByAppend(c.fixes, i, 0, f);
      FreshChain(objs, c.fixes + [f], i);
      FixNotZero(objs, offs, i + 1, f);
    } else {
      FreshChain(objs, c.fixes, i);
    }
  }

  lemma FixNotZero(objs: seq<Obj>, offs: seq<nat>, n: nat, f: Fix)
    requires FixOk(objs, offs, n, f)
    ensures f.parent < |offs| && offs[f.parent] != 0
  {
  }

  lemma StepFdaKeeps(objs: seq<Obj>, offs: seq<nat>, start: nat, end: nat, i: nat, c: Cursor, fdsOk: bool)
    requires CursorOk(objs, offs, start, end, i, c) && i < |objs| && objs[i].Fda? && StepFda(objs, offs, start, i, c, fdsOk).Some?
    requires Parented(objs, i + 1)
    ensures var c' := StepFda(objs, offs, start, i, c, fdsOk).value;
            && c'.last.Some? && c'.last.value < i && objs[c'.last.value].Ptr? && ChainOk(objs, c'.fixes, c'.last.value, c'.lastMin)
            && InOrder(c'.fixes)
            && (forall k :: 0 <= k < |c'.fixes| ==> FixOk(objs, offs, i + 1, c'.fixes[k]))
            && NoneAtZero(objs, offs, i + 1)
  {
    hide InOrder, FixOk, MinAt, SlotStart, Align8, Spaced, EndsBy, ChainOk, Allowed;
    FixesLater(objs, offs, i, c.fixes);
    var o := objs[i];
    AllowedLast(objs, offs, o.parent, o.parentOffset, c.last, c.lastMin);
    PatchOk(objs, offs, start, end, i, c, Fix(o.parent, o.parentOffset, FD * o.numFds, c.last.value));
  }

  lemma StepFlatKeeps(objs: seq<Obj>, offs: seq<nat>, start: nat, end: nat, i: nat, c: Cursor)
    requires CursorOk(objs, offs, start, end, i, c) && i < |objs| && objs[i].Flat? && Parented(objs, i + 1)
    ensures forall k :: 0 <= k < |c.fixes| ==> FixOk(objs, offs, i + 1, c.fixes[k])
    ensures NoneAtZero(objs, offs, i + 1)
  {
    FixesLater(objs, offs, i, c.fixes);
  }

  lemma OffMinAside(objs: seq<Obj>, offs: seq<nat>, start: nat, end: nat, i: nat, c: Cursor, m: nat)
    requires CursorOk(objs, offs, start, end, i, c) && m >= c.offMin
    ensures CursorOk(objs, offs, start, end, i, c.(offMin := m))
  {
    hide ChainOk, InOrder, FixOk, NoneAtZero, Parented, Spaced, SlotStart;
  }

  /** One accepted object keeps everything. */
  lemma StepKeeps(objs: seq<Obj>, offs: seq<nat>, start: nat, end: nat, i: nat, c: Cursor, fdsOk: bool)
    requires CursorOk(objs, offs, start, end, i, c) && i < |objs| && Step(objs, offs, start, end, i, c, fdsOk).Some?
    ensures CursorOk(objs, offs, start, end, i + 1, Step(objs, offs, start, end, i, c, fdsOk).value)
  {
    hide ChainOk, InOrder, FixOk, MinAt, SlotStart, Align8, Spaced, NoneAtZero, Parented, StepPtr, StepFda;
    StepPlaced(objs, offs, start, end, i, c, fdsOk);
    var c1 := c.(offMin := offs[i] + ObjSize(objs[i]));
    OffMinAside(objs, offs, start, end, i, c, c1.offMin);
    match objs[i]
    case Flat => StepFlatKeeps(objs, offs, start, end, i, c1);
    case Ptr(_, _, _, _) => StepPtrKeeps(objs, offs, start, end, i, c1);
    case Fda(_, _, _) => StepFdaKeeps(objs, offs, start, end, i, c1, fdsOk);
  }

  // ---- All objects ----

  /** The cursor after the first i objects, if all of them were accepted. */
  function Run(objs: seq<Obj>, offs: seq<nat>, start: nat, end: nat, fdsOk: seq<bool>, i: nat): (r: Option<Cursor>)
    requires i <= |objs| && |offs| == |objs| && |fdsOk| == |objs|
    ensures r.Some? ==> r.value.last.Some? ==> r.value.last.value < |offs|
  {
    if i == 0 then Some(Cursor(start, None, 0, 0, []))
    else
      match Run(objs, offs, start, end, fdsOk, i - 1)
      case None => None
      case Some(c) => Step(objs, offs, start, end, i - 1, c, fdsOk[i - 1])
  }

  lemma {:induction false} RunKeeps(objs: seq<Obj>, offs: seq<nat>, start: nat, end: nat, fdsOk: seq<bool>, i: nat)
    requires i <= |objs| && |offs| == |objs| && |fdsOk| == |objs| && start <= end && (end - start) % 8 == 0
    requires Run(objs, offs, start, end, fdsOk, i).Some?
    ensures CursorOk(objs, offs, start, end, i, Run(objs, offs, start, end, fdsOk, i).value)
  {
    if i == 0 {
      assert objs[..0] == [];
    } else {
      RunKeeps(objs, offs, start, end, fdsOk, i - 1);
      StepKeeps(objs, offs, start, end, i - 1, Run(objs, offs, start, end, fdsOk, i - 1).value, fdsOk[i - 1]);
    }
  }

  // ---- What a table asks for, and when it is accepted ----

  datatype Patch = Patch(parent: nat, at: nat, len: nat)

  /** The patch an object asks for: the pointer to its own buffer, or its array of descriptors, inside its parent. */
  function PatchOf(o: Obj): Option<Patch> {
    match o
    case Ptr(true, parent, parentOffset, _) => Some(Patch(parent, parentOffset, 8))
    case Fda(parent, parentOffset, numFds) => Some(Patch(parent, parentOffset, 4 * numFds))
    case _ => None
  }

  /** The patches the first n objects ask for, in the order of the table. */
  function Asked(objs: seq<Obj>, n: nat): seq<Patch>
    requires n <= |objs|
  {
    if n == 0 then []
    else Asked(objs, n - 1) + (if PatchOf(objs[n - 1]).Some? then [PatchOf(objs[n - 1]).value] else [])
  }

  /** The patches made are those asked for, one by one. */
  ghost predicate Recorded(objs: seq<Obj>, n: nat, fixes: seq<Fix>) {
    && n <= |objs| && |fixes| == |Asked(objs, n)|
    && forall k :: 0 <= k < |fixes| ==> Patch(fixes[k].parent, fixes[k].at, fixes[k].len) == Asked(objs, n)[k]
  }

  /** The buffer object that is current after the first n objects: the last one met, or the one last filled with descriptors. */
  function Current(objs: seq<Obj>, n: nat): Option<nat>
    requires n <= |objs|
  {
    if n == 0 then None
    else
      match objs[n - 1]
      case Flat => Current(objs, n - 1)
      case Ptr(_, _, _, _) => Some(n - 1)
      case Fda(parent, _, _) => Some(parent)
  }

  predicate Ancestor(objs: seq<Obj>, cur: nat, target: nat)
    decreases cur
  {
    cur == target || (cur < |objs| && objs[cur].Ptr? && objs[cur].hasParent && objs[cur].parent < cur && Ancestor(objs, objs[cur].parent, target))
  }

  /** The demands on object j, in terms of the table alone. */
  ghost predicate ObjOk(objs: seq<Obj>, offs: seq<nat>, start: nat, end: nat, fdsOk: seq<bool>, j: nat)
    requires j < |objs| && |offs| == |objs| && |fdsOk| == |objs|
  {
    && (j > 0 ==> offs[j - 1] + ObjSize(objs[j - 1]) <= offs[j])
    && (objs[j].Ptr? ==> SlotStart(objs, start, j) + objs[j].length <= end)
    && (PatchOf(objs[j]).Some? ==> PatchFits(objs, offs, j, PatchOf(objs[j]).value))
    && (objs[j].Fda? ==> objs[j].numFds < (WORD - 1) / 4 && fdsOk[j]
                         && (objs[j].parent < j ==> (SlotStart(objs, start, objs[j].parent) + objs[j].parentOffset) % 4 == 0))
  }

  /** The patch lies inside an earlier buffer, which is the current one or one of its parents, and beyond every earlier patch of
      that buffer; and the current one does not lie at offset 0. */
  ghost predicate PatchFits(objs: seq<Obj>, offs: seq<nat>, j: nat, q: Patch)
    requires j < |objs| && |offs| == |objs|
  {
    && q.parent < j && objs[q.parent].Ptr? && q.at + q.len <= objs[q.parent].length
    && InTurn(objs, offs, j, q.parent, q.at)
  }

  ghost predicate InTurn(objs: seq<Obj>, offs: seq<nat>, j: nat, target: nat, at: nat)
    requires j <= |objs| && |offs| == |objs|
  {
    && Current(objs, j).Some? && Current(objs, j).value < j && offs[Current(objs, j).value] != 0
    && Ancestor(objs, Current(objs, j).value, target)
    && forall k :: 0 <= k < j ==> EndsBefore(objs[k], target, at)
  }

  predicate EndsBefore(o: Obj, target: nat, at: nat) {
    PatchOf(o).Some? && PatchOf(o).value.parent == target ==> PatchOf(o).value.at + PatchOf(o).value.len <= at
  }

  /** m is nothing, or the end of a patch of `target` that one of the first n objects asks for. */
  ghost predicate Reached(objs: seq<Obj>, n: nat, target: nat, m: nat)
    requires n <= |objs|
  {
    m == 0 || exists k :: 0 <= k < n && PatchEnd(objs[k], target, m)
  }

  predicate PatchEnd(o: Obj, target: nat, m: nat) {
    PatchOf(o).Some? && PatchOf(o).value.parent == target && PatchOf(o).value.at + PatchOf(o).value.len == m
  }

  lemma {:induction false} MinAtAncestor(objs: seq<Obj>, last: nat, m: nat, target: nat)
    ensures MinAt(objs, last, m, target).Some? <==> Ancestor(objs, last, target)
    decreases last
  {
    if last != target && last < |objs| && objs[last].Ptr? && objs[last].hasParent && objs[last].parent < last {
      MinAtAncestor(objs, objs[last].parent, objs[last].parentOffset + PTR_SIZE, target);
    }
  }

  /** The bound that the walk computes is where some earlier patch of the target ends. */
  lemma {:induction false} MinAtReached(objs: seq<Obj>, n: nat, last: nat, m: nat, target: nat)
    requires n <= |objs| && last < n && Reached(objs, n, last, m) && MinAt(objs, last, m, target).Some?
    ensures Reached(objs, n, target, MinAt(objs, last, m, target).value)
    decreases last
  {
    if last != target {
      assert PatchEnd(objs[last], objs[last].parent, objs[last].parentOffset + PTR_SIZE);
      MinAtReached(objs, n, objs[last].parent, objs[last].parentOffset + PTR_SIZE, target);
    }
  }

  lemma {:induction false} AskedAt(objs: seq<Obj>, n: nat, k: nat) returns (i: nat)
    requires k < n <= |objs| && PatchOf(objs[k]).Some?
    ensures i < |Asked(objs, n)| && Asked(objs, n)[i] == PatchOf(objs[k]).value
    decreases n
  {
    if k == n - 1 { i := |Asked(objs, n - 1)|; } else { i := AskedAt(objs, n - 1, k); }
  }

  /** What the cursor says of the objects so far. */
  ghost predicate Follows(objs: seq<Obj>, offs: seq<nat>, n: nat, c: Cursor) {
    && n <= |objs| && |offs| == |objs| && Recorded(objs, n, c.fixes) && c.last == Current(objs, n)
    && c.offMin == (if n == 0 then 0 else offs[n - 1] + ObjSize(objs[n - 1]))
    && (c.last.Some? ==> c.last.value < n && Reached(objs, n, c.last.value, c.lastMin))
  }

  /** The order check of the driver, which only looks at the current buffer and its parents, lets a patch through exactly
      if it comes after every earlier patch of its target. */
  lemma AllowedIff(objs: seq<Obj>, offs: seq<nat>, start: nat, end: nat, i: nat, c: Cursor, target: nat, at: nat)
    requires CursorOk(objs, offs, start, end, i, c) && Follows(objs, offs, i, c)
    ensures Allowed(objs, offs, target, at, c.last, c.lastMin) <==> InTurn(objs, offs, i, target, at)
  {
    hide InOrder, FixOk, NoneAtZero, SlotStart, Spaced, Parented, Current, Asked;
    if c.last.Some? {
      var last := c.last.value;
      MinAtAncestor(objs, last, c.lastMin, target);
      if MinAt(objs, last, c.lastMin, target).Some? {
        var m := MinAt(objs, last, c.lastMin, target).value;
        ChainAt(objs, c.fixes, last, c.lastMin, target);
        MinAtReached(objs, i, last, c.lastMin, target);
        if at >= m {
          forall k | 0 <= k < i ensures EndsBefore(objs[k], target, at) {
            if PatchOf(objs[k]).Some? { var j := AskedAt(objs, i, k); assert Patch(c.fixes[j].parent, c.fixes[j].at, c.fixes[j].len) == PatchOf(objs[k]).value; }
          }
        } else {
          var k :| 0 <= k < i && PatchEnd(objs[k], target, m);
          assert !EndsBefore(objs[k], target, at);
        }
      }
    }
  }

  lemma RecordedNext(objs: seq<Obj>, n: nat, fixes: seq<Fix>, fixes': seq<Fix>)
    requires n < |objs| && Recorded(objs, n, fixes)
    requires match PatchOf(objs[n])
             case None => fixes' == fixes
             case Some(q) => exists last :: fixes' == fixes + [Fix(q.parent, q.at, q.len, last)]
    ensures Recorded(objs, n + 1, fixes')
  {
  }

  /** One object is accepted exactly if it meets the demands on it. */
  lemma StepIff(objs: seq<Obj>, offs: seq<nat>, start: nat, end: nat, fdsOk: seq<bool>, i: nat, c: Cursor)
    requires i < |objs| && |fdsOk| == |objs| && CursorOk(objs, offs, start, end, i, c) && Follows(objs, offs, i, c)
    ensures Step(objs, offs, start, end, i, c, fdsOk[i]).Some? <==> ObjOk(objs, offs, start, end, fdsOk, i)
    ensures Step(objs, offs, start, end, i, c, fdsOk[i]).Some? ==> Follows(objs, offs, i + 1, Step(objs, offs, start, end, i, c, fdsOk[i]).value)
  {
    var q := PatchOf(objs[i]);
    if q.Some? { AllowedIff(objs, offs, start, end, i, c, q.value.parent, q.value.at); }
    hide ChainOk, InOrder, FixOk, NoneAtZero, SlotStart, Spaced, Parented, Allowed, InTurn, Recorded, Reached, MinAt;
    if Step(objs, offs, start, end, i, c, fdsOk[i]).Some? {
      var c' := Step(objs, offs, start, end, i, c, fdsOk[i]).value;
      if q.Some? {
        AllowedLast(objs, offs, q.value.parent, q.value.at, c.last, c.lastMin);
        assert c'.fixes == c.fixes + [Fix(q.value.parent, q.value.at, q.value.len, c.last.value)];
      }
      RecordedNext(objs, i, c.fixes, c'.fixes);
      ReachedNext(objs, i, c.last, c.lastMin, c'.last, c'.lastMin);
    }
  }

  lemma ReachedNext(objs: seq<Obj>, i: nat, last: Option<nat>, m: nat, last': Option<nat>, m': nat)
    requires i < |objs| && (last.Some? ==> Reached(objs, i, last.value, m))
    requires match objs[i]
             case Flat => last' == last && m' == m
             case Ptr(_, _, _, _) => last' == Some(i) && m' == 0
             case Fda(parent, at, n) => last' == Some(parent) && m' == at + 4 * n
    ensures last'.Some? ==> Reached(objs, i + 1, last'.value, m')
  {
    if objs[i].Fda? { assert PatchEnd(objs[i], objs[i].parent, m'); }
  }

  lemma RunNext(objs: seq<Obj>, offs: seq<nat>, start: nat, end: nat, fdsOk: seq<bool>, n: nat)
    requires 0 < n <= |objs| && |offs| == |objs| && |fdsOk| == |objs|
    ensures Run(objs, offs, start, end, fdsOk, n)
            == match Run(objs, offs, start, end, fdsOk, n - 1)
               case None => None
               case Some(c) => Step(objs, offs, start, end, n - 1, c, fdsOk[n - 1])
  {
  }

  /** A table is accepted exactly if each of its objects meets the demands on it, and then the patches made are those asked
      for. */
  lemma {:induction false} RunIff(objs: seq<Obj>, offs: seq<nat>, start: nat, end: nat, fdsOk: seq<bool>, n: nat)
    requires n <= |objs| && |offs| == |objs| && |fdsOk| == |objs| && start <= end && (end - start) % 8 == 0
    ensures Run(objs, offs, start, end, fdsOk, n).Some? <==> forall j :: 0 <= j < n ==> ObjOk(objs, offs, start, end, fdsOk, j)
    ensures Run(objs, offs, start, end, fdsOk, n).Some? ==> Follows(objs, offs, n, Run(objs, offs, start, end, fdsOk, n).value)
  {
    if n > 0 {
      RunIff(objs, offs, start, end, fdsOk, n - 1);
      if Run(objs, offs, start, end, fdsOk, n - 1).Some? {
        RunKeeps(objs, offs, start, end, fdsOk, n - 1);
        hide *;
        RunNext(objs, offs, start, end, fdsOk, n);
        StepIff(objs, offs, start, end, fdsOk, n - 1, Run(objs, offs, start, end, fdsOk, n - 1).value);
      }
    }
  }

  /** The object loop of binder_transaction. */
  method TranslateObjects(objs: seq<Obj>, offs: seq<nat>, start: nat, end: nat, fdsOk: seq<bool>) returns (r: Option<Cursor>)
    requires |offs| == |objs| && |fdsOk| == |objs| && start <= end && (end - start) % 8 == 0
    ensures r == Run(objs, offs, start, end, fdsOk, |objs|)
    ensures r.Some? ==> CursorOk(objs, offs, start, end, |objs|, r.value)
    ensures r.Some? <==> forall j :: 0 <= j < |objs| ==> ObjOk(objs, offs, start, end, fdsOk, j)
    ensures r.Some? ==> Recorded(objs, |objs|, r.value.fixes)
  {
    hide CursorOk, Step, Allowed, ObjOk, Recorded;
    RunIff(objs, offs, start, end, fdsOk, |objs|);
    var c := Cursor(start, None, 0, 0, []);
    RunKeeps(objs, offs, start, end, fdsOk, 0);
    for i := 0 to |objs|
      invariant Run(objs, offs, start, end, fdsOk, i) == Some(c)
      invariant CursorOk(objs, offs, start, end, i, c)
    {
      var next := StepObject(objs, offs, start, end, i, c, fdsOk[i]);
      if next == None {
        RunStops(objs, offs, start, end, fdsOk, i + 1);
        return None;
      }
      RunKeeps(objs, offs, start, end, fdsOk, i + 1);
      c := next.value;
    }
    return Some(c);
  }

  lemma {:induction false} RunStops(objs: seq<Obj>, offs: seq<nat>, start: nat, end: nat, fdsOk: seq<bool>, i: nat)
    requires i <= |objs| && |offs| == |objs| && |fdsOk| == |objs| && Run(objs, offs, start, end, fdsOk, i) == None
    ensures Run(objs, offs, start, end, fdsOk, |objs|) == None
    decreases |objs| - i
  {
    if i < |objs| { RunStops(objs, offs, start, end, fdsOk, i + 1); }
  }

  /** One round of that loop. */
  method StepObject(objs: seq<Obj>, offs: seq<nat>, start: nat, end: nat, i: nat, c: Cursor, fdsOk: bool) returns (r: Option<Cursor>)
    requires CursorOk(objs, offs, start, end, i, c) && i < |objs|
    ensures r == Step(objs, offs, start, end, i, c, fdsOk)
  {
    hide ChainOk, InOrder, FixOk, NoneAtZero, Allowed, SlotStart;
    if offs[i] < c.offMin { return None; }
    var c1 := c.(offMin := offs[i] + ObjSize(objs[i]));
    match objs[i] {
      case Flat => return Some(c1);
      case Ptr(hasParent, parent, parentOffset, length) =>
        if length > end - c.sg { return None; }
        c1 := c1.(sg := c.sg + Align8(length));
        if hasParent {
          if !ParentIsBuffer(objs, parent, i) { return None; }
          var ok := ValidateFixup(objs, offs, i, parent, parentOffset, c.last, c.lastMin);
          if !ok { return None; }
          if objs[parent].length < PTR_SIZE || parentOffset > objs[parent].length - PTR_SIZE { return None; }
          AllowedLast(objs, offs, parent, parentOffset, c.last, c.lastMin);
          c1 := c1.(fixes := c.fixes + [Fix(parent, parentOffset, PTR_SIZE, c.last.value)]);
        }
        return Some(c1.(last := Some(i), lastMin := 0));
      case Fda(parent, parentOffset, numFds) =>
        if !ParentIsBuffer(objs, parent, i) { return None; }
        var ok := ValidateFixup(objs, offs, i, parent, parentOffset, c.last, c.lastMin);
        if !ok { return None; }
        if numFds >= (WORD - 1) / FD { return None; }
        if FD * numFds > objs[parent].length || parentOffset > objs[parent].length - FD * numFds { return None; }
        if (SlotStart(objs, start, parent) + parentOffset) % FD != 0 { return None; }
        if !fdsOk { return None; }
        AllowedLast(objs, offs, parent, parentOffset, c.last, c.lastMin);
        return Some(c1.(last := Some(parent), lastMin := parentOffset + FD * numFds,
                        fixes := c.fixes + [Fix(parent, parentOffset, FD * numFds, c.last.value)]));
    }
  }

  lemma AllowedLast(objs: seq<Obj>, offs: seq<nat>, target: nat, fixup: nat, last: Option<nat>, lastMin: nat)
    requires last.Some? ==> last.value < |offs|
    requires Allowed(objs, offs, target, fixup, last, lastMin)
    ensures last.Some?
  {
  }

  // ---- Where the patches land ----

  lemma {:induction false} LengthsSplit(a: seq<Obj>, b: seq<Obj>)
    ensures Lengths(a + b) == Lengths(a) + Lengths(b)
    decreases |b|
  {
    if b == [] {
      assert a + b == a && Lengths(b) == [] && Lengths(a) + [] == Lengths(a);
    } else {
      assert (a + b)[..|a + b| - 1] == a + b[..|b| - 1];
      LengthsSplit(a, b[..|b| - 1]);
    }
  }

  /** Slots of different buffers do not overlap. */
  lemma SlotsOrdered(objs: seq<Obj>, start: nat, i: nat, j: nat)
    requires i < j <= |objs| && objs[i].Ptr?
    ensures SlotStart(objs, start, i) + objs[i].length <= SlotStart(objs, start, j)
  {
    SlotNext(objs, start, i);
    AlignUp(objs[i].length);
    assert objs[..j] == objs[..i + 1] + objs[i + 1..j];
    LengthsSplit(objs[..i + 1], objs[i + 1..j]);
    NeedSplit(Lengths(objs[..i + 1]), Lengths(objs[i + 1..j]));
  }

  /** Where a patch lies in the transaction's buffer. */
  function PatchStart(objs: seq<Obj>, start: nat, f: Fix): nat
    requires f.parent < |objs|
  {
    SlotStart(objs, start, f.parent) + f.at
  }

  /** Whatever the object table: all accepted patches lie in the scatter-gather area, past the objects and
      the offsets, each inside its own buffer's slot, and no two of them overlap. */
  lemma PatchesApart(objs: seq<Obj>, offs: seq<nat>, start: nat, end: nat, fdsOk: seq<bool>, a: nat, b: nat)
    requires |offs| == |objs| && |fdsOk| == |objs| && start <= end && (end - start) % 8 == 0
    requires Run(objs, offs, start, end, fdsOk, |objs|).Some?
    requires a < b < |Run(objs, offs, start, end, fdsOk, |objs|).value.fixes|
    ensures var fixes := Run(objs, offs, start, end, fdsOk, |objs|).value.fixes;
            var f, h := fixes[a], fixes[b];
            && f.parent < |objs| && h.parent < |objs| && objs[f.parent].Ptr? && objs[h.parent].Ptr?
            && start <= PatchStart(objs, start, f) && PatchStart(objs, start, f) + f.len <= end
            && start <= PatchStart(objs, start, h) && PatchStart(objs, start, h) + h.len <= end
            && (PatchStart(objs, start, f) + f.len <= PatchStart(objs, start, h)
                || PatchStart(objs, start, h) + h.len <= PatchStart(objs, start, f))
            && (f.parent == h.parent ==> f.at + f.len <= h.at)
  {
    hide Run, ChainOk, Spaced, Parented, NoneAtZero, SlotStart, Lengths;
    RunKeeps(objs, offs, start, end, fdsOk, |objs|);
    var c := Run(objs, offs, start, end, fdsOk, |objs|).value;
    var f, h := c.fixes[a], c.fixes[b];
    assert FixOk(objs, offs, |objs|, f) && FixOk(objs, offs, |objs|, h);
    SlotsOrdered(objs, start, f.parent, |objs|);
    SlotsOrdered(objs, start, h.parent, |objs|);
    SlotBase(objs, start, f.parent);
    SlotBase(objs, start, h.parent);
    if f.parent < h.parent { SlotsOrdered(objs, start, f.parent, h.parent); }
    if h.parent < f.parent { SlotsOrdered(objs, start, h.parent, f.parent); }
  }

  lemma SlotBase(objs: seq<Obj>, start: nat, i: nat)
    requires i <= |objs|
    ensures SlotStart(objs, start, i) >= start
  {
  }

  /** Patches are accepted depth first: into the current buffer object or one of its parents only. */
  lemma DepthFirst(objs: seq<Obj>, offs: seq<nat>, start: nat, end: nat, fdsOk: seq<bool>, a: nat)
    requires |offs| == |objs| && |fdsOk| == |objs| && start <= end && (end - start) % 8 == 0
    requires Run(objs, offs, start, end, fdsOk, |objs|).Some?
    requires a < |Run(objs, offs, start, end, fdsOk, |objs|).value.fixes|
    ensures var f := Run(objs, offs, start, end, fdsOk, |objs|).value.fixes[a];
            f.last < |objs| && f.parent <= f.last && MinAt(objs, f.last, 0, f.parent).Some?
  {
    RunKeeps(objs, offs, start, end, fdsOk, |objs|);
    hide Run;
    var c := Run(objs, offs, start, end, fdsOk, |objs|).value;
    assert FixOk(objs, offs, |objs|, c.fixes[a]);
    MinAtBelow(objs, c.fixes[a].last, 0, c.fixes[a].parent);
  }

  lemma {:induction false} MinAtBelow(objs: seq<Obj>, last: nat, m: nat, target: nat)
    requires MinAt(objs, last, m, target).Some?
    ensures target <= last
    decreases last
  {
    if last != target { MinAtBelow(objs, objs[last].parent, objs[last].parentOffset + PTR_SIZE, target); }
  }

  /** The exact effect of taking offset 0 for "none": a patch whose target is the current buffer or one of its parents,
      at an offset not patched yet, is refused if and only if the current buffer is the first object and lies at
      offset 0 of the data. */
  lemma RefusedIff(objs: seq<Obj>, offs: seq<nat>, start: nat, end: nat, i: nat, c: Cursor, target: nat, fixup: nat)
    requires CursorOk(objs, offs, start, end, i, c) && i <= |objs| && c.last.Some?
    requires MinAt(objs, c.last.value, c.lastMin, target).Some? && fixup >= MinAt(objs, c.last.value, c.lastMin, target).value
    ensures !Allowed(objs, offs, target, fixup, c.last, c.lastMin) <==> c.last.value == 0 && offs[0] == 0
  {
    hide ChainOk, InOrder, FixOk, NoneAtZero, SlotStart, Parented;
    if c.last.value > 0 { FirstIsLeast(objs, offs, i, c.last.value); }
  }

  lemma FirstIsLeast(objs: seq<Obj>, offs: seq<nat>, n: nat, j: nat)
    requires Spaced(objs, offs, n) && 0 < j < n
    ensures offs[j] != 0
  {
    assert offs[0] + ObjSize(objs[0]) <= offs[j];
  }

  /** A buffer object at data offset 0 is never patched, because offset 0 also means "no buffer object yet". */
  lemma NoPatchAtOffsetZero(objs: seq<Obj>, offs: seq<nat>, start: nat, end: nat, fdsOk: seq<bool>, a: nat)
    requires |offs| == |objs| && |fdsOk| == |objs| && start <= end && (end - start) % 8 == 0
    requires Run(objs, offs, start, end, fdsOk, |objs|).Some?
    requires a < |Run(objs, offs, start, end, fdsOk, |objs|).value.fixes|
    ensures var f := Run(objs, offs, start, end, fdsOk, |objs|).value.fixes[a];
            f.parent < |offs| && offs[f.parent] != 0
  {
    RunKeeps(objs, offs, start, end, fdsOk, |objs|);
    hide Run;
    var c := Run(objs, offs, start, end, fdsOk, |objs|).value;
    assert FixOk(objs, offs, |objs|, c.fixes[a]);
  }

  /** So a well-formed pair of nested buffers is accepted at offset 8 and refused at offset 0. */
  lemma OffsetZeroRefused(at: nat)
    ensures var objs := [Ptr(false, 0, 0, 16), Ptr(true, 0, 0, 8)];
            Run(objs, [at, at + 40], 128, 152, [true, true], 2).Some? <==> at != 0
  {
    var objs := [Ptr(false, 0, 0, 16), Ptr(true, 0, 0, 8)];
    var offs := [at, at + 40];
    var c0 := Cursor(128, None, 0, 0, []);
    assert Run(objs, offs, 128, 152, [true, true], 0) == Some(c0);
    var c1 := Cursor(144, Some(0), 0, at + 40, []);
    assert Step(objs, offs, 128, 152, 0, c0, true) == Some(c1);
    assert Run(objs, offs, 128, 152, [true, true], 1) == Some(c1);
    assert MinAt(objs, 0, 0, 0) == Some(0);
  }
}
