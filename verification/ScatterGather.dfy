/** The scatter-gather area: user space announces how many bytes the buffers of a transaction need,
    the driver hands them out one by one. */
module ScatterGather {
  import opened Words

  /** The bytes that buffers of these lengths need, each rounded up to 8, added without bound. */
  function Need(lengths: seq<nat>): nat {
    if lengths == [] then 0 else Align8(lengths[0]) + Need(lengths[1..])
  }

  ghost predicate Sizes(lengths: seq<nat>) {
    forall i :: 0 <= i < |lengths| ==> lengths[i] < WORD
  }

  lemma {:induction false} NeedAppend(a: seq<nat>, n: nat)
    ensures Need(a + [n]) == Need(a) + Align8(n)
  {
    if a == [] {
      assert a + [n] == [n] && [n][1..] == [];
    } else {
      assert (a + [n])[1..] == a[1..] + [n];
      NeedAppend(a[1..], n);
    }
  }

  lemma {:induction false} NeedAligned(a: seq<nat>)
    ensures Need(a) % 8 == 0
  {
    if a != [] { NeedAligned(a[1..]); }
  }

  /** What the announced size is when the machine's arithmetic is taken into account: a length so large that
      rounding wraps counts as nothing, and a sum that does not fit is given up as 0. */
  function Announced(lengths: seq<nat>): Option<nat>
    requires Sizes(lengths)
  {
    if lengths == [] then Some(0)
    else
      match Announced(lengths[1..])
      case None => None
      case Some(total) => if WAlign8(lengths[0]) > WORD - 1 - total then None else Some(total + WAlign8(lengths[0]))
  }

  /** Parcel::ipcBufferSize, which walks the objects backwards. */
  method IpcBufferSize(lengths: seq<nat>) returns (total: nat)
    requires Sizes(lengths)
    ensures total == match Announced(lengths) case None => 0 case Some(t) => t
  {
    total := 0;
    var i := |lengths|;
    assert lengths[i..] == [];
    while i > 0
      invariant 0 <= i <= |lengths| && Announced(lengths[i..]) == Some(total)
    {
      i := i - 1;
      var aligned := WAlign8(lengths[i]);
      assert lengths[i..][1..] == lengths[i + 1..];
      if aligned > WORD - 1 - total {
        AnnouncedFails(lengths, i);
        return 0;
      }
      total := total + aligned;
    }
    assert lengths[0..] == lengths;
  }

  lemma {:induction false} AnnouncedFails(lengths: seq<nat>, i: nat)
    requires Sizes(lengths) && i <= |lengths| && Announced(lengths[i..]) == None
    ensures Announced(lengths) == None
    decreases i
  {
    if i == 0 {
      assert lengths[0..] == lengths;
    } else {
      assert lengths[i - 1..][1..] == lengths[i..];
      AnnouncedFails(lengths, i - 1);
    }
  }

  /** Where the buffers land when each fits: the slots, or the index of the first buffer that is too large. */
  datatype Slot = Slot(start: nat, length: nat)

  /** The hand-out in binder_transaction: a buffer longer than what is left is refused. */
  method HandOut(lengths: seq<nat>, start: nat, extra: nat) returns (slots: seq<Slot>, ok: bool)
    requires Sizes(lengths) && start % 8 == 0 && extra % 8 == 0
    ensures ok <==> Fits(lengths, extra)
    ensures ok ==> |slots| == |lengths| && Need(lengths) <= extra
    ensures forall i :: 0 <= i < |slots| && i < |lengths| ==> slots[i] == Slot(start + Need(lengths[..i]), lengths[i])
  {
    slots := [];
    var sg, end := start, start + extra;
    var i := 0;
    assert lengths[..0] == [] && lengths[0..] == lengths;
    while i < |lengths|
      invariant 0 <= i <= |lengths| && |slots| == i
      invariant sg == start + Need(lengths[..i]) && sg <= end && (end - sg) % 8 == 0
      invariant Fits(lengths, extra) <==> Fits(lengths[i..], end - sg)
      invariant forall j :: 0 <= j < i ==> slots[j] == Slot(start + Need(lengths[..j]), lengths[j])
    {
      var left := end - sg;
      assert lengths[i..][0] == lengths[i] && lengths[i..][1..] == lengths[i + 1..];
      if lengths[i] > left { return slots, false; }
      assert lengths[..i + 1] == lengths[..i] + [lengths[i]];
      NeedAppend(lengths[..i], lengths[i]);
      AlignFits(lengths[i], left);
      slots := slots + [Slot(sg, lengths[i])];
      sg := sg + Align8(lengths[i]);
      i := i + 1;
    }
    assert lengths[..i] == lengths;
    return slots, true;
  }

  lemma AlignFits(n: nat, left: nat)
    requires n <= left && left % 8 == 0
    ensures Align8(n) <= left && (left - Align8(n)) % 8 == 0 && Align8(n) >= n
  {
  }

  /** No buffer is longer than what its predecessors leave. */
  ghost predicate Fits(lengths: seq<nat>, left: nat) {
    lengths == [] || (lengths[0] <= left && Align8(lengths[0]) <= left && Fits(lengths[1..], left - Align8(lengths[0])))
  }

  lemma {:induction false} FitsIff(lengths: seq<nat>, left: nat)
    requires left % 8 == 0
    ensures Fits(lengths, left) <==> Need(lengths) <= left
  {
    if lengths != [] {
      if lengths[0] <= left { AlignFits(lengths[0], left); }
      if Align8(lengths[0]) <= left { FitsIff(lengths[1..], left - Align8(lengths[0])); }
    }
  }

  /** One more buffer, in front of buffers that need `rest`. */
  lemma AnnouncedStep(length: nat, rest: nat, r: Option<nat>)
    requires length < WORD && rest % 8 == 0 && (rest < WORD ==> r == Some(rest))
    requires r.Some? ==> r.value % 8 == 0 && r.value < WORD && r.value <= rest
    ensures var need := Align8(length) + rest;
            match (if r.Some? && WAlign8(length) <= WORD - 1 - r.value then Some(r.value + WAlign8(length)) else None)
            case None => need >= WORD
            case Some(t) => t % 8 == 0 && t < WORD && t <= need && (need < WORD ==> t == need) && (need >= WORD && length <= WORD - 8 ==> rest >= WORD)
  {
    hide Align8, WAlign8;
    WAlignCases(length);
    if r.Some? { MultiplesAdd(r.value, WAlign8(length)); }
  }

  lemma MultiplesAdd(a: nat, b: nat)
    ensures a % 8 == 0 && b % 8 == 0 ==> (a + b) % 8 == 0
  {
  }

  lemma {:induction false} AnnouncedIs(lengths: seq<nat>)
    requires Sizes(lengths)
    ensures Need(lengths) < WORD ==> Announced(lengths) == Some(Need(lengths))
    ensures Announced(lengths).Some? ==> Announced(lengths).value % 8 == 0 && Announced(lengths).value < WORD
    ensures Announced(lengths).Some? ==> Announced(lengths).value <= Need(lengths)
    ensures Need(lengths) >= WORD && Announced(lengths).Some? ==> exists i :: 0 <= i < |lengths| && lengths[i] > WORD - 8
  {
    if lengths != [] {
      hide Align8, WAlign8;
      AnnouncedIs(lengths[1..]);
      NeedAligned(lengths[1..]);
      AnnouncedStep(lengths[0], Need(lengths[1..]), Announced(lengths[1..]));
      if Need(lengths) >= WORD && Announced(lengths).Some? && lengths[0] <= WORD - 8 {
        var i :| 0 <= i < |lengths[1..]| && lengths[1..][i] > WORD - 8;
        assert lengths[i + 1] > WORD - 8;
      }
    }
  }

  /** The announced size never leads to the "too large buffer" refusal, and is used up exactly, if and only
      if the true sum fits in a machine word. */
  lemma AnnouncedSuffices(lengths: seq<nat>)
    requires Sizes(lengths)
    ensures var extra := match Announced(lengths) case None => 0 case Some(t) => t;
            && extra % 8 == 0
            && (Fits(lengths, extra) <==> Need(lengths) < WORD)
            && (Need(lengths) < WORD ==> extra == Need(lengths))
  {
    var extra := match Announced(lengths) case None => 0 case Some(t) => t;
    AnnouncedIs(lengths);
    FitsIff(lengths, extra);
  }

  lemma {:induction false} NeedSplit(a: seq<nat>, b: seq<nat>)
    ensures Need(a + b) == Need(a) + Need(b)
  {
    if a == [] {
      assert a + b == b;
    } else {
      assert (a + b)[1..] == a[1..] + b;
      NeedSplit(a[1..], b);
    }
  }

  /** Everything up to and including buffer i lies before what precedes j. */
  lemma SlotEnds(lengths: seq<nat>, i: nat, j: nat)
    requires i < j <= |lengths|
    ensures Need(lengths[..i]) + Align8(lengths[i]) <= Need(lengths[..j])
  {
    hide Align8, Need;
    assert lengths[..i + 1] == lengths[..i] + [lengths[i]];
    NeedAppend(lengths[..i], lengths[i]);
    assert lengths[..j] == lengths[..i + 1] + lengths[i + 1..j];
    NeedSplit(lengths[..i + 1], lengths[i + 1..j]);
  }

  lemma AlignUp(n: nat)
    ensures n <= Align8(n)
  {
  }

  /** The slots are 8-aligned, disjoint, in order and inside the area. */
  lemma SlotsApart(lengths: seq<nat>, start: nat, i: nat, j: nat)
    requires i < j < |lengths| && start % 8 == 0
    ensures var a, b := start + Need(lengths[..i]), start + Need(lengths[..j]);
            && a % 8 == 0 && b % 8 == 0 && a + lengths[i] <= b && b + lengths[j] <= start + Need(lengths)
  {
    hide Align8, Need;
    NeedAligned(lengths[..i]);
    NeedAligned(lengths[..j]);
    SlotEnds(lengths, i, j);
    SlotEnds(lengths, j, |lengths|);
    assert lengths[..|lengths|] == lengths;
    AlignUp(lengths[i]);
    AlignUp(lengths[j]);
  }
}
