/** The growable data buffer of a parcel. */
module ParcelData {
  import opened Words
  import opened ParcelCodec

  datatype Status = OK | BAD_VALUE | NO_MEMORY | NOT_ENOUGH_DATA

  /** What decides about a write: mData != nullptr, mDataCapacity, mDataSize and mDataPos. */
  datatype Shape = Shape(hasData: bool, capacity: nat, size: nat, pos: nat)

  /** How a write ends: the bytes are in place, nothing changed, or it would run past the buffer. */
  datatype Fate = Written | Unchanged | OutOfBounds

  /** What writeInplace hands out. */
  datatype Space = At(at: nat) | Null | Outside

  /** The capacity growData asks for. */
  function GrowTarget(size: nat, len: nat): nat {
    (size + len) * 3 / 2
  }

  predicate NeedsGrowth(s: Shape, len: nat) {
    s.pos + len > s.capacity
  }

  /** Whether growData succeeds: the target is a size an int can hold, and memory is there if it is asked for. */
  predicate CanGrow(s: Shape, len: nat, memOk: bool) {
    && len <= INT32_MAX && GrowTarget(s.size, len) <= INT32_MAX
    && (memOk || (s.hasData && GrowTarget(s.size, len) <= s.capacity))
  }

  /** Where growth leaves the position: the first data starts at 0, and a target within the capacity shortens. */
  function PosAfterGrowth(s: Shape, len: nat): nat {
    if !s.hasData then 0
    else if GrowTarget(s.size, len) <= s.capacity then Min(s.pos, GrowTarget(s.size, len))
    else s.pos
  }

  function CapacityAfterGrowth(s: Shape, len: nat): nat {
    if s.hasData then Max(s.capacity, GrowTarget(s.size, len)) else GrowTarget(s.size, len)
  }

  /** Whether the write that is retried after growth stays inside the buffer. */
  predicate RetryInBounds(s: Shape, len: nat) {
    PosAfterGrowth(s, len) + len <= CapacityAfterGrowth(s, len)
  }

  function FateOf(s: Shape, len: nat, memOk: bool): Fate {
    if !NeedsGrowth(s, len) then Written
    else if !CanGrow(s, len, memOk) then Unchanged
    else if RetryInBounds(s, len) then Written
    else OutOfBounds
  }

  /** Where a write that is carried out starts. */
  function StartOf(s: Shape, len: nat): nat {
    if NeedsGrowth(s, len) then PosAfterGrowth(s, len) else s.pos
  }

  function Grown(s: Shape, len: nat): Shape {
    if NeedsGrowth(s, len) then Shape(true, CapacityAfterGrowth(s, len), s.size, PosAfterGrowth(s, len)) else s
  }

  /** After a write that is carried out. */
  function Placed(s: Shape, len: nat): Shape {
    Grown(s, len).(pos := StartOf(s, len) + len, size := Max(s.size, StartOf(s, len) + len))
  }

  /** mError after a write of len bytes: only a failed allocation is remembered. */
  function ErrorAfter(s: Shape, error: Status, len: nat, memOk: bool): Status {
    if NeedsGrowth(s, len) && len <= INT32_MAX && GrowTarget(s.size, len) <= INT32_MAX && !CanGrow(s, len, memOk) then NO_MEMORY
    else error
  }

  /** Exactly when growth leaves room for the retried write, and exactly when it moves the position on the way.
      A position inside the data always has room and stays. */
  lemma GrowthLeavesRoom(s: Shape, len: nat)
    requires s.size <= s.capacity && (!s.hasData ==> s.capacity == 0) && NeedsGrowth(s, len)
    ensures RetryInBounds(s, len) <==>
              var t := GrowTarget(s.size, len);
              !s.hasData || (if t <= s.capacity then Min(s.pos, t) + len <= s.capacity else s.pos + len <= t)
    ensures PosAfterGrowth(s, len) != s.pos <==>
              if s.hasData then GrowTarget(s.size, len) <= s.capacity && s.pos > GrowTarget(s.size, len) else s.pos > 0
    ensures s.pos <= s.size ==> RetryInBounds(s, len) && PosAfterGrowth(s, len) == s.pos
    ensures s.hasData && s.pos <= s.size ==> GrowTarget(s.size, len) > s.capacity
  {
    TargetFacts(s.size, len);
  }

  /** So a write inside the data, or right behind it, is never out of bounds and starts where the position is. */
  lemma InsideStays(s: Shape, len: nat, memOk: bool)
    requires s.size <= s.capacity && (!s.hasData ==> s.capacity == 0) && s.pos <= s.size
    ensures StartOf(s, len) == s.pos && FateOf(s, len, memOk) != OutOfBounds
    ensures len <= INT32_MAX && memOk && GrowTarget(s.size, len) <= INT32_MAX ==> FateOf(s, len, memOk) == Written
  {
    if NeedsGrowth(s, len) { GrowthLeavesRoom(s, len); }
  }

  /** Both oddities happen: a position far beyond the data can be out of reach of the growth, or be moved by it. */
  lemma GrowthFallsShort()
    ensures var s := Shape(true, 8, 4, 1000);
            NeedsGrowth(s, 4) && CanGrow(s, 4, true) && !RetryInBounds(s, 4)
    ensures var s := Shape(true, 100, 4, 1000);
            NeedsGrowth(s, 4) && CanGrow(s, 4, false) && RetryInBounds(s, 4) && PosAfterGrowth(s, 4) == 12
  {
  }

  /** c with b written over it from `at` on. */
  function Overwrite(c: seq<byte>, at: nat, b: seq<byte>): seq<byte>
    requires at <= |c|
  {
    c[..at] + b + (if at + |b| < |c| then c[at + |b|..] else [])
  }

  lemma OverwriteEnd(c: seq<byte>, b: seq<byte>)
    ensures Overwrite(c, |c|, b) == c + b
  {
  }

  /** `after` is `before` with b written at `at`; a gap in front of b, if there is one, holds anything. */
  ghost predicate WroteAt(before: seq<byte>, after: seq<byte>, at: nat, b: seq<byte>) {
    && |after| == Max(|before|, at + |b|)
    && after[at..at + |b|] == b
    && forall i :: 0 <= i < |before| && !(at <= i < at + |b|) ==> after[i] == before[i]
  }

  /** Without a gap that says everything. */
  lemma WroteIsOverwrite(before: seq<byte>, after: seq<byte>, at: nat, b: seq<byte>)
    requires WroteAt(before, after, at, b) && at <= |before|
    ensures after == Overwrite(before, at, b)
  {
    var w := Overwrite(before, at, b);
    forall i | 0 <= i < |after| ensures after[i] == w[i] {
      if at <= i < at + |b| { assert after[at..at + |b|][i - at] == b[i - at]; }
    }
  }

  /** Two writes side by side are one. */
  lemma WroteBoth(c0: seq<byte>, c1: seq<byte>, c2: seq<byte>, at: nat, a: seq<byte>, b: seq<byte>)
    requires WroteAt(c0, c1, at, a) && WroteAt(c1, c2, at + |a|, b)
    ensures WroteAt(c0, c2, at, a + b)
  {
    forall i | at <= i < at + |a + b| ensures c2[i] == (a + b)[i - at] {
      if i < at + |a| {
        assert c1[at..at + |a|][i - at] == a[i - at];
      } else {
        assert c2[at + |a|..at + |a| + |b|][i - at - |a|] == b[i - at - |a|];
      }
    }
    assert c2[at..at + |a + b|] == a + b;
  }

  /** Room made by writeInplace: the data so far is kept outside it, and the pad bytes are zero. */
  ghost predicate Prepared(before: seq<byte>, mid: seq<byte>, at: nat, len: nat) {
    && at + Pad4(len) <= |mid| && |before| <= |mid| && len <= Pad4(len)
    && mid[at + len..at + Pad4(len)] == Zeroes(Pad4(len) - len)
    && forall i :: 0 <= i < |before| && !(at <= i < at + Pad4(len)) ==> mid[i] == before[i]
  }

  lemma PreparedBy(before: seq<byte>, was: seq<byte>, mid: seq<byte>, at: nat, len: nat)
    requires at + Pad4(len) <= |mid| == |was| && |before| <= |was| && was[..|before|] == before && len <= Pad4(len)
    requires if Pad4(len) == len then mid == was
             else && mid[..at + len] == was[..at + len] && mid[at + Pad4(len)..] == was[at + Pad4(len)..]
                  && mid[at + len..at + Pad4(len)] == Zeroes(Pad4(len) - len)
    ensures Prepared(before, mid, at, len)
  {
    hide Pad4;
    var p := Pad4(len);
    forall i | 0 <= i < |before| && !(at <= i < at + p) ensures mid[i] == before[i] {
      assert was[..|before|][i] == before[i];
      if p != len {
        if i < at { assert mid[..at + len][i] == was[..at + len][i]; } else { assert mid[at + p..][i - at - p] == was[at + p..][i - at - p]; }
      }
    }
  }

  /** A write that reports success and writes nothing: no error is pending, and either a size limit stops it, or there
      is nothing to write and no data to point into. */
  predicate Silent(s: Shape, error: Status, len: nat) {
    && len <= INT32_MAX && error == OK
    && ((!s.hasData && s.pos == 0 && len == 0)
        || (s.pos + Pad4(len) > s.capacity && (Pad4(len) > INT32_MAX || GrowTarget(s.size, Pad4(len)) > INT32_MAX)))
  }

  lemma SilentIff(s: Shape, error: Status, len: nat, memOk: bool)
    ensures Silent(s, error, len) <==>
              && len <= INT32_MAX && ErrorAfter(s, error, Pad4(len), memOk) == OK
              && ((!s.hasData && s.pos == 0 && len == 0) || FateOf(s, Pad4(len), memOk) == Unchanged)
  {
  }

  lemma NullCase(s: Shape, len: nat, memOk: bool)
    requires !s.hasData ==> s.capacity == 0
    ensures !Grown(s, len).hasData ==> s.pos == 0 && len == 0 && Grown(s, len) == s && !NeedsGrowth(s, len)
    ensures !s.hasData && s.pos == 0 && len == 0 ==> FateOf(s, len, memOk) == Written && StartOf(s, len) == 0 && Grown(s, len) == s
  {
  }

  class Parcel {
    var hasData: bool       // mData != nullptr
    var data: array<byte>   // mData; its length is mDataCapacity
    var size: nat           // mDataSize
    var pos: nat            // mDataPos
    var error: Status       // mError

    predicate Valid()
      reads this
    {
      size <= data.Length <= INT32_MAX && (!hasData ==> data.Length == 0)
    }

    function Contents(): (c: seq<byte>)
      requires Valid()
      reads this, data
      ensures |c| == size
    {
      data[..size]
    }

    function GetShape(): (s: Shape)
      reads this
    {
      Shape(hasData, data.Length, size, pos)
    }

    constructor ()
      ensures Valid() && Contents() == [] && pos == 0 && error == OK && !hasData && fresh(data)
    {
      data := new byte[0];
      hasData, size, pos, error := false, 0, 0, OK;
    }

    /** continueWrite on a parcel that owns its data, as far as the data goes. */
    method ContinueWrite(desired: nat, memOk: bool) returns (status: Status)
      requires Valid()
      modifies this
      ensures Valid() && (data == old(data) || fresh(data))
      ensures status == if desired > INT32_MAX then BAD_VALUE
                        else if (desired > old(data.Length) || !old(hasData)) && !memOk then NO_MEMORY else OK
      ensures error == if status == NO_MEMORY then NO_MEMORY else old(error)
      ensures status != OK ==> data == old(data) && GetShape() == old(GetShape())
      ensures status == OK ==> GetShape() == if !old(hasData) then Shape(true, desired, 0, 0)
                                             else if desired > old(data.Length) then Shape(true, desired, old(size), old(pos))
                                             else Shape(true, old(data.Length), Min(old(size), desired), Min(old(pos), desired))
      ensures status == OK ==> Contents() == old(Contents())[..size]
    {
      if desired > INT32_MAX { return BAD_VALUE; }
      if desired > data.Length || !hasData {
        if !memOk {
          error := NO_MEMORY;
          return NO_MEMORY;
        }
        var bigger := new byte[desired];
        forall i | 0 <= i < data.Length { bigger[i] := data[i]; }
        assert bigger[..size] == data[..size];
        if !hasData { size, pos := 0, 0; }
        hasData, data := true, bigger;
      } else {
        if size > desired { size := desired; }
        if pos > desired { pos := desired; }
      }
      return OK;
    }

    /** growData */
    method GrowData(len: nat, memOk: bool) returns (status: Status)
      requires Valid()
      modifies this
      ensures Valid() && (data == old(data) || fresh(data))
      ensures status == if len > INT32_MAX || GrowTarget(old(size), len) > INT32_MAX then BAD_VALUE
                        else if CanGrow(old(GetShape()), len, memOk) then OK else NO_MEMORY
      ensures error == if status == NO_MEMORY then NO_MEMORY else old(error)
      ensures status != OK ==> data == old(data) && GetShape() == old(GetShape())
      ensures status == OK ==> GetShape() == Shape(true, CapacityAfterGrowth(old(GetShape()), len), old(size), PosAfterGrowth(old(GetShape()), len))
      ensures Contents() == old(Contents())
    {
      TargetFacts(size, len);
      if len > INT32_MAX { return BAD_VALUE; }
      if len > WORD - 1 - size { return NO_MEMORY; }
      if size + len > (WORD - 1) / 3 { return NO_MEMORY; }
      status := ContinueWrite(GrowTarget(size, len), memOk);
    }

    /** finishWrite */
    method FinishWrite(len: nat) returns (status: Status)
      requires Valid() && (len <= INT32_MAX ==> pos + len <= data.Length)
      modifies this`pos, this`size
      ensures Valid() && (status == OK <==> len <= INT32_MAX)
      ensures pos == if status == OK then old(pos) + len else old(pos)
      ensures size == if status == OK then Max(old(size), pos) else old(size)
    {
      if len > INT32_MAX { return BAD_VALUE; }
      pos := pos + len;
      if pos > size { size := pos; }
      return OK;
    }

    /** Stores bytes at the current position. */
    method Store(at: nat, b: seq<byte>)
      requires Valid() && at + |b| <= data.Length
      modifies data
      ensures data[..at] == old(data[..at]) && data[at..at + |b|] == b && data[at + |b|..] == old(data[at + |b|..])
    {
      forall i | 0 <= i < |b| { data[at + i] := b[i]; }
    }

    /** Growth when a write of len bytes needs it; `fate` is what becomes of the write. */
    method MakeRoom(len: nat, memOk: bool) returns (status: Status, fate: Fate)
      requires Valid()
      modifies this
      ensures Valid() && (data == old(data) || fresh(data)) && Contents() == old(Contents()) && size == old(size)
      ensures fate == FateOf(old(GetShape()), len, memOk) && error == ErrorAfter(old(GetShape()), old(error), len, memOk)
      ensures fate != Unchanged ==> GetShape() == Grown(old(GetShape()), len) && pos == StartOf(old(GetShape()), len)
      ensures fate == Written <==> fate != Unchanged && pos + len <= data.Length
      ensures !NeedsGrowth(old(GetShape()), len) ==> data == old(data)
      ensures fate == Unchanged ==> data == old(data) && GetShape() == old(GetShape()) && status != OK
      ensures fate == Unchanged ==> status == if len > INT32_MAX || GrowTarget(old(size), len) > INT32_MAX then BAD_VALUE else NO_MEMORY
      ensures fate != Unchanged ==> status == OK && len <= INT32_MAX
    {
      hide GrowTarget;
      assert old(GetShape()) == GetShape();
      if pos + len > data.Length {
        status := GrowData(len, memOk);
        if status != OK { return status, Unchanged; }
        return OK, if pos + len > data.Length then OutOfBounds else Written;
      }
      return OK, Written;
    }

    /** writeInplace: room for len bytes, padded; the pad bytes are zero. `Outside` is the retry of a write that
        growth has left no room for; the state is the one in front of that write. */
    method WriteInplace(len: nat, memOk: bool) returns (r: Space)
      requires Valid()
      modifies this, data
      ensures Valid() && (data == old(data) || fresh(data))
      ensures r == Null <==> len > INT32_MAX || FateOf(old(GetShape()), Pad4(len), memOk) == Unchanged
                             || (!old(hasData) && old(pos) == 0 && len == 0)
      ensures r == Outside <==> len <= INT32_MAX && FateOf(old(GetShape()), Pad4(len), memOk) == OutOfBounds
      ensures error == if len > INT32_MAX then old(error) else ErrorAfter(old(GetShape()), old(error), Pad4(len), memOk)
      ensures r == Null ==> data == old(data) && data[..] == old(data[..]) && GetShape() == old(GetShape())
      ensures r == Outside ==> Contents() == old(Contents()) && GetShape() == Grown(old(GetShape()), Pad4(len)) && pos + Pad4(len) > data.Length
      ensures r.At? ==>
                && hasData && r.at == StartOf(old(GetShape()), Pad4(len)) && GetShape() == Placed(old(GetShape()), Pad4(len))
                && pos == r.at + Pad4(len) && r.at + len <= data.Length && size == Max(old(size), pos) && Prepared(old(Contents()), data[..], r.at, len)
    {
      hide FateOf, StartOf, ErrorAfter, GrowTarget, NeedsGrowth, Prepared, Grown;
      PadFacts(len);
      if len > INT32_MAX { return Null; }
      var padded := Pad4(len);
      NullCase(GetShape(), padded, memOk);
      ghost var before := Contents();
      var status, fate := MakeRoom(padded, memOk);
      if fate == Unchanged { return Null; }
      if fate == OutOfBounds { return Outside; }
      var start := pos;
      ghost var was := data[..];
      if padded != len { Store(start + len, Zeroes(padded - len)); }
      PreparedBy(before, was, data[..], start, len);
      var finished := FinishWrite(padded);
      return if hasData then At(start) else Null;
    }

    /** write: a padded block. When no room is found the status is mError, and so can be OK although nothing
        was written: exactly when no error was pending and a size limit, not memory, was the reason, or when
        there was nothing to write to a parcel without data. */
    method Write(b: seq<byte>, memOk: bool) returns (status: Status, fate: Fate)
      requires Valid()
      modifies this, data
      ensures Valid() && (data == old(data) || fresh(data))
      ensures fate == if |b| > INT32_MAX || (!old(hasData) && old(pos) == 0 && b == []) then Unchanged
                      else FateOf(old(GetShape()), Pad4(|b|), memOk)
      ensures error == if |b| > INT32_MAX then old(error) else ErrorAfter(old(GetShape()), old(error), Pad4(|b|), memOk)
      ensures fate == Written ==> status == OK && GetShape() == Placed(old(GetShape()), Pad4(|b|))
                                  && WroteAt(old(Contents()), Contents(), StartOf(old(GetShape()), Pad4(|b|)), Padded(b))
      ensures fate != Written ==> Contents() == old(Contents())
      ensures fate == Unchanged ==> GetShape() == old(GetShape()) && status == if |b| > INT32_MAX then BAD_VALUE else error
      ensures fate == Unchanged && status == OK <==> Silent(old(GetShape()), old(error), |b|)
    {
      hide FateOf, StartOf, ErrorAfter, GrowTarget, NeedsGrowth, Prepared, WroteAt, Silent, Padded, Pad4, Grown;
      SilentIff(GetShape(), error, |b|, memOk);
      if |b| > INT32_MAX { return BAD_VALUE, Unchanged; }
      ghost var before := Contents();
      var r := WriteInplace(|b|, memOk);
      if r == Null { return error, Unchanged; }
      if r == Outside { return OK, OutOfBounds; }
      ghost var mid := data[..];
      Store(r.at, b);
      WrittenBlock(before, r.at, b, mid, data[..], size);
      return OK, Written;
    }

    /** writeAligned: a number of 4 or 8 bytes. */
    method WriteAligned(b: seq<byte>, memOk: bool) returns (status: Status, fate: Fate)
      requires Valid() && |b| in {4, 8}
      modifies this, data
      ensures Valid() && (data == old(data) || fresh(data))
      ensures fate == FateOf(old(GetShape()), |b|, memOk)
      ensures error == ErrorAfter(old(GetShape()), old(error), |b|, memOk)
      ensures fate == Written ==> status == OK && GetShape() == Placed(old(GetShape()), |b|)
                                  && WroteAt(old(Contents()), Contents(), StartOf(old(GetShape()), |b|), b)
      ensures fate != Written ==> Contents() == old(Contents())
      ensures fate == Unchanged ==> GetShape() == old(GetShape())
                                    && status == if GrowTarget(old(size), |b|) > INT32_MAX then BAD_VALUE else NO_MEMORY
    {
      hide FateOf, StartOf, ErrorAfter, GrowTarget, NeedsGrowth, WroteAt, Grown;
      ghost var before := Contents();
      status, fate := MakeRoom(|b|, memOk);
      if fate != Written { return; }
      ghost var mid, start := data[..], pos;
      assert mid[..|before|] == before;
      Store(pos, b);
      status := FinishWrite(|b|);
      WrittenNumber(before, start, b, mid, data[..], size);
    }

    /** setDataPosition */
    method SetPosition(p: nat)
      requires Valid() && p <= INT32_MAX
      modifies this`pos
      ensures Valid() && pos == p
    {
      pos := p;
    }

    /** writeString16 of a string that is not null, at any position: the length, then the units and a terminator
        in place. When there is room for the length only, it stays behind. */
    method WriteString16(u: seq<nat>, memOk: bool) returns (status: Status, fate: Fate)
      requires Valid() && |u| <= INT32_MAX && forall i :: 0 <= i < |u| ==> u[i] < 0x1_0000
      modifies this, data
      ensures Valid() && (data == old(data) || fresh(data))
      ensures fate == OutOfBounds <==> FateOf(old(GetShape()), 4, memOk) == OutOfBounds
      ensures fate == OutOfBounds ==> Contents() == old(Contents())
      ensures fate == Written ==>
                var e, start := Word32(|u|) + Padded(Units(u) + [0, 0]), StartOf(old(GetShape()), 4);
                status == OK && pos == start + |e| && WroteAt(old(Contents()), Contents(), start, e)
      ensures fate == Unchanged ==>
                if FateOf(old(GetShape()), 4, memOk) == Unchanged then GetShape() == old(GetShape()) && Contents() == old(Contents())
                else pos == StartOf(old(GetShape()), 4) + 4 && WroteAt(old(Contents()), Contents(), StartOf(old(GetShape()), 4), Word32(|u|))
      ensures memOk && old(pos) <= old(size) && |u| < INT32_MAX / 2 && GrowTarget(old(size), 4 + Pad4(2 * |u| + 2)) <= INT32_MAX ==> fate == Written
    {
      hide LE, Units, Word32, Padded, WroteAt, Overwrite, FateOf, StartOf, ErrorAfter, GrowTarget, NeedsGrowth, Silent, Pad4, Grown;
      ghost var before, s0 := Contents(), GetShape();
      if pos <= size { InsideStays(s0, 4, memOk); }
      TargetFacts(size, 4 + Pad4(2 * |u| + 2));
      GrowMonotone(size, 4, Pad4(2 * |u| + 2));
      PadFacts(2 * |u| + 2);
      status, fate := WriteAligned(Word32(|u|), memOk);
      if fate != Written { return; }
      ghost var mid, s1 := Contents(), GetShape();
      WroteLength(before, mid, s1.pos - 4, Word32(|u|));
      InsideStays(s1, Pad4(2 * |u| + 2), memOk);
      GrowNearer(s0.size, s1.size, Pad4(2 * |u| + 2), s0.pos <= s0.size);
      status, fate := Write(Units(u) + [0, 0], memOk);
      if fate == Written { WroteBoth(before, mid, Contents(), s1.pos - 4, Word32(|u|), Padded(Units(u) + [0, 0])); }
    }

    /** Writing one value at the end of the data: its encoding is appended, or the data is a prefix of what it would
        be; an empty block is written by doing nothing. */
    method AppendValue(v: Value, memOk: bool) returns (wrote: bool)
      requires Valid() && Writable(v) && pos == size
      modifies this, data
      ensures Valid() && (data == old(data) || fresh(data)) && pos == size
      ensures wrote ==> Contents() == old(Contents()) + Encode(v)
      ensures !wrote ==> old(Contents()) <= Contents()
      ensures memOk && GrowTarget(old(size), |Encode(v)|) <= INT32_MAX ==> wrote
    {
      hide LE, Units, WroteAt, FateOf, StartOf, ErrorAfter, GrowTarget, NeedsGrowth, Silent, Word32, Padded, Pad4, Grown;
      TargetFacts(size, |Encode(v)|);
      ghost var before, s0 := Contents(), GetShape();
      EncodeLength(v);
      InsideStays(s0, |Encode(v)|, memOk);
      InsideStays(s0, 4, memOk);
      var st, fate;
      match v {
        case Int32(i) =>
          st, fate := WriteAligned(Word32(i), memOk);
          wrote := fate == Written;
        case Int64(l) =>
          Powers();
          st, fate := WriteAligned(LE(Unsigned(l, 8), 8), memOk);
          wrote := fate == Written;
        case Block(b) =>
          PadFacts(|b|);
          st, fate := Write(b, memOk);
          wrote := fate == Written || b == [];
          assert b == [] && fate == Unchanged ==> Contents() == before + Encode(v);
        case CString(s) =>
          PadFacts(|s| + 1);
          st, fate := Write(s + [0], memOk);
          wrote := fate == Written;
        case String16(None) =>
          st, fate := WriteAligned(Word32(-1), memOk);
          wrote := fate == Written;
        case String16(Some(u)) =>
          PadFacts(2 * |u| + 2);
          st, fate := WriteString16(u, memOk);
          wrote := fate == Written;
          if FateOf(s0, 4, memOk) == Written && fate == Unchanged { AppendedAtEnd(before, Contents(), Word32(|u|)); }
      }
      if fate == Written { AppendedAtEnd(before, Contents(), Encode(v)); }
    }

    /** Any values, one after the other, into an empty parcel, with whatever growth that takes. With memory at hand
        everything is written as long as one and a half times the total is a size an int can hold. */
    method WriteAll(vs: seq<Value>, memOk: seq<bool>) returns (wrote: bool)
      requires Valid() && Contents() == [] && pos == 0 && AllWritable(vs) && |memOk| == |vs|
      modifies this, data
      ensures Valid() && pos == size && (data == old(data) || fresh(data))
      ensures wrote ==> Contents() == EncodeAll(vs)
      ensures (forall i :: 0 <= i < |memOk| ==> memOk[i]) && GrowTarget(0, |EncodeAll(vs)|) <= INT32_MAX ==> wrote
    {
      hide Encode, Writable;
      var i := 0;
      assert vs[..0] == [];
      while i < |vs|
        invariant 0 <= i <= |vs| && Valid() && pos == size && AllWritable(vs[..i])
        invariant data == old(data) || fresh(data)
        invariant Contents() == EncodeAll(vs[..i])
      {
        WritableAt(vs, i);
        EncodeAppend(vs[..i], vs[i]);
        assert vs[..i + 1] == vs[..i] + [vs[i]];
        EncodeSplit(vs, i + 1);
        GrowMonotone(0, |EncodeAll(vs[..i + 1])|, |EncodeAll(vs)| - |EncodeAll(vs[..i + 1])|);
        GrowMonotone(0, size, |Encode(vs[i])|);
        wrote := AppendValue(vs[i], memOk[i]);
        if !wrote { return false; }
        i := i + 1;
      }
      assert vs[..i] == vs;
      return true;
    }

    /** Values written into an empty parcel, the position set back to the start, and the same kinds read. */
    method WriteThenRead(vs: seq<Value>, memOk: seq<bool>) returns (wrote: bool, r: Option<seq<Value>>)
      requires Valid() && Contents() == [] && pos == 0 && AllWritable(vs) && |memOk| == |vs|
      modifies this, data
      ensures Valid()
      ensures wrote ==> r == Some(vs) && pos == size == |EncodeAll(vs)|
      ensures (forall i :: 0 <= i < |memOk| ==> memOk[i]) && GrowTarget(0, |EncodeAll(vs)|) <= INT32_MAX ==> wrote
    {
      hide Encode, Decode, Writable;
      r := None;
      wrote := WriteAll(vs, memOk);
      if !wrote { return; }
      SetPosition(0);
      RoundTrip(vs);
      r := ReadAll(KindsOf(vs));
    }

    /** memchr from the current position */
    method FindTerminator() returns (nul: Option<nat>)
      requires Valid()
      ensures nul == FindNul(Contents(), pos)
    {
      var i := pos;
      while i < size
        invariant i >= pos && FindNul(Contents(), i) == FindNul(Contents(), pos)
        decreases size - i
      {
        if data[i] == 0 { return Some(i); }
        i := i + 1;
      }
      return None;
    }

    /** Reading one value: what Decode says, and on success the position after it. */
    method ReadValue(k: Kind) returns (v: Option<Value>)
      requires Valid()
      modifies this`pos
      ensures Valid()
      ensures match Decode(k, Contents(), old(pos)) case None => v == None case Some((w, next)) => v == Some(w) && pos == next
    {
      hide FromLE, Signed, FromUnits;
      ghost var c := Contents();
      match k {
        case KInt32 =>
          if pos + 4 > size { return None; }
          SubArray(data[..], size, pos, pos + 4);
          v := Some(Int32(Signed(FromLE(data[pos..pos + 4]), 4)));
          pos := pos + 4;
        case KInt64 =>
          if pos + 8 > size { return None; }
          SubArray(data[..], size, pos, pos + 8);
          v := Some(Int64(Signed(FromLE(data[pos..pos + 8]), 8)));
          pos := pos + 8;
        case KBlock(len) =>
          PadFacts(len);
          if len > INT32_MAX || pos + Pad4(len) > size { return None; }
          SubArray(data[..], size, pos, pos + len);
          v := Some(Block(data[pos..pos + len]));
          pos := pos + Pad4(len);
        case KCString =>
          var nul := FindTerminator();
          if nul == None { return None; }
          SubArray(data[..], size, pos, nul.value);
          v := Some(CString(data[pos..nul.value]));
          pos := pos + Pad4(nul.value - pos + 1);
        case KString16 =>
          v := ReadString16();
      }
    }

    /** readString16 into a nullable string. */
    method ReadString16() returns (v: Option<Value>)
      requires Valid()
      modifies this`pos
      ensures Valid()
      ensures match Decode(KString16, Contents(), old(pos)) case None => v == None case Some((w, next)) => v == Some(w) && pos == next
    {
      hide FromLE, Signed, FromUnits, FindNul, Pad4, DecodeWord, Decode;
      ghost var c, start := Contents(), pos;
      String16Cases(c, start);
      if pos + 4 > size { return None; }
      SubArray(data[..], size, pos, pos + 4);
      var n := Signed(FromLE(data[pos..pos + 4]), 4);
      assert DecodeWord(c, start) == Some(n) by { WordIs(c, start); }
      pos := pos + 4;
      if n < 0 { return Some(String16(None)); }
      if n >= INT32_MAX { return None; }
      var len := 2 * n + 2;
      PadFacts(len);
      if len > INT32_MAX || pos + Pad4(len) > size { return None; }
      SubArray(data[..], size, pos, pos + 2 * n);
      v := Some(String16(Some(FromUnits(data[pos..pos + 2 * n]))));
      pos := pos + Pad4(len);
    }

    /** Reading a list of values from the current position. */
    method ReadAll(ks: seq<Kind>) returns (r: Option<seq<Value>>)
      requires Valid()
      modifies this`pos
      ensures Valid()
      ensures match DecodeAll(ks, Contents(), old(pos)) case None => r == None case Some((vs, end)) => r == Some(vs) && pos == end
    {
      hide Decode;
      var vs: seq<Value> := [];
      var i := 0;
      ghost var start := pos;
      assert ks[0..] == ks;
      AppendNothing(DecodeAll(ks, Contents(), pos));
      while i < |ks|
        invariant 0 <= i <= |ks| && Valid()
        invariant Contents() == old(Contents())
        invariant DecodeAll(ks, Contents(), start) == Prepend(vs, DecodeAll(ks[i..], Contents(), pos))
      {
        ghost var rest := ks[i..];
        assert rest[0] == ks[i] && rest[1..] == ks[i + 1..];
        ghost var at := pos;
        var v := ReadValue(ks[i]);
        if v == None { return None; }
        PrependStep(vs, v.value, DecodeAll(ks[i + 1..], Contents(), pos));
        vs := vs + [v.value];
        i := i + 1;
      }
      assert vs + [] == vs;
      return Some(vs);
    }
  }

  function Prepend(vs: seq<Value>, r: Option<(seq<Value>, nat)>): Option<(seq<Value>, nat)> {
    match r case None => None case Some((ws, end)) => Some((vs + ws, end))
  }

  lemma AppendNothing(r: Option<(seq<Value>, nat)>)
    ensures Prepend([], r) == r
  {
    match r case None => case Some((ws, end)) => assert [] + ws == ws;
  }

  lemma PrependStep(vs: seq<Value>, v: Value, r: Option<(seq<Value>, nat)>)
    ensures Prepend(vs, match r case None => None case Some((ws, end)) => Some(([v] + ws, end))) == Prepend(vs + [v], r)
  {
    match r case None => case Some((ws, end)) => assert vs + ([v] + ws) == vs + [v] + ws;
  }

  lemma WordIs(d: seq<byte>, pos: nat)
    ensures DecodeWord(d, pos) == if pos + 4 <= |d| then Some(Signed(FromLE(d[pos..pos + 4]), 4)) else None
  {
  }

  lemma String16Cases(d: seq<byte>, pos: nat)
    ensures pos + 4 > |d| ==> Decode(KString16, d, pos) == None
    ensures forall n :: DecodeWord(d, pos) == Some(n) ==>
              Decode(KString16, d, pos) ==
              if n < 0 then Some((String16(None), pos + 4))
              else if n < INT32_MAX && 2 * n + 2 <= INT32_MAX && pos + 4 + Pad4(2 * n + 2) <= |d| then
                (PadFacts(2 * n + 2); Some((String16(Some(FromUnits(d[pos + 4..pos + 4 + 2 * n]))), pos + 4 + Pad4(2 * n + 2))))
              else None
  {
    hide FindNul;
  }

  lemma SubArray(d: seq<byte>, size: nat, from: nat, to_: nat)
    requires from <= to_ <= size <= |d|
    ensures d[from..to_] == d[..size][from..to_]
  {
  }

  lemma TargetFacts(size: nat, len: nat)
    ensures GrowTarget(size, len) >= size + len
    ensures size <= INT32_MAX && len <= INT32_MAX ==> size + len <= (WORD - 1) / 3
  {
  }

  lemma GrowMonotone(size: nat, a: nat, b: nat)
    ensures GrowTarget(size, a) <= GrowTarget(size, a + b) && GrowTarget(size + a, b) == GrowTarget(size, a + b)
  {
  }

  /** The target of a later, shorter write from data that has grown by 4 at most. */
  lemma GrowNearer(size: nat, grown: nat, len: nat, inside: bool)
    requires inside ==> grown <= size + 4
    ensures inside ==> GrowTarget(grown, len) <= GrowTarget(size, 4 + len)
  {
  }

  lemma WroteLength(before: seq<byte>, after: seq<byte>, at: nat, b: seq<byte>)
    requires WroteAt(before, after, at, b)
    ensures |after| == Max(|before|, at + |b|)
  {
  }

  lemma AppendedAtEnd(before: seq<byte>, after: seq<byte>, b: seq<byte>)
    requires WroteAt(before, after, |before|, b)
    ensures after == before + b
  {
    WroteIsOverwrite(before, after, |before|, b);
    OverwriteEnd(before, b);
  }

  lemma {:induction false} EncodeSplit(vs: seq<Value>, i: nat)
    requires AllWritable(vs) && i <= |vs|
    ensures |EncodeAll(vs[..i])| <= |EncodeAll(vs)|
    decreases |vs| - i
  {
    hide Encode, Writable;
    if i < |vs| {
      assert vs[..i + 1] == vs[..i] + [vs[i]];
      EncodeAppend(vs[..i], vs[i]);
      EncodeSplit(vs, i + 1);
    } else {
      assert vs[..i] == vs;
    }
  }

  lemma EncodeLength(v: Value)
    requires Writable(v)
    ensures |Encode(v)| == match v
      case Int32(_) => 4
      case Int64(_) => 8
      case Block(b) => Pad4(|b|)
      case CString(s) => Pad4(|s| + 1)
      case String16(None) => 4
      case String16(Some(u)) => 4 + Pad4(2 * |u| + 2)
  {
  }

  lemma WritableAt(vs: seq<Value>, i: nat)
    requires AllWritable(vs) && i < |vs|
    ensures Writable(vs[i])
  {
  }

  /** Where the bytes are after a padded write. */
  lemma WrittenBlock(before: seq<byte>, start: nat, b: seq<byte>, mid: seq<byte>, after: seq<byte>, size: nat)
    requires |mid| == |after| && size <= |after| && size == Max(|before|, start + Pad4(|b|))
    requires Prepared(before, mid, start, |b|)
    requires after[..start] == mid[..start] && after[start..start + |b|] == b && after[start + |b|..] == mid[start + |b|..]
    ensures WroteAt(before, after[..size], start, Padded(b))
  {
    var w, e := after[..size], Padded(b);
    forall i | start <= i < start + |e| ensures w[i] == e[i - start] {
      if i < start + |b| {
        assert after[start..start + |b|][i - start] == b[i - start];
      } else {
        assert after[start + |b|..][i - start - |b|] == mid[start + |b|..][i - start - |b|];
        assert mid[start + |b|..start + Pad4(|b|)][i - start - |b|] == 0;
      }
    }
    assert w[start..start + |e|] == e;
    forall i | 0 <= i < |before| && !(start <= i < start + |e|) ensures w[i] == before[i] {
      if i < start {
        assert after[..start][i] == mid[..start][i];
      } else {
        assert after[start + |b|..][i - start - |b|] == mid[start + |b|..][i - start - |b|];
      }
    }
  }

  lemma WrittenNumber(before: seq<byte>, start: nat, b: seq<byte>, mid: seq<byte>, after: seq<byte>, size: nat)
    requires |before| <= |mid| && |mid| == |after| && start + |b| <= size <= |after| && size == Max(|before|, start + |b|)
    requires mid[..|before|] == before
    requires after[..start] == mid[..start] && after[start..start + |b|] == b && after[start + |b|..] == mid[start + |b|..]
    ensures WroteAt(before, after[..size], start, b)
  {
    var w := after[..size];
    assert w[start..start + |b|] == after[start..start + |b|];
    forall i | 0 <= i < |before| && !(start <= i < start + |b|) ensures w[i] == before[i] {
      if i < start {
        assert after[..start][i] == mid[..start][i] == mid[..|before|][i];
      } else {
        assert after[start + |b|..][i - start - |b|] == mid[start + |b|..][i - start - |b|];
        assert mid[..|before|][i] == before[i];
      }
    }
  }

  /** A run that ends in a write past the buffer: a number, a position far beyond it, another number. */
  method StrayWrite() returns (fate: Fate)
    ensures fate == OutOfBounds
  {
    var p := new Parcel();
    var st;
    st, fate := p.WriteAligned(Word32(1), true);
    p.SetPosition(1000);
    st, fate := p.WriteAligned(Word32(2), true);
  }

  /** A block just too long to be padded: the writer reports success and has written nothing. */
  method SilentRefusal(b: seq<byte>) returns (status: Status, fate: Fate)
    requires |b| == INT32_MAX - 1
    ensures status == OK && fate == Unchanged
  {
    var p := new Parcel();
    assert Pad4(|b|) == INT32_MAX + 1;
    assert Silent(p.GetShape(), p.error, |b|);
    status, fate := p.Write(b, true);
  }
}
