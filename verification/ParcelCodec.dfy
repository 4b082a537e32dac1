/** What typed values look like inside a parcel, and reading them back. */
module ParcelCodec {
  import opened Words

  const INT32_MAX: nat := 0x7fff_ffff

  datatype Value =
    | Int32(i: int)
    | Int64(l: int)
    | Block(bytes: seq<byte>)
    | CString(chars: seq<byte>)
    | String16(units: Option<seq<nat>>)

  /** What a reader asks for. A block is read with the length it was written with. */
  datatype Kind = KInt32 | KInt64 | KBlock(len: nat) | KCString | KString16

  function KindOf(v: Value): Kind {
    match v
    case Int32(_) => KInt32
    case Int64(_) => KInt64
    case Block(b) => KBlock(|b|)
    case CString(_) => KCString
    case String16(_) => KString16
  }

  /** pad_size */
  function Pad4(n: nat): nat { (n + 3) / 4 * 4 }

  lemma PadFacts(n: nat)
    ensures n <= Pad4(n) <= n + 3 && Pad4(n) % 4 == 0
    ensures n % 4 == 0 ==> Pad4(n) == n
  {
  }

  // ---- Little-endian numbers ----

  function Power256(k: nat): nat {
    if k == 0 then 1 else 256 * Power256(k - 1)
  }

  function LE(n: nat, k: nat): (b: seq<byte>)
    ensures |b| == k
  {
    if k == 0 then [] else [(n % 256) as byte] + LE(n / 256, k - 1)
  }

  function FromLE(b: seq<byte>): nat {
    if b == [] then 0 else b[0] as nat + 256 * FromLE(b[1..])
  }

  lemma {:induction false} LERoundTrip(n: nat, k: nat)
    requires n < Power256(k)
    ensures FromLE(LE(n, k)) == n
    decreases k
  {
    if k > 0 {
      assert LE(n, k)[1..] == LE(n / 256, k - 1);
      LERoundTrip(n / 256, k - 1);
    }
  }

  /** Two's complement in `k` bytes. */
  function Unsigned(i: int, k: nat): (n: nat)
    requires -(Power256(k) as int) <= i < Power256(k)
    ensures n < Power256(k)
  {
    if i < 0 then i + Power256(k) else i
  }

  function Signed(n: nat, k: nat): int {
    if 2 * n < Power256(k) then n else n - Power256(k)
  }

  lemma SignedRoundTrip(i: int, k: nat)
    requires -(Power256(k) as int) <= 2 * i < Power256(k)
    ensures Signed(Unsigned(i, k), k) == i
  {
  }

  lemma Powers()
    ensures Power256(2) == 0x1_0000 && Power256(4) == 0x1_0000_0000 && Power256(8) == 0x1_0000_0000_0000_0000
  {
    assert Power256(1) == 256;
    assert Power256(2) == 256 * 256;
    assert Power256(3) == 256 * 256 * 256;
    assert Power256(4) == 0x1_0000_0000;
    assert Power256(5) == 256 * 0x1_0000_0000;
    assert Power256(6) == 0x1_0000 * 0x1_0000_0000;
    assert Power256(7) == 0x100_0000 * 0x1_0000_0000;
  }

  function Units(u: seq<nat>): (b: seq<byte>)
    ensures |b| == 2 * |u|
  {
    if u == [] then [] else LE(u[0], 2) + Units(u[1..])
  }

  function FromUnits(b: seq<byte>): seq<nat>
    requires |b| % 2 == 0
  {
    if b == [] then [] else [FromLE(b[..2])] + FromUnits(b[2..])
  }

  lemma {:induction false} UnitsRoundTrip(u: seq<nat>)
    requires forall i :: 0 <= i < |u| ==> u[i] < 0x1_0000
    ensures FromUnits(Units(u)) == u
  {
    if u != [] {
      var b := Units(u);
      assert b[..2] == LE(u[0], 2) && b[2..] == Units(u[1..]);
      Powers();
      LERoundTrip(u[0], 2);
      UnitsRoundTrip(u[1..]);
    }
  }

  // ---- Encoding ----

  /** The values the writers take: numbers of their width, strings without an embedded NUL, sizes an int can hold. */
  ghost predicate Writable(v: Value) {
    match v
    case Int32(i) => -0x8000_0000 <= i < 0x8000_0000
    case Int64(l) => -0x8000_0000_0000_0000 <= l < 0x8000_0000_0000_0000
    case Block(b) => Pad4(|b|) <= INT32_MAX
    case CString(s) => Pad4(|s| + 1) <= INT32_MAX && 0 !in s
    case String16(u) => u.Some? ==> Pad4(2 * |u.value| + 2) <= INT32_MAX && forall i :: 0 <= i < |u.value| ==> u.value[i] < 0x1_0000
  }

  /** A padded block. */
  function Padded(b: seq<byte>): (r: seq<byte>)
    ensures |r| == Pad4(|b|) && r[..|b|] == b && forall k :: |b| <= k < |r| ==> r[k] == 0
  {
    PadFacts(|b|);
    b + Zeroes(Pad4(|b|) - |b|)
  }

  function Word32(i: int): (b: seq<byte>)
    requires -0x8000_0000 <= i < 0x1_0000_0000
    ensures |b| == 4
  {
    Powers();
    LE(Unsigned(i, 4), 4)
  }

  /** The wire format of a number: four bytes, the lowest first. */
  lemma WordLayout(i: int)
    requires -0x8000_0000 <= i < 0x1_0000_0000
    ensures var u: nat := if i < 0 then i + 0x1_0000_0000 else i;
            Word32(i) == [(u % 256) as byte, (u / 256 % 256) as byte, (u / 0x1_0000 % 256) as byte, (u / 0x100_0000 % 256) as byte]
  {
    Powers();
    var u: nat := Unsigned(i, 4);
    var u1, u2, u3 := u / 256, u / 256 / 256, u / 256 / 256 / 256;
    assert u2 == u / 0x1_0000 && u3 == u / 0x100_0000;
    assert LE(u3, 1) == [(u3 % 256) as byte] + LE(u3 / 256, 0);
    assert LE(u2, 2) == [(u2 % 256) as byte] + LE(u3, 1);
    assert LE(u1, 3) == [(u1 % 256) as byte] + LE(u2, 2);
    assert LE(u, 4) == [(u % 256) as byte] + LE(u1, 3);
  }

  /** The wire format of 16-bit units: the lower byte first. */
  lemma {:induction false} UnitLayout(u: seq<nat>, k: nat)
    requires k < |u|
    ensures Units(u)[2 * k] == (u[k] % 256) as byte && Units(u)[2 * k + 1] == (u[k] / 256 % 256) as byte
  {
    assert LE(u[0], 2) == [(u[0] % 256) as byte] + LE(u[0] / 256, 1);
    assert LE(u[0] / 256, 1) == [(u[0] / 256 % 256) as byte] + LE(u[0] / 256 / 256, 0);
    if k > 0 {
      UnitLayout(u[1..], k - 1);
      assert Units(u)[2 * k] == Units(u[1..])[2 * (k - 1)] && Units(u)[2 * k + 1] == Units(u[1..])[2 * (k - 1) + 1];
    }
  }

  function Encode(v: Value): seq<byte>
    requires Writable(v)
  {
    match v
    case Int32(i) => Word32(i)
    case Int64(l) => Powers(); LE(Unsigned(l, 8), 8)
    case Block(b) => Padded(b)
    case CString(s) => Padded(s + [0])
    case String16(None) => Word32(-1)
    case String16(Some(u)) => Word32(|u|) + Padded(Units(u) + [0, 0])
  }

  // ---- Decoding ----

  /** Position of the first NUL at or after `from`. */
  function FindNul(d: seq<byte>, from: nat): (r: Option<nat>)
    ensures r.Some? ==> from <= r.value < |d| && d[r.value] == 0 && forall i :: from <= i < r.value ==> d[i] != 0
    ensures r == None ==> forall i :: from <= i < |d| ==> d[i] != 0
    decreases |d| - from
  {
    if from >= |d| then None else if d[from] == 0 then Some(from) else FindNul(d, from + 1)
  }

  function DecodeWord(d: seq<byte>, pos: nat): Option<int> {
    if pos + 4 <= |d| then Some(Signed(FromLE(d[pos..pos + 4]), 4)) else None
  }

  /** A length, -1 for no string, and then the padded units with their terminator. */
  function DecodeString16(d: seq<byte>, pos: nat): Option<(Value, nat)> {
    match DecodeWord(d, pos)
    case None => None
    case Some(n) =>
      if n < 0 then Some((String16(None), pos + 4))
      else
        PadFacts(2 * n + 2);
        if n < INT32_MAX && 2 * n + 2 <= INT32_MAX && pos + 4 + Pad4(2 * n + 2) <= |d| then
          Some((String16(Some(FromUnits(d[pos + 4..pos + 4 + 2 * n]))), pos + 4 + Pad4(2 * n + 2)))
        else None
  }

  /** The value and the position after it. */
  function Decode(k: Kind, d: seq<byte>, pos: nat): Option<(Value, nat)> {
    match k
    case KInt32 => if pos + 4 <= |d| then Some((Int32(Signed(FromLE(d[pos..pos + 4]), 4)), pos + 4)) else None
    case KInt64 => if pos + 8 <= |d| then Some((Int64(Signed(FromLE(d[pos..pos + 8]), 8)), pos + 8)) else None
    case KBlock(len) =>
      PadFacts(len);
      if len <= INT32_MAX && pos + Pad4(len) <= |d| then Some((Block(d[pos..pos + len]), pos + Pad4(len))) else None
    case KCString =>
      var nul := FindNul(d, pos);
      if nul.Some? then Some((CString(d[pos..nul.value]), pos + Pad4(nul.value - pos + 1))) else None
    case KString16 => DecodeString16(d, pos)
  }

  /** d holds e at pos. */
  ghost predicate At(d: seq<byte>, pos: nat, e: seq<byte>) {
    pos + |e| <= |d| && d[pos..pos + |e|] == e
  }

  lemma AtParts(d: seq<byte>, pos: nat, a: seq<byte>, b: seq<byte>)
    requires At(d, pos, a + b)
    ensures At(d, pos, a) && At(d, pos + |a|, b)
  {
    assert (a + b)[..|a|] == a && (a + b)[|a|..] == b;
    assert d[pos..pos + |a|] == d[pos..pos + |a + b|][..|a|];
    assert d[pos + |a|..pos + |a| + |b|] == d[pos..pos + |a + b|][|a|..];
  }

  lemma WordBack(d: seq<byte>, pos: nat, i: int)
    requires -0x8000_0000 <= i < 0x8000_0000 && At(d, pos, Word32(i))
    ensures DecodeWord(d, pos) == Some(i)
  {
    Powers();
    LERoundTrip(Unsigned(i, 4), 4);
    SignedRoundTrip(i, 4);
  }

  lemma LongBack(d: seq<byte>, pos: nat, l: int)
    requires Writable(Int64(l)) && At(d, pos, Encode(Int64(l)))
    ensures Decode(KInt64, d, pos) == Some((Int64(l), pos + 8))
  {
    Powers();
    LERoundTrip(Unsigned(l, 8), 8);
    SignedRoundTrip(l, 8);
  }

  lemma PaddedBack(d: seq<byte>, pos: nat, b: seq<byte>)
    requires At(d, pos, Padded(b))
    ensures pos + Pad4(|b|) <= |d| && At(d, pos, b)
  {
    PadFacts(|b|);
    AtParts(d, pos, b, Zeroes(Pad4(|b|) - |b|));
  }

  lemma CStringBack(d: seq<byte>, pos: nat, s: seq<byte>)
    requires 0 !in s && At(d, pos, Padded(s + [0]))
    ensures Decode(KCString, d, pos) == Some((CString(s), pos + Pad4(|s| + 1)))
  {
    PaddedBack(d, pos, s + [0]);
    AtParts(d, pos, s, [0]);
    assert d[pos + |s|] == d[pos + |s|..pos + |s| + 1][0] == 0;
    forall i | pos <= i < pos + |s| ensures d[i] != 0 { assert d[i] == s[i - pos]; assert s[i - pos] in s; }
    var nul := FindNul(d, pos);
    assert nul == Some(pos + |s|);
  }

  lemma BlockBack(d: seq<byte>, pos: nat, b: seq<byte>)
    requires Writable(Block(b)) && At(d, pos, Padded(b))
    ensures Decode(KBlock(|b|), d, pos) == Some((Block(b), pos + Pad4(|b|)))
  {
    hide FindNul, DecodeWord, FromUnits, LE, FromLE, Padded;
    PadFacts(|b|);
    PaddedBack(d, pos, b);
  }

  lemma NullBack(d: seq<byte>, pos: nat)
    requires At(d, pos, Word32(-1))
    ensures Decode(KString16, d, pos) == Some((String16(None), pos + 4))
  {
    hide DecodeWord, FromUnits, Word32;
    WordBack(d, pos, -1);
  }

  lemma IntBack(d: seq<byte>, pos: nat, i: int)
    requires Writable(Int32(i)) && At(d, pos, Word32(i))
    ensures Decode(KInt32, d, pos) == Some((Int32(i), pos + 4))
  {
    hide FindNul, FromUnits, Word32, FromLE, Signed;
    WordBack(d, pos, i);
  }

  lemma String16Read(d: seq<byte>, pos: nat, u: seq<nat>)
    requires DecodeWord(d, pos) == Some(|u|) && Pad4(2 * |u| + 2) <= INT32_MAX
    requires pos + 4 + Pad4(2 * |u| + 2) <= |d| && d[pos + 4..pos + 4 + 2 * |u|] == Units(u) && FromUnits(Units(u)) == u
    ensures Decode(KString16, d, pos) == Some((String16(Some(u)), pos + 4 + Pad4(2 * |u| + 2)))
  {
    hide DecodeWord, Units, FromUnits, Pad4, FindNul;
    PadFacts(2 * |u| + 2);
  }

  lemma String16Back(d: seq<byte>, pos: nat, u: seq<nat>)
    requires Writable(String16(Some(u))) && At(d, pos, Word32(|u|) + Padded(Units(u) + [0, 0]))
    ensures Decode(KString16, d, pos) == Some((String16(Some(u)), pos + 4 + Pad4(2 * |u| + 2)))
  {
    hide *;
    var b := Units(u);
    UnitsWritable(u);
    PadFacts(2 * |u| + 2);
    AtParts(d, pos, Word32(|u|), Padded(b + [0, 0]));
    WordBack(d, pos, |u|);
    PaddedBack(d, pos + 4, b + [0, 0]);
    AtParts(d, pos + 4, b, [0, 0]);
    AtSlice(d, pos + 4, b);
    UnitsRoundTrip(u);
    String16Read(d, pos, u);
  }

  lemma UnitsWritable(u: seq<nat>)
    requires Writable(String16(Some(u)))
    ensures Pad4(2 * |u| + 2) <= INT32_MAX && |u| < 0x8000_0000 && forall i :: 0 <= i < |u| ==> u[i] < 0x1_0000
  {
    PadFacts(2 * |u| + 2);
  }

  lemma AtSlice(d: seq<byte>, pos: nat, e: seq<byte>)
    requires At(d, pos, e)
    ensures pos + |e| <= |d| && d[pos..pos + |e|] == e
  {
  }

  /** Reading a value where it was written returns it and moves past it. */
  lemma DecodeEncode(v: Value, d: seq<byte>, pos: nat)
    requires Writable(v) && At(d, pos, Encode(v))
    ensures Decode(KindOf(v), d, pos) == Some((v, pos + |Encode(v)|))
  {
    hide Decode, At, Pad4, Units, LE, Padded, Word32;
    match v
    case Int32(i) => IntBack(d, pos, i);
    case Int64(l) => LongBack(d, pos, l);
    case Block(b) => BlockBack(d, pos, b);
    case CString(s) => CStringBack(d, pos, s);
    case String16(None) => NullBack(d, pos);
    case String16(Some(u)) => String16Back(d, pos, u);
  }

  // ---- Sequences of values ----

  ghost predicate AllWritable(vs: seq<Value>) {
    forall i :: 0 <= i < |vs| ==> Writable(vs[i])
  }

  function EncodeAll(vs: seq<Value>): seq<byte>
    requires AllWritable(vs)
  {
    if vs == [] then [] else Encode(vs[0]) + EncodeAll(vs[1..])
  }

  function KindsOf(vs: seq<Value>): seq<Kind> {
    if vs == [] then [] else [KindOf(vs[0])] + KindsOf(vs[1..])
  }

  function DecodeAll(ks: seq<Kind>, d: seq<byte>, pos: nat): Option<(seq<Value>, nat)>
    decreases |ks|
  {
    if ks == [] then Some(([], pos))
    else
      match Decode(ks[0], d, pos)
      case None => None
      case Some((v, next)) =>
        match DecodeAll(ks[1..], d, next)
        case None => None
        case Some((vs, end)) => Some(([v] + vs, end))
  }

  lemma {:induction false} DecodeAllAt(vs: seq<Value>, d: seq<byte>, pos: nat)
    requires AllWritable(vs) && At(d, pos, EncodeAll(vs))
    ensures DecodeAll(KindsOf(vs), d, pos) == Some((vs, pos + |EncodeAll(vs)|))
    decreases |vs|
  {
    hide Encode, Decode, Writable, At, KindOf;
    if vs == [] {
      assert KindsOf(vs) == [] && EncodeAll(vs) == [];
    } else {
      AtParts(d, pos, Encode(vs[0]), EncodeAll(vs[1..]));
      DecodeEncode(vs[0], d, pos);
      DecodeAllAt(vs[1..], d, pos + |Encode(vs[0])|);
      assert KindsOf(vs)[1..] == KindsOf(vs[1..]) && KindsOf(vs)[0] == KindOf(vs[0]);
      assert [vs[0]] + vs[1..] == vs;
    }
  }

  /** Any values written one after the other into an empty parcel are read back, and reading them ends at the data size. */
  lemma RoundTrip(vs: seq<Value>)
    requires AllWritable(vs)
    ensures DecodeAll(KindsOf(vs), EncodeAll(vs), 0) == Some((vs, |EncodeAll(vs)|))
  {
    DecodeAllAt(vs, EncodeAll(vs), 0);
  }

  lemma {:induction false} EncodeAppend(vs: seq<Value>, v: Value)
    requires AllWritable(vs) && Writable(v)
    ensures AllWritable(vs + [v]) && EncodeAll(vs + [v]) == EncodeAll(vs) + Encode(v)
  {
    hide Encode, Writable;
    if vs == [] {
      assert [] + [v] == [v] && [v][1..] == [];
      assert EncodeAll([v]) == Encode(v) + [];
    } else {
      assert (vs + [v])[1..] == vs[1..] + [v];
      EncodeAppend(vs[1..], v);
    }
  }
}
