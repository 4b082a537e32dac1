/** Machine words, pages and the result type shared by the models. */
module Words {

  /** One more than the largest size_t / binder_size_t. */
  const WORD: nat := 0x1_0000_0000_0000_0000
  const PAGE: nat := 4096

  newtype byte = x: int | 0 <= x < 256

  /** n zero bytes. */
  function Zeroes(n: nat): (z: seq<byte>)
    ensures |z| == n && forall i :: 0 <= i < n ==> z[i] == 0
  {
    seq(n, i => 0)
  }

  ghost predicate Distinct(s: seq<nat>) {
    forall i, j :: 0 <= i < j < |s| ==> s[i] != s[j]
  }

  ghost predicate Ascending(s: seq<nat>) {
    forall i, j :: 0 <= i < j < |s| ==> s[i] < s[j]
  }

  datatype Option<+T> = None | Some(value: T)

  /** The errno values the allocator and the driver hand back. */
  datatype Errno = ENOMEM | EINVAL | ENOSPC | ESRCH | EBUSY | EPERM

  datatype Result<+T> = Ok(value: T) | Err(error: Errno)

  /** ALIGN(n, 8) over unbounded integers. */
  function Align8(n: nat): nat { (n + 7) / 8 * 8 }

  /** ALIGN(n, 8) as the machine computes it: the addition may wrap. */
  function WAlign8(n: nat): nat { (n + 7) % WORD / 8 * 8 }

  function WAdd(a: nat, b: nat): nat { (a + b) % WORD }

  function PageDown(a: int): int { a / PAGE * PAGE }

  function PageUp(a: int): int { (a + PAGE - 1) / PAGE * PAGE }

  function Max(a: int, b: int): int { if a < b then b else a }

  function Min(a: int, b: int): int { if a < b then a else b }

  /** The size computation of a buffer request with its two wrap tests. */
  function PackedSize(data: nat, offsets: nat, extra: nat): Option<nat> {
    var both := WAdd(WAlign8(data), WAlign8(offsets));
    if both < data || both < offsets then None
    else
      var size := WAdd(both, WAlign8(extra));
      if size < both || size < extra then None else Some(size)
  }

  lemma WAlignCases(n: nat)
    requires n < WORD
    ensures Align8(n) % 8 == 0 && n <= Align8(n) <= n + 7
    ensures if n + 7 < WORD then WAlign8(n) == Align8(n) < WORD
            else WAlign8(n) == 0 && Align8(n) == WORD && n > WORD - 8
  {
  }

  /** Adding an aligned operand either is the unbounded sum, or shows: it falls below an operand. */
  lemma WrapShows(both: nat, n: nat)
    requires both < WORD && both % 8 == 0 && n < WORD
    ensures var sum := WAdd(both, WAlign8(n));
            && sum < WORD && sum % 8 == 0
            && if both + Align8(n) < WORD then sum == both + Align8(n) && sum >= both && sum >= n
               else sum < both || sum < n
  {
    WAlignCases(n);
    var w := WAlign8(n);
    if both + w < WORD {
      assert WAdd(both, w) == both + w;
    } else {
      assert WAdd(both, w) == both + w - WORD;
    }
  }

  /** The same for the first test, where both operands are aligned on the way in. */
  lemma WrapShowsBoth(data: nat, offsets: nat)
    requires data < WORD && offsets < WORD
    ensures var both := WAdd(WAlign8(data), WAlign8(offsets));
            && both < WORD && both % 8 == 0
            && if Align8(data) + Align8(offsets) < WORD
               then both == Align8(data) + Align8(offsets) && both >= data && both >= offsets
               else both < data || both < offsets
  {
    WAlignCases(data);
    WAlignCases(offsets);
    WrapShows(WAlign8(data), offsets);
  }

  /** The two tests pass exactly when the unbounded sum of the three aligned sizes fits in a word. */
  lemma PackedSizeExact(data: nat, offsets: nat, extra: nat)
    requires data < WORD && offsets < WORD && extra < WORD
    ensures var sum := Align8(data) + Align8(offsets) + Align8(extra);
            PackedSize(data, offsets, extra) == if sum < WORD then Some(sum) else None
  {
    WrapShowsBoth(data, offsets);
    WrapShows(WAdd(WAlign8(data), WAlign8(offsets)), extra);
  }

  lemma PageBounds(a: int)
    ensures PageDown(a) <= a < PageDown(a) + PAGE
    ensures a <= PageUp(a) < a + PAGE
    ensures PageDown(a) % PAGE == 0 && PageUp(a) % PAGE == 0
    ensures a % PAGE == 0 ==> PageDown(a) == PageUp(a) == a
    ensures a % PAGE != 0 ==> PageUp(a) == PageDown(a) + PAGE && PageDown(a) < a
  {
  }

  /** Page p lies below, or at or above, an address rounded to a page. */
  lemma PageCompare(a: nat, p: nat)
    ensures PageUp(a) <= p * PAGE <==> a <= p * PAGE
    ensures p * PAGE < PageDown(a) <==> (p + 1) * PAGE <= a
    ensures PageDown(a) == p * PAGE <==> p * PAGE <= a < (p + 1) * PAGE
  {
  }
}
