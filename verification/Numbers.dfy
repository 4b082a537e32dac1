/** Divisibility, smallest prime factors, and what the linear sieve relies on. */
module Numbers {

  ghost predicate Divides(d: nat, n: nat) {
    exists k: nat :: n == d * k
  }

  lemma DividesMod(d: nat, n: nat)
    requires d > 0
    ensures Divides(d, n) <==> n % d == 0
  {
    if n % d == 0 { assert n == d * (n / d); }
    if k: nat :| n == d * k { ModOfMultiple(d, k); }
  }

  lemma {:induction false} ModOfMultiple(d: nat, k: nat)
    requires d > 0
    ensures (d * k) % d == 0 && (d * k) / d == k
    decreases k
  {
    if k > 0 {
      ModOfMultiple(d, k - 1);
      assert d * k == d * (k - 1) + d;
      PlusOne(d * (k - 1), d);
    }
  }

  lemma PlusOne(n: nat, d: nat)
    requires d > 0
    ensures (n + d) / d == n / d + 1 && (n + d) % d == n % d
  {
    var q, r := n / d, n % d;
    assert n + d == d * (q + 1) + r;
    QuotientUnique(n + d, d, q + 1, r);
  }

  lemma QuotientUnique(n: nat, d: nat, q: nat, r: nat)
    requires d > 0 && n == d * q + r && r < d
    ensures n / d == q && n % d == r
  {
    var q', r' := n / d, n % d;
    assert d * q + r == d * q' + r';
    TimesMonotone(d, q, q');
    TimesMonotone(d, q', q);
  }

  lemma {:induction false} TimesMonotone(d: nat, a: nat, b: nat)
    ensures a < b ==> d * a + d <= d * b
    decreases b
  {
    if a < b {
      assert d * b == d * (b - 1) + d;
      if a < b - 1 { TimesMonotone(d, a, b - 1); }
    }
  }

  lemma Distribute(a: nat, k: nat, r: nat, b: nat)
    ensures (a * k + r) * b == (a * b) * k + r * b
  {
    assert (a * k + r) * b == (a * k) * b + r * b;
    assert (a * k) * b == a * (k * b) == a * (b * k) == (a * b) * k;
  }

  lemma SelfMod(n: nat)
    requires n > 0
    ensures n % n == 0
  {
  }

  lemma DividesTimes(d: nat, a: nat, b: nat)
    requires Divides(d, a)
    ensures Divides(d, a * b) && Divides(d, b * a)
  {
    var k: nat :| a == d * k;
    assert a * b == d * (k * b);
    assert b * a == d * (k * b);
  }

  lemma DividesTrans(a: nat, b: nat, c: nat)
    requires Divides(a, b) && Divides(b, c)
    ensures Divides(a, c)
  {
    var k: nat :| b == a * k;
    var l: nat :| c == b * l;
    assert c == a * (k * l);
  }

  lemma DividesDifference(d: nat, a: nat, b: nat)
    requires Divides(d, a) && Divides(d, b) && a >= b
    ensures Divides(d, a - b)
  {
    var k: nat :| a == d * k;
    var l: nat :| b == d * l;
    if d > 0 {
      TimesMonotone(d, k, l);
      assert k >= l;
      assert a - b == d * (k - l);
    } else {
      assert a - b == d * 0;
    }
  }

  ghost predicate NoneDivides(n: nat, lo: nat, hi: nat)
    requires lo >= 1
  {
    forall e: nat :: lo <= e < hi ==> n % e != 0
  }

  lemma NoneAt(n: nat, lo: nat, hi: nat, e: nat)
    requires lo >= 1 && NoneDivides(n, lo, hi)
    ensures lo <= e < hi ==> n % e != 0
  {
  }

  lemma LeastStep(n: nat, d: nat, p: nat)
    requires 2 <= d && n % d != 0 && NoneDivides(n, d + 1, p)
    ensures NoneDivides(n, d, p)
  {
    forall e: nat | d <= e < p ensures n % e != 0 { if e != d { NoneAt(n, d + 1, p, e); } }
  }

  /** The least divisor of n that is at least d. */
  function LeastFrom(n: nat, d: nat): (p: nat)
    requires 2 <= d <= n
    ensures d <= p <= n && n % p == 0 && NoneDivides(n, d, p)
    decreases n - d
  {
    SelfMod(n);
    if n % d == 0 then d
    else
      var p := LeastFrom(n, d + 1);
      LeastStep(n, d, p);
      p
  }

  /** The smallest prime factor. */
  function Spf(n: nat): (p: nat)
    requires n >= 2
    ensures 2 <= p <= n && n % p == 0 && NoneDivides(n, 2, p)
  {
    LeastFrom(n, 2)
  }

  predicate Prime(n: nat) {
    n >= 2 && Spf(n) == n
  }

  /** The usual definition. */
  lemma PrimeMeans(n: nat)
    ensures Prime(n) <==> n >= 2 && forall d: nat :: 1 < d < n ==> !Divides(d, n)
  {
    if n >= 2 {
      SpfDivides(n);
    }
  }

  lemma SpfDivides(n: nat)
    requires n >= 2
    ensures Divides(Spf(n), n)
    ensures forall e: nat :: 2 <= e && Divides(e, n) ==> Spf(n) <= e
  {
    DividesMod(Spf(n), n);
    forall e: nat | 2 <= e && Divides(e, n) ensures Spf(n) <= e {
      DividesMod(e, n);
      NoneAt(n, 2, Spf(n), e);
    }
  }

  lemma SpfPrime(n: nat)
    requires n >= 2
    ensures Prime(Spf(n))
  {
    var p := Spf(n);
    SpfDivides(n);
    SpfDivides(p);
    DividesTrans(Spf(p), p, n);
  }

  /** A prime that divides a product divides a factor. */
  lemma {:induction false} Euclid(q: nat, a: nat, b: nat)
    requires Prime(q) && Divides(q, a * b)
    ensures Divides(q, a) || Divides(q, b)
    decreases a
  {
    if a == 0 {
      assert a == q * 0;
    } else if a == 1 {
      assert a * b == b;
    } else if a >= q {
      var a0 := a - q;
      assert q * b == q * b;
      assert Divides(q, q * b);
      assert a * b >= q * b by { assert a * b == q * b + a0 * b; }
      DividesDifference(q, a * b, q * b);
      assert a * b - q * b == a0 * b;
      Euclid(q, a0, b);
      if Divides(q, a0) {
        var k: nat :| a0 == q * k;
        assert a == q * (k + 1);
      }
    } else {
      EuclidSmall(q, a, b);
    }
  }

  lemma {:induction false} EuclidSmall(q: nat, a: nat, b: nat)
    requires Prime(q) && Divides(q, a * b) && 1 < a < q
    ensures Divides(q, b)
    decreases a
  {
    var k, r := q / a, q % a;
    assert q == a * k + r;
    PrimeMeans(q);
    DividesMod(a, q);
    DividesTimes(q, a * b, k);
    assert Divides(q, q * b);
    Distribute(a, k, r, b);
    DividesDifference(q, q * b, (a * b) * k);
    hide Prime, Divides;
    if r == 1 {
      assert r * b == b;
    } else {
      EuclidSmall(q, r, b);
    }
  }

  /** Times a prime no larger than its smallest prime factor: that prime becomes the smallest one. */
  lemma SpfProduct(i: nat, p: nat)
    requires i >= 2 && Prime(p) && p <= Spf(i)
    ensures i * p >= 2 && Spf(i * p) == p
  {
    assert i * p >= 2;
    var q := Spf(i * p);
    SpfDivides(i * p);
    SpfPrime(i * p);
    assert i * p == p * i;
    assert Divides(p, i * p);
    Euclid(q, i, p);
    if Divides(q, i) {
      SpfDivides(i);
    } else {
      SpfDivides(p);
    }
  }

  /** Every composite number is such a product, in one way. */
  lemma CompositeSplits(m: nat)
    requires m >= 2 && !Prime(m)
    ensures var p := Spf(m);
            && Prime(p) && 2 <= m / p < m && m == (m / p) * p && p <= Spf(m / p)
  {
    hide Spf;
    var p := Spf(m);
    SpfPrime(m);
    SpfDivides(m);
    var i: nat :| m == p * i;
    ModOfMultiple(p, i);
    SplitBounds(m, p, i);
    SpfDivides(i);
    assert m == i * p;
    assert Divides(i, m);
    DividesTrans(Spf(i), i, m);
  }

  lemma SplitBounds(m: nat, p: nat, i: nat)
    requires m >= 2 && m == p * i && p >= 2 && p != m
    ensures 2 <= i < m
  {
    assert i != 0 && i != 1;
    assert p * i >= 2 * i;
  }

  lemma ProductQuotient(i: nat, p: nat)
    requires p > 0
    ensures (i * p) / p == i
  {
    ModOfMultiple(p, i);
    assert i * p == p * i;
  }
}
