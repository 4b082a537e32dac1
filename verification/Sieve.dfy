/** Two sieves over the numbers below a bound: the plain one and the linear one, which marks every
    composite once, by its smallest prime factor. */
module Sieve {
  import opened Numbers

  /** The primes below n, in order. */
  function Primes(n: nat): (ps: seq<nat>)
    ensures |ps| <= if n <= 2 then 0 else n - 2
  {
    if n <= 2 then [] else Primes(n - 1) + (if Prime(n - 1) then [n - 1] else [])
  }

  lemma {:induction false} PrimesIn(n: nat, p: nat)
    ensures p in Primes(n) <==> p < n && Prime(p)
  {
    if n > 2 { PrimesIn(n - 1, p); }
  }

  lemma {:induction false} PrimesAscend(n: nat, i: nat, j: nat)
    requires i < j < |Primes(n)|
    ensures Primes(n)[i] < Primes(n)[j]
  {
    if j < |Primes(n - 1)| {
      PrimesAscend(n - 1, i, j);
    } else {
      assert Primes(n - 1)[i] in Primes(n - 1);
      PrimesIn(n - 1, Primes(n - 1)[i]);
    }
  }

  lemma PrimesAt(n: nat, i: nat)
    requires i < |Primes(n)|
    ensures Prime(Primes(n)[i]) && Primes(n)[i] < n
  {
    assert Primes(n)[i] in Primes(n);
    PrimesIn(n, Primes(n)[i]);
  }

  lemma PrimesIndex(n: nat, p: nat) returns (i: nat)
    requires p < n && Prime(p)
    ensures i < |Primes(n)| && Primes(n)[i] == p
  {
    PrimesIn(n, p);
    i :| i < |Primes(n)| && Primes(n)[i] == p;
  }

  // ---- The linear sieve ----

  /** m is marked by the rounds before i: its cofactor to the smallest prime factor is below i. */
  predicate Struck(m: nat, i: nat) {
    m >= 2 && !Prime(m) && m / Spf(m) < i
  }

  /** What round i strikes with the first j primes. */
  ghost predicate StruckNow(m: nat, i: nat, ps: seq<nat>, j: nat)
    requires j <= |ps|
  {
    exists k :: 0 <= k < j && m == Product(i, ps[k])
  }

  function Product(i: nat, p: nat): nat {
    i * p
  }

  lemma ProductDistinct(i: nat, a: nat, b: nat)
    requires i > 0 && a < b
    ensures Product(i, a) < Product(i, b)
  {
    TimesMonotone(i, a, b);
  }

  /** The primes that round i has passed do not divide i, so they are below its smallest prime factor. */
  lemma PassedBelow(i: nat, p: nat)
    requires i >= 2 && Prime(p) && p <= Spf(i)
    ensures p < Spf(i) <==> i % p != 0
  {
    if p < Spf(i) { NoneAt(i, 2, Spf(i), p); }
  }

  /** A product that round i strikes is a composite with cofactor i, struck by no earlier round. */
  lemma StrikesOnce(i: nat, p: nat)
    requires i >= 2 && Prime(p) && p <= Spf(i)
    ensures i * p >= 2 && !Prime(i * p) && Spf(i * p) == p && i * p / Spf(i * p) == i
    ensures !Struck(i * p, i) && Struck(i * p, i + 1)
  {
    SpfProduct(i, p);
    ProductQuotient(i, p);
    ProductLarger(i, p);
  }

  lemma ProductLarger(i: nat, p: nat)
    requires i >= 2 && p >= 2
    ensures i * p > p && i * p > i
  {
    assert i * p >= 2 * p;
    assert i * p >= i * 2;
  }

  /** The numbers whose cofactor is i are i times the primes up to the smallest prime factor of i. */
  lemma CofactorIs(m: nat, i: nat)
    requires m >= 2 && !Prime(m) && m / Spf(m) == i
    ensures i >= 2 && Prime(Spf(m)) && Spf(m) <= Spf(i) && m == i * Spf(m) && Spf(m) <= i
  {
    CompositeSplits(m);
  }

  /** A number is unmarked when its round comes exactly if it is prime. */
  lemma UnstruckIsPrime(i: nat)
    requires i >= 2
    ensures !Struck(i, i) <==> Prime(i)
  {
    if !Prime(i) { CompositeSplits(i); }
  }

  /** A record of every mark that was set: the number and the prime it was struck by. */
  datatype Mark = Mark(number: nat, by_: nat)

  /** Every number struck so far is on record exactly once, with its smallest prime factor. */
  ghost predicate Recorded(log: seq<Mark>, i: nat, n: nat) {
    && (forall k :: 0 <= k < |log| ==> log[k].number < n && Struck(log[k].number, i) && log[k].by_ == Spf(log[k].number))
    && (forall k, l :: 0 <= k < l < |log| ==> log[k].number != log[l].number)
    && (forall m: nat :: m < n && Struck(m, i) ==> exists k :: 0 <= k < |log| && log[k].number == m)
  }

  /** In the middle of round i: what earlier rounds struck, and the products with the first j primes. */
  ghost predicate RecordedMid(log: seq<Mark>, i: nat, n: nat, ps: seq<nat>, j: nat)
    requires j <= |ps|
  {
    && (forall k :: 0 <= k < |log| ==> log[k].number < n && log[k].number >= 2 && log[k].by_ == Spf(log[k].number)
                                       && (Struck(log[k].number, i) || StruckNow(log[k].number, i, ps, j)))
    && (forall k, l :: 0 <= k < l < |log| ==> log[k].number != log[l].number)
    && (forall m: nat :: m < n && (Struck(m, i) || StruckNow(m, i, ps, j)) ==> exists k :: 0 <= k < |log| && log[k].number == m)
  }

  /** The primes before position j are all smaller than i's smallest prime factor. */
  ghost predicate AllPassed(i: nat, ps: seq<nat>, j: nat)
    requires i >= 2 && j <= |ps|
  {
    forall k :: 0 <= k < j ==> ps[k] < Spf(i)
  }

  /** The inner loop ran out: everything with cofactor i is struck. */
  ghost predicate Covered(i: nat, n: nat, ps: seq<nat>, j: nat)
    requires i >= 2 && j <= |ps|
  {
    j == |ps| || i * ps[j] >= n || (j > 0 && ps[j - 1] == Spf(i))
  }

  ghost predicate UpTo(ps: seq<nat>, j: nat, b: nat)
    requires j <= |ps|
  {
    forall k :: 0 <= k < j ==> ps[k] <= b
  }

  lemma NotStruckYet(i: nat, ps: seq<nat>, j: nat)
    requires i >= 2 && j < |ps| && (forall a, b :: 0 <= a < b < |ps| ==> ps[a] < ps[b])
    ensures !StruckNow(Product(i, ps[j]), i, ps, j)
  {
    hide Product;
    forall k | 0 <= k < j ensures Product(i, ps[j]) != Product(i, ps[k]) { ProductDistinct(i, ps[k], ps[j]); }
  }

  lemma MidStep(log: seq<Mark>, i: nat, n: nat, ps: seq<nat>, j: nat)
    requires i >= 2 && j < |ps| && RecordedMid(log, i, n, ps, j) && i * ps[j] < n
    requires Prime(ps[j]) && ps[j] <= Spf(i) && (forall a, b :: 0 <= a < b < |ps| ==> ps[a] < ps[b])
    ensures RecordedMid(log + [Mark(i * ps[j], ps[j])], i, n, ps, j + 1)
  {
    hide Struck, Spf;
    var m, log' := i * ps[j], log + [Mark(i * ps[j], ps[j])];
    StrikesOnce(i, ps[j]);
    NotStruckYet(i, ps, j);
    forall x: nat ensures StruckNow(x, i, ps, j + 1) <==> StruckNow(x, i, ps, j) || x == m { }
    forall x: nat | x < n && (Struck(x, i) || StruckNow(x, i, ps, j + 1)) ensures exists k :: 0 <= k < |log'| && log'[k].number == x {
      if x == m {
        assert log'[|log|].number == x;
      } else {
        var k :| 0 <= k < |log| && log[k].number == x;
        assert log'[k].number == x;
      }
    }
  }

  /** At the end of round i the marks are those of the rounds up to and including i. */
  lemma RoundEnds(i: nat, n: nat, j: nat, m: nat)
    requires i >= 2 && j <= |Primes(i + 1)| && m < n
    requires Covered(i, n, Primes(i + 1), j)
    requires UpTo(Primes(i + 1), j, Spf(i))
    ensures Struck(m, i) || StruckNow(m, i, Primes(i + 1), j) <==> Struck(m, i + 1)
  {
    var ps := Primes(i + 1);
    if StruckNow(m, i, ps, j) {
      var k: nat :| k < j && m == Product(i, ps[k]);
      PrimesAt(i + 1, k);
      StrikesOnce(i, ps[k]);
    }
    if Struck(m, i + 1) && !Struck(m, i) {
      CofactorIs(m, i);
      var k := PrimesIndex(i + 1, Spf(m));
      CoverReaches(i, n, j, m, k);
    }
  }

  lemma CoverReaches(i: nat, n: nat, j: nat, m: nat, k: nat)
    requires i >= 2 && j <= |Primes(i + 1)| && m < n && Covered(i, n, Primes(i + 1), j)
    requires k < |Primes(i + 1)| && m == i * Primes(i + 1)[k] && Primes(i + 1)[k] <= Spf(i)
    ensures k < j
  {
    var ps := Primes(i + 1);
    if k >= j {
      if j < k { PrimesAscend(i + 1, j, k); TimesMonotone(i, ps[j], ps[k]); }
      if j > 0 { PrimesAscend(i + 1, j - 1, k); }
    }
  }

  lemma RecordedNext(log: seq<Mark>, i: nat, n: nat, j: nat)
    requires i >= 2 && j <= |Primes(i + 1)| && RecordedMid(log, i, n, Primes(i + 1), j)
    requires Covered(i, n, Primes(i + 1), j) && UpTo(Primes(i + 1), j, Spf(i))
    ensures Recorded(log, i + 1, n)
  {
    hide Struck, StruckNow, Covered, Spf, Primes;
    var ps, next := Primes(i + 1), i + 1;
    forall m: nat | m < n ensures Struck(m, i) || StruckNow(m, i, ps, j) <==> Struck(m, next) { RoundEnds(i, n, j, m); }
    forall m: nat | m < n && Struck(m, next) ensures exists k :: 0 <= k < |log| && log[k].number == m {
      assert Struck(m, i) || StruckNow(m, i, ps, j);
    }
  }

  lemma StruckZero(m: nat)
    ensures !Struck(m, 2)
  {
    if m >= 2 && !Prime(m) { CompositeSplits(m); }
  }

  /** By the end of all rounds every composite below the bound is struck. */
  lemma AllStruck(m: nat, n: nat)
    requires m < n
    ensures Struck(m, n) <==> m >= 2 && !Prime(m)
  {
    if m >= 2 && !Prime(m) { CompositeSplits(m); }
  }

  /** The program's global arrays. */
  class Table {
    const n: nat
    var st: array<bool>
    var primes: array<nat>
    var count: nat

    predicate Fresh()
      reads this, st
    {
      st.Length == n + 1 && primes.Length == n && count == 0 && forall m :: 0 <= m < st.Length ==> !st[m]
    }

    constructor (n: nat)
      ensures Fresh() && this.n == n
    {
      this.n := n;
      st := new bool[n + 1](_ => false);
      primes := new nat[n](_ => 0);
      count := 0;
    }

    /** The inner loop of euler_sieve_method for one i. */
    method Strike(i: nat, ghost log: seq<Mark>) returns (ghost log': seq<Mark>)
      requires st.Length == n + 1 && primes.Length == n && 2 <= i < n && count <= n
      requires primes[..count] == Primes(i + 1) && (forall m: nat :: m < n ==> (st[m] <==> Struck(m, i)))
      requires Recorded(log, i, n)
      modifies st
      ensures forall m: nat :: m < n ==> (st[m] <==> Struck(m, i + 1))
      ensures Recorded(log', i + 1, n)
    {
      hide Struck, Spf, Primes, Prime;
      ghost var ps := Primes(i + 1);
      log' := log;
      AscendAll(i + 1);
      var j := 0;
      var broke := false;
      RecordedStart(log, i, n, ps);
      NoneStruckNow(i, ps);
      while j < count && i * primes[j] < n && !broke
        invariant 0 <= j <= count && primes[..count] == ps && count == |ps|
        invariant forall m: nat :: m < n ==> (st[m] <==> Struck(m, i) || StruckNow(m, i, ps, j))
        invariant RecordedMid(log', i, n, ps, j)
        invariant UpTo(ps, j, Spf(i))
        invariant !broke ==> AllPassed(i, ps, j)
        invariant broke ==> j > 0 && ps[j - 1] == Spf(i)
        decreases count - j
      {
        var p := primes[j];
        assert p == ps[j];
        PrimesAt(i + 1, j);
        NextPrime(i, j);
        PassedBelow(i, p);
        MidStep(log', i, n, ps, j);
        StruckNowNext(i, ps, j);
        StrikesOnce(i, p);
        NotStruckYet(i, ps, j);
        assert !st[i * p];   // no number is struck twice
        st[i * p] := true;
        log' := log' + [Mark(i * p, p)];
        if i % p == 0 { broke := true; }
        j := j + 1;
      }
      RecordedNext(log', i, n, j);
      forall m: nat | m < n ensures st[m] <==> Struck(m, i + 1) { RoundEnds(i, n, j, m); }
    }

    /** euler_sieve_method, for any bound: the primes below it in order, every composite struck once and by its
        smallest prime factor. */
    method EulerSieve() returns (ghost log: seq<Mark>)
      requires Fresh()
      modifies this`count, st, primes
      ensures count <= primes.Length && primes[..count] == Primes(n)
      ensures forall m: nat :: m < n ==> (st[m] <==> m >= 2 && !Prime(m))
      ensures Recorded(log, n, n) || n < 2
    {
      hide Struck, Spf, Primes, Prime, Recorded;
      log := [];
      SmallPrimes();
      NothingStruck(n);
      var i := 2;
      while i < n
        invariant 2 <= i && (i <= n || n < 2) && (n < 2 ==> i == 2)
        invariant st.Length == n + 1 && primes.Length == n && count <= n
        invariant i <= n || n < 2 ==> count <= primes.Length && primes[..count] == Primes(i)
        invariant forall m: nat :: m < n ==> (st[m] <==> Struck(m, i))
        invariant Recorded(log, i, n)
      {
        UnstruckIsPrime(i);
        PrimesNext(i);
        if !st[i] {
          primes[count] := i;
          count := count + 1;
        }
        log := Strike(i, log);
        i := i + 1;
      }
      forall m: nat | m < n ensures st[m] <==> m >= 2 && !Prime(m) { AllStruck(m, n); StruckSmall(m, i, n); }
      PrimesSmall(n, i);
    }

    /** eratosthenes_sieve_method */
    method EratosthenesSieve()
      requires Fresh()
      modifies this`count, st, primes
      ensures count <= primes.Length && primes[..count] == Primes(n)
      ensures forall m: nat :: m < n ==> (st[m] <==> m >= 2 && !Prime(m))
    {
      hide Spf, Primes, Prime;
      SmallPrimes();
      forall m: nat ensures !Sifted(m, 2) { NothingSifted(m); }
      var i := 2;
      while i < n
        invariant 2 <= i && (i <= n || n < 2) && (n < 2 ==> i == 2)
        invariant st.Length == n + 1 && primes.Length == n && count <= n
        invariant i <= n || n < 2 ==> count <= primes.Length && primes[..count] == Primes(i)
        invariant forall m: nat :: m < n ==> (st[m] <==> Sifted(m, i))
      {
        UnsiftedIsPrime(i);
        PrimesNext(i);
        if !st[i] {
          primes[count] := i;
          count := count + 1;
          Sift(i);
        }
        forall m: nat | m < n ensures st[m] <==> Sifted(m, i + 1) { SiftedNext(m, i); }
        i := i + 1;
      }
      forall m: nat | m < n ensures st[m] <==> m >= 2 && !Prime(m) { SiftedAll(m, i, n); }
      PrimesSmall(n, i);
    }

    /** The inner loop of eratosthenes_sieve_method. */
    method Sift(i: nat)
      requires st.Length == n + 1 && 2 <= i < n
      modifies st
      ensures forall m: nat :: m < n ==> (st[m] <==> old(st[m]) || (m > i && Divides(i, m)))
      ensures st[n] == old(st[n])
    {
      var j := i + i;
      ghost var k := 2;
      while j < n
        invariant j == i * k && k >= 2
        invariant forall m: nat :: m < n ==> (st[m] <==> old(st[m]) || (exists l: nat :: 2 <= l < k && m == i * l))
        invariant st[n] == old(st[n])
        decreases n - j
      {
        st[j] := true;
        assert i * (k + 1) == j + i;
        j := j + i;
        k := k + 1;
      }
      forall m: nat | m < n ensures (exists l: nat :: 2 <= l < k && m == i * l) <==> m > i && Divides(i, m) {
        MultiplesBelow(i, k, n, m);
      }
    }
  }

  lemma MultiplesBelow(i: nat, k: nat, n: nat, m: nat)
    requires 2 <= i && k >= 2 && i * k >= n && m < n
    ensures (exists l: nat :: 2 <= l < k && m == i * l) <==> m > i && Divides(i, m)
  {
    if l: nat :| 2 <= l < k && m == i * l { ProductLarger(i, l); }
    if m > i && Divides(i, m) {
      var l: nat :| m == i * l;
      TimesMonotone(i, l, 2);
      if l >= k { if k < l { TimesMonotone(i, k, l); } }
      assert l < k;
      assert l != 0 && l != 1;
    }
  }

  /** Marked by the plain sieve before round i: a multiple of a smaller prime below i. */
  ghost predicate Sifted(m: nat, i: nat) {
    exists p: nat :: p < i && Prime(p) && m > p && Divides(p, m)
  }

  lemma NothingSifted(m: nat)
    ensures !Sifted(m, 2)
  {
  }

  lemma UnsiftedIsPrime(i: nat)
    requires i >= 2
    ensures !Sifted(i, i) <==> Prime(i)
  {
    SpfPrime(i);
    SpfDivides(i);
    PrimeMeans(i);
  }

  lemma SiftedNext(m: nat, i: nat)
    requires i >= 2
    ensures Sifted(m, i + 1) <==> Sifted(m, i) || (Prime(i) && m > i && Divides(i, m))
  {
  }

  lemma SiftedAll(m: nat, i: nat, n: nat)
    requires m < n && (i == n || (n < 2 && i == 2))
    ensures Sifted(m, i) <==> m >= 2 && !Prime(m)
  {
    if m >= 2 {
      SpfPrime(m);
      SpfDivides(m);
      PrimeMeans(m);
    }
  }

  lemma SmallPrimes()
    ensures Primes(2) == []
  {
  }

  lemma PrimesNext(i: nat)
    requires i >= 2
    ensures Primes(i + 1) == Primes(i) + (if Prime(i) then [i] else []) && |Primes(i)| <= i - 2
  {
  }

  lemma PrimesSmall(n: nat, i: nat)
    requires i == n || (n < 2 && i == 2)
    ensures Primes(n) == Primes(i)
  {
  }

  lemma NothingStruck(n: nat)
    ensures forall m: nat :: !Struck(m, 2)
    ensures Recorded([], 2, n)
  {
    forall m: nat ensures !Struck(m, 2) { StruckZero(m); }
  }

  lemma StruckSmall(m: nat, i: nat, n: nat)
    requires m < n && (i == n || (n < 2 && i == 2))
    ensures Struck(m, i) <==> Struck(m, n)
  {
  }

  lemma AscendAll(n: nat)
    ensures forall a, b :: 0 <= a < b < |Primes(n)| ==> Primes(n)[a] < Primes(n)[b]
  {
    forall a, b | 0 <= a < b < |Primes(n)| ensures Primes(n)[a] < Primes(n)[b] { PrimesAscend(n, a, b); }
  }

  lemma RecordedStart(log: seq<Mark>, i: nat, n: nat, ps: seq<nat>)
    requires Recorded(log, i, n)
    ensures RecordedMid(log, i, n, ps, 0)
  {
  }

  lemma NoneStruckNow(i: nat, ps: seq<nat>)
    ensures forall m: nat :: !StruckNow(m, i, ps, 0)
  {
  }

  lemma StruckNowNext(i: nat, ps: seq<nat>, j: nat)
    requires j < |ps|
    ensures forall m: nat :: StruckNow(m, i, ps, j + 1) <==> StruckNow(m, i, ps, j) || m == i * ps[j]
  {
  }

  /** After primes below i's smallest prime factor, the next prime is at most that factor. */
  lemma NextPrime(i: nat, j: nat)
    requires i >= 2 && j < |Primes(i + 1)| && AllPassed(i, Primes(i + 1), j)
    ensures Primes(i + 1)[j] <= Spf(i)
  {
    SpfPrime(i);
    var k := PrimesIndex(i + 1, Spf(i));
    if k > j { PrimesAscend(i + 1, j, k); }
  }
}
