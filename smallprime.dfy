// `smallprime`: the largest size not above n that factors over the first few primes of a
// fixed list, searched downwards by repeated trial division.
module SmallPrime {
  import opened Wrappers
  import opened PyNum

  /** The list `smallprime` searches, as written: it passes from 23 to 31. */
  const SourcePrimes: seq<int> :=
    [2, 3, 5, 7, 11, 13, 17, 19, 23, 31, 37, 41, 43, 47, 53, 59, 61, 67, 71, 73, 79, 83, 89, 97]

  /** The 25 primes below 100, in increasing order. */
  const Primes: seq<int> :=
    [2, 3, 5, 7, 11, 13, 17, 19, 23, 29, 31, 37, 41, 43, 47, 53, 59, 61, 67, 71, 73, 79, 83, 89, 97]

  predicate IsPrime(q: int)
  {
    q >= 2 && forall d :: 2 <= d < q ==> q % d != 0
  }

  predicate Divisors(ps: seq<int>)
  {
    forall i :: 0 <= i < |ps| ==> ps[i] >= 2
  }

  /** The number of list entries tried: `min(numprime, len(primelist))`, none when negative. */
  function Lip(numprime: int, n: nat): (lip: nat)
    ensures lip <= n
    ensures 0 <= numprime <= n ==> lip == numprime
  {
    if numprime < 0 then 0 else if numprime < n then numprime else n
  }

  /** One pass of the `for k` loop: with no listed divisor a candidate stays stuck, else it
      behaves like its quotient with one pass fewer. */
  lemma ReducesPass(x: int, ps: seq<int>, m: nat)
    requires x >= 1 && Divisors(ps) && m >= 1
    ensures var j := FirstDivisor(x, ps);
      if j == |ps| then !Reduces(x, ps, m) && !Reduces(x, ps, m - 1)
      else 0 <= x / ps[j] && Reduces(x, ps, m) == (x / ps[j] == 1 || Reduces(x / ps[j], ps, m - 1))
  {
    var j := FirstDivisor(x, ps);
    if j < |ps| {
      DivBelow(x, ps[j]);
    }
  }

  /** The search stops at a candidate that reduces. */
  lemma LargestIs(ps: seq<int>, n: nat, c: int)
    requires Divisors(ps) && c >= 2 && Reduces(c, ps, n)
    ensures Largest(ps, n, c) == c
  {
  }

  /** The inner `for j` loop: the index of the first entry dividing x, or |ps| if none does. */
  function FirstDivisor(x: int, ps: seq<int>): (j: nat)
    requires Divisors(ps)
    ensures j <= |ps|
    ensures j < |ps| ==> x % ps[j] == 0
    ensures forall i :: 0 <= i < j ==> x % ps[i] != 0
  {
    if |ps| == 0 then 0
    else if x % ps[0] == 0 then 0
    else 1 + FirstDivisor(x, ps[1..])
  }

  /** The `for k` loop on one candidate: each of at most k passes divides x by its first
      listed divisor; true once x reaches 1. A pass that finds no divisor changes nothing,
      so every later pass fails too. */
  function Reduces(x: int, ps: seq<int>, k: nat): bool
    requires x >= 1 && Divisors(ps)
    decreases k
  {
    if k == 0 then false
    else
      var j := FirstDivisor(x, ps);
      if j == |ps| then false
      else if x / ps[j] == 1 then true
      else DivBelow(x, ps[j]); Reduces(x / ps[j], ps, k - 1)
  }

  /** The source's divisibility test, `p * int(x / p) == x`, for positive x. */
  lemma DividesIff(x: int, p: int)
    requires p >= 1
    ensures p * (x / p) == x <==> x % p == 0
  {
    assert x == (x / p) * p + x % p;
  }

  lemma DivBelow(x: int, p: int)
    requires x >= 1 && p >= 2
    ensures 0 <= x / p < x
  {
  }

  lemma DivExact(x: int, p: int)
    requires x >= 1 && p >= 2 && x % p == 0
    ensures 1 <= x / p < x && x == p * (x / p)
  {
    assert x == (x / p) * p;
  }

  /** The outer loop from candidate c down: the first candidate that reduces to 1, or 1 when
      none above 1 does. */
  function Largest(ps: seq<int>, n: nat, c: int): int
    requires Divisors(ps)
    decreases c
  {
    if c <= 1 then 1
    else if Reduces(c, ps, n) then c
    else Largest(ps, n, c - 1)
  }

  /** `smallprime(n, numprime)` searching `primelist`: n < 1 leaves the result unbound. */
  function SmallPrimeOf(primelist: seq<int>, n: int, numprime: int): Result<int>
    requires Divisors(primelist)
  {
    if n < 1 then Err("UnboundLocalError")
    else Ok(Largest(primelist[..Lip(numprime, |primelist|)], n, n))
  }

  /** `smallprime` as written, over its own list, which lacks 29. */
  method SmallPrime(n: int, numprime: int) returns (r: Result<int>)
    ensures r == SmallPrimeOf(SourcePrimes, n, numprime)
  {
    r := SmallPrimeIn(SourcePrimes, n, numprime);
  }

  /** `smallprime` over the complete list of primes below 100, as the list was meant to be. */
  method SmallPrimeCorrected(n: int, numprime: int) returns (r: Result<int>)
    ensures r == SmallPrimeOf(Primes, n, numprime)
  {
    r := SmallPrimeIn(Primes, n, numprime);
  }

  /** The source's three nested loops over a given list. */
  method SmallPrimeIn(primelist: seq<int>, n: int, numprime: int) returns (r: Result<int>)
    requires Divisors(primelist)
    ensures r == SmallPrimeOf(primelist, n, numprime)
  {
    var lip := Lip(numprime, |primelist|);
    ghost var ps := primelist[..lip];
    if n < 1 {
      return Err("UnboundLocalError");
    }
    var i := 1;
    while i <= n
      invariant 1 <= i <= n + 1
      invariant Largest(ps, n, n) == Largest(ps, n, n - i + 1)
    {
      var c := n - i + 1;
      var found := Candidate(primelist, lip, n, c);
      if found {
        LargestIs(ps, n, c);
        return Ok(c);
      }
      i := i + 1;
    }
    r := Ok(1);
  }

  /** The `for k` loop on candidate c: true when it returns c. */
  method Candidate(primelist: seq<int>, lip: nat, n: nat, c: int) returns (found: bool)
    requires Divisors(primelist) && lip <= |primelist| && c >= 1
    ensures found <==> c >= 2 && Reduces(c, primelist[..lip], n)
  {
    ghost var ps := primelist[..lip];
    var x := c;
    var k := 1;
    while k <= n
      invariant 1 <= k <= n + 1
      invariant 1 <= x <= c && (x == 1 ==> c == 1)
      invariant c >= 2 ==> Reduces(c, ps, n) == Reduces(x, ps, n - k + 1)
    {
      var j := FirstDividing(primelist, lip, x);
      ReducesPass(x, ps, n - k + 1);
      if j < lip {
        assert ps[j] == primelist[j];
        DivExact(x, primelist[j]);
        x := x / primelist[j];
        if x == 1 {
          return true;
        }
      }
      k := k + 1;
    }
    found := false;
  }

  /** The inner `for j` loop: stops at the first of the lip entries that divides x. */
  method FirstDividing(primelist: seq<int>, lip: nat, x: int) returns (j: nat)
    requires Divisors(primelist) && lip <= |primelist|
    ensures j == FirstDivisor(x, primelist[..lip])
  {
    ghost var ps := primelist[..lip];
    j := 0;
    while j < lip
      invariant 0 <= j <= lip
      invariant forall i :: 0 <= i < j ==> x % ps[i] != 0
    {
      DividesIff(x, primelist[j]);
      if primelist[j] * (x / primelist[j]) == x {
        break;
      }
      j := j + 1;
    }
  }

  // ---- What the search finds. ----

  /** x is a product of listed entries (1 is the empty product). */
  ghost predicate Product(x: int, ps: seq<int>)
    requires Divisors(ps)
    decreases x
  {
    x >= 1 && (x == 1 || exists j :: 0 <= j < |ps| && x % ps[j] == 0 && x / ps[j] < x && Product(x / ps[j], ps))
  }

  /** Every prime factor of x is listed. */
  ghost predicate FactorsIn(x: int, ps: seq<int>)
  {
    forall q :: IsPrime(q) && x % q == 0 ==> q in ps
  }

  lemma {:induction false} ReducesProduct(x: int, ps: seq<int>, k: nat)
    requires x >= 1 && Divisors(ps) && Reduces(x, ps, k)
    ensures Product(x, ps)
    decreases k
  {
    var j := FirstDivisor(x, ps);
    DivBelow(x, ps[j]);
    if x / ps[j] == 1 {
      assert Product(x / ps[j], ps);
    } else {
      ReducesProduct(x / ps[j], ps, k - 1);
    }
  }

  /** A divisor of a divisor divides. */
  lemma DivTrans(x: int, m: int, q: int)
    requires x >= 1 && m >= 1 && q >= 1 && x % m == 0 && m % q == 0
    ensures x % q == 0
  {
    var a, b := x / m, m / q;
    assert x == a * m && m == b * q;
    assert x == (a * b) * q by {
      assert a * (b * q) == (a * b) * q;
    }
    DivModUnique(x, q, a * b, 0);
  }

  /** Every number above 1 has a prime factor. */
  lemma {:induction false} PrimeFactor(x: int) returns (q: int)
    requires x >= 2
    ensures IsPrime(q) && x % q == 0 && q <= x
    decreases x
  {
    if IsPrime(x) {
      q := x;
    } else {
      var d :| 2 <= d < x && x % d == 0;
      q := PrimeFactor(d);
      DivTrans(x, d, q);
    }
  }

  /** With every prime factor listed, x reduces to 1 within x - 1 passes. */
  lemma {:induction false} FactorsReduce(x: int, ps: seq<int>, k: nat)
    requires x >= 2 && Divisors(ps) && FactorsIn(x, ps) && k >= x - 1
    ensures Reduces(x, ps, k)
    decreases x
  {
    var q := PrimeFactor(x);
    var i :| 0 <= i < |ps| && ps[i] == q;
    var j := FirstDivisor(x, ps);
    assert j < |ps| by {
      assert x % ps[i] == 0;
    }
    var p := ps[j];
    var y := x / p;
    DivExact(x, p);
    ReducesPass(x, ps, k);
    if y != 1 {
      HalfBound(x, p, y);
      forall q' | IsPrime(q') && y % q' == 0
        ensures q' in ps
      {
        DivTrans(x, y, q');
      }
      FactorsReduce(y, ps, k - 1);
    }
  }

  lemma HalfBound(x: int, p: int, y: int)
    requires p >= 2 && y >= 1 && x == p * y
    ensures y <= x - 1 && x % y == 0
  {
    DivModUnique(x, y, p, 0);
    MulAtLeast(p - 1, y);
    assert x == (p - 1) * y + y;
  }

  lemma {:induction false} LargestProps(ps: seq<int>, n: nat, c: int)
    requires Divisors(ps)
    ensures var r := Largest(ps, n, c);
      1 <= r && (c >= 1 ==> r <= c) &&
      (r >= 2 ==> Reduces(r, ps, n)) &&
      forall m :: r < m <= c ==> !Reduces(m, ps, n)
    decreases c
  {
    if c > 1 && !Reduces(c, ps, n) {
      LargestProps(ps, n, c - 1);
    }
  }

  /**
   * For n >= 1 the result r lies in [1, n], is a product of the listed entries tried, and
   * every larger m <= n has a prime factor outside them. Below 1 there is no result.
   */
  lemma SmallPrimeLargest(primelist: seq<int>, n: int, numprime: int)
    requires Divisors(primelist)
    ensures SmallPrimeOf(primelist, n, numprime).Ok? <==> n >= 1
    ensures SmallPrimeOf(primelist, n, numprime).Ok? ==>
      var ps := primelist[..Lip(numprime, |primelist|)];
      var r := SmallPrimeOf(primelist, n, numprime).value;
      1 <= r <= n && Product(r, ps) &&
      forall m :: r < m <= n ==> !FactorsIn(m, ps)
  {
    if n >= 1 {
      var ps := primelist[..Lip(numprime, |primelist|)];
      var r := Largest(ps, n, n);
      LargestProps(ps, n, n);
      if r >= 2 {
        ReducesProduct(r, ps, n);
      }
      forall m | r < m <= n
        ensures !FactorsIn(m, ps)
      {
        if FactorsIn(m, ps) {
          FactorsReduce(m, ps, n);
        }
      }
    }
  }

  // ---- The list itself. ----

  lemma Composite(q: int, d: int)
    requires 2 <= d < q && q % d == 0
    ensures !IsPrime(q)
  {
  }

  /** Below 121 a number is prime once none of 2, 3, 5, 7 below it divides it. */
  lemma TrialDivision(q: int)
    requires 2 <= q < 121
    requires (2 < q ==> q % 2 != 0) && (3 < q ==> q % 3 != 0) && (5 < q ==> q % 5 != 0) && (7 < q ==> q % 7 != 0)
    ensures IsPrime(q)
  {
    forall d | 2 <= d < q
      ensures q % d != 0
    {
      SmallFactor(q, d);
    }
  }

  /** A factorisation of q < 121 has a factor of at most 10, so one of 2, 3, 5, 7 below q
      divides it. */
  lemma SmallFactor(q: int, d: int)
    requires 2 <= d < q < 121
    ensures q % d == 0 ==>
      (2 < q && q % 2 == 0) || (3 < q && q % 3 == 0) || (5 < q && q % 5 == 0) || (7 < q && q % 7 == 0)
  {
    if q % d == 0 {
      var e := q / d;
      assert q == e * d;
      if e < 2 {
        MulAtMost(e, d);
      } else if d <= 10 {
        DivTrans(q, d, TenFactor(d));
      } else if e <= 10 {
        DivModUnique(q, e, d, 0);
        DivTrans(q, e, TenFactor(e));
      } else {
        MulAtLeast11(e, d);
      }
    }
  }

  lemma MulAtMost(e: int, d: int)
    requires e < 2 && d >= 2
    ensures e * d < 2 * d
  {
  }

  lemma MulAtLeast11(e: int, d: int)
    requires e >= 11 && d >= 11
    ensures e * d >= 121
  {
    MulAtLeast(e - 10, d);
    assert e * d == (e - 10) * d + 10 * d;
  }

  /** One of 2, 3, 5, 7 divides every number from 2 to 10. */
  function TenFactor(m: int): (p: int)
    requires 2 <= m <= 10
    ensures (p == 2 || p == 3 || p == 5 || p == 7) && p <= m && m % p == 0
  {
    if m % 2 == 0 then 2 else if m % 3 == 0 then 3 else if m == 5 then 5 else 7
  }

  /** `Primes` holds exactly the primes below 100, in increasing order. */
  lemma PrimesBelow100()
    ensures forall i :: 0 <= i < |Primes| ==> IsPrime(Primes[i])
    ensures forall i, j :: 0 <= i < j < |Primes| ==> Primes[i] < Primes[j]
    ensures forall q :: 2 <= q < 100 && IsPrime(q) ==> q in Primes
  {
    PrimesArePrime();
    PrimesComplete();
  }

  lemma PrimesArePrime()
    ensures forall i :: 0 <= i < |Primes| ==> IsPrime(Primes[i])
  {
    forall i | 0 <= i < |Primes|
      ensures IsPrime(Primes[i])
    {
      TrialDivision(Primes[i]);
    }
  }

  lemma PrimesComplete()
    ensures forall q :: 2 <= q < 100 && IsPrime(q) ==> q in Primes
  {
    forall q | 2 <= q < 100 && q !in Primes
      ensures !IsPrime(q)
    {
      if q % 2 == 0 { Composite(q, 2); }
      else if q % 3 == 0 { Composite(q, 3); }
      else if q % 5 == 0 { Composite(q, 5); }
      else if q < 50 { OddCompositesLow(q); Composite(q, 7); }
      else { OddCompositesHigh(q); Composite(q, 7); }
    }
  }

  /** Below 50, the numbers missing from the list that 2, 3 and 5 do not divide are multiples of 7. */
  lemma OddCompositesLow(q: int)
    requires 2 <= q < 50 && q !in Primes && q % 2 != 0 && q % 3 != 0 && q % 5 != 0
    ensures q % 7 == 0
  {
  }

  lemma OddCompositesHigh(q: int)
    requires 50 <= q < 100 && q !in Primes && q % 2 != 0 && q % 3 != 0 && q % 5 != 0
    ensures q % 7 == 0
  {
  }

  /** The first k entries of `Primes` are the first k primes: a prime below the k-th entry
      is among them. */
  lemma FirstPrimes(k: nat, q: int)
    requires 1 <= k <= |Primes| && IsPrime(q) && q <= Primes[k - 1]
    ensures q in Primes[..k]
  {
    PrimesBelow100();
    var i :| 0 <= i < |Primes| && Primes[i] == q;
    assert i < k;
    assert Primes[..k][i] == q;
  }

  /** FirstDivisor is pinned down by its contract. */
  lemma FirstDivisorAt(x: int, ps: seq<int>, j: nat)
    requires Divisors(ps) && j <= |ps| && (j < |ps| ==> x % ps[j] == 0)
    requires forall i :: 0 <= i < j ==> x % ps[i] != 0
    ensures FirstDivisor(x, ps) == j
  {
  }

  /** The first ten entries of each list. */
  lemma TenEntries()
    ensures SourcePrimes[..10] == [2, 3, 5, 7, 11, 13, 17, 19, 23, 31]
    ensures Primes[..10] == [2, 3, 5, 7, 11, 13, 17, 19, 23, 29]
  {
  }

  /** With the list as written, 29 has no listed divisor while 28 = 2 * 2 * 7 reduces. */
  lemma SourceOnTwentyNine(src: seq<int>)
    requires src == [2, 3, 5, 7, 11, 13, 17, 19, 23, 31]
    ensures Divisors(src) && !Reduces(29, src, 29) && Reduces(28, src, 29)
  {
    FirstDivisorAt(29, src, 10);
    FirstDivisorAt(28, src, 0);
    FirstDivisorAt(14, src, 0);
    FirstDivisorAt(7, src, 3);
    assert Reduces(7, src, 27);
  }

  lemma FixedOnTwentyNine(fixed: seq<int>)
    requires fixed == [2, 3, 5, 7, 11, 13, 17, 19, 23, 29]
    ensures Divisors(fixed) && Reduces(29, fixed, 29)
  {
    FirstDivisorAt(29, fixed, 9);
  }

  lemma TwentyNineMissing()
    ensures 29 !in SourcePrimes
  {
    forall i | 0 <= i < |SourcePrimes|
      ensures SourcePrimes[i] != 29
    {
    }
  }

  /** The list as written omits the prime 29: with ten entries tried, 29 itself is passed
      over for 28, although 29 is the tenth prime. */
  lemma SkipsTwentyNine(n: int, numprime: int)
    requires n == 29 && numprime == 10
    ensures IsPrime(n) && Primes[numprime - 1] == n && n !in SourcePrimes
    ensures SmallPrimeOf(SourcePrimes, n, numprime) == Ok(n - 1)
    ensures SmallPrimeOf(Primes, n, numprime) == Ok(n)
  {
    TrialDivision(29);
    TenEntries();
    TwentyNineMissing();
    var src, fixed := SourcePrimes[..10], Primes[..10];
    SourceOnTwentyNine(src);
    FixedOnTwentyNine(fixed);
    LargestIs(src, 29, 28);
    LargestIs(fixed, 29, 29);
  }
}
