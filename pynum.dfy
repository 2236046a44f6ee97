// Python and C numeric operators on Dafny's unbounded int and exact real.
module PyNum {

  /** Python's `//` on ints: rounds toward negative infinity. */
  function FloorDiv(a: int, b: int): (q: int)
    requires b != 0
    ensures b > 0 ==> b * q <= a < b * q + b
    ensures b < 0 ==> b * q + b < a <= b * q
  {
    if b > 0 then a / b else (-a) / (-b)
  }

  /** Python's `%` on ints: the remainder has the divisor's sign. */
  function FloorMod(a: int, b: int): (r: int)
    requires b != 0
    ensures r == a - b * FloorDiv(a, b)
    ensures b > 0 ==> 0 <= r < b
    ensures b < 0 ==> b < r <= 0
  {
    a - b * FloorDiv(a, b)
  }

  /** Python's `int(x)` on a float, and C's cast to int: rounds toward zero. */
  function Trunc(x: real): (n: int)
    ensures x >= 0.0 ==> n as real <= x < n as real + 1.0
    ensures x < 0.0 ==> n as real - 1.0 < x <= n as real
  {
    if x >= 0.0 then x.Floor else -((-x).Floor)
  }

  /** Python's `%` on floats (numpy's too): floor-based, the result lies in [0, m). */
  function RealMod(x: real, m: real): (r: real)
    requires m > 0.0
    ensures 0.0 <= r < m
    ensures exists k: int {:trigger k as real} :: x == m * k as real + r
  {
    var k := (x / m).Floor;
    var d := x / m - k as real;
    ScaleFraction(m, d);
    assert 0.0 <= m * d < m;
    Recombine(x, m, k as real);
    assert x == m * k as real + m * d;
    m * d
  }

  /** Python's `%` on floats for a divisor of either sign: the remainder takes the divisor's sign. */
  function PyRealMod(x: real, m: real): (r: real)
    requires m != 0.0
    ensures m > 0.0 ==> 0.0 <= r < m
    ensures m < 0.0 ==> m < r <= 0.0
    ensures exists k: int {:trigger k as real} :: x == m * k as real + r
  {
    if m > 0.0 then RealMod(x, m)
    else
      var r' := RealMod(-x, -m);
      var k': int :| -x == -m * k' as real + r';
      assert x == m * k' as real - r';
      -r'
  }

  /** C's `fmod`: truncation-based, the result has the sign of `x`. */
  function FMod(x: real, m: real): (r: real)
    requires m > 0.0
    ensures x >= 0.0 ==> 0.0 <= r < m
    ensures x < 0.0 ==> -m < r <= 0.0
    ensures exists k: int {:trigger k as real} :: x == m * k as real + r
  {
    if x >= 0.0 then RealMod(x, m)
    else
      var r' := RealMod(-x, m);
      var k': int :| -x == m * k' as real + r';
      assert x == m * (-k') as real - r';
      -r'
  }

  lemma ScaleFraction(m: real, d: real)
    requires m > 0.0 && 0.0 <= d < 1.0
    ensures 0.0 <= m * d < m
  {
  }

  lemma Recombine(x: real, m: real, k: real)
    requires m > 0.0
    ensures x == m * k + m * (x / m - k)
  {
  }

  lemma QuotientSign(x: real, m: real)
    requires m > 0.0
    ensures x >= 0.0 <==> x / m >= 0.0
  {
  }

  function Pow10(d: nat): (p: nat)
    ensures p >= 1
  {
    if d == 0 then 1 else 10 * Pow10(d - 1)
  }

  function Pow2(k: nat): (p: nat)
    ensures p >= 1
  {
    if k == 0 then 1 else 2 * Pow2(k - 1)
  }

  /** Round a real to the nearest integer, ties to the even neighbour (numpy.round). */
  function RoundHalfEven(y: real): (n: int)
    ensures y - 0.5 <= n as real <= y + 0.5
    ensures n as real == y - 0.5 || n as real == y + 0.5 ==> n % 2 == 0
  {
    var f := y.Floor;
    var frac := y - f as real;
    if frac < 0.5 then f
    else if frac > 0.5 then f + 1
    else if f % 2 == 0 then f else f + 1
  }

  /** x * 10^d, one decimal digit at a time. */
  function Shift(x: real, d: nat): real
  {
    if d == 0 then x else 10.0 * Shift(x, d - 1)
  }

  /** x / 10^d, one decimal digit at a time. */
  function Unshift(x: real, d: nat): real
  {
    if d == 0 then x else Unshift(x, d - 1) / 10.0
  }

  lemma {:induction false} UnshiftShift(x: real, d: nat)
    ensures Unshift(Shift(x, d), d) == x
  {
    if d > 0 {
      UnshiftTen(Shift(x, d - 1), d - 1);
      UnshiftShift(x, d - 1);
    }
  }

  lemma {:induction false} UnshiftTen(x: real, d: nat)
    ensures Unshift(10.0 * x, d) / 10.0 == Unshift(x, d)
  {
    if d > 0 {
      UnshiftTen(x, d - 1);
    }
  }

  lemma {:induction false} ShiftInt(n: int, d: nat)
    ensures Shift(n as real, d) == (n * Pow10(d)) as real
  {
    if d > 0 {
      ShiftInt(n, d - 1);
      assert n * Pow10(d) == 10 * (n * Pow10(d - 1));
    }
  }

  /** numpy.round(x, d): x rounded to d decimals, ties to even, on exact reals. */
  function Round(x: real, d: nat): (r: real)
    ensures exists n: int {:trigger n as real} ::
              r == Unshift(n as real, d) && Shift(x, d) - 0.5 <= n as real <= Shift(x, d) + 0.5
  {
    Unshift(RoundHalfEven(Shift(x, d)) as real, d)
  }

  /** Round a real to the nearest integer, ties away from zero (Python 2's built-in round). */
  function RoundHalfAway(y: real): (n: int)
    ensures y - 0.5 <= n as real <= y + 0.5
    ensures (n as real == y - 0.5 || n as real == y + 0.5) && y != 0.0 ==> (y > 0.0 <==> n as real > y)
  {
    var f := y.Floor;
    var frac := y - f as real;
    if frac < 0.5 then f
    else if frac > 0.5 then f + 1
    else if y > 0.0 then f + 1 else f
  }

  /** Python 2's round(x, d): x rounded to d decimals, ties away from zero, on exact reals. */
  function PyRound(x: real, d: nat): (r: real)
    ensures exists n: int {:trigger n as real} ::
              r == Unshift(n as real, d) && Shift(x, d) - 0.5 <= n as real <= Shift(x, d) + 0.5
  {
    Unshift(RoundHalfAway(Shift(x, d)) as real, d)
  }

  /** Rounding leaves a whole number unchanged at every precision. */
  lemma RoundInt(n: int, d: nat)
    ensures Round(n as real, d) == n as real
  {
    ShiftInt(n, d);
    assert RoundHalfEven((n * Pow10(d)) as real) == n * Pow10(d);
    UnshiftShift(n as real, d);
  }

  lemma MulAtLeast(a: int, n: int)
    requires a >= 1 && n > 0
    ensures a * n >= n
  {
    if a > 1 {
      MulAtLeast(a - 1, n);
      assert a * n == (a - 1) * n + n;
    }
  }

  /** Euclidean division is determined by its defining equation. */
  lemma DivModUnique(x: int, n: int, q: int, r: int)
    requires n > 0 && 0 <= r < n && x == q * n + r
    ensures x % n == r && x / n == q
  {
    var q', r' := x / n, x % n;
    assert x == q' * n + r';
    if q' > q {
      MulAtLeast(q' - q, n);
    } else if q' < q {
      MulAtLeast(q - q', n);
    }
  }

  lemma ModOfMultiple(k: nat, n: nat, r: nat)
    requires r < n
    ensures (k * n + r) % n == r && (k * n + r) / n == k
  {
    DivModUnique(k * n + r, n, k, r);
  }

  function Min(a: int, b: int): (m: int)
    ensures m <= a && m <= b && (m == a || m == b)
  {
    if a <= b then a else b
  }

  function Max(a: int, b: int): (m: int)
    ensures m >= a && m >= b && (m == a || m == b)
  {
    if a >= b then a else b
  }

  function RMin(a: real, b: real): (m: real)
    ensures m <= a && m <= b && (m == a || m == b)
  {
    if a <= b then a else b
  }

  function RMax(a: real, b: real): (m: real)
    ensures m >= a && m >= b && (m == a || m == b)
  {
    if a >= b then a else b
  }

  /** Python indexing: a negative index counts from the end. */
  function PyIndex(i: int, n: nat): (k: int)
    ensures -(n as int) <= i < n ==> 0 <= k < n
    ensures i >= 0 ==> k == i
  {
    if i < 0 then i + n else i
  }
}
