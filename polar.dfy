// Polar-ring bookkeeping for rotational alignment: `log2`, `Numrinit`, `ringwe` and `ang_n`.
// The module is Python 2 code, so `/` on two ints floors.
module Polar {
  import opened Wrappers
  import opened PyNum

  /** The largest FFT length `Numrinit` allows. */
  const MaxFft: int := 32768

  /** Python's `range(start, stop, step)` for a non-zero step. */
  function Range(start: int, stop: int, step: int): (r: seq<int>)
    requires step != 0
    ensures forall i :: 0 <= i < |r| ==> (step > 0 ==> start <= r[i] < stop) && (step < 0 ==> stop < r[i] <= start)
    ensures |r| > 0 ==> r[0] == start
    decreases if step > 0 then stop - start else start - stop
  {
    if step > 0 && start < stop then [start] + Range(start + step, stop, step)
    else if step < 0 && start > stop then [start] + Range(start + step, stop, step)
    else []
  }

  /** The exponent of the largest power of two not above n; -1 when n < 1. */
  function Log2Of(n: int): (k: int)
    ensures n < 1 ==> k == -1
    ensures n >= 1 ==> k >= 0 && Pow2(k) <= n < 2 * Pow2(k)
    decreases n
  {
    if n < 1 then -1 else if n == 1 then 0 else 1 + Log2Of(n / 2)
  }

  /** Powers of two grow: a larger exponent gives at least twice the power. */
  lemma {:induction false} Pow2Grows(a: nat, b: nat)
    requires a < b
    ensures 2 * Pow2(a) <= Pow2(b)
    decreases b
  {
    if a + 1 < b {
      Pow2Grows(a, b - 1);
    }
  }

  /** The bracketing exponent is unique. */
  lemma Log2Unique(n: int, k: nat)
    requires Pow2(k) <= n < 2 * Pow2(k)
    ensures k == Log2Of(n)
  {
    var l := Log2Of(n);
    if k < l {
      Pow2Grows(k, l);
    } else if l < k {
      Pow2Grows(l, k);
    }
  }

  /** `log2`: doubles m until it passes n, counting the doublings. */
  method Log2(n: int) returns (k: int)
    ensures n < 1 ==> k == -1
    ensures n >= 1 ==> k >= 0 && Pow2(k) <= n < 2 * Pow2(k)
    ensures k == Log2Of(n)
  {
    var m := 1;
    k := -1;
    while m <= n
      invariant k >= -1 && m == Pow2(k + 1)
      invariant k >= 0 ==> Pow2(k) <= n
      decreases n - m
    {
      var i := m;
      k := k + 1;
      m := 2 * i;
    }
    if n >= 1 {
      Log2Unique(n, k);
    }
  }

  /** The sampling span: a full circle for mode "f"/"F", a half circle otherwise. */
  function Span(pi: real, mode: string): real
  {
    if mode == "f" || mode == "F" then 2.0 * pi else pi
  }

  /**
   * The number of samples on ring k: twice the largest power of two not above
   * `int(dpi * k + 0.5)`. The doubling branches never fire, because that length already
   * exceeds the ring's circumference, so the MaxFft cap never applies either.
   */
  function RingLength(dpi: real, k: int, lastRing: int, skip: int): (ip: int)
    ensures ip >= 1
  {
    var jp := Trunc(dpi * k as real + 0.5);
    var ip0 := Pow2(Log2Of(jp) + 1);
    var ip1 := if k + skip <= lastRing && jp > ip0 + ip0 / 2 then Min(MaxFft, 2 * ip0) else ip0;
    if k + skip > lastRing && jp > ip1 + ip1 / 5 then Min(MaxFft, 2 * ip1) else ip1
  }

  /** The triples for rings ks, the first starting at offset lcirc. */
  function Rings(ks: seq<int>, lcirc: int, len: int -> int): (r: seq<int>)
    ensures |r| == 3 * |ks|
  {
    if |ks| == 0 then []
    else [ks[0], lcirc, len(ks[0])] + Rings(ks[1..], lcirc + len(ks[0]), len)
  }

  /** The ring lengths of one `Numrinit` call. */
  function Lengths(dpi: real, lastRing: int, skip: int): int -> int
  {
    k => RingLength(dpi, k, lastRing, skip)
  }

  /** The total number of samples on rings ks. */
  function Total(ks: seq<int>, len: int -> int): int
  {
    if |ks| == 0 then 0 else len(ks[0]) + Total(ks[1..], len)
  }

  /** `Numrinit(first_ring, last_ring, skip, mode)`; a zero skip is a ValueError of `range`. */
  function NumrOf(pi: real, firstRing: int, lastRing: int, skip: int, mode: string): Result<seq<int>>
  {
    if skip == 0 then Err("ValueError")
    else Ok(Rings(Range(firstRing, lastRing + 1, skip), 1, Lengths(Span(pi, mode), lastRing, skip)))
  }

  method Numrinit(pi: real, firstRing: int, lastRing: int, skip: int, mode: string) returns (r: Result<seq<int>>)
    ensures r == NumrOf(pi, firstRing, lastRing, skip, mode)
  {
    if skip == 0 {
      return Err("ValueError");
    }
    var dpi := Span(pi, mode);
    var ks := Range(firstRing, lastRing + 1, skip);
    ghost var len := Lengths(dpi, lastRing, skip);
    var numr: seq<int> := [];
    var lcirc := 1;
    var idx := 0;
    while idx < |ks|
      invariant 0 <= idx <= |ks|
      invariant numr + Rings(ks[idx..], lcirc, len) == Rings(ks, 1, len)
    {
      var k := ks[idx];
      var ip := RingSamples(dpi, k, lastRing, skip);
      assert ip == len(k);
      ghost var prev, prevCirc := numr, lcirc;
      numr := numr + [k, lcirc, ip];
      lcirc := lcirc + ip;
      RingsInvariantStep(prev, ks, idx, prevCirc, len, Rings(ks, 1, len), numr, lcirc);
      idx := idx + 1;
    }
    assert ks[idx..] == [];
    assert Rings(ks[idx..], lcirc, len) == [];
    assert numr == Rings(ks, 1, len);
    r := Ok(numr);
  }

  /** The loop body's length computation for ring k. */
  method RingSamples(dpi: real, k: int, lastRing: int, skip: int) returns (ip: int)
    ensures ip == RingLength(dpi, k, lastRing, skip)
  {
    var jp := Trunc(dpi * k as real + 0.5);
    var l := Log2(jp);
    ip := Pow2(l + 1);
    if k + skip <= lastRing && jp > ip + ip / 2 {
      ip := Min(MaxFft, 2 * ip);
    }
    if k + skip > lastRing && jp > ip + ip / 5 {
      ip := Min(MaxFft, 2 * ip);
    }
  }

  lemma RingsInvariantStep(numr: seq<int>, ks: seq<int>, idx: nat, lcirc: int, len: int -> int, all: seq<int>,
                           numr': seq<int>, lcirc': int)
    requires idx < |ks| && numr + Rings(ks[idx..], lcirc, len) == all
    requires numr' == numr + [ks[idx], lcirc, len(ks[idx])] && lcirc' == lcirc + len(ks[idx])
    ensures numr' + Rings(ks[idx + 1..], lcirc', len) == all
  {
    RingsStep(ks, idx, lcirc, len);
  }

  lemma RingsStep(ks: seq<int>, idx: nat, lcirc: int, len: int -> int)
    requires idx < |ks|
    ensures Rings(ks[idx..], lcirc, len) ==
      [ks[idx], lcirc, len(ks[idx])] + Rings(ks[idx + 1..], lcirc + len(ks[idx]), len)
  {
    assert ks[idx..][1..] == ks[idx + 1..];
  }

  /**
   * Ring i occupies entries 3i, 3i+1, 3i+2: its radius, its start (the offset plus the
   * lengths of the rings before it) and its length.
   */
  lemma {:induction false} RingsLayout(ks: seq<int>, lcirc: int, len: int -> int)
    ensures var r := Rings(ks, lcirc, len);
      |r| == 3 * |ks| &&
      forall i :: 0 <= i < |ks| ==>
        r[3 * i] == ks[i] && r[3 * i + 1] == lcirc + Total(ks[..i], len) && r[3 * i + 2] == len(ks[i])
  {
    if |ks| > 0 {
      var ip := len(ks[0]);
      var r := Rings(ks, lcirc, len);
      var rest := Rings(ks[1..], lcirc + ip, len);
      RingsLayout(ks[1..], lcirc + ip, len);
      assert r == [ks[0], lcirc, ip] + rest;
      forall i | 0 <= i < |ks|
        ensures r[3 * i] == ks[i] && r[3 * i + 1] == lcirc + Total(ks[..i], len) && r[3 * i + 2] == len(ks[i])
      {
        if i == 0 {
          assert ks[..0] == [];
        } else {
          TotalShift(ks, i, len);
          AfterTriple(ks[0], lcirc, ip, rest, i);
          assert ks[1..][i - 1] == ks[i];
        }
      }
    }
  }

  lemma AfterTriple<T>(a: T, b: T, c: T, rest: seq<T>, i: nat)
    requires 0 < i && 3 * i + 2 < 3 + |rest|
    ensures var r := [a, b, c] + rest; var j := 3 * (i - 1);
      r[3 * i] == rest[j] && r[3 * i + 1] == rest[j + 1] && r[3 * i + 2] == rest[j + 2]
  {
  }

  lemma TotalShift(ks: seq<int>, i: nat, len: int -> int)
    requires 0 < i <= |ks|
    ensures Total(ks[..i], len) == len(ks[0]) + Total(ks[1..][..i - 1], len)
  {
    assert ks[..i][1..] == ks[1..][..i - 1];
  }

  /** Every ring length is twice the largest power of two not above the circumference
      jp, hence a power of two above jp: neither doubling branch fires. */
  lemma RingLengthIs(dpi: real, k: int, lastRing: int, skip: int)
    ensures var jp := Trunc(dpi * k as real + 0.5);
      RingLength(dpi, k, lastRing, skip) == Pow2(Log2Of(jp) + 1) > jp
    ensures exists e: nat :: RingLength(dpi, k, lastRing, skip) == Pow2(e)
  {
    var jp := Trunc(dpi * k as real + 0.5);
    var l := Log2Of(jp);
    var ip := Pow2(l + 1);
    assert ip > jp by {
      if jp >= 1 {
        assert ip == 2 * Pow2(l);
      }
    }
  }

  /** The weight of ring i: radius * dpi / length * maxrin / length. */
  function Weight(dpi: real, numr: seq<int>, i: nat, maxrin: real): real
    requires 3 * i + 2 < |numr| && numr[3 * i + 2] != 0
  {
    numr[3 * i] as real * dpi / numr[3 * i + 2] as real * maxrin / numr[3 * i + 2] as real
  }

  /** Some complete triple has length 0. */
  predicate ZeroLength(numr: seq<int>)
  {
    exists i :: 0 <= i < |numr| / 3 && numr[3 * i + 2] == 0
  }

  /**
   * `ringwe(numr, mode)`: one weight per complete triple, maxrin being numr's last entry.
   * An empty numr has no last entry (IndexError); a zero length divides by zero.
   */
  function RingWeOf(pi: real, numr: seq<int>, mode: string): (r: Result<seq<real>>)
    ensures r.Ok? <==> |numr| > 0 && !ZeroLength(numr)
    ensures r.Ok? ==> (|r.value| == |numr| / 3 &&
      forall i :: 0 <= i < |numr| / 3 ==> r.value[i] == Weight(Span(pi, mode), numr, i, numr[|numr| - 1] as real))
  {
    if |numr| == 0 then Err("IndexError")
    else if ZeroLength(numr) then Err("ZeroDivisionError")
    else
      var maxrin := numr[|numr| - 1] as real;
      Ok(seq(|numr| / 3, i requires 0 <= i < |numr| / 3 => Weight(Span(pi, mode), numr, i, maxrin)))
  }

  method RingWe(pi: real, numr: seq<int>, mode: string) returns (r: Result<seq<real>>)
    ensures r == RingWeOf(pi, numr, mode)
  {
    var dpi := Span(pi, mode);
    var nring := |numr| / 3;
    var wr := new real[nring](_ => 0.0);
    if |numr| == 0 {
      return Err("IndexError");
    }
    var maxrin := numr[|numr| - 1] as real;
    var i := 0;
    while i < nring
      invariant 0 <= i <= nring
      invariant forall j :: 0 <= j < i ==> numr[3 * j + 2] != 0 && wr[j] == Weight(dpi, numr, j, maxrin)
    {
      assert i * 3 == 3 * i;
      if numr[2 + i * 3] == 0 {
        assert numr[3 * i + 2] == 0;
        return Err("ZeroDivisionError");
      }
      var w := numr[i * 3] as real * dpi / numr[2 + i * 3] as real * maxrin / numr[2 + i * 3] as real;
      assert w == Weight(dpi, numr, i, maxrin);
      wr[i] := w;
      i := i + 1;
    }
    assert !ZeroLength(numr);
    assert wr[..] == seq(nring, j requires 0 <= j < nring => Weight(dpi, numr, j, maxrin));
    r := Ok(wr[..]);
  }

  /** `Numrinit`'s layout is a valid `ringwe` input: a non-empty layout yields one weight per
      ring without dividing by zero. */
  lemma NumrinitWeights(pi: real, firstRing: int, lastRing: int, skip: int, mode: string)
    requires skip != 0
    ensures var ks := Range(firstRing, lastRing + 1, skip);
      var w := RingWeOf(pi, NumrOf(pi, firstRing, lastRing, skip, mode).value, mode);
      (w.Ok? <==> |ks| > 0) && (w.Ok? ==> |w.value| == |ks|)
  {
    var ks := Range(firstRing, lastRing + 1, skip);
    var len := Lengths(Span(pi, mode), lastRing, skip);
    RingsLayout(ks, 1, len);
    assert !ZeroLength(Rings(ks, 1, len));
  }

  /** With positive radii and pi, every weight of a `Numrinit` layout is positive. */
  lemma NumrinitWeightsPositive(pi: real, firstRing: int, lastRing: int, skip: int, mode: string)
    requires skip > 0 && firstRing > 0 && pi > 0.0
    requires Range(firstRing, lastRing + 1, skip) != []
    ensures var w := RingWeOf(pi, NumrOf(pi, firstRing, lastRing, skip, mode).value, mode);
      w.Ok? && forall i :: 0 <= i < |w.value| ==> w.value[i] > 0.0
  {
    var ks := Range(firstRing, lastRing + 1, skip);
    var len := Lengths(Span(pi, mode), lastRing, skip);
    var numr := Rings(ks, 1, len);
    assert NumrOf(pi, firstRing, lastRing, skip, mode).value == numr;
    RingsLayout(ks, 1, len);
    var n := |ks|;
    assert |numr| == 3 * n;
    forall i | 0 <= i < n
      ensures numr[3 * i] > 0 && numr[3 * i + 2] > 0
    {
      assert numr[3 * i] == ks[i] && numr[3 * i + 2] == len(ks[i]);
    }
    WeightsPositive(pi, numr, mode, n);
  }

  /** A layout of n triples with positive radii and lengths has only positive weights. */
  lemma WeightsPositive(pi: real, numr: seq<int>, mode: string, n: nat)
    requires pi > 0.0 && n > 0 && |numr| == 3 * n
    requires forall i :: 0 <= i < n ==> numr[3 * i] > 0 && numr[3 * i + 2] > 0
    ensures var w := RingWeOf(pi, numr, mode);
      w.Ok? && forall i :: 0 <= i < |w.value| ==> w.value[i] > 0.0
  {
    assert |numr| / 3 == n;
    assert numr[|numr| - 1] == numr[3 * (n - 1) + 2];
    var maxrin := numr[|numr| - 1] as real;
    var dpi := Span(pi, mode);
    assert !ZeroLength(numr);
    var w := RingWeOf(pi, numr, mode).value;
    forall i | 0 <= i < |w|
      ensures w[i] > 0.0
    {
      WeightPositive(dpi, numr, i, maxrin);
    }
  }

  lemma WeightPositive(dpi: real, numr: seq<int>, i: nat, maxrin: real)
    requires 3 * i + 2 < |numr| && numr[3 * i] > 0 && numr[3 * i + 2] > 0
    requires dpi > 0.0 && maxrin > 0.0
    ensures Weight(dpi, numr, i, maxrin) > 0.0
  {
    PositiveWeight(dpi, numr[3 * i] as real, numr[3 * i + 2] as real, maxrin);
  }

  lemma PositiveWeight(dpi: real, radius: real, len: real, maxrin: real)
    requires dpi > 0.0 && radius > 0.0 && len > 0.0 && maxrin > 0.0
    ensures radius * dpi / len * maxrin / len > 0.0
  {
    var a := radius * dpi;
    assert a > 0.0;
    var b := a / len;
    assert b > 0.0;
    var c := b * maxrin;
    assert c > 0.0;
  }

  /**
   * `ang_n(tot, mode, maxrin)`: the angle of peak position tot, wrapped by C's fmod into
   * [0, 360) for mode "f"/"F" and [0, 180) otherwise whenever its argument is non-negative,
   * as it is for tot >= 1 and maxrin > 0. A zero maxrin divides by zero.
   */
  function AngN(tot: real, mode: string, maxrin: real): (r: Result<real>)
    ensures r.Ok? <==> maxrin != 0.0
    ensures r.Ok? && tot >= 1.0 && maxrin > 0.0 ==>
      0.0 <= r.value < (if mode == "f" || mode == "F" then 360.0 else 180.0)
    ensures r.Ok? ==> exists k: int {:trigger k as real} ::
      ((tot - 1.0) / maxrin + 1.0) * (if mode == "f" || mode == "F" then 360.0 else 180.0) ==
        (if mode == "f" || mode == "F" then 360.0 else 180.0) * k as real + r.value
  {
    if maxrin == 0.0 then Err("ZeroDivisionError")
    else
      var full := if mode == "f" || mode == "F" then 360.0 else 180.0;
      var x := ((tot - 1.0) / maxrin + 1.0) * full;
      NonNegativeArgument(tot, maxrin, full);
      Ok(FMod(x, full))
  }

  lemma NonNegativeArgument(tot: real, maxrin: real, full: real)
    requires full > 0.0 && maxrin != 0.0
    ensures tot >= 1.0 && maxrin > 0.0 ==> ((tot - 1.0) / maxrin + 1.0) * full >= 0.0
  {
    if tot >= 1.0 && maxrin > 0.0 {
      assert (tot - 1.0) / maxrin >= 0.0;
    }
  }
}
