// The FSC curve helpers of `sp_process` (post-refinement map sharpening): the resolutions
// where the curve crosses a criterion, the half-to-full dataset correction, the conversion
// of frequencies to Angstrom, the taper applied after the 0.143 crossing and the B-factor
// cutoff.
module Fsc {
  import opened Wrappers
  import opened PyNum

  // ---- calculate_fsc_criterion ----

  /** The first index k >= i with vals[k] < crit, or |vals| when there is none. */
  function FirstBelow(vals: seq<real>, crit: real, i: nat): (j: nat)
    ensures j == |vals| || (i <= j < |vals| && vals[j] < crit)
    ensures forall k :: i <= k < j ==> vals[k] >= crit
    decreases |vals| - i
  {
    if i >= |vals| then |vals|
    else if vals[i] < crit then i
    else FirstBelow(vals, crit, i + 1)
  }

  /** The last index j in [1, hi) with vals[j] >= crit, or 0 when there is none. */
  function LastAtLeast(vals: seq<real>, crit: real, hi: nat): (j: nat)
    requires hi <= |vals|
    ensures j == 0 || (1 <= j < hi && vals[j] >= crit)
    ensures forall k :: 1 <= k < hi && j < k ==> vals[k] < crit
  {
    if hi <= 1 then 0
    else if vals[hi - 1] >= crit then hi - 1
    else LastAtLeast(vals, crit, hi - 1)
  }

  /** Index i of a Python list of length n is readable. */
  predicate Readable(i: int, n: nat)
  {
    -(n as int) <= i < n
  }

  /** The resolutions at, and the indices of, the last point before the curve first falls
      below the criterion (left) and the last point at or above it (right). */
  datatype Crossing = Crossing(resLeft: real, resRight: real, idxLeft: int, idxRight: int)

  /** The left index, searching upward from frequency 1: one before the first value below
      crit, or the last index when there is none. */
  function LeftIndex(vals: seq<real>, crit: real): int
  {
    var j := FirstBelow(vals, crit, 1);
    if j < |vals| then j - 1 else |vals| - 1
  }

  /** The right index, searching downward to frequency 1: the last value at or above crit,
      or 1 when there is none. */
  function RightIndex(vals: seq<real>, crit: real): int
  {
    var j := LastAtLeast(vals, crit, |vals|);
    if j >= 1 then j else 1
  }

  /**
   * `calculate_fsc_criterion(fsc, criterion)` with fsc[0] = res and fsc[1] = vals. The
   * resolutions are read from res, Python indexing included; a position res does not have
   * raises IndexError.
   */
  function CriterionOf(res: seq<real>, vals: seq<real>, crit: real): Result<Crossing>
  {
    var n := |vals|;
    var il, ir := LeftIndex(vals, crit), RightIndex(vals, crit);
    if !Readable(n - 1, |res|) || !Readable(il, |res|) || !Readable(1, |res|) || !Readable(ir, |res|) then
      Err("IndexError")
    else
      Ok(Crossing(res[PyIndex(il, |res|)], res[ir], il, ir))
  }

  /** `calculate_fsc_criterion`: the upward search, then the downward one. */
  method CalculateFscCriterion(res: seq<real>, vals: seq<real>, crit: real) returns (r: Result<Crossing>)
    ensures r == CriterionOf(res, vals, crit)
  {
    var left := ScanLeft(res, vals, crit);
    if left.Err? {
      return Err(left.error);
    }
    if |res| < 2 {
      return Err("IndexError");
    }
    var right := ScanRight(res, vals, crit);
    if right.Err? {
      return Err(right.error);
    }
    r := Ok(Crossing(left.value.0, right.value.0, left.value.1, right.value.1));
  }

  /** The upward search with its early exit, reading the resolution at the left index. */
  method ScanLeft(res: seq<real>, vals: seq<real>, crit: real) returns (r: Result<(real, int)>)
    ensures var il := LeftIndex(vals, crit);
      r == if Readable(|vals| - 1, |res|) && Readable(il, |res|) then Ok((res[PyIndex(il, |res|)], il))
           else Err("IndexError")
  {
    var n := |vals|;
    if !Readable(n - 1, |res|) {
      return Err("IndexError");
    }
    var resLeft := res[PyIndex(n - 1, |res|)];
    var idxLeft := n - 1;
    var ifreq := 1;
    while ifreq < n
      invariant 1 <= ifreq && (n >= 1 ==> ifreq <= n)
      invariant FirstBelow(vals, crit, 1) == FirstBelow(vals, crit, ifreq)
      decreases n - ifreq
    {
      if vals[ifreq] < crit {
        if ifreq - 1 >= |res| {
          return Err("IndexError");
        }
        resLeft := res[ifreq - 1];
        idxLeft := ifreq - 1;
        break;
      }
      ifreq := ifreq + 1;
    }
    r := Ok((resLeft, idxLeft));
  }

  /** The downward search with its early exit, reading the resolution at the right index. */
  method ScanRight(res: seq<real>, vals: seq<real>, crit: real) returns (r: Result<(real, int)>)
    requires |res| >= 2
    ensures var ir := RightIndex(vals, crit);
      r == if ir < |res| then Ok((res[ir], ir)) else Err("IndexError")
  {
    var n := |vals|;
    var resRight := res[1];
    var idxRight := 1;
    var ifreq := n - 1;
    while ifreq >= 1
      invariant ifreq <= n - 1 || n == 0
      invariant LastAtLeast(vals, crit, n) == LastAtLeast(vals, crit, if ifreq < 0 then 0 else ifreq + 1)
      decreases ifreq
    {
      if vals[ifreq] >= crit {
        if ifreq >= |res| {
          return Err("IndexError");
        }
        resRight := res[ifreq];
        idxRight := ifreq;
        break;
      }
      ifreq := ifreq - 1;
    }
    r := Ok((resRight, idxRight));
  }

  /** The left index is one before the first frequency from 1 on whose value falls below
      crit, or the last index; every value from 1 up to it is at or above crit. */
  lemma LeftIndexFirstDrop(vals: seq<real>, crit: real)
    ensures var il := LeftIndex(vals, crit);
      -1 <= il < |vals| &&
      (forall k :: 1 <= k <= il ==> vals[k] >= crit) &&
      (il < |vals| - 1 ==> vals[il + 1] < crit)
  {
  }

  /** The right index is the last frequency from 1 on whose value reaches crit, or 1; every
      value after it is below crit. */
  lemma RightIndexLastAbove(vals: seq<real>, crit: real)
    ensures var ir := RightIndex(vals, crit);
      ir >= 1 && (forall k :: ir < k < |vals| ==> vals[k] < crit) &&
      (ir < |vals| && vals[ir] < crit ==> forall k :: 1 <= k < |vals| ==> vals[k] < crit)
  {
  }

  /** The left crossing never lies after the right one. */
  lemma {:induction false} LeftNotAfterRight(vals: seq<real>, crit: real)
    requires |vals| >= 2
    ensures LeftIndex(vals, crit) <= RightIndex(vals, crit)
  {
    var jl := FirstBelow(vals, crit, 1);
    var jr := LastAtLeast(vals, crit, |vals|);
    if jl >= 2 {
      assert vals[jl - 1] >= crit;
    }
  }

  // ---- scale_fsc ----

  /** `scale_fsc(x)`: the FSC of the full dataset, 2x / (1 + x); x = -1 divides by zero. */
  function ScaleFsc(x: real): (r: Result<real>)
    ensures r.Ok? <==> x != -1.0
    ensures r.Ok? ==> r.value * (1.0 + x) == 2.0 * x
  {
    if 1.0 + x == 0.0 then Err("ZeroDivisionError") else Ok(2.0 * x / (1.0 + x))
  }

  /** On [0, 1] the correction stays in [0, 1], only raises a value and fixes 0 and 1. */
  lemma ScaleFscUnit(x: real)
    requires 0.0 <= x <= 1.0
    ensures var r := ScaleFsc(x);
      r.Ok? && 0.0 <= r.value <= 1.0 && x <= r.value &&
      (r.value == x <==> x == 0.0 || x == 1.0)
  {
    var d := 1.0 + x;
    var r := ScaleFsc(x).value;
    assert (r - x) * d == x * (1.0 - x);
    DivOf(r - x, x * (1.0 - x), d);
    assert (1.0 - r) * d == 1.0 - x;
    DivOf(1.0 - r, 1.0 - x, d);
    assert r * d == 2.0 * x;
    DivOf(r, 2.0 * x, d);
    if 0.0 < x < 1.0 {
      PositiveRatio(x, 1.0 - x, d);
    }
  }

  lemma PositiveRatio(a: real, b: real, d: real)
    requires a > 0.0 && b > 0.0 && d > 0.0
    ensures a * b / d > 0.0
  {
    assert a * b > 0.0;
  }

  /** The correction is increasing on [0, 1]. */
  lemma ScaleFscMonotone(x: real, y: real)
    requires 0.0 <= x <= y <= 1.0
    ensures ScaleFsc(x).value <= ScaleFsc(y).value
  {
    ScaleForm(x);
    ScaleForm(y);
    RecipAnti(1.0 + x, 1.0 + y);
  }

  /** 2x / (1 + x) = 2 - 2 / (1 + x). */
  lemma ScaleForm(x: real)
    requires x > -1.0
    ensures ScaleFsc(x).value == 2.0 - 2.0 / (1.0 + x)
  {
    var d := 1.0 + x;
    assert (2.0 - 2.0 / d) * d == 2.0 * x;
    DivOf(2.0 - 2.0 / d, 2.0 * x, d);
  }

  lemma DivOf(a: real, b: real, d: real)
    requires d != 0.0 && a * d == b
    ensures a == b / d
  {
  }

  lemma RecipAnti(a: real, b: real)
    requires 0.0 < a <= b
    ensures 2.0 / b <= 2.0 / a
  {
    assert 2.0 / b * b == 2.0 && 2.0 / a * a == 2.0;
  }

  // ---- freq_to_angstrom ----

  /** The resolution in Angstrom of spatial frequency q, 999.0 for a frequency <= 0. */
  function Angstrom(q: real, pixelSize: real): (a: real)
    ensures q > 0.0 ==> a * q == pixelSize
    ensures q <= 0.0 ==> a == 999.0
  {
    if q > 0.0 then pixelSize / q else 999.0
  }

  /** `freq_to_angstrom(values, pixel_size)` on a list: a list of 999.0 of the same length,
      overwritten at every positive frequency. */
  method FreqToAngstrom(values: seq<real>, pixelSize: real) returns (angstrom: seq<real>)
    ensures |angstrom| == |values|
    ensures forall i :: 0 <= i < |values| ==> angstrom[i] == Angstrom(values[i], pixelSize)
  {
    angstrom := seq(|values|, _ => 999.0);
    for i := 0 to |values|
      invariant |angstrom| == |values|
      invariant forall k :: 0 <= k < i ==> angstrom[k] == Angstrom(values[k], pixelSize)
      invariant forall k :: i <= k < |values| ==> angstrom[k] == 999.0
    {
      if values[i] > 0.0 {
        angstrom := angstrom[i := pixelSize / values[i]];
      }
    }
  }

  /** A single frequency is first wrapped into a one-element list. */
  method FreqToAngstromScalar(q: real, pixelSize: real) returns (angstrom: seq<real>)
    ensures angstrom == [Angstrom(q, pixelSize)]
  {
    angstrom := FreqToAngstrom([q], pixelSize);
  }

  /** Converting back: a positive frequency is pixel_size over its resolution. */
  lemma AngstromInverse(q: real, pixelSize: real)
    requires q > 0.0 && pixelSize != 0.0
    ensures pixelSize / Angstrom(q, pixelSize) == q
  {
  }

  // ---- the FSC taper after the 0.143 crossing ----

  /** Every value raised to at least 0. */
  function Clamped(f: seq<real>): (c: seq<real>)
    ensures |c| == |f| && forall i :: 0 <= i < |f| ==> c[i] >= 0.0 && (f[i] >= 0.0 ==> c[i] == f[i])
  {
    seq(|f|, i requires 0 <= i < |f| => RMax(f[i], 0.0))
  }

  /**
   * The curve after the taper: kept up to n143; the next point is a fifth of the two
   * points before n143, the one after a fifth of the point before n143 (Python indexing,
   * so n143 = 0 or 1 wraps round to the end of the list), and zero from there on.
   */
  function Tapered(c: seq<real>, n143: nat): (t: seq<real>)
    requires n143 < |c|
    ensures |t| == |c|
  {
    var n := |c|;
    seq(n, k requires 0 <= k < n =>
      if k <= n143 then c[k]
      else if k == n143 + 1 then (c[PyIndex(n143 - 2, n)] + c[PyIndex(n143 - 1, n)]) / 5.0
      else if k == n143 + 2 then c[PyIndex(n143 - 1, n)] / 5.0
      else 0.0)
  }

  /** The in-place clamp and taper of `fsc_true[1]` in `run`, with nfreq143 = n143. */
  method ClampAndTaper(f: array<real>, n143: nat)
    requires n143 < f.Length
    modifies f
    ensures f[..] == Tapered(Clamped(old(f[..])), n143)
  {
    var n := f.Length;
    for ifreq := 0 to n
      invariant forall k :: 0 <= k < ifreq ==> f[k] == RMax(old(f[k]), 0.0)
      invariant forall k :: ifreq <= k < n ==> f[k] == old(f[k])
    {
      f[ifreq] := RMax(f[ifreq], 0.0);
    }
    ghost var c := f[..];
    assert c == Clamped(old(f[..]));
    ghost var t := Tapered(c, n143);
    for ifreq := n143 + 1 to n
      invariant forall k :: 0 <= k < ifreq ==> f[k] == t[k]
      invariant forall k :: ifreq <= k < n ==> f[k] == c[k]
    {
      if ifreq == n143 + 1 {
        f[ifreq] := (f[PyIndex(n143 - 2, n)] + f[PyIndex(n143 - 1, n)]) / 5.0;
      } else if ifreq == n143 + 2 {
        f[ifreq] := f[PyIndex(n143 - 1, n)] / 5.0;
      } else {
        f[ifreq] := 0.0;
      }
    }
    assert f[..] == t;
  }

  /** The tapered curve is non-negative, keeps the curve up to n143 (where it was already
      non-negative) and is zero from n143 + 3 on. */
  lemma TaperShape(f: seq<real>, n143: nat)
    requires n143 < |f|
    ensures var t := Tapered(Clamped(f), n143);
      (forall k :: 0 <= k < |f| ==> t[k] >= 0.0) &&
      (forall k :: 0 <= k <= n143 && f[k] >= 0.0 ==> t[k] == f[k]) &&
      (forall k :: n143 + 3 <= k < |f| ==> t[k] == 0.0)
  {
    var c, n := Clamped(f), |f|;
    if n143 + 1 < n {
      assert c[PyIndex(n143 - 2, n)] >= 0.0 && c[PyIndex(n143 - 1, n)] >= 0.0;
    }
  }

  // ---- the B-factor cutoff ----

  /** The cutoff index of the automatic B-factor: one before the first value below 0.143,
      or len - 2 when the loop runs to the end. An empty curve leaves the loop variable
      unassigned. */
  function CutoffOf(vals: seq<real>): Result<int>
  {
    if |vals| == 0 then Err("NameError")
    else
      var j := FirstBelow(vals, 0.143, 0);
      Ok(if j < |vals| then j - 1 else |vals| - 2)
  }

  method BFactorCutoff(vals: seq<real>) returns (r: Result<int>)
    ensures r == CutoffOf(vals)
  {
    if |vals| == 0 {
      return Err("NameError");
    }
    var ifreq := 0;
    while ifreq < |vals| - 1 && !(vals[ifreq] < 0.143)
      invariant 0 <= ifreq <= |vals| - 1
      invariant forall k :: 0 <= k < ifreq ==> vals[k] >= 0.143
    {
      ifreq := ifreq + 1;
    }
    assert FirstBelow(vals, 0.143, 0) == (if vals[ifreq] < 0.143 then ifreq else |vals|) by {
      FirstBelowAt(vals, 0.143, ifreq);
    }
    r := Ok(ifreq - 1);
  }

  /** When everything before i is at or above crit, the first drop is i or comes later. */
  lemma {:induction false} FirstBelowAt(vals: seq<real>, crit: real, i: nat)
    requires i < |vals| && forall k :: 0 <= k < i ==> vals[k] >= crit
    requires vals[i] >= crit ==> i == |vals| - 1
    ensures FirstBelow(vals, crit, 0) == if vals[i] < crit then i else |vals|
  {
  }

  /** The cutoff agrees with the left 0.143 crossing when the curve starts at or above
      0.143 and then falls below it, and lies one index lower when it never falls. */
  lemma CutoffAndCrossing(vals: seq<real>)
    requires |vals| >= 1 && vals[0] >= 0.143
    ensures var il := LeftIndex(vals, 0.143);
      CutoffOf(vals) == Ok(if FirstBelow(vals, 0.143, 1) < |vals| then il else il - 1)
  {
    FirstBelowFrom(vals, 0.143);
  }

  lemma FirstBelowFrom(vals: seq<real>, crit: real)
    requires |vals| >= 1 && vals[0] >= crit
    ensures FirstBelow(vals, crit, 0) == FirstBelow(vals, crit, 1)
  {
  }
}
