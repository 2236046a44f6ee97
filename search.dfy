// Search helpers of the 2-D alignment code: `search_range`, `parabl`, `select_k` and the
// layout of `generate_list_of_reference_angles_for_search`.
module Search {
  import opened Wrappers
  import opened PyNum
  import opened Rotation

  // ---- search_range ----

  /** The permitted search ranges, upper limit first, and whether the shift was too large
      (reported as a warning, after which the search goes on). */
  datatype Ranges = Ranges(upper: real, lower: real, warned: bool)

  /**
   * `search_range(n, radius, shift, range)`: the room left between the particle circle
   * and the image border on each side of the centre n//2 + 1, clamped at 0 once either side
   * is negative, and capped by range.
   */
  function SearchRange(n: int, radius: real, shift: real, range: real): (r: Ranges)
    ensures var cn := (FloorDiv(n, 2) + 1) as real;
      var ql := cn + shift - radius - 2.0;
      var qe := n as real - cn - shift - radius;
      r.warned == (ql < 0.0 || qe < 0.0) &&
      r.upper <= range && r.lower <= range &&
      (range >= 0.0 ==> r.upper >= 0.0 && r.lower >= 0.0)
  {
    var cn := (FloorDiv(n, 2) + 1) as real;
    var ql := cn + shift - radius - 2.0;
    var qe := n as real - cn - shift - radius;
    if ql < 0.0 || qe < 0.0 then
      Ranges(RMin(RMax(qe, 0.0), range), RMin(RMax(ql, 0.0), range), true)
    else
      Ranges(RMin(qe, range), RMin(ql, range), false)
  }

  /** Clamping only when a side is negative is the same as always clamping at 0: each range
      is the side's room, at least 0 and at most range. */
  lemma SearchRangeClamped(n: int, radius: real, shift: real, range: real)
    ensures var cn := (FloorDiv(n, 2) + 1) as real;
      var r := SearchRange(n, radius, shift, range);
      r.upper == RMin(RMax(n as real - cn - shift - radius, 0.0), range) &&
      r.lower == RMin(RMax(cn + shift - radius - 2.0, 0.0), range)
  {
  }

  // ---- parabl ----

  /** The six coefficients of the quadratic fitted to a 3x3 neighbourhood. */
  datatype Fit = Fit(c1: real, c2: real, c3: real, c4: real, c5: real, c6: real)

  function Coefficients(z: Mat): Fit
    requires IsMat3(z)
  {
    Fit(
      (26.0 * z[0][0] - z[0][1] + 2.0 * z[0][2] - z[1][0] - 19.0 * z[1][1] - 7.0 * z[1][2]
        + 2.0 * z[2][0] - 7.0 * z[2][1] + 14.0 * z[2][2]) / 9.0,
      (8.0 * z[0][0] - 8.0 * z[0][1] + 5.0 * z[1][0] - 8.0 * z[1][1] + 3.0 * z[1][2]
        + 2.0 * z[2][0] - 8.0 * z[2][1] + 6.0 * z[2][2]) / -6.0,
      (z[0][0] - 2.0 * z[0][1] + z[0][2] + z[1][0] - 2.0 * z[1][1] + z[1][2]
        + z[2][0] - 2.0 * z[2][1] + z[2][2]) / 6.0,
      (8.0 * z[0][0] + 5.0 * z[0][1] + 2.0 * z[0][2] - 8.0 * z[1][0] - 8.0 * z[1][1]
        - 8.0 * z[1][2] + 3.0 * z[2][1] + 6.0 * z[2][2]) / -6.0,
      (z[0][0] - z[0][2] - z[2][0] + z[2][2]) / 4.0,
      (z[0][0] + z[0][1] + z[0][2] - 2.0 * z[1][0] - 2.0 * z[1][1] - 2.0 * z[1][2]
        + z[2][0] + z[2][1] + z[2][2]) / 6.0)
  }

  function Denom(f: Fit): real
  {
    4.0 * f.c3 * f.c6 - f.c5 * f.c5
  }

  function PeakNumerator(f: Fit): real
  {
    4.0 * f.c1 * f.c3 * f.c6 - f.c1 * f.c5 * f.c5 - f.c2 * f.c2 * f.c6 + f.c2 * f.c4 * f.c5 - f.c4 * f.c4 * f.c3
  }

  /** x limited to [-1, 1]. */
  function Clamp1(x: real): (y: real)
    ensures -1.0 <= y <= 1.0
    ensures -1.0 <= x <= 1.0 ==> y == x
    ensures x < -1.0 ==> y == -1.0
    ensures x > 1.0 ==> y == 1.0
  {
    RMin(RMax(x, -1.0), 1.0)
  }

  /** The sub-pixel peak: its x and y shifts and its height. */
  datatype Peak = Peak(xsh: real, ysh: real, peakv: real)

  /**
   * `parabl(Z)`: the vertex of the quadratic fitted to Z. A degenerate fit (zero
   * denominator) gives (0, 0, 0); otherwise both shifts are clamped into [-1, 1].
   */
  function Parabl(z: Mat): (p: Peak)
    requires IsMat3(z)
    ensures Denom(Coefficients(z)) == 0.0 ==> p == Peak(0.0, 0.0, 0.0)
    ensures Denom(Coefficients(z)) != 0.0 ==>
      -1.0 <= p.xsh <= 1.0 && -1.0 <= p.ysh <= 1.0 &&
      p.peakv == PeakNumerator(Coefficients(z)) / Denom(Coefficients(z))
  {
    Vertex(Coefficients(z))
  }

  /** The vertex of the fitted quadratic f, shifts clamped. */
  function Vertex(f: Fit): (p: Peak)
    ensures Denom(f) == 0.0 ==> p == Peak(0.0, 0.0, 0.0)
    ensures Denom(f) != 0.0 ==> -1.0 <= p.xsh <= 1.0 && -1.0 <= p.ysh <= 1.0 && p.peakv == PeakNumerator(f) / Denom(f)
  {
    var d := Denom(f);
    if d == 0.0 then Peak(0.0, 0.0, 0.0)
    else
      var ysh := Offcentre(f.c4, f.c5, f.c2, f.c6, d);
      var xsh := Offcentre(f.c2, f.c5, f.c4, f.c3, d);
      Peak(Clamp1(xsh), Clamp1(ysh), PeakNumerator(f) / d)
  }

  /** One coordinate of the vertex, (u v - 2 w x) / d, relative to the window centre. */
  function Offcentre(u: real, v: real, w: real, x: real, d: real): real
    requires d != 0.0
  {
    (u * v - 2.0 * w * x) / d - 2.0
  }

  /** z with c added to every entry. */
  function Offset(z: Mat, c: real): (w: Mat)
    requires IsMat3(z)
    ensures IsMat3(w) && forall i, j :: 0 <= i < 3 && 0 <= j < 3 ==> w[i][j] == z[i][j] + c
  {
    seq(3, i requires 0 <= i < 3 => seq(3, j requires 0 <= j < 3 => z[i][j] + c))
  }

  /** A flat neighbourhood has no peak to fit. */
  lemma ParablFlat(z: Mat, c: real)
    requires IsMat3(z) && forall i, j :: 0 <= i < 3 && 0 <= j < 3 ==> z[i][j] == c
    ensures Parabl(z) == Peak(0.0, 0.0, 0.0)
  {
    var f := Coefficients(z);
    assert f.c3 == 0.0 && f.c5 == 0.0;
  }

  /** Raising the neighbourhood by c leaves the shifts in place and raises the peak by c. */
  lemma ParablOffset(z: Mat, c: real)
    requires IsMat3(z) && Denom(Coefficients(z)) != 0.0
    ensures var p, q := Parabl(z), Parabl(Offset(z, c));
      q.xsh == p.xsh && q.ysh == p.ysh && q.peakv == p.peakv + c
  {
    CoefficientsOffset(z, c);
    VertexOffset(Coefficients(z), c);
  }

  lemma VertexOffset(f: Fit, c: real)
    requires Denom(f) != 0.0
    ensures var p, q := Vertex(f), Vertex(Fit(f.c1 + c, f.c2, f.c3, f.c4, f.c5, f.c6));
      q.xsh == p.xsh && q.ysh == p.ysh && q.peakv == p.peakv + c
  {
    var g := Fit(f.c1 + c, f.c2, f.c3, f.c4, f.c5, f.c6);
    assert Denom(g) == Denom(f);
    PeakShift(f, c);
    assert Vertex(g).peakv == PeakNumerator(g) / Denom(f);
  }

  /** Only the constant term of the fit moves with the offset. */
  lemma CoefficientsOffset(z: Mat, c: real)
    requires IsMat3(z)
    ensures var f := Coefficients(z);
      Coefficients(Offset(z, c)) == Fit(f.c1 + c, f.c2, f.c3, f.c4, f.c5, f.c6)
  {
    var w := Offset(z, c);
    var f, g := Coefficients(z), Coefficients(w);
    assert w[0][0] == z[0][0] + c && w[0][1] == z[0][1] + c && w[0][2] == z[0][2] + c;
    assert w[1][0] == z[1][0] + c && w[1][1] == z[1][1] + c && w[1][2] == z[1][2] + c;
    assert w[2][0] == z[2][0] + c && w[2][1] == z[2][1] + c && w[2][2] == z[2][2] + c;
  }

  lemma PeakShift(f: Fit, c: real)
    requires Denom(f) != 0.0
    ensures PeakNumerator(Fit(f.c1 + c, f.c2, f.c3, f.c4, f.c5, f.c6)) / Denom(f) == PeakNumerator(f) / Denom(f) + c
  {
    var d := Denom(f);
    var a := f.c2 * f.c2 * f.c6 - f.c2 * f.c4 * f.c5 + f.c4 * f.c4 * f.c3;
    assert PeakNumerator(f) == f.c1 * d - a;
    assert PeakNumerator(Fit(f.c1 + c, f.c2, f.c3, f.c4, f.c5, f.c6)) == (f.c1 + c) * d - a;
    assert (f.c1 + c) * d - a == PeakNumerator(f) + c * d;
    DivShift(PeakNumerator(f), c, d);
  }

  lemma DivShift(a: real, c: real, d: real)
    requires d != 0.0
    ensures (a + c * d) / d == a / d + c
  {
  }

  // ---- select_k ----

  /** q[0] + ... + q[n-1], added left to right. */
  function Sum(q: seq<real>, n: nat): real
    requires n <= |q|
  {
    if n == 0 then 0.0 else Sum(q, n - 1) + q[n - 1]
  }

  /** The weights dJe[k] ** (1/T). */
  function Powered(dJe: seq<real>, t: real, pow: (real, real) -> real): (w: seq<real>)
    requires t != 0.0
    ensures |w| == |dJe|
  {
    seq(|dJe|, k requires 0 <= k < |dJe| => pow(dJe[k], 1.0 / t))
  }

  /** The weights divided by their sum s. */
  function Scaled(w: seq<real>, s: real): (q: seq<real>)
    requires s != 0.0
    ensures |q| == |w|
  {
    seq(|w|, k requires 0 <= k < |w| => w[k] / s)
  }

  /** The cumulative weights `select_k` searches: running sums, with the last entry forced
      to 2.0 so that every draw below 1 stops inside the list. */
  function Cumulative(q: seq<real>): (c: seq<real>)
    ensures |c| == |q|
    ensures |q| > 0 ==> c[|q| - 1] == 2.0
  {
    seq(|q|, k requires 0 <= k < |q| => if k == |q| - 1 then 2.0 else Sum(q, k + 1))
  }

  /**
   * `select_k(dJe, T)` with the random draw pb in [0, 1) passed in: the first index whose
   * cumulative normalised weight reaches pb. A zero T or a zero total weight divides by
   * zero, and an empty list has no last entry to force.
   */
  method SelectK(dJe: seq<real>, t: real, pow: (real, real) -> real, pb: real) returns (r: Result<nat>)
    requires 0.0 <= pb < 1.0
    ensures t == 0.0 ==> r == Err("ZeroDivisionError")
    ensures t != 0.0 && |dJe| == 0 ==> r == Err("IndexError")
    ensures t != 0.0 && |dJe| > 0 ==>
      var w := Powered(dJe, t, pow);
      (r.Err? <==> Sum(w, |w|) == 0.0) &&
      (r.Ok? ==>
        var c := Cumulative(Scaled(w, Sum(w, |w|)));
        r.value < |dJe| && c[r.value] >= pb && forall j :: 0 <= j < r.value ==> c[j] < pb)
  {
    if t == 0.0 {
      return Err("ZeroDivisionError");
    }
    var kk := |dJe|;
    var p := new real[kk](_ => 0.0);
    var ut := 1.0 / t;
    PowerAll(p, dJe, ut, pow);
    ghost var w := Powered(dJe, t, pow);
    assert p[..] == w;
    var sumq := Sum(p[..], kk);
    if kk == 0 {
      return Err("IndexError");
    }
    if sumq == 0.0 {
      return Err("ZeroDivisionError");
    }
    DivideAll(p, sumq);
    ghost var q := p[..];
    Accumulate(p);
    p[kk - 1] := 2.0;
    ghost var c := Cumulative(q);
    assert p[..] == c;
    var select := 0;
    while p[select] < pb
      invariant 0 <= select < kk
      invariant forall j :: 0 <= j < select ==> c[j] < pb
      decreases kk - select
    {
      select := select + 1;
    }
    r := Ok(select);
  }

  /** p[k] := dJe[k] ** ut for every k. */
  method PowerAll(p: array<real>, dJe: seq<real>, ut: real, pow: (real, real) -> real)
    requires p.Length == |dJe|
    modifies p
    ensures forall k :: 0 <= k < p.Length ==> p[k] == pow(dJe[k], ut)
  {
    for k := 0 to p.Length
      invariant forall j :: 0 <= j < k ==> p[j] == pow(dJe[j], ut)
    {
      p[k] := pow(dJe[k], ut);
    }
  }

  /** p[k] := p[k] / s for every k. */
  method DivideAll(p: array<real>, s: real)
    requires s != 0.0
    modifies p
    ensures p[..] == Scaled(old(p[..]), s)
  {
    for k := 0 to p.Length
      invariant forall j :: 0 <= j < k ==> p[j] == old(p[j]) / s
      invariant forall j :: k <= j < p.Length ==> p[j] == old(p[j])
    {
      p[k] := p[k] / s;
    }
  }

  /** p[k] := p[k] + p[k-1] for k = 1 .. len - 2: running sums except in the last place. */
  method Accumulate(p: array<real>)
    requires p.Length > 0
    modifies p
    ensures forall j :: 0 <= j < p.Length - 1 ==> p[j] == Sum(old(p[..]), j + 1)
  {
    ghost var q := p[..];
    if p.Length >= 2 {
      for k := 1 to p.Length - 1
        invariant forall j :: 0 <= j < k ==> p[j] == Sum(q, j + 1)
        invariant forall j :: k <= j < p.Length ==> p[j] == q[j]
      {
        p[k] := p[k] + p[k - 1];
      }
    }
  }

  /** The normalised weights add up to 1. */
  lemma {:induction false} ScaledSum(w: seq<real>, s: real, n: nat)
    requires s != 0.0 && n <= |w|
    ensures Sum(Scaled(w, s), n) == Sum(w, n) / s
  {
    if n > 0 {
      ScaledSum(w, s, n - 1);
    }
  }

  /** With non-negative weights the running sums never decrease, so the draw lands at the s
      with c[s-1] < pb <= c[s]: the inverse of the cumulative distribution. */
  lemma {:induction false} CumulativeMonotone(q: seq<real>, i: nat, j: nat)
    requires forall k :: 0 <= k < |q| ==> q[k] >= 0.0
    requires i <= j < |q| - 1
    ensures Cumulative(q)[i] <= Cumulative(q)[j]
    decreases j - i
  {
    if i < j {
      CumulativeMonotone(q, i, j - 1);
      assert Sum(q, j + 1) == Sum(q, j) + q[j];
    }
  }

  // ---- generate_list_of_reference_angles_for_search ----

  /** The mirrored direction: phi turned by 180 degrees and theta reflected, psi kept. */
  function Mirror(e: Euler): (m: Euler)
    ensures 0.0 <= m.phi < 360.0 && m.theta == 180.0 - e.theta && m.psi == e.psi
  {
    Euler(RealMod(e.phi + 180.0, 360.0), 180.0 - e.theta, e.psi)
  }

  lemma RealModBelow(x: real)
    requires 0.0 <= x < 720.0
    ensures RealMod(x, 360.0) == if x < 360.0 then x else x - 360.0
  {
    var r := RealMod(x, 360.0);
    var k: int :| x == 360.0 * k as real + r;
    assert 0 <= k <= 1;
  }

  /** Mirroring twice returns a direction with phi in [0, 360) to itself. */
  lemma MirrorTwice(e: Euler)
    requires 0.0 <= e.phi < 360.0
    ensures Mirror(Mirror(e)) == e
  {
    RealModBelow(e.phi + 180.0);
    RealModBelow(Mirror(e).phi + 180.0);
  }

  /** One symmetry-related copy, each angle rounded to 5 decimals as Python 2 rounds. */
  function Rounded(e: Euler): Euler
  {
    Euler(PyRound(e.phi, 5), PyRound(e.theta, 5), PyRound(e.psi, 5))
  }

  /** The first block: the input directions with psi 0, then their mirrors. */
  function Block(input: seq<Euler>): (b: seq<Euler>)
    ensures |b| == 2 * |input|
  {
    var base := seq(|input|, i requires 0 <= i < |input| => Euler(input[i].phi, input[i].theta, 0.0));
    base + seq(|input|, i requires 0 <= i < |input| => Mirror(base[i]))
  }

  /** The number of blocks: one per symmetry operation. */
  function Blocks(nsym: int): (c: nat)
    ensures c >= 1
  {
    if nsym > 1 then nsym else 1
  }

  /** Entry k of the list: entry k % m of block 0 under symmetry operation k / m. */
  function Entry(block: seq<Euler>, symProj: (real, real, nat) -> Euler, k: nat): Euler
    requires |block| > 0
  {
    var m := |block|;
    if k < m then block[k] else Rounded(symProj(block[k % m].phi, block[k % m].theta, k / m))
  }

  /**
   * `generate_list_of_reference_angles_for_search`: block 0 is `Block(input)`, and each
   * further block l (1 <= l < nsym) holds copy l of every entry of block 0, as
   * `symProj(phi, theta, l)` gives it (EMAN's `get_sym_proj`).
   */
  function ReferenceAnglesOf(input: seq<Euler>, nsym: int, symProj: (real, real, nat) -> Euler): seq<Euler>
  {
    var block := Block(input);
    if |block| == 0 then []
    else seq(Blocks(nsym) * |block|, k requires 0 <= k < Blocks(nsym) * |block| => Entry(block, symProj, k))
  }

  /** Position i of block l in a list of blocks of m entries. */
  function Slot(l: nat, m: nat, i: nat): nat
  {
    l * m + i
  }

  /** The list has max(nsym, 1) blocks of 2n entries. */
  lemma ReferenceAnglesLength(input: seq<Euler>, nsym: int, symProj: (real, real, nat) -> Euler)
    ensures |ReferenceAnglesOf(input, nsym, symProj)| == Blocks(nsym) * (2 * |input|)
  {
  }

  /** Block 0 holds the directions with psi 0 and then their mirrors. */
  lemma ReferenceAnglesFirstBlock(input: seq<Euler>, nsym: int, symProj: (real, real, nat) -> Euler)
    ensures var list, n := ReferenceAnglesOf(input, nsym, symProj), |input|;
      2 * n <= |list| &&
      forall i :: 0 <= i < n ==> list[i] == Euler(input[i].phi, input[i].theta, 0.0) && list[n + i] == Mirror(list[i])
  {
    var list, n := ReferenceAnglesOf(input, nsym, symProj), |input|;
    if n > 0 {
      MulMono(1, Blocks(nsym), 2 * n);
      assert list[..2 * n] == Block(input);
    }
  }

  /** Block l holds the rounded copies under symmetry operation l of the entries of block 0. */
  lemma ReferenceAnglesCopies(input: seq<Euler>, nsym: int, symProj: (real, real, nat) -> Euler)
    ensures var list, n := ReferenceAnglesOf(input, nsym, symProj), |input|;
      forall l, i :: 1 <= l < Blocks(nsym) && 0 <= i < 2 * n ==>
        Slot(l, 2 * n, i) < |list| && list[Slot(l, 2 * n, i)] == Rounded(symProj(list[i].phi, list[i].theta, l))
  {
    var list, n := ReferenceAnglesOf(input, nsym, symProj), |input|;
    forall l, i | 1 <= l < Blocks(nsym) && 0 <= i < 2 * n
      ensures Slot(l, 2 * n, i) < |list| && list[Slot(l, 2 * n, i)] == Rounded(symProj(list[i].phi, list[i].theta, l))
    {
      CopyAt(input, nsym, symProj, l, i);
    }
  }

  lemma CopyAt(input: seq<Euler>, nsym: int, symProj: (real, real, nat) -> Euler, l: nat, i: nat)
    requires 1 <= l < Blocks(nsym) && i < 2 * |input|
    ensures var list, m := ReferenceAnglesOf(input, nsym, symProj), 2 * |input|;
      Slot(l, m, i) < |list| && list[Slot(l, m, i)] == Rounded(symProj(list[i].phi, list[i].theta, l))
  {
    var list, block := ReferenceAnglesOf(input, nsym, symProj), Block(input);
    var m := |block|;
    ModOfMultiple(l, m, i);
    SlotBelow(l, Blocks(nsym), m, i);
    SlotBelow(0, Blocks(nsym), m, i);
    MulAtLeast(l, m);
    assert list[i] == Entry(block, symProj, i) == block[i];
    assert list[Slot(l, m, i)] == Entry(block, symProj, Slot(l, m, i));
  }

  lemma SlotBelow(l: nat, c: nat, m: nat, i: nat)
    requires l < c && i < m
    ensures Slot(l, m, i) < c * m
  {
    assert (l + 1) * m == l * m + m;
    MulMono(l + 1, c, m);
  }

  /** Only index l m + i has quotient l and remainder i by m. */
  lemma SlotUnique(k: nat, m: nat, i: nat, l: nat)
    requires 0 < m && k != l * m + i
    ensures !(k % m == i && k / m == l)
  {
  }

  lemma MulMono(a: nat, b: nat, m: nat)
    requires a <= b
    ensures a * m <= b * m
  {
    assert b * m == a * m + (b - a) * m;
  }

  method ReferenceAngles(input: seq<Euler>, nsym: int, symProj: (real, real, nat) -> Euler) returns (list: seq<Euler>)
    ensures list == ReferenceAnglesOf(input, nsym, symProj)
  {
    var n := |input|;
    list := seq(n, _ => Euler(0.0, 0.0, 0.0));
    for i := 0 to n
      invariant |list| == n
      invariant forall k :: 0 <= k < i ==> list[k] == Euler(input[k].phi, input[k].theta, 0.0)
    {
      list := list[i := Euler(input[i].phi, input[i].theta, 0.0)];
    }
    ghost var base := list;
    list := list + seq(n, _ => Euler(0.0, 0.0, 0.0));
    for i := 0 to n
      invariant |list| == 2 * n && list[..n] == base
      invariant forall k :: 0 <= k < i ==> list[n + k] == Mirror(base[k])
    {
      var m := Euler(RealMod(list[i].phi + 180.0, 360.0), 180.0 - list[i].theta, list[i].psi);
      list := list[i + n := m];
    }
    assert list == Block(input);
    if nsym > 1 && n > 0 {
      list := AddSymmetryCopies(list, nsym, symProj);
    }
  }

  /** Blocks 1 .. nsym - 1 appended to block 0 and filled in, entry by entry of block 0. */
  method AddSymmetryCopies(block: seq<Euler>, nsym: int, symProj: (real, real, nat) -> Euler) returns (list: seq<Euler>)
    requires |block| > 0 && nsym > 1
    ensures |list| == nsym * |block|
    ensures forall k :: 0 <= k < |list| ==> list[k] == Entry(block, symProj, k)
  {
    var m := |block|;
    list := block;
    for l := 1 to nsym
      invariant |list| == l * m && list[..m] == block
    {
      list := list + seq(m, _ => Euler(0.0, 0.0, 0.0));
      assert (l + 1) * m == l * m + m;
    }
    for i := 0 to m
      invariant |list| == nsym * m && list[..m] == block
      invariant forall k :: m <= k < nsym * m && k % m < i ==> list[k] == Entry(block, symProj, k)
    {
      list := FillCopies(list, block, nsym, symProj, i);
    }
  }

  /** Entry i of every block after the first, from copies 1 .. nsym - 1 of block entry i. */
  method FillCopies(list0: seq<Euler>, block: seq<Euler>, nsym: int, symProj: (real, real, nat) -> Euler, i: nat)
    returns (list: seq<Euler>)
    requires |block| > 0 && nsym > 1 && i < |block| && |list0| == nsym * |block|
    requires list0[..|block|] == block
    ensures |list| == |list0| && list[..|block|] == block
    ensures forall k :: 0 <= k < |list| ==>
      list[k] == if k >= |block| && k % |block| == i then Entry(block, symProj, k) else list0[k]
  {
    var m := |block|;
    var e := list0[i];
    assert e == block[i];
    list := list0;
    FilledStart(list0, block, symProj, i);
    for ll := 1 to nsym
      invariant Filled(list, list0, block, symProj, i, ll)
    {
      list := FillOne(list, list0, block, e, symProj, i, ll, nsym);
    }
    FilledAll(list, list0, block, symProj, i, nsym);
  }

  /** list[i + ll m] := copy ll of block entry e, rounded to 5 decimals. */
  method FillOne(prev: seq<Euler>, list0: seq<Euler>, block: seq<Euler>, e: Euler, symProj: (real, real, nat) -> Euler,
                 i: nat, ll: nat, nsym: nat) returns (list: seq<Euler>)
    requires |block| > 0 && i < |block| && e == block[i] && 1 <= ll < nsym && |prev| == nsym * |block|
    requires Filled(prev, list0, block, symProj, i, ll)
    ensures Filled(list, list0, block, symProj, i, ll + 1)
  {
    var m := |block|;
    var d := symProj(e.phi, e.theta, ll);
    ModOfMultiple(ll, m, i);
    SlotBelow(ll, nsym, m, i);
    var idx := i + ll * m;
    assert Euler(PyRound(d.phi, 5), PyRound(d.theta, 5), PyRound(d.psi, 5)) == Entry(block, symProj, idx);
    CopyStep(prev, list0, block, symProj, i, ll);
    list := prev[idx := Euler(PyRound(d.phi, 5), PyRound(d.theta, 5), PyRound(d.psi, 5))];
  }

  /** Copies 1 .. upto - 1 of entry i are in place and every other entry is as in list0. */
  predicate Filled(list: seq<Euler>, list0: seq<Euler>, block: seq<Euler>, symProj: (real, real, nat) -> Euler, i: nat, upto: nat)
    requires |block| > 0
  {
    |list| == |list0| &&
    forall k :: 0 <= k < |list| ==>
      list[k] == if |block| <= k && k % |block| == i && k / |block| < upto then Entry(block, symProj, k) else list0[k]
  }

  /** Before any copy is written, only block 0 counts as filled, and it is list0's own. */
  lemma FilledStart(list0: seq<Euler>, block: seq<Euler>, symProj: (real, real, nat) -> Euler, i: nat)
    requires |block| > 0
    ensures Filled(list0, list0, block, symProj, i, 1)
  {
    var m := |block|;
    forall k | m <= k < |list0|
      ensures k / m >= 1
    {
      DivModUnique(k, m, k / m, k % m);
    }
  }

  lemma FilledAll(list: seq<Euler>, list0: seq<Euler>, block: seq<Euler>, symProj: (real, real, nat) -> Euler, i: nat, nsym: nat)
    requires |block| > 0 && nsym >= 1 && |list0| == nsym * |block|
    requires |block| <= |list0| && list0[..|block|] == block
    requires Filled(list, list0, block, symProj, i, nsym)
    ensures |list| == |list0| && list[..|block|] == block
    ensures forall k :: 0 <= k < |list| ==>
      list[k] == if k >= |block| && k % |block| == i then Entry(block, symProj, k) else list0[k]
  {
    var m := |block|;
    forall k | 0 <= k < |list|
      ensures k / m < nsym
    {
      QuotientBelow(k, m, nsym);
    }
    assert list[..m] == list0[..m];
  }

  lemma QuotientBelow(k: nat, m: nat, c: nat)
    requires m > 0 && k < c * m
    ensures k / m < c
  {
    if k / m >= c {
      MulMono(c, k / m, m);
    }
  }

  /** Writing copy ll of entry i extends the filled part by one block. */
  lemma CopyStep(prev: seq<Euler>, list0: seq<Euler>, block: seq<Euler>, symProj: (real, real, nat) -> Euler, i: nat, ll: nat)
    requires |block| > 0 && i < |block| && ll >= 1 && ll * |block| + i < |prev|
    requires Filled(prev, list0, block, symProj, i, ll)
    ensures Filled(prev[ll * |block| + i := Entry(block, symProj, ll * |block| + i)], list0, block, symProj, i, ll + 1)
  {
    var m := |block|;
    var idx := ll * m + i;
    ModOfMultiple(ll, m, i);
    forall k | 0 <= k < |prev| && k != idx
      ensures !(k % m == i && k / m == ll)
    {
      SlotUnique(k, m, i, ll);
    }
  }
}
