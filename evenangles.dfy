// The stateful part of `symclass`: its constructor, the memoised sampler `even_angles`
// with its P, M and S methods, and `set_angles` / `get_angles`.
module EvenAngles {
  import opened Wrappers
  import opened PyNum
  import opened PyStr
  import opened TrigLib
  import opened Rotation
  import opened Symmetry
  import opened Subunit

  /** The arguments of `even_angles` that its cache compares. */
  datatype Params = Params(delta: real, theta1: real, theta2: real, phi1: real, phi2: real,
                           sampler: string, phiEqpsi: string, incMirror: bool)

  /** `old_even_angles_data`: every entry is None until it is first stored. */
  datatype Cache = Cache(delta: Option<real>, theta1: Option<real>, theta2: Option<real>,
                         phi1: Option<real>, phi2: Option<real>, sampler: Option<string>,
                         phiEqpsi: Option<string>, incMirror: Option<bool>, needsRebuild: Option<bool>)

  const EmptyCache: Cache := Cache(None, None, None, None, None, None, None, None, None)

  /** Some argument differs from the stored one (a None entry differs from everything). */
  predicate Changed(c: Cache, p: Params)
  {
    c.delta != Some(p.delta) || c.theta1 != Some(p.theta1) || c.theta2 != Some(p.theta2) ||
    c.phi1 != Some(p.phi1) || c.phi2 != Some(p.phi2) || c.sampler != Some(p.sampler) ||
    c.phiEqpsi != Some(p.phiEqpsi) || c.incMirror != Some(p.incMirror)
  }

  /** The cache after a recomputation: every argument stored, and a rebuild requested. */
  function Store(p: Params): (c: Cache)
    ensures !Changed(c, p) && c.needsRebuild == Some(true)
  {
    Cache(Some(p.delta), Some(p.theta1), Some(p.theta2), Some(p.phi1), Some(p.phi2),
          Some(p.sampler), Some(p.phiEqpsi), Some(p.incMirror), Some(true))
  }

  /** The parameter check, made on the arguments as given. */
  predicate BadParams(p: Params)
  {
    p.phi2 < p.phi1 || p.theta2 < p.theta1 || p.delta <= 0.0
  }

  // The clamped range: negative bounds fall back to 0 or to the unit's brackets, the
  // right phi border being excluded by 1e-7.
  function Phi1(p: Params): (x: real)
    ensures x >= 0.0
    ensures p.phi1 >= 0.0 ==> x == p.phi1
  {
    if p.phi1 < 0.0 then 0.0 else p.phi1
  }

  function Phi2(tbl: SymTable, p: Params): real
    requires WellFormed(tbl)
  {
    if p.phi2 < 0.0 then Bracket(tbl, p.incMirror)[0] - 0.0000001 else p.phi2
  }

  function Theta1(p: Params): (x: real)
    ensures x >= 0.0
    ensures p.theta1 >= 0.0 ==> x == p.theta1
  {
    if p.theta1 < 0.0 then 0.0 else p.theta1
  }

  function Theta2(tbl: SymTable, p: Params): real
    requires WellFormed(tbl)
  {
    if p.theta2 < 0.0 then Bracket(tbl, p.incMirror)[3] else p.theta2
  }

  /** The S method measures its wedge on the mirror-including brackets. */
  function Phi2Org(tbl: SymTable, p: Params): real
    requires WellFormed(tbl)
  {
    if p.phi2 < 0.0 then tbl.brackets[1][0] - 0.0000001 else p.phi2
  }

  function Theta2Org(tbl: SymTable, p: Params): real
    requires WellFormed(tbl)
  {
    if p.theta2 < 0.0 then tbl.brackets[1][3] else p.theta2
  }

  /** The upper theta the M method uses: raised to 90 when below it. */
  function Theta2M(tbl: SymTable, p: Params): real
    requires WellFormed(tbl)
  {
    if Theta2(tbl, p) < 90.0 then 90.0 else Theta2(tbl, p)
  }

  /** The P and M loops terminate only while every ring's theta stays within [0, 180],
      where the phi step is positive. */
  predicate Terminates(tbl: SymTable, p: Params)
    requires WellFormed(tbl)
  {
    (p.sampler == "P" || p.sampler == "M") ==> Theta2(tbl, p) <= 180.0
  }

  /** Iterations left of `while x < hi: x += d`. */
  function Steps(x: real, hi: real, d: real): nat
  {
    if x < hi && d > 0.0 then ((hi - x) / d).Floor + 1 else 0
  }

  lemma StepsDown(x: real, hi: real, d: real)
    requires x < hi && d > 0.0
    ensures Steps(x + d, hi, d) < Steps(x, hi, d)
  {
    DivMinusOne(hi - x, d);
  }

  lemma DivMinusOne(a: real, d: real)
    requires d > 0.0
    ensures (a - d) / d == a / d - 1.0
  {
    var q := a / d;
    var r := (a - d) / d;
    assert q * d == a;
    assert r * d == a - d;
    assert (r - (q - 1.0)) * d == 0.0;
    NoZeroDivisor(r - (q - 1.0), d);
  }

  lemma NoZeroDivisor(x: real, d: real)
    requires d > 0.0
    ensures x * d == 0.0 ==> x == 0.0
  {
    if x > 0.0 { MulPos(x, d); } else if x < 0.0 { MulPos(-x, d); }
  }

  lemma MulPos(x: real, d: real)
    requires x > 0.0 && d > 0.0
    ensures x * d > 0.0
  {
  }

  /** Iterations left of `while x <= hi: x += d`. */
  function StepsUp(x: real, hi: real, d: real): nat
  {
    if x <= hi && d > 0.0 then ((hi - x) / d).Floor + 1 else 0
  }

  lemma StepsUpDown(x: real, hi: real, d: real)
    requires x <= hi && d > 0.0
    ensures StepsUp(x + d, hi, d) < StepsUp(x, hi, d)
  {
    DivMinusOne(hi - x, d);
  }

  /** Iterations left of `while x >= lo: x -= d`. */
  function StepsDownTo(x: real, lo: real, d: real): nat
  {
    if x >= lo && d > 0.0 then ((x - lo) / d).Floor + 1 else 0
  }

  lemma StepsDownToDown(x: real, lo: real, d: real)
    requires x >= lo && d > 0.0
    ensures StepsDownTo(x - d, lo, d) < StepsDownTo(x, lo, d)
  {
    DivMinusOne(x - lo, d);
  }

  /** The phi step of a ring: twice phi2 at a pole, delta / sin(theta) elsewhere. */
  function DetPhi(t: Trig, delta: real, theta: real, phi2: real): real
  {
    if theta == 0.0 || theta == 180.0 then 2.0 * phi2 else Div(delta, t.sin(theta))
  }

  lemma DetPhiPositive(t: Trig, delta: real, theta: real, phi1: real, phi2: real)
    requires Valid(t) && delta > 0.0 && 0.0 <= theta <= 180.0 && 0.0 <= phi1 < phi2
    ensures DetPhi(t, delta, theta, phi2) > 0.0
  {
    if theta != 0.0 && theta != 180.0 {
      assert t.sin(theta) > 0.0;
      assert Div(delta, t.sin(theta)) * t.sin(theta) == delta;
    }
  }

  /** Which directions a sampler keeps: all of them, or with `sel` only those inside the
      asymmetric subunit. */
  function Selector(t: Trig, tbl: SymTable, sel: bool, incMirror: bool): Euler -> bool
    requires WellFormed(tbl)
  {
    (e: Euler) => !sel || (WellFormed(tbl) && InSubunit(t, tbl, e.phi, e.theta, incMirror))
  }

  lemma SelectorKeeps(t: Trig, tbl: SymTable, sel: bool, incMirror: bool, e: Euler)
    requires WellFormed(tbl)
    ensures Selector(t, tbl, sel, incMirror)(e) == (!sel || InSubunit(t, tbl, e.phi, e.theta, incMirror))
  {
  }

  /** One ring of constant theta, phi from `phi` in steps of `detphi` while below phi2,
      keeping the directions `keep` accepts. */
  function Ring(keep: Euler -> bool, phi: real, phi2: real, detphi: real, theta: real): seq<Euler>
    requires phi < phi2 ==> detphi > 0.0
    decreases Steps(phi, phi2, detphi)
  {
    if phi < phi2 then
      StepsDown(phi, phi2, detphi);
      var e := Euler(phi, theta, 0.0);
      (if keep(e) then [e] else []) + Ring(keep, phi + detphi, phi2, detphi, theta)
    else []
  }

  /** A ring holds only kept directions on its circle, with phi in [phi, phi2). */
  lemma {:induction false} RingProps(keep: Euler -> bool, phi: real, phi2: real, detphi: real, theta: real)
    requires phi < phi2 ==> detphi > 0.0
    ensures forall e :: e in Ring(keep, phi, phi2, detphi, theta) ==>
      phi <= e.phi < phi2 && e.theta == theta && e.psi == 0.0 && keep(e)
    decreases Steps(phi, phi2, detphi)
  {
    if phi < phi2 {
      StepsDown(phi, phi2, detphi);
      RingProps(keep, phi + detphi, phi2, detphi, theta);
    }
  }

  /** The sampled range once clamped, and the directions kept. */
  datatype Grid = Grid(delta: real, phi1: real, phi2: real, theta1: real, theta2: real,
                       keep: Euler -> bool)

  ghost predicate GridOk(t: Trig, g: Grid)
  {
    Valid(t) && g.delta > 0.0 && g.phi1 >= 0.0 && g.theta1 >= 0.0 && g.theta2 <= 180.0
  }

  /** The phi step of a ring is positive whenever the ring is not empty. */
  lemma RingStep(t: Trig, g: Grid, theta: real)
    requires GridOk(t, g) && 0.0 <= theta <= 180.0
    ensures g.phi1 < g.phi2 ==> DetPhi(t, g.delta, theta, g.phi2) > 0.0
  {
    if g.phi1 < g.phi2 {
      DetPhiPositive(t, g.delta, theta, g.phi1, g.phi2);
    }
  }

  function RingAt(t: Trig, g: Grid, theta: real): seq<Euler>
    requires GridOk(t, g) && 0.0 <= theta <= 180.0
  {
    RingStep(t, g, theta);
    Ring(g.keep, g.phi1, g.phi2, DetPhi(t, g.delta, theta, g.phi2), theta)
  }

  /** Rings for theta = theta0, theta0 + delta, ... up to theta2. */
  function RingsUp(t: Trig, g: Grid, theta: real): seq<Euler>
    requires GridOk(t, g) && theta >= 0.0
    decreases StepsUp(theta, g.theta2, g.delta)
  {
    if theta <= g.theta2 then
      StepsUpDown(theta, g.theta2, g.delta);
      RingAt(t, g, theta) + RingsUp(t, g, theta + g.delta)
    else []
  }

  /** Every direction of the upward rings lies in the clamped box and is kept. */
  lemma {:induction false} RingsUpProps(t: Trig, g: Grid, theta: real)
    requires GridOk(t, g) && theta >= 0.0
    ensures forall e :: e in RingsUp(t, g, theta) ==>
      g.phi1 <= e.phi < g.phi2 && theta <= e.theta <= g.theta2 && e.psi == 0.0 && g.keep(e)
    decreases StepsUp(theta, g.theta2, g.delta)
  {
    if theta <= g.theta2 {
      StepsUpDown(theta, g.theta2, g.delta);
      RingStep(t, g, theta);
      RingProps(g.keep, g.phi1, g.phi2, DetPhi(t, g.delta, theta, g.phi2), theta);
      RingsUpProps(t, g, theta + g.delta);
    }
  }

  /** Rings for theta = theta0, theta0 - delta, ... down to theta1. */
  function RingsDown(t: Trig, g: Grid, theta: real): seq<Euler>
    requires GridOk(t, g) && theta <= 180.0
    decreases StepsDownTo(theta, g.theta1, g.delta)
  {
    if theta >= g.theta1 then
      StepsDownToDown(theta, g.theta1, g.delta);
      RingAt(t, g, theta) + RingsDown(t, g, theta - g.delta)
    else []
  }

  /** Every direction of the downward rings lies in the clamped box and is kept. */
  lemma {:induction false} RingsDownProps(t: Trig, g: Grid, theta: real)
    requires GridOk(t, g) && theta <= 180.0
    ensures forall e :: e in RingsDown(t, g, theta) ==>
      g.phi1 <= e.phi < g.phi2 && g.theta1 <= e.theta <= theta && e.psi == 0.0 && g.keep(e)
    decreases StepsDownTo(theta, g.theta1, g.delta)
  {
    if theta >= g.theta1 {
      StepsDownToDown(theta, g.theta1, g.delta);
      RingStep(t, g, theta);
      RingProps(g.keep, g.phi1, g.phi2, DetPhi(t, g.delta, theta, g.phi2), theta);
      RingsDownProps(t, g, theta - g.delta);
    }
  }

  function Reverse<T>(s: seq<T>): (r: seq<T>)
    ensures |r| == |s| && forall i :: 0 <= i < |s| ==> r[i] == s[|s| - 1 - i]
  {
    if |s| == 0 then [] else Reverse(s[1..]) + [s[0]]
  }

  /** The S method's spiral constants. */
  datatype Spiral = Spiral(phi1: real, z1: real, deltaz: real, delta: real, numPoints: int, phistep: real)

  function SpiralOf(t: Trig, tbl: SymTable, p: Params): (s: Spiral)
    requires WellFormed(tbl)
    ensures s.numPoints >= 0 && (s.numPoints >= 1 ==> s.phistep != 0.0)
  {
    var deltaz := t.cos(Theta2Org(tbl, p)) - t.cos(Theta1(p));
    var nfactor := Div(3.6, p.delta * t.pi / 180.0);
    var phistep := Phi2Org(tbl, p) - Phi1(p);
    var wedge := deltaz * phistep / 720.0;
    var wedgeFactor := if wedge < 0.0 then -wedge else wedge;
    var n := Trunc(nfactor * nfactor * wedgeFactor);
    assert nfactor * nfactor >= 0.0;
    assert phistep == 0.0 ==> wedgeFactor == 0.0 && n == 0;
    Spiral(Phi1(p), t.cos(Theta1(p)), deltaz, p.delta, n, phistep)
  }

  /** Spiral point k: z moves linearly from z1, phi advances by delta / r modulo the wedge. */
  function SpiralStep(t: Trig, s: Spiral, k: int, phi: real): (e: Euler)
    requires k >= 1 && s.numPoints - 1 > k && s.phistep != 0.0
    ensures e.psi == 0.0
    ensures s.phistep > 0.0 ==> s.phi1 <= e.phi < s.phi1 + s.phistep
    ensures s.phistep < 0.0 ==> s.phi1 + s.phistep < e.phi <= s.phi1
  {
    var z := s.z1 + s.deltaz * k as real / (s.numPoints - 1) as real;
    var r := t.sqrt(1.0 - z * z);
    Euler(s.phi1 + PyRealMod(phi + Div(s.delta, r) - s.phi1, s.phistep), t.acos(z), 0.0)
  }

  /** The spiral points k, k+1, ..., NumPoints-2, each phi advanced from the previous one;
      points `keep` rejects are skipped and a theta beyond 180 stops it. */
  function SpiralPoints(t: Trig, keep: Euler -> bool, s: Spiral, k: int, phi: real): seq<Euler>
    requires k >= 1 && (s.numPoints >= 1 ==> s.phistep != 0.0)
    decreases s.numPoints - 1 - k
  {
    if k >= s.numPoints - 1 then []
    else
      var e := SpiralStep(t, s, k, phi);
      if e.theta > 180.0 then []
      else (if keep(e) then [e] else []) + SpiralPoints(t, keep, s, k + 1, e.phi)
  }

  /** Every spiral point is kept, has theta at most 180 and psi 0, and phi inside the wedge. */
  lemma {:induction false} SpiralProps(t: Trig, keep: Euler -> bool, s: Spiral, k: int, phi: real)
    requires k >= 1 && (s.numPoints >= 1 ==> s.phistep != 0.0)
    ensures forall e :: e in SpiralPoints(t, keep, s, k, phi) ==>
      e.theta <= 180.0 && e.psi == 0.0 && keep(e) &&
      (s.phistep > 0.0 ==> s.phi1 <= e.phi < s.phi1 + s.phistep)
    decreases s.numPoints - 1 - k
  {
    if k < s.numPoints - 1 {
      var e := SpiralStep(t, s, k, phi);
      if e.theta <= 180.0 {
        SpiralProps(t, keep, s, k + 1, e.phi);
      }
    }
  }

  /** `phiEqpsi == "Minus"`: psi = (720 - phi) mod 360. */
  function MinusPsi(es: seq<Euler>): (r: seq<Euler>)
    ensures |r| == |es| && forall k :: 0 <= k < |es| ==>
      r[k].phi == es[k].phi && r[k].theta == es[k].theta && r[k].psi == RealMod(720.0 - es[k].phi, 360.0)
  {
    seq(|es|, k requires 0 <= k < |es| => es[k].(psi := RealMod(720.0 - es[k].phi, 360.0)))
  }

  /** cn and dn sampled up to the south pole gain the direction (0, 180, 0). */
  predicate AddsSouthPole(tbl: SymTable, theta2: real, delta: real)
    requires WellFormed(tbl)
  {
    (tbl.sym[0] == 'c' || tbl.sym[0] == 'd') && (theta2 == 180.0 || (theta2 >= 180.0 && delta == 180.0))
  }

  function GridOf(t: Trig, tbl: SymTable, p: Params, sel: bool, theta2: real): Grid
    requires WellFormed(tbl)
  {
    Grid(p.delta, Phi1(p), Phi2(tbl, p), Theta1(p), theta2, Selector(t, tbl, sel, p.incMirror))
  }

  predicate Platonic(tbl: SymTable)
    requires WellFormed(tbl)
  {
    tbl.sym[0] == 'o' || tbl.sym[0] == 't' || tbl.sym[0] == 'i'
  }

  /** The M sampler: the rings from 90 degrees down to theta1, reversed, then those above 90 + delta. */
  function MSampled(t: Trig, tbl: SymTable, p: Params): (r: seq<Euler>)
    requires WellFormed(tbl) && Valid(t) && !BadParams(p) && Terminates(tbl, p) && p.sampler == "M"
  {
    var g := GridOf(t, tbl, p, Platonic(tbl), Theta2M(tbl, p));
    Reverse(RingsDown(t, g, 90.0)) + RingsUp(t, g, 90.0 + p.delta)
  }

  /** The directions a recomputation produces, before the optional psi and the pole. */
  function Sampled(t: Trig, tbl: SymTable, p: Params): (r: seq<Euler>)
    requires WellFormed(tbl) && Valid(t) && !BadParams(p) && Terminates(tbl, p)
  {
    if p.sampler == "P" then
      RingsUp(t, GridOf(t, tbl, p, false, Theta2(tbl, p)), Theta1(p))
    else if p.sampler == "M" then MSampled(t, tbl, p)
    else
      var s := SpiralOf(t, tbl, p);
      [Euler(Phi1(p), Theta1(p), 0.0)] + SpiralPoints(t, Selector(t, tbl, true, p.incMirror), s, 1, Phi1(p))
  }

  /** The angle list `even_angles` stores after a recomputation. */
  function EvenAnglesList(t: Trig, tbl: SymTable, p: Params): (r: seq<Euler>)
    requires WellFormed(tbl) && Valid(t) && !BadParams(p) && Terminates(tbl, p)
  {
    var base := Sampled(t, tbl, p);
    var withPsi := if p.phiEqpsi == "Minus" then MinusPsi(base) else base;
    var theta2 := if p.sampler == "M" then Theta2M(tbl, p) else Theta2(tbl, p);
    withPsi + (if AddsSouthPole(tbl, theta2, p.delta) then [Euler(0.0, 180.0, 0.0)] else [])
  }

  // ---- The loops of even_angles, each proved against the function above it. ----

  method AppendRing(angles: seq<Euler>, t: Trig, g: Grid, theta: real) returns (out: seq<Euler>)
    requires GridOk(t, g) && 0.0 <= theta <= 180.0
    ensures out == angles + RingAt(t, g, theta)
  {
    RingStep(t, g, theta);
    var detphi := DetPhi(t, g.delta, theta, g.phi2);
    var phi := g.phi1;
    out := angles;
    while phi < g.phi2
      invariant phi >= g.phi1
      invariant out + Ring(g.keep, phi, g.phi2, detphi, theta) == angles + RingAt(t, g, theta)
      decreases Steps(phi, g.phi2, detphi)
    {
      StepsDown(phi, g.phi2, detphi);
      var e := Euler(phi, theta, 0.0);
      if g.keep(e) {
        out := out + [e];
      }
      phi := phi + detphi;
    }
  }

  /** `while theta <= theta2: ...; theta += delta`. */
  method AppendRingsUp(angles: seq<Euler>, t: Trig, g: Grid, theta0: real) returns (out: seq<Euler>)
    requires GridOk(t, g) && theta0 >= 0.0
    ensures out == angles + RingsUp(t, g, theta0)
  {
    var theta := theta0;
    out := angles;
    while theta <= g.theta2
      invariant theta >= 0.0
      invariant out + RingsUp(t, g, theta) == angles + RingsUp(t, g, theta0)
      decreases StepsUp(theta, g.theta2, g.delta)
    {
      StepsUpDown(theta, g.theta2, g.delta);
      var before := out;
      out := AppendRing(out, t, g, theta);
      assert before + RingsUp(t, g, theta) == out + RingsUp(t, g, theta + g.delta);
      theta := theta + g.delta;
    }
  }

  /** `while theta >= theta1: ...; theta -= delta`. */
  method AppendRingsDown(angles: seq<Euler>, t: Trig, g: Grid, theta0: real) returns (out: seq<Euler>)
    requires GridOk(t, g) && theta0 <= 180.0
    ensures out == angles + RingsDown(t, g, theta0)
  {
    var theta := theta0;
    out := angles;
    while theta >= g.theta1
      invariant theta <= 180.0
      invariant out + RingsDown(t, g, theta) == angles + RingsDown(t, g, theta0)
      decreases StepsDownTo(theta, g.theta1, g.delta)
    {
      StepsDownToDown(theta, g.theta1, g.delta);
      var before := out;
      out := AppendRing(out, t, g, theta);
      assert before + RingsDown(t, g, theta) == out + RingsDown(t, g, theta - g.delta);
      theta := theta - g.delta;
    }
  }

  /** `for k in range(1, NumPoints - 1)`, with its `break` and `continue`. */
  method AppendSpiral(angles: seq<Euler>, t: Trig, keep: Euler -> bool, s: Spiral) returns (out: seq<Euler>)
    requires s.numPoints >= 1 ==> s.phistep != 0.0
    ensures out == angles + SpiralPoints(t, keep, s, 1, s.phi1)
  {
    out := angles;
    var phi := s.phi1;
    var k := 1;
    while k < s.numPoints - 1
      invariant k >= 1
      invariant out + SpiralPoints(t, keep, s, k, phi) == angles + SpiralPoints(t, keep, s, 1, s.phi1)
      decreases s.numPoints - 1 - k
    {
      var e := SpiralStep(t, s, k, phi);
      if e.theta > 180.0 {
        break;
      }
      if keep(e) {
        out := out + [e];
      }
      phi := e.phi;
      k := k + 1;
    }
  }

  /** `angles[k][2] = (720 - angles[k][0]) % 360` for every k. */
  method ApplyMinus(angles: seq<Euler>) returns (out: seq<Euler>)
    ensures out == MinusPsi(angles)
  {
    out := angles;
    for k := 0 to |angles|
      invariant |out| == |angles|
      invariant forall i :: 0 <= i < k ==> out[i] == MinusPsi(angles)[i]
      invariant forall i :: k <= i < |angles| ==> out[i] == angles[i]
    {
      out := out[k := out[k].(psi := RealMod(720.0 - out[k].phi, 360.0))];
    }
  }

  /** The P, M or S sampling of a recomputation (any other method name samples as S). */
  method Sample(t: Trig, tbl: SymTable, p: Params) returns (list: seq<Euler>)
    requires WellFormed(tbl) && Valid(t) && !BadParams(p) && Terminates(tbl, p)
    ensures list == Sampled(t, tbl, p)
  {
    if p.sampler == "P" {
      list := SampleP(t, tbl, p);
    } else if p.sampler == "M" {
      list := SampleM(t, tbl, p);
    } else {
      list := SampleS(t, tbl, p);
    }
  }

  /** The P sampler: the rings from theta1 up. */
  method SampleP(t: Trig, tbl: SymTable, p: Params) returns (list: seq<Euler>)
    requires WellFormed(tbl) && Valid(t) && !BadParams(p) && Terminates(tbl, p) && p.sampler == "P"
    ensures list == Sampled(t, tbl, p)
  {
    list := AppendRingsUp([], t, GridOf(t, tbl, p, false, Theta2(tbl, p)), Theta1(p));
  }

  /** The M sampler: the rings from 90 degrees down, reversed, then the rings above 90 + delta. */
  method SampleM(t: Trig, tbl: SymTable, p: Params) returns (list: seq<Euler>)
    requires WellFormed(tbl) && Valid(t) && !BadParams(p) && Terminates(tbl, p) && p.sampler == "M"
    ensures list == Sampled(t, tbl, p)
  {
    var g := GridOf(t, tbl, p, Platonic(tbl), Theta2M(tbl, p));
    list := AppendRingsDown([], t, g, 90.0);
    assert list == RingsDown(t, g, 90.0) by {
      assert [] + RingsDown(t, g, 90.0) == RingsDown(t, g, 90.0);
    }
    list := Reverse(list);
    list := AppendRingsUp(list, t, g, 90.0 + p.delta);
    assert list == MSampled(t, tbl, p);
    assert p.sampler != "P";
  }

  /** The S sampler: the first point, then the spiral. */
  method SampleS(t: Trig, tbl: SymTable, p: Params) returns (list: seq<Euler>)
    requires WellFormed(tbl) && Valid(t) && !BadParams(p) && Terminates(tbl, p)
    requires p.sampler != "P" && p.sampler != "M"
    ensures list == Sampled(t, tbl, p)
  {
    list := AppendSpiral([Euler(Phi1(p), Theta1(p), 0.0)], t, Selector(t, tbl, true, p.incMirror), SpiralOf(t, tbl, p));
  }

  /** A recomputation: sample, then set psi for "Minus", then append the south pole. */
  method Recompute(t: Trig, tbl: SymTable, p: Params) returns (list: seq<Euler>)
    requires WellFormed(tbl) && Valid(t) && !BadParams(p) && Terminates(tbl, p)
    ensures list == EvenAnglesList(t, tbl, p)
  {
    list := Sample(t, tbl, p);
    if p.phiEqpsi == "Minus" {
      list := ApplyMinus(list);
    }
    var theta2 := Theta2(tbl, p);
    if p.sampler == "M" && theta2 < 90.0 {
      theta2 := 90.0;
    }
    if AddsSouthPole(tbl, theta2, p.delta) {
      list := list + [Euler(0.0, 180.0, 0.0)];
    }
  }

  /** A `symclass` object: the symmetry's table and operator matrices, which never change,
      and the sampler's cache and angle list, which do. */
  class SymClass {
    const trig: Trig
    const sym: string
    const tbl: SymTable
    const symatrix: seq<Mat>
    var cache: Cache
    var angles: Option<seq<Euler>>

    predicate Ready()
    {
      WellFormed(tbl) && tbl.sym == sym && AllMat3(symatrix) && |symatrix| == tbl.nsym
    }

    /** `symclass(sym)` for a tag `init_symmetry` accepts. */
    constructor (t: Trig, name: string)
      requires InitSymmetry(t, Lower(name)).Ok?
      ensures Ready()
      ensures trig == t && sym == Lower(name) && tbl == InitSymmetry(t, Lower(name)).value
      ensures symatrix == RotMatrices(t, tbl.symangles)
      ensures cache == EmptyCache && angles == None
    {
      trig := t;
      sym := Lower(name);
      tbl := InitSymmetry(t, Lower(name)).value;
      symatrix := RotMatrices(t, InitSymmetry(t, Lower(name)).value.symangles);
      cache := EmptyCache;
      angles := None;
    }

    /**
     * `even_angles`: recompute only when some argument differs from the cache, storing the
     * arguments and requesting a rebuild first; then reject a bad range, else sample.
     * Unchanged arguments return the stored list.
     */
    method EvenAngles(delta: real, theta1: real, theta2: real, phi1: real, phi2: real,
                      method_: string, phiEqpsi: string, incMirror: bool) returns (r: Result<seq<Euler>>)
      requires Ready() && Valid(trig)
      requires Terminates(tbl, Params(delta, theta1, theta2, phi1, phi2, method_, phiEqpsi, incMirror))
      modifies this
      ensures var p := Params(delta, theta1, theta2, phi1, phi2, method_, phiEqpsi, incMirror);
        if Changed(old(cache), p) then
          cache == Store(p) &&
          (if BadParams(p) then r == Err("even_angles: incorrect parameters") && angles == old(angles)
           else angles == Some(EvenAnglesList(trig, tbl, p)) && r == Ok(angles.value))
        else
          cache == old(cache) && angles == old(angles) &&
          r == (if angles.Some? then Ok(angles.value) else Err("AttributeError"))
    {
      var p := Params(delta, theta1, theta2, phi1, phi2, method_, phiEqpsi, incMirror);
      if !Changed(cache, p) {
        r := if angles.Some? then Ok(angles.value) else Err("AttributeError");
        return;
      }
      cache := Store(p);
      if BadParams(p) {
        r := Err("even_angles: incorrect parameters");
        return;
      }
      var list := Recompute(trig, tbl, p);
      angles := Some(list);
      r := Ok(list);
    }

    /** `set_angles`: store a list, record delta when given, and invalidate the cache. */
    method SetAngles(list: seq<Euler>, delta: Option<real>)
      modifies this
      ensures angles == Some(list)
      ensures cache == old(cache).(delta := if delta.Some? then delta else old(cache).delta,
                                   theta1 := None, needsRebuild := Some(true))
    {
      angles := Some(list);
      if delta.Some? {
        cache := cache.(delta := delta);
      }
      cache := cache.(theta1 := None, needsRebuild := Some(true));
    }

    /** `get_angles`: the stored list, or an error before any has been stored. */
    method GetAngles() returns (r: Result<seq<Euler>>)
      ensures angles == None <==> r.Err?
      ensures angles.Some? ==> r == Ok(angles.value)
    {
      if angles == None {
        r := Err("One needs to run even_angles first!");
      } else {
        r := Ok(angles.value);
      }
    }
  }

  /** `symclass(sym)`: the object, or init_symmetry's error. */
  method NewSymClass(t: Trig, name: string) returns (r: Result<SymClass>)
    ensures r.Ok? <==> InitSymmetry(t, Lower(name)).Ok?
    ensures r.Ok? ==> fresh(r.value) && r.value.Ready() && r.value.cache == EmptyCache && r.value.angles == None
  {
    if InitSymmetry(t, Lower(name)).Err? {
      r := Err(InitSymmetry(t, Lower(name)).error);
    } else {
      var c := new SymClass(t, name);
      r := Ok(c);
    }
  }

  /** The cache answers a second call with the same arguments. */
  lemma CacheHit(p: Params)
    ensures !Changed(Store(p), p)
  {
  }

  /** After `set_angles` the next `even_angles` always recomputes. */
  lemma SetAnglesForcesRecompute(c: Cache, p: Params)
    ensures Changed(c.(theta1 := None), p)
  {
  }

  /** The P method samples exactly the clamped box: phi in [phi1, phi2), theta in
      [theta1, theta2], psi 0. */
  lemma PlainGridBounds(t: Trig, tbl: SymTable, p: Params)
    requires WellFormed(tbl) && Valid(t) && !BadParams(p) && Terminates(tbl, p) && p.sampler == "P"
    ensures forall e :: e in Sampled(t, tbl, p) ==>
      Phi1(p) <= e.phi < Phi2(tbl, p) && Theta1(p) <= e.theta <= Theta2(tbl, p) && e.psi == 0.0
  {
    RingsUpProps(t, GridOf(t, tbl, p, false, Theta2(tbl, p)), Theta1(p));
  }

  /** The M method's rings, the downward ones reversed, hold only kept directions. */
  lemma MGridKept(t: Trig, g: Grid)
    requires GridOk(t, g)
    ensures forall e :: e in Reverse(RingsDown(t, g, 90.0)) + RingsUp(t, g, 90.0 + g.delta) ==> g.keep(e)
  {
    var down := RingsDown(t, g, 90.0);
    RingsDownProps(t, g, 90.0);
    RingsUpProps(t, g, 90.0 + g.delta);
    forall e | e in Reverse(down)
      ensures e in down
    {
      var i :| 0 <= i < |Reverse(down)| && Reverse(down)[i] == e;
      assert down[|down| - 1 - i] == e;
    }
  }

  /** Directions the subunit selector keeps are inside the asymmetric unit. */
  lemma SelectedInside(t: Trig, tbl: SymTable, incMirror: bool, es: seq<Euler>)
    requires WellFormed(tbl)
    requires forall e :: e in es ==> Selector(t, tbl, true, incMirror)(e)
    ensures forall e :: e in es ==> InSubunit(t, tbl, e.phi, e.theta, incMirror)
  {
    forall e | e in es
      ensures InSubunit(t, tbl, e.phi, e.theta, incMirror)
    {
      SelectorKeeps(t, tbl, true, incMirror, e);
    }
  }

  /** The M method keeps only directions its grid's selector keeps. */
  lemma MSampledKept(t: Trig, tbl: SymTable, p: Params)
    requires WellFormed(tbl) && Valid(t) && !BadParams(p) && Terminates(tbl, p) && p.sampler == "M"
    ensures forall e :: e in MSampled(t, tbl, p) ==> Selector(t, tbl, Platonic(tbl), p.incMirror)(e)
  {
    var g := GridOf(t, tbl, p, Platonic(tbl), Theta2M(tbl, p));
    var keep := Selector(t, tbl, Platonic(tbl), p.incMirror);
    assert GridOk(t, g) && g.keep == keep && g.delta == p.delta;
    var r := Reverse(RingsDown(t, g, 90.0)) + RingsUp(t, g, 90.0 + g.delta);
    assert MSampled(t, tbl, p) == r;
    MGridKept(t, g);
    forall e | e in r
      ensures keep(e)
    {
      assert g.keep(e);
    }
  }

  /** The M method on a platonic group keeps only directions inside the asymmetric unit. */
  lemma PlatonicGridInside(t: Trig, tbl: SymTable, p: Params)
    requires WellFormed(tbl) && Valid(t) && !BadParams(p) && Terminates(tbl, p)
    requires p.sampler == "M" && Platonic(tbl)
    ensures forall e :: e in Sampled(t, tbl, p) ==> InSubunit(t, tbl, e.phi, e.theta, p.incMirror)
  {
    assert p.sampler != "P";
    var r := MSampled(t, tbl, p);
    assert Sampled(t, tbl, p) == r;
    MSampledKept(t, tbl, p);
    SelectedInside(t, tbl, p.incMirror, r);
  }

  /** The S method's points after the first all lie inside the asymmetric unit. */
  lemma SpiralInside(t: Trig, tbl: SymTable, p: Params)
    requires WellFormed(tbl) && Valid(t) && !BadParams(p) && Terminates(tbl, p)
    requires p.sampler != "P" && p.sampler != "M"
    ensures var r := Sampled(t, tbl, p);
      |r| >= 1 && r[0] == Euler(Phi1(p), Theta1(p), 0.0) &&
      forall k :: 1 <= k < |r| ==> r[k].theta <= 180.0 && InSubunit(t, tbl, r[k].phi, r[k].theta, p.incMirror)
  {
    var r := Sampled(t, tbl, p);
    var keep := Selector(t, tbl, true, p.incMirror);
    var tail := SpiralPoints(t, keep, SpiralOf(t, tbl, p), 1, Phi1(p));
    SpiralProps(t, keep, SpiralOf(t, tbl, p), 1, Phi1(p));
    forall k | 1 <= k < |r|
      ensures r[k].theta <= 180.0 && InSubunit(t, tbl, r[k].phi, r[k].theta, p.incMirror)
    {
      assert r[k] == tail[k - 1] && tail[k - 1] in tail;
      SelectorKeeps(t, tbl, true, p.incMirror, r[k]);
    }
  }

  /** cn and dn sampled to theta2 = 180 end with the south pole (0, 180, 0). */
  lemma SouthPoleLast(t: Trig, tbl: SymTable, p: Params)
    requires WellFormed(tbl) && Valid(t) && !BadParams(p) && Terminates(tbl, p)
    requires (tbl.family == Cn || tbl.family == Dn) && Theta2(tbl, p) == 180.0
    ensures var r := EvenAnglesList(t, tbl, p);
      |r| >= 1 && r[|r| - 1] == Euler(0.0, 180.0, 0.0)
  {
  }
}
