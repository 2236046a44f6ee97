// The point-group tables of symclass: `init_symmetry` and `symmetry_neighbors`.
module Symmetry {
  import opened Wrappers
  import opened PyNum
  import opened PyStr
  import opened TrigLib
  import opened Rotation

  datatype Family = Cn | Dn | Oct | Tet | Icos

  /**
   * What `init_symmetry` leaves in a symclass. `order` is the n of cn/dn (0 for the
   * platonic groups). brackets[0] bounds the unit without mirrors, brackets[1] with
   * them: [phi extent, theta bound, phi extent of the cap, theta bound of the cap].
   */
  datatype SymTable = SymTable(
    sym: string,
    family: Family,
    order: int,
    nsym: nat,
    brackets: seq<seq<real>>,
    symangles: seq<Euler>)

  predicate WellFormed(tbl: SymTable)
  {
    |tbl.brackets| == 2 && |tbl.brackets[0]| == 4 && |tbl.brackets[1]| == 4 &&
    |tbl.symangles| == tbl.nsym && tbl.nsym >= 1 && |tbl.sym| >= 1 &&
    (tbl.family == Cn ==>
       tbl.sym[0] == 'c' && tbl.order >= 1 && tbl.nsym == tbl.order &&
       ParseInt(tbl.sym[1..]) == Some(tbl.order) &&
       tbl.brackets[0][1] == 90.0 && tbl.brackets[1][1] == 180.0) &&
    (tbl.family == Dn ==> tbl.sym[0] == 'd' && tbl.order >= 1 && tbl.nsym == 2 * tbl.order) &&
    (tbl.family == Oct ==> StartsWith(tbl.sym, "oct") && tbl.nsym == 24) &&
    (tbl.family == Tet ==> StartsWith(tbl.sym, "tet") && tbl.nsym == 12) &&
    (tbl.family == Icos ==> StartsWith(tbl.sym, "icos") && tbl.nsym == 60)
  }

  function CnTable(sym: string, n: int): (tbl: SymTable)
    requires |sym| >= 1 && sym[0] == 'c' && n >= 1 && ParseInt(sym[1..]) == Some(n)
    ensures WellFormed(tbl)
  {
    var step := 360.0 / n as real;
    SymTable(sym, Cn, n, n, [[step, 90.0, step, 90.0], [step, 180.0, step, 180.0]], CnRotations(n))
  }

  /** The n rotations about z of cn, by multiples of 360/n. */
  function CnRotations(n: nat): (ops: seq<Euler>)
    requires n >= 1
    ensures |ops| == n
  {
    seq(n, i => Euler(0.0, 0.0, i as real * (360.0 / n as real)))
  }

  /** The n rotations about z of dn, by multiples of 720/nsym. */
  function DnRotations(n: nat): (ops: seq<Euler>)
    requires n >= 1
    ensures |ops| == n
  {
    seq(n, i => Euler(0.0, 0.0, 2.0 * i as real * (360.0 / (2 * n) as real)))
  }

  /** The n flips of dn (theta = 180), listed for i = n-1 down to 0. */
  function DnFlips(n: nat): (ops: seq<Euler>)
    requires n >= 1
    ensures |ops| == n
  {
    seq(n, k requires 0 <= k < n =>
      Euler(0.0, 180.0, FlipPsi(n, n - 1 - k)))
  }

  function FlipPsi(n: nat, i: nat): real
    requires n >= 1
  {
    RealMod(i as real * (360.0 / (2 * n) as real) * 2.0 + 180.0 * FloorMod(n, 2) as real, 360.0)
  }

  function DnTable(sym: string, n: int): (tbl: SymTable)
    requires |sym| >= 1 && sym[0] == 'd' && n >= 1
    ensures WellFormed(tbl)
  {
    var step := 360.0 / (2 * n) as real;
    SymTable(sym, Dn, n, 2 * n,
      [[step, 90.0, step, 90.0], [step * 2.0, 90.0, step * 2.0, 90.0]],
      DnRotations(n) + DnFlips(n))
  }

  /** The cap angles shared by the platonic groups: alpha (alt_max) and theta_c/2. */
  function Alpha(t: Trig, ncap: nat): real
    requires ncap > 0
  {
    t.acos(Div(1.0, t.sqrt(3.0) * t.tan(180.0 / ncap as real)))
  }

  function HalfCap(t: Trig, ncap: nat): real
    requires ncap > 0
  {
    var capSig := 360.0 / ncap as real;
    0.5 * t.acos(Div(t.cos(capSig), 1.0 - t.cos(capSig)))
  }

  /** The 24 oct operators: psi turns of 90 at each pole and 16 on the equator. */
  function OctTable(t: Trig, sym: string): (tbl: SymTable)
    requires StartsWith(sym, "oct")
    ensures WellFormed(tbl) && tbl.family == Oct
    ensures tbl.brackets[0][0] == 45.0 && tbl.brackets[1][0] == 90.0 && tbl.brackets[0][2] == tbl.brackets[1][2] == 90.0
    ensures forall k :: 0 <= k < 4 ==> tbl.symangles[k] == Euler(0.0, 0.0, 90.0 * k as real)
    ensures forall k :: 4 <= k < 20 ==> tbl.symangles[k] == Euler(90.0 * ((k - 4) % 4) as real, 90.0, 90.0 * ((k - 4) / 4) as real)
    ensures forall k :: 20 <= k < 24 ==> tbl.symangles[k] == Euler(0.0, 180.0, 90.0 * (k - 20) as real)
  {
    var theta, alpha := HalfCap(t, 4), Alpha(t, 4);
    var top := seq(4, i => Euler(0.0, 0.0, 90.0 * i as real));
    var equator := seq(16, q => Euler(90.0 * (q % 4) as real, 90.0, 90.0 * (q / 4) as real));
    var bottom := seq(4, i => Euler(0.0, 180.0, 90.0 * i as real));
    SymTable(sym, Oct, 0, 24,
      [[45.0, theta, 90.0, alpha], [90.0, theta, 90.0, alpha]],
      top + equator + bottom)
  }

  /** The oct operators are 24 different triplets, each angle a quarter turn in [0, 360). */
  lemma OctOperators(t: Trig, sym: string)
    requires StartsWith(sym, "oct")
    ensures var ops := OctTable(t, sym).symangles;
      (forall k :: 0 <= k < 24 ==> Quarter(ops[k].phi) && Quarter(ops[k].theta) && Quarter(ops[k].psi)) &&
      (forall a, b :: 0 <= a < b < 24 ==> ops[a] != ops[b])
  {
    var ops := OctTable(t, sym).symangles;
    forall a, b | 0 <= a < b < 24 ensures ops[a] != ops[b] {
      if 4 <= a < 20 && 4 <= b < 20 {
        assert a - 4 == 4 * ((a - 4) / 4) + (a - 4) % 4;
        assert b - 4 == 4 * ((b - 4) / 4) + (b - 4) % 4;
      }
    }
  }

  /** A multiple of 90 in [0, 360). */
  predicate Quarter(x: real)
  {
    x == 0.0 || x == 90.0 || x == 180.0 || x == 270.0
  }

  /** The 12 tet operators: three psi turns at the north pole, nine at theta = acos(-1/3). */
  function TetTable(t: Trig, sym: string): (tbl: SymTable)
    requires StartsWith(sym, "tet")
    ensures WellFormed(tbl) && tbl.family == Tet
    ensures tbl.brackets[0][0] == tbl.brackets[1][0] == 120.0 && tbl.brackets[0][2] == tbl.brackets[1][2] == 120.0
    ensures forall k :: 0 <= k < 3 ==> tbl.symangles[k] == Euler(0.0, 0.0, 120.0 * k as real)
    ensures forall k :: 3 <= k < 12 ==>
      tbl.symangles[k] == Euler(120.0 * ((k - 3) / 3) as real, t.acos(-1.0 / 3.0), 60.0 + 120.0 * ((k - 3) % 3) as real)
  {
    var theta, alpha := HalfCap(t, 3), Alpha(t, 3);
    var lvl1 := t.acos(-1.0 / 3.0);
    var top := [Euler(0.0, 0.0, 0.0), Euler(0.0, 0.0, 120.0), Euler(0.0, 0.0, 240.0)];
    var faces := seq(9, q => Euler(120.0 * (q / 3) as real, lvl1, 60.0 + 120.0 * (q % 3) as real));
    SymTable(sym, Tet, 0, 12,
      [[120.0, theta, 120.0, alpha], [120.0, theta, 120.0, alpha]],
      top + faces)
  }

  /** The 60 icos operators: five psi turns at each pole and 25 on each of two levels. */
  function IcosTable(t: Trig, sym: string): (tbl: SymTable)
    requires StartsWith(sym, "icos")
    ensures WellFormed(tbl) && tbl.family == Icos
    ensures tbl.brackets[0][0] == 36.0 && tbl.brackets[1][0] == 72.0 && tbl.brackets[0][2] == tbl.brackets[1][2] == 72.0
    ensures forall k :: 0 <= k < 5 ==> tbl.symangles[k] == Euler(0.0, 0.0, 72.0 * k as real)
    ensures forall k :: 5 <= k < 30 ==>
      tbl.symangles[k] == Euler(72.0 * ((k - 5) / 5) as real, t.atan(2.0), 36.0 + 72.0 * ((k - 5) % 5) as real)
    ensures forall k :: 30 <= k < 55 ==>
      tbl.symangles[k] == Euler(36.0 + 72.0 * ((k - 30) / 5) as real, 180.0 - t.atan(2.0), 72.0 * ((k - 30) % 5) as real)
    ensures forall k :: 55 <= k < 60 ==> tbl.symangles[k] == Euler(0.0, 180.0, 72.0 * (k - 55) as real)
  {
    var theta, alpha := HalfCap(t, 5), Alpha(t, 5);
    var lvl1 := t.atan(2.0);
    var lvl2 := 180.0 - lvl1;
    var top := seq(5, i => Euler(0.0, 0.0, 72.0 * i as real));
    var upper := seq(25, q => Euler(72.0 * (q / 5) as real, lvl1, 36.0 + 72.0 * (q % 5) as real));
    var lower := seq(25, q => Euler(36.0 + 72.0 * (q / 5) as real, lvl2, 72.0 * (q % 5) as real));
    var bottom := seq(5, i => Euler(0.0, 180.0, 72.0 * i as real));
    SymTable(sym, Icos, 0, 60,
      [[36.0, theta, 72.0, alpha], [72.0, theta, 72.0, alpha]],
      top + upper + lower + bottom)
  }

  /** `init_symmetry` on an already lower-cased tag; errors are the source's ERROR calls
      and the exceptions `int()` and indexing raise. */
  function InitSymmetry(t: Trig, sym: string): (r: Result<SymTable>)
    ensures r.Ok? ==> WellFormed(r.value) && r.value.sym == sym
  {
    if |sym| == 0 then Err("IndexError")
    else if sym[0] == 'c' then
      match ParseInt(sym[1..])
      case None => Err("ValueError")
      case Some(n) => if n < 1 then Err("For Cn symmetry, we need n>0") else Ok(CnTable(sym, n))
    else if sym[0] == 'd' then
      match ParseInt(sym[1..])
      case None => Err("ValueError")
      case Some(n) => if 2 * n < 1 then Err("For Dn symmetry, we need n>0") else Ok(DnTable(sym, n))
    else if StartsWith(sym, "oct") then Ok(OctTable(t, sym))
    else if StartsWith(sym, "tet") then Ok(TetTable(t, sym))
    else if StartsWith(sym, "icos") then Ok(IcosTable(t, sym))
    else Err("Unknown symmetry")
  }

  /** The tags `init_symmetry` accepts, stated independently of the tables. */
  predicate AcceptedTag(sym: string)
  {
    |sym| >= 1 &&
    (if sym[0] == 'c' || sym[0] == 'd' then ParseInt(sym[1..]).Some? && ParseInt(sym[1..]).value >= 1
     else StartsWith(sym, "oct") || StartsWith(sym, "tet") || StartsWith(sym, "icos"))
  }

  /** The family and table size each tag yields; nsym = n for cn, 2n for dn, 24, 12, 60 for
      oct, tet, icos, always matched by one operator per symmetry; every other tag fails. */
  lemma InitSymmetrySizes(t: Trig, sym: string)
    ensures InitSymmetry(t, sym).Ok? <==> AcceptedTag(sym)
    ensures InitSymmetry(t, sym).Ok? ==>
      var tbl := InitSymmetry(t, sym).value;
      var n := ParseInt(sym[1..]);
      |tbl.symangles| == tbl.nsym &&
      (sym[0] == 'c' ==> tbl.family == Cn && n == Some(tbl.nsym)) &&
      (sym[0] == 'd' ==> tbl.family == Dn && n.Some? && tbl.nsym == 2 * n.value) &&
      (sym[0] != 'c' && sym[0] != 'd' && StartsWith(sym, "oct") ==> tbl.family == Oct && tbl.nsym == 24) &&
      (sym[0] != 'c' && sym[0] != 'd' && !StartsWith(sym, "oct") && StartsWith(sym, "tet") ==>
         tbl.family == Tet && tbl.nsym == 12) &&
      (sym[0] != 'c' && sym[0] != 'd' && !StartsWith(sym, "oct") && !StartsWith(sym, "tet") ==>
         tbl.family == Icos && tbl.nsym == 60)
  {
    if |sym| >= 1 && sym[0] != 'c' && sym[0] != 'd' {
      if StartsWith(sym, "oct") {
        assert InitSymmetry(t, sym) == Ok(OctTable(t, sym));
      } else if StartsWith(sym, "tet") {
        assert InitSymmetry(t, sym) == Ok(TetTable(t, sym));
      } else if StartsWith(sym, "icos") {
        assert InitSymmetry(t, sym) == Ok(IcosTable(t, sym));
      }
    }
  }

  /** The cn operators are n rotations about z, from the identity up in steps of 360/n,
      all of them below a full turn, so no two coincide. */
  lemma CnRotationsSpaced(n: nat)
    requires n >= 1
    ensures var ops := CnRotations(n);
      ops[0] == Euler(0.0, 0.0, 0.0) &&
      (forall i :: 0 <= i < n ==> ops[i].phi == 0.0 && ops[i].theta == 0.0 && 0.0 <= ops[i].psi < 360.0) &&
      (forall i :: 0 < i < n ==> ops[i].psi - ops[i - 1].psi == 360.0 / n as real)
  {
    var ops := CnRotations(n);
    var step := 360.0 / n as real;
    DivTimes(360.0, n as real);
    forall i | 0 <= i < n
      ensures ops[i].phi == 0.0 && ops[i].theta == 0.0 && 0.0 <= ops[i].psi < 360.0
    {
      assert ops[i] == Euler(0.0, 0.0, i as real * step);
      MulLess(i as real, n as real, step);
    }
    forall i | 0 < i < n
      ensures ops[i].psi - ops[i - 1].psi == step
    {
      assert ops[i].psi == i as real * step && ops[i - 1].psi == (i - 1) as real * step;
      StepDiff(i as real, step);
    }
  }
  lemma DivTimes(a: real, b: real)
    requires b > 0.0
    ensures (a / b) * b == a
  {
  }
  lemma StepDiff(x: real, s: real)
    ensures x * s - (x - 1.0) * s == s
  {
  }
  lemma MulLess(a: real, b: real, c: real)
    requires 0.0 <= a < b && c > 0.0
    ensures 0.0 <= a * c < b * c
  {
  }

  /** The dn table: n rotations about z by 720/nsym steps, then n flips (theta = 180), the
      flip psi angles counting down. */
  lemma DnOperators(sym: string, n: int, i: nat)
    requires |sym| >= 1 && sym[0] == 'd' && n >= 1 && i < n
    ensures var ops := DnTable(sym, n).symangles;
      ops[i] == Euler(0.0, 0.0, 2.0 * i as real * (360.0 / (2 * n) as real)) &&
      ops[2 * n - 1 - i] == Euler(0.0, 180.0, FlipPsi(n, i))
  {
    var ops := DnTable(sym, n).symangles;
    assert ops[2 * n - 1 - i] == DnFlips(n)[n - 1 - i];
  }

  /** `symmetry_neighbors`: the operator indices adjacent to the identity, per family.
      Platonic tags are compared exactly, so e.g. "octa" leaves the list undefined. */
  function Neighbors(tbl: SymTable): (r: Option<seq<int>>)
    requires WellFormed(tbl)
  {
    match tbl.family
    case Cn =>
      if tbl.order > 2 then Some([0, 1, -1])
      else if tbl.order == 2 then Some([0, 1])
      else Some([0])
    case Dn =>
      var n, half := tbl.order, tbl.nsym / 2;
      if n >= 3 && n % 2 != 0 then Some([0, 1, half - 1, half, -2, -1])
      else if n >= 3 && n % 2 == 0 then
        var offset := FloorDiv(half - 4, 2);
        Some([0, 1, half - 1, half + offset + 1, half + offset + 2, half + offset + 3])
      else if n == 2 then Some([0, 1, 2])
      else Some([0, 1])
    case _ =>
      if tbl.sym == "oct" then Some([0, 1, 2, 3, 8, 9, 12, 13])
      else if tbl.sym == "tet" then Some([0, 1, 2, 3, 4, 6, 7])
      else if tbl.sym == "icos" then Some([0, 1, 2, 3, 4, 6, 7, 11, 12])
      else None
  }

  /** Every neighbour index is a valid Python index into `symatrix`: -nsym <= k < nsym. */
  lemma NeighborsValid(tbl: SymTable)
    requires WellFormed(tbl)
    ensures tbl.family == Cn || tbl.family == Dn ==> Neighbors(tbl).Some?
    ensures Neighbors(tbl).Some? ==>
      forall k :: 0 <= k < |Neighbors(tbl).value| ==>
        -(tbl.nsym as int) <= Neighbors(tbl).value[k] < tbl.nsym
  {
    var n := tbl.order;
    if tbl.family == Cn {
      assert n > 2 ==> Neighbors(tbl).value == [0, 1, -1];
    } else if tbl.family == Dn {
      assert tbl.nsym / 2 == n;
      if n >= 3 && n % 2 == 0 {
        var offset := FloorDiv(n - 4, 2);
        assert 0 <= offset <= n - 4;
        assert Neighbors(tbl).value == [0, 1, n - 1, n + offset + 1, n + offset + 2, n + offset + 3];
      } else if n >= 3 {
        assert Neighbors(tbl).value == [0, 1, n - 1, n, -2, -1];
      } else if n == 2 {
        assert Neighbors(tbl).value == [0, 1, 2];
      } else {
        assert Neighbors(tbl).value == [0, 1];
      }
    } else if tbl.family == Tet {
      assert tbl.sym[..3] == "tet";
      assert tbl.sym[0] == tbl.sym[..3][0] == 't';
    } else if tbl.family == Icos {
      assert tbl.sym[..4] == "icos";
      assert tbl.sym[0] == tbl.sym[..4][0] == 'i';
    }
    if Neighbors(tbl).Some? {
      var l := Neighbors(tbl).value;
      forall k | 0 <= k < |l|
        ensures -(tbl.nsym as int) <= l[k] < tbl.nsym
      {
      }
    }
  }

  /** `symatrix[neighbors]`: the selected operator matrices. */
  function SelectOperators(ops: seq<Mat>, idx: seq<int>): (r: Result<seq<Mat>>)
    requires AllMat3(ops)
    ensures r.Ok? <==> forall k :: 0 <= k < |idx| ==> -(|ops| as int) <= idx[k] < |ops|
    ensures r.Ok? ==> (|r.value| == |idx| && AllMat3(r.value) &&
      forall k :: 0 <= k < |idx| ==> r.value[k] == ops[PyIndex(idx[k], |ops|)])
  {
    if forall k :: 0 <= k < |idx| ==> -(|ops| as int) <= idx[k] < |ops| then
      Ok(seq(|idx|, k requires 0 <= k < |idx| => ops[PyIndex(idx[k], |ops|)]))
    else Err("IndexError")
  }
}
