// `symmetry_related` (orbit expansion with optional mirrors and de-duplication) and
// `reduce_anglesets` (mapping directions into the first asymmetric subunit).
module SymRelated {
  import opened Wrappers
  import opened PyNum
  import opened TrigLib
  import opened Rotation
  import opened Symmetry
  import opened Subunit

  /** One special direction of the family: phi (None for numpy's nan), theta, psi and the
      phi offset the comparisons subtract. */
  datatype InsideValue = InsideValue(phi: Option<real>, theta: real, psi: real, offset: real)

  /** The family's table of special directions; an empty table when uniqueness is not asked
      for, and NameError for a platonic tag that is not exactly "tet", "oct" or "icos". */
  function InsideValues(tbl: SymTable, returnUnique: bool): (r: Result<seq<InsideValue>>)
    requires WellFormed(tbl)
    ensures !returnUnique ==> r == Ok([])
    ensures returnUnique ==>
      (r.Ok? <==> tbl.sym[0] == 'c' || tbl.sym[0] == 'd' || tbl.sym in {"tet", "oct", "icos"})
    ensures returnUnique && r.Ok? ==>
      |r.value| == (if tbl.sym[0] == 'c' then 2 else if tbl.sym[0] == 'd' then 5
                    else if tbl.sym == "tet" then 6 else if tbl.sym == "oct" then 8 else 13)
  {
    var b := tbl.brackets[0];
    if !returnUnique then Ok([])
    else if tbl.sym[0] == 'c' then
      Ok([InsideValue(Some(b[0]), 0.0, 360.0, 0.0), InsideValue(Some(b[0]), 180.0, 360.0, 0.0)])
    else if tbl.sym[0] == 'd' then
      Ok([InsideValue(Some(b[0]), 0.0, 360.0, 0.0), InsideValue(Some(b[0]), 180.0, 360.0, 0.0),
          InsideValue(Some(b[0]), 0.0, 360.0, b[0]), InsideValue(Some(b[0]), 180.0, 360.0, b[0]),
          InsideValue(None, 90.0, 180.0, 0.0)])
    else if tbl.sym == "tet" then
      Ok([InsideValue(Some(b[0]), b[1], 180.0, 0.0), InsideValue(Some(b[0]), 180.0 - b[1], 180.0, 60.0),
          InsideValue(Some(b[0]), 0.0, b[0], 0.0), InsideValue(Some(b[0]), 180.0 - b[3], b[0], 0.0),
          InsideValue(Some(b[0]), 180.0, b[0], 0.0), InsideValue(Some(b[0]), b[3], b[0], 60.0)])
    else if tbl.sym == "oct" then
      Ok([InsideValue(Some(b[2]), 180.0, b[2], 0.0), InsideValue(Some(b[2]), 0.0, b[2], 0.0),
          InsideValue(Some(b[2]), 2.0 * b[1], b[2], 0.0), InsideValue(Some(b[2]), 2.0 * b[1], 180.0, 45.0),
          InsideValue(Some(b[2]), 3.0 * b[1], 180.0, 0.0), InsideValue(Some(b[2]), b[1], 180.0, 0.0),
          InsideValue(Some(b[2]), b[3], 120.0, 45.0), InsideValue(Some(b[2]), 180.0 - b[3], 120.0, 45.0)])
    else if tbl.sym == "icos" then
      Ok([InsideValue(Some(b[2]), 180.0, b[2], 0.0), InsideValue(Some(b[2]), 0.0, b[2], 0.0),
          InsideValue(Some(b[2]), 2.0 * b[1], b[2], 0.0), InsideValue(Some(b[2]), 180.0 - 2.0 * b[1], b[2], b[0]),
          InsideValue(Some(b[2]), b[3], 60.0, b[0]), InsideValue(Some(b[2]), b[3] + 2.0 * b[1], 120.0, 0.0),
          InsideValue(Some(b[2]), 180.0 - b[3] - 2.0 * b[1], 120.0, b[0]),
          InsideValue(Some(b[2]), 180.0 - b[3], 120.0, 0.0), InsideValue(Some(b[2]), b[1], 180.0, 0.0),
          InsideValue(Some(b[2]), 90.0 - b[1], 180.0, b[0]), InsideValue(Some(b[0]), 90.0, 180.0, b[0] / 2.0),
          InsideValue(Some(b[2]), 180.0 - b[1], 180.0, b[0]), InsideValue(Some(b[2]), 90.0 + b[1], 180.0, 0.0)])
    else Err("NameError")
  }

  /** `return_mirror` 0 and 1 give one pass over nsym = n rows per input; any other value
      gives a plain and a mirrored pass over 2n rows. */
  predicate SinglePass(returnMirror: int)
  {
    returnMirror == 0 || returnMirror == 1
  }

  /** The mask of the plain pass for `return_mirror` = 2: `mask[i::2n] = True` for i < n.
      The first n rows of each input's block are plain, the next n mirrored. */
  method PlainMask(n: nat, total: nat) returns (mask: array<bool>)
    requires n >= 1
    ensures fresh(mask) && mask.Length == total
    ensures forall q :: 0 <= q < total ==> (mask[q] <==> q % (2 * n) < n)
  {
    var m := 2 * n;
    mask := new bool[total](q => false);
    var i := 0;
    while i < n
      invariant 0 <= i <= n
      invariant forall q :: 0 <= q < total ==> (mask[q] <==> q % m < i)
    {
      MarkStride(mask, i, m);
      i := i + 1;
    }
  }

  /** `mask[i::m] = True`. */
  method MarkStride(mask: array<bool>, i: nat, m: nat)
    requires i < m
    requires forall q :: 0 <= q < mask.Length ==> (mask[q] <==> q % m < i)
    modifies mask
    ensures forall q :: 0 <= q < mask.Length ==> (mask[q] <==> q % m < i + 1)
  {
    var j := i;
    DivModUnique(i, m, 0, i);
    while j < mask.Length
      invariant i <= j && j % m == i
      invariant forall q :: 0 <= q < mask.Length ==> (mask[q] <==> q % m < i || (q % m == i && q < j))
    {
      mask[j] := true;
      forall q | j < q && q % m == i
        ensures q >= j + m
      {
        SameResidue(q, j, m);
      }
      ModStep(j, m);
      j := j + m;
    }
  }

  lemma ModStep(j: nat, m: nat)
    requires m >= 1
    ensures (j + m) % m == j % m
  {
    DivModUnique(j + m, m, j / m + 1, j % m);
  }

  /** Two numbers with the same remainder are a whole stride apart. */
  lemma SameResidue(q: nat, j: nat, m: nat)
    requires m >= 1 && j < q && q % m == j % m
    ensures q >= j + m
  {
    var a, b := q / m, j / m;
    assert q == a * m + q % m && j == b * m + j % m;
    assert (a - b) * m == q - j;
    if a - b >= 1 {
      MulAtLeast(a - b, m);
    } else {
      MulNonPositive(a - b, m);
    }
  }

  lemma MulNonPositive(a: int, n: nat)
    requires a <= 0
    ensures a * n <= 0
  {
  }

  /** The orbit computation's inputs, after the operator list has been selected. */
  datatype Orbit = Orbit(t: Trig, tbl: SymTable, returnMirror: int, ops: seq<Mat>,
                         inside: seq<InsideValue>, angles: seq<Euler>)

  predicate Ready(o: Orbit)
  {
    WellFormed(o.tbl) && |o.ops| >= 1 && AllMat3(o.ops) && |o.angles| >= 1
  }

  /** Rows per input direction. */
  function Block(o: Orbit): (n: nat)
    requires Ready(o)
    ensures n >= 1
  {
    if SinglePass(o.returnMirror) then |o.ops| else 2 * |o.ops|
  }

  function Total(o: Orbit): nat
    requires Ready(o)
  {
    |o.angles| * Block(o)
  }

  lemma RowIndex(q: nat, k: nat, n: nat)
    requires n >= 1 && q < k * n
    ensures q / n < k && q % n < n && (q / n) * n <= q
  {
    assert q == (q / n) * n + q % n;
    if q / n >= k {
      MulMonotone(q / n, k, n);
    }
  }

  lemma MulMonotone(a: int, b: int, n: nat)
    requires a >= b
    ensures a * n >= b * n
  {
    if a > b {
      MulAtLeast(a - b, n + 1);
      assert (a - b) * n >= 0;
    }
  }

  /** Row q repeats input q / nsym (numpy's `repeat` along axis 0). */
  function Raw(o: Orbit, q: nat): Euler
    requires Ready(o) && q < Total(o)
  {
    RowIndex(q, |o.angles|, Block(o));
    o.angles[q / Block(o)]
  }

  /** Whether row q belongs to the mirrored pass. */
  predicate Mirrored(o: Orbit, q: nat)
    requires Ready(o)
  {
    o.returnMirror == 1 || (!SinglePass(o.returnMirror) && q % Block(o) >= |o.ops|)
  }

  predicate AtPole(e: Euler)
  {
    e.theta == 0.0 || e.theta == 180.0
  }

  /** Whether row q is transformed at all: in the two-pass case, mirrored rows of a pole
      input are dropped for dn, and of a north-pole input for icos. */
  predicate Active(o: Orbit, q: nat)
    requires Ready(o) && q < Total(o)
  {
    var raw := Raw(o, q);
    SinglePass(o.returnMirror) || !Mirrored(o, q) ||
    (!(o.tbl.sym[0] == 'd' && AtPole(raw)) && !(o.tbl.sym[0] == 'i' && raw.theta == 0.0))
  }

  /** The operator applied to row q: operator q mod n, negated in the mirrored pass. */
  function Operator(o: Orbit, q: nat): (m: Mat)
    requires Ready(o)
    ensures IsMat3(m)
  {
    var s := q % Block(o);
    var k := if s < |o.ops| then s else s - |o.ops|;
    Scale(if Mirrored(o, q) then -1.0 else 1.0, o.ops[k])
  }

  /** The transformed row: `recmat(rotmatrix(raw) @ (mult * op))`, with psi turned by 180
      for mirrored off-pole rows outside cn in the two-pass case. */
  function Transformed(o: Orbit, q: nat): (e: Euler)
    requires Ready(o) && q < Total(o)
    ensures 0.0 <= e.phi < 360.0 && 0.0 <= e.theta < 360.0 && 0.0 <= e.psi < 360.0
  {
    var e := RecMat(o.t, MatProduct(RotMatrix(o.t, Raw(o, q)), Operator(o, q)));
    if !SinglePass(o.returnMirror) && Mirrored(o, q) && o.tbl.sym[0] != 'c' && !AtPole(e)
    then e.(psi := RealMod(e.psi + 180.0, 360.0))
    else e
  }

  /** The row after both passes: transformed where active, the raw input otherwise. */
  function Row(o: Orbit, q: nat): Euler
    requires Ready(o) && q < Total(o)
  {
    if Active(o, q) then Transformed(o, q) else Raw(o, q)
  }

  /** numpy's `0 == round(x, 12) % p`: false for p == 0 (nan). */
  predicate IsMultiple(x: real, p: real)
  {
    p != 0.0 && PyRealMod(x, p) == 0.0
  }

  /** A row matches a special direction and is kept (`masks_good`). */
  predicate Good(v: InsideValue, e: Euler)
  {
    var pole := AtPole(e);
    var phiGood := match v.phi
      case None => true
      case Some(p) =>
        if pole then Round(e.phi - v.offset, 6) < Round(p, 6)
        else IsMultiple(Round(e.phi - v.offset, 12), Round(p, 12));
    phiGood && Round(e.theta, 12) == Round(v.theta, 12) && Round(e.psi, 12) < Round(v.psi, 12)
  }

  /** A row matches a special direction and is dropped (`masks_bad`). */
  predicate Bad(v: InsideValue, e: Euler)
  {
    var pole := AtPole(e);
    var phiBad := match v.phi
      case None => true
      case Some(p) =>
        if pole then Round(e.phi - v.offset, 12) >= Round(p, 12)
        else IsMultiple(Round(e.phi - v.offset, 12), Round(p, 12));
    var psiBad := if pole then Round(e.psi, 12) < Round(v.psi, 12) else Round(e.psi, 12) >= Round(v.psi, 12);
    phiBad && Round(e.theta, 12) == Round(v.theta, 12) && psiBad
  }

  /** `maski`: a row is kept unless it is bad for some special direction and good for none. */
  predicate Kept(o: Orbit, q: nat)
    requires Ready(o) && q < Total(o)
  {
    var e := Transformed(o, q);
    Active(o, q) &&
    ((exists k :: 0 <= k < |o.inside| && Good(o.inside[k], e)) ||
     !(exists k :: 0 <= k < |o.inside| && Bad(o.inside[k], e)))
  }

  /** The (phi, theta) pair `numpy.unique` compares, psi having been zeroed. */
  function Key(o: Orbit, q: nat): (real, real)
    requires Ready(o) && q < Total(o)
  {
    (Row(o, q).phi, Row(o, q).theta)
  }

  function BlockStart(o: Orbit, q: nat): (s: nat)
    requires Ready(o) && q < Total(o)
    ensures s <= q && q - s < Block(o)
  {
    RowIndex(q, |o.angles|, Block(o));
    (q / Block(o)) * Block(o)
  }

  /** `semi_final_mask`: in the two-pass case only the first row of each (phi, theta) pair
      within an input's block survives; in the one-pass case every row does. */
  predicate FirstOfKey(o: Orbit, q: nat)
    requires Ready(o) && q < Total(o)
  {
    SinglePass(o.returnMirror) ||
    forall q' :: BlockStart(o, q) <= q' < q ==> Key(o, q') != Key(o, q)
  }

  /** `sang_new %= 360`. */
  function Mod360(e: Euler): (r: Euler)
    ensures 0.0 <= r.phi < 360.0 && 0.0 <= r.theta < 360.0 && 0.0 <= r.psi < 360.0
  {
    Euler(RealMod(e.phi, 360.0), RealMod(e.theta, 360.0), RealMod(e.psi, 360.0))
  }

  /** Row q survives both masks. */
  predicate Survives(o: Orbit, q: nat)
    requires Ready(o) && q < Total(o)
  {
    Kept(o, q) && FirstOfKey(o, q)
  }

  /** Row q as it is returned. */
  function OutRow(o: Orbit, q: nat): (e: Euler)
    requires Ready(o) && q < Total(o)
    ensures 0.0 <= e.phi < 360.0 && 0.0 <= e.theta < 360.0 && 0.0 <= e.psi < 360.0
  {
    Mod360(Row(o, q))
  }

  /** All rows as returned, and which of them survive. */
  function Rows(o: Orbit): (rs: seq<Euler>)
    requires Ready(o)
    ensures |rs| == Total(o) && forall q :: 0 <= q < Total(o) ==> rs[q] == OutRow(o, q)
  {
    seq(Total(o), q requires 0 <= q < Total(o) => OutRow(o, q))
  }

  function Keep(o: Orbit): (ks: seq<bool>)
    requires Ready(o)
    ensures |ks| == Total(o) && forall q :: 0 <= q < Total(o) ==> ks[q] == Survives(o, q)
  {
    seq(Total(o), q requires 0 <= q < Total(o) => Survives(o, q))
  }

  /** numpy's boolean indexing `xs[keep]`: the entries whose flag is set, in order. */
  function Select<T>(xs: seq<T>, keep: seq<bool>): (r: seq<T>)
    requires |xs| == |keep|
    ensures |r| <= |xs|
  {
    if |xs| == 0 then []
    else Select(xs[..|xs| - 1], keep[..|xs| - 1]) + (if keep[|xs| - 1] then [xs[|xs| - 1]] else [])
  }

  /** Boolean indexing keeps exactly the flagged entries. */
  lemma {:induction false} SelectMembers<T>(xs: seq<T>, keep: seq<bool>, x: T)
    requires |xs| == |keep|
    ensures x in Select(xs, keep) <==> exists q :: 0 <= q < |xs| && keep[q] && xs[q] == x
  {
    if |xs| > 0 {
      var n := |xs| - 1;
      SelectMembers(xs[..n], keep[..n], x);
      if exists q :: 0 <= q < |xs| && keep[q] && xs[q] == x {
        var q :| 0 <= q < |xs| && keep[q] && xs[q] == x;
        if q < n {
          assert keep[..n][q] && xs[..n][q] == x;
        }
      }
      if x in Select(xs[..n], keep[..n]) {
        var q :| 0 <= q < n && keep[..n][q] && xs[..n][q] == x;
        assert keep[q] && xs[q] == x;
      }
    }
  }

  /** With every flag set, boolean indexing is the identity. */
  lemma {:induction false} SelectAll<T>(xs: seq<T>, keep: seq<bool>)
    requires |xs| == |keep| && forall q :: 0 <= q < |keep| ==> keep[q]
    ensures Select(xs, keep) == xs
  {
    if |xs| > 0 {
      var n := |xs| - 1;
      SelectAll(xs[..n], keep[..n]);
      assert xs[..n] + [xs[n]] == xs;
    }
  }

  /** The entries of a selection are entries of the source. */
  lemma {:induction false} SelectSubset<T>(xs: seq<T>, keep: seq<bool>)
    requires |xs| == |keep|
    ensures forall x :: x in Select(xs, keep) ==> x in xs
  {
    forall x | x in Select(xs, keep)
      ensures x in xs
    {
      SelectMembers(xs, keep, x);
    }
  }

  /** `symmetry_related`: the orbit of every input direction under the (selected) operators,
      with mirrors for `return_mirror` 1 or >= 2, reduced to unique representatives when
      asked. Errors follow the order in which the source raises them. */
  function SymmetryRelated(t: Trig, tbl: SymTable, symatrix: seq<Mat>, angles: seq<Euler>,
                           returnMirror: int, neighbors: Option<seq<int>>, returnUnique: bool): (r: Result<seq<Euler>>)
    requires WellFormed(tbl) && AllMat3(symatrix)
    ensures r.Ok? ==> forall i :: 0 <= i < |r.value| ==>
      0.0 <= r.value[i].phi < 360.0 && 0.0 <= r.value[i].theta < 360.0 && 0.0 <= r.value[i].psi < 360.0
  {
    var ops := if neighbors.None? then Ok(symatrix) else SelectOperators(symatrix, neighbors.value);
    if ops.Err? then Err(ops.error)
    else
      var inside := InsideValues(tbl, returnUnique);
      if inside.Err? then Err(inside.error)
      else if |angles| == 0 then Err("IndexError")
      else if |ops.value| == 0 then Err("ZeroDivisionError")
      else
        var o := Orbit(t, tbl, returnMirror, ops.value, inside.value, angles);
        Ok(Output(o))
  }

  /** The rows of one input direction all share their block's start. */
  lemma SameBlock(o: Orbit, q: nat, q': nat)
    requires Ready(o) && q < Total(o) && BlockStart(o, q) <= q' <= q
    ensures BlockStart(o, q') == BlockStart(o, q)
  {
    var n := Block(o);
    RowIndex(q, |o.angles|, n);
    DivModUnique(q', n, q / n, q' - (q / n) * n);
  }

  /** De-duplication loses no (phi, theta) pair: every row of a block shares its pair with a
      surviving row of the same block at or before it. */
  lemma {:induction false} FirstOfKeyCovers(o: Orbit, q: nat)
    requires Ready(o) && q < Total(o)
    ensures exists q' :: BlockStart(o, q) <= q' <= q && FirstOfKey(o, q') && Key(o, q') == Key(o, q)
    decreases q - BlockStart(o, q)
  {
    if !FirstOfKey(o, q) {
      var q'' :| BlockStart(o, q) <= q'' < q && Key(o, q'') == Key(o, q);
      SameBlock(o, q, q'');
      FirstOfKeyCovers(o, q'');
      var q' :| BlockStart(o, q'') <= q' <= q'' && FirstOfKey(o, q') && Key(o, q') == Key(o, q'');
      assert BlockStart(o, q) <= q' <= q;
    }
  }

  /** A direction is returned exactly when some surviving row yields it. */
  lemma OutputMembers(o: Orbit, x: Euler)
    requires Ready(o)
    ensures x in Output(o) <==> exists q :: 0 <= q < Total(o) && Survives(o, q) && OutRow(o, q) == x
  {
    SelectMembers(Rows(o), Keep(o), x);
  }

  /** Every returned angle lies in [0, 360). */
  lemma OutputInRange(o: Orbit)
    requires Ready(o)
    ensures forall x :: x in Select(Rows(o), Keep(o)) ==> 0.0 <= x.phi < 360.0 && 0.0 <= x.theta < 360.0 && 0.0 <= x.psi < 360.0
  {
    var r := Select(Rows(o), Keep(o));
    forall x | x in r
      ensures 0.0 <= x.phi < 360.0 && 0.0 <= x.theta < 360.0 && 0.0 <= x.psi < 360.0
    {
      SelectMembers(Rows(o), Keep(o), x);
      var q :| 0 <= q < Total(o) && Keep(o)[q] && Rows(o)[q] == x;
      assert x == OutRow(o, q);
    }
  }

  /** The returned directions: the surviving rows, in row order. */
  function Output(o: Orbit): (r: seq<Euler>)
    requires Ready(o)
    ensures forall i :: 0 <= i < |r| ==> 0.0 <= r[i].phi < 360.0 && 0.0 <= r[i].theta < 360.0 && 0.0 <= r[i].psi < 360.0
  {
    var r := Select(Rows(o), Keep(o));
    OutputInRange(o);
    assert forall i :: 0 <= i < |r| ==> r[i] in r;
    r
  }

  /** The full orbit, stated on `symmetry_related` itself. */
  lemma FullOrbit(t: Trig, tbl: SymTable, symatrix: seq<Mat>, angles: seq<Euler>, returnMirror: int)
    requires WellFormed(tbl) && AllMat3(symatrix) && |symatrix| >= 1 && |angles| >= 1
    requires SinglePass(returnMirror)
    ensures var r := SymmetryRelated(t, tbl, symatrix, angles, returnMirror, None, false);
      var o := Orbit(t, tbl, returnMirror, symatrix, [], angles);
      r.Ok? && |r.value| == |angles| * |symatrix| &&
      forall q :: 0 <= q < |r.value| ==> r.value[q] == Mod360(Transformed(o, q))
  {
    var o := Orbit(t, tbl, returnMirror, symatrix, [], angles);
    forall q | 0 <= q < Total(o)
      ensures Survives(o, q)
    {
    }
    SelectAll(Rows(o), Keep(o));
  }

  /** Keep the directions inside the first asymmetric subunit, in order. */
  function FilterSubunit(t: Trig, tbl: SymTable, es: seq<Euler>, incMirror: bool): (r: seq<Euler>)
    requires WellFormed(tbl)
    ensures |r| <= |es|
    ensures forall i :: 0 <= i < |r| ==> r[i] in es && InSubunit(t, tbl, r[i].phi, r[i].theta, incMirror)
    ensures forall i :: 0 <= i < |es| && InSubunit(t, tbl, es[i].phi, es[i].theta, incMirror) ==> es[i] in r
    ensures |r| > 0 ==> FirstInside(t, tbl, es, r[0], incMirror)
  {
    if |es| == 0 then []
    else
      var rest := FilterSubunit(t, tbl, es[1..], incMirror);
      assert forall i :: 1 <= i < |es| ==> es[i] == es[1..][i - 1];
      if InSubunit(t, tbl, es[0].phi, es[0].theta, incMirror) then
        assert NoneInsideBefore(t, tbl, es, 0, incMirror);
        [es[0]] + rest
      else
        if |rest| > 0 then FirstInsideSkip(t, tbl, es, rest[0], incMirror); rest else rest
  }

  /** A direction outside the subunit in front does not change which one comes first inside. */
  lemma FirstInsideSkip(t: Trig, tbl: SymTable, es: seq<Euler>, e: Euler, incMirror: bool)
    requires WellFormed(tbl) && |es| > 0 && !InSubunit(t, tbl, es[0].phi, es[0].theta, incMirror)
    requires FirstInside(t, tbl, es[1..], e, incMirror)
    ensures FirstInside(t, tbl, es, e, incMirror)
  {
    var k' :| 0 <= k' < |es[1..]| && es[1..][k'] == e && NoneInsideBefore(t, tbl, es[1..], k', incMirror);
    assert es[k' + 1] == e;
    forall j | 0 <= j < k' + 1
      ensures !InSubunit(t, tbl, es[j].phi, es[j].theta, incMirror)
    {
      if j > 0 {
        assert es[j] == es[1..][j - 1];
      }
    }
    assert NoneInsideBefore(t, tbl, es, k' + 1, incMirror);
  }

  /** No direction before position k of es lies inside the subunit. */
  predicate NoneInsideBefore(t: Trig, tbl: SymTable, es: seq<Euler>, k: nat, incMirror: bool)
    requires WellFormed(tbl) && k <= |es|
  {
    forall j :: 0 <= j < k ==> !InSubunit(t, tbl, es[j].phi, es[j].theta, incMirror)
  }

  /** e sits in es after directions that all lie outside the subunit. */
  predicate FirstInside(t: Trig, tbl: SymTable, es: seq<Euler>, e: Euler, incMirror: bool)
    requires WellFormed(tbl)
  {
    exists k :: 0 <= k < |es| && es[k] == e && NoneInsideBefore(t, tbl, es, k, incMirror)
  }

  /** `reduce_anglesets`: the unique symmetry mates (with mirrors unless they count as
      unique) that fall inside the first asymmetric subunit. */
  function ReduceAnglesets(t: Trig, tbl: SymTable, symatrix: seq<Mat>, angles: seq<Euler>, incMirror: bool): (r: Result<seq<Euler>>)
    requires WellFormed(tbl) && AllMat3(symatrix)
    ensures r.Ok? <==> SymmetryRelated(t, tbl, symatrix, angles, if incMirror then 0 else 2, None, true).Ok?
    ensures r.Ok? ==>
      var mates := SymmetryRelated(t, tbl, symatrix, angles, if incMirror then 0 else 2, None, true).value;
      (forall i :: 0 <= i < |r.value| ==>
         r.value[i] in mates && InSubunit(t, tbl, r.value[i].phi, r.value[i].theta, incMirror)) &&
      (forall i :: 0 <= i < |mates| && InSubunit(t, tbl, mates[i].phi, mates[i].theta, incMirror) ==>
         mates[i] in r.value)
  {
    var related := SymmetryRelated(t, tbl, symatrix, angles, if incMirror then 0 else 2, None, true);
    if related.Err? then Err(related.error)
    else Ok(FilterSubunit(t, tbl, related.value, incMirror))
  }

  /**
   * `reduce_anglesets` of one triplet, which returns `reduced_anglesets[0]`: the first
   * symmetry mate inside the subunit, or IndexError when none of them is.
   */
  function ReduceSingle(t: Trig, tbl: SymTable, symatrix: seq<Mat>, angle: Euler, incMirror: bool): (r: Result<Euler>)
    requires WellFormed(tbl) && AllMat3(symatrix)
    ensures var related := SymmetryRelated(t, tbl, symatrix, [angle], if incMirror then 0 else 2, None, true);
      (related.Err? ==> r == Err(related.error)) &&
      (related.Ok? ==>
         var mates := related.value;
         (r.Err? <==> forall i :: 0 <= i < |mates| ==> !InSubunit(t, tbl, mates[i].phi, mates[i].theta, incMirror)) &&
         (r.Err? ==> r.error == "IndexError") &&
         (r.Ok? ==>
            InSubunit(t, tbl, r.value.phi, r.value.theta, incMirror) && FirstInside(t, tbl, mates, r.value, incMirror)))
  {
    var reduced := ReduceAnglesets(t, tbl, symatrix, [angle], incMirror);
    if reduced.Err? then Err(reduced.error)
    else if |reduced.value| == 0 then Err("IndexError")
    else Ok(reduced.value[0])
  }
}
