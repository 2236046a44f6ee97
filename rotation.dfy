// Euler angles (SPIDER convention, degrees) and 3x3 rotation matrices:
// `rotmatrix`, `mulmat`, `recmat` and `rotate_params` of symclass.
module Rotation {
  import opened PyNum
  import opened TrigLib

  /** One orientation (phi, theta, psi), in degrees. */
  datatype Euler = Euler(phi: real, theta: real, psi: real)

  /** A matrix as a sequence of rows, read m[i][j] as numpy's m[i, j]. */
  type Mat = seq<seq<real>>

  predicate IsMat3(m: Mat)
  {
    |m| == 3 && forall i :: 0 <= i < 3 ==> |m[i]| == 3
  }

  predicate AllMat3(ms: seq<Mat>)
  {
    forall b :: 0 <= b < |ms| ==> IsMat3(ms[b])
  }

  /** Entry (i, j) of the rotation matrix of `a`, as `rotmatrix` writes it. */
  function Entry(t: Trig, a: Euler, i: nat, j: nat): real
    requires i < 3 && j < 3
  {
    var cf, sf := t.cos(a.phi), t.sin(a.phi);
    var ct, st := t.cos(a.theta), t.sin(a.theta);
    var cp, sp := t.cos(a.psi), t.sin(a.psi);
    if i == 0 && j == 0 then cp * ct * cf - sp * sf
    else if i == 1 && j == 0 then -sp * ct * cf - cp * sf
    else if i == 2 && j == 0 then st * cf
    else if i == 0 && j == 1 then cp * ct * sf + sp * cf
    else if i == 1 && j == 1 then -sp * ct * sf + cp * cf
    else if i == 2 && j == 1 then st * sf
    else if i == 0 && j == 2 then -cp * st
    else if i == 1 && j == 2 then sp * st
    else ct
  }

  /** The rotation matrix of one orientation. */
  function RotMatrix(t: Trig, a: Euler): (m: Mat)
    ensures IsMat3(m)
  {
    seq(3, i requires 0 <= i < 3 => seq(3, j requires 0 <= j < 3 => Entry(t, a, i, j)))
  }

  /** Directions on the z axis: the third row and column reduce to (0, 0, cos theta). */
  lemma RotMatrixPole(t: Trig, a: Euler)
    requires t.sin(a.theta) == 0.0
    ensures var m := RotMatrix(t, a);
      m[2][0] == 0.0 && m[2][1] == 0.0 && m[0][2] == 0.0 && m[1][2] == 0.0 &&
      m[2][2] == t.cos(a.theta)
  {
  }

  /**
   * `rotmatrix` on a batch: a zeroed (n, 3, 3) array is filled one matrix entry at a
   * time, each assignment covering the whole batch.
   */
  method RotMatrixBatch(t: Trig, angles: seq<Euler>) returns (newmat: array3<real>)
    ensures fresh(newmat)
    ensures newmat.Length0 == |angles| && newmat.Length1 == 3 && newmat.Length2 == 3
    ensures forall b, i, j :: 0 <= b < |angles| && 0 <= i < 3 && 0 <= j < 3 ==>
              newmat[b, i, j] == RotMatrix(t, angles[b])[i][j]
  {
    newmat := new real[|angles|, 3, 3]((b, i, j) => 0.0);
    FillEntry(t, angles, newmat, 0, 0);
    FillEntry(t, angles, newmat, 1, 0);
    FillEntry(t, angles, newmat, 2, 0);
    FillEntry(t, angles, newmat, 0, 1);
    FillEntry(t, angles, newmat, 1, 1);
    FillEntry(t, angles, newmat, 2, 1);
    FillEntry(t, angles, newmat, 0, 2);
    FillEntry(t, angles, newmat, 1, 2);
    FillEntry(t, angles, newmat, 2, 2);
  }

  /** `newmat[:, i, j] = ...`: entry (i, j) of every matrix, nothing else. */
  method FillEntry(t: Trig, angles: seq<Euler>, newmat: array3<real>, i: nat, j: nat)
    requires i < 3 && j < 3
    requires newmat.Length0 == |angles| && newmat.Length1 == 3 && newmat.Length2 == 3
    modifies newmat
    ensures forall b :: 0 <= b < |angles| ==> newmat[b, i, j] == Entry(t, angles[b], i, j)
    ensures forall b, i', j' ::
              (0 <= b < |angles| && 0 <= i' < 3 && 0 <= j' < 3 && (i' != i || j' != j)) ==>
              newmat[b, i', j'] == old(newmat[b, i', j'])
  {
    var b := 0;
    while b < |angles|
      invariant 0 <= b <= |angles|
      invariant forall b' :: 0 <= b' < b ==> newmat[b', i, j] == Entry(t, angles[b'], i, j)
      invariant forall b', i', j' ::
                  (0 <= b' < |angles| && 0 <= i' < 3 && 0 <= j' < 3 && (i' != i || j' != j || b' >= b)) ==>
                  newmat[b', i', j'] == old(newmat[b', i', j'])
    {
      newmat[b, i, j] := Entry(t, angles[b], i, j);
      b := b + 1;
    }
  }

  /** Sum over k < n of a[i][k] * b[k][j]. */
  function SumK(a: Mat, b: Mat, i: nat, j: nat, n: nat): real
    requires IsMat3(a) && IsMat3(b) && i < 3 && j < 3 && n <= 3
  {
    if n == 0 then 0.0 else SumK(a, b, i, j, n - 1) + a[i][n - 1] * b[n - 1][j]
  }

  /** The matrix product of two 3x3 matrices. */
  function MatProduct(a: Mat, b: Mat): (c: Mat)
    requires IsMat3(a) && IsMat3(b)
    ensures IsMat3(c)
    ensures forall i, j :: 0 <= i < 3 && 0 <= j < 3 ==>
              c[i][j] == a[i][0] * b[0][j] + a[i][1] * b[1][j] + a[i][2] * b[2][j]
  {
    var c := seq(3, i requires 0 <= i < 3 => seq(3, j requires 0 <= j < 3 => SumK(a, b, i, j, 3)));
    forall i, j | 0 <= i < 3 && 0 <= j < 3
      ensures c[i][j] == a[i][0] * b[0][j] + a[i][1] * b[1][j] + a[i][2] * b[2][j]
    {
      assert SumK(a, b, i, j, 1) == a[i][0] * b[0][j];
      assert SumK(a, b, i, j, 2) == a[i][0] * b[0][j] + a[i][1] * b[1][j];
      assert c[i][j] == SumK(a, b, i, j, 2) + a[i][2] * b[2][j];
    }
    c
  }

  /** `mulmat` on batches: the b-th product pairs the b-th matrix of each batch. */
  function MulMat(m1: seq<Mat>, m2: seq<Mat>): (c: seq<Mat>)
    requires |m1| == |m2| && AllMat3(m1) && AllMat3(m2)
    ensures |c| == |m1| && AllMat3(c)
    ensures forall b, i, j :: 0 <= b < |c| && 0 <= i < 3 && 0 <= j < 3 ==>
              c[b][i][j] == m1[b][i][0] * m2[b][0][j] + m1[b][i][1] * m2[b][1][j] + m1[b][i][2] * m2[b][2][j]
  {
    seq(|m1|, b requires 0 <= b < |m1| => MatProduct(m1[b], m2[b]))
  }

  /** `mulmat` on two single matrices: the batch of one, unwrapped. */
  function MulMatSingle(m1: Mat, m2: Mat): (c: Mat)
    requires IsMat3(m1) && IsMat3(m2)
    ensures c == MatProduct(m1, m2)
  {
    MulMat([m1], [m2])[0]
  }

  function Identity(): (e: Mat)
    ensures IsMat3(e)
  {
    [[1.0, 0.0, 0.0], [0.0, 1.0, 0.0], [0.0, 0.0, 1.0]]
  }

  /** The identity is neutral on both sides of the product. */
  lemma ProductIdentity(a: Mat)
    requires IsMat3(a)
    ensures MatProduct(Identity(), a) == a
    ensures MatProduct(a, Identity()) == a
  {
    var l := MatProduct(Identity(), a);
    var r := MatProduct(a, Identity());
    forall i | 0 <= i < 3
      ensures l[i] == a[i]
    {
      assert l[i][0] == a[i][0] && l[i][1] == a[i][1] && l[i][2] == a[i][2];
    }
    forall i | 0 <= i < 3
      ensures r[i] == a[i]
    {
      assert r[i][0] == a[i][0] && r[i][1] == a[i][1] && r[i][2] == a[i][2];
    }
  }

  /** `numpy.tile(m, (k, 1, 1))`: the batch repeated k times. */
  function Tile(ms: seq<Mat>, k: nat): (r: seq<Mat>)
    ensures |r| == k * |ms|
    ensures forall q :: 0 <= q < |r| ==> r[q] == ms[q % |ms|]
  {
    if k == 0 then []
    else
      var rest := Tile(ms, k - 1);
      assert |rest + ms| == k * |ms|;
      forall q | 0 <= q < |rest + ms|
        ensures (rest + ms)[q] == ms[q % |ms|]
      {
        if q >= |rest| {
          assert q - |rest| == q % |ms| by {
            assert q == (k - 1) * |ms| + (q - |rest|);
            ModOfMultiple(k - 1, |ms|, q - |rest|);
          }
        }
      }
      rest + ms
  }

  function Scale(c: real, m: Mat): (r: Mat)
    requires IsMat3(m)
    ensures IsMat3(r) && forall i, j :: 0 <= i < 3 && 0 <= j < 3 ==> r[i][j] == c * m[i][j]
  {
    seq(3, i requires 0 <= i < 3 => seq(3, j requires 0 <= j < 3 => c * m[i][j]))
  }

  function Clip1(x: real): (y: real)
    ensures -1.0 <= y <= 1.0
    ensures -1.0 <= x <= 1.0 ==> y == x
  {
    if x > 1.0 then 1.0 else if x < -1.0 then -1.0 else x
  }

  /** `mat[mat > 1] = 1; mat[mat < -1] = -1`. */
  function Clip(m: Mat): (c: Mat)
    requires IsMat3(m)
    ensures IsMat3(c)
    ensures forall i, j :: 0 <= i < 3 && 0 <= j < 3 ==> c[i][j] == Clip1(m[i][j])
  {
    seq(3, i requires 0 <= i < 3 => seq(3, j requires 0 <= j < 3 => Clip1(m[i][j])))
  }

  lemma ClipIdempotent(m: Mat)
    requires IsMat3(m)
    ensures Clip(Clip(m)) == Clip(m)
  {
    var c := Clip(m);
    assert forall i :: 0 <= i < 3 ==> Clip(c)[i] == c[i];
  }

  /** The last step of `recmat`: round to 12 decimals, then `% 360`. */
  function Normalize(x: real): (y: real)
    ensures 0.0 <= y < 360.0
  {
    RealMod(Round(x, 12), 360.0)
  }

  lemma NormalizeWhole(n: int)
    requires 0 <= n < 360
    ensures Normalize(n as real) == n as real
  {
    RoundInt(n, 12);
    var r := RealMod(n as real, 360.0);
    var k: int :| n as real == 360.0 * k as real + r;
    assert k == 0;
  }

  /** `recmat` of one matrix, before normalisation: the pole and generic branches. */
  function RawAngles(t: Trig, c: Mat): Euler
    requires IsMat3(c)
  {
    var st := Sign(t.acos(c[2][2]));
    if c[2][2] == 1.0 then
      Euler(if c[0][0] == 0.0 then t.asin(c[0][1]) else t.atan2(c[0][1], c[0][0]), 0.0, 0.0)
    else if c[2][2] == -1.0 then
      Euler(if c[0][0] == 0.0 then t.asin(-c[0][1]) else t.atan2(-c[0][1], -c[0][0]), 180.0, 0.0)
    else
      var phi :=
        if c[2][0] == 0.0 then (if st != Sign(c[2][1]) then 270.0 else 90.0)
        else t.atan2(st * c[2][1], st * c[2][0]);
      var psi :=
        if c[0][2] == 0.0 then (if st != Sign(c[1][2]) then 270.0 else 90.0)
        else t.atan2(st * c[1][2], -st * c[0][2]);
      Euler(phi, t.acos(c[2][2]), psi)
  }

  /** `recmat`: Euler angles of a matrix after clipping its entries to [-1, 1]. */
  function RecMat(t: Trig, m: Mat): (e: Euler)
    requires IsMat3(m)
    ensures 0.0 <= e.phi < 360.0 && 0.0 <= e.theta < 360.0 && 0.0 <= e.psi < 360.0
    ensures m[2][2] >= 1.0 ==> e.theta == 0.0 && e.psi == 0.0
    ensures m[2][2] <= -1.0 ==> e.theta == 180.0 && e.psi == 0.0
    ensures -1.0 < m[2][2] < 1.0 ==> e.theta == Normalize(t.acos(m[2][2]))
  {
    var c := Clip(m);
    var raw := RawAngles(t, c);
    NormalizeWhole(0);
    NormalizeWhole(180);
    Euler(Normalize(raw.phi), Normalize(raw.theta), Normalize(raw.psi))
  }

  /** Clipping before `recmat` changes nothing: entries beyond [-1, 1] act as +-1. */
  lemma RecMatClip(t: Trig, m: Mat)
    requires IsMat3(m)
    ensures RecMat(t, Clip(m)) == RecMat(t, m)
  {
    ClipIdempotent(m);
  }

  /** With an exact sine and cosine, a direction on the north pole comes back with
      theta = 0 and psi = 0, whatever phi and psi were. */
  lemma RecMatNorthPole(t: Trig, phi: real, psi: real)
    requires t.sin(0.0) == 0.0 && t.cos(0.0) == 1.0
    ensures var e := RecMat(t, RotMatrix(t, Euler(phi, 0.0, psi)));
      e.theta == 0.0 && e.psi == 0.0
  {
    RotMatrixPole(t, Euler(phi, 0.0, psi));
  }

  /** Likewise the south pole comes back with theta = 180 and psi = 0. */
  lemma RecMatSouthPole(t: Trig, phi: real, psi: real)
    requires t.sin(180.0) == 0.0 && t.cos(180.0) == -1.0
    ensures var e := RecMat(t, RotMatrix(t, Euler(phi, 180.0, psi)));
      e.theta == 180.0 && e.psi == 0.0
  {
    RotMatrixPole(t, Euler(phi, 180.0, psi));
  }

  /** `recmat` on a batch. */
  function RecMatBatch(t: Trig, ms: seq<Mat>): (r: seq<Euler>)
    requires AllMat3(ms)
    ensures |r| == |ms| && forall b :: 0 <= b < |ms| ==> r[b] == RecMat(t, ms[b])
  {
    seq(|ms|, b requires 0 <= b < |ms| => RecMat(t, ms[b]))
  }

  function RotMatrices(t: Trig, angles: seq<Euler>): (r: seq<Mat>)
    ensures |r| == |angles| && AllMat3(r)
    ensures forall b :: 0 <= b < |angles| ==> r[b] == RotMatrix(t, angles[b])
  {
    seq(|angles|, b requires 0 <= b < |angles| => RotMatrix(t, angles[b]))
  }

  /** The inverse rotation of `transf`: its angles negated and reversed. */
  function InverseAngles(transf: Euler): Euler
  {
    Euler(-transf.psi, -transf.theta, -transf.phi)
  }

  /** `rotate_params`: every orientation composed with the inverse of `transf`. */
  function RotateParams(t: Trig, params: seq<Euler>, transf: Euler): (r: seq<Euler>)
    ensures |r| == |params|
    ensures forall b :: 0 <= b < |params| ==>
              r[b] == RecMat(t, MatProduct(RotMatrix(t, params[b]), RotMatrix(t, InverseAngles(transf))))
  {
    var inv := RotMatrix(t, InverseAngles(transf));
    RecMatBatch(t, MulMat(RotMatrices(t, params), seq(|params|, b => inv)))
  }
}
