# EMAN2 / SPHIRE rule helpers in Dafny

This project models the deterministic rule code scattered through EMAN2 and SPHIRE, and
proves what that code promises.

- **Point-group symmetry engine** (`symclass` in SPHIRE's `sp_fundamentals.py`):
  - the cn/dn/oct/tet/icos tables built by `init_symmetry`;
  - Euler-angle/matrix conversion (`rotmatrix`, `recmat`, `mulmat`, `rotate_params`);
  - asymmetric-unit membership (`is_in_subunit`), modelled as an ordered list of masked
    assignments where the last one that fires decides;
  - orbit expansion (`symmetry_related`), `reduce_anglesets` and `symmetry_neighbors`;
  - the memoised `even_angles` sampler, with `set_angles` and `get_angles`;
  - `smallprime` and the `window2d` region arithmetic.
- **Polar-ring and search helpers** of `sp_alignment.py`: `log2`, `Numrinit`, `ringwe`,
  `ang_n`, `search_range`, `parabl`, `select_k`, and the mirror/symmetry layout of
  `generate_list_of_reference_angles_for_search`.
- **FSC curve helpers** inside `sp_process.run`: the criterion crossing, `scale_fsc`,
  `freq_to_angstrom`, the clamp-and-taper loop and the B-factor cutoff.
- **`e2proctxt.py`**: the multi-column reader (range spec, two passes, labels), the writer
  and the `--merge` concatenation.
- **Small helpers**:
  - `good_num`, `numrng` and `butval`/`butstr` of `e2gmm.py`;
  - the tag selection and version bump of `tag_new_version.py`;
  - the chunk partition, temp names and command rewrite of `e2procnd_par.py`.
- **The DF3 volume codec** (`df3io.cpp`), over a file held as a byte sequence.

How Python and C++ values are modelled:

- Angles are `real` degrees. Trigonometry is a parameter: `TrigLib.Trig` carries sin, cos,
  tan, asin, acos, atan, atan2, sqrt and numpy's pi as functions. The only facts the proofs
  use are those written in `TrigLib.Valid`.
- Python's floor `//` and `%`, C's `fmod`, `int()` truncation and `numpy.round` are each
  written out in `PyNum`.
- Python string operations (`split`, `strip`, `join`, `int()`, `rfind`, `lower`) are
  written out in `PyStr`.
- A raised exception or a fatal `ERROR` becomes `Err` of a `Result`.
- Objects whose fields change become classes: `EvenAngles.SymClass` and `Df3.Df3File`.
  In-place loops become methods with loop invariants, each proved against a function.

## Model

| member | source | states |
|---|---|---|
| Symmetry.CnTable | EMAN2/sphire/archive/utils/SPHIRE/libpy/sp_fundamentals.py:944-966 | the cn table is well formed: two four-entry brackets with theta edges 90 and 180, and nsym = n operators |
| Symmetry.WellFormed | EMAN2/sphire/archive/utils/SPHIRE/libpy/sp_fundamentals.py:944-1133 | two four-entry brackets, one operator per symmetry, and the tag and size each family requires |
| Symmetry.CnRotations | EMAN2/sphire/archive/utils/SPHIRE/libpy/sp_fundamentals.py:963-966 | cn has n operators |
| Symmetry.DnTable | EMAN2/sphire/archive/utils/SPHIRE/libpy/sp_fundamentals.py:968-1001 | the dn table is well formed, with nsym = 2n operators |
| Symmetry.DnRotations | EMAN2/sphire/archive/utils/SPHIRE/libpy/sp_fundamentals.py:986-989 | dn has n rotations about z |
| Symmetry.DnFlips | EMAN2/sphire/archive/utils/SPHIRE/libpy/sp_fundamentals.py:990-1001 | dn has n flips |
| Symmetry.OctTable | EMAN2/sphire/archive/utils/SPHIRE/libpy/sp_fundamentals.py:1003-1041 | the oct table is well formed; phi brackets 45 and 90 with cap 90; the 24 operators are psi = 0, 90, 180, 270 at each pole and phi, psi quarter turns on the equator, in the source's order |
| Symmetry.TetTable | EMAN2/sphire/archive/utils/SPHIRE/libpy/sp_fundamentals.py:1043-1084 | the tet table is well formed; phi brackets and cap 120; three psi turns of 120 at the north pole, then nine operators at theta = acos(-1/3), in the source's order |
| Symmetry.IcosTable | EMAN2/sphire/archive/utils/SPHIRE/libpy/sp_fundamentals.py:1086-1133 | the icos table is well formed; phi brackets 36 and 72 with cap 72; five psi turns at each pole and 25 operators at theta = atan 2 and at 180 - atan 2, in the source's order |
| Symmetry.OctOperators | EMAN2/sphire/archive/utils/SPHIRE/libpy/sp_fundamentals.py:1036-1041 | the 24 oct operators are pairwise different and every angle is 0, 90, 180 or 270 |
| Symmetry.Alpha | EMAN2/sphire/archive/utils/SPHIRE/libpy/sp_fundamentals.py:1007-1021 | alpha = arccos(1/(sqrt 3 tan(180/ncap))), the cap bound shared by the platonic groups |
| Symmetry.HalfCap | EMAN2/sphire/archive/utils/SPHIRE/libpy/sp_fundamentals.py:1022-1030 | theta = arccos(cos(cap_sig)/(1 - cos(cap_sig)))/2, with cap_sig = 360/ncap |
| Symmetry.InitSymmetry | EMAN2/sphire/archive/utils/SPHIRE/libpy/sp_fundamentals.py:943-1144 | a table it returns is well formed and keeps the tag |
| Symmetry.InitSymmetrySizes | EMAN2/sphire/archive/utils/SPHIRE/libpy/sp_fundamentals.py:944-1136 | the tag is accepted iff it is cn/dn with n >= 1 or starts with oct/tet/icos; nsym is n, 2n, 24, 12 or 60 by family; len(symangles) == nsym |
| Symmetry.AcceptedTag | EMAN2/sphire/archive/utils/SPHIRE/libpy/sp_fundamentals.py:944-1136 | cn or dn with a positive integer n, or a tag starting with oct, tet or icos |
| Symmetry.CnRotationsSpaced | EMAN2/sphire/archive/utils/SPHIRE/libpy/sp_fundamentals.py:963-966 | the cn operators start at the identity and rise in psi by 360/n, all in [0, 360) |
| Symmetry.DnOperators | EMAN2/sphire/archive/utils/SPHIRE/libpy/sp_fundamentals.py:986-1001 | dn operator i is a z rotation by 2i·360/nsym; operator 2n-1-i is its theta = 180 flip |
| Symmetry.NeighborsValid | EMAN2/sphire/archive/utils/SPHIRE/libpy/sp_fundamentals.py:1393-1426 | every neighbour index lies in [-nsym, nsym); cn and dn always define the list |
| Symmetry.Neighbors | EMAN2/sphire/archive/utils/SPHIRE/libpy/sp_fundamentals.py:1393-1426 | `symmetry_neighbors`: the operator indices of the neighbouring subunits for cn, dn, oct, tet and icos |
| Symmetry.SelectOperators | EMAN2/sphire/archive/utils/SPHIRE/libpy/sp_fundamentals.py:1155-1158 | `symatrix[neighbors]` succeeds iff every index is valid, and picks the Python-indexed operator |
| Rotation.RotMatrix | EMAN2/sphire/archive/utils/SPHIRE/libpy/sp_fundamentals.py:1570-1603 | the rotation matrix of an orientation is 3x3 |
| Rotation.Entry | EMAN2/sphire/archive/utils/SPHIRE/libpy/sp_fundamentals.py:1583-1603 | entry (i, j) of the rotation matrix of an orientation |
| Rotation.RotMatrixPole | EMAN2/sphire/archive/utils/SPHIRE/libpy/sp_fundamentals.py:1591-1603 | at sin theta = 0 the third row and column reduce to (0, 0, cos theta) |
| Rotation.RotMatrixBatch | EMAN2/sphire/archive/utils/SPHIRE/libpy/sp_fundamentals.py:1570-1608 | the zeroed (n, 3, 3) array ends with entry [b, i, j] equal to the matrix of angle b |
| Rotation.FillEntry | EMAN2/sphire/archive/utils/SPHIRE/libpy/sp_fundamentals.py:1583-1603 | one `newmat[:, i, j] = ...` assignment sets that entry of every matrix and nothing else |
| Rotation.MatProduct | EMAN2/sphire/archive/utils/SPHIRE/libpy/sp_fundamentals.py:1450-1454 | C[i][j] = Σ_k A[i][k]·B[k][j] |
| Rotation.MulMat | EMAN2/sphire/archive/utils/SPHIRE/libpy/sp_fundamentals.py:1441-1462 | batch product: C[b][i][j] = Σ_k A[b][i][k]·B[b][k][j], same batch length |
| Rotation.MulMatSingle | EMAN2/sphire/archive/utils/SPHIRE/libpy/sp_fundamentals.py:1444-1460 | 2-D inputs give the single product matrix |
| Rotation.ProductIdentity | EMAN2/sphire/archive/utils/SPHIRE/libpy/sp_fundamentals.py:1450-1454 | the identity is neutral on both sides of the product |
| Rotation.Identity | EMAN2/sphire/archive/utils/SPHIRE/libpy/sp_fundamentals.py:1450-1454 | a 3x3 matrix, neutral for the product |
| TrigLib.Div | EMAN2/sphire/archive/utils/SPHIRE/libpy/sp_fundamentals.py:2167-2170 | a quotient by a non-zero divisor times the divisor gives the dividend back |
| TrigLib.Sign | EMAN2/sphire/archive/utils/SPHIRE/libpy/sp_fundamentals.py:1466-1470 | `recmat`'s `sign`: numpy.sign with 0 mapped to 1, so 1 for non-negative and -1 otherwise |
| Rotation.Tile | EMAN2/sphire/archive/utils/SPHIRE/libpy/sp_fundamentals.py:1284-1286 | `numpy.tile` repeats the batch k times: entry q is ms[q mod len] |
| Rotation.Scale | EMAN2/sphire/archive/utils/SPHIRE/libpy/sp_fundamentals.py:1285 | `multiplier * symatrix` scales every entry |
| Rotation.Clip1 | EMAN2/sphire/archive/utils/SPHIRE/libpy/sp_fundamentals.py:1478-1479 | an entry is clipped into [-1, 1] and kept when already there |
| Rotation.Clip | EMAN2/sphire/archive/utils/SPHIRE/libpy/sp_fundamentals.py:1478-1479 | every matrix entry is clipped |
| Rotation.ClipIdempotent | EMAN2/sphire/archive/utils/SPHIRE/libpy/sp_fundamentals.py:1478-1479 | clipping twice equals clipping once |
| Rotation.Normalize | EMAN2/sphire/archive/utils/SPHIRE/libpy/sp_fundamentals.py:1549-1550 | after rounding to 12 digits and `% 360` an angle lies in [0, 360) |
| Rotation.NormalizeWhole | EMAN2/sphire/archive/utils/SPHIRE/libpy/sp_fundamentals.py:1549-1550 | whole angles in [0, 360) are unchanged |
| Rotation.RecMat | EMAN2/sphire/archive/utils/SPHIRE/libpy/sp_fundamentals.py:1465-1559 | all angles in [0, 360); R22 >= 1 gives theta = psi = 0; R22 <= -1 gives theta = 180, psi = 0; otherwise theta is acos R22 |
| Rotation.RawAngles | EMAN2/sphire/archive/utils/SPHIRE/libpy/sp_fundamentals.py:1481-1547 | the angles of the pole and generic branches before rounding and `% 360` |
| Rotation.RecMatClip | EMAN2/sphire/archive/utils/SPHIRE/libpy/sp_fundamentals.py:1478-1479 | clipping before `recmat` changes nothing |
| Rotation.RecMatNorthPole | EMAN2/sphire/archive/utils/SPHIRE/libpy/sp_fundamentals.py:1492-1501 | any orientation with theta = 0 comes back with theta = psi = 0 |
| Rotation.RecMatSouthPole | EMAN2/sphire/archive/utils/SPHIRE/libpy/sp_fundamentals.py:1503-1513 | any orientation with theta = 180 comes back with theta = 180, psi = 0 |
| Rotation.RecMatBatch | EMAN2/sphire/archive/utils/SPHIRE/libpy/sp_fundamentals.py:1465-1559 | `recmat` on a batch converts each matrix |
| Rotation.RotMatrices | EMAN2/sphire/archive/utils/SPHIRE/libpy/sp_fundamentals.py:1570-1608 | one 3x3 matrix per orientation |
| Rotation.RotateParams | EMAN2/sphire/archive/utils/SPHIRE/libpy/sp_fundamentals.py:1562-1567 | entry b is `recmat` of rotmatrix(params[b]) times the matrix of (-psi, -theta, -phi) |
| Rotation.InverseAngles | EMAN2/sphire/archive/utils/SPHIRE/libpy/sp_fundamentals.py:1562-1567 | the inverse rotation of `transf`: its angles negated and in reverse order |
| Subunit.OverrideLastFired | EMAN2/sphire/archive/utils/SPHIRE/libpy/sp_fundamentals.py:1629-1655 | after masked assignments on a False array, an entry is True iff the last rule that fires assigns True |
| Subunit.OverrideStep | EMAN2/sphire/archive/utils/SPHIRE/libpy/sp_fundamentals.py:1642-1651 | each further assignment overrides the entry only where its mask fires |
| Subunit.Bracket | EMAN2/sphire/archive/utils/SPHIRE/libpy/sp_fundamentals.py:1633-1637 | `brackets[inc_mirror]` has four entries |
| Subunit.Rules | EMAN2/sphire/archive/utils/SPHIRE/libpy/sp_fundamentals.py:1641-1880 | the family's rule list has the family's count of assignments |
| Subunit.Override | EMAN2/sphire/archive/utils/SPHIRE/libpy/sp_fundamentals.py:1629-1655 | the value of an entry after masked assignments to a False array: the last fired rule decides |
| Subunit.CnRules | EMAN2/sphire/archive/utils/SPHIRE/libpy/sp_fundamentals.py:1641-1655 | the masked assignments of the cn family |
| Subunit.DnEvenRules | EMAN2/sphire/archive/utils/SPHIRE/libpy/sp_fundamentals.py:1657-1662 | the masked assignments of dn for even n |
| Subunit.DnOddRules | EMAN2/sphire/archive/utils/SPHIRE/libpy/sp_fundamentals.py:1664-1692 | the masked assignments of dn for odd n |
| Subunit.TmPhi | EMAN2/sphire/archive/utils/SPHIRE/libpy/sp_fundamentals.py:1711-1716 | the distance of phi to the nearer cap edge |
| Subunit.BaldwinSum | EMAN2/sphire/archive/utils/SPHIRE/libpy/sp_fundamentals.py:1717-1737 | the sum under the Baldwin bound |
| Subunit.OctIcosRules | EMAN2/sphire/archive/utils/SPHIRE/libpy/sp_fundamentals.py:1694-1864 | the masked assignments of the oct and icos families |
| Subunit.TetRules | EMAN2/sphire/archive/utils/SPHIRE/libpy/sp_fundamentals.py:1866-1880 | the masked assignments of the tet family |
| Subunit.RuleCount | EMAN2/sphire/archive/utils/SPHIRE/libpy/sp_fundamentals.py:1641-1880 | the number of masked assignments of each family |
| Subunit.InSubunit | EMAN2/sphire/archive/utils/SPHIRE/libpy/sp_fundamentals.py:1610-1893 | `is_in_subunit` of one direction, with theta rounded to 12 digits |
| Subunit.OverrideSnoc | EMAN2/sphire/archive/utils/SPHIRE/libpy/sp_fundamentals.py:1642-1651 | one further masked assignment overrides the entry only where it fires |
| Subunit.OverrideFour | EMAN2/sphire/archive/utils/SPHIRE/libpy/sp_fundamentals.py:1642-1655 | four masked assignments: the last fired one decides, False if none fires |
| Subunit.OverrideThree | EMAN2/sphire/archive/utils/SPHIRE/libpy/sp_fundamentals.py:1657-1692 | three masked assignments: the last fired one decides, False if none fires |
| Subunit.IsInSubunit | EMAN2/sphire/archive/utils/SPHIRE/libpy/sp_fundamentals.py:1610-1893 | condstat has one entry per direction, each the membership of that direction |
| Subunit.ApplyRules | EMAN2/sphire/archive/utils/SPHIRE/libpy/sp_fundamentals.py:1629-1655 | applying the assignments one at a time to a zeroed array leaves the last-fired value in each entry |
| Subunit.CnRulesClosed | EMAN2/sphire/archive/utils/SPHIRE/libpy/sp_fundamentals.py:1641-1655 | the cn assignments reduce to the closed form below |
| Subunit.CnSubunit | EMAN2/sphire/archive/utils/SPHIRE/libpy/sp_fundamentals.py:1635-1655 | cn: theta = 0 is inside; theta = 180 is inside iff inc_mirror; c1 without mirror excludes theta = 90 with phi >= 180; otherwise 0 <= phi < brackets[m][0] and theta <= brackets[m][1] |
| Subunit.DnEvenSubunit | EMAN2/sphire/archive/utils/SPHIRE/libpy/sp_fundamentals.py:1657-1662 | dn with even n: theta = 0, or phi and theta within the bracket |
| Subunit.DnOddSubunit | EMAN2/sphire/archive/utils/SPHIRE/libpy/sp_fundamentals.py:1664-1692 | dn with odd n: theta = 0, or within the bracket and (inc_mirror or phib/2 <= phi <= 3·phib/2) |
| Subunit.OctIcosFarEdge | EMAN2/sphire/archive/utils/SPHIRE/libpy/sp_fundamentals.py:1738-1748 | oct/icos: phi == round(brackets[m][2]) is outside whatever theta is, overriding the theta = 0 rule |
| Subunit.TetNorthPole | EMAN2/sphire/archive/utils/SPHIRE/libpy/sp_fundamentals.py:1866-1880 | tet: theta = 0 with phi <= brackets[0][0]/2 is inside |
| SymRelated.InsideValues | EMAN2/sphire/archive/utils/SPHIRE/libpy/sp_fundamentals.py:1181-1263 | no table without return_unique; else 2/5/6/8/13 special directions for c/d/tet/oct/icos, NameError for other platonic tags |
| SymRelated.PlainMask | EMAN2/sphire/archive/utils/SPHIRE/libpy/sp_fundamentals.py:1173-1179 | for return_mirror = 2, row q is plain iff q mod 2n < n: each input's first n rows are plain, the next n mirrored |
| SymRelated.Operator | EMAN2/sphire/archive/utils/SPHIRE/libpy/sp_fundamentals.py:1279-1294 | the operator of row q is a 3x3 matrix: operator q mod n, negated in the mirrored pass |
| SymRelated.Mod360 | EMAN2/sphire/archive/utils/SPHIRE/libpy/sp_fundamentals.py:1294 | `sang_new %= 360` puts every angle in [0, 360) |
| SymRelated.Raw | EMAN2/sphire/archive/utils/SPHIRE/libpy/sp_fundamentals.py:1265-1275 | row q repeats input q / nsym |
| SymRelated.Block | EMAN2/sphire/archive/utils/SPHIRE/libpy/sp_fundamentals.py:1265-1275 | the rows per input direction: one per operator, twice with the mirror |
| SymRelated.Mirrored | EMAN2/sphire/archive/utils/SPHIRE/libpy/sp_fundamentals.py:1173-1179 | whether row q belongs to the mirrored pass |
| SymRelated.Active | EMAN2/sphire/archive/utils/SPHIRE/libpy/sp_fundamentals.py:1279-1294 | whether the pass of row q transforms it |
| SymRelated.Row | EMAN2/sphire/archive/utils/SPHIRE/libpy/sp_fundamentals.py:1265-1294 | the row after both passes |
| SymRelated.IsMultiple | EMAN2/sphire/archive/utils/SPHIRE/libpy/sp_fundamentals.py:1301-1350 | `0 == round(x, 12) % p`, false for p = 0 |
| SymRelated.Good | EMAN2/sphire/archive/utils/SPHIRE/libpy/sp_fundamentals.py:1296-1350 | a row matching a special direction that is kept |
| SymRelated.Bad | EMAN2/sphire/archive/utils/SPHIRE/libpy/sp_fundamentals.py:1296-1350 | a row matching a special direction that is dropped |
| SymRelated.Kept | EMAN2/sphire/archive/utils/SPHIRE/libpy/sp_fundamentals.py:1352-1360 | kept unless bad for some special direction and good for none |
| SymRelated.Key | EMAN2/sphire/archive/utils/SPHIRE/libpy/sp_fundamentals.py:1362-1372 | the (phi, theta) pair `numpy.unique` compares |
| SymRelated.FirstOfKey | EMAN2/sphire/archive/utils/SPHIRE/libpy/sp_fundamentals.py:1362-1372 | the first row of its key within its block |
| SymRelated.Survives | EMAN2/sphire/archive/utils/SPHIRE/libpy/sp_fundamentals.py:1352-1377 | the row survives both masks |
| SymRelated.SameBlock | EMAN2/sphire/archive/utils/SPHIRE/libpy/sp_fundamentals.py:1367-1371 | the rows of one input direction share their block start |
| SymRelated.SelectAll | EMAN2/sphire/archive/utils/SPHIRE/libpy/sp_fundamentals.py:1376 | selecting with every flag set returns the input |
| SymRelated.SelectSubset | EMAN2/sphire/archive/utils/SPHIRE/libpy/sp_fundamentals.py:1376 | a selection holds only entries of its input |
| SymRelated.MarkStride | EMAN2/sphire/archive/utils/SPHIRE/libpy/sp_fundamentals.py:1176-1177 | `mask[i::m] = True` adds residue i to the marked residues |
| SymRelated.Transformed | EMAN2/sphire/archive/utils/SPHIRE/libpy/sp_fundamentals.py:1279-1294 | a transformed row has all angles in [0, 360) |
| SymRelated.BlockStart | EMAN2/sphire/archive/utils/SPHIRE/libpy/sp_fundamentals.py:1367-1371 | the uniqueness block of row q starts at most one block before q |
| SymRelated.OutRow | EMAN2/sphire/archive/utils/SPHIRE/libpy/sp_fundamentals.py:1352-1377 | an output row has all angles in [0, 360) |
| SymRelated.Rows | EMAN2/sphire/archive/utils/SPHIRE/libpy/sp_fundamentals.py:1265-1355 | one candidate row per (input, operator) slot |
| SymRelated.Keep | EMAN2/sphire/archive/utils/SPHIRE/libpy/sp_fundamentals.py:1296-1374 | one keep flag per slot, from the final and semi-final masks |
| SymRelated.Select | EMAN2/sphire/archive/utils/SPHIRE/libpy/sp_fundamentals.py:1376 | boolean-mask selection is no longer than its input |
| SymRelated.SelectMembers | EMAN2/sphire/archive/utils/SPHIRE/libpy/sp_fundamentals.py:1376 | x is selected iff some kept slot holds x |
| SymRelated.SymmetryRelated | EMAN2/sphire/archive/utils/SPHIRE/libpy/sp_fundamentals.py:1146-1382 | every returned orientation has its angles in [0, 360) |
| SymRelated.FirstOfKeyCovers | EMAN2/sphire/archive/utils/SPHIRE/libpy/sp_fundamentals.py:1362-1372 | `numpy.unique` within a block keeps a first row for every (phi, theta) key |
| SymRelated.OutputMembers | EMAN2/sphire/archive/utils/SPHIRE/libpy/sp_fundamentals.py:1352-1377 | the output holds exactly the rows of the slots that survive both masks |
| SymRelated.OutputInRange | EMAN2/sphire/archive/utils/SPHIRE/libpy/sp_fundamentals.py:1376-1377 | the selected rows lie in [0, 360) |
| SymRelated.Output | EMAN2/sphire/archive/utils/SPHIRE/libpy/sp_fundamentals.py:1376-1377 | the output rows lie in [0, 360) |
| SymRelated.FullOrbit | EMAN2/sphire/archive/utils/SPHIRE/libpy/sp_fundamentals.py:1162-1294 | with return_mirror 0/1 and no uniqueness the output is the whole orbit: len(angles)·nsym rows, row q the q-th transform mod 360 |
| SymRelated.FilterSubunit | EMAN2/sphire/archive/utils/SPHIRE/libpy/sp_fundamentals.py:1916-1917 | keeps exactly the orientations inside the subunit, the first kept being the first inside |
| SymRelated.ReduceAnglesets | EMAN2/sphire/archive/utils/SPHIRE/libpy/sp_fundamentals.py:1902-1924 | for a list of triplets it fails iff `symmetry_related` (return_mirror 0 or 2 by inc_mirror) fails; every result is a mate inside the subunit, and every mate inside the subunit is kept |
| SymRelated.ReduceSingle | EMAN2/sphire/archive/utils/SPHIRE/libpy/sp_fundamentals.py:1902-1920 | for one triplet: the first mate inside the subunit; IndexError iff no mate is inside; the errors of `symmetry_related` otherwise |
| SymRelated.NoneInsideBefore | EMAN2/sphire/archive/utils/SPHIRE/libpy/sp_fundamentals.py:1916-1917 | no direction before position k is inside the subunit |
| SymRelated.FirstInside | EMAN2/sphire/archive/utils/SPHIRE/libpy/sp_fundamentals.py:1916-1920 | e follows only directions outside the subunit |
| SymRelated.FirstInsideSkip | EMAN2/sphire/archive/utils/SPHIRE/libpy/sp_fundamentals.py:1916-1920 | a direction outside the subunit in front does not change which one comes first inside |
| EvenAngles.Store | EMAN2/sphire/archive/utils/SPHIRE/libpy/sp_fundamentals.py:2128-2131 | after storing, the same arguments no longer count as changed, and needs_rebuild is True |
| EvenAngles.Changed | EMAN2/sphire/archive/utils/SPHIRE/libpy/sp_fundamentals.py:2123-2127 | some argument differs from the stored one |
| EvenAngles.CacheHit | EMAN2/sphire/archive/utils/SPHIRE/libpy/sp_fundamentals.py:2123-2131 | a repeated call with the same arguments is a cache hit |
| EvenAngles.SetAnglesForcesRecompute | EMAN2/sphire/archive/utils/SPHIRE/libpy/sp_fundamentals.py:2078-2083 | after `set_angles` clears theta1, every call recomputes |
| EvenAngles.Phi1 | EMAN2/sphire/archive/utils/SPHIRE/libpy/sp_fundamentals.py:2146-2147 | the lower phi bound is never negative, and a non-negative phi1 is kept |
| EvenAngles.Theta1 | EMAN2/sphire/archive/utils/SPHIRE/libpy/sp_fundamentals.py:2152-2153 | the lower theta bound is never negative, and a non-negative theta1 is kept |
| EvenAngles.BadParams | EMAN2/sphire/archive/utils/SPHIRE/libpy/sp_fundamentals.py:2139-2145 | phi2 < phi1, theta2 < theta1 or delta <= 0, on the arguments as given |
| EvenAngles.Phi2 | EMAN2/sphire/archive/utils/SPHIRE/libpy/sp_fundamentals.py:2148-2151 | a negative phi2 becomes brackets[inc_mirror][0] - 1e-7 |
| EvenAngles.Theta2 | EMAN2/sphire/archive/utils/SPHIRE/libpy/sp_fundamentals.py:2154-2155 | a negative theta2 becomes brackets[inc_mirror][3] |
| EvenAngles.Phi2Org | EMAN2/sphire/archive/utils/SPHIRE/libpy/sp_fundamentals.py:2133-2135 | a negative phi2 becomes brackets[1][0] - 1e-7 for the S method |
| EvenAngles.Theta2Org | EMAN2/sphire/archive/utils/SPHIRE/libpy/sp_fundamentals.py:2136-2138 | a negative theta2 becomes brackets[1][3] for the S method |
| EvenAngles.Theta2M | EMAN2/sphire/archive/utils/SPHIRE/libpy/sp_fundamentals.py:2179-2180 | the M method raises theta2 to 90 |
| EvenAngles.Terminates | EMAN2/sphire/archive/utils/SPHIRE/libpy/sp_fundamentals.py:2163-2213 | the P and M loops end: theta2 <= 180 where sin(theta) must stay positive |
| EvenAngles.StepsDown | EMAN2/sphire/archive/utils/SPHIRE/libpy/sp_fundamentals.py:2171-2176 | the phi loop of a ring does a step fewer after each direction |
| EvenAngles.StepsUpDown | EMAN2/sphire/archive/utils/SPHIRE/libpy/sp_fundamentals.py:2164-2177 | the theta loop upward does a step fewer after each ring |
| EvenAngles.StepsDownToDown | EMAN2/sphire/archive/utils/SPHIRE/libpy/sp_fundamentals.py:2181-2195 | the theta loop downward does a step fewer after each ring |
| EvenAngles.RingStep | EMAN2/sphire/archive/utils/SPHIRE/libpy/sp_fundamentals.py:2167-2170 | the phi step of a non-empty ring is positive |
| EvenAngles.DetPhiPositive | EMAN2/sphire/archive/utils/SPHIRE/libpy/sp_fundamentals.py:2167-2170 | the phi step of a ring is positive, so the inner loop ends |
| EvenAngles.DetPhi | EMAN2/sphire/archive/utils/SPHIRE/libpy/sp_fundamentals.py:2167-2170 | twice phi2 at a pole, delta/sin(theta) elsewhere |
| EvenAngles.Selector | EMAN2/sphire/archive/utils/SPHIRE/libpy/sp_fundamentals.py:2172-2193 | the selection a ring makes: the subunit test for platonic M, everything otherwise |
| EvenAngles.Ring | EMAN2/sphire/archive/utils/SPHIRE/libpy/sp_fundamentals.py:2171-2176 | the directions of one ring, phi from phi1 by detphi below phi2 |
| EvenAngles.RingAt | EMAN2/sphire/archive/utils/SPHIRE/libpy/sp_fundamentals.py:2166-2176 | the ring at one theta |
| EvenAngles.RingsUp | EMAN2/sphire/archive/utils/SPHIRE/libpy/sp_fundamentals.py:2164-2177 | the rings for theta0, theta0 + delta, ... up to theta2 |
| EvenAngles.RingsDown | EMAN2/sphire/archive/utils/SPHIRE/libpy/sp_fundamentals.py:2181-2195 | the rings for theta0, theta0 - delta, ... down to theta1 |
| EvenAngles.SpiralPoints | EMAN2/sphire/archive/utils/SPHIRE/libpy/sp_fundamentals.py:2229-2238 | the kept spiral points from step k |
| EvenAngles.SelectorKeeps | EMAN2/sphire/archive/utils/SPHIRE/libpy/sp_fundamentals.py:2189-2193 | the platonic M loop keeps only subunit directions; otherwise it keeps all |
| EvenAngles.RingProps | EMAN2/sphire/archive/utils/SPHIRE/libpy/sp_fundamentals.py:2171-2176 | a ring's directions have phi1 <= phi < phi2, the ring's theta, psi = 0, and pass the selection |
| EvenAngles.RingsUpProps | EMAN2/sphire/archive/utils/SPHIRE/libpy/sp_fundamentals.py:2164-2177 | the rising rings stay within [phi1, phi2) x [theta, theta2] |
| EvenAngles.RingsDownProps | EMAN2/sphire/archive/utils/SPHIRE/libpy/sp_fundamentals.py:2181-2195 | the falling rings stay within [phi1, phi2) x [theta1, theta] |
| EvenAngles.Reverse | EMAN2/sphire/archive/utils/SPHIRE/libpy/sp_fundamentals.py:2197-2199 | `angles[::-1]` holds the same entries in reverse order |
| EvenAngles.SpiralOf | EMAN2/sphire/archive/utils/SPHIRE/libpy/sp_fundamentals.py:2217-2228 | the spiral has a non-negative point count and a non-zero phi step when it has points |
| EvenAngles.SpiralStep | EMAN2/sphire/archive/utils/SPHIRE/libpy/sp_fundamentals.py:2229-2233 | each spiral phi stays within one phistep of phi1; psi = 0 |
| EvenAngles.SpiralProps | EMAN2/sphire/archive/utils/SPHIRE/libpy/sp_fundamentals.py:2229-2238 | kept spiral points have theta <= 180, psi = 0, and lie in the subunit |
| EvenAngles.MinusPsi | EMAN2/sphire/archive/utils/SPHIRE/libpy/sp_fundamentals.py:2240-2242 | "Minus" sets psi = (720 - phi) % 360 and keeps phi and theta |
| EvenAngles.AppendRing | EMAN2/sphire/archive/utils/SPHIRE/libpy/sp_fundamentals.py:2166-2176 | the inner loop appends exactly that ring |
| EvenAngles.AppendRingsUp | EMAN2/sphire/archive/utils/SPHIRE/libpy/sp_fundamentals.py:2164-2177 | the rising loop appends exactly the rising rings |
| EvenAngles.AppendRingsDown | EMAN2/sphire/archive/utils/SPHIRE/libpy/sp_fundamentals.py:2181-2195 | the falling loop appends exactly the falling rings |
| EvenAngles.AppendSpiral | EMAN2/sphire/archive/utils/SPHIRE/libpy/sp_fundamentals.py:2224-2238 | the spiral loop appends exactly the kept spiral points |
| EvenAngles.ApplyMinus | EMAN2/sphire/archive/utils/SPHIRE/libpy/sp_fundamentals.py:2240-2242 | the in-place psi loop yields MinusPsi |
| EvenAngles.Sample | EMAN2/sphire/archive/utils/SPHIRE/libpy/sp_fundamentals.py:2163-2238 | the sampler picked by method yields the sampled list |
| EvenAngles.SampleP | EMAN2/sphire/archive/utils/SPHIRE/libpy/sp_fundamentals.py:2163-2177 | method P |
| EvenAngles.SampleM | EMAN2/sphire/archive/utils/SPHIRE/libpy/sp_fundamentals.py:2178-2213 | method M: the rings down from 90 reversed, then the rings up from 90 + delta |
| EvenAngles.SampleS | EMAN2/sphire/archive/utils/SPHIRE/libpy/sp_fundamentals.py:2214-2238 | method S: the first point, then the spiral |
| EvenAngles.Recompute | EMAN2/sphire/archive/utils/SPHIRE/libpy/sp_fundamentals.py:2132-2247 | a recomputation yields the full list, with optional psi and south pole |
| EvenAngles.SymClass.constructor | EMAN2/sphire/archive/utils/SPHIRE/libpy/sp_fundamentals.py:913-941 | lower-cases the tag, builds the table and symatrix, and starts with an empty cache and no angles |
| EvenAngles.SymClass.EvenAngles | EMAN2/sphire/archive/utils/SPHIRE/libpy/sp_fundamentals.py:2094-2252 | changed arguments are stored with needs_rebuild set, then a bad range (phi2 < phi1, theta2 < theta1, delta <= 0) is an error, else the list is recomputed and stored; unchanged arguments return the stored list |
| EvenAngles.SymClass.SetAngles | EMAN2/sphire/archive/utils/SPHIRE/libpy/sp_fundamentals.py:2078-2083 | stores the list, records delta when given, clears theta1, sets needs_rebuild |
| EvenAngles.SymClass.GetAngles | EMAN2/sphire/archive/utils/SPHIRE/libpy/sp_fundamentals.py:2085-2092 | the stored list, or an error before any was stored |
| EvenAngles.NewSymClass | EMAN2/sphire/archive/utils/SPHIRE/libpy/sp_fundamentals.py:913-941 | construction succeeds iff `init_symmetry` accepts the lower-cased tag |
| EvenAngles.PlainGridBounds | EMAN2/sphire/archive/utils/SPHIRE/libpy/sp_fundamentals.py:2163-2177 | method P yields directions within [phi1, phi2) x [theta1, theta2], psi = 0 |
| EvenAngles.MGridKept | EMAN2/sphire/archive/utils/SPHIRE/libpy/sp_fundamentals.py:2178-2213 | every direction of the M grid passes the selection |
| EvenAngles.SelectedInside | EMAN2/sphire/archive/utils/SPHIRE/libpy/sp_fundamentals.py:2189-2191 | directions passing the platonic selection are in the subunit |
| EvenAngles.MSampledKept | EMAN2/sphire/archive/utils/SPHIRE/libpy/sp_fundamentals.py:2178-2213 | the M list passes the family's selection |
| EvenAngles.PlatonicGridInside | EMAN2/sphire/archive/utils/SPHIRE/libpy/sp_fundamentals.py:2160-2213 | for oct/tet/icos, method M yields only subunit directions |
| EvenAngles.SpiralInside | EMAN2/sphire/archive/utils/SPHIRE/libpy/sp_fundamentals.py:2224-2238 | method S starts at (phi1, theta1, 0); every later point has theta <= 180 and is in the subunit |
| EvenAngles.SouthPoleLast | EMAN2/sphire/archive/utils/SPHIRE/libpy/sp_fundamentals.py:2243-2246 | for c/d with theta2 == 180 the list ends with (0, 180, 0) |
| EvenAngles.AddsSouthPole | EMAN2/sphire/archive/utils/SPHIRE/libpy/sp_fundamentals.py:2243-2246 | cn and dn with theta2 = 180 (or beyond, for delta = 180) gain (0, 180, 0) |
| EvenAngles.GridOf | EMAN2/sphire/archive/utils/SPHIRE/libpy/sp_fundamentals.py:2146-2162 | the bounds after the defaults are applied |
| EvenAngles.Platonic | EMAN2/sphire/archive/utils/SPHIRE/libpy/sp_fundamentals.py:2160-2162 | oct, tet or icos |
| EvenAngles.MSampled | EMAN2/sphire/archive/utils/SPHIRE/libpy/sp_fundamentals.py:2178-2213 | the rings down from 90 reversed, then the rings above 90 + delta |
| EvenAngles.Sampled | EMAN2/sphire/archive/utils/SPHIRE/libpy/sp_fundamentals.py:2163-2238 | the directions of the chosen method |
| EvenAngles.EvenAnglesList | EMAN2/sphire/archive/utils/SPHIRE/libpy/sp_fundamentals.py:2132-2247 | the list a recomputation stores |
| SmallPrime.Lip | EMAN2/sphire/archive/utils/SPHIRE/libpy/sp_fundamentals.py:769 | lip = min(numprime, len(primelist)) |
| SmallPrime.FirstDivisor | EMAN2/sphire/archive/utils/SPHIRE/libpy/sp_fundamentals.py:773-781 | the inner loop stops at the first listed prime dividing x |
| SmallPrime.SmallPrime | EMAN2/sphire/archive/utils/SPHIRE/libpy/sp_fundamentals.py:742-784 | `smallprime` as written: the scan of SmallPrimeOf over the source's own list of primes, which lacks 29 (`SourcePrimes`) |
| SmallPrime.SmallPrimeCorrected | EMAN2/sphire/archive/utils/SPHIRE/libpy/sp_fundamentals.py:742-784 | `smallprime` over the complete list of primes below 100: the scan of SmallPrimeOf over `Primes` |
| SmallPrime.SmallPrimeOf | EMAN2/sphire/archive/utils/SPHIRE/libpy/sp_fundamentals.py:769-784 | n < 1 leaves the result unbound; else the scan down from n with the first lip listed primes |
| SmallPrime.Largest | EMAN2/sphire/archive/utils/SPHIRE/libpy/sp_fundamentals.py:770-784 | the first candidate from c down that reduces, or 1 |
| SmallPrime.Reduces | EMAN2/sphire/archive/utils/SPHIRE/libpy/sp_fundamentals.py:771-781 | x reaches 1 by dividing out listed primes |
| SmallPrime.ReducesPass | EMAN2/sphire/archive/utils/SPHIRE/libpy/sp_fundamentals.py:773-781 | one pass divides by the first listed prime dividing x, or stops |
| SmallPrime.LargestIs | EMAN2/sphire/archive/utils/SPHIRE/libpy/sp_fundamentals.py:770-784 | the scan stops at a candidate that reduces |
| SmallPrime.DividesIff | EMAN2/sphire/archive/utils/SPHIRE/libpy/sp_fundamentals.py:774 | `p * int(x / p) == x` iff p divides x |
| SmallPrime.FirstDivisorAt | EMAN2/sphire/archive/utils/SPHIRE/libpy/sp_fundamentals.py:773-775 | the first dividing prime is pinned down by the primes before it |
| SmallPrime.ReducesProduct | EMAN2/sphire/archive/utils/SPHIRE/libpy/sp_fundamentals.py:771-781 | a number that reduces is a product of listed primes |
| SmallPrime.FactorsReduce | EMAN2/sphire/archive/utils/SPHIRE/libpy/sp_fundamentals.py:771-781 | a number all of whose prime factors are listed reduces |
| SmallPrime.PrimeFactor | EMAN2/sphire/archive/utils/SPHIRE/libpy/sp_fundamentals.py:771-781 | every number above 1 has a prime factor |
| SmallPrime.Product | EMAN2/sphire/archive/utils/SPHIRE/libpy/sp_fundamentals.py:742 | x is a product of listed entries |
| SmallPrime.FactorsIn | EMAN2/sphire/archive/utils/SPHIRE/libpy/sp_fundamentals.py:742 | every prime factor of x is listed |
| SmallPrime.PrimesArePrime | EMAN2/sphire/archive/utils/SPHIRE/libpy/sp_fundamentals.py:743-768 | every entry of the corrected list is prime |
| SmallPrime.PrimesComplete | EMAN2/sphire/archive/utils/SPHIRE/libpy/sp_fundamentals.py:743-768 | every prime below 100 is in the corrected list |
| SmallPrime.FirstPrimes | EMAN2/sphire/archive/utils/SPHIRE/libpy/sp_fundamentals.py:743-768 | a prime up to the k-th entry is among the first k |
| SmallPrime.SmallPrimeIn | EMAN2/sphire/archive/utils/SPHIRE/libpy/sp_fundamentals.py:769-784 | the three nested loops compute SmallPrimeOf for a given prime list |
| SmallPrime.Candidate | EMAN2/sphire/archive/utils/SPHIRE/libpy/sp_fundamentals.py:771-781 | the two inner loops accept c iff c >= 2 and c reduces to 1 by the first lip primes |
| SmallPrime.FirstDividing | EMAN2/sphire/archive/utils/SPHIRE/libpy/sp_fundamentals.py:773-775 | the `for j` loop finds the first dividing prime |
| SmallPrime.LargestProps | EMAN2/sphire/archive/utils/SPHIRE/libpy/sp_fundamentals.py:770-784 | the scan down from n returns the largest reducing candidate, or 1 |
| SmallPrime.SmallPrimeLargest | EMAN2/sphire/archive/utils/SPHIRE/libpy/sp_fundamentals.py:742-784 | for n >= 1 the result is the largest m <= n that is a product of the first numprime primes, or 1; n < 1 is an error |
| SmallPrime.PrimesBelow100 | EMAN2/sphire/archive/utils/SPHIRE/libpy/sp_fundamentals.py:743-768 | the corrected list holds exactly the primes below 100, increasing |
| SmallPrime.Composite | EMAN2/sphire/archive/utils/SPHIRE/libpy/sp_fundamentals.py:743-768 | a number with a proper divisor is not prime |
| SmallPrime.TrialDivision | EMAN2/sphire/archive/utils/SPHIRE/libpy/sp_fundamentals.py:743-768 | below 121, no divisor among 2, 3, 5, 7 makes a number prime |
| SmallPrime.SmallFactor | EMAN2/sphire/archive/utils/SPHIRE/libpy/sp_fundamentals.py:743-768 | below 121, a composite has a factor of at most 10 |
| SmallPrime.TenFactor | EMAN2/sphire/archive/utils/SPHIRE/libpy/sp_fundamentals.py:743-768 | one of 2, 3, 5, 7 divides each number from 2 to 10 |
| SmallPrime.OddCompositesLow | EMAN2/sphire/archive/utils/SPHIRE/libpy/sp_fundamentals.py:743-768 | below 50, an unlisted number prime to 2, 3, 5 is a multiple of 7 |
| SmallPrime.OddCompositesHigh | EMAN2/sphire/archive/utils/SPHIRE/libpy/sp_fundamentals.py:743-768 | from 50 to 99, an unlisted number prime to 2, 3, 5 is a multiple of 7 |
| SmallPrime.TenEntries | EMAN2/sphire/archive/utils/SPHIRE/libpy/sp_fundamentals.py:743-753 | the first ten entries of the source's list and of the primes |
| SmallPrime.SourceOnTwentyNine | EMAN2/sphire/archive/utils/SPHIRE/libpy/sp_fundamentals.py:743-753 | with the source's first ten entries, 29 does not reduce and 28 does |
| SmallPrime.FixedOnTwentyNine | EMAN2/sphire/archive/utils/SPHIRE/libpy/sp_fundamentals.py:743-753 | with the first ten primes, 29 reduces |
| SmallPrime.TwentyNineMissing | EMAN2/sphire/archive/utils/SPHIRE/libpy/sp_fundamentals.py:743-768 | 29 is not in the source's list |
| SmallPrime.SkipsTwentyNine | EMAN2/sphire/archive/utils/SPHIRE/libpy/sp_fundamentals.py:742-784 | smallprime(29, 10) gives 28 as written, 29 with the primes |
| Window.Window2D | EMAN2/sphire/archive/utils/SPHIRE/libpy/sp_fundamentals.py:821-846 | same size copies; else "l" clips at (ix, iy), "c" centres on the image centre, "a" centres on (ix, iy), other options are an error |
| Window.CentredInside | EMAN2/sphire/archive/utils/SPHIRE/libpy/sp_fundamentals.py:836-839 | a centred window no larger than the image lies inside it |
| Window.HalfInside | EMAN2/sphire/archive/utils/SPHIRE/libpy/sp_fundamentals.py:836-839 | l//2 - s//2 places a window of size s inside size l |
| Polar.Log2Of | EMAN2/sphire/archive/utils/00_NO_COMMENTS/libpy/sp_alignment.py:804-814 | -1 for n < 1; else k >= 0 with 2^k <= n < 2^(k+1) |
| Polar.Log2Unique | EMAN2/sphire/archive/utils/00_NO_COMMENTS/libpy/sp_alignment.py:804-814 | that k is unique |
| Polar.Log2 | EMAN2/sphire/archive/utils/00_NO_COMMENTS/libpy/sp_alignment.py:804-814 | the doubling loop computes it |
| Polar.Range | EMAN2/sphire/archive/utils/00_NO_COMMENTS/libpy/sp_alignment.py:835 | `range(start, stop, step)` stays between its bounds and starts at start |
| Polar.RingLength | EMAN2/sphire/archive/utils/00_NO_COMMENTS/libpy/sp_alignment.py:837-840 | a ring has at least one sample |
| Polar.Rings | EMAN2/sphire/archive/utils/00_NO_COMMENTS/libpy/sp_alignment.py:833-846 | three entries per ring |
| Polar.Lengths | EMAN2/sphire/archive/utils/00_NO_COMMENTS/libpy/sp_alignment.py:837-840 | the ring length for each radius |
| Polar.Total | EMAN2/sphire/archive/utils/00_NO_COMMENTS/libpy/sp_alignment.py:841-844 | the samples on the rings so far |
| Polar.NumrOf | EMAN2/sphire/archive/utils/00_NO_COMMENTS/libpy/sp_alignment.py:816-846 | `Numrinit`, or ValueError for a zero skip |
| Polar.Span | EMAN2/sphire/archive/utils/00_NO_COMMENTS/libpy/sp_alignment.py:822-826 | a full circle for mode f/F, a half circle otherwise |
| Polar.RingsStep | EMAN2/sphire/archive/utils/00_NO_COMMENTS/libpy/sp_alignment.py:835-844 | one ring adds (k, lcirc, length) in front of the rest |
| Polar.TotalShift | EMAN2/sphire/archive/utils/00_NO_COMMENTS/libpy/sp_alignment.py:841-844 | the total of the first i rings splits off the first ring |
| Polar.Pow2Grows | EMAN2/sphire/archive/utils/00_NO_COMMENTS/libpy/sp_alignment.py:838-840 | a larger exponent gives at least twice the power |
| Polar.Numrinit | EMAN2/sphire/archive/utils/00_NO_COMMENTS/libpy/sp_alignment.py:816-846 | the loop builds the ring layout |
| Polar.RingSamples | EMAN2/sphire/archive/utils/00_NO_COMMENTS/libpy/sp_alignment.py:837-840 | the oversampling rule of one ring |
| Polar.RingsInvariantStep | EMAN2/sphire/archive/utils/00_NO_COMMENTS/libpy/sp_alignment.py:835-844 | one iteration appends (k, lcirc, ip) and advances lcirc by ip |
| Polar.RingsLayout | EMAN2/sphire/archive/utils/00_NO_COMMENTS/libpy/sp_alignment.py:833-846 | entry 3i is radius k_i, 3i+1 is 1 + the sum of earlier ring lengths, 3i+2 the ring length |
| Polar.RingLengthIs | EMAN2/sphire/archive/utils/00_NO_COMMENTS/libpy/sp_alignment.py:837-840 | the ring length is a power of two above jp |
| Polar.RingWeOf | EMAN2/sphire/archive/utils/00_NO_COMMENTS/libpy/sp_alignment.py:878-892 | one weight per ring, numr[3i]·dpi/numr[3i+2]·maxrin/numr[3i+2] with maxrin the last entry; empty or zero-length input is an error |
| Polar.RingWe | EMAN2/sphire/archive/utils/00_NO_COMMENTS/libpy/sp_alignment.py:878-892 | the loop computes those weights |
| Polar.Weight | EMAN2/sphire/archive/utils/00_NO_COMMENTS/libpy/sp_alignment.py:888-891 | the weight of ring i |
| Polar.ZeroLength | EMAN2/sphire/archive/utils/00_NO_COMMENTS/libpy/sp_alignment.py:878-892 | some complete triple has length 0 |
| Polar.PositiveWeight | EMAN2/sphire/archive/utils/00_NO_COMMENTS/libpy/sp_alignment.py:891 | positive radius, length and maxrin give a positive weight |
| Polar.NumrinitWeights | EMAN2/sphire/archive/utils/00_NO_COMMENTS/libpy/sp_alignment.py:816-892 | `ringwe(Numrinit(...))` succeeds iff there is a ring, with one weight per ring |
| Polar.NumrinitWeightsPositive | EMAN2/sphire/archive/utils/00_NO_COMMENTS/libpy/sp_alignment.py:816-892 | with positive radii every weight is positive |
| Polar.WeightsPositive | EMAN2/sphire/archive/utils/00_NO_COMMENTS/libpy/sp_alignment.py:888-891 | positive radii and lengths give positive weights |
| Polar.WeightPositive | EMAN2/sphire/archive/utils/00_NO_COMMENTS/libpy/sp_alignment.py:891 | one weight is positive |
| Polar.AngN | EMAN2/sphire/archive/utils/00_NO_COMMENTS/libpy/sp_alignment.py:215-221 | an error for maxrin = 0; fmod of the peak angle by 360 ('f'/'F') or 180, in [0, 360) or [0, 180) for tot >= 1, maxrin > 0 |
| Polar.NonNegativeArgument | EMAN2/sphire/archive/utils/00_NO_COMMENTS/libpy/sp_alignment.py:215-221 | the angle fmod divides is non-negative for tot >= 1 |
| Search.SearchRange | EMAN2/sphire/archive/utils/00_NO_COMMENTS/libpy/sp_alignment.py:5729-5747 | warns iff ql or qe < 0; both limits <= range and >= 0 when range >= 0 |
| Search.SearchRangeClamped | EMAN2/sphire/archive/utils/00_NO_COMMENTS/libpy/sp_alignment.py:5739-5747 | [min(max(qe, 0), range), min(max(ql, 0), range)], upper limit first |
| Search.Clamp1 | EMAN2/sphire/archive/utils/00_NO_COMMENTS/libpy/sp_alignment.py:3721-3722 | `min(max(x, -1), 1)` |
| Search.Parabl | EMAN2/sphire/archive/utils/00_NO_COMMENTS/libpy/sp_alignment.py:3696-3724 | (0, 0, 0) when DENOM = 0; otherwise both shifts in [-1, 1] and the peak PEAKV/DENOM |
| Search.Coefficients | EMAN2/sphire/archive/utils/00_NO_COMMENTS/libpy/sp_alignment.py:3698-3709 | the six coefficients fitted to the 3x3 neighbourhood |
| Search.Denom | EMAN2/sphire/archive/utils/00_NO_COMMENTS/libpy/sp_alignment.py:3710 | the determinant DENOM of the fit |
| Search.PeakNumerator | EMAN2/sphire/archive/utils/00_NO_COMMENTS/libpy/sp_alignment.py:3718-3720 | the numerator of the fitted peak |
| Search.Offcentre | EMAN2/sphire/archive/utils/00_NO_COMMENTS/libpy/sp_alignment.py:3713-3717 | one vertex coordinate relative to the window centre |
| Search.Vertex | EMAN2/sphire/archive/utils/00_NO_COMMENTS/libpy/sp_alignment.py:3710-3724 | the vertex of the fitted coefficients, likewise |
| Search.ParablFlat | EMAN2/sphire/archive/utils/00_NO_COMMENTS/libpy/sp_alignment.py:3698-3712 | a flat 3x3 neighbourhood gives (0, 0, 0) |
| Search.ParablOffset | EMAN2/sphire/archive/utils/00_NO_COMMENTS/libpy/sp_alignment.py:3696-3724 | adding c to Z keeps the shifts and raises the peak by c |
| Search.Offset | EMAN2/sphire/archive/utils/00_NO_COMMENTS/libpy/sp_alignment.py:3696-3724 | every entry of Z raised by c |
| Search.CoefficientsOffset | EMAN2/sphire/archive/utils/00_NO_COMMENTS/libpy/sp_alignment.py:3698-3709 | an offset moves only the constant coefficient |
| Search.VertexOffset | EMAN2/sphire/archive/utils/00_NO_COMMENTS/libpy/sp_alignment.py:3710-3724 | the vertex keeps its shifts and its peak rises by c |
| Search.PeakShift | EMAN2/sphire/archive/utils/00_NO_COMMENTS/libpy/sp_alignment.py:3718-3720 | the fitted peak rises by c |
| Search.Powered | EMAN2/sphire/archive/utils/00_NO_COMMENTS/libpy/sp_alignment.py:1295-1297 | one weight per path |
| Search.Scaled | EMAN2/sphire/archive/utils/00_NO_COMMENTS/libpy/sp_alignment.py:1299-1300 | normalising keeps the length |
| Search.Sum | EMAN2/sphire/archive/utils/00_NO_COMMENTS/libpy/sp_alignment.py:1298-1299 | q[0] + ... + q[n-1], added left to right |
| Search.Cumulative | EMAN2/sphire/archive/utils/00_NO_COMMENTS/libpy/sp_alignment.py:1303-1305 | the cumulative list ends in 2.0 |
| Search.SelectK | EMAN2/sphire/archive/utils/00_NO_COMMENTS/libpy/sp_alignment.py:1286-1312 | T = 0, no paths or a zero sum are errors; otherwise the first index whose cumulative weight reaches pb, always below K |
| Search.PowerAll | EMAN2/sphire/archive/utils/00_NO_COMMENTS/libpy/sp_alignment.py:1297 | p[k] = dJe[k]**(1/T) |
| Search.DivideAll | EMAN2/sphire/archive/utils/00_NO_COMMENTS/libpy/sp_alignment.py:1300 | p[k] /= sumq in place |
| Search.Accumulate | EMAN2/sphire/archive/utils/00_NO_COMMENTS/libpy/sp_alignment.py:1303 | p[k] becomes the prefix sum up to k |
| Search.ScaledSum | EMAN2/sphire/archive/utils/00_NO_COMMENTS/libpy/sp_alignment.py:1299-1300 | the normalised sum is sum/s |
| Search.CumulativeMonotone | EMAN2/sphire/archive/utils/00_NO_COMMENTS/libpy/sp_alignment.py:1303 | non-negative weights give a non-decreasing cumulative list |
| Search.Mirror | EMAN2/sphire/archive/utils/00_NO_COMMENTS/libpy/sp_alignment.py:5771-5774 | the mirror has theta 180 - theta, the same psi, and phi (shifted by 180 mod 360) in [0, 360) |
| Search.RealModBelow | EMAN2/sphire/archive/utils/00_NO_COMMENTS/libpy/sp_alignment.py:5773 | `% 360` of a value in [0, 720) |
| Search.MirrorTwice | EMAN2/sphire/archive/utils/00_NO_COMMENTS/libpy/sp_alignment.py:5771-5774 | mirroring twice is the identity |
| Search.Block | EMAN2/sphire/archive/utils/00_NO_COMMENTS/libpy/sp_alignment.py:5765-5774 | the plain-and-mirror block has 2n entries |
| Search.Blocks | EMAN2/sphire/archive/utils/00_NO_COMMENTS/libpy/sp_alignment.py:5777-5780 | at least one block |
| Search.ReferenceAnglesLength | EMAN2/sphire/archive/utils/00_NO_COMMENTS/libpy/sp_alignment.py:5765-5781 | the list has max(nsym, 1)·2n entries |
| Search.ReferenceAnglesFirstBlock | EMAN2/sphire/archive/utils/00_NO_COMMENTS/libpy/sp_alignment.py:5765-5774 | entry i < n is (phi, theta, 0); entry n+i is its mirror |
| Search.ReferenceAnglesCopies | EMAN2/sphire/archive/utils/00_NO_COMMENTS/libpy/sp_alignment.py:5777-5789 | slot l·2n + i holds symmetry copy l of entry i, rounded to 5 digits |
| Search.ReferenceAnglesOf | EMAN2/sphire/archive/utils/00_NO_COMMENTS/libpy/sp_alignment.py:5750-5791 | block 0 and the symmetry copies in blocks 1 .. nsym-1 |
| Search.Entry | EMAN2/sphire/archive/utils/00_NO_COMMENTS/libpy/sp_alignment.py:5782-5789 | entry k: copy k / m of block entry k % m |
| Search.Rounded | EMAN2/sphire/archive/utils/00_NO_COMMENTS/libpy/sp_alignment.py:5787-5789 | each angle rounded to 5 decimals, as Python 2 rounds |
| Search.Slot | EMAN2/sphire/archive/utils/00_NO_COMMENTS/libpy/sp_alignment.py:5787 | position i of block l |
| Search.SlotBelow | EMAN2/sphire/archive/utils/00_NO_COMMENTS/libpy/sp_alignment.py:5785-5787 | slots of the first c blocks lie below c·m |
| Search.SlotUnique | EMAN2/sphire/archive/utils/00_NO_COMMENTS/libpy/sp_alignment.py:5785-5787 | only l·m + i has quotient l and remainder i |
| Search.CopyAt | EMAN2/sphire/archive/utils/00_NO_COMMENTS/libpy/sp_alignment.py:5782-5789 | one symmetry copy |
| Search.ReferenceAngles | EMAN2/sphire/archive/utils/00_NO_COMMENTS/libpy/sp_alignment.py:5750-5791 | the loops build the reference list |
| Search.AddSymmetryCopies | EMAN2/sphire/archive/utils/00_NO_COMMENTS/libpy/sp_alignment.py:5777-5789 | the symmetry loops fill nsym blocks |
| Search.FillCopies | EMAN2/sphire/archive/utils/00_NO_COMMENTS/libpy/sp_alignment.py:5782-5789 | the `ll` loop for entry i fills the slots of i in every later block and nothing else |
| Search.Filled | EMAN2/sphire/archive/utils/00_NO_COMMENTS/libpy/sp_alignment.py:5782-5789 | copies 1 .. upto-1 of entry i are in place and every other entry is unchanged |
| Search.FilledStart | EMAN2/sphire/archive/utils/00_NO_COMMENTS/libpy/sp_alignment.py:5785 | before any copy only block 0 is filled |
| Search.FilledAll | EMAN2/sphire/archive/utils/00_NO_COMMENTS/libpy/sp_alignment.py:5782-5789 | all copies of entry i in place and nothing else changed |
| Search.CopyStep | EMAN2/sphire/archive/utils/00_NO_COMMENTS/libpy/sp_alignment.py:5786-5789 | one copy extends the filled blocks by one |
| Search.FillOne | EMAN2/sphire/archive/utils/00_NO_COMMENTS/libpy/sp_alignment.py:5785-5789 | one `ll` iteration extends the filled blocks by one |
| Fsc.FirstBelow | EMAN2/sphire/sphire/bin/sp_process.py:1594-1598 | the first index from i whose value is below crit, or len |
| Fsc.LastAtLeast | EMAN2/sphire/sphire/bin/sp_process.py:1601-1605 | the last index >= 1 below hi whose value reaches crit, or 0 |
| Fsc.CalculateFscCriterion | EMAN2/sphire/sphire/bin/sp_process.py:1588-1611 | the two loops give the crossing |
| Fsc.CriterionOf | EMAN2/sphire/sphire/bin/sp_process.py:1588-1611 | the crossing of the curve with the criterion, or IndexError |
| Fsc.LeftIndex | EMAN2/sphire/sphire/bin/sp_process.py:1592-1598 | the index before the first drop below the criterion, or the last index |
| Fsc.RightIndex | EMAN2/sphire/sphire/bin/sp_process.py:1599-1605 | the last index >= 1 reaching the criterion, or 1 |
| Fsc.Readable | EMAN2/sphire/sphire/bin/sp_process.py:1592-1605 | a Python index of a list of length n that does not raise |
| Fsc.FirstBelowAt | EMAN2/sphire/sphire/bin/sp_process.py:1594-1598 | when every value before i reaches crit, the first drop is at i or nowhere |
| Fsc.FirstBelowFrom | EMAN2/sphire/sphire/bin/sp_process.py:1594 | the scan from index 1 finds the same drop when the first value reaches crit |
| Fsc.ScanLeft | EMAN2/sphire/sphire/bin/sp_process.py:1592-1598 | the upward loop gives the left resolution and index, or IndexError |
| Fsc.ScanRight | EMAN2/sphire/sphire/bin/sp_process.py:1599-1605 | the downward loop gives the right resolution and index, or IndexError |
| Fsc.LeftIndexFirstDrop | EMAN2/sphire/sphire/bin/sp_process.py:1592-1598 | left index = (first i >= 1 with fsc < crit) - 1, or the last index |
| Fsc.RightIndexLastAbove | EMAN2/sphire/sphire/bin/sp_process.py:1599-1605 | right index = the largest j >= 1 with fsc >= crit, or 1 |
| Fsc.LeftNotAfterRight | EMAN2/sphire/sphire/bin/sp_process.py:1592-1611 | for len >= 2 the left index is <= the right index |
| Fsc.ScaleFsc | EMAN2/sphire/sphire/bin/sp_process.py:1613-1617 | defined iff x != -1, and then r·(1 + x) = 2x |
| Fsc.ScaleFscUnit | EMAN2/sphire/sphire/bin/sp_process.py:1613-1617 | maps [0, 1] into [0, 1], is >= x, and fixes exactly 0 and 1 |
| Fsc.ScaleFscMonotone | EMAN2/sphire/sphire/bin/sp_process.py:1613-1617 | it is monotone on [0, 1] |
| Fsc.ScaleForm | EMAN2/sphire/sphire/bin/sp_process.py:1617 | 2x/(1 + x) = 2 - 2/(1 + x) |
| Fsc.Angstrom | EMAN2/sphire/sphire/bin/sp_process.py:1651-1653 | pixel_size/q for q > 0, else 999.0 |
| Fsc.FreqToAngstrom | EMAN2/sphire/sphire/bin/sp_process.py:1644-1654 | the list keeps its length, entry by entry |
| Fsc.FreqToAngstromScalar | EMAN2/sphire/sphire/bin/sp_process.py:1648-1654 | a scalar is wrapped into a one-element list |
| Fsc.AngstromInverse | EMAN2/sphire/sphire/bin/sp_process.py:1652-1653 | pixel_size divided by the result gives q back |
| Fsc.Clamped | EMAN2/sphire/sphire/bin/sp_process.py:1864-1865 | every value >= 0, and non-negative values are kept |
| Fsc.ClampAndTaper | EMAN2/sphire/sphire/bin/sp_process.py:1864-1878 | the curve is clamped, then n143+1 gets (f[n143-2] + f[n143-1])/5, n143+2 gets f[n143-1]/5, later points 0 |
| Fsc.TaperShape | EMAN2/sphire/sphire/bin/sp_process.py:1864-1878 | the result is non-negative, keeps every non-negative value up to n143, and is 0 from n143+3 |
| Fsc.Tapered | EMAN2/sphire/sphire/bin/sp_process.py:1866-1878 | the taper keeps the curve length |
| Fsc.BFactorCutoff | EMAN2/sphire/sphire/bin/sp_process.py:1948-1952 | (first index with fsc < 0.143) - 1, or len - 2; NameError for an empty curve |
| Fsc.CutoffAndCrossing | EMAN2/sphire/sphire/bin/sp_process.py:1949-1952 | the cutoff equals the left 0.143 crossing, or lies one below it when the curve never drops |
| Fsc.CutoffOf | EMAN2/sphire/sphire/bin/sp_process.py:1948-1952 | the index before the first value below 0.143, or len - 2; NameError for an empty curve |
| ProcTxt.ParseSpec | EMAN2/programs/e2proctxt.py:53-66 | no colon gives (0, -1, 1); otherwise 2 to 4 fields, the step of a 4-field spec is int or 1 |
| ProcTxt.SpecUpTo | EMAN2/programs/e2proctxt.py:56 | "f:n1" gives (0, n1, 1) |
| ProcTxt.SpecBetween | EMAN2/programs/e2proctxt.py:57 | "f:n0:n1" gives (n0, n1, 1) |
| ProcTxt.Kept | EMAN2/programs/e2proctxt.py:74-75 | a line is data iff it does not start with '#' and is not blank |
| ProcTxt.Test | EMAN2/programs/e2proctxt.py:78 | a line number selected by the range lies in [n0, n1) (n1 < 0: no upper bound); with step 1 every such number is selected; ZeroDivisionError exactly when ns = 0 and the number is in [n0, n1) |
| ProcTxt.Count | EMAN2/programs/e2proctxt.py:73-78 | at most one selected per line |
| ProcTxt.CountNext | EMAN2/programs/e2proctxt.py:78 | one more line number adds 1 iff the range selects it |
| ProcTxt.CountErr | EMAN2/programs/e2proctxt.py:78 | the first ZeroDivisionError ends the count |
| ProcTxt.CountAll | EMAN2/programs/e2proctxt.py:78 | the default range selects every line number |
| ProcTxt.CountMono | EMAN2/programs/e2proctxt.py:78 | the count grows with the lines counted |
| ProcTxt.IntOr | EMAN2/programs/e2proctxt.py:59-63 | `int(s)` or the default where it raises |
| ProcTxt.NoColonInInt | EMAN2/programs/e2proctxt.py:54-63 | a printed int holds no colon |
| ProcTxt.SplitThree | EMAN2/programs/e2proctxt.py:54-57 | a three-field spec splits into its fields |
| ProcTxt.FileLines | EMAN2/programs/e2proctxt.py:73 | the lines a file yields are non-empty |
| ProcTxt.IsData | EMAN2/programs/e2proctxt.py:74-75 | a data line neither starts with # nor is blank |
| ProcTxt.Data | EMAN2/programs/e2proctxt.py:73-77 | the stripped data lines of the first n lines, at most n of them |
| ProcTxt.DataPrefix | EMAN2/programs/e2proctxt.py:73-77 | the data lines of a prefix begin those of a longer prefix |
| ProcTxt.DataNext | EMAN2/programs/e2proctxt.py:74-77 | a data line adds its stripped text; other lines add nothing |
| ProcTxt.LabelParts | EMAN2/programs/e2proctxt.py:80-84 | the labels of a # line |
| ProcTxt.Labels | EMAN2/programs/e2proctxt.py:80-86 | the labels kept after the first n lines |
| ProcTxt.FirstPassOf | EMAN2/programs/e2proctxt.py:70-86 | the first pass: the count, the last data line and the labels |
| ProcTxt.FirstPassErr | EMAN2/programs/e2proctxt.py:78 | a ZeroDivisionError in the count is the error of the first pass |
| ProcTxt.LastOf | EMAN2/programs/e2proctxt.py:76 | the last data line exists iff there is data |
| ProcTxt.FirstPass | EMAN2/programs/e2proctxt.py:70-86 | the first pass numbers the data lines from 1 |
| ProcTxt.CountLine | EMAN2/programs/e2proctxt.py:73-86 | one iteration of the first pass |
| ProcTxt.DataStep | EMAN2/programs/e2proctxt.py:74-77 | a data line is appended stripped; other lines add nothing |
| ProcTxt.ParseFloats | EMAN2/programs/e2proctxt.py:102 | one value per field |
| ProcTxt.Broadcast | EMAN2/programs/e2proctxt.py:103 | a row of nc values or one broadcast value fills nc columns |
| ProcTxt.Fill | EMAN2/programs/e2proctxt.py:96-105 | at most nr rows of nc values, one per selected 0-based data line |
| ProcTxt.Zeros | EMAN2/programs/e2proctxt.py:92 | `np.zeros((nr, nc))` |
| ProcTxt.ReadFile | EMAN2/programs/e2proctxt.py:44-108 | the two passes read the table as written |
| ProcTxt.ReadOf | EMAN2/programs/e2proctxt.py:44-108 | what `readfile` returns |
| ProcTxt.Passed | EMAN2/programs/e2proctxt.py:94-105 | the table and row count of the second pass |
| ProcTxt.PassedErr | EMAN2/programs/e2proctxt.py:94-105 | an error on a prefix of the data lines is the error of the pass |
| ProcTxt.PassedOk | EMAN2/programs/e2proctxt.py:94-105 | a fill of every data line is the outcome of the pass |
| ProcTxt.FillErr | EMAN2/programs/e2proctxt.py:100-105 | an error stops the fill |
| ProcTxt.UpdateZeros | EMAN2/programs/e2proctxt.py:92-104 | writing the next row over the zero padding |
| ProcTxt.ReadFillErr | EMAN2/programs/e2proctxt.py:94-107 | `readfile` fails with the error the second pass stops on |
| ProcTxt.SecondPass | EMAN2/programs/e2proctxt.py:94-105 | the second pass fills rows for 0-based data lines |
| ProcTxt.ScanLine | EMAN2/programs/e2proctxt.py:98-105 | one iteration of the second pass |
| ProcTxt.FillLine | EMAN2/programs/e2proctxt.py:100-105 | one data line of the second pass |
| ProcTxt.FillTake | EMAN2/programs/e2proctxt.py:101-104 | a selected line within the table adds its row |
| ProcTxt.FillOverrun | EMAN2/programs/e2proctxt.py:101-103 | a selected line beyond nr rows raises IndexError |
| ProcTxt.FillSkip | EMAN2/programs/e2proctxt.py:101 | an unselected line changes nothing |
| ProcTxt.DefaultRangeConsistent | EMAN2/programs/e2proctxt.py:70-107 | with the default range every data line is read and nr equals r |
| ProcTxt.UpToTwoOverruns | EMAN2/programs/e2proctxt.py:73-107 | the file "1", "2", "3" with ":2" raises IndexError as written |
| ProcTxt.ThreeDigitLines | EMAN2/programs/e2proctxt.py:73-77 | the file "1", "2", "3" has those three data lines |
| ProcTxt.ThreeCounted | EMAN2/programs/e2proctxt.py:78 | the range :2 counts one line of that file |
| ProcTxt.ThreeFilled | EMAN2/programs/e2proctxt.py:101-103 | the second pass overruns the one-row table |
| ProcTxt.TwoSelectedFill | EMAN2/programs/e2proctxt.py:101-104 | two selected parsing lines overrun a one-row table |
| ProcTxt.FillLastRow | EMAN2/programs/e2proctxt.py:101-104 | two selected lines in a row overrun a table with room for one |
| ProcTxt.DigitLine | EMAN2/programs/e2proctxt.py:74-75 | a one-digit line is a data line holding the digit |
| ProcTxt.DigitData | EMAN2/programs/e2proctxt.py:74-77 | a one-digit data line adds its digit |
| ProcTxt.DigitField | EMAN2/programs/e2proctxt.py:102 | a single digit is one field |
| ProcTxt.DigitParses | EMAN2/programs/e2proctxt.py:102 | a one-digit field parses to its value |
| ProcTxt.ParseOne | EMAN2/programs/e2proctxt.py:102 | a single field parses to its value |
| ProcTxt.ReadFixedConsistent | EMAN2/programs/e2proctxt.py:73-107 | if both passes number from 0, no range overruns and nr equals r |
| ProcTxt.ReadFixedOf | EMAN2/programs/e2proctxt.py:70-107 | the reading with both passes numbering from 0 |
| ProcTxt.NoOverrun | EMAN2/programs/e2proctxt.py:96-105 | a fill sized by its own count never overruns |
| ProcTxt.LabelsLongest | EMAN2/programs/e2proctxt.py:80-86 | the labels are the longest non-empty ';' split of a '#' line, the first of that length |
| ProcTxt.RowsNoLabels | EMAN2/programs/e2proctxt.py:80-86 | lines not starting with # leave the labels unchanged |
| ProcTxt.Written | EMAN2/programs/e2proctxt.py:123-131 | the header, then one tab-joined line per row |
| ProcTxt.RowLine | EMAN2/programs/e2proctxt.py:128-131 | the formatted values of a row joined by tabs |
| ProcTxt.Header | EMAN2/programs/e2proctxt.py:125-127 | the label line, written only for a non-empty list |
| ProcTxt.PlainLabels | EMAN2/programs/e2proctxt.py:125-127 | labels with no ; and no edge blanks |
| ProcTxt.JoinStart | EMAN2/programs/e2proctxt.py:130 | a tab join does not start with # when no part does |
| ProcTxt.JoinEnds | EMAN2/programs/e2proctxt.py:126 | the ends of a join are the ends of its first and last parts |
| ProcTxt.WriteFile | EMAN2/programs/e2proctxt.py:110-132 | the writer's loop produces those lines |
| ProcTxt.LabelsRoundTrip | EMAN2/programs/e2proctxt.py:125-131 | reading back what was written yields the labels when they hold no ';' and no edge blanks |
| ProcTxt.HeaderLabels | EMAN2/programs/e2proctxt.py:125-127 | the header is one '#' line whose parts are the labels |
| ProcTxt.RowLinesPlain | EMAN2/programs/e2proctxt.py:128-131 | data lines never start with '#' |
| ProcTxt.RowLineStart | EMAN2/programs/e2proctxt.py:129-130 | a row line is non-empty and does not start with '#' |
| ProcTxtMerge.Body | EMAN2/programs/e2proctxt.py:303-305 | the part kept holds no '#'; a line without '#' is kept as it is, unstripped |
| ProcTxtMerge.Fields | EMAN2/programs/e2proctxt.py:303-309 | a line is skipped iff its body is empty; else split on ',', else ';', else whitespace |
| ProcTxtMerge.RowsOf | EMAN2/programs/e2proctxt.py:302-311 | at most one row per line |
| ProcTxtMerge.ReadEvery | EMAN2/programs/e2proctxt.py:302-311 | lines that each read as one row give those rows in order |
| ProcTxtMerge.ReadRows | EMAN2/programs/e2proctxt.py:299-311 | the reading loop collects those rows |
| ProcTxtMerge.CommentSkipped | EMAN2/programs/e2proctxt.py:303-306 | a pure comment line is skipped |
| ProcTxtMerge.BlankLineRow | EMAN2/programs/e2proctxt.py:306-309 | a blank line with no '#' is not stripped and yields an empty row |
| ProcTxtMerge.CommaRoundTrip | EMAN2/programs/e2proctxt.py:307 | comma-joined fields split back to the same fields |
| ProcTxtMerge.Mismatch | EMAN2/programs/e2proctxt.py:320-323 | the first adjacent pair with different row counts, or none |
| ProcTxtMerge.MismatchAt | EMAN2/programs/e2proctxt.py:320-323 | the first unequal adjacent pair is the one reported |
| ProcTxtMerge.MismatchFrom | EMAN2/programs/e2proctxt.py:320-323 | the mismatch found first stays the one reported |
| ProcTxtMerge.Merge | EMAN2/programs/e2proctxt.py:319-326 | the in-place row extension computes the merge as written (MergeAsWritten): the mismatch message repeats the first row count |
| ProcTxtMerge.MergeOf | EMAN2/programs/e2proctxt.py:319-326 | the merge with both row counts of a mismatch reported |
| ProcTxtMerge.MergeAsWritten | EMAN2/programs/e2proctxt.py:319-326 | the merge with the first count printed twice |
| ProcTxtMerge.SameRows | EMAN2/programs/e2proctxt.py:320-323 | the first n files have as many rows as the first |
| ProcTxtMerge.MergedRow | EMAN2/programs/e2proctxt.py:325-326 | row r of the first k files pasted together |
| ProcTxtMerge.Width | EMAN2/programs/e2proctxt.py:325-326 | the fields of row r in the first f files |
| ProcTxtMerge.WidthMono | EMAN2/programs/e2proctxt.py:325-326 | the width grows with the files joined |
| ProcTxtMerge.OutLines | EMAN2/programs/e2proctxt.py:329-331 | each row is written tab-joined with a newline |
| ProcTxtMerge.WriteRows | EMAN2/programs/e2proctxt.py:328-331 | the writing loop produces those lines |
| ProcTxtMerge.MergedIff | EMAN2/programs/e2proctxt.py:320-331 | the merge succeeds iff there is an input and all row counts agree |
| ProcTxtMerge.MismatchReported | EMAN2/programs/e2proctxt.py:321-323 | a mismatch names two adjacent files and their two different row counts |
| ProcTxtMerge.MismatchMisreported | EMAN2/programs/e2proctxt.py:322 | the message as written repeats the first count |
| ProcTxtMerge.MergedWidth | EMAN2/programs/e2proctxt.py:325-326 | a merged row is as wide as the rows it joins |
| ProcTxtMerge.MergedPart | EMAN2/programs/e2proctxt.py:325-326 | row r of file f sits in the merged row right after the rows of the earlier files |
| ProcTxtMerge.MergeSingle | EMAN2/programs/e2proctxt.py:320-326 | a single file is copied |
| ProcTxtMerge.OutLineRoundTrip | EMAN2/programs/e2proctxt.py:328-331 | a written row of plain words reads back as the same fields |
| ProcTxtMerge.Word | EMAN2/programs/e2proctxt.py:329-331 | a field with no separator, comment or blank character |
| ProcTxtMerge.WordRow | EMAN2/programs/e2proctxt.py:329-331 | a non-empty row of such fields |
| ProcTxtMerge.OutputRoundTrip | EMAN2/programs/e2proctxt.py:302-331 | the merged output reads back as the merged rows |
| Gmm.KeyInt | EMAN2/programs/e2gmm.py:82 | `int(k)`: an int key is kept; a float key always converts, a non-negative one to a non-negative int; a string key converts iff it parses |
| Gmm.KeyInts | EMAN2/programs/e2gmm.py:82-84 | every key converts, or some key does not |
| Gmm.MaxOf | EMAN2/programs/e2gmm.py:86 | `max(ks)` is in ks and bounds it |
| Gmm.LeastMissing | EMAN2/programs/e2gmm.py:86-87 | the least value of [lo, bound) missing from ks, or none |
| Gmm.GoodNum | EMAN2/programs/e2gmm.py:78-87 | as written: 0 for None or empty; "dictionary with non-integer keys" iff a key does not convert, else "ValueError" iff every key is <= -2; otherwise the lowest missing non-negative key, <= max(keys) + 1 |
| Gmm.GoodNumCorrected | EMAN2/programs/e2gmm.py:78-87 | with the range reaching 0: 0 for None or empty; an error iff a key does not convert; else the lowest missing non-negative key |
| Gmm.LowestMissing | EMAN2/programs/e2gmm.py:86-87 | n is the lowest non-negative integer the keys lack |
| Gmm.GoodNumAgrees | EMAN2/programs/e2gmm.py:81-87 | agrees with the code as written when some key is >= -1 |
| Gmm.GoodNumAllNegative | EMAN2/programs/e2gmm.py:86-87 | keys all <= -2: ValueError as written, 0 corrected |
| Gmm.GoodNumMinusTwo | EMAN2/programs/e2gmm.py:86-87 | the dictionary {-2: ...} |
| Gmm.Numrng | EMAN2/programs/e2gmm.py:242-245 | "-" for 0, "0" for any other value |
| Gmm.Butval | EMAN2/programs/e2gmm.py:70-72 | 1 iff checked, else 0 |
| Gmm.Butstr | EMAN2/programs/e2gmm.py:74-76 | "1" iff checked, else "0" |
| Gmm.ButstrOfButval | EMAN2/programs/e2gmm.py:70-76 | butstr is the decimal text of butval |
| TagVersion.Index | EMAN2/utils/tag_new_version.py:10-13 | each bump kind names one of the three version components |
| TagVersion.VersionTags | EMAN2/utils/tag_new_version.py:27 | exactly the tags starting with 'v' |
| TagVersion.IsVTag | EMAN2/utils/tag_new_version.py:27 | `t.startswith('v')` |
| TagVersion.Greatest | EMAN2/utils/tag_new_version.py:27-30 | the lexicographically greatest tag |
| TagVersion.StrLe | EMAN2/utils/tag_new_version.py:27-30 | Python's string order: lexicographic by code point |
| TagVersion.StrLeTotal | EMAN2/utils/tag_new_version.py:27-30 | string order is total |
| TagVersion.StrLeTrans | EMAN2/utils/tag_new_version.py:27-30 | string order is transitive |
| TagVersion.LatestTag | EMAN2/utils/tag_new_version.py:27-30 | the greatest 'v' tag, or IndexError when there is none |
| TagVersion.StringOrderDecides | EMAN2/utils/tag_new_version.py:27-30 | string order picks v2.9 over v2.10 |
| TagVersion.ParseInts | EMAN2/utils/tag_new_version.py:36 | every part parses, or some part does not |
| TagVersion.ParseVersion | EMAN2/utils/tag_new_version.py:31-36 | one component per '.' part, or ValueError |
| TagVersion.Padded | EMAN2/utils/tag_new_version.py:38-39 | padded with zeros to at least 3 components, prefix kept |
| TagVersion.Pad | EMAN2/utils/tag_new_version.py:38-39 | the `while` loop pads |
| TagVersion.BumpedSpec | EMAN2/utils/tag_new_version.py:43-50 | the selected component rises by 1, the components before it are kept and those after it become 0 |
| TagVersion.Bumped | EMAN2/utils/tag_new_version.py:43-50 | component i plus one, the later ones zero, the earlier ones kept |
| TagVersion.Zeros | EMAN2/utils/tag_new_version.py:47-50 | n zero components |
| TagVersion.ListLess | EMAN2/utils/tag_new_version.py:43-50 | Python's list order on lists of one length |
| TagVersion.BumpIncreases | EMAN2/utils/tag_new_version.py:43-50 | the bumped version is greater in list order |
| TagVersion.Bump | EMAN2/utils/tag_new_version.py:43-50 | the increment and the reset loop |
| TagVersion.Strs | EMAN2/utils/tag_new_version.py:54 | `str` of each component |
| TagVersion.Dotted | EMAN2/utils/tag_new_version.py:54 | `'.'.join` of the components |
| TagVersion.IntToStrNoDot | EMAN2/utils/tag_new_version.py:54 | a printed int holds no dot |
| TagVersion.ParseStrs | EMAN2/utils/tag_new_version.py:36-54 | the printed components parse back |
| TagVersion.DottedRoundTrip | EMAN2/utils/tag_new_version.py:36-54 | the dotted version parses back to its components |
| TagVersion.NewRelease | EMAN2/utils/tag_new_version.py:16-55 | `main` up to the git commands |
| TagVersion.ReleaseOf | EMAN2/utils/tag_new_version.py:16-55 | what `main` computes from the tags before the git commands |
| TagVersion.Tag | EMAN2/utils/tag_new_version.py:57-69 | the tag pushed: v and the version |
| TagVersion.ReleaseSpec | EMAN2/utils/tag_new_version.py:27-69 | errors iff no 'v' tag or the version does not parse; else tag 'v'+version parses to the bumped, greater version |
| Df3.UShort | EMAN2/libEM/io/df3io.cpp:102-104 | the cast to unsigned short lies in [0, 65536) and keeps values already there |
| Df3.BigEndian | EMAN2/libEM/io/df3io.cpp:112 | w bytes |
| Df3.BigEndianRoundTrip | EMAN2/libEM/io/df3io.cpp:67 | decoding big-endian bytes gives the value back |
| Df3.EncodeHeader | EMAN2/libEM/io/df3io.cpp:102-116 | the header is 6 bytes |
| Df3.HeaderRoundTrip | EMAN2/libEM/io/df3io.cpp:75-90 | the shorts at 0, 2, 4 decode to nx, ny, nz truncated to 16 bits |
| Df3.ShortAt | EMAN2/libEM/io/df3io.cpp:75-86 | the unsigned short at byte k, swapped to host order |
| Df3.ShortFrom | EMAN2/libEM/io/df3io.cpp:75-86 | reads the big-endian unsigned short at k |
| Df3.HeaderByteOrder | EMAN2/libEM/io/df3io.cpp:215-223 | always big-endian, never complex; the high byte of nx comes first |
| Df3.IsImageBigEndian | EMAN2/libEM/io/df3io.cpp:215-218 | DF3 is always big-endian |
| Df3.IsComplexMode | EMAN2/libEM/io/df3io.cpp:220-223 | DF3 holds only real images |
| Df3.Payload | EMAN2/libEM/io/df3io.cpp:186-201 | w bytes per voxel |
| Df3.PayloadAt | EMAN2/libEM/io/df3io.cpp:188-189 | voxel i occupies bytes [i·w, i·w + w) |
| Df3.Element | EMAN2/libEM/io/df3io.cpp:140-164 | element i of a w-byte layout behind the header, decoded big-endian |
| Df3.FromBigEndian | EMAN2/libEM/io/df3io.cpp:145-152 | the value of bytes read most significant first |
| Df3.PayloadSlice | EMAN2/libEM/io/df3io.cpp:140-159 | element i occupies bytes [6 + i·w, 6 + i·w + w) |
| Df3.WidthAsWritten | EMAN2/libEM/io/df3io.cpp:141-164 | the width from fsize/image_size as written is 1, 2 or 4 |
| Df3.WidthOf | EMAN2/libEM/io/df3io.cpp:141-164 | a width of 1, 2 or 4 the data after the header can hold |
| Df3.DataRoundTrip | EMAN2/libEM/io/df3io.cpp:140-164 | a file written with w-byte voxels reads back with width w and every voxel unchanged |
| Df3.WidthRoundTrip | EMAN2/libEM/io/df3io.cpp:141 | 6 + w·n bytes give width w |
| Df3.ElementRoundTrip | EMAN2/libEM/io/df3io.cpp:140-159 | voxel i reads back |
| Df3.WidthAgreesLarge | EMAN2/libEM/io/df3io.cpp:133-141 | with more than 6 voxels the code as written picks the right width |
| Df3.WrittenReadsBack | EMAN2/libEM/io/df3io.cpp:124-208 | a written volume of more than six voxels reads back as written, voxel for voxel |
| Df3.SmallVolumeMisread | EMAN2/libEM/io/df3io.cpp:133-141 | a 6-voxel 1-byte volume is read as 2-byte voxels as written |
| Df3.Resolved | EMAN2/libEM/io/df3io.cpp:177-180 | compressed data becomes uchar for renderbits <= 8, ushort for <= 16; other types are kept |
| Df3.RenderBits | EMAN2/libEM/io/df3io.cpp:182-183 | renderbits becomes the true bit count when 0 or too large, else is kept |
| Df3.TrueBits | EMAN2/libEM/io/df3io.cpp:182 | `EMDataTypeBits[dt]` |
| Df3.WriteWidth | EMAN2/libEM/io/df3io.cpp:186-204 | only uint, ushort and uchar are written, at their byte width |
| Df3.CompressedWidth | EMAN2/libEM/io/df3io.cpp:177-204 | compressed data is written as 1 or 2 bytes, or rejected above 16 bits |
| Df3.Df3File.constructor | EMAN2/libEM/io/df3io.cpp:61-62 | the file's contents, zero sizes |
| Df3.Df3File.Valid | EMAN2/libEM/io/df3io.cpp:102-104 | the sizes are unsigned shorts |
| Df3.Df3File.ReadHeader | EMAN2/libEM/io/df3io.cpp:68-95 | a new file leaves the dict untouched; a file shorter than one short is an error; else nx, ny, nz are the big-endian shorts and are stored in the dict |
| Df3.Df3File.WriteHeader | EMAN2/libEM/io/df3io.cpp:97-122 | sizes truncated to 16 bits, written big-endian at offset 0 |
| Df3.Df3File.ReadData | EMAN2/libEM/io/df3io.cpp:124-168 | as written, with the width fsize/image_size counting the header: an error leaving rdata unchanged iff that width is not 1, 2 or 4; else every voxel the file holds in full is its big-endian element, the others keep the stale buffer, and entries past the volume are kept |
| Df3.Df3File.WriteData | EMAN2/libEM/io/df3io.cpp:170-208 | renderbits is resolved; other types are an error; else the payload follows the header big-endian |
| Df3.Encode | EMAN2/libEM/io/df3io.cpp:186-201 | the encoding loop produces the payload |
| ProcNdPar.StepCovers | EMAN2/examples/e2procnd_par.py:34 | step = num//threads + 1 >= 1 and threads·step > num |
| ProcNdPar.Partition | EMAN2/examples/e2procnd_par.py:33-46 | ZeroDivisionError for 0 threads; else the loop's nthd and chunks |
| ProcNdPar.Step | EMAN2/examples/e2procnd_par.py:34 | `old_div(num, nthd) + 1` |
| ProcNdPar.NumChunks | EMAN2/examples/e2procnd_par.py:39-42 | no chunks for negative threads, else ceil(num/step) |
| ProcNdPar.ChunkAt | EMAN2/examples/e2procnd_par.py:44 | chunk k: td·step to min(num - 1, td·step + step - 1) |
| ProcNdPar.ChunksUpTo | EMAN2/examples/e2procnd_par.py:39-44 | the first n chunks |
| ProcNdPar.ChunkIndex | EMAN2/examples/e2procnd_par.py:39-44 | entry k of the chunk list is chunk k |
| ProcNdPar.Chunks | EMAN2/examples/e2procnd_par.py:33-46 | the chunks the loop runs |
| ProcNdPar.CeilIsFirst | EMAN2/examples/e2procnd_par.py:39-42 | the chunk count is the first td with td·step >= num |
| ProcNdPar.ChunksCover | EMAN2/examples/e2procnd_par.py:33-46 | at most `threads` chunks, none iff num = 0, contiguous and disjoint, covering exactly [0, num-1], each shorter than step |
| ProcNdPar.ChunkCount | EMAN2/examples/e2procnd_par.py:39-42 | nthd is the first td with td·step >= num |
| ProcNdPar.ChunkBounds | EMAN2/examples/e2procnd_par.py:44 | every chunk is non-empty and spans fewer than step images |
| ProcNdPar.ChunkAdjacent | EMAN2/examples/e2procnd_par.py:44 | each chunk starts right after the previous one |
| ProcNdPar.ChunkOf | EMAN2/examples/e2procnd_par.py:39-44 | every image index lies in some chunk |
| ProcNdPar.ZeroPad2Value | EMAN2/examples/e2procnd_par.py:36 | `{:02d}` has the value i |
| ProcNdPar.TmpNamesDistinct | EMAN2/examples/e2procnd_par.py:35-36 | distinct chunks get distinct temp names outfile[:pt] + "_tmp_%02d" + outfile[pt:] |
| ProcNdPar.UndottedName | EMAN2/examples/e2procnd_par.py:35-36 | a name without '.' gets the tag before its last character, since rfind returns -1: "out" becomes "ou_tmp_00t" |
| ProcNdPar.TmpName | EMAN2/examples/e2procnd_par.py:35-36 | the temporary output name of chunk i |
| ProcNdPar.FormatAround | EMAN2/examples/e2procnd_par.py:43 | `format(fname=v)` replaces the one field and keeps brace-free text |
| ProcNdPar.FormatTemplate | EMAN2/examples/e2procnd_par.py:26-43 | the template formats to the command with token 2 replaced by v |
| ProcNdPar.Format | EMAN2/examples/e2procnd_par.py:43 | `s.format(fname=v)` |
| ProcNdPar.BraceFree | EMAN2/examples/e2procnd_par.py:43 | no brace |
| ProcNdPar.Cons | EMAN2/examples/e2procnd_par.py:43 | text in front of a format result |
| ProcNdPar.FormatChar | EMAN2/examples/e2procnd_par.py:43 | a non-brace character formats to itself |
| ProcNdPar.FormatPlain | EMAN2/examples/e2procnd_par.py:43 | brace-free text formats to itself |
| ProcNdPar.FormatField | EMAN2/examples/e2procnd_par.py:43 | the placeholder formats to the file name |
| ProcNdPar.JoinAround | EMAN2/examples/e2procnd_par.py:26-27 | the space join around one field |
| ProcNdPar.JoinAppend | EMAN2/examples/e2procnd_par.py:26-27 | the space join of two non-empty lists |
| ProcNdPar.BraceFreeJoin | EMAN2/examples/e2procnd_par.py:26-27 | a join of brace-free fields is brace-free |
| ProcNdPar.FindChar | EMAN2/examples/e2procnd_par.py:26-27 | the first index of c, or -1 |
| ProcNdPar.CommandsFrom | EMAN2/examples/e2procnd_par.py:39-44 | one command per remaining chunk |
| ProcNdPar.Launch | EMAN2/examples/e2procnd_par.py:20-46 | `main` up to the thread start |
| ProcNdPar.Lines | EMAN2/examples/e2procnd_par.py:43-44 | one command line per chunk |
| ProcNdPar.CommandsSpec | EMAN2/examples/e2procnd_par.py:39-44 | the commands from chunk k on are the expected lines |
| ProcNdPar.RangeArgs | EMAN2/examples/e2procnd_par.py:44 | " --first {} --last {} " of a chunk |
| ProcNdPar.LaunchOf | EMAN2/examples/e2procnd_par.py:20-46 | the commands `main` starts |
| ProcNdPar.LineOf | EMAN2/examples/e2procnd_par.py:43-44 | the command of chunk k |
| ProcNdPar.CommandsStep | EMAN2/examples/e2procnd_par.py:39-44 | the commands from chunk k are its line and then the rest |
| ProcNdPar.Prepend | EMAN2/examples/e2procnd_par.py:39-44 | commands in front of a result |
| ProcNdPar.PrependStep | EMAN2/examples/e2procnd_par.py:39-44 | prepending twice prepends both |
| ProcNdPar.LaunchSpec | EMAN2/examples/e2procnd_par.py:20-46 | with threads > 0 the commands are the original tokens with only token 2 renamed, plus --first/--last of each chunk |
| ProcNdPar.LaunchErrors | EMAN2/examples/e2procnd_par.py:23-42 | fewer than 3 tokens: IndexError; 0 threads: ZeroDivisionError; negative threads: no commands |
| PyNum.FloorDiv | EMAN2/examples/e2procnd_par.py:34 | Python's // on ints rounds toward negative infinity |
| PyNum.FloorMod | EMAN2/programs/e2proctxt.py:78 | Python's % on ints takes the divisor's sign |
| PyNum.Trunc | EMAN2/sphire/archive/utils/SPHIRE/libpy/sp_fundamentals.py:2223 | `int(x)` rounds toward zero |
| PyNum.RealMod | EMAN2/sphire/archive/utils/SPHIRE/libpy/sp_fundamentals.py:2242 | float % by a positive m lies in [0, m) and differs from x by a multiple of m |
| PyNum.PyRealMod | EMAN2/sphire/archive/utils/SPHIRE/libpy/sp_fundamentals.py:2232 | float % takes the divisor's sign |
| PyNum.FMod | EMAN2/sphire/archive/utils/00_NO_COMMENTS/libpy/sp_alignment.py:219-221 | C fmod takes the sign of x |
| PyNum.Pow2 | EMAN2/sphire/archive/utils/00_NO_COMMENTS/libpy/sp_alignment.py:838 | 2**k is at least 1 |
| PyNum.Round | EMAN2/sphire/archive/utils/SPHIRE/libpy/sp_fundamentals.py:1549 | numpy.round(x, d) is within half a unit of the d-th decimal |
| PyNum.RoundInt | EMAN2/sphire/archive/utils/SPHIRE/libpy/sp_fundamentals.py:1549 | rounding keeps whole numbers |
| PyNum.PyRound | EMAN2/sphire/archive/utils/00_NO_COMMENTS/libpy/sp_alignment.py:5787-5789 | Python 2 round(x, d) is within half a unit of the d-th decimal |
| PyNum.RoundHalfEven | EMAN2/sphire/archive/utils/SPHIRE/libpy/sp_fundamentals.py:1549 | nearest integer, ties to even |
| PyNum.RoundHalfAway | EMAN2/sphire/archive/utils/00_NO_COMMENTS/libpy/sp_alignment.py:5787-5789 | nearest integer, ties away from zero |
| PyNum.UnshiftShift | EMAN2/sphire/archive/utils/SPHIRE/libpy/sp_fundamentals.py:1549 | scaling by 10^d and back is the identity |
| PyNum.Pow10 | EMAN2/sphire/archive/utils/SPHIRE/libpy/sp_fundamentals.py:1549 | 10^d is at least 1 |
| PyNum.UnshiftTen | EMAN2/sphire/archive/utils/SPHIRE/libpy/sp_fundamentals.py:1549 | scaling down d decimals commutes with a factor of ten |
| PyNum.ShiftInt | EMAN2/sphire/archive/utils/SPHIRE/libpy/sp_fundamentals.py:1549 | scaling an integer up by 10^d stays an integer |
| PyNum.Min | EMAN2/examples/e2procnd_par.py:44 | `min` of two ints |
| PyNum.Max | EMAN2/programs/e2gmm.py:86 | `max` of two ints |
| PyNum.RMin | EMAN2/sphire/archive/utils/00_NO_COMMENTS/libpy/sp_alignment.py:5739-5747 | `min` of two floats |
| PyNum.RMax | EMAN2/sphire/archive/utils/00_NO_COMMENTS/libpy/sp_alignment.py:5739-5747 | `max` of two floats |
| PyNum.PyIndex | EMAN2/sphire/sphire/bin/sp_process.py:1592 | a negative index counts from the end |
| PyNum.DivModUnique | EMAN2/sphire/archive/utils/00_NO_COMMENTS/libpy/sp_alignment.py:838 | Euclidean division is fixed by its defining equation |
| PyStr.IsSpace | EMAN2/programs/e2proctxt.py:74 | ASCII whitespace |
| PyStr.WhitespaceIsSpace | EMAN2/programs/e2proctxt.py:74 | the whitespace set and the predicate agree |
| PyStr.LStrip | EMAN2/programs/e2proctxt.py:74 | the leading blanks removed |
| PyStr.RStrip | EMAN2/programs/e2proctxt.py:74 | the trailing blanks removed |
| PyStr.Strip | EMAN2/programs/e2proctxt.py:74 | `str.strip()`: no blank at either end |
| PyStr.StripSlice | EMAN2/programs/e2proctxt.py:74 | the strip is the slice between the leading and trailing blank runs |
| PyStr.StripTrimmed | EMAN2/programs/e2proctxt.py:74 | a trimmed string is its own strip |
| PyStr.StripPadded | EMAN2/programs/e2proctxt.py:74 | a leading blank and a trailing newline strip off |
| PyStr.StripAvoids | EMAN2/programs/e2proctxt.py:74 | a strip holds no character its source lacks |
| PyStr.StripBlank | EMAN2/programs/e2proctxt.py:74-75 | an all-blank line strips to nothing |
| PyStr.Split | EMAN2/programs/e2proctxt.py:307 | `str.split(c)`: at least one field, none holding c |
| PyStr.SplitJoin | EMAN2/programs/e2proctxt.py:307 | splitting undoes joining when no field holds c |
| PyStr.JoinSplit | EMAN2/programs/e2proctxt.py:307 | joining undoes splitting |
| PyStr.SplitAfterField | EMAN2/programs/e2proctxt.py:307 | a field and a separator split off the front |
| PyStr.Join | EMAN2/programs/e2proctxt.py:130 | `sep.join`: a single part is itself |
| PyStr.JoinAvoids | EMAN2/programs/e2proctxt.py:126 | a join holds no character absent from its parts and separator |
| PyStr.SplitWs | EMAN2/programs/e2proctxt.py:309 | `str.split()`: non-empty words without blanks |
| PyStr.SplitWsJoin | EMAN2/programs/e2proctxt.py:309-331 | splitting a tab join of words gives the words back |
| PyStr.SplitRuns | EMAN2/programs/e2proctxt.py:88 | `re.split("[...]+", s)`: at least one field |
| PyStr.SplitRunsFree | EMAN2/programs/e2proctxt.py:88 | no field of a split holds a separator |
| PyStr.SplitRunsJoin | EMAN2/programs/e2proctxt.py:88-130 | a joined row with a newline splits back to the row and an empty field |
| PyStr.DropRun | EMAN2/programs/e2proctxt.py:88 | the leading separators dropped: shorter when one was there |
| PyStr.SplitRunsLead | EMAN2/programs/e2proctxt.py:88 | a separator-free word joins the first field |
| PyStr.SplitRunsCons | EMAN2/programs/e2proctxt.py:88 | a leading non-separator joins the first field |
| PyStr.SplitRunsEnd | EMAN2/programs/e2proctxt.py:88 | a word and one closing separator give the word and an empty field |
| PyStr.SplitRunsSep | EMAN2/programs/e2proctxt.py:88 | a word and a separator split off one field |
| PyStr.JoinLine | EMAN2/programs/e2proctxt.py:130 | a tab join with a newline is its first field, a tab and the rest |
| PyStr.NonEmpty | EMAN2/programs/e2proctxt.py:82-84 | the non-empty parts, in order |
| PyStr.NonEmptyKeeps | EMAN2/programs/e2proctxt.py:82-84 | a list without empty parts is kept |
| PyStr.NonEmptyAppend | EMAN2/programs/e2proctxt.py:82-84 | dropping empty parts works part by part |
| PyStr.Lower | EMAN2/sphire/archive/utils/SPHIRE/libpy/sp_fundamentals.py:917 | ASCII `lower()`, character by character |
| PyStr.DigitChar | EMAN2/programs/e2proctxt.py:102 | the character of a digit value reads back as that value |
| PyStr.ParseInt | EMAN2/utils/tag_new_version.py:36 | `int(s)`, None where Python raises |
| PyStr.IntToStr | EMAN2/utils/tag_new_version.py:54 | `str(n)` |
| PyStr.ParseIntToStr | EMAN2/utils/tag_new_version.py:36-54 | `int(str(n)) == n` |
| PyStr.Digits | EMAN2/utils/tag_new_version.py:54 | the decimal digits of n, no leading zero |
| PyStr.DigitsRoundTrip | EMAN2/utils/tag_new_version.py:36-54 | the digits of n read back as n |
| PyStr.RFind | EMAN2/examples/e2procnd_par.py:35 | `s.rfind(c)`: the last index of c, or -1 iff c is absent |
| PyStr.SliceBound | EMAN2/examples/e2procnd_par.py:36 | a slice bound: negative counts from the end, then clamped |
| PyStr.Prefix | EMAN2/examples/e2procnd_par.py:36 | `s[:i]` |
| PyStr.Suffix | EMAN2/examples/e2procnd_par.py:36 | `s[i:]` |
| PyStr.PrefixSuffix | EMAN2/examples/e2procnd_par.py:36 | `s[:i] + s[i:] == s` |
| PyStr.ZeroPad2 | EMAN2/examples/e2procnd_par.py:36 | `{:02d}`: at least two digits |
| PyStr.StartsWith | EMAN2/sphire/archive/utils/SPHIRE/libpy/sp_fundamentals.py:1003 | `s[:k] == prefix` |

## Left out

- The KD-tree neighbour search relies on scipy's `cKDTree`, which is foreign code.
- Numeric trigonometry is left out: `TrigLib.Trig` is a parameter. The Saff-spiral accuracy,
  the Baldwin bound values, `to_cartesian`, `goldsearch` and the `recmat`/`rotmatrix`
  numeric round trip are not modelled.
- `EMAN2_cppwrap`, `Transform`, `EMData`, `Util` and MPI calls are compiled code that
  is not part of this model:
  - `get_sym_proj` is a parameter (`symProj`);
  - the `Transform` list of `init_symmetry` is not built;
  - `nsym` of the reference-angle builder is a parameter.
- `sp_global_def` is not part of this model. A fatal `ERROR` becomes `Err`, and
  `search_range`'s non-fatal `ERROR` becomes the `warned` flag.
- Floating point is modelled as exact reals:
  - division by a trig-dependent divisor uses `TrigLib.Div`, whose 0 fallback stands in
    for IEEE inf/nan;
  - `**`, `float()` and `%` formatting are parameters (`pow`, `toFloat`, `fmt`);
  - rounding of uint values on DF3 write is not modelled.
- File and stream I/O is left out:
  - files are line or byte sequences;
  - writefile's `.bak` rename, `open`/`close` and verbose printing are not modelled;
  - the voxels a short DF3 file leaves unread keep whatever the fresh C++ buffer held,
    which is a parameter (`stale`).
- `sp_process.run` CLI branches, plotting, XML/text output and `filter_product` are not
  modelled.
- The e2gmm Qt GUI, TensorFlow and sklearn code are left out. `error_exit`, which
  e2gmm.py calls but does not define, becomes `Err`.
- e2proctxt's `--sortcomment`, dimreduce, normalize and histograms are left out.
- tag_new_version's GitHub request and git commands are left out: the tags are a
  parameter.
- e2procnd_par's image count, thread start/join, averaging and merge of outputs are left
  out.
- `Df3IO::is_valid`, `flush` and `getRender*` are not modelled; Dict keys are required
  to be present.
- `PyStr` knows ASCII whitespace only, with no Unicode case folding.
- `ProcNdPar.Format` models `{fname}` and brace escapes; other fields are only errors,
  without format specs or conversions.
- EvenAngles.SymClass.EvenAngles: requires `Terminates` (theta2 <= 180 for P/M), because
  the source loops forever once sin(theta) < 0.
- Df3.Df3File.ReadData: requires nx·ny·nz > 0, because the source then divides by zero.
- Df3.Df3File.WriteHeader: requires the nx, ny and nz keys, because a missing EMAN2
  Dict key is not modelled.
- Symmetry.OctTable: leaves the cap brackets theta and alpha unstated (so do TetTable and
  IcosTable), because they are arccos values of the trig parameter; the operators and the
  phi brackets are stated in full.
- Rotation.RecMat: states only theta in the generic branch; phi and psi come from the trig
  parameter.
- Subunit.OctIcosFarEdge: only the override facts listed are proved for oct, icos and tet
  (with Subunit.TetNorthPole), not a closed form.
- SymRelated.ReduceAnglesets: takes inc_mirror as a flag. The source uses the integer
  both as `inc_mirror == 1` and as an index into the two brackets, so any value other
  than 0 or 1 would be an IndexError there; that case is not modelled.
- SymRelated.SymmetryRelated: its own ensures states only the range; the contents are in
  SymRelated.OutputMembers and SymRelated.FullOrbit.

## Findings

| source | as written | input that shows it | evidently intended | confidence | as-written member | corrected member |
|---|---|---|---|---|---|---|
| EMAN2/sphire/archive/utils/SPHIRE/libpy/sp_fundamentals.py:743-768 | the prime list jumps from 23 to 31 | smallprime(29, numprime=10) gives 28 | 29 is among the first ten primes, so the answer is 29 | high; not executed | SmallPrime.SkipsTwentyNine | SmallPrime.SmallPrimeCorrected |
| EMAN2/programs/e2proctxt.py:73-107 | the first pass numbers data lines from 1, the second from 0 | lines "1", "2", "3" with spec ":2" end in IndexError | both passes select the same lines ("first n1 lines") | high; not executed | ProcTxt.UpToTwoOverruns | ProcTxt.ReadFixedConsistent |
| EMAN2/programs/e2proctxt.py:322 | the mismatch message prints len(data_sets[i]) twice | merging a 1-row file with a 0-row file reports 1 and 1 | the second count is len(data_sets[i+1]) | high; not executed | ProcTxtMerge.MismatchMisreported | ProcTxtMerge.MismatchReported |
| EMAN2/programs/e2gmm.py:86-87 | range(max(ks)+2) is empty when every key is <= -2, and `min` raises ValueError | a dictionary whose one key is -2 | 0, the lowest missing value >= 0 | medium; not executed | Gmm.GoodNumMinusTwo | Gmm.GoodNumCorrected |
| EMAN2/libEM/io/df3io.cpp:133-141 | the width is fsize/image_size with the 6 header bytes counted | a 1x1x6 volume of 1-byte voxels (12 bytes) is read as 2-byte voxels | the width is (fsize - 6)/image_size | medium; not executed | Df3.SmallVolumeMisread | Df3.WidthOf |
