// `is_in_subunit`: membership of a projection direction in the first asymmetric unit,
// decided by a sequence of masked assignments where a later rule overrides an earlier one.
module Subunit {
  import opened Wrappers
  import opened PyNum
  import opened PyStr
  import opened TrigLib
  import opened Rotation
  import opened Symmetry

  /** One masked assignment `condstat[mask] = value`, seen from a single direction. */
  datatype Rule = Rule(fires: bool, value: bool)

  /** The value left by a sequence of masked assignments on a False-initialised entry:
      that of the last rule that fires, or False when none does. */
  function Override(rules: seq<Rule>): bool
  {
    if |rules| == 0 then false
    else if rules[|rules| - 1].fires then rules[|rules| - 1].value
    else Override(rules[..|rules| - 1])
  }

  /** Override, restated as "some rule fires with value true and no later rule fires". */
  lemma {:induction false} OverrideLastFired(rules: seq<Rule>)
    ensures Override(rules) <==>
      exists k :: 0 <= k < |rules| && rules[k].fires && rules[k].value &&
        forall k' :: k < k' < |rules| ==> !rules[k'].fires
  {
    if |rules| > 0 {
      var n := |rules| - 1;
      OverrideLastFired(rules[..n]);
      if rules[n].fires && rules[n].value {
        assert 0 <= n < |rules| && rules[n].fires && rules[n].value;
      } else if !rules[n].fires {
        if Override(rules) {
          var k :| 0 <= k < n && rules[..n][k].fires && rules[..n][k].value &&
            forall k' :: k < k' < n ==> !rules[..n][k'].fires;
          assert forall k' :: k < k' < |rules| ==> !rules[k'].fires;
        }
        if exists k :: 0 <= k < |rules| && rules[k].fires && rules[k].value &&
             forall k' :: k < k' < |rules| ==> !rules[k'].fires {
          var k :| 0 <= k < |rules| && rules[k].fires && rules[k].value &&
            forall k' :: k < k' < |rules| ==> !rules[k'].fires;
          assert k < n;
          assert rules[..n][k] == rules[k];
        }
      }
    }
  }

  /** Extending the rule list by one rule is one more masked assignment. */
  lemma OverrideStep(rules: seq<Rule>, k: nat)
    requires k < |rules|
    ensures Override(rules[..k + 1]) == if rules[k].fires then rules[k].value else Override(rules[..k])
  {
    assert rules[..k + 1][..k] == rules[..k];
  }

  /** The bracket row used for a given inc_mirror. */
  function Bracket(tbl: SymTable, incMirror: bool): (b: seq<real>)
    requires WellFormed(tbl)
    ensures |b| == 4
  {
    tbl.brackets[if incMirror then 1 else 0]
  }

  /** Rules of the cn family. */
  function CnRules(tbl: SymTable, phi: real, theta: real, incMirror: bool): seq<Rule>
    requires WellFormed(tbl)
  {
    var b := Bracket(tbl, incMirror);
    var phi0, phiLt, thLe1 := phi >= 0.0, phi < b[0], theta <= b[1];
    var th180, th0 := theta == 180.0 && incMirror, theta == 0.0;
    [Rule(phi0 && phiLt && thLe1, true),
     Rule(th180, true),
     Rule(th0, true),
     Rule(!phi0 && !phiLt && !thLe1 && !th180 && !th0, false)] +
    (if ParseInt(tbl.sym[1..]) == Some(1) && !incMirror then [Rule(theta == 90.0 && phi >= 180.0, false)] else [])
  }

  /** Rules of the dn family when n is even. */
  function DnEvenRules(tbl: SymTable, phi: real, theta: real, incMirror: bool): seq<Rule>
    requires WellFormed(tbl)
  {
    var b := Bracket(tbl, incMirror);
    var phi0, phiLt, thLe1, th0 := phi >= 0.0, phi < b[0], theta <= b[1], theta == 0.0;
    [Rule(phi0 && phiLt && thLe1, true),
     Rule(th0, true),
     Rule(!phi0 && !phiLt && !thLe1 && !th0, false)]
  }

  /** Rules of the dn family when n is odd. */
  function DnOddRules(tbl: SymTable, phi: real, theta: real, incMirror: bool): seq<Rule>
    requires WellFormed(tbl)
  {
    var b := Bracket(tbl, incMirror);
    var phib := 360.0 / tbl.nsym as real;
    var base := theta <= b[1] && phi >= 0.0 && phi < b[0];
    var th0 := theta == 0.0;
    [Rule(base && incMirror, true),
     Rule(base && ((phi >= phib / 2.0 && phi < phib) || (phi >= phib && phi <= phib + phib / 2.0)), true),
     Rule(base && th0, true),
     Rule(!base && th0, true),
     Rule(!base && !th0, false)]
  }

  /** `min(phi, b[2] - phi)`, the distance to the nearer cap edge. */
  function TmPhi(b: seq<real>, phi: real): real
    requires |b| == 4
  {
    RMin(phi, b[2] - phi)
  }

  /** The sum inside the Baldwin bound, with `edge` the theta bracket of the far edge. */
  function BaldwinSum(t: Trig, b: seq<real>, phi: real, edge: real): real
    requires |b| == 4
  {
    var tm := TmPhi(b, phi);
    Div(Div(t.sin(b[2] / 2.0 - tm), t.tan(b[1])) + Div(t.sin(tm), t.tan(edge)), t.sin(b[2] / 2.0))
  }

  /** Rules of the oct and icos families. */
  function OctIcosRules(t: Trig, tbl: SymTable, phi: real, theta: real, incMirror: bool): seq<Rule>
    requires WellFormed(tbl)
  {
    var b := Bracket(tbl, incMirror);
    var bal := Round(AtanRecip(t, BaldwinSum(t, b, phi, b[3])), 12);
    var phi0, phiLt, thLe3, th0 := phi >= 0.0, phi < b[0], theta <= b[3], theta == 0.0;
    [Rule(phi0 && phiLt && thLe3 && bal >= theta, true),
     Rule(phi0 && phiLt && thLe3 && !(bal >= theta), false),
     Rule(!phi0 && !phiLt && !thLe3 && !th0, false),
     Rule(th0, true),
     Rule(theta <= Round(b[3], 12) && phi == Round(b[0], 12), true),
     Rule(theta == bal && phi > tbl.brackets[0][0], false),
     Rule(phi == Round(b[2], 12), false),
     Rule(th0 && phi == Round(b[3], 6), false)]
  }

  /** Rules of the tet family: a lower bound (unrounded, b[3] where its sum is 0) and an
      upper bound. */
  function TetRules(t: Trig, tbl: SymTable, phi: real, theta: real, incMirror: bool): seq<Rule>
    requires WellFormed(tbl)
  {
    var b := Bracket(tbl, incMirror);
    var sum1 := BaldwinSum(t, b, phi, b[3]);
    var bal1 := if sum1 == 0.0 then b[3] else t.atan(1.0 / sum1);
    var bal2 := AtanRecip(t, BaldwinSum(t, b, phi, b[3] / 2.0));
    var phi0, phiLt, thLe3, th0 := phi >= 0.0, phi < b[0], theta <= b[3], theta == 0.0;
    var a := phi0 && phiLt && thLe3;
    var lower := bal1 > theta && incMirror;
    var upper := Round(bal2, 12) <= Round(theta, 12);
    [Rule(a && lower, true),
     Rule(a && !lower && upper, false),
     Rule(a && !lower && !upper, true),
     Rule(a && !(bal1 > theta) && th0, true),
     Rule(a && !(bal1 > theta) && !th0, false),
     Rule(!phi0 && !phiLt && !thLe3 && th0, true),
     Rule(!phi0 && !phiLt && !thLe3 && !th0, false),
     Rule(th0, true),
     Rule(Round(theta, 12) == Round(bal1, 12) && phi > tbl.brackets[0][0] / 2.0, false),
     Rule(Round(theta, 12) == Round(bal2, 12) && theta < b[3], true)]
  }

  /** The family's rules in source order, for phi and theta already rounded to 12 digits. */
  function Rules(t: Trig, tbl: SymTable, phi: real, theta: real, incMirror: bool): (rs: seq<Rule>)
    requires WellFormed(tbl)
    ensures |rs| == RuleCount(tbl, incMirror)
  {
    match tbl.family
    case Cn => CnRules(tbl, phi, theta, incMirror)
    case Dn => if tbl.order % 2 == 0 then DnEvenRules(tbl, phi, theta, incMirror) else DnOddRules(tbl, phi, theta, incMirror)
    case Oct => OctIcosRules(t, tbl, phi, theta, incMirror)
    case Icos => OctIcosRules(t, tbl, phi, theta, incMirror)
    case Tet => TetRules(t, tbl, phi, theta, incMirror)
  }

  /** How many masked assignments the family performs; the same for every direction. */
  function RuleCount(tbl: SymTable, incMirror: bool): nat
    requires WellFormed(tbl)
  {
    match tbl.family
    case Cn => if ParseInt(tbl.sym[1..]) == Some(1) && !incMirror then 5 else 4
    case Dn => if tbl.order % 2 == 0 then 3 else 5
    case Oct => 8
    case Icos => 8
    case Tet => 10
  }

  /** `is_in_subunit` for one direction (phi, theta); theta is rounded to 12 digits first. */
  function InSubunit(t: Trig, tbl: SymTable, phi: real, theta: real, incMirror: bool): bool
    requires WellFormed(tbl)
  {
    Override(Rules(t, tbl, phi, Round(theta, 12), incMirror))
  }

  /**
   * `is_in_subunit` on a batch: every rule of the family is evaluated on every direction,
   * then the masked assignments are applied in order to `condstat`.
   */
  method IsInSubunit(t: Trig, tbl: SymTable, angles: seq<Euler>, incMirror: bool) returns (condstat: array<bool>)
    requires WellFormed(tbl)
    ensures fresh(condstat) && condstat.Length == |angles|
    ensures forall i :: 0 <= i < |angles| ==>
              condstat[i] == InSubunit(t, tbl, angles[i].phi, angles[i].theta, incMirror)
  {
    var masks := seq(|angles|, i requires 0 <= i < |angles| =>
                       Rules(t, tbl, angles[i].phi, Round(angles[i].theta, 12), incMirror));
    condstat := ApplyRules(masks, RuleCount(tbl, incMirror));
  }

  /** `condstat` starts all False; rule k sets direction i to its value where it fires. */
  method ApplyRules(masks: seq<seq<Rule>>, count: nat) returns (condstat: array<bool>)
    requires forall i :: 0 <= i < |masks| ==> |masks[i]| == count
    ensures fresh(condstat) && condstat.Length == |masks|
    ensures forall i :: 0 <= i < |masks| ==> condstat[i] == Override(masks[i])
  {
    condstat := new bool[|masks|](i => false);
    var k := 0;
    while k < count
      invariant 0 <= k <= count
      invariant forall i :: 0 <= i < |masks| ==> condstat[i] == Override(masks[i][..k])
    {
      var i := 0;
      while i < |masks|
        invariant 0 <= i <= |masks|
        invariant forall i' :: 0 <= i' < i ==> condstat[i'] == Override(masks[i'][..k + 1])
        invariant forall i' :: i <= i' < |masks| ==> condstat[i'] == Override(masks[i'][..k])
      {
        OverrideStep(masks[i], k);
        if masks[i][k].fires {
          condstat[i] := masks[i][k].value;
        }
        i := i + 1;
      }
      k := k + 1;
    }
    forall i | 0 <= i < |masks|
      ensures condstat[i] == Override(masks[i])
    {
      assert masks[i][..count] == masks[i];
    }
  }

  /** Appending one masked assignment. */
  lemma OverrideSnoc(rules: seq<Rule>, r: Rule)
    ensures Override(rules + [r]) == if r.fires then r.value else Override(rules)
  {
    assert (rules + [r])[..|rules|] == rules;
  }

  /** Four masked assignments in a row. */
  lemma OverrideFour(r0: Rule, r1: Rule, r2: Rule, r3: Rule)
    ensures Override([r0, r1, r2, r3]) ==
      if r3.fires then r3.value else if r2.fires then r2.value
      else if r1.fires then r1.value else r0.fires && r0.value
  {
    assert [] + [r0] == [r0] && [r0] + [r1] == [r0, r1];
    assert [r0, r1] + [r2] == [r0, r1, r2] && [r0, r1, r2] + [r3] == [r0, r1, r2, r3];
    OverrideSnoc([], r0);
    OverrideSnoc([r0], r1);
    OverrideSnoc([r0, r1], r2);
    OverrideSnoc([r0, r1, r2], r3);
  }

  /** The cn rules on an already rounded theta. */
  lemma CnRulesClosed(tbl: SymTable, phi: real, th: real, incMirror: bool)
    requires WellFormed(tbl) && tbl.family == Cn
    ensures var b := Bracket(tbl, incMirror);
      Override(CnRules(tbl, phi, th, incMirror)) ==
        if th == 0.0 then true
        else if th == 180.0 then incMirror
        else if tbl.order == 1 && !incMirror && th == 90.0 && phi >= 180.0 then false
        else 0.0 <= phi < b[0] && th <= b[1]
  {
    var b := Bracket(tbl, incMirror);
    var phi0, phiLt, thLe1 := phi >= 0.0, phi < b[0], th <= b[1];
    var th180, th0 := th == 180.0 && incMirror, th == 0.0;
    var r0, r1, r2 := Rule(phi0 && phiLt && thLe1, true), Rule(th180, true), Rule(th0, true);
    var r3 := Rule(!phi0 && !phiLt && !thLe1 && !th180 && !th0, false);
    var base := [r0, r1, r2, r3];
    var c1 := ParseInt(tbl.sym[1..]) == Some(1) && !incMirror;
    var tail := if c1 then [Rule(th == 90.0 && phi >= 180.0, false)] else [];
    assert CnRules(tbl, phi, th, incMirror) == base + tail;
    OverrideFour(r0, r1, r2, r3);
    if c1 {
      OverrideSnoc(base, tail[0]);
    } else {
      assert base + tail == base;
    }
  }

  /** cn: the north pole is always inside, the south pole iff mirrors are included, and
      elsewhere the direction must satisfy 0 <= phi < b[0] and theta <= b[1]; c1 without
      mirrors also drops the half equator phi >= 180. */
  lemma CnSubunit(t: Trig, tbl: SymTable, phi: real, theta: real, incMirror: bool)
    requires WellFormed(tbl) && tbl.family == Cn
    ensures var th, b := Round(theta, 12), Bracket(tbl, incMirror);
      InSubunit(t, tbl, phi, theta, incMirror) ==
        if th == 0.0 then true
        else if th == 180.0 then incMirror
        else if tbl.order == 1 && !incMirror && th == 90.0 && phi >= 180.0 then false
        else 0.0 <= phi < b[0] && th <= b[1]
  {
    CnRulesClosed(tbl, phi, Round(theta, 12), incMirror);
  }

  /** Three masked assignments in a row. */
  lemma OverrideThree(r0: Rule, r1: Rule, r2: Rule)
    ensures Override([r0, r1, r2]) ==
      if r2.fires then r2.value else if r1.fires then r1.value else r0.fires && r0.value
  {
    assert [] + [r0] == [r0] && [r0] + [r1] == [r0, r1] && [r0, r1] + [r2] == [r0, r1, r2];
    OverrideSnoc([], r0);
    OverrideSnoc([r0], r1);
    OverrideSnoc([r0, r1], r2);
  }

  /** dn with n even: inside iff on the north pole or inside the bracket box. */
  lemma DnEvenSubunit(t: Trig, tbl: SymTable, phi: real, theta: real, incMirror: bool)
    requires WellFormed(tbl) && tbl.family == Dn && tbl.order % 2 == 0
    ensures var th, b := Round(theta, 12), Bracket(tbl, incMirror);
      InSubunit(t, tbl, phi, theta, incMirror) == (th == 0.0 || (0.0 <= phi < b[0] && th <= b[1]))
  {
    var th, b := Round(theta, 12), Bracket(tbl, incMirror);
    var phi0, phiLt, thLe1, th0 := phi >= 0.0, phi < b[0], th <= b[1], th == 0.0;
    assert DnEvenRules(tbl, phi, th, incMirror) ==
      [Rule(phi0 && phiLt && thLe1, true), Rule(th0, true), Rule(!phi0 && !phiLt && !thLe1 && !th0, false)];
    OverrideThree(Rule(phi0 && phiLt && thLe1, true), Rule(th0, true), Rule(!phi0 && !phiLt && !thLe1 && !th0, false));
  }

  /** dn with n odd: inside iff on the north pole, or inside the bracket box and either
      mirrors are included or phi lies within half a sector of phib = 360/nsym. */
  lemma DnOddSubunit(t: Trig, tbl: SymTable, phi: real, theta: real, incMirror: bool)
    requires WellFormed(tbl) && tbl.family == Dn && tbl.order % 2 == 1
    ensures var th, b, phib := Round(theta, 12), Bracket(tbl, incMirror), 360.0 / tbl.nsym as real;
      InSubunit(t, tbl, phi, theta, incMirror) ==
        (th == 0.0 ||
         (0.0 <= phi < b[0] && th <= b[1] && (incMirror || (phib / 2.0 <= phi <= phib + phib / 2.0))))
  {
    var th, b, phib := Round(theta, 12), Bracket(tbl, incMirror), 360.0 / tbl.nsym as real;
    var base := th <= b[1] && phi >= 0.0 && phi < b[0];
    var th0 := th == 0.0;
    var r0 := Rule(base && incMirror, true);
    var r1 := Rule(base && ((phi >= phib / 2.0 && phi < phib) || (phi >= phib && phi <= phib + phib / 2.0)), true);
    var r2, r3, r4 := Rule(base && th0, true), Rule(!base && th0, true), Rule(!base && !th0, false);
    assert DnOddRules(tbl, phi, th, incMirror) == [r0, r1, r2] + [r3] + [r4];
    assert [r0, r1, r2] + [r3] + [r4] == ([r0, r1, r2] + [r3]) + [r4];
    OverrideThree(r0, r1, r2);
    OverrideSnoc([r0, r1, r2], r3);
    OverrideSnoc([r0, r1, r2] + [r3], r4);
  }

  /** oct and icos: a direction whose phi is the rounded far edge b[2] of the cap is never
      inside, whatever its theta. */
  lemma OctIcosFarEdge(t: Trig, tbl: SymTable, phi: real, theta: real, incMirror: bool)
    requires WellFormed(tbl) && (tbl.family == Oct || tbl.family == Icos)
    requires phi == Round(Bracket(tbl, incMirror)[2], 12)
    ensures !InSubunit(t, tbl, phi, theta, incMirror)
  {
    var rules := OctIcosRules(t, tbl, phi, Round(theta, 12), incMirror);
    assert |rules| == 8 && rules[..8] == rules;
    OverrideStep(rules, 7);
    OverrideStep(rules, 6);
    assert rules[6].fires && !rules[6].value && !rules[7].value;
  }

  /** tet: the north pole is inside for every phi up to half the first phi bracket. */
  lemma TetNorthPole(t: Trig, tbl: SymTable, phi: real, theta: real, incMirror: bool)
    requires WellFormed(tbl) && tbl.family == Tet
    requires Round(theta, 12) == 0.0 && phi <= tbl.brackets[0][0] / 2.0
    ensures InSubunit(t, tbl, phi, theta, incMirror)
  {
    var rules := TetRules(t, tbl, phi, Round(theta, 12), incMirror);
    assert |rules| == 10 && rules[..10] == rules;
    OverrideStep(rules, 9);
    OverrideStep(rules, 8);
    OverrideStep(rules, 7);
    assert rules[7].fires && rules[7].value && !rules[8].fires && rules[9].value;
  }
}
