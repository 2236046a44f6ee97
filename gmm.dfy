// The small pure helpers of the Gaussian-mixture GUI: the next free map number and the
// one-character display of a value.
module Gmm {
  import opened Wrappers
  import opened PyNum
  import opened PyStr

  /** A dictionary key as the GUI stores it: an int, a numeric string or a float. */
  datatype Key = IntKey(n: int) | StrKey(s: string) | RealKey(x: real)

  /** Python's `int(k)`, or None where it raises. */
  function KeyInt(k: Key): (r: Option<int>)
    ensures k.IntKey? ==> r == Some(k.n)
    ensures k.RealKey? ==> r.Some? && (k.x >= 0.0 ==> 0 <= r.value)
  {
    match k
    case IntKey(n) => Some(n)
    case StrKey(s) => ParseInt(s)
    case RealKey(x) => Some(Trunc(x))
  }

  /** `[int(k) for k in keys]`, or None when some conversion raises. */
  function KeyInts(keys: seq<Key>): (r: Option<seq<int>>)
    ensures r.Some? ==> |r.value| == |keys| && forall i :: 0 <= i < |keys| ==> KeyInt(keys[i]) == Some(r.value[i])
    ensures r.None? <==> exists i :: 0 <= i < |keys| && KeyInt(keys[i]).None?
  {
    if |keys| == 0 then Some([])
    else
      var rest := KeyInts(keys[1..]);
      if KeyInt(keys[0]).None? then None
      else if rest.None? then
        var i :| 0 <= i < |keys[1..]| && KeyInt(keys[1..][i]).None?;
        assert KeyInt(keys[i + 1]).None?;
        None
      else
        var r := [KeyInt(keys[0]).value] + rest.value;
        assert forall i :: 0 < i < |keys| ==> keys[i] == keys[1..][i - 1];
        Some(r)
  }

  /** `max(ks)` of a non-empty collection. */
  function MaxOf(ks: seq<int>): (m: int)
    requires |ks| > 0
    ensures m in ks && forall x :: x in ks ==> x <= m
  {
    if |ks| == 1 then ks[0]
    else
      var m := MaxOf(ks[1..]);
      assert forall x :: x in ks ==> x == ks[0] || x in ks[1..];
      if ks[0] >= m then ks[0] else m
  }

  /** n is the lowest non-negative integer that ks does not hold. */
  predicate LowestMissing(n: nat, ks: seq<int>)
  {
    n !in ks && forall m :: 0 <= m < n ==> m in ks
  }

  /** `min(set(range(lo, bound)) - set(ks))`, or None where that set is empty and `min` raises. */
  function LeastMissing(ks: seq<int>, lo: nat, bound: int): (r: Option<nat>)
    ensures r.Some? ==> lo <= r.value < bound && r.value !in ks && forall n :: lo <= n < r.value ==> n in ks
    ensures r.None? ==> forall n :: lo <= n < bound ==> n in ks
    decreases bound - lo
  {
    if lo >= bound then None
    else if lo !in ks then Some(lo)
    else LeastMissing(ks, lo + 1, bound)
  }

  /**
   * `good_num(dct)` as written: 0 for None or an empty dictionary, the error exit for a key
   * `int` rejects, else `min(set(range(max(ks) + 2)) - ks)`, which raises ValueError when
   * every key is below -1 because the range is then empty.
   */
  function GoodNum(dct: Option<seq<Key>>): (r: Result<nat>)
    ensures dct.None? || dct == Some([]) ==> r == Ok(0)
    ensures dct.Some? && |dct.value| > 0 ==>
      (r.Err? <==> KeyInts(dct.value).None? || MaxOf(KeyInts(dct.value).value) <= -2)
    ensures r.Err? ==> r.error == (if KeyInts(dct.value).None? then "dictionary with non-integer keys" else "ValueError")
    ensures r.Ok? && dct.Some? && |dct.value| > 0 ==>
      var ks := KeyInts(dct.value).value;
      LowestMissing(r.value, ks) && r.value <= MaxOf(ks) + 1
  {
    if dct.None? || |dct.value| == 0 then Ok(0)
    else
      var ks := KeyInts(dct.value);
      if ks.None? then Err("dictionary with non-integer keys")
      else
        var top := MaxOf(ks.value) + 1;
        assert top !in ks.value;
        var n := LeastMissing(ks.value, 0, top + 1);
        if n.None? then Err("ValueError") else Ok(n.value)
  }

  /** `good_num(dct)` with the range reaching at least 0, so that the lowest missing key always exists. */
  function GoodNumCorrected(dct: Option<seq<Key>>): (r: Result<nat>)
    ensures dct.None? || dct == Some([]) ==> r == Ok(0)
    ensures dct.Some? && |dct.value| > 0 ==> (r.Err? <==> KeyInts(dct.value).None?)
    ensures r.Err? ==> r.error == "dictionary with non-integer keys"
    ensures r.Ok? && dct.Some? && |dct.value| > 0 ==>
      var ks := KeyInts(dct.value).value;
      LowestMissing(r.value, ks) && r.value <= Max(MaxOf(ks), -1) + 1
  {
    if dct.None? || |dct.value| == 0 then Ok(0)
    else
      var ks := KeyInts(dct.value);
      if ks.None? then Err("dictionary with non-integer keys")
      else
        var top := Max(MaxOf(ks.value), -1) + 1;
        assert top !in ks.value;
        var n := LeastMissing(ks.value, 0, top + 1);
        Ok(n.value)
  }

  /** Both definitions agree whenever some key is at least -1. */
  lemma GoodNumAgrees(dct: Option<seq<Key>>)
    requires dct.Some? && |dct.value| > 0 && KeyInts(dct.value).Some?
    requires MaxOf(KeyInts(dct.value).value) >= -1
    ensures GoodNum(dct) == GoodNumCorrected(dct)
  {
    var ks := KeyInts(dct.value).value;
    assert MaxOf(ks) + 1 !in ks;
  }

  /** When every key is below -1, the code as written raises where 0 is the lowest missing value. */
  lemma GoodNumAllNegative(dct: Option<seq<Key>>)
    requires dct.Some? && |dct.value| > 0 && KeyInts(dct.value).Some?
    requires forall x :: x in KeyInts(dct.value).value ==> x <= -2
    ensures GoodNum(dct) == Err("ValueError")
    ensures GoodNumCorrected(dct) == Ok(0)
  {
    var ks := KeyInts(dct.value).value;
    assert 0 !in ks;
  }

  /** A dictionary whose one key is -2. */
  lemma GoodNumMinusTwo()
    ensures GoodNum(Some([IntKey(-2)])) == Err("ValueError")
    ensures GoodNumCorrected(Some([IntKey(-2)])) == Ok(0)
  {
    var keys := [IntKey(-2)];
    assert KeyInts(keys[1..]) == KeyInts([]) == Some([]);
    assert KeyInt(keys[0]) == Some(-2);
    assert [-2] + [] == [-2];
    assert KeyInts(keys) == Some([-2]);
    GoodNumAllNegative(Some(keys));
  }

  /**
   * `numrng(f)`: "-" for 0; otherwise the value is clamped to [-1, 1] and
   * `chr(48 + int((f + 1) / 2.01))` is taken, whose quotient is always below 1.
   */
  function Numrng(f: real): (r: string)
    ensures f == 0.0 ==> r == "-"
    ensures f != 0.0 ==> r == "0"
  {
    if f == 0.0 then "-"
    else
      var g := RMax(RMin(1.0, f), -1.0);
      var q := (g + 1.0) / 2.01;
      assert 0.0 <= q < 1.0;
      var d := Trunc(q);
      assert d == 0;
      [(48 + d) as char]
  }

  /** `butval(widg)`: 1 for a checked widget, else 0. */
  function Butval(checked: bool): (r: int)
    ensures r == 1 <==> checked
    ensures r == 0 <==> !checked
  {
    if checked then 1 else 0
  }

  /** `butstr(widg)`: "1" for a checked widget, else "0". */
  function Butstr(checked: bool): (r: string)
    ensures |r| == 1
    ensures r == "1" <==> checked
    ensures r == "0" <==> !checked
  {
    if checked then "1" else "0"
  }

  /** `butstr` is the decimal text of `butval`. */
  lemma ButstrOfButval(checked: bool)
    ensures Butstr(checked) == IntToStr(Butval(checked))
    ensures ParseInt(Butstr(checked)) == Some(Butval(checked))
  {
    ParseIntToStr(Butval(checked));
  }
}
