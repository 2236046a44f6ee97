// `readfile` and `writefile` of e2proctxt: multi-column numeric text with an optional
// ';'-separated label comment, read in two passes under a "file:n0:n1:step" line range.
module ProcTxt {
  import opened Wrappers
  import opened PyNum
  import opened PyStr

  // ---- the line range ----

  /** Lines n0, n0 + ns, ... below n1 (every line from n0 on when n1 < 0). */
  datatype Range = Range(n0: int, n1: int, ns: int)

  const AllLines: Range := Range(0, -1, 1)

  /** `int(s)`, or d where that raises. */
  function IntOr(s: string, d: int): int
  {
    match ParseInt(s)
    case Some(v) => v
    case None => d
  }

  /**
   * The file name and range of a "name[:...]" argument: "f:n1", "f:n0:n1" (fields that
   * must parse) or "f:n0:n1:ns" (fields that fall back to 0, -1 and 1). Any other number
   * of fields leaves the range unset.
   */
  function ParseSpec(arg: string): (r: Result<(string, Range)>)
    ensures ':' !in arg ==> r == Ok((arg, AllLines))
    ensures r.Ok? && ':' in arg ==> r.value.0 == Split(arg, ':')[0] && |Split(arg, ':')| in {2, 3, 4}
    ensures r.Ok? && |Split(arg, ':')| == 4 ==> r.value.1.ns == IntOr(Split(arg, ':')[3], 1)
  {
    if ':' !in arg then Ok((arg, AllLines))
    else
      var rng := Split(arg, ':');
      if |rng| == 2 then
        match ParseInt(rng[1])
        case None => Err("ValueError")
        case Some(n1) => Ok((rng[0], Range(0, n1, 1)))
      else if |rng| == 3 then
        match ParseInt(rng[1])
        case None => Err("ValueError")
        case Some(n0) =>
          match ParseInt(rng[2])
          case None => Err("ValueError")
          case Some(n1) => Ok((rng[0], Range(n0, n1, 1)))
      else if |rng| == 4 then
        Ok((rng[0], Range(IntOr(rng[1], 0), IntOr(rng[2], -1), IntOr(rng[3], 1))))
      else Err("UnboundLocalError")
  }

  lemma NoColonInInt(n: int)
    ensures ':' !in IntToStr(n)
  {
    if n < 0 {
      assert forall i :: 1 <= i < |IntToStr(n)| ==> IntToStr(n)[i] == Digits(-n)[i - 1];
    }
  }

  /** "f:n1" reads lines 0 .. n1 - 1. */
  lemma SpecUpTo(f: string, n1: int)
    requires ':' !in f
    ensures ParseSpec(f + ":" + IntToStr(n1)) == Ok((f, Range(0, n1, 1)))
  {
    NoColonInInt(n1);
    SplitAfterField(f, ':', IntToStr(n1));
    assert f + ":" + IntToStr(n1) == f + [':'] + IntToStr(n1);
    ParseIntToStr(n1);
  }

  /** "f:n0:n1" reads lines n0 .. n1 - 1. */
  lemma SpecBetween(f: string, n0: int, n1: int)
    requires ':' !in f
    ensures ParseSpec(f + ":" + IntToStr(n0) + ":" + IntToStr(n1)) == Ok((f, Range(n0, n1, 1)))
  {
    NoColonInInt(n0);
    NoColonInInt(n1);
    SplitThree(f, IntToStr(n0), IntToStr(n1));
    ParseIntToStr(n0);
    ParseIntToStr(n1);
  }

  lemma SplitThree(f: string, a: string, b: string)
    requires ':' !in f && ':' !in a && ':' !in b
    ensures var arg := f + ":" + a + ":" + b; ':' in arg && Split(arg, ':') == [f, a, b]
  {
    var arg := f + ":" + a + ":" + b;
    assert arg == f + [':'] + (a + [':'] + b);
    SplitAfterField(a, ':', b);
    SplitAfterField(f, ':', a + [':'] + b);
    assert arg[|f|] == ':';
  }

  // ---- the two passes of readfile ----

  /** Lines as a file yields them: never empty. */
  predicate FileLines(lines: seq<string>)
  {
    forall i :: 0 <= i < |lines| ==> |lines[i]| > 0
  }

  /** A data line neither starts with '#' nor is blank. */
  predicate IsData(lin: string)
    requires |lin| > 0
  {
    lin[0] != '#' && |Strip(lin)| != 0
  }

  /** The stripped data lines among the first n lines, in file order. */
  function Data(lines: seq<string>, n: nat): (d: seq<string>)
    requires FileLines(lines) && n <= |lines|
    ensures |d| <= n
  {
    if n == 0 then [] else Data(lines, n - 1) + Kept(lines[n - 1])
  }

  /** What one line adds to the data lines. */
  function Kept(lin: string): (k: seq<string>)
    requires |lin| > 0
    ensures |k| == if IsData(lin) then 1 else 0
  {
    if IsData(lin) then [Strip(lin)] else []
  }

  /** The labels of a '#' line: the text after '#', stripped, split on ';', empty parts dropped. */
  function LabelParts(lin: string): seq<string>
    requires |lin| > 0
  {
    NonEmpty(Split(Strip(lin[1..]), ';'))
  }

  /** The first of the longest label lists of the '#' lines among the first n, [] when there
      is none. */
  function Labels(lines: seq<string>, n: nat): (l: seq<string>)
    requires FileLines(lines) && n <= |lines|
  {
    if n == 0 then []
    else
      var prev := Labels(lines, n - 1);
      var lin := lines[n - 1];
      if lin[0] == '#' && |LabelParts(lin)| > |prev| then LabelParts(lin) else prev
  }

  /** Does line number x pass the range? With a zero step the remainder divides by zero once
      the bounds admit x. */
  function Test(rg: Range, x: int): (r: Result<bool>)
    ensures r.Err? <==> rg.ns == 0 && x >= rg.n0 && (rg.n1 < 0 || x < rg.n1)
    ensures r.Err? ==> r.error == "ZeroDivisionError"
    ensures r.Ok? && r.value ==> rg.n0 <= x && (rg.n1 < 0 || x < rg.n1)
    ensures rg.ns == 1 && rg.n0 <= x && (rg.n1 < 0 || x < rg.n1) ==> r == Ok(true)
  {
    if (rg.n1 < 0 || x < rg.n1) && x >= rg.n0 then
      if rg.ns == 0 then Err("ZeroDivisionError") else Ok(FloorMod(x - rg.n0, rg.ns) == 0)
    else Ok(false)
  }

  /** How many of the line numbers lo .. lo + d - 1 pass the range. */
  function Count(rg: Range, lo: int, d: nat): (r: Result<nat>)
    ensures r.Err? ==> r.error == "ZeroDivisionError"
    ensures r.Ok? ==> r.value <= d
  {
    if d == 0 then Ok(0)
    else
      match Count(rg, lo, d - 1)
      case Err(e) => Err(e)
      case Ok(c) =>
        match Test(rg, lo + d - 1)
        case Err(e) => Err(e)
        case Ok(b) => Ok(if b then c + 1 else c)
  }

  /** The last element, if any. */
  function LastOf(d: seq<string>): (o: Option<string>)
    ensures o.None? <==> |d| == 0
  {
    if |d| == 0 then None else Some(d[|d| - 1])
  }

  /** What the first pass keeps: the row count, the labels and the last data line. */
  datatype Pass1 = Pass1(nr: nat, lbls: seq<string>, last: Option<string>)

  /** The first pass: the data lines are numbered from 1, as its counter is raised before
      the test. */
  function FirstPassOf(lines: seq<string>, rg: Range): Result<Pass1>
    requires FileLines(lines)
  {
    var d := Data(lines, |lines|);
    match Count(rg, 1, |d|)
    case Err(e) => Err(e)
    case Ok(nr) => Ok(Pass1(nr, Labels(lines, |lines|), LastOf(d)))
  }

  method FirstPass(lines: seq<string>, rg: Range) returns (r: Result<Pass1>)
    requires FileLines(lines)
    ensures r == FirstPassOf(lines, rg)
  {
    var nr: nat := 0;
    var nt: nat := 0;
    var lbls: seq<string> := [];
    var ll: Option<string> := None;
    for i := 0 to |lines|
      invariant Counted(lines, rg, i, Pass1(nr, lbls, ll), nt)
    {
      var step := CountLine(lines, rg, i, Pass1(nr, lbls, ll), nt);
      if step.Err? {
        return Err(step.error);
      }
      nr, lbls, ll, nt := step.value.0.nr, step.value.0.lbls, step.value.0.last, step.value.1;
    }
    r := Ok(Pass1(nr, lbls, ll));
  }

  /** The first pass after i lines: nt data lines seen, nr of them selected, the longest
      label list so far and the last data line. */
  ghost predicate Counted(lines: seq<string>, rg: Range, i: nat, p: Pass1, nt: nat)
    requires FileLines(lines)
  {
    i <= |lines| && nt == |Data(lines, i)| && p.lbls == Labels(lines, i) &&
    Count(rg, 1, nt) == Ok(p.nr) && p.last == LastOf(Data(lines, i))
  }

  /** One line of the first pass. */
  method CountLine(lines: seq<string>, rg: Range, i: nat, p: Pass1, nt: nat) returns (res: Result<(Pass1, nat)>)
    requires FileLines(lines) && i < |lines| && Counted(lines, rg, i, p, nt)
    ensures res.Ok? ==> Counted(lines, rg, i + 1, res.value.0, res.value.1)
    ensures res.Err? ==> FirstPassOf(lines, rg) == Err(res.error)
  {
    var lin := lines[i];
    DataStep(lines, i);
    if IsData(lin) {
      var t := Test(rg, nt + 1);
      if t.Err? {
        FirstPassErr(lines, rg, i + 1, nt + 1);
        return Err(t.error);
      }
      CountNext(rg, 1, nt);
      var nr := if t.value then p.nr + 1 else p.nr;
      res := Ok((Pass1(nr, p.lbls, Some(Strip(lin))), nt + 1));
    } else if lin[0] == '#' && |LabelParts(lin)| > |p.lbls| {
      res := Ok((p.(lbls := LabelParts(lin)), nt));
    } else {
      res := Ok((p, nt));
    }
  }

  /** One more line number in the count. */
  lemma CountNext(rg: Range, lo: int, d: nat)
    requires Count(rg, lo, d).Ok? && Test(rg, lo + d).Ok?
    ensures Count(rg, lo, d + 1) == Ok(Count(rg, lo, d).value + if Test(rg, lo + d).value then 1 else 0)
  {
  }

  /** The data lines of a prefix of the file begin the data lines of a longer prefix. */
  lemma {:induction false} DataPrefix(lines: seq<string>, k: nat, n: nat)
    requires FileLines(lines) && k <= n <= |lines|
    ensures |Data(lines, k)| <= |Data(lines, n)| && Data(lines, k) == Data(lines, n)[..|Data(lines, k)|]
  {
    if k < n {
      DataPrefix(lines, k, n - 1);
      assert Data(lines, n)[..|Data(lines, n - 1)|] == Data(lines, n - 1);
    }
  }

  /** Line i either adds the next data line of the file or leaves the data lines as they are. */
  lemma DataNext(lines: seq<string>, i: nat, nl: nat)
    requires FileLines(lines) && i < |lines| && nl == |Data(lines, i)|
    requires nl <= |Data(lines, |lines|)| && Data(lines, i) == Data(lines, |lines|)[..nl]
    ensures IsData(lines[i]) ==>
      nl < |Data(lines, |lines|)| && Data(lines, |lines|)[nl] == Strip(lines[i]) && Data(lines, i + 1) == Data(lines, |lines|)[..nl + 1]
    ensures !IsData(lines[i]) ==> Data(lines, i + 1) == Data(lines, i)
  {
    DataStep(lines, i);
    if IsData(lines[i]) {
      DataPrefix(lines, i + 1, |lines|);
      PrefixLast(Data(lines, |lines|), Data(lines, i), Strip(lines[i]));
    }
  }

  /** The element after a prefix. */
  lemma PrefixLast<T>(all: seq<T>, prev: seq<T>, x: T)
    requires |prev| + 1 <= |all| && prev + [x] == all[..|prev| + 1]
    ensures all[|prev|] == x
  {
    assert all[..|prev| + 1][|prev|] == x;
  }

  /** An error in the count of a prefix of line numbers is the error of the whole count. */
  /** What line i adds to the data lines, and the last data line after it. */
  lemma DataStep(lines: seq<string>, i: nat)
    requires FileLines(lines) && i < |lines|
    ensures IsData(lines[i]) ==>
      Data(lines, i + 1) == Data(lines, i) + [Strip(lines[i])] && LastOf(Data(lines, i + 1)) == Some(Strip(lines[i]))
    ensures !IsData(lines[i]) ==> Data(lines, i + 1) == Data(lines, i)
  {
  }

  /** A range test that fails on the nt-th data line, met among the first k lines, fails
      the whole first pass. */
  lemma FirstPassErr(lines: seq<string>, rg: Range, k: nat, nt: nat)
    requires FileLines(lines) && k <= |lines| && nt == |Data(lines, k)| > 0
    requires Count(rg, 1, nt - 1).Ok? && Test(rg, nt).Err?
    ensures FirstPassOf(lines, rg) == Err(Test(rg, nt).error)
  {
    DataPrefix(lines, k, |lines|);
    assert Count(rg, 1, nt) == Err(Test(rg, nt).error);
    CountErr(rg, 1, nt, |Data(lines, |lines|)|);
  }

  lemma {:induction false} CountErr(rg: Range, lo: int, k: nat, d: nat)
    requires k <= d && Count(rg, lo, k).Err?
    ensures Count(rg, lo, d) == Count(rg, lo, k)
  {
    if d > k {
      CountErr(rg, lo, k, d - 1);
    }
  }

  /** The separators of `re.split("[\s,;]+", ...)`. */
  const Seps: set<char> := Whitespace + {',', ';'}

  /** `[float(x) for x in fields]`, None where a float() raises. */
  function ParseFloats(fields: seq<string>, toFloat: string -> Option<real>): (v: Option<seq<real>>)
    ensures v.Some? ==> |v.value| == |fields|
  {
    if |fields| == 0 then Some([])
    else
      match toFloat(fields[0])
      case None => None
      case Some(x) =>
        match ParseFloats(fields[1..], toFloat)
        case None => None
        case Some(rest) => Some([x] + rest)
  }

  /** numpy's row assignment: a row of the table's width, or one value broadcast over it. */
  function Broadcast(v: seq<real>, nc: nat): (row: seq<real>)
    requires |v| == nc || |v| == 1
    ensures |row| == nc
  {
    if |v| == nc then v else seq(nc, _ => v[0])
  }

  /**
   * The second pass over the first k data lines ds[0 .. k-1], numbered from 0: the rows
   * filled so far. A field float() rejects, a row of the wrong width and a row past the nr
   * rows of the table raise.
   */
  function Fill(ds: seq<string>, k: nat, rg: Range, nr: nat, nc: nat, toFloat: string -> Option<real>): (r: Result<seq<seq<real>>>)
    requires k <= |ds|
    ensures r.Ok? ==> |r.value| <= nr && (forall j :: 0 <= j < |r.value| ==> |r.value[j]| == nc)
    ensures r.Ok? ==> Count(rg, 0, k) == Ok(|r.value|)
  {
    if k == 0 then Ok([])
    else
      match Fill(ds, k - 1, rg, nr, nc, toFloat)
      case Err(e) => Err(e)
      case Ok(rows) =>
        match Test(rg, k - 1)
        case Err(e) => Err(e)
        case Ok(b) =>
          if !b then Ok(rows)
          else
            match ParseFloats(SplitRuns(ds[k - 1], Seps), toFloat)
            case None => Err("ValueError")
            case Some(v) =>
              if |rows| >= nr then Err("IndexError")
              else if |v| != nc && |v| != 1 then Err("ValueError")
              else Ok(rows + [Broadcast(v, nc)])
  }

  /** n rows of nc zeros. */
  function Zeros(n: nat, nc: nat): (z: seq<seq<real>>)
    ensures |z| == n && forall j :: 0 <= j < n ==> z[j] == seq(nc, _ => 0.0)
  {
    seq(n, _ => seq(nc, _ => 0.0))
  }

  /** The table read: nr rows, the labels, and whether as many rows were filled as the first
      pass counted (otherwise an ERROR line is printed and the rest stays zero). */
  datatype Table = Table(data: seq<seq<real>>, lbls: seq<string>, consistent: bool)

  /** `readfile` on the lines of a file with the range already parsed; the table is as wide
      as the last data line has fields. */
  function ReadOf(lines: seq<string>, rg: Range, toFloat: string -> Option<real>): Result<Table>
    requires FileLines(lines)
  {
    match FirstPassOf(lines, rg)
    case Err(e) => Err(e)
    case Ok(p) =>
      match p.last
      case None => Err("UnboundLocalError")
      case Some(ll) =>
        var nc := |SplitRuns(ll, Seps)|;
        var ds := Data(lines, |lines|);
        match Fill(ds, |ds|, rg, p.nr, nc, toFloat)
        case Err(e) => Err(e)
        case Ok(rows) => Ok(Table(rows + Zeros(p.nr - |rows|, nc), p.lbls, |rows| == p.nr))
  }

  method ReadFile(lines: seq<string>, rg: Range, toFloat: string -> Option<real>) returns (r: Result<Table>)
    requires FileLines(lines)
    ensures r == ReadOf(lines, rg, toFloat)
  {
    var p := FirstPass(lines, rg);
    if p.Err? {
      return Err(p.error);
    }
    if p.value.last.None? {
      return Err("UnboundLocalError");
    }
    var nc := |SplitRuns(p.value.last.value, Seps)|;
    var filled := SecondPass(lines, rg, p.value.nr, nc, toFloat);
    if filled.Err? {
      return Err(filled.error);
    }
    var data, rows := filled.value.0, filled.value.1;
    r := Ok(Table(data, p.value.lbls, rows == p.value.nr));
  }

  /** The second pass over the file: the table and the number of rows filled. */
  method SecondPass(lines: seq<string>, rg: Range, nr: nat, nc: nat, toFloat: string -> Option<real>)
    returns (res: Result<(seq<seq<real>>, nat)>)
    requires FileLines(lines)
    ensures res == Passed(Data(lines, |lines|), rg, nr, nc, toFloat)
  {
    var data := Zeros(nr, nc);
    var r: nat := 0;
    var nl: nat := 0;
    for i := 0 to |lines|
      invariant Scanned(lines, i, rg, nr, nc, toFloat, nl, data, r)
    {
      var step := ScanLine(lines, i, rg, nr, nc, toFloat, nl, data, r);
      if step.Err? {
        return Err(step.error);
      }
      nl, data, r := step.value.0, step.value.1, step.value.2;
    }
    ghost var ds := Data(lines, |lines|);
    assert ds[..nl] == ds;
    PassedOk(ds, rg, nr, nc, toFloat, data, r);
    res := Ok((data, r));
  }

  /** After the first i lines of the second pass: nl data lines seen, the table filled from
      them, r rows. */
  ghost predicate Scanned(lines: seq<string>, i: nat, rg: Range, nr: nat, nc: nat, toFloat: string -> Option<real>,
                          nl: nat, data: seq<seq<real>>, r: nat)
    requires FileLines(lines)
  {
    i <= |lines| && nl == |Data(lines, i)| <= |Data(lines, |lines|)| && Data(lines, i) == Data(lines, |lines|)[..nl] &&
    Filled(Data(lines, |lines|), nl, rg, nr, nc, toFloat, data, r)
  }

  /** The second pass on line i: the new state, or the error the whole pass ends with. */
  method ScanLine(lines: seq<string>, i: nat, rg: Range, nr: nat, nc: nat, toFloat: string -> Option<real>,
                  nl: nat, data: seq<seq<real>>, r: nat)
    returns (res: Result<(nat, seq<seq<real>>, nat)>)
    requires FileLines(lines) && i < |lines| && Scanned(lines, i, rg, nr, nc, toFloat, nl, data, r)
    ensures res.Ok? ==> Scanned(lines, i + 1, rg, nr, nc, toFloat, res.value.0, res.value.1, res.value.2)
    ensures res.Err? ==> Passed(Data(lines, |lines|), rg, nr, nc, toFloat) == Err(res.error)
  {
    ghost var ds := Data(lines, |lines|);
    var lin := lines[i];
    DataNext(lines, i, nl);
    if IsData(lin) {
      var l := Strip(lin);
      var step := FillLine(ds, nl, rg, nr, nc, toFloat, l, data, r);
      if step.Err? {
        PassedErr(ds, nl + 1, rg, nr, nc, toFloat);
        return Err(step.error);
      }
      res := Ok((nl + 1, step.value.0, step.value.1));
    } else {
      res := Ok((nl, data, r));
    }
  }

  /** The outcome of the second pass over the data lines ds: the table and the rows filled. */
  function Passed(ds: seq<string>, rg: Range, nr: nat, nc: nat, toFloat: string -> Option<real>): Result<(seq<seq<real>>, nat)>
  {
    match Fill(ds, |ds|, rg, nr, nc, toFloat)
    case Err(e) => Err(e)
    case Ok(rows) => Ok((rows + Zeros(nr - |rows|, nc), |rows|))
  }

  lemma PassedErr(ds: seq<string>, k: nat, rg: Range, nr: nat, nc: nat, toFloat: string -> Option<real>)
    requires k <= |ds| && Fill(ds, k, rg, nr, nc, toFloat).Err?
    ensures Passed(ds, rg, nr, nc, toFloat) == Err(Fill(ds, k, rg, nr, nc, toFloat).error)
  {
    FillErr(ds, k, |ds|, rg, nr, nc, toFloat);
  }

  lemma PassedOk(ds: seq<string>, rg: Range, nr: nat, nc: nat, toFloat: string -> Option<real>, data: seq<seq<real>>, r: nat)
    requires Filled(ds, |ds|, rg, nr, nc, toFloat, data, r)
    ensures Passed(ds, rg, nr, nc, toFloat) == Ok((data, r))
  {
  }

  /** The table after filling the rows of the first k data lines, r of them. */
  ghost predicate Filled(ds: seq<string>, k: nat, rg: Range, nr: nat, nc: nat, toFloat: string -> Option<real>,
                         data: seq<seq<real>>, r: nat)
    requires k <= |ds|
  {
    var f := Fill(ds, k, rg, nr, nc, toFloat);
    f.Ok? && r == |f.value| && data == f.value + Zeros(nr - r, nc)
  }

  /** The second pass on data line number nl, which reads l: the table and the rows filled
      after it. */
  method FillLine(ghost ds: seq<string>, nl: nat, rg: Range, nr: nat, nc: nat, toFloat: string -> Option<real>,
                  l: string, data: seq<seq<real>>, r: nat)
    returns (res: Result<(seq<seq<real>>, nat)>)
    requires nl < |ds| && ds[nl] == l && Filled(ds, nl, rg, nr, nc, toFloat, data, r)
    ensures res.Ok? ==> Filled(ds, nl + 1, rg, nr, nc, toFloat, res.value.0, res.value.1)
    ensures res.Err? ==> Fill(ds, nl + 1, rg, nr, nc, toFloat) == Err(res.error)
  {
    ghost var rows := Fill(ds, nl, rg, nr, nc, toFloat).value;
    var t := Test(rg, nl);
    if t.Err? {
      return Err(t.error);
    }
    if !t.value {
      FillSkip(ds, nl, rg, nr, nc, toFloat);
      return Ok((data, r));
    }
    var v := ParseFloats(SplitRuns(l, Seps), toFloat);
    if v.None? {
      return Err("ValueError");
    }
    if r >= nr {
      return Err("IndexError");
    }
    if |v.value| != nc && |v.value| != 1 {
      return Err("ValueError");
    }
    FillTake(ds, nl, rg, nr, nc, toFloat, v.value);
    UpdateZeros(rows, Broadcast(v.value, nc), nr, nc);
    res := Ok((data[r := Broadcast(v.value, nc)], r + 1));
  }

  /** An error in filling a prefix of the data lines is the error of the whole pass. */
  lemma {:induction false} FillErr(ds: seq<string>, k: nat, d: nat, rg: Range, nr: nat, nc: nat, toFloat: string -> Option<real>)
    requires k <= d <= |ds| && Fill(ds, k, rg, nr, nc, toFloat).Err?
    ensures Fill(ds, d, rg, nr, nc, toFloat) == Fill(ds, k, rg, nr, nc, toFloat)
  {
    if d > k {
      FillErr(ds, k, d - 1, rg, nr, nc, toFloat);
    }
  }

  /** A line the range skips leaves the rows as they are. */
  lemma FillSkip(ds: seq<string>, k: nat, rg: Range, nr: nat, nc: nat, toFloat: string -> Option<real>)
    requires k < |ds| && Fill(ds, k, rg, nr, nc, toFloat).Ok? && Test(rg, k) == Ok(false)
    ensures Fill(ds, k + 1, rg, nr, nc, toFloat) == Fill(ds, k, rg, nr, nc, toFloat)
  {
  }

  /** A selected line that parses to a row of the right width is appended. */
  lemma FillTake(ds: seq<string>, k: nat, rg: Range, nr: nat, nc: nat, toFloat: string -> Option<real>, v: seq<real>)
    requires k < |ds| && Fill(ds, k, rg, nr, nc, toFloat).Ok? && Test(rg, k) == Ok(true)
    requires ParseFloats(SplitRuns(ds[k], Seps), toFloat) == Some(v)
    requires |Fill(ds, k, rg, nr, nc, toFloat).value| < nr && (|v| == nc || |v| == 1)
    ensures Fill(ds, k + 1, rg, nr, nc, toFloat) == Ok(Fill(ds, k, rg, nr, nc, toFloat).value + [Broadcast(v, nc)])
  {
  }

  /** A selected line past the nr rows of the table overruns it. */
  lemma FillOverrun(ds: seq<string>, k: nat, rg: Range, nr: nat, nc: nat, toFloat: string -> Option<real>)
    requires k < |ds| && Fill(ds, k, rg, nr, nc, toFloat).Ok? && Test(rg, k) == Ok(true)
    requires ParseFloats(SplitRuns(ds[k], Seps), toFloat).Some? && |Fill(ds, k, rg, nr, nc, toFloat).value| >= nr
    ensures Fill(ds, k + 1, rg, nr, nc, toFloat) == Err("IndexError")
  {
  }

  /** Writing the next row over the zero padding. */
  lemma UpdateZeros(rows: seq<seq<real>>, row: seq<real>, nr: nat, nc: nat)
    requires |rows| < nr
    ensures (rows + Zeros(nr - |rows|, nc))[|rows| := row] == (rows + [row]) + Zeros(nr - |rows| - 1, nc)
  {
  }

  // ---- what the passes select ----

  /** The default range passes every line number from 0 on. */
  lemma {:induction false} CountAll(rg: Range, lo: int, d: nat)
    requires rg.ns == 1 && rg.n0 <= lo && rg.n1 < 0
    ensures Count(rg, lo, d) == Ok(d)
  {
    if d > 0 {
      CountAll(rg, lo, d - 1);
      assert Test(rg, lo + d - 1) == Ok(true);
    }
  }

  /** With the default range both passes take every data line, so no ERROR is printed and
      the table holds one row per data line. */
  lemma DefaultRangeConsistent(lines: seq<string>, toFloat: string -> Option<real>)
    requires FileLines(lines)
    requires ReadOf(lines, AllLines, toFloat).Ok?
    ensures ReadOf(lines, AllLines, toFloat).value.consistent
    ensures |ReadOf(lines, AllLines, toFloat).value.data| == |Data(lines, |lines|)|
  {
    CountAll(AllLines, 1, |Data(lines, |lines|)|);
    CountAll(AllLines, 0, |Data(lines, |lines|)|);
  }

  /** A one-digit line with its newline is a data line holding that digit. */
  lemma DigitLine(lin: string)
    requires |lin| == 2 && IsDigit(lin[0]) && lin[1] == '\n'
    ensures Strip(lin) == lin[..1] && IsData(lin) && Kept(lin) == [lin[..1]]
  {
    assert Strip(lin) == Strip(lin[..1]);
  }

  /** A single digit is one field. */
  lemma DigitField(d: string)
    requires |d| == 1 && IsDigit(d[0])
    ensures SplitRuns(d, Seps) == [d]
  {
    assert d[0] !in Seps;
    assert d[1..] == "" && [d[0]] + "" == d;
  }

  /** As written, ":2" on a file of three data lines counts one row in the first pass (line
      numbers from 1) but selects two in the second (from 0), so the second row overruns the
      table. */
  lemma UpToTwoOverruns(toFloat: string -> Option<real>)
    requires toFloat("1").Some? && toFloat("2").Some?
    ensures ReadOf(["1\n", "2\n", "3\n"], Range(0, 2, 1), toFloat) == Err("IndexError")
  {
    var lines := ["1\n", "2\n", "3\n"];
    var rg := Range(0, 2, 1);
    ThreeDigitLines(lines);
    var ds := Data(lines, |lines|);
    ThreeCounted(ds, rg);
    ThreeFilled(ds, rg, toFloat);
    ReadFillErr(lines, rg, toFloat, 1, ds[2], "IndexError");
  }

  /** The first pass counts one selected line, and the last data line is "3". */
  lemma ThreeCounted(ds: seq<string>, rg: Range)
    requires ds == ["1", "2", "3"] && rg == Range(0, 2, 1)
    ensures Count(rg, 1, |ds|) == Ok(1) && LastOf(ds) == Some(ds[2])
  {
    assert Count(rg, 1, 3) == Ok(1);
  }

  /** The second pass overruns the one-row table. */
  lemma ThreeFilled(ds: seq<string>, rg: Range, toFloat: string -> Option<real>)
    requires ds == ["1", "2", "3"] && rg == Range(0, 2, 1)
    requires toFloat("1").Some? && toFloat("2").Some?
    ensures Fill(ds, |ds|, rg, 1, |SplitRuns(ds[2], Seps)|, toFloat) == Err("IndexError")
  {
    DigitParses(ds[0], toFloat);
    DigitParses(ds[1], toFloat);
    DigitField(ds[2]);
    TwoSelectedFill(ds, rg, 1, toFloat, [toFloat(ds[0]).value]);
  }

  /** `readfile` fails with the error the second pass stops on. */
  lemma ReadFillErr(lines: seq<string>, rg: Range, toFloat: string -> Option<real>, nr: nat, ll: string, e: string)
    requires FileLines(lines)
    requires Count(rg, 1, |Data(lines, |lines|)|) == Ok(nr) && LastOf(Data(lines, |lines|)) == Some(ll)
    requires Fill(Data(lines, |lines|), |Data(lines, |lines|)|, rg, nr, |SplitRuns(ll, Seps)|, toFloat) == Err(e)
    ensures ReadOf(lines, rg, toFloat) == Err(e)
  {
  }

  /** The first two lines are selected and parse, while the table has room for one row. */
  lemma TwoSelectedFill(ds: seq<string>, rg: Range, n: nat, toFloat: string -> Option<real>, v: seq<real>)
    requires |ds| == 3 && n == 1 && |v| == 1
    requires Test(rg, 0) == Ok(true) && Test(rg, 1) == Ok(true)
    requires ParseFloats(SplitRuns(ds[0], Seps), toFloat) == Some(v)
    requires ParseFloats(SplitRuns(ds[1], Seps), toFloat).Some?
    ensures Fill(ds, |ds|, rg, n, n, toFloat) == Err("IndexError")
  {
    FillLastRow(ds, 0, rg, n, n, toFloat, v);
    FillErr(ds, 2, |ds|, rg, n, n, toFloat);
  }

  /** A one-digit field parses to its one value. */
  lemma DigitParses(f: string, toFloat: string -> Option<real>)
    requires |f| == 1 && IsDigit(f[0]) && toFloat(f).Some?
    ensures ParseFloats(SplitRuns(f, Seps), toFloat) == Some([toFloat(f).value])
  {
    DigitField(f);
    ParseOne(f, toFloat);
  }

  lemma ThreeDigitLines(lines: seq<string>)
    requires lines == ["1\n", "2\n", "3\n"]
    ensures FileLines(lines) && Data(lines, |lines|) == ["1", "2", "3"]
  {
    DigitLine(lines[0]);
    DigitLine(lines[1]);
    DigitLine(lines[2]);
    DigitData(lines, 0);
    DigitData(lines, 1);
    DigitData(lines, 2);
    assert lines[0][..1] == "1" && lines[1][..1] == "2" && lines[2][..1] == "3";
  }

  /** A one-digit data line adds its digit to the data lines. */
  lemma DigitData(lines: seq<string>, i: nat)
    requires FileLines(lines) && i < |lines|
    requires |lines[i]| == 2 && IsDigit(lines[i][0]) && lines[i][1] == '\n'
    ensures Data(lines, i + 1) == Data(lines, i) + [lines[i][..1]]
  {
    DigitLine(lines[i]);
  }

  /** Two selected lines in a row when the table has room for one more: the second overruns. */
  lemma FillLastRow(ds: seq<string>, k: nat, rg: Range, nr: nat, nc: nat, toFloat: string -> Option<real>, v: seq<real>)
    requires k + 1 < |ds|
    requires Fill(ds, k, rg, nr, nc, toFloat).Ok?
    requires |Fill(ds, k, rg, nr, nc, toFloat).value| + 1 == nr
    requires Test(rg, k) == Ok(true)
    requires Test(rg, k + 1) == Ok(true)
    requires ParseFloats(SplitRuns(ds[k], Seps), toFloat) == Some(v)
    requires |v| == nc || |v| == 1
    requires ParseFloats(SplitRuns(ds[k + 1], Seps), toFloat).Some?
    ensures Fill(ds, k + 2, rg, nr, nc, toFloat) == Err("IndexError")
  {
    FillTake(ds, k, rg, nr, nc, toFloat, v);
    FillOverrun(ds, k + 1, rg, nr, nc, toFloat);
  }

  /** A single field parses to its one value. */
  lemma ParseOne(f: string, toFloat: string -> Option<real>)
    requires toFloat(f).Some?
    ensures ParseFloats([f], toFloat) == Some([toFloat(f).value])
  {
    var one := [f];
    assert one[0] == f && one[1..] == [];
    assert [toFloat(f).value] + [] == [toFloat(f).value];
  }

  /** The reading evidently intended: both passes number the data lines from 0, as the
      range's documentation does. */
  function ReadFixedOf(lines: seq<string>, rg: Range, toFloat: string -> Option<real>): Result<Table>
    requires FileLines(lines)
  {
    var d := Data(lines, |lines|);
    match Count(rg, 0, |d|)
    case Err(e) => Err(e)
    case Ok(nr) =>
      if |d| == 0 then Err("UnboundLocalError")
      else
        var nc := |SplitRuns(d[|d| - 1], Seps)|;
        match Fill(d, |d|, rg, nr, nc, toFloat)
        case Err(e) => Err(e)
        case Ok(rows) => Ok(Table(rows + Zeros(nr - |rows|, nc), Labels(lines, |lines|), |rows| == nr))
  }

  /** With matching numbering no range overruns the table or leaves rows unfilled. */
  lemma ReadFixedConsistent(lines: seq<string>, rg: Range, toFloat: string -> Option<real>)
    requires FileLines(lines)
    ensures ReadFixedOf(lines, rg, toFloat) != Err("IndexError")
    ensures ReadFixedOf(lines, rg, toFloat).Ok? ==> ReadFixedOf(lines, rg, toFloat).value.consistent
  {
    var d := Data(lines, |lines|);
    if Count(rg, 0, |d|).Ok? && |d| > 0 {
      var nc := |SplitRuns(d[|d| - 1], Seps)|;
      NoOverrun(d, |d|, rg, Count(rg, 0, |d|).value, nc, toFloat);
    }
  }

  /** Fill never overruns nr rows when nr is the count of the whole pass. */
  lemma {:induction false} NoOverrun(ds: seq<string>, k: nat, rg: Range, nr: nat, nc: nat, toFloat: string -> Option<real>)
    requires k <= |ds| && Count(rg, 0, |ds|) == Ok(nr)
    ensures Fill(ds, k, rg, nr, nc, toFloat) != Err("IndexError")
  {
    if k > 0 {
      NoOverrun(ds, k - 1, rg, nr, nc, toFloat);
      var f := Fill(ds, k - 1, rg, nr, nc, toFloat);
      if f.Ok? && Test(rg, k - 1) == Ok(true) {
        CountMono(rg, k, |ds|);
      }
    }
  }

  /** Passing counts only grow with more line numbers. */
  lemma {:induction false} CountMono(rg: Range, k: nat, d: nat)
    requires k <= d && Count(rg, 0, d).Ok?
    ensures Count(rg, 0, k).Ok? && Count(rg, 0, k).value <= Count(rg, 0, d).value
    decreases d - k
  {
    if k < d {
      CountMono(rg, k, d - 1);
    }
  }

  // ---- labels ----

  /** The labels are [] or the labels of some '#' line, and no '#' line has more. */
  lemma {:induction false} LabelsLongest(lines: seq<string>, n: nat)
    requires FileLines(lines) && n <= |lines|
    ensures forall i :: 0 <= i < n && lines[i][0] == '#' ==> |LabelParts(lines[i])| <= |Labels(lines, n)|
    ensures Labels(lines, n) == [] || exists i :: 0 <= i < n && lines[i][0] == '#' && Labels(lines, n) == LabelParts(lines[i])
  {
    if n > 0 {
      LabelsLongest(lines, n - 1);
    }
  }

  // ---- writefile ----

  /** The formatted values of a row joined by tabs, as one line. */
  function RowLine(row: seq<real>, fmt: real -> string): string
  {
    Join(seq(|row|, k requires 0 <= k < |row| => fmt(row[k])), "\t") + "\n"
  }

  /** The label line, written only for a non-empty label list. */
  function Header(lbls: Option<seq<string>>): seq<string>
  {
    if lbls.Some? && |lbls.value| > 0 then ["# " + Join(lbls.value, ";") + "\n"] else []
  }

  /** The lines `writefile` writes: the label line, then one line per row. */
  function Written(data: seq<seq<real>>, lbls: Option<seq<string>>, fmt: real -> string): (w: seq<string>)
    ensures |w| == |Header(lbls)| + |data|
    ensures forall j :: |Header(lbls)| <= j < |w| ==> w[j] == RowLine(data[j - |Header(lbls)|], fmt)
  {
    Header(lbls) + seq(|data|, j requires 0 <= j < |data| => RowLine(data[j], fmt))
  }

  /** `writefile`: the lines written, one `write` pair at a time. Moving an existing file to
      ".bak" is file-system work outside the model. */
  method WriteFile(data: seq<seq<real>>, lbls: Option<seq<string>>, fmt: real -> string) returns (out: seq<string>)
    ensures out == Written(data, lbls, fmt)
  {
    out := [];
    if lbls.Some? && |lbls.value| > 0 {
      out := out + ["# " + Join(lbls.value, ";") + "\n"];
    }
    for r := 0 to |data|
      invariant out == Header(lbls) + seq(r, j requires 0 <= j < r => RowLine(data[j], fmt))
    {
      var line := seq(|data[r]|, k requires 0 <= k < |data[r]| => fmt(data[r][k]));
      out := out + [Join(line, "\t") + "\n"];
    }
  }

  /** Labels that survive a write and a read: non-empty, free of ';', and with no space at the
      two ends of the label line. */
  predicate PlainLabels(lbls: seq<string>)
  {
    |lbls| > 0 &&
    (forall k :: 0 <= k < |lbls| ==> |lbls[k]| > 0 && ';' !in lbls[k]) &&
    !IsSpace(lbls[0][0]) && !IsSpace(lbls[|lbls| - 1][|lbls[|lbls| - 1]| - 1])
  }

  /** Reading a written file back gives its labels again (none when none were written), as
      long as no formatted value starts with '#'. */
  lemma LabelsRoundTrip(data: seq<seq<real>>, lbls: seq<string>, fmt: real -> string)
    requires PlainLabels(lbls) || lbls == []
    requires forall v :: |fmt(v)| == 0 || fmt(v)[0] != '#'
    ensures FileLines(Written(data, Some(lbls), fmt))
    ensures Labels(Written(data, Some(lbls), fmt), |Written(data, Some(lbls), fmt)|) == lbls
  {
    var w := Written(data, Some(lbls), fmt);
    var h := |Header(Some(lbls))|;
    RowLinesPlain(data, Some(lbls), fmt);
    if |lbls| > 0 {
      HeaderLabels(lbls);
      assert Labels(w, 1) == LabelParts(w[0]);
    }
    RowsNoLabels(w, h, |w|);
  }

  /** The label line starts with '#' and reads back as the labels it joins. */
  lemma HeaderLabels(lbls: seq<string>)
    requires PlainLabels(lbls)
    ensures |Header(Some(lbls))| == 1
    ensures var lin := Header(Some(lbls))[0]; |lin| > 0 && lin[0] == '#' && LabelParts(lin) == lbls
  {
    var s := Join(lbls, ";");
    var lin := "# " + s + "\n";
    JoinEnds(lbls, ";");
    StripPadded(s);
    assert lin[1..] == " " + s + "\n";
    SplitJoin(lbls, ';');
    NonEmptyKeeps(lbls);
  }

  /** Every row line is non-empty and does not start with '#'. */
  lemma RowLinesPlain(data: seq<seq<real>>, lbls: Option<seq<string>>, fmt: real -> string)
    requires forall v :: |fmt(v)| == 0 || fmt(v)[0] != '#'
    ensures var w := Written(data, lbls, fmt);
      forall j :: |Header(lbls)| <= j < |w| ==> |w[j]| > 0 && w[j][0] != '#'
  {
    var w := Written(data, lbls, fmt);
    var h := |Header(lbls)|;
    forall j | h <= j < |w|
      ensures |w[j]| > 0 && w[j][0] != '#'
    {
      RowLineStart(data[j - h], fmt);
    }
  }

  /** A row line starts with its first formatted value, a tab, or the newline. */
  lemma RowLineStart(row: seq<real>, fmt: real -> string)
    requires forall v :: |fmt(v)| == 0 || fmt(v)[0] != '#'
    ensures |RowLine(row, fmt)| > 0 && RowLine(row, fmt)[0] != '#'
  {
    var parts := seq(|row|, k requires 0 <= k < |row| => fmt(row[k]));
    forall k | 0 <= k < |parts|
      ensures |parts[k]| == 0 || parts[k][0] != '#'
    {
      var v := row[k];
      assert parts[k] == fmt(v);
      assert |fmt(v)| == 0 || fmt(v)[0] != '#';
    }
    JoinStart(parts, "\t");
  }

  /** A join starts with its first part, or with the separator when that part is empty. */
  lemma JoinStart(parts: seq<string>, sep: string)
    requires |sep| > 0 && sep[0] != '#'
    requires forall k :: 0 <= k < |parts| ==> |parts[k]| == 0 || parts[k][0] != '#'
    ensures |Join(parts, sep)| > 0 ==> Join(parts, sep)[0] != '#'
  {
    if |parts| > 1 {
      var j := Join(parts, sep);
      assert j == parts[0] + sep + Join(parts[1..], sep);
      if |parts[0]| > 0 {
        assert j[0] == parts[0][0];
      } else {
        assert j[0] == sep[0];
      }
    }
  }

  /** Lines from h on that do not start with '#' leave the labels of the first h lines. */
  lemma {:induction false} RowsNoLabels(w: seq<string>, h: nat, n: nat)
    requires FileLines(w) && h <= n <= |w|
    requires forall j :: h <= j < |w| ==> w[j][0] != '#'
    ensures Labels(w, n) == Labels(w, h)
  {
    if n > h {
      RowsNoLabels(w, h, n - 1);
    }
  }

  /** The ends of a join are the ends of its first and last parts. */
  lemma {:induction false} JoinEnds(parts: seq<string>, sep: string)
    requires |parts| > 0 && forall k :: 0 <= k < |parts| ==> |parts[k]| > 0
    ensures var j := Join(parts, sep);
      |j| > 0 && j[0] == parts[0][0] && j[|j| - 1] == parts[|parts| - 1][|parts[|parts| - 1]| - 1]
  {
    if |parts| > 1 {
      JoinEnds(parts[1..], sep);
    }
  }

}
