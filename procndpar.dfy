// The parallel runner of e2proc2d/e2proc3d: the command template, the temporary output
// names and the partition of the image range into one chunk per thread.
module ProcNdPar {
  import opened Wrappers
  import opened PyNum
  import opened PyStr

  // ---- the partition ----

  /** The `--first` and `--last` image numbers of one chunk. */
  datatype Chunk = Chunk(first: int, last: int)

  /** `step = old_div(num, nthd) + 1`: floor division of ints. */
  function Step(num: nat, threads: int): int
    requires threads != 0
  {
    FloorDiv(num, threads) + 1
  }

  /** The chunk count: no chunks for a negative count (an empty range), else ceil(num / step). */
  function NumChunks(num: nat, threads: int): int
    requires threads != 0
  {
    if threads < 0 then threads
    else
      var step := Step(num, threads);
      (num + step - 1) / step
  }

  /** Chunk k: `td * step` to `min(num - 1, td * step + step - 1)`. */
  function ChunkAt(num: nat, step: int, k: nat): Chunk
  {
    Chunk(k * step, Min(num - 1, k * step + step - 1))
  }

  /** The first n chunks. */
  function ChunksUpTo(num: nat, step: int, n: nat): (cs: seq<Chunk>)
    ensures |cs| == n
  {
    if n == 0 then [] else ChunksUpTo(num, step, n - 1) + [ChunkAt(num, step, n - 1)]
  }

  lemma {:induction false} ChunkIndex(num: nat, step: int, n: nat, k: nat)
    requires k < n
    ensures ChunksUpTo(num, step, n)[k] == ChunkAt(num, step, k)
  {
    if k < n - 1 {
      ChunkIndex(num, step, n - 1, k);
    }
  }

  function Chunks(num: nat, threads: int): (cs: seq<Chunk>)
    requires threads != 0
  {
    if threads < 0 then [] else ChunksUpTo(num, Step(num, threads), NumChunks(num, threads))
  }

  lemma MulMono(a: int, b: int, s: int)
    requires a <= b && s > 0
    ensures a * s <= b * s
  {
    if a < b {
      MulAtLeast(b - a, s);
      assert b * s == a * s + (b - a) * s;
    }
  }

  /** threads * step exceeds num, so the loop stops by the last thread. */
  lemma StepCovers(num: nat, threads: int)
    requires threads > 0
    ensures Step(num, threads) >= 1 && threads * Step(num, threads) > num
  {
    var q := num / threads;
    assert num == threads * q + num % threads;
    assert threads * Step(num, threads) == threads * q + threads;
  }

  /** The chunk count is the first td with td * step >= num. */
  lemma CeilIsFirst(num: nat, step: int, td: nat)
    requires step >= 1 && td * step >= num && (td == 0 || (td - 1) * step < num)
    ensures (num + step - 1) / step == td
  {
    if td == 0 {
      DivModUnique(num + step - 1, step, 0, num + step - 1);
    } else {
      assert (td - 1) * step == td * step - step;
      DivModUnique(num + step - 1, step, td, num + step - 1 - td * step);
    }
  }

  /**
   * `for td in range(nthd)`: stop at the first td with `td * step >= num`, setting `nthd = td`;
   * every earlier td launches the chunk from `td * step`.
   */
  method Partition(num: nat, threads: int) returns (r: Result<(int, seq<Chunk>)>)
    ensures threads == 0 ==> r == Err("ZeroDivisionError")
    ensures threads != 0 ==> r == Ok((NumChunks(num, threads), Chunks(num, threads)))
  {
    if threads == 0 {
      return Err("ZeroDivisionError");
    }
    var nthd := threads;
    var step := FloorDiv(num, nthd) + 1;
    var chunks: seq<Chunk> := [];
    if threads < 0 {
      // range(nthd) is empty: no chunk, and nthd keeps its value
      return Ok((nthd, chunks));
    }
    StepCovers(num, threads);
    var td := 0;
    while td < threads
      invariant 0 <= td <= threads && nthd == threads
      invariant chunks == ChunksUpTo(num, step, td)
      invariant td == 0 || (td - 1) * step < num
    {
      if td * step >= num {
        nthd := td;
        break;
      }
      chunks := chunks + [ChunkAt(num, step, td)];
      td := td + 1;
    }
    CeilIsFirst(num, step, td);
    assert nthd == td;
    r := Ok((nthd, chunks));
  }

  /**
   * With at least one thread the chunks are at most `--threads` many, start at image 0, follow
   * one another without gap or overlap, hold at most `step` images each and end at image
   * num - 1; there are none exactly when there are no images.
   */
  lemma {:induction false} ChunksCover(num: nat, threads: int)
    requires threads > 0
    ensures var cs := Chunks(num, threads); var step := Step(num, threads);
      |cs| <= threads && (|cs| == 0 <==> num == 0) &&
      (|cs| > 0 ==> cs[0].first == 0 && cs[|cs| - 1].last == num - 1) &&
      (forall k :: 0 <= k < |cs| ==> cs[k].first <= cs[k].last && cs[k].last - cs[k].first < step) &&
      (forall k :: 0 <= k < |cs| - 1 ==> cs[k + 1].first == cs[k].last + 1)
  {
    var cs := Chunks(num, threads);
    var step := Step(num, threads);
    var n := NumChunks(num, threads);
    ChunkCount(num, threads);
    forall k | 0 <= k < |cs|
      ensures cs[k].first <= cs[k].last && cs[k].last - cs[k].first < step
    {
      ChunkBounds(num, step, n, k);
    }
    forall k | 0 <= k < |cs| - 1
      ensures cs[k + 1].first == cs[k].last + 1
    {
      ChunkAdjacent(num, step, n, k);
    }
    if n > 0 {
      ChunkIndex(num, step, n, 0);
      ChunkIndex(num, step, n, n - 1);
      assert (n - 1) * step == n * step - step;
    }
  }

  /** The chunk count is the least n with n * step >= num, and at most the thread count. */
  lemma ChunkCount(num: nat, threads: int)
    requires threads > 0
    ensures var n := NumChunks(num, threads); var step := Step(num, threads);
      0 <= n <= threads && step >= 1 && n * step >= num && (n == 0 || (n - 1) * step < num) && (n == 0 <==> num == 0)
  {
    var step := Step(num, threads);
    var n := NumChunks(num, threads);
    StepCovers(num, threads);
    var q := (num + step - 1) / step;
    assert num + step - 1 == step * q + (num + step - 1) % step;
    assert n == q;
    assert n * step >= num && (n == 0 || (n - 1) * step < num) by {
      assert n * step == step * q;
      if n > 0 {
        assert (n - 1) * step == n * step - step;
      }
    }
    if n > threads {
      MulMono(threads, n - 1, step);
    }
  }

  lemma ChunkBounds(num: nat, step: int, n: nat, k: nat)
    requires step >= 1 && k < n && (n - 1) * step < num
    ensures var c := ChunksUpTo(num, step, n)[k]; c.first <= c.last && c.last - c.first < step
  {
    ChunkIndex(num, step, n, k);
    MulMono(k, n - 1, step);
  }

  lemma ChunkAdjacent(num: nat, step: int, n: nat, k: nat)
    requires step >= 1 && k + 1 < n && (n - 1) * step < num
    ensures ChunksUpTo(num, step, n)[k + 1].first == ChunksUpTo(num, step, n)[k].last + 1
  {
    ChunkIndex(num, step, n, k);
    ChunkIndex(num, step, n, k + 1);
    MulMono(k + 1, n - 1, step);
    assert (k + 1) * step == k * step + step;
  }

  /** Every image 0 <= x < num lies in chunk x / step. */
  lemma ChunkOf(num: nat, threads: int, x: nat) returns (k: nat)
    requires threads > 0 && x < num
    ensures k < |Chunks(num, threads)| && Chunks(num, threads)[k].first <= x <= Chunks(num, threads)[k].last
  {
    var step := Step(num, threads);
    StepCovers(num, threads);
    k := x / step;
    assert x == step * k + x % step;
    var n := NumChunks(num, threads);
    var q := (num + step - 1) / step;
    assert num + step - 1 == step * q + (num + step - 1) % step;
    assert n * step >= num by {
      assert n == q;
      assert n * step == step * q;
    }
    if n <= k {
      MulMono(n, k, step);
    }
    ChunkIndex(num, step, n, k);
    assert k * step == step * k;
  }

  // ---- the temporary names ----

  /** `"{}_tmp_{:02d}{}".format(outfile[:pt], i, outfile[pt:])` with pt the last '.'. */
  function TmpName(outfile: string, i: nat): string
  {
    var pt := RFind(outfile, '.');
    Prefix(outfile, pt) + "_tmp_" + ZeroPad2(i) + Suffix(outfile, pt)
  }

  lemma ZeroPad2Value(i: nat)
    ensures DigitsValue(ZeroPad2(i)) == i
  {
    if i < 10 {
      var z := ZeroPad2(i);
      assert z == ['0', DigitChar(i)];
      var z0 := z[..1];
      assert z0 == ['0'] && z0[..0] == "";
      assert DigitsValue(z0) == 0;
      assert DigitsValue(z) == 10 * DigitsValue(z0) + DigitValue(z[1]);
    } else {
      DigitsRoundTrip(i);
    }
  }

  /** Distinct chunks get distinct temporary files, and each keeps the part from the last '.' on. */
  lemma TmpNamesDistinct(outfile: string, i: nat, j: nat)
    requires i != j
    ensures TmpName(outfile, i) != TmpName(outfile, j)
    ensures var pt := RFind(outfile, '.');
      pt >= 0 ==> TmpName(outfile, i) == outfile[..pt] + "_tmp_" + ZeroPad2(i) + outfile[pt..]
  {
    var pt := RFind(outfile, '.');
    var p, s := Prefix(outfile, pt), Suffix(outfile, pt);
    var a, b := ZeroPad2(i), ZeroPad2(j);
    ZeroPad2Value(i);
    ZeroPad2Value(j);
    var x, y := p + "_tmp_" + a + s, p + "_tmp_" + b + s;
    assert a != b;
    if |a| == |b| {
      var lo := |p| + 5;
      assert x[lo..lo + |a|] == a;
      assert y[lo..lo + |a|] == b;
    } else {
      assert |x| != |y|;
    }
  }

  /** Without a '.', pt is -1 and the tag lands before the last character. */
  lemma UndottedName()
    ensures TmpName("out", 0) == "ou_tmp_00t"
  {
    assert RFind("out", '.') == -1;
    assert ZeroPad2(0) == "00";
  }

  // ---- the command template ----

  /** The first index of c in s, or -1. */
  function FindChar(s: string, c: char): (k: int)
    ensures -1 <= k < |s|
    ensures k >= 0 ==> s[k] == c && forall i :: 0 <= i < k ==> s[i] != c
    ensures k == -1 <==> c !in s
  {
    if |s| == 0 then -1
    else if s[0] == c then 0
    else
      var k := FindChar(s[1..], c);
      assert c in s <==> c == s[0] || c in s[1..];
      if k < 0 then -1 else k + 1
  }

  function Cons(p: string, r: Result<string>): Result<string>
  {
    if r.Err? then r else Ok(p + r.value)
  }

  /**
   * `s.format(fname=v)`: `{{` and `}}` stand for one brace, `{fname}` for v; an empty or
   * numeric field raises IndexError, any other name KeyError, and a lone brace ValueError.
   */
  function Format(s: string, v: string): (r: Result<string>)
    decreases |s|
  {
    if |s| == 0 then Ok("")
    else if s[0] == '{' && |s| >= 2 && s[1] == '{' then Cons("{", Format(s[2..], v))
    else if s[0] == '{' then
      var j := FindChar(s[1..], '}');
      if j < 0 then Err("ValueError")
      else
        var name := s[1..1 + j];
        if name == "fname" then Cons(v, Format(s[2 + j..], v))
        else if forall k :: 0 <= k < |name| ==> IsDigit(name[k]) then Err("IndexError")
        else Err("KeyError")
    else if s[0] == '}' then
      if |s| >= 2 && s[1] == '}' then Cons("}", Format(s[2..], v)) else Err("ValueError")
    else Cons([s[0]], Format(s[1..], v))
  }

  predicate BraceFree(s: string)
  {
    '{' !in s && '}' !in s
  }

  /** A character other than a brace formats to itself. */
  lemma FormatChar(c: char, t: string, v: string)
    requires c != '{' && c != '}'
    ensures Format([c] + t, v) == Cons([c], Format(t, v))
  {
    var s := [c] + t;
    assert s[0] == c && s[1..] == t;
  }

  /** Text without braces formats to itself. */
  lemma {:induction false} FormatPlain(p: string, rest: string, v: string)
    requires BraceFree(p)
    ensures Format(p + rest, v) == Cons(p, Format(rest, v))
    decreases |p|
  {
    if |p| > 0 {
      var tl := p[1..];
      assert BraceFree(tl) by {
        assert forall c :: c in tl ==> c in p;
      }
      FormatPlain(tl, rest, v);
      HeadTail(p, rest);
      FormatChar(p[0], tl + rest, v);
      if Format(rest, v).Ok? {
        HeadTail(p, Format(rest, v).value);
      }
    } else {
      EmptyConcat(p, rest);
      if Format(rest, v).Ok? {
        EmptyConcat(p, Format(rest, v).value);
      }
    }
  }

  lemma HeadTail<T>(p: seq<T>, r: seq<T>)
    requires |p| > 0
    ensures p + r == [p[0]] + (p[1..] + r)
  {
  }

  lemma EmptyConcat<T>(p: seq<T>, r: seq<T>)
    requires |p| == 0
    ensures p + r == r
  {
  }

  lemma Assoc<T>(a: seq<T>, b: seq<T>, c: seq<T>)
    ensures a + b + c == a + (b + c)
  {
  }

  /** Brace-free text around the placeholder formats to that text around the file name. */
  lemma FormatAround(head: string, tail: string, v: string)
    requires BraceFree(head) && BraceFree(tail)
    ensures Format(head + "{fname}" + tail, v) == Ok(head + v + tail)
  {
    FormatPlain(tail, "", v);
    assert tail + "" == tail;
    assert Format("", v) == Ok("");
    FormatField(tail, v);
    FormatPlain(head, "{fname}" + tail, v);
    Assoc(head, "{fname}", tail);
    Assoc(head, v, tail);
  }

  /** The placeholder formats to the file name. */
  lemma FormatField(rest: string, v: string)
    ensures Format("{fname}" + rest, v) == Cons(v, Format(rest, v))
  {
    var s := "{fname}" + rest;
    assert s[1..][..5] == "fname" && s[1..][5] == '}';
    assert FindChar(s[1..], '}') == 5;
    assert s[1..6] == "fname" && s[7..] == rest;
  }

  /** `" ".join` of fields around a middle one. */
  lemma JoinAround(a: seq<string>, x: string, b: seq<string>)
    requires |a| >= 1
    ensures Join(a + [x] + b, " ") == Join(a, " ") + " " + x + (if |b| > 0 then " " + Join(b, " ") else "")
  {
    Assoc(a, [x], b);
    JoinAppend(a, [x] + b);
    var ja := Join(a, " ") + " ";
    if |b| > 0 {
      JoinCons(x, b);
      Assoc(ja, x, " " + Join(b, " "));
    } else {
      assert [x] + b == [x];
      assert ja + x + "" == ja + x;
    }
  }

  lemma JoinCons(x: string, b: seq<string>)
    requires |b| > 0
    ensures Join([x] + b, " ") == x + (" " + Join(b, " "))
  {
    assert ([x] + b)[1..] == b;
    Assoc(x, " ", Join(b, " "));
  }

  /** `" ".join` of two non-empty lists of fields. */
  lemma {:induction false} JoinAppend(a: seq<string>, b: seq<string>)
    requires |a| >= 1 && |b| >= 1
    ensures Join(a + b, " ") == Join(a, " ") + " " + Join(b, " ")
    decreases |a|
  {
    if |a| == 1 {
      assert (a + b)[1..] == b;
    } else {
      JoinAppend(a[1..], b);
      assert (a + b)[1..] == a[1..] + b;
    }
  }

  lemma BraceFreeJoin(parts: seq<string>)
    requires forall k :: 0 <= k < |parts| ==> BraceFree(parts[k])
    ensures BraceFree(Join(parts, " "))
  {
    JoinAvoids(parts, " ", '{');
    JoinAvoids(parts, " ", '}');
  }

  /** The template formats to the command with the third token replaced, once no other token has braces. */
  lemma FormatTemplate(tokens: seq<string>, v: string)
    requires |tokens| >= 3
    requires forall k :: 0 <= k < |tokens| && k != 2 ==> BraceFree(tokens[k])
    ensures Format(Join(tokens[2 := "{fname}"], " "), v) == Ok(Join(tokens[2 := v], " "))
  {
    var a, b := tokens[..2], tokens[3..];
    assert tokens[2 := "{fname}"] == a + ["{fname}"] + b;
    assert tokens[2 := v] == a + [v] + b;
    JoinAround(a, "{fname}", b);
    JoinAround(a, v, b);
    var head := Join(a, " ") + " ";
    var tail := if |b| > 0 then " " + Join(b, " ") else "";
    BraceFreeJoin(a);
    BraceFreeJoin(b);
    FormatAround(head, tail, v);
  }

  // ---- the launched commands ----

  /** `" --first {} --last {} ".format(...)`. */
  function RangeArgs(c: Chunk): string
  {
    " --first " + IntToStr(c.first) + " --last " + IntToStr(c.last) + " "
  }

  /** The commands for chunks k.., each the template formatted with its temporary name. */
  function CommandsFrom(template: string, outfile: string, cs: seq<Chunk>, k: nat): (r: Result<seq<string>>)
    requires k <= |cs|
    ensures r.Ok? ==> |r.value| == |cs| - k
    decreases |cs| - k
  {
    if k == |cs| then Ok([])
    else
      var cmd := Format(template, TmpName(outfile, k));
      if cmd.Err? then Err(cmd.error)
      else
        Prepend([cmd.value + RangeArgs(cs[k])], CommandsFrom(template, outfile, cs, k + 1))
  }

  /** The commands `main` starts, one per chunk. */
  function LaunchOf(proc: string, num: nat, threads: int): Result<seq<string>>
  {
    var tokens := SplitWs(proc);
    if |tokens| < 3 then Err("IndexError")
    else if threads == 0 then Err("ZeroDivisionError")
    else CommandsFrom(Join(tokens[2 := "{fname}"], " "), tokens[2], Chunks(num, threads), 0)
  }

  /**
   * `main` up to the thread launch: split the command, put the placeholder in the output
   * field, partition the images and format one command per chunk.
   */
  method Launch(proc: string, num: nat, threads: int) returns (r: Result<seq<string>>)
    ensures r == LaunchOf(proc, num, threads)
  {
    var cmds := SplitWs(proc);
    if |cmds| < 3 {
      return Err("IndexError");
    }
    var outfile := cmds[2];
    cmds := cmds[2 := "{fname}"];
    var newcmd := Join(cmds, " ");
    var p := Partition(num, threads);
    if p.Err? {
      return Err(p.error);
    }
    var chunks := p.value.1;
    var launched: seq<string> := [];
    PrependNone(CommandsFrom(newcmd, outfile, chunks, 0));
    for td := 0 to |chunks|
      invariant |launched| == td
      invariant Prepend(launched, CommandsFrom(newcmd, outfile, chunks, td)) == CommandsFrom(newcmd, outfile, chunks, 0)
    {
      var cmd := Format(newcmd, TmpName(outfile, td));
      if cmd.Err? {
        return Err(cmd.error);
      }
      var line := cmd.value + RangeArgs(chunks[td]);
      PrependStep(launched, line, CommandsFrom(newcmd, outfile, chunks, td + 1));
      launched := launched + [line];
    }
    assert launched + [] == launched;
    r := Ok(launched);
  }

  /** The command for chunk k: the fields with the output one renamed, then the range. */
  function LineOf(tokens: seq<string>, cs: seq<Chunk>, k: nat): string
    requires |tokens| >= 3 && k < |cs|
  {
    Join(tokens[2 := TmpName(tokens[2], k)], " ") + RangeArgs(cs[k])
  }

  /** One command per chunk, in chunk order. */
  function Lines(tokens: seq<string>, cs: seq<Chunk>): (ls: seq<string>)
    requires |tokens| >= 3
    ensures |ls| == |cs| && forall k :: 0 <= k < |cs| ==> ls[k] == LineOf(tokens, cs, k)
  {
    seq(|cs|, k requires 0 <= k < |cs| => LineOf(tokens, cs, k))
  }

  /** With a brace-free command, the commands from chunk k on are the lines from k on. */
  lemma {:induction false} CommandsSpec(tokens: seq<string>, cs: seq<Chunk>, k: nat)
    requires |tokens| >= 3 && k <= |cs|
    requires forall i :: 0 <= i < |tokens| && i != 2 ==> BraceFree(tokens[i])
    ensures CommandsFrom(Join(tokens[2 := "{fname}"], " "), tokens[2], cs, k) == Ok(Lines(tokens, cs)[k..])
    decreases |cs| - k
  {
    var ls := Lines(tokens, cs);
    if k < |cs| {
      CommandsStep(tokens, cs, k);
      CommandsSpec(tokens, cs, k + 1);
      SeqCons(ls, k);
    } else {
      assert ls[k..] == [];
    }
  }

  lemma SeqCons<T>(s: seq<T>, k: nat)
    requires k < |s|
    ensures s[k..] == [s[k]] + s[k + 1..]
  {
  }

  lemma CommandsStep(tokens: seq<string>, cs: seq<Chunk>, k: nat)
    requires |tokens| >= 3 && k < |cs|
    requires forall i :: 0 <= i < |tokens| && i != 2 ==> BraceFree(tokens[i])
    ensures var template := Join(tokens[2 := "{fname}"], " ");
      CommandsFrom(template, tokens[2], cs, k) == Prepend([LineOf(tokens, cs, k)], CommandsFrom(template, tokens[2], cs, k + 1))
  {
    FormatTemplate(tokens, TmpName(tokens[2], k));
  }

  /**
   * With at least three fields, none but the output one holding a brace, and at least one
   * thread, `main` launches one command per chunk: the command with the output field
   * replaced by the chunk's temporary name, followed by the chunk's range.
   */
  lemma LaunchSpec(proc: string, num: nat, threads: int)
    requires threads > 0
    requires var tokens := SplitWs(proc);
      |tokens| >= 3 && forall i :: 0 <= i < |tokens| && i != 2 ==> BraceFree(tokens[i])
    ensures LaunchOf(proc, num, threads) == Ok(Lines(SplitWs(proc), Chunks(num, threads)))
  {
    var tokens := SplitWs(proc);
    var cs := Chunks(num, threads);
    CommandsSpec(tokens, cs, 0);
    assert Lines(tokens, cs)[0..] == Lines(tokens, cs);
  }

  /** Fewer than three fields raise IndexError; a zero thread count raises ZeroDivisionError. */
  lemma LaunchErrors(proc: string, num: nat, threads: int)
    ensures |SplitWs(proc)| < 3 ==> LaunchOf(proc, num, threads) == Err("IndexError")
    ensures |SplitWs(proc)| >= 3 && threads == 0 ==> LaunchOf(proc, num, threads) == Err("ZeroDivisionError")
    ensures |SplitWs(proc)| >= 3 && threads < 0 ==> LaunchOf(proc, num, threads) == Ok([])
  {
  }

  function Prepend(done: seq<string>, r: Result<seq<string>>): Result<seq<string>>
  {
    if r.Err? then r else Ok(done + r.value)
  }

  lemma PrependNone(r: Result<seq<string>>)
    ensures Prepend([], r) == r
  {
    if r.Ok? {
      assert [] + r.value == r.value;
    }
  }

  lemma PrependStep(done: seq<string>, line: string, r: Result<seq<string>>)
    ensures Prepend(done, Prepend([line], r)) == Prepend(done + [line], r)
  {
    if r.Ok? {
      assert done + ([line] + r.value) == (done + [line]) + r.value;
    }
  }
}
