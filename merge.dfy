// The `--merge` mode of e2proctxt: every input file is read as rows of comma, semicolon or
// whitespace separated fields, and the rows of all files are pasted side by side.
module ProcTxtMerge {
  import opened Wrappers
  import opened PyStr

  // ---- reading one file ----

  /** The part of a line that holds fields: the stripped text before the first '#' when the
      line has one, and otherwise the whole line, newline included. */
  function Body(line: string): (b: string)
    ensures '#' !in b
    ensures '#' !in line ==> b == line
  {
    if '#' in line then
      var before := Split(line, '#')[0];
      StripAvoids(before, '#');
      Strip(before)
    else line
  }

  /** The fields of one line, None for a line that is skipped. */
  function Fields(line: string): (r: Option<seq<string>>)
    ensures r.None? <==> |Body(line)| == 0
  {
    var b := Body(line);
    if |b| == 0 then None
    else if ',' in b then Some(Split(b, ','))
    else if ';' in b then Some(Split(b, ';'))
    else Some(SplitWs(b))
  }

  /** The rows read from the first n lines of a file. */
  function RowsOf(lines: seq<string>, n: nat): (rows: seq<seq<string>>)
    requires n <= |lines|
    ensures |rows| <= n
  {
    if n == 0 then []
    else
      match Fields(lines[n - 1])
      case None => RowsOf(lines, n - 1)
      case Some(f) => RowsOf(lines, n - 1) + [f]
  }

  /** The loop over one file's lines. */
  method ReadRows(lines: seq<string>) returns (rows: seq<seq<string>>)
    ensures rows == RowsOf(lines, |lines|)
  {
    rows := [];
    for i := 0 to |lines|
      invariant rows == RowsOf(lines, i)
    {
      var b := Body(lines[i]);
      if |b| == 0 {
        continue;
      }
      var f: seq<string>;
      if ',' in b {
        f := Split(b, ',');
      } else if ';' in b {
        f := Split(b, ';');
      } else {
        f := SplitWs(b);
      }
      rows := rows + [f];
    }
  }

  /** A line whose text before its first '#' is blank is skipped. */
  lemma CommentSkipped(line: string, k: nat)
    requires k < |line| && line[k] == '#' && '#' !in line[..k]
    requires forall i :: 0 <= i < k ==> IsSpace(line[i])
    ensures Fields(line) == None
  {
    assert line == line[..k] + ['#'] + line[k + 1..];
    SplitAfterField(line[..k], '#', line[k + 1..]);
    StripBlank(line[..k]);
  }

  /** A blank line has no '#' and is not stripped, so it is read as an empty row. */
  lemma BlankLineRow()
    ensures Fields("\n") == Some([])
  {
    var s := "\n";
    assert s[0] in Whitespace && s[1..] == "";
    assert DropRun(s, Whitespace) == "";
    assert SplitRuns(s, Whitespace) == ["", ""];
    assert NonEmpty(["", ""]) == NonEmpty([""]) == [];
    assert '#' !in s && ',' !in s && ';' !in s;
    assert Body(s) == s;
  }

  /** A comma-joined line without '#' reads back as its fields. */
  lemma CommaRoundTrip(row: seq<string>)
    requires |row| >= 2
    requires forall k :: 0 <= k < |row| ==> ',' !in row[k] && '#' !in row[k]
    ensures Fields(Join(row, ",")) == Some(row)
  {
    JoinAvoids(row, ",", '#');
    assert Join(row, ",") == row[0] + "," + Join(row[1..], ",");
    assert Join(row, ",")[|row[0]|] == ',';
    SplitJoin(row, ',');
  }

  // ---- pasting the files together ----

  /** Fields of the merged output: no separator, comment or blank characters. */
  predicate Word(f: string)
  {
    |f| > 0 && ',' !in f && ';' !in f && '#' !in f && forall ch :: ch in f ==> !IsSpace(ch)
  }

  /** Do the first n files all have as many rows as the first? */
  predicate SameRows(sets: seq<seq<seq<string>>>, n: nat)
    requires 0 < |sets| && n <= |sets|
  {
    forall f :: 0 <= f < n ==> |sets[f]| == |sets[0]|
  }

  /** The first i with files i and i + 1 of different length, looking at the first n files. */
  function Mismatch(sets: seq<seq<seq<string>>>, n: nat): (m: Option<nat>)
    requires 0 < |sets| && n <= |sets|
    ensures m.None? <==> SameRows(sets, n)
    ensures m.Some? ==> m.value + 1 < n && |sets[m.value]| != |sets[m.value + 1]| && SameRows(sets, m.value + 1)
  {
    if n <= 1 then None
    else
      match Mismatch(sets, n - 1)
      case Some(i) => Some(i)
      case None => if |sets[n - 2]| != |sets[n - 1]| then Some(n - 2) else None
  }

  /** Row r of the first k files pasted together, in argument order. */
  function MergedRow(sets: seq<seq<seq<string>>>, k: nat, r: nat): seq<string>
    requires 0 < k <= |sets| && SameRows(sets, k) && r < |sets[0]|
  {
    if k == 1 then sets[0][r] else MergedRow(sets, k - 1, r) + sets[k - 1][r]
  }

  /** How many fields row r has in the first f files together. */
  function Width(sets: seq<seq<seq<string>>>, f: nat, r: nat): nat
    requires f <= |sets| && forall g :: 0 <= g < f ==> r < |sets[g]|
  {
    if f == 0 then 0 else Width(sets, f - 1, r) + |sets[f - 1][r]|
  }

  /** What `--merge` ends with: the merged rows, the message for the first pair of files of
      different length, or the IndexError of merging no file at all. */
  datatype Outcome =
    | Merged(rows: seq<seq<string>>)
    | RowMismatch(first: string, firstRows: nat, second: string, secondRows: nat)
    | NoInput

  /** The merge of the files, named by `names`, with the count of rows of both files in the
      mismatch message. */
  function MergeOf(names: seq<string>, sets: seq<seq<seq<string>>>): Outcome
    requires |names| == |sets|
  {
    if |sets| == 0 then NoInput
    else
      match Mismatch(sets, |sets|)
      case Some(i) => RowMismatch(names[i], |sets[i]|, names[i + 1], |sets[i + 1]|)
      case None => Merged(seq(|sets[0]|, r requires 0 <= r < |sets[0]| => MergedRow(sets, |sets|, r)))
  }

  /** The merge as the message is written: the first file's count is printed twice. */
  function MergeAsWritten(names: seq<string>, sets: seq<seq<seq<string>>>): Outcome
    requires |names| == |sets|
  {
    match MergeOf(names, sets)
    case RowMismatch(a, na, b, _) => RowMismatch(a, na, b, na)
    case o => o
  }

  /** The merge loop: the rows of the first file are extended in place by the rows of each
      later file; a pair of different length stops it with the message as written. */
  method Merge(names: seq<string>, sets: seq<seq<seq<string>>>) returns (o: Outcome)
    requires |names| == |sets|
    ensures o == MergeAsWritten(names, sets)
  {
    if |sets| == 0 {
      return NoInput;
    }
    var merged := sets[0];
    for i := 0 to |sets| - 1
      invariant Mismatch(sets, i + 1).None?
      invariant |merged| == |sets[0]|
      invariant forall r :: 0 <= r < |merged| ==> merged[r] == MergedRow(sets, i + 1, r)
    {
      if |sets[i]| != |sets[i + 1]| {
        MismatchAt(sets, i);
        return RowMismatch(names[i], |sets[i]|, names[i + 1], |sets[i]|);
      }
      ghost var before := merged;
      for row := 0 to |sets[i + 1]|
        invariant |merged| == |sets[0]|
        invariant forall r :: 0 <= r < row ==> merged[r] == before[r] + sets[i + 1][r]
        invariant forall r :: row <= r < |merged| ==> merged[r] == before[r]
      {
        merged := merged[row := merged[row] + sets[i + 1][row]];
      }
    }
    return Merged(merged);
  }

  /** The first unequal adjacent pair after equal ones is the mismatch reported. */
  lemma MismatchAt(sets: seq<seq<seq<string>>>, i: nat)
    requires i + 1 < |sets| && Mismatch(sets, i + 1).None? && |sets[i]| != |sets[i + 1]|
    ensures Mismatch(sets, |sets|) == Some(i)
  {
    MismatchFrom(sets, i, |sets|);
  }

  lemma {:induction false} MismatchFrom(sets: seq<seq<seq<string>>>, i: nat, n: nat)
    requires i + 2 <= n <= |sets| && Mismatch(sets, i + 1).None? && |sets[i]| != |sets[i + 1]|
    ensures Mismatch(sets, n) == Some(i)
  {
    if n > i + 2 {
      MismatchFrom(sets, i, n - 1);
    }
  }

  /** The lines written: each merged row's fields joined by tabs. */
  function OutLines(rows: seq<seq<string>>): (out: seq<string>)
    ensures |out| == |rows|
    ensures forall r :: 0 <= r < |rows| ==> out[r] == Join(rows[r], "\t") + "\n"
  {
    seq(|rows|, r requires 0 <= r < |rows| => Join(rows[r], "\t") + "\n")
  }

  /** The loop writing the merged rows. */
  method WriteRows(rows: seq<seq<string>>) returns (out: seq<string>)
    ensures out == OutLines(rows)
  {
    out := [];
    for r := 0 to |rows|
      invariant out == OutLines(rows[..r])
    {
      out := out + [Join(rows[r], "\t") + "\n"];
      assert rows[..r + 1][..r] == rows[..r];
    }
    assert rows[..|rows|] == rows;
  }

  // ---- properties ----

  /** The merge succeeds exactly when there is a file and all files have as many rows. */
  lemma MergedIff(names: seq<string>, sets: seq<seq<seq<string>>>)
    requires |names| == |sets|
    ensures MergeOf(names, sets).Merged? <==> |sets| > 0 && SameRows(sets, |sets|)
    ensures MergeOf(names, sets).NoInput? <==> |sets| == 0
  {
  }

  /** A mismatch names two neighbouring files and their row counts, which differ. */
  lemma MismatchReported(names: seq<string>, sets: seq<seq<seq<string>>>)
    requires |names| == |sets|
    ensures match MergeOf(names, sets)
      case RowMismatch(a, na, b, nb) =>
        na != nb && exists i :: 0 <= i < |sets| - 1 && a == names[i] && na == |sets[i]| && b == names[i + 1] && nb == |sets[i + 1]|
      case _ => true
  {
    if |sets| > 0 && Mismatch(sets, |sets|).Some? {
      var i := Mismatch(sets, |sets|).value;
      assert 0 <= i < |sets| - 1 && names[i] == names[i] && |sets[i]| == |sets[i]|;
    }
  }

  /** As written, the message gives the same count for both files even though they differ:
      a file of one row followed by an empty file is reported as "a has 1 rows and b has 1". */
  lemma MismatchMisreported()
    ensures MergeOf(["a", "b"], [[["1"]], []]) == RowMismatch("a", 1, "b", 0)
    ensures MergeAsWritten(["a", "b"], [[["1"]], []]) == RowMismatch("a", 1, "b", 1)
  {
    var sets: seq<seq<seq<string>>> := [[["1"]], []];
    assert Mismatch(sets, 2) == Some(0);
  }

  /** A merged row has as many fields as the file rows it is made of. */
  lemma {:induction false} MergedWidth(sets: seq<seq<seq<string>>>, k: nat, r: nat)
    requires 0 < k <= |sets| && SameRows(sets, k) && r < |sets[0]|
    ensures |MergedRow(sets, k, r)| == Width(sets, k, r)
  {
    if k > 1 {
      MergedWidth(sets, k - 1, r);
    }
  }

  /** The width of the first f files grows with f. */
  lemma {:induction false} WidthMono(sets: seq<seq<seq<string>>>, f: nat, g: nat, r: nat)
    requires f <= g <= |sets| && forall h :: 0 <= h < g ==> r < |sets[h]|
    ensures Width(sets, f, r) <= Width(sets, g, r)
  {
    if f < g {
      WidthMono(sets, f, g - 1, r);
    }
  }

  /** File f's row r sits in the merged row right after the fields of the files before it. */
  lemma {:induction false} MergedPart(sets: seq<seq<seq<string>>>, k: nat, r: nat, f: nat)
    requires 0 < k <= |sets| && SameRows(sets, k) && r < |sets[0]| && f < k
    ensures Width(sets, f, r) <= Width(sets, f + 1, r) <= |MergedRow(sets, k, r)|
    ensures MergedRow(sets, k, r)[Width(sets, f, r)..Width(sets, f + 1, r)] == sets[f][r]
  {
    MergedWidth(sets, k, r);
    WidthMono(sets, f + 1, k, r);
    if f == k - 1 {
      if k > 1 {
        MergedWidth(sets, k - 1, r);
      }
    } else {
      MergedPart(sets, k - 1, r, f);
      MergedWidth(sets, k - 1, r);
      var m := MergedRow(sets, k - 1, r);
      assert MergedRow(sets, k, r)[..|m|] == m;
    }
  }

  /** Merging a single file gives its rows back. */
  lemma MergeSingle(name: string, rows: seq<seq<string>>)
    ensures MergeOf([name], [rows]) == Merged(rows)
  {
  }

  /** A row that `--merge` writes and reads back unchanged: at least one field, all words. */
  predicate WordRow(row: seq<string>)
  {
    |row| >= 1 && forall k :: 0 <= k < |row| ==> Word(row[k])
  }

  /** A merged row of words, as written, reads back as the same fields. */
  lemma OutLineRoundTrip(row: seq<string>)
    requires WordRow(row)
    ensures Fields(Join(row, "\t") + "\n") == Some(row)
  {
    var line := Join(row, "\t") + "\n";
    JoinAvoids(row, "\t", '#');
    JoinAvoids(row, "\t", ',');
    JoinAvoids(row, "\t", ';');
    SplitWsJoin(row);
    assert |line| > 0;
  }

  /** Reading the written output of a merge gives its rows back. */
  lemma OutputRoundTrip(rows: seq<seq<string>>)
    requires forall r :: 0 <= r < |rows| ==> WordRow(rows[r])
    ensures RowsOf(OutLines(rows), |rows|) == rows
  {
    var out := OutLines(rows);
    forall r | 0 <= r < |rows|
      ensures Fields(out[r]) == Some(rows[r])
    {
      OutLineRoundTrip(rows[r]);
    }
    ReadEvery(out, rows, |rows|);
  }

  /** Lines that each read as one row give those rows, in order. */
  lemma {:induction false} ReadEvery(lines: seq<string>, rows: seq<seq<string>>, n: nat)
    requires n <= |lines| == |rows| && forall r :: 0 <= r < |lines| ==> Fields(lines[r]) == Some(rows[r])
    ensures RowsOf(lines, n) == rows[..n]
  {
    if n > 0 {
      ReadEvery(lines, rows, n - 1);
      assert rows[..n] == rows[..n - 1] + [rows[n - 1]];
    }
  }
}
