// The Python string operations the scripts rely on, over ASCII.
module PyStr {
  import opened Wrappers

  /** Python's whitespace class restricted to ASCII: space, \t, \n, \r, \v and \f. */
  predicate IsSpace(c: char)
  {
    c == ' ' || c == '\t' || c == '\n' || c == '\r' || c == '\U{B}' || c == '\U{C}'
  }

  const Whitespace: set<char> := {' ', '\t', '\n', '\r', '\U{B}', '\U{C}'}

  lemma WhitespaceIsSpace(c: char)
    ensures c in Whitespace <==> IsSpace(c)
  {
  }

  predicate IsDigit(c: char)
  {
    '0' <= c <= '9'
  }

  function LStrip(s: string): (r: string)
    ensures |r| <= |s|
    ensures forall i :: 0 <= i < |s| - |r| ==> IsSpace(s[i])
    ensures |r| > 0 ==> !IsSpace(r[0])
  {
    if |s| > 0 && IsSpace(s[0]) then LStrip(s[1..]) else s
  }

  function RStrip(s: string): (r: string)
    ensures |r| <= |s| && r == s[..|r|]
    ensures forall i :: |r| <= i < |s| ==> IsSpace(s[i])
    ensures |r| > 0 ==> !IsSpace(r[|r| - 1])
  {
    if |s| > 0 && IsSpace(s[|s| - 1]) then RStrip(s[..|s| - 1]) else s
  }

  /** Python's `str.strip()`: drop leading and trailing whitespace. */
  function Strip(s: string): (r: string)
    ensures |r| <= |s|
    ensures |r| > 0 ==> !IsSpace(r[0]) && !IsSpace(r[|r| - 1])
    decreases |s|
  {
    if |s| > 0 && IsSpace(s[0]) then Strip(s[1..])
    else if |s| > 0 && IsSpace(s[|s| - 1]) then Strip(s[..|s| - 1])
    else s
  }

  /** The strip is the slice between a run of leading and a run of trailing whitespace. */
  lemma {:induction false} StripSlice(s: string) returns (i: nat, j: nat)
    ensures i <= j <= |s| && Strip(s) == s[i..j]
    ensures forall k :: 0 <= k < i ==> IsSpace(s[k])
    ensures forall k :: j <= k < |s| ==> IsSpace(s[k])
    decreases |s|
  {
    if |s| > 0 && IsSpace(s[0]) {
      var i', j' := StripSlice(s[1..]);
      i, j := i' + 1, j' + 1;
      assert s[1..][i'..j'] == s[i..j];
      forall k | 0 < k < i ensures IsSpace(s[k]) { assert s[k] == s[1..][k - 1]; }
      forall k | j <= k < |s| ensures IsSpace(s[k]) { assert s[k] == s[1..][k - 1]; }
    } else if |s| > 0 && IsSpace(s[|s| - 1]) {
      var t := s[..|s| - 1];
      i, j := StripSlice(t);
      assert t[i..j] == s[i..j];
      forall k | j <= k < |s| ensures IsSpace(s[k]) { if k < |t| { assert s[k] == t[k]; } }
    } else {
      i, j := 0, |s|;
      assert s[0..|s|] == s;
    }
  }

  /** A string that starts and ends with a non-space is its own strip. */
  lemma StripTrimmed(s: string)
    requires |s| > 0 ==> !IsSpace(s[0]) && !IsSpace(s[|s| - 1])
    ensures Strip(s) == s
  {
  }

  /** A trimmed string between a leading space and a trailing newline strips back to itself. */
  lemma StripPadded(s: string)
    requires |s| > 0 && !IsSpace(s[0]) && !IsSpace(s[|s| - 1])
    ensures Strip(" " + s + "\n") == s
  {
    var t := " " + s + "\n";
    assert t[1..] == s + "\n";
    assert Strip(t) == Strip(s + "\n");
    assert (s + "\n")[..|s|] == s;
    assert Strip(s + "\n") == Strip(s);
    StripTrimmed(s);
  }

  predicate StartsWith(s: string, prefix: string)
  {
    |prefix| <= |s| && s[..|prefix|] == prefix
  }

  /** Python's `str.split(c)` with a one-character separator: never empty, keeps empty fields. */
  function Split(s: string, c: char): (r: seq<string>)
    ensures |r| >= 1
    ensures forall k :: 0 <= k < |r| ==> c !in r[k]
    ensures c !in s ==> r == [s]
  {
    if |s| == 0 then [""]
    else if s[0] == c then [""] + Split(s[1..], c)
    else
      var t := Split(s[1..], c);
      assert [s[0]] + s[1..] == s;
      [[s[0]] + t[0]] + t[1..]
  }

  /** Python's `sep.join(parts)`. */
  function Join(parts: seq<string>, sep: string): (r: string)
    ensures |parts| == 1 ==> r == parts[0]
  {
    if |parts| == 0 then ""
    else if |parts| == 1 then parts[0]
    else parts[0] + sep + Join(parts[1..], sep)
  }

  function Concat(parts: seq<string>): string
  {
    if |parts| == 0 then "" else parts[0] + Concat(parts[1..])
  }

  lemma {:induction false} SplitAfterField(a: string, c: char, b: string)
    requires c !in a
    ensures Split(a + [c] + b, c) == [a] + Split(b, c)
  {
    if |a| == 0 {
      assert a + [c] + b == [c] + b;
      assert ([c] + b)[1..] == b;
    } else {
      SplitAfterField(a[1..], c, b);
      assert (a + [c] + b)[1..] == a[1..] + [c] + b;
      assert [a[0]] + a[1..] == a;
    }
  }

  /** Splitting undoes joining when no field contains the separator. */
  lemma {:induction false} SplitJoin(parts: seq<string>, c: char)
    requires |parts| >= 1
    requires forall k :: 0 <= k < |parts| ==> c !in parts[k]
    ensures Split(Join(parts, [c]), c) == parts
  {
    if |parts| > 1 {
      SplitJoin(parts[1..], c);
      SplitAfterField(parts[0], c, Join(parts[1..], [c]));
      assert [parts[0]] + parts[1..] == parts;
    }
  }

  /** Joining undoes splitting: the separators come back where they were. */
  lemma {:induction false} JoinSplit(s: string, c: char)
    ensures Join(Split(s, c), [c]) == s
  {
    if |s| > 0 {
      JoinSplit(s[1..], c);
      var t := Split(s[1..], c);
      if s[0] == c {
        assert [""] + t == [""] + t;
        assert s == [c] + s[1..];
      } else {
        var t' := [[s[0]] + t[0]] + t[1..];
        if |t| == 1 {
          assert s == [s[0]] + s[1..];
        } else {
          assert t'[1..] == t[1..];
          assert Join(t, [c]) == t[0] + [c] + Join(t[1..], [c]);
          assert s == [s[0]] + s[1..];
        }
      }
    }
  }

  /** Python's `re.split("[...]+", s)`: fields between maximal runs of separator characters. */
  function SplitRuns(s: string, seps: set<char>): (r: seq<string>)
    ensures |r| >= 1
    decreases |s|
  {
    if |s| == 0 then [""]
    else if s[0] in seps then [""] + SplitRuns(DropRun(s, seps), seps)
    else
      var t := SplitRuns(s[1..], seps);
      [[s[0]] + t[0]] + t[1..]
  }

  /** No field of a split holds a separator. */
  lemma {:induction false} SplitRunsFree(s: string, seps: set<char>)
    ensures forall k, ch :: 0 <= k < |SplitRuns(s, seps)| && ch in SplitRuns(s, seps)[k] ==> ch !in seps
    decreases |s|
  {
    var r := SplitRuns(s, seps);
    if |s| > 0 {
      if s[0] in seps {
        var t := SplitRuns(DropRun(s, seps), seps);
        SplitRunsFree(DropRun(s, seps), seps);
        assert r == [""] + t;
        forall k, ch | 0 <= k < |r| && ch in r[k] ensures ch !in seps {
          assert k > 0 && r[k] == t[k - 1];
        }
      } else {
        var t := SplitRuns(s[1..], seps);
        SplitRunsFree(s[1..], seps);
        assert r == [[s[0]] + t[0]] + t[1..];
        forall k, ch | 0 <= k < |r| && ch in r[k] ensures ch !in seps {
          if k == 0 {
            assert ch == s[0] || ch in t[0];
          } else {
            assert r[k] == t[k];
          }
        }
      }
    }
  }

  function DropRun(s: string, seps: set<char>): (r: string)
    ensures |s| > 0 && s[0] in seps ==> |r| < |s|
    ensures |r| <= |s|
    ensures |r| > 0 ==> r[0] !in seps
  {
    if |s| > 0 && s[0] in seps then DropRun(s[1..], seps) else s
  }

  function NonEmpty(parts: seq<string>): (r: seq<string>)
    ensures forall k :: 0 <= k < |r| ==> |r[k]| > 0
    ensures forall k :: 0 <= k < |r| ==> r[k] in parts
    ensures |r| <= |parts|
  {
    if |parts| == 0 then []
    else if |parts[0]| == 0 then NonEmpty(parts[1..])
    else [parts[0]] + NonEmpty(parts[1..])
  }

  /** Dropping empty fields keeps a list without any. */
  lemma {:induction false} NonEmptyKeeps(parts: seq<string>)
    requires forall k :: 0 <= k < |parts| ==> |parts[k]| > 0
    ensures NonEmpty(parts) == parts
  {
    if |parts| > 0 {
      NonEmptyKeeps(parts[1..]);
    }
  }

  /** Dropping empty fields works part by part. */
  lemma {:induction false} NonEmptyAppend(a: seq<string>, b: seq<string>)
    ensures NonEmpty(a + b) == NonEmpty(a) + NonEmpty(b)
  {
    if |a| > 0 {
      NonEmptyAppend(a[1..], b);
      assert (a + b)[1..] == a[1..] + b;
    } else {
      assert a + b == b;
    }
  }

  /** A character in neither the parts nor the separator is not in their join. */
  lemma {:induction false} JoinAvoids(parts: seq<string>, sep: string, ch: char)
    requires ch !in sep && forall k :: 0 <= k < |parts| ==> ch !in parts[k]
    ensures ch !in Join(parts, sep)
  {
    if |parts| > 1 {
      JoinAvoids(parts[1..], sep, ch);
    }
  }

  /** A stripped string has no character its source lacks. */
  lemma StripAvoids(s: string, ch: char)
    requires ch !in s
    ensures ch !in Strip(s)
  {
    var i, j := StripSlice(s);
    assert forall k :: i <= k < j ==> s[i..j][k - i] == s[k];
  }

  /** An all-blank string strips to nothing. */
  lemma StripBlank(s: string)
    requires forall k :: 0 <= k < |s| ==> IsSpace(s[k])
    ensures Strip(s) == ""
  {
    var i, j := StripSlice(s);
    assert forall k :: 0 <= k < |Strip(s)| ==> IsSpace(Strip(s)[k]);
  }

  /** A field free of separators runs on into whatever follows it. */
  lemma {:induction false} SplitRunsLead(w: string, rest: string, seps: set<char>)
    requires forall k :: 0 <= k < |w| ==> w[k] !in seps
    ensures var t := SplitRuns(rest, seps); SplitRuns(w + rest, seps) == [w + t[0]] + t[1..]
    decreases |w|
  {
    var t := SplitRuns(rest, seps);
    if |w| > 0 {
      var v := w[1..];
      SplitRunsLead(v, rest, seps);
      assert w + rest == [w[0]] + (v + rest);
      SplitRunsCons(w[0], v + rest, seps);
      assert [w[0]] + (v + t[0]) == w + t[0];
    } else {
      assert w + rest == rest && w + t[0] == t[0];
      assert [t[0]] + t[1..] == t;
    }
  }

  /** A non-separator character starts the first field. */
  lemma SplitRunsCons(a: char, s: string, seps: set<char>)
    requires a !in seps
    ensures var t := SplitRuns(s, seps); SplitRuns([a] + s, seps) == [[a] + t[0]] + t[1..]
  {
    assert ([a] + s)[0] == a && ([a] + s)[1..] == s;
  }

  /** A separator-free field ended by a separator splits into the field and an empty field. */
  lemma SplitRunsEnd(w: string, e: char, seps: set<char>)
    requires e in seps && forall k :: 0 <= k < |w| ==> w[k] !in seps
    ensures SplitRuns(w + [e], seps) == [w, ""]
  {
    var s := [e];
    assert s[0] in seps && s[1..] == "";
    assert DropRun(s, seps) == "";
    var t := SplitRuns(s, seps);
    assert SplitRuns("", seps) == [""];
    assert t == ["", ""];
    assert w + t[0] == w && t[1..] == [""];
    SplitRunsLead(w, s, seps);
  }

  /** A separator-free field, one separator, then a field start: the field is split off. */
  lemma SplitRunsSep(w: string, c: char, x: string, seps: set<char>)
    requires c in seps && |x| > 0 && x[0] !in seps
    requires forall k :: 0 <= k < |w| ==> w[k] !in seps
    ensures SplitRuns(w + ([c] + x), seps) == [w] + SplitRuns(x, seps)
  {
    var y := [c] + x;
    assert y[0] == c && y[1..] == x;
    assert DropRun(y, seps) == DropRun(x, seps) == x;
    var t := SplitRuns(y, seps);
    assert t == [""] + SplitRuns(x, seps);
    SplitRunsLead(w, y, seps);
    assert w + t[0] == w && t[1..] == SplitRuns(x, seps);
  }

  /** A joined line of two or more fields is its first field, the separator and the rest. */
  lemma JoinLine(row: seq<string>, c: char, e: char)
    requires |row| >= 2 && |row[1]| > 0
    ensures var x := Join(row[1..], [c]) + [e];
      x[0] == row[1][0] && Join(row, [c]) + [e] == row[0] + ([c] + x)
  {
    assert Join(row, [c]) == row[0] + [c] + Join(row[1..], [c]);
    assert (row[0] + [c] + Join(row[1..], [c])) + [e] == row[0] + ([c] + (Join(row[1..], [c]) + [e]));
  }

  /** Joining non-empty separator-free fields with a separator and ending the line with one
      splits back into the fields and a final empty field. */
  lemma {:induction false} SplitRunsJoin(row: seq<string>, c: char, e: char, seps: set<char>)
    requires |row| >= 1 && c in seps && e in seps
    requires forall k :: 0 <= k < |row| ==> |row[k]| > 0 && forall ch :: ch in row[k] ==> ch !in seps
    ensures SplitRuns(Join(row, [c]) + [e], seps) == row + [""]
  {
    var w := row[0];
    assert forall k :: 0 <= k < |w| ==> w[k] !in seps;
    if |row| == 1 {
      assert Join(row, [c]) == w && row == [w];
      SplitRunsEnd(w, e, seps);
    } else {
      var x := Join(row[1..], [c]) + [e];
      SplitRunsJoin(row[1..], c, e, seps);
      JoinLine(row, c, e);
      SplitRunsSep(w, c, x, seps);
      assert [w] + row[1..] == row;
    }
  }

  /** `str.split()` of tab-joined words and a newline gives back the words. */
  lemma SplitWsJoin(row: seq<string>)
    requires |row| >= 1
    requires forall k :: 0 <= k < |row| ==> |row[k]| > 0 && forall ch :: ch in row[k] ==> !IsSpace(ch)
    ensures SplitWs(Join(row, "\t") + "\n") == row
  {
    forall k, ch | 0 <= k < |row| && ch in row[k]
      ensures ch !in Whitespace
    {
      WhitespaceIsSpace(ch);
    }
    SplitRunsJoin(row, '\t', '\n', Whitespace);
    NonEmptyAppend(row, [""]);
    NonEmptyKeeps(row);
  }

  /** Python's `str.split()` with no argument: whitespace-separated words, no empty words. */
  function SplitWs(s: string): (r: seq<string>)
    ensures forall k :: 0 <= k < |r| ==> |r[k]| > 0 && forall ch :: ch in r[k] ==> !IsSpace(ch)
  {
    var parts := SplitRuns(s, Whitespace);
    SplitRunsFree(s, Whitespace);
    var r := NonEmpty(parts);
    forall k, ch | 0 <= k < |r| && ch in r[k] ensures !IsSpace(ch) {
      var j :| 0 <= j < |parts| && parts[j] == r[k];
      assert ch in parts[j];
      WhitespaceIsSpace(ch);
    }
    r
  }

  /** ASCII lower-casing. */
  function Lower(s: string): (r: string)
    ensures |r| == |s|
    ensures forall i :: 0 <= i < |s| ==> r[i] == LowerChar(s[i])
  {
    if |s| == 0 then "" else [LowerChar(s[0])] + Lower(s[1..])
  }

  function LowerChar(c: char): char
  {
    if 'A' <= c <= 'Z' then (c as int + 32) as char else c
  }

  function DigitChar(d: nat): (c: char)
    requires d < 10
    ensures IsDigit(c) && DigitValue(c) == d
  {
    ('0' as int + d) as char
  }

  function DigitValue(c: char): nat
    requires IsDigit(c)
  {
    c as int - '0' as int
  }

  /** Decimal digits of n, most significant first, without leading zeros. */
  function Digits(n: nat): (r: string)
    ensures |r| >= 1 && forall i :: 0 <= i < |r| ==> IsDigit(r[i])
    ensures |r| > 1 ==> r[0] != '0'
  {
    if n < 10 then [DigitChar(n)] else Digits(n / 10) + [DigitChar(n % 10)]
  }

  /** Python's `str(n)` for an int. */
  function IntToStr(n: int): string
  {
    if n < 0 then "-" + Digits(-n) else Digits(n)
  }

  /** The body of an int literal: digits, each '_' between two digits. */
  predicate ValidDigits(t: string)
  {
    |t| >= 1 && IsDigit(t[0]) && IsDigit(t[|t| - 1]) &&
    (forall i :: 0 <= i < |t| ==> IsDigit(t[i]) || t[i] == '_') &&
    (forall i :: 0 <= i < |t| - 1 ==> t[i] == '_' ==> IsDigit(t[i + 1]))
  }

  function DigitsValue(t: string): nat
    requires forall i :: 0 <= i < |t| ==> IsDigit(t[i]) || t[i] == '_'
  {
    if |t| == 0 then 0
    else if t[|t| - 1] == '_' then DigitsValue(t[..|t| - 1])
    else 10 * DigitsValue(t[..|t| - 1]) + DigitValue(t[|t| - 1])
  }

  /** Python's `int(s)` on a string in base 10; None where Python raises ValueError. */
  function ParseInt(s: string): (r: Option<int>)
    ensures r.Some? ==> |Strip(s)| > 0
  {
    var t := Strip(s);
    if |t| > 0 && (t[0] == '+' || t[0] == '-') then
      var body := t[1..];
      if ValidDigits(body) then
        var v: int := DigitsValue(body);
        Some(if t[0] == '-' then -v else v)
      else None
    else if ValidDigits(t) then Some(DigitsValue(t))
    else None
  }

  lemma {:induction false} DigitsRoundTrip(n: nat)
    ensures ValidDigits(Digits(n))
    ensures DigitsValue(Digits(n)) == n
  {
    if n >= 10 {
      DigitsRoundTrip(n / 10);
      var t := Digits(n);
      assert t[..|t| - 1] == Digits(n / 10);
    }
  }

  /** `int(str(n)) == n` for every int. */
  lemma ParseIntToStr(n: int)
    ensures ParseInt(IntToStr(n)) == Some(n)
  {
    var s := IntToStr(n);
    if n < 0 {
      DigitsRoundTrip(-n);
      assert s[1..] == Digits(-n);
    } else {
      DigitsRoundTrip(n);
    }
    StripTrimmed(s);
  }

  /** Python's `s.rfind(c)`: the last index of c, or -1. */
  function RFind(s: string, c: char): (k: int)
    ensures -1 <= k < |s|
    ensures k >= 0 ==> s[k] == c && forall i :: k < i < |s| ==> s[i] != c
    ensures k == -1 <==> c !in s
  {
    if |s| == 0 then -1
    else if s[|s| - 1] == c then |s| - 1
    else RFind(s[..|s| - 1], c)
  }

  /** Python's slice bound: negative bounds count from the end, then clamp to [0, n]. */
  function SliceBound(i: int, n: nat): (k: nat)
    ensures k <= n
    ensures 0 <= i <= n ==> k == i
    ensures -(n as int) <= i < 0 ==> k == i + n
  {
    if i < 0 then (if i + n < 0 then 0 else i + n) else if i > n then n else i
  }

  /** Python's `s[:i]`. */
  function Prefix(s: string, i: int): (r: string)
    ensures r == s[..SliceBound(i, |s|)]
  {
    s[..SliceBound(i, |s|)]
  }

  /** Python's `s[i:]`. */
  function Suffix(s: string, i: int): (r: string)
    ensures r == s[SliceBound(i, |s|)..]
  {
    s[SliceBound(i, |s|)..]
  }

  /** `s[:i] + s[i:] == s` for every index. */
  lemma PrefixSuffix(s: string, i: int)
    ensures Prefix(s, i) + Suffix(s, i) == s
  {
  }

  /** Python's `"%02d" % i` for a non-negative i. */
  function ZeroPad2(i: nat): (r: string)
    ensures |r| >= 2
    ensures forall k :: 0 <= k < |r| ==> IsDigit(r[k])
  {
    if i < 10 then "0" + Digits(i) else Digits(i)
  }
}
