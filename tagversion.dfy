// The release helper: pick the latest `v` tag, parse its version, pad it to three
// components, bump one of them and build the next tag.
module TagVersion {
  import opened Wrappers
  import opened PyNum
  import opened PyStr

  /** The `Version` enumeration: the component each bump names. */
  datatype Bit = Major | Minor | Patch

  /** `Version[bit].value`: MAJOR = 0, MINOR = 1, PATCH = 2. */
  function Index(b: Bit): (i: nat)
    ensures i < 3
  {
    match b
    case Major => 0
    case Minor => 1
    case Patch => 2
  }

  // ---- tag selection ----

  /** Python's `a <= b` on strings: lexicographic order of code points. */
  predicate StrLe(a: string, b: string)
  {
    |a| == 0 || (|b| > 0 && (a[0] < b[0] || (a[0] == b[0] && StrLe(a[1..], b[1..]))))
  }

  lemma {:induction false} StrLeTotal(a: string, b: string)
    ensures StrLe(a, b) || StrLe(b, a)
  {
    if |a| > 0 && |b| > 0 && a[0] == b[0] {
      StrLeTotal(a[1..], b[1..]);
    }
  }

  lemma {:induction false} StrLeTrans(a: string, b: string, c: string)
    requires StrLe(a, b) && StrLe(b, c)
    ensures StrLe(a, c)
  {
    if |a| > 0 && a[0] == b[0] && b[0] == c[0] {
      StrLeTrans(a[1..], b[1..], c[1..]);
    }
  }

  /** `t.startswith('v')`. */
  predicate IsVTag(t: string)
  {
    |t| > 0 && t[0] == 'v'
  }

  /** `[t for t in tags if t.startswith('v')]`. */
  function VersionTags(tags: seq<string>): (r: seq<string>)
    ensures forall t :: t in r <==> t in tags && IsVTag(t)
  {
    if |tags| == 0 then []
    else
      var rest := VersionTags(tags[1..]);
      assert forall t :: t in tags <==> t == tags[0] || t in tags[1..];
      if IsVTag(tags[0]) then [tags[0]] + rest else rest
  }

  /** The head of a list sorted in reverse: its greatest element in string order. */
  function Greatest(ts: seq<string>): (g: string)
    requires |ts| > 0
    ensures g in ts && forall t :: t in ts ==> StrLe(t, g)
  {
    if |ts| == 1 then
      StrLeTotal(ts[0], ts[0]);
      ts[0]
    else
      var g := Greatest(ts[1..]);
      assert forall t :: t in ts ==> t == ts[0] || t in ts[1..];
      StrLeTotal(g, ts[0]);
      if StrLe(g, ts[0]) then
        forall t | t in ts[1..] ensures StrLe(t, ts[0]) {
          StrLeTrans(t, g, ts[0]);
        }
        StrLeTotal(ts[0], ts[0]);
        ts[0]
      else
        g
  }

  /** `tags = sorted(..., reverse=True)` then `tags[0]`: IndexError when no tag starts with 'v'. */
  function LatestTag(tags: seq<string>): (r: Result<string>)
    ensures r.Err? <==> forall t :: t in tags ==> !IsVTag(t)
    ensures r.Err? ==> r.error == "IndexError"
    ensures r.Ok? ==> r.value in tags && IsVTag(r.value) && forall t :: t in tags && IsVTag(t) ==> StrLe(t, r.value)
  {
    var vs := VersionTags(tags);
    if |vs| == 0 then Err("IndexError") else Ok(Greatest(vs))
  }

  /** String order, not version order, decides: "v2.9" is preferred to "v2.10". */
  lemma StringOrderDecides()
    ensures LatestTag(["v2.10", "v2.9"]) == Ok("v2.9")
  {
    var tags := ["v2.10", "v2.9"];
    assert StrLe("v2.10", "v2.9") by {
      assert "v2.10"[1..] == "2.10" && "v2.9"[1..] == "2.9";
      assert "2.10"[1..] == ".10" && "2.9"[1..] == ".9";
      assert ".10"[1..] == "10" && ".9"[1..] == "9";
    }
    assert !StrLe("v2.9", "v2.10") by {
      assert "v2.10"[1..] == "2.10" && "v2.9"[1..] == "2.9";
      assert "2.10"[1..] == ".10" && "2.9"[1..] == ".9";
      assert ".10"[1..] == "10" && ".9"[1..] == "9";
    }
    var r := LatestTag(tags);
    assert r.Ok? && r.value in tags;
  }

  // ---- version components ----

  /** `[int(v) for v in parts]`, or None when some conversion raises. */
  function ParseInts(parts: seq<string>): (r: Option<seq<int>>)
    ensures r.Some? ==> |r.value| == |parts| && forall i :: 0 <= i < |parts| ==> ParseInt(parts[i]) == Some(r.value[i])
    ensures r.None? <==> exists i :: 0 <= i < |parts| && ParseInt(parts[i]).None?
  {
    if |parts| == 0 then Some([])
    else
      var rest := ParseInts(parts[1..]);
      if ParseInt(parts[0]).None? then None
      else if rest.None? then
        var i :| 0 <= i < |parts[1..]| && ParseInt(parts[1..][i]).None?;
        assert ParseInt(parts[i + 1]).None?;
        None
      else
        assert forall i :: 0 < i < |parts| ==> parts[i] == parts[1..][i - 1];
        Some([ParseInt(parts[0]).value] + rest.value)
  }

  /** `[int(v) for v in version_cur.split('.')]`; a component `int` rejects raises ValueError. */
  function ParseVersion(cur: string): (r: Result<seq<int>>)
    ensures r.Ok? ==> |r.value| == |Split(cur, '.')| >= 1
    ensures r.Err? ==> r.error == "ValueError"
  {
    var v := ParseInts(Split(cur, '.'));
    if v.None? then Err("ValueError") else Ok(v.value)
  }

  function Zeros(n: nat): (z: seq<int>)
    ensures |z| == n && forall k :: 0 <= k < n ==> z[k] == 0
  {
    if n == 0 then [] else Zeros(n - 1) + [0]
  }

  /** The version padded with zeros to at least three components. */
  function Padded(v: seq<int>): (w: seq<int>)
    ensures |w| == Max(3, |v|) && w[..|v|] == v
    ensures forall k :: |v| <= k < |w| ==> w[k] == 0
  {
    if |v| < 3 then v + Zeros(3 - |v|) else v
  }

  /** `while len(version) < 3: version.append(0)`. */
  method Pad(version: seq<int>) returns (w: seq<int>)
    ensures w == Padded(version)
  {
    w := version;
    while |w| < 3
      invariant |version| <= |w| <= Max(3, |version|)
      invariant w == version + Zeros(|w| - |version|)
      decreases 3 - |w|
    {
      w := w + [0];
    }
  }

  /** The bumped components: component i plus one, the lower ones zero, the higher ones kept. */
  function Bumped(v: seq<int>, i: nat): (w: seq<int>)
    requires i < |v|
  {
    v[..i] + [v[i] + 1] + Zeros(|v| - i - 1)
  }

  /** The bump adds exactly one to the selected component, zeroes every lower one and keeps the rest. */
  lemma BumpedSpec(v: seq<int>, i: nat)
    requires i < |v|
    ensures |Bumped(v, i)| == |v|
    ensures Bumped(v, i)[i] == v[i] + 1
    ensures forall k :: 0 <= k < i ==> Bumped(v, i)[k] == v[k]
    ensures forall k :: i < k < |v| ==> Bumped(v, i)[k] == 0
  {
    var w := Bumped(v, i);
    var z := Zeros(|v| - i - 1);
    assert w == v[..i] + [v[i] + 1] + z;
    forall k | i < k < |v| ensures w[k] == 0 {
      assert w[k] == z[k - i - 1];
    }
  }

  /** Python's `<` on lists of ints of one length. */
  predicate ListLess(a: seq<int>, b: seq<int>)
    requires |a| == |b|
  {
    exists i :: 0 <= i < |a| && a[i] < b[i] && a[..i] == b[..i]
  }

  /** The bumped version is greater than the version it came from. */
  lemma BumpIncreases(v: seq<int>, i: nat)
    requires i < |v|
    ensures |Bumped(v, i)| == |v| && ListLess(v, Bumped(v, i))
  {
    BumpedSpec(v, i);
    assert Bumped(v, i)[..i] == v[..i];
  }

  /** `version[i_bump] += 1` then `for i in range(i_bump + 1, len(version)): version[i] = 0`. */
  method Bump(version: seq<int>, b: Bit) returns (w: seq<int>)
    requires |version| >= 3
    ensures w == Bumped(version, Index(b))
  {
    var i := Index(b);
    w := version;
    w := w[i := w[i] + 1];
    for k := i + 1 to |w|
      invariant |w| == |version|
      invariant w[..k] == version[..i] + [version[i] + 1] + Zeros(k - i - 1)
      invariant w[k..] == version[k..]
    {
      assert w[..k + 1] == w[..k] + [w[k]];
      w := w[k := 0];
      assert w[..k + 1] == version[..i] + [version[i] + 1] + Zeros(k - i - 1) + [0];
    }
    assert w == w[..|w|];
  }

  /** `[str(i) for i in version]`. */
  function Strs(v: seq<int>): (r: seq<string>)
    ensures |r| == |v| && forall k :: 0 <= k < |v| ==> r[k] == IntToStr(v[k])
  {
    if |v| == 0 then [] else [IntToStr(v[0])] + Strs(v[1..])
  }

  /** `'.'.join(...)` of the components. */
  function Dotted(v: seq<int>): string
  {
    Join(Strs(v), ".")
  }

  /** The tag a release pushes: `v` and the version. */
  function Tag(version: string): string
  {
    "v" + version
  }

  lemma IntToStrNoDot(n: int)
    ensures '.' !in IntToStr(n)
  {
    var d := Digits(if n < 0 then -n else n);
    assert forall k :: 0 <= k < |d| ==> IsDigit(d[k]);
  }

  lemma {:induction false} ParseStrs(v: seq<int>)
    ensures ParseInts(Strs(v)) == Some(v)
  {
    if |v| > 0 {
      ParseStrs(v[1..]);
      ParseIntToStr(v[0]);
      assert Strs(v)[1..] == Strs(v[1..]);
      assert [v[0]] + v[1..] == v;
    }
  }

  /** The dotted version parses back to its components. */
  lemma DottedRoundTrip(v: seq<int>)
    requires |v| >= 1
    ensures ParseVersion(Dotted(v)) == Ok(v)
  {
    forall k | 0 <= k < |v| ensures '.' !in Strs(v)[k] {
      IntToStrNoDot(v[k]);
    }
    SplitJoin(Strs(v), '.');
    ParseStrs(v);
  }

  // ---- the whole release ----

  /** The current version and the one the release moves to. */
  datatype Release = Release(current: string, version: string)

  /** What `main` computes from the GitHub tags before running the git commands. */
  function ReleaseOf(tags: seq<string>, b: Bit): Result<Release>
  {
    var tag := LatestTag(tags);
    if tag.Err? then Err(tag.error)
    else
      var cur := tag.value[1..];
      var v := ParseVersion(cur);
      if v.Err? then Err(v.error)
      else Ok(Release(cur, Dotted(Bumped(Padded(v.value), Index(b)))))
  }

  /** `main` up to the subcommands: latest tag, parse, pad, bump, join. */
  method NewRelease(tags: seq<string>, b: Bit) returns (r: Result<Release>)
    ensures r == ReleaseOf(tags, b)
  {
    var tag := LatestTag(tags);
    if tag.Err? {
      return Err(tag.error);
    }
    var cur := tag.value[1..];
    var parsed := ParseVersion(cur);
    if parsed.Err? {
      return Err(parsed.error);
    }
    var version := Pad(parsed.value);
    version := Bump(version, b);
    r := Ok(Release(cur, Dotted(version)));
  }

  /**
   * A release fails exactly when no tag starts with 'v' or a component is not an int; otherwise
   * the pushed tag `v` + version, read back by the next run, is the latest tag of its own list and
   * parses to the bumped components, which exceed the current ones.
   */
  lemma ReleaseSpec(tags: seq<string>, b: Bit)
    ensures ReleaseOf(tags, b).Err? <==>
      LatestTag(tags).Err? || ParseVersion(LatestTag(tags).value[1..]).Err?
    ensures ReleaseOf(tags, b).Ok? ==>
      var cur := Padded(ParseVersion(LatestTag(tags).value[1..]).value);
      var next := Bumped(cur, Index(b));
      var tag := Tag(ReleaseOf(tags, b).value.version);
      LatestTag([tag]) == Ok(tag) && ParseVersion(tag[1..]) == Ok(next) && ListLess(cur, next)
  {
    var r := ReleaseOf(tags, b);
    if r.Ok? {
      var cur := Padded(ParseVersion(LatestTag(tags).value[1..]).value);
      var next := Bumped(cur, Index(b));
      var tag := Tag(r.value.version);
      BumpIncreases(cur, Index(b));
      DottedRoundTrip(next);
      assert tag[1..] == Dotted(next);
      assert forall t :: t in [tag] ==> t == tag;
    }
  }
}
