/** Release version strings and their comparison
    (internal/update/version.go). */
module Versions {

  import opened Wrappers
  import opened Text

  /** A run of one or more decimal digits, as `\d+` matches it. */
  predicate IsNumber(d: string) { d != "" && AllDigits(d) }

  function LeadingDigits(s: string): (n: nat)
    ensures n <= |s| && AllDigits(s[..n])
    ensures n < |s| ==> !IsDigit(s[n])
    decreases |s|
  {
    if s != [] && IsDigit(s[0]) then
      var n := 1 + LeadingDigits(s[1..]);
      assert s[..n] == [s[0]] + s[1..][..n - 1];
      n
    else 0
  }

  /** A leading `\d+\.`: the number and what follows the dot. */
  function NumberThenDot(s: string): (r: Option<(string, string)>)
    ensures r.Some? ==> IsNumber(r.value.0) && s == r.value.0 + "." + r.value.1
  {
    var n := LeadingDigits(s);
    if n == 0 || n == |s| || s[n] != '.' then None
    else
      assert s == s[..n] + "." + s[n + 1..];
      Some((s[..n], s[n + 1..]))
  }

  /** `semVer.Split`: the development build counts as 999.0.0; otherwise
      the three groups of `^v(\d+)\.(\d+)\.(\d+)$`, or nothing. */
  function Split(v: string): (r: Option<seq<string>>)
    ensures v == "dev" ==> r == Some(["999", "0", "0"])
    ensures r.Some? ==> |r.value| == 3
    ensures r.Some? ==> IsNumber(r.value[0]) && IsNumber(r.value[1]) && IsNumber(r.value[2])
    ensures r.Some? && v != "dev" ==> v == "v" + r.value[0] + "." + r.value[1] + "." + r.value[2]
  {
    if v == "dev" then Some(["999", "0", "0"])
    else if v == [] || v[0] != 'v' then None
    else
      var first := NumberThenDot(v[1..]);
      if first.None? then None
      else
        var second := NumberThenDot(first.value.1);
        if second.None? || !IsNumber(second.value.1) then None
        else
          var major, minor, patch := first.value.0, second.value.0, second.value.1;
          VersionText(v, major, minor, patch, first.value.1);
          Some([major, minor, patch])
  }

  /** Reassembles the text `Split` took apart. */
  lemma VersionText(v: string, major: string, minor: string, patch: string, tail: string)
    requires v != [] && v[0] == 'v'
    requires v[1..] == major + "." + tail && tail == minor + "." + patch
    ensures v == "v" + major + "." + minor + "." + patch
  {
    calc {
      v;
      [v[0]] + v[1..];
      "v" + (major + "." + (minor + "." + patch));
      "v" + major + "." + minor + "." + patch;
    }
  }

  lemma LeadingDigitsOf(d: string, rest: string)
    requires AllDigits(d)
    requires rest == [] || !IsDigit(rest[0])
    ensures LeadingDigits(d + rest) == |d|
    decreases |d|
  {
    if d != [] {
      assert (d + rest)[1..] == d[1..] + rest;
      LeadingDigitsOf(d[1..], rest);
    } else {
      assert d + rest == rest;
    }
  }

  lemma NumberThenDotOf(d: string, rest: string)
    requires IsNumber(d)
    ensures NumberThenDot(d + "." + rest) == Some((d, rest))
  {
    var s := d + "." + rest;
    assert s == d + ("." + rest);
    LeadingDigitsOf(d, "." + rest);
    assert s[..|d|] == d && s[|d| + 1..] == rest;
  }

  /** `v` and three numbers joined by dots split into those numbers. */
  lemma SplitOf(a: string, b: string, c: string)
    requires IsNumber(a) && IsNumber(b) && IsNumber(c)
    ensures Split("v" + a + "." + b + "." + c) == Some([a, b, c])
  {
    var v := "v" + a + "." + b + "." + c;
    assert v != "dev" by { assert |v| >= 6; }
    assert v == "v" + (a + "." + (b + "." + c));
    assert v[0] == 'v';
    assert v[1..] == a + "." + (b + "." + c);
    NumberThenDotOf(a, b + "." + c);
    NumberThenDotOf(b, c);
  }

  /** Apart from "dev", a version splits exactly when it is `v` followed by
      three dot-separated numbers, and the parts are those numbers. */
  lemma SplitMatches(v: string, g: seq<string>)
    requires v != "dev"
    ensures Split(v) == Some(g) <==>
            |g| == 3 && IsNumber(g[0]) && IsNumber(g[1]) && IsNumber(g[2]) &&
            v == "v" + g[0] + "." + g[1] + "." + g[2]
  {
    if |g| == 3 && IsNumber(g[0]) && IsNumber(g[1]) && IsNumber(g[2]) &&
       v == "v" + g[0] + "." + g[1] + "." + g[2] {
      SplitOf(g[0], g[1], g[2]);
      assert [g[0], g[1], g[2]] == g;
    }
  }

  /** What one call of `IsNewerThan` can do: answer, or read past the end
      of the three-element slice and panic. */
  datatype Comparison = Answer(newer: bool) | IndexOutOfRange

  /** The comparison `IsNewerThan` performs, stated on the split parts: it
      looks at positions 1, 2 and then 3, compares parts as strings, and
      position 3 does not exist. */
  function CompareFrom(a: seq<string>, b: seq<string>, i: nat): Comparison
    requires |a| == 3 && |b| == 3 && 1 <= i <= 4
    decreases 4 - i
  {
    if i > 3 then Answer(false)
    else if i >= |a| || i >= |b| then IndexOutOfRange
    else if a[i] != b[i] then Answer(Less(b[i], a[i]))
    else CompareFrom(a, b, i + 1)
  }

  function Compare(a: Option<seq<string>>, b: Option<seq<string>>): Comparison
    requires a.Some? ==> |a.value| == 3
    requires b.Some? ==> |b.value| == 3
  {
    if a.None? || b.None? then Answer(false) else CompareFrom(a.value, b.value, 1)
  }

  /** `semVer.IsNewerThan`, as written: the loop runs `i` from 1 to 3
      inclusive over slices of length 3. */
  method IsNewerThan(v: string, other: string) returns (r: Comparison)
    ensures r == Compare(Split(v), Split(other))
    ensures (Split(v).None? || Split(other).None?) ==> r == Answer(false)
  {
    var a := Split(v);
    var b := Split(other);
    if a.None? || b.None? {
      return Answer(false);
    }
    var i := 1;
    while i <= 3
      invariant 1 <= i <= 4
      invariant CompareFrom(a.value, b.value, i) == CompareFrom(a.value, b.value, 1)
    {
      if i >= |a.value| || i >= |b.value| {
        return IndexOutOfRange;
      }
      if a.value[i] != b.value[i] {
        return Answer(Less(b.value[i], a.value[i]));
      }
      i := i + 1;
    }
    return Answer(false);
  }

  /** The comparison panics exactly when both versions parse and agree in
      their minor and patch parts; otherwise it answers by the first of
      those two parts that differs, compared as strings. */
  lemma CompareCases(a: seq<string>, b: seq<string>)
    requires |a| == 3 && |b| == 3
    ensures CompareFrom(a, b, 1) == IndexOutOfRange <==> a[1] == b[1] && a[2] == b[2]
    ensures a[1] != b[1] ==> CompareFrom(a, b, 1) == Answer(Less(b[1], a[1]))
    ensures a[1] == b[1] && a[2] != b[2] ==> CompareFrom(a, b, 1) == Answer(Less(b[2], a[2]))
  {
  }

  /** The major part never influences the outcome. */
  lemma MajorIgnored(a: seq<string>, b: seq<string>, x: string, y: string)
    requires |a| == 3 && |b| == 3
    ensures CompareFrom([x] + a[1..], [y] + b[1..], 1) == CompareFrom(a, b, 1)
  {
    assert ([x] + a[1..])[1] == a[1] && ([x] + a[1..])[2] == a[2];
    assert ([y] + b[1..])[1] == b[1] && ([y] + b[1..])[2] == b[2];
  }

  /** If `a` is newer than `b`, `b` is not newer than `a`. */
  lemma CompareAsymmetric(a: Option<seq<string>>, b: Option<seq<string>>)
    requires a.Some? ==> |a.value| == 3
    requires b.Some? ==> |b.value| == 3
    requires Compare(a, b) == Answer(true)
    ensures Compare(b, a) == Answer(false)
  {
    var x, y := a.value, b.value;
    if x[1] != y[1] {
      LessAsymmetric(y[1], x[1]);
    } else {
      LessAsymmetric(y[2], x[2]);
    }
  }

  /** Parts compare as strings: 0.10.0 does not count as newer than 0.9.0. */
  lemma TenBeforeNine()
    ensures Compare(Split("v0.10.0"), Split("v0.9.0")) == Answer(false)
  {
    assert "v0.10.0" == "v" + "0" + "." + "10" + "." + "0";
    assert "v0.9.0" == "v" + "0" + "." + "9" + "." + "0";
    SplitOf("0", "10", "0");
    SplitOf("0", "9", "0");
    assert !Less("9", "10") by { assert "9"[0] == '9' && "10"[0] == '1'; }
  }

  /** An up-to-date installation reads past the end of the parts. */
  lemma EqualVersionsPanic(v: string)
    requires Split(v).Some?
    ensures Compare(Split(v), Split(v)) == IndexOutOfRange
  {
  }

  /** The numeric value of each part. */
  function Numbers(g: seq<string>): (n: seq<nat>)
    requires |g| == 3 && IsNumber(g[0]) && IsNumber(g[1]) && IsNumber(g[2])
    ensures |n| == 3
  {
    [DecimalValue(g[0]), DecimalValue(g[1]), DecimalValue(g[2])]
  }

  /** Lexicographic "greater than" on the numeric parts. */
  predicate Greater(x: seq<nat>, y: seq<nat>)
    requires |x| == |y|
    decreases |x|
  {
    x != [] && (x[0] > y[0] || (x[0] == y[0] && Greater(x[1..], y[1..])))
  }

  /** The comparison the update check evidently intends: major, minor and
      patch in that order, each as a number; false when either side does
      not parse. */
  function IsNewerIntended(v: string, other: string): bool {
    var a := Split(v);
    var b := Split(other);
    a.Some? && b.Some? && Greater(Numbers(a.value), Numbers(b.value))
  }

  lemma {:induction false} GreaterIrreflexive(x: seq<nat>)
    ensures !Greater(x, x)
    decreases |x|
  {
    if x != [] { GreaterIrreflexive(x[1..]); }
  }

  lemma {:induction false} GreaterTransitive(x: seq<nat>, y: seq<nat>, z: seq<nat>)
    requires |x| == |y| == |z|
    requires Greater(x, y) && Greater(y, z)
    ensures Greater(x, z)
    decreases |x|
  {
    if x[0] == y[0] && y[0] == z[0] { GreaterTransitive(x[1..], y[1..], z[1..]); }
  }

  lemma {:induction false} GreaterTotal(x: seq<nat>, y: seq<nat>)
    requires |x| == |y| && x != y
    ensures Greater(x, y) != Greater(y, x)
    decreases |x|
  {
    if x[0] == y[0] {
      assert x == [x[0]] + x[1..] && y == [y[0]] + y[1..];
      GreaterTotal(x[1..], y[1..]);
    }
  }

  /** The intended comparison is a strict order on parsed versions, total
      on versions with different numbers, and never panics. */
  lemma IntendedIsStrictOrder(u: string, v: string, w: string)
    ensures !IsNewerIntended(u, u)
    ensures IsNewerIntended(u, v) ==> !IsNewerIntended(v, u)
    ensures IsNewerIntended(u, v) && IsNewerIntended(v, w) ==> IsNewerIntended(u, w)
    ensures Split(u).Some? && Split(v).Some? && Numbers(Split(u).value) != Numbers(Split(v).value) ==>
            IsNewerIntended(u, v) || IsNewerIntended(v, u)
  {
    if Split(u).Some? {
      GreaterIrreflexive(Numbers(Split(u).value));
      if Split(v).Some? {
        var x, y := Numbers(Split(u).value), Numbers(Split(v).value);
        if x != y { GreaterTotal(x, y); }
        if Greater(x, y) && Greater(y, x) { GreaterTotal(x, y); }
        if Split(w).Some? && IsNewerIntended(u, v) && IsNewerIntended(v, w) {
          GreaterTransitive(x, y, Numbers(Split(w).value));
        }
      }
    }
  }

  /** The intended comparison of two well-formed versions is the numeric
      comparison of their parts. */
  lemma IntendedOf(u: string, v: string, a: seq<string>, b: seq<string>)
    requires |a| == 3 && IsNumber(a[0]) && IsNumber(a[1]) && IsNumber(a[2])
    requires |b| == 3 && IsNumber(b[0]) && IsNumber(b[1]) && IsNumber(b[2])
    requires u == "v" + a[0] + "." + a[1] + "." + a[2] && v == "v" + b[0] + "." + b[1] + "." + b[2]
    ensures IsNewerIntended(u, v) == Greater(Numbers(a), Numbers(b))
  {
    assert u != "dev" && v != "dev" by { assert |u| >= 6 && |v| >= 6; }
    SplitMatches(u, a);
    SplitMatches(v, b);
    assert Split(u) == Some(a) && Split(v) == Some(b);
  }

  lemma TenNineNumbers()
    ensures Numbers(["0", "10", "0"]) == [0, 10, 0] && Numbers(["0", "9", "0"]) == [0, 9, 0]
  {
    assert DecimalValue("10") == 10 by { assert "10"[..1] == "1"; }
  }

  /** The intended comparison gets right the cases the written one gets
      wrong: 0.10.0 is newer than 0.9.0. */
  lemma IntendedTenAfterNine()
    ensures IsNewerIntended("v0.10.0", "v0.9.0")
  {
    IntendedOf("v0.10.0", "v0.9.0", ["0", "10", "0"], ["0", "9", "0"]);
    TenNineNumbers();
    assert Greater([0, 10, 0], [0, 9, 0]) by { assert [10, 0] == [0, 10, 0][1..]; }
  }

  /** A higher major version is newer, which the written comparison
      ignores. */
  lemma IntendedMajorCounts()
    ensures IsNewerIntended("v2.0.0", "v1.0.0")
  {
    IntendedOf("v2.0.0", "v1.0.0", ["2", "0", "0"], ["1", "0", "0"]);
  }
}
