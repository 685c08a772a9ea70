/** The parts of Go's `path` and `path/filepath` packages the core uses,
    with the Unix separator: `strings.Split` on "/", `Clean`, `Join` and
    `Base`. `Clean` is written as a stack over the path's elements, which
    gives the same result as the library's byte loop. */
module Paths {

  import opened Text
  import opened Wrappers

  /** A single path element that `Clean` keeps as it is. */
  predicate IsPlainName(s: string) {
    s != "" && s != "." && s != ".." && '/' !in s
  }

  /** `strings.Split(s, "/")`: the pieces between slashes, at least one. */
  function SplitPath(s: string): (r: seq<string>)
    ensures |r| >= 1
    ensures forall k :: 0 <= k < |r| ==> '/' !in r[k]
    decreases |s|
  {
    if s == [] then [""]
    else
      var rest := SplitPath(s[1..]);
      if s[0] == '/' then [""] + rest else [[s[0]] + rest[0]] + rest[1..]
  }

  /** `strings.Join(parts, "/")`. */
  function JoinSlash(parts: seq<string>): string
    decreases |parts|
  {
    if parts == [] then ""
    else if |parts| == 1 then parts[0]
    else JoinSlash(parts[..|parts| - 1]) + "/" + parts[|parts| - 1]
  }

  /** One element of `Clean`'s left-to-right pass: empty and "." elements
      vanish, ".." removes the last real element (or is kept at the front
      of a relative path, or dropped at the root), anything else is kept. */
  function Push(stack: seq<string>, element: string, rooted: bool): seq<string> {
    if element == "" || element == "." then stack
    else if element == ".." then
      if |stack| > 0 && stack[|stack| - 1] != ".." then stack[..|stack| - 1]
      else if rooted then stack
      else stack + [".."]
    else stack + [element]
  }

  function Resolve(elements: seq<string>, rooted: bool): seq<string>
    decreases |elements|
  {
    if elements == [] then []
    else Push(Resolve(elements[..|elements| - 1], rooted), elements[|elements| - 1], rooted)
  }

  /** How `Clean` lays out a resolved element stack. */
  function Render(stack: seq<string>, rooted: bool): (r: string)
    ensures r != ""
  {
    var body := JoinSlash(stack);
    if rooted then "/" + body else if body == "" then "." else body
  }

  /** `filepath.Clean` (Unix). */
  function Clean(p: string): (r: string)
    ensures r != ""
  {
    if p == "" then "."
    else
      var rooted := p[0] == '/';
      Render(Resolve(SplitPath(p), rooted), rooted)
  }

  function FirstNonEmpty(elements: seq<string>): (r: nat)
    ensures r <= |elements|
    ensures forall k :: 0 <= k < r ==> elements[k] == ""
    ensures r < |elements| ==> elements[r] != ""
    decreases |elements|
  {
    if elements == [] || elements[0] != "" then 0 else 1 + FirstNonEmpty(elements[1..])
  }

  /** `filepath.Join` (Unix): the elements from the first non-empty one on,
      joined with "/" and cleaned; "" if every element is empty. */
  function Join(elements: seq<string>): string {
    var i := FirstNonEmpty(elements);
    if i == |elements| then "" else Clean(JoinSlash(elements[i..]))
  }

  function StripTrailingSlashes(p: string): (r: string)
    ensures |r| <= |p| && r == p[..|r|]
    ensures r != [] ==> r[|r| - 1] != '/'
    decreases |p|
  {
    if p != [] && p[|p| - 1] == '/' then StripTrailingSlashes(p[..|p| - 1]) else p
  }

  /** `path.Base`: the last element of `p`; "." for "" and "/" for a path
      made of slashes only. */
  function Base(p: string): (r: string)
    ensures r != ""
    ensures r == "/" || '/' !in r
  {
    if p == "" then "."
    else
      var q := StripTrailingSlashes(p);
      if q == "" then "/"
      else
        match LastIndexOf(q, '/')
        case None => q
        case Some(i) => if q[i + 1..] == "" then "/" else q[i + 1..]
  }

  lemma {:induction false} SplitPlain(w: string)
    requires '/' !in w
    ensures SplitPath(w) == [w]
    decreases |w|
  {
    if w != [] {
      assert '/' !in w[1..] by { assert forall c :: c in w[1..] ==> c in w; }
      SplitPlain(w[1..]);
      assert [w[0]] + w[1..] == w;
    }
  }

  /** Splitting at a slash splits the two sides independently. */
  lemma {:induction false} SplitConcat(a: string, b: string)
    ensures SplitPath(a + "/" + b) == SplitPath(a) + SplitPath(b)
    decreases |a|
  {
    if a == [] {
      assert a + "/" + b == "/" + b;
      assert ("/" + b)[1..] == b;
    } else {
      assert (a + "/" + b)[1..] == a[1..] + "/" + b;
      SplitConcat(a[1..], b);
    }
  }

  lemma BaseOfLeaf(z: string, leaf: string)
    requires z == "" || z[|z| - 1] == '/'
    requires IsPlainName(leaf)
    ensures Base(z + leaf) == leaf
  {
    var p := z + leaf;
    assert p[|p| - 1] == leaf[|leaf| - 1];
    assert StripTrailingSlashes(p) == p;
    assert p[|z|..] == leaf;
    if z == "" {
      assert p == leaf;
    } else {
      var i := LastIndexOf(p, '/');
      assert p[|z| - 1] == '/';
      assert i.Some?;
      assert i.value == |z| - 1;
    }
  }

  /** The last element of `p`, as `strings.Split` gives it. */
  function LastElement(p: string): string {
    var parts := SplitPath(p); parts[|parts| - 1]
  }

  lemma LastOfSlashLeaf(z: string, leaf: string)
    requires z == "" || z[|z| - 1] == '/'
    requires IsPlainName(leaf)
    ensures LastElement(z + leaf) == leaf
  {
    SplitPlain(leaf);
    if z == "" {
      assert z + leaf == leaf;
    } else {
      var z' := z[..|z| - 1];
      assert z + leaf == z' + "/" + leaf;
      SplitConcat(z', leaf);
      assert SplitPath(z + leaf) == SplitPath(z') + [leaf];
    }
  }

  lemma RenderPushLeaf(stack: seq<string>, leaf: string, rooted: bool)
    requires IsPlainName(leaf)
    ensures LastElement(Render(stack + [leaf], rooted)) == leaf
    ensures Base(Render(stack + [leaf], rooted)) == leaf
  {
    var z := (if rooted then "/" else "") + (if stack == [] then "" else JoinSlash(stack) + "/");
    if stack != [] {
      assert (stack + [leaf])[..|stack + [leaf]| - 1] == stack;
    }
    assert Render(stack + [leaf], rooted) == z + leaf;
    LastOfSlashLeaf(z, leaf);
    BaseOfLeaf(z, leaf);
  }

  /** `Clean` keeps a plain last element in place, as the last element and
      as the base name of its result. */
  lemma CleanKeepsLast(x: string)
    requires IsPlainName(LastElement(x))
    ensures LastElement(Clean(x)) == LastElement(x)
    ensures Base(Clean(x)) == LastElement(x)
  {
    var elems := SplitPath(x);
    var w := elems[|elems| - 1];
    assert x != "";
    var rooted := x[0] == '/';
    var st := Resolve(elems[..|elems| - 1], rooted);
    assert Resolve(elems, rooted) == st + [w];
    RenderPushLeaf(st, w, rooted);
  }

  /** `Join` keeps the plain last element of its last argument as the last
      element and the base name of the joined path. */
  lemma JoinKeepsLast(elements: seq<string>)
    requires elements != [] && IsPlainName(LastElement(elements[|elements| - 1]))
    ensures LastElement(Join(elements)) == LastElement(elements[|elements| - 1])
    ensures Base(Join(elements)) == LastElement(elements[|elements| - 1])
  {
    var n := |elements|;
    var e := elements[n - 1];
    assert e != "";
    var i := FirstNonEmpty(elements);
    assert i < n;
    if i == n - 1 {
      assert elements[i..] == [e];
      CleanKeepsLast(e);
    } else {
      var front := elements[i..n - 1];
      assert elements[i..] == front + [e];
      assert elements[i..][..|elements[i..]| - 1] == front;
      var x := JoinSlash(front) + "/" + e;
      assert JoinSlash(elements[i..]) == x;
      SplitConcat(JoinSlash(front), e);
      assert LastElement(x) == LastElement(e);
      CleanKeepsLast(x);
    }
  }

  /** Joining a plain name as the last element makes it the base name of
      the result, whatever comes before it. */
  lemma BaseOfJoin(elements: seq<string>, leaf: string)
    requires IsPlainName(leaf)
    ensures Base(Join(elements + [leaf])) == leaf
    ensures LastElement(Join(elements + [leaf])) == leaf
  {
    SplitPlain(leaf);
    JoinKeepsLast(elements + [leaf]);
  }

  /** A relative path every element of which `Clean` keeps as it is:
      `main` and `refs/heads/main`, but not `main/`, `./main` or `/main`. */
  predicate IsPlainPath(p: string) {
    forall k :: 0 <= k < |SplitPath(p)| ==> IsPlainName(SplitPath(p)[k])
  }

  lemma PlainPathShape(t: string)
    requires IsPlainPath(t)
    ensures t != "" && t[0] != '/'
  {
    assert IsPlainName(SplitPath(t)[0]);
  }

  lemma {:induction false} JoinSlashAppend(a: seq<string>, b: seq<string>)
    requires a != [] && b != []
    ensures JoinSlash(a + b) == JoinSlash(a) + "/" + JoinSlash(b)
    decreases |b|
  {
    var ab := a + b;
    var last := b[|b| - 1];
    assert ab[|ab| - 1] == last;
    if |b| == 1 {
      assert ab[..|ab| - 1] == a;
      assert JoinSlash(ab) == JoinSlash(a) + "/" + last;
    } else {
      var front := b[..|b| - 1];
      assert ab[..|ab| - 1] == a + front;
      assert JoinSlash(ab) == JoinSlash(a + front) + "/" + last;
      assert JoinSlash(b) == JoinSlash(front) + "/" + last;
      JoinSlashAppend(a, front);
    }
  }

  /** `strings.Join` with "/" undoes `strings.Split` with "/". */
  lemma {:induction false} JoinSplit(p: string)
    ensures JoinSlash(SplitPath(p)) == p
    decreases |p|
  {
    if p != [] {
      var rest := SplitPath(p[1..]);
      JoinSplit(p[1..]);
      if p[0] == '/' {
        assert SplitPath(p) == [""] + rest;
        JoinSlashAppend([""], rest);
        assert p == "" + "/" + p[1..];
      } else {
        assert SplitPath(p) == [[p[0]] + rest[0]] + rest[1..];
        JoinSlashPrepend(p[0], rest);
        assert [p[0]] + p[1..] == p;
      }
    }
  }

  /** Putting a character before the first part puts it before the
      joined text. */
  lemma JoinSlashPrepend(c: char, parts: seq<string>)
    requires parts != []
    ensures JoinSlash([[c] + parts[0]] + parts[1..]) == [c] + JoinSlash(parts)
  {
    var tail := parts[1..];
    if tail == [] {
      assert [[c] + parts[0]] + tail == [[c] + parts[0]];
      assert parts == [parts[0]];
    } else {
      assert [parts[0]] + tail == parts;
      JoinSlashAppend([parts[0]], tail);
      JoinSlashAppend([[c] + parts[0]], tail);
    }
  }

  /** `Clean`'s pass leaves plain elements where they are, after whatever
      the elements before them resolved to. */
  lemma {:induction false} ResolvePlainTail(a: seq<string>, t: seq<string>, rooted: bool)
    requires forall k :: 0 <= k < |t| ==> IsPlainName(t[k])
    ensures Resolve(a + t, rooted) == Resolve(a, rooted) + t
    decreases |t|
  {
    if t == [] {
      assert a + t == a;
    } else {
      var front := t[..|t| - 1];
      assert (a + t)[..|a + t| - 1] == a + front;
      ResolvePlainTail(a, front, rooted);
      assert front + [t[|t| - 1]] == t;
    }
  }

  /** What `Render` writes before the elements that follow `stack`. */
  function StackPrefix(stack: seq<string>, rooted: bool): (r: string)
    ensures r == "" || r[|r| - 1] == '/'
    ensures rooted ==> r != "" && r[0] == '/'
  {
    (if rooted then "/" else "") + (if stack == [] then "" else JoinSlash(stack) + "/")
  }

  lemma RenderPlainTail(stack: seq<string>, t: seq<string>, rooted: bool)
    requires t != [] && t[|t| - 1] != ""
    ensures Render(stack + t, rooted) == StackPrefix(stack, rooted) + JoinSlash(t)
  {
    JoinSlashEndsWithLast(t);
    if stack == [] {
      assert stack + t == t;
      RenderOfNonEmpty(t, rooted);
    } else {
      JoinSlashAppend(stack, t);
      RenderOfNonEmpty(stack + t, rooted);
    }
  }

  lemma RenderOfNonEmpty(stack: seq<string>, rooted: bool)
    requires JoinSlash(stack) != ""
    ensures Render(stack, rooted) == (if rooted then "/" else "") + JoinSlash(stack)
  {
  }

  lemma JoinSlashEndsWithLast(t: seq<string>)
    requires t != [] && t[|t| - 1] != ""
    ensures JoinSlash(t) != ""
  {
    if |t| > 1 {
      assert JoinSlash(t) == JoinSlash(t[..|t| - 1]) + "/" + t[|t| - 1];
    }
  }

  /** What `Clean` writes before a plain path that follows `p` and a slash. */
  function CleanPrefix(p: string): (r: string)
    ensures r == "" || r[|r| - 1] == '/'
    ensures p == "" || p[0] == '/' ==> r != "" && r[0] == '/'
  {
    var rooted := p == "" || p[0] == '/';
    StackPrefix(Resolve(SplitPath(p), rooted), rooted)
  }

  /** `Clean` keeps a plain path after a slash as it is. */
  lemma CleanPlainTail(p: string, t: string)
    requires IsPlainPath(t)
    ensures Clean(p + "/" + t) == CleanPrefix(p) + t
  {
    var x := p + "/" + t;
    var rooted := p == "" || p[0] == '/';
    assert x[0] == (if p == "" then '/' else p[0]);
    SplitConcat(p, t);
    var ts := SplitPath(t);
    ResolvePlainTail(SplitPath(p), ts, rooted);
    RenderPlainTail(Resolve(SplitPath(p), rooted), ts, rooted);
    JoinSplit(t);
  }

  /** A plain path is clean. */
  lemma CleanPlain(t: string)
    requires IsPlainPath(t)
    ensures Clean(t) == t
  {
    PlainPathShape(t);
    var ts := SplitPath(t);
    ResolvePlainTail([], ts, false);
    assert [] + ts == ts;
    RenderPlainTail([], ts, false);
    JoinSplit(t);
  }

  /** What `Clean` writes before a plain path that follows `q`, where `q`
      is empty or ends with a slash. */
  function CleanBefore(q: string): (r: string)
    requires q == "" || q[|q| - 1] == '/'
    ensures r == "" || r[|r| - 1] == '/'
    ensures q != "" && q[0] == '/' ==> r != "" && r[0] == '/'
  {
    if q == "" then "" else CleanPrefix(q[..|q| - 1])
  }

  lemma CleanAfter(q: string, t: string)
    requires q == "" || q[|q| - 1] == '/'
    requires IsPlainPath(t)
    ensures Clean(q + t) == CleanBefore(q) + t
  {
    if q == "" {
      assert q + t == t;
      CleanPlain(t);
    } else {
      assert q + t == q[..|q| - 1] + "/" + t;
      CleanPlainTail(q[..|q| - 1], t);
    }
  }

  lemma {:induction false} FirstNonEmptySnoc(elements: seq<string>, t: string)
    requires t != ""
    ensures FirstNonEmpty(elements + [t]) == FirstNonEmpty(elements)
    decreases |elements|
  {
    if elements != [] && elements[0] == "" {
      assert (elements + [t])[1..] == elements[1..] + [t];
      FirstNonEmptySnoc(elements[1..], t);
    }
  }

  /** What `Join` writes before a plain path given as its last element. */
  function JoinPrefix(elements: seq<string>): (r: string)
    ensures r == "" || r[|r| - 1] == '/'
  {
    var i := FirstNonEmpty(elements);
    if i == |elements| then "" else CleanPrefix(JoinSlash(elements[i..]))
  }

  /** `Join` keeps a plain path given as its last element, whole, at the
      end of the joined path. */
  lemma JoinPlainTail(elements: seq<string>, t: string)
    requires IsPlainPath(t)
    ensures Join(elements + [t]) == JoinPrefix(elements) + t
  {
    PlainPathShape(t);
    var e := elements + [t];
    var i := FirstNonEmpty(elements);
    FirstNonEmptySnoc(elements, t);
    if i == |elements| {
      assert e[i..] == [t];
      CleanPlain(t);
    } else {
      assert e[i..] == elements[i..] + [t];
      JoinSlashAppend(elements[i..], [t]);
      CleanPlainTail(JoinSlash(elements[i..]), t);
    }
  }

  /** Joining `a` with a path that ends in a plain path `t` after `q`
      keeps `t` whole at the end. */
  lemma JoinPairPlainTail(a: string, q: string, t: string)
    requires q == "" || q[|q| - 1] == '/'
    requires IsPlainPath(t)
    ensures var q' := (if a == "" then "" else a + "/") + q;
      (q' == "" || q'[|q'| - 1] == '/') && Join([a, q + t]) == CleanBefore(q') + t
  {
    PlainPathShape(t);
    var q' := (if a == "" then "" else a + "/") + q;
    if a == "" {
      assert FirstNonEmpty([a, q + t]) == 1 by {
        assert [a, q + t][1..] == [q + t];
      }
      assert [a, q + t][1..] == [q + t];
      assert q' + t == q + t;
    } else {
      assert [a, q + t][..1] == [a];
      assert JoinSlash([a, q + t]) == q' + t;
    }
    CleanAfter(q', t);
  }

  /** Two plain names joined make a plain path, which `Join` keeps. */
  lemma JoinTwoPlain(d: string, name: string)
    requires IsPlainName(d) && IsPlainName(name)
    ensures IsPlainPath(d + "/" + name)
    ensures Join([d, name]) == d + "/" + name
  {
    SplitPlain(d);
    SplitPlain(name);
    SplitConcat(d, name);
    assert SplitPath(d + "/" + name) == [d, name];
    assert [d, name][..1] == [d];
    assert JoinSlash([d, name]) == d + "/" + name;
    CleanPlain(d + "/" + name);
  }

  /** Under any directory, the entry `name` of the plain directory `d` is
      `d` joined there, a slash, and `name`. */
  lemma JoinUnder(dir: string, d: string, name: string)
    requires IsPlainName(d) && IsPlainName(name)
    ensures Join([dir, d + "/" + name]) == Join([dir, d]) + "/" + name
  {
    var pre := JoinPrefix([dir]);
    var rel := d + "/" + name;
    JoinTwoPlain(d, name);
    PlainNameIsPlainPath(d);
    JoinPairPlain(dir, d);
    JoinPairPlain(dir, rel);
    assert pre + rel == (pre + d) + "/" + name;
  }

  lemma PlainNameIsPlainPath(d: string)
    requires IsPlainName(d)
    ensures IsPlainPath(d)
  {
    SplitPlain(d);
  }

  lemma JoinPairPlain(dir: string, t: string)
    requires IsPlainPath(t)
    ensures Join([dir, t]) == JoinPrefix([dir]) + t
  {
    JoinPlainTail([dir], t);
    assert [dir] + [t] == [dir, t];
  }

  /** Joining three elements is joining the first with the other two's
      join, for plain second and third elements. */
  lemma JoinThree(dir: string, d: string, name: string)
    requires IsPlainName(d) && IsPlainName(name)
    ensures Join([dir, d, name]) == if dir == "" then d + "/" + name else Join([dir, d + "/" + name])
  {
    JoinTwoPlain(d, name);
    var rel := d + "/" + name;
    if dir == "" {
      assert FirstNonEmpty([dir, d, name]) == 1;
      assert [dir, d, name][1..] == [d, name];
    } else {
      assert [dir, d, name][..2] == [dir, d];
      assert [dir, d][..1] == [dir];
      assert JoinSlash([dir, d]) == dir + "/" + d;
      assert JoinSlash([dir, d, name]) == JoinSlash([dir, d]) + "/" + name;
      assert dir + "/" + d + "/" + name == dir + "/" + rel;
      assert [dir, rel][..1] == [dir];
      assert JoinSlash([dir, rel]) == dir + "/" + rel;
      assert [dir, d, name][0..] == [dir, d, name];
      assert [dir, rel][0..] == [dir, rel];
    }
  }

  /** Joining under an absolute directory gives an absolute path. */
  lemma JoinUnderRoot(dir: string, t: string)
    requires dir != "" && dir[0] == '/'
    ensures Join([dir, t]) != "" && Join([dir, t])[0] == '/'
  {
    assert [dir, t][0..] == [dir, t];
    assert [dir, t][..1] == [dir];
    assert JoinSlash([dir, t]) == dir + "/" + t;
  }
}
