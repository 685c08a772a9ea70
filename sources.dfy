/** A declared source and the names derived from it
    (internal/config/config.go: `sourceRE`, `ShortName`, `Name`,
    `DestPath`). */
module Sources {

  import opened Wrappers
  import opened Text
  import opened Paths
  import opened Urls
  import opened User

  datatype Source = Source(url: string, referenceName: string)

  /** `sourceRE.FindStringSubmatch` with `sourceRE = ^(.+)@([^@]+)$`. The
      second group holds no `@`, so the split is at the last `@`; the first
      group needs at least one byte and, since `.` does not match a newline,
      no newline. */
  function ParseSource(s: string): (r: Option<Source>)
    ensures r.Some? ==> s == r.value.url + "@" + r.value.referenceName &&
                        r.value.url != "" && r.value.referenceName != "" &&
                        '@' !in r.value.referenceName && '\n' !in r.value.url
  {
    match LastIndexOf(s, '@')
    case None => None
    case Some(k) =>
      if k == 0 || k == |s| - 1 || '\n' in s[..k] then None
      else Some(Source(s[..k], s[k + 1..]))
  }

  /** The regular expression matches exactly the strings `u@r` with a
      non-empty `u` free of newlines and a non-empty `r` free of `@`, and
      its groups are `u` and `r`. */
  lemma ParseSourceMatches(s: string, u: string, r: string)
    ensures ParseSource(s) == Some(Source(u, r)) <==>
            s == u + "@" + r && u != "" && r != "" && '@' !in r && '\n' !in u
  {
    if s == u + "@" + r && '@' !in r {
      var k := LastIndexOf(s, '@');
      assert s[|u|] == '@';
      assert k.Some?;
      assert k.value == |u|;
      assert s[..|u|] == u && s[|u| + 1..] == r;
    }
    if ParseSource(s) == Some(Source(u, r)) {
      var k := LastIndexOf(s, '@').value;
      assert s == s[..k] + "@" + s[k + 1..];
    }
  }

  /** The link name: the last element of the URL's path (or of the whole
      string when it does not parse) with one trailing `.git` removed. It
      is a single path element, or "/" for a path made of slashes. */
  function ShortName(s: Source): (r: string)
    ensures r == "/" || '/' !in r
  {
    var b := match UrlParse(s.url) case None => Base(s.url) case Some(u) => Base(u.path);
    assert EndsWith(b, ".git") ==> forall c :: c in b[..|b| - 4] ==> c in b;
    TrimSuffix(b, ".git")
  }

  /** The elements of the cache key that come from the URL. */
  function UrlElements(url: string): seq<string> {
    match UrlParse(url)
    case None => [TrimSuffix(Base(url), ".git")]
    case Some(u) => [u.host, TrimSuffix(u.path, ".git")]
  }

  /** The cache key: host, path without `.git`, and the reference, joined;
      the base name without `.git` and the reference when the URL does not
      parse. */
  function Name(s: Source): string {
    Join(UrlElements(s.url) + [s.referenceName])
  }

  /** Where the checkout of `s` is cached; never the empty path. */
  function DestPath(s: Source, env: Env): (r: string)
    ensures r != ""
  {
    assert Location(env) != "";
    assert FirstNonEmpty([Location(env), Name(s)]) == 0;
    Join([Location(env), Name(s)])
  }

  /** Everything of a cache path before the reference: the same for every
      pin of one URL, and empty or ending with a slash. */
  function CachePrefix(url: string, env: Env): (r: string)
    ensures r == "" || r[|r| - 1] == '/'
    ensures StartsWith(Location(env), "/") ==> r != "" && r[0] == '/'
  {
    var l := Location(env);
    var q := (if l == "" then "" else l + "/") + JoinPrefix(UrlElements(url));
    assert q != "" ==> q[|q| - 1] == '/';
    CleanBefore(q)
  }

  /** A reference that is a plain relative path (`main`, `v1.2.0`,
      `refs/heads/main`) is kept whole at the end of the cache key and of
      the cache path, after a prefix that depends on the URL and the
      environment only. Under an absolute cache directory the path ends
      with a slash and the reference; a single-element reference is the
      base name of both. */
  lemma CachePathEndsWithReference(s: Source, env: Env)
    requires IsPlainPath(s.referenceName)
    ensures Name(s) == JoinPrefix(UrlElements(s.url)) + s.referenceName
    ensures DestPath(s, env) == CachePrefix(s.url, env) + s.referenceName
    ensures StartsWith(Location(env), "/") ==> EndsWith(DestPath(s, env), "/" + s.referenceName)
    ensures IsPlainName(s.referenceName) ==>
      LastElement(Name(s)) == s.referenceName && Base(Name(s)) == s.referenceName &&
      Base(DestPath(s, env)) == s.referenceName
  {
    NameKeepsReference(s);
    DestPathKeepsReference(s, env);
    if StartsWith(Location(env), "/") {
      SlashThenReference(CachePrefix(s.url, env), s.referenceName);
    }
    if IsPlainName(s.referenceName) {
      NameEndsWithReference(s);
      JoinKeepsLast([Location(env), Name(s)]);
    }
  }

  lemma DestPathKeepsReference(s: Source, env: Env)
    requires IsPlainPath(s.referenceName)
    requires Name(s) == JoinPrefix(UrlElements(s.url)) + s.referenceName
    ensures DestPath(s, env) == CachePrefix(s.url, env) + s.referenceName
  {
    JoinPairPlainTail(Location(env), JoinPrefix(UrlElements(s.url)), s.referenceName);
  }

  lemma SlashThenReference(c: string, ref: string)
    requires c != "" && c[|c| - 1] == '/'
    ensures EndsWith(c + ref, "/" + ref)
  {
    var d := c + ref;
    assert d == c[..|c| - 1] + ("/" + ref);
    assert d[|d| - |"/" + ref|..] == "/" + ref;
  }

  lemma NameKeepsReference(s: Source)
    requires IsPlainPath(s.referenceName)
    ensures Name(s) == JoinPrefix(UrlElements(s.url)) + s.referenceName
  {
    JoinPlainTail(UrlElements(s.url), s.referenceName);
  }

  lemma NameEndsWithReference(s: Source)
    requires IsPlainName(s.referenceName)
    ensures LastElement(Name(s)) == s.referenceName && Base(Name(s)) == s.referenceName
  {
    BaseOfJoin(UrlElements(s.url), s.referenceName);
  }

  /** Two pins of the same URL at different references that are plain
      relative paths are cached apart: no deduplication across references.
      (`main` and `main/` clean to one path, so the references must be
      plain.) */
  lemma PinsCachedApart(a: Source, b: Source, env: Env)
    requires a.url == b.url && a.referenceName != b.referenceName
    requires IsPlainPath(a.referenceName) && IsPlainPath(b.referenceName)
    ensures DestPath(a, env) != DestPath(b, env)
  {
    NameKeepsReference(a);
    DestPathKeepsReference(a, env);
    NameKeepsReference(b);
    DestPathKeepsReference(b, env);
    DistinctTails(CachePrefix(a.url, env), a.referenceName, b.referenceName);
  }

  lemma DistinctTails(c: string, x: string, y: string)
    requires x != y
    ensures c + x != c + y
  {
    assert (c + x)[|c|..] == x && (c + y)[|c|..] == y;
  }

}
