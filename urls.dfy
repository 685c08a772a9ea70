/** The part of Go's `net/url.Parse` that decides the host and path of
    a source URL. */
module Urls {

  import opened Wrappers
  import opened Text

  datatype UrlParts = UrlParts(host: string, path: string)

  /** A control byte makes `url.Parse` fail. */
  predicate IsControl(c: char) { c < ' ' || c == '\U{007F}' }

  predicate IsLetter(c: char) { 'a' <= c <= 'z' || 'A' <= c <= 'Z' }

  /** Everything before the first `c`, or all of `s`. */
  function Before(s: string, c: char): (r: string)
    ensures |r| <= |s| && r == s[..|r|]
    ensures c !in r
    ensures |r| < |s| ==> s[|r|] == c
    decreases |s|
  {
    if s == [] || s[0] == c then [] else [s[0]] + Before(s[1..], c)
  }

  datatype SchemeSplit = NoScheme | Scheme(scheme: string, rest: string) | MissingScheme

  /** `getScheme`: letters, then digits, `+`, `-` or `.` after the first
      byte, up to a colon. A colon first is an error; any other byte, or
      a digit or sign first, means there is no scheme. */
  function GetScheme(s: string, i: nat): SchemeSplit
    requires i <= |s|
    decreases |s| - i
  {
    if i == |s| then NoScheme
    else if IsLetter(s[i]) then GetScheme(s, i + 1)
    else if IsDigit(s[i]) || s[i] == '+' || s[i] == '-' || s[i] == '.' then
      if i == 0 then NoScheme else GetScheme(s, i + 1)
    else if s[i] == ':' then
      if i == 0 then MissingScheme else Scheme(s[..i], s[i + 1..])
    else NoScheme
  }

  /** `url.Parse` reduced to the host and the path it yields; `None` when
      it returns an error. The fragment (after `#`) and the query (after
      `?`) are cut off, a `//authority` gives the host (after any
      `userinfo@`), an opaque `scheme:rest` URL has an empty path, and a
      scheme-less string whose first segment holds a colon is refused. */
  function UrlParse(raw: string): (r: Option<UrlParts>)
    ensures (exists i :: 0 <= i < |raw| && IsControl(raw[i])) ==> r.None?
  {
    if exists i :: 0 <= i < |raw| && IsControl(raw[i]) then None
    else
      var u := Before(raw, '#');
      match GetScheme(u, 0)
      case MissingScheme => None
      case NoScheme =>
        var rest := Before(u, '?');
        if !StartsWith(rest, "/") && ':' in Before(rest, '/') then None
        else if StartsWith(rest, "//") && !StartsWith(rest, "///") then Some(Authority(rest[2..]))
        else Some(UrlParts("", rest))
      case Scheme(_, afterScheme) =>
        var rest := Before(afterScheme, '?');
        if !StartsWith(rest, "/") then Some(UrlParts("", ""))
        else if StartsWith(rest, "//") then Some(Authority(rest[2..]))
        else Some(UrlParts("", rest))
  }

  /** `authority/path`: the host follows the last `@` of the authority. */
  function Authority(s: string): UrlParts {
    var authority := Before(s, '/');
    var path := s[|authority|..];
    match LastIndexOf(authority, '@')
    case None => UrlParts(authority, path)
    case Some(k) => UrlParts(authority[k + 1..], path)
  }
}
