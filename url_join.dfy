/**
 * `urljoin(origin, path)` as the handler calls it: a backend origin (scheme and host, no
 * path) joined with the path captured by the route. A captured path that carries a scheme
 * other than the origin's, or an authority `//host`, names a target of its own, and
 * `urljoin` then leaves the origin behind.
 */
module UrlJoin {
  import opened Text

  predicate AsciiLetter(c: char) {
    'a' <= c <= 'z' || 'A' <= c <= 'Z'
  }

  /** The characters `urlsplit` accepts in a scheme. */
  predicate SchemeChar(c: char) {
    AsciiLetter(c) || '0' <= c <= '9' || c == '+' || c == '-' || c == '.'
  }

  /** `urlsplit` reads the text before the first `:` as a scheme when it starts with a letter and holds only scheme characters. */
  predicate HasScheme(u: string) {
    var i := IndexOf(u, ':');
    0 < i < |u| && AsciiLetter(u[0]) && forall k :: 0 <= k < i ==> SchemeChar(u[k])
  }

  function LowerChar(c: char): char {
    if 'A' <= c <= 'Z' then (c as int + 32) as char else c
  }

  /** `str.lower()` on ASCII text. */
  function Lower(s: string): (r: string)
    ensures |r| == |s|
    ensures forall k :: 0 <= k < |s| ==> r[k] == LowerChar(s[k])
  {
    if s == [] then [] else [LowerChar(s[0])] + Lower(s[1..])
  }

  /** The scheme `urlsplit` reports (lower-cased), or `""` when there is none. */
  function Scheme(u: string): string {
    if HasScheme(u) then Lower(u[..IndexOf(u, ':')]) else ""
  }

  /** What follows the scheme and its `:`, or the whole text when there is no scheme. */
  function AfterScheme(u: string): string {
    if HasScheme(u) then u[IndexOf(u, ':') + 1..] else u
  }

  /** `//` and a non-empty authority, which ends at `/`, `?`, `#` or the end of the text. */
  predicate HasNetloc(rest: string) {
    |rest| > 2 && rest[..2] == "//" && rest[2] != '/' && rest[2] != '?' && rest[2] != '#'
  }

  /** `path` names a target of its own: a scheme other than the origin's, or an authority. */
  predicate NamesOwnTarget(origin: string, path: string) {
    (HasScheme(path) && Scheme(path) != Scheme(origin)) || HasNetloc(AfterScheme(path))
  }

  /**
   * A path put under the origin: the origin itself for an empty path, otherwise the origin
   * followed by the path, with a `/` in between when the path has none.
   */
  function ContainedUrl(origin: string, path: string): (url: string)
    ensures url == origin || StartsWith(url, origin + "/")
    ensures path != "" ==> url[|origin|..] == (if StartsWith(path, "/") then path else "/" + path)
  {
    if path == "" then origin
    else if StartsWith(path, "/") then origin + path
    else origin + "/" + path
  }

  /**
   * `urljoin(origin, path)` for an origin without a path. A path with another scheme is
   * returned as it is; a path with an authority (after the origin's scheme, or with none)
   * keeps that authority under the origin's scheme; anything else is put under the origin.
   */
  function ForwardUrl(origin: string, path: string): (url: string)
    ensures !NamesOwnTarget(origin, path) ==> url == origin || StartsWith(url, origin + "/")
    ensures HasScheme(path) && Scheme(path) != Scheme(origin) ==> url == path
    ensures !HasScheme(path) && HasNetloc(path) ==> url == Scheme(origin) + ":" + path
  {
    if path == "" then origin
    else if HasScheme(path) && Scheme(path) != Scheme(origin) then path
    else
      var rest := AfterScheme(path);
      if HasNetloc(rest) then Scheme(origin) + ":" + rest
      else ContainedUrl(origin, if StartsWith(rest, "//") then rest[2..] else rest)
  }

  // ---- Lemmas -------------------------------------------------------------------------

  /** A path without scheme or leading `//` is put under the origin exactly as `ContainedUrl` puts it. */
  lemma ContainedUrlAgrees(origin: string, path: string)
    requires !HasScheme(path) && !StartsWith(path, "//")
    ensures ForwardUrl(origin, path) == ContainedUrl(origin, path)
  {
  }

  /** The scheme of `https://…` is `https`. */
  lemma SchemeOfHttps(rest: string)
    ensures HasScheme("https://" + rest)
    ensures Scheme("https://" + rest) == "https"
    ensures AfterScheme("https://" + rest) == "//" + rest
  {
    var u := "https://" + rest;
    assert u == "https" + ("://" + rest);
    IndexOfAfter("https", "://" + rest, ':');
    assert u[..5] == "https";
    assert Lower("https") == "https" by {
      forall k | 0 <= k < 5 ensures Lower("https")[k] == "https"[k] { }
    }
  }

  /** A network-path reference `//host…` leaves the origin for `host`, under the origin's scheme. */
  lemma NetworkPathLeavesOrigin(origin: string, host: string, rest: string)
    requires host != [] && host[0] != '/' && host[0] != '?' && host[0] != '#'
    ensures ForwardUrl(origin, "//" + host + rest) == Scheme(origin) + "://" + host + rest
  {
    var p := "//" + host + rest;
    assert !HasScheme(p) by { assert !AsciiLetter(p[0]); }
    assert p[..2] == "//" && p[2] == host[0];
  }

  /** An absolute `https://host…` path is forwarded to `host` when the origin is itself `https`. */
  lemma AbsolutePathLeavesOrigin(origin: string, host: string, rest: string)
    requires Scheme(origin) == "https"
    requires host != [] && host[0] != '/' && host[0] != '?' && host[0] != '#'
    ensures ForwardUrl(origin, "https://" + host + rest) == "https://" + host + rest
  {
    SchemeOfHttps(host + rest);
    var p := "https://" + host + rest;
    assert p == "https://" + (host + rest);
    assert ("//" + (host + rest))[2] == host[0];
  }

  /** Under an `https` origin, `//host…` becomes `https://host…`. */
  lemma NetworkPathLeavesHttps(origin: string, host: string, rest: string)
    requires Scheme(origin) == "https"
    requires host != [] && host[0] != '/' && host[0] != '?' && host[0] != '#'
    ensures ForwardUrl(origin, "//" + host + rest) == "https://" + host + rest
  {
    NetworkPathLeavesOrigin(origin, host, rest);
  }
}
