/**
 * The origin registry: the ordered `TO_PROXY` table that maps a backend origin to the
 * segment under which the proxy exposes it, and the lookups the rewriter makes in it.
 */
module Registry {
  import opened Text

  /** One table entry: a backend origin and its target (a bare segment name, or a full URL). */
  datatype Mapping = Mapping(origin: string, target: string)

  /** `TO_PROXY`, in insertion order. */
  const ToProxy: seq<Mapping> := [
    Mapping("https://openid.cc98.org", "openid"),
    Mapping("https://api.cc98.org", "api"),
    Mapping("https://file.cc98.org", "file"),
    Mapping("https://gaming.cc98.org", "gaming"),
    Mapping("https://card.cc98.org", "card")
  ]

  /** The origin every path outside `/proxy/<segment>` is forwarded to; it is not in the table. */
  const DefaultOrigin := "https://www.cc98.org"

  /** `urlparse(origin).netloc` for an `http` or `https` origin without path, port or credentials. */
  function Netloc(origin: string): (host: string)
    ensures |host| <= |origin|
    ensures StartsWith(origin, "https://") ==> origin == "https://" + host
    ensures !StartsWith(origin, "https://") && StartsWith(origin, "http://") ==> origin == "http://" + host
  {
    if StartsWith(origin, "https://") then origin[8..]
    else if StartsWith(origin, "http://") then origin[7..]
    else origin
  }

  /** `/proxy/<target>`: the path prefix a segment is served under. */
  function SegmentPath(target: string): string {
    "/proxy/" + target
  }

  /**
   * What an origin reference is replaced with: `urljoin(base_url, …)` of the segment path,
   * i.e. the proxy's own origin followed by `/proxy/<target>`, or the target itself
   * when it is already an absolute `http…` URL.
   */
  function Replacement(proxyOrigin: string, target: string): (r: string)
    ensures !StartsWith(target, "http") ==> StartsWith(r, proxyOrigin) && r[|proxyOrigin|..] == SegmentPath(target)
  {
    if StartsWith(target, "http") then target else proxyOrigin + SegmentPath(target)
  }

  /**
   * The `/proxy/<segment>` prefix of the request path: that of the first entry whose
   * segment path is a string prefix of `path`, or `""` when there is none.
   */
  function PathPrefix(table: seq<Mapping>, path: string): string {
    if table == [] then ""
    else if StartsWith(path, SegmentPath(table[0].target)) then SegmentPath(table[0].target)
    else PathPrefix(table[1..], path)
  }

  /** The prefix search as the source runs it: a loop over the table that breaks at the first hit. */
  method FindPrefix(table: seq<Mapping>, path: string) returns (prefix: string)
    ensures prefix == PathPrefix(table, path)
  {
    prefix := "";
    var i := 0;
    while i < |table|
      invariant 0 <= i <= |table|
      invariant PathPrefix(table[i..], path) == PathPrefix(table, path)
    {
      assert table[i..][1..] == table[i + 1..];
      if StartsWith(path, SegmentPath(table[i].target)) {
        prefix := SegmentPath(table[i].target);
        break;
      }
      i := i + 1;
    }
  }

  /** `PathPrefix` picks the first matching entry, and is empty exactly when no entry matches. */
  lemma {:induction false} PathPrefixFirstMatch(table: seq<Mapping>, path: string)
    ensures PathPrefix(table, path) == "" <==>
              forall k :: 0 <= k < |table| ==> !StartsWith(path, SegmentPath(table[k].target))
    ensures forall k :: 0 <= k < |table| && StartsWith(path, SegmentPath(table[k].target)) &&
                        (forall j :: 0 <= j < k ==> !StartsWith(path, SegmentPath(table[j].target)))
                        ==> PathPrefix(table, path) == SegmentPath(table[k].target)
  {
    if table != [] {
      PathPrefixFirstMatch(table[1..], path);
      forall k | 1 <= k < |table|
        ensures table[k] == table[1..][k - 1]
      {
      }
    }
  }

  /** The prefix is either empty or a segment path, so it always starts with `/proxy`. */
  lemma {:induction false} PathPrefixShape(table: seq<Mapping>, path: string)
    ensures var p := PathPrefix(table, path);
            p == "" || (StartsWith(p, "/proxy") && StartsWith(path, p) &&
                        exists k :: 0 <= k < |table| && p == SegmentPath(table[k].target))
  {
    if table != [] && !StartsWith(path, SegmentPath(table[0].target)) {
      PathPrefixShape(table[1..], path);
      var p := PathPrefix(table, path);
      if p != "" {
        var k :| 0 <= k < |table[1..]| && p == SegmentPath(table[1..][k].target);
        assert table[1..][k] == table[k + 1];
      }
    } else if table != [] {
      var p := SegmentPath(table[0].target);
      assert p[..6] == "/proxy";
    }
  }
}
