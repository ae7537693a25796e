/**
 * Origin substitution: for each registry entry in order, every `https?://<netloc>` in the
 * text becomes the entry's replacement. The netloc is spliced into the pattern unescaped,
 * so each `.` in it is a regex wildcard, and nothing anchors the end of the host.
 */
module OriginRewrite {
  import opened Text
  import opened Registry

  /** One character of the host pattern: `.` matches any character but a newline. */
  predicate HostCharMatches(p: char, c: char) {
    if p == '.' then c != '\n' else c == p
  }

  /** `s` starts with text that the host pattern `host` matches. */
  predicate HostMatchesAt(host: string, s: string) {
    |host| <= |s| && forall k :: 0 <= k < |host| ==> HostCharMatches(host[k], s[k])
  }

  /**
   * Length of the match of `https?://<host>` at the start of `s`, or 0 when there is none.
   * `s?` is greedy; giving the `s` back never helps, since `http:` then needs `:` where `s` is.
   */
  function MatchLength(host: string, s: string): (n: nat)
    ensures n == 0 || (7 <= n <= |s| && StartsWith(s, "http"))
  {
    if StartsWith(s, "https://") && HostMatchesAt(host, s[8..]) then 8 + |host|
    else if StartsWith(s, "http://") && HostMatchesAt(host, s[7..]) then 7 + |host|
    else 0
  }

  /** `re.sub` of the host pattern: leftmost matches, non-overlapping, replacement not rescanned. */
  function Substitute(host: string, repl: string, s: string): string
    decreases |s|
  {
    if s == [] then []
    else
      var n := MatchLength(host, s);
      if n > 0 then repl + Substitute(host, repl, s[n..])
      else [s[0]] + Substitute(host, repl, s[1..])
  }

  /** The pass over the whole table, entries applied in table order (last entry applied last). */
  function ApplyOrigins(table: seq<Mapping>, proxyOrigin: string, s: string): string {
    if table == [] then s
    else
      var last := table[|table| - 1];
      Substitute(Netloc(last.origin), Replacement(proxyOrigin, last.target),
                 ApplyOrigins(table[..|table| - 1], proxyOrigin, s))
  }

  /** The `re.sub` scanner for one entry, left to right over the text. */
  method SubstituteScan(host: string, repl: string, s: string) returns (out: string)
    ensures out == Substitute(host, repl, s)
  {
    out := [];
    var rest := s;
    while rest != []
      invariant out + Substitute(host, repl, rest) == Substitute(host, repl, s)
      decreases |rest|
    {
      var n := MatchLength(host, rest);
      if n > 0 {
        AppendAssoc(out, repl, Substitute(host, repl, rest[n..]));
        out := out + repl;
        rest := rest[n..];
      } else {
        AppendAssoc(out, [rest[0]], Substitute(host, repl, rest[1..]));
        out := out + [rest[0]];
        rest := rest[1..];
      }
    }
  }

  /** The headers after the substitution loop: only `Location`, when present, is rewritten. */
  function SubstituteLocation(table: seq<Mapping>, proxyOrigin: string, headers: map<string, string>): map<string, string> {
    if "Location" in headers then headers["Location" := ApplyOrigins(table, proxyOrigin, headers["Location"])] else headers
  }

  /**
   * The substitution loop of the handler: for each table entry, rewrite the body and,
   * when present, the `Location` header; nothing else in the headers changes.
   */
  method RewriteOrigins(table: seq<Mapping>, proxyOrigin: string, body: string, headers: map<string, string>)
    returns (body': string, headers': map<string, string>)
    ensures body' == ApplyOrigins(table, proxyOrigin, body)
    ensures headers'.Keys == headers.Keys
    ensures forall k :: k in headers && k != "Location" ==> headers'[k] == headers[k]
    ensures "Location" in headers ==> headers'["Location"] == ApplyOrigins(table, proxyOrigin, headers["Location"])
    ensures headers' == SubstituteLocation(table, proxyOrigin, headers)
  {
    body', headers' := body, headers;
    for i := 0 to |table|
      invariant body' == ApplyOrigins(table[..i], proxyOrigin, body)
      invariant headers' == SubstituteLocation(table[..i], proxyOrigin, headers)
    {
      assert table[..i + 1][..i] == table[..i];
      var host := Netloc(table[i].origin);
      var repl := Replacement(proxyOrigin, table[i].target);
      body' := SubstituteScan(host, repl, body');
      if "Location" in headers' {
        var location := SubstituteScan(host, repl, headers'["Location"]);
        headers' := headers'["Location" := location];
      }
    }
    assert table[..|table|] == table;
  }

  /** Text in which no match starts before the split point is copied unchanged. */
  lemma {:induction false} SubstituteSkip(host: string, repl: string, x: string, y: string)
    requires forall k :: 0 <= k < |x| ==> MatchLength(host, (x + y)[k..]) == 0
    ensures Substitute(host, repl, x + y) == x + Substitute(host, repl, y)
    decreases |x|
  {
    if x != [] {
      var s := x + y;
      assert MatchLength(host, s) == 0 by { assert s[0..] == s; }
      assert s[1..] == x[1..] + y;
      forall k | 0 <= k < |x[1..]|
        ensures MatchLength(host, (x[1..] + y)[k..]) == 0
      {
        assert (x[1..] + y)[k..] == s[k + 1..];
      }
      SubstituteSkip(host, repl, x[1..], y);
      AppendAssoc([x[0]], x[1..], Substitute(host, repl, y));
      calc {
        Substitute(host, repl, s);
        [s[0]] + Substitute(host, repl, s[1..]);
        [x[0]] + (x[1..] + Substitute(host, repl, y));
        ([x[0]] + x[1..]) + Substitute(host, repl, y);
        { assert [x[0]] + x[1..] == x; }
        x + Substitute(host, repl, y);
      }
    } else {
      assert x + y == y;
    }
  }

  /** Text with no match anywhere is left exactly as it was. */
  lemma SubstituteNoMatch(host: string, repl: string, s: string)
    requires forall k :: 0 <= k < |s| ==> MatchLength(host, s[k..]) == 0
    ensures Substitute(host, repl, s) == s
  {
    assert s + [] == s;
    SubstituteSkip(host, repl, s, []);
  }

  /** Both schemes of the entry's own host are replaced, whatever follows the host. */
  lemma OwnHostReplaced(host: string, repl: string, rest: string)
    ensures Substitute(host, repl, "https://" + host + rest) == repl + Substitute(host, repl, rest)
    ensures Substitute(host, repl, "http://" + host + rest) == repl + Substitute(host, repl, rest)
  {
    var s := "https://" + host + rest;
    assert s[..8] == "https://";
    assert s[8..] == host + rest;
    assert HostMatchesAt(host, s[8..]);
    assert s[8 + |host|..] == rest;
    var t := "http://" + host + rest;
    assert t[..7] == "http://";
    assert t[7..] == host + rest;
    assert !StartsWith(t, "https://") by { assert |t| >= 8 ==> t[4] == ':'; }
    assert HostMatchesAt(host, t[7..]);
    assert t[7 + |host|..] == rest;
  }

  /** A host pattern whose first character is neither `w` nor a wildcard cannot match the default host. */
  predicate AvoidsDefaultHost(table: seq<Mapping>) {
    forall i :: 0 <= i < |table| ==>
      var host := Netloc(table[i].origin);
      host != [] && host[0] != 'w' && host[0] != '.'
  }

  lemma NetlocOfHttps(host: string)
    ensures Netloc("https://" + host) == host
  {
    assert ("https://" + host)[..8] == "https://";
  }

  lemma ToProxyAvoidsDefaultHost()
    ensures AvoidsDefaultHost(ToProxy)
  {
    ToProxyHosts();
    TableHostsSeparate();
  }

  /** Nothing matches where the text does not start with `h`. */
  lemma NoMatchWithoutH(host: string, t: string)
    requires t != [] && t[0] != 'h'
    ensures MatchLength(host, t) == 0
  {
  }

  /** No match starts at the default origin itself when the host pattern cannot match its `w`. */
  lemma NoMatchAtDefaultOrigin(host: string, rest: string)
    requires host != [] && host[0] != 'w' && host[0] != '.'
    ensures MatchLength(host, DefaultOrigin + rest) == 0
  {
    var s := DefaultOrigin + rest;
    assert s[8] == 'w' && s[4] == 's';
    assert !HostCharMatches(host[0], s[8..][0]);
  }

  /** One entry leaves the default origin in front of any text alone. */
  lemma DefaultOriginSkipped(host: string, repl: string, rest: string)
    requires host != [] && host[0] != 'w' && host[0] != '.'
    ensures Substitute(host, repl, DefaultOrigin + rest) == DefaultOrigin + Substitute(host, repl, rest)
  {
    forall k | 0 <= k < |DefaultOrigin|
      ensures MatchLength(host, (DefaultOrigin + rest)[k..]) == 0
    {
      if k == 0 {
        assert (DefaultOrigin + rest)[0..] == DefaultOrigin + rest;
        NoMatchAtDefaultOrigin(host, rest);
      } else {
        assert (DefaultOrigin + rest)[k..][0] == DefaultOrigin[k] != 'h';
        NoMatchWithoutH(host, (DefaultOrigin + rest)[k..]);
      }
    }
    SubstituteSkip(host, repl, DefaultOrigin, rest);
  }

  /**
   * A default origin `https://www.cc98.org` at the start of the text survives the pass over
   * the whole table, which rewrites only what follows it.
   */
  lemma {:induction false} DefaultOriginKept(table: seq<Mapping>, proxyOrigin: string, rest: string)
    requires AvoidsDefaultHost(table)
    ensures ApplyOrigins(table, proxyOrigin, DefaultOrigin + rest) == DefaultOrigin + ApplyOrigins(table, proxyOrigin, rest)
  {
    if table != [] {
      var init := table[..|table| - 1];
      assert AvoidsDefaultHost(init) by {
        forall i | 0 <= i < |init| ensures init[i] == table[i] { }
      }
      DefaultOriginKept(init, proxyOrigin, rest);
      var last := table[|table| - 1];
      DefaultOriginSkipped(Netloc(last.origin), Replacement(proxyOrigin, last.target),
                           ApplyOrigins(init, proxyOrigin, rest));
    }
  }

  // ---- The default origin anywhere in the text ---------------------------------------

  /**
   * The host pattern cannot cover an `h` followed by a `t`: it has neither letter, and each
   * wildcard is followed by a literal character.
   */
  predicate SkipsHt(host: string) {
    'h' !in host && 't' !in host &&
    forall k :: 0 <= k < |host| && host[k] == '.' ==> k + 1 < |host| && host[k + 1] != '.'
  }

  /** A host pattern that skips `ht` matches only text that ends before the `ht`. */
  lemma HostStopsAtHt(host: string, t: string, k: nat)
    requires SkipsHt(host) && HostMatchesAt(host, t)
    requires k + 1 < |t| && t[k] == 'h' && t[k + 1] == 't'
    ensures |host| <= k
  {
  }

  /** After the leading `h`, the scheme of a match has no `h`. */
  lemma SchemeStopsBeforeH(s: string, j: nat)
    requires 0 < j < |s| && s[j] == 'h'
    ensures StartsWith(s, "https://") ==> 8 <= j
    ensures StartsWith(s, "http://") ==> 7 <= j
  {
  }

  /** A match that starts at the front of `s` ends before any `ht` in `s`. */
  lemma MatchStopsAtHt(host: string, s: string, j: nat)
    requires SkipsHt(host)
    requires 0 < j && j + 1 < |s| && s[j] == 'h' && s[j + 1] == 't'
    ensures MatchLength(host, s) <= j
  {
    SchemeStopsBeforeH(s, j);
    if StartsWith(s, "https://") && HostMatchesAt(host, s[8..]) {
      HostStopsAtHt(host, s[8..], j - 8);
    } else if StartsWith(s, "http://") && HostMatchesAt(host, s[7..]) {
      HostStopsAtHt(host, s[7..], j - 7);
    }
  }

  /** A match found in `s + t` that ends within `s` is the match found in `s`, and vice versa. */
  lemma MatchWithinPrefix(host: string, s: string, t: string)
    requires MatchLength(host, s + t) <= |s|
    ensures MatchLength(host, s) == MatchLength(host, s + t)
  {
    var u := s + t;
    if 8 <= |s| {
      assert u[..8] == s[..8];
    }
    if 7 <= |s| {
      assert u[..7] == s[..7];
    }
    if 8 + |host| <= |s| {
      assert forall k :: 0 <= k < |host| ==> s[8..][k] == u[8..][k];
    }
    if 7 + |host| <= |s| {
      assert forall k :: 0 <= k < |host| ==> s[7..][k] == u[7..][k];
    }
  }

  /** One entry rewrites `y + z` piecewise when no match starting in `y` runs into `z`. */
  lemma {:induction false} SubstituteSplit(host: string, repl: string, y: string, z: string)
    requires forall i :: 0 <= i < |y| ==> i + MatchLength(host, (y + z)[i..]) <= |y|
    ensures Substitute(host, repl, y + z) == Substitute(host, repl, y) + Substitute(host, repl, z)
    decreases |y|
  {
    if y == [] {
      assert y + z == z;
    } else {
      var m, head := SplitStep(host, repl, y, z);
      SubstituteSplit(host, repl, y[m..], z);
      AppendAssoc(head, Substitute(host, repl, y[m..]), Substitute(host, repl, z));
    }
  }

  /** The first step of the pass over `y + z` is the first step of the pass over `y` alone. */
  lemma SplitStep(host: string, repl: string, y: string, z: string) returns (m: nat, head: string)
    requires y != []
    requires forall i :: 0 <= i < |y| ==> i + MatchLength(host, (y + z)[i..]) <= |y|
    ensures 0 < m <= |y|
    ensures Substitute(host, repl, y + z) == head + Substitute(host, repl, y[m..] + z)
    ensures Substitute(host, repl, y) == head + Substitute(host, repl, y[m..])
    ensures forall i :: 0 <= i < |y[m..]| ==> i + MatchLength(host, (y[m..] + z)[i..]) <= |y[m..]|
  {
    var n := MatchLength(host, y + z);
    assert (y + z)[0..] == y + z;
    MatchWithinPrefix(host, y, z);
    m := if n > 0 then n else 1;
    head := if n > 0 then repl else [y[0]];
    SubstituteStep(host, repl, y + z, head, m);
    SubstituteStep(host, repl, y, head, m);
    DropFromFirst(y, z, m);
    TailSplits(host, y, z, m);
  }

  /** One step of the pass: the replacement or the first character, then the pass over the rest. */
  lemma SubstituteStep(host: string, repl: string, s: string, head: string, m: nat)
    requires s != [] && m <= |s|
    requires m == if MatchLength(host, s) > 0 then MatchLength(host, s) else 1
    requires head == if MatchLength(host, s) > 0 then repl else [s[0]]
    ensures Substitute(host, repl, s) == head + Substitute(host, repl, s[m..])
  {
  }

  /** What holds of `y` followed by `z` holds of every tail of `y` followed by `z`. */
  lemma TailSplits(host: string, y: string, z: string, m: nat)
    requires m <= |y|
    requires forall i :: 0 <= i < |y| ==> i + MatchLength(host, (y + z)[i..]) <= |y|
    ensures forall i :: 0 <= i < |y[m..]| ==> i + MatchLength(host, (y[m..] + z)[i..]) <= |y[m..]|
  {
    forall i | 0 <= i < |y[m..]|
      ensures i + MatchLength(host, (y[m..] + z)[i..]) <= |y[m..]|
    {
      assert (y[m..] + z)[i..] == (y + z)[m + i..];
    }
  }

  /** No match starting in `y` runs into a default origin that follows `y`. */
  lemma NoMatchIntoDefaultOrigin(host: string, y: string, z: string)
    requires SkipsHt(host)
    ensures forall i :: 0 <= i < |y| ==> i + MatchLength(host, (y + (DefaultOrigin + z))[i..]) <= |y|
  {
    forall i | 0 <= i < |y|
      ensures i + MatchLength(host, (y + (DefaultOrigin + z))[i..]) <= |y|
    {
      var s := (y + (DefaultOrigin + z))[i..];
      assert s[|y| - i] == 'h' && s[|y| - i + 1] == 't';
      MatchStopsAtHt(host, s, |y| - i);
    }
  }

  /**
   * The default origin is never substituted, wherever it stands: the pass over a table
   * whose host patterns avoid it rewrites the text before it and the text after it
   * separately and keeps it in between.
   */
  lemma {:induction false} DefaultOriginKeptAnywhere(table: seq<Mapping>, proxyOrigin: string, x: string, rest: string)
    requires AvoidsDefaultHost(table)
    requires forall i :: 0 <= i < |table| ==> SkipsHt(Netloc(table[i].origin))
    ensures ApplyOrigins(table, proxyOrigin, x + DefaultOrigin + rest) ==
              ApplyOrigins(table, proxyOrigin, x) + DefaultOrigin + ApplyOrigins(table, proxyOrigin, rest)
  {
    if table == [] {
    } else {
      var init := table[..|table| - 1];
      assert AvoidsDefaultHost(init) by {
        forall i | 0 <= i < |init| ensures init[i] == table[i] { }
      }
      assert forall i :: 0 <= i < |init| ==> init[i] == table[i];
      DefaultOriginKeptAnywhere(init, proxyOrigin, x, rest);
      var last := table[|table| - 1];
      assert SkipsHt(Netloc(last.origin));
      DefaultOriginKeptOnce(Netloc(last.origin), Replacement(proxyOrigin, last.target),
                            ApplyOrigins(init, proxyOrigin, x), ApplyOrigins(init, proxyOrigin, rest));
    }
  }

  /** One entry's pass keeps a default origin and rewrites either side of it separately. */
  lemma DefaultOriginKeptOnce(host: string, repl: string, x: string, rest: string)
    requires host != [] && host[0] != 'w' && host[0] != '.' && SkipsHt(host)
    ensures Substitute(host, repl, x + DefaultOrigin + rest) ==
              Substitute(host, repl, x) + DefaultOrigin + Substitute(host, repl, rest)
  {
    AppendAssoc(x, DefaultOrigin, rest);
    NoMatchIntoDefaultOrigin(host, x, rest);
    SubstituteSplit(host, repl, x, DefaultOrigin + rest);
    DefaultOriginSkipped(host, repl, rest);
    AppendAssoc(Substitute(host, repl, x), DefaultOrigin, Substitute(host, repl, rest));
  }

  /** The table's host patterns cannot cover an `ht`. */
  lemma ToProxySkipsHt()
    ensures forall i :: 0 <= i < |ToProxy| ==> SkipsHt(Netloc(ToProxy[i].origin))
  {
    ToProxyHosts();
    TableHostsSkipHt();
  }

  lemma TableHostsSkipHt()
    ensures forall i :: 0 <= i < |TableHosts| ==> SkipsHt(TableHosts[i])
  {
    forall i | 0 <= i < |TableHosts|
      ensures SkipsHt(TableHosts[i])
    {
      TableHostSkipsHt(i);
    }
  }

  /** The names in front of `.cc98.org`, in table order. */
  const TableNames: seq<string> := ["openid", "api", "file", "gaming", "card"]

  lemma TableHostSkipsHt(i: nat)
    requires i < |TableHosts|
    ensures SkipsHt(TableHosts[i])
  {
    assert TableHosts[i] == TableNames[i] + ".cc98." + "org";
    HostSkipsHt(TableNames[i], "org");
  }

  /** `<name>.cc98.<tld>` skips `ht` when neither part has an `h`, a `t` or a `.`. */
  lemma HostSkipsHt(name: string, tld: string)
    requires name != [] && tld != []
    requires 'h' !in name && 't' !in name && '.' !in name
    requires 'h' !in tld && 't' !in tld && '.' !in tld
    ensures SkipsHt(name + ".cc98." + tld)
  {
    var host := name + ".cc98." + tld;
    forall k | 0 <= k < |host| && host[k] == '.'
      ensures k + 1 < |host| && host[k + 1] != '.'
    {
      assert k == |name| || k == |name| + 5;
    }
  }

  /** With the table as configured, the default origin is never substituted, wherever it stands. */
  lemma DefaultOriginNeverSubstituted(proxyOrigin: string, x: string, rest: string)
    ensures ApplyOrigins(ToProxy, proxyOrigin, x + DefaultOrigin + rest) ==
              ApplyOrigins(ToProxy, proxyOrigin, x) + DefaultOrigin + ApplyOrigins(ToProxy, proxyOrigin, rest)
  {
    ToProxyAvoidsDefaultHost();
    ToProxySkipsHt();
    DefaultOriginKeptAnywhere(ToProxy, proxyOrigin, x, rest);
  }

  /** No entry matches anywhere in `s`. */
  predicate NoOriginIn(table: seq<Mapping>, s: string) {
    forall i, k :: 0 <= i < |table| && 0 <= k < |s| ==> MatchLength(Netloc(table[i].origin), s[k..]) == 0
  }

  /** Text that mentions no registered origin passes through the whole table unchanged. */
  lemma {:induction false} ApplyOriginsNoMatch(table: seq<Mapping>, proxyOrigin: string, s: string)
    requires NoOriginIn(table, s)
    ensures ApplyOrigins(table, proxyOrigin, s) == s
  {
    if table != [] {
      var init := table[..|table| - 1];
      assert NoOriginIn(init, s) by {
        forall i | 0 <= i < |init| ensures init[i] == table[i] { }
      }
      ApplyOriginsNoMatch(init, proxyOrigin, s);
      var last := table[|table| - 1];
      SubstituteNoMatch(Netloc(last.origin), Replacement(proxyOrigin, last.target), s);
    }
  }

  // ---- A table origin through the whole pass ------------------------------------------

  /**
   * What keeps the entries from interfering: every host is non-empty, starts with a
   * letter no other host starts with, and holds no `h`; every target is a non-empty
   * segment name without `h`. Then no entry matches inside another entry's origin or replacement
   * path.
   */
  predicate SeparateEntries(table: seq<Mapping>) {
    (forall i :: 0 <= i < |table| ==>
       Netloc(table[i].origin) != [] && Netloc(table[i].origin)[0] != '.' && 'h' !in Netloc(table[i].origin) &&
       table[i].target != [] && 'h' !in table[i].target) &&
    (forall i, j :: 0 <= i < |table| && 0 <= j < |table| && i != j ==>
       Netloc(table[i].origin)[0] != Netloc(table[j].origin)[0])
  }

  /**
   * The proxy's own origin starts no match, whatever follows it: no replacement text is
   * rewritten again by a later entry.
   */
  ghost predicate ProxyOriginInert(table: seq<Mapping>, proxyOrigin: string) {
    forall i, k, t :: 0 <= i < |table| && 0 <= k < |proxyOrigin| ==>
      MatchLength(Netloc(table[i].origin), (proxyOrigin + t)[k..]) == 0
  }

  /** The hosts of the table's origins, in table order. */
  const TableHosts: seq<string> := ["openid.cc98.org", "api.cc98.org", "file.cc98.org", "gaming.cc98.org", "card.cc98.org"]

  lemma ToProxySeparate()
    ensures SeparateEntries(ToProxy)
  {
    TableHostsSeparate();
    TableTargets();
    ToProxyHosts();
  }

  /** `urlparse(origin).netloc` of each table origin is its host. */
  lemma ToProxyHosts()
    ensures forall i :: 0 <= i < |ToProxy| ==> Netloc(ToProxy[i].origin) == TableHosts[i]
  {
    forall i | 0 <= i < |ToProxy|
      ensures Netloc(ToProxy[i].origin) == TableHosts[i]
    {
      TableOrigins();
      NetlocOfHttps(TableHosts[i]);
    }
  }

  lemma TableHostsSeparate()
    ensures forall i :: 0 <= i < |TableHosts| ==> TableHosts[i] != [] && 'a' <= TableHosts[i][0] <= 'v' && 'h' !in TableHosts[i]
    ensures forall i, j :: 0 <= i < |TableHosts| && 0 <= j < |TableHosts| && i != j ==> TableHosts[i][0] != TableHosts[j][0]
  {
  }

  lemma TableTargets()
    ensures forall i :: 0 <= i < |ToProxy| ==> ToProxy[i].target != [] && 'h' !in ToProxy[i].target
  {
    forall i | 0 <= i < |ToProxy|
      ensures ToProxy[i].target != [] && 'h' !in ToProxy[i].target
    {
      assert ToProxy[i].target in ["openid", "api", "file", "gaming", "card"];
    }
  }

  /** Each origin of the table is `https://` and its host. */
  lemma TableOrigins()
    ensures forall i :: 0 <= i < |ToProxy| ==> ToProxy[i].origin == "https://" + TableHosts[i]
  {
    OpenidOrigin(); ApiOrigin(); FileOrigin(); GamingOrigin(); CardOrigin();
    forall i | 0 <= i < |ToProxy|
      ensures ToProxy[i].origin == "https://" + TableHosts[i]
    {
      assert i == 0 || i == 1 || i == 2 || i == 3 || i == 4;
    }
  }

  lemma OpenidOrigin() ensures ToProxy[0].origin == "https://" + TableHosts[0] { }
  lemma ApiOrigin() ensures ToProxy[1].origin == "https://" + TableHosts[1] { }
  lemma FileOrigin() ensures ToProxy[2].origin == "https://" + TableHosts[2] { }
  lemma GamingOrigin() ensures ToProxy[3].origin == "https://" + TableHosts[3] { }
  lemma CardOrigin() ensures ToProxy[4].origin == "https://" + TableHosts[4] { }

  /** A target without `h` gives a replacement path without `h`, and is not an `http` URL. */
  lemma TargetWithoutH(target: string)
    requires target != [] && 'h' !in target
    ensures 'h' !in SegmentPath(target) && !StartsWith(target, "http")
  {
    assert target[0] != 'h';
  }

  /** A proxy served from `http://127.0.0.1:8000` satisfies the condition. */
  lemma LocalProxyOriginInert()
    ensures ProxyOriginInert(ToProxy, "http://127.0.0.1:8000")
  {
    ToProxySeparate();
    ToProxyHosts();
    TableHostsSeparate();
    forall i, k, t | 0 <= i < |ToProxy| && 0 <= k < |"http://127.0.0.1:8000"|
      ensures MatchLength(Netloc(ToProxy[i].origin), ("http://127.0.0.1:8000" + t)[k..]) == 0
    {
      LocalOriginNoMatch(Netloc(ToProxy[i].origin), k, t);
    }
  }

  lemma LocalOriginNoMatch(host: string, k: nat, t: string)
    requires host != [] && 'a' <= host[0] <= 'z' && 'h' !in host
    requires k < |"http://127.0.0.1:8000"|
    ensures MatchLength(host, ("http://127.0.0.1:8000" + t)[k..]) == 0
  {
    var u := "http://127.0.0.1:8000" + t;
    if k == 0 {
      assert u[4] == ':' && u[..7] == "http://" && u[7] == '1';
      assert u[0..] == u;
      assert !HostCharMatches(host[0], u[7..][0]);
    } else {
      assert u[k..][0] == u[k] != 'h';
      NoMatchWithoutH(host, u[k..]);
    }
  }

  /** An entry skips another entry's origin: hosts start differently and hold no `h`. */
  lemma ForeignOriginSkipped(host: string, repl: string, scheme: string, own: string, x: string)
    requires scheme == "https://" || scheme == "http://"
    requires host != [] && host[0] != '.' && own != [] && own[0] != host[0] && 'h' !in own
    ensures Substitute(host, repl, scheme + own + x) == scheme + own + Substitute(host, repl, x)
  {
    var p := scheme + own;
    forall k | 0 <= k < |p|
      ensures MatchLength(host, (p + x)[k..]) == 0
    {
      if k == 0 {
        ForeignOriginAtStart(host, scheme, own, x);
        assert (p + x)[0..] == scheme + own + x;
      } else {
        assert (p + x)[k..][0] == p[k];
        assert p[k] != 'h' by {
          if k >= |scheme| { assert p[k] == own[k - |scheme|]; }
        }
        NoMatchWithoutH(host, (p + x)[k..]);
      }
    }
    SubstituteSkip(host, repl, p, x);
  }

  lemma ForeignOriginAtStart(host: string, scheme: string, own: string, x: string)
    requires scheme == "https://" || scheme == "http://"
    requires host != [] && host[0] != '.' && own != [] && own[0] != host[0]
    ensures MatchLength(host, scheme + own + x) == 0
  {
    var u := scheme + own + x;
    assert u[|scheme|] == own[0];
    if scheme == "https://" {
      assert u[4] == 's';
      assert !HostCharMatches(host[0], u[8..][0]);
    } else {
      assert u[4] == ':';
      assert !HostCharMatches(host[0], u[7..][0]);
    }
  }

  /** An entry skips the proxy's own origin and a replacement path without `h`. */
  lemma ReplacementSkipped(host: string, repl: string, proxyOrigin: string, seg: string, z: string)
    requires forall k, t :: 0 <= k < |proxyOrigin| ==> MatchLength(host, (proxyOrigin + t)[k..]) == 0
    requires 'h' !in seg
    ensures Substitute(host, repl, proxyOrigin + seg + z) == proxyOrigin + seg + Substitute(host, repl, z)
  {
    var p := proxyOrigin + seg;
    forall k | 0 <= k < |p|
      ensures MatchLength(host, (p + z)[k..]) == 0
    {
      if k < |proxyOrigin| {
        assert p + z == proxyOrigin + (seg + z);
        assert MatchLength(host, (proxyOrigin + (seg + z))[k..]) == 0;
      } else {
        assert (p + z)[k..][0] == seg[k - |proxyOrigin|];
        NoMatchWithoutH(host, (p + z)[k..]);
      }
    }
    SubstituteSkip(host, repl, p, z);
  }

  /** The pass over a non-empty table ends with its last entry. */
  lemma ApplyLast(t: seq<Mapping>, proxyOrigin: string, s: string)
    requires t != []
    ensures ApplyOrigins(t, proxyOrigin, s) ==
              Substitute(Netloc(t[|t| - 1].origin), Replacement(proxyOrigin, t[|t| - 1].target), ApplyOrigins(t[..|t| - 1], proxyOrigin, s))
  {
  }

  /** The pass over two tables one after the other is the pass over the second applied to the first's result. */
  lemma {:induction false} ApplyConcat(t1: seq<Mapping>, t2: seq<Mapping>, proxyOrigin: string, s: string)
    ensures ApplyOrigins(t1 + t2, proxyOrigin, s) == ApplyOrigins(t2, proxyOrigin, ApplyOrigins(t1, proxyOrigin, s))
    decreases |t2|
  {
    if t2 == [] {
      assert t1 + t2 == t1;
    } else {
      var t, e := t1 + t2, t2[|t2| - 1];
      assert t[..|t| - 1] == t1 + t2[..|t2| - 1];
      assert t[|t| - 1] == e;
      ApplyConcat(t1, t2[..|t2| - 1], proxyOrigin, s);
      ApplyLast(t, proxyOrigin, s);
      ApplyLast(t2, proxyOrigin, ApplyOrigins(t1, proxyOrigin, s));
    }
  }

  /** Entries whose hosts start with another letter than `own` leave an origin on `own` in place. */
  lemma {:induction false} ForeignEntriesSkip(t: seq<Mapping>, proxyOrigin: string, scheme: string, own: string, rest: string)
    requires scheme == "https://" || scheme == "http://"
    requires own != [] && 'h' !in own
    requires forall j :: 0 <= j < |t| ==> Netloc(t[j].origin) != [] && Netloc(t[j].origin)[0] != '.' && Netloc(t[j].origin)[0] != own[0]
    ensures ApplyOrigins(t, proxyOrigin, scheme + own + rest) == scheme + own + ApplyOrigins(t, proxyOrigin, rest)
    decreases |t|
  {
    if t != [] {
      var init, e := t[..|t| - 1], t[|t| - 1];
      assert forall j :: 0 <= j < |init| ==> init[j] == t[j];
      ForeignEntriesSkip(init, proxyOrigin, scheme, own, rest);
      ForeignOriginSkipped(Netloc(e.origin), Replacement(proxyOrigin, e.target), scheme, own, ApplyOrigins(init, proxyOrigin, rest));
    }
  }

  /** Entries none of whose matches starts inside the proxy origin leave the proxy origin and a segment in place. */
  lemma {:induction false} InertEntriesSkip(t: seq<Mapping>, proxyOrigin: string, seg: string, z: string)
    requires 'h' !in seg
    requires ProxyOriginInert(t, proxyOrigin)
    ensures ApplyOrigins(t, proxyOrigin, proxyOrigin + seg + z) == proxyOrigin + seg + ApplyOrigins(t, proxyOrigin, z)
    decreases |t|
  {
    if t != [] {
      var init, e := t[..|t| - 1], t[|t| - 1];
      assert forall j :: 0 <= j < |init| ==> init[j] == t[j];
      InertEntriesSkip(init, proxyOrigin, seg, z);
      InertForEntry(t, proxyOrigin, |t| - 1);
      ReplacementSkipped(Netloc(e.origin), Replacement(proxyOrigin, e.target), proxyOrigin, seg, ApplyOrigins(init, proxyOrigin, z));
    }
  }

  /** No match of entry `j`'s host pattern starts inside the proxy origin. */
  lemma InertForEntry(table: seq<Mapping>, proxyOrigin: string, j: nat)
    requires ProxyOriginInert(table, proxyOrigin) && j < |table|
    ensures forall k, t :: 0 <= k < |proxyOrigin| ==> MatchLength(Netloc(table[j].origin), (proxyOrigin + t)[k..]) == 0
  {
  }

  /** The entries after entry `i` of an inert table form an inert table. */
  lemma InertSuffix(table: seq<Mapping>, proxyOrigin: string, i: nat)
    requires ProxyOriginInert(table, proxyOrigin) && i <= |table|
    ensures ProxyOriginInert(table[i..], proxyOrigin)
  {
    assert forall j :: 0 <= j < |table[i..]| ==> table[i..][j] == table[i + j];
  }

  /** The entries before entry `i` of a table with separate entries all start with other letters than entry `i`'s host. */
  lemma SeparatePrefix(table: seq<Mapping>, i: nat)
    requires SeparateEntries(table) && i < |table|
    ensures var own := Netloc(table[i].origin);
      own != [] && 'h' !in own &&
      forall j :: 0 <= j < |table[..i]| ==>
        Netloc(table[..i][j].origin) != [] && Netloc(table[..i][j].origin)[0] != '.' && Netloc(table[..i][j].origin)[0] != own[0]
  {
    assert forall j :: 0 <= j < |table[..i]| ==> table[..i][j] == table[j];
  }

  /** An entry's own origin, under either scheme, becomes the proxy origin and the entry's segment. */
  lemma OwnEntryStep(host: string, repl: string, proxyOrigin: string, seg: string, scheme: string, x: string, before: string)
    requires scheme == "https://" || scheme == "http://"
    requires repl == proxyOrigin + seg && x == scheme + host + before
    ensures Substitute(host, repl, x) == proxyOrigin + seg + Substitute(host, repl, before)
  {
    OwnHostReplaced(host, repl, before);
  }

  /**
   * The pass over a table with separate entries and an inert proxy origin replaces an
   * origin of entry `i` with the proxy origin and the entry's segment: the entries before
   * it skip the origin, the entry replaces it, and the entries after it skip the replacement.
   */
  lemma TableOriginThrough(table: seq<Mapping>, proxyOrigin: string, i: nat, scheme: string, rest: string)
    requires SeparateEntries(table) && ProxyOriginInert(table, proxyOrigin) && i < |table|
    requires scheme == "https://" || scheme == "http://"
    ensures ApplyOrigins(table, proxyOrigin, scheme + Netloc(table[i].origin) + rest)
            == proxyOrigin + SegmentPath(table[i].target) + ApplyOrigins(table, proxyOrigin, rest)
  {
    var e := table[i];
    var host, repl := Netloc(e.origin), Replacement(proxyOrigin, e.target);
    var x := scheme + host + rest;
    assert table == table[..i + 1] + table[i + 1..];
    assert table[..i + 1] == table[..i] + [e];
    ApplyConcat(table[..i + 1], table[i + 1..], proxyOrigin, x);
    ApplyConcat(table[..i + 1], table[i + 1..], proxyOrigin, rest);
    ApplyConcat(table[..i], [e], proxyOrigin, x);
    ApplyConcat(table[..i], [e], proxyOrigin, rest);
    SeparatePrefix(table, i);
    ForeignEntriesSkip(table[..i], proxyOrigin, scheme, host, rest);
    var before := ApplyOrigins(table[..i], proxyOrigin, rest);
    TargetWithoutH(e.target);
    assert ApplyOrigins([e], proxyOrigin, scheme + host + before) == Substitute(host, repl, scheme + host + before);
    assert ApplyOrigins([e], proxyOrigin, before) == Substitute(host, repl, before);
    OwnEntryStep(host, repl, proxyOrigin, SegmentPath(e.target), scheme, scheme + host + before, before);
    InertSuffix(table, proxyOrigin, i + 1);
    InertEntriesSkip(table[i + 1..], proxyOrigin, SegmentPath(e.target), Substitute(host, repl, before));
  }

  /**
   * An origin of the table, under either scheme, leaves the whole pass as the proxy's own
   * origin followed by the entry's `/proxy/<segment>`; what follows it is rewritten as
   * usual.
   */
  lemma TableOriginReplaced(proxyOrigin: string, i: nat, rest: string)
    requires ProxyOriginInert(ToProxy, proxyOrigin)
    requires i < |ToProxy|
    ensures ApplyOrigins(ToProxy, proxyOrigin, "https://" + Netloc(ToProxy[i].origin) + rest)
            == proxyOrigin + SegmentPath(ToProxy[i].target) + ApplyOrigins(ToProxy, proxyOrigin, rest)
    ensures ApplyOrigins(ToProxy, proxyOrigin, "http://" + Netloc(ToProxy[i].origin) + rest)
            == proxyOrigin + SegmentPath(ToProxy[i].target) + ApplyOrigins(ToProxy, proxyOrigin, rest)
  {
    ToProxySeparate();
    TableOriginThrough(ToProxy, proxyOrigin, i, "https://", rest);
    TableOriginThrough(ToProxy, proxyOrigin, i, "http://", rest);
  }

  /**
   * The dots of the api host are wildcards and nothing ends the host, so look-alike hosts
   * match the api pattern over its whole length.
   */
  lemma LookalikeHostsMatch()
    ensures MatchLength(Netloc(ToProxy[1].origin), "https://" + "api-cc98-org" + ".example.com") == 20
    ensures MatchLength(Netloc(ToProxy[1].origin), "https://" + "api.cc98.org" + ".evil.com") == 20
  {
    ApiOrigin();
    NetlocOfHttps(TableHosts[1]);
    LookalikeMatch("api-cc98-org", ".example.com");
    LookalikeMatch("api.cc98.org", ".evil.com");
  }

  /** `https://` and a host the api pattern matches character by character give a 20-character match. */
  lemma LookalikeMatch(host: string, tail: string)
    requires |host| == |TableHosts[1]|
    requires forall k :: 0 <= k < |host| ==> HostCharMatches(TableHosts[1][k], host[k])
    ensures MatchLength(TableHosts[1], "https://" + host + tail) == 20
  {
    var s := "https://" + host + tail;
    assert s[..8] == "https://";
    assert s[8..] == host + tail;
    assert HostMatchesAt(TableHosts[1], s[8..]) by {
      forall k | 0 <= k < |TableHosts[1]| ensures HostCharMatches(TableHosts[1][k], s[8..][k]) {
        assert s[8..][k] == host[k];
      }
    }
  }
}
