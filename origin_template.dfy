/**
 * The origin pass with its replacements read the way `re.sub` reads them: as templates.
 * `OriginRewrite.ApplyOrigins` inserts each replacement as it stands; here the program's
 * own reading is modelled, and the two are related: they agree for a proxy origin without
 * `\`, and a template-escaped replacement makes them agree for every proxy origin.
 */
module OriginTemplate {
  import opened Wrappers
  import opened Text
  import opened Registry
  import opened OriginRewrite
  import opened ReTemplate

  /** One entry's `re.sub` with a parsed template: leftmost matches, each expanded in turn. */
  function SubstituteWith(host: string, pieces: seq<Piece>, s: string): string
    decreases |s|
  {
    if s == [] then []
    else
      var n := MatchLength(host, s);
      if n > 0 then Expand(pieces, s[..n]) + SubstituteWith(host, pieces, s[n..])
      else [s[0]] + SubstituteWith(host, pieces, s[1..])
  }

  /**
   * `re.sub(pattern, template, s)`: the template is parsed before anything is matched, so a
   * malformed template raises (`None`) whether or not the text contains a match.
   */
  function SubstituteAsWritten(host: string, template: string, s: string): Option<string> {
    match ParseTemplate(template)
    case None => None
    case Some(pieces) => Some(SubstituteWith(host, pieces, s))
  }

  /** The loop over the table as written: each entry's replacement is a template. */
  function ApplyOriginsAsWritten(table: seq<Mapping>, proxyOrigin: string, s: string): Option<string> {
    if table == [] then Some(s)
    else
      var last := table[|table| - 1];
      match ApplyOriginsAsWritten(table[..|table| - 1], proxyOrigin, s)
      case None => None
      case Some(t) => SubstituteAsWritten(Netloc(last.origin), Replacement(proxyOrigin, last.target), t)
  }

  /** The loop as intended: each replacement is escaped, so that `re` inserts it literally. */
  function ApplyOriginsEscaped(table: seq<Mapping>, proxyOrigin: string, s: string): Option<string> {
    if table == [] then Some(s)
    else
      var last := table[|table| - 1];
      match ApplyOriginsEscaped(table[..|table| - 1], proxyOrigin, s)
      case None => None
      case Some(t) => SubstituteAsWritten(Netloc(last.origin), EscapeTemplate(Replacement(proxyOrigin, last.target)), t)
  }

  // ---- Lemmas -------------------------------------------------------------------------

  /** A template of literal pieces substitutes exactly as the literal replacement does. */
  lemma {:induction false} SubstituteWithLits(host: string, repl: string, s: string)
    ensures SubstituteWith(host, Lits(repl), s) == Substitute(host, repl, s)
    decreases |s|
  {
    if s != [] {
      var n := MatchLength(host, s);
      if n > 0 {
        ExpandLits(repl, s[..n]);
        SubstituteWithLits(host, repl, s[n..]);
      } else {
        SubstituteWithLits(host, repl, s[1..]);
      }
    }
  }

  /** A replacement without `\` is inserted as it stands. */
  lemma LiteralReplacementAgrees(host: string, repl: string, s: string)
    requires '\\' !in repl
    ensures SubstituteAsWritten(host, repl, s) == Some(Substitute(host, repl, s))
  {
    LiteralTemplate(repl);
    SubstituteWithLits(host, repl, s);
  }

  /** An escaped replacement is inserted as it stands, whatever it contains. */
  lemma EscapedReplacementAgrees(host: string, repl: string, s: string)
    ensures SubstituteAsWritten(host, EscapeTemplate(repl), s) == Some(Substitute(host, repl, s))
  {
    EscapedTemplateLiteral(repl);
    SubstituteWithLits(host, repl, s);
  }

  /** `/proxy/<target>` has no `\` when the target has none. */
  lemma SegmentPathPlain(target: string)
    requires '\\' !in target
    ensures '\\' !in SegmentPath(target)
  {
    var p := "/proxy/";
    assert forall k :: 0 <= k < |p| ==> p[k] != '\\';
    assert SegmentPath(target) == p + target;
  }

  /** A replacement has no `\` when neither the proxy origin nor the target has one. */
  lemma ReplacementPlain(proxyOrigin: string, target: string)
    requires '\\' !in proxyOrigin && '\\' !in target
    ensures '\\' !in Replacement(proxyOrigin, target)
  {
    SegmentPathPlain(target);
  }

  /**
   * For a proxy origin and targets without `\`, the pass as written raises nothing and is
   * the literal pass that the rest of the model uses.
   */
  lemma {:induction false} AsWrittenAgrees(table: seq<Mapping>, proxyOrigin: string, s: string)
    requires '\\' !in proxyOrigin
    requires forall i :: 0 <= i < |table| ==> '\\' !in table[i].target
    ensures ApplyOriginsAsWritten(table, proxyOrigin, s) == Some(ApplyOrigins(table, proxyOrigin, s))
  {
    if table != [] {
      var last := table[|table| - 1];
      AsWrittenAgrees(table[..|table| - 1], proxyOrigin, s);
      ReplacementPlain(proxyOrigin, last.target);
      LiteralReplacementAgrees(Netloc(last.origin), Replacement(proxyOrigin, last.target),
                               ApplyOrigins(table[..|table| - 1], proxyOrigin, s));
    }
  }

  /** No target of the table contains `\`. */
  lemma ToProxyTargetsPlain()
    ensures forall i :: 0 <= i < |ToProxy| ==> '\\' !in ToProxy[i].target
  {
    forall i | 0 <= i < |ToProxy|
      ensures '\\' !in ToProxy[i].target
    {
      assert ToProxy[i].target in ["openid", "api", "file", "gaming", "card"];
    }
  }

  /** With the configured table, a proxy origin without `\` makes the pass as written the literal pass. */
  lemma ToProxyAsWrittenAgrees(proxyOrigin: string, s: string)
    requires '\\' !in proxyOrigin
    ensures ApplyOriginsAsWritten(ToProxy, proxyOrigin, s) == Some(ApplyOrigins(ToProxy, proxyOrigin, s))
  {
    ToProxyTargetsPlain();
    AsWrittenAgrees(ToProxy, proxyOrigin, s);
  }

  /** The escaped pass is the literal pass for every proxy origin. */
  lemma {:induction false} EscapedPassIsLiteral(table: seq<Mapping>, proxyOrigin: string, s: string)
    ensures ApplyOriginsEscaped(table, proxyOrigin, s) == Some(ApplyOrigins(table, proxyOrigin, s))
  {
    if table != [] {
      var last := table[|table| - 1];
      EscapedPassIsLiteral(table[..|table| - 1], proxyOrigin, s);
      EscapedReplacementAgrees(Netloc(last.origin), Replacement(proxyOrigin, last.target),
                               ApplyOrigins(table[..|table| - 1], proxyOrigin, s));
    }
  }

  /** When the first entry's template is malformed, the pass as written raises, whatever the text. */
  lemma {:induction false} FirstEntryRaises(table: seq<Mapping>, proxyOrigin: string, s: string)
    requires table != [] && ParseTemplate(Replacement(proxyOrigin, table[0].target)).None?
    ensures ApplyOriginsAsWritten(table, proxyOrigin, s).None?
  {
    if |table| > 1 {
      var front := table[..|table| - 1];
      assert front[0] == table[0];
      FirstEntryRaises(front, proxyOrigin, s);
    } else {
      assert table[..|table| - 1] == [];
    }
  }

  /** The first entry's replacement is the proxy origin followed by `/proxy/openid`. */
  lemma FirstReplacement(proxyOrigin: string)
    ensures Replacement(proxyOrigin, ToProxy[0].target) == proxyOrigin + SegmentPath(ToProxy[0].target)
    ensures SegmentPath(ToProxy[0].target)[0] == '/'
  {
    assert ToProxy[0].target[0] == 'o';
  }

  /** A text that does not start with a digit keeps not starting with one when more follows. */
  lemma NoLeadingDigit(y: string, seg: string)
    requires y == [] || !IsDigit(y[0])
    requires seg != [] && seg[0] == '/'
    ensures !IsDigit((y + seg)[0])
  {
    if y == [] {
      assert y + seg == seg;
    }
  }

  /**
   * A proxy origin holding a group reference such as `\1` makes every pass as written raise,
   * whether or not the text names a table origin.
   */
  lemma GroupReferenceOriginRaises(x: string, d: char, y: string, s: string)
    requires '\\' !in x && '1' <= d <= '9'
    requires y == [] || !IsDigit(y[0])
    ensures ApplyOriginsAsWritten(ToProxy, x + ['\\', d] + y, s).None?
  {
    var proxyOrigin := x + ['\\', d] + y;
    var seg := SegmentPath(ToProxy[0].target);
    FirstReplacement(proxyOrigin);
    NoLeadingDigit(y, seg);
    AppendAssoc(x + ['\\', d], y, seg);
    GroupReferenceRaises(x, d, y + seg);
    FirstEntryRaises(ToProxy, proxyOrigin, s);
  }

  /** Expansion distributes over the concatenation of templates. */
  lemma {:induction false} ExpandConcat(a: seq<Piece>, b: seq<Piece>, matched: string)
    ensures Expand(a + b, matched) == Expand(a, matched) + Expand(b, matched)
  {
    if a != [] {
      assert (a + b)[0] == a[0];
      assert (a + b)[1..] == a[1..] + b;
      ExpandConcat(a[1..], b, matched);
    } else {
      assert a + b == b;
    }
  }

  /** A template with `\g<0>` between two literal parts puts the match between them. */
  lemma ExpandSpliced(x: string, seg: string, matched: string)
    ensures Expand(Lits(x) + [Whole] + Lits(seg), matched) == x + matched + seg
  {
    ExpandConcat(Lits(x) + [Whole], Lits(seg), matched);
    ExpandConcat(Lits(x), [Whole], matched);
    ExpandLits(x, matched);
    ExpandLits(seg, matched);
    assert Expand([Whole], matched) == matched;
  }

  /** `https://<host>` is one whole match of the host's pattern. */
  lemma OwnOriginMatch(host: string)
    ensures MatchLength(host, "https://" + host) == 8 + |host|
  {
    var s := "https://" + host;
    assert s[..8] == "https://" && s[8..] == host;
    assert HostMatchesAt(host, s[8..]);
  }

  /** A text that is one whole match is replaced by the expansion of the template for it. */
  lemma WholeTextMatch(host: string, pieces: seq<Piece>, s: string)
    requires s != [] && MatchLength(host, s) == |s|
    ensures SubstituteWith(host, pieces, s) == Expand(pieces, s)
  {
    assert s[..|s|] == s && s[|s|..] == [];
    assert Expand(pieces, s) + [] == Expand(pieces, s);
  }

  /**
   * A proxy origin ending in `\g<0>` splices the matched origin into the replacement: an
   * entry's own origin becomes the proxy origin's text before `\g<0>`, then that origin,
   * then the segment path.
   */
  lemma WholeMatchSpliced(x: string, host: string, target: string)
    requires '\\' !in x && '\\' !in target
    ensures SubstituteAsWritten(host, x + "\\g<0>" + SegmentPath(target), "https://" + host) ==
              Some(x + "https://" + host + SegmentPath(target))
  {
    var seg := SegmentPath(target);
    SegmentPathPlain(target);
    WholeMatchTemplate(x, seg);
    OwnOriginMatch(host);
    WholeTextMatch(host, Lits(x) + [Whole] + Lits(seg), "https://" + host);
    ExpandSpliced(x, seg, "https://" + host);
    assert x + ("https://" + host) + seg == x + "https://" + host + seg;
  }
}
