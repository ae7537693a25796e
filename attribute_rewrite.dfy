/**
 * The markup pass: `re.sub(b'(?P<attr>href|src|action)="(?P<url>[^"]+)"', replace_url_html, body)`.
 * A root-relative value that is not already under `/proxy` gets the request's segment
 * prefix; every other match is returned as it was.
 */
module AttributeRewrite {
  import opened Wrappers
  import opened Text

  /** The alternatives of the `attr` group, in the order the regex tries them. */
  const Attributes: seq<string> := ["href", "src", "action"]

  /** `attr="`: the literal that opens a match. */
  function Opening(attr: string): string {
    attr + "=\""
  }

  /**
   * The path-scoping rule shared by attribute values and the `Location` header: a value that
   * starts with `/` but not with the literal `/proxy` gets the prefix, any other is kept.
   */
  function Scoped(prefix: string, url: string): string {
    if StartsWith(url, "/") && !StartsWith(url, "/proxy") then prefix + url else url
  }

  /** A match of the attribute pattern: the two named groups. */
  datatype AttrMatch = AttrMatch(attr: string, url: string)

  /** The text a match spans. */
  function MatchText(m: AttrMatch): string {
    Opening(m.attr) + m.url + "\""
  }

  /** The alternative that opens a match at the start of `s`, if any. */
  function AttrName(s: string): (r: Option<string>)
    ensures r.Some? ==> r.value in Attributes && StartsWith(s, Opening(r.value))
  {
    if StartsWith(s, Opening("href")) then Some("href")
    else if StartsWith(s, Opening("src")) then Some("src")
    else if StartsWith(s, Opening("action")) then Some("action")
    else None
  }

  /**
   * The match at the start of `s`: `[^"]+` is greedy and cannot cross a quote, so the value
   * runs to the next `"` and must be non-empty.
   */
  function MatchAttr(s: string): (r: Option<AttrMatch>)
    ensures r.Some? ==> r.value.attr in Attributes && r.value.url != [] && '"' !in r.value.url
    ensures r.Some? ==> StartsWith(s, MatchText(r.value))
  {
    match AttrName(s)
    case None => None
    case Some(a) =>
      var rest := s[|a| + 2..];
      var n := IndexOf(rest, '"');
      if 0 < n < |rest| then
        assert s[..|a| + 2 + n + 1] == Opening(a) + rest[..n] + "\"";
        Some(AttrMatch(a, rest[..n]))
      else None
  }

  /** `replace_url_html`: the replacement for one match. */
  function ReplaceUrlHtml(prefix: string, m: AttrMatch): string {
    MatchText(AttrMatch(m.attr, Scoped(prefix, m.url)))
  }

  /** What the scanner emits at the start of `s`: the replacement of the match there, or the first character. */
  function Piece(prefix: string, s: string): string
    requires s != []
  {
    match MatchAttr(s)
    case Some(m) => ReplaceUrlHtml(prefix, m)
    case None => [s[0]]
  }

  /** How far the scanner advances at the start of `s`: past the match there, or by one character. */
  function Advance(s: string): (n: nat)
    requires s != []
    ensures 1 <= n <= |s|
  {
    match MatchAttr(s)
    case Some(m) => |MatchText(m)|
    case None => 1
  }

  /** The whole pass: leftmost matches, non-overlapping, replacement text not rescanned. */
  function RewriteAttributes(prefix: string, s: string): string
    decreases |s|
  {
    if s == [] then [] else Piece(prefix, s) + RewriteAttributes(prefix, s[Advance(s)..])
  }

  /** The `re.sub` scanner of the pass. */
  method RewriteAttributesScan(prefix: string, s: string) returns (out: string)
    ensures out == RewriteAttributes(prefix, s)
  {
    out := [];
    var rest := s;
    while rest != []
      invariant out + RewriteAttributes(prefix, rest) == RewriteAttributes(prefix, s)
      decreases |rest|
    {
      var piece, n := Piece(prefix, rest), Advance(rest);
      AppendAssoc(out, piece, RewriteAttributes(prefix, rest[n..]));
      out, rest := out + piece, rest[n..];
    }
  }

  // ---- Lemmas -------------------------------------------------------------------------

  /** One step of the pass: a match is replaced, any other character is copied. */
  lemma RewriteStep(prefix: string, s: string)
    requires s != []
    ensures MatchAttr(s).Some? ==>
              RewriteAttributes(prefix, s) == ReplaceUrlHtml(prefix, MatchAttr(s).value)
                                              + RewriteAttributes(prefix, s[|MatchText(MatchAttr(s).value)|..])
    ensures MatchAttr(s).None? ==> RewriteAttributes(prefix, s) == [s[0]] + RewriteAttributes(prefix, s[1..])
  {
  }

  /** The only quote of an opening literal is its last character. */
  lemma OpeningQuote(a: string)
    requires a in Attributes
    ensures |Opening(a)| == |a| + 2 && Opening(a)[|a| + 1] == '"'
    ensures forall k :: 0 <= k < |a| + 1 ==> Opening(a)[k] != '"'
  {
  }

  /** After an opening literal the first quote of the text is the literal's own. */
  lemma FirstQuoteOfOpening(s: string, a: string)
    requires a in Attributes && StartsWith(s, Opening(a))
    ensures IndexOf(s, '"') == |a| + 1
  {
    OpeningQuote(a);
    assert forall k :: 0 <= k < |a| + 2 ==> s[k] == Opening(a)[k];
  }

  /** A prefix ending in a quote decides which literal (if any) opens a match. */
  lemma AttrNameDecided(s: string, y: string, common: string)
    requires StartsWith(s, common) && StartsWith(y, common)
    requires |common| >= 1 && common[|common| - 1] == '"'
    ensures AttrName(s) == AttrName(y)
  {
    forall a | a in Attributes
      ensures StartsWith(s, Opening(a)) <==> StartsWith(y, Opening(a))
    {
      OpeningQuote(a);
      var lit := Opening(a);
      if |lit| <= |common| {
        assert s[..|lit|] == common[..|lit|] == y[..|lit|];
      } else {
        var k := |common| - 1;
        assert s[k] == '"' && y[k] == '"';
        assert lit[k] != '"';
      }
    }
  }

  /** No quote among the first `i` characters of `s`. */
  predicate QuoteFreeBefore(s: string, i: int) {
    forall k :: 0 <= k < i && k < |s| ==> s[k] != '"'
  }

  /** `s` holds at most one quote. */
  predicate AtMostOneQuote(s: string) {
    forall k, l :: 0 <= k < l < |s| && s[k] == '"' ==> s[l] != '"'
  }

  /** A text that starts with a prefix of `s` agrees with `s` position by position. */
  lemma AgreeAt(y: string, s: string, n: nat)
    requires n <= |s| && StartsWith(y, s[..n])
    ensures forall k :: 0 <= k < n ==> y[k] == s[k]
  {
    assert forall k :: 0 <= k < n ==> y[..n][k] == s[..n][k];
  }

  /** Prepending the first character of `s` extends an agreement with `s[1..]` by one. */
  lemma ConsAgree(s: string, out: string, tail: string, k: nat)
    requires s != [] && out == [s[0]] + tail
    requires k <= |s| - 1 && StartsWith(tail, s[1..][..k])
    ensures StartsWith(out, s[..k + 1])
  {
    assert s[..k + 1] == [s[0]] + s[1..][..k];
  }

  /** The output for a match begins with the match's opening literal. */
  lemma MatchedOpeningKept(prefix: string, s: string)
    requires s != [] && MatchAttr(s).Some?
    ensures StartsWith(RewriteAttributes(prefix, s), Opening(MatchAttr(s).value.attr))
  {
    var m := MatchAttr(s).value;
    RewriteStep(prefix, s);
    var piece := ReplaceUrlHtml(prefix, m);
    assert piece == Opening(m.attr) + (Scoped(prefix, m.url) + "\"");
    PrefixOfConcat(Opening(m.attr), Scoped(prefix, m.url) + "\"", Opening(m.attr));
    PrefixOfConcat(piece, RewriteAttributes(prefix, s[|MatchText(m)|..]), Opening(m.attr));
  }

  /** The text up to and including the first quote comes through the pass unchanged. */
  lemma {:induction false} KeepsUpToFirstQuote(prefix: string, s: string)
    ensures IndexOf(s, '"') == |s| ==> RewriteAttributes(prefix, s) == s
    ensures IndexOf(s, '"') < |s| ==> StartsWith(RewriteAttributes(prefix, s), s[..IndexOf(s, '"') + 1])
    decreases |s|
  {
    if s != [] {
      RewriteStep(prefix, s);
      if MatchAttr(s).Some? {
        var a := MatchAttr(s).value.attr;
        FirstQuoteOfOpening(s, a);
        MatchedOpeningKept(prefix, s);
        assert s[..|a| + 2] == Opening(a);
      } else {
        var t := s[1..];
        KeepsUpToFirstQuote(prefix, t);
        if s[0] == '"' {
          ConsAgree(s, RewriteAttributes(prefix, s), RewriteAttributes(prefix, t), 0);
        } else if IndexOf(t, '"') == |t| {
          assert s == [s[0]] + t;
        } else {
          ConsAgree(s, RewriteAttributes(prefix, s), RewriteAttributes(prefix, t), IndexOf(t, '"') + 1);
        }
      }
    }
  }

  /** A match spans two quotes: the one closing its opening literal and the one closing its value. */
  lemma MatchQuotes(s: string)
    requires MatchAttr(s).Some?
    ensures var m := MatchAttr(s).value;
            |m.attr| + 2 < |MatchText(m)| <= |s| && s[|m.attr| + 1] == '"' && s[|MatchText(m)| - 1] == '"'
  {
    var m := MatchAttr(s).value;
    FirstQuoteOfOpening(s, m.attr);
    var last := |MatchText(m)| - 1;
    assert s[..last + 1][last] == '"';
  }

  /** A text with at most one quote has no match. */
  lemma NoMatchWithOneQuote(s: string)
    requires AtMostOneQuote(s)
    ensures MatchAttr(s) == None
  {
    if MatchAttr(s).Some? {
      MatchQuotes(s);
    }
  }

  /** Dropping the first character keeps at most one quote. */
  lemma OneQuoteTail(s: string)
    requires s != [] && AtMostOneQuote(s)
    ensures AtMostOneQuote(s[1..])
  {
    assert forall k :: 0 <= k < |s| - 1 ==> s[1..][k] == s[k + 1];
  }

  /** A text with at most one quote comes through the pass unchanged. */
  lemma {:induction false} OneQuoteKept(prefix: string, s: string)
    requires AtMostOneQuote(s)
    ensures RewriteAttributes(prefix, s) == s
    decreases |s|
  {
    if s != [] {
      NoMatchWithOneQuote(s);
      RewriteStep(prefix, s);
      OneQuoteTail(s);
      OneQuoteKept(prefix, s[1..]);
      assert s == [s[0]] + s[1..];
    }
  }

  /** No match starts where the first quote is immediately followed by another: the value would be empty. */
  lemma NoMatchBeforeEmptyValue(s: string, i: nat)
    requires i + 1 < |s| && s[i] == '"' && s[i + 1] == '"' && QuoteFreeBefore(s, i)
    ensures MatchAttr(s) == None
  {
    if AttrName(s).Some? {
      var a := AttrName(s).value;
      FirstQuoteOfOpening(s, a);
      assert IndexOf(s, '"') == i;
      assert s[|a| + 2..][0] == '"';
    }
  }

  /** A quote-free run followed by `""` comes through the pass unchanged. */
  lemma {:induction false} EmptyValueKept(prefix: string, s: string, i: nat)
    requires i + 1 < |s| && s[i] == '"' && s[i + 1] == '"' && QuoteFreeBefore(s, i)
    ensures StartsWith(RewriteAttributes(prefix, s), s[..i + 2])
    decreases i
  {
    if i == 0 {
      EmptyValueAtStart(prefix, s);
    } else {
      EmptyValueShift(s, i);
      EmptyValueKept(prefix, s[1..], i - 1);
      NoMatchBeforeEmptyValue(s, i);
      RewriteStep(prefix, s);
      ConsAgree(s, RewriteAttributes(prefix, s), RewriteAttributes(prefix, s[1..]), i + 1);
    }
  }

  /** A text that starts with `""` keeps it. */
  lemma EmptyValueAtStart(prefix: string, s: string)
    requires 1 < |s| && s[0] == '"' && s[1] == '"'
    ensures StartsWith(RewriteAttributes(prefix, s), s[..2])
  {
    NoMatchBeforeEmptyValue(s, 0);
    RewriteStep(prefix, s);
    KeepsUpToFirstQuote(prefix, s[1..]);
    assert IndexOf(s[1..], '"') == 0;
    ConsAgree(s, RewriteAttributes(prefix, s), RewriteAttributes(prefix, s[1..]), 1);
  }

  /** The empty value `i` characters in is `i - 1` characters into the tail. */
  lemma EmptyValueShift(s: string, i: nat)
    requires 0 < i && i + 1 < |s| && s[i] == '"' && s[i + 1] == '"' && QuoteFreeBefore(s, i)
    ensures i < |s| && s[1..][i - 1] == '"' && s[1..][i] == '"' && QuoteFreeBefore(s[1..], i - 1)
  {
  }

  /** An opening literal whose quote is the last one of the text: the copy is the text itself. */
  lemma LoneQuoteKept(prefix: string, s: string, a: string)
    requires a in Attributes && StartsWith(s, Opening(a))
    requires IndexOf(s[|a| + 2..], '"') == |s| - |a| - 2
    ensures [s[0]] + RewriteAttributes(prefix, s[1..]) == s
  {
    FirstQuoteOfOpening(s, a);
    var rest := s[|a| + 2..];
    assert AtMostOneQuote(s[1..]) by {
      assert forall k :: |a| < k < |s| - 1 ==> s[1..][k] == rest[k - |a| - 1];
      assert forall k :: 0 <= k < |a| ==> s[1..][k] == s[k + 1];
    }
    OneQuoteKept(prefix, s[1..]);
    assert s == [s[0]] + s[1..];
  }

  /** An opening literal followed by `""`: the copied text still has the empty value and no match. */
  lemma EmptyValueAfterOpening(prefix: string, s: string, a: string)
    requires a in Attributes && StartsWith(s, Opening(a))
    requires |a| + 2 < |s| && s[|a| + 2] == '"'
    ensures MatchAttr([s[0]] + RewriteAttributes(prefix, s[1..])) == None
  {
    var y := [s[0]] + RewriteAttributes(prefix, s[1..]);
    FirstQuoteOfOpening(s, a);
    EmptyValueKept(prefix, s[1..], |a|);
    ConsAgree(s, y, RewriteAttributes(prefix, s[1..]), |a| + 2);
    AgreeAt(y, s, |a| + 3);
    NoMatchBeforeEmptyValue(y, |a| + 1);
  }

  /** The case of `NoMatchKept` where the copied tail has a quote. */
  lemma NoMatchKeptAtQuote(prefix: string, s: string, q: nat)
    requires s != [] && MatchAttr(s) == None
    requires q == IndexOf(s[1..], '"') && q < |s| - 1
    requires StartsWith(RewriteAttributes(prefix, s[1..]), s[1..][..q + 1])
    ensures MatchAttr([s[0]] + RewriteAttributes(prefix, s[1..])) == None
  {
    var y := [s[0]] + RewriteAttributes(prefix, s[1..]);
    ConsAgree(s, y, RewriteAttributes(prefix, s[1..]), q + 1);
    AttrNameDecided(s, y, s[..q + 2]);
    if AttrName(s).Some? {
      var a := AttrName(s).value;
      var rest := s[|a| + 2..];
      if IndexOf(rest, '"') == |rest| {
        LoneQuoteKept(prefix, s, a);
      } else {
        EmptyValueAfterOpening(prefix, s, a);
      }
    }
  }

  /** Where the pass found no match, the rewritten text has none either. */
  lemma NoMatchKept(prefix: string, s: string)
    requires s != [] && MatchAttr(s) == None
    ensures MatchAttr([s[0]] + RewriteAttributes(prefix, s[1..])) == None
  {
    var t := s[1..];
    KeepsUpToFirstQuote(prefix, t);
    if IndexOf(t, '"') == |t| {
      assert [s[0]] + t == s;
    } else {
      NoMatchKeptAtQuote(prefix, s, IndexOf(t, '"'));
    }
  }

  /** The text of a match is matched again as the same attribute and value. */
  lemma MatchTextMatches(m: AttrMatch, t: string)
    requires m.attr in Attributes && m.url != [] && '"' !in m.url
    ensures MatchAttr(MatchText(m) + t) == Some(m)
  {
    var s := MatchText(m) + t;
    OpeningQuote(m.attr);
    assert StartsWith(s, Opening(m.attr));
    assert AttrName(s) == Some(m.attr) by {
      if m.attr == "src" { assert s[0] == 's'; }
      if m.attr == "action" { assert s[0] == 'a'; }
    }
    var rest := s[|m.attr| + 2..];
    assert rest == m.url + ['"'] + t;
    var n := IndexOf(rest, '"');
    assert rest[|m.url|] == '"';
    assert forall k :: 0 <= k < |m.url| ==> rest[k] == m.url[k];
    assert rest[..n] == m.url;
  }

  /**
   * One double-quoted attribute value, non-empty and quote-free: it is scoped when it
   * starts with `/` but not `/proxy`, otherwise kept byte for byte, and scanning
   * resumes after its closing quote.
   */
  lemma RewriteOneAttribute(prefix: string, attr: string, url: string, rest: string)
    requires attr in Attributes && url != [] && '"' !in url
    ensures RewriteAttributes(prefix, Opening(attr) + url + "\"" + rest)
            == Opening(attr) + Scoped(prefix, url) + "\"" + RewriteAttributes(prefix, rest)
  {
    var m := AttrMatch(attr, url);
    MatchTextMatches(m, rest);
    assert Opening(attr) + url + "\"" + rest == MatchText(m) + rest;
    assert (MatchText(m) + rest)[|MatchText(m)|..] == rest;
  }

  /** With an empty prefix every piece is the text it was made from, so one step keeps the text. */
  lemma EmptyPrefixStep(s: string)
    requires s != []
    requires RewriteAttributes("", s[Advance(s)..]) == s[Advance(s)..]
    ensures RewriteAttributes("", s) == s
  {
    match MatchAttr(s)
    case Some(m) =>
      assert Scoped("", m.url) == m.url;
      assert Piece("", s) == s[..Advance(s)];
    case None =>
  }

  /** Outside every segment the prefix is empty, and the markup pass then changes nothing. */
  lemma {:induction false} EmptyPrefixKeepsMarkup(s: string)
    ensures RewriteAttributes("", s) == s
    decreases |s|
  {
    if s != [] {
      EmptyPrefixKeepsMarkup(s[Advance(s)..]);
      EmptyPrefixStep(s);
    }
  }

  /** Scoping twice is scoping once, when the prefix is empty or itself under `/proxy`. */
  lemma ScopedIdempotent(prefix: string, url: string)
    requires prefix == "" || StartsWith(prefix, "/proxy")
    ensures Scoped(prefix, Scoped(prefix, url)) == Scoped(prefix, url)
  {
    if StartsWith(url, "/") && !StartsWith(url, "/proxy") && prefix != "" {
      assert (prefix + url)[..6] == prefix[..6];
    }
  }

  /**
   * The markup pass is idempotent: running it on its own output changes nothing,
   * because a prefixed value starts with `/proxy` and an empty prefix keeps the value.
   */
  lemma {:induction false} RewriteAttributesIdempotent(prefix: string, s: string)
    requires prefix == "" || StartsWith(prefix, "/proxy")
    requires '"' !in prefix
    ensures RewriteAttributes(prefix, RewriteAttributes(prefix, s)) == RewriteAttributes(prefix, s)
    decreases |s|
  {
    if s != [] {
      match MatchAttr(s)
      case Some(m) =>
        var rest := s[|MatchText(m)|..];
        RewriteAttributesIdempotent(prefix, rest);
        var url := Scoped(prefix, m.url);
        assert '"' !in url;
        ScopedIdempotent(prefix, m.url);
        RewriteOneAttribute(prefix, m.attr, url, RewriteAttributes(prefix, rest));
        assert RewriteAttributes(prefix, s) == Opening(m.attr) + url + "\"" + RewriteAttributes(prefix, rest);
      case None =>
        var y := RewriteAttributes(prefix, s);
        assert y == [s[0]] + RewriteAttributes(prefix, s[1..]);
        NoMatchKept(prefix, s);
        RewriteAttributesIdempotent(prefix, s[1..]);
        assert y[1..] == RewriteAttributes(prefix, s[1..]);
    }
  }
}
