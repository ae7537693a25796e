/**
 * The script pass, applied only to `application/javascript` bodies:
 * `re.sub(b'new URL\(([^,]+),\s*([^\)]+)\)', b'\2 + \1', body)`.
 * The two-argument constructor `new URL(a, b)` becomes the concatenation `b + a`, so a
 * relative URL resolved against a base is spliced as text and stays under the proxy.
 */
module ScriptRewrite {
  import opened Wrappers
  import opened Text

  /** The literal that opens a match. */
  const Call := "new URL("

  /** The `\s` class of a bytes pattern: space, tab, newline, vertical tab, form feed, carriage return. */
  predicate IsSpace(c: char) {
    c == ' ' || '\t' <= c <= '\r'
  }

  /** Length of the run of `\s` characters at the start of `s`. */
  function SpaceRun(s: string): (n: nat)
    ensures n <= |s|
    ensures forall k :: 0 <= k < n ==> IsSpace(s[k])
    ensures n < |s| ==> !IsSpace(s[n])
  {
    if s != [] && IsSpace(s[0]) then 1 + SpaceRun(s[1..]) else 0
  }

  /** A match: group 1 (the relative URL), group 2 (the base) and the length of the matched text. */
  datatype CallMatch = CallMatch(url: string, base: string, len: nat)

  /** Group 2 and how much of the text after the comma the match takes, through the `)`. */
  datatype BaseMatch = BaseMatch(base: string, len: nat)

  /**
   * The text after the comma: `\s*` takes the leading blanks and group 2, `[^)]+`, runs to
   * the first `)`, which must exist and not come first. When only blanks come before the `)`,
   * `\s*` gives the last one back, because group 2 needs at least one character.
   */
  function MatchBase(after: string): Option<BaseMatch> {
    var j := IndexOf(after, ')');
    if j == 0 || j == |after| then None
    else
      var w := SpaceRun(after);
      var start := if w < j then w else j - 1;
      Some(BaseMatch(after[start..j], j + 1))
  }

  /** The text after the opening literal: group 1, `[^,]+`, runs to the first comma and must be non-empty. */
  function MatchArgs(rest: string): Option<CallMatch> {
    var c := IndexOf(rest, ',');
    if c == 0 || c == |rest| then None
    else
      match MatchBase(rest[c + 1..])
      case None => None
      case Some(b) => Some(CallMatch(rest[..c], b.base, c + 1 + b.len))
  }

  /** The match at the start of `s`, if any. */
  function MatchCall(s: string): Option<CallMatch> {
    if !StartsWith(s, Call) then None
    else
      match MatchArgs(s[|Call|..])
      case None => None
      case Some(m) => Some(CallMatch(m.url, m.base, |Call| + m.len))
  }

  /** The replacement `\2 + \1`. */
  function Replacement(m: CallMatch): string {
    m.base + " + " + m.url
  }

  /** What the scanner emits at the start of `s`: the replacement of a match, or the first character. */
  function Piece(s: string): string
    requires s != []
  {
    match MatchCall(s)
    case Some(m) => Replacement(m)
    case None => [s[0]]
  }

  /** How far the scanner advances at the start of `s`. */
  function Advance(s: string): (n: nat)
    requires s != []
    ensures 1 <= n <= |s|
  {
    match MatchCall(s)
    case Some(m) =>
      CallLength(s);
      m.len
    case None => 1
  }

  /** The whole pass: leftmost matches, non-overlapping, replacement text not rescanned. */
  function RewriteScript(s: string): string
    decreases |s|
  {
    if s == [] then [] else Piece(s) + RewriteScript(s[Advance(s)..])
  }

  /** The pass is gated on the response's `Content-Type` starting with `application/javascript`. */
  function ScriptStage(contentType: string, body: string): (out: string)
    ensures !StartsWith(contentType, "application/javascript") ==> out == body
    ensures StartsWith(contentType, "application/javascript") ==> out == RewriteScript(body)
  {
    if StartsWith(contentType, "application/javascript") then RewriteScript(body) else body
  }

  /** The `re.sub` scanner of the pass. */
  method RewriteScriptScan(s: string) returns (out: string)
    ensures out == RewriteScript(s)
  {
    out := [];
    var rest := s;
    while rest != []
      invariant out + RewriteScript(rest) == RewriteScript(s)
      decreases |rest|
    {
      var piece, n := Piece(rest), Advance(rest);
      AppendAssoc(out, piece, RewriteScript(rest[n..]));
      out, rest := out + piece, rest[n..];
    }
  }

  // ---- Lemmas -------------------------------------------------------------------------

  /** A match spans the opening literal, both groups and the closing parenthesis, within `s`. */
  lemma CallLength(s: string)
    requires MatchCall(s).Some?
    ensures var m := MatchCall(s).value;
            |Call| + |m.url| + 1 + |m.base| + 1 <= m.len <= |s|
  {
  }

  /** Where no call literal starts, the pass copies one character. */
  lemma NoCallStep(s: string)
    requires s != [] && !StartsWith(s, Call)
    ensures RewriteScript(s) == [s[0]] + RewriteScript(s[1..])
  {
  }

  /** Text in which the call literal never starts comes through the pass unchanged. */
  lemma {:induction false} NoCallKept(s: string)
    requires forall k :: 0 <= k < |s| ==> !StartsWith(s[k..], Call)
    ensures RewriteScript(s) == s
    decreases |s|
  {
    if s != [] {
      assert !StartsWith(s, Call) by { assert s[0..] == s; }
      NoCallStep(s);
      assert forall k :: 0 <= k < |s| - 1 ==> s[1..][k..] == s[k + 1..];
      NoCallKept(s[1..]);
      assert s == [s[0]] + s[1..];
    }
  }

  /** The stage leaves a body without `new URL(` alone, whatever its content type. */
  lemma ScriptStageNoCall(contentType: string, body: string)
    requires forall k :: 0 <= k < |body| ==> !StartsWith(body[k..], Call)
    ensures ScriptStage(contentType, body) == body
  {
    NoCallKept(body);
  }

  /** A base that does not start with a blank is group 2, whatever blanks precede it. */
  lemma MatchBaseOf(ws: string, base: string, t: string)
    requires forall k :: 0 <= k < |ws| ==> IsSpace(ws[k])
    requires base != [] && ')' !in base && !IsSpace(base[0])
    ensures MatchBase(ws + base + [')'] + t) == Some(BaseMatch(base, |ws| + |base| + 1))
  {
    var after := ws + base + [')'] + t;
    assert forall k :: 0 <= k < |ws| ==> after[k] == ws[k];
    assert forall k :: 0 <= k < |base| ==> after[|ws| + k] == base[k];
    assert after[|ws| + |base|] == ')';
    assert IndexOf(after, ')') == |ws| + |base|;
    assert after[|ws|] == base[0];
    assert SpaceRun(after) == |ws|;
    assert after[|ws|..|ws| + |base|] == base;
  }

  /** With only blanks before the `)`, group 2 is the last blank. */
  lemma MatchBaseBlank(ws: string, t: string)
    requires ws != [] && forall k :: 0 <= k < |ws| ==> IsSpace(ws[k])
    ensures MatchBase(ws + [')'] + t) == Some(BaseMatch([ws[|ws| - 1]], |ws| + 1))
  {
    var after := ws + [')'] + t;
    assert forall k :: 0 <= k < |ws| ==> after[k] == ws[k];
    assert after[|ws|] == ')';
    assert IndexOf(after, ')') == |ws|;
    assert SpaceRun(after) == |ws|;
    assert after[|ws| - 1..|ws|] == [ws[|ws| - 1]];
  }

  /** The first comma after a comma-free `url` is the one that follows it. */
  lemma FirstComma(url: string, after: string)
    requires ',' !in url
    ensures IndexOf(url + [','] + after, ',') == |url|
    ensures (url + [','] + after)[..|url|] == url && (url + [','] + after)[|url| + 1..] == after
  {
    var rest := url + [','] + after;
    assert forall k :: 0 <= k < |url| ==> rest[k] == url[k];
    assert rest[|url|] == ',';
  }

  /** Group 1 is the comma-free text before the first comma; the rest is matched as the base. */
  lemma MatchArgsOf(url: string, after: string, b: BaseMatch)
    requires url != [] && ',' !in url && MatchBase(after) == Some(b)
    ensures MatchArgs(url + [','] + after) == Some(CallMatch(url, b.base, |url| + 1 + b.len))
  {
    FirstComma(url, after);
  }

  /** A text that opens with the call literal is matched on what follows it. */
  lemma MatchCallOf(rest: string, m: CallMatch)
    requires MatchArgs(rest) == Some(m)
    ensures MatchCall(Call + rest) == Some(CallMatch(m.url, m.base, |Call| + m.len))
  {
    assert (Call + rest)[..|Call|] == Call;
    assert (Call + rest)[|Call|..] == rest;
  }

  /** The match of a well-formed call with a base that does not start with a blank. */
  lemma MatchOfCall(url: string, ws: string, base: string, t: string)
    requires url != [] && ',' !in url
    requires forall k :: 0 <= k < |ws| ==> IsSpace(ws[k])
    requires base != [] && ')' !in base && !IsSpace(base[0])
    ensures MatchCall(Call + (url + [','] + (ws + base + [')'] + t)))
            == Some(CallMatch(url, base, |Call| + |url| + 1 + |ws| + |base| + 1))
  {
    var after := ws + base + [')'] + t;
    var b := BaseMatch(base, |ws| + |base| + 1);
    MatchBaseOf(ws, base, t);
    MatchArgsOf(url, after, b);
    var m := CallMatch(url, base, |url| + 1 + b.len);
    var rest := url + [','] + after;
    MatchCallOf(rest, m);
    assert Call + rest == Call + (url + [','] + (ws + base + [')'] + t));
    assert CallMatch(m.url, m.base, |Call| + m.len) == CallMatch(url, base, |Call| + |url| + 1 + |ws| + |base| + 1);
  }

  /** The match of a call with only blanks between the comma and the `)`. */
  lemma MatchOfBlankCall(url: string, ws: string, t: string)
    requires url != [] && ',' !in url
    requires ws != [] && forall k :: 0 <= k < |ws| ==> IsSpace(ws[k])
    ensures MatchCall(Call + (url + [','] + (ws + [')'] + t)))
            == Some(CallMatch(url, [ws[|ws| - 1]], |Call| + |url| + 1 + |ws| + 1))
  {
    var after := ws + [')'] + t;
    var b := BaseMatch([ws[|ws| - 1]], |ws| + 1);
    MatchBaseBlank(ws, t);
    MatchArgsOf(url, after, b);
    var m := CallMatch(url, b.base, |url| + 1 + b.len);
    var rest := url + [','] + after;
    MatchCallOf(rest, m);
    assert Call + rest == Call + (url + [','] + (ws + [')'] + t));
    assert CallMatch(m.url, m.base, |Call| + m.len) == CallMatch(url, [ws[|ws| - 1]], |Call| + |url| + 1 + |ws| + 1);
  }

  /** A match is replaced by `base + url`, and the pass goes on with the text after it. */
  lemma MatchedStep(s: string, m: CallMatch, t: string)
    requires MatchCall(s) == Some(m) && s[m.len..] == t
    ensures RewriteScript(s) == m.base + " + " + m.url + RewriteScript(t)
  {
  }

  /** What follows a call text of the given length is the rest of the text. */
  lemma DropCall(url: string, mid: string, t: string)
    ensures (Call + (url + [','] + (mid + t)))[|Call| + |url| + 1 + |mid|..] == t
  {
    assert Call + (url + [','] + (mid + t)) == (Call + url + [','] + mid) + t;
  }

  /**
   * One call `new URL(url, base)` with a comma-free first argument and a base that has no
   * `)` and does not start with a blank: it becomes `base + url`, and scanning resumes
   * after the closing parenthesis.
   */
  lemma RewriteOneCall(url: string, ws: string, base: string, t: string)
    requires url != [] && ',' !in url
    requires forall k :: 0 <= k < |ws| ==> IsSpace(ws[k])
    requires base != [] && ')' !in base && !IsSpace(base[0])
    ensures RewriteScript(Call + (url + [','] + (ws + base + [')'] + t)))
            == base + " + " + url + RewriteScript(t)
  {
    MatchOfCall(url, ws, base, t);
    DropCall(url, ws + base + [')'], t);
    MatchedStep(Call + (url + [','] + (ws + base + [')'] + t)),
                CallMatch(url, base, |Call| + |url| + 1 + |ws| + |base| + 1), t);
  }

  /**
   * When only blanks stand between the comma and the `)`, group 2 is the last blank:
   * the call becomes that blank followed by ` + url`.
   */
  lemma RewriteBlankBase(url: string, ws: string, t: string)
    requires url != [] && ',' !in url
    requires ws != [] && forall k :: 0 <= k < |ws| ==> IsSpace(ws[k])
    ensures RewriteScript(Call + (url + [','] + (ws + [')'] + t)))
            == [ws[|ws| - 1]] + " + " + url + RewriteScript(t)
  {
    MatchOfBlankCall(url, ws, t);
    DropCall(url, ws + [')'], t);
    MatchedStep(Call + (url + [','] + (ws + [')'] + t)),
                CallMatch(url, [ws[|ws| - 1]], |Call| + |url| + 1 + |ws| + 1), t);
  }

  /** A call with no comma after its opening literal is not a match: the text is copied on. */
  lemma NoCommaNoMatch(s: string)
    requires StartsWith(s, Call) && ',' !in s
    ensures RewriteScript(s) == [s[0]] + RewriteScript(s[1..])
  {
    assert forall k :: 0 <= k < |s| - |Call| ==> s[|Call|..][k] == s[|Call| + k];
    assert IndexOf(s[|Call|..], ',') == |s| - |Call|;
  }
}
