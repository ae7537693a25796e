/**
 * The replacement template of `re.sub`. A replacement given as text is not inserted as it
 * stands: `re` first parses it, reading `\` as the start of an escape or a group reference,
 * and raises when the template is malformed. This module models that parse for a pattern
 * with no groups, which is what the origin patterns `https?://<netloc>` are.
 */
module ReTemplate {
  import opened Wrappers

  /** One piece of a parsed template: a literal character, or the whole match (`\g<0>`). */
  datatype Piece = Lit(c: char) | Whole

  predicate IsDigit(c: char) {
    '0' <= c <= '9'
  }

  predicate IsOctal(c: char) {
    '0' <= c <= '7'
  }

  predicate IsAsciiLetter(c: char) {
    'a' <= c <= 'z' || 'A' <= c <= 'Z'
  }

  function DigitValue(c: char): nat
    requires IsDigit(c)
  {
    c as int - '0' as int
  }

  /** The one-character escapes a template accepts: `\a \b \f \n \r \t \v \\`. */
  function EscapeOf(c: char): Option<char> {
    if c == 'a' then Some(7 as char)
    else if c == 'b' then Some(8 as char)
    else if c == 'f' then Some(12 as char)
    else if c == 'n' then Some('\n')
    else if c == 'r' then Some('\r')
    else if c == 't' then Some('\t')
    else if c == 'v' then Some(11 as char)
    else if c == '\\' then Some('\\')
    else None
  }

  /** Position of the first `>` in `s`, or `|s|` when there is none. */
  function NameEnd(s: string): (k: nat)
    ensures k <= |s|
    ensures k < |s| ==> s[k] == '>'
    ensures forall j :: 0 <= j < k ==> s[j] != '>'
  {
    if s == [] then 0
    else if s[0] == '>' then 0
    else 1 + NameEnd(s[1..])
  }

  /** A group name that denotes group 0: ASCII digits, all of them `0`. */
  predicate NamesWholeMatch(name: string) {
    name != [] && forall j :: 0 <= j < |name| ==> name[j] == '0'
  }

  /** Prepend a piece to a parse, keeping a failure a failure. */
  function Cons(p: Piece, r: Option<seq<Piece>>): Option<seq<Piece>> {
    match r
    case None => None
    case Some(ps) => Some([p] + ps)
  }

  /**
   * `re`'s parse of a replacement template for a pattern without groups, `None` where it
   * raises:
   *  - a `\` at the very end is a bad escape;
   *  - `\g<name>` is the whole match when the name is all zeros; any other name is a
   *    group the pattern does not have, and a missing `<` or `>` is an error;
   *  - `\0` takes up to two more octal digits and is that character;
   *  - `\1`..`\9` is a group reference, and so an error, unless it starts three octal
   *    digits, which denote a character when their value is at most 0o377;
   *  - `\a \b \f \n \r \t \v \\` are the usual characters;
   *  - `\` before any other ASCII letter is a bad escape, and before anything else it
   *    is kept together with the character after it.
   */
  function ParseTemplate(t: string): Option<seq<Piece>>
    decreases |t|
  {
    if t == [] then Some([])
    else if t[0] != '\\' then Cons(Lit(t[0]), ParseTemplate(t[1..]))
    else if |t| == 1 then None
    else
      var c := t[1];
      if c == 'g' then
        if |t| < 3 || t[2] != '<' then None
        else
          var k := NameEnd(t[3..]);
          if k == |t[3..]| || !NamesWholeMatch(t[3..][..k]) then None
          else Cons(Whole, ParseTemplate(t[3..][k + 1..]))
      else if c == '0' then
        if |t| >= 3 && IsOctal(t[2]) then
          if |t| >= 4 && IsOctal(t[3]) then
            Cons(Lit((8 * DigitValue(t[2]) + DigitValue(t[3])) as char), ParseTemplate(t[4..]))
          else Cons(Lit(DigitValue(t[2]) as char), ParseTemplate(t[3..]))
        else Cons(Lit(0 as char), ParseTemplate(t[2..]))
      else if IsDigit(c) then
        if |t| >= 4 && IsOctal(c) && IsOctal(t[2]) && IsOctal(t[3]) then
          var v := 64 * DigitValue(c) + 8 * DigitValue(t[2]) + DigitValue(t[3]);
          if v > 255 then None else Cons(Lit(v as char), ParseTemplate(t[4..]))
        else None
      else
        match EscapeOf(c)
        case Some(e) => Cons(Lit(e), ParseTemplate(t[2..]))
        case None =>
          if IsAsciiLetter(c) then None
          else Cons(Lit('\\'), Cons(Lit(c), ParseTemplate(t[2..])))
  }

  /** The pieces that stand for `t` taken literally. */
  function Lits(t: string): seq<Piece> {
    if t == [] then [] else [Lit(t[0])] + Lits(t[1..])
  }

  /** What a parsed template produces for one match. */
  function Expand(pieces: seq<Piece>, matched: string): string {
    if pieces == [] then []
    else
      (match pieces[0]
       case Lit(c) => [c]
       case Whole => matched)
      + Expand(pieces[1..], matched)
  }

  /** `t` with every `\` doubled, so that `re` reads it back as `t`. */
  function EscapeTemplate(t: string): string {
    if t == [] then []
    else if t[0] == '\\' then "\\\\" + EscapeTemplate(t[1..])
    else [t[0]] + EscapeTemplate(t[1..])
  }

  // ---- Lemmas -------------------------------------------------------------------------

  /** A template without `\` parses into its own characters. */
  lemma {:induction false} LiteralTemplate(t: string)
    requires '\\' !in t
    ensures ParseTemplate(t) == Some(Lits(t))
  {
    if t != [] {
      assert t[0] in t;
      assert forall c :: c in t[1..] ==> c in t;
      LiteralTemplate(t[1..]);
    }
  }

  /** A prefix without `\` parses into its own characters in front of the parse of the rest. */
  lemma {:induction false} ParseLiteralPrefix(x: string, y: string)
    requires '\\' !in x
    ensures ParseTemplate(x + y) == (if ParseTemplate(y).None? then None else Some(Lits(x) + ParseTemplate(y).value))
  {
    if x != [] {
      assert x[0] in x;
      assert forall c :: c in x[1..] ==> c in x;
      assert (x + y)[0] == x[0];
      assert (x + y)[1..] == x[1..] + y;
      ParseLiteralPrefix(x[1..], y);
      if ParseTemplate(y).Some? {
        var v := ParseTemplate(y).value;
        assert [Lit(x[0])] + (Lits(x[1..]) + v) == Lits(x) + v;
      }
    } else {
      assert x + y == y;
      assert Lits(x) == [];
      if ParseTemplate(y).Some? {
        assert Lits(x) + ParseTemplate(y).value == ParseTemplate(y).value;
      }
    }
  }

  /** The literal pieces of `t` expand to `t`, whatever was matched. */
  lemma {:induction false} ExpandLits(t: string, matched: string)
    ensures Expand(Lits(t), matched) == t
  {
    if t != [] {
      assert Lits(t)[1..] == Lits(t[1..]);
      ExpandLits(t[1..], matched);
    }
  }

  /** Any text, once its backslashes are doubled, parses back into its own characters. */
  lemma {:induction false} EscapedTemplateLiteral(t: string)
    ensures ParseTemplate(EscapeTemplate(t)) == Some(Lits(t))
  {
    if t != [] {
      EscapedTemplateLiteral(t[1..]);
      var e := EscapeTemplate(t);
      if t[0] == '\\' {
        assert e[0] == '\\' && e[1] == '\\' && e[2..] == EscapeTemplate(t[1..]);
      } else {
        assert e[0] == t[0] && e[1..] == EscapeTemplate(t[1..]);
      }
    }
  }

  /**
   * A group reference `\1`..`\9` not followed by a digit names a group the pattern does
   * not have, so the whole template is refused, whatever stands before or after it.
   */
  lemma GroupReferenceRaises(x: string, d: char, y: string)
    requires '\\' !in x && '1' <= d <= '9'
    requires y == [] || !IsDigit(y[0])
    ensures ParseTemplate(x + ['\\', d] + y) == None
  {
    var t := ['\\', d] + y;
    assert t[0] == '\\' && t[1] == d && |t| >= 2;
    assert |t| >= 4 ==> t[2] == y[0];
    assert ParseTemplate(t) == None;
    assert x + ['\\', d] + y == x + t;
    ParseLiteralPrefix(x, t);
  }

  /** `\g<0>` stands for the whole match. */
  lemma WholeMatchTemplate(x: string, y: string)
    requires '\\' !in x && '\\' !in y
    ensures ParseTemplate(x + "\\g<0>" + y) == Some(Lits(x) + [Whole] + Lits(y))
  {
    var t := "\\g<0>" + y;
    assert t[3..][..1] == "0" && t[3..][1] == '>';
    assert NameEnd(t[3..]) == 1;
    assert t[3..][2..] == y;
    LiteralTemplate(y);
    assert ParseTemplate(t) == Some([Whole] + Lits(y));
    assert x + "\\g<0>" + y == x + t;
    ParseLiteralPrefix(x, t);
    assert Lits(x) + ([Whole] + Lits(y)) == Lits(x) + [Whole] + Lits(y);
  }
}
