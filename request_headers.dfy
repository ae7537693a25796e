/**
 * Cleaning of the request headers before they are forwarded to the backend: the `host`
 * header is dropped, and the pieces of the `cookie` header between `"; "` separators that
 * start with `proxy_access_token=` are filtered out while every other piece is kept, in
 * order. How the application itself reads the header, and where the two disagree, follows.
 */
module RequestHeaders {
  import opened Text
  import opened Session

  /** The separator the `cookie` header is split on and rejoined with. */
  const CookieSep := "; "

  /** Pieces of the cookie header that carry the proxy's own token. */
  predicate IsSessionPiece(c: string) {
    StartsWith(c, SessionCookie + "=")
  }

  /** The list comprehension of the handler: the pieces that are not the session cookie, in order. */
  function KeepForwardable(pieces: seq<string>): seq<string> {
    if pieces == [] then []
    else
      var last := pieces[|pieces| - 1];
      KeepForwardable(pieces[..|pieces| - 1]) + (if IsSessionPiece(last) then [] else [last])
  }

  /** The cookie header value that is forwarded: the kept pieces rejoined, or `""` when none is left. */
  function ForwardedCookie(h: string): string {
    var kept := KeepForwardable(Split(h, CookieSep));
    if kept != [] then Join(kept, CookieSep) else ""
  }

  /** The filter as a loop over the pieces. */
  method FilterCookies(pieces: seq<string>) returns (kept: seq<string>)
    ensures kept == KeepForwardable(pieces)
  {
    kept := [];
    for i := 0 to |pieces|
      invariant kept == KeepForwardable(pieces[..i])
    {
      assert pieces[..i + 1][..i] == pieces[..i];
      if !IsSessionPiece(pieces[i]) {
        kept := kept + [pieces[i]];
      }
    }
    assert pieces[..|pieces|] == pieces;
  }

  /**
   * The headers forwarded for `request`: both spellings of the host header removed, and a
   * `cookie` header replaced by its filtered value (kept even when that is empty).
   */
  function CleanedHeaders(request: map<string, string>): map<string, string> {
    var headers := request - {"host", "Host"};
    if "cookie" in headers then headers["cookie" := ForwardedCookie(headers["cookie"])] else headers
  }

  /** The header cleaning of the handler: two removals, then the cookie filter in place. */
  method CleanRequestHeaders(request: map<string, string>) returns (headers: map<string, string>)
    ensures headers == CleanedHeaders(request)
  {
    headers := request - {"host"};
    headers := headers - {"Host"};
    if "cookie" in headers {
      var pieces := Split(headers["cookie"], CookieSep);
      var kept := FilterCookies(pieces);
      headers := headers["cookie" := if kept != [] then Join(kept, CookieSep) else ""];
    }
    assert headers == CleanedHeaders(request);
  }

  // ---- Re-parsing the forwarded header ----------------------------------------------------

  /** A piece without the separator in it. */
  predicate NoSep(p: string) {
    forall i :: 0 <= i < |p| - 1 ==> !(p[i] == ';' && p[i + 1] == ' ')
  }

  /** Text without a separator splits into itself. */
  lemma {:induction false} SplitFree(p: string)
    requires NoSep(p)
    ensures Split(p, CookieSep) == [p]
    decreases |p|
  {
    if |p| >= 2 {
      assert p[..2] != CookieSep by { assert !(p[0] == ';' && p[1] == ' '); }
      SplitFree(p[1..]);
      assert [p[0]] + p[1..] == p;
    }
  }

  /** A separator-free piece followed by the separator splits off as the first piece. */
  lemma {:induction false} SplitPrepend(p: string, rest: string)
    requires NoSep(p)
    ensures Split(p + CookieSep + rest, CookieSep) == [p] + Split(rest, CookieSep)
    decreases |p|
  {
    if p == [] {
      assert p + CookieSep + rest == CookieSep + rest;
      assert (CookieSep + rest)[2..] == rest;
    } else {
      var s := p + CookieSep + rest;
      assert s[..2] != CookieSep by {
        if |p| >= 2 {
          assert s[0] == p[0] && s[1] == p[1];
          assert !(p[0] == ';' && p[1] == ' ');
        } else {
          assert s[1] == ';';
        }
      }
      assert s[1..] == p[1..] + CookieSep + rest;
      SplitPrepend(p[1..], rest);
      assert [p[0]] + p[1..] == p;
    }
  }

  /** Joining separator-free pieces and splitting again gives back the pieces. */
  lemma {:induction false} SplitJoinInverse(parts: seq<string>)
    requires |parts| >= 1
    requires forall k :: 0 <= k < |parts| ==> NoSep(parts[k])
    ensures Split(Join(parts, CookieSep), CookieSep) == parts
    decreases |parts|
  {
    if |parts| == 1 {
      SplitFree(parts[0]);
    } else {
      SplitJoinInverse(parts[1..]);
      SplitPrepend(parts[0], Join(parts[1..], CookieSep));
      assert [parts[0]] + parts[1..] == parts;
    }
  }

  /** Every piece of a split is free of the separator. */
  lemma {:induction false} SplitPiecesFree(s: string)
    ensures forall k :: 0 <= k < |Split(s, CookieSep)| ==> NoSep(Split(s, CookieSep)[k])
    decreases |s|
  {
    if |s| < 2 {
    } else if s[..2] == CookieSep {
      SplitPiecesFree(s[2..]);
    } else {
      SplitPiecesFree(s[1..]);
      SplitFirstIsPrefix(s[1..], CookieSep);
      var rest := Split(s[1..], CookieSep);
      var first := [s[0]] + rest[0];
      assert NoSep(first) by {
        assert NoSep(rest[0]);
        if |rest[0]| >= 1 {
          assert first[1] == s[1] && first[0] == s[0];
          assert !(first[0] == ';' && first[1] == ' ') by { assert s[..2] != CookieSep; }
        }
        forall i | 1 <= i < |first| - 1
          ensures !(first[i] == ';' && first[i + 1] == ' ')
        {
          assert first[i] == rest[0][i - 1] && first[i + 1] == rest[0][i];
        }
      }
      forall k | 1 <= k < |Split(s, CookieSep)|
        ensures Split(s, CookieSep)[k] == rest[k]
      {
      }
    }
  }

  // ---- Properties of the cleaning -------------------------------------------------------

  /**
   * What is forwarded: no host header, a `cookie` header exactly when the request had one,
   * and every other header as it came.
   */
  lemma CleanedHeadersShape(request: map<string, string>)
    ensures CleanedHeaders(request).Keys == request.Keys - {"host", "Host"}
    ensures forall k :: k in CleanedHeaders(request) && k != "cookie" ==> CleanedHeaders(request)[k] == request[k]
    ensures "cookie" in request ==> CleanedHeaders(request)["cookie"] == ForwardedCookie(request["cookie"])
  {
  }

  /** The forwarded headers carry no host header and no `"; "`-separated cookie piece starting with `proxy_access_token=`. */
  lemma CleanedHeadersCarryNoSession(request: map<string, string>)
    ensures "host" !in CleanedHeaders(request) && "Host" !in CleanedHeaders(request)
    ensures "cookie" in CleanedHeaders(request) ==>
              forall c :: c in Split(CleanedHeaders(request)["cookie"], CookieSep) ==> !IsSessionPiece(c)
  {
    if "cookie" in request {
      ForwardedCookieReparses(request["cookie"]);
    }
  }

  /**
   * The forwarded cookie header re-parses into exactly the kept pieces, in their original
   * order, so none of its `"; "`-separated pieces starts with `proxy_access_token=`; when
   * every piece was dropped it is `""`.
   */
  lemma ForwardedCookieReparses(h: string)
    ensures KeepForwardable(Split(h, CookieSep)) == [] ==> ForwardedCookie(h) == ""
    ensures KeepForwardable(Split(h, CookieSep)) != [] ==>
              Split(ForwardedCookie(h), CookieSep) == KeepForwardable(Split(h, CookieSep))
    ensures forall c :: c in Split(ForwardedCookie(h), CookieSep) ==> !IsSessionPiece(c)
  {
    var pieces := Split(h, CookieSep);
    var kept := KeepForwardable(pieces);
    if kept != [] {
      SplitPiecesFree(h);
      KeepForwardableMembers(pieces);
      forall k | 0 <= k < |kept|
        ensures NoSep(kept[k])
      {
        assert kept[k] in pieces;
      }
      SplitJoinInverse(kept);
    } else {
      assert Split("", CookieSep) == [""];
    }
  }

  /** A cookie header without the session cookie is forwarded unchanged. */
  lemma ForwardedCookieUnchanged(h: string)
    requires forall c :: c in Split(h, CookieSep) ==> !IsSessionPiece(c)
    ensures ForwardedCookie(h) == h
  {
    var pieces := Split(h, CookieSep);
    assert forall k :: 0 <= k < |pieces| ==> pieces[k] in pieces;
    KeepAll(pieces);
    JoinSplit(h, CookieSep);
  }

  /** The filter keeps exactly the pieces that are not the session cookie. */
  lemma {:induction false} KeepForwardableMembers(pieces: seq<string>)
    ensures |KeepForwardable(pieces)| <= |pieces|
    ensures forall c :: c in KeepForwardable(pieces) <==> c in pieces && !IsSessionPiece(c)
  {
    if pieces != [] {
      var n := |pieces| - 1;
      KeepForwardableMembers(pieces[..n]);
      assert pieces == pieces[..n] + [pieces[n]];
    }
  }

  /** The filter keeps a list without session pieces whole. */
  lemma {:induction false} KeepAll(pieces: seq<string>)
    requires forall k :: 0 <= k < |pieces| ==> !IsSessionPiece(pieces[k])
    ensures KeepForwardable(pieces) == pieces
  {
    if pieces != [] {
      var n := |pieces| - 1;
      KeepAll(pieces[..n]);
      assert pieces[..n] + [pieces[n]] == pieces;
    }
  }

  // ---- How the application reads the cookie header ------------------------------------

  /**
   * One `;`-separated chunk as Starlette's `cookie_parser` reads it: name and value split at
   * the first `=` and both stripped; a chunk without `=` is a value with an empty name.
   */
  function ChunkCookie(chunk: string): (string, string) {
    var i := IndexOf(chunk, '=');
    if i < |chunk| then (Strip(chunk[..i]), Strip(chunk[i + 1..])) else ("", Strip(chunk))
  }

  /**
   * The cookies of the chunks, each read by `parse`: a later chunk overwrites an earlier
   * one, and a chunk with neither name nor value is skipped.
   */
  function CookieMap(chunks: seq<string>, parse: string -> (string, string)): map<string, string> {
    if chunks == [] then map[]
    else
      var c := parse(chunks[|chunks| - 1]);
      var m := CookieMap(chunks[..|chunks| - 1], parse);
      if c.0 != "" || c.1 != "" then m[c.0 := c.1] else m
  }

  /** `request.cookies`: the `cookie` header split at every `;`, each chunk read by `cookie_parser`. */
  function RequestCookies(h: string): map<string, string> {
    CookieMap(Split(h, [';']), ChunkCookie)
  }

  /**
   * The filter as written splits only at `"; "`: a session cookie behind a bare `;` stays
   * in the forwarded header, where the backend reads it just as the gate does.
   */
  lemma SemicolonSessionLeaks(token: string)
    requires ';' !in token
    ensures ForwardedCookie("a=1" + ";" + SessionCookie + "=" + token) == "a=1" + ";" + SessionCookie + "=" + token
    ensures SessionCookie in RequestCookies("a=1" + ";" + SessionCookie + "=" + token)
    ensures RequestCookies("a=1" + ";" + SessionCookie + "=" + token)[SessionCookie] == Strip(token)
  {
    SessionCookieName();
    assert ';' !in "a=1" && "a=1" != [] && "a=1"[0] != 'p';
    BareSemicolonLeaks("a=1", token);
  }

  /** The name of the session cookie holds no `;` and no `=`, starts with `p`, and has no blanks to strip. */
  lemma SessionCookieName()
    ensures ';' !in SessionCookie && '=' !in SessionCookie
    ensures SessionCookie[0] == 'p' && Strip(SessionCookie) == SessionCookie
  {
    SessionCookieStart();
    SessionCookieLetters();
    Absent(SessionCookie, ';');
    Absent(SessionCookie, '=');
    NothingToStrip(SessionCookie);
  }

  lemma SessionCookieStart()
    ensures SessionCookie[0] == 'p' && SessionCookie[|SessionCookie| - 1] == 'n'
  {
  }

  lemma Absent(s: string, c: char)
    requires forall k :: 0 <= k < |s| ==> s[k] != c
    ensures c !in s
  {
  }

  /** The session cookie's name is made of lower-case letters and underscores. */
  lemma SessionCookieLetters()
    ensures forall k :: 0 <= k < |SessionCookie| ==> 'a' <= SessionCookie[k] <= 'z' || SessionCookie[k] == '_'
  {
  }

  /** Text that neither starts nor ends with a blank is its own `strip()`. */
  lemma NothingToStrip(s: string)
    requires s != [] && !IsBlank(s[0]) && !IsBlank(s[|s| - 1])
    ensures Strip(s) == s
  {
  }

  /** Any cookie without `;` in front of a bare `;` and the session cookie gives the same leak. */
  lemma BareSemicolonLeaks(other: string, token: string)
    requires ';' !in other && ';' !in token && other != [] && other[0] != 'p'
    requires ';' !in SessionCookie && '=' !in SessionCookie
    requires SessionCookie[0] == 'p' && Strip(SessionCookie) == SessionCookie
    ensures ForwardedCookie(other + ";" + SessionCookie + "=" + token) == other + ";" + SessionCookie + "=" + token
    ensures SessionCookie in RequestCookies(other + ";" + SessionCookie + "=" + token)
    ensures RequestCookies(other + ";" + SessionCookie + "=" + token)[SessionCookie] == Strip(token)
  {
    var chunk := SessionCookie + ("=" + token);
    var h := other + [';'] + chunk;
    assert other + ";" + SessionCookie + "=" + token == h;
    assert ';' !in chunk;
    BareSemicolonNoSep(other, chunk);
    assert !IsSessionPiece(h) by { assert h[0] == other[0]; }
    ForwardedWhole(h);
    SplitCharPrepend(other, ';', chunk);
    SplitCharFree(chunk, ';');
    assert Split(h, [';']) == [other, chunk];
    assert [other, chunk][..1] == [other];
    ChunkOf(SessionCookie, token);
  }

  /** Text with a single `;`, not followed by a blank, holds no `"; "`. */
  lemma BareSemicolonNoSep(other: string, chunk: string)
    requires ';' !in other && ';' !in chunk && chunk != [] && chunk[0] != ' '
    ensures NoSep(other + [';'] + chunk)
  {
    var h := other + [';'] + chunk;
    forall i | 0 <= i < |h| - 1
      ensures !(h[i] == ';' && h[i + 1] == ' ')
    {
      if i < |other| {
        assert h[i] == other[i];
      } else if i > |other| {
        assert h[i] == chunk[i - |other| - 1];
      } else {
        assert h[i + 1] == chunk[0];
      }
    }
  }

  /** A header without `"; "` that does not start with the session cookie is forwarded whole. */
  lemma ForwardedWhole(h: string)
    requires NoSep(h) && !IsSessionPiece(h)
    ensures ForwardedCookie(h) == h
  {
    SplitFree(h);
    assert [h][..0] == [];
    assert KeepForwardable([h]) == [h];
  }

  /** A chunk `<name>=<value>` is read as that name, with the value stripped, when the name has no `=` and no blanks to strip. */
  lemma ChunkOf(name: string, value: string)
    requires '=' !in name && Strip(name) == name
    ensures ChunkCookie(name + ("=" + value)) == (name, Strip(value))
  {
    FirstEquals(name, value);
    ChunkWithEquals(name + ("=" + value));
  }

  /** The first `=` of `<name>=<value>` is the one after the name, when the name has none. */
  lemma FirstEquals(name: string, value: string)
    requires '=' !in name
    ensures var chunk := name + ("=" + value);
      IndexOf(chunk, '=') == |name| < |chunk| && chunk[..|name|] == name && chunk[|name| + 1..] == value
  {
    var chunk := name + ("=" + value);
    assert ("=" + value)[0] == '=';
    IndexOfAfter(name, "=" + value, '=');
    assert chunk[..|name|] == name;
    assert chunk[|name| + 1..] == value;
  }

  /** A chunk with an `=` is read as the stripped text on either side of its first `=`. */
  lemma ChunkWithEquals(chunk: string)
    requires IndexOf(chunk, '=') < |chunk|
    ensures ChunkCookie(chunk) == (Strip(chunk[..IndexOf(chunk, '=')]), Strip(chunk[IndexOf(chunk, '=') + 1..]))
  {
  }

  // ---- The filter as intended ------------------------------------------------------------

  /** A chunk that the application reads as its session cookie. */
  predicate IsSessionChunk(chunk: string) {
    ChunkCookie(chunk).0 == SessionCookie
  }

  /** The chunks `drop` does not hold for, in order. */
  function KeepUnless(chunks: seq<string>, drop: string -> bool): seq<string> {
    if chunks == [] then []
    else
      var last := chunks[|chunks| - 1];
      KeepUnless(chunks[..|chunks| - 1], drop) + (if drop(last) then [] else [last])
  }

  /**
   * The filter as intended: split the header where the application splits it, drop every
   * chunk it reads as the session cookie, and rejoin the rest (or forward `""`).
   */
  function DropSessionCookie(h: string): string {
    var kept := KeepUnless(Split(h, [';']), IsSessionChunk);
    if kept != [] then Join(kept, [';']) else ""
  }

  /** The kept chunks are exactly those `drop` does not hold for. */
  lemma {:induction false} KeepUnlessMembers(chunks: seq<string>, drop: string -> bool)
    ensures forall c :: c in KeepUnless(chunks, drop) <==> c in chunks && !drop(c)
  {
    if chunks != [] {
      var n := |chunks| - 1;
      KeepUnlessMembers(chunks[..n], drop);
      assert chunks == chunks[..n] + [chunks[n]];
    }
  }

  /** A list none of whose chunks `drop` holds for is kept whole. */
  lemma {:induction false} KeepUnlessAll(chunks: seq<string>, drop: string -> bool)
    requires forall k :: 0 <= k < |chunks| ==> !drop(chunks[k])
    ensures KeepUnless(chunks, drop) == chunks
  {
    if chunks != [] {
      var n := |chunks| - 1;
      assert forall k :: 0 <= k < n ==> chunks[..n][k] == chunks[k];
      KeepUnlessAll(chunks[..n], drop);
      assert chunks[..n] + [chunks[n]] == chunks;
    }
  }

  /** Dropping the chunks read as `key` removes `key` and leaves every other cookie as it was read. */
  lemma {:induction false} CookieMapWithout(chunks: seq<string>, parse: string -> (string, string),
                                            drop: string -> bool, key: string)
    requires forall c :: drop(c) <==> parse(c).0 == key
    ensures CookieMap(KeepUnless(chunks, drop), parse) == CookieMap(chunks, parse) - {key}
  {
    if chunks != [] {
      var n := |chunks| - 1;
      CookieMapWithout(chunks[..n], parse, drop, key);
      assert chunks == chunks[..n] + [chunks[n]];
      if drop(chunks[n]) {
        DroppedChunkStep(chunks[..n], chunks[n], parse, drop, key);
      } else {
        KeptChunkStep(chunks[..n], chunks[n], parse, drop, key);
      }
    }
  }

  /** A dropped chunk sets `key`, which is removed anyway. */
  lemma DroppedChunkStep(init: seq<string>, last: string, parse: string -> (string, string),
                         drop: string -> bool, key: string)
    requires drop(last) && parse(last).0 == key
    requires CookieMap(KeepUnless(init, drop), parse) == CookieMap(init, parse) - {key}
    ensures CookieMap(KeepUnless(init + [last], drop), parse) == CookieMap(init + [last], parse) - {key}
  {
    var chunks := init + [last];
    assert chunks[..|chunks| - 1] == init;
    var kept := KeepUnless(init, drop);
    assert KeepUnless(chunks, drop) == kept + [];
    assert kept + [] == kept;
    RemoveUpdated(CookieMap(init, parse), key, parse(last).1);
  }

  /** A kept chunk sets the same cookie on both sides. */
  lemma KeptChunkStep(init: seq<string>, last: string, parse: string -> (string, string),
                      drop: string -> bool, key: string)
    requires !drop(last) && parse(last).0 != key
    requires CookieMap(KeepUnless(init, drop), parse) == CookieMap(init, parse) - {key}
    ensures CookieMap(KeepUnless(init + [last], drop), parse) == CookieMap(init + [last], parse) - {key}
  {
    var chunks := init + [last];
    assert chunks[..|chunks| - 1] == init;
    var kept := KeepUnless(init, drop) + [last];
    assert KeepUnless(chunks, drop) == kept;
    assert kept[..|kept| - 1] == KeepUnless(init, drop);
    UpdateBesideRemoved(CookieMap(init, parse), parse(last).0, parse(last).1, key);
  }

  /** Removing a key undoes an update of that key. */
  lemma RemoveUpdated(m: map<string, string>, k: string, v: string)
    ensures m[k := v] - {k} == m - {k}
  {
  }

  /** An update of one key commutes with the removal of another. */
  lemma UpdateBesideRemoved(m: map<string, string>, k: string, v: string, r: string)
    requires k != r
    ensures (m - {r})[k := v] == m[k := v] - {r}
  {
  }

  /**
   * What the intended filter forwards is read by the backend as the request's cookies
   * without the session cookie: every other cookie keeps its value.
   */
  lemma DroppedSessionNotForwarded(h: string)
    ensures RequestCookies(DropSessionCookie(h)) == RequestCookies(h) - {SessionCookie}
    ensures SessionCookie !in RequestCookies(DropSessionCookie(h))
  {
    var chunks := Split(h, [';']);
    var kept := KeepUnless(chunks, IsSessionChunk);
    CookieMapWithout(chunks, ChunkCookie, IsSessionChunk, SessionCookie);
    if kept != [] {
      SplitCharPiecesFree(h, ';');
      KeepUnlessMembers(chunks, IsSessionChunk);
      forall k | 0 <= k < |kept|
        ensures ';' !in kept[k]
      {
        assert kept[k] in chunks;
      }
      SplitJoinChar(kept, ';');
    } else {
      assert Split("", [';']) == [""];
      assert CookieMap([""], ChunkCookie) == map[];
    }
  }

  /** A header the application reads no session cookie from is forwarded unchanged by the intended filter. */
  lemma DropSessionCookieUnchanged(h: string)
    requires forall k :: 0 <= k < |Split(h, [';'])| ==> !IsSessionChunk(Split(h, [';'])[k])
    ensures DropSessionCookie(h) == h
  {
    KeepUnlessAll(Split(h, [';']), IsSessionChunk);
    JoinSplit(h, [';']);
  }
}
