/**
 * The session gate: the signed token in the `proxy_access_token` cookie, how it is read back
 * (`get_current_user`), and the middleware that lets a request through or sends it to the
 * login page (`check_auth`). Signing and signature checking are parameters; the clock is an
 * integer number of seconds.
 */
module Session {
  import opened Wrappers
  import opened Text

  /** Name of the cookie that carries the token. */
  const SessionCookie := "proxy_access_token"

  /** `ACCESS_TOKEN_EXPIRE_MINUTES`, in seconds. */
  const TokenLifetime := 30 * 60

  /** The claims of a token: `sub` (the user name) and `exp` (seconds since the epoch), each optional. */
  datatype Claims = Claims(sub: Option<string>, exp: Option<int>)

  /**
   * `jwt.decode`: `verify` stands for the signature check, which yields the claims of a
   * well-signed token; a present `exp` then has to lie strictly in the future.
   */
  function Decode(verify: string -> Option<Claims>, token: string, now: int): (r: Option<Claims>)
    ensures r.Some? <==> verify(token).Some? && (verify(token).value.exp.None? || now < verify(token).value.exp.value)
    ensures r.Some? ==> r == verify(token)
  {
    match verify(token)
    case None => None
    case Some(c) => if c.exp.Some? && c.exp.value <= now then None else Some(c)
  }

  /**
   * `get_current_user`: no user without a non-empty session cookie, a token that decodes,
   * and a `sub` claim.
   */
  function CurrentUser(cookies: map<string, string>, verify: string -> Option<Claims>, now: int): (r: Option<string>)
    ensures r.Some? <==>
              SessionCookie in cookies && cookies[SessionCookie] != "" &&
              verify(cookies[SessionCookie]).Some? && verify(cookies[SessionCookie]).value.sub.Some? &&
              (verify(cookies[SessionCookie]).value.exp.None? || now < verify(cookies[SessionCookie]).value.exp.value)
    ensures r.Some? ==> r == verify(cookies[SessionCookie]).value.sub
  {
    if SessionCookie !in cookies || cookies[SessionCookie] == "" then None
    else
      match Decode(verify, cookies[SessionCookie], now)
      case None => None
      case Some(c) => c.sub
  }

  /** The two outcomes of the middleware. */
  datatype GateOutcome = PassThrough | RedirectTo(location: string)

  /** Paths the middleware never checks. */
  predicate Exempt(path: string) {
    path == "/login" || path == "/robots.txt"
  }

  /** `/login?next=<path>`, with `?<query>` appended to `next` only when there is a query. */
  function LoginRedirect(path: string, query: string): string {
    "/login?next=" + path + (if query != "" then "?" + query else "")
  }

  /** `check_auth`: exempt paths pass; any other path passes only with a current user. */
  function CheckAuth(path: string, query: string, cookies: map<string, string>,
                     verify: string -> Option<Claims>, now: int): (r: GateOutcome)
    ensures Exempt(path) ==> r == PassThrough
    ensures !Exempt(path) ==> (r == PassThrough <==> CurrentUser(cookies, verify, now).Some?)
    ensures r.RedirectTo? ==> r.location == LoginRedirect(path, query)
  {
    if Exempt(path) then PassThrough
    else if CurrentUser(cookies, verify, now).None? then RedirectTo(LoginRedirect(path, query))
    else PassThrough
  }

  // ---- Lemmas -------------------------------------------------------------------------

  /** Without the cookie, or with it empty, nobody is logged in. */
  lemma NoCookieNoUser(cookies: map<string, string>, verify: string -> Option<Claims>, now: int)
    requires SessionCookie !in cookies || cookies[SessionCookie] == ""
    ensures CurrentUser(cookies, verify, now) == None
  {
  }

  /**
   * A well-signed token without a `sub` claim yields no user, however far off its expiry,
   * and every path but the exempt ones is redirected to the login page.
   */
  lemma MissingSubRejected(cookies: map<string, string>, verify: string -> Option<Claims>, now: int,
                           path: string, query: string)
    requires SessionCookie in cookies
    requires verify(cookies[SessionCookie]).Some? && verify(cookies[SessionCookie]).value.sub.None?
    ensures CurrentUser(cookies, verify, now) == None
    ensures !Exempt(path) ==> CheckAuth(path, query, cookies, verify, now) == RedirectTo(LoginRedirect(path, query))
  {
  }

  /** A token whose signature does not check out yields no user, whatever it claims. */
  lemma ForgedTokenRejected(cookies: map<string, string>, verify: string -> Option<Claims>, now: int)
    requires SessionCookie in cookies && verify(cookies[SessionCookie]).None?
    ensures CurrentUser(cookies, verify, now) == None
  {
  }

  /** A token at or past its `exp` yields no user. */
  lemma ExpiredTokenRejected(cookies: map<string, string>, verify: string -> Option<Claims>, now: int)
    requires SessionCookie in cookies
    requires verify(cookies[SessionCookie]).Some?
    requires verify(cookies[SessionCookie]).value.exp.Some?
    requires verify(cookies[SessionCookie]).value.exp.value <= now
    ensures CurrentUser(cookies, verify, now) == None
  {
  }

  /** A well-signed, unexpired token with a `sub` claim yields exactly that user. */
  lemma ValidTokenAccepted(cookies: map<string, string>, verify: string -> Option<Claims>, now: int, user: string)
    requires SessionCookie in cookies && cookies[SessionCookie] != ""
    requires verify(cookies[SessionCookie]).Some?
    requires verify(cookies[SessionCookie]).value.sub == Some(user)
    requires verify(cookies[SessionCookie]).value.exp.None? || now < verify(cookies[SessionCookie]).value.exp.value
    ensures CurrentUser(cookies, verify, now) == Some(user)
  {
  }

  /** The redirect keeps the requested path, and the query only when there is one. */
  lemma LoginRedirectShape(path: string, query: string)
    ensures StartsWith(LoginRedirect(path, query), "/login?next=" + path)
    ensures query == "" ==> LoginRedirect(path, query) == "/login?next=" + path
    ensures query != "" ==> LoginRedirect(path, query) == "/login?next=" + path + "?" + query
  {
    var s := LoginRedirect(path, query);
    var p := "/login?next=" + path;
    assert s == p + (if query != "" then "?" + query else "");
    assert s[..|p|] == p;
  }
}
