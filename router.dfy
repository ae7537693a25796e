/**
 * Route selection and the order in which the application treats a request: the session
 * gate first, then the first registered route that matches both path and method — the
 * schema and documentation pages `FastAPI()` adds, the login page, the login form,
 * `robots.txt`, one `/proxy/<segment>` route per table entry, and the catch-all that
 * forwards to the default origin.
 */
module Router {
  import opened Wrappers
  import opened Text
  import opened Registry
  import opened Session
  import Handler
  import UrlJoin

  /** The methods the proxy routes accept. */
  const ProxyMethods: set<string> := {"GET", "POST", "PUT", "DELETE", "PATCH", "OPTIONS", "HEAD"}

  /**
   * The pages `FastAPI()` registers with its default arguments, before any route of the
   * application: the OpenAPI schema, Swagger UI with its OAuth2 redirect page, and ReDoc.
   * They answer GET and HEAD.
   */
  const FrameworkPaths: set<string> := {"/openapi.json", "/docs", "/docs/oauth2-redirect", "/redoc"}

  /** Where a request is dispatched. */
  datatype Route =
    | FrameworkPage
    | LoginPage
    | LoginForm
    | Robots
    | Proxied(origin: string, rest: string)
    | MethodNotAllowed
    | NotFound

  /** The first table entry whose `/proxy/<segment>` route pattern matches the path. */
  function SegmentRoute(table: seq<Mapping>, path: string): (r: Option<Mapping>)
    ensures r.Some? ==> r.value in table && StartsWith(path, SegmentPath(r.value.target))
  {
    if table == [] then None
    else if StartsWith(path, SegmentPath(table[0].target)) then Some(table[0])
    else SegmentRoute(table[1..], path)
  }

  /**
   * The route for a method and path: the first route matching both wins; a path matched
   * only by routes of other methods is refused with 405.
   */
  function SelectRoute(verb: string, path: string): (r: Route)
    ensures r == FrameworkPage <==> path in FrameworkPaths && (verb == "GET" || verb == "HEAD")
    ensures r == LoginPage <==> path == "/login" && verb == "GET"
    ensures r.Proxied? ==> verb in ProxyMethods && StartsWith(path, "/")
    ensures r == NotFound <==> !StartsWith(path, "/")
  {
    if path in FrameworkPaths && (verb == "GET" || verb == "HEAD") then FrameworkPage
    else if path == "/login" && verb == "GET" then LoginPage
    else if path == "/login" && verb == "POST" then LoginForm
    else if path == "/robots.txt" && verb == "GET" then Robots
    else if verb in ProxyMethods then
      match SegmentRoute(ToProxy, path)
      case Some(m) => Proxied(m.origin, path[|SegmentPath(m.target)|..])
      case None => if StartsWith(path, "/") then Proxied(DefaultOrigin, path[1..]) else NotFound
    else if StartsWith(path, "/") then MethodNotAllowed
    else NotFound
  }

  /** What the application does with a request: the gate's redirect, or the selected route. */
  datatype Dispatch = GateRedirect(location: string) | Routed(route: Route)

  /** The gate runs before routing; a redirected request reaches no route. */
  function DispatchRequest(req: Handler.Request, cookies: map<string, string>,
                           verify: string -> Option<Claims>, now: int): (d: Dispatch)
    ensures d.GateRedirect? <==> !Exempt(req.path) && CurrentUser(cookies, verify, now).None?
    ensures d.GateRedirect? ==> d.location == LoginRedirect(req.path, req.query)
    ensures d.Routed? ==> d.route == SelectRoute(req.verb, req.path)
  {
    match CheckAuth(req.path, req.query, cookies, verify, now)
    case RedirectTo(location) => GateRedirect(location)
    case PassThrough => Routed(SelectRoute(req.verb, req.path))
  }

  // ---- Lemmas -------------------------------------------------------------------------

  /** The route's segment is the one whose prefix the handler scopes paths with. */
  lemma {:induction false} SegmentRouteIsPathPrefix(table: seq<Mapping>, path: string)
    ensures SegmentRoute(table, path).None? ==> PathPrefix(table, path) == ""
    ensures SegmentRoute(table, path).Some? ==> PathPrefix(table, path) == SegmentPath(SegmentRoute(table, path).value.target)
  {
    if table != [] && !StartsWith(path, SegmentPath(table[0].target)) {
      SegmentRouteIsPathPrefix(table[1..], path);
    }
  }

  /** A proxied route forwards to the first matching table entry, else to the default origin. */
  lemma ProxiedRouteTarget(verb: string, path: string)
    requires SelectRoute(verb, path).Proxied?
    ensures SegmentRoute(ToProxy, path).None? ==> SelectRoute(verb, path) == Proxied(DefaultOrigin, path[1..])
    ensures SegmentRoute(ToProxy, path).Some? ==>
              SelectRoute(verb, path) == Proxied(SegmentRoute(ToProxy, path).value.origin,
                                                 path[|SegmentPath(SegmentRoute(ToProxy, path).value.target)|..])
  {
  }

  /**
   * A request routed to a table origin is forwarded with the rest of its path after the
   * segment, and that segment is exactly the prefix the handler uses for its rewrites.
   */
  lemma ProxiedRouteAgreesWithPrefix(verb: string, path: string)
    requires SelectRoute(verb, path).Proxied?
    ensures SelectRoute(verb, path).origin == DefaultOrigin ==> PathPrefix(ToProxy, path) == ""
    ensures SelectRoute(verb, path).origin != DefaultOrigin ==>
              PathPrefix(ToProxy, path) + SelectRoute(verb, path).rest == path
  {
    ProxiedRouteTarget(verb, path);
    SegmentRouteIsPathPrefix(ToProxy, path);
    match SegmentRoute(ToProxy, path)
    case None =>
    case Some(m) =>
      ToProxyOriginsNotDefault();
      assert path == SegmentPath(m.target) + path[|SegmentPath(m.target)|..];
  }

  /** No table entry is the default origin. */
  lemma ToProxyOriginsNotDefault()
    ensures forall m :: m in ToProxy ==> m.origin != DefaultOrigin
  {
    forall m | m in ToProxy
      ensures m.origin != DefaultOrigin
    {
      assert m.origin[8] != DefaultOrigin[8];
    }
  }

  /** Without a session every path but the two exempt ones is redirected to the login page. */
  lemma NoSessionRedirects(req: Handler.Request, cookies: map<string, string>,
                           verify: string -> Option<Claims>, now: int)
    requires CurrentUser(cookies, verify, now).None?
    ensures DispatchRequest(req, cookies, verify, now).Routed? <==> Exempt(req.path)
    ensures !Exempt(req.path) ==> DispatchRequest(req, cookies, verify, now) == GateRedirect(LoginRedirect(req.path, req.query))
  {
  }

  /**
   * The exemption is by path alone: a request to `/login` or `/robots.txt` with a method
   * that no local route serves there passes the gate without a session and is forwarded
   * by the catch-all route to the default origin.
   */
  lemma ExemptPathsReachDefaultOrigin(req: Handler.Request, cookies: map<string, string>,
                                      verify: string -> Option<Claims>, now: int)
    requires (req.path == "/login" && req.verb in ProxyMethods - {"GET", "POST"}) ||
             (req.path == "/robots.txt" && req.verb in ProxyMethods - {"GET"})
    ensures DispatchRequest(req, cookies, verify, now) == Routed(Proxied(DefaultOrigin, req.path[1..]))
  {
    assert SegmentRoute(ToProxy, req.path).None? by {
      SegmentRouteIsPathPrefix(ToProxy, req.path);
      ExemptPathsOutsideSegments(req.path);
    }
  }

  /** Neither exempt path lies under a `/proxy/<segment>`. */
  lemma ExemptPathsOutsideSegments(path: string)
    requires path == "/login" || path == "/robots.txt"
    ensures PathPrefix(ToProxy, path) == ""
  {
    PathPrefixShape(ToProxy, path);
    assert path[1] != 'p';
  }

  /**
   * With a session, GET and HEAD on the framework's pages are answered by the application
   * itself; every other proxied method on them falls through to the catch-all.
   */
  lemma FrameworkPagesServedLocally(req: Handler.Request, cookies: map<string, string>,
                                    verify: string -> Option<Claims>, now: int)
    requires req.path in FrameworkPaths && req.verb in ProxyMethods
    requires CurrentUser(cookies, verify, now).Some?
    ensures req.verb == "GET" || req.verb == "HEAD" ==> DispatchRequest(req, cookies, verify, now) == Routed(FrameworkPage)
    ensures req.verb != "GET" && req.verb != "HEAD" ==>
              DispatchRequest(req, cookies, verify, now) == Routed(Proxied(DefaultOrigin, req.path[1..]))
  {
    assert req.path[1] != 'p';
    OutsideProxy(req.path);
  }

  /**
   * A proxied method on a path that no local route serves for it follows the segment
   * routes, and else the catch-all.
   */
  lemma ProxiedStep(verb: string, path: string)
    requires verb in ProxyMethods && path != "/login" && path != "/robots.txt"
    requires path !in FrameworkPaths || (verb != "GET" && verb != "HEAD")
    ensures SegmentRoute(ToProxy, path).Some? ==>
              SelectRoute(verb, path) == Proxied(SegmentRoute(ToProxy, path).value.origin,
                                                 path[|SegmentPath(SegmentRoute(ToProxy, path).value.target)|..])
    ensures SegmentRoute(ToProxy, path).None? && StartsWith(path, "/") ==>
              SelectRoute(verb, path) == Proxied(DefaultOrigin, path[1..])
  {
  }

  /** `/proxy/api//host…` is routed to the api origin with `//host…` as the captured path. */
  lemma ApiNetworkPathRoute(verb: string, host: string, rest: string)
    requires verb in ProxyMethods
    ensures SelectRoute(verb, "/proxy/api//" + host + rest) == Proxied(ToProxy[1].origin, "//" + host + rest)
  {
    assert ("/proxy/api//" + host + rest)[..10] == "/proxy/api";
    assert ("/proxy/api//" + host + rest)[10..] == "//" + host + rest;
    ApiSegment("/proxy/api//" + host + rest);
    assert "/proxy/api//" + host + rest !in FrameworkPaths by {
      assert ("/proxy/api//" + host + rest)[1] == 'p';
    }
    ProxiedStep(verb, "/proxy/api//" + host + rest);
  }

  /** `/https://host…` is routed to the default origin with `https://host…` as the captured path. */
  lemma AbsolutePathRoute(verb: string, host: string, rest: string)
    requires verb in ProxyMethods
    ensures SelectRoute(verb, "/https://" + host + rest) == Proxied(DefaultOrigin, "https://" + host + rest)
  {
    assert ("/https://" + host + rest)[1] == 'h';
    assert ("/https://" + host + rest)[1..] == "https://" + host + rest;
    OutsideProxy("/https://" + host + rest);
    ProxiedStep(verb, "/https://" + host + rest);
  }

  /** A path whose second character is not the `p` of `/proxy` has no segment route. */
  lemma OutsideProxy(path: string)
    requires |path| >= 2 && path[1] != 'p'
    ensures SegmentRoute(ToProxy, path).None?
  {
    SegmentRouteUnderProxy(ToProxy, path);
  }

  /** Whatever the table, a path with a segment route has the `p` of `/proxy` second. */
  lemma SegmentRouteUnderProxy(table: seq<Mapping>, path: string)
    ensures SegmentRoute(table, path).Some? ==> |path| >= 2 && path[1] == 'p'
  {
    match SegmentRoute(table, path)
    case None =>
    case Some(m) =>
      assert SegmentPath(m.target)[1] == 'p';
  }

  /** A path under `/proxy/api` is routed to the api entry, the second of the table. */
  lemma ApiSegment(path: string)
    requires StartsWith(path, "/proxy/api")
    ensures SegmentRoute(ToProxy, path) == Some(ToProxy[1])
  {
    assert path[7] == 'a';
    assert !StartsWith(path, SegmentPath(ToProxy[0].target)) by { assert SegmentPath(ToProxy[0].target)[7] == 'o'; }
    assert SegmentPath(ToProxy[1].target) == "/proxy/api";
  }

  /**
   * A segment route hands `urljoin` whatever follows the segment, so `/proxy/api//host…`
   * is forwarded to `https://host…` rather than to the api origin.
   */
  lemma SegmentRouteLeavesOrigin(verb: string, host: string, rest: string)
    requires verb in ProxyMethods
    requires host != [] && host[0] != '/' && host[0] != '?' && host[0] != '#'
    ensures SelectRoute(verb, "/proxy/api//" + host + rest) == Proxied(ToProxy[1].origin, "//" + host + rest)
    ensures UrlJoin.ForwardUrl(ToProxy[1].origin, "//" + host + rest) == "https://" + host + rest
  {
    ApiNetworkPathRoute(verb, host, rest);
    ApiScheme();
    UrlJoin.NetworkPathLeavesHttps(ToProxy[1].origin, host, rest);
  }

  /** The api origin is an `https` origin. */
  lemma ApiScheme()
    ensures UrlJoin.Scheme(ToProxy[1].origin) == "https"
  {
    UrlJoin.SchemeOfHttps(ToProxy[1].origin[8..]);
    assert ToProxy[1].origin == "https://" + ToProxy[1].origin[8..];
  }

  /**
   * The catch-all route hands `urljoin` the path after the first `/`, so `/https://host…`
   * is forwarded to `https://host…` rather than to the default origin.
   */
  lemma CatchAllLeavesOrigin(verb: string, host: string, rest: string)
    requires verb in ProxyMethods
    requires host != [] && host[0] != '/' && host[0] != '?' && host[0] != '#'
    ensures SelectRoute(verb, "/https://" + host + rest) == Proxied(DefaultOrigin, "https://" + host + rest)
    ensures UrlJoin.ForwardUrl(DefaultOrigin, "https://" + host + rest) == "https://" + host + rest
  {
    AbsolutePathRoute(verb, host, rest);
    UrlJoin.SchemeOfHttps("www.cc98.org");
    assert "https://" + "www.cc98.org" == DefaultOrigin;
    UrlJoin.AbsolutePathLeavesOrigin(DefaultOrigin, host, rest);
  }
}
