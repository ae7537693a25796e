/**
 * The proxy handler: the forwarded request (target URL and cleaned headers), the call to
 * the backend (a parameter), and the rewrite of the backend's answer — origin substitution
 * on body and `Location`, the markup pass, the script pass for JavaScript, the `Location`
 * path rewrite, and the removal of the length and encoding headers.
 */
module Handler {
  import opened Text
  import opened Registry
  import OriginRewrite
  import AttributeRewrite
  import ScriptRewrite
  import RequestHeaders
  import UrlJoin

  /** A backend or proxy answer. */
  datatype Response = Response(status: int, headers: map<string, string>, body: string)

  /** An incoming request: method (verb), path, raw query string, headers and body. */
  datatype Request = Request(verb: string, path: string, query: string, headers: map<string, string>, body: string)

  /** The request the proxy sends to the backend. */
  datatype Outbound = Outbound(verb: string, url: string, query: string, headers: map<string, string>, body: string)

  /** Headers removed from every answer, since the body may have changed. */
  const StrippedHeaders: set<string> := {"Content-Length", "Content-Encoding"}

  /** `headers.get("Content-Type", "")` */
  function ContentType(headers: map<string, string>): string {
    if "Content-Type" in headers then headers["Content-Type"] else ""
  }

  /** The body of the answer: origins, then markup under the request's segment prefix, then scripts. */
  function RewrittenBody(proxyOrigin: string, requestPath: string, resp: Response): string {
    ScriptRewrite.ScriptStage(
      ContentType(resp.headers),
      AttributeRewrite.RewriteAttributes(
        PathPrefix(ToProxy, requestPath),
        OriginRewrite.ApplyOrigins(ToProxy, proxyOrigin, resp.body)))
  }

  /** The `Location` path rewrite: a root-relative value outside `/proxy` gets the prefix. */
  function ScopeLocation(prefix: string, headers: map<string, string>): map<string, string> {
    if "Location" in headers then headers["Location" := AttributeRewrite.Scoped(prefix, headers["Location"])] else headers
  }

  /** The two `pop`s at the end of the handler. */
  function StripHeaders(headers: map<string, string>): map<string, string> {
    headers - {"Content-Length"} - {"Content-Encoding"}
  }

  /** The headers of the answer: origins substituted in `Location`, its path scoped, length and encoding dropped. */
  function RewrittenHeaders(proxyOrigin: string, requestPath: string, headers: map<string, string>): map<string, string> {
    StripHeaders(ScopeLocation(PathPrefix(ToProxy, requestPath),
                               OriginRewrite.SubstituteLocation(ToProxy, proxyOrigin, headers)))
  }

  /** The answer returned to the client for the backend's answer `resp`; the status is kept. */
  function RewrittenResponse(proxyOrigin: string, requestPath: string, resp: Response): Response {
    Response(resp.status, RewrittenHeaders(proxyOrigin, requestPath, resp.headers),
             RewrittenBody(proxyOrigin, requestPath, resp))
  }

  /** The rewrite part of the handler, pass by pass, updating body and headers in place. */
  method RewriteResponse(proxyOrigin: string, requestPath: string, resp: Response) returns (out: Response)
    ensures out == RewrittenResponse(proxyOrigin, requestPath, resp)
  {
    var body, headers := OriginRewrite.RewriteOrigins(ToProxy, proxyOrigin, resp.body, resp.headers);
    var prefix := FindPrefix(ToProxy, requestPath);
    body := AttributeRewrite.RewriteAttributesScan(prefix, body);
    assert ContentType(headers) == ContentType(resp.headers);
    if StartsWith(ContentType(headers), "application/javascript") {
      body := ScriptRewrite.RewriteScriptScan(body);
    }
    headers := LocateUnderPrefix(requestPath, headers);
    headers := headers - {"Content-Length"};
    headers := headers - {"Content-Encoding"};
    out := Response(resp.status, headers, body);
  }

  /** The `Location` path rewrite of the handler, with its own prefix search. */
  method LocateUnderPrefix(requestPath: string, headers: map<string, string>) returns (headers': map<string, string>)
    ensures headers' == ScopeLocation(PathPrefix(ToProxy, requestPath), headers)
  {
    headers' := headers;
    if "Location" in headers {
      var location := headers["Location"];
      if StartsWith(location, "/") && !StartsWith(location, "/proxy") {
        var p := FindPrefix(ToProxy, requestPath);
        headers' := headers["Location" := p + location];
      } else {
        assert headers == headers["Location" := location];
      }
    }
  }

  /**
   * `handler(origin, request, path)`: forward the request to `origin` joined with `path`,
   * with cleaned headers, through `send`, and rewrite what comes back.
   */
  method Handle(origin: string, proxyOrigin: string, req: Request, path: string, send: Outbound -> Response)
    returns (out: Response)
    ensures out == RewrittenResponse(proxyOrigin, req.path,
                     send(Outbound(req.verb, UrlJoin.ForwardUrl(origin, path), req.query,
                                   RequestHeaders.CleanedHeaders(req.headers), req.body)))
  {
    var headers := RequestHeaders.CleanRequestHeaders(req.headers);
    var resp := send(Outbound(req.verb, UrlJoin.ForwardUrl(origin, path), req.query, headers, req.body));
    out := RewriteResponse(proxyOrigin, req.path, resp);
  }

  // ---- Lemmas -------------------------------------------------------------------------

  /**
   * Everything but the body and `Location` passes through: the status, and every header
   * except the two stripped ones, which are always gone.
   */
  lemma ResponseKeepsStatusAndHeaders(proxyOrigin: string, requestPath: string, resp: Response)
    ensures RewrittenResponse(proxyOrigin, requestPath, resp).status == resp.status
    ensures RewrittenResponse(proxyOrigin, requestPath, resp).headers.Keys == resp.headers.Keys - StrippedHeaders
    ensures forall k :: k in RewrittenResponse(proxyOrigin, requestPath, resp).headers && k != "Location" ==>
              RewrittenResponse(proxyOrigin, requestPath, resp).headers[k] == resp.headers[k]
  {
  }

  /** Every segment path of the table is quote-free. */
  lemma SegmentsQuoteFree()
    ensures forall k :: 0 <= k < |ToProxy| ==> '"' !in SegmentPath(ToProxy[k].target)
  {
    forall k | 0 <= k < |ToProxy|
      ensures '"' !in SegmentPath(ToProxy[k].target)
    {
      assert ToProxy[k].target in ["openid", "api", "file", "gaming", "card"];
    }
  }

  /** The prefix the handler scopes paths with is empty or a quote-free path under `/proxy`. */
  lemma HandlerPrefixShape(requestPath: string)
    ensures PathPrefix(ToProxy, requestPath) == "" || StartsWith(PathPrefix(ToProxy, requestPath), "/proxy")
    ensures '"' !in PathPrefix(ToProxy, requestPath)
  {
    PathPrefixShape(ToProxy, requestPath);
    SegmentsQuoteFree();
  }

  /** The markup pass of the handler is idempotent: applying it to its own output changes nothing. */
  lemma MarkupStageIdempotent(requestPath: string, s: string)
    ensures AttributeRewrite.RewriteAttributes(PathPrefix(ToProxy, requestPath),
              AttributeRewrite.RewriteAttributes(PathPrefix(ToProxy, requestPath), s))
            == AttributeRewrite.RewriteAttributes(PathPrefix(ToProxy, requestPath), s)
  {
    HandlerPrefixShape(requestPath);
    AttributeRewrite.RewriteAttributesIdempotent(PathPrefix(ToProxy, requestPath), s);
  }

  /**
   * For a request outside every `/proxy/<segment>` the markup pass changes nothing, and for a
   * non-JavaScript answer the body is then exactly the origin-substituted body.
   */
  lemma DefaultRouteBody(proxyOrigin: string, requestPath: string, resp: Response)
    requires forall k :: 0 <= k < |ToProxy| ==> !StartsWith(requestPath, SegmentPath(ToProxy[k].target))
    requires !StartsWith(ContentType(resp.headers), "application/javascript")
    ensures RewrittenBody(proxyOrigin, requestPath, resp) == OriginRewrite.ApplyOrigins(ToProxy, proxyOrigin, resp.body)
  {
    PathPrefixFirstMatch(ToProxy, requestPath);
    AttributeRewrite.EmptyPrefixKeepsMarkup(OriginRewrite.ApplyOrigins(ToProxy, proxyOrigin, resp.body));
  }

  /** The answer's `Location` is the backend's, origin-substituted and then scoped. */
  lemma LocationOf(proxyOrigin: string, requestPath: string, resp: Response)
    requires "Location" in resp.headers
    ensures "Location" in RewrittenResponse(proxyOrigin, requestPath, resp).headers
    ensures RewrittenResponse(proxyOrigin, requestPath, resp).headers["Location"] ==
              AttributeRewrite.Scoped(PathPrefix(ToProxy, requestPath),
                                      OriginRewrite.ApplyOrigins(ToProxy, proxyOrigin, resp.headers["Location"]))
  {
  }

  /**
   * A root-relative `Location` outside `/proxy` is put under the request's segment; any
   * other value is only origin-substituted. Rewriting the result again changes nothing.
   */
  lemma LocationRewrite(proxyOrigin: string, requestPath: string, resp: Response)
    requires "Location" in resp.headers
    ensures "Location" in RewrittenResponse(proxyOrigin, requestPath, resp).headers
    ensures var loc := OriginRewrite.ApplyOrigins(ToProxy, proxyOrigin, resp.headers["Location"]);
            var out := RewrittenResponse(proxyOrigin, requestPath, resp).headers["Location"];
            (StartsWith(loc, "/") && !StartsWith(loc, "/proxy") ==> out == PathPrefix(ToProxy, requestPath) + loc) &&
            (!(StartsWith(loc, "/") && !StartsWith(loc, "/proxy")) ==> out == loc) &&
            AttributeRewrite.Scoped(PathPrefix(ToProxy, requestPath), out) == out
  {
    LocationOf(proxyOrigin, requestPath, resp);
    HandlerPrefixShape(requestPath);
    AttributeRewrite.ScopedIdempotent(PathPrefix(ToProxy, requestPath),
                                      OriginRewrite.ApplyOrigins(ToProxy, proxyOrigin, resp.headers["Location"]));
  }

  /**
   * What reaches the backend: the request's method, query and body, headers without host
   * and without a `"; "`-separated cookie piece starting with `proxy_access_token=`, and a
   * URL under the origin unless the captured path names a target of its own.
   */
  lemma OutboundIsClean(origin: string, req: Request, path: string)
    ensures var o := Outbound(req.verb, UrlJoin.ForwardUrl(origin, path), req.query,
                              RequestHeaders.CleanedHeaders(req.headers), req.body);
            "host" !in o.headers && "Host" !in o.headers &&
            ("cookie" in o.headers ==>
               forall c :: c in Split(o.headers["cookie"], RequestHeaders.CookieSep) ==> !RequestHeaders.IsSessionPiece(c)) &&
            (!UrlJoin.NamesOwnTarget(origin, path) ==> o.url == origin || StartsWith(o.url, origin + "/"))
  {
    RequestHeaders.CleanedHeadersCarryNoSession(req.headers);
  }
}
