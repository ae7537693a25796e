# cc98_proxy in Dafny

A model of the core of cc98_proxy. This reverse proxy sits in front of the cc98.org services.
It forwards every request to one of the backend origins. The choice is by path: `/proxy/<segment>` goes to the matching origin of the `TO_PROXY` table, and anything else goes to `https://www.cc98.org`.
It then rewrites the backend's answer so that every reference to a backend leads back through the proxy. A session cookie holding a signed token gates every path except `/login` and `/robots.txt`.

The model covers:

- The request side of the handler:
  - the target URL;
  - dropping the host header;
  - dropping the pieces of the `cookie` header, split at `"; "`, that start with `proxy_access_token=`;
  - how the application itself reads that header (Starlette's `request.cookies`), and a filter that drops what it reads as the session cookie.
- The response rewrite pipeline, in its source order:
  1. origin substitution over the table, on the body and on `Location`;
  2. the `href`/`src`/`action` markup pass;
  3. the `new URL(a, b)` script pass for JavaScript answers;
  4. the `Location` path rewrite;
  5. removal of `Content-Length` and `Content-Encoding`.
- The session gate (`get_current_user`, `check_auth`) and route selection, including the schema and documentation pages that `FastAPI()` serves itself.
- The `USERS` credential table, token minting and the login decision.

Each regular expression is a hand-written left-to-right scanner with Python `re.sub` semantics: the leftmost match wins, matches do not overlap, and replacement text is never rescanned.

Each scanner appears twice:
- as a recursive specification function (`Substitute`, `RewriteAttributes`, `RewriteScript`);
- as a method with a loop that is proved equal to it.

The loops of the handler are methods proved against functions:
- the walk over the table;
- the prefix search with `break`;
- the cookie filter;
- the load-time loop over `USERS`.

Signing, signature checking, the clock and the backend call are parameters.

Modules, one per file: `Wrappers`, `Text` (Python `startswith`/`split`/`join`/`strip`), `Registry` (the table and the prefix lookup), `OriginRewrite`, `ReTemplate` (how `re.sub` reads a replacement given as text), `OriginTemplate` (the origin pass with its replacements read that way), `AttributeRewrite`, `ScriptRewrite`, `RequestHeaders`, `Session`, `Login`, `UrlJoin` (`urllib.parse.urljoin`), `Handler` and `Router`.

Where the description of the system and the code disagree, the model follows the code:

- **Empty cookie header.** A `cookie` header left without pieces is forwarded as `""`. It is not removed.
- **Default origin.** The default origin `https://www.cc98.org` is not in the table, and no table host pattern matches it. Only text that one of the five table host patterns matches is substituted. `OriginRewrite.DefaultOriginNeverSubstituted` proves that a default origin anywhere in a text survives the whole pass: the text before it and the text after it are rewritten separately. `OriginRewrite.DefaultOriginKept` is the special case of a default origin at the start.
- **Login check.** Login checks only the static `USERS` table. There is no delegation to an identity provider.
- **Exempt paths.** The gate exempts `/login` and `/robots.txt` by path alone, whatever the method. Requests with a method that no local route serves there are forwarded to the default origin without a session. These are PUT/DELETE/PATCH/OPTIONS/HEAD on `/login` and all but GET on `/robots.txt` (`Router.ExemptPathsReachDefaultOrigin`).

Decisions taken where the code leaves a choice open:

- **Host pattern wildcards.** The host in the origin pattern is spliced into the regex unescaped. Each `.` in it is therefore a wildcard that matches any character but a newline. Nothing anchors the end of the host. So look-alike hosts such as `https://api-cc98-org.example.com` and `https://api.cc98.org.evil.com` match the api pattern as well (`OriginRewrite.LookalikeHostsMatch`).
- **Replacement templates.** The replacement handed to `re.sub` is itself a template: `re` reads `\` in it as an escape or a group reference. The replacement starts with `str(request.base_url)`, which comes from the client's `Host` header. `OriginRewrite` inserts each replacement literally. `OriginTemplate.ToProxyAsWrittenAgrees` proves that the program does the same for a proxy origin without `\`. For other origins the program differs (see Findings), and the literal pass is what an escaped replacement gives (`OriginTemplate.EscapedPassIsLiteral`).
- **Header names.** Header names are matched exactly as spelled in the source (`Location`, `Content-Type`, `cookie`).
- **The clock.** The clock is an integer number of seconds. A token is expired when `exp <= now`, as PyJWT checks it.

## Model

| member | source | states |
|---|---|---|
| `Registry.Netloc` | app.py:71 | the netloc of an `https://` or `http://` origin is the origin without its scheme: the origin is the scheme followed by the netloc |
| `Registry.Replacement` | app.py:71 | the text a segment target's origin is replaced with is the proxy's own origin followed by exactly `/proxy/<target>`; how `re.sub` reads that text is `OriginTemplate` |
| `Registry.FindPrefix` | app.py:80-84 | the prefix search loop with `break` returns `PathPrefix`: the `/proxy/<segment>` of the first table entry that is a string prefix of the request path, else `""` |
| `Registry.PathPrefixFirstMatch` | app.py:101-105 | the prefix is `""` iff no entry's segment path prefixes the path; otherwise it is the segment path of the first entry that does |
| `Registry.PathPrefixShape` | app.py:102-104 | the prefix is `""` or the segment path of a table entry, starts with `/proxy` and is a prefix of the request path |
| `OriginRewrite.MatchLength` | app.py:71 | a match of `https?://<netloc>` is either absent or at least 7 characters long, starts with `http` and lies within the text |
| `OriginRewrite.SubstituteScan` | app.py:71 | the scanning loop computes `Substitute`, the leftmost, non-overlapping `re.sub` of one entry |
| `OriginRewrite.RewriteOrigins` | app.py:69-73 | the loop over the table applies the entries in table order to the body and, when present, to `Location`; no other header and no key changes |
| `OriginRewrite.SubstituteSkip` | app.py:71 | text at which no match starts is copied verbatim in front of the rewrite of the rest |
| `OriginRewrite.SubstituteNoMatch` | app.py:71 | text without any match is left unchanged by one entry |
| `OriginRewrite.OwnHostReplaced` | app.py:71 | both `https://<host>` and `http://<host>` are replaced by the entry's replacement, whatever follows |
| `OriginRewrite.NetlocOfHttps` | app.py:71 | the netloc of `https://<host>` is `<host>` |
| `OriginRewrite.ToProxyAvoidsDefaultHost` | app.py:14-20 | no host pattern of the table can match where the default host `www.cc98.org` starts |
| `OriginRewrite.NoMatchAtDefaultOrigin` | app.py:71 | no entry of that kind matches at the start of `https://www.cc98.org` |
| `OriginRewrite.DefaultOriginSkipped` | app.py:71 | one such entry leaves the default origin in front of any text alone |
| `OriginRewrite.DefaultOriginKept` | app.py:69-73 | the pass over the whole table keeps a default origin at the start of the text and rewrites only what follows it |
| `OriginRewrite.DefaultOriginNeverSubstituted` | app.py:69-73 | with the configured table, `x + https://www.cc98.org + rest` leaves the whole pass as the pass over `x`, then the default origin unchanged, then the pass over `rest` |
| `OriginRewrite.DefaultOriginKeptAnywhere` | app.py:69-73 | the same holds for any table whose host patterns avoid `www.cc98.org` and cannot cover an `ht` |
| `OriginRewrite.DefaultOriginKeptOnce` | app.py:71 | one such entry keeps a default origin anywhere in the text and rewrites either side of it separately |
| `OriginRewrite.SubstituteSplit` | app.py:71 | when no match starting in `y` runs past its end, one entry's `re.sub` of `y + z` is that of `y` followed by that of `z` |
| `OriginRewrite.MatchStopsAtHt` | app.py:71 | a match of a host pattern that cannot cover an `ht` ends before the first `ht` after its scheme |
| `OriginRewrite.NoMatchIntoDefaultOrigin` | app.py:71 | no match starting before a default origin reaches into it |
| `OriginRewrite.ToProxySkipsHt` | app.py:14-20 | no host pattern of the table contains `h` or `t`, and none has two dots in a row |
| `OriginRewrite.ApplyOriginsNoMatch` | app.py:69-73 | text that mentions no table origin passes through the whole table unchanged |
| `OriginRewrite.TableOriginReplaced` | app.py:69-73 | `https://<host>` or `http://<host>` of a table entry, followed by any text, leaves the whole pass as the proxy origin, then that entry's `/proxy/<segment>`, then the rewrite of the text; this holds when the proxy origin starts no match |
| `OriginRewrite.TableOriginThrough` | app.py:69-73 | for a table with separate entries and an inert proxy origin, the entries before an entry skip its origin, the entry replaces it, and the entries after it skip the replacement |
| `OriginRewrite.ApplyConcat` | app.py:69-73 | the pass over two tables one after the other is the pass over the second applied to the result of the first |
| `OriginRewrite.ForeignEntriesSkip` | app.py:69-73 | entries whose hosts start with other letters than a host without `h` copy an origin on that host unchanged |
| `OriginRewrite.InertEntriesSkip` | app.py:69-73 | entries that start no match inside the proxy origin copy the proxy origin followed by a segment path unchanged |
| `OriginRewrite.ForeignOriginSkipped` | app.py:71 | an entry copies another entry's origin unchanged when the hosts start with different letters and contain no `h` |
| `OriginRewrite.ReplacementSkipped` | app.py:71 | an entry copies a replacement, meaning the proxy origin followed by a segment path, unchanged |
| `OriginRewrite.ToProxySeparate` | app.py:14-20 | the table's hosts start with pairwise different letters, and neither its hosts nor its targets contain `h` |
| `OriginRewrite.ToProxyHosts` | app.py:14-20 | the netloc of each table origin is its host, from `openid.cc98.org` to `card.cc98.org` |
| `OriginRewrite.LocalProxyOriginInert` | app.py:71 | a proxy served at `http://127.0.0.1:8000` meets the condition: no match starts inside its origin, whatever follows it |
| `OriginRewrite.LookalikeHostsMatch` | app.py:71 | the api pattern matches the first 20 characters of `https://api-cc98-org.example.com` and of `https://api.cc98.org.evil.com` |
| `AttributeRewrite.AttrName` | app.py:88 | the alternative found at a position is one of `href`, `src`, `action` and its `attr="` opening is there |
| `AttributeRewrite.MatchAttr` | app.py:88 | a match has a listed attribute and a non-empty value without `"`, and its whole text `attr="value"` starts the input |
| `AttributeRewrite.RewriteAttributesScan` | app.py:88 | the `re.sub` scanning loop computes `RewriteAttributes` |
| `AttributeRewrite.RewriteStep` | app.py:88 | at a match the replacement is emitted and scanning resumes after the match; elsewhere one character is copied |
| `AttributeRewrite.MatchTextMatches` | app.py:88 | `attr="value"` with a listed attribute and a non-empty quote-free value is matched as exactly that attribute and value |
| `AttributeRewrite.RewriteOneAttribute` | app.py:77-88 | such an attribute is rewritten to `attr="<scoped value>"` followed by the rewrite of the rest |
| `AttributeRewrite.KeepsUpToFirstQuote` | app.py:88 | the output agrees with the input up to and including its first `"`, and text without `"` is unchanged |
| `AttributeRewrite.OneQuoteKept` | app.py:88 | text with at most one `"` is unchanged (no value can be closed) |
| `AttributeRewrite.EmptyValueKept` | app.py:88 | an empty value `""` is never matched: the output agrees with the input through it |
| `AttributeRewrite.NoMatchKept` | app.py:88 | where the input has no match, the output has none either |
| `AttributeRewrite.EmptyPrefixKeepsMarkup` | app.py:79-87 | with the empty prefix (a request outside every segment) the pass returns every match byte for byte, so the text is unchanged |
| `AttributeRewrite.ScopedIdempotent` | app.py:79-85 | scoping a value twice equals scoping it once when the prefix is empty or under `/proxy` |
| `AttributeRewrite.RewriteAttributesIdempotent` | app.py:77-88 | the markup pass is idempotent for an empty or `/proxy` prefix without `"` |
| `ReTemplate.LiteralTemplate` | app.py:71 | a replacement template without `\` is read as its own characters |
| `ReTemplate.EscapedTemplateLiteral` | app.py:71 | any text with each `\` doubled is read back as exactly that text |
| `ReTemplate.GroupReferenceRaises` | app.py:71 | a `\1`..`\9` not followed by a digit refers to a group the origin pattern does not have, so the template is refused wherever it stands |
| `ReTemplate.WholeMatchTemplate` | app.py:71 | `\g<0>` between two parts without `\` is read as the whole match between those parts |
| `OriginTemplate.SubstituteWithLits` | app.py:71 | `re.sub` with a template of literal characters is the literal substitution |
| `OriginTemplate.LiteralReplacementAgrees` | app.py:71 | a replacement without `\` raises nothing and is inserted as it stands |
| `OriginTemplate.EscapedReplacementAgrees` | app.py:71 | an escaped replacement is inserted as it stands, whatever it contains |
| `OriginTemplate.AsWrittenAgrees` | app.py:69-73 | for a proxy origin and targets without `\`, the loop as written raises nothing and gives `ApplyOrigins` |
| `OriginTemplate.ToProxyTargetsPlain` | app.py:14-20 | no target of the table contains `\` |
| `OriginTemplate.ToProxyAsWrittenAgrees` | app.py:69-73 | with the configured table, every proxy origin without `\` makes the loop as written give `ApplyOrigins` |
| `OriginTemplate.EscapedPassIsLiteral` | app.py:69-73 | with the replacements escaped, the loop gives `ApplyOrigins` for every proxy origin |
| `OriginTemplate.FirstEntryRaises` | app.py:69-73 | a malformed template in the first entry makes the loop raise, whatever the text |
| `OriginTemplate.GroupReferenceOriginRaises` | app.py:69-73 | a proxy origin `x\<d>y` (`d` from 1 to 9, `y` not starting with a digit) makes the loop raise for every response text |
| `OriginTemplate.WholeMatchSpliced` | app.py:71 | for a proxy origin `x\g<0>`, an entry's own origin `https://<host>` becomes `x` + `https://<host>` + `/proxy/<target>` |
| `ScriptRewrite.SpaceRun` | app.py:94 | the `\s*` run is the longest prefix of whitespace characters |
| `ScriptRewrite.RewriteScriptScan` | app.py:94 | the `re.sub` scanning loop computes `RewriteScript` |
| `ScriptRewrite.CallLength` | app.py:94 | a match spans `new URL(`, both groups, the comma and the closing parenthesis, within the text |
| `ScriptRewrite.MatchBaseOf` | app.py:94 | after the comma, whitespace then a non-empty `)`-free argument starting with a non-space is captured as the second group without the whitespace |
| `ScriptRewrite.MatchBaseBlank` | app.py:94 | when only whitespace precedes `)`, backtracking gives its last whitespace character to the second group |
| `ScriptRewrite.MatchOfCall` | app.py:94 | `new URL(A,<ws>B)` is matched with groups `A` and `B` and the full length |
| `ScriptRewrite.MatchedStep` | app.py:94 | at a match the output is `B + A` followed by the rewrite of what follows the match |
| `ScriptRewrite.RewriteOneCall` | app.py:94 | `new URL(A,<ws>B)` followed by any text becomes `B + A` followed by the rewrite of that text |
| `ScriptRewrite.RewriteBlankBase` | app.py:94 | `new URL(A,<ws>)` becomes `<last ws char> + A` followed by the rewrite of the rest |
| `ScriptRewrite.NoCallKept` | app.py:94 | text in which `new URL(` never occurs is unchanged |
| `ScriptRewrite.NoCommaNoMatch` | app.py:94 | `new URL(` with no comma after it is not a match; only its first character is copied |
| `ScriptRewrite.ScriptStage` | app.py:91-94 | an answer whose `Content-Type` starts with `application/javascript` gets the `new URL` rewrite; any other is returned unchanged |
| `ScriptRewrite.ScriptStageNoCall` | app.py:91-94 | a body in which `new URL(` never occurs leaves the script stage unchanged, whatever the content type |
| `Text.JoinSplit` | app.py:53-55 | joining the pieces of a split with the same separator restores the text |
| `Text.SplitJoinChar` | app.py:30-31 | splitting on a character the joined pieces do not contain gives the pieces back |
| `RequestHeaders.FilterCookies` | app.py:54 | the filtering loop keeps exactly `KeepForwardable`: the pieces not starting with `proxy_access_token=`, in order |
| `RequestHeaders.KeepForwardableMembers` | app.py:54 | a piece is kept iff it is a piece of the header and not the session cookie |
| `RequestHeaders.CleanRequestHeaders` | app.py:49-55 | the in-place cleaning yields `CleanedHeaders` of the request headers |
| `RequestHeaders.CleanedHeadersShape` | app.py:49-55 | the forwarded headers are the request's without `host`/`Host`; `cookie` is present iff it was, with the filtered value; all others are unchanged |
| `RequestHeaders.SplitJoinInverse` | app.py:53-55 | pieces free of `"; "` joined with `"; "` split back into the same pieces |
| `RequestHeaders.SplitPiecesFree` | app.py:53 | no piece of a split on `"; "` contains `"; "` |
| `RequestHeaders.ForwardedCookieReparses` | app.py:53-55 | the forwarded cookie header re-parses into exactly the kept pieces in their original order, and is `""` when none is kept; none of its `"; "`-separated pieces starts with `proxy_access_token=` |
| `RequestHeaders.ForwardedCookieUnchanged` | app.py:53-55 | a cookie header without the session cookie is forwarded unchanged |
| `RequestHeaders.KeepAll` | app.py:54 | the filter keeps a list without session pieces whole |
| `RequestHeaders.CleanedHeadersCarryNoSession` | app.py:49-55 | the forwarded headers contain neither `host` nor `Host`, and no `"; "`-separated piece of their `cookie` header starts with `proxy_access_token=` |
| `RequestHeaders.ChunkOf` | app.py:116 | Starlette reads a chunk `<name>=<value>` as that name and the stripped value when the name has no `=` and no blanks to strip |
| `RequestHeaders.CookieMapWithout` | app.py:116 | dropping every chunk read under one name gives the cookies read from all the chunks without that name; every other cookie keeps its value |
| `RequestHeaders.SemicolonSessionLeaks` | app.py:53-55 | `a=1;proxy_access_token=<token>` is forwarded unchanged, although the application reads the token from it as its session cookie |
| `RequestHeaders.BareSemicolonLeaks` | app.py:53-55 | the same leak for any non-empty first cookie without `;` that does not start with `p` |
| `RequestHeaders.DroppedSessionNotForwarded` | app.py:116 | the intended filter forwards a header from which the application reads the same cookies minus the session cookie |
| `RequestHeaders.DropSessionCookieUnchanged` | app.py:116 | the intended filter forwards a header from which no session cookie is read unchanged |
| `Session.CurrentUser` | app.py:115-126 | there is a user iff the session cookie is present and non-empty, its signature verifies, any `exp` lies after now and the claims carry a `sub`; the user is that `sub` |
| `Session.MissingSubRejected` | app.py:121-123 | a verified token without `sub` means no user, so the gate redirects every non-exempt path to the login page |
| `Session.Decode` | app.py:120 | a token decodes iff its signature verifies and any `exp` claim lies strictly after now, and then to the verified claims |
| `Session.CheckAuth` | app.py:130-142 | `/login` and `/robots.txt` always pass; any other path passes iff there is a current user; a redirect goes to `/login?next=<path>` with `?<query>` only for a non-empty query |
| `Session.NoCookieNoUser` | app.py:116-118 | a missing or empty session cookie means no user |
| `Session.ForgedTokenRejected` | app.py:119-126 | a token whose signature does not verify means no user |
| `Session.ExpiredTokenRejected` | app.py:119-126 | a token at or past its `exp` means no user |
| `Session.ValidTokenAccepted` | app.py:115-126 | a non-empty, verified, unexpired token with a `sub` claim yields exactly that user |
| `Session.LoginRedirectShape` | app.py:138-141 | the redirect target starts with `/login?next=<path>` and carries `?<query>` exactly when the query is non-empty |
| `Login.LoadUsers` | app.py:29-32 | the load-time loop builds `UsersTable` of the `USERS` setting, failing at a malformed entry or a missing setting |
| `Login.UsersFromSucceeds` | app.py:30-31 | the table loads iff every entry splits on `:` into exactly two parts |
| `Login.UsersFromKeys` | app.py:30-32 | the names in the table are exactly the names of the entries |
| `Login.LastEntryWins` | app.py:32 | a name maps to the password of its last entry: a later duplicate overwrites an earlier one |
| `Login.ParseEntryOf` | app.py:31 | `name:password` without another `:` unpacks into that name and password |
| `Login.EntryWithoutColon` | app.py:30-31 | an entry without `:` does not unpack, and an empty `USERS` setting fails to load |
| `Login.Entries` | app.py:30 | the entries written for a credential list are its `name:password` texts, in order |
| `Login.UsersTableOf` | app.py:29-32 | a setting written from credentials loads, and each name gets the password of its last occurrence |
| `Login.LoginSubmitSound` | app.py:170-181 | the intended check succeeds iff the user name is known and the submitted password is that user's, and then answers 303 to `next` with a token for that user expiring 30 minutes from now |
| `Login.AsWrittenAgreesWithPassword` | app.py:174 | when the form carries a password, the code as written decides as intended |
| `Login.AsWrittenBypass` | app.py:172-181 | as written, an unknown user name without a password field logs in (`None == None`); the intended check refuses it |
| `Login.LoginSubmitAsWritten` | app.py:170-181 | with a password in the form the code logs in iff the user name is known and the password is that user's; a login answers 303 to `next` with a token for the submitted name that expires 30 minutes from now |
| `Login.LoginSubmit` | app.py:170-181 | the intended check logs in only a known user name with a submitted password, and answers 303 to `next` |
| `Login.AccessTokenLifetime` | app.py:35-40 | a minted token decodes, to the user it was minted for, exactly before `now + 30 min` |
| `Login.TokenGrantsAccess` | app.py:26 | a minted token opens every path before `now + 30 min`, and from then on only the exempt paths |
| `Login.BypassOpensGate` | app.py:170-181 | the token obtained through the bypass opens every path for 30 minutes |
| `UrlJoin.ForwardUrl` | app.py:47 | the result of `urljoin(origin, path)`: a path with another scheme is returned as it is; `//host…` keeps that host under the origin's scheme; a path that names no target of its own gives the origin or a URL under `origin/` |
| `UrlJoin.ContainedUrl` | app.py:47 | the intended join: the origin itself for an empty path, otherwise a URL under `origin/` that ends in the path |
| `UrlJoin.ContainedUrlAgrees` | app.py:47 | for a path without a scheme and without a leading `//`, `urljoin` gives exactly the intended join |
| `UrlJoin.NetworkPathLeavesOrigin` | app.py:47 | `//host…` is joined to the origin's scheme followed by `://host…`, so the origin's host is dropped |
| `UrlJoin.AbsolutePathLeavesOrigin` | app.py:47 | under an `https` origin, `https://host…` is returned unchanged, so the origin's host is dropped |
| `UrlJoin.NetworkPathLeavesHttps` | app.py:47 | under an `https` origin, `//host…` becomes `https://host…` |
| `UrlJoin.SchemeOfHttps` | app.py:47 | `urlsplit` reads `https` as the scheme of `https://…` and `//…` as what follows it |
| `Handler.RewriteResponse` | app.py:67-111 | the pass-by-pass rewrite yields `RewrittenResponse`: origins, then markup, then scripts (JavaScript only) on the body; origins then path scoping on `Location`; length and encoding dropped; status kept |
| `Handler.LocateUnderPrefix` | app.py:98-106 | the `Location` rewrite prefixes a value starting with `/` but not `/proxy`, and keeps any other |
| `Handler.Handle` | app.py:42-111 | the backend receives the method, the joined URL, the query, the cleaned headers and the body; the answer is the rewrite of what it returns |
| `Handler.ResponseKeepsStatusAndHeaders` | app.py:109-111 | the status is kept; the header names are the backend's minus `Content-Length` and `Content-Encoding`; every header but `Location` keeps its value |
| `Handler.SegmentsQuoteFree` | app.py:14-20 | no segment path of the table contains `"` |
| `Handler.HandlerPrefixShape` | app.py:80-84 | the handler's prefix is empty or under `/proxy`, and quote-free |
| `Handler.MarkupStageIdempotent` | app.py:77-88 | the handler's markup pass applied to its own output changes nothing |
| `Handler.DefaultRouteBody` | app.py:77-94 | outside every segment and for a non-JavaScript answer the body is exactly the origin-substituted body |
| `Handler.LocationOf` | app.py:72-106 | the answer's `Location` is the backend's, origin-substituted and then scoped |
| `Handler.LocationRewrite` | app.py:98-106 | a root-relative `Location` outside `/proxy` gets the prefix, any other is only origin-substituted, and scoping the result again changes nothing |
| `Handler.OutboundIsClean` | app.py:47-65 | what reaches the backend has no host header, and no `"; "`-separated piece of its cookie header starts with `proxy_access_token=`; its URL is the origin or lies under `origin/` unless the captured path names a target of its own |
| `Router.SegmentRoute` | app.py:211-212 | a selected segment route belongs to the table and its `/proxy/<segment>` prefixes the path |
| `Router.SegmentRouteIsPathPrefix` | app.py:101-105 | the routed segment is exactly the prefix the handler uses, and no segment route means an empty prefix |
| `Router.ProxiedRouteTarget` | app.py:211-217 | a proxied request goes to the first matching table origin with the rest of its path, else to the default origin with the path after `/` |
| `Router.ProxiedRouteAgreesWithPrefix` | app.py:211-217 | a request routed to a table origin is its prefix followed by the forwarded rest; the default route has the empty prefix |
| `Router.ToProxyOriginsNotDefault` | app.py:14-20 | no table origin is the default origin |
| `Router.NoSessionRedirects` | app.py:130-142 | without a session only the exempt paths reach a route; every other request is redirected to the login page |
| `Router.ExemptPathsReachDefaultOrigin` | app.py:132-133 | PUT/DELETE/PATCH/OPTIONS/HEAD on `/login`, and any proxied method but GET on `/robots.txt`, pass the gate without a session and go to the default origin |
| `Router.ExemptPathsOutsideSegments` | app.py:132 | neither exempt path lies under a `/proxy/<segment>` |
| `Router.SelectRoute` | app.py:211-217 | GET/HEAD on a documentation page is served by the framework, GET on `/login` by the login page; a proxied route has a proxied method and a path starting with `/`; a path without a leading `/` finds no route |
| `Router.DispatchRequest` | app.py:129-142 | the gate redirects to `/login?next=…` iff the path is not exempt and there is no current user; otherwise the request takes the route `SelectRoute` gives |
| `Router.FrameworkPagesServedLocally` | app.py:12 | with a session, GET/HEAD on `/openapi.json`, `/docs`, `/docs/oauth2-redirect` and `/redoc` are served by FastAPI itself, and any other proxied method there goes to the default origin |
| `Router.ProxiedStep` | app.py:211-217 | a proxied method on a path that neither a framework page, the login routes nor `/robots.txt` serves for it goes to the first matching segment route, or else to the catch-all with the path after `/` |
| `Router.ApiSegment` | app.py:211-212 | a path under `/proxy/api` is served by the api entry, the second in the table |
| `Router.OutsideProxy` | app.py:211-212 | a path whose second character is not `p` matches no segment route |
| `Router.SegmentRouteUnderProxy` | app.py:211-212 | whatever the table, a path with a segment route has `p` as its second character |
| `Router.ApiNetworkPathRoute` | app.py:211-212 | `/proxy/api//host…` is routed to the api origin with `//host…` as the captured path |
| `Router.AbsolutePathRoute` | app.py:215-217 | `/https://host…` is routed to the default origin with `https://host…` as the captured path |
| `Router.SegmentRouteLeavesOrigin` | app.py:47 | `/proxy/api//host…` is routed to the api origin, and `urljoin` then turns it into `https://host…` |
| `Router.CatchAllLeavesOrigin` | app.py:47 | `/https://host…` is routed to the default origin, and `urljoin` then returns `https://host…` |
| `Router.ApiScheme` | app.py:16 | the api origin's scheme is `https` |

## Left out

- The HTTP transport is a parameter `send` of `Handler.Handle`. This covers the httpx client, `retries=3` and the async plumbing (app.py:57-65).
- `jwt.encode`/`jwt.decode` with HS256 are parameters `sign`/`verify`. Lemmas that need a working pair assume that `verify` returns the claims `sign` was given.
- `datetime.now` is the parameter `now`. Timestamps are whole seconds.
- `UrlJoin.ForwardUrl`: these parts of `urljoin` are not modelled:
  - the removal of dot segments;
  - the collapsing of empty segments in a relative path;
  - the splitting off of `?`, `#` and `;` parts;
  - the stripping of leading control characters, tabs and newlines;
  - the normalisation `urlunparse` applies to a path that carries an authority.

  It covers the scheme and authority cases, empty paths, root-relative paths and relative paths.
- `Registry.Replacement`: the external-URL branch (`target.startswith("http")`) is kept but never taken, because no table target starts with `http`. `str(request.base_url)` is the parameter `proxyOrigin`, the proxy's origin without a trailing slash. The replacement is a `re` template. `OriginRewrite` and `Handler` insert it literally, which agrees with the program only for a proxy origin without `\` (`OriginTemplate.ToProxyAsWrittenAgrees`). A `Host` header with `\1` makes app.py:71 raise (see Findings).
- `ReTemplate.ParseTemplate`: the group-name rules are those of recent Python versions (a name of ASCII digits, or an identifier). Older versions also accept names such as ` 0` that `int()` reads. The error kinds (`re.error`, `IndexError`) are not told apart.
- Bodies are character strings, not bytes. A failed `.decode()` of a non-UTF-8 value is not modelled. The origin pattern (app.py:71) and the script pattern (app.py:94) are bytes patterns, so each `.` of a host and each `[^,]`/`[^)]` matches one byte. The model matches one character instead. For `https://apiécc98.org` the program finds no match, because `é` is two bytes in UTF-8, while `OriginRewrite.MatchLength` of the api host is 20.
- Header lookup in Starlette and httpx is case-insensitive; in the model a header matches only under the name as spelled in the source. Repeated headers and the header-name lowercasing of `dict(request.headers)` are not modelled.
- `Session.CheckAuth`: the query is a raw string. These are not modelled:
  - the re-encoding by `str(request.query_params)`;
  - the `dict()` of query parameters passed to the backend;
  - the percent-quoting that `RedirectResponse` applies to its target. A space in the path goes out as `%20` in `/login?next=…`. `Session.LoginRedirect` keeps the path as it is.
- `Login.LoginSubmitSound`: the `next` target of the 303 answer is stated without the percent-quoting `RedirectResponse` applies to it.
- `OriginRewrite.ApplyOrigins`: idempotence of the whole origin pass is not proved. `OriginRewrite.TableOriginReplaced` states what it does to one table origin.
- The 307 status of the gate's redirect and the `httponly` flag of the login cookie are not modelled.
- The login and error HTML, the login page (`GET /login`) and the robots response are view text (app.py:145-166, 183-203, 206-208). `Login.Status` gives only the status of each login answer.
- `Router.SelectRoute`: Starlette's regex matching is reduced to string prefixes. A path with a newline, which `.*` does not match, is not modelled. The four pages `FastAPI()` registers (app.py:12) are the route `FrameworkPage`; what they serve is view text.
- `RequestHeaders.ForwardedCookie`: the filter as written splits only at `"; "`. A session cookie behind a bare `;` or behind `;` and more than one blank is forwarded (see Findings). `RequestHeaders.DropSessionCookie` is the filter that splits where Starlette splits.
- `RequestHeaders.RequestCookies`: Starlette's `_unquote` of cookie values is not modelled, `str.strip()` strips only the ASCII blanks, and only one `cookie` header is read.
- `Login.CreateAccessToken`: the token is the parameter `sign` applied to the claims; what it means is stated by `Login.AccessTokenLifetime` and `Login.TokenGrantsAccess` under a `verify` that returns the signed claims.
- The FastAPI decorators, the middleware registration and main.py (environment reading, secret generation, port and worker checks, `uvicorn.run`) are process bootstrap. They are not part of this model.

## Findings

| source | as written | input that shows it | evidently intended | confidence | as-written member | corrected member |
|---|---|---|---|---|---|---|
| app.py:172-181 | `if password == users.get(username)` accepts when both sides are `None` | a POST to `/login` whose form has `username=mallory` (a name not in `USERS`) and no `password` field: `None == None`, so a token with `sub = "mallory"` is set and opens every path for 30 minutes | log in only with a submitted password equal to the stored password of a known user | not executed | `Login.BypassOpensGate` | `Login.LoginSubmitSound` |
| app.py:53-55 | the `cookie` header is split only at `"; "` before the `proxy_access_token=` pieces are dropped, while the gate reads cookies split at every `;` and stripped | with a valid session, a `cookie` header `a=1;proxy_access_token=<token>` is forwarded unchanged, so the backend receives the proxy's session token | split the header where the application reads it and drop every chunk it reads as `proxy_access_token` | not executed | `RequestHeaders.SemicolonSessionLeaks` | `RequestHeaders.DroppedSessionNotForwarded` |
| app.py:71 | the replacement `urljoin(str(request.base_url), …).encode()` is passed to `re.sub` as a template, and `request.base_url` comes from the client's `Host` header | with `Host: a\1b`, every proxied answer fails, because the template refers to a group the pattern does not have; with `Host: a\g<0>`, `https://api.cc98.org` becomes `http://ahttps://api.cc98.org/proxy/api` | insert the proxy's origin literally, e.g. with its `\` escaped | not executed | `OriginTemplate.GroupReferenceOriginRaises` | `OriginTemplate.EscapedPassIsLiteral` |
| app.py:47 | `url = urljoin(base_url, path)` with the path captured by `/proxy/<segment>{path:path}` or `/{path:path}` lets the path choose the host | with a valid session, `GET /proxy/api//evil.com/x` or `GET /https://evil.com/x` sends the request to `https://evil.com/x`, with the client's remaining cookies and body | forward only to the route's own origin, with the captured path under it | not executed | `Router.SegmentRouteLeavesOrigin` | `UrlJoin.ContainedUrl` |
