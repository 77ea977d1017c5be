# docker-mirror-go: routing, bearer tokens and the retrying proxy

This project models the core logic of docker-mirror-go, a pull-through mirror for container
registries that speaks the Registry HTTP API V2 (`/v2/<name>/<action>/<reference>`). The logic
has three parts:

- **Routing** (`Handler`). The mirror reads an organisation alias from the request path
  (`gcr`, `k8sgcr`, `quay`, `ghcr`, otherwise Docker Hub) and picks the upstream registry.
  It rewrites the path for that registry:
  - it drops the alias segment;
  - it inserts the `library` namespace for unqualified Docker Hub names.

  It forwards an allow-list of client headers, and reads Basic credentials (section 2 of
  RFC 7617) from the client's `Authorization` header.
- **Tokens** (`Token`). A `WWW-Authenticate: Bearer realm="…",service="…",scope="…"` challenge
  (section 3 of RFC 6750) is parsed, with the scheme matched case-insensitively. A token is then
  requested from the realm with `service` and `scope` as query parameters. The token provider
  caches tokens per (username, password, realm, service, scope) until their `expires_in` runs out.
- **Proxying** (`Backend`). The proxy sends a GET upstream.
  - When the upstream cannot be reached, the result is an error.
  - A 401 carrying a challenge, seen while a token provider is configured, makes the proxy look up
    a token. When the lookup fails, the result is an error and no second request is sent.
    Otherwise the request is sent exactly once more, with `Authorization: Bearer <token>`, and the
    answer to that retry is passed back whatever its status.
  - Every other answer is passed back as it came.

Supporting modules:

- `Strings` models `strings.Split`, `Join`, `SplitN(…, 2)`, `HasPrefix` and `ToLower`.
- `Http` models `http.Header`, `CanonicalHeaderKey`, `Header.Get` and `Header.Set`.
- `Wrappers` holds `Option` and `Result`.

Outside facts are parameters of the model:

| outside fact | parameter |
|---|---|
| base64 decoding | `decode: string -> Option<string>` |
| SHA-256 with hex encoding | `hash: string -> string` |
| `url.Parse` of the host | `parseUrl: string -> Option<Url>` |
| the clock | `now: int`, in seconds |
| the realm's answer (`url.Parse` of the realm, transport, status, JSON decoding) | `fetch: TokenRequest -> FetchOutcome` |
| the upstream registry's answers to the first request and to the retry | `upstream: (nat, Request) -> Upstream`, attempt 0 and attempt 1 |

`Backend.Backend.sent` and `Token.TokenProvider.fetchLog` are ghost records of the requests sent.
`Token.TokenProvider.calls` counts the calls of `GetToken`. These records let the contracts count
requests and token lookups.

Behaviour of the code worth knowing, which the model keeps:

- `/v2/library/nginx/manifests/latest` splits into six pieces. The `library` insertion needs
  exactly five, so the path is forwarded unchanged and no second `library` is inserted
  (`Handler.RouteNamespaced`).
- `/v2/GCR/...` is routed to gcr.io but keeps its `GCR` segment, unlike `/v2/gcr/...`, which loses
  its alias segment. The removal compares the segment as written with the lower-cased alias
  (`Handler.RouteAliasOtherCase`).
- The code passes `expires_in` to the cache unchanged, with no rule for zero or negative values.
  The model stores the token until `now + expiresIn` for every value.
- The parameter expression `name="([^"]*)"` is not anchored. A value ending in `<name>=` is misread
  as the start of that parameter: in `realm="https://a/t?scope=",scope="pull"` the scope read is
  `,scope=` (see `Token.IsPlainValue`).
- The cache key text `user:password/realm/service/scope` does not separate its fields in general:
  user `a:b` with password `c` collides with user `a` and password `b:c`
  (`Token.CacheKeyCollision`). The fields are recovered when only the scope may hold a slash and
  the user holds no colon (`Token.KeyStringInjective`).
- `handler.go:53` calls `Proxy(method, pathname, headers)`, but `backend.go:24` declares
  `Proxy(pathname, headers)` and always sends `GET`. The model follows `backend.go`: there is no
  method parameter and both requests are GETs.

## Model

| member | source | states |
|---|---|---|
| Handler.KnownOrgs | internal/handler/handler.go:22-27 | the alias table's keys are exactly `gcr`, `k8sgcr`, `quay` and `ghcr`, in both directions |
| Handler.OrgNameFromPath | internal/handler/handler.go:115-121 | the organisation is non-empty exactly when the path has at least 3 pieces, piece 1 is `v2` and piece 2 is non-empty; it is then piece 2 lower-cased, and it is always lower-case |
| Handler.OrgNameDecomposes | internal/handler/handler.go:116-118 | a path with an organisation is piece 0, then `/v2/`, then the remaining pieces; an absolute one starts with `/v2/` followed by a character other than `/` |
| Handler.OrgNameOfV2Path | internal/handler/handler.go:116-118 | for `<pre>/v2/<seg><rest>` with `<seg>` a whole non-empty piece, the organisation is `<seg>` lower-cased |
| Handler.HostByOrgName | internal/handler/handler.go:123-128 | an alias in the table maps to its URL; any other string maps to the default host |
| Handler.HostByOrgNameTable | internal/handler/handler.go:22-28 | `gcr`, `k8sgcr`, `quay` and `ghcr` give their four URLs; a string is not an alias exactly when it is routed to `https://registry-1.docker.io`, `""` included |
| Handler.DropOrgPiece | internal/handler/handler.go:148-153 | the loop keeps every piece in order except piece 2 when it equals the alias |
| Handler.RewritePath | internal/handler/handler.go:130-158 | the rewritten path is the one the four rules give, tried in the source's order |
| Handler.RewriteInsertsLibrary | internal/handler/handler.go:133-139 | for a non-empty, non-alias organisation, 5 pieces and a known action in piece 3, the result's pieces are the old ones with `library` inserted at index 2 |
| Handler.RewriteWithoutOrg | internal/handler/handler.go:141-144 | without an organisation the path is unchanged |
| Handler.RewriteDropsAlias | internal/handler/handler.go:146-155 | for an alias, exactly piece 2 is dropped when it equals the alias and all other pieces are kept in order; otherwise the path is unchanged |
| Handler.RewriteOtherwiseUnchanged | internal/handler/handler.go:136-157 | an unknown organisation whose path is not 5 pieces with a known action is forwarded unchanged |
| Handler.Route | internal/handler/handler.go:32-34 | routing computes the organisation, then the rewritten path, then the host, each from the previous result |
| Handler.RouteAlias | internal/handler/handler.go:115-158 | `/v2/<alias>/<rest>` goes to the alias's registry as `/v2/<rest>` |
| Handler.RouteUnqualified | internal/handler/handler.go:133-139 | `/v2/<repo>/<action>/<ref>` with a known action and a non-alias repository goes to Docker Hub as `/v2/library/<repo>/<action>/<ref>`, the repository keeping its case |
| Handler.RouteNamespaced | internal/handler/handler.go:136-157 | `/v2/<ns>/<repo>/<action>/<ref>` with a non-alias namespace goes to Docker Hub unchanged, `library` as namespace included |
| Handler.RouteAliasOtherCase | internal/handler/handler.go:115-158 | an alias spelled in another case goes to the alias's registry but keeps its segment in the path |
| Handler.RouteApiRootExample | internal/handler/handler.go:141-144 | `/v2/` has no organisation and goes to Docker Hub unchanged |
| Handler.ForwardedKeys | internal/handler/handler.go:15 | the forwarded keys are exactly `Accept`, `User-Agent`, `Accept-Encoding` and `Authorization` |
| Handler.CopyProxyHeaders | internal/handler/handler.go:82-90 | the copy holds exactly the forwarded keys that the client sent with at least one value, each with the client's value list |
| Handler.GetCredentialsFromRequest | internal/handler/handler.go:93-113 | with a `Basic ` header whose payload decodes to text with a colon, the result is the colon-free text before the first colon and the rest; in every other case it is `("", "")` |
| Handler.CredentialsRoundTrip | internal/handler/handler.go:95-105 | `Basic ` followed by the encoding of `user:password`, with a colon-free user, yields `(user, password)`; the password may contain colons |
| Strings.Join | internal/handler/handler.go:138 | the join starts with the first part, and a separator follows it when more parts come; with `Split` it forms the round trips `JoinSplit` and `SplitJoin` |
| Strings.Split | internal/handler/handler.go:116 | splitting yields at least one piece and no piece holds the separator |
| Strings.JoinSplit | internal/handler/handler.go:154 | joining the pieces of a split gives the text back |
| Strings.SplitJoin | internal/handler/handler.go:138 | splitting a join of separator-free pieces gives the pieces back |
| Strings.Cut | internal/handler/handler.go:100 | there are two parts exactly when the separator occurs; the first is separator-free and the parts around the separator make up the text |
| Strings.CutUnique | internal/token/token.go:75 | the split at the first separator is the unique one whose first part is separator-free |
| Strings.ToLower | internal/handler/handler.go:118 | every character is lower-cased on its own and the length is kept |
| Strings.ToLowerIdempotent | internal/handler/handler.go:118 | lower-casing twice gives what lower-casing once gives |
| Http.HeaderGet | internal/backend/backend.go:54 | when the canonical key holds at least one value the result is the first of them, and otherwise it is `""` |
| Http.CanonicalHeaderKeyCase | internal/handler/handler.go:85 | canonicalisation keeps the length and changes only the case of letters; a key holding a non-token character is unchanged |
| Http.CanonicalHeaderKeyIdempotent | internal/handler/handler.go:85 | a canonical key is its own canonical form |
| Http.HeaderSet | internal/backend/backend.go:81 | the canonical key holds exactly the new value and every other key is untouched |
| Http.CanonicalAccept | internal/handler/handler.go:85 | `accept` is canonicalised to `Accept` |
| Http.CanonicalUserAgent | internal/handler/handler.go:85 | `user-agent` is canonicalised to `User-Agent` |
| Http.CanonicalAcceptEncoding | internal/handler/handler.go:85 | `accept-encoding` is canonicalised to `Accept-Encoding` |
| Http.CanonicalAuthorization | internal/handler/handler.go:85 | `authorization` is canonicalised to `Authorization` |
| Http.CanonicalizeHyphen | internal/handler/handler.go:85 | canonicalisation works word by word across a hyphen |
| Http.CanonicalAuthorizationKept | internal/backend/backend.go:81 | `Authorization` is already canonical |
| Http.CanonicalWwwAuthenticate | internal/backend/backend.go:54 | `Www-Authenticate` is already canonical |
| Token.MatchPrefix | internal/token/token.go:102-103 | a match at the start of the text yields quote-free content, and the text starts with `name="`, that content and a closing quote |
| Token.FirstMatchIsLeftmost | internal/token/token.go:103 | the scan finds a matching position with no match before it |
| Token.FirstMatchNone | internal/token/token.go:103 | the scan finds nothing only when no position from the start on matches |
| Token.FirstMatchFound | internal/token/token.go:103 | a position the scan returns lies in the text and the expression matches there |
| Token.ExtractParam | internal/token/token.go:101-108 | the extracted value never contains a quote |
| Token.ExtractParamAtFront | internal/token/token.go:101-108 | a parameter written first is read back whatever follows it |
| Token.ExtractParamSkips | internal/token/token.go:103 | text in which no match starts can be skipped |
| Token.ParseAuthenticateStr | internal/token/token.go:74-99 | parsing fails, with the header as cause, exactly when there is no space or the text before the first space is not `bearer` in some case; otherwise realm, service and scope are the values extracted from the rest |
| Token.NonBearerFails | internal/token/token.go:75-78 | a scheme other than `bearer`, in any case, is rejected |
| Token.ExtractParamRendered | internal/token/token.go:101-108 | in a well-formed parameter list each of realm, service and scope is read back with its value, and an absent one reads as `""` |
| Token.ParseRendered | internal/token/token.go:80-98 | a Bearer challenge with a well-formed parameter list parses to the values its parameters carry |
| Token.ParseOrderIndependent | internal/token/token.go:83-98 | two orderings of the same parameters parse alike |
| Token.MissingRealmParses | internal/token/token.go:84-86 | a challenge without `realm` parses with realm `""`, exactly as one with `realm=""` |
| Token.TokenQuery | internal/token/token.go:123-130 | `service` and `scope` are added exactly when non-empty, with their values, and nothing else is added |
| Token.FetchToken | internal/token/token.go:116-159 | a token comes back exactly when the realm answers 200 with a decodable body, and it is that body; another status is a status error |
| Token.KeyStringInjective | internal/token/token.go:111 | when the user has no colon and the password, realm and service have no slash, equal key texts mean equal credentials and challenges |
| Token.CacheKeyInjective | internal/token/token.go:110-114 | with such fields and a hash without a collision on the two key texts, equal cache keys mean equal credentials and challenges |
| Token.CacheKeyCollision | internal/token/token.go:110-114 | user `a:b` with password `c` and user `a` with password `b:c` share the cache key, whatever the hash |
| Token.CacheGet | internal/token/token.go:52 | an entry is found exactly when it exists and its deadline has not passed; the token is the stored one |
| Token.CacheSetThenGet | internal/token/token.go:66-67 | a token stored at `t` is found up to `t + expiresIn` and not later; other keys read as before |
| Token.CacheWithinTtl | internal/token/token.go:49-67 | a stored token is found before its lifetime runs out and not after it |
| Token.TokenProvider.constructor | internal/token/token.go:35-41 | a new provider holds the credentials and an empty cache |
| Token.TokenProvider.GetToken | internal/token/token.go:43-72 | an unparseable challenge fails with no fetch and no cache change; a live cache entry is returned with no fetch and no cache change; otherwise there is one fetch, and a fetched token is stored under the key until `now + expiresIn` and returned, while a failed fetch leaves the cache unchanged; the result, new cache and fetches are `Outcome`, `NextCache` and `Fetches` of the old cache |
| Token.TokenProvider.NextCacheOnFetch | internal/token/token.go:49-67 | a lookup that misses and fetches a token stores exactly that token under the challenge's key until `now + expiresIn`, every other entry unchanged |
| Token.TokenProvider.RepeatLookup | internal/token/token.go:49-67 | after a lookup that missed and fetched a token at `t1`, the same challenge is answered with that token and no fetch up to `t1 + expiresIn`, and by a new fetch after |
| Token.LookupTwice | internal/token/token.go:43-72 | two lookups of one challenge: when the first fetches a token, a second within its lifetime returns the same token with one fetch in all, and a second after it makes a second fetch |
| Backend.Target | internal/backend/backend.go:30 | the target keeps the host's scheme and host and takes the request path |
| Backend.NeedsToken | internal/backend/backend.go:49-57 | a retry is needed exactly when a provider is configured and the answer is a 401 whose `Www-Authenticate` key holds a non-empty first value |
| Backend.Answered | internal/backend/backend.go:84-89 | an upstream answer is passed back with its status and headers whatever the status; no answer is the given error |
| Backend.RetryCarriesBearer | internal/backend/backend.go:75-81 | the retry's headers are the client's headers with `Authorization` replaced by `Bearer <token>` alone, and nothing else added or changed |
| Backend.CopyHeaders | internal/backend/backend.go:37-40 | the copy loop reproduces the header map exactly |
| Backend.Backend.constructor | internal/backend/backend.go:17-22 | a new backend holds its host and token provider and has sent nothing |
| Backend.Backend.RetryWithToken | internal/backend/backend.go:64-89 | exactly one token lookup, leaving the provider's cache and fetches as `GetToken` does; a failed lookup is an error with no second request; otherwise one GET to the same target with the bearer headers is sent and its answer returned |
| Backend.Backend.Proxy | internal/backend/backend.go:24-90 | an unparseable host fails with no request and the provider untouched; a first GET is sent; a 401 with a challenge and a provider makes exactly one token lookup, with the provider's new cache and fetches as `GetToken` gives them, and at most one retry; everything else is returned as-is after one request with the provider untouched; never more than two requests |
| Backend.ProxyTwice | internal/backend/backend.go:24-90 | two requests for one path through one backend: when the first is challenged and fetches a token, a second within the token's lifetime reuses it with one fetch in all and is answered as the first, and a second after it fetches again |

## Left out

- `HandleRegistryRequest` (`handler.go:31-80`) is left out: gin context I/O, logging, copying the
  response headers and streaming the body. Only its order of computation is kept, as `Handler.Route`.
- The source builds a fresh token provider, and so a fresh cache, for every request
  (`handler.go:38`). The model treats the provider as one object whose cache persists across calls.
- Backend.Backend.Proxy: the error of `http.NewRequest` (`backend.go:33-35`, `71-73`) is not
  modelled, because that library code is outside the model. A request is always built once the
  host has parsed.
- Backend.Backend.Proxy: response bodies, their closing and the client's timeouts are not
  modelled. The proxy's result carries the status and headers only.
- Backend.Target: a URL is modelled as scheme, host and path only. The query and the other parts
  that `url.Parse` may produce are not modelled. The configured hosts have none.
- Token.FetchToken: three steps are folded into `fetch`, because they are library code. They are
  `url.Parse` of the realm, the transport and the JSON decoding.
- Token.FetchToken: the query parameters already present in the realm URL (`token.go:123`) are not
  modelled, and neither is `query.Encode`. The request lists the realm and the parameters the
  provider adds.
- Token.TokenProvider.GetToken: every `expires_in` gives the deadline `now + expiresIn`. go-cache's
  own handling of zero and negative durations, its default expiry and its janitor (`token.go:39`)
  are not modelled, because that library is outside the model. Duration overflow and the cache's
  thread safety are left out too.
- Token.CacheKey: SHA-256 and hex encoding are the parameter `hash`, because they are library code.
- Token.ExtractParam: the regular expression `name="([^"]*)"` is a hand-written leftmost scan,
  because the regexp engine is library code. The names passed (`realm`, `service`, `scope`) hold
  no regex metacharacters.
- Handler.GetCredentialsFromRequest: base64 decoding is the partial function `decode`, because it
  is library code.
- Strings.ToLower: only the ASCII letters A-Z are lowered. Go's `strings.ToLower` also maps
  non-ASCII letters, such as the Kelvin sign to `k`.
- Error values carry their cause but not the formatted message text.
- Logging through zerolog and `main.go` (bootstrap, router and redirect) are left out, because
  they hold no logic.
