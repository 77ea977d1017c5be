/**
  * The upstream side of the mirror: one GET to the registry, and on a 401 carrying a Bearer
  * challenge, one retry with a token from the shared token provider.
  */
module Backend {
  import opened Wrappers
  import opened Http
  import opened Token

  /** The parts of a parsed URL the proxy touches. */
  datatype Url = Url(scheme: string, host: string, path: string)

  /** A request as handed to the HTTP client. */
  datatype Request = Request(verb: string, url: Url, header: Header)

  /** What the registry (or the network) gives back for one request. */
  datatype Upstream = Unreachable | Answer(status: int, header: Header)

  /** The response the proxy passes back to the handler. */
  datatype Response = Response(status: int, header: Header)

  datatype ProxyError =
    | BadHost(host: string)
    | RequestFailed
    | AuthFailed(cause: TokenError)
    | RetryFailed

  const StatusUnauthorized := 401

  /** The response header carrying the challenge. */
  const ChallengeHeader: string := "Www-Authenticate"

  /** The request header carrying the bearer token. */
  const AuthorizationHeader: string := "Authorization"

  /** The registry URL with its path replaced by the request path. */
  function Target(u: Url, pathname: string): (t: Url)
    ensures t.path == pathname && t.scheme == u.scheme && t.host == u.host
  {
    u.(path := pathname)
  }

  /** The first request: a GET to the target with the client's headers. */
  function FirstRequest(u: Url, pathname: string, headers: Header): Request
  {
    Request("GET", Target(u, pathname), headers)
  }

  /** What the proxy passes back for an upstream answer; `e` when the upstream was unreachable. */
  function Answered(a: Upstream, e: ProxyError): (r: Result<Response, ProxyError>)
    ensures r.Success? <==> a.Answer?
    ensures r.Success? ==> r.value.status == a.status && r.value.header == a.header
    ensures r.Failure? ==> r.error == e
  {
    if a.Unreachable? then Failure(e) else Success(Response(a.status, a.header))
  }

  /** The headers of the retry: the client's headers with `Authorization` set to the bearer token. */
  function RetryHeaders(headers: Header, token: Token): Header
  {
    HeaderSet(headers, AuthorizationHeader, "Bearer " + token.token)
  }

  function RetryRequest(u: Url, pathname: string, headers: Header, token: Token): Request
  {
    Request("GET", Target(u, pathname), RetryHeaders(headers, token))
  }

  /** A first answer is passed back unchanged unless it is a 401 with a challenge and a token
      provider is there to answer it. */
  function NeedsToken(hasProvider: bool, a: Upstream): (b: bool)
    ensures b <==> hasProvider && a.Answer? && a.status == StatusUnauthorized &&
                   "Www-Authenticate" in a.header && |a.header["Www-Authenticate"]| > 0 &&
                   a.header["Www-Authenticate"][0] != ""
  {
    CanonicalWwwAuthenticate();
    hasProvider && a.Answer? && a.status == StatusUnauthorized && HeaderGet(a.header, ChallengeHeader) != ""
  }

  /** The retry carries exactly one `Authorization` value, the bearer token, and every other header
      of the client's request as it was. */
  lemma RetryCarriesBearer(headers: Header, token: Token)
    ensures HeaderGet(RetryHeaders(headers, token), "Authorization") == "Bearer " + token.token
    ensures "Authorization" in RetryHeaders(headers, token) &&
            RetryHeaders(headers, token)["Authorization"] == ["Bearer " + token.token]
    ensures forall k :: k in headers && k != "Authorization" ==>
                          k in RetryHeaders(headers, token) && RetryHeaders(headers, token)[k] == headers[k]
    ensures forall k :: k in RetryHeaders(headers, token) ==> k in headers || k == "Authorization"
  {
    CanonicalAuthorizationKept();
  }

  /** Headers copied key by key into a fresh header map, as the proxy does for each request. */
  method CopyHeaders(headers: Header) returns (h: Header)
    ensures h == headers
  {
    h := map[];
    var remaining := headers.Keys;
    while remaining != {}
      invariant remaining <= headers.Keys
      invariant forall k :: k in h <==> k in headers && k !in remaining
      invariant forall k :: k in h ==> h[k] == headers[k]
      decreases |remaining|
    {
      var k :| k in remaining;
      h := h[k := headers[k]];
      remaining := remaining - {k};
    }
    assert h.Keys == headers.Keys;
  }

  /** A registry backend: its base URL and the token provider shared by all requests.
      `sent` records every request sent upstream. */
  class Backend {
    const host: string
    const tokenProvider: TokenProvider?
    ghost var sent: seq<Request>

    constructor (host: string, tokenProvider: TokenProvider?)
      ensures this.host == host && this.tokenProvider == tokenProvider && sent == []
    {
      this.host := host;
      this.tokenProvider := tokenProvider;
      sent := [];
    }

    /** The second half of `Proxy`, after a 401 carrying `challenge`: obtain a token and send the
        request to `target` once more, with the token in `Authorization`. */
    method RetryWithToken(target: Url, headers: Header, challenge: string, now: int,
                          upstream: (nat, Request) -> Upstream, fetch: TokenRequest -> FetchOutcome)
      returns (r: Result<Response, ProxyError>)
      requires tokenProvider != null
      modifies this, tokenProvider
      ensures tokenProvider.calls == old(tokenProvider.calls) + 1
      ensures tokenProvider.cache == tokenProvider.NextCache(old(tokenProvider.cache), challenge, now, fetch)
      ensures tokenProvider.fetchLog == old(tokenProvider.fetchLog) + tokenProvider.Fetches(old(tokenProvider.cache), challenge, now)
      ensures var got := tokenProvider.Outcome(old(tokenProvider.cache), challenge, now, fetch);
        (got.Failure? ==> r == Failure(AuthFailed(got.error)) && sent == old(sent)) &&
        (got.Success? ==>
           var retry := Request("GET", target, RetryHeaders(headers, got.value));
           sent == old(sent) + [retry] && r == Answered(upstream(1, retry), RetryFailed))
    {
      var authToken := tokenProvider.GetToken(challenge, now, fetch);
      if authToken.Failure? {
        return Failure(AuthFailed(authToken.error));
      }

      var authHeader := CopyHeaders(headers);
      authHeader := HeaderSet(authHeader, AuthorizationHeader, "Bearer " + authToken.value.token);
      var authReq := Request("GET", target, authHeader);
      var authResp := upstream(1, authReq);
      sent := sent + [authReq];
      if authResp.Unreachable? {
        return Failure(RetryFailed);
      }
      return Success(Response(authResp.status, authResp.header));
    }

    /** `Proxy`: GET `pathname` from the registry with the client's headers; on a 401 carrying a
        challenge, fetch a token and send the request once more with it. `parseUrl` stands for URL
        parsing, `upstream(0, req)` and `upstream(1, req)` for the registry's answers to the
        first request and to the retry, and `now` and `fetch` are passed on to the token
        provider. */
    method Proxy(pathname: string, headers: Header, now: int, parseUrl: string -> Option<Url>,
                 upstream: (nat, Request) -> Upstream, fetch: TokenRequest -> FetchOutcome)
      returns (r: Result<Response, ProxyError>)
      modifies this, tokenProvider
      ensures parseUrl(host).None? ==>
        r == Failure(BadHost(host)) && sent == old(sent) &&
        (tokenProvider != null ==> unchanged(tokenProvider))
      ensures parseUrl(host).Some? ==>
        var req := FirstRequest(parseUrl(host).value, pathname, headers);
        var first := upstream(0, req);
        !NeedsToken(tokenProvider != null, first) ==>
          r == Answered(first, RequestFailed) && sent == old(sent) + [req] &&
          (tokenProvider != null ==> unchanged(tokenProvider))
      ensures parseUrl(host).Some? && tokenProvider != null ==>
        var u := parseUrl(host).value;
        var req := FirstRequest(u, pathname, headers);
        var first := upstream(0, req);
        NeedsToken(true, first) ==>
          var challenge := HeaderGet(first.header, ChallengeHeader);
          var got := tokenProvider.Outcome(old(tokenProvider.cache), challenge, now, fetch);
          tokenProvider.calls == old(tokenProvider.calls) + 1 &&
          tokenProvider.cache == tokenProvider.NextCache(old(tokenProvider.cache), challenge, now, fetch) &&
          tokenProvider.fetchLog == old(tokenProvider.fetchLog) + tokenProvider.Fetches(old(tokenProvider.cache), challenge, now) &&
          (got.Failure? ==> r == Failure(AuthFailed(got.error)) && sent == old(sent) + [req]) &&
          (got.Success? ==>
             var retry := RetryRequest(u, pathname, headers, got.value);
             sent == old(sent) + [req, retry] && r == Answered(upstream(1, retry), RetryFailed))
      ensures |old(sent)| <= |sent| <= |old(sent)| + 2
      ensures tokenProvider != null ==> old(tokenProvider.calls) <= tokenProvider.calls <= old(tokenProvider.calls) + 1
    {
      var targetUrl := parseUrl(host);
      if targetUrl.None? {
        return Failure(BadHost(host));
      }
      var target := Target(targetUrl.value, pathname);

      var reqHeader := CopyHeaders(headers);
      var req := Request("GET", target, reqHeader);
      var resp := upstream(0, req);
      sent := sent + [req];
      if resp.Unreachable? {
        return Failure(RequestFailed);
      }

      if tokenProvider == null || resp.status != StatusUnauthorized {
        return Success(Response(resp.status, resp.header));
      }

      var authenticateStr := HeaderGet(resp.header, ChallengeHeader);
      if authenticateStr == "" {
        return Success(Response(resp.status, resp.header));
      }

      r := RetryWithToken(target, headers, authenticateStr, now, upstream, fetch);
    }
  }

  /** Two requests for the same path through one backend. When the first is answered 401 with a
      challenge and its token lookup misses and fetches a token, a second request up to
      `expiresIn` seconds later reuses that token: there is one fetch in all, and the second
      request is answered as the first. A second request after that fetches a new token. */
  method ProxyTwice(b: Backend, pathname: string, headers: Header, t1: int, t2: int,
                    parseUrl: string -> Option<Url>, upstream: (nat, Request) -> Upstream,
                    fetch: TokenRequest -> FetchOutcome)
    returns (r1: Result<Response, ProxyError>, r2: Result<Response, ProxyError>)
    requires b.tokenProvider != null
    modifies b, b.tokenProvider
    ensures parseUrl(b.host).Some? ==>
      var first := upstream(0, FirstRequest(parseUrl(b.host).value, pathname, headers));
      var tp := b.tokenProvider;
      NeedsToken(true, first) ==>
        var challenge := HeaderGet(first.header, ChallengeHeader);
        var got := tp.Outcome(old(tp.cache), challenge, t1, fetch);
        tp.Fetches(old(tp.cache), challenge, t1) != [] && got.Success? ==>
          (t2 <= t1 + got.value.expiresIn ==>
             r2 == r1 && |tp.fetchLog| == |old(tp.fetchLog)| + 1 && |b.sent| == |old(b.sent)| + 4) &&
          (t2 > t1 + got.value.expiresIn ==> |tp.fetchLog| == |old(tp.fetchLog)| + 2)
  {
    ghost var c := b.tokenProvider.cache;
    r1 := b.Proxy(pathname, headers, t1, parseUrl, upstream, fetch);
    if parseUrl(b.host).Some? {
      ghost var first := upstream(0, FirstRequest(parseUrl(b.host).value, pathname, headers));
      if NeedsToken(true, first) {
        ghost var challenge := HeaderGet(first.header, ChallengeHeader);
        if b.tokenProvider.Fetches(c, challenge, t1) != [] && b.tokenProvider.Outcome(c, challenge, t1, fetch).Success? {
          b.tokenProvider.RepeatLookup(c, challenge, t1, t2, fetch);
        }
      }
    }
    r2 := b.Proxy(pathname, headers, t2, parseUrl, upstream, fetch);
  }
}
