/**
  * Request routing of the registry mirror: which upstream registry a Registry HTTP API V2
  * path `/v2/<name>/<action>/<reference>` is sent to, how the path is rewritten for that
  * upstream, which client headers are forwarded, and the Basic credentials of RFC 7617
  * section 2 taken from the client's `Authorization` header.
  */
module Handler {
  import opened Wrappers
  import opened Strings
  import opened Http

  /** Client headers forwarded upstream, before canonicalisation. */
  const ProxyHeaderAllowList: seq<string> := ["accept", "user-agent", "accept-encoding", "authorization"]

  /** Registry API actions after which an unqualified repository name gets the `library` namespace. */
  const ValidActionNames: set<string> := {"manifests", "blobs", "tags", "referrers"}

  /** Organisation aliases served by a registry other than Docker Hub. */
  const OrgNameBackend: map<string, string> := map[
    "gcr" := "https://gcr.io",
    "k8sgcr" := "https://k8s.gcr.io",
    "quay" := "https://quay.io",
    "ghcr" := "https://ghcr.io"
  ]

  const DefaultBackendHost: string := "https://registry-1.docker.io"

  /** Go's `orgNameBackend[org]`: the mapped URL, or the zero value "" for an unknown key. */
  function BackendFor(org: string): string
  {
    if org in OrgNameBackend then OrgNameBackend[org] else ""
  }

  /** `orgNameBackend[org] != ""`; every mapped URL is non-empty, so this is key membership. */
  predicate IsKnownOrg(org: string)
  {
    BackendFor(org) != ""
  }

  lemma KnownOrgs(org: string)
    ensures IsKnownOrg(org) <==> org == "gcr" || org == "k8sgcr" || org == "quay" || org == "ghcr"
  {
  }

  /** The `/`-separated pieces of a path; piece 0 is the text before the leading slash. */
  function Pieces(path: string): seq<string>
  {
    Split(path, '/')
  }

  // ---------------------------------------------------------------------------
  // Organisation of a path

  /** `orgNameFromPath`: the lower-cased piece 2 of a `/v2/<org>/...` path, else "". */
  function OrgNameFromPath(path: string): (org: string)
    ensures org != "" <==> |Pieces(path)| >= 3 && Pieces(path)[1] == "v2" && Pieces(path)[2] != ""
    ensures org != "" ==> org == ToLower(Pieces(path)[2])
    ensures org == ToLower(org)
  {
    var p := Pieces(path);
    ToLowerIdempotent(if |p| >= 3 then p[2] else "");
    if |p| >= 3 && p[1] == "v2" && p[2] != "" then ToLower(p[2]) else ""
  }

  /** A path with an organisation reads `<piece 0>/v2/<org piece>...`: it is piece 0 followed by
      `/v2/` and the remaining pieces, and the organisation is the first of those, lower-cased.
      So an absolute path with an organisation starts with `/v2/` and a character other than `/`. */
  lemma OrgNameDecomposes(path: string)
    requires OrgNameFromPath(path) != ""
    ensures path == Pieces(path)[0] + "/v2/" + Join(Pieces(path)[2..], '/')
    ensures OrgNameFromPath(path) == ToLower(Pieces(path)[2])
    ensures path[0] == '/' ==> |path| > 4 && path[..4] == "/v2/" && path[4] != '/'
  {
    var p := Pieces(path);
    var rest := Join(p[2..], '/');
    assert path == p[0] + "/" + ("v2" + "/" + rest) by {
      JoinSplit(path, '/');
      assert p[1..][1..] == p[2..];
      assert Join(p[1..], '/') == "v2" + "/" + rest;
    }
    assert rest[..|p[2]|] == p[2] by {
      if |p| > 3 {
        assert p[2..][1..] == p[3..];
        assert rest == p[2] + "/" + Join(p[3..], '/');
      }
    }
    if path[0] == '/' {
      assert p[0] == "";
      assert path == "/v2/" + rest;
      assert path[4] == rest[0] == p[2][0];
    }
  }

  /** For `<pre>/v2/<seg><rest>` with `<seg>` a whole piece, the organisation is `<seg>` lower-cased. */
  lemma OrgNameOfV2Path(pre: string, seg: string, rest: string)
    requires '/' !in pre && '/' !in seg && seg != ""
    requires rest == "" || rest[0] == '/'
    ensures OrgNameFromPath(pre + "/v2/" + seg + rest) == ToLower(seg)
  {
    var path := pre + "/v2/" + seg + rest;
    var tail := if rest == "" then [] else Pieces(rest[1..]);
    assert Pieces(seg + rest) == [seg] + tail by {
      if rest == "" {
        assert seg + rest == seg;
        SplitNoSep(seg, '/');
      } else {
        assert seg + rest == seg + ['/'] + rest[1..];
        SplitCons(seg, '/', rest[1..]);
      }
    }
    assert path == pre + ['/'] + ("v2" + ['/'] + (seg + rest));
    SplitCons(pre, '/', "v2" + ['/'] + (seg + rest));
    SplitCons("v2", '/', seg + rest);
    assert Pieces(path) == [pre, "v2", seg] + tail;
  }

  // ---------------------------------------------------------------------------
  // Upstream host

  /** `hostByOrgName`: the upstream base URL for an organisation. */
  function HostByOrgName(org: string): (host: string)
    ensures org in OrgNameBackend ==> host == OrgNameBackend[org]
    ensures org !in OrgNameBackend ==> host == DefaultBackendHost
  {
    if org in OrgNameBackend then OrgNameBackend[org] else DefaultBackendHost
  }

  /** The routing table: four aliases, and Docker Hub for everything else including "". */
  lemma HostByOrgNameTable(org: string)
    ensures org == "gcr" ==> HostByOrgName(org) == "https://gcr.io"
    ensures org == "k8sgcr" ==> HostByOrgName(org) == "https://k8s.gcr.io"
    ensures org == "quay" ==> HostByOrgName(org) == "https://quay.io"
    ensures org == "ghcr" ==> HostByOrgName(org) == "https://ghcr.io"
    ensures !IsKnownOrg(org) <==> HostByOrgName(org) == "https://registry-1.docker.io"
  {
  }

  // ---------------------------------------------------------------------------
  // Path rewriting

  /** Piece 2 removed when it equals `org` exactly; every other piece kept in order. */
  function WithoutOrgPiece(p: seq<string>, org: string): seq<string>
  {
    if |p| > 2 && p[2] == org then p[..2] + p[3..] else p
  }

  /** The path the upstream expects, as `rewritePath` computes it. */
  function RewrittenPath(org: string, path: string): string
  {
    var p := Pieces(path);
    if org != "" && !IsKnownOrg(org) && |p| == 5 && p[3] in ValidActionNames then
      Join([p[0], p[1], "library", p[2], p[3], p[4]], '/')
    else if org == "" then path
    else if IsKnownOrg(org) then Join(WithoutOrgPiece(p, org), '/')
    else path
  }

  /** The loop of `rewritePath` for an aliased registry: keep every piece except piece 2 when it
      equals the alias. */
  method DropOrgPiece(splitedPath: seq<string>, orgName: string) returns (cleanSplitedPath: seq<string>)
    ensures cleanSplitedPath == WithoutOrgPiece(splitedPath, orgName)
  {
    cleanSplitedPath := [];
    var i := 0;
    while i < |splitedPath|
      invariant 0 <= i <= |splitedPath|
      invariant cleanSplitedPath == WithoutOrgPiece(splitedPath[..i], orgName)
    {
      var part := splitedPath[i];
      if !(part == orgName && i == 2) {
        cleanSplitedPath := cleanSplitedPath + [part];
      }
      i := i + 1;
    }
    assert splitedPath[..i] == splitedPath;
  }

  /** `rewritePath` as the source writes it, with its loop; `RewrittenPath` states the same four
      rules as one expression, for the lemmas to reason about. */
  method RewritePath(orgName: string, pathname: string) returns (r: string)
    ensures r == RewrittenPath(orgName, pathname)
  {
    var splitedPath := Split(pathname, '/');
    if orgName != "" && BackendFor(orgName) == "" && |splitedPath| == 5 && splitedPath[3] in ValidActionNames {
      var newPath := [splitedPath[0], splitedPath[1], "library", splitedPath[2], splitedPath[3], splitedPath[4]];
      return Join(newPath, '/');
    }
    if orgName == "" {
      return pathname;
    }
    if BackendFor(orgName) != "" {
      var cleanSplitedPath := DropOrgPiece(splitedPath, orgName);
      return Join(cleanSplitedPath, '/');
    }
    return pathname;
  }

  /** An unqualified Docker Hub repository `/v2/<repo>/<action>/<ref>` gets `library` inserted right
      after `v2`; the six pieces of the result are the old five in order with `library` at index 2. */
  lemma RewriteInsertsLibrary(org: string, path: string)
    requires org != "" && !IsKnownOrg(org)
    requires |Pieces(path)| == 5 && Pieces(path)[3] in ValidActionNames
    ensures Pieces(RewrittenPath(org, path)) == Pieces(path)[..2] + ["library"] + Pieces(path)[2..]
  {
    var p := Pieces(path);
    var q := [p[0], p[1], "library", p[2], p[3], p[4]];
    assert forall i :: 0 <= i < |q| ==> '/' !in q[i];
    SplitJoin(q, '/');
    assert q == p[..2] + ["library"] + p[2..];
  }

  /** Without an organisation the path is forwarded unchanged. */
  lemma RewriteWithoutOrg(path: string)
    ensures RewrittenPath("", path) == path
  {
  }

  /** For an aliased registry exactly piece 2 is dropped, and only when it equals the alias as
      given; every other piece is kept in order, and a piece 2 that differs leaves the path as is. */
  lemma RewriteDropsAlias(org: string, path: string)
    requires IsKnownOrg(org)
    ensures var p := Pieces(path);
      |p| > 2 && p[2] == org ==> Pieces(RewrittenPath(org, path)) == p[..2] + p[3..]
    ensures var p := Pieces(path);
      !(|p| > 2 && p[2] == org) ==> RewrittenPath(org, path) == path
  {
    var p := Pieces(path);
    if |p| > 2 && p[2] == org {
      var q := p[..2] + p[3..];
      assert forall i :: 0 <= i < |q| ==> '/' !in q[i] by {
        forall i | 0 <= i < |q| ensures '/' !in q[i] {
          assert q[i] == if i < 2 then p[i] else p[i + 1];
        }
      }
      SplitJoin(q, '/');
    } else {
      JoinSplit(path, '/');
    }
  }

  /** An unknown organisation whose path is not `/v2/<repo>/<action>/<ref>` with a known action is
      forwarded unchanged; `/v2/library/nginx/manifests/latest` has six pieces and is one such. */
  lemma RewriteOtherwiseUnchanged(org: string, path: string)
    requires org != "" && !IsKnownOrg(org)
    requires !(|Pieces(path)| == 5 && Pieces(path)[3] in ValidActionNames)
    ensures RewrittenPath(org, path) == path
  {
  }

  // ---------------------------------------------------------------------------
  // Routing of one request

  /** What `HandleRegistryRequest` computes from the path before proxying:
      organisation, rewritten path and upstream host, in that order. */
  function Route(path: string): (route: (string, string, string))
    ensures route.0 == OrgNameFromPath(path)
    ensures route.1 == RewrittenPath(route.0, path)
    ensures route.2 == HostByOrgName(route.0)
  {
    var org := OrgNameFromPath(path);
    (org, RewrittenPath(org, path), HostByOrgName(org))
  }

  /** The pieces of a path written out literally. */
  lemma PiecesOf(parts: seq<string>, path: string)
    requires |parts| >= 1 && forall i :: 0 <= i < |parts| ==> '/' !in parts[i]
    requires Join(parts, '/') == path
    ensures Pieces(path) == parts
  {
    SplitJoin(parts, '/');
  }

  /** `/v2/<seg>/<rest>` splits into "", `v2`, `<seg>` and the pieces of `<rest>`. */
  lemma PiecesOfV2Path(seg: string, rest: string)
    requires '/' !in seg
    ensures Pieces("/v2/" + seg + "/" + rest) == ["", "v2", seg] + Pieces(rest)
  {
    var a := seg + ['/'] + rest;
    var b := "v2" + ['/'] + a;
    var c := "" + ['/'] + b;
    var tail := Pieces(rest);
    assert Pieces(a) == [seg] + tail by { SplitCons(seg, '/', rest); }
    assert Pieces(b) == ["v2"] + Pieces(a) by { SplitCons("v2", '/', a); }
    assert Pieces(c) == [""] + Pieces(b) by { SplitCons("", '/', b); }
    assert c == "/v2/" + seg + "/" + rest;
    assert [""] + (["v2"] + ([seg] + tail)) == ["", "v2", seg] + tail;
  }

  /** The known aliases are already lower-case. */
  lemma KnownOrgIsLowerCase(org: string)
    requires IsKnownOrg(org)
    ensures ToLower(org) == org
  {
    KnownOrgs(org);
  }

  lemma OrgOfAliasPath(alias: string, rest: string)
    requires IsKnownOrg(alias)
    ensures OrgNameFromPath("/v2/" + alias + "/" + rest) == alias
  {
    KnownOrgIsLowerCase(alias);
    assert '/' !in alias by { KnownOrgs(alias); }
    OrgNameOfV2Path("", alias, "/" + rest);
    assert "" + "/v2/" + alias + ("/" + rest) == "/v2/" + alias + "/" + rest;
  }

  /** `/v2/` followed by the pieces of `rest` joins back to `/v2/<rest>`. */
  lemma JoinV2(rest: string)
    ensures Join(["", "v2"] + Pieces(rest), '/') == "/v2/" + rest
  {
    var tail := Pieces(rest);
    assert Join(tail, '/') == rest by { JoinSplit(rest, '/'); }
    assert Join(["v2"] + tail, '/') == "v2" + "/" + rest by { JoinCons("v2", tail, '/'); }
    assert Join([""] + (["v2"] + tail), '/') == "" + "/" + ("v2" + "/" + rest) by {
      JoinCons("", ["v2"] + tail, '/');
    }
    assert [""] + (["v2"] + tail) == ["", "v2"] + tail;
  }

  lemma RewriteAliasPath(alias: string, rest: string)
    requires IsKnownOrg(alias)
    ensures RewrittenPath(alias, "/v2/" + alias + "/" + rest) == "/v2/" + rest
  {
    var path := "/v2/" + alias + "/" + rest;
    var tail := Pieces(rest);
    assert alias != "" && '/' !in alias by { KnownOrgs(alias); }
    assert RewrittenPath(alias, path) == Join(WithoutOrgPiece(Pieces(path), alias), '/');
    assert WithoutOrgPiece(Pieces(path), alias) == ["", "v2"] + tail by {
      PiecesOfV2Path(alias, rest);
      var p := Pieces(path);
      assert p[..2] == ["", "v2"] && p[3..] == tail;
    }
    JoinV2(rest);
  }

  /** Every alias A with upstream U: `/v2/A/<rest>` is sent to U as `/v2/<rest>`. */
  lemma RouteAlias(alias: string, rest: string)
    requires IsKnownOrg(alias)
    ensures Route("/v2/" + alias + "/" + rest) == (alias, "/v2/" + rest, OrgNameBackend[alias])
  {
    OrgOfAliasPath(alias, rest);
    RewriteAliasPath(alias, rest);
  }

  /** `<a>/<b>` with neither holding a slash splits into `a` and `b`. */
  lemma PiecesOfTwo(a: string, b: string)
    requires '/' !in a && '/' !in b
    ensures Pieces(a + "/" + b) == [a, b]
  {
    SplitCons(a, '/', b);
    SplitNoSep(b, '/');
  }

  lemma PiecesOfRepoPath(repo: string, action: string, ref: string)
    requires '/' !in repo && '/' !in action && '/' !in ref
    ensures Pieces("/v2/" + repo + "/" + action + "/" + ref) == ["", "v2", repo, action, ref]
  {
    var rest := action + "/" + ref;
    assert Pieces("/v2/" + repo + "/" + rest) == ["", "v2", repo] + [action, ref] by {
      PiecesOfV2Path(repo, rest);
      PiecesOfTwo(action, ref);
    }
    assert "/v2/" + repo + "/" + rest == "/v2/" + repo + "/" + action + "/" + ref;
  }

  /** Five pieces joined with `/`. */
  lemma JoinFive(a: string, b: string, c: string, d: string, e: string)
    ensures Join([a, b, c, d, e], '/') == a + "/" + b + "/" + c + "/" + d + "/" + e
  {
    var l := [a, b, c, d, e];
    assert Join(l[3..], '/') == d + "/" + e by {
      assert l[3..][1..] == [e];
    }
    assert Join(l[2..], '/') == c + "/" + (d + "/" + e) by {
      assert l[2..][1..] == l[3..];
    }
    assert Join(l[1..], '/') == b + "/" + (c + "/" + (d + "/" + e)) by {
      assert l[1..][1..] == l[2..];
    }
  }

  lemma JoinLibraryPath(repo: string, action: string, ref: string)
    ensures Join(["", "v2", "library", repo, action, ref], '/') == "/v2/library/" + repo + "/" + action + "/" + ref
  {
    var l := ["", "v2", "library", repo, action, ref];
    assert l[1..] == ["v2", "library", repo, action, ref];
    JoinFive("v2", "library", repo, action, ref);
    assert "" + "/" + ("v2" + "/" + "library" + "/" + repo + "/" + action + "/" + ref) ==
           "/v2/library/" + repo + "/" + action + "/" + ref;
  }

  lemma PiecesOfNamespacedPath(ns: string, repo: string, action: string, ref: string)
    requires '/' !in ns && '/' !in repo && '/' !in action && '/' !in ref
    ensures Pieces("/v2/" + ns + "/" + repo + "/" + action + "/" + ref) == ["", "v2", ns, repo, action, ref]
  {
    var two := action + "/" + ref;
    var rest := repo + "/" + two;
    assert Pieces(rest) == [repo, action, ref] by {
      SplitCons(repo, '/', two);
      PiecesOfTwo(action, ref);
    }
    assert Pieces("/v2/" + ns + "/" + rest) == ["", "v2", ns] + [repo, action, ref] by {
      PiecesOfV2Path(ns, rest);
    }
    assert "/v2/" + ns + "/" + rest == "/v2/" + ns + "/" + repo + "/" + action + "/" + ref;
  }

  lemma OrgOfSegment(seg: string, rest: string)
    requires '/' !in seg && seg != ""
    ensures OrgNameFromPath("/v2/" + seg + "/" + rest) == ToLower(seg)
  {
    OrgNameOfV2Path("", seg, "/" + rest);
    assert "" + "/v2/" + seg + ("/" + rest) == "/v2/" + seg + "/" + rest;
  }

  /** An unqualified repository `/v2/<repo>/<action>/<ref>` whose name is not an alias goes to
      Docker Hub as `/v2/library/<repo>/<action>/<ref>`, the repository keeping its case. */
  lemma RouteUnqualified(repo: string, action: string, ref: string)
    requires '/' !in repo && '/' !in action && '/' !in ref && repo != ""
    requires action in ValidActionNames && !IsKnownOrg(ToLower(repo))
    ensures Route("/v2/" + repo + "/" + action + "/" + ref) ==
            (ToLower(repo), "/v2/library/" + repo + "/" + action + "/" + ref, DefaultBackendHost)
  {
    OrgOfSegment(repo, action + "/" + ref);
    assert "/v2/" + repo + "/" + (action + "/" + ref) == "/v2/" + repo + "/" + action + "/" + ref;
    PiecesOfRepoPath(repo, action, ref);
    JoinLibraryPath(repo, action, ref);
  }

  /** A namespaced repository `/v2/<ns>/<repo>/<action>/<ref>` whose namespace is not an alias goes to
      Docker Hub unchanged; `/v2/library/nginx/manifests/latest` is one such, so no second `library`
      is inserted. */
  lemma RouteNamespaced(ns: string, repo: string, action: string, ref: string)
    requires '/' !in ns && '/' !in repo && '/' !in action && '/' !in ref && ns != ""
    requires !IsKnownOrg(ToLower(ns))
    ensures var path := "/v2/" + ns + "/" + repo + "/" + action + "/" + ref;
      Route(path) == (ToLower(ns), path, DefaultBackendHost)
  {
    OrgOfSegment(ns, repo + "/" + action + "/" + ref);
    assert "/v2/" + ns + "/" + (repo + "/" + action + "/" + ref) == "/v2/" + ns + "/" + repo + "/" + action + "/" + ref;
    PiecesOfNamespacedPath(ns, repo, action, ref);
  }

  /** An alias written in another case, such as `/v2/GCR/<rest>`, is routed to the alias's registry
      but keeps its piece in the path: the removal compares the raw piece with the lower-cased alias. */
  lemma RouteAliasOtherCase(seg: string, rest: string)
    requires '/' !in seg && IsKnownOrg(ToLower(seg)) && seg != ToLower(seg)
    ensures var path := "/v2/" + seg + "/" + rest;
      Route(path) == (ToLower(seg), path, OrgNameBackend[ToLower(seg)])
  {
    var path := "/v2/" + seg + "/" + rest;
    OrgOfSegment(seg, rest);
    assert RewrittenPath(ToLower(seg), path) == path by {
      PiecesOfV2Path(seg, rest);
      RewriteDropsAlias(ToLower(seg), path);
    }
  }

  /** The bare API root `/v2/` has no organisation and goes to Docker Hub unchanged. */
  lemma RouteApiRootExample(path: string)
    requires path == "/v2/"
    ensures Route(path) == ("", "/v2/", "https://registry-1.docker.io")
  {
    PiecesOf(["", "v2", ""], path);
  }

  // ---------------------------------------------------------------------------
  // Forwarded headers

  /** The canonical keys of the allow-listed headers. */
  predicate IsForwardedKey(k: string)
  {
    exists j :: 0 <= j < |ProxyHeaderAllowList| && k == CanonicalHeaderKey(ProxyHeaderAllowList[j])
  }

  /** The forwarded keys are exactly `Accept`, `User-Agent`, `Accept-Encoding` and `Authorization`. */
  lemma ForwardedKeys(k: string)
    ensures IsForwardedKey(k) <==> k == "Accept" || k == "User-Agent" || k == "Accept-Encoding" || k == "Authorization"
  {
    CanonicalAccept();
    CanonicalUserAgent();
    CanonicalAcceptEncoding();
    CanonicalAuthorization();
    assert CanonicalHeaderKey(ProxyHeaderAllowList[0]) == "Accept";
    assert CanonicalHeaderKey(ProxyHeaderAllowList[1]) == "User-Agent";
    assert CanonicalHeaderKey(ProxyHeaderAllowList[2]) == "Accept-Encoding";
    assert CanonicalHeaderKey(ProxyHeaderAllowList[3]) == "Authorization";
  }

  /** `copyProxyHeaders`: a fresh header map holding only the allow-listed headers the client sent
      with at least one value, each with the client's value list; everything else is dropped. */
  method CopyProxyHeaders(inputHeaders: Header) returns (headers: Header)
    ensures forall k :: k in headers <==> IsForwardedKey(k) && k in inputHeaders && |inputHeaders[k]| > 0
    ensures forall k :: k in headers ==> headers[k] == inputHeaders[k]
  {
    headers := map[];
    var i := 0;
    while i < |ProxyHeaderAllowList|
      invariant 0 <= i <= |ProxyHeaderAllowList|
      invariant forall k :: k in headers <==>
        (exists j :: 0 <= j < i && k == CanonicalHeaderKey(ProxyHeaderAllowList[j])) &&
        k in inputHeaders && |inputHeaders[k]| > 0
      invariant forall k :: k in headers ==> headers[k] == inputHeaders[k]
    {
      var key := CanonicalHeaderKey(ProxyHeaderAllowList[i]);
      if key in inputHeaders && |inputHeaders[key]| > 0 {
        headers := headers[key := inputHeaders[key]];
      }
      i := i + 1;
    }
  }

  // ---------------------------------------------------------------------------
  // Basic credentials

  const BasicPrefix: string := "Basic "

  /** The header is `Basic <base64>` whose decoded text has a colon. */
  predicate HasBasicCredentials(authHeader: string, decode: string -> Option<string>)
  {
    HasPrefix(authHeader, BasicPrefix) &&
    decode(authHeader[|BasicPrefix|..]).Some? &&
    ':' in decode(authHeader[|BasicPrefix|..]).value
  }

  /** `getCredentialsFromRequest`: the user-id and password of a Basic `Authorization` header, split
      at the first colon, or ("", "") when there is no such header or it does not decode.
      `decode` is standard base64 decoding (section 4 of RFC 4648), failing on malformed input. */
  function GetCredentialsFromRequest(requestHeaders: Header, decode: string -> Option<string>): (creds: (string, string))
    ensures var auth := HeaderGet(requestHeaders, "Authorization");
      HasBasicCredentials(auth, decode) ==>
        ':' !in creds.0 && creds.0 + ":" + creds.1 == decode(auth[|BasicPrefix|..]).value
    ensures !HasBasicCredentials(HeaderGet(requestHeaders, "Authorization"), decode) ==> creds == ("", "")
  {
    var authHeader := HeaderGet(requestHeaders, "Authorization");
    if authHeader != "" && HasPrefix(authHeader, BasicPrefix) then
      var encoded := authHeader[|BasicPrefix|..];
      match decode(encoded)
      case Some(decoded) =>
        (match Cut(decoded, ':')
         case Some(parts) => parts
         case None => ("", ""))
      case None => ("", "")
    else ("", "")
  }

  /** Credentials encoded as RFC 7617 prescribes (a user-id without a colon) come back intact;
      the password may itself contain colons. */
  lemma CredentialsRoundTrip(requestHeaders: Header, decode: string -> Option<string>,
                             encoded: string, user: string, password: string)
    requires HeaderGet(requestHeaders, "Authorization") == BasicPrefix + encoded
    requires decode(encoded) == Some(user + ":" + password)
    requires ':' !in user
    ensures GetCredentialsFromRequest(requestHeaders, decode) == (user, password)
  {
    var auth := BasicPrefix + encoded;
    assert auth[..|BasicPrefix|] == BasicPrefix;
    assert auth[|BasicPrefix|..] == encoded;
    assert (user + ":" + password)[|user|] == ':';
    CutUnique(user + ":" + password, ':', user, password);
  }
}
