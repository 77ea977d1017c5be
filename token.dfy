/**
  * Bearer-token acquisition of the registry mirror: parsing a `WWW-Authenticate: Bearer ...`
  * challenge (section 3 of RFC 6750), the token request sent to the challenge's realm, and a
  * provider that caches tokens per (username, password, realm, service, scope) with a TTL.
  */
module Token {
  import opened Wrappers
  import opened Strings

  /** The parameters of a Bearer challenge; absent ones are "". */
  datatype WwwAuthenticate = WwwAuthenticate(realm: string, service: string, scope: string)

  /** The token endpoint's answer: the token and its lifetime in seconds. */
  datatype Token = Token(token: string, expiresIn: int)

  datatype TokenError =
    | MalformedChallenge(header: string)
    | TokenUnreachable
    | TokenStatus(status: int)
    | UndecodableToken

  /** The request sent to the realm: its URL and the query parameters the provider adds. */
  datatype TokenRequest = TokenRequest(realm: string, query: map<string, string>)

  /** What the realm answers: no response at all (an unparseable realm URL or a transport
      failure), or a status with the body decoded as a token when it decodes. */
  datatype FetchOutcome = Unreachable | Reply(status: int, body: Option<Token>)

  // ---------------------------------------------------------------------------
  // Challenge parameters

  /** The text `name="` that opens a parameter. */
  function Opening(name: string): string
  {
    name + "=\""
  }

  /** The regular expression `name="([^"]*)"` anchored at the start of `t`: the quoted content
      when `t` starts with `name="` and a closing quote follows. */
  function MatchPrefix(t: string, name: string): (m: Option<string>)
    ensures m.Some? ==> '"' !in m.value && HasPrefix(t, Opening(name) + m.value + "\"")
  {
    var open := Opening(name);
    if HasPrefix(t, open) then
      match IndexOf(t[|open|..], '"')
      case None => None
      case Some(j) =>
        assert t[..|open| + j + 1] == open + t[|open|..][..j] + "\"";
        Some(t[|open|..][..j])
    else None
  }

  /** The regular expression matched at position `i` of `params`. */
  function MatchAt(params: string, name: string, i: nat): Option<string>
    requires i <= |params|
  {
    MatchPrefix(params[i..], name)
  }

  /** The leftmost position at or after `i` where the expression matches. */
  function FirstMatch(params: string, name: string, i: nat): Option<nat>
    requires i <= |params|
    decreases |params| - i
  {
    if MatchAt(params, name, i).Some? then Some(i)
    else if i == |params| then None
    else FirstMatch(params, name, i + 1)
  }

  /** `FirstMatch` finds a match, and no match lies before it. */
  lemma {:induction false} FirstMatchIsLeftmost(params: string, name: string, i: nat)
    requires i <= |params|
    ensures var r := FirstMatch(params, name, i);
      r.Some? ==> i <= r.value <= |params| && MatchAt(params, name, r.value).Some? &&
                  forall k :: i <= k < r.value ==> MatchAt(params, name, k).None?
    decreases |params| - i
  {
    FirstMatchFound(params, name, i);
    if MatchAt(params, name, i).None? && i < |params| {
      assert FirstMatch(params, name, i) == FirstMatch(params, name, i + 1);
      FirstMatchIsLeftmost(params, name, i + 1);
    }
  }

  /** When `FirstMatch` finds nothing, the expression matches nowhere from `i` on. */
  lemma {:induction false} FirstMatchNone(params: string, name: string, i: nat)
    requires i <= |params|
    ensures FirstMatch(params, name, i).None? ==> forall k :: i <= k <= |params| ==> MatchAt(params, name, k).None?
    decreases |params| - i
  {
    if MatchAt(params, name, i).None? && i < |params| {
      assert FirstMatch(params, name, i) == FirstMatch(params, name, i + 1);
      FirstMatchNone(params, name, i + 1);
    }
  }

  /** A position `FirstMatch` returns lies in the text and matches there. */
  lemma {:induction false} FirstMatchFound(params: string, name: string, i: nat)
    requires i <= |params|
    ensures FirstMatch(params, name, i).Some? ==>
              i <= FirstMatch(params, name, i).value <= |params| &&
              MatchAt(params, name, FirstMatch(params, name, i).value).Some?
    decreases |params| - i
  {
    if MatchAt(params, name, i).None? && i < |params| {
      FirstMatchFound(params, name, i + 1);
    }
  }

  /** `extractParam`: the content of the leftmost `name="..."` in `params`, or "" when there is none. */
  function ExtractParam(params: string, name: string): (v: string)
    ensures '"' !in v
  {
    FirstMatchFound(params, name, 0);
    match FirstMatch(params, name, 0)
    case Some(j) => MatchAt(params, name, j).value
    case None => ""
  }

  /** A parameter written first is found, whatever follows it. */
  lemma ExtractParamAtFront(name: string, value: string, rest: string)
    requires '"' !in value
    ensures ExtractParam(Opening(name) + value + "\"" + rest, name) == value
  {
    var t := Opening(name) + value + "\"" + rest;
    var open := Opening(name);
    assert t[0..] == t;
    assert t[..|open|] == open;
    assert t[|open|..] == value + "\"" + rest;
    assert (value + "\"" + rest)[|value|] == '"';
    assert (value + "\"" + rest)[..|value|] == value;
  }

  /** Matching at a position of the second half of `pre + rest` is matching in `rest`. */
  lemma MatchAtShift(pre: string, rest: string, name: string, j: nat)
    requires j <= |rest|
    ensures MatchAt(pre + rest, name, |pre| + j) == MatchAt(rest, name, j)
  {
    assert (pre + rest)[|pre| + j..] == rest[j..];
  }

  lemma {:induction false} FirstMatchShift(pre: string, rest: string, name: string, j: nat)
    requires j <= |rest|
    ensures FirstMatch(rest, name, j).Some? ==>
              FirstMatch(pre + rest, name, |pre| + j) == Some(|pre| + FirstMatch(rest, name, j).value)
    ensures FirstMatch(rest, name, j).None? ==> FirstMatch(pre + rest, name, |pre| + j).None?
    decreases |rest| - j
  {
    var t := pre + rest;
    MatchAtShift(pre, rest, name, j);
    if MatchAt(rest, name, j).Some? {
      assert FirstMatch(rest, name, j) == Some(j);
      assert FirstMatch(t, name, |pre| + j) == Some(|pre| + j);
    } else if j == |rest| {
      assert FirstMatch(rest, name, j).None?;
      assert |pre| + j == |t|;
      assert FirstMatch(t, name, |pre| + j).None?;
    } else {
      assert FirstMatch(rest, name, j) == FirstMatch(rest, name, j + 1);
      assert FirstMatch(t, name, |pre| + j) == FirstMatch(t, name, |pre| + (j + 1));
      FirstMatchShift(pre, rest, name, j + 1);
    }
  }

  /** What a match at position `k` says about the text there. */
  lemma MatchAtText(t: string, name: string, k: nat)
    requires k <= |t|
    ensures MatchAt(t, name, k).Some? ==>
              k + |name| + 2 <= |t| && t[k..k + |name|] == name &&
              t[k + |name|] == '=' && t[k + |name| + 1] == '"'
  {
    if MatchAt(t, name, k).Some? {
      var open := Opening(name);
      assert t[k..][..|open|] == open;
      assert t[k..k + |name|] == t[k..][..|open|][..|name|];
    }
  }

  lemma {:induction false} FirstMatchSkips(t: string, name: string, i: nat, to: nat)
    requires i <= to <= |t|
    requires forall k :: i <= k < to ==> MatchAt(t, name, k).None?
    ensures FirstMatch(t, name, i) == FirstMatch(t, name, to)
    decreases (to as int) - (i as int)
  {
    if i < to {
      FirstMatchSkips(t, name, i + 1, to);
    }
  }

  /** `ExtractParam` reads the value at the position the search from the start finds. */
  lemma ExtractParamAt(params: string, name: string, j: nat)
    requires FirstMatch(params, name, 0) == Some(j)
    ensures j <= |params| && MatchAt(params, name, j).Some?
    ensures ExtractParam(params, name) == MatchAt(params, name, j).value
  {
    FirstMatchFound(params, name, 0);
  }

  /** A match found at `k` in `rest` and at `|pre| + k` in `pre + rest` reads the same value. */
  lemma ExtractParamFoundShift(pre: string, rest: string, name: string, k: nat)
    requires FirstMatch(rest, name, 0) == Some(k)
    requires FirstMatch(pre + rest, name, 0) == Some(|pre| + k)
    ensures ExtractParam(pre + rest, name) == ExtractParam(rest, name)
  {
    ExtractParamAt(rest, name, k);
    ExtractParamAt(pre + rest, name, |pre| + k);
    MatchAtShift(pre, rest, name, k);
  }

  /** When the search from the start finds what the search from `|pre|` finds, the value read from
      `pre + rest` is the one read from `rest`. */
  lemma ExtractParamShift(pre: string, rest: string, name: string)
    requires FirstMatch(pre + rest, name, 0) == FirstMatch(pre + rest, name, |pre|)
    ensures ExtractParam(pre + rest, name) == ExtractParam(rest, name)
  {
    FirstMatchShift(pre, rest, name, 0);
    match FirstMatch(rest, name, 0)
    case Some(k) => ExtractParamFoundShift(pre, rest, name, k);
    case None =>
  }

  /** Text in which `name="..."` cannot start can be skipped. */
  lemma ExtractParamSkips(pre: string, rest: string, name: string)
    requires forall k :: 0 <= k < |pre| ==> MatchAt(pre + rest, name, k).None?
    ensures ExtractParam(pre + rest, name) == ExtractParam(rest, name)
  {
    FirstMatchSkips(pre + rest, name, 0, |pre|);
    ExtractParamShift(pre, rest, name);
  }

  // ---------------------------------------------------------------------------
  // Challenge parsing

  /** `parseAuthenticateStr`: the scheme before the first space must be `bearer` in any case;
      realm, service and scope are then read from the rest. */
  function ParseAuthenticateStr(authenticateStr: string): (r: Result<WwwAuthenticate, TokenError>)
    ensures r.Failure? <==> ' ' !in authenticateStr || ToLower(Cut(authenticateStr, ' ').value.0) != "bearer"
    ensures r.Failure? ==> r.error == MalformedChallenge(authenticateStr)
    ensures r.Success? ==>
      var params := Cut(authenticateStr, ' ').value.1;
      r.value == WwwAuthenticate(ExtractParam(params, "realm"), ExtractParam(params, "service"),
                                 ExtractParam(params, "scope"))
  {
    match Cut(authenticateStr, ' ')
    case None => Failure(MalformedChallenge(authenticateStr))
    case Some(parts) =>
      if ToLower(parts.0) != "bearer" then Failure(MalformedChallenge(authenticateStr))
      else
        var params := parts.1;
        Success(WwwAuthenticate(ExtractParam(params, "realm"), ExtractParam(params, "service"),
                                ExtractParam(params, "scope")))
  }

  /** The names a Bearer challenge carries. */
  predicate IsParamName(n: string)
  {
    n == "realm" || n == "service" || n == "scope"
  }

  /** A parameter value the unanchored expression reads back: no quote, and no `=`. A value that
      ends in `<name>=` would be read as the start of that parameter: in
      `realm="https://a/t?scope=",scope="pull"` the scope read is `,scope=`. */
  predicate IsPlainValue(v: string)
  {
    '"' !in v && '=' !in v
  }

  /** A challenge's parameter list: distinct known names with plain values. */
  predicate WellFormedParams(ps: seq<(string, string)>)
  {
    (forall i :: 0 <= i < |ps| ==> IsParamName(ps[i].0) && IsPlainValue(ps[i].1)) &&
    (forall i, j :: 0 <= i < j < |ps| ==> ps[i].0 != ps[j].0)
  }

  function Param(p: (string, string)): string
  {
    Opening(p.0) + p.1 + "\""
  }

  /** The parameters written `name="value"`, separated by commas. */
  function Render(ps: seq<(string, string)>): string
    decreases |ps|
  {
    if |ps| == 0 then ""
    else if |ps| == 1 then Param(ps[0])
    else Param(ps[0]) + "," + Render(ps[1..])
  }

  /** The value given for `name`, "" when the list has none. */
  function ValueOf(ps: seq<(string, string)>, name: string): string
    decreases |ps|
  {
    if |ps| == 0 then ""
    else if ps[0].0 == name then ps[0].1
    else ValueOf(ps[1..], name)
  }

  /** No parameter name ends with another one. */
  lemma NamesNotSuffixes(name: string, n0: string)
    requires IsParamName(name) && IsParamName(n0) && name != n0
    ensures !(|name| <= |n0| && n0[|n0| - |name|..] == name)
  {
  }

  /** The only `=` of a parameter is the one after its name. */
  lemma EqualsInParam(p: (string, string), k: nat)
    requires IsParamName(p.0) && IsPlainValue(p.1)
    ensures k < |Param(p)| && Param(p)[k] == '=' ==> k == |p.0|
  {
  }

  /** A known parameter name is made of letters only. */
  lemma ParamNameHasNoComma(name: string)
    requires IsParamName(name)
    ensures ',' !in name
  {
  }

  /** A match of `name="` starting inside a parameter of another name would need an `=` that the
      parameter does not have. */
  lemma NoMatchInsideParam(name: string, p: (string, string), t: string, k: nat)
    requires IsParamName(name) && IsParamName(p.0) && IsPlainValue(p.1) && name != p.0
    requires |Param(p)| <= |t| && t[..|Param(p)|] == Param(p)
    requires k <= |t| && k + |name| < |Param(p)|
    ensures MatchAt(t, name, k).None?
  {
    var e := k + |name|;
    MatchAtText(t, name, k);
    EqualsInParam(p, e);
    assert Param(p)[e] == t[e];
    if e == |p.0| {
      assert Param(p)[..|p.0|] == p.0;
      assert t[k..e] == t[..|Param(p)|][k..e];
      assert Param(p)[k..e] == Param(p)[..|p.0|][k..];
      NamesNotSuffixes(name, p.0);
    }
  }

  /** `name="` cannot start at position `k` of a parameter of another name followed by a comma. */
  lemma NoMatchInItemAt(name: string, p: (string, string), rest: string, k: nat)
    requires IsParamName(name) && IsParamName(p.0) && IsPlainValue(p.1) && name != p.0
    requires k <= |Param(p)|
    ensures MatchAt(Param(p) + "," + rest, name, k).None?
  {
    var t := Param(p) + "," + rest;
    var c := |Param(p)|;
    if k + |name| < c {
      assert t[..c] == Param(p);
      NoMatchInsideParam(name, p, t, k);
    } else {
      MatchAtText(t, name, k);
      assert t[c] == ',';
      ParamNameHasNoComma(name);
      if c < k + |name| <= |t| {
        assert t[k..k + |name|][c - k] == t[c];
      }
    }
  }

  /** `name="` cannot start inside a parameter of another name, nor in the comma after it. */
  lemma NoMatchInItem(name: string, p: (string, string), rest: string)
    requires IsParamName(name) && IsParamName(p.0) && IsPlainValue(p.1) && name != p.0
    ensures forall k :: 0 <= k < |Param(p)| + 1 ==> MatchAt(Param(p) + "," + rest, name, k).None?
  {
    forall k | 0 <= k < |Param(p)| + 1
      ensures MatchAt(Param(p) + "," + rest, name, k).None?
    {
      NoMatchInItemAt(name, p, rest, k);
    }
  }

  /** `name="` cannot start anywhere in a single parameter of another name. */
  lemma NoMatchInLast(name: string, p: (string, string))
    requires IsParamName(name) && IsParamName(p.0) && IsPlainValue(p.1) && name != p.0
    ensures forall k :: 0 <= k <= |Param(p)| ==> MatchAt(Param(p), name, k).None?
  {
    var t := Param(p);
    assert t[..|t|] == t;
    forall k | 0 <= k <= |t|
      ensures MatchAt(t, name, k).None?
    {
      MatchAtText(t, name, k);
      if k + |name| < |t| {
        NoMatchInsideParam(name, p, t, k);
      }
    }
  }

  /** A single parameter gives its value for its own name and "" for any other. */
  lemma ExtractFromSingle(p: (string, string), name: string)
    requires IsParamName(name) && IsParamName(p.0) && IsPlainValue(p.1)
    ensures ExtractParam(Param(p), name) == if p.0 == name then p.1 else ""
  {
    if p.0 == name {
      ExtractParamAtFront(name, p.1, "");
      assert Param(p) == Opening(name) + p.1 + "\"" + "";
    } else {
      NoMatchInLast(name, p);
      FirstMatchSkips(Param(p), name, 0, |Param(p)|);
      assert FirstMatch(Param(p), name, |Param(p)|).None?;
    }
  }

  /** A parameter followed by a comma gives its value for its own name, and passes any other name
      on to the text after the comma. */
  lemma ExtractFromHead(p: (string, string), rest: string, name: string)
    requires IsParamName(name) && IsParamName(p.0) && IsPlainValue(p.1)
    ensures ExtractParam(Param(p) + "," + rest, name) ==
            if p.0 == name then p.1 else ExtractParam(rest, name)
  {
    if p.0 == name {
      ExtractParamAtFront(name, p.1, "," + rest);
      assert Param(p) + "," + rest == Opening(name) + p.1 + "\"" + ("," + rest);
    } else {
      NoMatchInItem(name, p, rest);
      assert Param(p) + "," + rest == (Param(p) + ",") + rest;
      ExtractParamSkips(Param(p) + ",", rest, name);
    }
  }

  lemma WellFormedTail(ps: seq<(string, string)>)
    requires WellFormedParams(ps) && |ps| > 0
    ensures WellFormedParams(ps[1..])
  {
    forall i, j | 0 <= i < j < |ps[1..]| ensures ps[1..][i].0 != ps[1..][j].0 {
      assert ps[1..][i] == ps[i + 1] && ps[1..][j] == ps[j + 1];
    }
  }

  /** In a well-formed parameter list every parameter is read back with its value, in whatever
      order the parameters come, and an absent one reads as "". */
  lemma {:induction false} ExtractParamRendered(ps: seq<(string, string)>, name: string)
    requires WellFormedParams(ps) && IsParamName(name)
    ensures ExtractParam(Render(ps), name) == ValueOf(ps, name)
    decreases |ps|
  {
    if |ps| == 0 {
      assert MatchAt("", name, 0).None?;
    } else if |ps| == 1 {
      ExtractFromSingle(ps[0], name);
    } else {
      WellFormedTail(ps);
      ExtractFromHead(ps[0], Render(ps[1..]), name);
      ExtractParamRendered(ps[1..], name);
    }
  }

  /** A Bearer challenge, its scheme in any case, parses to the values its parameters carry. */
  lemma ParseRendered(scheme: string, ps: seq<(string, string)>)
    requires ' ' !in scheme && ToLower(scheme) == "bearer" && WellFormedParams(ps)
    ensures ParseAuthenticateStr(scheme + " " + Render(ps)) ==
            Success(WwwAuthenticate(ValueOf(ps, "realm"), ValueOf(ps, "service"), ValueOf(ps, "scope")))
  {
    CutUnique(scheme + " " + Render(ps), ' ', scheme, Render(ps));
    ExtractParamRendered(ps, "realm");
    ExtractParamRendered(ps, "service");
    ExtractParamRendered(ps, "scope");
  }

  /** With distinct names, the value read for a name is the one listed with it. */
  lemma {:induction false} ValueOfListed(ps: seq<(string, string)>, name: string, i: nat)
    requires forall i, j :: 0 <= i < j < |ps| ==> ps[i].0 != ps[j].0
    requires i < |ps| && ps[i].0 == name
    ensures ValueOf(ps, name) == ps[i].1
    decreases |ps|
  {
    if i > 0 {
      assert ps[0].0 != name;
      assert ps[1..][i - 1] == ps[i];
      ValueOfListed(ps[1..], name, i - 1);
    }
  }

  /** A name the list does not carry reads as "". */
  lemma {:induction false} ValueOfAbsent(ps: seq<(string, string)>, name: string)
    requires forall i :: 0 <= i < |ps| ==> ps[i].0 != name
    ensures ValueOf(ps, name) == ""
    decreases |ps|
  {
    if |ps| > 0 {
      assert forall i :: 0 <= i < |ps[1..]| ==> ps[1..][i] == ps[i + 1];
      ValueOfAbsent(ps[1..], name);
    }
  }

  /** Two listings of the same parameters, with distinct names, give every name the same value. */
  lemma ValueOfSameParams(ps: seq<(string, string)>, qs: seq<(string, string)>, name: string)
    requires forall i, j :: 0 <= i < j < |ps| ==> ps[i].0 != ps[j].0
    requires forall i, j :: 0 <= i < j < |qs| ==> qs[i].0 != qs[j].0
    requires multiset(ps) == multiset(qs)
    ensures ValueOf(ps, name) == ValueOf(qs, name)
  {
    if i :| 0 <= i < |ps| && ps[i].0 == name {
      var x := ps[i];
      assert x in multiset(qs);
      var j :| 0 <= j < |qs| && qs[j] == x;
      ValueOfListed(ps, name, i);
      ValueOfListed(qs, name, j);
    } else {
      forall j | 0 <= j < |qs|
        ensures qs[j].0 != name
      {
        var y := qs[j];
        assert y in multiset(ps);
      }
      ValueOfAbsent(ps, name);
      ValueOfAbsent(qs, name);
    }
  }

  /** Parameter order does not matter: two listings of the same parameters parse alike. */
  lemma ParseOrderIndependent(scheme: string, ps: seq<(string, string)>, qs: seq<(string, string)>)
    requires ' ' !in scheme && ToLower(scheme) == "bearer"
    requires WellFormedParams(ps) && WellFormedParams(qs)
    requires multiset(ps) == multiset(qs)
    ensures ParseAuthenticateStr(scheme + " " + Render(ps)) == ParseAuthenticateStr(scheme + " " + Render(qs))
  {
    ParseRendered(scheme, ps);
    ParseRendered(scheme, qs);
    ValueOfSameParams(ps, qs, "realm");
    ValueOfSameParams(ps, qs, "service");
    ValueOfSameParams(ps, qs, "scope");
  }

  /** Listing `realm=""` in front of parameters without a realm keeps them well formed. */
  lemma EmptyRealmWellFormed(ps: seq<(string, string)>)
    requires WellFormedParams(ps)
    requires forall i :: 0 <= i < |ps| ==> ps[i].0 != "realm"
    ensures WellFormedParams([("realm", "")] + ps)
  {
    var qs := [("realm", "")] + ps;
    assert forall i :: 1 <= i < |qs| ==> qs[i] == ps[i - 1];
  }

  /** A challenge without `realm` still parses, with realm "", exactly as one with `realm=""`. */
  lemma MissingRealmParses(scheme: string, ps: seq<(string, string)>)
    requires ' ' !in scheme && ToLower(scheme) == "bearer" && WellFormedParams(ps)
    requires forall i :: 0 <= i < |ps| ==> ps[i].0 != "realm"
    ensures ParseAuthenticateStr(scheme + " " + Render(ps)).Success?
    ensures ParseAuthenticateStr(scheme + " " + Render(ps)).value.realm == ""
    ensures WellFormedParams([("realm", "")] + ps)
    ensures ParseAuthenticateStr(scheme + " " + Render([("realm", "")] + ps)) ==
            ParseAuthenticateStr(scheme + " " + Render(ps))
  {
    var qs := [("realm", "")] + ps;
    EmptyRealmWellFormed(ps);
    ParseRendered(scheme, ps);
    ParseRendered(scheme, qs);
    ValueOfAbsent(ps, "realm");
    assert qs[1..] == ps;
    assert ValueOf(qs, "realm") == "";
    assert ValueOf(qs, "service") == ValueOf(ps, "service");
    assert ValueOf(qs, "scope") == ValueOf(ps, "scope");
  }

  /** Without a space, or with a scheme other than `bearer`, the challenge is malformed. */
  lemma NonBearerFails(scheme: string, rest: string)
    requires ' ' !in scheme && ToLower(scheme) != "bearer"
    ensures ParseAuthenticateStr(scheme + " " + rest) == Failure(MalformedChallenge(scheme + " " + rest))
  {
    CutUnique(scheme + " " + rest, ' ', scheme, rest);
  }

  // ---------------------------------------------------------------------------
  // Token request

  /** The query parameters added to the realm URL: `service` and `scope`, each only when non-empty. */
  function TokenQuery(auth: WwwAuthenticate): (q: map<string, string>)
    ensures "service" in q <==> auth.service != ""
    ensures "scope" in q <==> auth.scope != ""
    ensures "service" in q ==> q["service"] == auth.service
    ensures "scope" in q ==> q["scope"] == auth.scope
    ensures forall k :: k in q ==> k == "service" || k == "scope"
  {
    var withService := if auth.service != "" then map["service" := auth.service] else map[];
    if auth.scope != "" then withService["scope" := auth.scope] else withService
  }

  function TokenRequestFor(auth: WwwAuthenticate): TokenRequest
  {
    TokenRequest(auth.realm, TokenQuery(auth))
  }

  /** `fetchToken`: one GET to the realm; only a 200 answer with a decodable body yields a token. */
  function FetchToken(auth: WwwAuthenticate, fetch: TokenRequest -> FetchOutcome): (r: Result<Token, TokenError>)
    ensures r.Success? <==> fetch(TokenRequestFor(auth)).Reply? && fetch(TokenRequestFor(auth)).status == 200 &&
                            fetch(TokenRequestFor(auth)).body.Some?
    ensures r.Success? ==> r.value == fetch(TokenRequestFor(auth)).body.value
    ensures fetch(TokenRequestFor(auth)).Reply? && fetch(TokenRequestFor(auth)).status != 200 ==>
              r == Failure(TokenStatus(fetch(TokenRequestFor(auth)).status))
  {
    match fetch(TokenRequestFor(auth))
    case Unreachable => Failure(TokenUnreachable)
    case Reply(status, body) =>
      if status != 200 then Failure(TokenStatus(status))
      else
        match body
        case None => Failure(UndecodableToken)
        case Some(token) => Success(token)
  }

  // ---------------------------------------------------------------------------
  // Cache

  /** The text hashed into a cache key. */
  function KeyString(username: string, password: string, auth: WwwAuthenticate): string
  {
    username + ":" + password + "/" + auth.realm + "/" + auth.service + "/" + auth.scope
  }

  /** `authenticateCacheKey`, with `hash` standing for hex-encoded SHA-256. */
  function CacheKey(hash: string -> string, username: string, password: string, auth: WwwAuthenticate): string
  {
    "token/" + hash(KeyString(username, password, auth))
  }

  /** The text before hashing does not separate the fields unambiguously: user `a:b` with password
      `c` and user `a` with password `b:c` share a cache key, whatever the hash. */
  lemma CacheKeyCollision(hash: string -> string, auth: WwwAuthenticate)
    ensures KeyString("a:b", "c", auth) == KeyString("a", "b:c", auth)
    ensures CacheKey(hash, "a:b", "c", auth) == CacheKey(hash, "a", "b:c", auth)
  {
    assert "a:b" + ":" + "c" == "a" + ":" + "b:c";
  }

  /** The key text separates the fields when the username has no colon and the password, realm
      and service have no slash; only the scope, written last, may hold slashes. */
  lemma KeyStringInjective(u1: string, p1: string, a1: WwwAuthenticate, u2: string, p2: string, a2: WwwAuthenticate)
    requires ':' !in u1 && '/' !in p1 && '/' !in a1.realm && '/' !in a1.service
    requires ':' !in u2 && '/' !in p2 && '/' !in a2.realm && '/' !in a2.service
    requires KeyString(u1, p1, a1) == KeyString(u2, p2, a2)
    ensures u1 == u2 && p1 == p2 && a1 == a2
  {
    var k := KeyString(u1, p1, a1);
    var s1 := a1.service + "/" + a1.scope;
    var s2 := a2.service + "/" + a2.scope;
    var r1 := a1.realm + "/" + s1;
    var r2 := a2.realm + "/" + s2;
    var q1 := p1 + "/" + r1;
    var q2 := p2 + "/" + r2;
    assert u1 == u2 && q1 == q2 by {
      assert k == u1 + ":" + q1 && k == u2 + ":" + q2;
      CutUnique(k, ':', u1, q1);
      CutUnique(k, ':', u2, q2);
    }
    assert p1 == p2 && r1 == r2 by {
      CutUnique(q1, '/', p1, r1);
      CutUnique(q1, '/', p2, r2);
    }
    assert a1.realm == a2.realm && s1 == s2 by {
      CutUnique(r1, '/', a1.realm, s1);
      CutUnique(r1, '/', a2.realm, s2);
    }
    assert a1.service == a2.service && a1.scope == a2.scope by {
      CutUnique(s1, '/', a1.service, a1.scope);
      CutUnique(s1, '/', a2.service, a2.scope);
    }
  }

  /** With such fields and a hash without collisions on the two key texts, different credentials or
      challenges never share a cache entry. */
  lemma CacheKeyInjective(hash: string -> string, u1: string, p1: string, a1: WwwAuthenticate,
                          u2: string, p2: string, a2: WwwAuthenticate)
    requires ':' !in u1 && '/' !in p1 && '/' !in a1.realm && '/' !in a1.service
    requires ':' !in u2 && '/' !in p2 && '/' !in a2.realm && '/' !in a2.service
    requires hash(KeyString(u1, p1, a1)) == hash(KeyString(u2, p2, a2)) ==> KeyString(u1, p1, a1) == KeyString(u2, p2, a2)
    requires CacheKey(hash, u1, p1, a1) == CacheKey(hash, u2, p2, a2)
    ensures u1 == u2 && p1 == p2 && a1 == a2
  {
    var h1 := hash(KeyString(u1, p1, a1));
    var h2 := hash(KeyString(u2, p2, a2));
    assert ("token/" + h1)[6..] == h1 && ("token/" + h2)[6..] == h2;
    KeyStringInjective(u1, p1, a1, u2, p2, a2);
  }

  /** A stored token and the last second at which it is still found. */
  datatype CacheEntry = CacheEntry(token: Token, deadline: int)

  /** A cache read at time `now`: only an entry whose deadline has not passed is found. */
  function CacheGet(cache: map<string, CacheEntry>, key: string, now: int): (r: Option<Token>)
    ensures r.Some? <==> key in cache && now <= cache[key].deadline
    ensures r.Some? ==> r.value == cache[key].token
  {
    if key in cache && now <= cache[key].deadline then Some(cache[key].token) else None
  }

  /** A token stored at time `t` with lifetime `e` is found at every time up to `t + e`
      and at no later time; the entries under other keys read as before. */
  lemma CacheSetThenGet(cache: map<string, CacheEntry>, key: string, token: Token, t: int, later: int, other: string)
    requires other != key
    ensures var c := cache[key := CacheEntry(token, t + token.expiresIn)];
      CacheGet(c, key, later) == (if later <= t + token.expiresIn then Some(token) else None) &&
      CacheGet(c, other, later) == CacheGet(cache, other, later)
  {
  }

  /** A token stored at `t1` is found at any `t2` before its lifetime runs out, so `GetToken`
      answers from the cache without a fetch, and not at a `t3` after, so `GetToken` fetches again. */
  lemma CacheWithinTtl(cache: map<string, CacheEntry>, key: string, token: Token, t1: int, t2: int, t3: int)
    requires t1 <= t2 <= t1 + token.expiresIn < t3
    ensures var c := cache[key := CacheEntry(token, t1 + token.expiresIn)];
      CacheGet(c, key, t2) == Some(token) && CacheGet(c, key, t3) == None
  {
  }

  /** Two lookups of the same challenge through one provider. When the first misses and fetches a
      token, a second one up to `expiresIn` seconds later is answered from the cache with the same
      token and no fetch, and a second one after that fetches again. */
  method LookupTwice(provider: TokenProvider, authenticateStr: string, t1: int, t2: int,
                     fetch: TokenRequest -> FetchOutcome)
    returns (r1: Result<Token, TokenError>, r2: Result<Token, TokenError>)
    modifies provider
    ensures r1 == provider.Outcome(old(provider.cache), authenticateStr, t1, fetch)
    ensures provider.Fetches(old(provider.cache), authenticateStr, t1) != [] && r1.Success? ==>
      (t2 <= t1 + r1.value.expiresIn ==> r2 == r1 && |provider.fetchLog| == |old(provider.fetchLog)| + 1) &&
      (t2 > t1 + r1.value.expiresIn ==> |provider.fetchLog| == |old(provider.fetchLog)| + 2)
  {
    ghost var c := provider.cache;
    r1 := provider.GetToken(authenticateStr, t1, fetch);
    if provider.Fetches(c, authenticateStr, t1) != [] && r1.Success? {
      provider.RepeatLookup(c, authenticateStr, t1, t2, fetch);
    }
    r2 := provider.GetToken(authenticateStr, t2, fetch);
  }

  /** The token provider: the client's credentials, a SHA-256 stand-in, and a cache that persists
      across requests. `fetchLog` records each request sent to a realm and `calls` counts the
      calls of `GetToken`. */
  class TokenProvider {
    const username: string
    const password: string
    const hash: string -> string
    var cache: map<string, CacheEntry>
    ghost var fetchLog: seq<TokenRequest>
    ghost var calls: nat

    constructor (username: string, password: string, hash: string -> string)
      ensures this.username == username && this.password == password && this.hash == hash
      ensures cache == map[] && fetchLog == [] && calls == 0
    {
      this.username := username;
      this.password := password;
      this.hash := hash;
      cache := map[];
      fetchLog := [];
      calls := 0;
    }

    function KeyFor(auth: WwwAuthenticate): string
    {
      CacheKey(hash, username, password, auth)
    }

    /** The token `GetToken` answers with when its cache holds `c`. */
    function Outcome(c: map<string, CacheEntry>, authenticateStr: string, now: int,
                     fetch: TokenRequest -> FetchOutcome): Result<Token, TokenError>
    {
      match ParseAuthenticateStr(authenticateStr)
      case Failure(e) => Failure(e)
      case Success(auth) =>
        match CacheGet(c, KeyFor(auth), now)
        case Some(token) => Success(token)
        case None => FetchToken(auth, fetch)
    }

    /** The requests to the realm `GetToken` makes when its cache holds `c`: one on a miss, none on
        a parse failure or a hit. */
    function Fetches(c: map<string, CacheEntry>, authenticateStr: string, now: int): seq<TokenRequest>
    {
      match ParseAuthenticateStr(authenticateStr)
      case Failure(_) => []
      case Success(auth) =>
        if CacheGet(c, KeyFor(auth), now).Some? then [] else [TokenRequestFor(auth)]
    }

    /** The cache after `GetToken` when it held `c`: only a freshly fetched token is stored. */
    function NextCache(c: map<string, CacheEntry>, authenticateStr: string, now: int,
                       fetch: TokenRequest -> FetchOutcome): map<string, CacheEntry>
    {
      match ParseAuthenticateStr(authenticateStr)
      case Failure(_) => c
      case Success(auth) =>
        if CacheGet(c, KeyFor(auth), now).Some? then c
        else
          match FetchToken(auth, fetch)
          case Failure(_) => c
          case Success(token) => c[KeyFor(auth) := CacheEntry(token, now + token.expiresIn)]
    }

    /** A lookup that misses and fetches a token stores it under the challenge's key until
        `now + expiresIn`, and leaves every other entry as it was. */
    lemma NextCacheOnFetch(c: map<string, CacheEntry>, authenticateStr: string, now: int,
                           fetch: TokenRequest -> FetchOutcome)
      requires Fetches(c, authenticateStr, now) != [] && Outcome(c, authenticateStr, now, fetch).Success?
      ensures ParseAuthenticateStr(authenticateStr).Success?
      ensures var token := Outcome(c, authenticateStr, now, fetch).value;
        NextCache(c, authenticateStr, now, fetch) ==
          c[KeyFor(ParseAuthenticateStr(authenticateStr).value) := CacheEntry(token, now + token.expiresIn)]
    {
      match ParseAuthenticateStr(authenticateStr)
      case Success(auth) =>
        assert CacheGet(c, KeyFor(auth), now).None?;
        assert Outcome(c, authenticateStr, now, fetch) == FetchToken(auth, fetch);
        var token := FetchToken(auth, fetch).value;
        assert NextCache(c, authenticateStr, now, fetch) == c[KeyFor(auth) := CacheEntry(token, now + token.expiresIn)];
    }

    /** A lookup with cache `c` at `t1` that misses and fetches a token leaves a cache in which the
        same challenge is answered, with that token and without a fetch, at every `t2` up to
        `t1 + expiresIn`, and answered by a new fetch at every later time. */
    lemma {:induction false} RepeatLookup(c: map<string, CacheEntry>, authenticateStr: string, t1: int, t2: int,
                                          fetch: TokenRequest -> FetchOutcome)
      requires Fetches(c, authenticateStr, t1) != [] && Outcome(c, authenticateStr, t1, fetch).Success?
      ensures var c2 := NextCache(c, authenticateStr, t1, fetch);
              var token := Outcome(c, authenticateStr, t1, fetch).value;
        (t2 <= t1 + token.expiresIn ==>
           Fetches(c2, authenticateStr, t2) == [] && Outcome(c2, authenticateStr, t2, fetch) == Success(token)) &&
        (t2 > t1 + token.expiresIn ==>
           Fetches(c2, authenticateStr, t2) == Fetches(c, authenticateStr, t1))
    {
      NextCacheOnFetch(c, authenticateStr, t1, fetch);
      var auth := ParseAuthenticateStr(authenticateStr).value;
      var key := KeyFor(auth);
      var token := Outcome(c, authenticateStr, t1, fetch).value;
      var c2 := NextCache(c, authenticateStr, t1, fetch);
      assert key in c2 && c2[key] == CacheEntry(token, t1 + token.expiresIn);
      if t2 <= t1 + token.expiresIn {
        assert CacheGet(c2, key, t2) == Some(token);
      } else {
        assert CacheGet(c2, key, t2).None?;
      }
    }

    /** `GetToken`: parse the challenge, answer from the cache when a live entry exists, otherwise
        fetch once and store the fetched token for `expiresIn` seconds. `now`, in seconds, is the
        time of the cache read on a hit and the time of the cache write on a miss (a miss at the
        read is still a miss at the later write); `fetch` is the realm's answer to a request. */
    method GetToken(authenticateStr: string, now: int, fetch: TokenRequest -> FetchOutcome)
      returns (r: Result<Token, TokenError>)
      modifies this
      ensures var parsed := ParseAuthenticateStr(authenticateStr);
        parsed.Failure? ==>
          r == Failure(parsed.error) && cache == old(cache) && fetchLog == old(fetchLog)
      ensures var parsed := ParseAuthenticateStr(authenticateStr);
        parsed.Success? && CacheGet(old(cache), KeyFor(parsed.value), now).Some? ==>
          r == Success(CacheGet(old(cache), KeyFor(parsed.value), now).value) &&
          cache == old(cache) && fetchLog == old(fetchLog)
      ensures var parsed := ParseAuthenticateStr(authenticateStr);
        parsed.Success? && CacheGet(old(cache), KeyFor(parsed.value), now).None? ==>
          fetchLog == old(fetchLog) + [TokenRequestFor(parsed.value)] &&
          r == FetchToken(parsed.value, fetch) &&
          cache == (if r.Success?
                    then old(cache)[KeyFor(parsed.value) := CacheEntry(r.value, now + r.value.expiresIn)]
                    else old(cache))
      ensures r == Outcome(old(cache), authenticateStr, now, fetch)
      ensures cache == NextCache(old(cache), authenticateStr, now, fetch)
      ensures fetchLog == old(fetchLog) + Fetches(old(cache), authenticateStr, now)
      ensures |old(fetchLog)| <= |fetchLog| <= |old(fetchLog)| + 1
      ensures calls == old(calls) + 1
      ensures r.Success? ==>
        (ParseAuthenticateStr(authenticateStr).Success? &&
         KeyFor(ParseAuthenticateStr(authenticateStr).value) in cache &&
         cache[KeyFor(ParseAuthenticateStr(authenticateStr).value)].token == r.value)
    {
      calls := calls + 1;
      var parsed := ParseAuthenticateStr(authenticateStr);
      if parsed.Failure? {
        return Failure(parsed.error);
      }
      var wwwAuth := parsed.value;
      var cacheKey := KeyFor(wwwAuth);
      var cached := CacheGet(cache, cacheKey, now);
      if cached.Some? {
        return Success(cached.value);
      }
      fetchLog := fetchLog + [TokenRequestFor(wwwAuth)];
      var fetched := FetchToken(wwwAuth, fetch);
      if fetched.Failure? {
        return fetched;
      }
      var token := fetched.value;
      cache := cache[cacheKey := CacheEntry(token, now + token.expiresIn)];
      return Success(token);
    }
  }
}
