/**
  * The slice of Go's `net/http` header handling the mirror uses: a header map from
  * canonical key to value list, `http.CanonicalHeaderKey`, `Header.Get` and `Header.Set`.
  */
module Http {
  import opened Strings

  /** `http.Header`: a map from header key to its list of values. */
  type Header = map<string, seq<string>>

  /** A byte that may appear in a header field name (a token character of RFC 7230 section 3.2.6). */
  predicate IsTokenChar(c: char)
  {
    ('a' <= c <= 'z') || ('A' <= c <= 'Z') || ('0' <= c <= '9') ||
    c == '!' || c == '#' || c == '$' || c == '%' || c == '&' || c == '\'' || c == '*' ||
    c == '+' || c == '-' || c == '.' || c == '^' || c == '_' || c == '`' || c == '|' || c == '~'
  }

  /** Go's canonical form of a header key: the first letter and every letter after a
      hyphen upper-cased, all other letters lower-cased. */
  function Canonicalize(s: string): (r: string)
    ensures |r| == |s|
  {
    seq(|s|, i requires 0 <= i < |s| =>
      if i == 0 || s[i - 1] == '-' then UpperChar(s[i]) else LowerChar(s[i]))
  }

  /** `http.CanonicalHeaderKey`: keys holding a non-token character are returned unchanged. */
  function CanonicalHeaderKey(s: string): string
  {
    if forall i :: 0 <= i < |s| ==> IsTokenChar(s[i]) then Canonicalize(s) else s
  }

  /** Upper-casing a letter and lower-casing it again gives its lower-case form. */
  lemma LowerOfUpper(c: char)
    ensures LowerChar(UpperChar(c)) == LowerChar(c)
  {
  }

  /** Canonicalisation changes only the case of letters; a key holding a non-token character is
      left as it is. */
  lemma CanonicalHeaderKeyCase(s: string)
    ensures |CanonicalHeaderKey(s)| == |s|
    ensures forall i :: 0 <= i < |s| ==> LowerChar(CanonicalHeaderKey(s)[i]) == LowerChar(s[i])
    ensures (exists i :: 0 <= i < |s| && !IsTokenChar(s[i])) ==> CanonicalHeaderKey(s) == s
  {
    var r := CanonicalHeaderKey(s);
    if forall i :: 0 <= i < |s| ==> IsTokenChar(s[i]) {
      assert r == Canonicalize(s);
      forall i | 0 <= i < |s|
        ensures LowerChar(r[i]) == LowerChar(s[i])
      {
        LowerOfUpper(s[i]);
      }
    } else {
      assert r == s;
    }
  }

  /** Upper- and lower-casing keep a token character a token character, keep a hyphen a hyphen,
      and do nothing more when repeated. */
  lemma CaseOfTokenChar(c: char)
    requires IsTokenChar(c)
    ensures IsTokenChar(UpperChar(c)) && IsTokenChar(LowerChar(c))
    ensures (UpperChar(c) == '-' <==> c == '-') && (LowerChar(c) == '-' <==> c == '-')
    ensures UpperChar(UpperChar(c)) == UpperChar(c) && LowerChar(LowerChar(c)) == LowerChar(c)
  {
  }

  /** A canonical key is its own canonical form. */
  lemma CanonicalHeaderKeyIdempotent(s: string)
    ensures CanonicalHeaderKey(CanonicalHeaderKey(s)) == CanonicalHeaderKey(s)
  {
    if forall i :: 0 <= i < |s| ==> IsTokenChar(s[i]) {
      var r := Canonicalize(s);
      forall i | 0 <= i < |r|
        ensures IsTokenChar(r[i]) && (r[i] == '-' <==> s[i] == '-')
      {
        CaseOfTokenChar(s[i]);
      }
      forall i | 0 <= i < |r|
        ensures Canonicalize(r)[i] == r[i]
      {
        CaseOfTokenChar(s[i]);
        assert i == 0 || (r[i - 1] == '-' <==> s[i - 1] == '-');
      }
    }
  }

  /** `Header.Get`: the first value stored under the canonical key, or "" when there is none. */
  function HeaderGet(h: Header, key: string): (v: string)
    ensures CanonicalHeaderKey(key) in h && |h[CanonicalHeaderKey(key)]| > 0 ==> v == h[CanonicalHeaderKey(key)][0]
    ensures !(CanonicalHeaderKey(key) in h && |h[CanonicalHeaderKey(key)]| > 0) ==> v == ""
  {
    var k := CanonicalHeaderKey(key);
    if k in h && |h[k]| > 0 then h[k][0] else ""
  }

  /** `Header.Set`: the canonical key now holds exactly `[value]`; every other key is untouched. */
  function HeaderSet(h: Header, key: string, value: string): (r: Header)
    ensures CanonicalHeaderKey(key) in r && r[CanonicalHeaderKey(key)] == [value]
    ensures forall k :: k != CanonicalHeaderKey(key) ==> (k in r <==> k in h) && (k in h ==> r[k] == h[k])
  {
    h[CanonicalHeaderKey(key) := [value]]
  }

  /** The canonical forms of the header names the mirror forwards or reads. */
  lemma CanonicalAccept()
    ensures CanonicalHeaderKey("accept") == "Accept"
  {
  }

  lemma CanonicalUserAgent()
    ensures CanonicalHeaderKey("user-agent") == "User-Agent"
  {
    var s := "user-agent";
    assert forall i :: 0 <= i < |s| ==> IsTokenChar(s[i]);
    assert Canonicalize(s) == "User-Agent";
  }

  /** Canonicalisation works word by word: a hyphen starts a new word. */
  lemma CanonicalizeHyphen(a: string, b: string)
    ensures Canonicalize(a + "-" + b) == Canonicalize(a) + "-" + Canonicalize(b)
  {
    var s := a + "-" + b;
    var r := Canonicalize(a) + "-" + Canonicalize(b);
    forall i | 0 <= i < |s|
      ensures Canonicalize(s)[i] == r[i]
    {
      if i > |a| {
        assert s[i] == b[i - |a| - 1];
        assert i - 1 == |a| || s[i - 1] == b[i - |a| - 2];
      } else if i < |a| {
        assert s[i] == a[i];
        assert i == 0 || s[i - 1] == a[i - 1];
      }
    }
  }

  lemma CanonicalizeEncoding()
    ensures Canonicalize("encoding") == "Encoding"
  {
  }

  lemma CanonicalAcceptEncoding()
    ensures CanonicalHeaderKey("accept-encoding") == "Accept-Encoding"
  {
    var s := "accept-encoding";
    assert forall i :: 0 <= i < |s| ==> IsTokenChar(s[i]);
    assert Canonicalize(s) == Canonicalize("accept") + "-" + Canonicalize("encoding") by {
      assert s == "accept" + "-" + "encoding";
      CanonicalizeHyphen("accept", "encoding");
    }
    CanonicalAccept();
    CanonicalizeEncoding();
    assert Canonicalize("accept") + "-" + Canonicalize("encoding") == "Accept-Encoding";
  }

  lemma CanonicalAuthorization()
    ensures CanonicalHeaderKey("authorization") == "Authorization"
  {
    var s := "authorization";
    assert forall i :: 0 <= i < |s| ==> IsTokenChar(s[i]);
    assert Canonicalize(s) == "Authorization";
  }

  lemma CanonicalAuthorizationKept()
    ensures CanonicalHeaderKey("Authorization") == "Authorization"
  {
    var s := "Authorization";
    assert forall i :: 0 <= i < |s| ==> IsTokenChar(s[i]);
    assert Canonicalize(s) == s;
  }

  lemma CanonicalWwwAuthenticate()
    ensures CanonicalHeaderKey("Www-Authenticate") == "Www-Authenticate"
  {
    var s := "Www-Authenticate";
    assert forall i :: 0 <= i < |s| ==> IsTokenChar(s[i]);
    assert Canonicalize(s) == s;
  }
}
