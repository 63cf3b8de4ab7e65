/** Cache-key derivation of NetworkManager (getCacheKey, getSessionKey). */
module CacheKeys {
  import opened Wrappers
  import opened Text
  import opened Json
  import opened Base64

  const CACHE_VERSION: string := "v1"

  /** `mdc_cache_${VERSION}_`: the namespace of the session tier. */
  const SESSION_PREFIX: string := "mdc_cache_" + CACHE_VERSION + "_"

  /** `options.method || 'GET'`. */
  function MethodName(verb: Option<string>): string
  {
    if verb.Some? && verb.value != "" then verb.value else "GET"
  }

  /** `options.body ? JSON.stringify(options.body) : ''`. */
  function BodyText(body: Option<Json>): string
  {
    if body.Some? && Truthy(body.value) then Stringify(body.value) else ""
  }

  /** getCacheKey: `${METHOD}:${url}:${body}` with the method upper-cased. */
  function GetCacheKey(url: string, verb: Option<string>, body: Option<Json>): string
  {
    Upper(MethodName(verb)) + ":" + url + ":" + BodyText(body)
  }

  predicate NoColon(s: string)
  {
    forall i :: 0 <= i < |s| ==> s[i] != ':'
  }

  /** In `a + ":" + r` with no ':' in `a`, the first ':' stands at index |a|. */
  lemma FirstColon(a: string, r: string)
    requires NoColon(a)
    ensures (a + ":" + r)[|a|] == ':'
    ensures forall i :: 0 <= i < |a| ==> (a + ":" + r)[i] != ':'
  {
  }

  /** A method name without ':' ends at the first ':' of a key, so the key gives it back. */
  lemma SplitAtFirstColon(a: string, r: string, a': string, r': string)
    requires NoColon(a) && NoColon(a')
    requires a + ":" + r == a' + ":" + r'
    ensures a == a' && r == r'
  {
    var k := a + ":" + r;
    FirstColon(a, r);
    FirstColon(a', r');
    assert |a| == |a'|;
    assert a == k[..|a|] && a' == k[..|a|];
    assert r == k[|a| + 1..] && r' == k[|a| + 1..];
  }

  lemma UpperNoColon(s: string)
    requires NoColon(s)
    ensures NoColon(Upper(s))
  {
  }

  /** Splitting `M:u:t` at its first ':' and at its length gives the parts back. */
  lemma SplitKey(M1: string, u1: string, t1: string, M2: string, u2: string, t2: string)
    requires NoColon(M1) && NoColon(M2)
    requires M1 + ":" + u1 + ":" + t1 == M2 + ":" + u2 + ":" + t2
    ensures M1 == M2
    ensures u1 == u2 ==> t1 == t2
    ensures t1 == t2 ==> u1 == u2
  {
    assert M1 + ":" + u1 + ":" + t1 == M1 + ":" + (u1 + ":" + t1);
    assert M2 + ":" + u2 + ":" + t2 == M2 + ":" + (u2 + ":" + t2);
    SplitAtFirstColon(M1, u1 + ":" + t1, M2, u2 + ":" + t2);
    var rest := u1 + ":" + t1;
    assert rest == u2 + ":" + t2;
    if u1 == u2 {
      assert t1 == rest[|u1| + 1..] && t2 == rest[|u2| + 1..];
    }
    if t1 == t2 {
      assert u1 == rest[..|u1|] && u2 == rest[..|u2|];
    }
  }

  /** Equal keys mean the same upper-cased method, and for one URL the same body text
      (for one body text, the same URL): the key separates what the manager must keep apart. */
  lemma CacheKeyInjective(u1: string, m1: Option<string>, b1: Option<Json>,
                          u2: string, m2: Option<string>, b2: Option<Json>)
    requires NoColon(MethodName(m1)) && NoColon(MethodName(m2))
    requires GetCacheKey(u1, m1, b1) == GetCacheKey(u2, m2, b2)
    ensures Upper(MethodName(m1)) == Upper(MethodName(m2))
    ensures u1 == u2 ==> BodyText(b1) == BodyText(b2)
    ensures BodyText(b1) == BodyText(b2) ==> u1 == u2
  {
    UpperNoColon(MethodName(m1));
    UpperNoColon(MethodName(m2));
    SplitKey(Upper(MethodName(m1)), u1, BodyText(b1), Upper(MethodName(m2)), u2, BodyText(b2));
  }

  /** The method is case-insensitive: `get`, `Get` and `GET` give one key. */
  lemma {:induction false} CacheKeyMethodCase(url: string, m: string, body: Option<Json>)
    ensures GetCacheKey(url, Some(m), body) == GetCacheKey(url, Some(Upper(m)), body)
    ensures GetCacheKey(url, None, body) == GetCacheKey(url, Some("get"), body)
  {
    assert Upper(Upper(m)) == Upper(m);
    assert Upper("get") == "GET";
    assert Upper("GET") == "GET";
  }

  /** getSessionKey as written: the prefix, then btoa(key) with every '+', '/' and '='
      removed. None when btoa throws (a character above U+00FF). */
  function SessionKeyAsWritten(cacheKey: string): (r: Option<string>)
    ensures r.Some? <==> Latin1(cacheKey).Some?
    ensures r.Some? ==> StartsWith(r.value, SESSION_PREFIX)
  {
    match Btoa(cacheKey)
    case None => None
    case Some(e) => Some(SESSION_PREFIX + StripMarks(e))
  }

  /** getSessionKey as corrected: the prefix, then the whole btoa text. */
  function GetSessionKey(cacheKey: string): (r: Option<string>)
    ensures r.Some? <==> forall i :: 0 <= i < |cacheKey| ==> cacheKey[i] as int < 256
    ensures r.Some? ==> StartsWith(r.value, SESSION_PREFIX)
    ensures r.Some? ==> forall i :: |SESSION_PREFIX| <= i < |r.value| ==>
                          IsAlphabetChar(r.value[i]) || r.value[i] == '='
  {
    match Btoa(cacheKey)
    case None => None
    case Some(e) => Some(SESSION_PREFIX + e)
  }

  /** Distinct cache keys get distinct session keys. */
  lemma SessionKeyInjective(k1: string, k2: string)
    requires GetSessionKey(k1).Some? && GetSessionKey(k1) == GetSessionKey(k2)
    ensures k1 == k2
  {
    var s1, s2 := GetSessionKey(k1).value, GetSessionKey(k2).value;
    assert Btoa(k1).value == s1[|SESSION_PREFIX|..];
    assert Btoa(k2).value == s2[|SESSION_PREFIX|..];
    BtoaInjective(k1, k2);
  }

  /** One base64 group ends in '/' for a third byte '?' (0x3F) and in '+' for '>' (0x3E);
      the first three characters agree, so stripping makes the two groups equal. */
  lemma GroupStripCollision(x: byte, y: byte)
    ensures StripMarks(EncodeGroup([x, y, 0x3F])) == StripMarks(EncodeGroup([x, y, 0x3E]))
  {
    var g1, g2 := EncodeGroup([x, y, 0x3F]), EncodeGroup([x, y, 0x3E]);
    assert g1 == g1[..3] + ['/'] && g2 == g1[..3] + ['+'];
    StripMarksAppend(g1[..3], ['/']);
    StripMarksAppend(g1[..3], ['+']);
  }

  /** The bytes of `p + [c] + q` are the bytes of `p`, the byte of `c`, the bytes of `q`. */
  lemma Latin1Splice(p: string, c: char, q: string)
    requires Latin1(p).Some? && Latin1(q).Some? && c as int < 256
    ensures Latin1(p + [c] + q).Some?
    ensures Latin1(p + [c] + q).value == Latin1(p).value + [c as int] + Latin1(q).value
  {
    var s := p + [c] + q;
    assert forall i :: 0 <= i < |s| ==> s[i] as int < 256 by {
      forall i | 0 <= i < |s| ensures s[i] as int < 256 {
        if i < |p| { assert s[i] == p[i]; }
        else if i > |p| { assert s[i] == q[i - |p| - 1]; }
      }
    }
  }

  /** Encoding `head + g + tail` with `|head|` and `|g|` multiples of three, group by group. */
  lemma EncodeSplice(head: seq<byte>, g: seq<byte>, tail: seq<byte>)
    requires |head| % 3 == 0 && |g| == 3
    ensures EncodeBytes(head + g + tail) == EncodeBytes(head) + EncodeGroup(g) + EncodeBytes(tail)
  {
    assert head + g + tail == head + (g + tail);
    EncodeAppend(head, g + tail);
    EncodeAppend(g, tail);
    assert EncodeBytes(g) == EncodeGroup(g);
  }

  /** Stripping `a + g + b` strips each part. */
  lemma StripSplice(a: string, g: string, b: string)
    ensures StripMarks(a + g + b) == StripMarks(a) + StripMarks(g) + StripMarks(b)
  {
    assert a + g + b == a + (g + b);
    StripMarksAppend(a, g + b);
    StripMarksAppend(g, b);
  }

  /** A cache key with '?' at an index congruent to 2 modulo 3 and the same key with '>'
      there get one session key under the as-written derivation. */
  lemma StripCollision(p: string, q: string)
    requires |p| % 3 == 2
    requires Latin1(p).Some? && Latin1(q).Some?
    ensures Btoa(p + "?" + q).Some? && Btoa(p + ">" + q).Some?
    ensures StripMarks(Btoa(p + "?" + q).value) == StripMarks(Btoa(p + ">" + q).value)
  {
    var bp, bq := Latin1(p).value, Latin1(q).value;
    Latin1Splice(p, '?', q);
    Latin1Splice(p, '>', q);
    var head := bp[..|bp| - 2];
    var x, y := bp[|bp| - 2], bp[|bp| - 1];
    assert bp + [0x3F] + bq == head + [x, y, 0x3F] + bq;
    assert bp + [0x3E] + bq == head + [x, y, 0x3E] + bq;
    EncodeSplice(head, [x, y, 0x3F], bq);
    EncodeSplice(head, [x, y, 0x3E], bq);
    var eh, eq := EncodeBytes(head), EncodeBytes(bq);
    StripSplice(eh, EncodeGroup([x, y, 0x3F]), eq);
    StripSplice(eh, EncodeGroup([x, y, 0x3E]), eq);
    GroupStripCollision(x, y);
  }

  /** The collision on the properties endpoint: '?' sits at index 20 of
      "GET:/site/properties?page=1:". */
  lemma SessionKeyAsWrittenCollides()
    ensures "GET:/site/properties?page=1:" != "GET:/site/properties>page=1:"
    ensures SessionKeyAsWritten("GET:/site/properties?page=1:").Some?
    ensures SessionKeyAsWritten("GET:/site/properties?page=1:")
            == SessionKeyAsWritten("GET:/site/properties>page=1:")
  {
    CollidingKeys();
    StripCollision("GET:/site/properties", "page=1:");
  }

  /** The two keys of the collision, split around index 20. */
  lemma CollidingKeys()
    ensures var p, q := "GET:/site/properties", "page=1:";
            |p| == 20 && Latin1(p).Some? && Latin1(q).Some?
    ensures var p, q := "GET:/site/properties", "page=1:";
            p + "?" + q == "GET:/site/properties?page=1:"
            && p + ">" + q == "GET:/site/properties>page=1:"
            && "GET:/site/properties?page=1:" != "GET:/site/properties>page=1:"
  {
    assert "GET:/site/properties?page=1:"[20] != "GET:/site/properties>page=1:"[20];
  }
}
