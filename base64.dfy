/** btoa: the base64 encoding of RFC 4648, section 4, applied to a string whose
    characters are all at most U+00FF (one byte each); any other character makes
    btoa throw. */
module Base64 {
  import opened Wrappers

  type byte = x: int | 0 <= x < 256

  /** The character for a 6-bit value in the base64 alphabet A-Z a-z 0-9 + /. */
  function Sextet(v: nat): (c: char)
    requires v < 64
  {
    if v < 26 then ('A' as int + v) as char
    else if v < 52 then ('a' as int + v - 26) as char
    else if v < 62 then ('0' as int + v - 52) as char
    else if v == 62 then '+'
    else '/'
  }

  predicate IsAlphabetChar(c: char)
  {
    'A' <= c <= 'Z' || 'a' <= c <= 'z' || '0' <= c <= '9' || c == '+' || c == '/'
  }

  /** The 6-bit value of an alphabet character ('=' and anything else read as 0). */
  function SextetValue(c: char): (v: nat)
    ensures v < 64
  {
    if 'A' <= c <= 'Z' then c as int - 'A' as int
    else if 'a' <= c <= 'z' then c as int - 'a' as int + 26
    else if '0' <= c <= '9' then c as int - '0' as int + 52
    else if c == '+' then 62
    else if c == '/' then 63
    else 0
  }

  lemma SextetInAlphabet(v: nat)
    requires v < 64
    ensures IsAlphabetChar(Sextet(v))
  {
  }

  lemma SextetRoundTrip(v: nat)
    requires v < 64
    ensures SextetValue(Sextet(v)) == v
  {
  }

  /** The bytes of a string whose characters all fit in one byte; None when btoa would throw. */
  function Latin1(s: string): (r: Option<seq<byte>>)
    ensures r.Some? <==> forall i :: 0 <= i < |s| ==> s[i] as int < 256
    ensures r.Some? ==> |r.value| == |s| && forall i :: 0 <= i < |s| ==> r.value[i] == s[i] as int
  {
    if forall i :: 0 <= i < |s| ==> s[i] as int < 256 then
      Some(seq(|s|, i requires 0 <= i < |s| => s[i] as int as byte))
    else None
  }

  /** The four characters for a group of one to three bytes, padded with '='. */
  function EncodeGroup(g: seq<byte>): (r: string)
    requires 1 <= |g| <= 3
    ensures |r| == 4
    ensures forall i :: 0 <= i < 4 ==> IsAlphabetChar(r[i]) || r[i] == '='
  {
    var x := g[0];
    var y: byte := if |g| >= 2 then g[1] else 0;
    var z: byte := if |g| == 3 then g[2] else 0;
    SextetInAlphabet(x / 4);
    SextetInAlphabet((x % 4) * 16 + y / 16);
    SextetInAlphabet((y % 16) * 4 + z / 64);
    SextetInAlphabet(z % 64);
    [Sextet(x / 4), Sextet((x % 4) * 16 + y / 16),
     if |g| >= 2 then Sextet((y % 16) * 4 + z / 64) else '=',
     if |g| == 3 then Sextet(z % 64) else '=']
  }

  /** Base64 text of a byte sequence, padded with '=' to a multiple of four characters. */
  function EncodeBytes(b: seq<byte>): (r: string)
    ensures |r| == 4 * ((|b| + 2) / 3)
    ensures forall i :: 0 <= i < |r| ==> IsAlphabetChar(r[i]) || r[i] == '='
    decreases |b|
  {
    if |b| == 0 then ""
    else if |b| <= 3 then EncodeGroup(b)
    else EncodeGroup(b[..3]) + EncodeBytes(b[3..])
  }

  /** btoa(s). */
  function Btoa(s: string): (r: Option<string>)
    ensures r.Some? <==> Latin1(s).Some?
  {
    match Latin1(s)
    case None => None
    case Some(b) => Some(EncodeBytes(b))
  }

  /** Reads back one group of four characters. */
  function DecodeQuad(q: string): (r: seq<byte>)
    requires |q| == 4
  {
    var v0, v1, v2, v3 := SextetValue(q[0]), SextetValue(q[1]), SextetValue(q[2]), SextetValue(q[3]);
    var b0 := v0 * 4 + v1 / 16;
    var b1 := (v1 % 16) * 16 + v2 / 4;
    var b2 := (v2 % 4) * 64 + v3;
    if q[2] == '=' then [b0] else if q[3] == '=' then [b0, b1] else [b0, b1, b2]
  }

  /** atob on well-formed input: reads back the bytes of a padded base64 text. */
  function DecodeChars(s: string): (r: seq<byte>)
    decreases |s|
  {
    if |s| < 4 then [] else DecodeQuad(s[..4]) + DecodeChars(s[4..])
  }

  /** The arithmetic of one full group: the three bytes come back from their four sextets. */
  lemma GroupArithmetic(x: byte, y: byte, z: byte)
    ensures var v0, v1 := x / 4, (x % 4) * 16 + y / 16;
            var v2, v3 := (y % 16) * 4 + z / 64, z % 64;
            v0 * 4 + v1 / 16 == x && (v1 % 16) * 16 + v2 / 4 == y && (v2 % 4) * 64 + v3 == z
  {
    var v1 := (x % 4) * 16 + y / 16;
    assert v1 / 16 == x % 4 && v1 % 16 == y / 16;
    var v2 := (y % 16) * 4 + z / 64;
    assert v2 / 4 == y % 16 && v2 % 4 == z / 64;
  }

  lemma DecodeGroup(g: seq<byte>)
    requires 1 <= |g| <= 3
    ensures DecodeQuad(EncodeGroup(g)) == g
  {
    var x := g[0];
    var y: byte := if |g| >= 2 then g[1] else 0;
    var z: byte := if |g| == 3 then g[2] else 0;
    SextetRoundTrip(x / 4);
    SextetRoundTrip((x % 4) * 16 + y / 16);
    SextetRoundTrip((y % 16) * 4 + z / 64);
    SextetRoundTrip(z % 64);
    GroupArithmetic(x, y, z);
  }

  /** Decoding undoes encoding, so different byte sequences never share a base64 text. */
  lemma {:induction false} DecodeEncode(b: seq<byte>)
    ensures DecodeChars(EncodeBytes(b)) == b
    decreases |b|
  {
    var e := EncodeBytes(b);
    if |b| == 0 {
    } else if |b| <= 3 {
      DecodeGroup(b);
      assert e[..4] == e && e[4..] == [];
    } else {
      DecodeGroup(b[..3]);
      assert e[..4] == EncodeGroup(b[..3]);
      assert e[4..] == EncodeBytes(b[3..]);
      DecodeEncode(b[3..]);
      assert b == b[..3] + b[3..];
    }
  }

  lemma EncodeInjective(a: seq<byte>, b: seq<byte>)
    requires EncodeBytes(a) == EncodeBytes(b)
    ensures a == b
  {
    DecodeEncode(a);
    DecodeEncode(b);
  }

  /** Different strings never share a btoa text. */
  lemma BtoaInjective(s: string, t: string)
    requires Btoa(s).Some? && Btoa(s) == Btoa(t)
    ensures s == t
  {
    var bs, bt := Latin1(s).value, Latin1(t).value;
    EncodeInjective(bs, bt);
    assert |s| == |t|;
    forall i | 0 <= i < |s| ensures s[i] == t[i] {
      assert s[i] as int == bs[i] == bt[i] == t[i] as int;
    }
  }

  /** Encoding distributes over concatenation at a three-byte boundary. */
  lemma {:induction false} EncodeAppend(a: seq<byte>, b: seq<byte>)
    requires |a| % 3 == 0
    ensures EncodeBytes(a + b) == EncodeBytes(a) + EncodeBytes(b)
    decreases |a|
  {
    if |a| > 0 {
      assert (a + b)[3..] == a[3..] + b;
      assert (a + b)[..3] == a[..3];
      EncodeAppend(a[3..], b);
    } else {
      assert a + b == b;
    }
  }

  /** `.replace(/[+/=]/g, '')`: drops every '+', '/' and '='. */
  function StripMarks(s: string): (r: string)
    ensures |r| <= |s|
    ensures forall i :: 0 <= i < |r| ==> r[i] != '+' && r[i] != '/' && r[i] != '='
    decreases |s|
  {
    if s == [] then ""
    else if s[0] == '+' || s[0] == '/' || s[0] == '=' then StripMarks(s[1..])
    else [s[0]] + StripMarks(s[1..])
  }

  /** Stripping adds no character: one absent from the text stays absent. */
  lemma {:induction false} StripMarksAbsent(s: string, c: char)
    requires forall i :: 0 <= i < |s| ==> s[i] != c
    ensures forall i :: 0 <= i < |StripMarks(s)| ==> StripMarks(s)[i] != c
    decreases |s|
  {
    if s != [] {
      StripMarksAbsent(s[1..], c);
    }
  }

  lemma {:induction false} StripMarksAppend(a: string, b: string)
    ensures StripMarks(a + b) == StripMarks(a) + StripMarks(b)
    decreases |a|
  {
    if a != [] {
      assert (a + b)[1..] == a[1..] + b;
      StripMarksAppend(a[1..], b);
    } else {
      assert a + b == b;
    }
  }
}
