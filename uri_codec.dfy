/** encodeURIComponent and decodeURIComponent (ECMAScript's Encode and Decode with
    the component sets): every character outside the unreserved set becomes the
    percent-escapes of its UTF-8 bytes (RFC 3629), with upper-case hexadecimal digits
    (section 2.1 of RFC 3986); decoding reads them back and fails, as URIError does,
    on a malformed escape or an invalid UTF-8 sequence. */
module UriCodec {
  import opened Wrappers
  import opened Text
  import opened Base64

  /** The characters encodeURIComponent leaves alone: A-Z a-z 0-9 - _ . ! ~ * ' ( ) */
  predicate IsUnreserved(c: char)
  {
    IsAsciiUpper(c) || IsAsciiLower(c) || IsDigit(c)
    || c == '-' || c == '_' || c == '.' || c == '!' || c == '~' || c == '*' || c == '\''
    || c == '(' || c == ')'
  }

  predicate IsHexChar(c: char)
  {
    IsDigit(c) || 'A' <= c <= 'F' || 'a' <= c <= 'f'
  }

  function HexUpper(d: nat): (c: char)
    requires d < 16
    ensures IsHexChar(c) && c != '%' && c != '/'
  {
    if d < 10 then ('0' as int + d) as char else ('A' as int + d - 10) as char
  }

  function HexValue(c: char): (d: nat)
    requires IsHexChar(c)
    ensures d < 16
  {
    if IsDigit(c) then c as int - '0' as int
    else if 'A' <= c <= 'F' then c as int - 'A' as int + 10
    else c as int - 'a' as int + 10
  }

  lemma HexRoundTrip(d: nat)
    requires d < 16
    ensures HexValue(HexUpper(d)) == d
  {
  }

  /** The UTF-8 bytes of one code point. */
  function Utf8(c: char): (r: seq<byte>)
    ensures 1 <= |r| <= 4
  {
    var cp := c as int;
    if cp < 0x80 then [cp]
    else if cp < 0x800 then [0xC0 + cp / 64, 0x80 + cp % 64]
    else if cp < 0x10000 then [0xE0 + cp / 4096, 0x80 + cp / 64 % 64, 0x80 + cp % 64]
    else [0xF0 + cp / 262144, 0x80 + cp / 4096 % 64, 0x80 + cp / 64 % 64, 0x80 + cp % 64]
  }

  function PercentByte(b: byte): (r: string)
    ensures |r| == 3 && r[0] == '%'
  {
    ['%', HexUpper(b / 16), HexUpper(b % 16)]
  }

  function PercentBytes(bs: seq<byte>): (r: string)
    ensures |r| == 3 * |bs|
    ensures forall i :: 0 <= i < |r| ==> r[i] == '%' || IsHexChar(r[i])
    ensures forall i :: 0 <= i < |r| ==> r[i] != '/'
    decreases |bs|
  {
    if bs == [] then "" else PercentByte(bs[0]) + PercentBytes(bs[1..])
  }

  function EncodeChar(c: char): (r: string)
    ensures r != []
    ensures forall i :: 0 <= i < |r| ==> IsUnreserved(r[i]) || r[i] == '%' || IsHexChar(r[i])
  {
    if IsUnreserved(c) then [c] else PercentBytes(Utf8(c))
  }

  /** encodeURIComponent (it cannot throw here: a char is never a lone surrogate). */
  function EncodeUriComponent(s: string): (r: string)
    ensures forall i :: 0 <= i < |r| ==> IsUnreserved(r[i]) || r[i] == '%' || IsHexChar(r[i])
    ensures forall i :: 0 <= i < |r| ==> r[i] != '/'
    ensures s == [] <==> r == []
    decreases |s|
  {
    if s == [] then "" else EncodeChar(s[0]) + EncodeUriComponent(s[1..])
  }

  /** The byte of the escape `%XY` at index k, when there is one. */
  function ReadByte(s: string, k: nat): (r: Option<byte>)
  {
    if k + 2 < |s| && s[k] == '%' && IsHexChar(s[k + 1]) && IsHexChar(s[k + 2])
    then Some(HexValue(s[k + 1]) * 16 + HexValue(s[k + 2]))
    else None
  }

  /** A continuation byte 10xxxxxx at the escape starting at index k: its six low bits. */
  function ReadCont(s: string, k: nat): (r: Option<nat>)
    ensures r.Some? ==> r.value < 64
  {
    match ReadByte(s, k)
    case Some(b) => if 0x80 <= b < 0xC0 then Some(b - 0x80) else None
    case None => None
  }

  predicate IsScalar(cp: int)
  {
    0 <= cp < 0xD800 || 0xE000 <= cp <= 0x10FFFF
  }

  /** The first character of a text to decode and the number of text characters it
      took; None where decodeURIComponent throws URIError. Multi-byte sequences must be
      the shortest form of a scalar value. */
  function DecodeOne(s: string): (r: Option<(char, nat)>)
    requires s != []
    ensures r.Some? ==> 1 <= r.value.1 <= |s|
  {
    if s[0] != '%' then Some((s[0], 1))
    else match ReadByte(s, 0)
      case None => None
      case Some(b) =>
        if b < 0x80 then Some((b as char, 3))
        else if b < 0xC0 then None
        else if b < 0xE0 then
          match ReadCont(s, 3)
          case None => None
          case Some(c1) =>
            var cp := (b - 0xC0) * 64 + c1;
            if cp >= 0x80 then Some((cp as char, 6)) else None
        else if b < 0xF0 then
          match (ReadCont(s, 3), ReadCont(s, 6))
          case (Some(c1), Some(c2)) =>
            var cp := (b - 0xE0) * 4096 + c1 * 64 + c2;
            if cp >= 0x800 && IsScalar(cp) then Some((cp as char, 9)) else None
          case _ => None
        else if b < 0xF8 then
          match (ReadCont(s, 3), ReadCont(s, 6), ReadCont(s, 9))
          case (Some(c1), Some(c2), Some(c3)) =>
            var cp := (b - 0xF0) * 262144 + c1 * 4096 + c2 * 64 + c3;
            if 0x10000 <= cp <= 0x10FFFF then Some((cp as char, 12)) else None
          case _ => None
        else None
  }

  /** decodeURIComponent: None where it throws URIError. */
  function DecodeUriComponent(s: string): (r: Option<string>)
    decreases |s|
  {
    if s == [] then Some("")
    else match DecodeOne(s)
      case None => None
      case Some((c, used)) =>
        match DecodeUriComponent(s[used..])
        case None => None
        case Some(rest) => Some([c] + rest)
  }

  /** Text without '%' decodes to itself. */
  lemma {:induction false} DecodePlain(s: string)
    requires forall i :: 0 <= i < |s| ==> s[i] != '%'
    ensures DecodeUriComponent(s) == Some(s)
    decreases |s|
  {
    if s != [] {
      DecodePlain(s[1..]);
      assert [s[0]] + s[1..] == s;
    }
  }

  /** The escapes of a byte sequence read back byte by byte. */
  lemma {:induction false} ReadPercentBytes(bs: seq<byte>, rest: string, j: nat)
    requires j < |bs|
    ensures ReadByte(PercentBytes(bs) + rest, 3 * j) == Some(bs[j])
    decreases j
  {
    var t := PercentBytes(bs) + rest;
    if j == 0 {
      assert t[..3] == PercentByte(bs[0]);
      HexRoundTrip(bs[0] / 16);
      HexRoundTrip(bs[0] % 16);
    } else {
      ReadPercentBytes(bs[1..], rest, j - 1);
      assert t == PercentByte(bs[0]) + (PercentBytes(bs[1..]) + rest);
      var u := PercentBytes(bs[1..]) + rest;
      assert t[3 * j..] == u[3 * (j - 1)..];
      assert t[3 * j] == u[3 * (j - 1)] && t[3 * j + 1] == u[3 * (j - 1) + 1]
             && t[3 * j + 2] == u[3 * (j - 1) + 2];
    }
  }

  /** The arithmetic of the UTF-8 forms: lead byte range and the code point back. */
  lemma Utf8Two(cp: int)
    requires 0x80 <= cp < 0x800
    ensures 0xC0 <= 0xC0 + cp / 64 < 0xE0
    ensures (cp / 64) * 64 + cp % 64 == cp
  {
  }

  lemma Utf8Three(cp: int)
    requires 0x800 <= cp < 0x10000
    ensures 0xE0 <= 0xE0 + cp / 4096 < 0xF0
    ensures (cp / 4096) * 4096 + (cp / 64 % 64) * 64 + cp % 64 == cp
  {
    assert cp / 64 == (cp / 4096) * 64 + cp / 64 % 64;
  }

  lemma Utf8Four(cp: int)
    requires 0x10000 <= cp <= 0x10FFFF
    ensures 0xF0 <= 0xF0 + cp / 262144 < 0xF8
    ensures (cp / 262144) * 262144 + (cp / 4096 % 64) * 4096 + (cp / 64 % 64) * 64 + cp % 64 == cp
  {
    assert cp / 4096 == (cp / 262144) * 64 + cp / 4096 % 64;
    assert cp / 64 == (cp / 4096) * 64 + cp / 64 % 64;
  }

  lemma DecodeOneTwo(c: char, rest: string)
    requires 0x80 <= c as int < 0x800
    ensures DecodeOne(PercentBytes(Utf8(c)) + rest) == Some((c, 6))
  {
    var cp := c as int;
    var bs := Utf8(c);
    var t := PercentBytes(bs) + rest;
    Utf8Two(cp);
    ReadPercentBytes(bs, rest, 0);
    ReadPercentBytes(bs, rest, 1);
    assert ReadByte(t, 0) == Some(0xC0 + cp / 64);
    assert ReadCont(t, 3) == Some(cp % 64);
  }

  lemma DecodeOneThree(c: char, rest: string)
    requires 0x800 <= c as int < 0x10000
    ensures DecodeOne(PercentBytes(Utf8(c)) + rest) == Some((c, 9))
  {
    var cp := c as int;
    var bs := Utf8(c);
    var t := PercentBytes(bs) + rest;
    Utf8Three(cp);
    ReadPercentBytes(bs, rest, 0);
    ReadPercentBytes(bs, rest, 1);
    ReadPercentBytes(bs, rest, 2);
    assert ReadByte(t, 0) == Some(0xE0 + cp / 4096);
    assert ReadCont(t, 3) == Some(cp / 64 % 64);
    assert ReadCont(t, 6) == Some(cp % 64);
    assert IsScalar(cp);
  }

  lemma DecodeOneFour(c: char, rest: string)
    requires 0x10000 <= c as int
    ensures DecodeOne(PercentBytes(Utf8(c)) + rest) == Some((c, 12))
  {
    var cp := c as int;
    var bs := Utf8(c);
    var t := PercentBytes(bs) + rest;
    Utf8Four(cp);
    ReadPercentBytes(bs, rest, 0);
    ReadPercentBytes(bs, rest, 1);
    ReadPercentBytes(bs, rest, 2);
    ReadPercentBytes(bs, rest, 3);
    assert ReadByte(t, 0) == Some(0xF0 + cp / 262144);
    assert ReadCont(t, 3) == Some(cp / 4096 % 64);
    assert ReadCont(t, 6) == Some(cp / 64 % 64);
    assert ReadCont(t, 9) == Some(cp % 64);
  }

  /** Decoding reads back exactly the character one encoded character came from. */
  lemma DecodeOneEncoded(c: char, rest: string)
    ensures DecodeOne(EncodeChar(c) + rest) == Some((c, |EncodeChar(c)|))
  {
    var cp := c as int;
    if IsUnreserved(c) {
      assert (EncodeChar(c) + rest)[0] == c;
    } else if cp < 0x80 {
      ReadPercentBytes(Utf8(c), rest, 0);
      assert (cp as char) == c;
    } else if cp < 0x800 {
      DecodeOneTwo(c, rest);
    } else if cp < 0x10000 {
      DecodeOneThree(c, rest);
    } else {
      DecodeOneFour(c, rest);
    }
  }

  /** decodeURIComponent undoes encodeURIComponent. */
  lemma {:induction false} DecodeEncode(s: string)
    ensures DecodeUriComponent(EncodeUriComponent(s)) == Some(s)
    decreases |s|
  {
    if s != [] {
      var e := EncodeChar(s[0]);
      var t := EncodeUriComponent(s);
      assert t == e + EncodeUriComponent(s[1..]);
      DecodeOneEncoded(s[0], EncodeUriComponent(s[1..]));
      assert t[|e|..] == EncodeUriComponent(s[1..]);
      DecodeEncode(s[1..]);
      assert [s[0]] + s[1..] == s;
    }
  }

  /** Different strings never share an encoding. */
  lemma EncodeInjective(s: string, t: string)
    requires EncodeUriComponent(s) == EncodeUriComponent(t)
    ensures s == t
  {
    DecodeEncode(s);
    DecodeEncode(t);
  }
}
