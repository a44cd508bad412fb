/**
 * `encodeURIComponent` and `decodeURIComponent` (ECMA-262, sections 19.2.6.5
 * "Encode" and 19.2.6.6 "Decode"), over strings of Unicode scalar values.
 * Encoding leaves the characters `A-Z a-z 0-9 - _ . ! ~ * ' ( )` as they are
 * and writes every other character as the `%XY` escapes of its UTF-8 bytes,
 * with upper-case hexadecimal digits (section 2.1 of RFC 3986). Decoding
 * reverses this and fails (a `URIError` in JavaScript, `None` here) on a
 * malformed escape or an invalid UTF-8 sequence.
 */
module Uri {
  import opened Wrappers

  /** The characters `encodeURIComponent` leaves unescaped. */
  predicate IsUnreserved(c: char)
  {
    ('A' <= c <= 'Z') || ('a' <= c <= 'z') || ('0' <= c <= '9') || c in "-_.!~*'()"
  }

  predicate IsHexDigit(c: char)
  {
    ('0' <= c <= '9') || ('A' <= c <= 'F') || ('a' <= c <= 'f')
  }

  /** A character that may appear in the output of `encodeURIComponent`. */
  predicate IsEncodedChar(c: char)
  {
    IsUnreserved(c) || c == '%' || IsHexDigit(c)
  }

  predicate IsByte(b: int)
  {
    0 <= b < 256
  }

  predicate AreBytes(bs: seq<int>)
  {
    forall i :: 0 <= i < |bs| ==> IsByte(bs[i])
  }

  /** Upper-case hexadecimal digit for `0 <= d < 16`. */
  function HexDigit(d: int): (c: char)
    requires 0 <= d < 16
    ensures IsHexDigit(c)
  {
    if d < 10 then ('0' as int + d) as char else ('A' as int + d - 10) as char
  }

  /** The value of a hexadecimal digit of either case. */
  function HexValue(c: char): (r: Option<int>)
    ensures r.Some? <==> IsHexDigit(c)
    ensures r.Some? ==> 0 <= r.value < 16
  {
    if '0' <= c <= '9' then Some(c as int - '0' as int)
    else if 'A' <= c <= 'F' then Some(c as int - 'A' as int + 10)
    else if 'a' <= c <= 'f' then Some(c as int - 'a' as int + 10)
    else None
  }

  lemma HexValueOfDigit(d: int)
    requires 0 <= d < 16
    ensures HexValue(HexDigit(d)) == Some(d)
  {
  }

  /** The UTF-8 encoding of a code point (section 3.9 of the Unicode Standard). */
  function Utf8Bytes(cp: int): (bs: seq<int>)
    requires 0 <= cp <= 0x10FFFF
    ensures 1 <= |bs| <= 4 && AreBytes(bs)
  {
    if cp < 0x80 then [cp]
    else if cp < 0x800 then [0xC0 + cp / 64, 0x80 + cp % 64]
    else if cp < 0x10000 then [0xE0 + cp / 4096, 0x80 + (cp / 64) % 64, 0x80 + cp % 64]
    else [0xF0 + cp / 262144, 0x80 + (cp / 4096) % 64, 0x80 + (cp / 64) % 64, 0x80 + cp % 64]
  }

  /** `%XY` for one byte. */
  function PercentByte(b: int): (r: string)
    requires IsByte(b)
    ensures |r| == 3 && r[0] == '%' && IsHexDigit(r[1]) && IsHexDigit(r[2])
  {
    ['%', HexDigit(b / 16), HexDigit(b % 16)]
  }

  function EscapeBytes(bs: seq<int>): (r: string)
    requires AreBytes(bs)
    ensures |r| == 3 * |bs|
    ensures forall i :: 0 <= i < |r| ==> IsEncodedChar(r[i])
  {
    if bs == [] then "" else PercentByte(bs[0]) + EscapeBytes(bs[1..])
  }

  function EncodeChar(c: char): (r: string)
    ensures forall i :: 0 <= i < |r| ==> IsEncodedChar(r[i])
  {
    if IsUnreserved(c) then [c] else EscapeBytes(Utf8Bytes(c as int))
  }

  /** `encodeURIComponent(s)`. */
  function EncodeComponent(s: string): (r: string)
    ensures forall i :: 0 <= i < |r| ==> IsEncodedChar(r[i])
    ensures (forall i :: 0 <= i < |s| ==> IsUnreserved(s[i])) ==> r == s
  {
    if s == [] then "" else EncodeChar(s[0]) + EncodeComponent(s[1..])
  }

  /** The byte written as `%XY` at position `k` of `s`, if there is one. */
  function Octet(s: string, k: nat): (r: Option<int>)
    ensures r.Some? ==> IsByte(r.value) && k + 3 <= |s|
  {
    if k + 3 <= |s| && s[k] == '%' && HexValue(s[k + 1]).Some? && HexValue(s[k + 2]).Some?
    then Some(16 * HexValue(s[k + 1]).value + HexValue(s[k + 2]).value)
    else None
  }

  /** `count` consecutive `%XY` escapes at the front of `s`. */
  function Octets(s: string, count: nat): (r: Option<seq<int>>)
    ensures r.Some? ==> |r.value| == count && AreBytes(r.value) && 3 * count <= |s|
  {
    if count == 0 then Some([])
    else match Octet(s, 0)
      case None => None
      case Some(b) =>
        match Octets(s[3..], count - 1)
        case None => None
        case Some(rest) => Some([b] + rest)
  }

  /** The number of leading one bits of a byte. */
  function LeadingOnes(b: int): (n: nat)
    requires IsByte(b)
    ensures n <= 8
  {
    if b < 0x80 then 0
    else if b < 0xC0 then 1
    else if b < 0xE0 then 2
    else if b < 0xF0 then 3
    else if b < 0xF8 then 4
    else if b < 0xFC then 5
    else if b < 0xFE then 6
    else if b < 0xFF then 7
    else 8
  }

  predicate IsContinuation(b: int)
  {
    0x80 <= b < 0xC0
  }

  /** The code point of a multi-byte sequence whose lead byte has `|bs|` leading ones. */
  function CodePointOf(bs: seq<int>): int
    requires 2 <= |bs| <= 4
  {
    if |bs| == 2 then (bs[0] - 0xC0) * 64 + (bs[1] - 0x80)
    else if |bs| == 3 then ((bs[0] - 0xE0) * 64 + (bs[1] - 0x80)) * 64 + (bs[2] - 0x80)
    else (((bs[0] - 0xF0) * 64 + (bs[1] - 0x80)) * 64 + (bs[2] - 0x80)) * 64 + (bs[3] - 0x80)
  }

  /** The smallest code point that needs `n` bytes; anything smaller is an overlong form. */
  function MinCodePoint(n: nat): int
  {
    if n == 2 then 0x80 else if n == 3 then 0x800 else 0x10000
  }

  /**
   * The code point a multi-byte UTF-8 sequence stands for, or `None` if the
   * sequence is not a valid encoding: a byte after the first is not a
   * continuation byte, the form is overlong, or the value is a surrogate or
   * beyond U+10FFFF.
   */
  function DecodeUtf8(bs: seq<int>): (r: Option<char>)
    requires 2 <= |bs| <= 4 && AreBytes(bs) && LeadingOnes(bs[0]) == |bs|
  {
    var cp := CodePointOf(bs);
    if (forall i :: 1 <= i < |bs| ==> IsContinuation(bs[i]))
       && MinCodePoint(|bs|) <= cp <= 0x10FFFF && !(0xD800 <= cp <= 0xDFFF)
    then Some(cp as char)
    else None
  }

  /**
   * The character that the escapes at the front of `s` (which starts with
   * `%`) stand for, and how many characters of `s` they take.
   */
  function DecodeEscape(s: string): (r: Option<(char, nat)>)
    ensures r.Some? ==> 3 <= r.value.1 <= |s|
  {
    match Octet(s, 0)
    case None => None
    case Some(b) =>
      var n := LeadingOnes(b);
      if n == 0 then Some((b as char, 3))
      else if n == 1 || n > 4 then None
      else match Octets(s, n)
        case None => None
        case Some(bs) =>
          match DecodeUtf8(bs)
          case None => None
          case Some(c) => Some((c, 3 * n))
  }

  /** `decodeURIComponent(s)`; `None` where JavaScript throws a `URIError`. */
  function DecodeComponent(s: string): (r: Option<string>)
    ensures r.Some? ==> |r.value| <= |s|
    ensures (forall i :: 0 <= i < |s| ==> s[i] != '%') ==> r == Some(s)
    decreases |s|
  {
    if s == [] then Some("")
    else if s[0] != '%' then
      assert (forall i :: 0 <= i < |s| ==> s[i] != '%') ==> forall i :: 0 <= i < |s[1..]| ==> s[1..][i] != '%';
      assert s == [s[0]] + s[1..];
      match DecodeComponent(s[1..])
      case None => None
      case Some(t) => Some([s[0]] + t)
    else
      match DecodeEscape(s)
      case None => None
      case Some(p) =>
        match DecodeComponent(s[p.1..])
        case None => None
        case Some(t) => Some([p.0] + t)
  }

  // ---------------------------------------------------------------------
  // Decoding what was encoded gives back the original string.
  // ---------------------------------------------------------------------

  /** `%XY` reads back as the byte it was written for. */
  lemma OctetOfPercentByte(b: int, t: string)
    requires IsByte(b)
    ensures Octet(PercentByte(b) + t, 0) == Some(b)
  {
    var s := PercentByte(b) + t;
    assert s[0] == '%' && s[1] == HexDigit(b / 16) && s[2] == HexDigit(b % 16);
    HexValueOfDigit(b / 16);
    HexValueOfDigit(b % 16);
  }

  /** The first escape of `EscapeBytes(bs)` reads back as `bs[0]`. */
  lemma FirstOctetOfEscapes(bs: seq<int>, rest: string)
    requires AreBytes(bs) && bs != []
    ensures Octet(EscapeBytes(bs) + rest, 0) == Some(bs[0])
    ensures (EscapeBytes(bs) + rest)[3..] == EscapeBytes(bs[1..]) + rest
  {
    var t := EscapeBytes(bs[1..]) + rest;
    assert EscapeBytes(bs) + rest == PercentByte(bs[0]) + t;
    OctetOfPercentByte(bs[0], t);
  }

  lemma {:induction false} OctetsOfEscapes(bs: seq<int>, rest: string)
    requires AreBytes(bs)
    ensures Octets(EscapeBytes(bs) + rest, |bs|) == Some(bs)
    decreases |bs|
  {
    if bs != [] {
      var s := EscapeBytes(bs) + rest;
      FirstOctetOfEscapes(bs, rest);
      OctetsOfEscapes(bs[1..], rest);
      assert Octets(s[3..], |bs| - 1) == Some(bs[1..]);
      assert [bs[0]] + bs[1..] == bs;
    }
  }

  /** The UTF-8 bytes of a code point decode back to it. */
  lemma Utf8RoundTrip(c: char)
    requires c as int >= 0x80
    ensures var bs := Utf8Bytes(c as int);
      2 <= |bs| && LeadingOnes(bs[0]) == |bs| && DecodeUtf8(bs) == Some(c)
  {
    var cp := c as int;
    var bs := Utf8Bytes(cp);
    if cp < 0x800 {
      assert CodePointOf(bs) == cp;
    } else if cp < 0x10000 {
      var q := cp / 64;
      assert cp == 64 * q + cp % 64;
      assert q / 64 == cp / 4096;
      assert q == 64 * (q / 64) + q % 64;
      assert CodePointOf(bs) == cp;
    } else {
      var q := cp / 64;
      var q2 := q / 64;
      assert cp == 64 * q + cp % 64;
      assert q == 64 * q2 + q % 64;
      assert q2 == cp / 4096;
      assert q2 / 64 == cp / 262144;
      assert q2 == 64 * (q2 / 64) + q2 % 64;
      assert CodePointOf(bs) == cp;
    }
  }

  /** The escapes of one reserved character decode back to it, taking all of them. */
  lemma DecodeEscapedChar(c: char, rest: string)
    requires !IsUnreserved(c)
    ensures DecodeEscape(EscapeBytes(Utf8Bytes(c as int)) + rest)
            == Some((c, |EscapeBytes(Utf8Bytes(c as int))|))
  {
    var bs := Utf8Bytes(c as int);
    var s := EscapeBytes(bs) + rest;
    FirstOctetOfEscapes(bs, rest);
    if c as int < 0x80 {
      assert bs == [c as int];
    } else {
      OctetsOfEscapes(bs, rest);
      Utf8RoundTrip(c);
    }
  }

  /** Decoding the encoding of one character, followed by anything. */
  lemma DecodeEncodedChar(c: char, rest: string)
    ensures DecodeComponent(EncodeChar(c) + rest) ==
      match DecodeComponent(rest)
      case None => None
      case Some(t) => Some([c] + t)
  {
    var s := EncodeChar(c) + rest;
    if IsUnreserved(c) {
      assert s[0] == c && s[1..] == rest;
    } else {
      var e := EscapeBytes(Utf8Bytes(c as int));
      assert s == e + rest;
      DecodeEscapedChar(c, rest);
      assert s[0] == '%';
      assert s[|e|..] == rest;
    }
  }

  /** `decodeURIComponent(encodeURIComponent(s)) === s` for every string. */
  lemma {:induction false} DecodeEncode(s: string)
    ensures DecodeComponent(EncodeComponent(s)) == Some(s)
  {
    if s != [] {
      DecodeEncode(s[1..]);
      DecodeEncodedChar(s[0], EncodeComponent(s[1..]));
      assert [s[0]] + s[1..] == s;
    }
  }
}
