/**
 * ECMAScript's `encodeURIComponent`, used for the file name in an uploaded
 * file's URL: every character outside `A-Z a-z 0-9 - _ . ! ~ * ' ( )` is
 * written as the UTF-8 bytes of its code point, each byte as `%` and two
 * upper-case hexadecimal digits (the percent-encoding of section 2.1 of
 * RFC 3986). The decoding beside it is the inverse the round trip is stated
 * against.
 */
module UriEncoding {
  import opened Wrappers

  /** The characters `encodeURIComponent` leaves as they are. */
  predicate Unreserved(c: char) {
    'A' <= c <= 'Z' || 'a' <= c <= 'z' || '0' <= c <= '9'
    || c == '-' || c == '_' || c == '.' || c == '!' || c == '~' || c == '*' || c == '\'' || c == '(' || c == ')'
  }

  /** The upper-case hexadecimal digit of `d`. */
  function HexDigit(d: nat): (c: char)
    requires d < 16
  {
    if d < 10 then ('0' as int + d) as char else ('A' as int + d - 10) as char
  }

  predicate IsHexDigit(c: char) {
    '0' <= c <= '9' || 'A' <= c <= 'F' || 'a' <= c <= 'f'
  }

  /** What a character of the encoding can be: unreserved, `%`, or a hexadecimal digit. */
  predicate UriSafe(c: char) {
    Unreserved(c) || c == '%'
  }

  function HexValue(c: char): (d: nat)
    requires IsHexDigit(c)
    ensures d < 16
  {
    if '0' <= c <= '9' then c as int - '0' as int
    else if 'A' <= c <= 'F' then c as int - 'A' as int + 10
    else c as int - 'a' as int + 10
  }

  lemma HexRoundTrip(d: nat)
    requires d < 16
    ensures IsHexDigit(HexDigit(d)) && HexValue(HexDigit(d)) == d && UriSafe(HexDigit(d))
  {
  }

  /** The UTF-8 encoding of one code point. */
  function Utf8(c: char): (bs: seq<nat>)
    ensures 1 <= |bs| <= 4
    ensures forall i :: 0 <= i < |bs| ==> bs[i] < 256
  {
    var n := c as int;
    if n < 0x80 then [n]
    else if n < 0x800 then [0xC0 + n / 64, 0x80 + n % 64]
    else if n < 0x10000 then [0xE0 + n / 4096, 0x80 + (n / 64) % 64, 0x80 + n % 64]
    else [0xF0 + n / 262144, 0x80 + (n / 4096) % 64, 0x80 + (n / 64) % 64, 0x80 + n % 64]
  }

  /** Every character of `s` can appear in an encoding. */
  predicate AllSafe(s: string) {
    forall i :: 0 <= i < |s| ==> UriSafe(s[i])
  }

  lemma AllSafeAppend(a: string, b: string)
    requires AllSafe(a) && AllSafe(b)
    ensures AllSafe(a + b)
  {
    forall i | 0 <= i < |a + b|
      ensures UriSafe((a + b)[i])
    {
      if i < |a| {
        assert (a + b)[i] == a[i];
      } else {
        assert (a + b)[i] == b[i - |a|];
      }
    }
  }

  /** One byte as `%XY`. */
  function PercentByte(b: nat): (r: string)
    requires b < 256
    ensures |r| == 3 && r[0] == '%'
    ensures AllSafe(r)
  {
    HexRoundTrip(b / 16);
    HexRoundTrip(b % 16);
    ['%', HexDigit(b / 16), HexDigit(b % 16)]
  }

  function PercentBytes(bs: seq<nat>): (r: string)
    requires forall i :: 0 <= i < |bs| ==> bs[i] < 256
    ensures |r| == 3 * |bs|
  {
    if bs == [] then [] else PercentByte(bs[0]) + PercentBytes(bs[1..])
  }

  lemma {:induction false} PercentBytesSafe(bs: seq<nat>)
    requires forall i :: 0 <= i < |bs| ==> bs[i] < 256
    ensures AllSafe(PercentBytes(bs))
  {
    if bs != [] {
      PercentBytesSafe(bs[1..]);
      AllSafeAppend(PercentByte(bs[0]), PercentBytes(bs[1..]));
    }
  }

  function EncodeChar(c: char): (r: string)
    ensures r != []
    ensures AllSafe(r)
    ensures Unreserved(c) ==> r == [c]
    ensures !Unreserved(c) ==> r[0] == '%'
  {
    if Unreserved(c) then [c]
    else
      PercentBytesSafe(Utf8(c));
      PercentBytes(Utf8(c))
  }

  /** `encodeURIComponent(s)` */
  function EncodeURIComponent(s: string): (r: string)
    ensures |r| >= |s|
    ensures AllSafe(r)
  {
    if s == [] then []
    else
      AllSafeAppend(EncodeChar(s[0]), EncodeURIComponent(s[1..]));
      EncodeChar(s[0]) + EncodeURIComponent(s[1..])
  }

  /** An encoded name stays one path segment: it holds no `/`, `?` or `#`. */
  lemma EncodedNameIsOneSegment(s: string)
    ensures forall i :: 0 <= i < |EncodeURIComponent(s)| ==>
      EncodeURIComponent(s)[i] != '/' && EncodeURIComponent(s)[i] != '?' && EncodeURIComponent(s)[i] != '#'
  {
  }

  // ---------------------------------------------------------------------------
  // Decoding
  // ---------------------------------------------------------------------------

  /** Reads `%XY` at the start of `t`. */
  function ReadByte(t: string): (r: Option<(nat, string)>)
    ensures r.Some? ==> r.value.0 < 256 && |r.value.1| == |t| - 3 && r.value.1 == t[3..]
  {
    if |t| >= 3 && t[0] == '%' && IsHexDigit(t[1]) && IsHexDigit(t[2]) then
      Some((16 * HexValue(t[1]) + HexValue(t[2]), t[3..]))
    else None
  }

  /** Reads a UTF-8 continuation byte `10xxxxxx` and gives its six payload bits. */
  function ReadContinuation(t: string): (r: Option<(nat, string)>)
    ensures r.Some? ==> r.value.0 < 64 && |r.value.1| == |t| - 3
  {
    match ReadByte(t)
    case Some((b, rest)) => if 0x80 <= b < 0xC0 then Some((b - 0x80, rest)) else None
    case None => None
  }

  predicate IsScalar(n: int) {
    0 <= n < 0xD800 || 0xE000 <= n < 0x110000
  }

  function ToChar(n: int, rest: string): Option<(char, string)> {
    if IsScalar(n) then Some((n as char, rest)) else None
  }

  /** Reads the code point whose UTF-8 bytes follow `b0`, which has been read. */
  function ReadTail(b0: nat, t: string): (r: Option<(char, string)>)
    ensures r.Some? ==> |r.value.1| <= |t|
  {
    if b0 < 0x80 then ToChar(b0, t)
    else if 0xC0 <= b0 < 0xE0 then
      match ReadContinuation(t)
      case None => None
      case Some((c1, t1)) => ToChar((b0 - 0xC0) * 64 + c1, t1)
    else if 0xE0 <= b0 < 0xF0 then
      match ReadContinuation(t)
      case None => None
      case Some((c1, t1)) =>
        match ReadContinuation(t1)
        case None => None
        case Some((c2, t2)) => ToChar((b0 - 0xE0) * 4096 + c1 * 64 + c2, t2)
    else if 0xF0 <= b0 < 0xF8 then
      match ReadContinuation(t)
      case None => None
      case Some((c1, t1)) =>
        match ReadContinuation(t1)
        case None => None
        case Some((c2, t2)) =>
          match ReadContinuation(t2)
          case None => None
          case Some((c3, t3)) => ToChar((b0 - 0xF0) * 262144 + c1 * 4096 + c2 * 64 + c3, t3)
    else None
  }

  /** Reads one character of an encoded string: a plain one, or the `%XY` bytes of one code point. */
  function DecodeChar(t: string): (r: Option<(char, string)>)
    requires t != []
    ensures r.Some? ==> |r.value.1| < |t|
  {
    if t[0] != '%' then Some((t[0], t[1..]))
    else
      match ReadByte(t)
      case None => None
      case Some((b0, rest)) => ReadTail(b0, rest)
  }

  /** Percent-decoding followed by UTF-8 decoding; nothing when the input is malformed. */
  function Decode(t: string): Option<string>
    decreases |t|
  {
    if t == [] then Some([])
    else
      match DecodeChar(t)
      case None => None
      case Some((c, rest)) =>
        match Decode(rest)
        case None => None
        case Some(s) => Some([c] + s)
  }

  // ---------------------------------------------------------------------------
  // The round trip
  // ---------------------------------------------------------------------------

  lemma ReadPercentByte(b: nat, rest: string)
    requires b < 256
    ensures ReadByte(PercentByte(b) + rest) == Some((b, rest))
  {
    HexRoundTrip(b / 16);
    HexRoundTrip(b % 16);
    var t := PercentByte(b) + rest;
    assert t[0] == '%' && t[1] == HexDigit(b / 16) && t[2] == HexDigit(b % 16);
    assert t[3..] == rest;
  }

  lemma ReadContinuationByte(x: nat, rest: string)
    requires x < 64
    ensures ReadContinuation(PercentByte(0x80 + x) + rest) == Some((x, rest))
  {
    ReadPercentByte(0x80 + x, rest);
  }

  lemma PercentBytesCons(b: nat, bs: seq<nat>, rest: string)
    requires b < 256 && forall i :: 0 <= i < |bs| ==> bs[i] < 256
    ensures PercentBytes([b] + bs) + rest == PercentByte(b) + (PercentBytes(bs) + rest)
  {
    assert ([b] + bs)[0] == b && ([b] + bs)[1..] == bs;
    assert PercentBytes([b] + bs) == PercentByte(b) + PercentBytes(bs);
    AppendAssoc(PercentByte(b), PercentBytes(bs), rest);
  }

  /** The six-bit groups of a code point put back together give the code point. */
  lemma SixBitGroups(n: nat)
    ensures (n / 64) * 64 + n % 64 == n
    ensures (n / 4096) * 4096 + ((n / 64) % 64) * 64 + n % 64 == n
    ensures (n / 262144) * 262144 + ((n / 4096) % 64) * 4096 + ((n / 64) % 64) * 64 + n % 64 == n
  {
    var a := n / 64;
    var b := a / 64;
    var c := b / 64;
    assert n == 64 * a + n % 64;
    assert a == 64 * b + a % 64;
    assert b == 64 * c + b % 64;
    assert n == 4096 * b + 64 * (a % 64) + n % 64;
    assert 0 <= 64 * (a % 64) + n % 64 < 4096;
    assert n / 4096 == b;
    assert n == 262144 * c + 4096 * (b % 64) + 64 * (a % 64) + n % 64;
    assert 0 <= 4096 * (b % 64) + 64 * (a % 64) + n % 64 < 262144;
    assert n / 262144 == c;
    assert (n / 4096) % 64 == b % 64;
  }

  /** The bytes of a two-byte sequence read back as the code point they carry. */
  lemma ReadTailTwo(b0: nat, x1: nat, rest: string)
    requires 0xC0 <= b0 < 0xE0 && x1 < 64 && IsScalar((b0 - 0xC0) * 64 + x1)
    ensures ReadTail(b0, PercentByte(0x80 + x1) + rest) == Some((((b0 - 0xC0) * 64 + x1) as char, rest))
  {
    ReadContinuationByte(x1, rest);
  }

  lemma ReadTailThree(b0: nat, x1: nat, x2: nat, rest: string)
    requires 0xE0 <= b0 < 0xF0 && x1 < 64 && x2 < 64 && IsScalar((b0 - 0xE0) * 4096 + x1 * 64 + x2)
    ensures ReadTail(b0, PercentByte(0x80 + x1) + (PercentByte(0x80 + x2) + rest))
      == Some((((b0 - 0xE0) * 4096 + x1 * 64 + x2) as char, rest))
  {
    ReadContinuationByte(x1, PercentByte(0x80 + x2) + rest);
    ReadContinuationByte(x2, rest);
  }

  lemma ReadTailFour(b0: nat, x1: nat, x2: nat, x3: nat, rest: string)
    requires 0xF0 <= b0 < 0xF8 && x1 < 64 && x2 < 64 && x3 < 64
    requires IsScalar((b0 - 0xF0) * 262144 + x1 * 4096 + x2 * 64 + x3)
    ensures ReadTail(b0, PercentByte(0x80 + x1) + (PercentByte(0x80 + x2) + (PercentByte(0x80 + x3) + rest)))
      == Some((((b0 - 0xF0) * 262144 + x1 * 4096 + x2 * 64 + x3) as char, rest))
  {
    var t3 := PercentByte(0x80 + x3) + rest;
    var t2 := PercentByte(0x80 + x2) + t3;
    var t1 := PercentByte(0x80 + x1) + t2;
    ReadContinuationByte(x1, t2);
    ReadContinuationByte(x2, t3);
    ReadContinuationByte(x3, rest);
    assert ReadContinuation(t1) == Some((x1, t2));
    assert ReadContinuation(t2) == Some((x2, t3));
    assert ReadContinuation(t3) == Some((x3, rest));
  }

  lemma DecodeTwoBytes(c: char, rest: string)
    requires 0x80 <= c as int < 0x800
    ensures DecodeChar(PercentBytes(Utf8(c)) + rest) == Some((c, rest))
  {
    var n := c as int;
    SixBitGroups(n);
    var b0 := 0xC0 + n / 64;
    var x1 := n % 64;
    assert Utf8(c) == [b0, 0x80 + x1];
    PercentBytesCons(b0, [0x80 + x1], rest);
    PercentBytesCons(0x80 + x1, [], rest);
    ReadPercentByte(b0, PercentByte(0x80 + x1) + rest);
    ReadTailTwo(b0, x1, rest);
  }

  lemma PercentBytesThree(b0: nat, b1: nat, b2: nat, rest: string)
    requires b0 < 256 && b1 < 256 && b2 < 256
    ensures PercentBytes([b0, b1, b2]) + rest == PercentByte(b0) + (PercentByte(b1) + (PercentByte(b2) + rest))
  {
    assert [b0, b1, b2] == [b0] + [b1, b2] && [b1, b2] == [b1] + [b2] && [b2] == [b2] + [];
    PercentBytesCons(b0, [b1, b2], rest);
    PercentBytesCons(b1, [b2], rest);
    PercentBytesCons(b2, [], rest);
  }

  lemma PercentBytesFour(b0: nat, b1: nat, b2: nat, b3: nat, rest: string)
    requires b0 < 256 && b1 < 256 && b2 < 256 && b3 < 256
    ensures PercentBytes([b0, b1, b2, b3]) + rest
         == PercentByte(b0) + (PercentByte(b1) + (PercentByte(b2) + (PercentByte(b3) + rest)))
  {
    assert [b0, b1, b2, b3] == [b0] + [b1, b2, b3];
    PercentBytesCons(b0, [b1, b2, b3], rest);
    PercentBytesThree(b1, b2, b3, rest);
  }

  lemma DecodeThreeBytes(c: char, rest: string)
    requires 0x800 <= c as int < 0x10000
    ensures DecodeChar(PercentBytes(Utf8(c)) + rest) == Some((c, rest))
  {
    var n := c as int;
    SixBitGroups(n);
    var b0 := 0xE0 + n / 4096;
    var x1 := (n / 64) % 64;
    var x2 := n % 64;
    assert (b0 - 0xE0) * 4096 + x1 * 64 + x2 == n;
    assert Utf8(c) == [b0, 0x80 + x1, 0x80 + x2];
    PercentBytesThree(b0, 0x80 + x1, 0x80 + x2, rest);
    ReadPercentByte(b0, PercentByte(0x80 + x1) + (PercentByte(0x80 + x2) + rest));
    ReadTailThree(b0, x1, x2, rest);
  }

  lemma DecodeFourBytes(c: char, rest: string)
    requires 0x10000 <= c as int
    ensures DecodeChar(PercentBytes(Utf8(c)) + rest) == Some((c, rest))
  {
    var n := c as int;
    SixBitGroups(n);
    var b0 := 0xF0 + n / 262144;
    var x1 := (n / 4096) % 64;
    var x2 := (n / 64) % 64;
    var x3 := n % 64;
    assert (b0 - 0xF0) * 262144 + x1 * 4096 + x2 * 64 + x3 == n;
    assert Utf8(c) == [b0, 0x80 + x1, 0x80 + x2, 0x80 + x3];
    PercentBytesFour(b0, 0x80 + x1, 0x80 + x2, 0x80 + x3, rest);
    ReadPercentByte(b0, PercentByte(0x80 + x1) + (PercentByte(0x80 + x2) + (PercentByte(0x80 + x3) + rest)));
    ReadTailFour(b0, x1, x2, x3, rest);
  }

  /** One encoded character reads back as itself, leaving what follows. */
  lemma DecodeEncodedChar(c: char, rest: string)
    ensures DecodeChar(EncodeChar(c) + rest) == Some((c, rest))
  {
    var n := c as int;
    if Unreserved(c) {
      assert (EncodeChar(c) + rest)[1..] == rest;
    } else if n < 0x80 {
      PercentBytesCons(n, [], rest);
      ReadPercentByte(n, rest);
    } else if n < 0x800 {
      DecodeTwoBytes(c, rest);
    } else if n < 0x10000 {
      DecodeThreeBytes(c, rest);
    } else {
      DecodeFourBytes(c, rest);
    }
  }

  /** Decoding undoes `encodeURIComponent`: distinct names give distinct URLs. */
  lemma {:induction false} DecodeEncoded(s: string)
    ensures Decode(EncodeURIComponent(s)) == Some(s)
  {
    if s != [] {
      var t := EncodeURIComponent(s);
      DecodeEncodedChar(s[0], EncodeURIComponent(s[1..]));
      DecodeEncoded(s[1..]);
      assert [s[0]] + s[1..] == s;
    }
  }

  lemma EncodeInjective(a: string, b: string)
    requires EncodeURIComponent(a) == EncodeURIComponent(b)
    ensures a == b
  {
    DecodeEncoded(a);
    DecodeEncoded(b);
  }
}
