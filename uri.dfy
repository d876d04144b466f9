/** Percent-encoding of text over its UTF-8 bytes, in the two flavours the frontend uses:
  * `encodeURIComponent` and the application/x-www-form-urlencoded serializer behind
  * `URLSearchParams.toString()` (which also writes a space as '+'). Each encoder is
  * paired with a decoder and a round-trip lemma. */
module Uri {
  import opened Common

  datatype Scheme = Component | Form

  predicate IsAsciiAlnum(c: char) {
    ('0' <= c <= '9') || ('A' <= c <= 'Z') || ('a' <= c <= 'z')
  }

  /** Characters written as themselves. */
  predicate Keeps(scheme: Scheme, c: char) {
    IsAsciiAlnum(c) ||
    match scheme
    case Component => c in "-_.!~*'()"
    case Form => c in "*-._"
  }

  predicate IsByte(b: int) { 0 <= b < 256 }

  predicate IsScalar(cp: int) {
    (0 <= cp < 0xD800) || (0xE000 <= cp < 0x11_0000)
  }

  /** UTF-8 encoding of one Unicode scalar value. */
  function Utf8(c: char): (bs: seq<int>)
    ensures 1 <= |bs| <= 4 && forall i :: 0 <= i < |bs| ==> IsByte(bs[i])
    ensures (c as int < 0x80) <==> |bs| == 1
  {
    var cp := c as int;
    if cp < 0x80 then [cp]
    else if cp < 0x800 then [0xC0 + cp / 64, 0x80 + cp % 64]
    else if cp < 0x1_0000 then [0xE0 + cp / 4096, 0x80 + (cp / 64) % 64, 0x80 + cp % 64]
    else [0xF0 + cp / 262144, 0x80 + (cp / 4096) % 64, 0x80 + (cp / 64) % 64, 0x80 + cp % 64]
  }

  function Utf8Encode(s: string): seq<int> {
    if s == [] then [] else Utf8(s[0]) + Utf8Encode(s[1..])
  }

  function HexDigit(d: int): (c: char)
    requires 0 <= d < 16
  {
    if d < 10 then ('0' as int + d) as char else ('A' as int + d - 10) as char
  }

  /** One byte as '%' and two upper-case hex digits. */
  function PercentByte(b: int): (r: string)
    requires IsByte(b)
    ensures |r| == 3 && r[0] == '%' && r[1] == HexDigit(b / 16) && r[2] == HexDigit(b % 16)
  {
    ['%', HexDigit(b / 16), HexDigit(b % 16)]
  }

  function PercentBytes(bs: seq<int>): (r: string)
    requires forall i :: 0 <= i < |bs| ==> IsByte(bs[i])
    ensures |r| == 3 * |bs|
  {
    if bs == [] then ""
    else
      assert IsByte(bs[0]);
      PercentByte(bs[0]) + PercentBytes(bs[1..])
  }

  function EncodeChar(scheme: Scheme, c: char): string {
    if Keeps(scheme, c) then [c]
    else if scheme == Form && c == ' ' then "+"
    else PercentBytes(Utf8(c))
  }

  /** `encodeURIComponent(s)` (Component) or the form serialization of `s` (Form). */
  function Encode(scheme: Scheme, s: string): string {
    if s == [] then "" else EncodeChar(scheme, s[0]) + Encode(scheme, s[1..])
  }

  // ---------------------------------------------------------------------
  // Decoding

  function HexValue(c: char): (r: Option<int>)
    ensures r.Some? ==> 0 <= r.value < 16
  {
    if '0' <= c <= '9' then Some(c as int - '0' as int)
    else if 'A' <= c <= 'F' then Some(c as int - 'A' as int + 10)
    else if 'a' <= c <= 'f' then Some(c as int - 'a' as int + 10)
    else None
  }

  /** The byte at the front of a percent-encoded text and how many characters it takes:
    * "%XY" (3), '+' as a space in form data (1), or a raw ASCII character (1). */
  function Token(scheme: Scheme, s: string): (r: Option<(int, nat)>)
    requires |s| > 0
    ensures r.Some? ==> IsByte(r.value.0) && 1 <= r.value.1 <= |s|
  {
    if s[0] == '%' then
      if |s| < 3 then None
      else
        match (HexValue(s[1]), HexValue(s[2]))
        case (Some(hi), Some(lo)) => Some((hi * 16 + lo, 3))
        case _ => None
    else if scheme == Form && s[0] == '+' then Some((0x20, 1))
    else if s[0] as int < 0x80 then Some((s[0] as int, 1))
    else None
  }

  /** Percent-decoding to bytes; a raw character must be ASCII. */
  function Unescape(scheme: Scheme, s: string): (r: Option<seq<int>>)
    ensures r.Some? ==> forall i :: 0 <= i < |r.value| ==> IsByte(r.value[i])
    decreases |s|
  {
    if s == [] then Some([])
    else
      match Token(scheme, s)
      case None => None
      case Some((b, n)) =>
        match Unescape(scheme, s[n..])
        case Some(rest) => Some([b] + rest)
        case None => None
  }

  /** Unescape reads one token, then the rest. */
  lemma UnescapeToken(scheme: Scheme, s: string, b: int, n: nat, tail: seq<int>)
    requires |s| > 0 && Token(scheme, s) == Some((b, n))
    requires Unescape(scheme, s[n..]) == Some(tail)
    ensures Unescape(scheme, s) == Some([b] + tail)
  {
  }

  predicate IsCont(b: int) { 0x80 <= b < 0xC0 }

  /** The scalar value at the front of a UTF-8 byte string and its encoded length. */
  function DecodeOne(bs: seq<int>): (r: Option<(char, nat)>)
    requires |bs| > 0
    ensures r.Some? ==> 1 <= r.value.1 <= |bs|
  {
    var b0 := bs[0];
    if 0 <= b0 < 0x80 then Some((b0 as char, 1))
    else if 0xC0 <= b0 < 0xE0 && |bs| >= 2 && IsCont(bs[1]) then
      var cp := (b0 - 0xC0) * 64 + (bs[1] - 0x80);
      if IsScalar(cp) then Some((cp as char, 2)) else None
    else if 0xE0 <= b0 < 0xF0 && |bs| >= 3 && IsCont(bs[1]) && IsCont(bs[2]) then
      var cp := (b0 - 0xE0) * 4096 + (bs[1] - 0x80) * 64 + (bs[2] - 0x80);
      if IsScalar(cp) then Some((cp as char, 3)) else None
    else if 0xF0 <= b0 < 0xF8 && |bs| >= 4 && IsCont(bs[1]) && IsCont(bs[2]) && IsCont(bs[3]) then
      var cp := (b0 - 0xF0) * 262144 + (bs[1] - 0x80) * 4096 + (bs[2] - 0x80) * 64 + (bs[3] - 0x80);
      if IsScalar(cp) then Some((cp as char, 4)) else None
    else None
  }

  function Utf8Decode(bs: seq<int>): Option<string>
    decreases |bs|
  {
    if bs == [] then Some("")
    else
      match DecodeOne(bs)
      case None => None
      case Some((c, n)) =>
        match Utf8Decode(bs[n..])
        case None => None
        case Some(rest) => Some([c] + rest)
  }

  /** `decodeURIComponent` (Component), or form decoding (Form). */
  function Decode(scheme: Scheme, s: string): Option<string> {
    match Unescape(scheme, s)
    case None => None
    case Some(bs) => Utf8Decode(bs)
  }

  // ---------------------------------------------------------------------
  // Properties

  lemma DecodeOneUtf8(c: char, rest: seq<int>)
    ensures DecodeOne(Utf8(c) + rest) == Some((c, |Utf8(c)|))
  {
    var cp := c as int;
    if cp < 0x80 {
    } else if cp < 0x800 {
      DecodeTwo(c, rest);
    } else if cp < 0x1_0000 {
      DecodeThree(c, rest);
    } else {
      DecodeFour(c, rest);
    }
  }

  lemma DecodeTwo(c: char, rest: seq<int>)
    requires 0x80 <= c as int < 0x800
    ensures DecodeOne(Utf8(c) + rest) == Some((c, 2))
  {
    var cp := c as int;
    var q, r := cp / 64, cp % 64;
    assert cp == 64 * q + r && 0 <= r < 64 && 2 <= q < 32;
    var bs := Utf8(c) + rest;
    assert bs[0] == 0xC0 + q && bs[1] == 0x80 + r;
  }

  lemma DecodeThree(c: char, rest: seq<int>)
    requires 0x800 <= c as int < 0x1_0000
    ensures DecodeOne(Utf8(c) + rest) == Some((c, 3))
  {
    var cp := c as int;
    var q1, r1 := cp / 64, cp % 64;
    var q2, r2 := q1 / 64, q1 % 64;
    assert cp == 64 * q1 + r1 && 0 <= r1 < 64;
    assert q1 == 64 * q2 + r2 && 0 <= r2 < 64;
    assert cp / 4096 == q2 < 16;
    var bs := Utf8(c) + rest;
    assert bs[0] == 0xE0 + q2 && bs[1] == 0x80 + r2 && bs[2] == 0x80 + r1;
    assert (bs[0] - 0xE0) * 4096 + (bs[1] - 0x80) * 64 + (bs[2] - 0x80) == cp;
  }

  lemma DecodeFour(c: char, rest: seq<int>)
    requires 0x1_0000 <= c as int
    ensures DecodeOne(Utf8(c) + rest) == Some((c, 4))
  {
    var cp := c as int;
    assert cp < 0x11_0000;
    var q1, r1 := cp / 64, cp % 64;
    var q2, r2 := q1 / 64, q1 % 64;
    var q3, r3 := q2 / 64, q2 % 64;
    assert cp == 64 * q1 + r1 && 0 <= r1 < 64;
    assert q1 == 64 * q2 + r2 && 0 <= r2 < 64;
    assert q2 == 64 * q3 + r3 && 0 <= r3 < 64;
    assert cp / 4096 == q2 && cp / 262144 == q3 < 8;
    var bs := Utf8(c) + rest;
    assert bs[0] == 0xF0 + q3 && bs[1] == 0x80 + r3 && bs[2] == 0x80 + r2 && bs[3] == 0x80 + r1;
    assert (bs[0] - 0xF0) * 262144 + (bs[1] - 0x80) * 4096 + (bs[2] - 0x80) * 64 + (bs[3] - 0x80) == cp;
  }

  lemma {:induction false} Utf8RoundTrip(s: string)
    ensures Utf8Decode(Utf8Encode(s)) == Some(s)
  {
    if s != [] {
      var bs := Utf8Encode(s);
      assert bs == Utf8(s[0]) + Utf8Encode(s[1..]);
      DecodeOneUtf8(s[0], Utf8Encode(s[1..]));
      assert bs[|Utf8(s[0])|..] == Utf8Encode(s[1..]);
      Utf8RoundTrip(s[1..]);
      assert s == [s[0]] + s[1..];
    }
  }

  lemma {:induction false} UnescapePercent(scheme: Scheme, bs: seq<int>, rest: string, tail: seq<int>)
    requires forall i :: 0 <= i < |bs| ==> IsByte(bs[i])
    requires Unescape(scheme, rest) == Some(tail)
    ensures Unescape(scheme, PercentBytes(bs) + rest) == Some(bs + tail)
  {
    if bs != [] {
      var b, more := bs[0], bs[1..];
      assert IsByte(b);
      UnescapePercent(scheme, more, rest, tail);
      UnescapeOneByte(scheme, b, PercentBytes(more) + rest, more + tail);
      SplitPercent(bs, rest);
      SplitFirst(bs, tail);
    } else {
      assert PercentBytes(bs) + rest == rest && bs + tail == tail;
    }
  }

  lemma SplitPercent(bs: seq<int>, rest: string)
    requires |bs| > 0 && forall i :: 0 <= i < |bs| ==> IsByte(bs[i])
    ensures PercentBytes(bs) + rest == PercentByte(bs[0]) + (PercentBytes(bs[1..]) + rest)
  {
    ConcatAssoc(PercentByte(bs[0]), PercentBytes(bs[1..]), rest);
  }

  lemma SplitFirst(bs: seq<int>, tail: seq<int>)
    requires |bs| > 0
    ensures [bs[0]] + (bs[1..] + tail) == bs + tail
  {
    assert bs == [bs[0]] + bs[1..];
  }

  lemma ConcatAssoc(a: string, b: string, c: string)
    ensures (a + b) + c == a + (b + c)
  {
  }

  lemma UnescapeOneByte(scheme: Scheme, b: int, rest: string, tail: seq<int>)
    requires IsByte(b)
    requires Unescape(scheme, rest) == Some(tail)
    ensures Unescape(scheme, PercentByte(b) + rest) == Some([b] + tail)
  {
    var hi, lo := b / 16, b % 16;
    assert b == 16 * hi + lo && 0 <= hi < 16 && 0 <= lo < 16;
    HexRoundTrip(hi);
    HexRoundTrip(lo);
    var s := PercentByte(b) + rest;
    assert s[0] == '%' && s[1] == HexDigit(hi) && s[2] == HexDigit(lo) && s[3..] == rest;
    assert Token(scheme, s) == Some((b, 3));
    UnescapeToken(scheme, s, b, 3, tail);
  }

  lemma HexRoundTrip(d: int)
    requires 0 <= d < 16
    ensures HexValue(HexDigit(d)) == Some(d)
  {
  }

  lemma UnescapeChar(scheme: Scheme, c: char, rest: string, tail: seq<int>)
    requires Unescape(scheme, rest) == Some(tail)
    ensures Unescape(scheme, EncodeChar(scheme, c) + rest) == Some(Utf8(c) + tail)
  {
    if Keeps(scheme, c) {
      var s := [c] + rest;
      assert s[1..] == rest;
      assert Token(scheme, s) == Some((c as int, 1));
      UnescapeToken(scheme, s, c as int, 1, tail);
    } else if scheme == Form && c == ' ' {
      var s := "+" + rest;
      assert s[1..] == rest;
      UnescapeToken(scheme, s, 0x20, 1, tail);
    } else {
      UnescapePercent(scheme, Utf8(c), rest, tail);
    }
  }

  lemma {:induction false} UnescapeEncode(scheme: Scheme, s: string)
    ensures Unescape(scheme, Encode(scheme, s)) == Some(Utf8Encode(s))
  {
    if s != [] {
      UnescapeEncode(scheme, s[1..]);
      UnescapeChar(scheme, s[0], Encode(scheme, s[1..]), Utf8Encode(s[1..]));
    }
  }

  /** Decoding undoes encoding. */
  lemma DecodeEncode(scheme: Scheme, s: string)
    ensures Decode(scheme, Encode(scheme, s)) == Some(s)
  {
    UnescapeEncode(scheme, s);
    Utf8RoundTrip(s);
  }

  /** Distinct texts never encode alike. */
  lemma EncodeInjective(scheme: Scheme, s: string, t: string)
    requires Encode(scheme, s) == Encode(scheme, t)
    ensures s == t
  {
    DecodeEncode(scheme, s);
    DecodeEncode(scheme, t);
  }

  /** Characters that may appear in an encoded text. */
  predicate EncodedChar(scheme: Scheme, c: char) {
    Keeps(scheme, c) || c == '%' || ('0' <= c <= '9') || ('A' <= c <= 'F') || (scheme == Form && c == '+')
  }

  predicate AllEncoded(scheme: Scheme, e: string) {
    forall i :: 0 <= i < |e| ==> EncodedChar(scheme, e[i])
  }

  lemma {:induction false} PercentBytesAlphabet(scheme: Scheme, bs: seq<int>)
    requires forall i :: 0 <= i < |bs| ==> IsByte(bs[i])
    ensures AllEncoded(scheme, PercentBytes(bs))
  {
    if bs != [] {
      PercentBytesAlphabet(scheme, bs[1..]);
      AlphabetConcat(scheme, PercentByte(bs[0]), PercentBytes(bs[1..]));
    }
  }

  /** An encoded text never holds a separator such as '&', '=', '/', '?' or '#', nor a space. */
  lemma {:induction false} EncodeAlphabet(scheme: Scheme, s: string)
    ensures AllEncoded(scheme, Encode(scheme, s))
  {
    if s != [] {
      EncodeAlphabet(scheme, s[1..]);
      if !Keeps(scheme, s[0]) && !(scheme == Form && s[0] == ' ') {
        PercentBytesAlphabet(scheme, Utf8(s[0]));
      }
      assert AllEncoded(scheme, EncodeChar(scheme, s[0]));
      AlphabetConcat(scheme, EncodeChar(scheme, s[0]), Encode(scheme, s[1..]));
    }
  }

  lemma AlphabetConcat(scheme: Scheme, a: string, b: string)
    requires AllEncoded(scheme, a) && AllEncoded(scheme, b)
    ensures AllEncoded(scheme, a + b)
  {
    forall i | 0 <= i < |a + b| ensures EncodedChar(scheme, (a + b)[i]) {
      if i >= |a| {
        assert (a + b)[i] == b[i - |a|];
      }
    }
  }

  lemma EncodedCharIsNoSeparator(scheme: Scheme, c: char)
    requires EncodedChar(scheme, c)
    ensures c != '&' && c != '=' && c != '/' && c != '?' && c != '#' && c != ' '
  {
  }
}
