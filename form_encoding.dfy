/**
 * URLEncoder.encode(s, "UTF-8"): the application/x-www-form-urlencoded byte
 * serializer of section 5.2 of the WHATWG URL Standard (the content type
 * HTML 4.01 section 17.13.4 names for form submission). ASCII letters,
 * digits and `. - * _` stand for themselves, a space becomes `+`, and every
 * other char is written as the `%XY` escapes of its UTF-8 bytes, with
 * upper-case hex digits.
 */
module FormEncoding {
  import opened Bytes

  /** The chars URLEncoder leaves as they are. */
  predicate Unreserved(c: char) {
    ('a' <= c <= 'z') || ('A' <= c <= 'Z') || ('0' <= c <= '9')
    || c == '.' || c == '-' || c == '*' || c == '_'
  }

  /** A char of an escape run: `%` or an upper-case hex digit. */
  predicate UpperEscapeChar(c: char) {
    c == '%' || ('0' <= c <= '9') || ('A' <= c <= 'F')
  }

  /** The chars an encoded string is made of. */
  predicate EncodedChar(c: char) {
    Unreserved(c) || c == '+' || c == '%'
  }

  /** A UTF-8 continuation byte, 10xxxxxx. */
  predicate Continuation(b: byte) {
    0x80 <= b < 0xC0
  }

  /**
   * The UTF-8 encoding of one scalar value: one byte below U+0080, otherwise
   * a lead byte announcing the length followed by continuation bytes.
   */
  function Utf8Char(c: char): (bs: seq<byte>)
    ensures 1 <= |bs| <= 4
    ensures |bs| == 1 <==> c as int < 0x80
    ensures |bs| == 2 <==> 0x80 <= c as int < 0x800
    ensures |bs| == 3 <==> 0x800 <= c as int < 0x10000
    ensures |bs| == 4 <==> 0x10000 <= c as int
    ensures |bs| == 1 ==> bs[0] as int == c as int
    ensures |bs| == 2 ==> 0xC0 <= bs[0] < 0xE0
    ensures |bs| == 3 ==> 0xE0 <= bs[0] < 0xF0
    ensures |bs| == 4 ==> 0xF0 <= bs[0] < 0xF8
    ensures forall k :: 1 <= k < |bs| ==> Continuation(bs[k])
  {
    var n := c as int;
    if n < 0x80 then [n as byte]
    else if n < 0x800 then [(0xC0 + n / 64) as byte, (0x80 + n % 64) as byte]
    else if n < 0x10000 then
      [(0xE0 + n / 4096) as byte, (0x80 + (n / 64) % 64) as byte, (0x80 + n % 64) as byte]
    else
      [(0xF0 + n / 262144) as byte, (0x80 + (n / 4096) % 64) as byte,
       (0x80 + (n / 64) % 64) as byte, (0x80 + n % 64) as byte]
  }

  /** The scalar value a UTF-8 sequence of one to four bytes stands for: the payload bits of each byte, high to low. */
  function ScalarValue(bs: seq<byte>): int
    requires 1 <= |bs| <= 4
  {
    if |bs| == 1 then bs[0] as int
    else if |bs| == 2 then (bs[0] as int - 0xC0) * 64 + (bs[1] as int - 0x80)
    else if |bs| == 3 then
      (bs[0] as int - 0xE0) * 4096 + (bs[1] as int - 0x80) * 64 + (bs[2] as int - 0x80)
    else
      (bs[0] as int - 0xF0) * 262144 + (bs[1] as int - 0x80) * 4096
      + (bs[2] as int - 0x80) * 64 + (bs[3] as int - 0x80)
  }

  /** Decoding the UTF-8 bytes of a char gives back that char's scalar value. */
  lemma Utf8CharValue(c: char)
    ensures ScalarValue(Utf8Char(c)) == c as int
  {
    var n := c as int;
    assert n == (n / 64) * 64 + n % 64;
    assert n / 64 == (n / 4096) * 64 + (n / 64) % 64;
    assert n / 4096 == (n / 262144) * 64 + (n / 4096) % 64;
  }

  /** `s.getBytes(UTF_8)`: one to four bytes per char, and one byte per char exactly for ASCII text. */
  function Utf8(s: string): (r: seq<byte>)
    ensures |s| <= |r| <= 4 * |s|
    ensures |r| == |s| <==> forall k :: 0 <= k < |s| ==> s[k] as int < 0x80
  {
    if |s| == 0 then [] else Utf8Char(s[0]) + Utf8(s[1..])
  }

  /** The upper-case hex digit of `n`. */
  function HexDigit(n: int): (c: char)
    requires 0 <= n < 16
    ensures '0' <= c <= '9' || 'A' <= c <= 'F'
  {
    if n < 10 then ('0' as int + n) as char else ('A' as int + n - 10) as char
  }

  predicate IsHex(c: char) {
    ('0' <= c <= '9') || ('A' <= c <= 'F') || ('a' <= c <= 'f')
  }

  /** The value of a hex digit of either case; the inverse of `HexDigit`. */
  function HexValue(c: char): (n: int)
    requires IsHex(c)
    ensures 0 <= n < 16
    ensures forall m :: 0 <= m < 16 && HexDigit(m) == c ==> n == m
  {
    if '0' <= c <= '9' then c as int - '0' as int
    else if 'A' <= c <= 'F' then c as int - 'A' as int + 10
    else c as int - 'a' as int + 10
  }

  /** `%XY` for one byte. */
  function Percent(b: byte): string {
    ['%', HexDigit(b as int / 16), HexDigit(b as int % 16)]
  }

  function PercentAll(bs: seq<byte>): (r: string)
    ensures |r| == 3 * |bs|
  {
    if |bs| == 0 then [] else Percent(bs[0]) + PercentAll(bs[1..])
  }

  /**
   * The encoding of one char: itself when unreserved, `+` for a space, and
   * otherwise the `%XY` escapes of its UTF-8 bytes.
   */
  function EncodeChar(c: char): (r: string)
    ensures forall k :: 0 <= k < |r| ==> EncodedChar(r[k])
    ensures |r| == 1 <==> Unreserved(c) || c == ' '
    ensures Unreserved(c) ==> r == [c]
    ensures c == ' ' ==> r == "+"
    ensures !Unreserved(c) && c != ' ' ==> |r| == 3 * |Utf8Char(c)| && r[0] == '%'
    ensures !Unreserved(c) && c != ' ' ==> forall k :: 0 <= k < |r| ==> UpperEscapeChar(r[k])
  {
    PercentAllEncoded(Utf8Char(c));
    PercentAllUpper(Utf8Char(c));
    if Unreserved(c) then [c]
    else if c == ' ' then "+"
    else PercentAll(Utf8Char(c))
  }

  /** URLEncoder.encode(s, "UTF-8"); the result never holds `&` or `=`. */
  function Encode(s: string): (r: string)
    ensures forall k :: 0 <= k < |r| ==> EncodedChar(r[k])
  {
    if |s| == 0 then []
    else EncodeChar(s[0]) + Encode(s[1..])
  }

  /** A string of unreserved chars is its own encoding. */
  lemma {:induction false} EncodeUnreserved(s: string)
    requires forall k :: 0 <= k < |s| ==> Unreserved(s[k])
    ensures Encode(s) == s
  {
    if |s| > 0 {
      EncodeUnreserved(s[1..]);
      assert [s[0]] + s[1..] == s;
    }
  }

  /** Encoding works char by char, so it distributes over concatenation. */
  lemma {:induction false} EncodeConcat(a: string, b: string)
    ensures Encode(a + b) == Encode(a) + Encode(b)
  {
    if |a| == 0 {
      assert a + b == b;
    } else {
      assert (a + b)[1..] == a[1..] + b;
      EncodeConcat(a[1..], b);
    }
  }

  /** Only `%` and hex digits appear in a run of escapes. */
  lemma {:induction false} PercentAllEncoded(bs: seq<byte>)
    ensures forall k :: 0 <= k < |PercentAll(bs)| ==> EncodedChar(PercentAll(bs)[k])
  {
    if |bs| > 0 {
      PercentAllEncoded(bs[1..]);
      var p := Percent(bs[0]);
      var rest := PercentAll(bs[1..]);
      assert PercentAll(bs) == p + rest;
      forall k | 0 <= k < |p + rest|
        ensures EncodedChar((p + rest)[k])
      {
        if k >= |p| {
          assert (p + rest)[k] == rest[k - |p|];
        }
      }
    }
  }

  /** A run of escapes holds only `%` and upper-case hex digits. */
  lemma {:induction false} PercentAllUpper(bs: seq<byte>)
    ensures forall k :: 0 <= k < |PercentAll(bs)| ==> UpperEscapeChar(PercentAll(bs)[k])
  {
    if |bs| > 0 {
      PercentAllUpper(bs[1..]);
      var p := Percent(bs[0]);
      var rest := PercentAll(bs[1..]);
      assert PercentAll(bs) == p + rest;
      forall k | 0 <= k < |p + rest|
        ensures UpperEscapeChar((p + rest)[k])
      {
        if k >= |p| {
          assert (p + rest)[k] == rest[k - |p|];
        }
      }
    }
  }

  /**
   * The form decoder (section 5.1 of the WHATWG URL Standard) applied to the
   * UTF-8 bytes of `t`: `+` is a space byte, `%XY` is the byte it writes out,
   * and any other char stands for its own UTF-8 bytes.
   */
  function Decode(t: string): seq<byte>
    decreases |t|
  {
    if |t| == 0 then []
    else if t[0] == '+' then [32 as byte] + Decode(t[1..])
    else if t[0] == '%' && |t| >= 3 && IsHex(t[1]) && IsHex(t[2]) then
      [(HexValue(t[1]) * 16 + HexValue(t[2])) as byte] + Decode(t[3..])
    else Utf8Char(t[0]) + Decode(t[1..])
  }

  /** Text without `+` or `%` decodes to its own UTF-8 bytes. */
  lemma {:induction false} DecodePlain(t: string)
    requires '+' !in t && '%' !in t
    ensures Decode(t) == Utf8(t)
  {
    if |t| > 0 {
      assert t[0] in t;
      DecodePlain(t[1..]);
    }
  }

  /** A run of escapes decodes to the bytes it was made from. */
  lemma {:induction false} DecodePercentAll(bs: seq<byte>, rest: string)
    ensures Decode(PercentAll(bs) + rest) == bs + Decode(rest)
  {
    if |bs| > 0 {
      var b := bs[0];
      var hi, lo := b as int / 16, b as int % 16;
      var tail := PercentAll(bs[1..]) + rest;
      var t := Percent(b) + tail;
      assert PercentAll(bs) + rest == t;
      assert t[0] == '%' && t[1] == HexDigit(hi) && t[2] == HexDigit(lo);
      assert t[3..] == tail;
      assert HexValue(t[1]) == hi && HexValue(t[2]) == lo;
      assert hi * 16 + lo == b as int;
      assert Decode(t) == [b] + Decode(tail);
      DecodePercentAll(bs[1..], rest);
      assert Decode(tail) == bs[1..] + Decode(rest);
      assert bs == [b] + bs[1..];
      assert [b] + (bs[1..] + Decode(rest)) == bs + Decode(rest);
    } else {
      assert PercentAll(bs) + rest == rest;
    }
  }

  /** One encoded char decodes to that char's UTF-8 bytes. */
  lemma DecodeEncodeChar(c: char, rest: string)
    ensures Decode(EncodeChar(c) + rest) == Utf8Char(c) + Decode(rest)
  {
    if Unreserved(c) {
      assert ([c] + rest)[1..] == rest;
    } else if c == ' ' {
      assert ("+" + rest)[1..] == rest;
    } else {
      DecodePercentAll(Utf8Char(c), rest);
    }
  }

  /** Round trip: decoding the form encoding of `s` gives the UTF-8 bytes of `s`. */
  lemma {:induction false} DecodeEncode(s: string)
    ensures Decode(Encode(s)) == Utf8(s)
  {
    if |s| > 0 {
      DecodeEncodeChar(s[0], Encode(s[1..]));
      DecodeEncode(s[1..]);
    }
  }
}
