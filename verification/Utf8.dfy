/** UTF-8 (RFC 3629), the encoding of the footer's text. */
module Utf8 {
  import opened Bytes
  import opened Common

  function EncodeChar(c: char): (b: seq<byte>)
    ensures b != []
  {
    var n := c as int;
    if n < 0x80 then [n]
    else if n < 0x800 then [0xC0 + n / 64, 0x80 + n % 64]
    else if n < 0x1_0000 then [0xE0 + n / 4096, 0x80 + n / 64 % 64, 0x80 + n % 64]
    else [0xF0 + n / 262144, 0x80 + n / 4096 % 64, 0x80 + n / 64 % 64, 0x80 + n % 64]
  }

  function Encode(s: string): seq<byte> {
    if s == [] then [] else EncodeChar(s[0]) + Encode(s[1..])
  }

  predicate IsContinuation(b: byte) {
    0x80 <= b < 0xC0
  }

  function Low(b: byte): int {
    b as int - 0x80
  }

  const REPLACEMENT := 0xFFFD as char

  /** The first character of `b` and its width; a byte that starts no well-formed sequence reads as
      the replacement character. */
  function DecodeHead(b: seq<byte>): (r: (char, nat))
    requires b != []
    ensures 1 <= r.1 <= |b|
  {
    if b[0] < 0x80 then (b[0] as char, 1)
    else if 0xC2 <= b[0] < 0xE0 && |b| >= 2 && IsContinuation(b[1]) then
      ((64 * (b[0] as int - 0xC0) + Low(b[1])) as char, 2)
    else if 0xE0 <= b[0] < 0xF0 && |b| >= 3 && IsContinuation(b[1]) && IsContinuation(b[2]) then
      var n := 4096 * (b[0] as int - 0xE0) + 64 * Low(b[1]) + Low(b[2]);
      if n < 0x800 || 0xD800 <= n < 0xE000 then (REPLACEMENT, 1) else (n as char, 3)
    else if 0xF0 <= b[0] < 0xF5 && |b| >= 4 && IsContinuation(b[1]) && IsContinuation(b[2]) && IsContinuation(b[3]) then
      var n := 262144 * (b[0] as int - 0xF0) + 4096 * Low(b[1]) + 64 * Low(b[2]) + Low(b[3]);
      if n < 0x1_0000 || 0x11_0000 <= n then (REPLACEMENT, 1) else (n as char, 4)
    else (REPLACEMENT, 1)
  }

  function Decode(b: seq<byte>): string {
    if b == [] then []
    else
      var head := DecodeHead(b);
      [head.0] + Decode(b[head.1..])
  }

  lemma DecodeEncodedChar(c: char, rest: seq<byte>)
    ensures DecodeHead(EncodeChar(c) + rest) == (c, |EncodeChar(c)|)
  {
    var n := c as int;
    if n < 0x800 {
    } else if n < 0x1_0000 {
      DecodeThree(c, rest);
    } else {
      DecodeFour(c, rest);
    }
  }

  lemma DecodeThree(c: char, rest: seq<byte>)
    requires 0x800 <= c as int < 0x1_0000
    ensures DecodeHead(EncodeChar(c) + rest) == (c, 3)
  {
    SixBits(c as int);
  }

  lemma DecodeFour(c: char, rest: seq<byte>)
    requires 0x1_0000 <= c as int
    ensures DecodeHead(EncodeChar(c) + rest) == (c, 4)
  {
    var n, all := c as int, EncodeChar(c) + rest;
    SixBits(n);
    assert all[0] == 0xF0 + n / 262144 && all[1] == 0x80 + n / 4096 % 64;
    assert all[2] == 0x80 + n / 64 % 64 && all[3] == 0x80 + n % 64;
  }

  /** A number in groups of six bits. */
  lemma SixBits(n: nat)
    ensures n == 4096 * (n / 4096) + 64 * (n / 64 % 64) + n % 64
    ensures n == 262144 * (n / 262144) + 4096 * (n / 4096 % 64) + 64 * (n / 64 % 64) + n % 64
    ensures n < 0x11_0000 ==> n / 262144 < 5
  {
    var m := n / 64;
    DividedBy(n, 4096, m / 64, 64 * (m % 64) + n % 64);
    DividedBy(n, 262144, m / 64 / 64, 4096 * (m / 64 % 64) + 64 * (m % 64) + n % 64);
  }

  /** Decoding undoes encoding for every text. */
  lemma {:induction false} DecodeEncoded(s: string)
    ensures Decode(Encode(s)) == s
  {
    if s != [] {
      var first, rest := EncodeChar(s[0]), Encode(s[1..]);
      DecodeEncodedChar(s[0], rest);
      assert (first + rest)[|first|..] == rest;
      DecodeEncoded(s[1..]);
    }
  }

  lemma {:induction false} EncodeConcat(a: string, b: string)
    ensures Encode(a + b) == Encode(a) + Encode(b)
  {
    if a == [] {
      assert a + b == b;
    } else {
      assert (a + b)[1..] == a[1..] + b;
      EncodeConcat(a[1..], b);
    }
  }

  function Above(b: byte, base: int): int {
    b as int - base
  }

  /** The encoding of a character in the words of section 3 of RFC 3629: the leading byte tells the length,
      each following byte carries six bits, and the shortest form is used. */
  lemma EncodedChar(c: char)
    ensures var n, b := c as int, EncodeChar(c);
      && |b| == (if n <= 0x7F then 1 else if n <= 0x7FF then 2 else if n <= 0xFFFF then 3 else 4)
      && (forall i :: 1 <= i < |b| ==> 0x80 <= b[i] <= 0xBF)
      && (|b| == 1 ==> b[0] == n)
      && (|b| == 2 ==> 0xC0 <= b[0] <= 0xDF && n == 64 * Above(b[0], 0xC0) + Above(b[1], 0x80))
      && (|b| == 3 ==> 0xE0 <= b[0] <= 0xEF && n == 4096 * Above(b[0], 0xE0) + 64 * Above(b[1], 0x80) + Above(b[2], 0x80))
      && (|b| == 4 ==> 0xF0 <= b[0] <= 0xF7 && n == 262144 * Above(b[0], 0xF0) + 4096 * Above(b[1], 0x80) + 64 * Above(b[2], 0x80) + Above(b[3], 0x80))
  {
    SixBits(c as int);
  }

  predicate IsAscii(s: string) {
    forall i :: 0 <= i < |s| ==> s[i] as int < 128
  }

  lemma {:induction false} AsciiLength(s: string)
    requires IsAscii(s)
    ensures |Encode(s)| == |s|
  {
    if s != [] {
      AsciiLength(s[1..]);
    }
  }
}
