/**
 UTF-8 as the app uses it: `String.data(using: .utf8)!` turns outgoing text into bytes
 and `String(decoding:as: UTF8.self)` turns incoming bytes into text.  Encoding never
 fails on a string of Unicode scalar values; decoding is total and replaces every byte
 that does not start a well-formed sequence with U+FFFD.
 */
module Utf8 {

  type byte = b: int | 0 <= b < 256

  type Bytes = seq<byte>

  const Replacement: char := '\U{FFFD}'

  predicate IsContinuation(b: byte) {
    0x80 <= b < 0xC0
  }

  predicate IsScalarValue(n: int) {
    (0 <= n < 0xD800) || (0xE000 <= n < 0x11_0000)
  }

  /** The one- to four-byte UTF-8 form of a scalar value (section 3 of RFC 3629) */
  function EncodeChar(c: char): (bs: Bytes)
    ensures 1 <= |bs| <= 4
    ensures (c as int < 0x80) <==> |bs| == 1
    ensures forall i :: 1 <= i < |bs| ==> IsContinuation(bs[i])
  {
    var n := c as int;
    if n < 0x80 then [n]
    else if n < 0x800 then [0xC0 + n / 64, 0x80 + n % 64]
    else if n < 0x1_0000 then [0xE0 + n / 4096, 0x80 + n / 64 % 64, 0x80 + n % 64]
    else [0xF0 + n / 0x4_0000, 0x80 + n / 4096 % 64, 0x80 + n / 64 % 64, 0x80 + n % 64]
  }

  function Encode(s: string): (bs: Bytes)
    ensures |s| <= |bs| <= 4 * |s|
  {
    if s == [] then [] else EncodeChar(s[0]) + Encode(s[1..])
  }

  /** The value carried by the low six bits of a continuation byte */
  function Low6(b: byte): int {
    b as int - 0x80
  }

  /** The scalar a well-formed sequence at the start of `bs` spells, and how many bytes it takes */
  function DecodeFirst(bs: Bytes): (r: (char, nat))
    requires bs != []
    ensures 1 <= r.1 <= |bs|
  {
    var b0: int := bs[0];
    if b0 < 0x80 then
      (b0 as char, 1)
    else if 0xC2 <= b0 < 0xE0 && 2 <= |bs| && IsContinuation(bs[1]) then
      (((b0 - 0xC0) * 64 + Low6(bs[1])) as char, 2)
    else if 0xE0 <= b0 < 0xF0 && 3 <= |bs| && IsContinuation(bs[1]) && IsContinuation(bs[2])
            && 0x800 <= (b0 - 0xE0) * 4096 + Low6(bs[1]) * 64 + Low6(bs[2])
            && IsScalarValue((b0 - 0xE0) * 4096 + Low6(bs[1]) * 64 + Low6(bs[2])) then
      (((b0 - 0xE0) * 4096 + Low6(bs[1]) * 64 + Low6(bs[2])) as char, 3)
    else if 0xF0 <= b0 < 0xF5 && 4 <= |bs| && IsContinuation(bs[1]) && IsContinuation(bs[2])
            && IsContinuation(bs[3])
            && 0x1_0000 <= (b0 - 0xF0) * 0x4_0000 + Low6(bs[1]) * 4096 + Low6(bs[2]) * 64 + Low6(bs[3]) < 0x11_0000 then
      (((b0 - 0xF0) * 0x4_0000 + Low6(bs[1]) * 4096 + Low6(bs[2]) * 64 + Low6(bs[3])) as char, 4)
    else
      (Replacement, 1)
  }

  function Decode(bs: Bytes): (s: string)
    ensures |s| <= |bs|
    decreases |bs|
  {
    if bs == [] then [] else
    var (c, k) := DecodeFirst(bs);
    [c] + Decode(bs[k..])
  }

  lemma SplitThree(n: int)
    requires 0 <= n
    ensures n / 4096 * 4096 + n / 64 % 64 * 64 + n % 64 == n
  {
    assert n / 64 == n / 4096 * 64 + n / 64 % 64;
  }

  lemma SplitFour(n: int)
    requires 0 <= n
    ensures n / 0x4_0000 * 0x4_0000 + n / 4096 % 64 * 4096 + n / 64 % 64 * 64 + n % 64 == n
  {
    assert n / 4096 == n / 0x4_0000 * 64 + n / 4096 % 64;
    SplitThree(n);
  }

  lemma DecodeFirstEncodeChar(c: char, rest: Bytes)
    ensures DecodeFirst(EncodeChar(c) + rest) == (c, |EncodeChar(c)|)
  {
    var n := c as int;
    var bs := EncodeChar(c) + rest;
    if n < 0x80 {
    } else if n < 0x800 {
      assert bs[0] as int - 0xC0 == n / 64 && Low6(bs[1]) == n % 64;
    } else if n < 0x1_0000 {
      assert bs[0] as int - 0xE0 == n / 4096 && Low6(bs[1]) == n / 64 % 64 && Low6(bs[2]) == n % 64;
      SplitThree(n);
    } else {
      assert bs[0] as int - 0xF0 == n / 0x4_0000;
      assert Low6(bs[1]) == n / 4096 % 64 && Low6(bs[2]) == n / 64 % 64 && Low6(bs[3]) == n % 64;
      SplitFour(n);
    }
  }

  /** Decoding undoes encoding: text sent as UTF-8 comes back unchanged */
  lemma {:induction false} DecodeEncode(s: string)
    ensures Decode(Encode(s)) == s
  {
    if s != [] {
      var head := EncodeChar(s[0]);
      var rest := Encode(s[1..]);
      DecodeFirstEncodeChar(s[0], rest);
      assert (head + rest)[|head|..] == rest;
      DecodeEncode(s[1..]);
    }
  }

  lemma {:induction false} EncodeAppend(a: string, b: string)
    ensures Encode(a + b) == Encode(a) + Encode(b)
  {
    if a == [] {
      assert a + b == b;
    } else {
      assert (a + b)[1..] == a[1..] + b;
      EncodeAppend(a[1..], b);
    }
  }
}
