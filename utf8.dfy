/** UTF-8 as the session cookie uses it: `Buffer.from(text, "utf8")` and
    `buffer.toString("utf8")`, whose decoder never fails but puts U+FFFD in place of
    each maximal ill-formed subsequence (the WHATWG "UTF-8 decode" algorithm). */
module Utf8 {

  type byte = x: int | 0 <= x < 256

  const Replacement: char := '\U{FFFD}'

  /** A continuation byte, 10xxxxxx. */
  predicate IsContinuation(x: byte) {
    0x80 <= x < 0xC0
  }

  /** The shortest encoding of one code point. */
  function EncodeChar(c: char): (b: seq<byte>)
    ensures 1 <= |b| <= 4
    ensures (|b| == 1) == (c as int < 0x80)
  {
    var cp := c as int;
    if cp < 0x80 then [cp]
    else if cp < 0x800 then [0xC0 + cp / 64, 0x80 + cp % 64]
    else if cp < 0x10000 then [0xE0 + cp / 4096, 0x80 + (cp / 64) % 64, 0x80 + cp % 64]
    else [0xF0 + cp / 262144, 0x80 + (cp / 4096) % 64, 0x80 + (cp / 64) % 64, 0x80 + cp % 64]
  }

  /** `Buffer.from(s, "utf8")`. */
  function Encode(s: string): (b: seq<byte>)
    ensures |s| <= |b| <= 4 * |s|
  {
    if s == [] then [] else EncodeChar(s[0]) + Encode(s[1..])
  }

  /** The first character the decoder produces from `b` and how many bytes it consumed:
      a well-formed sequence gives its code point, anything else a U+FFFD that
      consumes the longest prefix that could still have started a valid sequence. */
  function DecodeOne(b: seq<byte>): (r: (char, nat))
    requires |b| > 0
    ensures 1 <= r.1 <= |b| && r.1 <= 4
  {
    var b0: int := b[0];
    if b0 < 0x80 then
      (b0 as char, 1)
    else if 0xC2 <= b0 < 0xE0 then
      if |b| >= 2 && IsContinuation(b[1]) then
        var cp := (b0 - 0xC0) * 64 + (b[1] as int - 0x80);
        (cp as char, 2)
      else (Replacement, 1)
    else if 0xE0 <= b0 < 0xF0 then
      var lo := if b0 == 0xE0 then 0xA0 else 0x80;
      var hi := if b0 == 0xED then 0xA0 else 0xC0;
      if |b| >= 2 && lo <= b[1] < hi then
        if |b| >= 3 && IsContinuation(b[2]) then
          var cp := (b0 - 0xE0) * 4096 + (b[1] as int - 0x80) * 64 + (b[2] as int - 0x80);
          (cp as char, 3)
        else (Replacement, 2)
      else (Replacement, 1)
    else if 0xF0 <= b0 < 0xF5 then
      var lo := if b0 == 0xF0 then 0x90 else 0x80;
      var hi := if b0 == 0xF4 then 0x90 else 0xC0;
      if |b| >= 2 && lo <= b[1] < hi then
        if |b| >= 3 && IsContinuation(b[2]) then
          if |b| >= 4 && IsContinuation(b[3]) then
            var cp := (b0 - 0xF0) * 262144 + (b[1] as int - 0x80) * 4096 + (b[2] as int - 0x80) * 64 + (b[3] as int - 0x80);
            (cp as char, 4)
          else (Replacement, 3)
        else (Replacement, 2)
      else (Replacement, 1)
    else (Replacement, 1)
  }

  lemma EncodeTwo(x0: int, x1: int)
    requires 0xC2 <= x0 < 0xE0 && 0x80 <= x1 < 0xC0
    ensures var cp := (x0 - 0xC0) * 64 + (x1 - 0x80);
      0x80 <= cp < 0x800 && EncodeChar(cp as char) == [x0, x1]
  {
    var cp := (x0 - 0xC0) * 64 + (x1 - 0x80);
    assert cp / 64 == x0 - 0xC0 && cp % 64 == x1 - 0x80;
  }

  lemma EncodeThree(x0: int, x1: int, x2: int)
    requires 0xE0 <= x0 < 0xF0 && 0x80 <= x1 < 0xC0 && 0x80 <= x2 < 0xC0
    requires x0 == 0xE0 ==> x1 >= 0xA0
    requires x0 == 0xED ==> x1 < 0xA0
    ensures var cp := (x0 - 0xE0) * 4096 + (x1 - 0x80) * 64 + (x2 - 0x80);
      0x800 <= cp < 0x10000 && !(0xD800 <= cp < 0xE000) && EncodeChar(cp as char) == [x0, x1, x2]
  {
    var cp := (x0 - 0xE0) * 4096 + (x1 - 0x80) * 64 + (x2 - 0x80);
    assert cp / 4096 == x0 - 0xE0;
    assert cp / 64 == (x0 - 0xE0) * 64 + (x1 - 0x80);
    assert (cp / 64) % 64 == x1 - 0x80 && cp % 64 == x2 - 0x80;
  }

  lemma EncodeFour(x0: int, x1: int, x2: int, x3: int)
    requires 0xF0 <= x0 < 0xF5 && 0x80 <= x1 < 0xC0 && 0x80 <= x2 < 0xC0 && 0x80 <= x3 < 0xC0
    requires x0 == 0xF0 ==> x1 >= 0x90
    requires x0 == 0xF4 ==> x1 < 0x90
    ensures var cp := (x0 - 0xF0) * 262144 + (x1 - 0x80) * 4096 + (x2 - 0x80) * 64 + (x3 - 0x80);
      0x10000 <= cp < 0x110000 && EncodeChar(cp as char) == [x0, x1, x2, x3]
  {
    var cp := (x0 - 0xF0) * 262144 + (x1 - 0x80) * 4096 + (x2 - 0x80) * 64 + (x3 - 0x80);
    assert cp / 262144 == x0 - 0xF0;
    assert cp / 4096 == (x0 - 0xF0) * 64 + (x1 - 0x80);
    assert cp / 64 == (x0 - 0xF0) * 4096 + (x1 - 0x80) * 64 + (x2 - 0x80);
    assert (cp / 4096) % 64 == x1 - 0x80 && (cp / 64) % 64 == x2 - 0x80 && cp % 64 == x3 - 0x80;
  }

  /** Whatever the decoder reads as a character other than U+FFFD is exactly that
      character's encoding. */
  lemma DecodeOneIsEncoding(b: seq<byte>)
    requires |b| > 0
    ensures var (c, n) := DecodeOne(b);
      c != Replacement ==> n == |EncodeChar(c)| && b[..n] == EncodeChar(c)
  {
    var (c, n) := DecodeOne(b);
    if c != Replacement {
      var x0: int := b[0];
      if n == 2 {
        EncodeTwo(x0, b[1]);
        assert b[..2] == [b[0], b[1]];
      } else if n == 3 {
        EncodeThree(x0, b[1], b[2]);
        assert b[..3] == [b[0], b[1], b[2]];
      } else if n == 4 {
        EncodeFour(x0, b[1], b[2], b[3]);
        assert b[..4] == [b[0], b[1], b[2], b[3]];
      }
    }
  }

  /** `buffer.toString("utf8")`. */
  function Decode(b: seq<byte>): (s: string)
    ensures |s| <= |b|
    decreases |b|
  {
    if b == [] then [] else
      var (c, n) := DecodeOne(b);
      [c] + Decode(b[n..])
  }

  /** The decoder reads an encoded character back, whatever follows it. */
  lemma DecodeOneEncodeChar(c: char, rest: seq<byte>)
    ensures DecodeOne(EncodeChar(c) + rest) == (c, |EncodeChar(c)|)
  {
    var cp := c as int;
    if cp < 0x80 {
    } else if cp < 0x800 {
      DecodeTwoBytes(c, rest);
    } else if cp < 0x10000 {
      DecodeThreeBytes(c, rest);
    } else {
      DecodeFourBytes(c, rest);
    }
  }

  lemma DecodeTwoBytes(c: char, rest: seq<byte>)
    requires 0x80 <= c as int < 0x800
    ensures DecodeOne(EncodeChar(c) + rest) == (c, 2)
  {
    var cp := c as int;
    var b := EncodeChar(c) + rest;
    assert b[0] == 0xC0 + cp / 64 && b[1] == 0x80 + cp % 64;
  }

  lemma DecodeThreeBytes(c: char, rest: seq<byte>)
    requires 0x800 <= c as int < 0x10000
    ensures DecodeOne(EncodeChar(c) + rest) == (c, 3)
  {
    var cp := c as int;
    var b := EncodeChar(c) + rest;
    assert b[0] == 0xE0 + cp / 4096 && b[1] == 0x80 + (cp / 64) % 64 && b[2] == 0x80 + cp % 64;
    assert cp == (cp / 4096) * 4096 + ((cp / 64) % 64) * 64 + cp % 64;
  }

  lemma DecodeFourBytes(c: char, rest: seq<byte>)
    requires 0x10000 <= c as int
    ensures DecodeOne(EncodeChar(c) + rest) == (c, 4)
  {
    var cp := c as int;
    var b := EncodeChar(c) + rest;
    assert b[0] == 0xF0 + cp / 262144 && b[1] == 0x80 + (cp / 4096) % 64;
    assert b[2] == 0x80 + (cp / 64) % 64 && b[3] == 0x80 + cp % 64;
    var q0, q1, q2, q3 := cp / 262144, (cp / 4096) % 64, (cp / 64) % 64, cp % 64;
    assert cp / 4096 == q0 * 64 + q1;
    assert cp / 64 == (cp / 4096) * 64 + q2;
    assert cp == q0 * 262144 + q1 * 4096 + q2 * 64 + q3;
    assert q0 == 0 ==> q1 >= 16;
    assert q0 == 4 ==> q1 < 16;
    assert DecodeOne(b).1 == 4;
  }

  /** Decoding undoes encoding: every string survives the trip through bytes. */
  lemma {:induction false} DecodeEncode(s: string)
    ensures Decode(Encode(s)) == s
  {
    if s != [] {
      var e := EncodeChar(s[0]);
      DecodeOneEncodeChar(s[0], Encode(s[1..]));
      assert (e + Encode(s[1..]))[|e|..] == Encode(s[1..]);
      DecodeEncode(s[1..]);
    }
  }

  /** Decoding produces no replacement character from bytes that encode none: on
      well-formed input the decoder and the encoder are inverse. */
  lemma {:induction false} EncodeDecodeWellFormed(b: seq<byte>)
    requires Replacement !in Decode(b)
    ensures Encode(Decode(b)) == b
    decreases |b|
  {
    if b != [] {
      var (c, n) := DecodeOne(b);
      assert Decode(b) == [c] + Decode(b[n..]);
      DecodeOneIsEncoding(b);
      EncodeDecodeWellFormed(b[n..]);
      assert b == b[..n] + b[n..];
    }
  }
}
