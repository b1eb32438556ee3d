/** Base64url as the session cookie uses it: `buffer.toString("base64url")` writes the
    URL-safe alphabet without padding, and `Buffer.from(text, "base64url")` reads
    leniently, as Node's decoder does: it accepts both alphabets, skips any other
    character, stops at the first '=', and turns a trailing group of two or three
    digits into one or two bytes. */
module Base64Url {
  import opened Types
  import opened Utf8

  type sextet = x: int | 0 <= x < 64

  /** The URL-safe digit for a six-bit value. */
  function Digit(v: sextet): (c: char)
  {
    if v < 26 then ('A' as int + v) as char
    else if v < 52 then ('a' as int + (v - 26)) as char
    else if v < 62 then ('0' as int + (v - 52)) as char
    else if v == 62 then '-'
    else '_'
  }

  /** The value of a digit of either alphabet; `None` for any other character. */
  function ValueOf(c: char): (v: Option<sextet>)
    ensures v.Some? <==> ('A' <= c <= 'Z' || 'a' <= c <= 'z' || '0' <= c <= '9' || c in "-_+/")
  {
    if 'A' <= c <= 'Z' then Some(c as int - 'A' as int)
    else if 'a' <= c <= 'z' then Some(c as int - 'a' as int + 26)
    else if '0' <= c <= '9' then Some(c as int - '0' as int + 52)
    else if c == '-' || c == '+' then Some(62)
    else if c == '_' || c == '/' then Some(63)
    else None
  }

  lemma ValueOfDigit(v: sextet)
    ensures ValueOf(Digit(v)) == Some(v)
    ensures Digit(v) != '='
  {
  }

  /** The six-bit groups of `b`, most significant bits first; a final group of one or
      two bytes is padded with zero bits. */
  function Sextets(b: seq<byte>): (v: seq<sextet>)
    ensures |v| == (|b| / 3) * 4 + (if |b| % 3 == 0 then 0 else |b| % 3 + 1)
  {
    if |b| == 0 then []
    else if |b| == 1 then [b[0] / 4, (b[0] % 4) * 16]
    else if |b| == 2 then [b[0] / 4, (b[0] % 4) * 16 + b[1] / 16, (b[1] % 16) * 4]
    else [b[0] / 4, (b[0] % 4) * 16 + b[1] / 16, (b[1] % 16) * 4 + b[2] / 64, b[2] % 64] + Sextets(b[3..])
  }

  function Digits(v: seq<sextet>): (s: string)
    ensures |s| == |v|
    ensures forall i :: 0 <= i < |v| ==> s[i] == Digit(v[i])
  {
    if v == [] then [] else [Digit(v[0])] + Digits(v[1..])
  }

  /** `buffer.toString("base64url")`. */
  function Encode(b: seq<byte>): (s: string)
    ensures |s| == (|b| / 3) * 4 + (if |b| % 3 == 0 then 0 else |b| % 3 + 1)
    ensures forall i :: 0 <= i < |s| ==> ValueOf(s[i]).Some? && s[i] !in "+/="
  {
    var s := Digits(Sextets(b));
    forall i | 0 <= i < |s| ensures ValueOf(s[i]).Some? && s[i] !in "+/=" {
      ValueOfDigit(Sextets(b)[i]);
    }
    s
  }

  /** The digit values the decoder reads: up to the first '=', skipping characters
      of neither alphabet. */
  function Values(s: string): (v: seq<sextet>)
    ensures |v| <= |s|
  {
    if s == [] || s[0] == '=' then []
    else if ValueOf(s[0]).Some? then [ValueOf(s[0]).value] + Values(s[1..])
    else Values(s[1..])
  }

  /** Bytes from digit values, four digits to three bytes; a trailing two or three
      digits give one or two bytes and a single trailing digit none. */
  function Bytes(v: seq<sextet>): (b: seq<byte>)
    ensures |b| == (|v| / 4) * 3 + (if |v| % 4 == 0 then 0 else |v| % 4 - 1)
  {
    if |v| <= 1 then []
    else
      var a, b, c := v[0] as int, v[1] as int, if |v| > 2 then v[2] as int else 0;
      if |v| == 2 then [a * 4 + b / 16]
      else if |v| == 3 then [a * 4 + b / 16, (b % 16) * 16 + c / 4]
      else [a * 4 + b / 16, (b % 16) * 16 + c / 4, (c % 4) * 64 + v[3]] + Bytes(v[4..])
  }

  /** `Buffer.from(s, "base64url")`. */
  function Decode(s: string): (b: seq<byte>)
    ensures |b| <= |s|
  {
    Bytes(Values(s))
  }

  lemma {:induction false} ValuesOfDigits(v: seq<sextet>)
    ensures Values(Digits(v)) == v
  {
    if v != [] {
      ValueOfDigit(v[0]);
      assert Digits(v)[1..] == Digits(v[1..]);
      ValuesOfDigits(v[1..]);
    }
  }

  lemma {:induction false} BytesOfSextets(b: seq<byte>)
    ensures Bytes(Sextets(b)) == b
  {
    if |b| >= 3 {
      BytesOfSextets(b[3..]);
      assert Sextets(b)[4..] == Sextets(b[3..]);
      assert b == [b[0], b[1], b[2]] + b[3..];
    } else if |b| == 2 {
      assert b == [b[0], b[1]];
    } else if |b| == 1 {
      assert b == [b[0]];
    }
  }

  /** Decoding undoes encoding, for every byte string. */
  lemma DecodeEncode(b: seq<byte>)
    ensures Decode(Encode(b)) == b
  {
    ValuesOfDigits(Sextets(b));
    BytesOfSextets(b);
  }

  /** Whatever follows the first '=' is ignored. */
  lemma {:induction false} DecodeStopsAtPad(s: string, t: string)
    requires '=' !in s
    ensures Decode(s + "=" + t) == Decode(s)
  {
    ValuesStopAtPad(s, t);
  }

  lemma {:induction false} ValuesStopAtPad(s: string, t: string)
    requires '=' !in s
    ensures Values(s + "=" + t) == Values(s)
  {
    if s != [] {
      assert (s + "=" + t)[1..] == s[1..] + "=" + t;
      ValuesStopAtPad(s[1..], t);
    } else {
      assert (s + "=" + t)[0] == '=';
    }
  }
}
