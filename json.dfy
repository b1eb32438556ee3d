/** JSON as the session cookie uses it: `JSON.stringify` of an object whose members
    are all strings, and `JSON.parse` of any text (RFC 8259 grammar), which either
    yields a value or fails. */
module Json {
  import opened Types
  import opened Text

  /** A parsed JSON value. A number keeps its text; an object keeps its members in
      text order, duplicates included. */
  datatype Value =
    | JNull
    | JBool(b: bool)
    | JNumber(text: string)
    | JString(s: string)
    | JArray(items: seq<Value>)
    | JObject(members: seq<(string, Value)>)

  const Replacement: char := '\U{FFFD}'

  /** JSON whitespace: space, tab, line feed, carriage return. */
  predicate IsWs(c: char) {
    c == ' ' || c == '\t' || c == '\n' || c == '\r'
  }

  function SkipWs(s: string): (r: string)
    ensures |r| <= |s|
    ensures r == [] || !IsWs(r[0])
  {
    if s != [] && IsWs(s[0]) then SkipWs(s[1..]) else s
  }

  predicate IsDigit(c: char) {
    '0' <= c <= '9'
  }

  function HexValue(c: char): (v: Option<int>)
    ensures v.Some? ==> 0 <= v.value < 16
  {
    if '0' <= c <= '9' then Some(c as int - '0' as int)
    else if 'a' <= c <= 'f' then Some(c as int - 'a' as int + 10)
    else if 'A' <= c <= 'F' then Some(c as int - 'A' as int + 10)
    else None
  }

  /** The value of four hex digits at the start of `s`. */
  function Hex4(s: string): (v: Option<int>)
    ensures v.Some? ==> 0 <= v.value < 0x10000 && |s| >= 4
  {
    if |s| < 4 then None
    else match (HexValue(s[0]), HexValue(s[1]), HexValue(s[2]), HexValue(s[3]))
      case (Some(a), Some(b), Some(c), Some(d)) => Some(a * 4096 + b * 256 + c * 16 + d)
      case _ => None
  }

  /** Prepends a character to a parsed string body. */
  function Prepend(c: char, r: Option<(string, string)>): Option<(string, string)> {
    if r.None? then None else Some(([c] + r.value.0, r.value.1))
  }

  /** The characters of a string literal after its opening quote, and the text after
      its closing quote. A `\u` escape of a UTF-16 surrogate pair gives the character
      it encodes; an unpaired surrogate gives U+FFFD. */
  function StringBody(s: string): (r: Option<(string, string)>)
    ensures r.Some? ==> |r.value.1| < |s|
  {
    if s == [] then None
    else if s[0] == '"' then Some(([], s[1..]))
    else if s[0] == '\\' then
      if |s| < 2 then None
      else if s[1] == '"' then Prepend('"', StringBody(s[2..]))
      else if s[1] == '\\' then Prepend('\\', StringBody(s[2..]))
      else if s[1] == '/' then Prepend('/', StringBody(s[2..]))
      else if s[1] == 'b' then Prepend('\U{8}', StringBody(s[2..]))
      else if s[1] == 'f' then Prepend('\U{C}', StringBody(s[2..]))
      else if s[1] == 'n' then Prepend('\n', StringBody(s[2..]))
      else if s[1] == 'r' then Prepend('\r', StringBody(s[2..]))
      else if s[1] == 't' then Prepend('\t', StringBody(s[2..]))
      else if s[1] == 'u' then
        match Hex4(s[2..])
        case None => None
        case Some(u) =>
          if 0xD800 <= u < 0xDC00 then
            var low := if |s| >= 12 && s[6] == '\\' && s[7] == 'u' then Hex4(s[8..]) else None;
            if low.Some? && 0xDC00 <= low.value < 0xE000 then
              Prepend((0x10000 + (u - 0xD800) * 1024 + (low.value - 0xDC00)) as char, StringBody(s[12..]))
            else Prepend(Replacement, StringBody(s[6..]))
          else if 0xDC00 <= u < 0xE000 then Prepend(Replacement, StringBody(s[6..]))
          else Prepend(u as char, StringBody(s[6..]))
      else None
    else if (s[0] as int) < 0x20 then None
    else Prepend(s[0], StringBody(s[1..]))
  }

  /** The number of decimal digits `s` starts with. */
  function LeadingDigits(s: string): (n: nat)
    ensures n <= |s|
    ensures forall i :: 0 <= i < n ==> IsDigit(s[i])
    ensures n < |s| ==> !IsDigit(s[n])
  {
    if s != [] && IsDigit(s[0]) then 1 + LeadingDigits(s[1..]) else 0
  }

  /** The end of the integer part starting at `i`: one zero, or a non-zero digit and
      any digits after it. */
  function IntEnd(s: string, i: nat): (e: Option<nat>)
    requires i <= |s|
    ensures e.Some? ==> i < e.value <= |s|
  {
    if i < |s| && s[i] == '0' then Some(i + 1)
    else if i < |s| && '1' <= s[i] <= '9' then Some(i + 1 + LeadingDigits(s[i + 1..]))
    else None
  }

  /** The end of an optional fraction starting at `i`: a point and at least one digit. */
  function FracEnd(s: string, i: nat): (e: Option<nat>)
    requires i <= |s|
    ensures e.Some? ==> i <= e.value <= |s|
  {
    if i < |s| && s[i] == '.' then
      var d := LeadingDigits(s[i + 1..]);
      if d == 0 then None else Some(i + 1 + d)
    else Some(i)
  }

  /** The end of an optional exponent starting at `i`: `e` or `E`, a sign or none,
      and at least one digit. */
  function ExpEnd(s: string, i: nat): (e: Option<nat>)
    requires i <= |s|
    ensures e.Some? ==> i <= e.value <= |s|
  {
    if i < |s| && (s[i] == 'e' || s[i] == 'E') then
      var j := if i + 1 < |s| && (s[i + 1] == '+' || s[i + 1] == '-') then i + 2 else i + 1;
      var d := LeadingDigits(s[j..]);
      if d == 0 then None else Some(j + d)
    else Some(i)
  }

  function ParseNumber(s: string): (r: Option<(Value, string)>)
    ensures r.Some? ==> |r.value.1| < |s|
  {
    var i0 := if s != [] && s[0] == '-' then 1 else 0;
    match IntEnd(s, i0)
    case None => None
    case Some(a) =>
      match FracEnd(s, a)
      case None => None
      case Some(b) =>
        match ExpEnd(s, b)
        case None => None
        case Some(c) => Some((JNumber(s[..c]), s[c..]))
  }

  /** A value at the start of `s` (no leading whitespace) and the text after it. */
  function ParseValue(s: string): (r: Option<(Value, string)>)
    ensures r.Some? ==> |r.value.1| < |s|
    decreases |s|, 0
  {
    if s == [] then None
    else if s[0] == '{' then
      match ParseObject(s[1..])
      case None => None
      case Some((ms, rest)) => Some((JObject(ms), rest))
    else if s[0] == '[' then
      match ParseArray(s[1..])
      case None => None
      case Some((items, rest)) => Some((JArray(items), rest))
    else if s[0] == '"' then
      match StringBody(s[1..])
      case None => None
      case Some((str, rest)) => Some((JString(str), rest))
    else if StartsWith(s, "true") then Some((JBool(true), s[4..]))
    else if StartsWith(s, "false") then Some((JBool(false), s[5..]))
    else if StartsWith(s, "null") then Some((JNull, s[4..]))
    else ParseNumber(s)
  }

  /** The members of an object after its `{`, and the text after its `}`. */
  function ParseObject(s: string): (r: Option<(seq<(string, Value)>, string)>)
    ensures r.Some? ==> |r.value.1| < |s|
    decreases |s|, 2
  {
    var t := SkipWs(s);
    if t != [] && t[0] == '}' then Some(([], t[1..]))
    else ParseMembers(t)
  }

  /** One or more members separated by commas, then `}`. */
  function ParseMembers(t: string): (r: Option<(seq<(string, Value)>, string)>)
    ensures r.Some? ==> |r.value.1| < |t|
    decreases |t|, 1
  {
    if t == [] || t[0] != '"' then None
    else match StringBody(t[1..])
      case None => None
      case Some((key, t2)) =>
        var t3 := SkipWs(t2);
        if t3 == [] || t3[0] != ':' then None
        else match ParseValue(SkipWs(t3[1..]))
          case None => None
          case Some((v, t5)) =>
            var t6 := SkipWs(t5);
            if t6 != [] && t6[0] == '}' then Some(([(key, v)], t6[1..]))
            else if t6 != [] && t6[0] == ',' then
              match ParseMembers(SkipWs(t6[1..]))
              case None => None
              case Some((ms, t8)) => Some(([(key, v)] + ms, t8))
            else None
  }

  /** The items of an array after its `[`, and the text after its `]`. */
  function ParseArray(s: string): (r: Option<(seq<Value>, string)>)
    ensures r.Some? ==> |r.value.1| < |s|
    decreases |s|, 2
  {
    var t := SkipWs(s);
    if t != [] && t[0] == ']' then Some(([], t[1..]))
    else ParseItems(t)
  }

  /** One or more values separated by commas, then `]`. */
  function ParseItems(t: string): (r: Option<(seq<Value>, string)>)
    ensures r.Some? ==> |r.value.1| < |t|
    decreases |t|, 1
  {
    match ParseValue(t)
    case None => None
    case Some((v, t2)) =>
      var t3 := SkipWs(t2);
      if t3 != [] && t3[0] == ']' then Some(([v], t3[1..]))
      else if t3 != [] && t3[0] == ',' then
        match ParseItems(SkipWs(t3[1..]))
        case None => None
        case Some((items, t5)) => Some(([v] + items, t5))
      else None
  }

  /** `JSON.parse(text)`: one value with optional whitespace around it; `None` is a
      `SyntaxError`. */
  function Parse(text: string): Option<Value> {
    match ParseValue(SkipWs(text))
    case None => None
    case Some((v, rest)) => if SkipWs(rest) == [] then Some(v) else None
  }

  /** `object[key]` on a parsed object: the last member with that key wins. */
  function Get(members: seq<(string, Value)>, key: string): (v: Option<Value>)
    ensures v.Some? <==> exists i :: 0 <= i < |members| && members[i].0 == key
    ensures v.Some? ==> exists i :: 0 <= i < |members| && members[i] == (key, v.value)
                                     && forall j :: i < j < |members| ==> members[j].0 != key
  {
    if members == [] then None
    else if members[|members| - 1].0 == key then Some(members[|members| - 1].1)
    else
      var v := Get(members[..|members| - 1], key);
      assert forall i :: 0 <= i < |members| - 1 ==> members[..|members| - 1][i] == members[i];
      v
  }

  /** Every digit before the exponent is a zero (so the number is 0 or -0). */
  predicate ZeroMantissa(text: string) {
    text == [] || text[0] == 'e' || text[0] == 'E' ||
    ((text[0] == '-' || text[0] == '.' || text[0] == '0') && ZeroMantissa(text[1..]))
  }

  /** JavaScript truthiness of a parsed value. */
  predicate Truthy(v: Value) {
    match v
    case JNull => false
    case JBool(b) => b
    case JNumber(text) => !ZeroMantissa(text)
    case JString(s) => s != ""
    case JArray(_) => true
    case JObject(_) => true
  }

  /** A lower-case hex digit, as `JSON.stringify` writes them. */
  function HexDigit(v: int): (c: char)
    requires 0 <= v < 16
    ensures HexValue(c) == Some(v)
  {
    if v < 10 then ('0' as int + v) as char else ('a' as int + v - 10) as char
  }

  /** How `JSON.stringify` writes one character inside a string literal. */
  function EscapeChar(c: char): (e: string)
    ensures e != []
  {
    if c == '"' then "\\\""
    else if c == '\\' then "\\\\"
    else if c == '\U{8}' then "\\b"
    else if c == '\U{C}' then "\\f"
    else if c == '\n' then "\\n"
    else if c == '\r' then "\\r"
    else if c == '\t' then "\\t"
    else if (c as int) < 0x20 then "\\u00" + [HexDigit(c as int / 16), HexDigit(c as int % 16)]
    else [c]
  }

  function Escaped(s: string): string {
    if s == [] then "" else EscapeChar(s[0]) + Escaped(s[1..])
  }

  /** `JSON.stringify` of a string. */
  function Quote(s: string): string {
    "\"" + Escaped(s) + "\""
  }

  function MembersText(ms: seq<(string, string)>): string
    requires ms != []
  {
    Quote(ms[0].0) + ":" + Quote(ms[0].1) + (if |ms| == 1 then "" else "," + MembersText(ms[1..]))
  }

  /** `JSON.stringify` of an object whose members are all strings, in member order
      and without whitespace. */
  function StringifyObject(ms: seq<(string, string)>): (text: string)
    ensures text != [] && text[0] == '{'
  {
    if ms == [] then "{}" else "{" + MembersText(ms) + "}"
  }

  /** The parsed form of such an object. */
  function StringMembers(ms: seq<(string, string)>): (r: seq<(string, Value)>)
    ensures |r| == |ms|
    ensures forall i :: 0 <= i < |ms| ==> r[i] == (ms[i].0, JString(ms[i].1))
  {
    if ms == [] then [] else [(ms[0].0, JString(ms[0].1))] + StringMembers(ms[1..])
  }

  lemma SkipWsNone(s: string)
    requires s == [] || !IsWs(s[0])
    ensures SkipWs(s) == s
  {
  }

  /** One written character reads back as itself, whatever follows it. */
  lemma EscapeCharReads(c: char, t: string)
    ensures StringBody(EscapeChar(c) + t) == Prepend(c, StringBody(t))
  {
    if c == '"' || c == '\\' || c == '\U{8}' || c == '\U{C}' || c == '\n' || c == '\r' || c == '\t' {
      ShortEscapeReads(c, t);
    } else if (c as int) < 0x20 {
      ControlEscapeReads(c, t);
    } else {
      assert (EscapeChar(c) + t)[1..] == t;
    }
  }

  lemma ShortEscapeReads(c: char, t: string)
    requires c == '"' || c == '\\' || c == '\U{8}' || c == '\U{C}' || c == '\n' || c == '\r' || c == '\t'
    ensures StringBody(EscapeChar(c) + t) == Prepend(c, StringBody(t))
  {
    var e := EscapeChar(c);
    assert |e| == 2 && e[0] == '\\';
    assert (e + t)[2..] == t;
  }

  lemma ControlEscapeReads(c: char, t: string)
    requires (c as int) < 0x20
    requires !(c == '\U{8}' || c == '\U{C}' || c == '\n' || c == '\r' || c == '\t')
    ensures StringBody(EscapeChar(c) + t) == Prepend(c, StringBody(t))
  {
    var s := EscapeChar(c) + t;
    var hi, lo := c as int / 16, c as int % 16;
    assert s[..6] == ['\\', 'u', '0', '0', HexDigit(hi), HexDigit(lo)];
    assert s[2..][..4] == ['0', '0', HexDigit(hi), HexDigit(lo)];
    assert Hex4(s[2..]) == Some(c as int);
    assert s[6..] == t;
  }

  /** A written string body and its closing quote read back as the string. */
  lemma {:induction false} EscapedReads(s: string, rest: string)
    ensures StringBody(Escaped(s) + "\"" + rest) == Some((s, rest))
  {
    if s == [] {
      assert (Escaped(s) + "\"" + rest)[1..] == rest;
    } else {
      var t := Escaped(s[1..]) + "\"" + rest;
      assert Escaped(s) + "\"" + rest == EscapeChar(s[0]) + t;
      EscapeCharReads(s[0], t);
      EscapedReads(s[1..], rest);
      assert [s[0]] + s[1..] == s;
    }
  }

  /** A written string literal reads back as the string value. */
  lemma QuoteReads(s: string, rest: string)
    ensures ParseValue(Quote(s) + rest) == Some((JString(s), rest))
  {
    var text := Quote(s) + rest;
    assert text[1..] == Escaped(s) + "\"" + rest;
    EscapedReads(s, rest);
  }

  /** A written key reads back as a string, up to what follows it. */
  lemma KeyReads(k: string, after: string)
    ensures (Quote(k) + after)[0] == '"'
    ensures StringBody((Quote(k) + after)[1..]) == Some((k, after))
  {
    assert (Quote(k) + after)[1..] == Escaped(k) + "\"" + after;
    EscapedReads(k, after);
  }

  /** A colon and a written value read back as that value, up to what follows. */
  lemma ColonValueReads(v: string, tail: string)
    ensures var t := ":" + Quote(v) + tail;
      && SkipWs(t) == t && t[0] == ':'
      && ParseValue(SkipWs(t[1..])) == Some((JString(v), tail))
  {
    var t := ":" + Quote(v) + tail;
    SkipWsNone(t);
    assert t[1..] == Quote(v) + tail;
    SkipWsNone(Quote(v) + tail);
    QuoteReads(v, tail);
  }

  /** The key and the value of one written member read back, up to what follows. */
  lemma MemberReads(k: string, v: string, tail: string)
    ensures var t := Quote(k) + ":" + Quote(v) + tail;
      && t[0] == '"'
      && StringBody(t[1..]) == Some((k, ":" + Quote(v) + tail))
      && SkipWs(":" + Quote(v) + tail) == ":" + Quote(v) + tail
      && ParseValue(SkipWs((":" + Quote(v) + tail)[1..])) == Some((JString(v), tail))
  {
    var after := ":" + Quote(v) + tail;
    assert Quote(k) + ":" + Quote(v) + tail == Quote(k) + after;
    KeyReads(k, after);
    ColonValueReads(v, tail);
  }

  /** One member, then either `}` or a comma and the members after it: the steps
      `ParseMembers` takes, stated once. */
  lemma MembersStep(t: string, key: string, after: string, v: Value, tail: string)
    requires t != [] && t[0] == '"' && StringBody(t[1..]) == Some((key, after))
    requires SkipWs(after) == after && after != [] && after[0] == ':'
    requires ParseValue(SkipWs(after[1..])) == Some((v, tail))
    requires SkipWs(tail) == tail && tail != [] && tail[0] in "},"
    ensures tail[0] == '}' ==> ParseMembers(t) == Some(([(key, v)], tail[1..]))
    ensures tail[0] == ',' ==>
      ParseMembers(t) == (match ParseMembers(SkipWs(tail[1..]))
                          case None => None
                          case Some((ms, rest)) => Some(([(key, v)] + ms, rest)))
  {
  }

  /** The last written member and the closing brace read back as that member. */
  lemma LastMemberReads(k: string, v: string, rest: string)
    ensures ParseMembers(Quote(k) + ":" + Quote(v) + ("}" + rest)) == Some(([(k, JString(v))], rest))
  {
    var tail := "}" + rest;
    MemberReads(k, v, tail);
    SkipWsNone(tail);
    assert tail[1..] == rest;
    MembersStep(Quote(k) + ":" + Quote(v) + tail, k, ":" + Quote(v) + tail, JString(v), tail);
  }

  /** A written member followed by a comma reads back in front of the members after it. */
  lemma NextMemberReads(k: string, v: string, more: string, ms: seq<(string, Value)>, rest: string)
    requires more != [] && more[0] == '"'
    requires ParseMembers(more) == Some((ms, rest))
    ensures ParseMembers(Quote(k) + ":" + Quote(v) + ("," + more)) == Some(([(k, JString(v))] + ms, rest))
  {
    var tail := "," + more;
    MemberReads(k, v, tail);
    SkipWsNone(tail);
    assert tail[1..] == more;
    SkipWsNone(more);
    MembersStep(Quote(k) + ":" + Quote(v) + tail, k, ":" + Quote(v) + tail, JString(v), tail);
  }

  /** The written members and what follows them: the first member, then the
      closing brace or a comma and the others. */
  lemma MembersTextShape(ms: seq<(string, string)>, rest: string)
    requires ms != []
    ensures |ms| == 1 ==> MembersText(ms) + "}" + rest == Quote(ms[0].0) + ":" + Quote(ms[0].1) + ("}" + rest)
    ensures |ms| > 1 ==>
      MembersText(ms) + "}" + rest == Quote(ms[0].0) + ":" + Quote(ms[0].1) + ("," + (MembersText(ms[1..]) + "}" + rest))
  {
    var (k, v) := ms[0];
    if |ms| == 1 {
      assert MembersText(ms) + "}" + rest == Quote(k) + ":" + Quote(v) + ("}" + rest);
    } else {
      var head, others := Quote(k) + ":" + Quote(v), "," + MembersText(ms[1..]);
      assert MembersText(ms) == head + others;
      ConcatAssoc(head, others, "}");
      ConcatAssoc(head, others + "}", rest);
      ConcatAssoc(",", MembersText(ms[1..]), "}");
      ConcatAssoc(",", MembersText(ms[1..]) + "}", rest);
    }
  }

  lemma ConcatAssoc<T>(p: seq<T>, q: seq<T>, r: seq<T>)
    ensures p + q + r == p + (q + r)
  {
  }

  /** Written members and the closing brace read back as the members. */
  lemma {:induction false} MembersTextReads(ms: seq<(string, string)>, rest: string)
    requires ms != []
    ensures ParseMembers(MembersText(ms) + "}" + rest) == Some((StringMembers(ms), rest))
  {
    var (k, v) := ms[0];
    MembersTextShape(ms, rest);
    if |ms| == 1 {
      LastMemberReads(k, v, rest);
      assert StringMembers(ms) == [(k, JString(v))];
    } else {
      var more := MembersText(ms[1..]) + "}" + rest;
      MembersTextReads(ms[1..], rest);
      NextMemberReads(k, v, more, StringMembers(ms[1..]), rest);
      assert StringMembers(ms) == [(k, JString(v))] + StringMembers(ms[1..]);
    }
  }

  /** Parsing what `StringifyObject` writes gives back the object, member for member. */
  lemma ParseStringifyObject(ms: seq<(string, string)>)
    ensures Parse(StringifyObject(ms)) == Some(JObject(StringMembers(ms)))
  {
    var text := StringifyObject(ms);
    SkipWsNone(text);
    if ms == [] {
      assert text[1..] == "}";
      SkipWsNone(text[1..]);
      assert ParseObject(text[1..]) == Some(([], []));
      assert ParseValue(text) == Some((JObject([]), []));
    } else {
      var body := text[1..];
      assert body == MembersText(ms) + "}" + "";
      assert body[0] == '"';
      SkipWsNone(body);
      MembersTextReads(ms, "");
      assert ParseObject(body) == Some((StringMembers(ms), ""));
      assert ParseValue(text) == Some((JObject(StringMembers(ms)), ""));
    }
  }
}
