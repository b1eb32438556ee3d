/** String helpers with the meaning the JavaScript built-ins have in the source:
    `trim`, `toLowerCase` (on ASCII letters), `includes`, `startsWith`, `join`,
    and the ordering of text columns. */
module Text {

  /** The characters `String.prototype.trim` removes: ECMAScript WhiteSpace and LineTerminator. */
  const Blanks: set<char> := {
    '\t', '\n', '\U{000B}', '\U{000C}', '\r', ' ', '\U{00A0}', '\U{1680}',
    '\U{2000}', '\U{2001}', '\U{2002}', '\U{2003}', '\U{2004}', '\U{2005}',
    '\U{2006}', '\U{2007}', '\U{2008}', '\U{2009}', '\U{200A}',
    '\U{2028}', '\U{2029}', '\U{202F}', '\U{205F}', '\U{3000}', '\U{FEFF}'
  }

  predicate IsTrimmable(c: char) {
    c in Blanks
  }

  /** Drops leading trimmable characters: the result is the suffix of `s` that starts
      at its first non-trimmable character. */
  function TrimStart(s: string): (r: string)
    ensures |r| <= |s| && r == s[|s| - |r|..]
    ensures r == [] || !IsTrimmable(r[0])
    ensures forall i :: 0 <= i < |s| - |r| ==> IsTrimmable(s[i])
  {
    if s == [] || !IsTrimmable(s[0]) then s else TrimStart(s[1..])
  }

  /** Drops trailing trimmable characters: the result is the prefix of `s` that ends
      at its last non-trimmable character. */
  function TrimEnd(s: string): (r: string)
    ensures |r| <= |s| && r == s[..|r|]
    ensures r == [] || !IsTrimmable(r[|r| - 1])
    ensures forall i :: |r| <= i < |s| ==> IsTrimmable(s[i])
  {
    if s == [] || !IsTrimmable(s[|s| - 1]) then s else TrimEnd(s[..|s| - 1])
  }

  /** `s.trim()`. */
  function Trim(s: string): (r: string)
  {
    TrimEnd(TrimStart(s))
  }

  /** `t` occurs in `s` starting at position `i`. */
  predicate OccursAt(s: string, t: string, i: int) {
    0 <= i && i + |t| <= |s| && s[i..i + |t|] == t
  }

  /** The trimmed text is a contiguous slice of the input, everything cut away is
      whitespace, and the slice neither starts nor ends with whitespace. */
  lemma TrimIsCoreSlice(s: string)
    ensures exists i :: OccursAt(s, Trim(s), i)
    ensures Trim(s) == [] || (!IsTrimmable(Trim(s)[0]) && !IsTrimmable(Trim(s)[|Trim(s)| - 1]))
    ensures Trim(s) == [] <==> forall k :: 0 <= k < |s| ==> IsTrimmable(s[k])
  {
    TrimOccurs(s);
    TrimEnds(s);
    TrimEmpty(s);
  }

  lemma TrimOccurs(s: string)
    ensures OccursAt(s, Trim(s), |s| - |TrimStart(s)|)
  {
    var a := TrimStart(s);
    SliceOfSuffix(s, |s| - |a|, |TrimEnd(a)|);
  }

  lemma SliceOfSuffix(s: string, i: nat, m: nat)
    requires i + m <= |s|
    ensures s[i..i + m] == s[i..][..m]
  {
  }

  lemma TrimEnds(s: string)
    ensures Trim(s) == [] || (!IsTrimmable(Trim(s)[0]) && !IsTrimmable(Trim(s)[|Trim(s)| - 1]))
  {
    var a := TrimStart(s);
    if Trim(s) != [] {
      assert Trim(s)[0] == a[0];
    }
  }

  lemma TrimEmpty(s: string)
    ensures Trim(s) == [] <==> forall k :: 0 <= k < |s| ==> IsTrimmable(s[k])
  {
    var a := TrimStart(s);
    if a != [] {
      assert !IsTrimmable(s[|s| - |a|]);
      assert TrimEnd(a) != [];
    }
  }

  /** Trimming twice is trimming once. */
  lemma TrimIdempotent(s: string)
    ensures Trim(Trim(s)) == Trim(s)
  {
    var t := Trim(s);
    assert TrimStart(t) == t;
    assert TrimEnd(t) == t;
  }

  /** `toLowerCase` on one character, for the ASCII capitals. */
  function LowerChar(c: char): (r: char)
  {
    if 'A' <= c <= 'Z' then (c as int - 'A' as int + 'a' as int) as char else c
  }

  /** `s.toLowerCase()`, restricted to ASCII capitals. */
  function Lower(s: string): (r: string)
    ensures |r| == |s|
    ensures forall i :: 0 <= i < |s| ==> r[i] == LowerChar(s[i])
  {
    if s == [] then [] else [LowerChar(s[0])] + Lower(s[1..])
  }

  /** Lower-casing leaves no ASCII capital behind and is therefore idempotent. */
  lemma LowerIdempotent(s: string)
    ensures forall i :: 0 <= i < |s| ==> !('A' <= Lower(s)[i] <= 'Z')
    ensures Lower(Lower(s)) == Lower(s)
  {
  }

  /** Lower-casing neither creates nor removes whitespace, so it commutes with trimming. */
  lemma {:induction false} LowerCommutesWithTrim(s: string)
    ensures Lower(Trim(s)) == Trim(Lower(s))
  {
    LowerTrimStart(s);
    LowerTrimEnd(TrimStart(s));
  }

  /** Lower-casing maps whitespace to itself and never produces whitespace. */
  lemma LowerCharKeepsTrimmable(c: char)
    ensures IsTrimmable(LowerChar(c)) == IsTrimmable(c)
  {
  }

  lemma {:induction false} LowerTrimStart(s: string)
    ensures Lower(TrimStart(s)) == TrimStart(Lower(s))
  {
    if s != [] {
      assert Lower(s)[0] == LowerChar(s[0]);
      LowerCharKeepsTrimmable(s[0]);
      if IsTrimmable(s[0]) {
        assert Lower(s)[1..] == Lower(s[1..]);
        LowerTrimStart(s[1..]);
      }
    }
  }

  lemma {:induction false} LowerTrimEnd(s: string)
    ensures Lower(TrimEnd(s)) == TrimEnd(Lower(s))
  {
    if s != [] {
      var n := |s| - 1;
      LowerCharKeepsTrimmable(s[n]);
      if IsTrimmable(s[n]) {
        LowerTrimEndStep(s);
        LowerTrimEnd(s[..n]);
      } else {
        LowerKeepsLast(s);
      }
    }
  }

  /** Trimming a trailing blank, before or after lower-casing, drops the same character. */
  lemma LowerTrimEndStep(s: string)
    requires s != [] && IsTrimmable(s[|s| - 1])
    ensures TrimEnd(s) == TrimEnd(s[..|s| - 1])
    ensures TrimEnd(Lower(s)) == TrimEnd(Lower(s[..|s| - 1]))
  {
    var n := |s| - 1;
    LowerLastTrimmable(s);
    LowerPrefix(s, n);
  }

  lemma LowerLastTrimmable(s: string)
    requires s != [] && IsTrimmable(s[|s| - 1])
    ensures TrimEnd(Lower(s)) == TrimEnd(Lower(s)[..|s| - 1])
  {
    LowerCharKeepsTrimmable(s[|s| - 1]);
  }

  /** Lower-casing a prefix is taking the prefix of the lower-cased string. */
  lemma LowerPrefix(s: string, n: nat)
    requires n <= |s|
    ensures Lower(s)[..n] == Lower(s[..n])
  {
  }

  /** A string that does not end in a blank keeps its end when lower-cased too. */
  lemma LowerKeepsLast(s: string)
    requires s != [] && !IsTrimmable(s[|s| - 1])
    ensures TrimEnd(s) == s && TrimEnd(Lower(s)) == Lower(s)
  {
    var n := |s| - 1;
    LowerCharKeepsTrimmable(s[n]);
    assert Lower(s)[n] == LowerChar(s[n]);
  }

  /** `s.startsWith(p)`. */
  predicate StartsWith(s: string, p: string) {
    |p| <= |s| && s[..|p|] == p
  }

  /** `hay.includes(needle)`: the needle occurs at some position of the haystack. */
  predicate Contains(hay: string, needle: string)
  {
    StartsWith(hay, needle) || (hay != [] && Contains(hay[1..], needle))
  }

  /** `Contains` holds exactly when the needle occurs at an explicit position. */
  lemma {:induction false} ContainsAt(hay: string, needle: string)
    ensures Contains(hay, needle) <==> exists i :: OccursAt(hay, needle, i)
  {
    if StartsWith(hay, needle) {
      assert OccursAt(hay, needle, 0);
    } else if hay == [] {
    } else {
      ContainsAt(hay[1..], needle);
      if exists i :: OccursAt(hay, needle, i) {
        var i :| OccursAt(hay, needle, i);
        assert i != 0;
        assert OccursAt(hay[1..], needle, i - 1);
      }
      if Contains(hay[1..], needle) {
        var j :| OccursAt(hay[1..], needle, j);
        assert OccursAt(hay, needle, j + 1);
      }
    }
  }

  /** The empty needle occurs in every haystack. */
  lemma ContainsEmpty(hay: string)
    ensures Contains(hay, "")
  {
    assert StartsWith(hay, "");
  }

  /** `parts.join(sep)`. */
  function Join(parts: seq<string>, sep: string): (r: string)
    ensures parts == [] ==> r == ""
  {
    if parts == [] then ""
    else if |parts| == 1 then parts[0]
    else parts[0] + sep + Join(parts[1..], sep)
  }

  /** Code-point lexicographic order on strings (`a <= b`). */
  predicate LexLeq(a: string, b: string)
  {
    a == [] || (b != [] && (a[0] < b[0] || (a[0] == b[0] && LexLeq(a[1..], b[1..]))))
  }

  /** `LexLeq` is a total order: any two strings compare, both ways only when equal,
      and the order is transitive. */
  lemma {:induction false} LexLeqTotal(a: string, b: string)
    ensures LexLeq(a, b) || LexLeq(b, a)
    ensures LexLeq(a, b) && LexLeq(b, a) ==> a == b
  {
    if a != [] && b != [] && a[0] == b[0] {
      LexLeqTotal(a[1..], b[1..]);
      if LexLeq(a, b) && LexLeq(b, a) {
        assert a == [a[0]] + a[1..] && b == [b[0]] + b[1..];
      }
    }
  }

  lemma {:induction false} LexLeqTransitive(a: string, b: string, c: string)
    requires LexLeq(a, b) && LexLeq(b, c)
    ensures LexLeq(a, c)
  {
    if a != [] && a[0] == b[0] && b[0] == c[0] {
      LexLeqTransitive(a[1..], b[1..], c[1..]);
    }
  }
}
