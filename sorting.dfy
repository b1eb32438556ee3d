/** Ordering a listing by a comparison, as the database does for `orderBy`: a
    reference insertion sort whose result is proved sorted and a permutation of its
    input. */
module Sorting {

  /** `leq` compares any two elements, one way or the other. */
  ghost predicate Total<T(!new)>(leq: (T, T) -> bool) {
    forall a, b :: leq(a, b) || leq(b, a)
  }

  /** Every element is `leq` its successor. */
  predicate Sorted<T>(s: seq<T>, leq: (T, T) -> bool) {
    forall i :: 0 < i < |s| ==> leq(s[i - 1], s[i])
  }

  /** Puts `x` in front of the first element it is `leq`. */
  function Insert<T>(x: T, s: seq<T>, leq: (T, T) -> bool): (r: seq<T>)
    ensures multiset(r) == multiset(s) + multiset{x}
    ensures |r| == |s| + 1
  {
    if s == [] || leq(x, s[0]) then [x] + s
    else
      assert s == [s[0]] + s[1..];
      [s[0]] + Insert(x, s[1..], leq)
  }

  /** The elements of `s` in `leq` order; equal elements keep their input order. */
  function SortBy<T>(s: seq<T>, leq: (T, T) -> bool): (r: seq<T>)
    ensures multiset(r) == multiset(s)
    ensures |r| == |s|
  {
    if s == [] then []
    else
      assert s == [s[0]] + s[1..];
      Insert(s[0], SortBy(s[1..], leq), leq)
  }

  lemma {:induction false} InsertSorted<T(!new)>(x: T, s: seq<T>, leq: (T, T) -> bool)
    requires Total(leq) && Sorted(s, leq)
    ensures Sorted(Insert(x, s, leq), leq)
    ensures s != [] ==> Insert(x, s, leq)[0] == x || Insert(x, s, leq)[0] == s[0]
  {
    if s != [] && !leq(x, s[0]) {
      assert leq(s[0], x);
      var t := s[1..];
      assert Sorted(t, leq);
      InsertSorted(x, t, leq);
      var r := Insert(x, t, leq);
      if t != [] {
        assert leq(s[0], t[0]);
      }
      assert [s[0]] + r == Insert(x, s, leq);
    }
  }

  /** The result of `SortBy` is sorted when the comparison is total. */
  lemma {:induction false} SortBySorted<T(!new)>(s: seq<T>, leq: (T, T) -> bool)
    requires Total(leq)
    ensures Sorted(SortBy(s, leq), leq)
  {
    if s != [] {
      SortBySorted(s[1..], leq);
      InsertSorted(s[0], SortBy(s[1..], leq), leq);
    }
  }
}
