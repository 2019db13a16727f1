/** Sorting by a comparison that is a total preorder (ties allowed), as
    `Array.prototype.sort` does with a comparator. */
module Sorting {

  ghost predicate TotalPreorder<T(!new)>(le: (T, T) -> bool) {
    && (forall a, b :: le(a, b) || le(b, a))
    && (forall a, b, c :: le(a, b) && le(b, c) ==> le(a, c))
  }

  ghost predicate Sorted<T>(s: seq<T>, le: (T, T) -> bool) {
    forall i, j :: 0 <= i < j < |s| ==> le(s[i], s[j])
  }

  /** Puts `x` in front of the first element it is not greater than. */
  function Insert<T(!new)>(x: T, s: seq<T>, le: (T, T) -> bool): (r: seq<T>)
    requires TotalPreorder(le)
    requires Sorted(s, le)
    ensures multiset(r) == multiset(s) + multiset{x}
    ensures Sorted(r, le)
  {
    if |s| == 0 then [x]
    else if le(x, s[0]) then
      forall y | y in s ensures le(x, y) {
        var j :| 0 <= j < |s| && s[j] == y;
        if j > 0 { assert le(s[0], s[j]); }
      }
      ConsSorted(x, s, le);
      [x] + s
    else
      var rest := Insert(x, s[1..], le);
      assert s == [s[0]] + s[1..];
      forall y | y in rest ensures le(s[0], y) {
        assert y in multiset(rest);
      }
      ConsSorted(s[0], rest, le);
      [s[0]] + rest
  }

  /** A sorted list stays sorted behind an element no greater than any of
      its members. */
  lemma ConsSorted<T>(x: T, s: seq<T>, le: (T, T) -> bool)
    requires Sorted(s, le)
    requires forall y :: y in s ==> le(x, y)
    ensures Sorted([x] + s, le)
  {
    forall i, j | 0 <= i < j < |[x] + s| ensures le(([x] + s)[i], ([x] + s)[j]) {
      assert ([x] + s)[j] == s[j - 1];
      if i > 0 { assert ([x] + s)[i] == s[i - 1]; }
    }
  }

  /** Insertion sort: an ordered permutation of `s`. */
  function Sort<T(!new)>(s: seq<T>, le: (T, T) -> bool): (r: seq<T>)
    requires TotalPreorder(le)
    ensures multiset(r) == multiset(s)
    ensures Sorted(r, le)
  {
    if |s| == 0 then []
    else
      assert s == [s[0]] + s[1..];
      Insert(s[0], Sort(s[1..], le), le)
  }

  /** `b` comes after `a` somewhere in `s`. */
  ghost predicate Precedes<T>(s: seq<T>, a: T, b: T) {
    exists i, j :: 0 <= i < j < |s| && s[i] == a && s[j] == b
  }
}
