/** Sorting a sequence by a real-valued key (pandas' `sort_values` on one column). */
module Sorting {

  /** Keys never decrease along `xs`. */
  predicate SortedBy<T>(xs: seq<T>, key: T -> real)
  {
    forall i, j :: 0 <= i < j < |xs| ==> key(xs[i]) <= key(xs[j])
  }

  /** Inserts `x` in front of the first element whose key is not below its own. */
  function Insert<T>(x: T, xs: seq<T>, key: T -> real): (r: seq<T>)
    requires SortedBy(xs, key)
    ensures SortedBy(r, key)
    ensures multiset(r) == multiset(xs) + multiset{x}
    ensures |r| == |xs| + 1
    ensures r[0] == x || (xs != [] && r[0] == xs[0])
  {
    if xs == [] then [x]
    else if key(x) <= key(xs[0]) then [x] + xs
    else
      var rest := Insert(x, xs[1..], key);
      assert xs == [xs[0]] + xs[1..];
      SortedCons(xs[0], rest, key);
      [xs[0]] + rest
  }

  /** An element whose key is at most the first key of a sorted sequence can go in front. */
  lemma SortedCons<T>(y: T, rest: seq<T>, key: T -> real)
    requires SortedBy(rest, key)
    requires rest != [] ==> key(y) <= key(rest[0])
    ensures SortedBy([y] + rest, key)
  {
    forall i, j | 0 <= i < j < |rest| + 1
      ensures key(([y] + rest)[i]) <= key(([y] + rest)[j])
    {
      if i > 0 {
        assert ([y] + rest)[i] == rest[i - 1];
      } else {
        assert key(rest[0]) <= key(rest[j - 1]);
      }
    }
  }

  /** Insertion sort: ascending by `key`; elements with equal keys keep their input order. */
  function SortBy<T>(xs: seq<T>, key: T -> real): (r: seq<T>)
    ensures SortedBy(r, key)
    ensures multiset(r) == multiset(xs)
    ensures |r| == |xs|
  {
    if xs == [] then []
    else
      assert xs == [xs[0]] + xs[1..];
      Insert(xs[0], SortBy(xs[1..], key), key)
  }

  /** Every element of the sorted sequence comes from the input, and vice versa. */
  lemma SortByMembers<T>(xs: seq<T>, key: T -> real, y: T)
    ensures y in SortBy(xs, key) <==> y in xs
  {
    var r := SortBy(xs, key);
    assert y in r <==> y in multiset(r);
    assert y in xs <==> y in multiset(xs);
  }
}
