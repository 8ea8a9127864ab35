/** Shared wrappers and the Python/pandas slicing rule used by several modules. */
module Common {

  /** A value that may be missing: pandas' NaN / absent key. */
  datatype Option<T> = None | Some(value: T)

  /** An outcome that is either a value or the exception the source would raise. */
  datatype Result<T, E> = Ok(value: T) | Err(error: E)

  /** Number of items Python's `xs[:k]` (and pandas' `head(k)`) keeps from `n` items:
      a non-negative `k` keeps at most `k`, a negative `k` drops the last `-k`. */
  function PrefixLength(n: nat, k: int): (m: nat)
    ensures m <= n
    ensures 0 <= k ==> m == (if k <= n then k else n)
    ensures k < 0 ==> m + (if -k <= n then -k else n) == n
  {
    if 0 <= k then (if k <= n then k else n)
    else if n + k >= 0 then n + k else 0
  }

  /** Python's `xs[:k]` / pandas' `head(k)`. */
  function Take<T>(xs: seq<T>, k: int): (r: seq<T>)
    ensures |r| == PrefixLength(|xs|, k)
    ensures r <= xs
  {
    xs[..PrefixLength(|xs|, k)]
  }

  /** Applies `f` to every element, keeping the order. */
  function MapSeq<T, U>(f: T -> U, xs: seq<T>): (r: seq<U>)
    ensures |r| == |xs|
    ensures forall i :: 0 <= i < |xs| ==> r[i] == f(xs[i])
  {
    seq(|xs|, i requires 0 <= i < |xs| => f(xs[i]))
  }

  lemma MapSeqAppend<T, U>(f: T -> U, xs: seq<T>, ys: seq<T>)
    ensures MapSeq(f, xs + ys) == MapSeq(f, xs) + MapSeq(f, ys)
  {
  }

  /** Mapping `a + [x] + b` gives the elements of the mapped `a + b` and `f(x)`. */
  lemma MapSeqSplit<T, U>(f: T -> U, a: seq<T>, x: T, b: seq<T>)
    ensures multiset(MapSeq(f, a + [x] + b)) == multiset(MapSeq(f, a + b)) + multiset{f(x)}
  {
    MapSeqAppend(f, a + [x], b);
    MapSeqAppend(f, a, [x]);
    MapSeqAppend(f, a, b);
  }

  /** Taking the first element out of `xs` and a copy of it out of `ys` keeps the two
      permutations of each other. */
  lemma RemoveMatching<T>(xs: seq<T>, ys: seq<T>, k: nat)
    requires multiset(xs) == multiset(ys)
    requires xs != [] && k < |ys| && ys[k] == xs[0]
    ensures ys == ys[..k] + [xs[0]] + ys[k + 1..]
    ensures xs == [] + [xs[0]] + xs[1..]
    ensures multiset(ys[..k] + ys[k + 1..]) == multiset(xs[1..])
  {
    var x, a, b := xs[0], ys[..k], ys[k + 1..];
    assert ys == a + [x] + b;
    assert xs == [] + [x] + xs[1..];
    assert multiset(ys) == multiset(a) + multiset{x} + multiset(b);
    assert multiset(xs) == multiset{x} + multiset(xs[1..]);
    forall y ensures multiset(a + b)[y] == multiset(xs[1..])[y] {
      assert multiset(ys)[y] == multiset(xs)[y];
    }
  }

  /** Mapping two sequences with the same elements (a permutation) gives sequences with
      the same elements. */
  lemma {:induction false} MapSeqMultiset<T, U>(f: T -> U, xs: seq<T>, ys: seq<T>)
    requires multiset(xs) == multiset(ys)
    ensures multiset(MapSeq(f, xs)) == multiset(MapSeq(f, ys))
  {
    if xs == [] {
      assert |ys| == |multiset(ys)| == 0;
    } else {
      var x := xs[0];
      assert x in multiset(ys);
      var k :| 0 <= k < |ys| && ys[k] == x;
      var a, b := ys[..k], ys[k + 1..];
      RemoveMatching(xs, ys, k);
      MapSeqMultiset(f, xs[1..], a + b);
      MapSeqSplit(f, a, x, b);
      MapSeqSplit(f, [], x, xs[1..]);
      assert [] + xs[1..] == xs[1..];
      assert multiset(MapSeq(f, xs)) == multiset(MapSeq(f, xs[1..])) + multiset{f(x)};
      assert multiset(MapSeq(f, ys)) == multiset(MapSeq(f, a + b)) + multiset{f(x)};
    }
  }

  /** Sum of a sequence of reals. */
  function Sum(xs: seq<real>): real
  {
    if xs == [] then 0.0 else xs[0] + Sum(xs[1..])
  }

  /** `Sum` splits over concatenation. */
  lemma {:induction false} SumAppend(xs: seq<real>, ys: seq<real>)
    ensures Sum(xs + ys) == Sum(xs) + Sum(ys)
  {
    if xs == [] {
      assert xs + ys == ys;
    } else {
      assert (xs + ys)[1..] == xs[1..] + ys;
      SumAppend(xs[1..], ys);
    }
  }

  /** A sum of values in [lo, hi] lies between |xs| * lo and |xs| * hi. */
  lemma {:induction false} SumBounds(xs: seq<real>, lo: real, hi: real)
    requires forall i :: 0 <= i < |xs| ==> lo <= xs[i] <= hi
    ensures |xs| as real * lo <= Sum(xs) <= |xs| as real * hi
  {
    if xs != [] {
      SumBounds(xs[1..], lo, hi);
    }
  }

  /** `xs` is obtained from `ys` by deleting elements, keeping the order of the rest. */
  predicate IsSubsequence<T(==)>(xs: seq<T>, ys: seq<T>)
  {
    if xs == [] then true
    else if ys == [] then false
    else if xs[0] == ys[0] then IsSubsequence(xs[1..], ys[1..])
    else IsSubsequence(xs, ys[1..])
  }

  /** No two elements share a key. */
  predicate UniqueKeys<T>(xs: seq<T>, key: T -> int)
  {
    forall i, j :: 0 <= i < j < |xs| ==> key(xs[i]) != key(xs[j])
  }

  /** The elements of `xs` that satisfy `keep`, in their order (pandas' boolean-mask
      selection `df[mask]`). */
  function Filter<T>(xs: seq<T>, keep: T -> bool): (r: seq<T>)
    ensures forall i :: 0 <= i < |r| ==> r[i] in xs && keep(r[i])
    ensures forall i :: 0 <= i < |xs| && keep(xs[i]) ==> xs[i] in r
    ensures |r| <= |xs|
  {
    if xs == [] then []
    else
      var rest := Filter(xs[1..], keep);
      assert forall i :: 0 < i < |xs| ==> xs[i] == xs[1..][i - 1];
      if keep(xs[0]) then [xs[0]] + rest else rest
  }

  /** Filtering keeps the order of the kept elements. */
  lemma {:induction false} FilterIsSubsequence<T>(xs: seq<T>, keep: T -> bool)
    ensures IsSubsequence(Filter(xs, keep), xs)
  {
    if xs != [] {
      FilterIsSubsequence(xs[1..], keep);
      var rest := Filter(xs[1..], keep);
      if keep(xs[0]) {
        assert ([xs[0]] + rest)[1..] == rest;
      } else {
        SubsequenceOfTail(rest, xs);
      }
    }
  }

  /** A subsequence of the tail is a subsequence of the whole. */
  lemma {:induction false} SubsequenceOfTail<T>(xs: seq<T>, ys: seq<T>)
    requires ys != [] && IsSubsequence(xs, ys[1..])
    ensures IsSubsequence(xs, ys)
    decreases |ys|, 0
  {
    if xs != [] && xs[0] == ys[0] {
      SubsequenceDropHead(xs, ys[1..]);
    }
  }

  /** Dropping the first element of a subsequence keeps it a subsequence. */
  lemma {:induction false} SubsequenceDropHead<T>(xs: seq<T>, ys: seq<T>)
    requires xs != [] && IsSubsequence(xs, ys)
    ensures IsSubsequence(xs[1..], ys)
    decreases |ys|, 1
  {
    assert ys != [];
    if xs[0] == ys[0] {
      SubsequenceOfTail(xs[1..], ys);
    } else {
      SubsequenceDropHead(xs, ys[1..]);
      SubsequenceOfTail(xs[1..], ys);
    }
  }

  /** Filtering a sequence whose keys are pairwise distinct keeps them pairwise distinct. */
  lemma {:induction false} FilterUniqueKeys<T>(xs: seq<T>, keep: T -> bool, key: T -> int)
    requires UniqueKeys(xs, key)
    ensures UniqueKeys(Filter(xs, keep), key)
  {
    if xs != [] {
      assert UniqueKeys(xs[1..], key) by {
        forall i, j | 0 <= i < j < |xs[1..]| ensures key(xs[1..][i]) != key(xs[1..][j]) {
          assert xs[1..][i] == xs[i + 1] && xs[1..][j] == xs[j + 1];
        }
      }
      FilterUniqueKeys(xs[1..], keep, key);
      var rest := Filter(xs[1..], keep);
      if keep(xs[0]) {
        forall k | 0 <= k < |rest| ensures key(xs[0]) != key(rest[k]) {
          assert rest[k] in xs[1..];
          var j :| 0 <= j < |xs[1..]| && xs[1..][j] == rest[k];
          assert xs[j + 1] == rest[k];
        }
      }
    }
  }

  /** Two masks that agree on every element select the same rows. */
  lemma {:induction false} FilterSameMask<T>(xs: seq<T>, f: T -> bool, g: T -> bool)
    requires forall i :: 0 <= i < |xs| ==> f(xs[i]) == g(xs[i])
    ensures Filter(xs, f) == Filter(xs, g)
  {
    if xs != [] {
      assert forall i :: 0 <= i < |xs[1..]| ==> xs[1..][i] == xs[i + 1];
      FilterSameMask(xs[1..], f, g);
    }
  }
}
