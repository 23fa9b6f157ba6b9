/** Row selection as a dataframe `filter` performs it: keep the rows whose
    predicate holds, in their original order. */
module Seqs {

  function Filter<T(!new)>(xs: seq<T>, p: T -> bool): (r: seq<T>)
    ensures |r| <= |xs|
    ensures forall i :: 0 <= i < |r| ==> p(r[i]) && r[i] in xs
  {
    if xs == [] then [] else (if p(xs[0]) then [xs[0]] else []) + Filter(xs[1..], p)
  }

  /** Every row whose predicate holds is kept as often as it occurs, and no
      other row is kept. */
  lemma {:induction false} FilterCounts<T(!new)>(xs: seq<T>, p: T -> bool)
    ensures multiset(Filter(xs, p)) == multiset(xs) - multiset(Filter(xs, x => !p(x)))
    ensures forall x :: x in multiset(xs) && p(x) ==> multiset(Filter(xs, p))[x] == multiset(xs)[x]
    ensures forall x :: !p(x) ==> x !in Filter(xs, p)
  {
    FilterPartition(xs, p, x => !p(x));
  }

  /** `a` is obtained from `b` by deleting elements, keeping the order of the rest. */
  predicate IsSubsequence<T(==)>(a: seq<T>, b: seq<T>)
    decreases |b|
  {
    a == [] || (b != [] && ((a[0] == b[0] && IsSubsequence(a[1..], b[1..])) || IsSubsequence(a, b[1..])))
  }

  /** The kept rows are an order-preserving subsequence of the input. Together
      with the multiplicities in `Filter`'s contract this determines the result:
      every row whose predicate holds, and no other, in input order. */
  lemma {:induction false} FilterIsSubsequence<T(!new)>(xs: seq<T>, p: T -> bool)
    ensures IsSubsequence(Filter(xs, p), xs)
  {
    if xs != [] {
      FilterIsSubsequence(xs[1..], p);
      var r := Filter(xs, p);
      if p(xs[0]) {
        assert r[1..] == Filter(xs[1..], p);
      } else {
        assert r == Filter(xs[1..], p);
        if r != [] {
          assert IsSubsequence(r, xs[1..]);
        }
      }
    }
  }

  /** Filtering a second time with the same predicate removes nothing more. */
  lemma {:induction false} FilterIdempotent<T(!new)>(xs: seq<T>, p: T -> bool)
    ensures Filter(Filter(xs, p), p) == Filter(xs, p)
  {
    if xs != [] {
      FilterIdempotent(xs[1..], p);
      if p(xs[0]) {
        var r := Filter(xs, p);
        assert r[0] == xs[0] && r[1..] == Filter(xs[1..], p);
        assert Filter(r, p) == [r[0]] + Filter(r[1..], p);
      } else {
        assert Filter(xs, p) == Filter(xs[1..], p);
      }
    }
  }

  /** A predicate and its negation split the rows in two: every row lands in
      exactly one of the two results. */
  lemma {:induction false} FilterPartition<T(!new)>(xs: seq<T>, p: T -> bool, q: T -> bool)
    requires forall x :: q(x) == !p(x)
    ensures |Filter(xs, p)| + |Filter(xs, q)| == |xs|
    ensures multiset(Filter(xs, p)) + multiset(Filter(xs, q)) == multiset(xs)
  {
    if xs != [] {
      FilterPartition(xs[1..], p, q);
      assert xs == [xs[0]] + xs[1..];
    }
  }
}
