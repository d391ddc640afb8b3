/** Sequence helpers shared by the classifier: order-preserving filtering and
    the subsequence relation that states "same elements, same order". */
module Seqs {

  function Last<T>(s: seq<T>): T
    requires |s| > 0
  {
    s[|s| - 1]
  }

  function DropLast<T>(s: seq<T>): seq<T>
    requires |s| > 0
  {
    s[..|s| - 1]
  }

  /** The elements of `s` that satisfy `keep`, in the order of `s`.
      Defined from the back, the way a loop that appends builds it. */
  function Filter<T(!new)>(s: seq<T>, keep: T -> bool): (r: seq<T>)
    ensures |r| <= |s|
    ensures forall x :: x in r <==> x in s && keep(x)
  {
    if s == [] then []
    else
      var r0 := Filter(DropLast(s), keep);
      assert s == DropLast(s) + [Last(s)];
      if keep(Last(s)) then r0 + [Last(s)] else r0
  }

  /** `xs` can be obtained from `ys` by deleting elements, without reordering. */
  predicate Subsequence<T(==)>(xs: seq<T>, ys: seq<T>)
    decreases |ys|
  {
    if ys == [] then xs == []
    else
      Subsequence(xs, DropLast(ys))
      || (xs != [] && Last(xs) == Last(ys) && Subsequence(DropLast(xs), DropLast(ys)))
  }

  /** Filtering keeps the relative order of the input. */
  lemma {:induction false} FilterIsSubsequence<T(!new)>(s: seq<T>, keep: T -> bool)
    ensures Subsequence(Filter(s, keep), s)
  {
    if s != [] {
      FilterIsSubsequence(DropLast(s), keep);
      var r := Filter(s, keep);
      if keep(Last(s)) {
        assert DropLast(r) == Filter(DropLast(s), keep);
      }
    }
  }
}
