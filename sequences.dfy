/** Order-preserving selection on sequences, shared by the catalog and the resolver. */
module Sequences {

  /** `xs` can be obtained from `ys` by deleting elements, keeping the order of the rest.
      Defined on the last element, like every list built by appending in this model. */
  ghost predicate IsSubsequence<T>(xs: seq<T>, ys: seq<T>)
    decreases |ys|
  {
    || xs == []
    || (&& ys != []
        && (|| (xs[|xs| - 1] == ys[|ys| - 1] && IsSubsequence(xs[..|xs| - 1], ys[..|ys| - 1]))
            || IsSubsequence(xs, ys[..|ys| - 1])))
  }

  /** A subsequence is never longer than the sequence it is taken from. */
  lemma {:induction false} SubsequenceLength<T>(xs: seq<T>, ys: seq<T>)
    requires IsSubsequence(xs, ys)
    ensures |xs| <= |ys|
    decreases |ys|
  {
    if xs != [] {
      if xs[|xs| - 1] == ys[|ys| - 1] && IsSubsequence(xs[..|xs| - 1], ys[..|ys| - 1]) {
        SubsequenceLength(xs[..|xs| - 1], ys[..|ys| - 1]);
      } else {
        SubsequenceLength(xs, ys[..|ys| - 1]);
      }
    }
  }

  /** Every element of a subsequence is an element of the sequence it is taken from. */
  lemma {:induction false} SubsequenceMembers<T>(xs: seq<T>, ys: seq<T>, x: T)
    requires IsSubsequence(xs, ys) && x in xs
    ensures x in ys
    decreases |ys|
  {
    var last := ys[|ys| - 1];
    assert ys == ys[..|ys| - 1] + [last];
    if xs[|xs| - 1] == last && IsSubsequence(xs[..|xs| - 1], ys[..|ys| - 1]) {
      assert xs == xs[..|xs| - 1] + [last];
      if x != last {
        SubsequenceMembers(xs[..|xs| - 1], ys[..|ys| - 1], x);
      }
    } else {
      SubsequenceMembers(xs, ys[..|ys| - 1], x);
    }
  }

  /** Appending one element to the source keeps a subsequence a subsequence. */
  lemma SubsequenceSkip<T>(xs: seq<T>, ys: seq<T>, y: T)
    requires IsSubsequence(xs, ys)
    ensures IsSubsequence(xs, ys + [y])
  {
  }

  /** Appending the same element to both sides keeps a subsequence a subsequence. */
  lemma SubsequenceKeep<T>(xs: seq<T>, ys: seq<T>, y: T)
    requires IsSubsequence(xs, ys)
    ensures IsSubsequence(xs + [y], ys + [y])
  {
  }
}
