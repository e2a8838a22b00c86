/** Subsequences: one sequence obtained from another by deleting elements, keeping the order of the rest. */
module Subsequences {

  /** xs is obtained from ys by deleting elements. */
  ghost predicate IsSubsequence<T>(xs: seq<T>, ys: seq<T>)
    decreases |ys|
  {
    if xs == [] then true
    else if ys == [] then false
    else
      || (xs[|xs| - 1] == ys[|ys| - 1] && IsSubsequence(xs[..|xs| - 1], ys[..|ys| - 1]))
      || IsSubsequence(xs, ys[..|ys| - 1])
  }

  lemma SubsequenceExtend<T>(xs: seq<T>, ys: seq<T>, y: T)
    requires IsSubsequence(xs, ys)
    ensures IsSubsequence(xs, ys + [y])
  {
    if xs != [] {
      assert (ys + [y])[..|ys|] == ys;
    }
  }

  lemma {:induction false} SubsequenceRefl<T>(xs: seq<T>)
    ensures IsSubsequence(xs, xs)
    decreases |xs|
  {
    if xs != [] {
      SubsequenceRefl(xs[..|xs| - 1]);
    }
  }

  /** Appending to the longer sequence keeps a subsequence. */
  lemma {:induction false} SubsequenceAppend<T>(xs: seq<T>, ys: seq<T>, zs: seq<T>)
    requires IsSubsequence(xs, ys)
    ensures IsSubsequence(xs, ys + zs)
    decreases |zs|
  {
    if zs == [] {
      assert ys + zs == ys;
    } else {
      var n := |zs| - 1;
      SubsequenceAppend(xs, ys, zs[..n]);
      SubsequenceExtend(xs, ys + zs[..n], zs[n]);
      assert (ys + zs[..n]) + [zs[n]] == ys + zs;
    }
  }

  /** Subsequences of two sequences concatenate to a subsequence of their concatenation. */
  lemma {:induction false} SubsequenceConcat<T>(x1: seq<T>, y1: seq<T>, x2: seq<T>, y2: seq<T>)
    requires IsSubsequence(x1, y1) && IsSubsequence(x2, y2)
    ensures IsSubsequence(x1 + x2, y1 + y2)
    decreases |y2|
  {
    if x2 == [] {
      assert x1 + x2 == x1;
      SubsequenceAppend(x1, y1, y2);
    } else {
      var n := |y2| - 1;
      var ys := y1 + y2;
      assert ys[..|ys| - 1] == y1 + y2[..n];
      assert ys[|ys| - 1] == y2[n];
      if x2[|x2| - 1] == y2[n] && IsSubsequence(x2[..|x2| - 1], y2[..n]) {
        SubsequenceConcat(x1, y1, x2[..|x2| - 1], y2[..n]);
        var xs := x1 + x2;
        assert xs[..|xs| - 1] == x1 + x2[..|x2| - 1];
        assert xs[|xs| - 1] == x2[|x2| - 1];
      } else {
        SubsequenceConcat(x1, y1, x2, y2[..n]);
      }
    }
  }

  /** A sequence is a subsequence of any sequence that contains it as a contiguous block. */
  lemma Infix<T>(xs: seq<T>, before: seq<T>, after: seq<T>)
    ensures IsSubsequence(xs, before + xs + after)
  {
    SubsequenceRefl(xs);
    SubsequenceConcat([], before, xs, xs);
    assert [] + xs == xs;
    SubsequenceAppend(xs, before + xs, after);
  }
}
