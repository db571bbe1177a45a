/** Regrouping of sequences, stated once so that larger proofs need not search for it. */
module Sequences {
  lemma Assoc<T>(a: seq<T>, b: seq<T>, c: seq<T>)
    ensures a + b + c == a + (b + c)
  {
  }

  lemma Append<T>(xs: seq<T>, x: T, ys: seq<T>)
    ensures (xs + [x]) + ys == xs + ([x] + ys)
  {
  }

  lemma LeftUnit<T>(xs: seq<T>)
    ensures [] + xs == xs
  {
  }

  lemma RightUnit<T>(xs: seq<T>)
    ensures xs + [] == xs
  {
  }

  lemma HeadTail<T>(xs: seq<T>)
    requires xs != []
    ensures [xs[0]] + xs[1..] == xs
  {
  }

  lemma TailOfConcat<T>(a: seq<T>, b: seq<T>)
    requires a != []
    ensures (a + b)[0] == a[0] && (a + b)[1..] == a[1..] + b
  {
  }

  lemma HeadTailAt<T>(xs: seq<T>, k: nat)
    requires k <= |xs|
    ensures xs[..k] + xs[k..] == xs
  {
  }

  /** Splitting after the first element and `k` more. */
  lemma Shift<T>(xs: seq<T>, k: nat)
    requires k < |xs|
    ensures [xs[0]] + xs[1..][..k] == xs[..k + 1]
    ensures xs[1..][..k] == xs[1..k + 1]
    ensures xs[1..][k..] == xs[k + 1..]
    ensures k + 1 < |xs| ==> xs[k + 1..][1..] == xs[k + 2..]
  {
  }

  lemma ShiftBy<T>(xs: seq<T>, k: nat)
    requires k <= |xs|
    ensures k < |xs| ==> xs[k..][1..] == xs[k + 1..] && xs[k..][0] == xs[k] && xs[..k + 1] == xs[..k] + [xs[k]]
  {
  }

  /** A slice is a prefix of a suffix and a suffix of a prefix. */
  lemma Slice<T>(xs: seq<T>, from: nat, to: nat)
    requires from <= to <= |xs|
    ensures xs[from..][..to - from] == xs[from..to]
    ensures xs[..to][from..] == xs[from..to]
  {
  }

  /** Between the first and the last of `n` elements. */
  lemma Inner<T>(xs: seq<T>, n: nat)
    requires 2 <= n <= |xs|
    ensures xs[..n][1..n - 1] == xs[1..][..n - 1][..n - 2]
    ensures xs[1..] == xs[..n][1..n - 1] + xs[n - 1..]
    ensures xs[..n][n - 1] == xs[1..][..n - 1][n - 2]
  {
  }

  lemma ConsSlice<T>(c: T, u: seq<T>, m: nat)
    requires m < |u|
    ensures ([c] + u)[..m + 1][1..] == u[..m] && ([c] + u)[m + 2..] == u[m + 1..]
  {
  }

  /** Slices on both sides of position `m` of `u`, in the same text with `c` in front. */
  lemma ConsSlices<T>(c: T, u: seq<T>, m: nat, k: nat)
    requires m + 1 + k < |u|
    ensures ([c] + u)[..m + 2 + k][1..m + 1] == u[..m]
    ensures ([c] + u)[..m + 2 + k][m + 2..] == u[m + 1..][..k]
    ensures ([c] + u)[m + 2 + k + 1..] == u[m + 1..][k + 1..]
  {
  }

  predicate Distinct<T(==)>(xs: seq<T>) {
    forall i, j | 0 <= i < j < |xs| :: xs[i] != xs[j]
  }

  /** `xs` without its element at `k`. */
  function Without<T>(xs: seq<T>, k: nat): (r: seq<T>)
    requires k < |xs|
    ensures |r| == |xs| - 1
  {
    xs[..k] + xs[k + 1..]
  }

  lemma WithoutFront<T>(xs: seq<T>, k: nat)
    requires k < |xs|
    ensures k == |xs| - 1 ==> Without(xs, k) == xs[..k]
    ensures k < |xs| - 1 ==>
              Without(xs, k)[..|xs| - 2] == Without(xs[..|xs| - 1], k) && Without(xs, k)[|xs| - 2] == xs[|xs| - 1]
  {
  }

  lemma WithoutMultiset<T>(xs: seq<T>, k: nat)
    requires k < |xs|
    ensures multiset(Without(xs, k)) + multiset{xs[k]} == multiset(xs)
    ensures forall x | x in Without(xs, k) :: x in xs
  {
    assert xs == xs[..k] + [xs[k]] + xs[k + 1..];
  }

  /** In a permutation of `xs`, the place of the last element of `xs`. */
  lemma PlaceOfLast<T>(xs: seq<T>, ys: seq<T>) returns (k: nat)
    requires xs != [] && multiset(xs) == multiset(ys)
    ensures k < |ys| && ys[k] == xs[|xs| - 1]
    ensures multiset(Without(xs, |xs| - 1)) == multiset(Without(ys, k))
  {
    var x := xs[|xs| - 1];
    assert x in multiset(ys);
    k :| 0 <= k < |ys| && ys[k] == x;
    WithoutMultiset(xs, |xs| - 1);
    WithoutMultiset(ys, k);
    assert multiset(Without(xs, |xs| - 1)) == multiset(xs) - multiset{x};
    assert multiset(Without(ys, k)) == multiset(ys) - multiset{x};
  }
}
