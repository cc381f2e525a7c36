/** Laws of sequences that the encodings and windows of this project rest on. */
module Sequences {

  /** Concatenations with heads of equal length are equal part by part. */
  lemma SplitEqual<T>(a: seq<T>, b: seq<T>, c: seq<T>, d: seq<T>)
    requires a + b == c + d && |a| == |c|
    ensures a == c && b == d
  {
    assert a == (a + b)[..|a|] && c == (c + d)[..|c|];
    assert b == (a + b)[|a|..] && d == (c + d)[|c|..];
  }

  /** A stretch is two pieces exactly when each piece stands in its place. */
  lemma Cut<T>(xs: seq<T>, at: nat, middle: nat, end: nat, a: seq<T>, b: seq<T>)
    requires at <= middle <= end <= |xs| && |a| == middle - at
    ensures xs[at..end] == a + b <==> xs[at..middle] == a && xs[middle..end] == b
  {
    assert xs[at..end] == xs[at..middle] + xs[middle..end];
    if xs[at..end] == a + b {
      SplitEqual(xs[at..middle], xs[middle..end], a, b);
    }
  }

  lemma Assoc<T>(a: seq<T>, b: seq<T>, c: seq<T>)
    ensures (a + b) + c == a + (b + c)
  {
  }

  lemma ConcatPrefix<T>(a: seq<T>, b: seq<T>, rest: seq<T>)
    requires a + b <= a + rest
    ensures b <= rest
  {
    forall i | 0 <= i < |b|
      ensures b[i] == rest[i]
    {
      assert (a + b)[|a| + i] == (a + rest)[|a| + i];
    }
  }

  lemma PrefixCut<T>(a: seq<T>, b: seq<T>, c: seq<T>)
    requires a <= b && b <= c
    ensures a <= c && c == a + c[|a|..] && c[..|a|] == a
  {
  }

  /** Equal prefixes, one element longer. */
  lemma PrefixMore<T>(xs: seq<T>, ys: seq<T>, k: nat)
    requires 0 < k <= |xs| && k <= |ys| && xs[..k - 1] == ys[..k - 1] && xs[k - 1] == ys[k - 1]
    ensures xs[..k] == ys[..k]
  {
    assert xs[..k] == xs[..k - 1] + [xs[k - 1]];
    assert ys[..k] == ys[..k - 1] + [ys[k - 1]];
  }

  /** `length` elements from `offset` on, element by element. */
  function Window<T>(xs: seq<T>, offset: nat, length: nat): (r: seq<T>)
    requires offset + length <= |xs|
    ensures |r| == length
  {
    seq(length, k requires 0 <= k < length => xs[offset + k])
  }

  /** A window of a window is a window. */
  lemma WindowOfWindow<T>(xs: seq<T>, offset: nat, length: nat, inner: nat, count: nat)
    requires offset + length <= |xs| && inner + count <= length
    ensures Window(Window(xs, offset, length), inner, count) == Window(xs, offset + inner, count)
  {
  }

  // ---- Strictly increasing sequences --------------------------------------

  predicate Increasing(xs: seq<nat>)
  {
    forall j, k :: 0 <= j < k < |xs| ==> xs[j] < xs[k]
  }

  lemma {:induction false} IncreasingAtLeast(xs: seq<nat>, k: nat)
    requires Increasing(xs) && k < |xs|
    ensures k <= xs[k]
  {
    if k > 0 {
      IncreasingAtLeast(xs, k - 1);
    }
  }

  lemma {:induction false} IncreasingAtMost(xs: seq<nat>, n: nat, k: nat)
    requires Increasing(xs) && k < |xs| && forall j :: 0 <= j < |xs| ==> xs[j] < n
    ensures xs[k] <= n - (|xs| - k)
    decreases |xs| - k
  {
    if k + 1 < |xs| {
      IncreasingAtMost(xs, n, k + 1);
    }
  }
}
