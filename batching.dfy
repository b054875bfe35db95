/**
 * The partition-and-reassemble arithmetic of `FingerprintTransformer.transform`:
 * the batch size, the slices `X[i : i + batch_size]` for `i` in
 * `range(0, len(X), batch_size)`, and the concatenation of the per-slice
 * results in submission order.
 */
module Batching {
  import opened Seqs

  /** `max(len(X) // n_jobs, 1)`. */
  function BatchSize(len: nat, nJobs: nat): (b: nat)
    requires nJobs >= 1
    ensures b >= 1
    ensures len >= nJobs ==> b * nJobs <= len < (b + 1) * nJobs
    ensures len < nJobs ==> b == 1
  {
    var q := len / nJobs;
    if q >= 1 then q else 1
  }

  /** The number of elements of `range(0, len, b)`, that is ceil(len / b). */
  function NumSlices(len: nat, b: nat): (count: nat)
    requires b >= 1
    ensures len <= count * b
    ensures len > 0 ==> (count - 1) * b < len
    ensures len == 0 <==> count == 0
  {
    var q, rem := (len + b - 1) / b, (len + b - 1) % b;
    assert len + b - 1 == q * b + rem;
    q
  }

  lemma MulMonotone(x: nat, y: nat, b: nat)
    requires x <= y
    ensures x * b <= y * b
  {
  }

  /** Index `k` is among the slices exactly when its start `k * b` lies inside `X`. */
  lemma SliceIndexBound(len: nat, b: nat, k: nat)
    requires b >= 1
    ensures k < NumSlices(len, b) <==> k * b < len
  {
    var count := NumSlices(len, b);
    if k < count {
      MulMonotone(k, count - 1, b);
    } else {
      MulMonotone(count, k, b);
    }
  }

  /**
   * With at least `n_jobs` elements the batch size `max(len // n_jobs, 1)` cuts
   * `X` into at least `n_jobs` and fewer than `2 * n_jobs` batches; with
   * fewer elements every batch holds one element.
   */
  lemma BatchCount(len: nat, nJobs: nat)
    requires nJobs >= 1
    ensures var count := NumSlices(len, BatchSize(len, nJobs));
      && (len >= nJobs ==> nJobs <= count < 2 * nJobs)
      && (len < nJobs ==> count == len)
  {
    var b := BatchSize(len, nJobs);
    var count := NumSlices(len, b);
    if len >= nJobs {
      AtLeastJobs(len, nJobs, b, count);
      FewerThanTwiceJobs(len, nJobs, b, count);
    }
  }

  lemma AtLeastJobs(len: nat, n: nat, b: nat, count: nat)
    requires b >= 1 && n >= 1 && b * n <= len <= count * b
    ensures n <= count
  {
    if count < n {
      MulMonotone(count, n - 1, b);
    }
  }

  lemma FewerThanTwiceJobs(len: nat, n: nat, b: nat, count: nat)
    requires b >= 1 && n >= 1 && count >= 1 && len < (b + 1) * n && (count - 1) * b < len
    ensures count < 2 * n
  {
    if count >= 2 * n {
      MulMonotone(2 * n - 1, count - 1, b);
      assert (2 * n - 1) * b == n * b + (n - 1) * b;
      assert (b + 1) * n == n * b + n;
      MulMonotone(1, b, n - 1);
    }
  }

  /** `xs[lo : hi]` with `lo <= len(xs)`: Python clamps the end to the length. */
  function PySlice<T>(xs: seq<T>, lo: nat, hi: nat): (s: seq<T>)
    requires lo <= |xs|
    ensures |s| == if hi <= lo then 0 else if hi < |xs| then hi - lo else |xs| - lo
    ensures s == xs[lo .. lo + |s|]
  {
    if hi <= lo then [] else if hi < |xs| then xs[lo..hi] else xs[lo..]
  }

  /** `X[i : i + b] for i in range(0, len(X), b)`. */
  function Slices<T>(xs: seq<T>, b: nat): (ss: seq<seq<T>>)
    requires b >= 1
    ensures |ss| == NumSlices(|xs|, b)
    ensures ss == [] <==> xs == []
  {
    var count := NumSlices(|xs|, b);
    seq(count, k requires 0 <= k < count =>
      SliceIndexBound(|xs|, b, k);
      PySlice(xs, k * b, k * b + b))
  }

  /**
   * Slice `k` starts at `k * b`: it is non-empty, at most `b` long, exactly
   * `b` long unless it is the last, and holds the elements from `k * b` on.
   */
  lemma SliceShape<T>(xs: seq<T>, b: nat, k: nat)
    requires b >= 1 && k < NumSlices(|xs|, b)
    ensures var s := Slices(xs, b)[k];
      && k * b < |xs|
      && 1 <= |s| <= b
      && (k < NumSlices(|xs|, b) - 1 ==> |s| == b)
      && s == xs[k * b .. k * b + |s|]
  {
    var count := NumSlices(|xs|, b);
    SliceIndexBound(|xs|, b, k);
    if k < count - 1 {
      SliceIndexBound(|xs|, b, k + 1);
      assert (k + 1) * b == k * b + b;
    }
  }

  lemma PrefixExtend<T>(xs: seq<T>, lo: nat, end: nat)
    requires lo <= end <= |xs|
    ensures xs[..lo] + xs[lo..end] == xs[..end]
  {
  }

  /** Where slice `k` ends: at `(k + 1) * b`, or at the end of `xs` for the last one. */
  function SliceEnd(len: nat, b: nat, k: nat): nat {
    if (k + 1) * b < len then (k + 1) * b else len
  }

  lemma SliceBounds<T>(xs: seq<T>, b: nat, k: nat)
    requires b >= 1 && k < NumSlices(|xs|, b)
    ensures k * b < SliceEnd(|xs|, b, k) <= |xs|
    ensures Slices(xs, b)[k] == xs[k * b .. SliceEnd(|xs|, b, k)]
  {
    SliceShape(xs, b, k);
    assert k * b + b == (k + 1) * b;
  }

  /** `X[i : i + b]` with `i == k * b` inside `X` is slice `k`, and the next start is `(k + 1) * b`. */
  lemma NextSlice<T>(xs: seq<T>, b: nat, k: nat, i: nat)
    requires b >= 1 && i == k * b && i < |xs|
    ensures k < |Slices(xs, b)| && i + b == (k + 1) * b
    ensures Slices(xs, b)[k] == xs[i .. if i + b < |xs| then i + b else |xs|]
  {
    SliceIndexBound(|xs|, b, k);
    SliceBounds(xs, b, k);
  }

  /** A start `k * b` past the end of `X` means all slices have been taken. */
  lemma NoMoreSlices(len: nat, b: nat, k: nat)
    requires b >= 1 && k * b >= len && k <= NumSlices(len, b)
    ensures k == NumSlices(len, b)
  {
    SliceIndexBound(len, b, k);
  }

  /** The first `k` slices, concatenated, are the elements before the end of slice `k - 1`. */
  lemma {:induction false} SlicesPrefix<T>(xs: seq<T>, b: nat, k: nat)
    requires b >= 1 && 0 < k <= NumSlices(|xs|, b)
    ensures Flatten(Slices(xs, b)[..k]) == xs[..SliceEnd(|xs|, b, k - 1)]
  {
    var ss := Slices(xs, b);
    SliceBounds(xs, b, k - 1);
    assert Flatten(ss[..k]) == Flatten(ss[..k][..k - 1]) + ss[k - 1];
    assert ss[..k][..k - 1] == ss[..k - 1];
    if k == 1 {
      assert ss[..0] == [];
    } else {
      SlicesPrefix(xs, b, k - 1);
      assert SliceEnd(|xs|, b, k - 2) == (k - 1) * b;
      PrefixExtend(xs, (k - 1) * b, SliceEnd(|xs|, b, k - 1));
    }
  }

  /** Concatenating the slices in submission order gives back `xs`. */
  lemma SlicesConcat<T>(xs: seq<T>, b: nat)
    requires b >= 1
    ensures Flatten(Slices(xs, b)) == xs
  {
    var ss := Slices(xs, b);
    if ss != [] {
      SlicesPrefix(xs, b, |ss|);
      SliceIndexBound(|xs|, b, |ss|);
      assert ss[..|ss|] == ss;
    }
  }

  /** The executor as an order-preserving map: result `k` is `f` of slice `k`. */
  function MapBatches<T, R>(f: seq<T> -> seq<R>, ss: seq<seq<T>>): (rs: seq<seq<R>>)
    ensures |rs| == |ss|
  {
    seq(|ss|, k requires 0 <= k < |ss| => f(ss[k]))
  }

  lemma MapBatchesStep<T, R>(f: seq<T> -> seq<R>, ss: seq<seq<T>>, k: nat)
    requires k < |ss|
    ensures MapBatches(f, ss[..k + 1]) == MapBatches(f, ss[..k]) + [f(ss[k])]
  {
    var a, b := MapBatches(f, ss[..k + 1]), MapBatches(f, ss[..k]) + [f(ss[k])];
    assert |a| == |b|;
    forall j | 0 <= j < |a|
      ensures a[j] == b[j]
    {
    }
  }

  /** `f` works row by row: on two non-empty batches, the rows of the join are the joined rows. */
  ghost predicate RowWise<T(!new), R>(f: seq<T> -> seq<R>) {
    forall a, b :: a != [] && b != [] ==> f(a + b) == f(a) + f(b)
  }

  /**
   * Mapping a row-wise `f` over non-empty batches and concatenating the
   * results is `f` of the concatenated batches.
   */
  lemma {:induction false} MapBatchesConcat<T(!new), R>(f: seq<T> -> seq<R>, ss: seq<seq<T>>)
    requires RowWise(f) && ss != []
    requires forall k :: 0 <= k < |ss| ==> ss[k] != []
    ensures Flatten(MapBatches(f, ss)) == f(Flatten(ss))
  {
    var rs := MapBatches(f, ss);
    var p := ss[..|ss| - 1];
    assert rs[..|rs| - 1] == MapBatches(f, p);
    if p == [] {
      assert rs[..|rs| - 1] == [] && Flatten(ss) == ss[0] && Flatten(rs) == rs[0];
    } else {
      MapBatchesConcat(f, p);
      FlattenNonEmpty(p);
    }
  }

  /** Concatenating non-empty pieces, at least one of them, gives a non-empty sequence. */
  lemma {:induction false} FlattenNonEmpty<T>(ss: seq<seq<T>>)
    requires ss != [] && forall k :: 0 <= k < |ss| ==> ss[k] != []
    ensures Flatten(ss) != []
  {
    assert |Flatten(ss)| >= |ss[|ss| - 1]|;
  }
}
