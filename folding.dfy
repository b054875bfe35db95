/**
 * Folding of 32-bit shingle hashes into a fixed-length vector
 * (`np.bincount(hash % fp_size, minlength=fp_size)`), and the casts that
 * turn the folded counts into the `bit` or `count` output.
 */
module Folding {
  import opened Seqs
  import Hashing

  /** Every value is a valid bucket index below `size`. */
  predicate AllBelow(bits: seq<nat>, size: nat) {
    forall t :: 0 <= t < |bits| ==> bits[t] < size
  }

  /** `np.bincount(bits, minlength=size)`, built by adding one occurrence at a time. */
  function Histogram(bits: seq<nat>, size: nat): (h: seq<nat>)
    requires AllBelow(bits, size)
    ensures |h| == size
  {
    if bits == [] then seq(size, _ => 0)
    else
      var h := Histogram(bits[..|bits| - 1], size);
      var b := bits[|bits| - 1];
      h[b := h[b] + 1]
  }

  /** Entry `k` of the histogram is the number of occurrences of `k`. */
  lemma {:induction false} HistogramCounts(bits: seq<nat>, size: nat, k: nat)
    requires AllBelow(bits, size) && k < size
    ensures Histogram(bits, size)[k] == Count(bits, k)
  {
    if bits != [] {
      HistogramCounts(bits[..|bits| - 1], size, k);
    }
  }

  lemma {:induction false} SumUpdate(s: seq<nat>, i: nat, v: nat)
    requires i < |s|
    ensures Sum(s[i := v]) + s[i] == Sum(s) + v
  {
    var n := |s| - 1;
    if i < n {
      assert s[i := v][..n] == s[..n][i := v];
      SumUpdate(s[..n], i, v);
    } else {
      assert s[i := v][..n] == s[..n];
    }
  }

  lemma {:induction false} SumZeros(n: nat)
    ensures Sum(seq(n, _ => 0)) == 0
  {
    if n > 0 {
      assert seq(n, _ => 0)[..n - 1] == seq(n - 1, _ => 0);
      SumZeros(n - 1);
    }
  }

  /** The histogram's entries add up to the number of values folded into it. */
  lemma {:induction false} HistogramSum(bits: seq<nat>, size: nat)
    requires AllBelow(bits, size)
    ensures Sum(Histogram(bits, size)) == |bits|
  {
    if bits == [] {
      SumZeros(size);
    } else {
      var p := bits[..|bits| - 1];
      var h := Histogram(p, size);
      var b := bits[|bits| - 1];
      HistogramSum(p, size);
      SumUpdate(h, b, h[b] + 1);
    }
  }

  /** `[hash_val % fp_size for hash_val in hashes]`: the bucket of each hash. */
  function Buckets(hashes: seq<nat>, fpSize: nat): (bits: seq<nat>)
    requires fpSize >= 1
    ensures |bits| == |hashes| && AllBelow(bits, fpSize)
  {
    seq(|hashes|, t requires 0 <= t < |hashes| => hashes[t] % fpSize)
  }

  /** The folded count vector of `_calculate_single_mol_fingerprint` for the `bit`/`count` variants. */
  function Fold(hashes: seq<nat>, fpSize: nat): (fp: seq<nat>)
    requires fpSize >= 1
    ensures |fp| == fpSize
  {
    Histogram(Buckets(hashes, fpSize), fpSize)
  }

  /**
   * Entry `k` of the folded vector counts the hashes that fall into bucket
   * `k`, and the entries add up to the number of hashes.
   */
  lemma FoldCounts(hashes: seq<nat>, fpSize: nat, k: nat)
    requires fpSize >= 1 && k < fpSize
    ensures Fold(hashes, fpSize)[k] == Count(Buckets(hashes, fpSize), k)
    ensures Sum(Fold(hashes, fpSize)) == |hashes|
  {
    HistogramCounts(Buckets(hashes, fpSize), fpSize, k);
    HistogramSum(Buckets(hashes, fpSize), fpSize);
  }

  /** `(X > 0).astype(np.uint8)` on one row. */
  function ToBits(row: seq<nat>): (r: seq<nat>)
    ensures |r| == |row|
    ensures forall k :: 0 <= k < |r| ==> r[k] <= 1 && (r[k] == 1 <==> row[k] > 0)
  {
    seq(|row|, k requires 0 <= k < |row| => if row[k] > 0 then 1 else 0)
  }

  /** `X.astype(np.uint32)` on one row: a non-negative value wraps modulo 2^32. */
  function ToUint32(row: seq<nat>): (r: seq<nat>)
    ensures |r| == |row|
    ensures forall k :: 0 <= k < |r| ==> r[k] < Hashing.Two32
    ensures forall k :: 0 <= k < |r| && row[k] < Hashing.Two32 ==> r[k] == row[k]
  {
    seq(|row|, k requires 0 <= k < |row| => row[k] % Hashing.Two32)
  }

  /** In the `bit` output, bucket `k` is set exactly when some hash falls into it. */
  lemma BitSetIffSomeHashHits(hashes: seq<nat>, fpSize: nat, k: nat)
    requires fpSize >= 1 && k < fpSize
    ensures ToBits(Fold(hashes, fpSize))[k] == 1
        <==> exists t :: 0 <= t < |hashes| && hashes[t] % fpSize == k
  {
    var bits := Buckets(hashes, fpSize);
    FoldCounts(hashes, fpSize, k);
    if Count(bits, k) > 0 {
      var t :| 0 <= t < |bits| && bits[t] == k;
      assert hashes[t] % fpSize == k;
    } else {
      forall t | 0 <= t < |hashes|
        ensures hashes[t] % fpSize != k
      {
        assert bits[t] == hashes[t] % fpSize && bits[t] in bits;
      }
    }
  }

  /**
   * Below 2^32 hashes the `count` cast changes nothing, so the `count`
   * output adds up to the number of hashes folded.
   */
  lemma CountVectorSum(hashes: seq<nat>, fpSize: nat)
    requires fpSize >= 1 && |hashes| < Hashing.Two32
    ensures ToUint32(Fold(hashes, fpSize)) == Fold(hashes, fpSize)
    ensures Sum(ToUint32(Fold(hashes, fpSize))) == |hashes|
  {
    var fp := Fold(hashes, fpSize);
    forall k | 0 <= k < fpSize
      ensures fp[k] < Hashing.Two32
    {
      FoldCounts(hashes, fpSize, k);
    }
    FoldCounts(hashes, fpSize, 0);
  }
}
