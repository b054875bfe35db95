/** Counting, de-duplication, sums and concatenation over sequences. */
module Seqs {

  /** Number of occurrences of `x` in `s`. */
  function Count<T(==)>(s: seq<T>, x: T): (n: nat)
    ensures n <= |s|
    ensures n > 0 <==> x in s
  {
    if s == [] then 0
    else Count(s[..|s| - 1], x) + (if s[|s| - 1] == x then 1 else 0)
  }

  predicate NoDuplicates<T(==)>(s: seq<T>) {
    forall k, l :: 0 <= k < l < |s| ==> s[k] != s[l]
  }

  /**
   * The distinct elements of `s` in order of first occurrence: the key order
   * of a Python dict filled by walking `s`.
   */
  function Distinct<T(==)>(s: seq<T>): (d: seq<T>)
    ensures NoDuplicates(d)
    ensures forall k :: 0 <= k < |d| ==> d[k] in s
    ensures forall k :: 0 <= k < |s| ==> s[k] in d
    ensures |d| <= |s|
  {
    if s == [] then []
    else
      var d := Distinct(s[..|s| - 1]);
      var x := s[|s| - 1];
      if x in d then d else d + [x]
  }

  /** The index of the first occurrence of `x` in `s`. */
  function FirstIndex<T(==)>(s: seq<T>, x: T): (i: nat)
    requires x in s
    ensures i < |s| && s[i] == x && x !in s[..i]
  {
    if s[0] == x then 0
    else
      var j := FirstIndex(s[1..], x);
      assert s[..j + 1] == [s[0]] + s[1..][..j];
      j + 1
  }

  /** An index holding `x` with no `x` before it is the first index of `x`. */
  lemma FirstIndexUnique<T>(s: seq<T>, x: T, i: nat)
    requires i < |s| && s[i] == x && x !in s[..i]
    ensures FirstIndex(s, x) == i
  {
  }

  /** Appending an element does not move the first occurrence of an element already present. */
  lemma FirstIndexPrefix<T>(s: seq<T>, x: T)
    requires s != [] && x in s[..|s| - 1]
    ensures FirstIndex(s, x) == FirstIndex(s[..|s| - 1], x)
  {
    var p := s[..|s| - 1];
    var i := FirstIndex(p, x);
    assert s[..i] == p[..i];
    FirstIndexUnique(s, x, i);
  }

  /** The elements of `d` occur in `s`, and in the order of their first occurrence there. */
  predicate InFirstOccurrenceOrder<T(==)>(s: seq<T>, d: seq<T>) {
    && (forall k :: 0 <= k < |d| ==> d[k] in s)
    && (forall i, j :: 0 <= i < j < |d| ==> FirstIndex(s, d[i]) < FirstIndex(s, d[j]))
  }

  /** `Distinct` lists the elements of `s` in order of their first occurrence in `s`. */
  lemma {:induction false} DistinctFirstOccurrenceOrder<T>(s: seq<T>)
    ensures InFirstOccurrenceOrder(s, Distinct(s))
  {
    if s != [] {
      DistinctFirstOccurrenceOrder(s[..|s| - 1]);
      var d := Distinct(s);
      forall k, l | 0 <= k < l < |d|
        ensures FirstIndex(s, d[k]) < FirstIndex(s, d[l])
      {
        DistinctOrderStep(s, k, l);
      }
    }
  }

  /** One step of the induction: the order of two distinct elements survives appending an element. */
  lemma DistinctOrderStep<T>(s: seq<T>, k: nat, l: nat)
    requires s != [] && k < l < |Distinct(s)|
    requires InFirstOccurrenceOrder(s[..|s| - 1], Distinct(s[..|s| - 1]))
    ensures FirstIndex(s, Distinct(s)[k]) < FirstIndex(s, Distinct(s)[l])
  {
    var p, x := s[..|s| - 1], s[|s| - 1];
    var dp, d := Distinct(p), Distinct(s);
    assert d[k] == dp[k] && d[k] in p;
    FirstIndexPrefix(s, d[k]);
    if l < |dp| {
      assert d[l] == dp[l] && d[l] in p;
      assert FirstIndex(p, dp[k]) < FirstIndex(p, dp[l]);
      FirstIndexPrefix(s, d[l]);
    } else {
      assert d[l] == x && x !in p;
      FirstIndexUnique(s, x, |p|);
    }
  }

  function Sum(s: seq<nat>): nat {
    if s == [] then 0 else Sum(s[..|s| - 1]) + s[|s| - 1]
  }

  /** Sum, over the keys `d`, of how often each key occurs in `s`. */
  function SumOfCounts<T(==)>(d: seq<T>, s: seq<T>): nat {
    if d == [] then 0 else SumOfCounts(d[..|d| - 1], s) + Count(s, d[|d| - 1])
  }

  lemma {:induction false} SumOfCountsAppend<T>(d: seq<T>, s: seq<T>, x: T)
    ensures SumOfCounts(d, s + [x]) == SumOfCounts(d, s) + Count(d, x)
  {
    if d != [] {
      SumOfCountsAppend(d[..|d| - 1], s, x);
      assert (s + [x])[..|s + [x]| - 1] == s;
    }
  }

  lemma {:induction false} CountOfDistinctMember<T>(d: seq<T>, x: T)
    requires NoDuplicates(d) && x in d
    ensures Count(d, x) == 1
  {
    var p := d[..|d| - 1];
    if d[|d| - 1] == x {
      assert x !in p;
    } else {
      CountOfDistinctMember(p, x);
    }
  }

  /**
   * When `d` lists every element of `s` exactly once, the counts of the keys
   * add up to the length of `s`.
   */
  lemma {:induction false} SumOfCountsCovers<T>(d: seq<T>, s: seq<T>)
    requires NoDuplicates(d)
    requires forall k :: 0 <= k < |s| ==> s[k] in d
    ensures SumOfCounts(d, s) == |s|
  {
    if s == [] {
      SumOfCountsOfEmpty(d, s);
    } else {
      var p, x := s[..|s| - 1], s[|s| - 1];
      assert s == p + [x];
      SumOfCountsCovers(d, p);
      SumOfCountsAppend(d, p, x);
      CountOfDistinctMember(d, x);
    }
  }

  lemma {:induction false} SumOfCountsOfEmpty<T>(d: seq<T>, s: seq<T>)
    requires s == []
    ensures SumOfCounts(d, s) == 0
  {
    if d != [] {
      SumOfCountsOfEmpty(d[..|d| - 1], s);
    }
  }

  /** Concatenation of a sequence of sequences, in order. */
  function Flatten<T>(ss: seq<seq<T>>): seq<T> {
    if ss == [] then [] else Flatten(ss[..|ss| - 1]) + ss[|ss| - 1]
  }

  /** `[f(x) for x in s]`, for an `f` defined on every element. */
  function MapSeq<T, U>(f: T --> U, s: seq<T>): (r: seq<U>)
    requires forall k :: 0 <= k < |s| ==> f.requires(s[k])
    ensures |r| == |s|
  {
    if s == [] then [] else MapSeq(f, s[..|s| - 1]) + [f(s[|s| - 1])]
  }

  lemma {:induction false} MapSeqAt<T, U>(f: T --> U, s: seq<T>, k: nat)
    requires forall k :: 0 <= k < |s| ==> f.requires(s[k])
    requires k < |s|
    ensures MapSeq(f, s)[k] == f(s[k])
  {
    if k < |s| - 1 {
      MapSeqAt(f, s[..|s| - 1], k);
    }
  }

  /** Mapping over a concatenation maps each part, in order. */
  lemma {:induction false} MapSeqAppend<T, U>(f: T --> U, a: seq<T>, b: seq<T>)
    requires forall k :: 0 <= k < |a| ==> f.requires(a[k])
    requires forall k :: 0 <= k < |b| ==> f.requires(b[k])
    ensures MapSeq(f, a + b) == MapSeq(f, a) + MapSeq(f, b)
    decreases |b|
  {
    var ab := a + b;
    assert forall k :: 0 <= k < |ab| ==> f.requires(ab[k]) by {
      forall k | 0 <= k < |ab|
        ensures f.requires(ab[k])
      {
        if k >= |a| {
          assert ab[k] == b[k - |a|];
        }
      }
    }
    if b == [] {
      assert ab == a;
    } else {
      var bp := b[..|b| - 1];
      assert ab[..|ab| - 1] == a + bp;
      MapSeqAppend(f, a, bp);
    }
  }
}
