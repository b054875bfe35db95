/**
 * `_get_atom_pair_shingles`: one shingle "a|dist|b" per atom pair i < j and
 * radius where both environments exist, the two environment strings sorted;
 * in count mode, one "shingle|n" per distinct shingle instead.
 */
module Shingles {
  import opened Wrappers
  import opened Text
  import opened Seqs
  import opened Chem
  import opened Neighborhoods

  /** One (atom pair, radius) combination: atoms `i` and `j`, environment index `r` (radius `r + 1`). */
  datatype Combo = Combo(i: nat, j: nat, r: nat)

  /** Python truthiness of an environment: both `None` and `""` are skipped. */
  predicate Present(env: Option<string>) {
    env.Some? && env.value != ""
  }

  /** `f"{first}|{dist}|{second}"`. */
  function Join(first: string, dist: string, second: string): string {
    first + "|" + dist + "|" + second
  }

  /** The three fields of a joined shingle sit between the two '|' separators. */
  lemma JoinLayout(first: string, dist: string, second: string)
    ensures var s := Join(first, dist, second);
      && |s| == |first| + |dist| + |second| + 2
      && s[..|first|] == first && s[|first|] == '|'
      && s[|first| + 1 .. |first| + 1 + |dist|] == dist && s[|first| + 1 + |dist|] == '|'
      && s[|first| + |dist| + 2 ..] == second
  {
  }

  /** `f"{ordered[0]}|{dist}|{ordered[1]}"` with `ordered = sorted([a, b])`. */
  function ShingleOf(a: string, dist: nat, b: string): (s: string)
    ensures !Less(b, a) ==> s == Join(a, NatToString(dist), b)
    ensures Less(b, a) ==> s == Join(b, NatToString(dist), a)
  {
    var ordered := SortPair(a, b);
    Join(ordered.0, NatToString(dist), ordered.1)
  }

  /** A shingle does not depend on which atom of the pair comes first. */
  lemma ShingleSymmetric(a: string, dist: nat, b: string)
    ensures ShingleOf(a, dist, b) == ShingleOf(b, dist, a)
  {
    SortPairSymmetric(a, b);
  }

  /** The table covers atoms 0 .. n-1 with `radius` environments each, and `dist` is n-by-n. */
  ghost predicate Shaped(table: EnvTable, dist: seq<seq<nat>>, n: nat, radius: nat) {
    HasShape(table, n, radius) && IsSquare(dist, n)
  }

  predicate InRange(c: Combo, n: nat, radius: nat) {
    c.i < n && c.j < n && c.r < radius
  }

  predicate AllInRange(cs: seq<Combo>, n: nat, radius: nat) {
    forall k :: 0 <= k < |cs| ==> InRange(cs[k], n, radius)
  }

  /** Both environments of the combination exist, so it yields a shingle. */
  predicate Yields(table: EnvTable, dist: seq<seq<nat>>, n: nat, radius: nat, c: Combo)
    requires Shaped(table, dist, n, radius) && InRange(c, n, radius)
  {
    Present(table[c.i][c.r]) && Present(table[c.j][c.r])
  }

  /** The shingle of a combination that yields one. */
  function Render(table: EnvTable, dist: seq<seq<nat>>, n: nat, radius: nat, c: Combo): string
    requires Shaped(table, dist, n, radius) && InRange(c, n, radius)
    requires Yields(table, dist, n, radius, c)
  {
    ShingleOf(table[c.i][c.r].value, dist[c.i][c.j], table[c.j][c.r].value)
  }

  /** What one step of the radius loop appends: nothing when either environment is missing or empty. */
  function EmitOne(table: EnvTable, dist: seq<seq<nat>>, n: nat, radius: nat, c: Combo): (out: seq<string>)
    requires Shaped(table, dist, n, radius) && InRange(c, n, radius)
    ensures |out| <= 1
    ensures |out| == 0 <==> !Present(table[c.i][c.r]) || !Present(table[c.j][c.r])
  {
    if Yields(table, dist, n, radius, c) then [Render(table, dist, n, radius, c)] else []
  }

  /** The shingles emitted while visiting the combinations `cs` in order, duplicates kept. */
  function Emit(table: EnvTable, dist: seq<seq<nat>>, n: nat, radius: nat, cs: seq<Combo>): seq<string>
    requires Shaped(table, dist, n, radius) && AllInRange(cs, n, radius)
  {
    if cs == [] then []
    else Emit(table, dist, n, radius, cs[..|cs| - 1]) + EmitOne(table, dist, n, radius, cs[|cs| - 1])
  }

  // ---------------------------------------------------------------------------
  // The visiting order: `itertools.combinations(range(n), 2)`, then `range(radius)`.

  /** The pairs (i, j) with i < j < n, `j` increasing. */
  function RowPairs(i: nat, n: nat): (ps: seq<(nat, nat)>)
    ensures |ps| == if i < n then n - i - 1 else 0
  {
    if i < n then seq(n - i - 1, k requires 0 <= k < n - i - 1 => (i, i + 1 + k)) else []
  }

  /** The pairs with first atom below `upto`, in lexicographic order. */
  function PairsUpTo(upto: nat, n: nat): seq<(nat, nat)> {
    if upto == 0 then [] else PairsUpTo(upto - 1, n) + RowPairs(upto - 1, n)
  }

  /** `itertools.combinations(range(n), 2)`. */
  function Pairs(n: nat): seq<(nat, nat)> {
    PairsUpTo(n, n)
  }

  lemma {:induction false} PairsUpToMembers(upto: nat, n: nat, p: (nat, nat))
    ensures p in PairsUpTo(upto, n) <==> p.0 < upto && p.0 < p.1 < n
  {
    if upto > 0 {
      PairsUpToMembers(upto - 1, n, p);
      var row := RowPairs(upto - 1, n);
      if p.0 == upto - 1 && p.0 < p.1 < n {
        assert row[p.1 - upto] == p;
      }
    }
  }

  /** `combinations` yields exactly the pairs i < j < n. */
  lemma PairsMembers(n: nat, p: (nat, nat))
    ensures p in Pairs(n) <==> p.0 < p.1 < n
  {
    PairsUpToMembers(n, n, p);
  }

  predicate PairBefore(p: (nat, nat), q: (nat, nat)) {
    p.0 < q.0 || (p.0 == q.0 && p.1 < q.1)
  }

  predicate PairsSorted(ps: seq<(nat, nat)>) {
    forall k, l :: 0 <= k < l < |ps| ==> PairBefore(ps[k], ps[l])
  }

  lemma {:induction false} PairsUpToSorted(upto: nat, n: nat)
    ensures PairsSorted(PairsUpTo(upto, n))
  {
    if upto > 0 {
      var a, b := PairsUpTo(upto - 1, n), RowPairs(upto - 1, n);
      PairsUpToSorted(upto - 1, n);
      forall k | 0 <= k < |a|
        ensures a[k].0 < upto - 1
      {
        PairsUpToMembers(upto - 1, n, a[k]);
      }
      forall k, l | 0 <= k < l < |a + b|
        ensures PairBefore((a + b)[k], (a + b)[l])
      {
        if l >= |a| {
          assert (a + b)[l] == b[l - |a|];
          if k >= |a| {
            assert (a + b)[k] == b[k - |a|];
          }
        }
      }
    }
  }

  /** Radii 0 .. r-1 of the pair (i, j). */
  function RadiusCombos(i: nat, j: nat, r: nat): (cs: seq<Combo>)
    ensures |cs| == r
  {
    seq(r, k requires 0 <= k < r => Combo(i, j, k))
  }

  lemma RadiusCombosStep(i: nat, j: nat, r: nat)
    ensures RadiusCombos(i, j, r + 1) == RadiusCombos(i, j, r) + [Combo(i, j, r)]
  {
    var a, b := RadiusCombos(i, j, r + 1), RadiusCombos(i, j, r) + [Combo(i, j, r)];
    assert |a| == |b|;
    forall k | 0 <= k < |a|
      ensures a[k] == b[k]
    {
    }
  }

  /** Every radius of every pair of `ps`, pair by pair. */
  function CombosOf(ps: seq<(nat, nat)>, radius: nat): seq<Combo> {
    if ps == [] then []
    else CombosOf(ps[..|ps| - 1], radius) + RadiusCombos(ps[|ps| - 1].0, ps[|ps| - 1].1, radius)
  }

  /** Every combination the loops visit, in visiting order. */
  function Combinations(n: nat, radius: nat): (cs: seq<Combo>)
    ensures AllInRange(cs, n, radius)
  {
    var cs := CombosOf(Pairs(n), radius);
    forall k | 0 <= k < |cs|
      ensures InRange(cs[k], n, radius)
    {
      CombosOfMembers(Pairs(n), radius, cs[k]);
      PairsMembers(n, (cs[k].i, cs[k].j));
    }
    cs
  }

  lemma {:induction false} CombosOfMembers(ps: seq<(nat, nat)>, radius: nat, c: Combo)
    ensures c in CombosOf(ps, radius) <==> (c.i, c.j) in ps && c.r < radius
  {
    if ps != [] {
      var q, p := ps[..|ps| - 1], ps[|ps| - 1];
      assert ps == q + [p];
      CombosOfMembers(q, radius, c);
      if c.i == p.0 && c.j == p.1 && c.r < radius {
        assert RadiusCombos(p.0, p.1, radius)[c.r] == c;
      }
    }
  }

  /** The loops visit exactly the pairs i < j < n, each with every radius. */
  lemma CombinationsMembers(n: nat, radius: nat, c: Combo)
    ensures c in Combinations(n, radius) <==> c.i < c.j < n && c.r < radius
  {
    CombosOfMembers(Pairs(n), radius, c);
    PairsMembers(n, (c.i, c.j));
  }

  /** `c` is visited before `d`: by first atom, then second atom, then radius. */
  predicate Before(c: Combo, d: Combo) {
    || c.i < d.i
    || (c.i == d.i && c.j < d.j)
    || (c.i == d.i && c.j == d.j && c.r < d.r)
  }

  predicate StrictlySorted(cs: seq<Combo>) {
    forall k, l :: 0 <= k < l < |cs| ==> Before(cs[k], cs[l])
  }

  lemma SortedAppend(a: seq<Combo>, b: seq<Combo>)
    requires StrictlySorted(a) && StrictlySorted(b)
    requires forall k, l :: 0 <= k < |a| && 0 <= l < |b| ==> Before(a[k], b[l])
    ensures StrictlySorted(a + b)
  {
    forall k, l | 0 <= k < l < |a + b|
      ensures Before((a + b)[k], (a + b)[l])
    {
      if l < |a| {
      } else if k >= |a| {
        assert (a + b)[k] == b[k - |a|] && (a + b)[l] == b[l - |a|];
      } else {
        assert (a + b)[l] == b[l - |a|];
      }
    }
  }

  lemma {:induction false} CombosOfSorted(ps: seq<(nat, nat)>, radius: nat)
    requires PairsSorted(ps)
    ensures StrictlySorted(CombosOf(ps, radius))
  {
    if ps != [] {
      var q, p := ps[..|ps| - 1], ps[|ps| - 1];
      var a, b := CombosOf(q, radius), RadiusCombos(p.0, p.1, radius);
      CombosOfSorted(q, radius);
      forall k | 0 <= k < |a|
        ensures PairBefore((a[k].i, a[k].j), p)
      {
        CombosOfMembers(q, radius, a[k]);
        var m :| 0 <= m < |q| && q[m] == (a[k].i, a[k].j);
        assert ps[m] == q[m];
      }
      SortedAppend(a, b);
    }
  }

  /** The loops visit the combinations in order of first atom, then second atom, then radius. */
  lemma CombinationsSorted(n: nat, radius: nat)
    ensures StrictlySorted(Combinations(n, radius))
  {
    PairsUpToSorted(n, n);
    CombosOfSorted(Pairs(n), radius);
  }

  // ---------------------------------------------------------------------------
  // What is emitted: one shingle per combination that yields one, in order.

  /** The visited combinations that yield a shingle, in visiting order. */
  function YieldingCombos(table: EnvTable, dist: seq<seq<nat>>, n: nat, radius: nat, cs: seq<Combo>): (vs: seq<Combo>)
    requires Shaped(table, dist, n, radius) && AllInRange(cs, n, radius)
    ensures AllInRange(vs, n, radius)
    ensures forall k :: 0 <= k < |vs| ==> InRange(vs[k], n, radius) && Yields(table, dist, n, radius, vs[k])
    ensures |vs| <= |cs|
  {
    if cs == [] then []
    else
      var vs := YieldingCombos(table, dist, n, radius, cs[..|cs| - 1]);
      var c := cs[|cs| - 1];
      if Yields(table, dist, n, radius, c) then vs + [c] else vs
  }

  lemma {:induction false} YieldingCombosMembers(table: EnvTable, dist: seq<seq<nat>>, n: nat, radius: nat, cs: seq<Combo>, c: Combo)
    requires Shaped(table, dist, n, radius) && AllInRange(cs, n, radius)
    ensures c in YieldingCombos(table, dist, n, radius, cs) <==>
      c in cs && InRange(c, n, radius) && Yields(table, dist, n, radius, c)
  {
    if cs != [] {
      var p := cs[..|cs| - 1];
      assert cs == p + [cs[|cs| - 1]];
      YieldingCombosMembers(table, dist, n, radius, p, c);
    }
  }

  lemma {:induction false} YieldingCombosSorted(table: EnvTable, dist: seq<seq<nat>>, n: nat, radius: nat, cs: seq<Combo>)
    requires Shaped(table, dist, n, radius) && AllInRange(cs, n, radius)
    requires StrictlySorted(cs)
    ensures StrictlySorted(YieldingCombos(table, dist, n, radius, cs))
  {
    if cs != [] {
      var p, c := cs[..|cs| - 1], cs[|cs| - 1];
      var vs := YieldingCombos(table, dist, n, radius, p);
      YieldingCombosSorted(table, dist, n, radius, p);
      if Yields(table, dist, n, radius, c) {
        forall k | 0 <= k < |vs|
          ensures Before(vs[k], c)
        {
          YieldingCombosMembers(table, dist, n, radius, p, vs[k]);
          var m :| 0 <= m < |p| && p[m] == vs[k];
          assert cs[m] == vs[k];
        }
        SortedAppend(vs, [c]);
      }
    }
  }

  /** Emitting renders the yielding combinations one by one. */
  lemma {:induction false} EmitRendersYielding(table: EnvTable, dist: seq<seq<nat>>, n: nat, radius: nat, cs: seq<Combo>)
    requires Shaped(table, dist, n, radius) && AllInRange(cs, n, radius)
    ensures var vs := YieldingCombos(table, dist, n, radius, cs);
      && |Emit(table, dist, n, radius, cs)| == |vs|
      && forall k :: 0 <= k < |vs| ==> Emit(table, dist, n, radius, cs)[k] == Render(table, dist, n, radius, vs[k])
  {
    if cs != [] {
      EmitRendersYielding(table, dist, n, radius, cs[..|cs| - 1]);
    }
  }

  /** The non-count output of `_get_atom_pair_shingles`, before encoding. */
  function BaseShingles(table: EnvTable, dist: seq<seq<nat>>, n: nat, radius: nat): seq<string>
    requires Shaped(table, dist, n, radius)
  {
    Emit(table, dist, n, radius, Combinations(n, radius))
  }

  /**
   * The non-count output holds one shingle per pair i < j < n and radius
   * with both environments present, in order of increasing i, then j, then
   * radius, duplicates kept.
   */
  lemma BaseShinglesSpec(table: EnvTable, dist: seq<seq<nat>>, n: nat, radius: nat)
    requires Shaped(table, dist, n, radius)
    ensures var vs := YieldingCombos(table, dist, n, radius, Combinations(n, radius));
      var base := BaseShingles(table, dist, n, radius);
      && |base| == |vs|
      && (forall k :: 0 <= k < |vs| ==> base[k] == Render(table, dist, n, radius, vs[k]))
      && StrictlySorted(vs)
      && (forall c :: c in vs <==> c.i < c.j < n && c.r < radius && Yields(table, dist, n, radius, c))
  {
    var cs := Combinations(n, radius);
    EmitRendersYielding(table, dist, n, radius, cs);
    CombinationsSorted(n, radius);
    YieldingCombosSorted(table, dist, n, radius, cs);
    forall c
      ensures c in YieldingCombos(table, dist, n, radius, cs) <==>
        c.i < c.j < n && c.r < radius && Yields(table, dist, n, radius, c)
    {
      YieldingCombosMembers(table, dist, n, radius, cs, c);
      CombinationsMembers(n, radius, c);
    }
  }

  // ---------------------------------------------------------------------------
  // Count mode.

  /** `f"{shingle}|{shingle_count}"`. */
  function WithCount(shingle: string, count: nat): string {
    shingle + "|" + NatToString(count)
  }

  /**
   * The count-mode output: one entry per distinct base shingle, in order of
   * first occurrence (the key order of `shingle_dict`), suffixed with its
   * number of occurrences.
   */
  function Aggregate(base: seq<string>): (out: seq<string>)
    ensures |out| == |Distinct(base)|
    ensures forall k :: 0 <= k < |out| ==>
      var key := Distinct(base)[k];
      Count(base, key) >= 1 && out[k] == WithCount(key, Count(base, key))
  {
    var keys := Distinct(base);
    seq(|keys|, k requires 0 <= k < |keys| => WithCount(keys[k], Count(base, keys[k])))
  }

  /** The counts attached in count mode add up to the number of base shingles. */
  lemma AggregateCountsSum(base: seq<string>)
    ensures SumOfCounts(Distinct(base), base) == |base|
  {
    SumOfCountsCovers(Distinct(base), base);
  }

  /** The '|' that `WithCount` appends is the last one in its result. */
  lemma LastBar(a: string, m: nat)
    ensures WithCount(a, m)[|a|] == '|'
    ensures forall p :: |a| < p < |WithCount(a, m)| ==> WithCount(a, m)[p] != '|'
  {
    var s, digits := WithCount(a, m), NatToString(m);
    forall p | |a| < p < |s|
      ensures s[p] != '|'
    {
      assert s[p] == digits[p - |a| - 1];
    }
  }

  lemma WithCountInjective(a: string, m: nat, b: string, l: nat)
    requires WithCount(a, m) == WithCount(b, l)
    ensures a == b && m == l
  {
    var s := WithCount(a, m);
    LastBar(a, m);
    LastBar(b, l);
    assert |a| == |b|;
    assert a == s[..|a|] == b;
    assert NatToString(m) == s[|a| + 1..] == NatToString(l);
    NatToStringInjective(m, l);
  }

  /** No two count-mode shingles are equal, since the count never contains '|'. */
  lemma AggregateNoDuplicates(base: seq<string>)
    ensures NoDuplicates(Aggregate(base))
  {
    var out, keys := Aggregate(base), Distinct(base);
    forall k, l | 0 <= k < l < |out|
      ensures out[k] != out[l]
    {
      if out[k] == out[l] {
        WithCountInjective(keys[k], Count(base, keys[k]), keys[l], Count(base, keys[l]));
      }
    }
  }

  /** The output of `_get_atom_pair_shingles`, before encoding. */
  function PairShingles(table: EnvTable, dist: seq<seq<nat>>, n: nat, radius: nat, countMode: bool): (out: seq<string>)
    requires Shaped(table, dist, n, radius)
    ensures countMode ==> NoDuplicates(out) && |out| == |Distinct(BaseShingles(table, dist, n, radius))|
    ensures !countMode ==> |out| == |YieldingCombos(table, dist, n, radius, Combinations(n, radius))|
  {
    var base := BaseShingles(table, dist, n, radius);
    AggregateNoDuplicates(base);
    BaseShinglesSpec(table, dist, n, radius);
    if countMode then Aggregate(base) else base
  }

  // ---------------------------------------------------------------------------
  // The loops.

  /** `shingle_dict`, a `defaultdict(int)`: its keys in insertion order and its values. */
  datatype Counter = Counter(keys: seq<string>, counts: map<string, nat>)

  /** `shingle_dict[shingle] += 1`: a missing key starts at 0 and joins the key order. */
  function Increment(d: Counter, shingle: string): (d': Counter)
    ensures shingle in d'.counts
    ensures d'.counts[shingle] == (if shingle in d.counts then d.counts[shingle] else 0) + 1
    ensures d'.keys == if shingle in d.counts then d.keys else d.keys + [shingle]
    ensures d'.counts == d.counts[shingle := d'.counts[shingle]]
  {
    if shingle in d.counts then Counter(d.keys, d.counts[shingle := d.counts[shingle] + 1])
    else Counter(d.keys + [shingle], d.counts[shingle := 1])
  }

  /** The dictionary after incrementing once per element of `emitted`, in order. */
  function TallyOf(emitted: seq<string>): Counter {
    if emitted == [] then Counter([], map[])
    else Increment(TallyOf(emitted[..|emitted| - 1]), emitted[|emitted| - 1])
  }

  /**
   * The dictionary's keys are the distinct emitted shingles in order of first
   * occurrence, and each value is the shingle's number of occurrences.
   */
  ghost predicate Tallied(d: Counter, emitted: seq<string>) {
    && d.keys == Distinct(emitted)
    && (forall s :: s in d.counts <==> s in d.keys)
    && (forall s :: s in d.counts ==> d.counts[s] == Count(emitted, s))
  }

  lemma {:induction false} TallyOfTallies(emitted: seq<string>)
    ensures Tallied(TallyOf(emitted), emitted)
  {
    if emitted != [] {
      var p := emitted[..|emitted| - 1];
      TallyOfTallies(p);
    }
  }

  /** `[f"{shingle}|{shingle_count}" for shingle, shingle_count in shingle_dict.items()]`. */
  function Items(d: Counter): (out: seq<string>)
    requires forall k :: 0 <= k < |d.keys| ==> d.keys[k] in d.counts
    ensures |out| == |d.keys|
    ensures forall k :: 0 <= k < |out| ==> out[k] == WithCount(d.keys[k], d.counts[d.keys[k]])
  {
    seq(|d.keys|, k requires 0 <= k < |d.keys| => WithCount(d.keys[k], d.counts[d.keys[k]]))
  }

  /** Listing the tallied dictionary's items yields the count-mode output. */
  lemma ItemsOfTally(emitted: seq<string>)
    ensures var d := TallyOf(emitted);
      && (forall k :: 0 <= k < |d.keys| ==> d.keys[k] in d.counts)
      && Items(d) == Aggregate(emitted)
  {
    TallyOfTallies(emitted);
  }

  /** The shingle the radius loop builds for a combination whose environments are both present. */
  lemma EmitOnePresent(table: EnvTable, dist: seq<seq<nat>>, n: nat, radius: nat, c: Combo, shingle: string)
    requires Shaped(table, dist, n, radius) && InRange(c, n, radius)
    requires Present(table[c.i][c.r]) && Present(table[c.j][c.r])
    requires var ordered := SortPair(table[c.i][c.r].value, table[c.j][c.r].value);
      shingle == Join(ordered.0, NatToString(dist[c.i][c.j]), ordered.1)
    ensures EmitOne(table, dist, n, radius, c) == [shingle]
  {
  }

  lemma {:induction false} EmitStep(table: EnvTable, dist: seq<seq<nat>>, n: nat, radius: nat, done: seq<Combo>, c: Combo)
    requires Shaped(table, dist, n, radius) && AllInRange(done, n, radius) && InRange(c, n, radius)
    ensures AllInRange(done + [c], n, radius)
    ensures Emit(table, dist, n, radius, done + [c])
         == Emit(table, dist, n, radius, done) + EmitOne(table, dist, n, radius, c)
  {
    var d := done + [c];
    assert d[..|d| - 1] == done;
  }

  /**
   * The loop's output so far for the shingles `emitted` up to now: the list
   * itself outside count mode, and in count mode an empty list beside the
   * dictionary that tallies them.
   */
  ghost predicate Accumulated(countMode: bool, shingles: seq<string>, shingleDict: Counter, emitted: seq<string>) {
    && shingles == (if countMode then [] else emitted)
    && (countMode ==> shingleDict == TallyOf(emitted))
  }

  /** Appending to the list, or incrementing the dictionary, records one more shingle. */
  lemma AccumulateOne(countMode: bool, shingles: seq<string>, shingleDict: Counter, emitted: seq<string>, shingle: string)
    requires Accumulated(countMode, shingles, shingleDict, emitted)
    ensures Accumulated(countMode, if countMode then shingles else shingles + [shingle],
                        if countMode then Increment(shingleDict, shingle) else shingleDict, emitted + [shingle])
  {
    assert (emitted + [shingle])[..|emitted|] == emitted;
  }

  /** Visiting radius `r` of the pair (i, j) adds that combination's output. */
  lemma RadiusStep(table: EnvTable, dist: seq<seq<nat>>, n: nat, radius: nat, done: seq<Combo>, i: nat, j: nat, r: nat)
    requires Shaped(table, dist, n, radius) && i < j < n && r < radius
    requires AllInRange(done + RadiusCombos(i, j, r), n, radius)
    ensures AllInRange(done + RadiusCombos(i, j, r + 1), n, radius)
    ensures Emit(table, dist, n, radius, done + RadiusCombos(i, j, r + 1))
         == Emit(table, dist, n, radius, done + RadiusCombos(i, j, r)) + EmitOne(table, dist, n, radius, Combo(i, j, r))
  {
    var c := Combo(i, j, r);
    RadiusCombosStep(i, j, r);
    assert done + RadiusCombos(i, j, r + 1) == (done + RadiusCombos(i, j, r)) + [c];
    EmitStep(table, dist, n, radius, done + RadiusCombos(i, j, r), c);
  }

  /**
   * One pass of the radius loop for the combination `c`: skips it when either
   * environment is missing or empty, and otherwise records its shingle, by
   * incrementing the dictionary in count mode and by appending otherwise.
   */
  method VisitRadius(table: EnvTable, dist: seq<seq<nat>>, n: nat, radius: nat, countMode: bool,
                     c: Combo, distStr: string, ghost emitted: seq<string>, shinglesIn: seq<string>, dictIn: Counter)
    returns (shingles: seq<string>, shingleDict: Counter)
    requires Shaped(table, dist, n, radius) && InRange(c, n, radius)
    requires distStr == NatToString(dist[c.i][c.j])
    requires Accumulated(countMode, shinglesIn, dictIn, emitted)
    ensures Accumulated(countMode, shingles, shingleDict, emitted + EmitOne(table, dist, n, radius, c))
  {
    shingles, shingleDict := shinglesIn, dictIn;
    var envARadius, envBRadius := table[c.i][c.r], table[c.j][c.r];
    if Present(envARadius) && Present(envBRadius) {
      var ordered := SortPair(envARadius.value, envBRadius.value);
      var shingle := Join(ordered.0, distStr, ordered.1);
      EmitOnePresent(table, dist, n, radius, c, shingle);
      AccumulateOne(countMode, shingles, shingleDict, emitted, shingle);
      if countMode {
        shingleDict := Increment(shingleDict, shingle);
      } else {
        shingles := shingles + [shingle];
      }
    } else {
      assert emitted + EmitOne(table, dist, n, radius, c) == emitted;
    }
  }

  /**
   * The `for i in range(self.radius)` loop of `_get_atom_pair_shingles` for the
   * pair (idx1, idx2), entered with the output of the combinations `done`
   * visited before it; it leaves the output of `done` followed by every radius
   * of this pair.
   */
  method VisitPair(table: EnvTable, dist: seq<seq<nat>>, n: nat, radius: nat, countMode: bool,
                   idx1: nat, idx2: nat, ghost done: seq<Combo>, shinglesIn: seq<string>, dictIn: Counter)
    returns (shingles: seq<string>, shingleDict: Counter)
    requires Shaped(table, dist, n, radius) && idx1 < idx2 < n && AllInRange(done, n, radius)
    requires Accumulated(countMode, shinglesIn, dictIn, Emit(table, dist, n, radius, done))
    ensures AllInRange(done + RadiusCombos(idx1, idx2, radius), n, radius)
    ensures Accumulated(countMode, shingles, shingleDict, Emit(table, dist, n, radius, done + RadiusCombos(idx1, idx2, radius)))
  {
    shingles, shingleDict := shinglesIn, dictIn;
    var distStr := NatToString(dist[idx1][idx2]);
    ghost var emitted := Emit(table, dist, n, radius, done);
    var r := 0;
    assert done + RadiusCombos(idx1, idx2, r) == done;
    while r < radius
      invariant r <= radius && AllInRange(done + RadiusCombos(idx1, idx2, r), n, radius)
      invariant emitted == Emit(table, dist, n, radius, done + RadiusCombos(idx1, idx2, r))
      invariant Accumulated(countMode, shingles, shingleDict, emitted)
    {
      RadiusStep(table, dist, n, radius, done, idx1, idx2, r);
      shingles, shingleDict := VisitRadius(table, dist, n, radius, countMode, Combo(idx1, idx2, r), distStr, emitted, shingles, shingleDict);
      emitted := emitted + EmitOne(table, dist, n, radius, Combo(idx1, idx2, r));
      r := r + 1;
    }
  }

  /**
   * The loop over `itertools.combinations(range(num_atoms), 2)`: afterwards
   * the list holds, or in count mode the dictionary tallies, every base
   * shingle in visiting order.
   */
  method VisitPairs(table: EnvTable, dist: seq<seq<nat>>, n: nat, radius: nat, countMode: bool)
    returns (shingles: seq<string>, shingleDict: Counter)
    requires Shaped(table, dist, n, radius)
    ensures Accumulated(countMode, shingles, shingleDict, BaseShingles(table, dist, n, radius))
  {
    shingles := [];
    shingleDict := Counter([], map[]);
    ghost var done: seq<Combo> := [];
    var pairs := Pairs(n);
    forall t | 0 <= t < |pairs|
      ensures pairs[t].0 < pairs[t].1 < n
    {
      PairsMembers(n, pairs[t]);
    }
    var t := 0;
    while t < |pairs|
      invariant t <= |pairs| && done == CombosOf(pairs[..t], radius) && AllInRange(done, n, radius)
      invariant Accumulated(countMode, shingles, shingleDict, Emit(table, dist, n, radius, done))
    {
      var (idx1, idx2) := pairs[t];
      shingles, shingleDict := VisitPair(table, dist, n, radius, countMode, idx1, idx2, done, shingles, shingleDict);
      assert pairs[..t + 1][..t] == pairs[..t];
      done := done + RadiusCombos(idx1, idx2, radius);
      t := t + 1;
    }
    assert pairs[..t] == pairs;
  }

  /** `_get_atom_pair_shingles`, up to the final `encode()`. */
  method GetAtomPairShingles(table: EnvTable, dist: seq<seq<nat>>, n: nat, radius: nat, countMode: bool)
    returns (shingles: seq<string>)
    requires Shaped(table, dist, n, radius)
    ensures shingles == PairShingles(table, dist, n, radius, countMode)
  {
    var shingleDict;
    shingles, shingleDict := VisitPairs(table, dist, n, radius, countMode);
    if countMode {
      ItemsOfTally(BaseShingles(table, dist, n, radius));
      shingles := shingles + Items(shingleDict);
    }
  }
}
