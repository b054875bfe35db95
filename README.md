# MAP fingerprint and batch transformer, modelled in Dafny

This project models two parts of scikit-fingerprints and proves properties of
them.

- **The MinHashed Atom Pair (MAP) fingerprint** (`skfp/fingerprints/map.py`).
  - For every atom it finds the canonical SMILES of the atom's environment at
    radius 1 .. `radius`.
  - For every atom pair i < j and every radius where both environments exist,
    it builds a shingle `"a|dist|b"` from the two environments, sorted.
  - In `count` mode it aggregates duplicate shingles into `"shingle|n"`.
  - It hashes every shingle to an unsigned 32-bit value, using the first four
    SHA-1 digest bytes read little-endian.
  - It folds the hashes modulo `fp_size` into a histogram. The `bit` variant
    clips that histogram to {0, 1} and the `count` variant keeps it.
- **`FingerprintTransformer`** (`base.py`).
  - `_validate_input` rejects the first element that is neither a `Mol` nor a
    `str`. It replaces strings in place by their parse result.
  - `transform` calls the fingerprint function once when `n_jobs == 1`.
    Otherwise it cuts `X` into slices of `max(len(X) // n_jobs, 1)` elements,
    calls the function on each slice and concatenates the results in
    submission order.

## Modules

- `Wrappers` holds `Option` and `Result`.
- `Text` holds `str()` of a natural number and Python's string order `<`, as
  used by `sorted()`.
- `Seqs` holds counting, distinct elements in order of first occurrence, sums,
  concatenation and mapping.
- `Hashing` holds little-endian packing and unpacking, and `_get_hash`.
- `Folding` holds the `bincount` histogram and the `bit` and `count` casts.
- `Chem` holds the RDKit calls, taken as given functions in one `Toolkit`
  value.
- `Neighborhoods` holds `_find_neighborhood` and `_get_atom_envs`: a function
  and the loop proved equal to it.
- `Shingles` holds `_get_atom_pair_shingles`.
  - A specification gives the combinations visited, in order, and the
    shingles they yield.
  - It models the `shingle_dict` counter.
  - The method runs the loops over `itertools.combinations` and
    `range(self.radius)`, and is proved equal to the specification.
- `MapFingerprint` holds the parameter constraints,
  `_calculate_single_mol_fingerprint` and `_calculate_fingerprint`.
- `Batching` holds the batch size, the slices and the reassembly.
- `Transformer` holds the `FingerprintTransformer` class: `nJobs`, the SMILES
  parser and the fingerprint function as constant fields, and
  `ValidateInput`, `Transform` and `RunBatches` acting on an
  `array<Item<M>>`.

Observations about the code that the model makes explicit:

- An environment is skipped when it is `None` *or the empty string*, because
  the test at `skfp/fingerprints/map.py:244` is Python truthiness.
- `base.py` has no `batch_size` option. The slice length is always
  `max(len(X) // n_jobs, 1)`, so there can be up to `2 * n_jobs - 1` slices
  (`Batching.BatchCount`). This is unlike the `batch_size=None` behaviour
  that the `MAPFingerprint` docstring describes for its own base class
  (`skfp/fingerprints/map.py:65-67`: as many equal parts as `n_jobs`).
- In `count` mode the shingles are aggregated before hashing, so a `count` row
  adds up to the number of *distinct* shingles. That is, it does not add up to
  the number of (pair, radius) combinations that yield one
  (`MapFingerprint.CountRowSumIsDistinctShingles`). The counts `n` inside the
  aggregated shingles do add up to that number (`Shingles.AggregateCountsSum`).
- A `bit` row has one set entry per hash bucket hit, not one per distinct
  shingle. Shingles whose hashes collide modulo `fp_size` share a bit
  (`MapFingerprint.BitRow`).
- `_validate_input` converts strings in place while it walks `X`. When it
  raises, the strings before the rejected element have already been replaced
  in the caller's array (`Transformer.FingerprintTransformer.ValidateInput`).
- The parallel path is guaranteed to yield the sequential result when the
  fingerprint function works row by row. An empty `X` makes
  `np.concatenate([])` raise on that path (`Transformer.ParallelMatchesSequential`,
  `Transformer.FingerprintTransformer.TransformOf`).

## Model

| member | source | states |
|---|---|---|
| MapFingerprint.ParseVariant | skfp/fingerprints/map.py:118 | the variant is accepted exactly when it is "bit", "count" or "raw_hashes", and "bit" and "count" are told apart |
| MapFingerprint.ValidateParams | skfp/fingerprints/map.py:114-119 | validation succeeds iff fp_size >= 1, radius >= 0 and the variant is one of the three names; the config then carries those values, and each failure names the first violated constraint |
| Neighborhoods.FindNeighborhood | skfp/fingerprints/map.py:189-215 | the result is None iff the environment search fails or the atom is missing from the submol atom map; otherwise it is the SMILES of the submol rooted at the mapped atom |
| Neighborhoods.EnvRow | skfp/fingerprints/map.py:182-184 | an atom's row has exactly `radius` entries |
| Neighborhoods.GetOrEmpty | skfp/fingerprints/map.py:179 | reading the defaultdict yields the stored list, or the empty list for a missing atom |
| Neighborhoods.AtomEnvs | skfp/fingerprints/map.py:175-187 | the table's keys are exactly the atoms 0 .. n-1, each with `radius` entries, and entry r is the neighborhood of radius r + 1 |
| Neighborhoods.GetAtomEnvs | skfp/fingerprints/map.py:175-187 | the loop over the atoms builds exactly the table `AtomEnvs` describes |
| Text.NatToString | skfp/fingerprints/map.py:235 | `str(int(d))` is a non-empty string of decimal digits without a leading zero |
| Text.NatToStringRoundTrip | skfp/fingerprints/map.py:235 | reading the decimal digits back gives the distance |
| Text.NatToStringInjective | skfp/fingerprints/map.py:260 | distinct counts render to distinct strings |
| Text.Less | skfp/fingerprints/map.py:247 | Python's `<` on `str` relates only distinct strings, and a proper prefix comes before the longer string |
| Text.LessIrreflexive | skfp/fingerprints/map.py:247 | Python's string order is irreflexive |
| Text.LessAsymmetric | skfp/fingerprints/map.py:247 | Python's string order is asymmetric |
| Text.LessConnected | skfp/fingerprints/map.py:247 | any two distinct strings are ordered one way or the other |
| Text.SortPair | skfp/fingerprints/map.py:247 | `sorted([a, b])` is a permutation of (a, b) whose second element is not below its first |
| Text.SortPairSymmetric | skfp/fingerprints/map.py:247 | sorting (a, b) and (b, a) gives the same pair |
| Shingles.Present | skfp/fingerprints/map.py:244 | an environment counts as present unless it is None or "" (its meaning is stated through `Shingles.EmitOne`) |
| Shingles.JoinLayout | skfp/fingerprints/map.py:248 | `f"{a}\|{dist}\|{b}"` holds a, dist and b in that order, separated by two '\|' characters |
| Shingles.ShingleOf | skfp/fingerprints/map.py:247-248 | the shingle joins the two environments in Python string order, with the distance between them |
| Shingles.ShingleSymmetric | skfp/fingerprints/map.py:247-248 | the shingle of two environments does not depend on which atom of the pair comes first |
| Shingles.EmitOne | skfp/fingerprints/map.py:243-248 | a combination yields at most one shingle, and none exactly when either environment is None or "" |
| Shingles.EmitOnePresent | skfp/fingerprints/map.py:243-248 | when both environments are present, the combination yields exactly the shingle the loop body builds |
| Shingles.PairsMembers | skfp/fingerprints/map.py:233 | `combinations(range(n), 2)` yields exactly the pairs i < j < n |
| Shingles.PairsUpToSorted | skfp/fingerprints/map.py:233 | the pairs come in increasing order of i, then j |
| Shingles.PairsUpToMembers | skfp/fingerprints/map.py:233 | the pairs whose first atom is below a bound are exactly the pairs i < j < n with i below it |
| Shingles.RadiusCombos | skfp/fingerprints/map.py:239 | `range(self.radius)` visits `radius` combinations for a pair |
| Shingles.CombosOfMembers | skfp/fingerprints/map.py:233-239 | for a list of pairs, the loops visit exactly the combinations of a listed pair with a radius index below `radius` |
| Shingles.CombosOfSorted | skfp/fingerprints/map.py:233-239 | for pairs in increasing order, the visited combinations are in strictly increasing order |
| Shingles.Combinations | skfp/fingerprints/map.py:233-239 | every visited combination has atoms below n and a radius index below `radius` |
| Shingles.CombinationsMembers | skfp/fingerprints/map.py:233-239 | the loops visit exactly the combinations with i < j < n and radius index below `radius` |
| Shingles.CombinationsSorted | skfp/fingerprints/map.py:233-239 | the loops visit the combinations in strictly increasing order of i, then j, then radius |
| Shingles.YieldingCombos | skfp/fingerprints/map.py:243-245 | the kept combinations are in range, every one of them yields a shingle, and there are no more of them than visited combinations |
| Shingles.YieldingCombosMembers | skfp/fingerprints/map.py:243-245 | a combination is kept iff it is visited and both its environments are present |
| Shingles.YieldingCombosSorted | skfp/fingerprints/map.py:243-245 | filtering keeps the visiting order |
| Shingles.EmitRendersYielding | skfp/fingerprints/map.py:243-253 | the emitted shingles correspond one to one, in order, to the kept combinations |
| Shingles.BaseShinglesSpec | skfp/fingerprints/map.py:233-253 | outside count mode the output has one shingle per pair i < j and radius with both environments present, in order of i, then j, then radius, with duplicates kept |
| Shingles.PairShingles | skfp/fingerprints/map.py:217-263 | in count mode the output has one duplicate-free entry per distinct base shingle; otherwise one shingle per combination that yields one |
| Shingles.WithCount | skfp/fingerprints/map.py:260 | `f"{shingle}\|{shingle_count}"` determines both parts (stated through `Shingles.LastBar` and `Shingles.WithCountInjective`) |
| Shingles.LastBar | skfp/fingerprints/map.py:260 | the '\|' before the count is the last '\|' of the entry |
| Shingles.Aggregate | skfp/fingerprints/map.py:255-263 | count mode emits one entry per distinct base shingle, in order of first occurrence, each suffixed with its number of occurrences n >= 1 |
| Shingles.AggregateCountsSum | skfp/fingerprints/map.py:255-263 | the counts n add up to the number of base shingles, that is, of combinations that yield one |
| Shingles.AggregateNoDuplicates | skfp/fingerprints/map.py:259-262 | no two count-mode entries are equal |
| Shingles.WithCountInjective | skfp/fingerprints/map.py:260 | the entry "shingle\|n" determines both the shingle and n |
| Shingles.Increment | skfp/fingerprints/map.py:251 | `shingle_dict[shingle] += 1` sets the key to its old value, or 0, plus one; a new key joins the end of the key order, and every other key and value is unchanged |
| Seqs.DistinctFirstOccurrenceOrder | skfp/fingerprints/map.py:251-261 | the distinct shingles are listed in order of their first occurrence, the insertion order of the `shingle_dict` keys that `items()` walks |
| Shingles.TallyOfTallies | skfp/fingerprints/map.py:226-251 | after the loops, the dictionary keys are the distinct shingles in insertion order and each value is the shingle's number of occurrences |
| Shingles.Items | skfp/fingerprints/map.py:259-262 | the items list has one entry per dictionary key, in key order, each the key followed by its value |
| Shingles.ItemsOfTally | skfp/fingerprints/map.py:259-262 | listing the dictionary's items gives the count-mode output |
| Shingles.AccumulateOne | skfp/fingerprints/map.py:250-253 | appending the shingle, or counting it in count mode, records one more emitted shingle |
| Shingles.EmitStep | skfp/fingerprints/map.py:239-253 | visiting one more combination appends exactly that combination's output to the output so far |
| Shingles.RadiusStep | skfp/fingerprints/map.py:239-253 | one more pass of the radius loop appends the output of the combination at that radius |
| Shingles.VisitRadius | skfp/fingerprints/map.py:240-253 | one pass of the radius loop adds exactly the combination's output to the list or the dictionary |
| Shingles.VisitPair | skfp/fingerprints/map.py:235-253 | the radius loop for one pair adds the output of every radius of that pair, in order |
| Shingles.VisitPairs | skfp/fingerprints/map.py:233-253 | after the loop over all atom pairs, the list holds, or in count mode the dictionary tallies, every base shingle in visiting order |
| Shingles.GetAtomPairShingles | skfp/fingerprints/map.py:217-268 | the loops return exactly the specified output: the base shingles, or their aggregation in count mode |
| Hashing.UnpackLE | skfp/fingerprints/map.py:272 | a little-endian number read from k bytes is below 256^k |
| Hashing.PackLE | skfp/fingerprints/map.py:272 | packing into k bytes gives k bytes |
| Hashing.UnpackPack | skfp/fingerprints/map.py:272 | reading back a packed value below 256^k gives the value |
| Hashing.PackUnpack | skfp/fingerprints/map.py:272 | packing a read value gives the bytes back |
| Hashing.UnpackUint32 | skfp/fingerprints/map.py:272 | `struct.unpack("<I", b)` is below 2^32 and its little-endian bytes are `b` |
| Hashing.GetHash | skfp/fingerprints/map.py:270-273 | the hash is below 2^32 and its four little-endian bytes are the first four bytes of the digest |
| MapFingerprint.Hashes | skfp/fingerprints/map.py:169 | one hash per shingle, each below 2^32 and decoding the first four digest bytes |
| Folding.Buckets | skfp/fingerprints/map.py:170 | one bucket per hash, every bucket below fp_size |
| Folding.Histogram | skfp/fingerprints/map.py:171 | `bincount(bits, minlength=fp_size)` has fp_size entries |
| Folding.HistogramCounts | skfp/fingerprints/map.py:171 | entry k of the histogram is the number of bucket indices equal to k |
| Folding.HistogramSum | skfp/fingerprints/map.py:171 | the histogram entries add up to the number of bucket indices |
| Folding.Fold | skfp/fingerprints/map.py:169-171 | the folded vector has length fp_size |
| Folding.FoldCounts | skfp/fingerprints/map.py:169-171 | entry k counts the hashes equal to k modulo fp_size, and the entries add up to the number of hashes |
| Folding.ToBits | skfp/fingerprints/map.py:153 | `(X > 0).astype(uint8)` keeps the length, and each entry is 1 iff the count is positive and 0 otherwise |
| Folding.ToUint32 | skfp/fingerprints/map.py:155 | `astype(uint32)` keeps the length, and every entry is below 2^32 and unchanged when it already was |
| Folding.BitSetIffSomeHashHits | skfp/fingerprints/map.py:152-153 | a bit is set exactly when some hash falls into its bucket |
| Folding.CountVectorSum | skfp/fingerprints/map.py:154-155 | below 2^32 hashes the count cast changes nothing, and the count vector adds up to the number of hashes |
| MapFingerprint.MolShingles | skfp/fingerprints/map.py:160-161 | the shingles of a molecule; in count mode no two are equal |
| MapFingerprint.SingleMolFingerprint | skfp/fingerprints/map.py:159-173 | a folded fingerprint has fp_size entries that add up to the number of shingles |
| MapFingerprint.CalculateSingleMolFingerprint | skfp/fingerprints/map.py:159-173 | running the environment and shingle loops gives exactly the specified single-molecule fingerprint |
| MapFingerprint.CastRow | skfp/fingerprints/map.py:152-155 | the cast keeps the length; `bit` maps every entry to 1 if positive and 0 otherwise, `count` gives entries below 2^32 and keeps smaller ones, and `raw_hashes` changes nothing |
| MapFingerprint.Rows | skfp/fingerprints/map.py:148-150 | the list comprehension gives one row per molecule |
| MapFingerprint.RowsAt | skfp/fingerprints/map.py:148-150 | row i of the stacked array is the fingerprint of molecule i |
| MapFingerprint.CalculateFingerprint | skfp/fingerprints/map.py:144-157 | it fails iff there are no molecules (`np.stack` of nothing) and otherwise has one row per molecule |
| MapFingerprint.BitRow | skfp/fingerprints/map.py:148-153 | a bit row has fp_size entries in {0, 1}, entry k being 1 iff some shingle hashes to k modulo fp_size |
| MapFingerprint.CountRow | skfp/fingerprints/map.py:148-155 | for a molecule with fewer than 2^32 shingles, a count row has fp_size entries; entry k counts the shingles hashing to k, and the entries add up to the number of shingles |
| MapFingerprint.CountRowSumIsDistinctShingles | skfp/fingerprints/map.py:154-171 | for a molecule with fewer than 2^32 shingles, a count-mode row adds up to the number of distinct base shingles of the molecule |
| MapFingerprint.CalculateFingerprintRowWise | skfp/fingerprints/map.py:147-150 | the rows of two non-empty batches, stacked, are the rows of the joined batch |
| Transformer.FingerprintTransformer.constructor | base.py:16-17 | the transformer keeps the given job count of at least 1 |
| Transformer.FirstOther | base.py:32-36 | the index where validation raises: every earlier element is a Mol or a str, and the element there is neither |
| Transformer.Converted | base.py:37-38 | a string becomes its parse result (a Mol, or None when parsing fails), and anything else is unchanged |
| Transformer.ConvertedUpTo | base.py:32-38 | after handling a prefix, the length is kept, non-strings are untouched, strings in the prefix are converted and the rest are as they were |
| Transformer.ConvertedUpToStep | base.py:37-38 | handling element i converts element i and changes nothing else |
| Transformer.Validated | base.py:31-39 | `X` after validation has its length, and is unchanged from the first rejected element on (the rest is stated by `Transformer.ValidatedSpec`) |
| Transformer.ValidatedSpec | base.py:31-39 | validation keeps the length and every Mol, and it converts every string before the first rejected element (a failed parse storing None), leaving that element and all after it as they were |
| Transformer.FingerprintTransformer.ValidateInput | base.py:31-39 | it reports failure iff some element is neither Mol nor str, and leaves X converted up to that element |
| Transformer.FingerprintTransformer.TransformOf | base.py:47-69 | it fails with the validation error iff an element is neither Mol nor str, and with the concatenation error iff X is empty on the parallel path; with n_jobs == 1 it is the fingerprint function called once on the whole validated X |
| Transformer.FingerprintTransformer.Transform | base.py:47-69 | transform validates X in place and returns the specified result |
| Transformer.FingerprintTransformer.RunBatches | base.py:57-67 | the parallel loop calls the fingerprint function on every slice and keeps the results in submission order |
| Batching.BatchSize | base.py:57 | the batch size is at least 1; it is the floor of len / n_jobs when len >= n_jobs, and 1 otherwise |
| Batching.BatchCount | base.py:57-61 | with len >= n_jobs there are between n_jobs and 2 n_jobs - 1 slices, and with fewer elements one slice per element |
| Batching.NumSlices | base.py:60 | `range(0, len, b)` has ceil(len / b) elements, and none iff len is 0 |
| Batching.SliceIndexBound | base.py:60 | slice k exists iff its start k * b lies inside X |
| Batching.Slices | base.py:59-61 | there are ceil(len / b) slices, and none iff X is empty |
| Batching.SliceShape | base.py:59-61 | slice k starts at k * b inside X, is non-empty, at most b long, exactly b long unless it is the last, and holds the elements from k * b on |
| Batching.PySlice | base.py:60 | `xs[lo : hi]` holds the elements from lo on, clamped at the end of xs, and is empty when hi <= lo |
| Batching.NextSlice | base.py:60 | `X[i : i + b]` with i = k b inside X is slice k, clamped at the end of X, and the next start is (k + 1) b |
| Batching.NoMoreSlices | base.py:60 | once the start k b reaches the end of X, all slices have been taken |
| Batching.SlicesPrefix | base.py:59-61 | the first k slices, concatenated, are X up to where slice k - 1 ends |
| Batching.SlicesConcat | base.py:59-69 | concatenating the slices in submission order gives back X exactly |
| Batching.MapBatches | base.py:63-67 | the executor returns one result per slice |
| Batching.MapBatchesStep | base.py:64-67 | submitting one more slice appends its result after the earlier ones |
| Batching.MapBatchesConcat | base.py:63-69 | for a row-wise function, concatenating its results on non-empty slices is the function applied to their concatenation |
| Transformer.ParallelMatchesSequential | base.py:54-69 | for a row-wise fingerprint function and valid input, the parallel path gives the sequential result for every n_jobs, except for an empty X |

## Left out

- RDKit is not modelled. `GetAtoms`/`GetNumAtoms`, `FindAtomEnvironmentOfRadiusN`, `PathToSubmol`, `MolToSmiles`, `GetDistanceMatrix` and `MolFromSmiles` are given functions; the only thing assumed about them is that the distance matrix is n-by-n for n atoms.
- The floating-point distance matrix is not modelled. Distances are natural numbers already truncated by `int()`.
- SHA-1 and `str.encode()` are one given function from a shingle to 20 digest bytes. Only the `<I` unpack of its first four bytes is modelled.
- MapFingerprint.SingleMolFingerprint: for the `raw_hashes` variant it calls a given MinHash function of (fp_size, seed, shingles), and nothing is claimed about the digest. datasketch's MinHash is outside this model.
- The `sparse` option (`csr_array`) is not modelled. It holds the same values in another representation.
- numpy dtypes are not modelled beyond the value ranges of the casts.
- joblib and loky dispatch are modelled as an order-preserving map executed in submission order. Process isolation and worker failures are not modelled.
- `effective_n_jobs` is not modelled. The constructor takes its result, which is at least 1.
- Transformer.Item: a value's kind is Mol, str or anything else. The distinction between `isinstance` for `Mol` and an exact `type(...) == str` test for strings (so `str` subclasses are rejected) is not modelled.
- A pandas DataFrame input is not modelled. `X` is a one-dimensional array.
- `ensure_mols` in `_calculate_fingerprint` is not modelled. Molecules reach `CalculateFingerprint` already parsed.
- `fit` and `fit_transform` do nothing in `base.py` and are not modelled.
- Transformer.FingerprintTransformer.TransformOf: `calculate` is generic, and the link to `MapFingerprint.CalculateFingerprint` is not modelled. `base.py`'s class is not the base class of `MAPFingerprint` in this repository. The MAP row-wise property is proved on its own (`MapFingerprint.CalculateFingerprintRowWise`).
- `tests/filters/faf4_druglike.py` and `skfp/preprocessing/__init__.py` are not part of this model: the first tests descriptor filters and the second only re-exports names.
