/**
 * `MAPFingerprint`: parameter constraints, the per-molecule fingerprint
 * (environments, shingles, hashing, folding) and the per-variant cast of the
 * stacked rows.
 */
module MapFingerprint {
  import opened Wrappers
  import opened Seqs
  import opened Hashing
  import opened Folding
  import opened Chem
  import opened Neighborhoods
  import opened Shingles

  datatype Variant = BitVariant | CountVariant | RawHashesVariant

  datatype Config = Config(fpSize: nat, radius: nat, variant: Variant, seed: int)

  /** The parameter that violates its constraint, in the order the constraints are listed. */
  datatype ParamError = InvalidFpSize | InvalidRadius | InvalidVariant

  /** `StrOptions({"bit", "count", "raw_hashes"})`. */
  function ParseVariant(s: string): (v: Option<Variant>)
    ensures v.Some? <==> s == "bit" || s == "count" || s == "raw_hashes"
    ensures v == Some(BitVariant) <==> s == "bit"
    ensures v == Some(CountVariant) <==> s == "count"
  {
    if s == "bit" then Some(BitVariant)
    else if s == "count" then Some(CountVariant)
    else if s == "raw_hashes" then Some(RawHashesVariant)
    else None
  }

  /**
   * `_parameter_constraints`: `fp_size` an integer at least 1, `radius` an
   * integer at least 0, `variant` one of the three names.
   */
  function ValidateParams(fpSize: int, radius: int, variant: string, seed: int): (r: Result<Config, ParamError>)
    ensures r.Success? <==> fpSize >= 1 && radius >= 0 && ParseVariant(variant).Some?
    ensures r.Success? ==>
      && r.value.fpSize == fpSize && r.value.radius == radius && r.value.seed == seed
      && Some(r.value.variant) == ParseVariant(variant)
    ensures r == Failure(InvalidFpSize) <==> fpSize < 1
    ensures r == Failure(InvalidRadius) <==> fpSize >= 1 && radius < 0
  {
    if fpSize < 1 then Failure(InvalidFpSize)
    else if radius < 0 then Failure(InvalidRadius)
    else match ParseVariant(variant)
      case None => Failure(InvalidVariant)
      case Some(v) => Success(Config(fpSize, radius, v, seed))
  }

  predicate Valid(cfg: Config) {
    cfg.fpSize >= 1
  }

  /** `MinHash(num_perm, seed).update_batch(shingles).digest()`, taken as given. */
  type MinHasher = (nat, int, seq<string>) -> seq<nat>

  /** `_get_atom_envs` followed by `_get_atom_pair_shingles`. */
  function MolShingles<M(!new), P, S>(tk: Toolkit<M, P, S>, cfg: Config, mol: M): (shingles: seq<string>)
    requires WellFormed(tk)
    ensures cfg.variant == CountVariant ==> NoDuplicates(shingles)
  {
    var n := tk.numAtoms(mol);
    PairShingles(AtomEnvs(tk, mol, cfg.radius), tk.distanceMatrix(mol), n, cfg.radius, cfg.variant == CountVariant)
  }

  /** `[self._get_hash(shingle) for shingle in shingles]`. */
  function Hashes(sha1: Sha1, shingles: seq<string>): (hs: seq<nat>)
    ensures |hs| == |shingles|
    ensures forall t :: 0 <= t < |hs| ==> hs[t] < Two32 && PackLE(hs[t], 4) == sha1(shingles[t])[..4]
  {
    seq(|shingles|, t requires 0 <= t < |shingles| => GetHash(sha1, shingles[t]))
  }

  /** `_calculate_single_mol_fingerprint`. */
  function SingleMolFingerprint<M(!new), P, S>(tk: Toolkit<M, P, S>, sha1: Sha1, minHash: MinHasher, cfg: Config, mol: M): (fp: seq<nat>)
    requires WellFormed(tk) && Valid(cfg)
    ensures cfg.variant != RawHashesVariant ==> |fp| == cfg.fpSize && Sum(fp) == |MolShingles(tk, cfg, mol)|
  {
    var shingles := MolShingles(tk, cfg, mol);
    if cfg.variant == RawHashesVariant then minHash(cfg.fpSize, cfg.seed, shingles)
    else
      var hashes := Hashes(sha1, shingles);
      FoldCounts(hashes, cfg.fpSize, 0);
      Fold(hashes, cfg.fpSize)
  }

  /**
   * `_calculate_single_mol_fingerprint`, running the loops of `_get_atom_envs`
   * and `_get_atom_pair_shingles`.
   */
  method CalculateSingleMolFingerprint<M(!new), P, S>(tk: Toolkit<M, P, S>, sha1: Sha1, minHash: MinHasher, cfg: Config, mol: M)
    returns (fp: seq<nat>)
    requires WellFormed(tk) && Valid(cfg)
    ensures fp == SingleMolFingerprint(tk, sha1, minHash, cfg, mol)
  {
    var atomsEnvs := GetAtomEnvs(tk, mol, cfg.radius);
    var shingles := GetAtomPairShingles(atomsEnvs, tk.distanceMatrix(mol), tk.numAtoms(mol), cfg.radius, cfg.variant == CountVariant);
    if cfg.variant == RawHashesVariant {
      fp := minHash(cfg.fpSize, cfg.seed, shingles);
    } else {
      var hashes := Hashes(sha1, shingles);
      fp := Fold(hashes, cfg.fpSize);
    }
  }

  /** The cast `_calculate_fingerprint` applies to every stacked row. */
  function CastRow(variant: Variant, row: seq<nat>): (r: seq<nat>)
    ensures |r| == |row|
    ensures variant == BitVariant ==> forall k :: 0 <= k < |r| ==> r[k] <= 1 && (r[k] == 1 <==> row[k] > 0)
    ensures variant == CountVariant ==> forall k :: 0 <= k < |r| ==> r[k] < Two32 && (row[k] < Two32 ==> r[k] == row[k])
    ensures variant == RawHashesVariant ==> r == row
  {
    match variant
    case BitVariant => ToBits(row)
    case CountVariant => ToUint32(row)
    case RawHashesVariant => row
  }

  /** The stacked and cast row of one molecule. */
  function Row<M(!new), P, S>(tk: Toolkit<M, P, S>, sha1: Sha1, minHash: MinHasher, cfg: Config, mol: M): seq<nat>
    requires WellFormed(tk) && Valid(cfg)
  {
    CastRow(cfg.variant, SingleMolFingerprint(tk, sha1, minHash, cfg, mol))
  }

  /** `self._calculate_single_mol_fingerprint` followed by the cast, as a function of the molecule. */
  function RowOf<M(!new), P, S>(tk: Toolkit<M, P, S>, sha1: Sha1, minHash: MinHasher, cfg: Config): M --> seq<nat> {
    mol requires WellFormed(tk) && Valid(cfg) => Row(tk, sha1, minHash, cfg, mol)
  }

  /** The rows of `mols`, in order. */
  function Rows<M(!new), P, S>(tk: Toolkit<M, P, S>, sha1: Sha1, minHash: MinHasher, cfg: Config, mols: seq<M>): (rows: seq<seq<nat>>)
    requires WellFormed(tk) && Valid(cfg)
    ensures |rows| == |mols|
  {
    MapSeq(RowOf(tk, sha1, minHash, cfg), mols)
  }

  /** Row `i` of the stacked array is the row of molecule `i`. */
  lemma RowsAt<M(!new), P, S>(tk: Toolkit<M, P, S>, sha1: Sha1, minHash: MinHasher, cfg: Config, mols: seq<M>, i: nat)
    requires WellFormed(tk) && Valid(cfg) && i < |mols|
    ensures Rows(tk, sha1, minHash, cfg, mols)[i] == Row(tk, sha1, minHash, cfg, mols[i])
  {
    MapSeqAt(RowOf(tk, sha1, minHash, cfg), mols, i);
  }

  /** `np.stack` of no rows raises `ValueError`. */
  datatype StackError = NothingToStack

  /** `_calculate_fingerprint` on a batch of molecules, as a dense array. */
  function CalculateFingerprint<M(!new), P, S>(tk: Toolkit<M, P, S>, sha1: Sha1, minHash: MinHasher, cfg: Config, mols: seq<M>)
    : (r: Result<seq<seq<nat>>, StackError>)
    requires WellFormed(tk) && Valid(cfg)
    ensures r.Failure? <==> mols == []
    ensures r.Success? ==> |r.value| == |mols|
  {
    if mols == [] then Failure(NothingToStack) else Success(Rows(tk, sha1, minHash, cfg, mols))
  }

  /**
   * A `bit` row has `fp_size` entries in {0, 1}, entry k being 1 exactly when
   * the hash of some shingle of the molecule is k modulo `fp_size`.
   */
  lemma BitRow<M(!new), P, S>(tk: Toolkit<M, P, S>, sha1: Sha1, minHash: MinHasher, cfg: Config, mols: seq<M>, i: nat, k: nat)
    requires WellFormed(tk) && Valid(cfg) && cfg.variant == BitVariant
    requires i < |mols| && k < cfg.fpSize
    ensures var row := CalculateFingerprint(tk, sha1, minHash, cfg, mols).value[i];
      var shingles := MolShingles(tk, cfg, mols[i]);
      && |row| == cfg.fpSize && row[k] <= 1
      && (row[k] == 1 <==> exists t :: 0 <= t < |shingles| && GetHash(sha1, shingles[t]) % cfg.fpSize == k)
  {
    RowsAt(tk, sha1, minHash, cfg, mols, i);
    var shingles := MolShingles(tk, cfg, mols[i]);
    var hashes := Hashes(sha1, shingles);
    BitSetIffSomeHashHits(hashes, cfg.fpSize, k);
  }

  /**
   * A `count` row holds, at entry k, the number of shingles whose hash is k
   * modulo `fp_size`, and its entries add up to the number of shingles.
   */
  lemma CountRow<M(!new), P, S>(tk: Toolkit<M, P, S>, sha1: Sha1, minHash: MinHasher, cfg: Config, mols: seq<M>, i: nat, k: nat)
    requires WellFormed(tk) && Valid(cfg) && cfg.variant == CountVariant
    requires i < |mols| && k < cfg.fpSize && |MolShingles(tk, cfg, mols[i])| < Two32
    ensures var row := CalculateFingerprint(tk, sha1, minHash, cfg, mols).value[i];
      var hashes := Hashes(sha1, MolShingles(tk, cfg, mols[i]));
      && |row| == cfg.fpSize
      && row[k] == Count(Buckets(hashes, cfg.fpSize), k)
      && Sum(row) == |hashes|
  {
    RowsAt(tk, sha1, minHash, cfg, mols, i);
    var hashes := Hashes(sha1, MolShingles(tk, cfg, mols[i]));
    CountVectorSum(hashes, cfg.fpSize);
    FoldCounts(hashes, cfg.fpSize, k);
  }

  /**
   * In `count` mode the shingles are aggregated before hashing, so a `count`
   * row adds up to the number of distinct base shingles of the molecule, not
   * to the number of (pair, radius) combinations that yield one.
   */
  lemma CountRowSumIsDistinctShingles<M(!new), P, S>(tk: Toolkit<M, P, S>, sha1: Sha1, minHash: MinHasher, cfg: Config, mols: seq<M>, i: nat)
    requires WellFormed(tk) && Valid(cfg) && cfg.variant == CountVariant
    requires i < |mols| && |MolShingles(tk, cfg, mols[i])| < Two32
    ensures var mol := mols[i];
      var n := tk.numAtoms(mol);
      Sum(CalculateFingerprint(tk, sha1, minHash, cfg, mols).value[i])
        == |Distinct(BaseShingles(AtomEnvs(tk, mol, cfg.radius), tk.distanceMatrix(mol), n, cfg.radius))|
  {
    CountRow(tk, sha1, minHash, cfg, mols, i, 0);
  }

  /**
   * The batch computation works row by row: the rows of two non-empty
   * batches, stacked together, are the rows of the joined batch.
   */
  lemma CalculateFingerprintRowWise<M(!new), P, S>(tk: Toolkit<M, P, S>, sha1: Sha1, minHash: MinHasher, cfg: Config, a: seq<M>, b: seq<M>)
    requires WellFormed(tk) && Valid(cfg) && a != [] && b != []
    ensures CalculateFingerprint(tk, sha1, minHash, cfg, a + b)
      == Success(CalculateFingerprint(tk, sha1, minHash, cfg, a).value + CalculateFingerprint(tk, sha1, minHash, cfg, b).value)
  {
    MapSeqAppend(RowOf(tk, sha1, minHash, cfg), a, b);
  }
}
