/**
 * `FingerprintTransformer`: input validation, which converts SMILES strings in
 * place, and `transform`, which runs the fingerprint function on the whole
 * input or on consecutive batches and concatenates the results.
 */
module Transformer {
  import opened Wrappers
  import opened Seqs
  import opened Batching

  /** An element of `X`: an RDKit `Mol`, a `str`, or any other value (`None` included). */
  datatype Item<M> = MolItem(mol: M) | SmilesItem(smiles: string) | OtherItem

  datatype TransformError =
    | /** `ValueError("Passed value is neither rdkit.Chem.rdChem.Mol nor SMILES")`. */
      NeitherMolNorSmiles
    | /** `np.concatenate([])` raises `ValueError`. */
      NothingToConcatenate

  /** The index of the first element that is neither a `Mol` nor a `str`, or `|xs|` when there is none. */
  function FirstOther<M>(xs: seq<Item<M>>): (i: nat)
    ensures i <= |xs|
    ensures forall k :: 0 <= k < i ==> !xs[k].OtherItem?
    ensures i < |xs| ==> xs[i].OtherItem?
  {
    if xs == [] then 0
    else if xs[0].OtherItem? then 0
    else 1 + FirstOther(xs[1..])
  }

  /** `X[i] = MolFromSmiles(molecule)` for a string; a failed parse stores `None`. */
  function Converted<M>(parse: string -> Option<M>, x: Item<M>): (y: Item<M>)
    ensures !x.SmilesItem? ==> y == x
    ensures x.SmilesItem? ==> (y.MolItem? <==> parse(x.smiles).Some?)
    ensures x.SmilesItem? && y.MolItem? ==> parse(x.smiles) == Some(y.mol)
    ensures x.SmilesItem? && parse(x.smiles).None? ==> y == OtherItem
  {
    match x
    case SmilesItem(s) => (match parse(s) case Some(m) => MolItem(m) case None => OtherItem)
    case _ => x
  }

  /** `X` after the validation loop has handled the elements before index `i`. */
  function ConvertedUpTo<M>(parse: string -> Option<M>, xs: seq<Item<M>>, i: nat): (ys: seq<Item<M>>)
    requires i <= |xs|
    ensures |ys| == |xs|
    ensures forall k :: 0 <= k < |xs| && !xs[k].SmilesItem? ==> ys[k] == xs[k]
    ensures forall k :: i <= k < |xs| ==> ys[k] == xs[k]
    ensures forall k :: 0 <= k < i && xs[k].SmilesItem? ==> ys[k] == Converted(parse, xs[k])
  {
    seq(|xs|, k requires 0 <= k < |xs| => if k < i then Converted(parse, xs[k]) else xs[k])
  }

  /** Extending the handled prefix by element `i` converts element `i`. */
  lemma ConvertedUpToStep<M>(parse: string -> Option<M>, xs: seq<Item<M>>, i: nat)
    requires i < |xs|
    ensures ConvertedUpTo(parse, xs, i + 1) == ConvertedUpTo(parse, xs, i)[i := Converted(parse, xs[i])]
  {
  }

  /** `X` once `_validate_input` has returned or raised. */
  function Validated<M>(parse: string -> Option<M>, xs: seq<Item<M>>): (ys: seq<Item<M>>)
    ensures |ys| == |xs|
    ensures forall k :: FirstOther(xs) <= k < |xs| ==> ys[k] == xs[k]
  {
    ConvertedUpTo(parse, xs, FirstOther(xs))
  }

  /**
   * `_validate_input` keeps the length of `X`, leaves every `Mol` untouched,
   * replaces every string before the first rejected element by its parse
   * result, and leaves the rejected element and all after it as they were.
   */
  lemma ValidatedSpec<M>(parse: string -> Option<M>, xs: seq<Item<M>>)
    ensures var ys := Validated(parse, xs);
      var bad := FirstOther(xs);
      && |ys| == |xs|
      && (forall k :: 0 <= k < |xs| && xs[k].MolItem? ==> ys[k] == xs[k])
      && (forall k :: 0 <= k < bad && xs[k].SmilesItem? ==>
            && (ys[k].MolItem? <==> parse(xs[k].smiles).Some?)
            && (ys[k].MolItem? ==> parse(xs[k].smiles) == Some(ys[k].mol))
            && (parse(xs[k].smiles).None? ==> ys[k] == OtherItem))
      && (forall k :: bad <= k < |xs| ==> ys[k] == xs[k])
  {
    var ys, bad := Validated(parse, xs), FirstOther(xs);
    forall k | 0 <= k < bad && xs[k].SmilesItem?
      ensures && (ys[k].MolItem? <==> parse(xs[k].smiles).Some?)
              && (ys[k].MolItem? ==> parse(xs[k].smiles) == Some(ys[k].mol))
              && (parse(xs[k].smiles).None? ==> ys[k] == OtherItem)
    {
      assert ys[k] == Converted(parse, xs[k]);
    }
  }

  /** A job count of at least 1, as `effective_n_jobs` returns. */
  type PosNat = n: nat | n >= 1 witness 1

  /** `FingerprintTransformer` with its fingerprint function and the SMILES parser it calls. */
  class FingerprintTransformer<M, R> {
    /** `effective_n_jobs(n_jobs)`, at least 1. */
    const nJobs: PosNat
    /** `MolFromSmiles`. */
    const parse: string -> Option<M>
    /** `_calculate_fingerprint`: one result row per element of its batch. */
    const calculate: seq<Item<M>> -> seq<R>

    constructor (nJobs: PosNat, parse: string -> Option<M>, calculate: seq<Item<M>> -> seq<R>)
      ensures this.nJobs == nJobs && this.parse == parse && this.calculate == calculate
    {
      this.nJobs := nJobs;
      this.parse := parse;
      this.calculate := calculate;
    }

    /** The result of `transform` on an input with elements `xs`. */
    function TransformOf(xs: seq<Item<M>>): (r: Result<seq<R>, TransformError>)
      ensures r == Failure(NeitherMolNorSmiles) <==> FirstOther(xs) < |xs|
      ensures r == Failure(NothingToConcatenate) <==> FirstOther(xs) == |xs| && nJobs != 1 && xs == []
      ensures FirstOther(xs) == |xs| && nJobs == 1 ==> r == Success(calculate(Validated(parse, xs)))
    {
      if FirstOther(xs) < |xs| then Failure(NeitherMolNorSmiles)
      else
        var ys := Validated(parse, xs);
        if nJobs == 1 then Success(calculate(ys))
        else
          var batches := Slices(ys, BatchSize(|ys|, nJobs));
          if batches == [] then Failure(NothingToConcatenate)
          else Success(Flatten(MapBatches(calculate, batches)))
    }

    /** `_validate_input`: `ok` is false where it raises `ValueError`. */
    method ValidateInput(X: array<Item<M>>) returns (ok: bool)
      modifies X
      ensures ok <==> FirstOther(old(X[..])) == X.Length
      ensures X[..] == Validated(parse, old(X[..]))
    {
      ghost var xs := X[..];
      var i := 0;
      while i < X.Length
        invariant i <= X.Length
        invariant forall k :: 0 <= k < i ==> !xs[k].OtherItem?
        invariant X[..] == ConvertedUpTo(parse, xs, i)
      {
        var molecule := X[i];
        if molecule.OtherItem? {
          return false;
        }
        ConvertedUpToStep(parse, xs, i);
        if molecule.SmilesItem? {
          X[i] := Converted(parse, molecule);
        }
        i := i + 1;
      }
      return true;
    }

    /**
     * `transform`: validates `X` in place, then calls the fingerprint function
     * once on all of it when `n_jobs == 1`, and otherwise once per batch,
     * concatenating the results in submission order.
     */
    method Transform(X: array<Item<M>>) returns (r: Result<seq<R>, TransformError>)
      modifies X
      ensures X[..] == Validated(parse, old(X[..]))
      ensures r == TransformOf(old(X[..]))
    {
      ghost var xs := X[..];
      var ok := ValidateInput(X);
      if !ok {
        return Failure(NeitherMolNorSmiles);
      }
      var ys := X[..];
      if nJobs == 1 {
        return Success(calculate(ys));
      }
      var batchSize := BatchSize(X.Length, nJobs);
      var results := RunBatches(X, batchSize);
      if results == [] {
        return Failure(NothingToConcatenate);
      }
      return Success(Flatten(results));
    }

    /**
     * The parallel path: `calculate` on `X[i : i + batch_size]` for every `i`
     * in `range(0, len(X), batch_size)`, the results in submission order.
     */
    method RunBatches(X: array<Item<M>>, batchSize: nat) returns (results: seq<seq<R>>)
      requires batchSize >= 1
      ensures results == MapBatches(calculate, Slices(X[..], batchSize))
    {
      ghost var batches := Slices(X[..], batchSize);
      results := [];
      var i := 0;
      while i < X.Length
        invariant |results| <= |batches|
        invariant i == |results| * batchSize
        invariant results == MapBatches(calculate, batches[..|results|])
      {
        NextSlice(X[..], batchSize, |results|, i);
        MapBatchesStep(calculate, batches, |results|);
        var end := if i + batchSize < X.Length then i + batchSize else X.Length;
        results := results + [calculate(X[i..end])];
        i := i + batchSize;
      }
      NoMoreSlices(X.Length, batchSize, |results|);
      assert batches[..|results|] == batches;
    }
  }

  /**
   * When the fingerprint function works row by row, every `n_jobs` gives the
   * result of the sequential path, except that no rows at all cannot be
   * concatenated on the parallel path.
   */
  lemma ParallelMatchesSequential<M(!new), R>(t: FingerprintTransformer<M, R>, xs: seq<Item<M>>)
    requires RowWise(t.calculate)
    requires FirstOther(xs) == |xs| && (xs != [] || t.nJobs == 1)
    ensures t.TransformOf(xs) == Success(t.calculate(Validated(t.parse, xs)))
  {
    var ys := Validated(t.parse, xs);
    if t.nJobs != 1 {
      var b := BatchSize(|ys|, t.nJobs);
      var batches := Slices(ys, b);
      forall k | 0 <= k < |batches|
        ensures batches[k] != []
      {
        SliceShape(ys, b, k);
      }
      MapBatchesConcat(t.calculate, batches);
      SlicesConcat(ys, b);
    }
  }
}
