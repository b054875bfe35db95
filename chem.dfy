/**
 * The chemistry toolkit calls the fingerprint depends on, taken as given
 * functions: `M` is a molecule, `P` a bond path returned by the environment
 * search, `S` a sub-molecule.
 */
module Chem {
  import opened Wrappers

  datatype Toolkit<!M, !P, !S> = Toolkit(
    /** `mol.GetNumAtoms()`; `mol.GetAtoms()` yields the atoms with indices 0 .. n-1 in order. */
    numAtoms: M -> nat,
    /** `FindAtomEnvironmentOfRadiusN(mol, atom, radius)`; `None` when it raises `ValueError`. */
    findEnvironment: (M, nat, nat) -> Option<P>,
    /** `PathToSubmol(mol, path, atomMap=...)`: the sub-molecule and the filled atom map. */
    pathToSubmol: (M, P) -> (S, map<nat, nat>),
    /** `MolToSmiles(sub, rootedAtAtom=root, canonical=True, isomericSmiles=False)`. */
    molToSmiles: (S, nat) -> string,
    /** `GetDistanceMatrix(mol)` with every entry already truncated by `int()`. */
    distanceMatrix: M -> seq<seq<nat>>)

  predicate IsSquare(d: seq<seq<nat>>, n: nat) {
    |d| == n && forall i :: 0 <= i < n ==> |d[i]| == n
  }

  /** The distance matrix of every molecule is n-by-n for its n atoms. */
  ghost predicate WellFormed<M(!new), P, S>(tk: Toolkit<M, P, S>) {
    forall m :: IsSquare(tk.distanceMatrix(m), tk.numAtoms(m))
  }
}
