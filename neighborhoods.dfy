/**
 * `_get_atom_envs` and `_find_neighborhood`: for every atom and every radius
 * 1 .. radius, the canonical SMILES of the atom's radius-hop environment, or
 * `None` when there is none.
 */
module Neighborhoods {
  import opened Wrappers
  import opened Chem

  /** Atom index to its environments, entry `r` holding radius `r + 1`. */
  type EnvTable = map<nat, seq<Option<string>>>

  /** `_find_neighborhood(mol, atom, radius)`. */
  function FindNeighborhood<M, P, S>(tk: Toolkit<M, P, S>, mol: M, atom: nat, radius: nat): (env: Option<string>)
    ensures env.None? <==>
      || tk.findEnvironment(mol, atom, radius).None?
      || atom !in tk.pathToSubmol(mol, tk.findEnvironment(mol, atom, radius).value).1
    ensures env.Some? ==>
      var (sub, atomMap) := tk.pathToSubmol(mol, tk.findEnvironment(mol, atom, radius).value);
      env.value == tk.molToSmiles(sub, atomMap[atom])
  {
    match tk.findEnvironment(mol, atom, radius)
    case None => None
    case Some(path) =>
      var (sub, atomMap) := tk.pathToSubmol(mol, path);
      if atom in atomMap then Some(tk.molToSmiles(sub, atomMap[atom])) else None
  }

  /** `[self._find_neighborhood(mol, idx, r) for r in range(1, self.radius + 1)]`. */
  function EnvRow<M, P, S>(tk: Toolkit<M, P, S>, mol: M, atom: nat, radius: nat): (row: seq<Option<string>>)
    ensures |row| == radius
  {
    seq(radius, r requires 0 <= r < radius => FindNeighborhood(tk, mol, atom, r + 1))
  }

  /** The keys are exactly the atom indices 0 .. n-1 and every entry has `radius` environments. */
  ghost predicate HasShape(table: EnvTable, n: nat, radius: nat) {
    && (forall i: nat :: i in table <==> i < n)
    && (forall i :: i in table ==> |table[i]| == radius)
  }

  /** Lookup in a `defaultdict(list)`: a missing key reads as the empty list. */
  function GetOrEmpty(table: EnvTable, atom: nat): (row: seq<Option<string>>)
    ensures atom !in table ==> row == []
    ensures atom in table ==> row == table[atom]
  {
    if atom in table then table[atom] else []
  }

  /** The table `_get_atom_envs` builds. */
  function AtomEnvs<M, P, S>(tk: Toolkit<M, P, S>, mol: M, radius: nat): (table: EnvTable)
    ensures HasShape(table, tk.numAtoms(mol), radius)
    ensures forall i, r :: i in table && 0 <= r < radius ==> table[i][r] == FindNeighborhood(tk, mol, i, r + 1)
  {
    map i: nat | i < tk.numAtoms(mol) :: EnvRow(tk, mol, i, radius)
  }

  /**
   * `_get_atom_envs`: walks the atoms in index order and extends each atom's
   * entry of a `defaultdict(list)` with its row of environments.
   */
  method GetAtomEnvs<M, P, S>(tk: Toolkit<M, P, S>, mol: M, radius: nat) returns (atomsEnv: EnvTable)
    ensures atomsEnv == AtomEnvs(tk, mol, radius)
  {
    var n := tk.numAtoms(mol);
    atomsEnv := map[];
    var idx := 0;
    while idx < n
      invariant idx <= n
      invariant atomsEnv == map i: nat | i < idx :: EnvRow(tk, mol, i, radius)
    {
      var atomEnvs := EnvRow(tk, mol, idx, radius);
      var current := GetOrEmpty(atomsEnv, idx);
      atomsEnv := atomsEnv[idx := current + atomEnvs];
      ghost var next := map i: nat | i < idx + 1 :: EnvRow(tk, mol, i, radius);
      assert current + atomEnvs == atomEnvs;
      assert atomsEnv.Keys == next.Keys;
      assert forall i :: i in next ==> atomsEnv[i] == next[i];
      idx := idx + 1;
    }
  }
}
