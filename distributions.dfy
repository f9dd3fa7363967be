/** `calculate_probability_distributions` of the KL and similarity-matrix
    scripts: the probability rows become a nested map
    block id -> type -> assembly -> probability. */
module Distributions {
  import opened Wrappers
  import opened Dicts
  import opened Counting

  /** The columns of a probability row that the builder reads. */
  datatype ProbabilityRow = ProbabilityRow(blockId: string, kind: string, assembly: string, probability: real)

  type Distribution = Dict<string, real>
  type TypeDistributions = Dict<string, Distribution>
  type Blocks = Dict<string, TypeDistributions>

  /** One row: the block's and the type's maps are created on first sight,
      then the assembly's probability is set, so a later row with the same
      block, type and assembly overwrites an earlier one. */
  function AddRow(d: Blocks, row: ProbabilityRow): Blocks {
    var types := d.GetOr(row.blockId, Empty());
    var probabilities := types.GetOr(row.kind, Empty());
    d.Put(row.blockId, types.Put(row.kind, probabilities.Put(row.assembly, row.probability)))
  }

  function Build(rows: seq<ProbabilityRow>): Blocks {
    if rows == [] then Empty() else AddRow(Build(rows[..|rows| - 1]), rows[|rows| - 1])
  }

  method CalculateProbabilityDistributions(rows: seq<ProbabilityRow>) returns (d: Blocks)
    ensures d == Build(rows)
  {
    d := Empty();
    var i := 0;
    while i < |rows|
      invariant 0 <= i <= |rows|
      invariant d == Build(rows[..i])
    {
      assert rows[..i + 1][..i] == rows[..i];
      d := StoreProbability(d, rows[i]);
      i := i + 1;
    }
    assert rows[..i] == rows;
  }

  /** The loop body: the block's and the type's maps are created when
      missing, then the probability is stored. */
  method StoreProbability(before: Blocks, row: ProbabilityRow) returns (d: Blocks)
    ensures d == AddRow(before, row)
  {
    d := before;
    var blockId, variableType := row.blockId, row.kind;
    if blockId !in d.entries {
      d := d.Put(blockId, Empty());
    }
    if variableType !in d.entries[blockId].entries {
      d := d.Put(blockId, d.entries[blockId].Put(variableType, Empty()));
    }
    ghost var types := before.GetOr(blockId, Empty());
    ghost var probabilities := types.GetOr(variableType, Empty()).Put(row.assembly, row.probability);
    PutPut(types, variableType, Empty(), probabilities);
    PutPut(before, blockId, Empty(), types.Put(variableType, Empty()));
    PutPut(before, blockId, types.Put(variableType, Empty()), types.Put(variableType, probabilities));
    PutPut(before, blockId, Empty(), types.Put(variableType, probabilities));
    d := d.Put(blockId, d.entries[blockId].Put(variableType, d.entries[blockId].entries[variableType].Put(row.assembly, row.probability)));
  }

  // ---------------------------------------------------------------------
  // Reference definitions

  /** The stored probability, if there is one. */
  function Lookup(d: Blocks, blockId: string, kind: string, assembly: string): Option<real> {
    if blockId in d.entries && kind in d.entries[blockId].entries && assembly in d.entries[blockId].entries[kind].entries
    then Some(d.entries[blockId].entries[kind].entries[assembly])
    else None
  }

  /** The probability of the last row with this block, type and assembly. */
  function LastProbability(rows: seq<ProbabilityRow>, blockId: string, kind: string, assembly: string): Option<real> {
    if rows == [] then None
    else
      var row := rows[|rows| - 1];
      if row.blockId == blockId && row.kind == kind && row.assembly == assembly then Some(row.probability)
      else LastProbability(rows[..|rows| - 1], blockId, kind, assembly)
  }

  function BlockIdsOf(rows: seq<ProbabilityRow>): (ids: seq<string>)
    ensures |ids| == |rows|
    ensures forall i :: 0 <= i < |rows| ==> ids[i] == rows[i].blockId
  {
    if rows == [] then [] else BlockIdsOf(rows[..|rows| - 1]) + [rows[|rows| - 1].blockId]
  }

  /** Every level of the nested map is a well-formed dict. */
  ghost predicate WellFormed(d: Blocks) {
    && d.Valid()
    && (forall b :: b in d.entries ==> d.entries[b].Valid())
    && (forall b, t :: b in d.entries && t in d.entries[b].entries ==> d.entries[b].entries[t].Valid())
  }

  // ---------------------------------------------------------------------
  // Properties

  /** One row keeps every level well formed and puts a new block last. */
  lemma AddRowWellFormed(d: Blocks, row: ProbabilityRow)
    requires WellFormed(d)
    ensures WellFormed(AddRow(d, row))
    ensures row.blockId in d.entries ==> AddRow(d, row).keys == d.keys
    ensures row.blockId !in d.entries ==> AddRow(d, row).keys == d.keys + [row.blockId]
  {
    var types := d.GetOr(row.blockId, Empty());
    assert types.Valid();
    var probabilities := types.GetOr(row.kind, Empty());
    assert probabilities.Valid();
    var d' := AddRow(d, row);
    var inner := types.Put(row.kind, probabilities.Put(row.assembly, row.probability));
    assert d'.entries == d.entries[row.blockId := inner];
    forall b, t | b in d'.entries && t in d'.entries[b].entries
      ensures d'.entries[b].entries[t].Valid()
    {
      if b != row.blockId {
        assert d'.entries[b] == d.entries[b];
      } else if t != row.kind {
        assert d'.entries[b].entries[t] == types.entries[t];
      }
    }
  }

  /** One row sets its own entry and leaves every other one as it was. */
  lemma AddRowLookup(d: Blocks, row: ProbabilityRow, b: string, t: string, a: string)
    ensures Lookup(AddRow(d, row), b, t, a)
      == (if b == row.blockId && t == row.kind && a == row.assembly then Some(row.probability) else Lookup(d, b, t, a))
    ensures (b in AddRow(d, row).entries && t in AddRow(d, row).entries[b].entries)
      == ((b in d.entries && t in d.entries[b].entries) || (b == row.blockId && t == row.kind))
  {
    if b != row.blockId {
      OtherBlockUnchanged(d, row, b);
    } else if t == row.kind {
      SameTypeLookup(d, row, a);
    } else {
      OtherTypeLookup(d, row, t, a);
    }
  }

  lemma SameTypeLookup(d: Blocks, row: ProbabilityRow, a: string)
    ensures Lookup(AddRow(d, row), row.blockId, row.kind, a)
      == (if a == row.assembly then Some(row.probability) else Lookup(d, row.blockId, row.kind, a))
  {
    var types := d.GetOr(row.blockId, Empty());
    var probabilities := types.GetOr(row.kind, Empty());
    var d' := AddRow(d, row);
    assert d'.entries[row.blockId].entries[row.kind] == probabilities.Put(row.assembly, row.probability);
    assert Lookup(d, row.blockId, row.kind, a)
        == if a in probabilities.entries then Some(probabilities.entries[a]) else None;
  }

  lemma OtherTypeLookup(d: Blocks, row: ProbabilityRow, t: string, a: string)
    requires t != row.kind
    ensures Lookup(AddRow(d, row), row.blockId, t, a) == Lookup(d, row.blockId, t, a)
    ensures t in AddRow(d, row).entries[row.blockId].entries <==> row.blockId in d.entries && t in d.entries[row.blockId].entries
  {
    var types := d.GetOr(row.blockId, Empty());
    var d' := AddRow(d, row);
    assert d'.entries[row.blockId].entries == types.entries[row.kind := types.GetOr(row.kind, Empty()).Put(row.assembly, row.probability)];
    assert t in d'.entries[row.blockId].entries <==> t in types.entries;
    if t in types.entries {
      assert d'.entries[row.blockId].entries[t] == types.entries[t];
    }
  }

  /** A row leaves the other blocks' maps as they were. */
  lemma OtherBlockUnchanged(d: Blocks, row: ProbabilityRow, b: string)
    requires b != row.blockId
    ensures b in AddRow(d, row).entries <==> b in d.entries
    ensures b in d.entries ==> AddRow(d, row).entries[b] == d.entries[b]
  {
  }

  /** A stored probability is the last row's for its block, type and
      assembly; a combination with no row has no entry. The blocks are in
      order of first appearance and every level is well formed. */
  lemma {:induction false} BuildIsLastRowWins(rows: seq<ProbabilityRow>)
    ensures WellFormed(Build(rows))
    ensures Build(rows).keys == Distinct(BlockIdsOf(rows))
    ensures forall b, t, a :: Lookup(Build(rows), b, t, a) == LastProbability(rows, b, t, a)
    decreases |rows|
  {
    if rows != [] {
      var init := rows[..|rows| - 1];
      var row := rows[|rows| - 1];
      BuildIsLastRowWins(init);
      AddRowWellFormed(Build(init), row);
      forall b, t, a ensures Lookup(Build(rows), b, t, a) == LastProbability(rows, b, t, a) {
        AddRowLookup(Build(init), row, b, t, a);
      }
      assert BlockIdsOf(rows) == BlockIdsOf(init) + [row.blockId];
      assert BlockIdsOf(rows)[..|rows| - 1] == BlockIdsOf(init);
      DistinctProperties(BlockIdsOf(init));
    }
  }

  predicate HasRow(rows: seq<ProbabilityRow>, b: string, t: string) {
    exists i :: 0 <= i < |rows| && rows[i].blockId == b && rows[i].kind == t
  }

  /** A block has a type map exactly when some row names that block and type. */
  lemma {:induction false} TypesAreThoseOfTheRows(rows: seq<ProbabilityRow>, b: string, t: string)
    ensures (b in Build(rows).entries && t in Build(rows).entries[b].entries) <==> HasRow(rows, b, t)
    decreases |rows|
  {
    if rows != [] {
      var init := rows[..|rows| - 1];
      TypesAreThoseOfTheRows(init, b, t);
      AddRowLookup(Build(init), rows[|rows| - 1], b, t, "");
      HasRowSnoc(rows, b, t);
    }
  }

  lemma HasRowSnoc(rows: seq<ProbabilityRow>, b: string, t: string)
    requires rows != []
    ensures HasRow(rows, b, t) <==>
      HasRow(rows[..|rows| - 1], b, t) || (rows[|rows| - 1].blockId == b && rows[|rows| - 1].kind == t)
  {
    var init := rows[..|rows| - 1];
    if HasRow(init, b, t) {
      var i :| 0 <= i < |init| && init[i].blockId == b && init[i].kind == t;
      assert rows[i] == init[i];
    }
    if HasRow(rows, b, t) {
      var i :| 0 <= i < |rows| && rows[i].blockId == b && rows[i].kind == t;
      if i < |init| {
        assert init[i] == rows[i];
      }
    }
  }
}
