/** The data side of the entropy plots (`entropy_visualization.py`): the rows
    of one block are sorted into three buckets by type, and each bucket is
    numbered from 1 for plotting. The thresholds drawn on the plots come from
    the statistics in module Thresholds. */
module EntropyVisualization {
  import opened Dicts
  import opened Grouping
  import opened Thresholds

  const InstructionType: string := "Instruction"
  const LeftType: string := "Left Operand"
  const RightType: string := "Right Operand"

  /** `data`: one list of (assembly, entropy) per named type. */
  datatype Buckets = Buckets(instructions: seq<(string, real)>, lefts: seq<(string, real)>, rights: seq<(string, real)>)

  /** One row of the requested block put into its bucket; other blocks and
      other types leave the buckets as they are. */
  function AddToBucket(data: Buckets, row: EntropyRow, blockId: string): Buckets {
    if row.blockId != blockId then data
    else if row.kind == InstructionType then data.(instructions := data.instructions + [(row.assembly, row.entropy)])
    else if row.kind == LeftType then data.(lefts := data.lefts + [(row.assembly, row.entropy)])
    else if row.kind == RightType then data.(rights := data.rights + [(row.assembly, row.entropy)])
    else data
  }

  function BucketsOf(rows: seq<EntropyRow>, blockId: string): Buckets {
    if rows == [] then Buckets([], [], [])
    else AddToBucket(BucketsOf(rows[..|rows| - 1], blockId), rows[|rows| - 1], blockId)
  }

  method ReadEntropyData(rows: seq<EntropyRow>, blockId: string) returns (data: Buckets)
    ensures data == BucketsOf(rows, blockId)
  {
    data := Buckets([], [], []);
    var i := 0;
    while i < |rows|
      invariant 0 <= i <= |rows|
      invariant data == BucketsOf(rows[..i], blockId)
    {
      var row := rows[i];
      assert rows[..i + 1][..i] == rows[..i];
      if row.blockId == blockId {
        if row.kind == InstructionType {
          data := data.(instructions := data.instructions + [(row.assembly, row.entropy)]);
        } else if row.kind == LeftType {
          data := data.(lefts := data.lefts + [(row.assembly, row.entropy)]);
        } else if row.kind == RightType {
          data := data.(rights := data.rights + [(row.assembly, row.entropy)]);
        }
      }
      i := i + 1;
    }
    assert rows[..i] == rows;
  }

  /** The (assembly, entropy) of the rows of block `blockId` and type `kind`,
      in file order. */
  function Matching(rows: seq<EntropyRow>, blockId: string, kind: string): seq<(string, real)> {
    if rows == [] then []
    else
      (if rows[0].blockId == blockId && rows[0].kind == kind then [(rows[0].assembly, rows[0].entropy)] else [])
      + Matching(rows[1..], blockId, kind)
  }

  lemma {:induction false} MatchingSnoc(rows: seq<EntropyRow>, row: EntropyRow, blockId: string, kind: string)
    ensures Matching(rows + [row], blockId, kind)
         == Matching(rows, blockId, kind) + (if row.blockId == blockId && row.kind == kind then [(row.assembly, row.entropy)] else [])
    decreases |rows|
  {
    if rows != [] {
      assert (rows + [row])[1..] == rows[1..] + [row];
      MatchingSnoc(rows[1..], row, blockId, kind);
    }
  }

  /** Each bucket holds exactly the rows of the requested block with its type,
      as (assembly, entropy), in file order; rows of other blocks and of any
      other type are in no bucket. */
  lemma {:induction false} BucketsAreMatches(rows: seq<EntropyRow>, blockId: string)
    ensures BucketsOf(rows, blockId).instructions == Matching(rows, blockId, InstructionType)
    ensures BucketsOf(rows, blockId).lefts == Matching(rows, blockId, LeftType)
    ensures BucketsOf(rows, blockId).rights == Matching(rows, blockId, RightType)
    decreases |rows|
  {
    if rows != [] {
      var init := rows[..|rows| - 1];
      BucketsAreMatches(init, blockId);
      assert init + [rows[|rows| - 1]] == rows;
      MatchingSnoc(init, rows[|rows| - 1], blockId, InstructionType);
      MatchingSnoc(init, rows[|rows| - 1], blockId, LeftType);
      MatchingSnoc(init, rows[|rows| - 1], blockId, RightType);
    }
  }

  /** `enumerate(data, start=1)`: entry k (from 0) becomes (k + 1, its entropy). */
  method EncodeVariables(data: seq<(string, real)>) returns (encoded: seq<(int, real)>)
    ensures |encoded| == |data|
    ensures forall k :: 0 <= k < |data| ==> encoded[k] == (k + 1, data[k].1)
  {
    encoded := [];
    var i := 1;
    while i <= |data|
      invariant 1 <= i <= |data| + 1
      invariant |encoded| == i - 1
      invariant forall k :: 0 <= k < i - 1 ==> encoded[k] == (k + 1, data[k].1)
    {
      var entropy := data[i - 1].1;
      encoded := encoded + [(i, entropy)];
      i := i + 1;
    }
  }

  /** A non-empty bucket means its block and type occur in the table, so the
      threshold lookup done before plotting that bucket finds an entry. */
  lemma PlottedBucketHasThreshold(rows: seq<EntropyRow>, blockId: string, kind: string)
    requires Matching(rows, blockId, kind) != []
    ensures blockId in CollectAll(rows).entries && kind in CollectAll(rows).entries[blockId].entries
  {
    StatisticsAreGroups(rows);
    GroupByIsSelect(FlatPairs(rows));
    var i := MatchingWitness(rows, blockId, kind);
    assert Keys(FlatPairs(rows))[i] == (blockId, kind);
    assert Agrees(CollectAll(rows), GroupBy(FlatPairs(rows)), blockId, kind);
  }

  lemma {:induction false} MatchingWitness(rows: seq<EntropyRow>, blockId: string, kind: string) returns (i: nat)
    requires Matching(rows, blockId, kind) != []
    ensures i < |rows| && rows[i].blockId == blockId && rows[i].kind == kind
    decreases |rows|
  {
    if rows[0].blockId == blockId && rows[0].kind == kind {
      i := 0;
    } else {
      var j := MatchingWitness(rows[1..], blockId, kind);
      i := j + 1;
    }
  }
}
