/** `normalize_probabilities` and `prepare_data_for_clustering` of the two
    clustering scripts (`AHC_CSV.py`, `AHC_silhouette_coefficient.py`, which
    share the code): every (Block_ID, Type) group of a copy of the table has
    its probabilities divided by the group's sum, and the result is pivoted
    into one row per block and one column per (Type, Assembly). */
module Normalization {
  import opened Counting
  import opened Numeric

  /** A Probability cell of the data frame: a number, or the NaN that a
      division by a zero group sum leaves (pandas sums skip it). */
  datatype Cell = Number(value: real) | Undefined

  datatype Row = Row(blockId: string, kind: string, assembly: string, probability: Cell, entropy: real)

  predicate InGroup(row: Row, blockId: string, kind: string) {
    row.blockId == blockId && row.kind == kind
  }

  /** `normalized_df.loc[mask, "Probability"].sum()`: the numbers of the
      group's rows added up (NaN cells skipped, an empty group gives 0). */
  function GroupSum(df: seq<Row>, blockId: string, kind: string): real {
    if df == [] then 0.0
    else
      var last := df[|df| - 1];
      GroupSum(df[..|df| - 1], blockId, kind)
      + (if InGroup(last, blockId, kind) && last.probability.Number? then last.probability.value else 0.0)
  }

  /** One cell divided by the group sum. */
  function Divide(c: Cell, sum: real): Cell {
    match c
    case Number(x) => if sum != 0.0 then Number(x / sum) else Undefined
    case Undefined => Undefined
  }

  /** `normalized_df.loc[mask, "Probability"] /= prob_sum` for one group. */
  function Rescale(df: seq<Row>, blockId: string, kind: string, sum: real): (r: seq<Row>)
    ensures |r| == |df|
  {
    seq(|df|, i requires 0 <= i < |df| =>
      if InGroup(df[i], blockId, kind) then df[i].(probability := Divide(df[i].probability, sum)) else df[i])
  }

  /** The table every probability of which has been divided by the sum of its
      own (Block_ID, Type) group, that sum taken over the input table. Rows,
      their order and every other column stay as they were. */
  function Normalize(df: seq<Row>): (r: seq<Row>)
    ensures |r| == |df|
    ensures forall i :: 0 <= i < |df| ==> r[i].(probability := df[i].probability) == df[i]
  {
    seq(|df|, i requires 0 <= i < |df| =>
      df[i].(probability := Divide(df[i].probability, GroupSum(df, df[i].blockId, df[i].kind))))
  }

  function BlockIds(df: seq<Row>): (r: seq<string>)
    ensures |r| == |df| && forall i :: 0 <= i < |df| ==> r[i] == df[i].blockId
  {
    seq(|df|, i requires 0 <= i < |df| => df[i].blockId)
  }

  function Kinds(df: seq<Row>): (r: seq<string>)
    ensures |r| == |df| && forall i :: 0 <= i < |df| ==> r[i] == df[i].kind
  {
    seq(|df|, i requires 0 <= i < |df| => df[i].kind)
  }

  /** Loops over `Block_ID.unique()` and `Type.unique()` of the copy, dividing
      each group of the copy by its sum; the input is not modified. */
  method NormalizeProbabilities(df: seq<Row>) returns (normalized: seq<Row>)
    ensures normalized == Normalize(df)
  {
    normalized := df;
    var blockIds := Distinct(BlockIds(normalized));
    var kinds := Distinct(Kinds(normalized));
    DistinctProperties(BlockIds(df));
    DistinctProperties(Kinds(df));
    var b := 0;
    while b < |blockIds|
      invariant 0 <= b <= |blockIds|
      invariant |normalized| == |df|
      invariant forall i :: 0 <= i < |df| ==>
        normalized[i] == if df[i].blockId in blockIds[..b] then Normalize(df)[i] else df[i]
    {
      var t := 0;
      while t < |kinds|
        invariant 0 <= t <= |kinds|
        invariant |normalized| == |df|
        invariant forall i :: 0 <= i < |df| ==>
          normalized[i] == if Done(df[i], blockIds, b, kinds, t) then Normalize(df)[i] else df[i]
      {
        var blockId, kind := blockIds[b], kinds[t];
        NotYetDone(df, normalized, blockIds, b, kinds, t);
        var probSum := GroupSum(normalized, blockId, kind);
        normalized := Rescale(normalized, blockId, kind, probSum);
        assert kinds[..t + 1] == kinds[..t] + [kind];
        t := t + 1;
      }
      assert blockIds[..b + 1] == blockIds[..b] + [blockIds[b]];
      forall i | 0 <= i < |df| && df[i].blockId == blockIds[b] ensures df[i].kind in kinds[..t] {
        assert kinds[..t] == kinds;
        assert df[i].kind == Kinds(df)[i];
      }
      b := b + 1;
    }
    forall i | 0 <= i < |df| ensures df[i].blockId in blockIds[..b] {
      assert blockIds[..b] == blockIds;
      assert df[i].blockId == BlockIds(df)[i];
    }
  }

  /** The groups handled so far: earlier blocks, and the earlier types of the
      current block. */
  predicate Done(row: Row, blockIds: seq<string>, b: nat, kinds: seq<string>, t: nat)
    requires b < |blockIds| && t <= |kinds|
  {
    row.blockId in blockIds[..b] || (row.blockId == blockIds[b] && row.kind in kinds[..t])
  }

  /** The group about to be handled has not been touched, so its sum in the
      copy is its sum in the input. */
  lemma NotYetDone(df: seq<Row>, normalized: seq<Row>, blockIds: seq<string>, b: nat, kinds: seq<string>, t: nat)
    requires b < |blockIds| && t < |kinds|
    requires NoDuplicates(blockIds) && NoDuplicates(kinds)
    requires |normalized| == |df|
    requires forall i :: 0 <= i < |df| ==>
      normalized[i] == if Done(df[i], blockIds, b, kinds, t) then Normalize(df)[i] else df[i]
    ensures GroupSum(normalized, blockIds[b], kinds[t]) == GroupSum(df, blockIds[b], kinds[t])
  {
    forall i | 0 <= i < |df| && InGroup(df[i], blockIds[b], kinds[t]) ensures normalized[i] == df[i] {
      assert blockIds[b] !in blockIds[..b];
      assert kinds[t] !in kinds[..t];
    }
    GroupSumAgrees(normalized, df, blockIds[b], kinds[t]);
  }

  // ---------------------------------------------------------------------
  // Properties

  /** Two tables that agree on the rows of a group have the same group sum. */
  lemma {:induction false} GroupSumAgrees(xs: seq<Row>, ys: seq<Row>, blockId: string, kind: string)
    requires |xs| == |ys|
    requires forall i :: 0 <= i < |xs| ==> InGroup(xs[i], blockId, kind) == InGroup(ys[i], blockId, kind)
    requires forall i :: 0 <= i < |xs| && InGroup(ys[i], blockId, kind) ==> xs[i] == ys[i]
    ensures GroupSum(xs, blockId, kind) == GroupSum(ys, blockId, kind)
    decreases |xs|
  {
    if xs != [] {
      GroupSumAgrees(xs[..|xs| - 1], ys[..|ys| - 1], blockId, kind);
    }
  }

  lemma {:induction false} RescaledGroupSum(xs: seq<Row>, blockId: string, kind: string, sum: real)
    requires sum != 0.0
    ensures GroupSum(Rescale(xs, blockId, kind, sum), blockId, kind) == GroupSum(xs, blockId, kind) / sum
    decreases |xs|
  {
    if xs != [] {
      var init := xs[..|xs| - 1];
      assert Rescale(xs, blockId, kind, sum)[..|xs| - 1] == Rescale(init, blockId, kind, sum);
      RescaledGroupSum(init, blockId, kind, sum);
      var last := xs[|xs| - 1];
      var c := if InGroup(last, blockId, kind) && last.probability.Number? then last.probability.value else 0.0;
      AddQuotients(GroupSum(init, blockId, kind), c, sum);
    }
  }

  lemma AddQuotients(a: real, c: real, s: real)
    requires s != 0.0
    ensures a / s + c / s == (a + c) / s
  {
  }

  /** Dividing two numbers by the same non-zero number keeps their ratio. */
  lemma DivideCross(p: Cell, q: Cell, s: real)
    requires p.Number? && q.Number? && s != 0.0
    ensures Divide(p, s).Number? && Divide(q, s).Number?
    ensures Divide(p, s).value * q.value == Divide(q, s).value * p.value
  {
    CrossQuotients(Divide(p, s).value, Divide(q, s).value, p.value, q.value, s);
  }

  lemma CrossQuotients(a: real, c: real, x: real, y: real, s: real)
    requires s != 0.0 && a == x / s && c == y / s
    ensures a * y == c * x
  {
    assert (x / s) * y == (x * y) / s;
    assert (y / s) * x == (x * y) / s;
  }

  /** Dividing positive group sums is exact: after normalisation every group
      whose sum was not 0 sums to 1. */
  lemma NormalizedGroupSumsToOne(df: seq<Row>, blockId: string, kind: string)
    requires GroupSum(df, blockId, kind) != 0.0
    ensures GroupSum(Normalize(df), blockId, kind) == 1.0
  {
    var sum := GroupSum(df, blockId, kind);
    GroupSumAgrees(Normalize(df), Rescale(df, blockId, kind, sum), blockId, kind);
    RescaledGroupSum(df, blockId, kind, sum);
    assert sum / sum == 1.0;
  }

  /** A group whose sum is 0 becomes NaN throughout. */
  lemma ZeroSumGroupBecomesUndefined(df: seq<Row>, i: nat)
    requires i < |df| && GroupSum(df, df[i].blockId, df[i].kind) == 0.0
    ensures Normalize(df)[i].probability == Undefined
  {
  }

  /** All rows of a group are divided by one and the same number, the
      group's sum; with `DivideCross` this keeps the ratios between the
      probabilities of a group. */
  lemma NormalizePreservesRatios(df: seq<Row>, i: nat, j: nat)
    requires i < |df| && j < |df| && InGroup(df[j], df[i].blockId, df[i].kind)
    ensures var s := GroupSum(df, df[i].blockId, df[i].kind);
      && Normalize(df)[i].probability == Divide(df[i].probability, s)
      && Normalize(df)[j].probability == Divide(df[j].probability, s)
  {
    assert GroupSum(df, df[j].blockId, df[j].kind) == GroupSum(df, df[i].blockId, df[i].kind);
  }

  lemma {:induction false} GroupSumWithoutNumbers(xs: seq<Row>, blockId: string, kind: string)
    requires forall i :: 0 <= i < |xs| && InGroup(xs[i], blockId, kind) ==> xs[i].probability == Undefined
    ensures GroupSum(xs, blockId, kind) == 0.0
    decreases |xs|
  {
    if xs != [] {
      GroupSumWithoutNumbers(xs[..|xs| - 1], blockId, kind);
    }
  }

  /** Normalising a normalised table changes nothing: groups that sum to 1
      are divided by 1, and groups left NaN have no number to sum. */
  lemma NormalizeIdempotent(df: seq<Row>)
    ensures Normalize(Normalize(df)) == Normalize(df)
  {
    var n := Normalize(df);
    forall i | 0 <= i < |df| ensures Normalize(n)[i] == n[i] {
      var blockId, kind := df[i].blockId, df[i].kind;
      var s := GroupSum(df, blockId, kind);
      if s != 0.0 {
        NormalizedGroupSumsToOne(df, blockId, kind);
        if n[i].probability.Number? {
          assert n[i].probability.value / 1.0 == n[i].probability.value;
        }
      } else {
        forall k | 0 <= k < |n| && InGroup(n[k], blockId, kind) ensures n[k].probability == Undefined {
          assert GroupSum(df, df[k].blockId, df[k].kind) == 0.0;
        }
        GroupSumWithoutNumbers(n, blockId, kind);
      }
    }
  }

  // ---------------------------------------------------------------------
  // prepare_data_for_clustering

  /** The numbers of the rows of block `blockId` in column (`kind`, `assembly`). */
  function CellNumbers(df: seq<Row>, blockId: string, kind: string, assembly: string): seq<real> {
    if df == [] then []
    else
      var last := df[|df| - 1];
      CellNumbers(df[..|df| - 1], blockId, kind, assembly)
      + (if InGroup(last, blockId, kind) && last.assembly == assembly && last.probability.Number?
         then [last.probability.value] else [])
  }

  /** One pivot cell: the mean of its numbers (`pivot_table`'s default
      aggregation), or the fill value 0 when it has none. */
  function PivotCell(df: seq<Row>, blockId: string, kind: string, assembly: string): real {
    var xs := CellNumbers(df, blockId, kind, assembly);
    if xs == [] then 0.0 else Mean(xs)
  }

  function ColumnsOf(df: seq<Row>): set<(string, string)> {
    set i | 0 <= i < |df| :: (df[i].kind, df[i].assembly)
  }

  function BlockSet(df: seq<Row>): set<string> {
    set i | 0 <= i < |df| :: df[i].blockId
  }

  /** `df.pivot_table(index="Block_ID", columns=["Type", "Assembly"],
      values="Probability", fill_value=0)`, as a map from (block, column). */
  function PrepareDataForClustering(df: seq<Row>): (pivot: map<(string, (string, string)), real>)
    ensures forall b, c :: (b, c) in pivot <==> b in BlockSet(df) && c in ColumnsOf(df)
  {
    map k | k in (set b, c | b in BlockSet(df) && c in ColumnsOf(df) :: (b, c)) :: PivotCell(df, k.0, k.1.0, k.1.1)
  }

  lemma {:induction false} CellNumbersOfAbsent(df: seq<Row>, blockId: string, kind: string, assembly: string)
    requires forall i :: 0 <= i < |df| ==> !(InGroup(df[i], blockId, kind) && df[i].assembly == assembly)
    ensures CellNumbers(df, blockId, kind, assembly) == []
    decreases |df|
  {
    if df != [] {
      CellNumbersOfAbsent(df[..|df| - 1], blockId, kind, assembly);
    }
  }

  /** A (block, column) pair with no row is filled with 0. */
  lemma PivotFillsAbsentWithZero(df: seq<Row>, blockId: string, kind: string, assembly: string)
    requires blockId in BlockSet(df) && (kind, assembly) in ColumnsOf(df)
    requires forall i :: 0 <= i < |df| ==> !(InGroup(df[i], blockId, kind) && df[i].assembly == assembly)
    ensures PrepareDataForClustering(df)[(blockId, (kind, assembly))] == 0.0
  {
    CellNumbersOfAbsent(df, blockId, kind, assembly);
  }

  /** A (block, column) pair with exactly one row, holding a number, shows
      that number. */
  lemma PivotShowsSingleRow(df: seq<Row>, j: nat)
    requires j < |df| && df[j].probability.Number?
    requires forall i :: 0 <= i < |df| && i != j ==>
      !(InGroup(df[i], df[j].blockId, df[j].kind) && df[i].assembly == df[j].assembly)
    ensures PrepareDataForClustering(df)[(df[j].blockId, (df[j].kind, df[j].assembly))] == df[j].probability.value
  {
    var row := df[j];
    SingleCellNumber(df, j);
    assert PivotCell(df, row.blockId, row.kind, row.assembly) == row.probability.value by {
      var xs := [row.probability.value];
      assert xs[..0] == [];
      assert Sum(xs) == row.probability.value;
    }
    assert row.blockId in BlockSet(df);
    assert (row.kind, row.assembly) in ColumnsOf(df);
  }

  lemma SingleCellNumber(df: seq<Row>, j: nat)
    requires j < |df| && df[j].probability.Number?
    requires forall i :: 0 <= i < |df| && i != j ==>
      !(InGroup(df[i], df[j].blockId, df[j].kind) && df[i].assembly == df[j].assembly)
    ensures CellNumbers(df, df[j].blockId, df[j].kind, df[j].assembly) == [df[j].probability.value]
  {
    var row := df[j];
    var b, k, a := row.blockId, row.kind, row.assembly;
    var before, after := df[0..j], df[j + 1..|df|];
    SliceWithoutMatch(df, 0, j, b, k, a);
    SliceWithoutMatch(df, j + 1, |df|, b, k, a);
    SplitAround(df, j);
    calc {
      CellNumbers(df, b, k, a);
      { CellNumbersAppend(before + [row], after, b, k, a); }
      CellNumbers(before + [row], b, k, a) + CellNumbers(after, b, k, a);
      { OwnCellNumber(before, row); }
      CellNumbers(before, b, k, a) + [row.probability.value] + CellNumbers(after, b, k, a);
    }
  }

  lemma SplitAround<T>(xs: seq<T>, j: nat)
    requires j < |xs|
    ensures xs == (xs[0..j] + [xs[j]]) + xs[j + 1..|xs|]
  {
  }

  lemma OwnCellNumber(xs: seq<Row>, row: Row)
    requires row.probability.Number?
    ensures CellNumbers(xs + [row], row.blockId, row.kind, row.assembly)
         == CellNumbers(xs, row.blockId, row.kind, row.assembly) + [row.probability.value]
  {
    assert (xs + [row])[..|xs|] == xs;
  }

  lemma SliceWithoutMatch(df: seq<Row>, lo: nat, hi: nat, blockId: string, kind: string, assembly: string)
    requires lo <= hi <= |df|
    requires forall i :: lo <= i < hi ==> !(InGroup(df[i], blockId, kind) && df[i].assembly == assembly)
    ensures CellNumbers(df[lo..hi], blockId, kind, assembly) == []
  {
    var part := df[lo..hi];
    forall i | 0 <= i < |part| ensures !(InGroup(part[i], blockId, kind) && part[i].assembly == assembly) {
      assert part[i] == df[lo + i];
    }
    CellNumbersOfAbsent(part, blockId, kind, assembly);
  }

  lemma {:induction false} CellNumbersAppend(xs: seq<Row>, ys: seq<Row>, blockId: string, kind: string, assembly: string)
    ensures CellNumbers(xs + ys, blockId, kind, assembly)
         == CellNumbers(xs, blockId, kind, assembly) + CellNumbers(ys, blockId, kind, assembly)
    decreases |ys|
  {
    if ys == [] {
      assert xs + ys == xs;
    } else {
      assert (xs + ys)[..|xs + ys| - 1] == xs + ys[..|ys| - 1];
      CellNumbersAppend(xs, ys[..|ys| - 1], blockId, kind, assembly);
    }
  }
}
