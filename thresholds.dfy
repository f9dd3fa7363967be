/** Entropy thresholds per (block, type) and the filter that keeps the rows at
    or above their threshold (`threshold.py`; the same statistics code is in
    both `entropy_visualization.py` files). */
module Thresholds {
  import opened Dicts
  import opened Counting
  import opened Grouping
  import opened Numeric

  /** One row of the entropy table (`float(row["Entropy"])` already read). */
  datatype EntropyRow = EntropyRow(blockId: string, kind: string, assembly: string, probability: real, entropy: real)

  /** A table: its header and its rows. */
  datatype Table = Table(fieldnames: seq<string>, rows: seq<EntropyRow>)

  /** `{block_id: {variable_type: [entropy, ...]}}` */
  type Statistics = Dict<string, Dict<string, seq<real>>>

  /** `{block_id: {variable_type: threshold}}` */
  type ThresholdMap = Dict<string, Dict<string, real>>

  // ---------------------------------------------------------------------
  // calculate_variable_type_entropy_statistics: grouping

  /** One row's entropy appended to its (block, type) list; the block's dict
      and the type's list are created on first sight. */
  function AddEntropy(s: Statistics, row: EntropyRow): Statistics {
    s.Put(row.blockId, Append(s.GetOr(row.blockId, Empty()), row.kind, row.entropy))
  }

  function CollectAll(rows: seq<EntropyRow>): Statistics {
    if rows == [] then Empty() else AddEntropy(CollectAll(rows[..|rows| - 1]), rows[|rows| - 1])
  }

  method CollectStatistics(rows: seq<EntropyRow>) returns (stats: Statistics)
    ensures stats == CollectAll(rows)
  {
    stats := Empty();
    var i := 0;
    while i < |rows|
      invariant 0 <= i <= |rows|
      invariant stats == CollectAll(rows[..i])
    {
      assert rows[..i + 1][..i] == rows[..i];
      stats := StoreEntropy(stats, rows[i]);
      i := i + 1;
    }
    assert rows[..i] == rows;
  }

  /** The loop body: the block's dict and the type's list are created when
      missing, then the entropy is appended. */
  method StoreEntropy(before: Statistics, row: EntropyRow) returns (stats: Statistics)
    ensures stats == AddEntropy(before, row)
  {
    stats := before;
    ghost var created := row.blockId !in stats.entries;
    if row.blockId !in stats.entries {
      stats := stats.Put(row.blockId, Empty());
    }
    var inner := stats.entries[row.blockId];
    ghost var original := inner;
    if row.kind !in inner.entries {
      inner := inner.Put(row.kind, []);
      PutPut(original, row.kind, [], [row.entropy]);
    }
    var updated := inner.Put(row.kind, inner.entries[row.kind] + [row.entropy]);
    assert updated == Append(original, row.kind, row.entropy);
    if created {
      PutPut(before, row.blockId, Empty(), updated);
    }
    stats := stats.Put(row.blockId, updated);
  }

  /** The rows as ((block, type), entropy) pairs. */
  function FlatPairs(rows: seq<EntropyRow>): (ps: seq<((string, string), real)>)
    ensures |ps| == |rows|
  {
    seq(|rows|, i requires 0 <= i < |rows| => ((rows[i].blockId, rows[i].kind), rows[i].entropy))
  }

  /** Both dict levels are well formed and no list is empty. */
  ghost predicate StatisticsValid(s: Statistics) {
    && s.Valid()
    && forall b :: b in s.entries ==>
         && s.entries[b].Valid()
         && forall t :: t in s.entries[b].entries ==> s.entries[b].entries[t] != []
  }

  /** `s`, read as one list per (block, type), is the flat dict `g`. */
  ghost predicate Mirrors(s: Statistics, g: Dict<(string, string), seq<real>>) {
    StatisticsValid(s) && forall b, t :: Agrees(s, g, b, t)
  }

  /** The pair (b, t) has a list in `s` exactly when it has one in `g`, and
      it is the same list. */
  ghost predicate Agrees(s: Statistics, g: Dict<(string, string), seq<real>>, b: string, t: string) {
    && (b in s.entries && t in s.entries[b].entries <==> (b, t) in g.entries)
    && (b in s.entries && t in s.entries[b].entries ==> s.entries[b].entries[t] == g.entries[(b, t)])
  }

  lemma ValidStep(s: Statistics, row: EntropyRow)
    requires StatisticsValid(s)
    ensures StatisticsValid(AddEntropy(s, row))
  {
    var inner := s.GetOr(row.blockId, Empty());
    assert inner.Valid() && forall t :: t in inner.entries ==> inner.entries[t] != [];
    var inner' := Append(inner, row.kind, row.entropy);
    assert inner'.Valid() && forall t :: t in inner'.entries ==> inner'.entries[t] != [];
    assert AddEntropy(s, row).entries == s.entries[row.blockId := inner'];
  }

  lemma MirrorsStep(s: Statistics, g: Dict<(string, string), seq<real>>, row: EntropyRow)
    requires Mirrors(s, g)
    ensures Mirrors(AddEntropy(s, row), Append(g, (row.blockId, row.kind), row.entropy))
  {
    ValidStep(s, row);
    forall b, t ensures Agrees(AddEntropy(s, row), Append(g, (row.blockId, row.kind), row.entropy), b, t) {
      AgreesStep(s, g, row, b, t);
    }
  }

  /** One row keeps the two views of every (block, type) in agreement. */
  lemma AgreesStep(s: Statistics, g: Dict<(string, string), seq<real>>, row: EntropyRow, b: string, t: string)
    requires StatisticsValid(s) && Agrees(s, g, b, t) && Agrees(s, g, row.blockId, row.kind)
    ensures Agrees(AddEntropy(s, row), Append(g, (row.blockId, row.kind), row.entropy), b, t)
  {
    if b != row.blockId {
      AgreesOtherBlock(s, g, row, b, t);
    } else if t != row.kind {
      AgreesOtherType(s, g, row, t);
    } else {
      AgreesRowKey(s, g, row);
    }
  }

  lemma AgreesOtherBlock(s: Statistics, g: Dict<(string, string), seq<real>>, row: EntropyRow, b: string, t: string)
    requires b != row.blockId && Agrees(s, g, b, t)
    ensures Agrees(AddEntropy(s, row), Append(g, (row.blockId, row.kind), row.entropy), b, t)
  {
    var s' := AddEntropy(s, row);
    assert b in s'.entries <==> b in s.entries;
    if b in s.entries {
      assert s'.entries[b] == s.entries[b];
    }
  }

  lemma AgreesOtherType(s: Statistics, g: Dict<(string, string), seq<real>>, row: EntropyRow, t: string)
    requires t != row.kind && Agrees(s, g, row.blockId, t)
    ensures Agrees(AddEntropy(s, row), Append(g, (row.blockId, row.kind), row.entropy), row.blockId, t)
  {
    var inner := s.GetOr(row.blockId, Empty());
    var inner' := Append(inner, row.kind, row.entropy);
    assert AddEntropy(s, row).entries[row.blockId] == inner';
    assert t in inner'.entries <==> t in inner.entries;
  }

  lemma AgreesRowKey(s: Statistics, g: Dict<(string, string), seq<real>>, row: EntropyRow)
    requires Agrees(s, g, row.blockId, row.kind)
    ensures Agrees(AddEntropy(s, row), Append(g, (row.blockId, row.kind), row.entropy), row.blockId, row.kind)
  {
    var inner := s.GetOr(row.blockId, Empty());
    assert AddEntropy(s, row).entries[row.blockId] == Append(inner, row.kind, row.entropy);
  }

  /** The nested dict holds exactly one list per (block, type) pair that
      occurs, and that list is the pair's entropies in file order. */
  lemma {:induction false} StatisticsAreGroups(rows: seq<EntropyRow>)
    ensures Mirrors(CollectAll(rows), GroupBy(FlatPairs(rows)))
    decreases |rows|
  {
    if rows != [] {
      var init := rows[..|rows| - 1];
      StatisticsAreGroups(init);
      assert FlatPairs(rows)[..|rows| - 1] == FlatPairs(init);
      MirrorsStep(CollectAll(init), GroupBy(FlatPairs(init)), rows[|rows| - 1]);
    }
  }

  /** Every row lands in exactly one list: the list lengths add up to the
      number of rows, and a list is as long as the number of rows of its
      (block, type). */
  lemma ListLengths(rows: seq<EntropyRow>)
    ensures GroupBy(FlatPairs(rows)).Valid()
    ensures TotalLength(GroupBy(FlatPairs(rows)), GroupBy(FlatPairs(rows)).keys) == |rows|
    ensures forall b, t :: b in CollectAll(rows).entries && t in CollectAll(rows).entries[b].entries ==>
      |CollectAll(rows).entries[b].entries[t]| == Count(Keys(FlatPairs(rows)), (b, t))
  {
    GroupSizesSum(FlatPairs(rows));
    StatisticsAreGroups(rows);
    GroupByIsSelect(FlatPairs(rows));
    forall b, t | b in CollectAll(rows).entries && t in CollectAll(rows).entries[b].entries
      ensures |CollectAll(rows).entries[b].entries[t]| == Count(Keys(FlatPairs(rows)), (b, t))
    {
      assert Agrees(CollectAll(rows), GroupBy(FlatPairs(rows)), b, t);
      SelectLength(FlatPairs(rows), (b, t));
    }
  }

  // ---------------------------------------------------------------------
  // calculate_variable_type_entropy_statistics: thresholds

  /** `np.mean(entropies) + np.std(entropies)`. */
  function Threshold(m: Math, entropies: seq<real>): real
    requires entropies != []
  {
    Mean(entropies) + Std(m, entropies)
  }

  /** The thresholds of one block: same types, same order. */
  ghost predicate BlockThresholds(m: Math, inner: Dict<string, seq<real>>, out: Dict<string, real>)
    requires inner.Valid() && forall t :: t in inner.entries ==> inner.entries[t] != []
  {
    && out.Valid()
    && out.keys == inner.keys
    && (forall t :: t in out.entries <==> t in inner.entries)
    && forall t :: t in out.entries ==> out.entries[t] == Threshold(m, inner.entries[t])
  }

  method InnerThresholds(m: Math, inner: Dict<string, seq<real>>) returns (out: Dict<string, real>)
    requires inner.Valid() && forall t :: t in inner.entries ==> inner.entries[t] != []
    ensures BlockThresholds(m, inner, out)
  {
    out := Empty();
    var j := 0;
    while j < |inner.keys|
      invariant 0 <= j <= |inner.keys|
      invariant out.Valid() && out.keys == inner.keys[..j]
      invariant forall t :: t in out.entries ==> t in inner.entries && out.entries[t] == Threshold(m, inner.entries[t])
    {
      var t := inner.keys[j];
      var entropies := inner.entries[t];
      var meanEntropy := Mean(entropies);
      var stdDevEntropy := Std(m, entropies);
      CopyStep(inner, out, j, meanEntropy + stdDevEntropy);
      out := out.Put(t, meanEntropy + stdDevEntropy);
      j := j + 1;
    }
    assert inner.keys[..j] == inner.keys;
    SameKeys(out, inner);
  }

  /** The threshold dict: the same blocks and types as the statistics, in the
      same order, each with mean + std of its list. */
  method ComputeThresholds(m: Math, stats: Statistics) returns (thresholds: ThresholdMap)
    requires StatisticsValid(stats)
    ensures thresholds.Valid() && thresholds.keys == stats.keys
    ensures forall b :: b in thresholds.entries <==> b in stats.entries
    ensures forall b :: b in thresholds.entries ==> BlockThresholds(m, stats.entries[b], thresholds.entries[b])
  {
    thresholds := Empty();
    var i := 0;
    while i < |stats.keys|
      invariant 0 <= i <= |stats.keys|
      invariant thresholds.Valid() && thresholds.keys == stats.keys[..i]
      invariant forall b :: b in thresholds.entries ==>
        b in stats.entries && BlockThresholds(m, stats.entries[b], thresholds.entries[b])
    {
      var b := stats.keys[i];
      var inner := InnerThresholds(m, stats.entries[b]);
      CopyStep(stats, thresholds, i, inner);
      thresholds := thresholds.Put(b, inner);
      i := i + 1;
    }
    assert stats.keys[..i] == stats.keys;
    SameKeys(thresholds, stats);
  }

  /** Each threshold is at least the mean of its list. */
  lemma ThresholdAtLeastMean(m: Math, entropies: seq<real>)
    requires Sound(m) && entropies != []
    ensures Threshold(m, entropies) >= Mean(entropies)
  {
    MeanPlusStdAtLeastMean(m, entropies);
  }

  // ---------------------------------------------------------------------
  // filter_variables_by_variable_type

  /** `thresholds[block_id].get(variable_type, 0)`. */
  function ThresholdOf(thresholds: ThresholdMap, row: EntropyRow): real
    requires row.blockId in thresholds.entries
  {
    thresholds.entries[row.blockId].GetOr(row.kind, 0.0)
  }

  /** The rows written, and whether the loop stopped on a KeyError (an
      unknown block); rows written before the error stay in the output. */
  datatype Outcome = Done(written: seq<EntropyRow>) | KeyErrorAfter(written: seq<EntropyRow>)

  function FilterAll(rows: seq<EntropyRow>, thresholds: ThresholdMap): Outcome {
    if rows == [] then Done([])
    else
      match FilterAll(rows[..|rows| - 1], thresholds)
      case KeyErrorAfter(w) => KeyErrorAfter(w)
      case Done(w) =>
        var row := rows[|rows| - 1];
        if row.blockId !in thresholds.entries then KeyErrorAfter(w)
        else if row.entropy >= ThresholdOf(thresholds, row) then Done(w + [row])
        else Done(w)
  }

  /** The rows whose block has thresholds and whose entropy is at or above
      its threshold, in input order. */
  function Kept(rows: seq<EntropyRow>, thresholds: ThresholdMap): seq<EntropyRow> {
    if rows == [] then []
    else
      var row := rows[0];
      (if row.blockId in thresholds.entries && row.entropy >= ThresholdOf(thresholds, row) then [row] else [])
      + Kept(rows[1..], thresholds)
  }

  method FilterVariables(input: Table, thresholds: ThresholdMap) returns (header: seq<string>, outcome: Outcome)
    ensures header == input.fieldnames
    ensures outcome == FilterAll(input.rows, thresholds)
    ensures outcome.Done? ==> outcome.written == Kept(input.rows, thresholds)
  {
    header := input.fieldnames;
    var written: seq<EntropyRow> := [];
    var i := 0;
    while i < |input.rows|
      invariant 0 <= i <= |input.rows|
      invariant FilterAll(input.rows[..i], thresholds) == Done(written)
    {
      var row := input.rows[i];
      assert input.rows[..i + 1][..i] == input.rows[..i];
      if row.blockId !in thresholds.entries {
        assert FilterAll(input.rows[..i + 1], thresholds) == KeyErrorAfter(written);
        KeyErrorStops(input.rows, i + 1, thresholds);
        assert input.rows[..|input.rows|] == input.rows;
        return header, KeyErrorAfter(written);
      }
      var threshold := thresholds.entries[row.blockId].GetOr(row.kind, 0.0);
      if row.entropy >= threshold {
        written := written + [row];
      }
      i := i + 1;
    }
    assert input.rows[..i] == input.rows;
    outcome := Done(written);
    FilterWritesKept(input.rows, thresholds);
  }

  /** Once a KeyError is raised, the outcome no longer changes. */
  lemma {:induction false} KeyErrorStops(rows: seq<EntropyRow>, k: nat, thresholds: ThresholdMap)
    requires k <= |rows| && FilterAll(rows[..k], thresholds).KeyErrorAfter?
    ensures FilterAll(rows, thresholds) == FilterAll(rows[..k], thresholds)
    decreases |rows| - k
  {
    if k < |rows| {
      assert rows[..k + 1][..k] == rows[..k];
      KeyErrorStops(rows, k + 1, thresholds);
    } else {
      assert rows[..k] == rows;
    }
  }

  /** `a` is `b` with some elements left out, order kept. */
  predicate IsSubsequence<T(==)>(a: seq<T>, b: seq<T>)
    decreases |b|
  {
    if b == [] then a == []
    else
      (a != [] && a[|a| - 1] == b[|b| - 1] && IsSubsequence(a[..|a| - 1], b[..|b| - 1]))
      || IsSubsequence(a, b[..|b| - 1])
  }

  /** The rows written are the input rows, in order, with entropy at or above
      their threshold (0 for a type the block has no threshold for). */
  lemma {:induction false} FilterKeepsRowsAtThreshold(rows: seq<EntropyRow>, thresholds: ThresholdMap)
    ensures IsSubsequence(FilterAll(rows, thresholds).written, rows)
    ensures forall r :: r in FilterAll(rows, thresholds).written ==>
      r.blockId in thresholds.entries && r.entropy >= ThresholdOf(thresholds, r)
    decreases |rows|
  {
    if rows != [] {
      var init := rows[..|rows| - 1];
      FilterKeepsRowsAtThreshold(init, thresholds);
      SubsequenceOfPrefix(FilterAll(init, thresholds).written, init, rows[|rows| - 1]);
      assert init + [rows[|rows| - 1]] == rows;
    }
  }

  /** A row is kept exactly when it appears in the input and reaches its
      threshold. */
  lemma {:induction false} KeptMembers(rows: seq<EntropyRow>, thresholds: ThresholdMap, r: EntropyRow)
    ensures r in Kept(rows, thresholds) <==>
      r in rows && r.blockId in thresholds.entries && r.entropy >= ThresholdOf(thresholds, r)
    decreases |rows|
  {
    if rows != [] {
      KeptMembers(rows[1..], thresholds, r);
      assert rows == [rows[0]] + rows[1..];
    }
  }

  lemma {:induction false} KeptAppend(a: seq<EntropyRow>, b: seq<EntropyRow>, thresholds: ThresholdMap)
    ensures Kept(a + b, thresholds) == Kept(a, thresholds) + Kept(b, thresholds)
    decreases |a|
  {
    if a == [] {
      assert a + b == b;
    } else {
      assert (a + b)[1..] == a[1..] + b;
      KeptAppend(a[1..], b, thresholds);
    }
  }

  /** When no KeyError is raised, the rows written are exactly the rows that
      reach their threshold: none is missing and none is extra. */
  lemma {:induction false} FilterWritesKept(rows: seq<EntropyRow>, thresholds: ThresholdMap)
    ensures FilterAll(rows, thresholds).Done? ==> FilterAll(rows, thresholds).written == Kept(rows, thresholds)
    decreases |rows|
  {
    if rows != [] {
      var init, row := rows[..|rows| - 1], rows[|rows| - 1];
      FilterWritesKept(init, thresholds);
      KeptAppend(init, [row], thresholds);
      assert init + [row] == rows;
      assert [row][1..] == [];
    }
  }

  /** With a first unknown block at row `i`, the output is the kept rows of
      the rows before it, and the loop stops there. */
  lemma KeyErrorKeepsPrefix(rows: seq<EntropyRow>, thresholds: ThresholdMap, i: nat)
    requires i < |rows| && rows[i].blockId !in thresholds.entries
    requires forall j :: 0 <= j < i ==> rows[j].blockId in thresholds.entries
    ensures FilterAll(rows, thresholds) == KeyErrorAfter(Kept(rows[..i], thresholds))
  {
    forall j | 0 <= j < i ensures rows[..i][j].blockId in thresholds.entries {
      assert rows[..i][j] == rows[j];
    }
    KeyErrorIffUnknownBlock(rows[..i], thresholds);
    FilterWritesKept(rows[..i], thresholds);
    assert rows[..i + 1][..i] == rows[..i];
    KeyErrorStops(rows, i + 1, thresholds);
    assert rows[..|rows|] == rows;
  }

  /** The filter raises KeyError exactly when some row names a block that has
      no thresholds; rows are kept only while none has. */
  lemma {:induction false} KeyErrorIffUnknownBlock(rows: seq<EntropyRow>, thresholds: ThresholdMap)
    ensures FilterAll(rows, thresholds).KeyErrorAfter? <==>
      exists i :: 0 <= i < |rows| && rows[i].blockId !in thresholds.entries
    decreases |rows|
  {
    if rows != [] {
      var init := rows[..|rows| - 1];
      KeyErrorIffUnknownBlock(init, thresholds);
      if FilterAll(init, thresholds).KeyErrorAfter? {
        var i :| 0 <= i < |init| && init[i].blockId !in thresholds.entries;
        assert rows[i] == init[i];
      }
      if exists i :: 0 <= i < |rows| && rows[i].blockId !in thresholds.entries {
        var i :| 0 <= i < |rows| && rows[i].blockId !in thresholds.entries;
        if i < |init| {
          assert init[i] == rows[i];
        }
      }
    }
  }

  lemma {:induction false} SubsequenceOfPrefix<T>(a: seq<T>, b: seq<T>, x: T)
    requires IsSubsequence(a, b)
    ensures IsSubsequence(a, b + [x]) && IsSubsequence(a + [x], b + [x])
  {
    assert (b + [x])[..|b|] == b;
    assert (a + [x])[..|a|] == a;
  }

  /** Thresholds computed from the same rows never raise KeyError. */
  lemma OwnThresholdsNeverFail(rows: seq<EntropyRow>, thresholds: ThresholdMap)
    requires forall b :: b in thresholds.entries <==> b in CollectAll(rows).entries
    ensures FilterAll(rows, thresholds).Done?
  {
    StatisticsAreGroups(rows);
    GroupByIsSelect(FlatPairs(rows));
    forall i | 0 <= i < |rows| ensures rows[i].blockId in thresholds.entries {
      assert Keys(FlatPairs(rows))[i] == (rows[i].blockId, rows[i].kind);
      assert Agrees(CollectAll(rows), GroupBy(FlatPairs(rows)), rows[i].blockId, rows[i].kind);
    }
    KeyErrorIffUnknownBlock(rows, thresholds);
  }
}
