/** The second Shannon-entropy script (`shannon_entropy_version2.py`): four
    counting dicts are filled row by row (rows per block, and per (block,
    value) for each of the three columns, empty operands included); then, block
    by block, each (block, value) count is divided by the block's row count. */
module ShannonV2 {
  import opened Wrappers
  import opened Strings
  import opened Dicts
  import opened Counting
  import opened Numeric
  import opened BlockEntropy

  type PairKey = (int, string)

  /** The four counting dicts. */
  datatype Counts = Counts(blocks: Dict<int, nat>,
                           instructions: Dict<PairKey, nat>,
                           lefts: Dict<PairKey, nat>,
                           rights: Dict<PairKey, nat>)

  /** One result row: the block id is the integer `int(Block_ID)`. */
  datatype Entry = Entry(blockId: int, kind: Kind, value: string, probability: real, entropy: real)

  predicate AllIdsParse(rows: seq<Row>) {
    forall i :: 0 <= i < |rows| ==> ParseInt(rows[i].blockId).Some?
  }

  function Ids(rows: seq<Row>): (ids: seq<int>)
    requires AllIdsParse(rows)
    ensures |ids| == |rows|
  {
    seq(|rows|, i requires 0 <= i < |rows| && AllIdsParse(rows) => ParseInt(rows[i].blockId).value)
  }

  /** The (block, value) key of every row for one column. */
  function ColumnKeys(rows: seq<Row>, kind: Kind): (keys: seq<PairKey>)
    requires AllIdsParse(rows)
    ensures |keys| == |rows|
  {
    seq(|rows|, i requires 0 <= i < |rows| && AllIdsParse(rows) =>
      (ParseInt(rows[i].blockId).value,
       match kind
       case Instruction => rows[i].line.instruction
       case LeftOperand => rows[i].line.left
       case RightOperand => rows[i].line.right))
  }

  /** The counting dicts once every row has been read; the first `Block_ID`
      that is not an integer stops the script with ValueError. */
  function CountAll(rows: seq<Row>): Result<Counts> {
    if !AllIdsParse(rows) then Err("ValueError")
    else Ok(Counts(Tally(Ids(rows)),
                   Tally(ColumnKeys(rows, Instruction)),
                   Tally(ColumnKeys(rows, LeftOperand)),
                   Tally(ColumnKeys(rows, RightOperand))))
  }

  method CountRows(rows: seq<Row>) returns (r: Result<Counts>)
    ensures r == CountAll(rows)
  {
    var blockCounts: Dict<int, nat> := Empty();
    var instructionCounts: Dict<PairKey, nat> := Empty();
    var leftCounts: Dict<PairKey, nat> := Empty();
    var rightCounts: Dict<PairKey, nat> := Empty();
    var i := 0;
    while i < |rows|
      invariant 0 <= i <= |rows|
      invariant AllIdsParse(rows[..i])
      invariant blockCounts == Tally(Ids(rows[..i]))
      invariant instructionCounts == Tally(ColumnKeys(rows[..i], Instruction))
      invariant leftCounts == Tally(ColumnKeys(rows[..i], LeftOperand))
      invariant rightCounts == Tally(ColumnKeys(rows[..i], RightOperand))
    {
      var row := rows[i];
      var parsed := ParseInt(row.blockId);
      if parsed.None? {
        assert !AllIdsParse(rows) by {
          assert ParseInt(rows[i].blockId).None?;
        }
        return Err("ValueError");
      }
      var blockId := parsed.value;
      CountStep(rows, i);
      blockCounts := Increment(blockCounts, blockId);
      instructionCounts := Increment(instructionCounts, (blockId, row.line.instruction));
      leftCounts := Increment(leftCounts, (blockId, row.line.left));
      rightCounts := Increment(rightCounts, (blockId, row.line.right));
      i := i + 1;
    }
    assert rows[..i] == rows;
    r := Ok(Counts(blockCounts, instructionCounts, leftCounts, rightCounts));
  }

  /** Reading row `i` is one increment of each of the four counters. */
  lemma CountStep(rows: seq<Row>, i: nat)
    requires i < |rows| && AllIdsParse(rows[..i]) && ParseInt(rows[i].blockId).Some?
    ensures AllIdsParse(rows[..i + 1])
    ensures var b := ParseInt(rows[i].blockId).value;
            var l := rows[i].line;
            && Tally(Ids(rows[..i + 1])) == Increment(Tally(Ids(rows[..i])), b)
            && Tally(ColumnKeys(rows[..i + 1], Instruction)) == Increment(Tally(ColumnKeys(rows[..i], Instruction)), (b, l.instruction))
            && Tally(ColumnKeys(rows[..i + 1], LeftOperand)) == Increment(Tally(ColumnKeys(rows[..i], LeftOperand)), (b, l.left))
            && Tally(ColumnKeys(rows[..i + 1], RightOperand)) == Increment(Tally(ColumnKeys(rows[..i], RightOperand)), (b, l.right))
  {
    var b := ParseInt(rows[i].blockId).value;
    var l := rows[i].line;
    assert AllIdsParse(rows[..i + 1]);
    assert Ids(rows[..i + 1]) == Ids(rows[..i]) + [b];
    assert ColumnKeys(rows[..i + 1], Instruction) == ColumnKeys(rows[..i], Instruction) + [(b, l.instruction)];
    assert ColumnKeys(rows[..i + 1], LeftOperand) == ColumnKeys(rows[..i], LeftOperand) + [(b, l.left)];
    assert ColumnKeys(rows[..i + 1], RightOperand) == ColumnKeys(rows[..i], RightOperand) + [(b, l.right)];
    TallySnoc(Ids(rows[..i]), b);
    TallySnoc(ColumnKeys(rows[..i], Instruction), (b, l.instruction));
    TallySnoc(ColumnKeys(rows[..i], LeftOperand), (b, l.left));
    TallySnoc(ColumnKeys(rows[..i], RightOperand), (b, l.right));
  }

  // ---------------------------------------------------------------------
  // Results

  function BlockIs(b: int): PairKey -> bool {
    (k: PairKey) => k.0 == b
  }

  /** The result rows of one column for block `b`: the keys of `d`, in dict
      order, whose block is `b`. */
  function TypeEntries(m: Math, b: int, count: nat, kind: Kind, ks: seq<PairKey>, d: Dict<PairKey, nat>): seq<Entry>
    requires count > 0
    requires forall k :: k in ks ==> k in d.entries
  {
    if ks == [] then []
    else
      var k := ks[|ks| - 1];
      var p := d.entries[k] as real / count as real;
      TypeEntries(m, b, count, kind, ks[..|ks| - 1], d)
      + (if k.0 == b then [Entry(b, kind, k.1, p, EntropyOf(m, [p]))] else [])
  }

  function BlockEntries(m: Math, b: int, count: nat, c: Counts): seq<Entry>
    requires count > 0
    requires c.instructions.Valid() && c.lefts.Valid() && c.rights.Valid()
  {
    TypeEntries(m, b, count, Instruction, c.instructions.keys, c.instructions)
    + TypeEntries(m, b, count, LeftOperand, c.lefts.keys, c.lefts)
    + TypeEntries(m, b, count, RightOperand, c.rights.keys, c.rights)
  }

  ghost predicate CountsValid(c: Counts) {
    && c.blocks.Valid() && c.instructions.Valid() && c.lefts.Valid() && c.rights.Valid()
    && forall b :: b in c.blocks.entries ==> c.blocks.entries[b] > 0
  }

  function AllEntries(m: Math, bs: seq<int>, c: Counts): seq<Entry>
    requires CountsValid(c)
    requires forall b :: b in bs ==> b in c.blocks.entries
  {
    if bs == [] then []
    else
      var b := bs[|bs| - 1];
      AllEntries(m, bs[..|bs| - 1], c) + BlockEntries(m, b, c.blocks.entries[b], c)
  }

  method FilterType(m: Math, b: int, count: nat, kind: Kind, d: Dict<PairKey, nat>) returns (rows: seq<Entry>)
    requires count > 0
    requires d.Valid()
    ensures rows == TypeEntries(m, b, count, kind, d.keys, d)
  {
    rows := [];
    var j := 0;
    while j < |d.keys|
      invariant 0 <= j <= |d.keys|
      invariant rows == TypeEntries(m, b, count, kind, d.keys[..j], d)
    {
      var k := d.keys[j];
      TypeEntriesStep(m, b, count, kind, d, j);
      if k.0 == b {
        var probability := d.entries[k] as real / count as real;
        var entropy := CalculateEntropy(m, [probability]);
        rows := rows + [Entry(b, kind, k.1, probability, entropy)];
      }
      j := j + 1;
    }
    assert d.keys[..j] == d.keys;
  }

  /** The results list: blocks in the order of `block_counts`; within a block,
      the Instruction rows, then the Left Operand rows, then the Right Operand
      rows. */
  method Results(m: Math, c: Counts) returns (results: seq<Entry>)
    requires CountsValid(c)
    ensures results == AllEntries(m, c.blocks.keys, c)
  {
    results := [];
    var i := 0;
    while i < |c.blocks.keys|
      invariant 0 <= i <= |c.blocks.keys|
      invariant results == AllEntries(m, c.blocks.keys[..i], c)
    {
      var b := c.blocks.keys[i];
      AllEntriesStep(m, c, i);
      var count := c.blocks.entries[b];
      var r1 := FilterType(m, b, count, Instruction, c.instructions);
      var r2 := FilterType(m, b, count, LeftOperand, c.lefts);
      var r3 := FilterType(m, b, count, RightOperand, c.rights);
      var block := r1 + r2 + r3;
      assert block == BlockEntries(m, b, count, c);
      results := results + block;
      i := i + 1;
    }
    assert c.blocks.keys[..i] == c.blocks.keys;
  }

  lemma TypeEntriesStep(m: Math, b: int, count: nat, kind: Kind, d: Dict<PairKey, nat>, j: nat)
    requires count > 0 && d.Valid() && j < |d.keys|
    ensures d.keys[j] in d.entries
    ensures forall k :: k in d.keys[..j + 1] ==> k in d.entries
    ensures var k := d.keys[j];
      var p := d.entries[k] as real / count as real;
      TypeEntries(m, b, count, kind, d.keys[..j + 1], d)
      == TypeEntries(m, b, count, kind, d.keys[..j], d) + (if k.0 == b then [Entry(b, kind, k.1, p, EntropyOf(m, [p]))] else [])
  {
    assert d.keys[..j + 1][..j] == d.keys[..j];
  }

  lemma AllEntriesStep(m: Math, c: Counts, i: nat)
    requires CountsValid(c) && i < |c.blocks.keys|
    ensures c.blocks.keys[i] in c.blocks.entries
    ensures forall b :: b in c.blocks.keys[..i + 1] ==> b in c.blocks.entries
    ensures var b := c.blocks.keys[i];
      AllEntries(m, c.blocks.keys[..i + 1], c) == AllEntries(m, c.blocks.keys[..i], c) + BlockEntries(m, b, c.blocks.entries[b], c)
  {
    assert c.blocks.keys[..i + 1][..i] == c.blocks.keys[..i];
  }

  /** The whole script: ValueError on a non-integer `Block_ID`, otherwise the
      results list. */
  method Script(m: Math, rows: seq<Row>) returns (r: Result<seq<Entry>>)
    ensures r.Err? <==> !AllIdsParse(rows)
    ensures r.Ok? ==>
      && CountsValid(CountAll(rows).value)
      && r.value == AllEntries(m, CountAll(rows).value.blocks.keys, CountAll(rows).value)
  {
    var counts := CountRows(rows);
    if counts.Err? {
      return Err(counts.error);
    }
    CountsAreValid(rows);
    var results := Results(m, counts.value);
    r := Ok(results);
  }

  // ---------------------------------------------------------------------
  // Properties

  /** The counting dicts are well formed and every block count is positive;
      `block_counts[b]` is the number of rows of block `b`. */
  lemma CountsAreValid(rows: seq<Row>)
    requires AllIdsParse(rows)
    ensures CountsValid(CountAll(rows).value)
    ensures forall b :: b in CountAll(rows).value.blocks.entries ==>
      CountAll(rows).value.blocks.entries[b] == Count(Ids(rows), b)
  {
    TallyIsCount(Ids(rows));
    TallyIsCount(ColumnKeys(rows, Instruction));
    TallyIsCount(ColumnKeys(rows, LeftOperand));
    TallyIsCount(ColumnKeys(rows, RightOperand));
    forall b | b in Tally(Ids(rows)).entries ensures Tally(Ids(rows)).entries[b] > 0 {
      CountPositive(Ids(rows), b);
    }
  }

  /** Sum of the probabilities of a sequence of entries. */
  function EntrySum(rows: seq<Entry>): real {
    if rows == [] then 0.0 else EntrySum(rows[..|rows| - 1]) + rows[|rows| - 1].probability
  }

  lemma {:induction false} EntrySumAppend(xs: seq<Entry>, ys: seq<Entry>)
    ensures EntrySum(xs + ys) == EntrySum(xs) + EntrySum(ys)
    decreases |ys|
  {
    if ys == [] {
      assert xs + ys == xs;
    } else {
      assert (xs + ys)[..|xs + ys| - 1] == xs + ys[..|ys| - 1];
      EntrySumAppend(xs, ys[..|ys| - 1]);
    }
  }

  lemma {:induction false} TypeEntriesShareSum(m: Math, b: int, count: nat, kind: Kind, ks: seq<PairKey>, keys: seq<PairKey>)
    requires count > 0
    requires forall k :: k in ks ==> k in Tally(keys).entries && Tally(keys).entries[k] == Count(keys, k)
    ensures EntrySum(TypeEntries(m, b, count, kind, ks, Tally(keys))) == ShareSum(ks, keys, BlockIs(b), count)
    decreases |ks|
  {
    if ks != [] {
      var init := ks[..|ks| - 1];
      var k := ks[|ks| - 1];
      TypeEntriesShareSum(m, b, count, kind, init, keys);
      assert ks == init + [k];
      ShareSumSnoc(init, k, keys, BlockIs(b), count);
      TypeEntriesSnoc(m, b, count, kind, ks, Tally(keys));
    }
  }

  /** The entry of the last key adds its probability when it is of block b. */
  lemma TypeEntriesSnoc(m: Math, b: int, count: nat, kind: Kind, ks: seq<PairKey>, d: Dict<PairKey, nat>)
    requires count > 0 && ks != []
    requires forall k :: k in ks ==> k in d.entries
    ensures var k := ks[|ks| - 1];
      EntrySum(TypeEntries(m, b, count, kind, ks, d))
      == EntrySum(TypeEntries(m, b, count, kind, ks[..|ks| - 1], d)) + (if k.0 == b then d.entries[k] as real / count as real else 0.0)
  {
    var k := ks[|ks| - 1];
    var p := d.entries[k] as real / count as real;
    var part := if k.0 == b then [Entry(b, kind, k.1, p, EntropyOf(m, [p]))] else [];
    EntrySumAppend(TypeEntries(m, b, count, kind, ks[..|ks| - 1], d), part);
    if k.0 == b {
      assert part[..0] == [];
    }
  }

  /** The keys of block `b` in one column are as many as the rows of `b`. */
  lemma {:induction false} ColumnKeysOfBlock(rows: seq<Row>, kind: Kind, b: int)
    requires AllIdsParse(rows)
    ensures CountIf(ColumnKeys(rows, kind), BlockIs(b)) == Count(Ids(rows), b)
    decreases |rows|
  {
    if rows != [] {
      var init := rows[..|rows| - 1];
      assert AllIdsParse(init);
      assert ColumnKeys(rows, kind)[..|rows| - 1] == ColumnKeys(init, kind);
      assert Ids(rows)[..|rows| - 1] == Ids(init);
      ColumnKeysOfBlock(init, kind, b);
    }
  }

  lemma TypeEntriesSumToOne(m: Math, rows: seq<Row>, kind: Kind, b: int)
    requires AllIdsParse(rows)
    requires b in Ids(rows)
    ensures Count(Ids(rows), b) > 0
    ensures Tally(ColumnKeys(rows, kind)).Valid()
    ensures EntrySum(TypeEntries(m, b, Count(Ids(rows), b), kind, Tally(ColumnKeys(rows, kind)).keys,
                                 Tally(ColumnKeys(rows, kind)))) == 1.0
  {
    var keys := ColumnKeys(rows, kind);
    var n := Count(Ids(rows), b);
    CountPositive(Ids(rows), b);
    TallyIsCount(keys);
    TypeEntriesShareSum(m, b, n, kind, Distinct(keys), keys);
    ShareSumOfDistinct(keys, BlockIs(b), n);
    ColumnKeysOfBlock(rows, kind, b);
    RatioOfSelf(n);
  }

  /** For every block and every column, the probabilities written add up to
      1: counts are never mixed across blocks. */
  lemma BlockEntriesSumToOne(m: Math, rows: seq<Row>, b: int)
    requires AllIdsParse(rows)
    requires b in CountAll(rows).value.blocks.entries
    ensures CountsValid(CountAll(rows).value)
    ensures var c := CountAll(rows).value;
            var count := c.blocks.entries[b];
            && EntrySum(TypeEntries(m, b, count, Instruction, c.instructions.keys, c.instructions)) == 1.0
            && EntrySum(TypeEntries(m, b, count, LeftOperand, c.lefts.keys, c.lefts)) == 1.0
            && EntrySum(TypeEntries(m, b, count, RightOperand, c.rights.keys, c.rights)) == 1.0
  {
    CountsAreValid(rows);
    TallyIsCount(Ids(rows));
    TypeEntriesSumToOne(m, rows, Instruction, b);
    TypeEntriesSumToOne(m, rows, LeftOperand, b);
    TypeEntriesSumToOne(m, rows, RightOperand, b);
  }

  function Rank(kind: Kind): nat {
    match kind
    case Instruction => 0
    case LeftOperand => 1
    case RightOperand => 2
  }

  lemma {:induction false} TypeEntriesOfBlock(m: Math, b: int, count: nat, kind: Kind, ks: seq<PairKey>, d: Dict<PairKey, nat>)
    requires count > 0
    requires forall k :: k in ks ==> k in d.entries
    ensures forall e :: e in TypeEntries(m, b, count, kind, ks, d) ==> e.blockId == b && e.kind == kind
    decreases |ks|
  {
    if ks != [] {
      TypeEntriesOfBlock(m, b, count, kind, ks[..|ks| - 1], d);
    }
  }

  /** Every entry of a block carries that block's id, and within the block
      the Instruction rows come first, then the Left Operand rows, then the
      Right Operand rows. */
  lemma BlockEntriesInOrder(m: Math, b: int, count: nat, c: Counts)
    requires count > 0
    requires c.instructions.Valid() && c.lefts.Valid() && c.rights.Valid()
    ensures forall e :: e in BlockEntries(m, b, count, c) ==> e.blockId == b
    ensures forall i, j :: 0 <= i < j < |BlockEntries(m, b, count, c)| ==>
      Rank(BlockEntries(m, b, count, c)[i].kind) <= Rank(BlockEntries(m, b, count, c)[j].kind)
  {
    var r1 := TypeEntries(m, b, count, Instruction, c.instructions.keys, c.instructions);
    var r2 := TypeEntries(m, b, count, LeftOperand, c.lefts.keys, c.lefts);
    var r3 := TypeEntries(m, b, count, RightOperand, c.rights.keys, c.rights);
    TypeEntriesOfBlock(m, b, count, Instruction, c.instructions.keys, c.instructions);
    TypeEntriesOfBlock(m, b, count, LeftOperand, c.lefts.keys, c.lefts);
    TypeEntriesOfBlock(m, b, count, RightOperand, c.rights.keys, c.rights);
    var all := r1 + r2 + r3;
    forall i | 0 <= i < |all| ensures all[i].blockId == b && Rank(all[i].kind) == if i < |r1| then 0 else if i < |r1| + |r2| then 1 else 2 {
      if i < |r1| {
        assert all[i] == r1[i];
      } else if i < |r1| + |r2| {
        assert all[i] == r2[i - |r1|];
      } else {
        assert all[i] == r3[i - |r1| - |r2|];
      }
    }
  }
}
