/** Per-block probabilities and entropies of instructions and operands
    (`entropy.py`): the rows of the disassembly table are grouped by block,
    every (value, type) pair of a block is counted, and each count becomes a
    probability relative to the number of lines of the block. */
module BlockEntropy {
  import opened Dicts
  import opened Counting
  import opened Grouping
  import opened Numeric

  /** The `Type` column: which field of a line a value came from. */
  datatype Kind = Instruction | LeftOperand | RightOperand

  /** One line of a block, as read from the table. */
  datatype Line = Line(instruction: string, left: string, right: string)

  /** One row of the input table. */
  datatype Row = Row(blockId: string, line: Line)

  /** One row of the output table. */
  datatype Record = Record(blockId: string, kind: Kind, assembly: string, probability: real, entropy: real)

  type Key = (string, Kind)

  // ---------------------------------------------------------------------
  // calculate_entropy

  /** `-sum(p * log2(p))` over the non-zero entries. */
  function EntropyOf(m: Math, ps: seq<real>): real {
    if ps == [] then 0.0
    else
      var p := ps[|ps| - 1];
      EntropyOf(m, ps[..|ps| - 1]) - (if p != 0.0 then p * m.log2(p) else 0.0)
  }

  function NonZero(ps: seq<real>): (r: seq<real>)
    ensures forall i :: 0 <= i < |r| ==> r[i] != 0.0
  {
    if ps == [] then []
    else NonZero(ps[..|ps| - 1]) + (if ps[|ps| - 1] != 0.0 then [ps[|ps| - 1]] else [])
  }

  method CalculateEntropy(m: Math, probabilities: seq<real>) returns (entropy: real)
    ensures entropy == EntropyOf(m, probabilities)
  {
    entropy := 0.0;
    var i := 0;
    while i < |probabilities|
      invariant 0 <= i <= |probabilities|
      invariant entropy == EntropyOf(m, probabilities[..i])
    {
      var prob := probabilities[i];
      assert probabilities[..i + 1][..i] == probabilities[..i];
      if prob != 0.0 {
        entropy := entropy - prob * m.log2(prob);
      }
      i := i + 1;
    }
    assert probabilities[..i] == probabilities;
  }

  /** Zero probabilities contribute nothing: `log2` is only ever applied to
      the non-zero entries. */
  lemma {:induction false} EntropySkipsZeros(m: Math, ps: seq<real>)
    ensures EntropyOf(m, ps) == EntropyOf(m, NonZero(ps))
    decreases |ps|
  {
    if ps != [] {
      var init := ps[..|ps| - 1];
      var p := ps[|ps| - 1];
      EntropySkipsZeros(m, init);
      if p != 0.0 {
        assert NonZero(ps) == NonZero(init) + [p];
        EntropySnoc(m, NonZero(init), p);
      } else {
        assert NonZero(ps) == NonZero(init) + [];
        assert NonZero(init) + [] == NonZero(init);
      }
    }
  }

  /** One more probability subtracts its own term. */
  lemma EntropySnoc(m: Math, ps: seq<real>, p: real)
    ensures EntropyOf(m, ps + [p]) == EntropyOf(m, ps) - (if p != 0.0 then p * m.log2(p) else 0.0)
  {
    assert (ps + [p])[..|ps|] == ps;
  }

  // ---------------------------------------------------------------------
  // Counting in calculate_probabilities_and_entropy

  /** The keys one line increments: its instruction always, each operand only
      when it is not empty. */
  function LineKeys(l: Line): seq<Key> {
    [(l.instruction, Instruction)]
    + (if l.left != "" then [(l.left, LeftOperand)] else [])
    + (if l.right != "" then [(l.right, RightOperand)] else [])
  }

  /** Every key incremented for a block, in order. */
  function BlockKeys(block: seq<Line>): seq<Key> {
    if block == [] then [] else BlockKeys(block[..|block| - 1]) + LineKeys(block[|block| - 1])
  }

  /** The `variables` counter of one block. */
  method CountVariables(block: seq<Line>) returns (variables: Dict<Key, nat>)
    ensures variables == Tally(BlockKeys(block))
  {
    variables := Empty();
    var i := 0;
    while i < |block|
      invariant 0 <= i <= |block|
      invariant variables == Tally(BlockKeys(block[..i]))
    {
      var line := block[i];
      assert block[..i + 1][..i] == block[..i];
      TallyOfLine(BlockKeys(block[..i]), line);
      variables := Increment(variables, (line.instruction, Instruction));
      if line.left != "" {
        variables := Increment(variables, (line.left, LeftOperand));
      }
      if line.right != "" {
        variables := Increment(variables, (line.right, RightOperand));
      }
      i := i + 1;
    }
    assert block[..i] == block;
  }

  /** The increments the loop body makes for one line. */
  function CountLine(d: Dict<Key, nat>, l: Line): Dict<Key, nat> {
    var d1 := Increment(d, (l.instruction, Instruction));
    var d2 := if l.left != "" then Increment(d1, (l.left, LeftOperand)) else d1;
    if l.right != "" then Increment(d2, (l.right, RightOperand)) else d2
  }

  /** Counting one more line is one increment per key of that line. */
  lemma TallyOfLine(keys: seq<Key>, l: Line)
    ensures Tally(keys + LineKeys(l)) == CountLine(Tally(keys), l)
  {
    var ki, kl, kr := (l.instruction, Instruction), (l.left, LeftOperand), (l.right, RightOperand);
    if l.left != "" && l.right != "" {
      assert LineKeys(l) == [ki, kl, kr];
      TallyOfThree(keys, ki, kl, kr);
    } else if l.left != "" {
      assert LineKeys(l) == [ki, kl];
      TallyOfTwo(keys, ki, kl);
    } else if l.right != "" {
      assert LineKeys(l) == [ki, kr];
      TallyOfTwo(keys, ki, kr);
    } else {
      assert LineKeys(l) == [ki];
      TallySnoc(keys, ki);
    }
  }

  lemma TallyOfTwo(keys: seq<Key>, a: Key, b: Key)
    ensures Tally(keys + [a, b]) == Increment(Increment(Tally(keys), a), b)
  {
    TallySnoc(keys, a);
    TallySnoc(keys + [a], b);
    assert keys + [a, b] == keys + [a] + [b];
  }

  lemma TallyOfThree(keys: seq<Key>, a: Key, b: Key, c: Key)
    ensures Tally(keys + [a, b, c]) == Increment(Increment(Increment(Tally(keys), a), b), c)
  {
    TallyOfTwo(keys, a, b);
    TallySnoc(keys + [a, b], c);
    assert keys + [a, b, c] == keys + [a, b] + [c];
  }

  function IsKind(kind: Kind): Key -> bool {
    (k: Key) => k.1 == kind
  }

  function InstructionIs(v: string): Line -> bool {
    (l: Line) => l.instruction == v
  }

  function LeftIs(v: string): Line -> bool {
    (l: Line) => l.left == v
  }

  function RightIs(v: string): Line -> bool {
    (l: Line) => l.right == v
  }

  lemma LineKeyCount(l: Line, k: Key)
    ensures Count(LineKeys(l), k)
         == (if k == (l.instruction, Instruction) then 1 else 0)
          + (if l.left != "" && k == (l.left, LeftOperand) then 1 else 0)
          + (if l.right != "" && k == (l.right, RightOperand) then 1 else 0)
  {
    var a: seq<Key> := [(l.instruction, Instruction)];
    var b: seq<Key> := if l.left != "" then [(l.left, LeftOperand)] else [];
    var c: seq<Key> := if l.right != "" then [(l.right, RightOperand)] else [];
    assert LineKeys(l) == (a + b) + c;
    CountAppend(a + b, c, k);
    CountAppend(a, b, k);
    assert a[..0] == [];
    if b != [] { assert b[..0] == []; }
    if c != [] { assert c[..0] == []; }
  }

  lemma LineKindCount(l: Line, kind: Kind)
    ensures CountIf(LineKeys(l), IsKind(kind))
         == (if kind == Instruction then 1 else 0)
          + (if l.left != "" && kind == LeftOperand then 1 else 0)
          + (if l.right != "" && kind == RightOperand then 1 else 0)
  {
    var a: seq<Key> := [(l.instruction, Instruction)];
    var b: seq<Key> := if l.left != "" then [(l.left, LeftOperand)] else [];
    var c: seq<Key> := if l.right != "" then [(l.right, RightOperand)] else [];
    assert LineKeys(l) == (a + b) + c;
    CountIfAppend(a + b, c, IsKind(kind));
    CountIfAppend(a, b, IsKind(kind));
    assert a[..0] == [];
    if b != [] { assert b[..0] == []; }
    if c != [] { assert c[..0] == []; }
  }

  /** Counts are per (value, type): an instruction is counted once per line
      whatever the operands are, and an operand text is counted only as that
      operand, never when it is empty. */
  lemma {:induction false} KeyCounts(block: seq<Line>, v: string)
    ensures Count(BlockKeys(block), (v, Instruction)) == CountIf(block, InstructionIs(v))
    ensures Count(BlockKeys(block), (v, LeftOperand)) == if v == "" then 0 else CountIf(block, LeftIs(v))
    ensures Count(BlockKeys(block), (v, RightOperand)) == if v == "" then 0 else CountIf(block, RightIs(v))
    decreases |block|
  {
    if block != [] {
      var init := block[..|block| - 1];
      var last := block[|block| - 1];
      KeyCounts(init, v);
      CountAppend(BlockKeys(init), LineKeys(last), (v, Instruction));
      CountAppend(BlockKeys(init), LineKeys(last), (v, LeftOperand));
      CountAppend(BlockKeys(init), LineKeys(last), (v, RightOperand));
      LineKeyCount(last, (v, Instruction));
      LineKeyCount(last, (v, LeftOperand));
      LineKeyCount(last, (v, RightOperand));
    }
  }

  function HasLeft(l: Line): bool { l.left != "" }
  function HasRight(l: Line): bool { l.right != "" }

  /** Each line gives exactly one Instruction key and at most one key of each
      operand type. */
  lemma {:induction false} KindCounts(block: seq<Line>)
    ensures CountIf(BlockKeys(block), IsKind(Instruction)) == |block|
    ensures CountIf(BlockKeys(block), IsKind(LeftOperand)) == CountIf(block, HasLeft)
    ensures CountIf(BlockKeys(block), IsKind(RightOperand)) == CountIf(block, HasRight)
    decreases |block|
  {
    if block != [] {
      var init := block[..|block| - 1];
      var last := block[|block| - 1];
      KindCounts(init);
      CountIfAppend(BlockKeys(init), LineKeys(last), IsKind(Instruction));
      CountIfAppend(BlockKeys(init), LineKeys(last), IsKind(LeftOperand));
      CountIfAppend(BlockKeys(init), LineKeys(last), IsKind(RightOperand));
      LineKindCount(last, Instruction);
      LineKindCount(last, LeftOperand);
      LineKindCount(last, RightOperand);
    }
  }

  // ---------------------------------------------------------------------
  // Probabilities in calculate_probabilities_and_entropy

  function MakeRecord(m: Math, blockId: string, key: Key, count: nat, total: nat): Record
    requires total > 0
  {
    var p := count as real / total as real;
    Record(blockId, key.1, key.0, p, EntropyOf(m, [p]))
  }

  /** One record per key of `ks`, with probability count / total. */
  function KeyRecords(m: Math, blockId: string, ks: seq<Key>, keys: seq<Key>, total: nat): (r: seq<Record>)
    requires total > 0
    ensures |r| == |ks|
  {
    seq(|ks|, i requires 0 <= i < |ks| => MakeRecord(m, blockId, ks[i], Count(keys, ks[i]), total))
  }

  /** The records written for one block, in the counter's key order. */
  function BlockRecords(m: Math, blockId: string, block: seq<Line>): seq<Record> {
    if block == [] then []
    else KeyRecords(m, blockId, Distinct(BlockKeys(block)), BlockKeys(block), |block|)
  }

  /** The records written for the blocks `ids`, in that order. */
  function AllRecords(m: Math, ids: seq<string>, blocks: Dict<string, seq<Line>>): seq<Record>
    requires forall id :: id in ids ==> id in blocks.entries
  {
    if ids == [] then []
    else AllRecords(m, ids[..|ids| - 1], blocks) + BlockRecords(m, ids[|ids| - 1], blocks.entries[ids[|ids| - 1]])
  }

  method BlockProbabilities(m: Math, blockId: string, block: seq<Line>) returns (rows: seq<Record>)
    ensures rows == BlockRecords(m, blockId, block)
  {
    var totalCount := |block|;
    var variables := CountVariables(block);
    TallyIsCount(BlockKeys(block));
    rows := [];
    if totalCount == 0 {
      return;
    }
    var ks := variables.keys;
    var j := 0;
    while j < |ks|
      invariant 0 <= j <= |ks|
      invariant rows == KeyRecords(m, blockId, ks[..j], BlockKeys(block), totalCount)
    {
      var count := variables.entries[ks[j]];
      var probability := count as real / totalCount as real;
      var entropy := CalculateEntropy(m, [probability]);
      KeyRecordsStep(m, blockId, ks, BlockKeys(block), totalCount, j);
      rows := rows + [Record(blockId, ks[j].1, ks[j].0, probability, entropy)];
      j := j + 1;
    }
    assert ks[..j] == ks;
  }

  /** `calculate_probabilities_and_entropy`: the output rows of every block,
      blocks in dict order. */
  method ProbabilitiesAndEntropy(m: Math, blocks: Dict<string, seq<Line>>) returns (rows: seq<Record>)
    requires blocks.Valid()
    ensures rows == AllRecords(m, blocks.keys, blocks)
  {
    rows := [];
    var i := 0;
    while i < |blocks.keys|
      invariant 0 <= i <= |blocks.keys|
      invariant rows == AllRecords(m, blocks.keys[..i], blocks)
    {
      var blockId := blocks.keys[i];
      AllRecordsStep(m, blocks, i);
      var more := BlockProbabilities(m, blockId, blocks.entries[blockId]);
      rows := rows + more;
      i := i + 1;
    }
    assert blocks.keys[..i] == blocks.keys;
  }

  lemma KeyRecordsStep(m: Math, blockId: string, ks: seq<Key>, keys: seq<Key>, total: nat, j: nat)
    requires total > 0 && j < |ks|
    ensures KeyRecords(m, blockId, ks[..j + 1], keys, total)
         == KeyRecords(m, blockId, ks[..j], keys, total) + [MakeRecord(m, blockId, ks[j], Count(keys, ks[j]), total)]
  {
  }

  lemma AllRecordsStep(m: Math, blocks: Dict<string, seq<Line>>, i: nat)
    requires blocks.Valid() && i < |blocks.keys|
    ensures blocks.keys[i] in blocks.entries
    ensures forall id :: id in blocks.keys[..i + 1] ==> id in blocks.entries
    ensures AllRecords(m, blocks.keys[..i + 1], blocks)
         == AllRecords(m, blocks.keys[..i], blocks) + BlockRecords(m, blocks.keys[i], blocks.entries[blocks.keys[i]])
  {
    assert blocks.keys[..i + 1][..i] == blocks.keys[..i];
  }

  /** Sum of the probabilities of the records of one type. */
  function ProbabilitySum(rows: seq<Record>, kind: Kind): real {
    if rows == [] then 0.0
    else (if rows[0].kind == kind then rows[0].probability else 0.0) + ProbabilitySum(rows[1..], kind)
  }

  lemma {:induction false} ProbabilitySumIsShareSum(m: Math, blockId: string, ks: seq<Key>, keys: seq<Key>, total: nat, kind: Kind)
    requires total > 0
    ensures ProbabilitySum(KeyRecords(m, blockId, ks, keys, total), kind) == ShareSum(ks, keys, IsKind(kind), total)
    decreases |ks|
  {
    if ks != [] {
      assert KeyRecords(m, blockId, ks, keys, total)[1..] == KeyRecords(m, blockId, ks[1..], keys, total);
      ProbabilitySumIsShareSum(m, blockId, ks[1..], keys, total, kind);
    }
  }

  /** The probabilities of one type add up to the number of keys of that
      type over the number of lines. */
  lemma KindProbabilitySum(m: Math, blockId: string, block: seq<Line>, kind: Kind)
    requires block != []
    ensures ProbabilitySum(BlockRecords(m, blockId, block), kind)
         == CountIf(BlockKeys(block), IsKind(kind)) as real / |block| as real
  {
    var keys := BlockKeys(block);
    ProbabilitySumIsShareSum(m, blockId, Distinct(keys), keys, |block|, kind);
    ShareSumOfDistinct(keys, IsKind(kind), |block|);
  }

  lemma RatioInUnitRange(c: nat, n: nat)
    requires 0 < n && c <= n
    ensures 0.0 <= c as real / n as real <= 1.0
    ensures 0 < c ==> 0.0 < c as real / n as real
  {
  }

  /** The Instruction probabilities of a block add up to 1. */
  lemma InstructionProbabilitiesSumToOne(m: Math, blockId: string, block: seq<Line>)
    requires block != []
    ensures ProbabilitySum(BlockRecords(m, blockId, block), Instruction) == 1.0
  {
    KindProbabilitySum(m, blockId, block, Instruction);
    KindCounts(block);
    RatioOfSelf(|block|);
  }

  /** The probabilities of an operand type add up to the share of lines that
      have such an operand, which is at most 1. */
  lemma OperandProbabilitiesSum(m: Math, blockId: string, block: seq<Line>)
    requires block != []
    ensures ProbabilitySum(BlockRecords(m, blockId, block), LeftOperand)
         == CountIf(block, HasLeft) as real / |block| as real <= 1.0
    ensures ProbabilitySum(BlockRecords(m, blockId, block), RightOperand)
         == CountIf(block, HasRight) as real / |block| as real <= 1.0
  {
    KindProbabilitySum(m, blockId, block, LeftOperand);
    KindProbabilitySum(m, blockId, block, RightOperand);
    KindCounts(block);
    CountIfAtMostLength(block, HasLeft);
    CountIfAtMostLength(block, HasRight);
    RatioInUnitRange(CountIf(block, HasLeft), |block|);
    RatioInUnitRange(CountIf(block, HasRight), |block|);
  }

  /** One record per distinct (value, type) of the block, none repeated. */
  lemma RecordsAreDistinct(m: Math, blockId: string, block: seq<Line>)
    requires block != []
    ensures |BlockRecords(m, blockId, block)| == |Distinct(BlockKeys(block))|
    ensures forall i, j :: 0 <= i < j < |BlockRecords(m, blockId, block)| ==>
      (BlockRecords(m, blockId, block)[i].assembly, BlockRecords(m, blockId, block)[i].kind)
      != (BlockRecords(m, blockId, block)[j].assembly, BlockRecords(m, blockId, block)[j].kind)
  {
    DistinctProperties(BlockKeys(block));
  }

  /** A key that occurs in a block occurs at most once per line. */
  lemma KeyCountAtMostLines(block: seq<Line>, k: Key)
    ensures Count(BlockKeys(block), k) <= |block|
  {
    KindCounts(block);
    CountAtMostCountIf(BlockKeys(block), k, IsKind(k.1));
    CountIfAtMostLength(block, HasLeft);
    CountIfAtMostLength(block, HasRight);
  }

  /** Every probability written lies in (0, 1]. */
  lemma ProbabilitiesInUnitRange(m: Math, blockId: string, block: seq<Line>)
    requires block != []
    ensures forall r :: r in BlockRecords(m, blockId, block) ==> 0.0 < r.probability <= 1.0
  {
    var keys := BlockKeys(block);
    var ks := Distinct(keys);
    var rows := BlockRecords(m, blockId, block);
    DistinctProperties(keys);
    forall i | 0 <= i < |rows| ensures 0.0 < rows[i].probability <= 1.0 {
      CountPositive(keys, ks[i]);
      KeyCountAtMostLines(block, ks[i]);
      RatioInUnitRange(Count(keys, ks[i]), |block|);
    }
  }

  // ---------------------------------------------------------------------
  // read_assembly_csv

  function RowPairs(rows: seq<Row>): (r: seq<(string, Line)>)
    ensures |r| == |rows|
  {
    seq(|rows|, i requires 0 <= i < |rows| => (rows[i].blockId, rows[i].line))
  }

  /** `read_assembly_csv`: rows grouped by `Block_ID`; blocks in order of
      first appearance, each holding its lines in file order. */
  method ReadAssemblyCsv(rows: seq<Row>) returns (blocks: Dict<string, seq<Line>>)
    ensures blocks == GroupBy(RowPairs(rows))
    ensures blocks.Valid()
    ensures blocks.keys == Distinct(Keys(RowPairs(rows)))
    ensures forall id :: id in blocks.entries ==> blocks.entries[id] == Select(RowPairs(rows), id)
  {
    blocks := Empty();
    var i := 0;
    while i < |rows|
      invariant 0 <= i <= |rows|
      invariant blocks == GroupBy(RowPairs(rows[..i]))
    {
      assert RowPairs(rows[..i + 1])[..i] == RowPairs(rows[..i]);
      blocks := Append(blocks, rows[i].blockId, rows[i].line);
      i := i + 1;
    }
    assert rows[..i] == rows;
    GroupByIsSelect(RowPairs(rows));
  }
}
