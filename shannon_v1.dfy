/** The first Shannon-entropy script (`shannon_entropy_version1.py`): each
    block keeps three parallel lists (instructions, left operands, right
    operands, empty strings included); every distinct value of a list gets its
    share of the list, and the entropy of the whole list. */
module ShannonV1 {
  import opened Dicts
  import opened Counting
  import opened Grouping
  import opened Numeric
  import opened BlockEntropy

  // ---------------------------------------------------------------------
  // calculate_entropy(data)

  /** `-sum(p * log2(p))` over the values `vs`, each with its share of `data`. */
  function ValuesEntropy(m: Math, vs: seq<string>, data: seq<string>): real
    requires data != []
  {
    if vs == [] then 0.0
    else
      var p := Count(data, vs[|vs| - 1]) as real / |data| as real;
      ValuesEntropy(m, vs[..|vs| - 1], data) - p * m.log2(p)
  }

  /** The entropy of a list: one term per distinct value; an empty list has no
      values and entropy 0. */
  function DataEntropy(m: Math, data: seq<string>): real {
    if data == [] then 0.0 else ValuesEntropy(m, Distinct(data), data)
  }

  method CalculateEntropy(m: Math, data: seq<string>) returns (entropy: real)
    ensures entropy == DataEntropy(m, data)
  {
    entropy := 0.0;
    var values := Distinct(data);
    if data == [] {
      return;
    }
    var i := 0;
    while i < |values|
      invariant 0 <= i <= |values|
      invariant entropy == ValuesEntropy(m, values[..i], data)
    {
      var probability := Count(data, values[i]) as real / |data| as real;
      assert values[..i + 1][..i] == values[..i];
      entropy := entropy - probability * m.log2(probability);
      i := i + 1;
    }
    assert values[..i] == values;
  }

  /** Only values that occur are visited, so `log2` is never applied to 0:
      every probability taken lies in (0, 1]. */
  lemma VisitedProbabilitiesPositive(data: seq<string>)
    ensures forall v :: v in Distinct(data) ==>
      0.0 < Count(data, v) as real / |data| as real <= 1.0
  {
    DistinctProperties(data);
    forall v | v in Distinct(data) ensures 0.0 < Count(data, v) as real / |data| as real <= 1.0 {
      ShareInUnitRange(data, v);
    }
  }

  /** A list holding a single value, however often, has entropy 0. */
  lemma SingleValuedEntropyIsZero(m: Math, data: seq<string>, v: string)
    requires Sound(m)
    requires data != []
    requires forall i :: 0 <= i < |data| ==> data[i] == v
    ensures DataEntropy(m, data) == 0.0
  {
    DistinctOfConstant(data, v);
    RatioOfSelf(|data|);
    var p := Count(data, v) as real / |data| as real;
    assert p == 1.0;
    assert [v][..0] == [];
    assert DataEntropy(m, data) == ValuesEntropy(m, [], data) - p * m.log2(p);
  }

  // ---------------------------------------------------------------------
  // Grouping in main

  /** The three lists kept for one block. */
  datatype Columns = Columns(instructions: seq<string>, lefts: seq<string>, rights: seq<string>)

  /** The three lists of a block's lines. */
  function Split(lines: seq<Line>): (c: Columns)
    ensures |c.instructions| == |c.lefts| == |c.rights| == |lines|
  {
    Columns(seq(|lines|, i requires 0 <= i < |lines| => lines[i].instruction),
            seq(|lines|, i requires 0 <= i < |lines| => lines[i].left),
            seq(|lines|, i requires 0 <= i < |lines| => lines[i].right))
  }

  /** One row appended to its block's lists, which are created together on
      first sight of the block. */
  function AddRow(d: Dict<string, Columns>, row: Row): Dict<string, Columns> {
    var c := d.GetOr(row.blockId, Columns([], [], []));
    d.Put(row.blockId, Columns(c.instructions + [row.line.instruction],
                               c.lefts + [row.line.left],
                               c.rights + [row.line.right]))
  }

  function BlockData(rows: seq<Row>): Dict<string, Columns> {
    if rows == [] then Empty() else AddRow(BlockData(rows[..|rows| - 1]), rows[|rows| - 1])
  }

  method GroupRows(rows: seq<Row>) returns (blockData: Dict<string, Columns>)
    ensures blockData == BlockData(rows)
  {
    blockData := Empty();
    var i := 0;
    while i < |rows|
      invariant 0 <= i <= |rows|
      invariant blockData == BlockData(rows[..i])
    {
      assert rows[..i + 1][..i] == rows[..i];
      blockData := StoreRow(blockData, rows[i]);
      i := i + 1;
    }
    assert rows[..i] == rows;
  }

  /** The loop body: the block's lists are created when missing, then the
      line's three fields are appended. */
  method StoreRow(before: Dict<string, Columns>, row: Row) returns (blockData: Dict<string, Columns>)
    ensures blockData == AddRow(before, row)
  {
    blockData := before;
    if row.blockId !in blockData.entries {
      blockData := blockData.Put(row.blockId, Columns([], [], []));
    }
    var c := blockData.entries[row.blockId];
    ghost var updated := Columns(c.instructions + [row.line.instruction], c.lefts + [row.line.left], c.rights + [row.line.right]);
    PutPut(before, row.blockId, Columns([], [], []), updated);
    blockData := blockData.Put(row.blockId, Columns(c.instructions + [row.line.instruction],
                                                    c.lefts + [row.line.left],
                                                    c.rights + [row.line.right]));
  }

  /** The lists of each block are exactly the columns of that block's rows,
      in file order; so the three lists have equal length, one entry per row,
      empty operands included; blocks are in order of first appearance. */
  lemma {:induction false} BlockDataIsColumns(rows: seq<Row>)
    ensures BlockData(rows).keys == GroupBy(RowPairs(rows)).keys
    ensures forall b :: b in BlockData(rows).entries <==> b in GroupBy(RowPairs(rows)).entries
    ensures forall b :: b in BlockData(rows).entries ==>
      BlockData(rows).entries[b] == Split(GroupBy(RowPairs(rows)).entries[b])
    decreases |rows|
  {
    if rows != [] {
      var init := rows[..|rows| - 1];
      var row := rows[|rows| - 1];
      BlockDataIsColumns(init);
      assert RowPairs(rows)[..|rows| - 1] == RowPairs(init);
      ColumnsStep(GroupBy(RowPairs(init)), row);
    }
  }

  /** Appending one line to a block's group appends its three fields to the
      block's lists. */
  lemma ColumnsStep(g: Dict<string, seq<Line>>, row: Row)
    ensures var lines := g.GetOr(row.blockId, []);
      var c := if row.blockId in g.entries then Split(g.entries[row.blockId]) else Columns([], [], []);
      Split(lines + [row.line]) == Columns(c.instructions + [row.line.instruction], c.lefts + [row.line.left], c.rights + [row.line.right])
  {
    var lines := g.GetOr(row.blockId, []);
    assert Split(lines + [row.line]) == Columns(Split(lines).instructions + [row.line.instruction],
                                                Split(lines).lefts + [row.line.left],
                                                Split(lines).rights + [row.line.right]);
    assert row.blockId !in g.entries ==> lines == [] && Split(lines) == Columns([], [], []);
  }

  // ---------------------------------------------------------------------
  // Results in main

  /** One result row per distinct value of a list: its share and the entropy
      of the whole list. */
  function ListRecords(m: Math, blockId: string, kind: Kind, data: seq<string>): (r: seq<Record>)
    ensures |r| == |Distinct(data)|
  {
    if data == [] then []
    else
      var vs := Distinct(data);
      seq(|vs|, i requires 0 <= i < |vs| =>
        Record(blockId, kind, vs[i], Count(data, vs[i]) as real / |data| as real, DataEntropy(m, data)))
  }

  function BlockResults(m: Math, blockId: string, c: Columns): seq<Record> {
    ListRecords(m, blockId, Instruction, c.instructions)
    + ListRecords(m, blockId, LeftOperand, c.lefts)
    + ListRecords(m, blockId, RightOperand, c.rights)
  }

  function AllResults(m: Math, ids: seq<string>, d: Dict<string, Columns>): seq<Record>
    requires forall id :: id in ids ==> id in d.entries
  {
    if ids == [] then []
    else AllResults(m, ids[..|ids| - 1], d) + BlockResults(m, ids[|ids| - 1], d.entries[ids[|ids| - 1]])
  }

  method WriteList(m: Math, blockId: string, kind: Kind, data: seq<string>) returns (rows: seq<Record>)
    ensures rows == ListRecords(m, blockId, kind, data)
  {
    rows := [];
    if data == [] {
      return;
    }
    var values := Distinct(data);
    var i := 0;
    while i < |values|
      invariant 0 <= i <= |values|
      invariant rows == ListRecords(m, blockId, kind, data)[..i]
    {
      var probability := Count(data, values[i]) as real / |data| as real;
      var entropy := CalculateEntropy(m, data);
      rows := rows + [Record(blockId, kind, values[i], probability, entropy)];
      i := i + 1;
    }
  }

  /** The result rows: blocks in dict order, the three types in order, one row
      per distinct value. */
  method WriteResults(m: Math, blockData: Dict<string, Columns>) returns (rows: seq<Record>)
    requires blockData.Valid()
    ensures rows == AllResults(m, blockData.keys, blockData)
  {
    rows := [];
    var i := 0;
    while i < |blockData.keys|
      invariant 0 <= i <= |blockData.keys|
      invariant rows == AllResults(m, blockData.keys[..i], blockData)
    {
      var blockId := blockData.keys[i];
      AllResultsStep(m, blockData, i);
      var c := blockData.entries[blockId];
      var r1 := WriteList(m, blockId, Instruction, c.instructions);
      var r2 := WriteList(m, blockId, LeftOperand, c.lefts);
      var r3 := WriteList(m, blockId, RightOperand, c.rights);
      var block := r1 + r2 + r3;
      assert block == BlockResults(m, blockId, c);
      rows := rows + block;
      i := i + 1;
    }
    assert blockData.keys[..i] == blockData.keys;
  }

  lemma AllResultsStep(m: Math, d: Dict<string, Columns>, i: nat)
    requires d.Valid() && i < |d.keys|
    ensures d.keys[i] in d.entries
    ensures forall id :: id in d.keys[..i + 1] ==> id in d.entries
    ensures AllResults(m, d.keys[..i + 1], d) == AllResults(m, d.keys[..i], d) + BlockResults(m, d.keys[i], d.entries[d.keys[i]])
  {
    assert d.keys[..i + 1][..i] == d.keys[..i];
  }

  /** Sum of the probabilities of a sequence of rows. */
  function TotalProbability(rows: seq<Record>): real {
    if rows == [] then 0.0 else rows[0].probability + TotalProbability(rows[1..])
  }

  lemma {:induction false} TotalProbabilityIsShareSum(m: Math, blockId: string, kind: Kind, vs: seq<string>, data: seq<string>)
    requires data != []
    ensures TotalProbability(seq(|vs|, i requires 0 <= i < |vs| =>
              Record(blockId, kind, vs[i], Count(data, vs[i]) as real / |data| as real, DataEntropy(m, data))))
         == ShareSum(vs, data, Every(), |data|)
    decreases |vs|
  {
    if vs != [] {
      var rows := seq(|vs|, i requires 0 <= i < |vs| =>
        Record(blockId, kind, vs[i], Count(data, vs[i]) as real / |data| as real, DataEntropy(m, data)));
      var rest := vs[1..];
      assert rows[1..] == seq(|rest|, i requires 0 <= i < |rest| =>
        Record(blockId, kind, rest[i], Count(data, rest[i]) as real / |data| as real, DataEntropy(m, data)));
      TotalProbabilityIsShareSum(m, blockId, kind, rest, data);
    }
  }

  /** For every list, the probabilities of its distinct values add up to 1,
      each lies in (0, 1], and every row repeats the entropy of the whole list. */
  lemma ListRecordsProperties(m: Math, blockId: string, kind: Kind, data: seq<string>)
    requires data != []
    ensures TotalProbability(ListRecords(m, blockId, kind, data)) == 1.0
    ensures forall r :: r in ListRecords(m, blockId, kind, data) ==>
      0.0 < r.probability <= 1.0 && r.entropy == DataEntropy(m, data)
  {
    TotalProbabilityIsShareSum(m, blockId, kind, Distinct(data), data);
    SharesSumToOne(data);
    ListRecordsInUnitRange(m, blockId, kind, data);
  }

  lemma ListRecordsInUnitRange(m: Math, blockId: string, kind: Kind, data: seq<string>)
    requires data != []
    ensures forall r :: r in ListRecords(m, blockId, kind, data) ==>
      0.0 < r.probability <= 1.0 && r.entropy == DataEntropy(m, data)
  {
    var vs := Distinct(data);
    var rows := ListRecords(m, blockId, kind, data);
    DistinctProperties(data);
    forall i | 0 <= i < |rows| ensures 0.0 < rows[i].probability <= 1.0 && rows[i].entropy == DataEntropy(m, data) {
      ShareInUnitRange(data, vs[i]);
    }
  }
}
