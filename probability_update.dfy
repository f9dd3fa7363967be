/** `calculate_assembly_probabilities` (`entropy_probability_update.py`):
    rows of a filtered entropy table are counted per (Block_ID, Type,
    Assembly); each count is divided by the total count of its
    (Block_ID, Type) group. The input Probability and Entropy columns are not
    used.

    The keys are the values `read_csv` gives the cells. A cell is missing
    when its text is one of pandas' default NA markers, the empty cell among
    them. A column whose present cells all read as integers holds integers,
    so "01" and "1" are the same key and 9 sorts before 10; any other column
    holds the text. `groupby` drops every row with a missing key and lists
    its groups in increasing key order, and the merge keeps that order. */
module ProbabilityUpdate {
  import opened Wrappers
  import opened Strings
  import opened Counting
  import opened Sorting
  import opened StringOrder

  /** One input row as text; `probability` and `entropy` are carried but
      never read. */
  datatype InRow = InRow(blockId: string, kind: string, assembly: string, probability: string, entropy: string)

  /** A key as pandas holds it: an integer of an integer column, or text. */
  datatype Key = Num(n: int) | Text(s: string)

  /** One output row: exactly the four output columns. */
  datatype OutRow = OutRow(blockId: Key, kind: Key, assembly: Key, probability: real)

  type Triple = (Key, Key, Key)

  /** The key columns. */
  datatype KeyColumn = BlockIdColumn | TypeColumn | AssemblyColumn

  /** pandas' default NA markers of `read_csv`. */
  const MissingMarkers: set<string> := {
    "", "#N/A", "#N/A N/A", "#NA", "-1.#IND", "-1.#QNAN", "-NaN", "-nan",
    "1.#IND", "1.#QNAN", "<NA>", "N/A", "NA", "NULL", "NaN", "None", "n/a",
    "nan", "null"
  }

  predicate Missing(cell: string) {
    cell in MissingMarkers
  }

  function Cell(row: InRow, c: KeyColumn): string {
    match c
    case BlockIdColumn => row.blockId
    case TypeColumn => row.kind
    case AssemblyColumn => row.assembly
  }

  /** Every present cell of column `c` reads as an integer. */
  predicate IntegerColumn(rows: seq<InRow>, c: KeyColumn) {
    forall i :: 0 <= i < |rows| && !Missing(Cell(rows[i], c)) ==> ParseInt(Cell(rows[i], c)).Some?
  }

  /** Which key columns hold integers. */
  datatype Typing = Typing(blockId: bool, kind: bool, assembly: bool)

  function TypingOf(rows: seq<InRow>): Typing {
    Typing(IntegerColumn(rows, BlockIdColumn), IntegerColumn(rows, TypeColumn), IntegerColumn(rows, AssemblyColumn))
  }

  /** The value of a present cell in a column of the given kind. */
  function KeyOf(integer: bool, cell: string): (k: Key)
    ensures k.Num? <==> integer && ParseInt(cell).Some?
    ensures k.Num? ==> ParseInt(cell) == Some(k.n)
    ensures k.Text? ==> k.s == cell
  {
    match ParseInt(cell)
    case Some(n) => if integer then Num(n) else Text(cell)
    case None => Text(cell)
  }

  /** No key cell of the row is missing. */
  predicate Complete(row: InRow) {
    !Missing(row.blockId) && !Missing(row.kind) && !Missing(row.assembly)
  }

  function TripleOf(ty: Typing, row: InRow): Triple {
    (KeyOf(ty.blockId, row.blockId), KeyOf(ty.kind, row.kind), KeyOf(ty.assembly, row.assembly))
  }

  /** The key triples of the complete rows, in input order. */
  function TriplesWith(ty: Typing, rows: seq<InRow>): (ts: seq<Triple>)
    ensures |ts| <= |rows|
    ensures forall t :: t in ts <==>
      exists i :: 0 <= i < |rows| && Complete(rows[i]) && t == TripleOf(ty, rows[i])
  {
    if rows == [] then []
    else
      var init, last := rows[..|rows| - 1], rows[|rows| - 1];
      var ts := TriplesWith(ty, init);
      assert forall i :: 0 <= i < |init| ==> init[i] == rows[i];
      if Complete(last) then ts + [TripleOf(ty, last)] else ts
  }

  /** The triples `groupby` counts: those of the rows with no missing key,
      each column read as a whole. */
  function Triples(rows: seq<InRow>): seq<Triple> {
    TriplesWith(TypingOf(rows), rows)
  }

  /** `<` on the keys of one column. Integers come before text, which never
      matters since a column holds one kind. */
  predicate KeyBelow(a: Key, b: Key) {
    match a
    case Num(x) => (match b case Num(y) => x < y case Text(_) => true)
    case Text(s) => (match b case Num(_) => false case Text(t) => Below(s, t))
  }

  /** The order of the group keys: lexicographic on (Block_ID, Type,
      Assembly). */
  predicate TripleBelow(a: Triple, b: Triple) {
    || KeyBelow(a.0, b.0)
    || (a.0 == b.0 && KeyBelow(a.1, b.1))
    || (a.0 == b.0 && a.1 == b.1 && KeyBelow(a.2, b.2))
  }

  /** Membership of a triple in the (Block_ID, Type) group `g`. */
  function InGroup(g: (Key, Key)): Triple -> bool {
    (t: Triple) => t.0 == g.0 && t.1 == g.1
  }

  function TripleOfOut(o: OutRow): Triple {
    (o.blockId, o.kind, o.assembly)
  }

  /** `Total_Count` of a group: the group sum of the per-triple counts. */
  function TotalCount(keys: seq<Triple>, ts: seq<Triple>, g: (Key, Key)): nat {
    SumCounts(keys, ts, InGroup(g))
  }

  /** The output table: one row per group key, in increasing key order,
      with probability = Count / Total_Count. */
  function CalculateAssemblyProbabilities(rows: seq<InRow>): (r: seq<OutRow>)
    ensures var ts := Triples(rows);
      && Increasing(TripleBelow, seq(|r|, i requires 0 <= i < |r| => TripleOfOut(r[i])))
      && (forall t :: (exists i :: 0 <= i < |r| && TripleOfOut(r[i]) == t) <==> t in ts)
      && forall i :: 0 <= i < |r| ==>
           var t := TripleOfOut(r[i]);
           && CountIf(ts, InGroup((t.0, t.1))) > 0
           && r[i].probability == Count(ts, t) as real / CountIf(ts, InGroup((t.0, t.1))) as real
  {
    var ts := Triples(rows);
    var keys := GroupKeys(ts);
    TotalCountIsGroupSize(keys, ts);
    GroupsOfKeysArePositive(keys, ts);
    var r := seq(|keys|, i requires 0 <= i < |keys| =>
      var t := keys[i];
      OutRow(t.0, t.1, t.2, Count(ts, t) as real / TotalCount(keys, ts, (t.0, t.1)) as real));
    assert seq(|r|, i requires 0 <= i < |r| => TripleOfOut(r[i])) == keys;
    r
  }

  /** The distinct triples in increasing order: `groupby(...).size()`'s
      index. */
  function GroupKeys(ts: seq<Triple>): (keys: seq<Triple>)
    ensures Increasing(TripleBelow, keys)
    ensures NoDuplicates(keys)
    ensures forall t :: t in keys <==> t in ts
  {
    DistinctProperties(ts);
    TripleBelowIsStrictTotal();
    SortIncreasing(TripleBelow, Distinct(ts));
    var keys := Sort(TripleBelow, Distinct(ts));
    IncreasingIsUnique(TripleBelow, keys);
    keys
  }

  // ---------------------------------------------------------------------
  // Properties

  lemma KeyBelowIsStrictTotal()
    ensures StrictTotal(KeyBelow)
  {
    forall a ensures !KeyBelow(a, a) {
      if a.Text? {
        BelowIrreflexive(a.s);
      }
    }
    forall a, b | a != b ensures KeyBelow(a, b) || KeyBelow(b, a) {
      if a.Text? && b.Text? {
        BelowTotal(a.s, b.s);
      }
    }
    forall a, b, c | KeyBelow(a, b) && KeyBelow(b, c) ensures KeyBelow(a, c) {
      if a.Text? && b.Text? && c.Text? {
        BelowTransitive(a.s, b.s, c.s);
      }
    }
  }

  /** The group-key order is a strict total order, so sorting the distinct
      keys gives one well-defined sequence. */
  lemma TripleBelowIsStrictTotal()
    ensures StrictTotal(TripleBelow)
  {
    KeyBelowIsStrictTotal();
    forall a, b, c | TripleBelow(a, b) && TripleBelow(b, c) ensures TripleBelow(a, c) {
      assert KeyBelow(a.0, b.0) && KeyBelow(b.0, c.0) ==> KeyBelow(a.0, c.0);
      assert KeyBelow(a.1, b.1) && KeyBelow(b.1, c.1) ==> KeyBelow(a.1, c.1);
    }
  }

  /** Total_Count of a group is the number of counted rows in that group. */
  lemma TotalCountIsGroupSize(keys: seq<Triple>, ts: seq<Triple>)
    requires NoDuplicates(keys) && forall t :: t in ts ==> t in keys
    ensures forall g :: TotalCount(keys, ts, g) == CountIf(ts, InGroup(g))
  {
    forall g ensures TotalCount(keys, ts, g) == CountIf(ts, InGroup(g)) {
      SumCountsOfCoveringKeys(keys, ts, InGroup(g));
    }
  }

  lemma GroupsOfKeysArePositive(keys: seq<Triple>, ts: seq<Triple>)
    requires forall t :: t in keys ==> t in ts
    ensures forall t :: t in keys ==> CountIf(ts, InGroup((t.0, t.1))) > 0
  {
    forall t | t in keys ensures CountIf(ts, InGroup((t.0, t.1))) > 0 {
      CountPositive(ts, t);
      CountAtMostCountIf(ts, t, InGroup((t.0, t.1)));
    }
  }

  /** The output does not depend on where the rows come in the input: it is
      the one increasing sequence of the group keys. */
  lemma OutputOrderIsKeyOrder(rows: seq<InRow>, keys: seq<Triple>)
    requires Increasing(TripleBelow, keys)
    requires forall t :: t in keys <==> t in Triples(rows)
    ensures var r := CalculateAssemblyProbabilities(rows);
      |r| == |keys| && forall i :: 0 <= i < |r| ==> TripleOfOut(r[i]) == keys[i]
  {
    var r := CalculateAssemblyProbabilities(rows);
    var out := seq(|r|, i requires 0 <= i < |r| => TripleOfOut(r[i]));
    forall t ensures t in out <==> t in keys {
      if t in out {
        var i :| 0 <= i < |out| && out[i] == t;
        assert TripleOfOut(r[i]) == t;
      }
      if t in keys {
        var i :| 0 <= i < |r| && TripleOfOut(r[i]) == t;
        assert out[i] == t;
      }
    }
    TripleBelowIsStrictTotal();
    IncreasingUnique(TripleBelow, out, keys);
  }

  /** Sum of the probabilities of the rows in group `g`. */
  function GroupSum(r: seq<OutRow>, g: (Key, Key)): real {
    if r == [] then 0.0
    else (if r[0].blockId == g.0 && r[0].kind == g.1 then r[0].probability else 0.0) + GroupSum(r[1..], g)
  }

  lemma {:induction false} GroupSumIsShareSum(r: seq<OutRow>, ks: seq<Triple>, ts: seq<Triple>, g: (Key, Key))
    requires CountIf(ts, InGroup(g)) > 0
    requires |r| == |ks|
    requires forall i :: 0 <= i < |r| ==>
      TripleOfOut(r[i]) == ks[i]
      && (InGroup(g)(ks[i]) ==> r[i].probability == Count(ts, ks[i]) as real / CountIf(ts, InGroup(g)) as real)
    ensures GroupSum(r, g) == ShareSum(ks, ts, InGroup(g), CountIf(ts, InGroup(g)))
    decreases |r|
  {
    if r != [] {
      GroupSumIsShareSum(r[1..], ks[1..], ts, g);
    }
  }

  /** Every (Block_ID, Type) group of the output sums to 1. */
  lemma GroupsSumToOne(rows: seq<InRow>, g: (Key, Key))
    requires exists t :: t in Triples(rows) && t.0 == g.0 && t.1 == g.1
    ensures GroupSum(CalculateAssemblyProbabilities(rows), g) == 1.0
  {
    var ts := Triples(rows);
    var r := CalculateAssemblyProbabilities(rows);
    var keys := GroupKeys(ts);
    OutputOrderIsKeyOrder(rows, keys);
    var t :| t in ts && t.0 == g.0 && t.1 == g.1;
    assert InGroup(g)(t);
    CountPositive(ts, t);
    CountAtMostCountIf(ts, t, InGroup(g));
    var n := CountIf(ts, InGroup(g));
    forall j | 0 <= j < |r|
      ensures TripleOfOut(r[j]) == keys[j]
      ensures InGroup(g)(keys[j]) ==> r[j].probability == Count(ts, keys[j]) as real / n as real
    {
      assert InGroup(g)(keys[j]) ==> InGroup((keys[j].0, keys[j].1)) == InGroup(g);
    }
    GroupSumIsShareSum(r, keys, ts, g);
    ShareSumIsRatio(keys, ts, InGroup(g), n);
    SumCountsOfCoveringKeys(keys, ts, InGroup(g));
    RatioOfSelf(n);
  }

  /** A row with a missing Block_ID, Type or Assembly contributes no key. */
  lemma IncompleteRowsAreDropped(rows: seq<InRow>, row: InRow)
    requires !Complete(row)
    ensures Triples(rows + [row]) == TriplesWith(TypingOf(rows + [row]), rows)
  {
    assert (rows + [row])[..|rows|] == rows;
  }

  /** In an integer column "09" and "9" are the same key, so their two rows
      form one group, and 9 sorts before 10; the text columns keep their
      text. */
  lemma IntegerColumnsCompareAsNumbers()
    ensures CalculateAssemblyProbabilities(ExampleRows())
         == [OutRow(Num(9), Text("a"), Text("x"), 1.0), OutRow(Num(10), Text("a"), Text("x"), 1.0)]
  {
    var r := CalculateAssemblyProbabilities(ExampleRows());
    var ts := Triples(ExampleRows());
    var nine, ten := (Num(9), Text("a"), Text("x")), (Num(10), Text("a"), Text("x"));
    ExampleOrder();
    ExampleCounts();
    assert r[0].probability == Count(ts, nine) as real / CountIf(ts, InGroup((Num(9), Text("a")))) as real;
    assert r[1].probability == Count(ts, ten) as real / CountIf(ts, InGroup((Num(10), Text("a")))) as real;
    RatioOfSelf(2);
    RatioOfSelf(1);
    assert r[0] == OutRow(Num(9), Text("a"), Text("x"), 1.0);
    assert r[1] == OutRow(Num(10), Text("a"), Text("x"), 1.0);
  }

  lemma ExampleOrder()
    ensures var r := CalculateAssemblyProbabilities(ExampleRows());
      && |r| == 2
      && TripleOfOut(r[0]) == (Num(9), Text("a"), Text("x"))
      && TripleOfOut(r[1]) == (Num(10), Text("a"), Text("x"))
  {
    var nine, ten := (Num(9), Text("a"), Text("x")), (Num(10), Text("a"), Text("x"));
    ExampleTriples();
    assert TripleBelow(nine, ten);
    OutputOrderIsKeyOrder(ExampleRows(), [nine, ten]);
  }

  lemma ExampleCounts()
    ensures var nine, ten := (Num(9), Text("a"), Text("x")), (Num(10), Text("a"), Text("x"));
      var ts := Triples(ExampleRows());
      && Count(ts, nine) == 2 && Count(ts, ten) == 1
      && CountIf(ts, InGroup((Num(9), Text("a")))) == 2
      && CountIf(ts, InGroup((Num(10), Text("a")))) == 1
  {
    var nine, ten := (Num(9), Text("a"), Text("x")), (Num(10), Text("a"), Text("x"));
    var ts := [ten, nine, nine];
    var g9, g10 := InGroup((Num(9), Text("a"))), InGroup((Num(10), Text("a")));
    ExampleTriples();
    assert ts[..2] == [ten, nine] && ts[..1] == [ten] && ts[..0] == [];
    assert [ten, nine][..1] == [ten] && [ten][..0] == [];
    assert g9(nine) && !g9(ten) && g10(ten) && !g10(nine);
    assert Count([ten], nine) == 0 && Count([ten], ten) == 1;
    assert Count([ten, nine], nine) == 1 && Count([ten, nine], ten) == 1;
    assert CountIf([ten], g9) == 0 && CountIf([ten], g10) == 1;
    assert CountIf([ten, nine], g9) == 1 && CountIf([ten, nine], g10) == 1;
  }

  function ExampleRows(): seq<InRow> {
    [InRow("10", "a", "x", "", ""), InRow("9", "a", "x", "", ""), InRow("09", "a", "x", "", "")]
  }

  lemma ExampleTriples()
    ensures Triples(ExampleRows())
         == [(Num(10), Text("a"), Text("x")), (Num(9), Text("a"), Text("x")), (Num(9), Text("a"), Text("x"))]
  {
    ExampleTyping();
    ExampleTriplesWith();
  }

  lemma ExampleTriplesWith()
    ensures TriplesWith(Typing(true, false, false), ExampleRows())
         == [(Num(10), Text("a"), Text("x")), (Num(9), Text("a"), Text("x")), (Num(9), Text("a"), Text("x"))]
  {
    var rows := ExampleRows();
    var ty := Typing(true, false, false);
    ExampleRowTriples();
    assert TriplesWith(ty, rows[..0]) == [];
    TriplesWithPrefix(ty, rows, 1);
    TriplesWithPrefix(ty, rows, 2);
    TriplesWithPrefix(ty, rows, 3);
    assert rows[..3] == rows;
  }

  lemma TriplesWithPrefix(ty: Typing, rows: seq<InRow>, k: nat)
    requires 0 < k <= |rows|
    ensures TriplesWith(ty, rows[..k])
         == TriplesWith(ty, rows[..k - 1]) + (if Complete(rows[k - 1]) then [TripleOf(ty, rows[k - 1])] else [])
  {
    assert rows[..k][..k - 1] == rows[..k - 1];
  }

  lemma ExampleRowTriples()
    ensures var rows, ty := ExampleRows(), Typing(true, false, false);
      && Complete(rows[0]) && Complete(rows[1]) && Complete(rows[2])
      && TripleOf(ty, rows[0]) == (Num(10), Text("a"), Text("x"))
      && TripleOf(ty, rows[1]) == (Num(9), Text("a"), Text("x"))
      && TripleOf(ty, rows[2]) == (Num(9), Text("a"), Text("x"))
  {
    ExampleParses();
    ExampleCellsPresent();
  }

  lemma ExampleParses()
    ensures ParseInt("10") == Some(10) && ParseInt("9") == Some(9) && ParseInt("09") == Some(9)
    ensures ParseInt("a") == None && ParseInt("x") == None
  {
    ParseTen();
    ParseNine();
    ParseZeroNine();
    StripUnchanged("a");
    StripUnchanged("x");
  }

  lemma ParseTen()
    ensures ParseInt("10") == Some(10)
  {
    ParseShowNat(10);
    assert ShowNat(10) == "10";
  }

  lemma ParseNine()
    ensures ParseInt("9") == Some(9)
  {
    ParseShowNat(9);
    assert ShowNat(9) == "9";
  }

  lemma ParseZeroNine()
    ensures ParseInt("09") == Some(9)
  {
    StripUnchanged("09");
    assert "09"[..1] == "0" && "0"[..0] == "";
  }

  lemma ExampleTyping()
    ensures TypingOf(ExampleRows()) == Typing(true, false, false)
  {
    var rows := ExampleRows();
    ExampleParses();
    ExampleCellsPresent();
    assert IntegerColumn(rows, BlockIdColumn) by {
      forall i | 0 <= i < |rows| ensures ParseInt(Cell(rows[i], BlockIdColumn)).Some? {
        assert Cell(rows[i], BlockIdColumn) in {"10", "9", "09"};
      }
    }
    assert !IntegerColumn(rows, TypeColumn) by {
      assert Cell(rows[0], TypeColumn) == "a";
    }
    assert !IntegerColumn(rows, AssemblyColumn) by {
      assert Cell(rows[0], AssemblyColumn) == "x";
    }
  }

  lemma ExampleCellsPresent()
    ensures !Missing("a") && !Missing("x") && !Missing("10") && !Missing("9") && !Missing("09")
  {
    NoMarkerOfLengthOne();
    OneMarkerOfLengthTwo();
  }

  lemma NoMarkerOfLengthOne()
    ensures forall m :: m in MissingMarkers ==> |m| != 1
  {
  }

  lemma OneMarkerOfLengthTwo()
    ensures forall m :: m in MissingMarkers && |m| == 2 ==> m == "NA"
  {
  }

  lemma ProbabilitiesInUnitRange(rows: seq<InRow>)
    ensures forall o :: o in CalculateAssemblyProbabilities(rows) ==> 0.0 < o.probability <= 1.0
  {
    var r := CalculateAssemblyProbabilities(rows);
    forall j | 0 <= j < |r| ensures 0.0 < r[j].probability <= 1.0 {
      ProbabilityInUnitRange(rows, j);
    }
  }

  lemma ProbabilityInUnitRange(rows: seq<InRow>, j: nat)
    requires j < |CalculateAssemblyProbabilities(rows)|
    ensures 0.0 < CalculateAssemblyProbabilities(rows)[j].probability <= 1.0
  {
    var ts := Triples(rows);
    var r := CalculateAssemblyProbabilities(rows);
    var t := TripleOfOut(r[j]);
    assert t in ts by {
      assert exists i :: 0 <= i < |r| && TripleOfOut(r[i]) == t;
    }
    CountPositive(ts, t);
    CountAtMostCountIf(ts, t, InGroup((t.0, t.1)));
    PartOfWhole(Count(ts, t), CountIf(ts, InGroup((t.0, t.1))));
  }

  lemma PartOfWhole(a: nat, b: nat)
    requires 0 < a <= b
    ensures 0.0 < a as real / b as real <= 1.0
  {
  }
}
