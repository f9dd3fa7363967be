/** The numbering loop of the `csv_block_id.py` scripts: each Block_ID gets a
    number from a counter that starts at 1, in order of first appearance,
    and a number once given is never changed. */
module BlockNumbering {
  import opened Dicts
  import opened Counting

  /** `block_id_map` and the counter (`BLOCK_ID`, `block_id` in the two
      copies) after some rows. */
  datatype Numbering = Numbering(ids: Dict<string, nat>, next: nat)

  /** One row: a Block_ID not yet in the map gets the counter, which then
      moves on; a known Block_ID changes nothing. */
  function Number(n: Numbering, id: string): Numbering {
    if id in n.ids.entries then n
    else Numbering(n.ids.Put(id, n.next), n.next + 1)
  }

  function Assign(rows: seq<string>): Numbering {
    if rows == [] then Numbering(Empty(), 1)
    else Number(Assign(rows[..|rows| - 1]), rows[|rows| - 1])
  }

  /** The numbering as written: the loop skips the row whose index is 0,
      which is the first data row (the header is not a row of the frame). */
  method NumberBlocks(rows: seq<string>) returns (blockIdMap: Dict<string, nat>, counter: nat)
    ensures rows == [] ==> Numbering(blockIdMap, counter) == Assign([])
    ensures rows != [] ==> Numbering(blockIdMap, counter) == Assign(rows[1..])
  {
    counter := 1;
    blockIdMap := Empty();
    var index := 0;
    while index < |rows|
      invariant 0 <= index <= |rows|
      invariant index == 0 ==> Numbering(blockIdMap, counter) == Assign([])
      invariant index > 0 ==> Numbering(blockIdMap, counter) == Assign(rows[1..index])
    {
      if index == 0 {
        index := index + 1;
        continue;
      }
      assert rows[1..index + 1][..index - 1] == rows[1..index];
      var currentBlockId := rows[index];
      if currentBlockId !in blockIdMap.entries {
        blockIdMap := blockIdMap.Put(currentBlockId, counter);
        counter := counter + 1;
      }
      index := index + 1;
    }
    if rows != [] {
      assert rows[1..index] == rows[1..];
    }
  }

  /** The numbering as evidently intended: every data row is numbered. */
  method NumberAllBlocks(rows: seq<string>) returns (blockIdMap: Dict<string, nat>, counter: nat)
    ensures Numbering(blockIdMap, counter) == Assign(rows)
  {
    counter := 1;
    blockIdMap := Empty();
    var index := 0;
    while index < |rows|
      invariant 0 <= index <= |rows|
      invariant Numbering(blockIdMap, counter) == Assign(rows[..index])
    {
      assert rows[..index + 1][..index] == rows[..index];
      var currentBlockId := rows[index];
      if currentBlockId !in blockIdMap.entries {
        blockIdMap := blockIdMap.Put(currentBlockId, counter);
        counter := counter + 1;
      }
      index := index + 1;
    }
    assert rows[..index] == rows;
  }

  // ---------------------------------------------------------------------
  // Properties

  /** The mapped ids are the distinct ids in order of first appearance; the
      k-th of them (from 0) has number k + 1; the counter is one past the
      last number given. So the numbers are exactly 1 .. counter - 1, each
      used once. */
  lemma {:induction false} AssignIsFirstAppearance(rows: seq<string>)
    ensures Assign(rows).ids.Valid()
    ensures Assign(rows).ids.keys == Distinct(rows)
    ensures Assign(rows).next == |Distinct(rows)| + 1
    ensures forall k :: 0 <= k < |Assign(rows).ids.keys| ==> Assign(rows).ids.entries[Assign(rows).ids.keys[k]] == k + 1
    decreases |rows|
  {
    if rows != [] {
      var init := rows[..|rows| - 1];
      AssignIsFirstAppearance(init);
      DistinctProperties(init);
    }
  }

  /** Every number given lies in 1 .. counter - 1, no two ids share one,
      and there are counter - 1 of them, so each of 1 .. counter - 1 is used
      exactly once. */
  lemma NumbersAreOneToCounter(rows: seq<string>)
    ensures var n := Assign(rows);
      && (forall id :: id in n.ids.entries ==> 1 <= n.ids.entries[id] < n.next)
      && (forall a, b :: a in n.ids.entries && b in n.ids.entries && a != b ==> n.ids.entries[a] != n.ids.entries[b])
      && |n.ids.keys| == n.next - 1
  {
    AssignIsFirstAppearance(rows);
    var n := Assign(rows);
    var keys := n.ids.keys;
    assert forall id :: id in n.ids.entries ==> exists k :: 0 <= k < |keys| && keys[k] == id;
  }

  /** A number once given is never changed by later rows. */
  lemma {:induction false} NumbersNeverChange(rows: seq<string>, more: seq<string>)
    ensures forall id :: id in Assign(rows).ids.entries ==>
      id in Assign(rows + more).ids.entries && Assign(rows + more).ids.entries[id] == Assign(rows).ids.entries[id]
    decreases |more|
  {
    if more == [] {
      assert rows + more == rows;
    } else {
      var m := more[..|more| - 1];
      assert (rows + more)[..|rows + more| - 1] == rows + m;
      NumbersNeverChange(rows, m);
    }
  }

  /** An id is numbered exactly when it occurs among the numbered rows, so
      the map has one entry per distinct id. */
  lemma NumberedIffPresent(rows: seq<string>, id: string)
    ensures id in Assign(rows).ids.entries <==> id in rows
    ensures |Assign(rows).ids.keys| == |Distinct(rows)|
  {
    AssignIsFirstAppearance(rows);
    DistinctProperties(rows);
  }

  /** As written, an id that occurs only in the first data row gets no
      number: `["A", "B"]` numbers only "B", with 1. */
  lemma FirstDataRowSkipped(rows: seq<string>)
    requires rows != [] && rows[0] !in rows[1..]
    ensures rows[0] !in Assign(rows[1..]).ids.entries
  {
    NumberedIffPresent(rows[1..], rows[0]);
  }

  /** Numbering every data row gives every id of the column a number. */
  lemma EveryRowNumbered(rows: seq<string>)
    ensures forall k :: 0 <= k < |rows| ==> rows[k] in Assign(rows).ids.entries
  {
    forall k | 0 <= k < |rows|
      ensures rows[k] in Assign(rows).ids.entries
    {
      NumberedIffPresent(rows, rows[k]);
    }
  }
}
