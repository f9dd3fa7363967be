/** The similarity matrix: `create_similarity_matrix` fills an n x n matrix
    of zeros from the pairwise scores, the `read_similarity_matrix` copies
    do the same from the rows of the similarity CSV, the visualisation
    script first collects and sorts the block ids itself, and
    `similarity_to_distance` turns similarities into distances by
    subtracting each from the largest. */
module Matrix {
  import opened Wrappers
  import opened Dicts
  import opened Counting
  import opened BlockPairs
  import opened StringOrder

  /** A row of the similarity CSV: Block_ID_1, Block_ID_2, Similarity. */
  type Row = (string, string, real)

  /** `block_ids.index(x)`: the first position holding `x`; a missing id
      raises ValueError. */
  function IndexOf(ids: seq<string>, x: string): (r: Option<nat>)
    ensures r.None? <==> x !in ids
    ensures r.Some? ==> r.value < |ids| && ids[r.value] == x && forall k :: 0 <= k < r.value ==> ids[k] != x
  {
    if ids == [] then None
    else if ids[0] == x then Some(0)
    else match IndexOf(ids[1..], x)
      case None => None
      case Some(k) => Some(k + 1)
  }

  /** The row writes cell (i, j) and its mirror (j, i). */
  predicate Names(ids: seq<string>, row: Row, i: nat, j: nat) {
    || (IndexOf(ids, row.0) == Some(i) && IndexOf(ids, row.1) == Some(j))
    || (IndexOf(ids, row.0) == Some(j) && IndexOf(ids, row.1) == Some(i))
  }

  /** Cell (i, j) after the rows: the similarity of the last row that
      writes it, and 0 when no row does. */
  function Cell(ids: seq<string>, rows: seq<Row>, i: nat, j: nat): real {
    if rows == [] then 0.0
    else if Names(ids, rows[|rows| - 1], i, j) then rows[|rows| - 1].2
    else Cell(ids, rows[..|rows| - 1], i, j)
  }

  /** Every row names two of the given ids. */
  predicate Known(ids: seq<string>, rows: seq<Row>) {
    forall k :: 0 <= k < |rows| ==> rows[k].0 in ids && rows[k].1 in ids
  }

  /** `similarity_dict.items()` as rows. */
  function Items(similarity: Dict<Pair, real>): (rows: seq<Row>)
    requires similarity.Valid()
    ensures |rows| == |similarity.keys|
    ensures forall k :: 0 <= k < |rows| ==>
      rows[k] == (similarity.keys[k].0, similarity.keys[k].1, similarity.entries[similarity.keys[k]])
  {
    seq(|similarity.keys|, k requires 0 <= k < |similarity.keys| =>
      (similarity.keys[k].0, similarity.keys[k].1, similarity.entries[similarity.keys[k]]))
  }

  /** The fill loop shared by every copy: an n x n matrix of zeros, then for
      each row both `[i, j]` and `[j, i]` are set to its similarity. An id
      that is not among `blockIds` raises ValueError. */
  method FillMatrix(blockIds: seq<string>, rows: seq<Row>) returns (r: Result<array2<real>>)
    ensures r.Err? <==> !Known(blockIds, rows)
    ensures r.Err? ==> r.error == "ValueError"
    ensures r.Ok? ==> fresh(r.value) && r.value.Length0 == |blockIds| && r.value.Length1 == |blockIds|
    ensures r.Ok? ==> forall i, j :: 0 <= i < |blockIds| && 0 <= j < |blockIds| ==>
      r.value[i, j] == Cell(blockIds, rows, i, j)
  {
    var size := |blockIds|;
    var matrix := new real[size, size]((i, j) => 0.0);
    var k := 0;
    while k < |rows|
      invariant 0 <= k <= |rows|
      invariant Known(blockIds, rows[..k])
      invariant forall a, b :: 0 <= a < size && 0 <= b < size ==> matrix[a, b] == Cell(blockIds, rows[..k], a, b)
    {
      CellStep(blockIds, rows, k);
      var (blockId1, blockId2, similarity) := rows[k];
      var i := IndexOf(blockIds, blockId1);
      if i.None? {
        assert !Known(blockIds, rows[k..k + 1]);
        return Err("ValueError");
      }
      var j := IndexOf(blockIds, blockId2);
      if j.None? {
        assert !Known(blockIds, rows[k..k + 1]);
        return Err("ValueError");
      }
      matrix[i.value, j.value] := similarity;
      matrix[j.value, i.value] := similarity;
      k := k + 1;
    }
    assert rows[..k] == rows;
    return Ok(matrix);
  }

  /** One more row: the cells it names take its similarity, the others
      keep theirs; the rows stay known while its two ids are. */
  lemma CellStep(ids: seq<string>, rows: seq<Row>, k: nat)
    requires k < |rows|
    ensures forall a: nat, b: nat :: (Cell(ids, rows[..k + 1], a, b)
      == if Names(ids, rows[k], a, b) then rows[k].2 else Cell(ids, rows[..k], a, b))
    ensures Known(ids, rows[..k + 1]) <==> Known(ids, rows[..k]) && rows[k].0 in ids && rows[k].1 in ids
    ensures !Known(ids, rows[k..k + 1]) ==> !Known(ids, rows)
  {
    assert rows[..k + 1][..k] == rows[..k];
    assert rows[..k + 1][k] == rows[k];
    if !Known(ids, rows[k..k + 1]) {
      assert rows[k..k + 1][0] == rows[k];
    }
  }

  /** `create_similarity_matrix(similarity_dict, block_ids)`. */
  method CreateSimilarityMatrix(similarity: Dict<Pair, real>, blockIds: seq<string>) returns (r: Result<array2<real>>)
    requires similarity.Valid()
    ensures r.Err? <==> !Known(blockIds, Items(similarity))
    ensures r.Ok? ==> fresh(r.value) && r.value.Length0 == |blockIds| && r.value.Length1 == |blockIds|
    ensures r.Ok? ==> forall i, j :: 0 <= i < |blockIds| && 0 <= j < |blockIds| ==>
      r.value[i, j] == Cell(blockIds, Items(similarity), i, j)
  {
    r := FillMatrix(blockIds, Items(similarity));
  }

  /** Some row names the id in one of its two columns. */
  predicate Mentioned(rows: seq<Row>, x: string) {
    exists k :: 0 <= k < |rows| && (rows[k].0 == x || rows[k].1 == x)
  }

  /** `read_similarity_matrix` of the visualisation script: the ids of both
      columns are collected into a set and sorted as text, then the matrix
      is filled; every id is known, so the fill never fails. */
  method ReadSortedSimilarityMatrix(rows: seq<Row>) returns (matrix: array2<real>, blockIds: seq<string>)
    ensures Sorted(blockIds)
    ensures forall x :: x in blockIds <==> Mentioned(rows, x)
    ensures fresh(matrix) && matrix.Length0 == |blockIds| && matrix.Length1 == |blockIds|
    ensures forall i, j :: 0 <= i < |blockIds| && 0 <= j < |blockIds| ==> matrix[i, j] == Cell(blockIds, rows, i, j)
  {
    var idSet: set<string> := {};
    var similarities: seq<Row> := [];
    var k := 0;
    while k < |rows|
      invariant 0 <= k <= |rows|
      invariant similarities == rows[..k]
      invariant forall x :: x in idSet <==> Mentioned(rows[..k], x)
    {
      var (blockId1, blockId2, similarity) := rows[k];
      idSet := idSet + {blockId1, blockId2};
      similarities := similarities + [(blockId1, blockId2, similarity)];
      forall x
        ensures Mentioned(rows[..k + 1], x) <==> Mentioned(rows[..k], x) || x == blockId1 || x == blockId2
      {
        if Mentioned(rows[..k + 1], x) {
          var l :| 0 <= l < k + 1 && (rows[..k + 1][l].0 == x || rows[..k + 1][l].1 == x);
          if l < k {
            assert rows[..k][l] == rows[l];
          }
        }
        if Mentioned(rows[..k], x) {
          var l :| 0 <= l < k && (rows[..k][l].0 == x || rows[..k][l].1 == x);
          assert rows[..k + 1][l] == rows[l];
        }
        if x == blockId1 || x == blockId2 {
          assert rows[..k + 1][k] == rows[k];
        }
      }
      k := k + 1;
    }
    assert rows[..k] == rows;
    blockIds := SortSet(idSet);
    assert Known(blockIds, similarities) by {
      forall l | 0 <= l < |similarities|
        ensures similarities[l].0 in blockIds && similarities[l].1 in blockIds
      {
        assert Mentioned(rows, similarities[l].0) && Mentioned(rows, similarities[l].1);
      }
    }
    var filled := FillMatrix(blockIds, similarities);
    matrix := filled.value;
  }

  /** `np.max(similarity_matrix)`; an empty matrix raises ValueError, so the
      caller checks for one first. */
  method MaxSimilarity(a: array2<real>) returns (max: real)
    requires a.Length0 > 0 && a.Length1 > 0
    ensures forall i, j :: 0 <= i < a.Length0 && 0 <= j < a.Length1 ==> a[i, j] <= max
    ensures exists i, j :: 0 <= i < a.Length0 && 0 <= j < a.Length1 && a[i, j] == max
  {
    max := a[0, 0];
    ghost var wi, wj := 0, 0;
    var i := 0;
    while i < a.Length0
      invariant 0 <= i <= a.Length0
      invariant 0 <= wi < a.Length0 && 0 <= wj < a.Length1 && a[wi, wj] == max
      invariant forall p, q :: 0 <= p < i && 0 <= q < a.Length1 ==> a[p, q] <= max
      invariant a[0, 0] <= max
    {
      var j := 0;
      while j < a.Length1
        invariant 0 <= j <= a.Length1
        invariant 0 <= wi < a.Length0 && 0 <= wj < a.Length1 && a[wi, wj] == max
        invariant forall p, q :: 0 <= p < i && 0 <= q < a.Length1 ==> a[p, q] <= max
        invariant forall q :: 0 <= q < j ==> a[i, q] <= max
      {
        if a[i, j] > max {
          max := a[i, j];
          wi, wj := i, j;
        }
        j := j + 1;
      }
      i := i + 1;
    }
  }

  /** `similarity_to_distance`: every cell becomes the largest similarity
      minus itself. The distances are never negative, the most similar pair
      is at distance 0, and differences are kept with their sign reversed,
      so a larger similarity means a smaller distance. */
  method SimilarityToDistance(similarity: array2<real>) returns (r: Result<array2<real>>)
    ensures r.Err? <==> similarity.Length0 == 0 || similarity.Length1 == 0
    ensures r.Err? ==> r.error == "ValueError"
    ensures r.Ok? ==> fresh(r.value) && r.value.Length0 == similarity.Length0 && r.value.Length1 == similarity.Length1
    ensures r.Ok? ==> var d := r.value;
      && (forall i, j :: 0 <= i < d.Length0 && 0 <= j < d.Length1 ==> d[i, j] >= 0.0)
      && (exists i, j :: 0 <= i < d.Length0 && 0 <= j < d.Length1 && d[i, j] == 0.0)
      && (forall i, j, p, q :: 0 <= i < d.Length0 && 0 <= j < d.Length1 && 0 <= p < d.Length0 && 0 <= q < d.Length1 ==>
            d[i, j] - d[p, q] == similarity[p, q] - similarity[i, j])
  {
    if similarity.Length0 == 0 || similarity.Length1 == 0 {
      return Err("ValueError");
    }
    var max := MaxSimilarity(similarity);
    var distance := new real[similarity.Length0, similarity.Length1];
    var i := 0;
    while i < similarity.Length0
      invariant 0 <= i <= similarity.Length0
      invariant forall p, q :: 0 <= p < i && 0 <= q < similarity.Length1 ==> distance[p, q] == max - similarity[p, q]
    {
      var j := 0;
      while j < similarity.Length1
        invariant 0 <= j <= similarity.Length1
        invariant forall p, q :: 0 <= p < i && 0 <= q < similarity.Length1 ==> distance[p, q] == max - similarity[p, q]
        invariant forall q :: 0 <= q < j ==> distance[i, q] == max - similarity[i, q]
      {
        distance[i, j] := max - similarity[i, j];
        j := j + 1;
      }
      i := i + 1;
    }
    return Ok(distance);
  }

  // ---------------------------------------------------------------------
  // Properties

  /** Both cells of a pair are always written together, so the matrix is
      symmetric. */
  lemma {:induction false} CellSymmetric(ids: seq<string>, rows: seq<Row>, i: nat, j: nat)
    ensures Cell(ids, rows, i, j) == Cell(ids, rows, j, i)
    decreases |rows|
  {
    if rows != [] {
      CellSymmetric(ids, rows[..|rows| - 1], i, j);
    }
  }

  /** A cell that no row writes keeps its zero. */
  lemma {:induction false} UnwrittenCellIsZero(ids: seq<string>, rows: seq<Row>, i: nat, j: nat)
    requires forall k :: 0 <= k < |rows| ==> !Names(ids, rows[k], i, j)
    ensures Cell(ids, rows, i, j) == 0.0
    decreases |rows|
  {
    if rows != [] {
      var init := rows[..|rows| - 1];
      assert forall k :: 0 <= k < |init| ==> init[k] == rows[k];
      UnwrittenCellIsZero(ids, init, i, j);
    }
  }

  /** A cell holds the similarity of the last row that writes it: a later
      row for the same pair, in either order, overwrites an earlier one. */
  lemma {:induction false} LastWriteWins(ids: seq<string>, rows: seq<Row>, k: nat, i: nat, j: nat)
    requires k < |rows| && Names(ids, rows[k], i, j)
    requires forall l :: k < l < |rows| ==> !Names(ids, rows[l], i, j)
    ensures Cell(ids, rows, i, j) == rows[k].2
    decreases |rows|
  {
    if k < |rows| - 1 {
      var init := rows[..|rows| - 1];
      assert forall l :: 0 <= l < |init| ==> init[l] == rows[l];
      LastWriteWins(ids, init, k, i, j);
    }
  }

  /** Rows that never pair a block with itself leave the diagonal at zero. */
  lemma DiagonalStaysZero(ids: seq<string>, rows: seq<Row>, i: nat)
    requires forall k :: 0 <= k < |rows| ==> rows[k].0 != rows[k].1
    ensures Cell(ids, rows, i, i) == 0.0
  {
    UnwrittenCellIsZero(ids, rows, i, i);
  }

  /** With the pairs of `calculate_block_similarity` and the same distinct
      block ids, every id is known, each cell (a, b) with a < b and its
      mirror hold the score of the pair (ids[a], ids[b]), and the diagonal
      is zero. */
  lemma SimilarityMatrixOfPairs(ids: seq<string>, similarity: Dict<Pair, real>, a: nat, b: nat)
    requires NoDuplicates(ids) && similarity.Valid() && similarity.keys == Pairs(ids)
    requires a < b < |ids|
    ensures Known(ids, Items(similarity))
    ensures (ids[a], ids[b]) in similarity.entries
    ensures Cell(ids, Items(similarity), a, b) == similarity.entries[(ids[a], ids[b])]
    ensures Cell(ids, Items(similarity), b, a) == similarity.entries[(ids[a], ids[b])]
    ensures Cell(ids, Items(similarity), a, a) == 0.0
  {
    var rows := Items(similarity);
    var keys := similarity.keys;
    PairsAreOrderedIndexPairs(ids);
    assert (ids[a], ids[b]) in keys;
    var k :| 0 <= k < |keys| && keys[k] == (ids[a], ids[b]);
    IndexOfDistinct(ids, a);
    IndexOfDistinct(ids, b);
    assert rows[k] == (ids[a], ids[b], similarity.entries[(ids[a], ids[b])]);
    assert Names(ids, rows[k], a, b);
    forall l | 0 <= l < |rows|
      ensures rows[l].0 in ids && rows[l].1 in ids && rows[l].0 != rows[l].1
      ensures l != k ==> !Names(ids, rows[l], a, b)
    {
      OtherPairRow(ids, similarity, a, b, k, l);
    }
    LastWriteWins(ids, rows, k, a, b);
    CellSymmetric(ids, rows, a, b);
    DiagonalStaysZero(ids, rows, a);
  }

  /** The row of any other pair writes other cells. */
  lemma OtherPairRow(ids: seq<string>, similarity: Dict<Pair, real>, a: nat, b: nat, k: nat, l: nat)
    requires NoDuplicates(ids) && similarity.Valid() && similarity.keys == Pairs(ids)
    requires a < b < |ids| && k < |similarity.keys| && l < |similarity.keys|
    requires similarity.keys[k] == (ids[a], ids[b])
    ensures Items(similarity)[l].0 in ids && Items(similarity)[l].1 in ids
    ensures Items(similarity)[l].0 != Items(similarity)[l].1
    ensures l != k ==> !Names(ids, Items(similarity)[l], a, b)
  {
    var a', b' := PairRow(ids, similarity, l);
    if l != k {
      assert similarity.keys[l] != similarity.keys[k];
    }
  }

  /** The row of the l-th pair names the ids at two positions a' < b'. */
  lemma PairRow(ids: seq<string>, similarity: Dict<Pair, real>, l: nat) returns (a': nat, b': nat)
    requires NoDuplicates(ids) && similarity.Valid() && similarity.keys == Pairs(ids)
    requires l < |similarity.keys|
    ensures a' < b' < |ids| && similarity.keys[l] == (ids[a'], ids[b'])
    ensures Items(similarity)[l].0 == ids[a'] && Items(similarity)[l].1 == ids[b']
    ensures IndexOf(ids, ids[a']) == Some(a') && IndexOf(ids, ids[b']) == Some(b')
  {
    PairsAreOrderedIndexPairs(ids);
    assert similarity.keys[l] in Pairs(ids);
    a', b' :| 0 <= a' < b' < |ids| && similarity.keys[l] == (ids[a'], ids[b']);
    IndexOfDistinct(ids, a');
    IndexOfDistinct(ids, b');
  }

  /** With distinct ids, `index` finds each id at its own position. */
  lemma IndexOfDistinct(ids: seq<string>, k: nat)
    requires NoDuplicates(ids) && k < |ids|
    ensures IndexOf(ids, ids[k]) == Some(k)
  {
  }

  /** The sorted visualisation ids are the only sorted arrangement of the
      collected ids. */
  lemma SortedIdsAreUnique(rows: seq<Row>, s: seq<string>, t: seq<string>)
    requires Sorted(s) && Sorted(t)
    requires forall x :: x in s <==> Mentioned(rows, x)
    requires forall x :: x in t <==> Mentioned(rows, x)
    ensures s == t
  {
    SortedUnique(s, t);
  }
}
