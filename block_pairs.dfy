/** `calculate_block_similarity` and `write_similarity_to_csv` of the KL and
    similarity-matrix scripts: every unordered pair of blocks, each once, in
    the order of the block ids, gets the score of module Divergence, and the
    writer emits one row per pair after a header. */
module BlockPairs {
  import opened Dicts
  import opened Counting
  import opened Numeric
  import opened Distributions
  import opened Divergence

  type Pair = (string, string)

  /** `[(a, b) for b in bs]` */
  function PairsWith(a: string, bs: seq<string>): (r: seq<Pair>)
    ensures |r| == |bs|
    ensures forall k :: 0 <= k < |bs| ==> r[k] == (a, bs[k])
  {
    if bs == [] then [] else PairsWith(a, bs[..|bs| - 1]) + [(a, bs[|bs| - 1])]
  }

  /** The pairs whose first block is one of the first `i` ids, in loop order. */
  function PairsUpTo(ids: seq<string>, i: nat): seq<Pair>
    requires i <= |ids|
  {
    if i == 0 then [] else PairsUpTo(ids, i - 1) + PairsWith(ids[i - 1], ids[i..])
  }

  /** `(block_ids[i], block_ids[j])` for every i < j. */
  function Pairs(ids: seq<string>): seq<Pair> {
    PairsUpTo(ids, |ids|)
  }

  /** Every stored score is the score of its pair. */
  ghost predicate Scored(m: Math, measure: Measure, d: Blocks, similarity: Dict<Pair, real>) {
    forall p {:trigger Score(m, measure, d, p.0, p.1)} :: p in similarity.entries ==> similarity.entries[p] == Score(m, measure, d, p.0, p.1)
  }

  /** The two nested loops over the block ids. */
  method CalculateBlockSimilarity(m: Math, measure: Measure, d: Blocks) returns (similarity: Dict<Pair, real>)
    requires d.Valid()
    ensures similarity.Valid()
    ensures similarity.keys == Pairs(d.keys)
    ensures forall p :: p in similarity.entries ==> similarity.entries[p] == Score(m, measure, d, p.0, p.1)
  {
    similarity := Empty();
    var i := 0;
    while i < |d.keys|
      invariant 0 <= i <= |d.keys|
      invariant similarity.Valid() && similarity.keys == PairsUpTo(d.keys, i)
      invariant Scored(m, measure, d, similarity)
    {
      similarity := PairsWithBlock(m, measure, d, i, similarity);
      i := i + 1;
    }
  }

  /** The inner loop: block i against every later block. */
  method PairsWithBlock(m: Math, measure: Measure, d: Blocks, i: nat, before: Dict<Pair, real>) returns (similarity: Dict<Pair, real>)
    requires d.Valid() && i < |d.keys|
    requires before.Valid() && before.keys == PairsUpTo(d.keys, i) && Scored(m, measure, d, before)
    ensures similarity.Valid() && similarity.keys == PairsUpTo(d.keys, i + 1) && Scored(m, measure, d, similarity)
  {
    similarity := before;
    var j := i + 1;
    while j < |d.keys|
      invariant i + 1 <= j <= |d.keys|
      invariant similarity.Valid() && similarity.keys == Progress(d.keys, i, j)
      invariant Scored(m, measure, d, similarity)
    {
      similarity := StoreScore(m, measure, d, similarity, i, j);
      j := j + 1;
    }
    assert similarity.keys == Progress(d.keys, i, |d.keys|);
    ProgressEnd(d.keys, i);
  }

  /** The keys after pairing block i with the blocks before position j. */
  function Progress(ids: seq<string>, i: nat, j: nat): seq<Pair>
    requires i < j <= |ids|
  {
    if j == i + 1 then PairsUpTo(ids, i) else Progress(ids, i, j - 1) + [(ids[i], ids[j - 1])]
  }

  /** `block_similarity[(block_id1, block_id2)] = similarity` for the block
      ids at positions i < j. */
  method StoreScore(m: Math, measure: Measure, d: Blocks, similarity: Dict<Pair, real>, i: nat, j: nat)
    returns (next: Dict<Pair, real>)
    requires d.Valid() && i < j < |d.keys|
    requires similarity.Valid() && similarity.keys == Progress(d.keys, i, j)
    requires Scored(m, measure, d, similarity)
    ensures next.Valid() && next.keys == Progress(d.keys, i, j + 1)
    ensures Scored(m, measure, d, next)
  {
    var blockId1, blockId2 := d.keys[i], d.keys[j];
    var score := BlockScore(m, measure, d, blockId1, blockId2);
    AddPair(similarity, d.keys, i, j, score);
    ScoredStep(m, measure, d, similarity, (blockId1, blockId2), score);
    next := similarity.Put((blockId1, blockId2), score);
  }

  /** `writer.writerow` of the header, then one row per pair, in key order. */
  method WriteSimilarity(similarity: Dict<Pair, real>) returns (header: seq<string>, rows: seq<(string, string, real)>)
    requires similarity.Valid()
    ensures header == ["Block_ID_1", "Block_ID_2", "Similarity"]
    ensures |rows| == |similarity.keys|
    ensures forall k :: 0 <= k < |rows| ==>
      var p := similarity.keys[k]; rows[k] == (p.0, p.1, similarity.entries[p])
  {
    header := ["Block_ID_1", "Block_ID_2", "Similarity"];
    rows := [];
    var k := 0;
    while k < |similarity.keys|
      invariant 0 <= k <= |similarity.keys|
      invariant |rows| == k
      invariant forall r :: 0 <= r < k ==>
        var p := similarity.keys[r]; rows[r] == (p.0, p.1, similarity.entries[p])
    {
      var p := similarity.keys[k];
      rows := rows + [(p.0, p.1, similarity.entries[p])];
      k := k + 1;
    }
  }

  // ---------------------------------------------------------------------
  // Properties

  /** Storing the pair (ids[i], ids[j]) appends a new key. */
  lemma AddPair(similarity: Dict<Pair, real>, ids: seq<string>, i: nat, j: nat, score: real)
    requires NoDuplicates(ids) && i < j < |ids|
    requires similarity.Valid() && similarity.keys == Progress(ids, i, j)
    ensures similarity.Put((ids[i], ids[j]), score).Valid()
    ensures similarity.Put((ids[i], ids[j]), score).keys == Progress(ids, i, j + 1)
  {
    ProgressIsPairs(ids, i, j);
    NewPair(ids, i, j);
  }

  lemma {:induction false} ProgressIsPairs(ids: seq<string>, i: nat, j: nat)
    requires i < j <= |ids|
    ensures Progress(ids, i, j) == PairsUpTo(ids, i) + PairsWith(ids[i], ids[i + 1..j])
    decreases j
  {
    if j > i + 1 {
      ProgressIsPairs(ids, i, j - 1);
      PairsWithStep(ids, i, j - 1);
      var done, before := PairsUpTo(ids, i), PairsWith(ids[i], ids[i + 1..j - 1]);
      assert Progress(ids, i, j) == done + before + [(ids[i], ids[j - 1])];
      assert done + before + [(ids[i], ids[j - 1])] == done + (before + [(ids[i], ids[j - 1])]);
    }
  }

  lemma PairsWithStep(ids: seq<string>, i: nat, j: nat)
    requires i < j < |ids|
    ensures PairsWith(ids[i], ids[i + 1..j + 1]) == PairsWith(ids[i], ids[i + 1..j]) + [(ids[i], ids[j])]
  {
    assert ids[i + 1..j + 1][..j - i - 1] == ids[i + 1..j];
  }

  lemma ProgressEnd(ids: seq<string>, i: nat)
    requires i < |ids|
    ensures Progress(ids, i, |ids|) == PairsUpTo(ids, i + 1)
  {
    ProgressIsPairs(ids, i, |ids|);
    assert ids[i + 1..|ids|] == ids[i + 1..];
  }

  lemma ScoredStep(m: Math, measure: Measure, d: Blocks, similarity: Dict<Pair, real>, p: Pair, score: real)
    requires Scored(m, measure, d, similarity) && score == Score(m, measure, d, p.0, p.1)
    ensures Scored(m, measure, d, similarity.Put(p, score))
  {
  }

  /** Every pair taken before step (i, j) has a first block among the first
      i ids or is (ids[i], b) for an id b before position j, so with distinct
      ids the pair (ids[i], ids[j]) is new. */
  lemma NewPair(ids: seq<string>, i: nat, j: nat)
    requires NoDuplicates(ids) && i < j < |ids|
    ensures (ids[i], ids[j]) !in PairsUpTo(ids, i) + PairsWith(ids[i], ids[i + 1..j])
  {
    PairsUpToMembers(ids, i);
  }

  /** A pair is among the pairs of the first i ids exactly when its blocks
      sit at positions a < b with a < i. */
  lemma {:induction false} PairsUpToMembers(ids: seq<string>, i: nat)
    requires i <= |ids|
    ensures forall p :: p in PairsUpTo(ids, i) <==>
      exists a, b :: 0 <= a < i && a < b < |ids| && p == (ids[a], ids[b])
    decreases i
  {
    if i > 0 {
      PairsUpToMembers(ids, i - 1);
      var last := PairsWith(ids[i - 1], ids[i..]);
      forall p | p in last
        ensures exists a, b :: 0 <= a < i && a < b < |ids| && p == (ids[a], ids[b])
      {
        var k :| 0 <= k < |last| && last[k] == p;
        assert p == (ids[i - 1], ids[i + k]);
      }
      forall a, b | 0 <= a < i && a < b < |ids|
        ensures (ids[a], ids[b]) in PairsUpTo(ids, i)
      {
        if a == i - 1 {
          assert last[b - i] == (ids[a], ids[b]);
        }
      }
    }
  }

  /** The pairs are exactly those (ids[a], ids[b]) with a < b: no pair of an
      id with itself when the ids are distinct, and each unordered pair once. */
  lemma PairsAreOrderedIndexPairs(ids: seq<string>)
    requires NoDuplicates(ids)
    ensures forall p :: p in Pairs(ids) <==> exists a, b :: 0 <= a < b < |ids| && p == (ids[a], ids[b])
    ensures forall p :: p in Pairs(ids) ==> p.0 != p.1 && (p.1, p.0) !in Pairs(ids)
  {
    PairsUpToMembers(ids, |ids|);
    forall p | p in Pairs(ids)
      ensures p.0 != p.1 && (p.1, p.0) !in Pairs(ids)
    {
      var a, b :| 0 <= a < b < |ids| && p == (ids[a], ids[b]);
    }
  }

  /** There are n(n-1)/2 pairs of n ids. */
  lemma {:induction false} PairsUpToCount(ids: seq<string>, i: nat)
    requires i <= |ids|
    ensures 2 * |PairsUpTo(ids, i)| == i * (2 * |ids| - i - 1)
    decreases i
  {
    if i > 0 {
      PairsUpToCount(ids, i - 1);
      var n := |ids|;
      var t := 2 * n - i;
      assert |PairsUpTo(ids, i)| == |PairsUpTo(ids, i - 1)| + (n - i);
      assert (i - 1) * t == i * t - t;
      assert i * (t - 1) == i * t - i;
    }
  }

  lemma PairsCount(ids: seq<string>)
    ensures |Pairs(ids)| == |ids| * (|ids| - 1) / 2
  {
    PairsUpToCount(ids, |ids|);
  }
}
