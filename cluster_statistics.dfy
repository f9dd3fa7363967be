/** The data side of the cluster plots (`clusters_visualization.py`, in
    `src/analysis/visualization/` and at the root): the cluster-assignment
    table becomes a dict cluster -> block ids, the entropy table a dict
    block id -> entropies, and each cluster gets its size and the mean of the
    entropies of all its blocks pooled together. The two copies differ only in
    the cluster key: the `src/` copy converts it with `int()`, the root copy
    keeps the raw text. */
module ClusterStatistics {
  import opened Wrappers
  import opened Dicts
  import opened Counting
  import opened Grouping
  import opened Numeric
  import opened Strings

  /** One data row of the cluster-assignment file: `block_id, cluster = row`. */
  datatype Assignment = Assignment(blockId: string, cluster: string)

  // ---------------------------------------------------------------------
  // read_cluster_assignments

  /** True when every cluster cell is an integer to Python's `int()`. */
  predicate AllClustersParse(rows: seq<Assignment>) {
    forall i :: 0 <= i < |rows| ==> ParseInt(rows[i].cluster).Some?
  }

  /** (int(cluster), block id) of every row, or None when some cluster cell
      is not an integer. */
  function NumberedPairs(rows: seq<Assignment>): (r: Option<seq<(int, string)>>)
    ensures r.Some? ==> |r.value| == |rows|
  {
    if rows == [] then Some([])
    else
      match NumberedPairs(rows[..|rows| - 1])
      case None => None
      case Some(pairs) =>
        match ParseInt(rows[|rows| - 1].cluster)
        case None => None
        case Some(c) => Some(pairs + [(c, rows[|rows| - 1].blockId)])
  }

  lemma NumberedPairsSnoc(rows: seq<Assignment>, i: nat)
    requires i < |rows| && NumberedPairs(rows[..i]).Some? && ParseInt(rows[i].cluster).Some?
    ensures NumberedPairs(rows[..i + 1])
         == Some(NumberedPairs(rows[..i]).value + [(ParseInt(rows[i].cluster).value, rows[i].blockId)])
  {
    assert rows[..i + 1][..i] == rows[..i];
  }

  /** (cluster text, block id) of every row. */
  function TextPairs(rows: seq<Assignment>): (r: seq<(string, string)>)
    ensures |r| == |rows|
    ensures forall i :: 0 <= i < |rows| ==> r[i] == (rows[i].cluster, rows[i].blockId)
  {
    if rows == [] then []
    else TextPairs(rows[..|rows| - 1]) + [(rows[|rows| - 1].cluster, rows[|rows| - 1].blockId)]
  }

  /** `src/` copy: clusters are keyed by `int(cluster)`; the first cluster
      cell that is not an integer raises ValueError. */
  method ReadClusterAssignments(rows: seq<Assignment>) returns (r: Result<Dict<int, seq<string>>>)
    ensures r.Ok? <==> AllClustersParse(rows)
    ensures r.Ok? ==> NumberedPairs(rows).Some? && r.value == GroupBy(NumberedPairs(rows).value)
  {
    var clusters: Dict<int, seq<string>> := Empty();
    var i := 0;
    while i < |rows|
      invariant 0 <= i <= |rows|
      invariant NumberedPairs(rows[..i]).Some?
      invariant clusters == GroupBy(NumberedPairs(rows[..i]).value)
    {
      var cluster := ParseInt(rows[i].cluster);
      if cluster.None? {
        return Err("ValueError");
      }
      NumberedPairsSnoc(rows, i);
      clusters := AppendToList(clusters, cluster.value, rows[i].blockId);
      i := i + 1;
    }
    assert rows[..i] == rows;
    NumberedPairsParse(rows);
    return Ok(clusters);
  }

  /** Root copy: clusters are keyed by the cluster text as read. */
  method ReadClusterAssignmentsByText(rows: seq<Assignment>) returns (clusters: Dict<string, seq<string>>)
    ensures clusters == GroupBy(TextPairs(rows))
  {
    clusters := Empty();
    var i := 0;
    while i < |rows|
      invariant 0 <= i <= |rows|
      invariant clusters == GroupBy(TextPairs(rows[..i]))
    {
      var cluster := rows[i].cluster;
      assert rows[..i + 1][..i] == rows[..i];
      assert TextPairs(rows[..i + 1]) == TextPairs(rows[..i]) + [(cluster, rows[i].blockId)];
      clusters := AppendToList(clusters, cluster, rows[i].blockId);
      i := i + 1;
    }
    assert rows[..i] == rows;
  }

  /** The loop body shared by the readers: the key's list is created empty on
      first sight, then the value is appended to it. */
  method AppendToList<K(==), V>(before: Dict<K, seq<V>>, k: K, v: V) returns (d: Dict<K, seq<V>>)
    ensures d == Append(before, k, v)
  {
    d := before;
    if k !in d.entries {
      d := d.Put(k, []);
    }
    d := d.Put(k, d.entries[k] + [v]);
    PutPut(before, k, [], [v]);
  }

  // ---------------------------------------------------------------------
  // read_entropy_data

  /** Each block's entropies, in file order, from (Block_ID, Entropy) rows. */
  method ReadEntropyData(rows: seq<(string, real)>) returns (entropies: Dict<string, seq<real>>)
    ensures entropies == GroupBy(rows)
  {
    entropies := Empty();
    var i := 0;
    while i < |rows|
      invariant 0 <= i <= |rows|
      invariant entropies == GroupBy(rows[..i])
    {
      var (blockId, entropy) := rows[i];
      assert rows[..i + 1][..i] == rows[..i];
      assert rows[..i + 1] == rows[..i] + [(blockId, entropy)];
      entropies := AppendToList(entropies, blockId, entropy);
      i := i + 1;
    }
    assert rows[..i] == rows;
  }

  // ---------------------------------------------------------------------
  // calculate_cluster_statistics

  /** `cluster_entropy_values`: the entropies of the listed blocks, one block
      after another; blocks without entropies add nothing. */
  function Pooled(blockIds: seq<string>, entropies: Dict<string, seq<real>>): seq<real> {
    if blockIds == [] then []
    else Pooled(blockIds[..|blockIds| - 1], entropies) + entropies.GetOr(blockIds[|blockIds| - 1], [])
  }

  /** The mean of the values, or 0 when there are none. */
  function MeanOrZero(xs: seq<real>): real {
    if xs == [] then 0.0 else Mean(xs)
  }

  method CalculateClusterStatistics<K(==)>(clusters: Dict<K, seq<string>>, entropies: Dict<string, seq<real>>)
    returns (sizes: Dict<K, nat>, means: Dict<K, real>)
    requires clusters.Valid()
    ensures sizes.Valid() && sizes.keys == clusters.keys
    ensures means.Valid() && means.keys == clusters.keys
    ensures forall k :: k in clusters.entries ==> sizes.entries[k] == |clusters.entries[k]|
    ensures forall k :: k in clusters.entries ==> means.entries[k] == MeanOrZero(Pooled(clusters.entries[k], entropies))
  {
    sizes, means := Empty(), Empty();
    var j := 0;
    while j < |clusters.keys|
      invariant 0 <= j <= |clusters.keys|
      invariant sizes.Valid() && sizes.keys == clusters.keys[..j]
      invariant means.Valid() && means.keys == clusters.keys[..j]
      invariant forall k :: k in sizes.entries ==> k in clusters.entries && sizes.entries[k] == |clusters.entries[k]|
      invariant forall k :: k in means.entries ==> k in clusters.entries && means.entries[k] == MeanOrZero(Pooled(clusters.entries[k], entropies))
    {
      var cluster := clusters.keys[j];
      CopyStep(clusters, sizes, j, |clusters.entries[cluster]|);
      CopyStep(clusters, means, j, 0.0);
      var blockIds := clusters.entries[cluster];
      sizes := sizes.Put(cluster, |blockIds|);
      var values := PoolEntropies(blockIds, entropies);
      var mean := if values != [] then Sum(values) / |values| as real else 0.0;
      assert mean == MeanOrZero(Pooled(blockIds, entropies));
      means := means.Put(cluster, mean);
      j := j + 1;
    }
    assert clusters.keys[..j] == clusters.keys;
  }

  /** The inner loop: `cluster_entropy_values.extend(entropies[block_id])` for
      every block id found in `entropies`. */
  method PoolEntropies(blockIds: seq<string>, entropies: Dict<string, seq<real>>) returns (values: seq<real>)
    ensures values == Pooled(blockIds, entropies)
  {
    values := [];
    var i := 0;
    while i < |blockIds|
      invariant 0 <= i <= |blockIds|
      invariant values == Pooled(blockIds[..i], entropies)
    {
      assert blockIds[..i + 1][..i] == blockIds[..i];
      if blockIds[i] in entropies.entries {
        values := values + entropies.entries[blockIds[i]];
      }
      i := i + 1;
    }
    assert blockIds[..i] == blockIds;
  }

  // ---------------------------------------------------------------------
  // Properties

  /** Every assignment row lands in exactly one cluster list, in file order:
      the list of cluster `c` holds the block ids of the rows whose cluster is
      `c`, the clusters appear in order of first appearance, and the cluster
      sizes add up to the number of rows. */
  lemma AssignmentsPartitionRows(rows: seq<Assignment>)
    requires NumberedPairs(rows).Some?
    ensures var pairs := NumberedPairs(rows).value; var clusters := GroupBy(pairs);
      && clusters.Valid()
      && clusters.keys == Distinct(Keys(pairs))
      && (forall c :: c in clusters.entries ==> clusters.entries[c] == Select(pairs, c))
      && TotalLength(clusters, clusters.keys) == |rows|
  {
    GroupByIsSelect(NumberedPairs(rows).value);
    GroupSizesSum(NumberedPairs(rows).value);
  }

  /** `NumberedPairs` succeeds exactly when every cluster cell is an integer,
      and then pairs each row's `int(cluster)` with its block id. */
  lemma {:induction false} NumberedPairsParse(rows: seq<Assignment>)
    ensures NumberedPairs(rows).Some? <==> AllClustersParse(rows)
    ensures NumberedPairs(rows).Some? ==> forall i :: 0 <= i < |rows| ==>
      NumberedPairs(rows).value[i] == (ParseInt(rows[i].cluster).value, rows[i].blockId)
    decreases |rows|
  {
    if rows != [] {
      var init := rows[..|rows| - 1];
      NumberedPairsParse(init);
      assert forall i :: 0 <= i < |init| ==> init[i] == rows[i];
      if !AllClustersParse(init) {
        var i :| 0 <= i < |init| && ParseInt(init[i].cluster).None?;
        assert ParseInt(rows[i].cluster).None?;
      }
    }
  }

  /** A cluster that has a list has at least one block. */
  lemma {:induction false} ClustersAreNonEmpty<K, V>(pairs: seq<(K, V)>, c: K)
    requires c in GroupBy(pairs).entries
    ensures |GroupBy(pairs).entries[c]| > 0
    decreases |pairs|
  {
    if pairs != [] {
      var init := pairs[..|pairs| - 1];
      if c != pairs[|pairs| - 1].0 {
        ClustersAreNonEmpty(init, c);
      }
    }
  }

  /** `int()` merges cluster texts that name the same number ("1" and "01"
      are one cluster in the `src/` copy) while the root copy keeps them apart. */
  lemma LeadingZeroClusters()
    ensures var rows := [Assignment("a", "1"), Assignment("b", "01")];
      && NumberedPairs(rows).Some?
      && GroupBy(NumberedPairs(rows).value).keys == [1]
      && GroupBy(TextPairs(rows)).keys == ["1", "01"]
  {
    var rows := [Assignment("a", "1"), Assignment("b", "01")];
    NumberedExample();
    var numbered: seq<(int, string)> := [(1, "a"), (1, "b")];
    assert numbered[..1] == [(1, "a")];
    assert numbered[..1][..0] == [];
    assert GroupBy(numbered[..1]) == Append(Empty(), 1, "a");
    assert Empty<int, seq<string>>().GetOr(1, []) + ["a"] == ["a"];
    assert GroupBy(numbered).keys == [1];
    TextExample();
  }

  lemma NumberedExample()
    ensures NumberedPairs([Assignment("a", "1"), Assignment("b", "01")]) == Some([(1, "a"), (1, "b")])
  {
    var rows := [Assignment("a", "1"), Assignment("b", "01")];
    ParseOne();
    ParseZeroOne();
    var first := [Assignment("a", "1")];
    assert rows[..1] == first;
    assert first[..0] == [];
    assert NumberedPairs(first[..0]) == Some([]);
    assert first[0].cluster == "1";
    var none: seq<(int, string)> := [];
    assert none + [(1, "a")] == [(1, "a")];
    assert NumberedPairs(first) == Some([(1, "a")]);
    assert [(1, "a")] + [(1, "b")] == [(1, "a"), (1, "b")];
  }

  lemma TextExample()
    ensures GroupBy(TextPairs([Assignment("a", "1"), Assignment("b", "01")])).keys == ["1", "01"]
  {
    var rows := [Assignment("a", "1"), Assignment("b", "01")];
    var texts: seq<(string, string)> := [("1", "a"), ("01", "b")];
    assert TextPairs(rows) == texts;
    assert texts[..1] == [("1", "a")];
    assert texts[..1][..0] == [];
    assert GroupBy(texts[..1]) == Append(Empty(), "1", "a");
    assert Empty<string, seq<string>>().GetOr("1", []) + ["a"] == ["a"];
    assert "01" != "1";
  }

  lemma ParseOne()
    ensures ParseInt("1") == Some(1)
  {
    StripUnchanged("1");
    assert DigitsValue("1") == 1 by {
      assert "1"[..0] == "";
    }
  }

  lemma ParseZeroOne()
    ensures ParseInt("01") == Some(1)
  {
    StripUnchanged("01");
    assert AllDigits("01");
    assert DigitsValue("01") == 1 by {
      assert "01"[..1] == "0";
      assert "0"[..0] == "";
    }
  }

  lemma {:induction false} PooledLength(blockIds: seq<string>, entropies: Dict<string, seq<real>>)
    ensures |Pooled(blockIds, entropies)| == PooledCount(blockIds, entropies)
    decreases |blockIds|
  {
    if blockIds != [] {
      PooledLength(blockIds[..|blockIds| - 1], entropies);
    }
  }

  /** Number of entropy values of the listed blocks. */
  function PooledCount(blockIds: seq<string>, entropies: Dict<string, seq<real>>): nat {
    if blockIds == [] then 0
    else PooledCount(blockIds[..|blockIds| - 1], entropies) + |entropies.GetOr(blockIds[|blockIds| - 1], [])|
  }

  /** Blocks missing from the entropy table contribute nothing: a cluster none
      of whose blocks has entropies gets 0. */
  lemma {:induction false} PooledOfUnknownBlocks(blockIds: seq<string>, entropies: Dict<string, seq<real>>)
    requires forall i :: 0 <= i < |blockIds| ==> blockIds[i] !in entropies.entries
    ensures Pooled(blockIds, entropies) == []
    ensures MeanOrZero(Pooled(blockIds, entropies)) == 0.0
    decreases |blockIds|
  {
    if blockIds != [] {
      PooledOfUnknownBlocks(blockIds[..|blockIds| - 1], entropies);
    }
  }

  /** Every pooled value is an entropy of one of the cluster's blocks. */
  lemma {:induction false} PooledValuesComeFromBlocks(blockIds: seq<string>, entropies: Dict<string, seq<real>>, x: real)
    requires x in Pooled(blockIds, entropies)
    ensures exists i :: 0 <= i < |blockIds| && blockIds[i] in entropies.entries && x in entropies.entries[blockIds[i]]
    decreases |blockIds|
  {
    var init := blockIds[..|blockIds| - 1];
    var last := blockIds[|blockIds| - 1];
    if x in Pooled(init, entropies) {
      PooledValuesComeFromBlocks(init, entropies, x);
      var i :| 0 <= i < |init| && init[i] in entropies.entries && x in entropies.entries[init[i]];
      assert blockIds[i] == init[i];
    } else {
      assert x in entropies.GetOr(last, []);
      assert blockIds[|blockIds| - 1] == last;
    }
  }

  lemma {:induction false} SumBounds(xs: seq<real>, lo: real, hi: real)
    requires forall i :: 0 <= i < |xs| ==> lo <= xs[i] <= hi
    ensures |xs| as real * lo <= Sum(xs) <= |xs| as real * hi
    decreases |xs|
  {
    if xs != [] {
      SumBounds(xs[..|xs| - 1], lo, hi);
    }
  }

  /** The mean of values that all lie in [lo, hi] lies in [lo, hi]. */
  lemma MeanWithinBounds(xs: seq<real>, lo: real, hi: real)
    requires xs != []
    requires forall i :: 0 <= i < |xs| ==> lo <= xs[i] <= hi
    ensures lo <= Mean(xs) <= hi
  {
    SumBounds(xs, lo, hi);
    var n := |xs| as real;
    assert n * lo <= Sum(xs) <= n * hi;
    assert Sum(xs) / n >= lo by {
      assert (n * lo) / n == lo;
    }
    assert Sum(xs) / n <= hi by {
      assert (n * hi) / n == hi;
    }
  }

  /** Entropies are never negative, so no cluster entropy is negative; and
      when every entropy is at most `hi`, no cluster entropy exceeds `hi`. */
  lemma ClusterEntropyWithinBounds(blockIds: seq<string>, entropies: Dict<string, seq<real>>, hi: real)
    requires 0.0 <= hi
    requires forall b :: b in entropies.entries ==> forall x :: x in entropies.entries[b] ==> 0.0 <= x <= hi
    ensures 0.0 <= MeanOrZero(Pooled(blockIds, entropies)) <= hi
  {
    var xs := Pooled(blockIds, entropies);
    if xs != [] {
      forall i | 0 <= i < |xs| ensures 0.0 <= xs[i] <= hi {
        PooledValuesComeFromBlocks(blockIds, entropies, xs[i]);
      }
      MeanWithinBounds(xs, 0.0, hi);
    }
  }

  /** The cluster entropy pools the values: a block with more entropy values
      weighs more. Block "a" with [0, 0, 0] and block "b" with [4] give 1,
      where the mean of the two block means would be 2. */
  lemma PooledMeanWeighsBlocksByValueCount()
    ensures var entropies := Dict(["a", "b"], map["a" := [0.0, 0.0, 0.0], "b" := [4.0]]);
      && MeanOrZero(Pooled(["a", "b"], entropies)) == 1.0
      && (Mean([0.0, 0.0, 0.0]) + Mean([4.0])) / 2.0 == 2.0
  {
    var entropies := Dict(["a", "b"], map["a" := [0.0, 0.0, 0.0], "b" := [4.0]]);
    assert ["a", "b"][..1] == ["a"];
    assert Pooled(["a"], entropies) == [0.0, 0.0, 0.0];
    var xs := [0.0, 0.0, 0.0, 4.0];
    assert Pooled(["a", "b"], entropies) == xs;
    SumOfConstant([0.0, 0.0, 0.0], 0.0);
    SumOfConstant([4.0], 4.0);
    assert xs[..3] == [0.0, 0.0, 0.0];
    assert Sum(xs) == 4.0;
  }
}
