/** Grouping rows under a key the way the scripts do it: a dict of lists
    (`defaultdict(list)`, or a list created on first sight of the key) to which
    each row appends its value. */
module Grouping {
  import opened Dicts
  import opened Counting

  /** `d[k].append(v)`, the list being created empty on first sight of `k`. */
  function Append<K(==), V>(d: Dict<K, seq<V>>, k: K, v: V): Dict<K, seq<V>> {
    d.Put(k, d.GetOr(k, []) + [v])
  }

  function Keys<K, V>(pairs: seq<(K, V)>): (r: seq<K>)
    ensures |r| == |pairs|
    ensures forall i :: 0 <= i < |pairs| ==> r[i] == pairs[i].0
  {
    if pairs == [] then [] else Keys(pairs[..|pairs| - 1]) + [pairs[|pairs| - 1].0]
  }

  /** The values paired with `k`, in their original order. */
  function Select<K(==), V>(pairs: seq<(K, V)>, k: K): seq<V> {
    if pairs == [] then []
    else
      var last := pairs[|pairs| - 1];
      Select(pairs[..|pairs| - 1], k) + (if last.0 == k then [last.1] else [])
  }

  /** The dict of lists after appending every pair's value under its key. */
  function GroupBy<K(==), V>(pairs: seq<(K, V)>): Dict<K, seq<V>> {
    if pairs == [] then Empty()
    else
      var last := pairs[|pairs| - 1];
      Append(GroupBy(pairs[..|pairs| - 1]), last.0, last.1)
  }

  /** Sum of the list lengths stored under the keys `ks`. */
  function TotalLength<K(==), V>(d: Dict<K, seq<V>>, ks: seq<K>): nat
    requires forall k :: k in ks ==> k in d.entries
  {
    if ks == [] then 0 else |d.entries[ks[0]]| + TotalLength(d, ks[1..])
  }

  // ---------------------------------------------------------------------

  /** Every key that occurs gets exactly one list, the keys are in order of
      first appearance, and each list holds that key's values in order. */
  lemma {:induction false} GroupByIsSelect<K, V>(pairs: seq<(K, V)>)
    ensures GroupBy(pairs).Valid()
    ensures GroupBy(pairs).keys == Distinct(Keys(pairs))
    ensures forall k :: k in GroupBy(pairs).entries <==> k in Keys(pairs)
    ensures forall k :: k in GroupBy(pairs).entries ==> GroupBy(pairs).entries[k] == Select(pairs, k)
    decreases |pairs|
  {
    if pairs != [] {
      var init := pairs[..|pairs| - 1];
      GroupByIsSelect(init);
      assert Keys(pairs) == Keys(init) + [pairs[|pairs| - 1].0];
      assert Keys(pairs)[..|pairs| - 1] == Keys(init);
      DistinctProperties(Keys(init));
      forall k | k in GroupBy(init).entries && k != pairs[|pairs| - 1].0
        ensures Select(pairs, k) == Select(init, k)
      {
      }
      if pairs[|pairs| - 1].0 !in Keys(init) {
        SelectOfAbsent(init, pairs[|pairs| - 1].0);
      }
    }
  }

  lemma {:induction false} SelectOfAbsent<K, V>(pairs: seq<(K, V)>, k: K)
    requires k !in Keys(pairs)
    ensures Select(pairs, k) == []
    decreases |pairs|
  {
    if pairs != [] {
      assert Keys(pairs[..|pairs| - 1]) == Keys(pairs)[..|pairs| - 1];
      SelectOfAbsent(pairs[..|pairs| - 1], k);
    }
  }

  /** A key's list is as long as the number of pairs carrying that key. */
  lemma {:induction false} SelectLength<K, V>(pairs: seq<(K, V)>, k: K)
    ensures |Select(pairs, k)| == Count(Keys(pairs), k)
    decreases |pairs|
  {
    if pairs != [] {
      assert Keys(pairs[..|pairs| - 1]) == Keys(pairs)[..|pairs| - 1];
      SelectLength(pairs[..|pairs| - 1], k);
    }
  }

  lemma {:induction false} TotalLengthIsSumCounts<K, V>(pairs: seq<(K, V)>, ks: seq<K>)
    requires forall k :: k in ks ==> k in GroupBy(pairs).entries
    requires forall k :: k in GroupBy(pairs).entries ==> GroupBy(pairs).entries[k] == Select(pairs, k)
    ensures TotalLength(GroupBy(pairs), ks) == SumCounts(ks, Keys(pairs), Every())
    decreases |ks|
  {
    if ks != [] {
      SelectLength(pairs, ks[0]);
      TotalLengthIsSumCounts(pairs, ks[1..]);
    }
  }

  /** Every pair lands in exactly one list: the list lengths add up to the
      number of pairs. */
  lemma GroupSizesSum<K, V>(pairs: seq<(K, V)>)
    ensures GroupBy(pairs).Valid()
    ensures TotalLength(GroupBy(pairs), GroupBy(pairs).keys) == |pairs|
  {
    GroupByIsSelect(pairs);
    DistinctProperties(Keys(pairs));
    TotalLengthIsSumCounts(pairs, GroupBy(pairs).keys);
    SumCountsOfCoveringKeys(Distinct(Keys(pairs)), Keys(pairs), Every());
    CountIfTrue(Keys(pairs));
  }
}
