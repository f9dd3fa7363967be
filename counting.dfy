/** Counting occurrences the way the scripts do it: a dictionary whose entry
    for a key is incremented once per occurrence (`d[k] = d.get(k, 0) + 1`,
    `defaultdict(int)`, `groupby().size()`), together with the facts that turn
    counts into probabilities that sum to 1. */
module Counting {
  import opened Dicts

  /** Number of occurrences of `x` in `xs`. */
  function Count<T(==)>(xs: seq<T>, x: T): nat {
    if xs == [] then 0
    else Count(xs[..|xs| - 1], x) + (if xs[|xs| - 1] == x then 1 else 0)
  }

  /** The predicate that holds of everything. */
  function Every<T>(): T -> bool {
    (x: T) => true
  }

  /** Number of elements of `xs` that satisfy `p`. */
  function CountIf<T>(xs: seq<T>, p: T -> bool): nat {
    if xs == [] then 0
    else CountIf(xs[..|xs| - 1], p) + (if p(xs[|xs| - 1]) then 1 else 0)
  }

  /** The distinct elements of `xs` in order of first appearance. */
  function Distinct<T(==)>(xs: seq<T>): seq<T> {
    if xs == [] then []
    else
      var d := Distinct(xs[..|xs| - 1]);
      if xs[|xs| - 1] in d then d else d + [xs[|xs| - 1]]
  }

  predicate NoDuplicates<T(==)>(s: seq<T>) {
    forall i, j :: 0 <= i < j < |s| ==> s[i] != s[j]
  }

  /** One `d[x] += 1` on a counting dictionary. */
  function Increment<T(==)>(d: Dict<T, nat>, x: T): Dict<T, nat> {
    d.Put(x, d.GetOr(x, 0) + 1)
  }

  /** The counting dictionary after one increment per element of `xs`. */
  function Tally<T(==)>(xs: seq<T>): Dict<T, nat> {
    if xs == [] then Empty() else Increment(Tally(xs[..|xs| - 1]), xs[|xs| - 1])
  }

  /** Sum, over the keys in `ks` that satisfy `p`, of their counts in `xs`. */
  function SumCounts<T(==)>(ks: seq<T>, xs: seq<T>, p: T -> bool): nat {
    if ks == [] then 0
    else (if p(ks[0]) then Count(xs, ks[0]) else 0) + SumCounts(ks[1..], xs, p)
  }

  /** Sum, over the keys in `ks` that satisfy `p`, of `count / n`. */
  function ShareSum<T(==)>(ks: seq<T>, xs: seq<T>, p: T -> bool, n: nat): real
    requires n > 0
  {
    if ks == [] then 0.0
    else (if p(ks[0]) then Count(xs, ks[0]) as real / n as real else 0.0)
         + ShareSum(ks[1..], xs, p, n)
  }

  // ---------------------------------------------------------------------

  lemma {:induction false} DistinctProperties<T>(xs: seq<T>)
    ensures NoDuplicates(Distinct(xs))
    ensures forall x :: x in Distinct(xs) <==> x in xs
    decreases |xs|
  {
    if xs != [] {
      var ys := xs[..|xs| - 1];
      DistinctProperties(ys);
      assert xs == ys + [xs[|xs| - 1]];
    }
  }

  /** The counting dictionary holds exactly the distinct elements, in order of
      first appearance, each with its number of occurrences. */
  lemma {:induction false} TallyIsCount<T>(xs: seq<T>)
    ensures Tally(xs).Valid()
    ensures Tally(xs).keys == Distinct(xs)
    ensures forall x :: x in Tally(xs).entries <==> x in xs
    ensures forall x :: x in Tally(xs).entries ==> Tally(xs).entries[x] == Count(xs, x)
    decreases |xs|
  {
    if xs != [] {
      var ys := xs[..|xs| - 1];
      var last := xs[|xs| - 1];
      TallyIsCount(ys);
      DistinctProperties(ys);
      assert xs == ys + [last];
      CountPositive(ys, last);
      forall x ensures Count(xs, x) == Count(ys, x) + (if last == x then 1 else 0) {
      }
    }
  }

  /** One more element is one more increment. */
  lemma TallySnoc<T>(xs: seq<T>, x: T)
    ensures Tally(xs + [x]) == Increment(Tally(xs), x)
  {
    assert (xs + [x])[..|xs|] == xs;
  }

  lemma {:induction false} CountAppend<T>(xs: seq<T>, ys: seq<T>, x: T)
    ensures Count(xs + ys, x) == Count(xs, x) + Count(ys, x)
    decreases |ys|
  {
    if ys == [] {
      assert xs + ys == xs;
    } else {
      assert (xs + ys)[..|xs + ys| - 1] == xs + ys[..|ys| - 1];
      CountAppend(xs, ys[..|ys| - 1], x);
    }
  }

  lemma {:induction false} CountIfAppend<T>(xs: seq<T>, ys: seq<T>, p: T -> bool)
    ensures CountIf(xs + ys, p) == CountIf(xs, p) + CountIf(ys, p)
    decreases |ys|
  {
    if ys == [] {
      assert xs + ys == xs;
    } else {
      assert (xs + ys)[..|xs + ys| - 1] == xs + ys[..|ys| - 1];
      CountIfAppend(xs, ys[..|ys| - 1], p);
    }
  }

  lemma {:induction false} CountPositive<T>(xs: seq<T>, x: T)
    ensures Count(xs, x) > 0 <==> x in xs
    decreases |xs|
  {
    if xs != [] {
      var ys := xs[..|xs| - 1];
      CountPositive(ys, x);
      assert xs == ys + [xs[|xs| - 1]];
    }
  }

  /** A key satisfying `p` never occurs more often than all `p`-elements together. */
  lemma {:induction false} CountAtMostCountIf<T>(xs: seq<T>, x: T, p: T -> bool)
    requires p(x)
    ensures Count(xs, x) <= CountIf(xs, p)
    decreases |xs|
  {
    if xs != [] {
      CountAtMostCountIf(xs[..|xs| - 1], x, p);
    }
  }

  lemma {:induction false} CountIfAtMostLength<T>(xs: seq<T>, p: T -> bool)
    ensures CountIf(xs, p) <= |xs|
    decreases |xs|
  {
    if xs != [] {
      CountIfAtMostLength(xs[..|xs| - 1], p);
    }
  }

  lemma {:induction false} SumCountsOfNothing<T>(ks: seq<T>, p: T -> bool)
    ensures SumCounts(ks, [], p) == 0
    decreases |ks|
  {
    if ks != [] {
      SumCountsOfNothing(ks[1..], p);
    }
  }

  /** Appending one element adds 1 to the sum exactly when that element is a
      selected key. */
  lemma {:induction false} SumCountsSnoc<T>(ks: seq<T>, ys: seq<T>, x: T, p: T -> bool)
    requires NoDuplicates(ks)
    ensures SumCounts(ks, ys + [x], p)
         == SumCounts(ks, ys, p) + (if x in ks && p(x) then 1 else 0)
    decreases |ks|
  {
    if ks != [] {
      assert (ys + [x])[..|ys|] == ys;
      assert Count(ys + [x], ks[0]) == Count(ys, ks[0]) + (if x == ks[0] then 1 else 0);
      assert NoDuplicates(ks[1..]) by {
        forall i, j | 0 <= i < j < |ks[1..]| ensures ks[1..][i] != ks[1..][j] {
          assert ks[1..][i] == ks[i + 1] && ks[1..][j] == ks[j + 1];
        }
      }
      SumCountsSnoc(ks[1..], ys, x, p);
      assert ks == [ks[0]] + ks[1..];
      if x == ks[0] {
        assert x !in ks[1..] by {
          forall i | 0 <= i < |ks[1..]| ensures ks[1..][i] != x {
            assert ks[1..][i] == ks[i + 1];
          }
        }
      }
    }
  }

  /** Summing the counts of distinct keys that cover every element counts each
      selected element exactly once. */
  lemma {:induction false} SumCountsOfCoveringKeys<T>(ks: seq<T>, xs: seq<T>, p: T -> bool)
    requires NoDuplicates(ks)
    requires forall x :: x in xs ==> x in ks
    ensures SumCounts(ks, xs, p) == CountIf(xs, p)
    decreases |xs|
  {
    if xs == [] {
      SumCountsOfNothing(ks, p);
    } else {
      var ys := xs[..|xs| - 1];
      var x := xs[|xs| - 1];
      assert xs == ys + [x];
      SumCountsOfCoveringKeys(ks, ys, p);
      SumCountsSnoc(ks, ys, x, p);
    }
  }

  lemma {:induction false} ShareSumIsRatio<T>(ks: seq<T>, xs: seq<T>, p: T -> bool, n: nat)
    requires n > 0
    ensures ShareSum(ks, xs, p, n) == SumCounts(ks, xs, p) as real / n as real
    decreases |ks|
  {
    if ks != [] {
      ShareSumIsRatio(ks[1..], xs, p, n);
      var c := if p(ks[0]) then Count(xs, ks[0]) else 0;
      var rest := SumCounts(ks[1..], xs, p);
      assert (if p(ks[0]) then Count(xs, ks[0]) as real / n as real else 0.0) == c as real / n as real;
      AddRatios(c as real, rest as real, n as real);
    }
  }

  /** Adding one key at the end adds its share. */
  lemma {:induction false} ShareSumSnoc<T>(ks: seq<T>, k: T, xs: seq<T>, p: T -> bool, n: nat)
    requires n > 0
    ensures ShareSum(ks + [k], xs, p, n)
         == ShareSum(ks, xs, p, n) + (if p(k) then Count(xs, k) as real / n as real else 0.0)
    decreases |ks|
  {
    if ks == [] {
      assert ([] + [k])[1..] == [];
    } else {
      assert (ks + [k])[1..] == ks[1..] + [k];
      ShareSumSnoc(ks[1..], k, xs, p, n);
    }
  }

  lemma AddRatios(a: real, b: real, n: real)
    requires n > 0.0
    ensures a / n + b / n == (a + b) / n
  {
  }

  /** The shares of the distinct elements of `xs` that satisfy `p` add up to
      (number of `p`-elements) / n. */
  lemma ShareSumOfDistinct<T>(xs: seq<T>, p: T -> bool, n: nat)
    requires n > 0
    ensures ShareSum(Distinct(xs), xs, p, n) == CountIf(xs, p) as real / n as real
  {
    DistinctProperties(xs);
    SumCountsOfCoveringKeys(Distinct(xs), xs, p);
    ShareSumIsRatio(Distinct(xs), xs, p, n);
  }

  lemma {:induction false} CountIfTrue<T>(xs: seq<T>)
    ensures CountIf(xs, Every()) == |xs|
    decreases |xs|
  {
    if xs != [] {
      CountIfTrue(xs[..|xs| - 1]);
    }
  }

  /** The shares of the distinct elements of a non-empty list add up to 1. */
  lemma SharesSumToOne<T>(xs: seq<T>)
    requires xs != []
    ensures ShareSum(Distinct(xs), xs, Every(), |xs|) == 1.0
  {
    ShareSumOfDistinct(xs, Every(), |xs|);
    CountIfTrue(xs);
    RatioOfSelf(|xs|);
  }

  lemma RatioOfSelf(n: nat)
    requires n > 0
    ensures n as real / n as real == 1.0
  {
  }

  /** Each distinct element's share lies in (0, 1]. */
  lemma ShareInUnitRange<T>(xs: seq<T>, x: T)
    requires x in xs
    ensures 0.0 < Count(xs, x) as real / |xs| as real <= 1.0
  {
    CountPositive(xs, x);
    CountAtMostCountIf(xs, x, Every());
    CountIfTrue(xs);
  }

  /** A list of copies of one value has that value as its only distinct
      element. */
  lemma {:induction false} DistinctOfConstant<T>(xs: seq<T>, x: T)
    requires xs != []
    requires forall i :: 0 <= i < |xs| ==> xs[i] == x
    ensures Distinct(xs) == [x]
    ensures Count(xs, x) == |xs|
    decreases |xs|
  {
    if |xs| > 1 {
      DistinctOfConstant(xs[..|xs| - 1], x);
    }
  }
}
