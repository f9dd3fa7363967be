/** The score of one pair of blocks in the KL scripts: a sum, over the types
    of the first block, of a divergence between that type's distributions in
    the two blocks. Two divergences occur: the smoothed one of
    `kl_divergence.py`, `kl_divergence_normalized.py` and the
    `similarity_matrix.py` files, and the masked per-assembly one of
    `kl_divergence/kl_divergence.py`. `log2` is a parameter (module Numeric). */
module Divergence {
  import opened Dicts
  import opened Numeric
  import opened Distributions

  /** `epsilon = 1e-10` */
  const Epsilon: real := 0.0000000001

  /** `a / b`. Division by 0 gives 0 here, where numpy gives infinity or
      NaN; the only divisor, `q + epsilon`, is non-zero for every
      non-negative `q`. */
  function Ratio(a: real, b: real): real {
    if b == 0.0 then 0.0 else a / b
  }

  /** `np.sum(p * np.log2(p / q))` after adding epsilon to every entry. */
  function SmoothedKL(m: Math, p: seq<real>, q: seq<real>): real
    requires |p| == |q|
  {
    if p == [] then 0.0
    else
      var n := |p| - 1;
      var pe, qe := p[n] + Epsilon, q[n] + Epsilon;
      SmoothedKL(m, p[..n], q[..n]) + pe * m.log2(Ratio(pe, qe))
  }

  /** Some entry would be `p * log2(p / 0)` with `p` non-zero: the numpy sum
      is infinite. */
  predicate Infinite(p: seq<real>, q: seq<real>)
    requires |p| == |q|
  {
    exists i :: 0 <= i < |p| && p[i] != 0.0 && q[i] == 0.0
  }

  /** The sum of `p * log2(p / q)` over the entries where `p` is not 0. */
  function MaskedSum(m: Math, p: seq<real>, q: seq<real>): real
    requires |p| == |q|
  {
    if p == [] then 0.0
    else
      var n := |p| - 1;
      MaskedSum(m, p[..n], q[..n]) + (if p[n] != 0.0 && q[n] != 0.0 then p[n] * m.log2(p[n] / q[n]) else 0.0)
  }

  /** `np.sum(np.where(p != 0, p * np.log2(p / q), 0))`, an infinite sum
      being replaced by 0. */
  function MaskedKL(m: Math, p: seq<real>, q: seq<real>): real
    requires |p| == |q|
  {
    if Infinite(p, q) then 0.0 else MaskedSum(m, p, q)
  }

  /** The per-assembly term: `[p1, p2]` against `[p2, p1]`. */
  function PairTerm(m: Math, p1: real, p2: real): real {
    MaskedKL(m, [p1, p2], [p2, p1])
  }

  // ---------------------------------------------------------------------
  // Aligning two distributions

  /** The keys of `ys` that are not in `xs`, in their order. */
  function Missing(ys: seq<string>, xs: seq<string>): seq<string> {
    if ys == [] then []
    else Missing(ys[..|ys| - 1], xs) + (if ys[|ys| - 1] in xs then [] else [ys[|ys| - 1]])
  }

  /** `set(p1.keys()).union(p2.keys())`, in one fixed order. */
  function Union(p1: Distribution, p2: Distribution): seq<string> {
    p1.keys + Missing(p2.keys, p1.keys)
  }

  /** `[p.get(assembly, 0) for assembly in assemblies]` */
  function Column(p: Distribution, assemblies: seq<string>): (r: seq<real>)
    ensures |r| == |assemblies|
    ensures forall i :: 0 <= i < |assemblies| ==> r[i] == p.GetOr(assemblies[i], 0.0)
  {
    if assemblies == [] then []
    else Column(p, assemblies[..|assemblies| - 1]) + [p.GetOr(assemblies[|assemblies| - 1], 0.0)]
  }

  /** The smoothed divergence of one type: both distributions aligned on the
      union of their assemblies. */
  function TypeDivergence(m: Math, p1: Distribution, p2: Distribution): real {
    var u := Union(p1, p2);
    SmoothedKL(m, Column(p1, u), Column(p2, u))
  }

  /** The masked divergence of one type: one term per assembly of the first
      block, against the second block's probability or 0. */
  function AssemblySum(m: Math, p1: Distribution, assemblies: seq<string>, p2: Distribution): real {
    if assemblies == [] then 0.0
    else
      var a := assemblies[|assemblies| - 1];
      AssemblySum(m, p1, assemblies[..|assemblies| - 1], p2) + PairTerm(m, p1.GetOr(a, 0.0), p2.GetOr(a, 0.0))
  }

  /** Which divergence a script uses. */
  datatype Measure = Smoothed | Masked

  function TypeScore(m: Math, measure: Measure, p1: Distribution, p2: Distribution): real {
    match measure
    case Smoothed => TypeDivergence(m, p1, p2)
    case Masked => AssemblySum(m, p1, p1.keys, p2)
  }

  /** Sum over the types `kinds` (of the first block), the second block's
      distribution of a type it lacks being `{}`. */
  function TypeSum(m: Math, measure: Measure, t1: TypeDistributions, kinds: seq<string>, t2: TypeDistributions): real {
    if kinds == [] then 0.0
    else
      var t := kinds[|kinds| - 1];
      TypeSum(m, measure, t1, kinds[..|kinds| - 1], t2) + TypeScore(m, measure, t1.GetOr(t, Empty()), t2.GetOr(t, Empty()))
  }

  /** The score of the pair (b1, b2). */
  function Score(m: Math, measure: Measure, d: Blocks, b1: string, b2: string): real {
    var t1 := d.GetOr(b1, Empty());
    TypeSum(m, measure, t1, t1.keys, d.GetOr(b2, Empty()))
  }

  /** The inner loops of `calculate_block_similarity` for one pair. */
  method BlockScore(m: Math, measure: Measure, d: Blocks, b1: string, b2: string) returns (similarity: real)
    requires b1 in d.entries && b2 in d.entries
    ensures similarity == Score(m, measure, d, b1, b2)
  {
    similarity := 0.0;
    var types1 := d.entries[b1];
    var types2 := d.entries[b2];
    var k := 0;
    while k < |types1.keys|
      invariant 0 <= k <= |types1.keys|
      invariant similarity == TypeSum(m, measure, types1, types1.keys[..k], types2)
    {
      TypeSumStep(m, measure, types1, types2, k);
      var variableType := types1.keys[k];
      var probabilities1 := types1.GetOr(variableType, Empty());
      var probabilities2 := types2.GetOr(variableType, Empty());
      match measure {
        case Smoothed =>
          var allAssemblies := Union(probabilities1, probabilities2);
          var p := Column(probabilities1, allAssemblies);
          var q := Column(probabilities2, allAssemblies);
          similarity := similarity + SmoothedKL(m, p, q);
        case Masked =>
          similarity := AddAssemblyTerms(m, probabilities1, probabilities2, similarity);
      }
      k := k + 1;
    }
    assert types1.keys[..k] == types1.keys;
  }

  lemma TypeSumStep(m: Math, measure: Measure, t1: TypeDistributions, t2: TypeDistributions, k: nat)
    requires k < |t1.keys|
    ensures TypeSum(m, measure, t1, t1.keys[..k + 1], t2)
         == TypeSum(m, measure, t1, t1.keys[..k], t2) + TypeScore(m, measure, t1.GetOr(t1.keys[k], Empty()), t2.GetOr(t1.keys[k], Empty()))
  {
    assert t1.keys[..k + 1][..k] == t1.keys[..k];
  }

  /** The loop over the first block's assemblies, adding one term each to
      the running similarity. */
  method AddAssemblyTerms(m: Math, probabilities1: Distribution, probabilities2: Distribution, base: real) returns (similarity: real)
    ensures similarity == base + AssemblySum(m, probabilities1, probabilities1.keys, probabilities2)
  {
    similarity := base;
    var j := 0;
    while j < |probabilities1.keys|
      invariant 0 <= j <= |probabilities1.keys|
      invariant similarity == base + AssemblySum(m, probabilities1, probabilities1.keys[..j], probabilities2)
    {
      assert probabilities1.keys[..j + 1][..j] == probabilities1.keys[..j];
      var assembly := probabilities1.keys[j];
      var probability1 := probabilities1.GetOr(assembly, 0.0);
      var probability2 := probabilities2.GetOr(assembly, 0.0);
      similarity := similarity + PairTerm(m, probability1, probability2);
      j := j + 1;
    }
    assert probabilities1.keys[..j] == probabilities1.keys;
  }

  // ---------------------------------------------------------------------
  // Properties

  /** The aligned vectors have one entry per assembly of either block. */
  lemma UnionCoversBoth(p1: Distribution, p2: Distribution, a: string)
    ensures a in Union(p1, p2) <==> a in p1.keys || a in p2.keys
    ensures |Column(p1, Union(p1, p2))| == |Column(p2, Union(p1, p2))|
  {
    MissingMembers(p2.keys, p1.keys, a);
  }

  lemma {:induction false} MissingMembers(ys: seq<string>, xs: seq<string>, a: string)
    ensures a in Missing(ys, xs) <==> a in ys && a !in xs
    decreases |ys|
  {
    if ys != [] {
      MissingMembers(ys[..|ys| - 1], xs, a);
      assert ys == ys[..|ys| - 1] + [ys[|ys| - 1]];
    }
  }

  /** A type the second block lacks is compared against all zeros. */
  lemma MissingTypeGivesZeros(assemblies: seq<string>)
    ensures forall i :: 0 <= i < |assemblies| ==> Column(Empty(), assemblies)[i] == 0.0
  {
  }

  /** Equal vectors have a smoothed divergence of 0. */
  lemma {:induction false} SmoothedKLOfSelf(m: Math, p: seq<real>)
    requires Sound(m)
    ensures SmoothedKL(m, p, p) == 0.0
    decreases |p|
  {
    if p != [] {
      var n := |p| - 1;
      SmoothedKLOfSelf(m, p[..n]);
      SelfRatio(p[n] + Epsilon);
    }
  }

  lemma SelfRatio(x: real)
    ensures x != 0.0 ==> Ratio(x, x) == 1.0
  {
  }

  /** A block compared with an identical block scores 0, type by type. */
  lemma {:induction false} TypeSumOfSelf(m: Math, measure: Measure, t: TypeDistributions, kinds: seq<string>)
    requires Sound(m)
    ensures TypeSum(m, measure, t, kinds, t) == 0.0
    decreases |kinds|
  {
    if kinds != [] {
      TypeSumOfSelf(m, measure, t, kinds[..|kinds| - 1]);
      var p := t.GetOr(kinds[|kinds| - 1], Empty());
      match measure {
        case Smoothed => SmoothedKLOfSelf(m, Column(p, Union(p, p)));
        case Masked => AssemblySumOfSelf(m, p, p.keys);
      }
    }
  }

  lemma {:induction false} AssemblySumOfSelf(m: Math, p: Distribution, assemblies: seq<string>)
    requires Sound(m)
    ensures AssemblySum(m, p, assemblies, p) == 0.0
    decreases |assemblies|
  {
    if assemblies != [] {
      AssemblySumOfSelf(m, p, assemblies[..|assemblies| - 1]);
      PairTermOfEqual(m, p.GetOr(assemblies[|assemblies| - 1], 0.0));
    }
  }

  lemma ScoreOfIdenticalBlocks(m: Math, measure: Measure, d: Blocks, b1: string, b2: string)
    requires Sound(m) && d.GetOr(b1, Empty()) == d.GetOr(b2, Empty())
    ensures Score(m, measure, d, b1, b2) == 0.0
  {
    var t := d.GetOr(b1, Empty());
    TypeSumOfSelf(m, measure, t, t.keys);
  }

  /** A per-assembly term with p1 == p2 adds 0. */
  lemma PairTermOfEqual(m: Math, p: real)
    requires Sound(m)
    ensures PairTerm(m, p, p) == 0.0
  {
    var v := [p, p];
    assert !Infinite(v, v);
    var term := if p != 0.0 then p * m.log2(p / p) else 0.0;
    if p != 0.0 {
      assert p / p == 1.0;
    }
    assert term == 0.0;
    assert v[..1] == [p] && [p][..0] == [];
    assert MaskedSum(m, [p], [p]) == MaskedSum(m, [], []) + term;
    assert MaskedSum(m, v, v) == MaskedSum(m, [p], [p]) + term;
  }

  /** An assembly the second block lacks adds 0, whatever its probability in
      the first: either the masked entries leave nothing, or the sum is
      infinite and replaced by 0. */
  lemma PairTermOfAbsent(m: Math, p1: real)
    ensures PairTerm(m, p1, 0.0) == 0.0
  {
    var p, q := [p1, 0.0], [0.0, p1];
    if p1 != 0.0 {
      assert p[0] != 0.0 && q[0] == 0.0;
      assert Infinite(p, q);
    } else {
      assert p[..1] == [0.0] && q[..1] == [0.0] && [0.0][..0] == [];
      assert MaskedSum(m, [0.0], [0.0]) == MaskedSum(m, [], []) + 0.0;
      assert MaskedSum(m, p, q) == MaskedSum(m, [0.0], [0.0]) + 0.0;
    }
  }

  /** So in the masked score a type the second block lacks adds nothing. */
  lemma {:induction false} MaskedMissingTypeAddsNothing(m: Math, p1: Distribution, assemblies: seq<string>)
    ensures AssemblySum(m, p1, assemblies, Empty()) == 0.0
    decreases |assemblies|
  {
    if assemblies != [] {
      MaskedMissingTypeAddsNothing(m, p1, assemblies[..|assemblies| - 1]);
      PairTermOfAbsent(m, p1.GetOr(assemblies[|assemblies| - 1], 0.0));
    }
  }

  /** Only the first block's types count: a type found only in the second
      block changes nothing. */
  lemma {:induction false} ExtraSecondTypeIgnored(m: Math, measure: Measure, t1: TypeDistributions, kinds: seq<string>,
                                                  t2: TypeDistributions, extra: string, p: Distribution)
    requires extra !in kinds
    ensures TypeSum(m, measure, t1, kinds, t2.Put(extra, p)) == TypeSum(m, measure, t1, kinds, t2)
    decreases |kinds|
  {
    if kinds != [] {
      ExtraSecondTypeIgnored(m, measure, t1, kinds[..|kinds| - 1], t2, extra, p);
    }
  }
}
