/** The floating-point library calls the scripts make, over exact `real`s.
    `math.log2` and the square root inside `np.std` are not computed: they are
    parameters of every operation that needs them, and only the two facts the
    proofs rely on (`log2(1) = 0`, a square root is never negative) are
    assumed of them, as the hypothesis `Sound(m)`. */
module Numeric {

  /** The transcendental functions a script calls. */
  datatype Math = Math(log2: real -> real, sqrt: real -> real)

  ghost predicate Sound(m: Math) {
    && m.log2(1.0) == 0.0
    && forall x: real :: x >= 0.0 ==> m.sqrt(x) >= 0.0
  }

  /** `sum(xs)`. */
  function Sum(xs: seq<real>): real {
    if xs == [] then 0.0 else Sum(xs[..|xs| - 1]) + xs[|xs| - 1]
  }

  /** `np.mean(xs)` of a non-empty list. */
  function Mean(xs: seq<real>): real
    requires |xs| > 0
  {
    Sum(xs) / |xs| as real
  }

  function SquaredDeviations(xs: seq<real>, mean: real): (r: seq<real>)
    ensures |r| == |xs|
    ensures forall i :: 0 <= i < |xs| ==> r[i] == (xs[i] - mean) * (xs[i] - mean)
  {
    if xs == [] then []
    else SquaredDeviations(xs[..|xs| - 1], mean) + [(xs[|xs| - 1] - mean) * (xs[|xs| - 1] - mean)]
  }

  /** The population variance (`np.var`, `ddof = 0`). */
  function Variance(xs: seq<real>): real
    requires |xs| > 0
  {
    Sum(SquaredDeviations(xs, Mean(xs))) / |xs| as real
  }

  /** `np.std(xs)`: the square root of the population variance. */
  function Std(m: Math, xs: seq<real>): real
    requires |xs| > 0
  {
    m.sqrt(Variance(xs))
  }

  // ---------------------------------------------------------------------

  lemma {:induction false} SumAppend(xs: seq<real>, ys: seq<real>)
    ensures Sum(xs + ys) == Sum(xs) + Sum(ys)
    decreases |ys|
  {
    if ys != [] {
      var zs := xs + ys;
      assert zs[..|zs| - 1] == xs + ys[..|ys| - 1];
      SumAppend(xs, ys[..|ys| - 1]);
    } else {
      assert xs + ys == xs;
    }
  }

  lemma {:induction false} SumNonNegative(xs: seq<real>)
    requires forall i :: 0 <= i < |xs| ==> xs[i] >= 0.0
    ensures Sum(xs) >= 0.0
    decreases |xs|
  {
    if xs != [] {
      SumNonNegative(xs[..|xs| - 1]);
    }
  }

  /** A list of equal values has that value as its mean. */
  lemma {:induction false} SumOfConstant(xs: seq<real>, c: real)
    requires forall i :: 0 <= i < |xs| ==> xs[i] == c
    ensures Sum(xs) == |xs| as real * c
    decreases |xs|
  {
    if xs != [] {
      SumOfConstant(xs[..|xs| - 1], c);
    }
  }

  lemma VarianceNonNegative(xs: seq<real>)
    requires |xs| > 0
    ensures Variance(xs) >= 0.0
  {
    var sq := SquaredDeviations(xs, Mean(xs));
    forall i | 0 <= i < |sq| ensures sq[i] >= 0.0 {
      var d := xs[i] - Mean(xs);
      assert sq[i] == d * d;
    }
    SumNonNegative(sq);
  }

  /** The population standard deviation is never negative, so a threshold
      `mean + std` is never below the mean. */
  lemma MeanPlusStdAtLeastMean(m: Math, xs: seq<real>)
    requires Sound(m) && |xs| > 0
    ensures Mean(xs) + Std(m, xs) >= Mean(xs)
  {
    VarianceNonNegative(xs);
  }
}
