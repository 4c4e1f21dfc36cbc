/**
 * Sums, means and the population variance of word counts, as both text
 * analysers compute them (`sum(xs)/len(xs)` and `sum((x-m)**2)/len(xs)`).
 */
module Stats {

  function Sum(xs: seq<nat>): (s: nat)
    ensures xs == [] ==> s == 0
    decreases |xs|
  {
    if xs == [] then 0 else Sum(xs[..|xs| - 1]) + xs[|xs| - 1]
  }

  /** `sum(xs) / len(xs)` on a non-empty list. */
  function Mean(xs: seq<nat>): (m: real)
    requires xs != []
    ensures m >= 0.0
    ensures m * (|xs| as real) == Sum(xs) as real
  {
    Sum(xs) as real / |xs| as real
  }

  /** `sum((x - m) ** 2 for x in xs)`. */
  function SquaredDeviations(xs: seq<nat>, m: real): (d: real)
    ensures d >= 0.0
    decreases |xs|
  {
    if xs == [] then 0.0
    else
      var e := xs[|xs| - 1] as real - m;
      assert e * e >= 0.0;
      SquaredDeviations(xs[..|xs| - 1], m) + e * e
  }

  /** Population variance, 0 for the empty list. */
  function Variance(xs: seq<nat>): (v: real)
    ensures v >= 0.0
    ensures xs == [] ==> v == 0.0
  {
    if xs == [] then 0.0 else SquaredDeviations(xs, Mean(xs)) / |xs| as real
  }

  /** Every element equal to the mean: no spread at all. */
  lemma {:induction false} SquaredDeviationsAtMean(xs: seq<nat>, m: real)
    requires forall i :: 0 <= i < |xs| ==> xs[i] as real == m
    ensures SquaredDeviations(xs, m) == 0.0
    decreases |xs|
  {
    if xs != [] {
      SquaredDeviationsAtMean(xs[..|xs| - 1], m);
    }
  }

  /** A list of one repeated value has variance 0. */
  lemma VarianceOfConstant(xs: seq<nat>, c: nat)
    requires forall i :: 0 <= i < |xs| ==> xs[i] == c
    ensures Variance(xs) == 0.0
  {
    if xs != [] {
      SumOfConstant(xs, c);
      SquaredDeviationsAtMean(xs, Mean(xs));
    }
  }

  lemma {:induction false} SumOfConstant(xs: seq<nat>, c: nat)
    requires forall i :: 0 <= i < |xs| ==> xs[i] == c
    ensures Sum(xs) == |xs| * c
    decreases |xs|
  {
    if xs != [] {
      SumOfConstant(xs[..|xs| - 1], c);
    }
  }
}
