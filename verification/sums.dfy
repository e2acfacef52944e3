/** Sums over sequences of reals, as Python's `sum` computes them from left to right. */
module Sums {

  /** `sum(xs)`. */
  function Sum(xs: seq<real>): real {
    if |xs| == 0 then 0.0 else Sum(xs[..|xs| - 1]) + xs[|xs| - 1]
  }

  /** `sum((x - m)**2 for x in xs)`. */
  function SumSquaredDeviations(xs: seq<real>, m: real): real {
    if |xs| == 0 then 0.0
    else SumSquaredDeviations(xs[..|xs| - 1], m) + Squared(xs[|xs| - 1] - m)
  }

  /** `d**2`. */
  function Squared(d: real): (r: real)
    ensures r >= 0.0
  {
    d * d
  }

  /** The arithmetic mean `sum(xs) / len(xs)`. */
  function Mean(xs: seq<real>): real
    requires |xs| > 0
  {
    Sum(xs) / (|xs| as real)
  }

  predicate AllEqual(xs: seq<real>) {
    forall i :: 0 <= i < |xs| ==> xs[i] == xs[0]
  }

  /** A sum of `|xs|` copies of `c` is `|xs| * c`. */
  lemma {:induction false} SumOfConstant(xs: seq<real>, c: real)
    requires forall i :: 0 <= i < |xs| ==> xs[i] == c
    ensures Sum(xs) == (|xs| as real) * c
  {
    if |xs| > 0 {
      SumOfConstant(xs[..|xs| - 1], c);
    }
  }

  /** A sum of squares is never negative. */
  lemma {:induction false} SumSquaredDeviationsNonNegative(xs: seq<real>, m: real)
    ensures SumSquaredDeviations(xs, m) >= 0.0
  {
    if |xs| > 0 {
      SumSquaredDeviationsNonNegative(xs[..|xs| - 1], m);
    }
  }

  /** Squared deviations from a centre that every element equals add up to zero. */
  lemma {:induction false} SumSquaredDeviationsAtCentre(xs: seq<real>, m: real)
    requires forall i :: 0 <= i < |xs| ==> xs[i] == m
    ensures SumSquaredDeviations(xs, m) == 0.0
  {
    if |xs| > 0 {
      SumSquaredDeviationsAtCentre(xs[..|xs| - 1], m);
    }
  }

  /** Division undoes multiplication. */
  lemma QuotientOf(x: real, g: real, y: real)
    requires x != 0.0 && x * g == y
    ensures y / x == g
  {
    assert (y / x) * x == y;
  }

  /** A constant sequence has mean equal to its elements and zero squared deviation
      from that mean, so its sample variance is zero. */
  lemma ConstantHasZeroVariance(xs: seq<real>)
    requires |xs| > 0 && AllEqual(xs)
    ensures Mean(xs) == xs[0]
    ensures SumSquaredDeviations(xs, Mean(xs)) == 0.0
  {
    var n := |xs| as real;
    SumOfConstant(xs, xs[0]);
    QuotientOf(n, xs[0], Sum(xs));
    assert Mean(xs) == xs[0];
    SumSquaredDeviationsAtCentre(xs, xs[0]);
  }
}
