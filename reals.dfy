/** Real arithmetic shared by the scoring code: products, quotients, clamping and sums.
    Python floats are modelled as reals. */
module Reals {
  /** Real multiplication, named so that a square `Mul(x, x)` and a product of two
      equal factors are the same term to the solver. */
  function Mul(x: real, y: real): real {
    x * y
  }

  lemma PositiveProduct(x: real, y: real)
    requires x > 0.0 && y > 0.0
    ensures Mul(x, y) > 0.0
  {
  }

  lemma NegativeProduct(x: real, y: real)
    requires x < 0.0 && y < 0.0
    ensures Mul(x, y) > 0.0
  {
  }

  lemma EqualFactors(x: real, y: real)
    requires x == y
    ensures Mul(x, y) >= 0.0
    ensures Mul(x, y) != 0.0 || x == 0.0
    ensures x != 0.0 || Mul(x, y) == 0.0
  {
    if x > 0.0 {
      PositiveProduct(x, y);
    } else if x < 0.0 {
      NegativeProduct(x, y);
    }
  }

  /** A square is never negative, and is zero only for zero. */
  lemma SquareSign(x: real)
    ensures Mul(x, x) >= 0.0
    ensures Mul(x, x) == 0.0 <==> x == 0.0
  {
    EqualFactors(x, x);
  }

  lemma DivideBySelf(d: real)
    requires d > 0.0
    ensures d / d == 1.0
  {
  }

  /** `max(0.0, min(1.0, x))`. */
  function Clamp01(x: real): (r: real)
    ensures 0.0 <= r <= 1.0
    ensures 0.0 <= x <= 1.0 ==> r == x
    ensures x < 0.0 ==> r == 0.0
    ensures x > 1.0 ==> r == 1.0
  {
    if 1.0 < x then 1.0 else if x < 0.0 then 0.0 else x
  }

  lemma DivisionBounds(n: real, d: real, lo: real, hi: real)
    requires d > 0.0 && lo * d <= n <= hi * d
    ensures lo <= n / d <= hi
  {
  }

  lemma QuotientBelowOne(n: real, d: real)
    requires 0.0 <= n < d
    ensures n / d < 1.0
  {
  }

  /** Python's `sum(xs)`, added left to right. */
  function Sum(xs: seq<real>): real {
    if xs == [] then 0.0 else Sum(xs[..|xs| - 1]) + xs[|xs| - 1]
  }

  /** A sum of scores in [0, 1] lies between 0 and the number of scores. */
  lemma {:induction false} SumOfUnitScores(xs: seq<real>)
    requires forall k :: 0 <= k < |xs| ==> 0.0 <= xs[k] <= 1.0
    ensures 0.0 <= Sum(xs) <= |xs| as real
  {
    if xs != [] {
      SumOfUnitScores(xs[..|xs| - 1]);
    }
  }

  /** The mean of scores in [0, 1] lies in [0, 1]. */
  lemma MeanOfUnitScores(xs: seq<real>)
    requires xs != []
    requires forall k :: 0 <= k < |xs| ==> 0.0 <= xs[k] <= 1.0
    ensures 0.0 <= Sum(xs) / (|xs| as real) <= 1.0
  {
    SumOfUnitScores(xs);
    DivisionBounds(Sum(xs), |xs| as real, 0.0, 1.0);
  }
}
