/** Sentence-length statistics and the ratios of the analysis (api/mod.ts),
    over exact reals in place of IEEE-754 doubles. */
module Stats {

  /** `xs.reduce((a, b) => a + b, 0)`. */
  function Sum(xs: seq<nat>): nat
  {
    if xs == [] then 0 else Sum(xs[..|xs| - 1]) + xs[|xs| - 1]
  }

  /** The sum of the squares of xs, used to state the variance over integers. */
  function SumOfSquares(xs: seq<nat>): nat
  {
    if xs == [] then 0 else SumOfSquares(xs[..|xs| - 1]) + xs[|xs| - 1] * xs[|xs| - 1]
  }

  /** `b > 0 ? a / b : 0`, and equally `a / b || 0`, which turns the NaN of
      0 / 0 into 0: the quotient of a by b, or 0 when b is 0. */
  function Ratio(a: nat, b: nat): (r: real)
    ensures b == 0 ==> r == 0.0
    ensures b > 0 ==> r * b as real == a as real
    ensures r >= 0.0
  {
    if b > 0 then a as real / b as real else 0.0
  }

  /** A ratio of a part to a non-zero whole lies in (0, 1], or is 0 for an
      empty part. */
  lemma RatioOfPart(a: nat, b: nat)
    requires a <= b && b > 0
    ensures Ratio(a, b) <= 1.0
    ensures a > 0 <==> Ratio(a, b) > 0.0
  {
  }

  /** The population mean of xs, 0 when xs is empty. */
  function Mean(xs: seq<nat>): real
  {
    Ratio(Sum(xs), |xs|)
  }

  /** `xs.reduce((a, b) => a + Math.pow(b - m, 2), 0)`. */
  function SquaredDeviations(xs: seq<nat>, m: real): real
  {
    if xs == [] then 0.0
    else
      var b := xs[|xs| - 1] as real;
      SquaredDeviations(xs[..|xs| - 1], m) + (b - m) * (b - m)
  }

  /** The population variance of xs (divided by |xs|, not |xs| - 1), 0 when
      xs is empty. */
  function Variance(xs: seq<nat>): real
  {
    if xs == [] then 0.0 else SquaredDeviations(xs, Mean(xs)) / |xs| as real
  }

  /** A sum of squares is never negative. */
  lemma {:induction false} SquaredDeviationsNonNegative(xs: seq<nat>, m: real)
    ensures SquaredDeviations(xs, m) >= 0.0
    decreases |xs|
  {
    if xs != [] {
      var b := xs[|xs| - 1] as real;
      SquaredDeviationsNonNegative(xs[..|xs| - 1], m);
      SquareNonNegative(b - m);
    }
  }

  lemma SquareNonNegative(r: real)
    ensures r * r >= 0.0
  {
  }

  /** The variance is never negative. */
  lemma VarianceNonNegative(xs: seq<nat>)
    ensures Variance(xs) >= 0.0
  {
    SquaredDeviationsNonNegative(xs, Mean(xs));
  }

  /** The sum of squared deviations from m, expanded: d = q - 2ms + nm^2 for the
      sum d of squared deviations, the sum of squares q, the sum s and the
      count n of xs. The values of the functions are passed in as plain reals,
      which keeps the arithmetic over atoms. */
  lemma {:induction false} SquaredDeviationsExpand(xs: seq<nat>, m: real, d: real, q: real, s: real, n: real)
    requires d == SquaredDeviations(xs, m)
    requires q == SumOfSquares(xs) as real && s == Sum(xs) as real && n == |xs| as real
    ensures d == q - 2.0 * m * s + n * m * m
    decreases |xs|
  {
    if xs != [] {
      var init, b := xs[..|xs| - 1], xs[|xs| - 1] as real;
      var q0, s0, n0, d0 := SumOfSquares(init) as real, Sum(init) as real, |init| as real, SquaredDeviations(init, m);
      SquaredDeviationsExpand(init, m, d0, q0, s0, n0);
      LastSquare(xs);
      LastSum(xs);
      ExpandStep(q0, s0, n0, b, m, d0, q, s, n, d);
    }
  }

  lemma LastSum(xs: seq<nat>)
    requires xs != []
    ensures Sum(xs) as real == Sum(xs[..|xs| - 1]) as real + xs[|xs| - 1] as real
  {
  }

  lemma LastSquare(xs: seq<nat>)
    requires xs != []
    ensures SumOfSquares(xs) as real ==
      SumOfSquares(xs[..|xs| - 1]) as real + xs[|xs| - 1] as real * xs[|xs| - 1] as real
  {
    var x := xs[|xs| - 1];
    assert (x * x) as real == x as real * x as real;
  }

  /** One step of the expansion, over real atoms. */
  lemma ExpandStep(q: real, s: real, k: real, b: real, m: real, d: real,
                   q': real, s': real, k': real, d': real)
    requires d == q - 2.0 * m * s + k * m * m
    requires q' == q + b * b && s' == s + b && k' == k + 1.0 && d' == d + (b - m) * (b - m)
    ensures d' == q' - 2.0 * m * s' + k' * m * m
  {
    assert (b - m) * (b - m) == b * b - 2.0 * m * b + m * m;
    assert 2.0 * m * (s + b) == 2.0 * m * s + 2.0 * m * b;
    assert (k + 1.0) * m * m == k * m * m + m * m;
  }

  lemma DeviationStep(n: real, s: real, q: real, m: real, d: real)
    requires m * n == s
    requires d == q - 2.0 * m * s + n * m * m
    ensures d * n == n * q - s * s
  {
    assert d * n == n * q - 2.0 * (m * n) * s + (m * n) * (m * n);
  }

  /** n times the squared deviations from the mean is
      n * (sum of squares) - (sum)^2. The values of the functions are passed
      in as plain reals, which keeps the arithmetic over atoms. */
  lemma DeviationsScaled(xs: seq<nat>, n: real, s: real, q: real, m: real, d: real)
    requires n == |xs| as real && s == Sum(xs) as real && q == SumOfSquares(xs) as real
    requires m == Mean(xs) && d == SquaredDeviations(xs, m)
    ensures d * n == n * q - s * s
  {
    if xs != [] {
      NonEmptyDeviationsScaled(xs, n, s, q, m, d);
    }
  }

  lemma NonEmptyDeviationsScaled(xs: seq<nat>, n: real, s: real, q: real, m: real, d: real)
    requires xs != []
    requires n == |xs| as real && s == Sum(xs) as real && q == SumOfSquares(xs) as real
    requires m == Mean(xs) && d == SquaredDeviations(xs, m)
    ensures d * n == n * q - s * s
  {
    MeanAsAtoms(xs, m, n, s);
    SquaredDeviationsExpand(xs, m, d, q, s, n);
    DeviationStep(n, s, q, m, d);
  }

  lemma MeanAsAtoms(xs: seq<nat>, m: real, n: real, s: real)
    requires m == Mean(xs) && n == |xs| as real && s == Sum(xs) as real
    ensures m * n == s
  {
    MeanTimesCount(xs);
  }

  lemma TimesTwice(v: real, n: real, d: real, e: real)
    requires v * n == d && d * n == e
    ensures v * (n * n) == e
  {
  }

  lemma MeanTimesCount(xs: seq<nat>)
    ensures Mean(xs) * |xs| as real == Sum(xs) as real
  {
  }

  lemma VarianceTimesCount(xs: seq<nat>, v: real, n: real, d: real)
    requires xs != []
    requires v == Variance(xs) && n == |xs| as real && d == SquaredDeviations(xs, Mean(xs))
    ensures v * n == d
  {
  }

  lemma ProductAsReal(a: int, b: int)
    ensures (a * b) as real == a as real * b as real
  {
  }

  /** n^2 times the variance is n * (sum of squares) - (sum)^2, n being the
      number of values. */
  lemma VarianceScaled(xs: seq<nat>, v: real, d: real, n: real, s: real, q: real)
    requires v == Variance(xs) && d == SquaredDeviations(xs, Mean(xs))
    requires n == |xs| as real && s == Sum(xs) as real && q == SumOfSquares(xs) as real
    ensures v * (n * n) == n * q - s * s
  {
    if xs == [] {
      return;
    }
    VarianceTimesCount(xs, v, n, d);
    DeviationsScaled(xs, n, s, q, Mean(xs), d);
    TimesTwice(v, n, d, n * q - s * s);
  }

  lemma IntegerForm(v: real, n: int, s: int, q: int)
    requires v * (n as real * n as real) == n as real * q as real - s as real * s as real
    ensures v * (n * n) as real == (n * q - s * s) as real
  {
    ProductAsReal(n, n);
    ProductAsReal(n, q);
    ProductAsReal(s, s);
  }

  /** Comparing v with a bound is comparing e with bound * nn, when v * nn == e. */
  lemma AboveIffScaled(v: real, nn: nat, e: int, bound: nat)
    requires nn > 0
    requires v * nn as real == e as real
    ensures v > bound as real <==> e > bound * nn
  {
    ProductAsReal(bound, nn);
    if v > bound as real {
      assert v * nn as real > bound as real * nn as real;
    } else {
      assert v * nn as real <= bound as real * nn as real;
    }
  }

  /** The variance v of a non-empty xs exceeds a bound exactly when
      n * q - s^2 > bound * n^2, a test over integers, n being the number of
      values, s their sum and q the sum of their squares. (The variance of no
      values is 0 by definition.) */
  lemma VarianceAboveIff(xs: seq<nat>, bound: nat, v: real, n: nat, s: nat, q: nat)
    requires xs != []
    requires v == Variance(xs) && n == |xs| && s == Sum(xs) && q == SumOfSquares(xs)
    ensures v > bound as real <==> n * q - s * s > bound * (n * n)
  {
    var d := SquaredDeviations(xs, Mean(xs));
    VarianceScaled(xs, v, d, n as real, s as real, q as real);
    AboveIffInteger(v, n, s, q, bound);
  }

  lemma AboveIffInteger(v: real, n: nat, s: nat, q: nat, bound: nat)
    requires n > 0
    requires v * (n as real * n as real) == n as real * q as real - s as real * s as real
    ensures v > bound as real <==> n * q - s * s > bound * (n * n)
  {
    IntegerForm(v, n, s, q);
    AboveIffScaled(v, n * n, n * q - s * s, bound);
  }
}
