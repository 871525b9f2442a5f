/** Real arithmetic used by the formulas: absolute value, squares, and
    rounding as the source applies it, on exact reals.

    Python's round(x, n) rounds the value of x to n decimal places, ties to the
    even neighbour; JavaScript's Math.round rounds to an integer, ties toward
    positive infinity. Both are modelled on real numbers, so the binary
    representation of floats plays no part here. */
module Numerics {

  function Abs(x: real): (r: real)
    ensures r >= 0.0 && (r == x || r == -x)
  {
    if x < 0.0 then -x else x
  }

  function Product(a: real, b: real): real
  {
    a * b
  }

  /** x², kept as a product of two arguments. */
  function Square(x: real): real
  {
    Product(x, x)
  }

  lemma SquarePositive(x: real)
    requires x != 0.0
    ensures Square(x) > 0.0
  {
    if x > 0.0 {
      ProductPositive(x, x);
    } else {
      ProductOfNegatives(x, x);
    }
  }

  lemma ProductPositive(a: real, b: real)
    requires a > 0.0 && b > 0.0
    ensures Product(a, b) > 0.0
  {
  }

  lemma ProductOfNegatives(a: real, b: real)
    requires a < 0.0 && b < 0.0
    ensures Product(a, b) > 0.0
  {
  }

  /** 10 to the power n. */
  function Pow10(n: nat): (p: real)
    ensures p >= 1.0
  {
    if n == 0 then 1.0 else 10.0 * Pow10(n - 1)
  }

  /** The integer nearest to s, ties going to the even one. */
  function HalfEven(s: real): (k: int)
    ensures s - 0.5 <= k as real <= s + 0.5
    ensures k as real - s == 0.5 || s - k as real == 0.5 ==> k % 2 == 0
  {
    var f := s.Floor;
    var frac := s - f as real;
    if frac < 0.5 then f
    else if frac > 0.5 then f + 1
    else if f % 2 == 0 then f
    else f + 1
  }

  /** Python's round(x, digits): the multiple of 10^-digits nearest to x,
      ties to the even multiple. */
  function Round(x: real, digits: nat): (r: real)
    ensures x - 0.5 / Pow10(digits) <= r <= x + 0.5 / Pow10(digits)
  {
    RoundToStep(x, Pow10(digits))
  }

  /** The multiple of 1/p nearest to x, ties to the even multiple. */
  function RoundToStep(x: real, p: real): (r: real)
    requires p >= 1.0
    ensures x - 0.5 / p <= r <= x + 0.5 / p
  {
    ScaleBack(x, p, HalfEven(x * p));
    HalfEven(x * p) as real / p
  }

  /** JavaScript's Math.round(x): the integer nearest to x, ties upward. */
  function MathRound(x: real): (k: int)
    ensures x - 0.5 < k as real <= x + 0.5
  {
    (x + 0.5).Floor
  }

  /** Python's round(x, 1) is off by at most a twentieth. */
  lemma Round1Error(x: real)
    ensures Abs(Round(x, 1) - x) <= 0.05
  {
    assert Pow10(1) == 10.0;
  }

  /** Python's round(x, 2) is off by at most half a hundredth. */
  lemma Round2Error(x: real)
    ensures Abs(Round(x, 2) - x) <= 0.005
  {
    assert Pow10(2) == 100.0;
  }

  lemma ScaleBack(x: real, p: real, k: int)
    requires p >= 1.0
    requires x * p - 0.5 <= k as real <= x * p + 0.5
    ensures x - 0.5 / p <= k as real / p <= x + 0.5 / p
  {
    assert (x * p - 0.5) / p == x - 0.5 / p;
    assert (x * p + 0.5) / p == x + 0.5 / p;
    DivMonotone(x * p - 0.5, k as real, p);
    DivMonotone(k as real, x * p + 0.5, p);
  }

  lemma DivMonotone(a: real, b: real, p: real)
    requires p > 0.0 && a <= b
    ensures a / p <= b / p
  {
    assert b / p - a / p == (b - a) / p;
  }

  /** a / s >= c when a >= c * s and s is positive. */
  lemma DivLowerBound(a: real, c: real, s: real)
    requires s > 0.0 && a >= c * s
    ensures a / s >= c
  {
    DivMonotone(c * s, a, s);
    assert c * s / s == c;
  }

  lemma DivUpperBound(a: real, c: real, s: real)
    requires s > 0.0 && a <= c * s
    ensures a / s <= c
  {
    DivMonotone(a, c * s, s);
    assert c * s / s == c;
  }

  lemma MulMonotone(a: real, b: real, p: real)
    requires p >= 0.0 && a <= b
    ensures a * p <= b * p
  {
    assert b * p - a * p == (b - a) * p;
  }

  lemma HalfEvenMonotone(s: real, t: real)
    requires s <= t
    ensures HalfEven(s) <= HalfEven(t)
  {
  }

  /** A larger value never rounds to a smaller one. */
  lemma RoundMonotone(x: real, y: real, digits: nat)
    requires x <= y
    ensures Round(x, digits) <= Round(y, digits)
  {
    StepMonotone(x, y, Pow10(digits));
  }

  lemma StepMonotone(x: real, y: real, p: real)
    requires p >= 1.0 && x <= y
    ensures RoundToStep(x, p) <= RoundToStep(y, p)
  {
    MulMonotone(x, y, p);
    HalfEvenMonotone(x * p, y * p);
    DivMonotone(HalfEven(x * p) as real, HalfEven(y * p) as real, p);
  }

  /** A value that already has at most `digits` decimals rounds to itself. */
  lemma RoundExact(k: int, digits: nat)
    ensures Round(k as real / Pow10(digits), digits) == k as real / Pow10(digits)
  {
    StepExact(k, Pow10(digits));
  }

  lemma {:induction false} StepExact(k: int, p: real)
    requires p >= 1.0
    ensures RoundToStep(k as real / p, p) == k as real / p
  {
    var q := k as real / p;
    StepUnfold(q, p);
    CancelScale(k as real, p);
    var s := q * p;
    assert s == k as real;
    HalfEvenOfInteger(k);
    assert HalfEven(s) == k;
  }

  lemma HalfEvenOfInteger(k: int)
    ensures HalfEven(k as real) == k
  {
  }

  lemma StepUnfold(x: real, p: real)
    requires p >= 1.0
    ensures RoundToStep(x, p) == HalfEven(x * p) as real / p
  {
  }

  lemma CancelScale(a: real, p: real)
    requires p >= 1.0
    ensures a / p * p == a
  {
  }

  lemma RoundZero(digits: nat)
    ensures Round(0.0, digits) == 0.0
  {
    RoundExact(0, digits);
  }

  /** Rounding keeps a value inside any interval whose ends have at most `digits` decimals. */
  lemma RoundWithin(x: real, lo: int, hi: int, digits: nat)
    requires lo as real / Pow10(digits) <= x <= hi as real / Pow10(digits)
    ensures lo as real / Pow10(digits) <= Round(x, digits) <= hi as real / Pow10(digits)
  {
    RoundMonotone(lo as real / Pow10(digits), x, digits);
    RoundMonotone(x, hi as real / Pow10(digits), digits);
    RoundExact(lo, digits);
    RoundExact(hi, digits);
  }

  lemma MathRoundMonotone(x: real, y: real)
    requires x <= y
    ensures MathRound(x) <= MathRound(y)
  {
  }
}
