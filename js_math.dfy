/**
 * The part of JavaScript's `Math` that the rating estimators call, over exact
 * reals.
 *
 * The transcendental functions cannot be computed by the verifier, so they are
 * parameters of the model: a value of `Math` is one choice of `Math.exp`,
 * `Math.log`, `Math.log2`, `x => Math.pow(2, x)` and `Math.sqrt`, with their
 * domains written as subset types. The predicates `ExpLaws`, `Pow2Laws` and
 * `SqrtLaws` state the few facts about the genuine functions that the proofs
 * use; every other fact here is derived from them.
 *
 * Integer powers of real constants (`Math.pow(0.9, i)`, `R ** (i + 1)`) are
 * computed exactly by `Pow`, and the geometric sums the estimators accumulate
 * by `SeriesSum`.
 */
module JsMath {

  type Positive = x: real | x > 0.0 witness 1.0
  type NonNegative = x: real | x >= 0.0 witness 0.0

  datatype Math = Math(
    exp: real -> Positive,
    log: Positive -> real,
    log2: Positive -> real,
    pow2: real -> Positive,
    sqrt: NonNegative -> NonNegative)

  /** `exp` is the exponential function and `log` its inverse. */
  ghost predicate ExpLaws(m: Math) {
    && m.exp(0.0) == 1.0
    && (forall a: real, b: real :: a < b ==> m.exp(a) < m.exp(b))
    && (forall x: Positive :: m.exp(m.log(x)) == x)
  }

  /** `pow2` is `x => 2^x` and `log2` its inverse. */
  ghost predicate Pow2Laws(m: Math) {
    && (forall a: real, b: real :: a < b ==> m.pow2(a) < m.pow2(b))
    && (forall y: Positive :: m.pow2(m.log2(y)) == y)
  }

  /** `sqrt` is the non-negative square root. */
  ghost predicate SqrtLaws(m: Math) {
    forall x: NonNegative :: m.sqrt(x) * m.sqrt(x) == x
  }

  // ---------------------------------------------------------------------
  // Exponential and natural logarithm

  lemma LogOfExp(m: Math, t: real)
    requires ExpLaws(m)
    ensures m.log(m.exp(t)) == t
  {
    var y := m.exp(t);
    assert m.exp(m.log(y)) == y;
  }

  lemma LogOfOne(m: Math)
    requires ExpLaws(m)
    ensures m.log(1.0) == 0.0
  {
    LogOfExp(m, 0.0);
  }

  lemma ExpAboveOne(m: Math, t: real)
    requires ExpLaws(m)
    requires t > 0.0
    ensures m.exp(t) > 1.0
  {
    assert m.exp(0.0) < m.exp(t);
  }

  lemma LogStrictlyIncreasing(m: Math, x: Positive, y: Positive)
    requires ExpLaws(m)
    requires x < y
    ensures m.log(x) < m.log(y)
  {
    assert m.exp(m.log(x)) == x && m.exp(m.log(y)) == y;
  }

  /** The logarithm is positive exactly above 1. */
  lemma LogPositive(m: Math, x: Positive)
    requires ExpLaws(m)
    ensures m.log(x) > 0.0 <==> x > 1.0
    ensures m.log(x) >= 0.0 <==> x >= 1.0
  {
    LogOfOne(m);
    if x > 1.0 {
      LogStrictlyIncreasing(m, 1.0, x);
    } else if x < 1.0 {
      LogStrictlyIncreasing(m, x, 1.0);
    }
  }

  // ---------------------------------------------------------------------
  // Powers of two and binary logarithm

  lemma Log2OfPow2(m: Math, t: real)
    requires Pow2Laws(m)
    ensures m.log2(m.pow2(t)) == t
  {
    var y := m.pow2(t);
    assert m.pow2(m.log2(y)) == y;
  }

  lemma Log2Monotonic(m: Math, x: Positive, y: Positive)
    requires Pow2Laws(m)
    requires x <= y
    ensures m.log2(x) <= m.log2(y)
  {
    assert m.pow2(m.log2(x)) == x && m.pow2(m.log2(y)) == y;
  }

  // ---------------------------------------------------------------------
  // Square root

  /** The square root is the unique non-negative root. */
  lemma SqrtOfSquare(m: Math, x: NonNegative, s: real)
    requires SqrtLaws(m)
    requires s >= 0.0 && s * s == x
    ensures m.sqrt(x) == s
  {
    var r: real := m.sqrt(x);
    assert r * r == x;
    if r < s {
      SquareStrictlyIncreasing(r, s);
    } else if s < r {
      SquareStrictlyIncreasing(s, r);
    }
  }

  lemma SquareStrictlyIncreasing(a: real, b: real)
    requires 0.0 <= a < b
    ensures a * a < b * b
  {
    var d := b - a;
    assert d > 0.0 && b > 0.0;
    assert d * b > 0.0;
    assert a * d >= 0.0;
    assert b * b == a * a + a * d + d * b;
  }

  // ---------------------------------------------------------------------
  // Ordered-field facts the solver needs spelled out

  lemma QuotientDecreasing(c: real, x: real, y: real)
    requires c > 0.0 && 0.0 < x < y
    ensures c / y < c / x
  {
    var a, b := c / x, c / y;
    assert a * x == c && b * y == c;
    assert a > 0.0 && b > 0.0;
    assert a * y > a * x;
  }

  lemma SquareOrderReflects(a: real, b: real)
    requires a >= 0.0 && b >= 0.0 && a * a < b * b
    ensures a < b
  {
    assert (b - a) * (b + a) == b * b - a * a;
  }

  lemma SquareOrderReflectsWeak(a: real, b: real)
    requires a >= 0.0 && b >= 0.0 && a * a <= b * b
    ensures a <= b
  {
    if a * a < b * b {
      SquareOrderReflects(a, b);
    } else {
      assert (b - a) * (b + a) == 0.0;
      if b + a > 0.0 {
        assert b - a == ((b - a) * (b + a)) / (b + a);
      }
    }
  }

  lemma CancelPositive(p: real, q: real, c: real)
    requires c > 0.0 && p * c == q * c
    ensures p == q
  {
    assert (p - q) * c == 0.0;
  }

  lemma CancelLess(p: real, q: real, c: real)
    requires c > 0.0 && p * c < q * c
    ensures p < q
  {
    assert (q - p) * c > 0.0;
  }

  lemma CancelAtMost(p: real, q: real, c: real)
    requires c > 0.0 && p * c <= q * c
    ensures p <= q
  {
    assert (q - p) * c >= 0.0;
  }

  /** A quotient by a positive weight keeps the bounds the weighted total has. */
  lemma DivideBounds(lo: real, s: real, hi: real, w: real)
    requires w > 0.0
    requires lo * w <= s <= hi * w
    ensures lo <= s / w <= hi
  {
  }

  /**
   * Adding `a * x` to `b * s` keeps an upper bound `hi` on the average: if
   * `x <= hi` and `s <= hi * total`, the new sum is at most `hi` times the
   * new total weight `a + b * total`.
   */
  lemma AddAtMost(x: real, hi: real, a: real, s: real, b: real, total: real)
    requires a >= 0.0 && b >= 0.0
    requires x <= hi && s <= hi * total
    ensures a * x + b * s <= hi * (a + b * total)
  {
    assert a * x <= a * hi;
    assert b * s <= b * (hi * total);
  }

  /** The lower-bound counterpart of `AddAtMost`. */
  lemma AddAtLeast(lo: real, x: real, a: real, s: real, b: real, total: real)
    requires a >= 0.0 && b >= 0.0
    requires lo <= x && lo * total <= s
    ensures lo * (a + b * total) <= a * x + b * s
  {
    assert a * lo <= a * x;
    assert b * (lo * total) <= b * s;
  }

  // ---------------------------------------------------------------------
  // Integer powers and geometric sums

  /** `b` to the natural power `n`, exactly. */
  function Pow(b: real, n: nat): real
  {
    if n == 0 then 1.0 else b * Pow(b, n - 1)
  }

  lemma PowSucc(b: real, n: nat)
    ensures Pow(b, n + 1) == b * Pow(b, n)
  {
  }

  lemma {:induction false} PowPositive(b: real, n: nat)
    requires b > 0.0
    ensures Pow(b, n) > 0.0
  {
    if n > 0 {
      PowPositive(b, n - 1);
    }
  }

  lemma {:induction false} PowAtMostOne(b: real, n: nat)
    requires 0.0 < b <= 1.0
    ensures Pow(b, n) <= 1.0
  {
    if n > 0 {
      PowAtMostOne(b, n - 1);
      PowPositive(b, n - 1);
      assert b * Pow(b, n - 1) <= Pow(b, n - 1);
    }
  }

  lemma {:induction false} PowOfSquare(b: real, n: nat)
    ensures Pow(b * b, n) == Pow(b, n) * Pow(b, n)
  {
    if n > 0 {
      PowOfSquare(b, n - 1);
      var p := Pow(b, n - 1);
      calc {
        Pow(b * b, n);
        (b * b) * Pow(b * b, n - 1);
        (b * b) * (p * p);
        (b * p) * (b * p);
      }
    }
  }

  /** For `0 < b < 1`, the powers strictly decrease. */
  lemma PowStrictlyDecreasing(b: real, n: nat)
    requires 0.0 < b < 1.0
    ensures Pow(b, n + 1) < Pow(b, n)
  {
    PowPositive(b, n);
    PowSucc(b, n);
    ScaleBelowOne(b, Pow(b, n));
  }

  lemma ScaleBelowOne(b: real, p: real)
    requires b < 1.0 && p > 0.0
    ensures b * p < p
  {
    assert (1.0 - b) * p > 0.0;
  }

  /** The sum of `q^i` for `lo <= i < hi`. */
  function SeriesSum(q: real, lo: nat, hi: nat): real
    decreases hi
  {
    if hi <= lo then 0.0 else SeriesSum(q, lo, hi - 1) + Pow(q, hi - 1)
  }

  lemma {:induction false} SeriesSumPositive(q: real, lo: nat, hi: nat)
    requires 0.0 < q && lo < hi
    ensures SeriesSum(q, lo, hi) > 0.0
    decreases hi
  {
    PowPositive(q, hi - 1);
    if lo < hi - 1 {
      SeriesSumPositive(q, lo, hi - 1);
    }
  }

  /** The closed form of a finite geometric series. */
  lemma {:induction false} SeriesSumClosedForm(q: real, lo: nat, hi: nat)
    requires lo <= hi
    ensures (1.0 - q) * SeriesSum(q, lo, hi) == Pow(q, lo) - Pow(q, hi)
    decreases hi
  {
    if lo < hi {
      SeriesSumClosedForm(q, lo, hi - 1);
      ClosedFormStep(q, lo, hi);
    }
  }

  /** One more term keeps the closed form. */
  lemma ClosedFormStep(q: real, lo: nat, hi: nat)
    requires lo < hi
    requires (1.0 - q) * SeriesSum(q, lo, hi - 1) == Pow(q, lo) - Pow(q, hi - 1)
    ensures (1.0 - q) * SeriesSum(q, lo, hi) == Pow(q, lo) - Pow(q, hi)
  {
    var s, p := SeriesSum(q, lo, hi - 1), Pow(q, hi - 1);
    assert SeriesSum(q, lo, hi) == s + p;
    assert Pow(q, hi) == q * p;
    assert (1.0 - q) * (s + p) == (1.0 - q) * s + p - q * p;
  }

  /** Peeling the first term off a series that starts at 0. */
  lemma {:induction false} SeriesSumFirstTerm(q: real, n: nat)
    ensures SeriesSum(q, 0, n + 1) == 1.0 + q * SeriesSum(q, 0, n)
  {
    if n > 0 {
      SeriesSumFirstTerm(q, n - 1);
      assert Pow(q, n) == q * Pow(q, n - 1);
    }
  }
}
