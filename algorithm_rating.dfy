/**
 * `calculateAlgorithmRating`: the rating of an AtCoder Algorithm contest
 * history, from the performances alone.
 *
 * Each performance `p` is mapped to `g(p) = 2^(p / 800)`; the newest contest
 * weighs 1, the one before it 0.9, the one before that 0.81 and so on. The
 * weighted mean of the `g` values is mapped back by `gInv(y) = 800 log2(y)`,
 * a penalty `f(n)` for having taken only `n` contests is subtracted, and the
 * low-rating correction is applied.
 *
 * The specification functions below give each of those quantities a name
 * (`DecayedGSum`, `SeriesSum(0.9, 0, n)`, `AverageRating`, `SampleCorrection`,
 * `AlgorithmRatingOf`); the methods compute them with the loops of the
 * source and are proved to agree with them; the lemmas state what the
 * estimator promises: the average lies between the smallest and the largest
 * performance, a constant history averages to itself, a new best performance
 * never lowers the average, and the penalty starts at 1200, stays positive
 * and strictly decreases with every further contest.
 */
module AlgorithmRating {
  import opened JsMath
  import opened CalculateRating

  const Decay: real := 0.9

  /** `g`: performance to the exponential scale on which it is averaged; `gInv` undoes it. */
  function G(m: Math, x: real): (y: Positive)
    ensures Pow2Laws(m) ==> GInv(m, y) == x
  {
    Log2OfPow2WhereLawful(m, x / 800.0);
    m.pow2(x / 800.0)
  }

  /** `gInv`: back from the exponential scale; `g` undoes it. */
  function GInv(m: Math, y: Positive): (x: real)
    ensures Pow2Laws(m) ==> m.pow2(x / 800.0) == y
  {
    Pow2OfLog2WhereLawful(m, y);
    var x := 800.0 * m.log2(y);
    assert x / 800.0 == m.log2(y);
    x
  }

  lemma Log2OfPow2WhereLawful(m: Math, t: real)
    ensures Pow2Laws(m) ==> m.log2(m.pow2(t)) == t
  {
    if Pow2Laws(m) {
      Log2OfPow2(m, t);
    }
  }

  lemma Pow2OfLog2WhereLawful(m: Math, y: Positive)
    ensures Pow2Laws(m) ==> m.pow2(m.log2(y)) == y
  {
  }

  lemma GMonotonic(m: Math, a: real, b: real)
    requires Pow2Laws(m)
    requires a <= b
    ensures G(m, a) <= G(m, b)
  {
    if a < b {
      assert a / 800.0 < b / 800.0;
    }
  }

  // ---------------------------------------------------------------------
  // The weighted sum of g values, oldest contest first in `ps`

  /**
   * The sum of `0.9^k * g(p)` over the history `ps`, where `k` counts how many
   * contests came after `p`: the newest contest, last in `ps`, weighs 1.
   */
  function DecayedGSum(m: Math, ps: seq<int>): real
  {
    if ps == [] then 0.0
    else G(m, ps[|ps| - 1] as real) + Decay * DecayedGSum(m, ps[..|ps| - 1])
  }

  lemma {:induction false} DecayedGSumPositive(m: Math, ps: seq<int>)
    requires ps != []
    ensures DecayedGSum(m, ps) > 0.0
  {
    if |ps| > 1 {
      DecayedGSumPositive(m, ps[..|ps| - 1]);
    }
  }

  /** The oldest contest of a history of `n + 1` contests weighs `0.9^n`. */
  lemma {:induction false} DecayedGSumPrepend(m: Math, x: int, ps: seq<int>)
    ensures DecayedGSum(m, [x] + ps) == DecayedGSum(m, ps) + Pow(Decay, |ps|) * G(m, x as real)
    decreases |ps|
  {
    if ps != [] {
      var k := |ps|;
      var init := ps[..k - 1];
      assert ([x] + ps)[..k] == [x] + init;
      assert ([x] + ps)[k] == ps[k - 1];
      DecayedGSumPrepend(m, x, init);
      PowSucc(Decay, k - 1);
      DecayStep(G(m, ps[k - 1] as real), DecayedGSum(m, init), Pow(Decay, k - 1), G(m, x as real));
    }
  }

  /** One more contest, taken from the end of the reversed history, in the loop. */
  lemma SuffixStep(m: Math, ps: seq<int>, i: nat)
    requires i < |ps|
    ensures DecayedGSum(m, ps[|ps| - (i + 1)..])
      == DecayedGSum(m, ps[|ps| - i..]) + Pow(Decay, i) * G(m, ps[|ps| - 1 - i] as real)
  {
    var n := |ps|;
    assert ps[n - (i + 1)..] == [ps[n - 1 - i]] + ps[n - i..];
    DecayedGSumPrepend(m, ps[n - 1 - i], ps[n - i..]);
  }

  lemma DecayStep(a: real, d: real, p: real, g: real)
    ensures a + Decay * (d + p * g) == (a + Decay * d) + (Decay * p) * g
  {
  }

  /** Appending the newest contest: it weighs 1 and every older weight is scaled by 0.9. */
  lemma NewestContestWeighsOne(m: Math, ps: seq<int>, p: int)
    ensures DecayedGSum(m, ps + [p]) == G(m, p as real) + Decay * DecayedGSum(m, ps)
    ensures SeriesSum(Decay, 0, |ps| + 1) == 1.0 + Decay * SeriesSum(Decay, 0, |ps|)
  {
    assert (ps + [p])[..|ps|] == ps;
    SeriesSumFirstTerm(Decay, |ps|);
  }

  /** The sum of the weights `1 + 0.9 + ... + 0.9^(n-1)` is `10 (1 - 0.9^n)`. */
  lemma WeightSumClosedForm(n: nat)
    ensures SeriesSum(Decay, 0, n) == 10.0 * (1.0 - Pow(Decay, n))
  {
    SeriesSumClosedForm(Decay, 0, n);
  }

  // ---------------------------------------------------------------------
  // The average and the estimate

  /** `weightedGSum / weightSum` after the loop. */
  function DecayedAverage(m: Math, ps: seq<int>): Positive
    requires ps != []
  {
    DecayedGSumPositive(m, ps);
    SeriesSumPositive(Decay, 0, |ps|);
    DecayedGSum(m, ps) / SeriesSum(Decay, 0, |ps|)
  }

  /** `gInv(weightedGSum / weightSum)`: the weighted average performance. */
  function AverageRating(m: Math, ps: seq<int>): real
    requires ps != []
  {
    GInv(m, DecayedAverage(m, ps))
  }

  /** The estimate for a non-empty history `ps`, oldest contest first. */
  function AlgorithmRatingOf(m: Math, ps: seq<int>): real
    requires SqrtLaws(m)
    requires ps != []
  {
    ApplyRatingCorrection(m, AverageRating(m, ps) - SampleCorrection(m, |ps|))
  }

  // ---------------------------------------------------------------------
  // The penalty f(n) for a short history

  /**
   * `F(n) = sqrt(sum_{i=1..n} 0.81^i) / sum_{i=1..n} 0.9^i`, which satisfies
   * `19 F(n)^2 (1 - 0.9^n) = 1 + 0.9^n`: the closed form behind every fact
   * about `f`.
   */
  function SampleRatio(m: Math, n: nat): (r: NonNegative)
    requires n >= 1
    ensures SqrtLaws(m) ==> 19.0 * (r * r) * (1.0 - Pow(Decay, n)) == 1.0 + Pow(Decay, n)
  {
    SeriesSumPositive(0.81, 1, n + 1);
    SeriesSumPositive(Decay, 1, n + 1);
    var a: NonNegative := SeriesSum(0.81, 1, n + 1);
    SampleRatioClosedForm(m, n, a, SeriesSum(Decay, 1, n + 1));
    m.sqrt(a) / SeriesSum(Decay, 1, n + 1)
  }

  lemma SampleRatioClosedForm(m: Math, n: nat, a: NonNegative, b: real)
    requires n >= 1
    requires a == SeriesSum(0.81, 1, n + 1) && b == SeriesSum(Decay, 1, n + 1)
    requires b > 0.0
    ensures SqrtLaws(m) ==>
      19.0 * ((m.sqrt(a) / b) * (m.sqrt(a) / b)) * (1.0 - Pow(Decay, n)) == 1.0 + Pow(Decay, n)
  {
    if SqrtLaws(m) {
      DecayPowerBounds(n);
      NumeratorClosedForm(n);
      DenominatorClosedForm(n);
      var s: real := m.sqrt(a);
      assert s * s == a;
      RatioAlgebra(a, b, s, s / b, Pow(Decay, n));
    }
  }

  /** `FInf`, the limit of `F(n)` as `n` grows: `sqrt(1/19)`, below 1. */
  function SampleRatioLimit(m: Math): (l: NonNegative)
    ensures SqrtLaws(m) ==> 19.0 * (l * l) == 1.0 && l < 1.0
  {
    var r: NonNegative := m.sqrt(0.81 / (1.0 - 0.81));
    LimitSquare(m, r);
    r / (0.9 / (1.0 - 0.9))
  }

  lemma LimitSquare(m: Math, r: NonNegative)
    requires r == m.sqrt(0.81 / (1.0 - 0.81))
    ensures SqrtLaws(m) ==> 19.0 * ((r / 9.0) * (r / 9.0)) == 1.0 && r / 9.0 < 1.0
  {
    if SqrtLaws(m) {
      var l: real := r / 9.0;
      assert r * r == 81.0 / 19.0;
      assert l * l == (r * r) / 81.0;
      SquareOrderReflects(l, 1.0);
    }
  }

  /**
   * `f(n) = ((F(n) - FInf) / (F(1) - FInf)) * 1200`: a single contest is
   * penalised by exactly 1200, and every history by a positive amount of at
   * most 1200.
   */
  function SampleCorrection(m: Math, n: nat): (c: real)
    requires SqrtLaws(m)
    requires n >= 1
    ensures 0.0 < c <= 1200.0
    ensures n == 1 ==> c == 1200.0
  {
    SampleRatioOfOne(m);
    DecayPowerBounds(n);
    var f: real := SampleRatio(m, n);
    var l: real := SampleRatioLimit(m);
    RatioBetweenLimitAndOne(f, l, Pow(Decay, n));
    PositiveFraction(f - l, 1.0 - l);
    ((f - l) / (SampleRatio(m, 1) - l)) * 1200.0
  }

  /** `F(1) = 1`, so the divisor `F(1) - FInf` of `f` is positive. */
  lemma SampleRatioOfOne(m: Math)
    requires SqrtLaws(m)
    ensures SampleRatio(m, 1) == 1.0
  {
    assert SeriesSum(0.81, 1, 2) == 0.81;
    assert SeriesSum(Decay, 1, 2) == 0.9;
    SqrtOfSquare(m, 0.81, 0.9);
  }

  /** `0 < 0.9^n <= 0.9` once at least one contest has been taken. */
  lemma DecayPowerBounds(n: nat)
    requires n >= 1
    ensures 0.0 < Pow(Decay, n) <= 0.9
  {
    PowPositive(Decay, n);
    PowAtMostOne(Decay, n - 1);
    PowSucc(Decay, n - 1);
  }

  /** `sum_{i=1..n} 0.81^i = (0.81 / 0.19) (1 - 0.9^(2n))`. */
  lemma NumeratorClosedForm(n: nat)
    ensures 0.19 * SeriesSum(0.81, 1, n + 1) == 0.81 * (1.0 - Pow(Decay, n) * Pow(Decay, n))
  {
    SeriesSumClosedForm(0.81, 1, n + 1);
    PowSucc(0.81, n);
    assert Decay * Decay == 0.81;
    PowOfSquare(Decay, n);
  }

  /** `sum_{i=1..n} 0.9^i = 9 (1 - 0.9^n)`. */
  lemma DenominatorClosedForm(n: nat)
    ensures SeriesSum(Decay, 1, n + 1) == 9.0 * (1.0 - Pow(Decay, n))
  {
    SeriesSumClosedForm(Decay, 1, n + 1);
    PowSucc(Decay, n);
  }

  lemma RatioAlgebra(a: real, b: real, s: real, f: real, x: real)
    requires 0.0 < x < 1.0
    requires 0.19 * a == 0.81 * (1.0 - x * x)
    requires b == 9.0 * (1.0 - x)
    requires s * s == a
    requires f == s / b
    ensures 19.0 * (f * f) * (1.0 - x) == 1.0 + x
  {
    var u := 1.0 - x;
    var y := f * f;
    assert f * b == s;
    assert y * (b * b) == a;
    assert b * b == 81.0 * (u * u);
    assert 0.19 * a == 0.81 * (u * (1.0 + x));
    var z := 19.0 * y * u;
    assert 0.19 * (y * (81.0 * (u * u))) == 0.81 * (z * u);
    CancelPositive(z, 1.0 + x, 0.81 * u);
  }

  lemma RatioBetweenLimitAndOne(f: real, l: real, x: real)
    requires f >= 0.0 && l >= 0.0
    requires 0.0 < x <= 0.9
    requires 19.0 * (l * l) == 1.0
    requires 19.0 * (f * f) * (1.0 - x) == 1.0 + x
    ensures l < f <= 1.0
  {
    var y := f * f;
    var u := 1.0 - x;
    assert 1.0 * u < (19.0 * y) * u;
    CancelLess(1.0, 19.0 * y, u);
    SquareOrderReflects(l, f);
    assert y * (19.0 * u) == 1.0 + x;
    assert 1.0 + x <= 19.0 * u;
    CancelAtMost(y, 1.0, 19.0 * u);
    SquareOrderReflectsWeak(f, 1.0);
  }

  lemma PositiveFraction(a: real, d: real)
    requires 0.0 < a <= d
    ensures 0.0 < (a / d) * 1200.0 <= 1200.0
  {
    assert a / d <= 1.0;
  }

  /** Every further contest strictly lowers the penalty. */
  lemma SampleCorrectionDecreasing(m: Math, n: nat)
    requires SqrtLaws(m)
    requires n >= 1
    ensures SampleCorrection(m, n + 1) < SampleCorrection(m, n)
  {
    SampleRatioOfOne(m);
    SampleRatioDecreasing(m, n);
    var l: real := SampleRatioLimit(m);
    QuotientIncreasing(SampleRatio(m, n + 1) - l, SampleRatio(m, n) - l, SampleRatio(m, 1) - l);
  }

  /** `F(n)` strictly decreases with `n`. */
  lemma SampleRatioDecreasing(m: Math, n: nat)
    requires SqrtLaws(m)
    requires n >= 1
    ensures SampleRatio(m, n + 1) < SampleRatio(m, n)
  {
    var f: NonNegative, f': NonNegative := SampleRatio(m, n), SampleRatio(m, n + 1);
    DecayPowerStep(n);
    RatioDecreasing(f, f', Pow(Decay, n), Pow(Decay, n + 1));
  }

  lemma DecayPowerStep(n: nat)
    requires n >= 1
    ensures 0.0 < Pow(Decay, n + 1) < Pow(Decay, n) <= 0.9
  {
    DecayPowerBounds(n);
    DecayPowerBounds(n + 1);
    PowStrictlyDecreasing(Decay, n);
  }

  lemma RatioDecreasing(f: real, f': real, x: real, x': real)
    requires f >= 0.0 && f' >= 0.0
    requires 0.0 < x' < x <= 0.9
    requires 19.0 * (f * f) * (1.0 - x) == 1.0 + x
    requires 19.0 * (f' * f') * (1.0 - x') == 1.0 + x'
    ensures f' < f
  {
    var y, y' := f * f, f' * f';
    var c := 19.0 * ((1.0 - x) * (1.0 - x'));
    assert y' * c == (1.0 + x') * (1.0 - x);
    assert y * c == (1.0 + x) * (1.0 - x');
    assert (1.0 + x') * (1.0 - x) < (1.0 + x) * (1.0 - x');
    CancelLess(y', y, c);
    SquareOrderReflects(f', f);
  }

  lemma QuotientIncreasing(a: real, b: real, d: real)
    requires a < b && d > 0.0
    ensures (a / d) * 1200.0 < (b / d) * 1200.0
  {
    assert a / d < b / d;
  }

  // ---------------------------------------------------------------------
  // The loops of the source

  /** `F(n)`, by the source's loop over `i = 1..n`. */
  method ComputeSampleRatio(m: Math, n: nat) returns (ratio: real)
    requires n >= 1
    ensures ratio == SampleRatio(m, n)
  {
    var numerator := 0.0;
    var denominator := 0.0;
    for i := 1 to n + 1
      invariant numerator == SeriesSum(0.81, 1, i)
      invariant denominator == SeriesSum(Decay, 1, i)
    {
      numerator := numerator + Pow(0.81, i);
      denominator := denominator + Pow(Decay, i);
    }
    SeriesSumPositive(0.81, 1, n + 1);
    SeriesSumPositive(Decay, 1, n + 1);
    ratio := m.sqrt(numerator) / denominator;
  }

  /** `f(n)`. */
  method ComputeSampleCorrection(m: Math, n: nat) returns (correction: real)
    requires SqrtLaws(m)
    requires n >= 1
    ensures correction == SampleCorrection(m, n)
    ensures 0.0 < correction <= 1200.0
  {
    var ratio := ComputeSampleRatio(m, n);
    var limit := m.sqrt(0.81 / (1.0 - 0.81)) / (0.9 / (1.0 - 0.9));
    var first := ComputeSampleRatio(m, 1);
    SampleRatioOfOne(m);
    correction := ((ratio - limit) / (first - limit)) * 1200.0;
  }

  /**
   * `calculateAlgorithmRating`: throws on an empty history, and otherwise
   * returns the corrected estimate, which is positive.
   */
  method CalculateAlgorithmRating(m: Math, contestResults: seq<ContestResult>) returns (result: Outcome)
    requires SqrtLaws(m)
    ensures contestResults == [] <==> result == Thrown("performances is empty")
    ensures contestResults != [] ==>
      result == Rating(AlgorithmRatingOf(m, Performances(contestResults)))
    ensures result.Rating? ==> result.value > 0.0
  {
    if |contestResults| == 0 {
      return Thrown("performances is empty");
    }
    ghost var ps := Performances(contestResults);
    var performances := Reverse(Performances(contestResults));
    var n := |performances|;
    var weightedGSum, weightSum := SumDecayedWeights(m, performances, ps);
    DecayedGSumPositive(m, ps);
    SeriesSumPositive(Decay, 0, n);
    assert weightedGSum / weightSum == DecayedAverage(m, ps);
    var penalty := ComputeSampleCorrection(m, n);
    var rating := GInv(m, weightedGSum / weightSum) - penalty;
    assert rating == AverageRating(m, ps) - SampleCorrection(m, n);
    rating := ApplyRatingCorrection(m, rating);
    return Rating(rating);
  }

  /**
   * The loop of `calculateAlgorithmRating` over the history, newest contest
   * first: `performances` is `ps` reversed.
   */
  method SumDecayedWeights(m: Math, performances: seq<int>, ghost ps: seq<int>)
    returns (weightedGSum: real, weightSum: real)
    requires performances == Reverse(ps)
    ensures weightedGSum == DecayedGSum(m, ps)
    ensures weightSum == SeriesSum(Decay, 0, |ps|)
  {
    weightedGSum := 0.0;
    weightSum := 0.0;
    var n := |performances|;
    for i := 0 to n
      invariant weightedGSum == DecayedGSum(m, ps[n - i..])
      invariant weightSum == SeriesSum(Decay, 0, i)
    {
      var weight := Pow(Decay, i);
      SuffixStep(m, ps, i);
      weightedGSum := weightedGSum + G(m, performances[i] as real) * weight;
      weightSum := weightSum + weight;
    }
    assert ps[n - n..] == ps;
  }

  // ---------------------------------------------------------------------
  // What the average promises

  /** A weighted sum of `g` values that are each at most `ghi` is at most `ghi` times the sum of the weights. */
  lemma {:induction false} DecayedGSumAtMost(m: Math, ps: seq<int>, ghi: real)
    requires forall i :: 0 <= i < |ps| ==> G(m, ps[i] as real) <= ghi
    ensures DecayedGSum(m, ps) <= ghi * SeriesSum(Decay, 0, |ps|)
  {
    if ps != [] {
      var init := ps[..|ps| - 1];
      DecayedGSumAtMost(m, init, ghi);
      AtMostStep(m, init, ps[|ps| - 1], ghi);
      assert ps == init + [ps[|ps| - 1]];
    }
  }

  lemma AtMostStep(m: Math, init: seq<int>, p: int, ghi: real)
    requires G(m, p as real) <= ghi
    requires DecayedGSum(m, init) <= ghi * SeriesSum(Decay, 0, |init|)
    ensures DecayedGSum(m, init + [p]) <= ghi * SeriesSum(Decay, 0, |init| + 1)
  {
    NewestContestWeighsOne(m, init, p);
    AddAtMost(G(m, p as real), ghi, 1.0, DecayedGSum(m, init), Decay, SeriesSum(Decay, 0, |init|));
  }

  /** A weighted sum of `g` values that are each at least `glo` is at least `glo` times the sum of the weights. */
  lemma {:induction false} DecayedGSumAtLeast(m: Math, ps: seq<int>, glo: real)
    requires forall i :: 0 <= i < |ps| ==> glo <= G(m, ps[i] as real)
    ensures glo * SeriesSum(Decay, 0, |ps|) <= DecayedGSum(m, ps)
  {
    if ps != [] {
      var init := ps[..|ps| - 1];
      DecayedGSumAtLeast(m, init, glo);
      AtLeastStep(m, init, ps[|ps| - 1], glo);
      assert ps == init + [ps[|ps| - 1]];
    }
  }

  lemma AtLeastStep(m: Math, init: seq<int>, p: int, glo: real)
    requires glo <= G(m, p as real)
    requires glo * SeriesSum(Decay, 0, |init|) <= DecayedGSum(m, init)
    ensures glo * SeriesSum(Decay, 0, |init| + 1) <= DecayedGSum(m, init + [p])
  {
    NewestContestWeighsOne(m, init, p);
    AddAtLeast(glo, G(m, p as real), 1.0, DecayedGSum(m, init), Decay, SeriesSum(Decay, 0, |init|));
  }

  /** Performances between `lo` and `hi` have `g` values between `g(lo)` and `g(hi)`. */
  lemma GBounds(m: Math, ps: seq<int>, lo: int, hi: int)
    requires Pow2Laws(m)
    requires forall i :: 0 <= i < |ps| ==> lo <= ps[i] <= hi
    ensures forall i :: 0 <= i < |ps| ==> G(m, lo as real) <= G(m, ps[i] as real) <= G(m, hi as real)
  {
    forall i | 0 <= i < |ps|
      ensures G(m, lo as real) <= G(m, ps[i] as real) <= G(m, hi as real)
    {
      GMonotonic(m, lo as real, ps[i] as real);
      GMonotonic(m, ps[i] as real, hi as real);
    }
  }

  /** The average performance lies between the lowest and the highest performance. */
  lemma AverageWithinPerformances(m: Math, ps: seq<int>, lo: int, hi: int)
    requires Pow2Laws(m)
    requires ps != []
    requires forall i :: 0 <= i < |ps| ==> lo <= ps[i] <= hi
    ensures lo as real <= AverageRating(m, ps) <= hi as real
  {
    GBounds(m, ps, lo, hi);
    DecayedAverageBounds(m, ps, G(m, lo as real), G(m, hi as real));
    var a := DecayedAverage(m, ps);
    Log2Monotonic(m, G(m, lo as real), a);
    Log2Monotonic(m, a, G(m, hi as real));
  }

  /** On the exponential scale, the weighted mean lies between the least and the greatest `g` value. */
  lemma DecayedAverageBounds(m: Math, ps: seq<int>, glo: real, ghi: real)
    requires ps != []
    requires forall i :: 0 <= i < |ps| ==> glo <= G(m, ps[i] as real) <= ghi
    ensures glo <= DecayedAverage(m, ps) <= ghi
  {
    SeriesSumPositive(Decay, 0, |ps|);
    DecayedGSumAtMost(m, ps, ghi);
    DecayedGSumAtLeast(m, ps, glo);
    DivideBounds(glo, DecayedGSum(m, ps), ghi, SeriesSum(Decay, 0, |ps|));
  }

  /** A history in which every contest has performance `p` averages to exactly `p`. */
  lemma ConstantHistory(m: Math, ps: seq<int>, p: int)
    requires Pow2Laws(m) && SqrtLaws(m)
    requires ps != []
    requires forall i :: 0 <= i < |ps| ==> ps[i] == p
    ensures AverageRating(m, ps) == p as real
    ensures AlgorithmRatingOf(m, ps) == ApplyRatingCorrection(m, p as real - SampleCorrection(m, |ps|))
  {
    AverageWithinPerformances(m, ps, p, p);
  }

  /**
   * A new contest at least as good as every earlier one never lowers the
   * average, and the average stays at most that performance.
   */
  lemma AppendingBestPerformance(m: Math, ps: seq<int>, p: int)
    requires Pow2Laws(m)
    requires ps != []
    requires forall i :: 0 <= i < |ps| ==> ps[i] <= p
    ensures AverageRating(m, ps) <= AverageRating(m, ps + [p]) <= p as real
  {
    forall i | 0 <= i < |ps|
      ensures G(m, ps[i] as real) <= G(m, p as real)
    {
      GMonotonic(m, ps[i] as real, p as real);
    }
    AppendingLargestG(m, ps, p);
    Log2Monotonic(m, DecayedAverage(m, ps), DecayedAverage(m, ps + [p]));
    Log2Monotonic(m, DecayedAverage(m, ps + [p]), G(m, p as real));
  }

  /**
   * On the exponential scale: a new `g` value at least as large as every
   * earlier one never lowers the weighted mean, and the mean stays at most
   * that value.
   */
  lemma AppendingLargestG(m: Math, ps: seq<int>, p: int)
    requires ps != []
    requires forall i :: 0 <= i < |ps| ==> G(m, ps[i] as real) <= G(m, p as real)
    ensures DecayedAverage(m, ps) <= DecayedAverage(m, ps + [p]) <= G(m, p as real)
  {
    var w := SeriesSum(Decay, 0, |ps|);
    var d := DecayedGSum(m, ps);
    SeriesSumPositive(Decay, 0, |ps|);
    DecayedGSumPositive(m, ps);
    DecayedGSumAtMost(m, ps, G(m, p as real));
    NewestContestWeighsOne(m, ps, p);
    MediantStep(G(m, p as real), d, w);
  }

  lemma MediantStep(gp: real, d: real, w: real)
    requires w > 0.0 && d > 0.0 && gp > 0.0
    requires d <= gp * w
    ensures d / w <= (gp + Decay * d) / (1.0 + Decay * w) <= gp
  {
    var w' := 1.0 + Decay * w;
    var d' := gp + Decay * d;
    assert d * w' <= d' * w;
    assert d' <= gp * w';
    DivideBounds(0.0, d', gp, w');
    CrossMultiply(d, w, d', w');
  }

  lemma CrossMultiply(a: real, b: real, c: real, d: real)
    requires b > 0.0 && d > 0.0
    requires a * d <= c * b
    ensures a / b <= c / d
  {
    var x, y := a / b, c / d;
    assert x * b == a && y * d == c;
    assert x * (b * d) <= y * (b * d);
    CancelAtMost(x, y, b * d);
  }
}
