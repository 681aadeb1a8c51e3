/**
 * What the two estimators of `calculateRating.ts` share: the input record (a
 * contest result reduced to its performance) and the rating correction that
 * keeps low ratings positive, together with its inverse.
 *
 * The correction is the identity from 400 upwards and maps every rating below
 * 400 to `400 / exp((400 - rating) / 400)`, which lies strictly between 0 and
 * 400. The inverse undoes it on positive corrected ratings.
 */
module CalculateRating {
  import opened JsMath

  /** `Pick<AtCoderContestResult, 'performance'>`. */
  datatype ContestResult = ContestResult(performance: int)

  /**
   * What an estimator hands back: a number, the error it throws, or the `NaN`
   * that JavaScript arithmetic produces when it reads past the end of an array.
   */
  datatype Outcome = Rating(value: real) | Thrown(message: string) | NotANumber

  /** `contestResults.map((result) => result.performance)`. */
  function Performances(contestResults: seq<ContestResult>): (ps: seq<int>)
    ensures |ps| == |contestResults|
    ensures forall i :: 0 <= i < |ps| ==> ps[i] == contestResults[i].performance
  {
    seq(|contestResults|, i requires 0 <= i < |contestResults| => contestResults[i].performance)
  }

  /** `Array.prototype.reverse`. */
  function Reverse<T>(s: seq<T>): (r: seq<T>)
    ensures |r| == |s|
    ensures forall i :: 0 <= i < |s| ==> r[i] == s[|s| - 1 - i]
  {
    seq(|s|, i requires 0 <= i < |s| => s[|s| - 1 - i])
  }

  /** `applyRatingCorrection`: the corrected rating is always positive. */
  function ApplyRatingCorrection(m: Math, rating: real): (corrected: real)
    ensures corrected > 0.0
  {
    if rating < 400.0 then
      400.0 / m.exp((400.0 - rating) / 400.0)
    else
      rating
  }

  /**
   * `inverseRatingCorrection`. A corrected rating of 0 or below is outside its
   * domain: there the source computes `log` of a non-positive number or of
   * infinity, which is not a real number.
   */
  function InverseRatingCorrection(m: Math, correctedRating: real): (rating: real)
    requires correctedRating > 0.0
    ensures correctedRating >= 400.0 ==> rating == correctedRating
    ensures ExpLaws(m) ==> (rating < 400.0 <==> correctedRating < 400.0)
  {
    if correctedRating >= 400.0 then
      correctedRating
    else
      var q: Positive := 400.0 / correctedRating;
      assert q * correctedRating == 400.0;
      LogPositiveWhereLawful(m, q);
      400.0 - 400.0 * m.log(q)
  }

  lemma LogPositiveWhereLawful(m: Math, q: Positive)
    requires q > 1.0
    ensures ExpLaws(m) ==> m.log(q) > 0.0
  {
    if ExpLaws(m) {
      LogPositive(m, q);
    }
  }

  /** From 400 upwards the correction and its inverse are the identity. */
  lemma CorrectionIdentityFrom400(m: Math, rating: real)
    requires rating >= 400.0
    ensures ApplyRatingCorrection(m, rating) == rating
    ensures InverseRatingCorrection(m, rating) == rating
  {
  }

  /** Below 400 the correction lands strictly between 0 and 400. */
  lemma CorrectionBelow400(m: Math, rating: real)
    requires ExpLaws(m)
    requires rating < 400.0
    ensures 0.0 < ApplyRatingCorrection(m, rating) < 400.0
  {
    var e := m.exp((400.0 - rating) / 400.0);
    ExpAboveOne(m, (400.0 - rating) / 400.0);
    assert 400.0 / e < 400.0 by {
      assert 400.0 < 400.0 * e;
    }
  }

  /** A rating is corrected below 400 exactly when it is below 400. */
  lemma CorrectionKeepsThresholdSide(m: Math, rating: real)
    requires ExpLaws(m)
    ensures ApplyRatingCorrection(m, rating) < 400.0 <==> rating < 400.0
  {
    if rating < 400.0 {
      CorrectionBelow400(m, rating);
    }
  }

  /** The correction is strictly increasing, so distinct ratings stay distinct and ordered. */
  lemma CorrectionStrictlyIncreasing(m: Math, a: real, b: real)
    requires ExpLaws(m)
    requires a < b
    ensures ApplyRatingCorrection(m, a) < ApplyRatingCorrection(m, b)
  {
    if b < 400.0 {
      var ta, tb := (400.0 - a) / 400.0, (400.0 - b) / 400.0;
      assert tb < ta;
      var ea, eb := m.exp(ta), m.exp(tb);
      assert eb < ea;
      QuotientDecreasing(400.0, eb, ea);
    } else if a < 400.0 {
      CorrectionBelow400(m, a);
    }
  }

  /**
   * Every rating within `delta` of 400 is corrected to within `eps` of 400,
   * the value at 400 itself.
   */
  ghost predicate CorrectionWithin(m: Math, eps: real, delta: real) {
    && delta > 0.0
    && forall r :: 400.0 - delta < r < 400.0 + delta ==>
         400.0 - eps < ApplyRatingCorrection(m, r) < 400.0 + eps
  }

  /**
   * The two branches of the correction meet at 400: it is continuous there,
   * so a rating just below 400 is corrected to a value just below 400.
   */
  lemma CorrectionContinuousAt400(m: Math, eps: real)
    requires ExpLaws(m)
    requires eps > 0.0
    ensures exists delta :: CorrectionWithin(m, eps, delta)
  {
    var delta: real := eps;
    if eps < 400.0 {
      var q: Positive := 400.0 / (400.0 - eps);
      assert q * (400.0 - eps) == 400.0;
      QuotientDecreasing(400.0, 400.0 - eps, 400.0);
      LogPositive(m, q);
      assert 400.0 * m.log(q) > 0.0;
      if 400.0 * m.log(q) < eps {
        delta := 400.0 * m.log(q);
      }
      forall r | 400.0 - delta < r < 400.0
        ensures 400.0 - eps < ApplyRatingCorrection(m, r)
      {
        CorrectionNear400(m, eps, q, r);
      }
    } else {
      forall r | r < 400.0
        ensures 400.0 - eps < ApplyRatingCorrection(m, r)
      {
        CorrectionBelow400(m, r);
      }
    }
    forall r | 400.0 - delta < r < 400.0 + delta
      ensures ApplyRatingCorrection(m, r) < 400.0 + eps
    {
      if r < 400.0 {
        CorrectionBelow400(m, r);
      }
    }
    assert CorrectionWithin(m, eps, delta);
  }

  /** Below 400, a rating above `400 - 400 log(400 / (400 - eps))` is corrected above `400 - eps`. */
  lemma CorrectionNear400(m: Math, eps: real, q: Positive, r: real)
    requires ExpLaws(m)
    requires 0.0 < eps < 400.0 && q == 400.0 / (400.0 - eps)
    requires 400.0 - 400.0 * m.log(q) < r < 400.0
    ensures 400.0 - eps < ApplyRatingCorrection(m, r)
  {
    var t := (400.0 - r) / 400.0;
    assert t < m.log(q);
    assert m.exp(t) < m.exp(m.log(q));
    ExpAboveOne(m, t);
    QuotientDecreasing(400.0, m.exp(t), q);
    assert 400.0 / q == 400.0 - eps;
  }

  /** Undoing the correction gives back the raw rating, for every raw rating. */
  lemma {:induction false} InverseAfterCorrection(m: Math, rating: real)
    requires ExpLaws(m)
    ensures InverseRatingCorrection(m, ApplyRatingCorrection(m, rating)) == rating
  {
    if rating < 400.0 {
      var t := (400.0 - rating) / 400.0;
      var e := m.exp(t);
      CorrectionBelow400(m, rating);
      assert 400.0 / (400.0 / e) == e;
      LogOfExp(m, t);
    }
  }

  /** Correcting an inverted rating gives it back, for every positive corrected rating. */
  lemma {:induction false} CorrectionAfterInverse(m: Math, correctedRating: real)
    requires ExpLaws(m)
    requires correctedRating > 0.0
    ensures ApplyRatingCorrection(m, InverseRatingCorrection(m, correctedRating)) == correctedRating
  {
    if correctedRating < 400.0 {
      var q: Positive := 400.0 / correctedRating;
      var raw := InverseRatingCorrection(m, correctedRating);
      assert raw == 400.0 - 400.0 * m.log(q);
      assert (400.0 - raw) / 400.0 == m.log(q);
      assert m.exp(m.log(q)) == q;
      assert 400.0 / q == correctedRating;
    }
  }
}
