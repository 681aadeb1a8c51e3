/**
 * `calculateHeuristicRating`: the rating of an AtCoder Heuristic contest
 * history.
 *
 * Every performance `p` is expanded into 100 virtual performances
 * `p - S log(j + 1)` for `j = 0..99`; all of them are sorted from best to
 * worst, and the 100 best are averaged with weights `R^1, R^2, ..., R^100`
 * (the best weighs most). The low-rating correction is applied to that
 * average.
 *
 * An empty history has no virtual performances: the loop reads past the end
 * of the array, JavaScript arithmetic turns the sum into `NaN`, and `NaN`
 * passes through the correction unchanged, so the estimator returns `NaN`.
 */
module HeuristicRating {
  import opened JsMath
  import opened CalculateRating
  import opened DescendingSort

  const S: real := 724.4744301
  const R: real := 0.8271973364

  /** How many virtual performances one contest stands for: the `length: 100` of `Array.from`. */
  const VirtualSampleCount: nat := 100

  /**
   * How many of the best extended performances are averaged: the loop bound
   * `i < 100`. It equals `VirtualSampleCount`, so a single contest already
   * supplies all of them.
   */
  const AveragedCount: nat := 100

  /** `Array.from({ length: 100 }, (_, j) => p - S * Math.log(j + 1))`. */
  function VirtualSamples(m: Math, p: int): (vs: seq<real>)
    ensures |vs| == VirtualSampleCount
  {
    seq(VirtualSampleCount, j requires 0 <= j < VirtualSampleCount => p as real - S * m.log((j + 1) as real))
  }

  /** The first virtual performance is the performance itself. */
  lemma FirstVirtualSample(m: Math, p: int)
    requires ExpLaws(m)
    ensures VirtualSamples(m, p)[0] == p as real
  {
    LogOfOne(m);
  }

  /** The virtual performances strictly decrease, and none exceeds the performance. */
  lemma VirtualSamplesStrictlyDescending(m: Math, p: int)
    requires ExpLaws(m)
    ensures forall j, k :: 0 <= j < k < VirtualSampleCount ==> VirtualSamples(m, p)[j] > VirtualSamples(m, p)[k]
    ensures forall j :: 0 <= j < VirtualSampleCount ==> VirtualSamples(m, p)[j] <= p as real
  {
    var vs := VirtualSamples(m, p);
    forall j, k | 0 <= j < k < VirtualSampleCount
      ensures vs[j] > vs[k]
    {
      LogStrictlyIncreasing(m, (j + 1) as real, (k + 1) as real);
    }
    forall j | 0 <= j < VirtualSampleCount
      ensures vs[j] <= p as real
    {
      LogPositive(m, (j + 1) as real);
    }
  }

  /** `performances.flatMap(VirtualSamples)`. */
  function Expand(m: Math, ps: seq<int>): (e: seq<real>)
    ensures |e| == VirtualSampleCount * |ps|
  {
    if ps == [] then [] else VirtualSamples(m, ps[0]) + Expand(m, ps[1..])
  }

  /** Every virtual performance of every contest is in the expansion. */
  lemma {:induction false} ExpandContains(m: Math, ps: seq<int>, i: nat, j: nat)
    requires i < |ps| && j < VirtualSampleCount
    ensures VirtualSamples(m, ps[i])[j] in Expand(m, ps)
    decreases i
  {
    assert Expand(m, ps) == VirtualSamples(m, ps[0]) + Expand(m, ps[1..]);
    if i > 0 {
      ExpandContains(m, ps[1..], i - 1, j);
      assert ps[1..][i - 1] == ps[i];
    }
  }

  /** The expansion holds nothing but virtual performances of the contests. */
  lemma {:induction false} ExpandOnly(m: Math, ps: seq<int>, x: real)
    requires x in Expand(m, ps)
    ensures exists i, j :: 0 <= i < |ps| && 0 <= j < VirtualSampleCount && x == VirtualSamples(m, ps[i])[j]
    decreases |ps|
  {
    var vs := VirtualSamples(m, ps[0]);
    assert Expand(m, ps) == vs + Expand(m, ps[1..]);
    if x in vs {
      var j :| 0 <= j < VirtualSampleCount && x == vs[j];
      assert 0 <= 0 < |ps| && x == VirtualSamples(m, ps[0])[j];
    } else {
      ExpandOnly(m, ps[1..], x);
      var i, j :| 0 <= i < |ps[1..]| && 0 <= j < VirtualSampleCount && x == VirtualSamples(m, ps[1..][i])[j];
      assert ps[1..][i] == ps[i + 1];
      assert 0 <= i + 1 < |ps| && x == VirtualSamples(m, ps[i + 1])[j];
    }
  }

  /** `extendedPerformances`: the expansion sorted from best to worst. */
  function Extended(m: Math, ps: seq<int>): (ext: seq<real>)
    ensures |ext| == VirtualSampleCount * |ps|
    ensures Descending(ext)
    ensures multiset(ext) == multiset(Expand(m, ps))
  {
    Sort(Expand(m, ps))
  }

  /** The best extended performance is the best performance of the history. */
  lemma ExtendedHeadIsBestPerformance(m: Math, ps: seq<int>)
    requires ExpLaws(m)
    requires ps != []
    ensures forall i :: 0 <= i < |ps| ==> ps[i] as real <= Extended(m, ps)[0]
    ensures exists i :: 0 <= i < |ps| && Extended(m, ps)[0] == ps[i] as real
  {
    var ext := Extended(m, ps);
    var e := Expand(m, ps);
    forall i | 0 <= i < |ps|
      ensures ps[i] as real <= ext[0]
    {
      FirstVirtualSample(m, ps[i]);
      ExpandContains(m, ps, i, 0);
      HeadIsMaximum(ext, ps[i] as real);
    }
    assert ext[0] in multiset(e);
    ExpandOnly(m, ps, ext[0]);
    var i, j :| 0 <= i < |ps| && 0 <= j < VirtualSampleCount && ext[0] == VirtualSamples(m, ps[i])[j];
    VirtualSamplesStrictlyDescending(m, ps[i]);
  }

  /** With a single contest the extended performances are its virtual performances, in order. */
  lemma SingleContestExtended(m: Math, p: int)
    requires ExpLaws(m)
    ensures Extended(m, [p]) == VirtualSamples(m, p)
  {
    var vs := VirtualSamples(m, p);
    assert Expand(m, [p]) == vs + Expand(m, []);
    assert Expand(m, [p]) == vs;
    VirtualSamplesStrictlyDescending(m, p);
    SortedPermutationUnique(Extended(m, [p]), vs);
  }

  // ---------------------------------------------------------------------
  // The order of the history does not matter

  /** The `flatMap` of a concatenation is the concatenation of the `flatMap`s. */
  lemma {:induction false} ExpandAppend(m: Math, a: seq<int>, b: seq<int>)
    ensures Expand(m, a + b) == Expand(m, a) + Expand(m, b)
  {
    if a == [] {
      assert a + b == b;
    } else {
      assert (a + b)[0] == a[0];
      assert (a + b)[1..] == a[1..] + b;
      ExpandAppend(m, a[1..], b);
    }
  }

  /** Taking contest `i` out of a history takes its virtual performances out of the expansion. */
  lemma ExpandRemove(m: Math, qs: seq<int>, i: nat)
    requires i < |qs|
    ensures multiset(Expand(m, qs)) ==
      multiset(VirtualSamples(m, qs[i])) + multiset(Expand(m, qs[..i] + qs[i + 1..]))
  {
    var rest := [qs[i]] + qs[i + 1..];
    assert qs == qs[..i] + rest;
    ExpandAppend(m, qs[..i], rest);
    assert Expand(m, rest) == VirtualSamples(m, qs[i]) + Expand(m, qs[i + 1..]) by {
      assert rest[1..] == qs[i + 1..];
    }
    ExpandAppend(m, qs[..i], qs[i + 1..]);
  }

  lemma RemoveFromMultiset(qs: seq<int>, i: nat)
    requires i < |qs|
    ensures multiset(qs[..i] + qs[i + 1..]) == multiset(qs) - multiset{qs[i]}
  {
    assert qs == qs[..i] + [qs[i]] + qs[i + 1..];
  }

  lemma MultisetTail(ps: seq<int>)
    requires ps != []
    ensures multiset(ps[1..]) == multiset(ps) - multiset{ps[0]}
  {
    assert ps == [ps[0]] + ps[1..];
  }

  /** Histories that are permutations of each other expand to permutations of each other. */
  lemma {:induction false} ExpandPermutation(m: Math, ps: seq<int>, qs: seq<int>)
    requires multiset(ps) == multiset(qs)
    ensures multiset(Expand(m, ps)) == multiset(Expand(m, qs))
    decreases |ps|
  {
    if ps == [] {
      assert |qs| == |multiset(qs)| == 0;
    } else {
      assert ps[0] in multiset(qs);
      var i :| 0 <= i < |qs| && qs[i] == ps[0];
      var qs' := qs[..i] + qs[i + 1..];
      MultisetTail(ps);
      RemoveFromMultiset(qs, i);
      ExpandPermutation(m, ps[1..], qs');
      ExpandRemove(m, qs, i);
      assert Expand(m, ps) == VirtualSamples(m, ps[0]) + Expand(m, ps[1..]);
    }
  }

  /**
   * Reordering the history changes neither the extended performances nor
   * their average: the estimate depends only on which performances occur,
   * and how often.
   */
  lemma HeuristicOrderIrrelevant(m: Math, ps: seq<int>, qs: seq<int>)
    requires ps != []
    requires multiset(ps) == multiset(qs)
    ensures qs != []
    ensures Extended(m, ps) == Extended(m, qs)
    ensures HeuristicAverage(m, ps) == HeuristicAverage(m, qs)
  {
    assert |qs| == |multiset(qs)| == |multiset(ps)| == |ps|;
    ExpandPermutation(m, ps, qs);
    SortedPermutationUnique(Extended(m, ps), Extended(m, qs));
  }

  // ---------------------------------------------------------------------
  // The weighted average of the 100 best

  /** `sum_{i<k} e[i] * R^(i+1)`. */
  function RankWeightedSum(e: seq<real>, k: nat): real
    requires k <= |e|
  {
    if k == 0 then 0.0 else RankWeightedSum(e, k - 1) + e[k - 1] * Pow(R, k)
  }

  /** `sum_{i<k} e[i] * R^(i+1)` divided by the sum of its weights `R^1 + ... + R^k`. */
  function RankWeightedAverage(e: seq<real>, k: nat): real
    requires 1 <= k <= |e|
  {
    SeriesSumPositive(R, 1, k + 1);
    RankWeightedSum(e, k) / SeriesSum(R, 1, k + 1)
  }

  /** The weighted average of the 100 best extended performances. */
  function HeuristicAverage(m: Math, ps: seq<int>): real
    requires ps != []
  {
    RankWeightedAverage(Extended(m, ps), AveragedCount)
  }

  /**
   * The loop of `calculateHeuristicRating` over the `count` best extended
   * performances (the source runs it with `count` 100). The source's
   * `ratingDenominator` accumulates the weighted performances and
   * `ratingNumerator` the weights; the names are kept although they are the
   * other way round. `readUndefined` reports that the loop read past the end
   * of the array, which makes the source's sum `NaN`.
   */
  method SumBestSamples(extendedPerformances: seq<real>, count: nat)
    returns (ratingDenominator: real, ratingNumerator: real, readUndefined: bool)
    ensures readUndefined <==> |extendedPerformances| < count
    ensures !readUndefined ==> ratingDenominator == RankWeightedSum(extendedPerformances, count)
    ensures ratingNumerator == SeriesSum(R, 1, count + 1)
  {
    ratingDenominator := 0.0;
    ratingNumerator := 0.0;
    readUndefined := false;
    for i := 0 to count
      invariant readUndefined <==> i > |extendedPerformances|
      invariant !readUndefined ==> ratingDenominator == RankWeightedSum(extendedPerformances, i)
      invariant ratingNumerator == SeriesSum(R, 1, i + 1)
    {
      var power := Pow(R, i + 1);
      if i < |extendedPerformances| {
        ratingDenominator := ratingDenominator + extendedPerformances[i] * power;
      } else {
        readUndefined := true;
      }
      ratingNumerator := ratingNumerator + power;
    }
  }

  /**
   * `calculateHeuristicRating`: `NaN` for an empty history, and otherwise the
   * corrected weighted average of the 100 best extended performances, which
   * is positive.
   */
  method CalculateHeuristicRating(m: Math, contestResults: seq<ContestResult>) returns (result: Outcome)
    ensures contestResults == [] <==> result == NotANumber
    ensures contestResults != [] ==>
      result == Rating(ApplyRatingCorrection(m, HeuristicAverage(m, Performances(contestResults))))
    ensures result.Rating? ==> result.value > 0.0
  {
    var extendedPerformances := Sort(Expand(m, Performances(contestResults)));
    var ratingDenominator, ratingNumerator, readUndefined := SumBestSamples(extendedPerformances, AveragedCount);
    if readUndefined {
      return NotANumber;
    }
    SeriesSumPositive(R, 1, AveragedCount + 1);
    var rating := ratingDenominator / ratingNumerator;
    rating := ApplyRatingCorrection(m, rating);
    return Rating(rating);
  }

  // ---------------------------------------------------------------------
  // What the average promises

  lemma {:induction false} RankWeightedSumBounds(e: seq<real>, k: nat, lo: real, hi: real)
    requires k <= |e|
    requires forall i :: 0 <= i < k ==> lo <= e[i] <= hi
    ensures lo * SeriesSum(R, 1, k + 1) <= RankWeightedSum(e, k) <= hi * SeriesSum(R, 1, k + 1)
  {
    if k > 0 {
      RankWeightedSumBounds(e, k - 1, lo, hi);
      PowPositive(R, k);
      AddAtMost(e[k - 1], hi, Pow(R, k), RankWeightedSum(e, k - 1), 1.0, SeriesSum(R, 1, k));
      AddAtLeast(lo, e[k - 1], Pow(R, k), RankWeightedSum(e, k - 1), 1.0, SeriesSum(R, 1, k));
    }
  }

  /** A weighted average of the first `k` of a non-increasing sequence lies between its `k`-th and first element. */
  lemma RankWeightedAverageBounds(e: seq<real>, k: nat)
    requires 1 <= k <= |e|
    requires Descending(e)
    ensures e[k - 1] <= RankWeightedAverage(e, k) <= e[0]
  {
    var w := SeriesSum(R, 1, k + 1);
    SeriesSumPositive(R, 1, k + 1);
    RankWeightedSumBounds(e, k, e[k - 1], e[0]);
    DivideBounds(e[k - 1], RankWeightedSum(e, k), e[0], w);
  }

  /**
   * The average lies between the 100th best and the best extended
   * performance, and so never exceeds the best performance of the history.
   */
  lemma HeuristicAverageBounds(m: Math, ps: seq<int>)
    requires ExpLaws(m)
    requires ps != []
    ensures Extended(m, ps)[AveragedCount - 1] <= HeuristicAverage(m, ps) <= Extended(m, ps)[0]
    ensures exists i :: 0 <= i < |ps| && HeuristicAverage(m, ps) <= ps[i] as real
  {
    RankWeightedAverageBounds(Extended(m, ps), AveragedCount);
    ExtendedHeadIsBestPerformance(m, ps);
  }

  /** Shifting the first `k` elements by `c` shifts the weighted sum by `c` times the weights. */
  lemma {:induction false} RankWeightedSumShift(a: seq<real>, b: seq<real>, c: real, k: nat)
    requires k <= |a| && k <= |b|
    requires forall j :: 0 <= j < k ==> a[j] == c + b[j]
    ensures RankWeightedSum(a, k) == c * SeriesSum(R, 1, k + 1) + RankWeightedSum(b, k)
  {
    if k > 0 {
      RankWeightedSumShift(a, b, c, k - 1);
      ShiftStep(a, b, c, k);
    }
  }

  /** One more element keeps the shifted sum. */
  lemma ShiftStep(a: seq<real>, b: seq<real>, c: real, k: nat)
    requires 0 < k <= |a| && k <= |b|
    requires a[k - 1] == c + b[k - 1]
    requires RankWeightedSum(a, k - 1) == c * SeriesSum(R, 1, k) + RankWeightedSum(b, k - 1)
    ensures RankWeightedSum(a, k) == c * SeriesSum(R, 1, k + 1) + RankWeightedSum(b, k)
  {
    var w, x := Pow(R, k), b[k - 1];
    assert SeriesSum(R, 1, k + 1) == SeriesSum(R, 1, k) + w;
    assert (c + x) * w == c * w + x * w;
  }

  /** The virtual performances of `p` are those of performance 0, shifted by `p`. */
  lemma VirtualSampleShift(m: Math, p: int)
    ensures forall j :: 0 <= j < VirtualSampleCount ==> VirtualSamples(m, p)[j] == p as real + VirtualSamples(m, 0)[j]
  {
  }

  /** With a single contest the estimate averages its virtual performances. */
  lemma SingleContestAverage(m: Math, p: int)
    requires ExpLaws(m)
    ensures HeuristicAverage(m, [p]) == RankWeightedAverage(VirtualSamples(m, p), AveragedCount)
  {
    SingleContestExtended(m, p);
  }

  /** Shifting the first `k` elements by `c` shifts their weighted average by `c`. */
  lemma RankWeightedAverageShift(a: seq<real>, b: seq<real>, c: real, k: nat)
    requires 1 <= k <= |a| && k <= |b|
    requires forall j :: 0 <= j < k ==> a[j] == c + b[j]
    ensures RankWeightedAverage(a, k) == c + RankWeightedAverage(b, k)
  {
    RankWeightedSumShift(a, b, c, k);
    SeriesSumPositive(R, 1, k + 1);
    DivideShift(c, RankWeightedSum(b, k), SeriesSum(R, 1, k + 1));
  }

  /** The average of the virtual performances of `p` is `p` plus that of performance 0. */
  lemma VirtualAverageShift(m: Math, p: int)
    ensures RankWeightedAverage(VirtualSamples(m, p), AveragedCount)
      == p as real + RankWeightedAverage(VirtualSamples(m, 0), AveragedCount)
  {
    VirtualSampleShift(m, p);
    RankWeightedAverageShift(VirtualSamples(m, p), VirtualSamples(m, 0), p as real, AveragedCount);
  }

  /**
   * The estimate from a single contest is its performance minus a fixed
   * offset: the average of a single contest of performance 0.
   */
  lemma SingleContestShift(m: Math, p: int)
    requires ExpLaws(m)
    ensures HeuristicAverage(m, [p]) == p as real + HeuristicAverage(m, [0])
  {
    SingleContestAverage(m, p);
    SingleContestAverage(m, 0);
    VirtualAverageShift(m, p);
  }

  lemma DivideShift(p: real, s: real, w: real)
    requires w > 0.0
    ensures (p * w + s) / w == p + s / w
  {
    assert (p + s / w) * w == p * w + s;
  }
}
