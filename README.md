# AtCoder rating estimator, in Dafny

This project models the core of atcoder-rating-estimator. The estimator takes a user's AtCoder contest history and estimates the user's rating. The model covers:

- **Rating correction.** `applyRatingCorrection` keeps ratings below 400 positive (`400 / exp((400 - r) / 400)`). `inverseRatingCorrection` undoes it.
- **Algorithm rating.** `calculateAlgorithmRating` works as follows:
  - each performance `p` is mapped to `g(p) = 2^(p/800)`;
  - the values are averaged with weights `1, 0.9, 0.81, …`, where the newest contest weighs 1;
  - the average is mapped back by `gInv(y) = 800 log2(y)`;
  - the short-history penalty `f(n)` is subtracted, and the correction is applied.
- **Heuristic rating.** `calculateHeuristicRating` works as follows:
  - every performance is expanded into 100 virtual performances `p - S log(j + 1)`;
  - all of them are sorted from best to worst;
  - the 100 best are averaged with weights `R^1 … R^100`, and the correction is applied.
- **Rating colour.** `getRatingColor` is the colour table, in bands 400 wide.
- **Contest results.** This is the pure part of `getUserContestResult`:
  - keep the rated results that have a positive performance, in order;
  - look each one up in a map from contest screen name to contest;
  - give it weight 0.5 when it ended after 2024 in a contest shorter than a day, and 1 otherwise.

Arithmetic is over exact reals. The functions `Math.exp`, `Math.log`, `Math.log2`, `Math.pow(2, ·)` and `Math.sqrt` are function-valued parameters, bundled in `JsMath.Math`; subset types give their domains. The lemmas assume only a few laws about them:

- `exp(0) = 1`, `exp` strictly increasing, `exp(log x) = x`;
- `2^x` strictly increasing, `2^(log2 y) = y`;
- `sqrt(x)^2 = x`.

Integer powers such as `Math.pow(0.9, i)` and `R ** (i + 1)` are computed exactly by `JsMath.Pow`. The geometric sums are `JsMath.SeriesSum`.

The source's loops are methods proved equal to specification functions:

- `weightedGSum` is `DecayedGSum`;
- `weightSum` is `SeriesSum(0.9, 0, n)`;
- `F`'s numerator and denominator are `SeriesSum(0.81, 1, n + 1)` and `SeriesSum(0.9, 1, n + 1)`;
- the heuristic sums are `RankWeightedSum` and `SeriesSum(R, 1, 101)`.

Lemmas then state what those functions promise. An empty heuristic history is not rejected: as in the code, it yields `NaN`, which `CalculateRating.Outcome` represents.

## Model

| member | source | states |
|---|---|---|
| CalculateRating.Performances | src/lib/calculateRating.ts:41 | one performance per contest result, in the same order |
| CalculateRating.Reverse | src/lib/calculateRating.ts:41 | `reverse()` puts the last element first: `r[i] == s[n-1-i]` |
| CalculateRating.ApplyRatingCorrection | src/lib/calculateRating.ts:3-8 | the corrected rating is always positive |
| CalculateRating.InverseRatingCorrection | src/lib/calculateRating.ts:10-15 | from 400 upwards the inverse returns its argument; below 400 it returns a value below 400, and from 400 upwards one of at least 400 |
| CalculateRating.CorrectionIdentityFrom400 | src/lib/calculateRating.ts:3-15 | from 400 upwards both the correction and its inverse return their argument |
| CalculateRating.CorrectionBelow400 | src/lib/calculateRating.ts:4-5 | a rating below 400 is corrected to a value strictly between 0 and 400 |
| CalculateRating.CorrectionKeepsThresholdSide | src/lib/calculateRating.ts:3-8 | a corrected rating is below 400 if and only if the raw rating is |
| CalculateRating.CorrectionStrictlyIncreasing | src/lib/calculateRating.ts:3-8 | the correction is strictly increasing, so it is one-to-one and keeps order |
| CalculateRating.CorrectionContinuousAt400 | src/lib/calculateRating.ts:3-8 | the two branches meet at 400: for every `eps > 0` some `delta > 0` keeps every rating within `delta` of 400 corrected to within `eps` of 400 |
| CalculateRating.CorrectionNear400 | src/lib/calculateRating.ts:4-5 | a rating below 400 but above `400 - 400 log(400 / (400 - eps))` is corrected above `400 - eps` |
| CalculateRating.InverseAfterCorrection | src/lib/calculateRating.ts:3-15 | `inverseRatingCorrection(applyRatingCorrection(r)) == r` for every rating `r` |
| CalculateRating.CorrectionAfterInverse | src/lib/calculateRating.ts:3-15 | for every positive corrected rating `c`, `applyRatingCorrection(inverseRatingCorrection(c)) == c` |
| AlgorithmRating.G | src/lib/calculateRating.ts:36 | `g(x) = 2^(x / 800)` is positive, and `gInv(g(x)) == x` |
| AlgorithmRating.GInv | src/lib/calculateRating.ts:37 | `g(gInv(y)) == y` for every positive `y` |
| AlgorithmRating.GMonotonic | src/lib/calculateRating.ts:36 | `g` keeps order |
| AlgorithmRating.DecayedGSumPositive | src/lib/calculateRating.ts:42-46 | the weighted sum of a non-empty history is positive, so `gInv` is defined on the average |
| AlgorithmRating.DecayedGSumPrepend | src/lib/calculateRating.ts:41-46 | in a history of `n + 1` contests the oldest weighs `0.9^n` |
| AlgorithmRating.SuffixStep | src/lib/calculateRating.ts:42-45 | one loop step adds the contest `i` places before the newest, with weight `0.9^i` |
| AlgorithmRating.NewestContestWeighsOne | src/lib/calculateRating.ts:41-46 | appending a contest adds it with weight 1 and scales every older weight, and the weight total, by 0.9 |
| AlgorithmRating.WeightSumClosedForm | src/lib/calculateRating.ts:42-46 | `weightSum = 1 + 0.9 + … + 0.9^(n-1) = 10 (1 - 0.9^n)` |
| AlgorithmRating.ComputeSampleRatio | src/lib/calculateRating.ts:24-32 | the loop of `F` computes `sqrt(Σ_{i=1..n} 0.81^i) / Σ_{i=1..n} 0.9^i` |
| AlgorithmRating.NumeratorClosedForm | src/lib/calculateRating.ts:27-28 | `0.19 Σ_{i=1..n} 0.81^i = 0.81 (1 - 0.9^(2n))` |
| AlgorithmRating.DenominatorClosedForm | src/lib/calculateRating.ts:27-29 | `Σ_{i=1..n} 0.9^i = 9 (1 - 0.9^n)` |
| AlgorithmRating.SampleRatio | src/lib/calculateRating.ts:24-32 | `F(n)` is non-negative and satisfies the closed form `19 F(n)^2 (1 - 0.9^n) = 1 + 0.9^n` |
| AlgorithmRating.SampleRatioLimit | src/lib/calculateRating.ts:33 | `FInf` is non-negative, `19 FInf^2 = 1` and `FInf < 1` |
| AlgorithmRating.SampleRatioOfOne | src/lib/calculateRating.ts:24-32 | `F(1) = 1`, so the divisor `F(1) - FInf` of `f` is positive |
| AlgorithmRating.SampleCorrection | src/lib/calculateRating.ts:23-35 | `0 < f(n) <= 1200` for every `n >= 1`, and `f(1) = 1200` exactly |
| AlgorithmRating.SampleRatioDecreasing | src/lib/calculateRating.ts:23-33 | `F(n + 1) < F(n)` |
| AlgorithmRating.SampleCorrectionDecreasing | src/lib/calculateRating.ts:23-35 | `f(n + 1) < f(n)`: every further contest lowers the penalty |
| AlgorithmRating.ComputeSampleCorrection | src/lib/calculateRating.ts:23-35 | computes `f(n)`, which lies in `(0, 1200]` |
| AlgorithmRating.CalculateAlgorithmRating | src/lib/calculateRating.ts:19-51 | throws "performances is empty" exactly on an empty history; otherwise returns `applyRatingCorrection(gInv(weightedGSum / weightSum) - f(n))`, where the loop's sums are the decayed `g` sum and the weight sum, and the rating is positive |
| AlgorithmRating.SumDecayedWeights | src/lib/calculateRating.ts:39-47 | over the reversed history, the loop's `weightedGSum` is the decayed `g` sum of the history and `weightSum` is `Σ_{i<n} 0.9^i` |
| AlgorithmRating.DecayedGSumAtMost | src/lib/calculateRating.ts:42-46 | if no `g` value exceeds `ghi`, then `weightedGSum <= ghi * weightSum` |
| AlgorithmRating.DecayedGSumAtLeast | src/lib/calculateRating.ts:42-46 | if no `g` value is below `glo`, then `glo * weightSum <= weightedGSum` |
| AlgorithmRating.GBounds | src/lib/calculateRating.ts:36 | performances in `[lo, hi]` have `g` values in `[g(lo), g(hi)]` |
| AlgorithmRating.DecayedAverageBounds | src/lib/calculateRating.ts:42-48 | `weightedGSum / weightSum` lies between the least and the greatest `g` value |
| AlgorithmRating.AverageWithinPerformances | src/lib/calculateRating.ts:39-48 | `gInv(weightedGSum / weightSum)` lies between the lowest and the highest performance |
| AlgorithmRating.ConstantHistory | src/lib/calculateRating.ts:39-50 | a history of equal performances `p` averages to `p`, and its estimate is `applyRatingCorrection(p - f(n))` |
| AlgorithmRating.AppendingLargestG | src/lib/calculateRating.ts:39-48 | appending a contest whose `g` value is at least every earlier one never lowers `weightedGSum / weightSum`, which stays at most that value |
| AlgorithmRating.AppendingBestPerformance | src/lib/calculateRating.ts:39-48 | appending a performance at least as high as every earlier one never lowers the average, which stays at most that performance |
| DescendingSort.Insert | src/lib/calculateRating.ts:60 | inserting into a non-increasing list keeps it non-increasing and adds exactly the new element |
| DescendingSort.Sort | src/lib/calculateRating.ts:60 | `sort((a, b) => b - a)` returns a non-increasing permutation of its input |
| DescendingSort.HeadIsMaximum | src/lib/calculateRating.ts:60 | the first element of the sorted list is at least every element |
| DescendingSort.SortedPermutationUnique | src/lib/calculateRating.ts:60 | any two non-increasing permutations of the same list are equal, so every correct sort gives the same result |
| HeuristicRating.VirtualSamples | src/lib/calculateRating.ts:59 | each performance yields exactly 100 virtual performances |
| HeuristicRating.FirstVirtualSample | src/lib/calculateRating.ts:59 | the virtual performance with `j = 0` is the performance itself, since `log 1 = 0` |
| HeuristicRating.VirtualSamplesStrictlyDescending | src/lib/calculateRating.ts:59 | the virtual performances strictly decrease in `j`, and none exceeds the performance |
| HeuristicRating.Expand | src/lib/calculateRating.ts:57-59 | the `flatMap` has exactly `100 n` entries |
| HeuristicRating.ExpandContains | src/lib/calculateRating.ts:57-59 | the `flatMap` contains every virtual performance of every contest |
| HeuristicRating.ExpandOnly | src/lib/calculateRating.ts:57-59 | every entry of the `flatMap` is a virtual performance of some contest |
| HeuristicRating.Extended | src/lib/calculateRating.ts:57-60 | `extendedPerformances` has `100 n` entries, is non-increasing, and is a permutation of the expansion |
| HeuristicRating.ExtendedHeadIsBestPerformance | src/lib/calculateRating.ts:57-60 | `extendedPerformances[0]` is the highest performance of the history |
| HeuristicRating.SingleContestExtended | src/lib/calculateRating.ts:57-60 | with one contest, the extended list is exactly that contest's 100 virtual performances, in order |
| HeuristicRating.ExpandAppend | src/lib/calculateRating.ts:57-59 | the `flatMap` of a concatenation is the concatenation of the `flatMap`s |
| HeuristicRating.ExpandRemove | src/lib/calculateRating.ts:57-59 | removing contest `i` removes exactly its 100 virtual performances from the `flatMap` |
| HeuristicRating.ExpandPermutation | src/lib/calculateRating.ts:57-59 | permuted histories have `flatMap`s that are permutations of each other |
| HeuristicRating.HeuristicOrderIrrelevant | src/lib/calculateRating.ts:57-71 | the sort makes the order of the history irrelevant: permuted histories give the same `extendedPerformances` and the same weighted average |
| HeuristicRating.SumBestSamples | src/lib/calculateRating.ts:62-69 | run for `count` steps (100 in the source), the loop reads past the end exactly when fewer than `count` entries exist; otherwise `ratingDenominator = Σ_{i<count} ext[i] R^(i+1)`; always `ratingNumerator = Σ_{i<count} R^(i+1)` |
| HeuristicRating.CalculateHeuristicRating | src/lib/calculateRating.ts:53-74 | `NaN` exactly for an empty history; otherwise the correction of the weighted average of the 100 best extended performances, which is positive |
| HeuristicRating.RankWeightedSumBounds | src/lib/calculateRating.ts:65-69 | if the first `k` entries lie in `[lo, hi]`, the weighted sum lies between `lo` and `hi` times the weight total |
| HeuristicRating.RankWeightedAverageBounds | src/lib/calculateRating.ts:62-71 | the weighted average of the first `k` entries of a non-increasing list lies between its `k`-th and its first entry |
| HeuristicRating.HeuristicAverageBounds | src/lib/calculateRating.ts:57-71 | `extended[99] <= ratingDenominator / ratingNumerator <= extended[0]`, and the value never exceeds the best performance |
| HeuristicRating.RankWeightedSumShift | src/lib/calculateRating.ts:65-69 | raising each of the first `k` entries by `c` raises the weighted sum by `c` times the weight total |
| HeuristicRating.RankWeightedAverageShift | src/lib/calculateRating.ts:62-71 | raising each of the first `k` entries by `c` raises their weighted average by exactly `c` |
| HeuristicRating.VirtualSampleShift | src/lib/calculateRating.ts:59 | the virtual performances of `p` are those of performance 0 raised by `p` |
| HeuristicRating.SingleContestAverage | src/lib/calculateRating.ts:57-71 | with one contest the average is taken over that contest's virtual performances |
| HeuristicRating.VirtualAverageShift | src/lib/calculateRating.ts:59-71 | the average of the virtual performances of `p` is `p` plus that of performance 0 |
| HeuristicRating.SingleContestShift | src/lib/calculateRating.ts:57-71 | the estimate from one contest of performance `p` is `p` plus a fixed offset, the estimate for performance 0 |
| RatingColor.GetRatingColor | src/lib/getRatingColor.ts:1-10 | every component is in 0..255; gray exactly below 400, red exactly from 2800 |
| RatingColor.Band | src/lib/getRatingColor.ts:1-10 | the band `floor(rating / 400)` clamped to 0..7: band `k` in 1..6 covers `[400k, 400(k+1))`, band 0 everything below 400, and band 7 everything from 2800 |
| RatingColor.ColorIsBandColor | src/lib/getRatingColor.ts:1-10 | the if-chain returns the palette colour of the rating's band, so exactly one colour applies to every rating |
| RatingColor.PaletteDistinct | src/lib/getRatingColor.ts:2-9 | the eight colours are valid RGB triples and pairwise different |
| RatingColor.SameColorSameBand | src/lib/getRatingColor.ts:2-9 | two ratings get the same colour if and only if they lie in the same band |
| RatingColor.LowerBoundsInclusive | src/lib/getRatingColor.ts:2-8 | bands are closed at the bottom: 400 is brown and 2400 orange |
| RatingColor.BandMonotonic | src/lib/getRatingColor.ts:2-9 | a higher rating never falls in a lower band |
| UserContestResult.ContestMap | src/lib/server/getUserContestResult.ts:12 | every key of the map is the screen name of the contest it maps to, and the map has at most one entry per contest |
| UserContestResult.LastNamedUnique | src/lib/server/getUserContestResult.ts:12 | a screen name has at most one last occurrence in the contest list |
| UserContestResult.ContestMapDomain | src/lib/server/getUserContestResult.ts:12 | a screen name is in the map if and only if some contest has it |
| UserContestResult.ContestMapValue | src/lib/server/getUserContestResult.ts:12 | a screen name in the map maps to the last contest listed with it |
| UserContestResult.Get | src/lib/server/getUserContestResult.ts:17 | `contestMap.get` finds a contest exactly for names in the map |
| UserContestResult.IsRatedResult | src/lib/server/getUserContestResult.ts:14 | a result the filter keeps is rated and has a performance of at least 1 |
| UserContestResult.RatedResults | src/lib/server/getUserContestResult.ts:14 | a result survives the filter if and only if it is rated and has a positive performance |
| UserContestResult.RatedResultsAppend | src/lib/server/getUserContestResult.ts:14 | filtering a concatenation filters each part and keeps the order |
| UserContestResult.RatedResultsOfOne | src/lib/server/getUserContestResult.ts:14 | a single result is kept exactly when it is rated with positive performance |
| UserContestResult.ContestWeight | src/lib/server/getUserContestResult.ts:18-23 | weight is 1 or 0.5. It is 1 when the end year is 2024 or earlier, and 1 when the contest is not found. After 2024, for a found contest, it is 1 exactly when the contest lasts at least 86400 seconds |
| UserContestResult.ToUserContestResult | src/lib/server/getUserContestResult.ts:16-29 | `performance` and `endTime` are copied unchanged |
| UserContestResult.MapResults | src/lib/server/getUserContestResult.ts:16-30 | one output record per rated result |
| UserContestResult.MapResultsAppend | src/lib/server/getUserContestResult.ts:16-30 | mapping a concatenation maps each part, keeping the order |
| UserContestResult.GetUserContestResult | src/lib/server/getUserContestResult.ts:12-30 | one record per rated result in input order, with its performance and end time |
| UserContestResult.OutputRecords | src/lib/server/getUserContestResult.ts:14-23 | every output record has a positive performance and weight 1 or 0.5 |
| UserContestResult.OutputAppend | src/lib/server/getUserContestResult.ts:14-30 | the output for a concatenated history is the concatenation of the outputs |
| UserContestResult.WeightOfOneResult | src/lib/server/getUserContestResult.ts:12-23 | a rated result weighs 0.5 exactly when it ended after 2024 and the last contest listed under its screen name lasted less than a day |

## Left out

- Floating point is not modelled: rounding, overflow, `Infinity` and `NaN` (other than the empty heuristic history) are outside the model. So are the numeric test vectors of `calculateRating.test.ts`, which depend on the floating-point values of the transcendental functions.
- `Math.exp`, `Math.log`, `Math.log2`, `Math.pow(2, ·)` and `Math.sqrt` are not computed. They are parameters, and the lemmas assume only the laws listed above.
- AlgorithmRating.CalculateAlgorithmRating: requires that the square-root parameter is a genuine square root. Otherwise `F(1) - FInf` could be zero, and `f` would divide by it; with the real `Math.sqrt` this always holds.
- CalculateRating.InverseRatingCorrection: requires a positive corrected rating. For 0 or below, the source computes the logarithm of infinity or of a negative number, which is not a real number.
- `calculateHeuristicRatingV2` is imported by `calculateRating.test.ts` but has no definition in `calculateRating.ts`, so it is not modelled. The contest weights of `getUserContestResult` are modelled but feed no estimator here.
- The sort: the comparator `(a, b) => b - a` and the engine's sort algorithm are not modelled. The sort is specified as "a non-increasing permutation", which `SortedPermutationUnique` shows determines the result. The sort in place on the array is modelled on values.
- HeuristicRating.SumBestSamples: the loop of `calculateHeuristicRating` is a separate method over the sorted list, rather than inline in `CalculateHeuristicRating`. Its step count is a parameter, which `CalculateHeuristicRating` sets to 100, the source's constant.
- AlgorithmRating.SumDecayedWeights: likewise, the loop of `calculateAlgorithmRating` is a separate method over the reversed list.
- The fetches are not modelled: `fetchAtCoderContestResults.ts`, `fetchAtCoderContests.ts` and the `await` lines of `getUserContestResult.ts`. Their results are parameters.
- `fetchAtCoderContestResults.ts` declares PascalCase field names (`IsRated`, `Performance`, …), while `getUserContestResult` reads camelCase ones. The model uses the camelCase record of `AtCoderContestResult.ts`, as the code reads it.
- `new Date(endTime).getFullYear()` depends on parsing and on the local time zone, so it is left out. `endYear` is a function parameter giving the year of each `endTime`.
- The API route `src/routes/api/[userId]/[contestType]/+server.ts` is not part of this model, and neither is the build configuration.
