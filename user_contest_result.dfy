/**
 * The pure body of `getUserContestResult`: from a user's contest history and
 * the list of all contests, keep the rated results with a positive
 * performance, in order, and give each a weight.
 *
 * Contests ending after 2024 that last less than a day weigh 0.5; every other
 * result weighs 1, including those whose contest is not in the list.
 *
 * The two fetched lists are parameters, and so is `endYear`, the calendar
 * year in which an `endTime` string falls (`new Date(endTime).getFullYear()`).
 */
module UserContestResult {

  /** One entry of a user's contest history, with the field names the code reads. */
  datatype AtCoderContestResult = AtCoderContestResult(
    isRated: bool,
    place: int,
    oldRating: int,
    newRating: int,
    performance: int,
    innerPerformance: int,
    contestScreenName: string,
    contestName: string,
    contestNameEn: string,
    endTime: string)

  /** A contest, as `fetchAtCoderContests` describes it; `startTime` in epoch milliseconds. */
  datatype AtCoderContest = AtCoderContest(
    contestScreenName: string,
    startTime: int,
    durationSecond: int,
    contestName: string)

  datatype UserContestResult = UserContestResult(performance: int, endTime: string, weight: real)

  datatype Option<T> = None | Some(value: T)

  /** Contests that last at least this long keep the full weight. */
  const FullWeightDuration: int := 24 * 60 * 60

  /** Contests ending in this year or earlier keep the full weight. */
  const LastFullWeightYear: int := 2024

  // ---------------------------------------------------------------------
  // The contest map

  /**
   * `new Map(contests.map((c) => [c.contestScreenName, c]))`: entries are set
   * in list order, so a later contest replaces an earlier one of the same
   * screen name.
   */
  function ContestMap(contests: seq<AtCoderContest>): (cm: map<string, AtCoderContest>)
    ensures forall name :: name in cm ==> cm[name].contestScreenName == name
    ensures |cm| <= |contests|
  {
    if contests == [] then map[]
    else
      var last := contests[|contests| - 1];
      ContestMap(contests[..|contests| - 1])[last.contestScreenName := last]
  }

  /** The index of the last contest named `name`, if any. */
  ghost predicate IsLastNamed(contests: seq<AtCoderContest>, name: string, i: int) {
    && 0 <= i < |contests|
    && contests[i].contestScreenName == name
    && forall j :: i < j < |contests| ==> contests[j].contestScreenName != name
  }

  lemma LastNamedUnique(contests: seq<AtCoderContest>, name: string, i: int, j: int)
    requires IsLastNamed(contests, name, i) && IsLastNamed(contests, name, j)
    ensures i == j
  {
  }

  /** A screen name is in the map exactly when some contest has it. */
  lemma {:induction false} ContestMapDomain(contests: seq<AtCoderContest>, name: string)
    ensures name in ContestMap(contests) <==>
      exists i :: 0 <= i < |contests| && contests[i].contestScreenName == name
  {
    if contests != [] {
      var n := |contests|;
      var init := contests[..n - 1];
      ContestMapDomain(init, name);
      if contests[n - 1].contestScreenName != name {
        if name in ContestMap(init) {
          var i :| 0 <= i < n - 1 && init[i].contestScreenName == name;
          assert contests[i].contestScreenName == name;
        } else {
          forall i | 0 <= i < n
            ensures contests[i].contestScreenName != name
          {
            if i < n - 1 {
              assert contests[i] == init[i];
            }
          }
        }
      }
    }
  }

  /** A screen name in the map is mapped to the last contest that has it. */
  lemma {:induction false} ContestMapValue(contests: seq<AtCoderContest>, name: string)
    requires name in ContestMap(contests)
    ensures exists i :: IsLastNamed(contests, name, i) && ContestMap(contests)[name] == contests[i]
    decreases |contests|
  {
    var n := |contests|;
    var init := contests[..n - 1];
    if contests[n - 1].contestScreenName == name {
      assert IsLastNamed(contests, name, n - 1);
    } else {
      ContestMapValue(init, name);
      var i :| IsLastNamed(init, name, i) && ContestMap(init)[name] == init[i];
      assert IsLastNamed(contests, name, i);
    }
  }

  /** `contestMap.get(name)`. */
  function Get(cm: map<string, AtCoderContest>, name: string): (found: Option<AtCoderContest>)
    ensures found.Some? <==> name in cm
    ensures found.Some? ==> found.value == cm[name]
  {
    if name in cm then Some(cm[name]) else None
  }

  // ---------------------------------------------------------------------
  // Filtering

  /** The filter keeps a result only if it is rated and has a performance of at least 1. */
  predicate IsRatedResult(result: AtCoderContestResult): (kept: bool)
    ensures kept ==> result.isRated && result.performance >= 1
  {
    result.isRated && result.performance > 0
  }

  /** `contestResults.filter((c) => c.isRated && c.performance > 0)`. */
  function RatedResults(contestResults: seq<AtCoderContestResult>): (rated: seq<AtCoderContestResult>)
    ensures |rated| <= |contestResults|
    ensures forall r :: r in rated <==> r in contestResults && IsRatedResult(r)
  {
    if contestResults == [] then []
    else if IsRatedResult(contestResults[0]) then [contestResults[0]] + RatedResults(contestResults[1..])
    else RatedResults(contestResults[1..])
  }

  /** Filtering a concatenation filters each part, keeping the order. */
  lemma {:induction false} RatedResultsAppend(a: seq<AtCoderContestResult>, b: seq<AtCoderContestResult>)
    ensures RatedResults(a + b) == RatedResults(a) + RatedResults(b)
  {
    if a != [] {
      assert (a + b)[1..] == a[1..] + b;
      RatedResultsAppend(a[1..], b);
    } else {
      assert a + b == b;
    }
  }

  /** The filter keeps exactly the rated results, one for one. */
  lemma RatedResultsOfOne(r: AtCoderContestResult)
    ensures RatedResults([r]) == if IsRatedResult(r) then [r] else []
  {
    assert [r][1..] == [];
  }

  // ---------------------------------------------------------------------
  // Weighting

  /**
   * The weight of a result that ended in `endYear` whose contest lookup gave
   * `contestInfo`.
   */
  function ContestWeight(contestInfo: Option<AtCoderContest>, endYear: int): (weight: real)
    ensures weight == 1.0 || weight == 0.5
    ensures endYear <= LastFullWeightYear ==> weight == 1.0
    ensures contestInfo.None? ==> weight == 1.0
    ensures endYear > LastFullWeightYear && contestInfo.Some? ==>
      (weight == 1.0 <==> contestInfo.value.durationSecond >= FullWeightDuration)
  {
    if endYear > LastFullWeightYear && contestInfo.Some? then
      (if contestInfo.value.durationSecond >= FullWeightDuration then 1.0 else 0.5)
    else
      1.0
  }

  /** The record built for one rated result. */
  function ToUserContestResult(cm: map<string, AtCoderContest>, endYear: string -> int, result: AtCoderContestResult): (u: UserContestResult)
    ensures u.performance == result.performance
    ensures u.endTime == result.endTime
  {
    var contestInfo := Get(cm, result.contestScreenName);
    UserContestResult(result.performance, result.endTime, ContestWeight(contestInfo, endYear(result.endTime)))
  }

  function MapResults(cm: map<string, AtCoderContest>, endYear: string -> int, rated: seq<AtCoderContestResult>): (out: seq<UserContestResult>)
    ensures |out| == |rated|
  {
    seq(|rated|, i requires 0 <= i < |rated| => ToUserContestResult(cm, endYear, rated[i]))
  }

  /** `getUserContestResult`, once the two lists have been fetched. */
  function GetUserContestResult(
    contestResults: seq<AtCoderContestResult>,
    contests: seq<AtCoderContest>,
    endYear: string -> int): (out: seq<UserContestResult>)
    ensures |out| == |RatedResults(contestResults)|
    ensures forall i :: 0 <= i < |out| ==>
      && out[i].performance == RatedResults(contestResults)[i].performance
      && out[i].endTime == RatedResults(contestResults)[i].endTime
  {
    var contestMap := ContestMap(contests);
    var ratedResults := RatedResults(contestResults);
    MapResults(contestMap, endYear, ratedResults)
  }

  /** Every output record has a positive performance and a weight of 1 or 0.5. */
  lemma OutputRecords(contestResults: seq<AtCoderContestResult>, contests: seq<AtCoderContest>, endYear: string -> int)
    ensures forall u :: u in GetUserContestResult(contestResults, contests, endYear) ==>
      u.performance > 0 && (u.weight == 1.0 || u.weight == 0.5)
  {
    var out := GetUserContestResult(contestResults, contests, endYear);
    var rated := RatedResults(contestResults);
    forall u | u in out
      ensures u.performance > 0 && (u.weight == 1.0 || u.weight == 0.5)
    {
      var i :| 0 <= i < |out| && out[i] == u;
      assert rated[i] in rated;
    }
  }

  /** Results are processed one at a time: the output for a concatenation is the concatenation of the outputs. */
  lemma {:induction false} OutputAppend(
    a: seq<AtCoderContestResult>, b: seq<AtCoderContestResult>,
    contests: seq<AtCoderContest>, endYear: string -> int)
    ensures GetUserContestResult(a + b, contests, endYear)
      == GetUserContestResult(a, contests, endYear) + GetUserContestResult(b, contests, endYear)
  {
    RatedResultsAppend(a, b);
    MapResultsAppend(ContestMap(contests), endYear, RatedResults(a), RatedResults(b));
  }

  lemma MapResultsAppend(
    cm: map<string, AtCoderContest>, endYear: string -> int,
    x: seq<AtCoderContestResult>, y: seq<AtCoderContestResult>)
    ensures MapResults(cm, endYear, x + y) == MapResults(cm, endYear, x) + MapResults(cm, endYear, y)
  {
    var lhs := MapResults(cm, endYear, x + y);
    var rhs := MapResults(cm, endYear, x) + MapResults(cm, endYear, y);
    forall i | 0 <= i < |lhs|
      ensures lhs[i] == rhs[i]
    {
      if i < |x| {
        assert (x + y)[i] == x[i];
      } else {
        assert (x + y)[i] == y[i - |x|];
      }
    }
  }

  /**
   * The weight of a single rated result, against the contest list itself: 0.5
   * exactly when it ended after 2024 and the last contest listed under its
   * screen name lasted less than a day.
   */
  lemma WeightOfOneResult(r: AtCoderContestResult, contests: seq<AtCoderContest>, endYear: string -> int)
    requires IsRatedResult(r)
    ensures |GetUserContestResult([r], contests, endYear)| == 1
    ensures GetUserContestResult([r], contests, endYear)[0].weight == 0.5 <==>
      && endYear(r.endTime) > LastFullWeightYear
      && exists i :: IsLastNamed(contests, r.contestScreenName, i) && contests[i].durationSecond < FullWeightDuration
  {
    RatedResultsOfOne(r);
    ContestMapDomain(contests, r.contestScreenName);
    var cm := ContestMap(contests);
    var name := r.contestScreenName;
    if name in cm {
      ContestMapValue(contests, name);
      var i :| IsLastNamed(contests, name, i) && cm[name] == contests[i];
      forall j | IsLastNamed(contests, name, j)
        ensures j == i
      {
        LastNamedUnique(contests, name, i, j);
      }
    }
  }
}
