/**
 * The comfort service: a score out of 100 for a city's weather, and the
 * ranking of a batch of cities by that score.
 */
module ComfortService {
  import opened Wrappers
  import opened Rounding
  import opened Models
  import opened Lists
  import StableSort

  const OptimalTemp: real := 22.0
  const OptimalHumidity: real := 50.0
  const OptimalWind: real := 3.0

  function Abs(x: real): real {
    if x < 0.0 then -x else x
  }

  function Max(a: real, b: real): real {
    if a < b then b else a
  }

  // ---------------------------------------------------------------------
  // CalculateScore
  // ---------------------------------------------------------------------

  /** Temperature part: 40 points, 4 lost per degree away from 22 degrees C. */
  function TemperatureScore(temperature: real): (s: real)
    ensures 0.0 <= s <= 40.0
    ensures s == 40.0 <==> temperature == OptimalTemp
  {
    Max(0.0, 40.0 - Abs(temperature - OptimalTemp) * 4.0)
  }

  /** Humidity part: 30 points, one lost per 2 percent away from 50 percent. */
  function HumidityScore(humidity: int): (s: real)
    ensures 0.0 <= s <= 30.0
    ensures s == 30.0 <==> humidity as real == OptimalHumidity
  {
    Max(0.0, 30.0 - Abs(humidity as real - OptimalHumidity) * 0.5)
  }

  /** Wind part: 30 points, 10 lost per m/s away from 3 m/s. */
  function WindScore(windSpeed: real): (s: real)
    ensures 0.0 <= s <= 30.0
    ensures s == 30.0 <==> windSpeed == OptimalWind
  {
    Max(0.0, 30.0 - Abs(windSpeed - OptimalWind) * 10.0)
  }

  /** The sum of the three parts, before rounding. */
  function RawScore(r: WeatherReading): (s: real)
    ensures 0.0 <= s <= 100.0
    ensures s == 100.0 <==>
      r.temperature == OptimalTemp && r.humidity as real == OptimalHumidity && r.windSpeed == OptimalWind
  {
    TemperatureScore(r.temperature) + HumidityScore(r.humidity) + WindScore(r.windSpeed)
  }

  /**
   * CalculateScore: the three parts summed and rounded to one decimal place.
   * The result is the sum rounded by Round1 (the nearest tenth, an even number
   * of tenths on an exact tie): a whole number of tenths in [0, 100], within
   * 0.05 of the unrounded sum.
   */
  function CalculateScore(r: WeatherReading): (score: real)
    ensures score == Round1(RawScore(r))
    ensures 0.0 <= score <= 100.0
    ensures IsTenths(score)
    ensures -0.05 <= score - RawScore(r) <= 0.05
  {
    Round1StaysInRange(RawScore(r));
    Round1(RawScore(r))
  }

  /** 22 degrees, 50 percent humidity and 3 m/s wind score the maximum, 100. */
  lemma PerfectWeatherScoresHundred(r: WeatherReading)
    requires r.temperature == 22.0 && r.humidity == 50 && r.windSpeed == 3.0
    ensures CalculateScore(r) == 100.0
  {
    Round1OfTenths(100.0);
  }

  /** Cloud cover, visibility, pressure, description, name and id play no part in the score. */
  lemma ScoreUsesOnlyTemperatureHumidityWind(a: WeatherReading, b: WeatherReading)
    requires a.temperature == b.temperature && a.humidity == b.humidity && a.windSpeed == b.windSpeed
    ensures CalculateScore(a) == CalculateScore(b)
  {
  }

  /** Moving the temperature farther from 22 degrees, all else equal, never raises the score. */
  lemma {:induction false} TemperatureFartherNeverScoresHigher(r: WeatherReading, t: real)
    requires Abs(t - OptimalTemp) >= Abs(r.temperature - OptimalTemp)
    ensures CalculateScore(r.(temperature := t)) <= CalculateScore(r)
  {
    assert RawScore(r.(temperature := t)) <= RawScore(r);
    Round1Monotone(RawScore(r.(temperature := t)), RawScore(r));
  }

  /** Moving the humidity farther from 50 percent, all else equal, never raises the score. */
  lemma {:induction false} HumidityFartherNeverScoresHigher(r: WeatherReading, h: int)
    requires Abs(h as real - OptimalHumidity) >= Abs(r.humidity as real - OptimalHumidity)
    ensures CalculateScore(r.(humidity := h)) <= CalculateScore(r)
  {
    assert RawScore(r.(humidity := h)) <= RawScore(r);
    Round1Monotone(RawScore(r.(humidity := h)), RawScore(r));
  }

  /** Moving the wind speed farther from 3 m/s, all else equal, never raises the score. */
  lemma {:induction false} WindFartherNeverScoresHigher(r: WeatherReading, w: real)
    requires Abs(w - OptimalWind) >= Abs(r.windSpeed - OptimalWind)
    ensures CalculateScore(r.(windSpeed := w)) <= CalculateScore(r)
  {
    assert RawScore(r.(windSpeed := w)) <= RawScore(r);
    Round1Monotone(RawScore(r.(windSpeed := w)), RawScore(r));
  }

  /** The humidity part is symmetric about 50 percent: 50 - d and 50 + d score the same. */
  lemma HumiditySymmetric(r: WeatherReading, d: int)
    ensures CalculateScore(r.(humidity := 50 - d)) == CalculateScore(r.(humidity := 50 + d))
  {
    assert RawScore(r.(humidity := 50 - d)) == RawScore(r.(humidity := 50 + d));
  }

  /** The scores of the unit-test scenarios, computed from the formula. */
  lemma {:induction false} ScenarioScores(r: WeatherReading)
    ensures CalculateScore(r.(temperature := 22.0, humidity := 50, windSpeed := 3.0)) == 100.0
    ensures CalculateScore(r.(temperature := 35.0, humidity := 90, windSpeed := 1.0)) == 20.0
    ensures CalculateScore(r.(temperature := 30.0, humidity := 80, windSpeed := 2.0)) == 43.0
    ensures CalculateScore(r.(temperature := 27.0, humidity := 65, windSpeed := 2.0)) == 62.5
    ensures CalculateScore(r.(temperature := -10.0, humidity := 90, windSpeed := 15.0)) == 10.0
    ensures CalculateScore(r.(temperature := 50.0, humidity := 10, windSpeed := 0.0)) == 10.0
    ensures CalculateScore(r.(temperature := 22.0, humidity := 25, windSpeed := 3.0)) == 87.5
    ensures CalculateScore(r.(temperature := 22.0, humidity := 75, windSpeed := 3.0)) == 87.5
  {
    Round1OfTenths(100.0);
    Round1OfTenths(20.0);
    Round1OfTenths(43.0);
    Round1OfTenths(62.5);
    Round1OfTenths(10.0);
    Round1OfTenths(87.5);
  }

  // ---------------------------------------------------------------------
  // RankCities
  // ---------------------------------------------------------------------

  /** Sorting by descending score is sorting by ascending negated score. */
  function Negated(scores: seq<real>): (key: seq<real>)
    ensures |key| == |scores|
    ensures forall k :: 0 <= k < |scores| ==> key[k] == -scores[k]
  {
    seq(|scores|, k requires 0 <= k < |scores| => -scores[k])
  }

  /**
   * `OrderByDescending(c => c.ComfortScore)`: the positions of the list from the
   * highest score to the lowest, equal scores in list order.
   */
  function RankingOrder(scores: seq<real>): (order: seq<nat>)
    ensures StableSort.SortedPermutation(Negated(scores), order)
  {
    StableSort.SortIndices(Negated(scores))
  }

  /** City `a` is ranked ahead of city `b`: a higher score, or the same score earlier in the list. */
  predicate Beats(scores: seq<real>, a: nat, b: nat)
    requires a < |scores| && b < |scores|
  {
    scores[a] > scores[b] || (scores[a] == scores[b] && a < b)
  }

  /**
   * The rank a city should get: one more than the number of cities that beat it.
   * Ranks run from 1 to the number of cities.
   */
  function RankOf(scores: seq<real>, j: nat): (rank: nat)
    requires j < |scores|
    ensures 1 <= rank <= |scores|
  {
    var order := RankingOrder(scores);
    assert j in order;
    var p :| 0 <= p < |order| && order[p] == j;
    StableSort.PositionIsPrecedingCount(Negated(scores), order, p);
    1 + StableSort.PrecedingCount(Negated(scores), j)
  }

  /** The city at position `p` of the descending order gets rank p + 1. */
  lemma RankIsPosition(scores: seq<real>, p: nat)
    requires p < |scores|
    ensures RankingOrder(scores)[p] < |scores|
    ensures RankOf(scores, RankingOrder(scores)[p]) == p + 1
  {
    StableSort.PositionIsPrecedingCount(Negated(scores), RankingOrder(scores), p);
  }

  /** The position of city `j` in the descending order. */
  lemma PositionOf(scores: seq<real>, j: nat) returns (p: nat)
    requires j < |scores|
    ensures p < |scores| && RankingOrder(scores)[p] == j && RankOf(scores, j) == p + 1
  {
    var order := RankingOrder(scores);
    assert j in order;
    p :| 0 <= p < |order| && order[p] == j;
    RankIsPosition(scores, p);
  }

  /** A city gets a smaller rank than another exactly when it beats it. */
  lemma {:induction false} RankOrderMatchesScores(scores: seq<real>, a: nat, b: nat)
    requires a < |scores| && b < |scores|
    ensures RankOf(scores, a) < RankOf(scores, b) <==> Beats(scores, a, b)
  {
    var order := RankingOrder(scores);
    var key := Negated(scores);
    var pa := PositionOf(scores, a);
    var pb := PositionOf(scores, b);
    if pa < pb {
      assert StableSort.Precedes(key, order[pa], order[pb]);
    } else if pb < pa {
      assert StableSort.Precedes(key, order[pb], order[pa]);
    }
  }

  /** The ranks given to the cities of the list. */
  function RanksUsed(scores: seq<real>): set<nat> {
    set j | 0 <= j < |scores| :: RankOf(scores, j)
  }

  /** Ranks are a permutation of 1..N: no two cities share a rank and every rank is used. */
  lemma {:induction false} RanksArePermutation(scores: seq<real>)
    ensures forall a, b :: 0 <= a < b < |scores| ==> RankOf(scores, a) != RankOf(scores, b)
    ensures forall rank :: 1 <= rank <= |scores| ==> rank in RanksUsed(scores)
  {
    forall a, b | 0 <= a < b < |scores| ensures RankOf(scores, a) != RankOf(scores, b) {
      RankOrderMatchesScores(scores, a, b);
      RankOrderMatchesScores(scores, b, a);
    }
    forall rank | 1 <= rank <= |scores| ensures rank in RanksUsed(scores) {
      RankIsPosition(scores, rank - 1);
    }
  }

  /**
   * Cities with equal scores get consecutive ranks: no city with a different
   * score is ranked between two of them.
   */
  lemma {:induction false} TiedCitiesRankConsecutively(scores: seq<real>, a: nat, b: nat, c: nat)
    requires a < |scores| && b < |scores| && c < |scores|
    requires scores[a] == scores[b]
    requires RankOf(scores, a) < RankOf(scores, c) < RankOf(scores, b)
    ensures scores[c] == scores[a]
  {
    RankOrderMatchesScores(scores, a, c);
    RankOrderMatchesScores(scores, c, b);
  }

  /**
   * The rank RankCities writes onto position `j` during its first `i` steps, if
   * any: step i looks up the first city whose id is that of the city at sorted
   * position i, and gives it rank i + 1; a later write replaces an earlier one.
   */
  function LastWrite(ids: seq<int>, order: seq<nat>, j: nat, i: nat): (w: Option<nat>)
    requires i <= |order|
    requires forall p :: 0 <= p < |order| ==> order[p] < |ids|
    ensures w.Some? ==> 1 <= w.value <= i
  {
    if i == 0 then None
    else if IndexOf(ids, ids[order[i - 1]]) == Some(j) then Some(i)
    else LastWrite(ids, order, j, i - 1)
  }

  /** The rank of position `j` after the first `i` steps: the last one written, or the one it had. */
  function RankAfterSteps(ids: seq<int>, order: seq<nat>, ranks: seq<int>, j: nat, i: nat): int
    requires i <= |order| && j < |ranks|
    requires forall p :: 0 <= p < |order| ==> order[p] < |ids|
  {
    match LastWrite(ids, order, j, i)
    case Some(rank) => rank
    case None => ranks[j]
  }

  /** The ranks of the whole list after the first `i` steps. */
  function RanksAfterSteps(ids: seq<int>, order: seq<nat>, ranks: seq<int>, i: nat): (r: seq<int>)
    requires i <= |order| && |ranks| == |ids|
    requires forall p :: 0 <= p < |order| ==> order[p] < |ids|
    ensures |r| == |ranks|
  {
    seq(|ranks|, j requires 0 <= j < |ranks| => RankAfterSteps(ids, order, ranks, j, i))
  }

  /**
   * The ranks RankCities leaves on the list, given its ids, scores and previous
   * ranks: each city either keeps its previous rank or gets one from 1 to N.
   */
  function RanksAfter(ids: seq<int>, scores: seq<real>, ranks: seq<int>): (after: seq<int>)
    requires |ids| == |scores| == |ranks|
    ensures |after| == |ranks|
    ensures forall j :: 0 <= j < |ranks| ==> after[j] == ranks[j] || 1 <= after[j] <= |ranks|
  {
    RanksAfterSteps(ids, RankingOrder(scores), ranks, |scores|)
  }

  /** Before the first step every city has its previous rank. */
  lemma NoStepsNoChange(ids: seq<int>, order: seq<nat>, ranks: seq<int>)
    requires |ranks| == |ids|
    requires forall p :: 0 <= p < |order| ==> order[p] < |ids|
    ensures RanksAfterSteps(ids, order, ranks, 0) == ranks
  {
  }

  lemma {:induction false} LastWriteDistinct(ids: seq<int>, scores: seq<real>, j: nat, i: nat)
    requires |ids| == |scores| && Distinct(ids) && j < |ids| && i <= |ids|
    ensures var order := RankingOrder(scores);
      LastWrite(ids, order, j, i) ==
        if exists p :: 0 <= p < i && order[p] == j
        then Some(RankOf(scores, j)) else None
  {
    var order := RankingOrder(scores);
    if i > 0 {
      LastWriteDistinct(ids, scores, j, i - 1);
      IndexOfDistinct(ids, order[i - 1]);
      if order[i - 1] == j {
        RankIsPosition(scores, i - 1);
      } else if exists p :: 0 <= p < i && order[p] == j {
        var p :| 0 <= p < i && order[p] == j;
        assert p < i - 1;
      }
    }
  }

  /** With pairwise distinct city ids, every city ends up with its rank RankOf. */
  lemma {:induction false} RanksWithDistinctIds(ids: seq<int>, scores: seq<real>, ranks: seq<int>)
    requires |ids| == |scores| == |ranks| && Distinct(ids)
    ensures forall j :: 0 <= j < |ranks| ==> RanksAfter(ids, scores, ranks)[j] == RankOf(scores, j)
  {
    var order := RankingOrder(scores);
    forall j | 0 <= j < |ranks| ensures RanksAfter(ids, scores, ranks)[j] == RankOf(scores, j) {
      LastWriteDistinct(ids, scores, j, |ids|);
      assert j in order;
    }
  }

  lemma {:induction false} LastWriteOnlyFirstOfId(ids: seq<int>, order: seq<nat>, j: nat, i: nat)
    requires i <= |order| && j < |ids|
    requires forall p :: 0 <= p < |order| ==> order[p] < |ids|
    requires IndexOf(ids, ids[j]) != Some(j)
    ensures LastWrite(ids, order, j, i) == None
  {
    if i > 0 {
      LastWriteOnlyFirstOfId(ids, order, j, i - 1);
    }
  }

  /**
   * A city whose id already occurs earlier in the list is never written: every
   * write for that id lands on the earlier entry, so it keeps its previous rank.
   */
  lemma {:induction false} LaterDuplicateKeepsRank(ids: seq<int>, scores: seq<real>, ranks: seq<int>, j: nat)
    requires |ids| == |scores| == |ranks| && j < |ids|
    requires IndexOf(ids, ids[j]) != Some(j)
    ensures RanksAfter(ids, scores, ranks)[j] == ranks[j]
  {
    LastWriteOnlyFirstOfId(ids, RankingOrder(scores), j, |ids|);
  }

  /** Step i gives rank i + 1 to the first city with the id of the city at sorted position i. */
  lemma {:induction false} OneStep(ids: seq<int>, order: seq<nat>, ranks: seq<int>, i: nat, idx: nat)
    requires i < |order| && |ranks| == |ids|
    requires forall p :: 0 <= p < |order| ==> order[p] < |ids|
    requires IndexOf(ids, ids[order[i]]) == Some(idx)
    ensures RanksAfterSteps(ids, order, ranks, i)[idx := i + 1] == RanksAfterSteps(ids, order, ranks, i + 1)
  {
  }

  /** `city.Rank = rank` for the city at position `idx` of a list of distinct objects. */
  method SetRank(cities: seq<CityWeatherResult>, idx: nat, rank: int)
    requires Distinct(cities) && idx < |cities|
    modifies cities[idx]
    ensures Scores(cities) == old(Scores(cities))
    ensures Ranks(cities) == old(Ranks(cities))[idx := rank]
  {
    ghost var before := Ranks(cities);
    cities[idx].rank := rank;
    forall j | 0 <= j < |cities| && j != idx ensures cities[j].rank == before[j] {
      assert cities[j] != cities[idx];
    }
  }

  /**
   * The write-back loop of RankCities: for each sorted position i, give rank
   * i + 1 to the first city in the list with the id of the city at that position.
   */
  method WriteRanks(cities: seq<CityWeatherResult>, order: seq<nat>)
    requires Distinct(cities) && |order| == |cities|
    requires forall p :: 0 <= p < |order| ==> order[p] < |cities|
    modifies cities
    ensures Scores(cities) == old(Scores(cities))
    ensures Ranks(cities) == RanksAfterSteps(Ids(cities), order, old(Ranks(cities)), |order|)
  {
    var ids := Ids(cities);
    ghost var scores0 := Scores(cities);
    ghost var ranks0 := Ranks(cities);
    NoStepsNoChange(ids, order, ranks0);
    for i := 0 to |order|
      invariant Scores(cities) == scores0
      invariant Ranks(cities) == RanksAfterSteps(ids, order, ranks0, i)
    {
      var idx := FirstWithId(ids, order[i]);
      SetRank(cities, idx, i + 1);
      OneStep(ids, order, ranks0, i, idx);
    }
  }

  /** The position of the first city whose id is that of the city at position `p`. */
  function FirstWithId(ids: seq<int>, p: nat): (idx: nat)
    requires p < |ids|
    ensures idx <= p && IndexOf(ids, ids[p]) == Some(idx)
  {
    IndexOf(ids, ids[p]).value
  }

  /**
   * RankCities: sort a copy of the list by descending score (stable), then for
   * each sorted position i give rank i + 1 to the first city in the list with
   * the same id as the city at that position. The list keeps its order and
   * nothing but the ranks changes. The objects in the list are distinct.
   */
  method RankCities(cities: seq<CityWeatherResult>)
    requires Distinct(cities)
    modifies cities
    ensures Scores(cities) == old(Scores(cities))
    ensures Ranks(cities) == RanksAfter(Ids(cities), old(Scores(cities)), old(Ranks(cities)))
  {
    var ranked := RankingOrder(Scores(cities));
    WriteRanks(cities, ranked);
  }

  /** A list already in descending order of score is ranked 1, 2, 3, ... down the list. */
  lemma {:induction false} DescendingScoresRankInListOrder(scores: seq<real>)
    requires forall a, b :: 0 <= a < b < |scores| ==> scores[a] >= scores[b]
    ensures forall p :: 0 <= p < |scores| ==> RankingOrder(scores)[p] == p
    ensures forall j :: 0 <= j < |scores| ==> RankOf(scores, j) == j + 1
  {
    StableSort.SortedInputKeepsOrder(Negated(scores));
    forall j | 0 <= j < |scores| ensures RankOf(scores, j) == j + 1 {
      RankIsPosition(scores, j);
    }
  }

  /** With distinct ids and scores already in descending order, the list is numbered 1..N in place. */
  lemma {:induction false} InOrderListNumberedInPlace(ids: seq<int>, scores: seq<real>, ranks: seq<int>)
    requires |ids| == |scores| == |ranks| && Distinct(ids)
    requires forall a, b :: 0 <= a < b < |scores| ==> scores[a] >= scores[b]
    ensures forall j :: 0 <= j < |ranks| ==> RanksAfter(ids, scores, ranks)[j] == j + 1
  {
    DescendingScoresRankInListOrder(scores);
    RanksWithDistinctIds(ids, scores, ranks);
  }

  /**
   * When every city has the same id, every write lands on the first city, which
   * ends with the last rank, N; all the others keep the rank they had.
   */
  lemma {:induction false} SharedIdWritesOnlyFirst(ids: seq<int>, scores: seq<real>, ranks: seq<int>)
    requires |ids| == |scores| == |ranks| > 0
    requires forall j :: 0 <= j < |ids| ==> ids[j] == ids[0]
    ensures RanksAfter(ids, scores, ranks)[0] == |ranks|
    ensures forall j :: 1 <= j < |ranks| ==> RanksAfter(ids, scores, ranks)[j] == ranks[j]
  {
    var order := RankingOrder(scores);
    var n := |ids|;
    assert IndexOf(ids, ids[order[n - 1]]) == Some(0);
    assert LastWrite(ids, order, 0, n) == Some(n);
    forall j | 1 <= j < n ensures RanksAfter(ids, scores, ranks)[j] == ranks[j] {
      assert IndexOf(ids, ids[j]) == Some(0);
      LaterDuplicateKeepsRank(ids, scores, ranks, j);
    }
  }

  /**
   * The unit test's three cities scored 95.5, 78.2 and 45.1: with ids 1, 2, 3
   * they get ranks 1, 2, 3.
   */
  lemma {:induction false} RankingTestWithIds()
    ensures RanksAfter([1, 2, 3], [95.5, 78.2, 45.1], [0, 0, 0]) == [1, 2, 3]
  {
    InOrderListNumberedInPlace([1, 2, 3], [95.5, 78.2, 45.1], [0, 0, 0]);
  }

  /**
   * The same cities with every id left at its default 0: all three writes land
   * on the first city, which ends with rank 3; the other two keep rank 0.
   */
  lemma {:induction false} RankingTestWithDefaultIds()
    ensures RanksAfter([0, 0, 0], [95.5, 78.2, 45.1], [0, 0, 0]) == [3, 0, 0]
  {
    SharedIdWritesOnlyFirst([0, 0, 0], [95.5, 78.2, 45.1], [0, 0, 0]);
  }
}
