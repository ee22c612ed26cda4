/**
 * The dashboard's client-side view logic: the comfort-band filter, the keyed
 * sort of the filtered list, the band counts of the distribution panel, the
 * "selected or best" city shown in the sidebar, and the click that toggles the
 * selection. All of it works on values: `filter` and the sort of a spread copy
 * build new arrays and leave the fetched list as it was.
 */
module App {
  import opened Wrappers
  import opened Lists
  import StableSort

  /** A city as the client receives it from the API. */
  datatype CityWeatherResult = CityWeatherResult(
    cityId: int,
    cityName: string,
    temperature: real,
    humidity: int,
    windSpeed: real,
    cloudPercentage: int,
    visibility: int,
    pressure: int,
    weatherDescription: string,
    comfortScore: real,
    rank: int)

  datatype FilterOption = All | Excellent | Good | Moderate | Poor

  /** The sort options with a numeric comparator; sorting by name is not part of this model. */
  datatype SortOption = ByRank | ByTemperature | ByComfort | ByHumidity

  /**
   * The filter callback: whether a comfort score belongs to the chosen band.
   * 'all' takes every score; any other option takes exactly the scores whose one
   * band (BandOf) it names.
   */
  function InBand(filterBy: FilterOption, score: real): (inBand: bool)
    ensures filterBy == All ==> inBand
    ensures filterBy != All ==> (inBand <==> BandOf(score) == filterBy)
  {
    match filterBy
    case All => true
    case Excellent => score >= 80.0
    case Good => score >= 60.0 && score < 80.0
    case Moderate => score >= 40.0 && score < 60.0
    case Poor => score < 40.0
  }

  /**
   * The one band a score falls in, read off the thresholds from the top down:
   * never 'all', since every score lies in one of the four bands.
   */
  function BandOf(score: real): (band: FilterOption)
    ensures band != All
  {
    if score >= 80.0 then Excellent
    else if score >= 60.0 then Good
    else if score >= 40.0 then Moderate
    else Poor
  }

  /** The cities whose score lies in a band, in list order. */
  function KeepBand(cities: seq<CityWeatherResult>, band: FilterOption): (kept: seq<CityWeatherResult>)
    ensures |kept| <= |cities|
    ensures forall c :: multiset(kept)[c] == if InBand(band, c.comfortScore) then multiset(cities)[c] else 0
  {
    if cities == [] then []
    else
      var rest := KeepBand(cities[1..], band);
      assert cities == [cities[0]] + cities[1..];
      if InBand(band, cities[0].comfortScore) then [cities[0]] + rest else rest
  }

  lemma ConcatAssociates<T>(a: seq<T>, b: seq<T>, c: seq<T>)
    ensures a + (b + c) == (a + b) + c
  {
  }

  /** The first city is kept or dropped, and the rest filtered after it. */
  lemma KeepBandUnfold(cities: seq<CityWeatherResult>, band: FilterOption)
    requires cities != []
    ensures KeepBand(cities, band)
      == (if InBand(band, cities[0].comfortScore) then [cities[0]] else []) + KeepBand(cities[1..], band)
  {
    var rest := KeepBand(cities[1..], band);
    if !InBand(band, cities[0].comfortScore) {
      assert [] + rest == rest;
    }
  }

  /**
   * The filter keeps list order: filtering a list made of two parts is filtering
   * each part and putting the results in the same order. In particular a city
   * appended to the list is kept, if it is in the band, after everything kept
   * before it.
   */
  lemma {:induction false} KeepBandKeepsOrder(front: seq<CityWeatherResult>, back: seq<CityWeatherResult>, band: FilterOption)
    ensures KeepBand(front + back, band) == KeepBand(front, band) + KeepBand(back, band)
  {
    if front == [] {
      assert front + back == back;
    } else {
      var whole := front + back;
      assert whole[0] == front[0] && whole[1..] == front[1..] + back;
      KeepBandUnfold(whole, band);
      KeepBandUnfold(front, band);
      KeepBandKeepsOrder(front[1..], back, band);
      var head := if InBand(band, front[0].comfortScore) then [front[0]] else [];
      ConcatAssociates(head, KeepBand(front[1..], band), KeepBand(back, band));
    }
  }

  /** The filter step: 'all' keeps the list as it is; any other option keeps one band. */
  function FilterCities(cities: seq<CityWeatherResult>, filterBy: FilterOption): (filtered: seq<CityWeatherResult>)
    ensures filterBy == All ==> filtered == cities
    ensures forall c :: multiset(filtered)[c] == if InBand(filterBy, c.comfortScore) then multiset(cities)[c] else 0
  {
    if filterBy == All then cities else KeepBand(cities, filterBy)
  }

  /** The number of cities in a band, as counted by the distribution panel. */
  function BandCount(cities: seq<CityWeatherResult>, band: FilterOption): nat {
    |KeepBand(cities, band)|
  }

  /** The four band counts of the distribution panel add up to the number of cities listed. */
  lemma {:induction false} BandCountsSumToLength(cities: seq<CityWeatherResult>)
    ensures BandCount(cities, Excellent) + BandCount(cities, Good)
      + BandCount(cities, Moderate) + BandCount(cities, Poor) == |cities|
  {
    if cities != [] {
      BandCountsSumToLength(cities[1..]);
      var band := BandOf(cities[0].comfortScore);
    }
  }

  /**
   * The comparator of each sort option as a key, smaller first: `a.rank - b.rank`
   * sorts by rank ascending, `b.temperature - a.temperature` by temperature
   * descending, `b.comfortScore - a.comfortScore` by score descending and
   * `a.humidity - b.humidity` by humidity ascending.
   */
  function SortKey(c: CityWeatherResult, sortBy: SortOption): real {
    match sortBy
    case ByRank => c.rank as real
    case ByTemperature => -c.temperature
    case ByComfort => -c.comfortScore
    case ByHumidity => c.humidity as real
  }

  /**
   * The comparator passed to `sort`, case by case as written. It is the
   * difference of the two cities' keys, so a negative result (a first) means a
   * smaller key and zero means equal keys.
   */
  function Comparator(a: CityWeatherResult, b: CityWeatherResult, sortBy: SortOption): (d: real)
    ensures d == SortKey(a, sortBy) - SortKey(b, sortBy)
    ensures d < 0.0 <==> SortKey(a, sortBy) < SortKey(b, sortBy)
    ensures d == 0.0 <==> SortKey(a, sortBy) == SortKey(b, sortBy)
  {
    match sortBy
    case ByRank => (a.rank - b.rank) as real
    case ByTemperature => b.temperature - a.temperature
    case ByComfort => b.comfortScore - a.comfortScore
    case ByHumidity => (a.humidity - b.humidity) as real
  }

  function Keys(cities: seq<CityWeatherResult>, sortBy: SortOption): (keys: seq<real>)
    ensures |keys| == |cities|
    ensures forall k :: 0 <= k < |cities| ==> keys[k] == SortKey(cities[k], sortBy)
  {
    seq(|cities|, k requires 0 <= k < |cities| => SortKey(cities[k], sortBy))
  }

  /**
   * Where each position of the sorted copy comes from: `Array.prototype.sort` is
   * stable, so cities that compare equal keep their order.
   */
  function SortOrder(cities: seq<CityWeatherResult>, sortBy: SortOption): (order: seq<nat>)
    ensures StableSort.SortedPermutation(Keys(cities, sortBy), order)
  {
    StableSort.SortIndices(Keys(cities, sortBy))
  }

  /** The sorted copy `[...filtered].sort(comparator)`: a permutation, in key order. */
  function SortCities(cities: seq<CityWeatherResult>, sortBy: SortOption): (sorted: seq<CityWeatherResult>)
    ensures |sorted| == |cities|
    ensures multiset(sorted) == multiset(cities)
    ensures forall p :: 0 <= p < |sorted| ==> sorted[p] == cities[SortOrder(cities, sortBy)[p]]
    ensures forall p, q :: 0 <= p < q < |sorted| ==> SortKey(sorted[p], sortBy) <= SortKey(sorted[q], sortBy)
  {
    var order := SortOrder(cities, sortBy);
    var keys := Keys(cities, sortBy);
    StableSort.ArrangeSortedPermutes(cities, keys);
    var sorted := StableSort.Arrange(cities, order);
    forall p | 0 <= p < |sorted| ensures sorted[p] == cities[order[p]] {
      StableSort.ArrangeAt(cities, order, p);
    }
    forall p, q | 0 <= p < q < |sorted| ensures SortKey(sorted[p], sortBy) <= SortKey(sorted[q], sortBy) {
      assert StableSort.Precedes(keys, order[p], order[q]);
    }
    sorted
  }

  /** The sorted list is in the order the option asks for. */
  lemma {:induction false} SortedByOption(cities: seq<CityWeatherResult>, sortBy: SortOption, p: nat, q: nat)
    requires p < q < |cities|
    ensures var sorted := SortCities(cities, sortBy);
      match sortBy
      case ByRank => sorted[p].rank <= sorted[q].rank
      case ByTemperature => sorted[p].temperature >= sorted[q].temperature
      case ByComfort => sorted[p].comfortScore >= sorted[q].comfortScore
      case ByHumidity => sorted[p].humidity <= sorted[q].humidity
  {
    var order := SortOrder(cities, sortBy);
    assert StableSort.Precedes(Keys(cities, sortBy), order[p], order[q]);
  }

  /** Cities that compare equal keep the order they had in the list. */
  lemma {:induction false} SortIsStable(cities: seq<CityWeatherResult>, sortBy: SortOption, p: nat, q: nat)
    requires p < q < |cities|
    requires SortKey(SortCities(cities, sortBy)[p], sortBy) == SortKey(SortCities(cities, sortBy)[q], sortBy)
    ensures SortOrder(cities, sortBy)[p] < SortOrder(cities, sortBy)[q]
  {
    var order := SortOrder(cities, sortBy);
    assert StableSort.Precedes(Keys(cities, sortBy), order[p], order[q]);
  }

  /**
   * getFilteredAndSortedData: the cities of the chosen band, each as often as in
   * the fetched list, in the order the chosen option asks for.
   */
  function GetFilteredAndSortedData(cities: seq<CityWeatherResult>, filterBy: FilterOption, sortBy: SortOption)
    : (shown: seq<CityWeatherResult>)
    ensures forall c :: multiset(shown)[c] == if InBand(filterBy, c.comfortScore) then multiset(cities)[c] else 0
    ensures filterBy == All ==> multiset(shown) == multiset(cities)
    ensures forall p, q :: 0 <= p < q < |shown| ==> SortKey(shown[p], sortBy) <= SortKey(shown[q], sortBy)
  {
    SortCities(FilterCities(cities, filterBy), sortBy)
  }

  /** Every city of the chosen band is shown, and nothing else. */
  lemma ShownExactlyTheBand(cities: seq<CityWeatherResult>, filterBy: FilterOption, sortBy: SortOption, c: CityWeatherResult)
    ensures c in GetFilteredAndSortedData(cities, filterBy, sortBy) <==> c in cities && InBand(filterBy, c.comfortScore)
  {
    var shown := GetFilteredAndSortedData(cities, filterBy, sortBy);
    assert c in shown <==> multiset(shown)[c] > 0;
    assert c in cities <==> multiset(cities)[c] > 0;
  }

  /**
   * The city ids of the client's list. The client receives plain values, not
   * the backend's result objects, so this is a function of its own.
   */
  function Ids(cities: seq<CityWeatherResult>): (ids: seq<int>)
    ensures |ids| == |cities|
    ensures forall k :: 0 <= k < |cities| ==> ids[k] == cities[k].cityId
  {
    seq(|cities|, k requires 0 <= k < |cities| => cities[k].cityId)
  }

  /**
   * `reduce((prev, current) => prev.comfortScore > current.comfortScore ? prev : current)`
   * over the first `n` cities: a city with the highest score, the last such on a
   * tie, since an equal score replaces the one kept.
   */
  function BestIndex(cities: seq<CityWeatherResult>, n: nat): (best: nat)
    requires 0 < n <= |cities|
    ensures best < n
    ensures forall k :: 0 <= k < n ==> cities[k].comfortScore <= cities[best].comfortScore
    ensures forall k :: best < k < n ==> cities[k].comfortScore < cities[best].comfortScore
  {
    if n == 1 then 0
    else
      var prev := BestIndex(cities, n - 1);
      if cities[prev].comfortScore > cities[n - 1].comfortScore then prev else n - 1
  }

  /**
   * The city shown in the sidebar: the first city with the selected id, if any;
   * otherwise the best-scoring city; nothing when the list is empty.
   */
  function SelectedCity(cities: seq<CityWeatherResult>, selectedId: Option<int>): (shown: Option<CityWeatherResult>)
    ensures shown.None? <==> |cities| == 0
    ensures selectedId.Some? && selectedId.value in Ids(cities) ==>
      shown.Some? && shown.value.cityId == selectedId.value
    ensures shown.Some? ==> shown.value in cities
    ensures shown.Some? && (selectedId.None? || selectedId.value !in Ids(cities)) ==>
      forall c :: c in cities ==> c.comfortScore <= shown.value.comfortScore
  {
    var found := if selectedId.Some? then IndexOf(Ids(cities), selectedId.value) else None;
    if found.Some? then Some(cities[found.value])
    else if |cities| > 0 then Some(cities[BestIndex(cities, |cities|)])
    else None
  }

  /** When the selection matches a city, the sidebar shows the first city with that id. */
  lemma {:induction false} SelectedCityIsFirstWithId(cities: seq<CityWeatherResult>, id: int, k: nat)
    requires k < |cities| && cities[k].cityId == id
    requires forall j :: 0 <= j < k ==> cities[j].cityId != id
    ensures SelectedCity(cities, Some(id)) == Some(cities[k])
  {
    assert Ids(cities)[k] == id;
  }

  /**
   * With no usable selection, the sidebar shows the city at BestIndex, which
   * lies at or after every city of the highest score: on a tie the last one wins.
   */
  lemma {:induction false} BestIsLastOfTied(cities: seq<CityWeatherResult>, selectedId: Option<int>, b: nat)
    requires b < |cities|
    requires selectedId.None? || selectedId.value !in Ids(cities)
    requires forall k :: 0 <= k < |cities| ==> cities[k].comfortScore <= cities[b].comfortScore
    ensures SelectedCity(cities, selectedId) == Some(cities[BestIndex(cities, |cities|)])
    ensures b <= BestIndex(cities, |cities|)
  {
    if selectedId.Some? {
      assert IndexOf(Ids(cities), selectedId.value).None?;
    }
  }

  /** A click on a city: clicking the selected city clears the selection, any other selects it. */
  function ToggleSelection(selectedId: Option<int>, clicked: int): (next: Option<int>)
    ensures next.None? <==> selectedId == Some(clicked)
    ensures next.Some? ==> next.value == clicked
  {
    if selectedId == Some(clicked) then None else Some(clicked)
  }

  /** Two clicks on the same city undo each other, starting from that city or from no selection. */
  lemma ClickTwiceRestores(selectedId: Option<int>, clicked: int)
    requires selectedId.None? || selectedId == Some(clicked)
    ensures ToggleSelection(ToggleSelection(selectedId, clicked), clicked) == selectedId
  {
  }
}
