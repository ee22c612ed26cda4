/**
 * The backend's weather service: builds a CityWeatherResult from a provider
 * response, gathers one result per configured city whose code parses and whose
 * fetch succeeds, scores and ranks them, and keeps the list in a cache for five
 * minutes.
 *
 * The HTTP request and the JSON decoding are not modelled: the outcome of
 * fetching one city is a parameter (`fetch`), and so is `int.TryParse` on the
 * configured city code (`parse`). The clock is a parameter too, in seconds.
 */
module WeatherService {
  import opened Wrappers
  import opened Models
  import opened Lists
  import Rounding
  import ComfortService

  /** Visibility arrives in metres; C# `int / 1000` truncates toward zero. */
  function KilometresFromMetres(metres: int): (km: int)
    ensures metres >= 0 ==> 0 <= km && km * 1000 <= metres < km * 1000 + 1000
    ensures metres < 0 ==> km <= 0 && km * 1000 - 1000 < metres <= km * 1000
  {
    if metres >= 0 then metres / 1000 else -((-metres) / 1000)
  }

  /** Whole kilometres convert exactly, whatever their sign. */
  lemma WholeKilometresConvertExactly(km: int)
    ensures KilometresFromMetres(km * 1000) == km
  {
  }

  /** Truncation toward zero is symmetric: a negative distance gives the negated result. */
  lemma {:induction false} KilometresOddInSign(metres: int)
    ensures KilometresFromMetres(-metres) == -KilometresFromMetres(metres)
  {
    if metres > 0 {
      assert -(-metres) == metres;
    }
  }

  /**
   * `weather.Weather.FirstOrDefault()?.Description ?? "Unknown"` for a list that
   * is present: the first condition's description, or "Unknown" when the list is
   * empty, its first entry is null, or that entry has no description.
   */
  function Description(conditions: seq<Option<WeatherCondition>>): (d: string)
    ensures (|conditions| > 0 && conditions[0].Some? && conditions[0].value.description.Some?)
      ==> d == conditions[0].value.description.value
    ensures !(|conditions| > 0 && conditions[0].Some? && conditions[0].value.description.Some?)
      ==> d == "Unknown"
  {
    if |conditions| == 0 then "Unknown"
    else match conditions[0]
      case None => "Unknown"
      case Some(c) =>
        match c.description
        case None => "Unknown"
        case Some(text) => text
  }

  /** Only the first condition matters: anything after it leaves the description alone. */
  lemma DescriptionUsesOnlyFirst(first: Option<WeatherCondition>, rest1: seq<Option<WeatherCondition>>, rest2: seq<Option<WeatherCondition>>)
    ensures Description([first] + rest1) == Description([first] + rest2)
  {
  }

  /**
   * MapToResult: the reading built from a provider response. A response whose
   * "main", "wind" or "clouds" object, or whose "weather" list, is null makes the
   * C# code throw while building the result (a null dereference, or
   * `FirstOrDefault` on a null list); that is None here.
   */
  function MapToResult(response: WeatherResponse): (r: Option<WeatherReading>)
    ensures r.None? <==>
      response.weather.None? || response.main.None? || response.wind.None? || response.clouds.None?
    ensures r.Some? ==>
      && r.value.cityId == response.cityId
      && r.value.cityName == response.cityName
      && r.value.humidity == response.main.value.humidity
      && r.value.pressure == response.main.value.pressure
      && r.value.cloudPercentage == response.clouds.value.cloudPercentage
      && r.value.weatherDescription == Description(response.weather.value)
    ensures r.Some? ==>
      && Rounding.IsTenths(r.value.temperature)
      && -0.05 <= r.value.temperature - response.main.value.temperature <= 0.05
      && Rounding.IsTenths(r.value.windSpeed)
      && -0.05 <= r.value.windSpeed - response.wind.value.speed <= 0.05
    ensures r.Some? ==>
      && r.value.temperature == Rounding.Round1(response.main.value.temperature)
      && r.value.windSpeed == Rounding.Round1(response.wind.value.speed)
      && r.value.visibility == KilometresFromMetres(response.visibility)
  {
    match (response.weather, response.main, response.wind, response.clouds)
    case (Some(conditions), Some(main), Some(wind), Some(clouds)) =>
      Some(WeatherReading(
        cityId := response.cityId,
        cityName := response.cityName,
        temperature := Rounding.Round1(main.temperature),
        humidity := main.humidity,
        windSpeed := Rounding.Round1(wind.speed),
        cloudPercentage := clouds.cloudPercentage,
        visibility := KilometresFromMetres(response.visibility),
        pressure := main.pressure,
        weatherDescription := Description(conditions)))
    case _ => None
  }

  /** A temperature and a wind speed already in tenths pass through MapToResult unchanged. */
  lemma {:induction false} MapToResultKeepsTenths(response: WeatherResponse)
    requires MapToResult(response).Some?
    requires Rounding.IsTenths(response.main.value.temperature)
    requires Rounding.IsTenths(response.wind.value.speed)
    ensures MapToResult(response).value.temperature == response.main.value.temperature
    ensures MapToResult(response).value.windSpeed == response.wind.value.speed
  {
    Rounding.Round1OfTenths(response.main.value.temperature);
    Rounding.Round1OfTenths(response.wind.value.speed);
  }

  /**
   * What fetching one city gives: a decoded response; no data (a status code
   * other than success, or a body that decodes to null); or an exception (the
   * request failed or the body is not valid JSON).
   */
  datatype FetchOutcome = Fetched(response: WeatherResponse) | NoData | Failed

  /**
   * The reading one configured city contributes, if any: its code must parse as
   * an integer, the fetch must return a response, and the response must map.
   * Every other path is skipped (an exception is caught and logged).
   */
  function CityReading(city: City, parse: string -> Option<int>, fetch: int -> FetchOutcome): (r: Option<WeatherReading>)
    ensures r.Some? <==>
      parse(city.cityCode).Some? && fetch(parse(city.cityCode).value).Fetched?
      && MapToResult(fetch(parse(city.cityCode).value).response).Some?
    ensures r.Some? ==> r == MapToResult(fetch(parse(city.cityCode).value).response)
  {
    match parse(city.cityCode)
    case None => None
    case Some(code) =>
      match fetch(code)
      case Fetched(response) => MapToResult(response)
      case _ => None
  }

  /** The readings gathered for a list of configured cities, in list order. */
  function Collect(cities: seq<City>, parse: string -> Option<int>, fetch: int -> FetchOutcome): (readings: seq<WeatherReading>)
    ensures |readings| <= |cities|
  {
    if cities == [] then []
    else
      var earlier := Collect(cities[..|cities| - 1], parse, fetch);
      match CityReading(cities[|cities| - 1], parse, fetch)
      case Some(reading) => earlier + [reading]
      case None => earlier
  }

  /** Every gathered reading is the one some configured city contributed. */
  lemma {:induction false} CollectedReadingsComeFromCities(cities: seq<City>, parse: string -> Option<int>, fetch: int -> FetchOutcome)
    ensures forall r :: r in Collect(cities, parse, fetch) ==>
      exists k :: 0 <= k < |cities| && CityReading(cities[k], parse, fetch) == Some(r)
  {
    if cities != [] {
      var n := |cities| - 1;
      var prefix := cities[..n];
      CollectedReadingsComeFromCities(prefix, parse, fetch);
      forall r | r in Collect(cities, parse, fetch)
        ensures exists k :: 0 <= k < |cities| && CityReading(cities[k], parse, fetch) == Some(r)
      {
        if r in Collect(prefix, parse, fetch) {
          var k :| 0 <= k < |prefix| && CityReading(prefix[k], parse, fetch) == Some(r);
          assert cities[k] == prefix[k];
        } else {
          assert CityReading(cities[n], parse, fetch) == Some(r);
        }
      }
    }
  }

  /** A city that contributes a reading has that reading gathered. */
  lemma {:induction false} ContributingCityGathered(cities: seq<City>, parse: string -> Option<int>, fetch: int -> FetchOutcome, k: nat)
    requires k < |cities| && CityReading(cities[k], parse, fetch).Some?
    ensures CityReading(cities[k], parse, fetch).value in Collect(cities, parse, fetch)
  {
    var n := |cities| - 1;
    if k < n {
      var prefix := cities[..n];
      assert prefix[k] == cities[k];
      ContributingCityGathered(prefix, parse, fetch, k);
    }
  }

  /**
   * Gathering keeps the configured order: the readings of a list made of two
   * parts are those of the first part followed by those of the second.
   */
  lemma {:induction false} CollectAppend(a: seq<City>, b: seq<City>, parse: string -> Option<int>, fetch: int -> FetchOutcome)
    ensures Collect(a + b, parse, fetch) == Collect(a, parse, fetch) + Collect(b, parse, fetch)
  {
    if b == [] {
      assert a + b == a;
    } else {
      var n := |b| - 1;
      assert (a + b)[..|a + b| - 1] == a + b[..n];
      assert (a + b)[|a + b| - 1] == b[n];
      CollectAppend(a, b[..n], parse, fetch);
    }
  }

  /** When every city contributes, the result has one reading per city, in list order. */
  lemma {:induction false} CollectAllSucceed(cities: seq<City>, parse: string -> Option<int>, fetch: int -> FetchOutcome)
    requires forall k :: 0 <= k < |cities| ==> CityReading(cities[k], parse, fetch).Some?
    ensures |Collect(cities, parse, fetch)| == |cities|
    ensures forall k :: 0 <= k < |cities| ==>
      Some(Collect(cities, parse, fetch)[k]) == CityReading(cities[k], parse, fetch)
  {
    if cities != [] {
      var n := |cities| - 1;
      var prefix := cities[..n];
      assert forall k :: 0 <= k < |prefix| ==> prefix[k] == cities[k];
      CollectAllSucceed(prefix, parse, fetch);
    }
  }

  /** When no city contributes, the result is empty. */
  lemma {:induction false} CollectAllFail(cities: seq<City>, parse: string -> Option<int>, fetch: int -> FetchOutcome)
    requires forall k :: 0 <= k < |cities| ==> CityReading(cities[k], parse, fetch).None?
    ensures Collect(cities, parse, fetch) == []
  {
    if cities != [] {
      var n := |cities| - 1;
      var prefix := cities[..n];
      assert forall k :: 0 <= k < |prefix| ==> prefix[k] == cities[k];
      CollectAllFail(prefix, parse, fetch);
    }
  }

  /** The comfort score of each reading, in order. */
  function ComfortScores(readings: seq<WeatherReading>): (scores: seq<real>)
    ensures |scores| == |readings|
    ensures forall k :: 0 <= k < |readings| ==>
      0.0 <= scores[k] <= 100.0 && scores[k] == ComfortService.CalculateScore(readings[k])
  {
    seq(|readings|, k requires 0 <= k < |readings| => ComfortService.CalculateScore(readings[k]))
  }

  /** Rank 0 for each of `n` results: the rank a result is built with. */
  function Unranked(n: nat): (ranks: seq<int>)
    ensures |ranks| == n && forall k :: 0 <= k < n ==> ranks[k] == 0
  {
    seq(n, _ => 0)
  }

  /** One more configured city adds its reading, if it contributes one, at the end. */
  lemma CollectStep(cities: seq<City>, i: nat, parse: string -> Option<int>, fetch: int -> FetchOutcome)
    requires i < |cities|
    ensures Collect(cities[..i + 1], parse, fetch) ==
      Collect(cities[..i], parse, fetch) +
        (match CityReading(cities[i], parse, fetch) case Some(r) => [r] case None => [])
  {
    assert cities[..i + 1][..i] == cities[..i];
  }

  /** Appending a result appends its reading, score and rank to the per-list views. */
  lemma AppendResult(results: seq<CityWeatherResult>, r: CityWeatherResult)
    ensures Readings(results + [r]) == Readings(results) + [r.reading]
    ensures Scores(results + [r]) == Scores(results) + [r.comfortScore]
    ensures Ranks(results + [r]) == Ranks(results) + [r.rank]
    ensures ComfortScores(Readings(results) + [r.reading])
      == ComfortScores(Readings(results)) + [ComfortService.CalculateScore(r.reading)]
    ensures Unranked(|results| + 1) == Unranked(|results|) + [0]
  {
  }

  /**
   * The body of the loop for one city: parse its code, fetch, map and score.
   * A new result with rank 0 when all of that succeeds; None when the city is
   * skipped.
   */
  method FetchCity(city: City, parse: string -> Option<int>, fetch: int -> FetchOutcome)
    returns (result: Option<CityWeatherResult>)
    ensures result.Some? <==> CityReading(city, parse, fetch).Some?
    ensures result.Some? ==>
      && fresh(result.value)
      && Some(result.value.reading) == CityReading(city, parse, fetch)
      && result.value.comfortScore == ComfortService.CalculateScore(result.value.reading)
      && result.value.rank == 0
  {
    result := None;
    var code := parse(city.cityCode);
    if code.Some? {
      var outcome := fetch(code.value);
      if outcome.Fetched? {
        var reading := MapToResult(outcome.response);
        if reading.Some? {
          var r := new CityWeatherResult(reading.value, 0.0, 0);
          r.comfortScore := ComfortService.CalculateScore(r.reading);
          result := Some(r);
        }
      }
    }
  }

  /**
   * The loop of GetAllCitiesWeatherAsync: for each configured city in order,
   * parse its code, fetch, map, score, and append. Every result is a new object
   * with rank 0.
   */
  method FetchAll(cities: seq<City>, parse: string -> Option<int>, fetch: int -> FetchOutcome)
    returns (results: seq<CityWeatherResult>)
    ensures Distinct(results)
    ensures forall k :: 0 <= k < |results| ==> fresh(results[k])
    ensures Readings(results) == Collect(cities, parse, fetch)
    ensures Scores(results) == ComfortScores(Readings(results))
    ensures Ranks(results) == Unranked(|results|)
  {
    results := [];
    for i := 0 to |cities|
      invariant Distinct(results)
      invariant forall k :: 0 <= k < |results| ==> fresh(results[k])
      invariant Readings(results) == Collect(cities[..i], parse, fetch)
      invariant Scores(results) == ComfortScores(Readings(results))
      invariant Ranks(results) == Unranked(|results|)
    {
      CollectStep(cities, i, parse, fetch);
      var result := FetchCity(cities[i], parse, fetch);
      if result.Some? {
        AppendResult(results, result.value);
        results := results + [result.value];
      }
    }
    assert cities[..|cities|] == cities;
  }

  /** The readings, comfort scores and ranks of a list of results, in list order. */
  datatype ResultState = ResultState(readings: seq<WeatherReading>, scores: seq<real>, ranks: seq<int>)

  /** The readings, scores and ranks of a list of result objects, as they stand. */
  function StateOf(results: seq<CityWeatherResult>): (state: ResultState)
    reads results
    ensures state.readings == Readings(results)
    ensures state.scores == Scores(results)
    ensures state.ranks == Ranks(results)
  {
    ResultState(Readings(results), Scores(results), Ranks(results))
  }

  /**
   * What a miss leaves on its results: the readings the configured cities
   * contribute, in configured order, each scored by CalculateScore, and the
   * ranks RankCities writes over rank 0. When those cities have pairwise
   * distinct ids each rank is the city's place in the descending score order.
   */
  function MissState(cities: seq<City>, parse: string -> Option<int>, fetch: int -> FetchOutcome): (state: ResultState)
    ensures state.readings == Collect(cities, parse, fetch)
    ensures |state.scores| == |state.ranks| == |state.readings|
    ensures forall k :: 0 <= k < |state.readings| ==> state.scores[k] == ComfortService.CalculateScore(state.readings[k])
    ensures Distinct(ReadingIds(state.readings)) ==>
      forall j :: 0 <= j < |state.ranks| ==> state.ranks[j] == ComfortService.RankOf(state.scores, j)
  {
    var readings := Collect(cities, parse, fetch);
    var scores := ComfortScores(readings);
    var ids := ReadingIds(readings);
    var ranks := ComfortService.RanksAfter(ids, scores, Unranked(|readings|));
    assert Distinct(ids) ==> forall j :: 0 <= j < |ranks| ==> ranks[j] == ComfortService.RankOf(scores, j) by {
      if Distinct(ids) {
        ComfortService.RanksWithDistinctIds(ids, scores, Unranked(|readings|));
      }
    }
    ResultState(readings, scores, ranks)
  }

  /** The miss path before caching: the loop over the configured cities, then RankCities on the new list. */
  method FetchAndRank(cities: seq<City>, parse: string -> Option<int>, fetch: int -> FetchOutcome)
    returns (results: seq<CityWeatherResult>)
    ensures Distinct(results)
    ensures forall k :: 0 <= k < |results| ==> fresh(results[k])
    ensures StateOf(results) == MissState(cities, parse, fetch)
  {
    results := FetchAll(cities, parse, fetch);
    ComfortService.RankCities(results);
    assert Ids(results) == ReadingIds(Readings(results));
  }

  /** A cached result list and the moment (in seconds) at which it expires. */
  datatype CacheEntry = CacheEntry(results: seq<CityWeatherResult>, expiresAt: int)

  /** The cache entry's absolute expiration: five minutes after it is stored. */
  const CacheLifetimeSeconds: int := 5 * 60

  /**
   * The application's memory cache. It is registered once for the whole
   * application and every WeatherService is built over that same cache, so an
   * entry stored while serving one request is found while serving the next.
   * Only the entry under the service's one key ("WeatherResults") is modelled.
   */
  class MemoryCache {
    var entry: Option<CacheEntry>

    /** The cache the application starts with holds nothing. */
    constructor ()
      ensures entry == None
    {
      entry := None;
    }

    /** `Set` with an absolute expiration: the entry is replaced. */
    method Set(results: seq<CityWeatherResult>, expiresAt: int)
      modifies this
      ensures entry == Some(CacheEntry(results, expiresAt))
    {
      entry := Some(CacheEntry(results, expiresAt));
    }
  }

  class WeatherService {
    /** The configured cities (cities.json), loaded once when the service is built. */
    const cities: seq<City>
    /** The shared cache the service was built over. */
    const cache: MemoryCache
    var lastCacheStatus: string

    /** A new service starts with status "NONE" and leaves the shared cache as it is. */
    constructor (cities: seq<City>, cache: MemoryCache)
      ensures this.cities == cities && this.cache == cache
      ensures lastCacheStatus == "NONE"
    {
      this.cities := cities;
      this.cache := cache;
      lastCacheStatus := "NONE";
    }

    method GetLastCacheStatus() returns (status: string)
      ensures status == lastCacheStatus
    {
      status := lastCacheStatus;
    }

    /**
     * `TryGetValue` finds the entry while the clock is before its absolute
     * expiration; an expired entry is never served.
     */
    function CacheHit(now: int): (hit: bool)
      reads cache
      ensures hit ==> cache.entry.Some?
      ensures cache.entry.Some? && cache.entry.value.expiresAt <= now ==> !hit
    {
      cache.entry.Some? && now < cache.entry.value.expiresAt
    }

    /**
     * GetAllCitiesWeatherAsync. On a cache hit: status "HIT" and the cached list.
     * Otherwise: status "MISS"; one new result per city that contributes a
     * reading, in configured order, each scored by CalculateScore; the list
     * ranked by RankCities; and the list cached for five minutes. When the
     * fetched cities have pairwise distinct ids, each rank is the city's place
     * in the descending score order.
     */
    method GetAllCitiesWeather(now: int, parse: string -> Option<int>, fetch: int -> FetchOutcome)
      returns (results: seq<CityWeatherResult>)
      modifies this, cache
      ensures old(CacheHit(now)) ==>
        && lastCacheStatus == "HIT"
        && cache.entry == old(cache.entry)
        && results == old(cache.entry.value.results)
      ensures !old(CacheHit(now)) ==>
        && lastCacheStatus == "MISS"
        && cache.entry == Some(CacheEntry(results, now + CacheLifetimeSeconds))
        && Distinct(results)
        && (forall k :: 0 <= k < |results| ==> fresh(results[k]))
        && StateOf(results) == MissState(cities, parse, fetch)
    {
      if CacheHit(now) {
        lastCacheStatus := "HIT";
        results := cache.entry.value.results;
        return;
      }
      lastCacheStatus := "MISS";
      results := FetchAndRank(cities, parse, fetch);
      cache.Set(results, now + CacheLifetimeSeconds);
    }
  }

  /**
   * Two requests within five minutes of each other, each served by a new
   * service over the application's one cache: the first misses and fetches,
   * the second hits and returns the very list the first one cached.
   */
  method RequestsShareCache(cities: seq<City>, now: int, later: int,
                            parse: string -> Option<int>, fetch: int -> FetchOutcome)
    returns (first: seq<CityWeatherResult>, firstStatus: string,
             second: seq<CityWeatherResult>, secondStatus: string)
    requires now <= later < now + CacheLifetimeSeconds
    ensures firstStatus == "MISS" && secondStatus == "HIT"
    ensures second == first
  {
    var cache := new MemoryCache();
    var service := new WeatherService(cities, cache);
    first := service.GetAllCitiesWeather(now, parse, fetch);
    firstStatus := service.GetLastCacheStatus();
    var next := new WeatherService(cities, cache);
    second := next.GetAllCitiesWeather(later, parse, fetch);
    secondStatus := next.GetLastCacheStatus();
  }
}
