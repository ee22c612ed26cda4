# WeatherWell comfort ranking — a Dafny model

WeatherWell is a dashboard that fetches the current weather for a configured
list of cities, gives each city a comfort score out of 100, ranks the cities by
that score, and shows them in a browser where they can be filtered by comfort
band, sorted, and selected.

This project models, and proves properties of:

- **The comfort service** (`ComfortService` module). `CalculateScore` sums three
  clamped linear parts: temperature (40 points, 4 lost per degree away from
  22 °C), humidity (30 points, 1 lost per 2 % away from 50 %) and wind (30 points,
  10 lost per m/s away from 3 m/s). It rounds the sum to one decimal with .NET's
  default banker's rounding (`Rounding` module, exact on reals). `RankCities`
  sorts a copy of the list stably by descending score (`StableSort` module). For
  each sorted position `i`, it gives rank `i + 1` to the first list entry with
  the same city id. The model is a method over a sequence of `CityWeatherResult`
  objects that updates only their `rank` field. Its contract ties the new ranks to
  the specification function `RanksAfter`. Lemmas then prove what those ranks
  are: a permutation of 1..N ordered by score when ids are distinct, and "the
  first entry of an id takes every write" when they are not.
- **The weather service** (`WeatherService` module). `MapToResult` converts a
  provider response into a result. It rounds temperature and wind to tenths,
  converts visibility from metres to kilometres by truncating integer division,
  and takes the first condition's description or "Unknown". A null nested object
  in the response, which makes the C# code throw, is `None`.
  `GetAllCitiesWeatherAsync` is a method of a `WeatherService` class, whose field
  is the last cache status ("NONE", "HIT", "MISS"). The cached list lives in a
  separate `MemoryCache` object. The application registers it once, and every
  service is built over it, so a new service finds what an earlier one stored.
  On a hit the method returns the cached list. On a miss it runs the per-city
  loop, which skips any city whose code does not parse or whose fetch gives
  nothing or fails, and scores each result before appending it. It then ranks
  the batch once and caches it for five minutes.
- **The dashboard's view logic** (`App` module): the comfort-band filter, the
  keyed stable sort of the filtered copy, the four band counts, the city shown in
  the sidebar (the selected id, or else the best score, the last one on a tie),
  and the click that toggles the selection.

The model follows the code where the code differs from its unit tests:

- `ComfortServiceTests.cs:76-96` expects humidity 25 to beat humidity 75. The
  humidity part is symmetric about 50, so both score 87.5
  (`ComfortService.HumiditySymmetric`, `ComfortService.ScenarioScores`).
- `ComfortServiceTests.cs:116-134` builds three cities without ids, so every id
  is 0. Every lookup by id then finds the first city: it ends with rank 3 and the
  other two keep rank 0 (`ComfortService.RankingTestWithDefaultIds`). The ranks
  the test expects, 1, 2, 3, are what the code gives with distinct ids
  (`ComfortService.RankingTestWithIds`).
- `City.CityCode` is declared `int` (`backend/Models/CityWeatherResult.cs:22`),
  but the service parses it with `int.TryParse` as a string. The model keeps it
  a string and takes the parse as a parameter.

## Model

| member | source | states |
|---|---|---|
| Rounding.Round1 | backend/Services/ComfortService.cs:26 | `Math.Round(x, 1)`: the result is a whole number of tenths within 0.05 of x, and an even number of tenths on an exact tie |
| Rounding.Round1Monotone | backend/Services/ComfortService.cs:26 | rounding to tenths never reverses the order of two values |
| Rounding.Round1OfTenths | backend/Services/ComfortService.cs:26 | a value already in tenths is left unchanged |
| Rounding.Round1StaysInRange | backend/Services/ComfortService.cs:26 | a value in [0, 100] rounds to a value in [0, 100] |
| StableSort.SortIndices | backend/Services/ComfortService.cs:31 | the stable sort lists every position exactly once, by ascending key, with equal keys in input order |
| StableSort.PositionIsPrecedingCount | backend/Services/ComfortService.cs:31 | the element at sorted position p is preceded by exactly p positions, so its place has a closed form |
| StableSort.SortedInputKeepsOrder | backend/Services/ComfortService.cs:31 | sorting input that is already in order leaves every position in place |
| StableSort.ArrangeSortedPermutes | frontend/src/App.tsx:124 | the sorted copy holds the same elements as the input, each as often |
| Lists.IndexOf | backend/Services/ComfortService.cs:34 | `First(c => c.CityId == id)`: the first position holding the value, or None exactly when the value does not occur |
| Models.CityWeatherResult.constructor | backend/Models/CityWeatherResult.cs:4-17 | a result holds its reading, its comfort score and its rank |
| ComfortService.TemperatureScore | backend/Services/ComfortService.cs:14-15 | the temperature part lies in [0, 40], and is 40 exactly at 22 °C |
| ComfortService.HumidityScore | backend/Services/ComfortService.cs:18-19 | the humidity part lies in [0, 30], and is 30 exactly at 50 % |
| ComfortService.WindScore | backend/Services/ComfortService.cs:22-23 | the wind part lies in [0, 30], and is 30 exactly at 3 m/s |
| ComfortService.RawScore | backend/Services/ComfortService.cs:14-26 | the unrounded sum lies in [0, 100], and is 100 exactly at the three optima |
| ComfortService.CalculateScore | backend/Services/ComfortService.cs:11-27 | the score is `Round1` of the unrounded sum (the nearest tenth, the even one on an exact tie): it lies in [0, 100], is a whole number of tenths, and is within 0.05 of the sum |
| ComfortService.PerfectWeatherScoresHundred | backend/Services/ComfortService.cs:7-26 | 22 °C, 50 % humidity and 3 m/s wind score exactly 100 |
| ComfortService.ScoreUsesOnlyTemperatureHumidityWind | backend/Services/ComfortService.cs:11-27 | readings that agree on temperature, humidity and wind score the same, whatever their clouds, visibility, pressure or description |
| ComfortService.TemperatureFartherNeverScoresHigher | backend/Services/ComfortService.cs:14-15 | moving the temperature farther from 22 °C, all else equal, never raises the score |
| ComfortService.HumidityFartherNeverScoresHigher | backend/Services/ComfortService.cs:18-19 | moving the humidity farther from 50 %, all else equal, never raises the score |
| ComfortService.WindFartherNeverScoresHigher | backend/Services/ComfortService.cs:22-23 | moving the wind farther from 3 m/s, all else equal, never raises the score |
| ComfortService.HumiditySymmetric | backend/Services/ComfortService.cs:18-19 | humidities 50 − d and 50 + d score the same |
| ComfortService.ScenarioScores | backend/Tests/ComfortServiceTests.cs:12-114 | the test scenarios score 100, 20, 43 and 62.5, the extreme inputs 10 and 10, and dry 25 % and humid 75 % both 87.5 |
| ComfortService.RankingOrder | backend/Services/ComfortService.cs:31 | `OrderByDescending(c => c.ComfortScore)`: every position exactly once, highest score first, ties in list order |
| ComfortService.RankOf | backend/Services/ComfortService.cs:29-37 | a city's rank is one more than the number of cities that beat it, and lies in 1..N |
| ComfortService.RankIsPosition | backend/Services/ComfortService.cs:31-35 | the city at sorted position p has rank p + 1 |
| ComfortService.PositionOf | backend/Services/ComfortService.cs:31-35 | every city sits at exactly one sorted position, the one its rank names |
| ComfortService.RankOrderMatchesScores | backend/Services/ComfortService.cs:29-37 | a city gets a smaller rank than another exactly when it has a higher score, or the same score earlier in the list |
| ComfortService.RanksArePermutation | backend/Services/ComfortService.cs:29-37 | no two cities share a rank, and every rank from 1 to N is given |
| ComfortService.TiedCitiesRankConsecutively | backend/Services/ComfortService.cs:31 | no city with a different score is ranked between two cities with equal scores |
| ComfortService.RanksWithDistinctIds | backend/Services/ComfortService.cs:32-35 | with pairwise distinct ids, the write-back gives every city its rank RankOf |
| ComfortService.LaterDuplicateKeepsRank | backend/Services/ComfortService.cs:34-35 | a city whose id occurs earlier in the list is never written and keeps its previous rank |
| ComfortService.RanksAfter | backend/Services/ComfortService.cs:31-36 | the ranks the write-back leaves: each city keeps its previous rank or gets one from 1 to N |
| ComfortService.FirstWithId | backend/Services/ComfortService.cs:34 | the first list position with the same id as position p, never after p |
| ComfortService.SetRank | backend/Services/ComfortService.cs:35 | one assignment changes the rank of one city and nothing else |
| ComfortService.WriteRanks | backend/Services/ComfortService.cs:32-36 | the write-back loop changes only ranks, to exactly what the step-by-step writes give |
| ComfortService.RankCities | backend/Services/ComfortService.cs:29-37 | scores and everything but ranks are unchanged, list order is kept, and the new ranks are RanksAfter of the ids, scores and old ranks |
| ComfortService.DescendingScoresRankInListOrder | backend/Services/ComfortService.cs:31-35 | a list already in descending score order keeps its order and is ranked 1, 2, 3, … down the list |
| ComfortService.InOrderListNumberedInPlace | backend/Services/ComfortService.cs:29-37 | with distinct ids and descending scores, RankCities numbers the list 1..N in place |
| ComfortService.SharedIdWritesOnlyFirst | backend/Services/ComfortService.cs:34-35 | when all ids are equal, the first city ends with rank N and every other city keeps its previous rank |
| ComfortService.RankingTestWithIds | backend/Tests/ComfortServiceTests.cs:116-134 | the test's scores 95.5, 78.2, 45.1 with ids 1, 2, 3 get ranks 1, 2, 3 |
| ComfortService.RankingTestWithDefaultIds | backend/Tests/ComfortServiceTests.cs:116-134 | the same scores with every id left at 0 end with ranks 3, 0, 0 |
| WeatherService.KilometresFromMetres | backend/Services/WeatherService.cs:119 | `Visibility / 1000` truncates toward zero: the kilometres are the metres' whole thousands, rounded toward zero for either sign |
| WeatherService.WholeKilometresConvertExactly | backend/Services/WeatherService.cs:119 | a whole number of kilometres in metres converts back exactly |
| WeatherService.KilometresOddInSign | backend/Services/WeatherService.cs:119 | a negated distance converts to the negated result |
| WeatherService.Description | backend/Services/WeatherService.cs:121 | the first condition's description, or "Unknown" when the list is empty, its first entry is null, or it has no description |
| WeatherService.DescriptionUsesOnlyFirst | backend/Services/WeatherService.cs:121 | conditions after the first do not change the description |
| WeatherService.MapToResult | backend/Services/WeatherService.cs:107-126 | no result exactly when a nested object or the condition list is null; otherwise id, name, humidity, pressure and clouds are copied, temperature and wind are `Round1` of the response's (tenths within 0.05, ties to even), visibility is `KilometresFromMetres` of the metres (truncated toward zero for either sign), and the description as above |
| WeatherService.MapToResultKeepsTenths | backend/Services/WeatherService.cs:114-116 | a temperature and a wind speed already in tenths pass through unchanged |
| WeatherService.Collect | backend/Services/WeatherService.cs:60-79 | the loop gathers no more readings than there are configured cities |
| WeatherService.ContributingCityGathered | backend/Services/WeatherService.cs:60-79 | every city whose code parses, whose fetch returns a response and whose response maps has its reading gathered |
| WeatherService.CollectAppend | backend/Services/WeatherService.cs:60-79 | gathering keeps the configured order: the readings of two lists joined are those of the first followed by those of the second |
| WeatherService.CityReading | backend/Services/WeatherService.cs:62-78 | a city contributes a reading exactly when its code parses, its fetch returns a response and the response maps |
| WeatherService.CollectedReadingsComeFromCities | backend/Services/WeatherService.cs:60-79 | every gathered reading is the one some configured city contributed |
| WeatherService.CollectAllSucceed | backend/Services/WeatherService.cs:60-79 | when every city contributes, the list has one reading per city, in configured order |
| WeatherService.CollectAllFail | backend/Services/WeatherService.cs:60-79 | when no city contributes, the list is empty |
| WeatherService.FetchCity | backend/Services/WeatherService.cs:62-78 | one city's try block: a new result with the city's reading, score CalculateScore and rank 0, or nothing when the city is skipped |
| WeatherService.FetchAll | backend/Services/WeatherService.cs:56-79 | the loop builds distinct new results whose readings are the gathered readings in order, each scored by CalculateScore and unranked |
| WeatherService.MissState | backend/Services/WeatherService.cs:56-81 | what a miss leaves on its results: the gathered readings in configured order, each scored by CalculateScore, and with pairwise distinct ids every rank is RankOf, the place in the descending score order |
| WeatherService.FetchAndRank | backend/Services/WeatherService.cs:56-81 | the loop and RankCities build distinct new results whose readings, scores and ranks are exactly MissState of the configured cities |
| WeatherService.MemoryCache.constructor | backend/Program.cs:14 | the application's one cache starts empty |
| WeatherService.MemoryCache.Set | backend/Services/WeatherService.cs:83-86 | storing a list replaces the entry with that list and its absolute expiry |
| WeatherService.WeatherService.constructor | backend/Services/WeatherService.cs:17-27 | a new service has the configured cities and status "NONE", and is built over the cache it is given, which it leaves as it is |
| WeatherService.WeatherService.CacheHit | backend/Services/WeatherService.cs:49 | the cache is hit only when it holds an entry, and never once the clock has reached the entry's expiry |
| WeatherService.WeatherService.GetLastCacheStatus | backend/Services/WeatherService.cs:45 | returns the last cache status |
| WeatherService.WeatherService.GetAllCitiesWeather | backend/Services/WeatherService.cs:47-89 | on a hit: status "HIT", the cached list returned and the shared cache unchanged; on a miss: status "MISS", distinct new results whose readings, scores and ranks are MissState of the configured cities, cached in the shared cache for five minutes |
| WeatherService.RequestsShareCache | backend/Program.cs:14-15 | two requests less than five minutes apart, each served by a new service over the one cache: the first misses, the second hits and returns the same list |
| App.InBand | frontend/src/App.tsx:113-119 | 'all' takes every score; any band takes a score exactly when that band is the score's one band BandOf, so the four bands are disjoint and cover every score |
| App.BandOf | frontend/src/App.tsx:114-117 | every score falls in one of the four bands, never 'all' |
| App.KeepBand | frontend/src/App.tsx:111-120 | the filter keeps every city of the band, as often as it occurs, and nothing else |
| App.KeepBandKeepsOrder | frontend/src/App.tsx:111-120 | the filter keeps list order: filtering two lists joined is filtering each and joining the results |
| App.FilterCities | frontend/src/App.tsx:107-121 | 'all' keeps the list as it is; any band keeps exactly the cities in that band |
| App.BandCountsSumToLength | frontend/src/App.tsx:660-663 | the four distribution counts add up to the number of cities listed |
| App.SortOrder | frontend/src/App.tsx:124-133 | the comparator sort lists every position once, by its key, with ties in input order |
| App.Comparator | frontend/src/App.tsx:125-132 | the comparator of each option is the difference of the two cities' keys: negative exactly when the first key is smaller, zero exactly when they are equal |
| App.SortCities | frontend/src/App.tsx:124-133 | the sorted copy is a permutation of the filtered list, each entry taken from its sorted position, with keys ascending |
| App.SortedByOption | frontend/src/App.tsx:126-129 | 'rank' sorts ascending rank, 'temperature' descending temperature, 'comfort' descending score, 'humidity' ascending humidity |
| App.SortIsStable | frontend/src/App.tsx:124 | cities that compare equal keep their list order |
| App.GetFilteredAndSortedData | frontend/src/App.tsx:106-136 | the shown list holds exactly the band's cities, each as often as in the fetched list, in ascending key order of the chosen option; with 'all' it is a permutation of the fetched list |
| App.ShownExactlyTheBand | frontend/src/App.tsx:106-136 | a city is shown exactly when it is in the fetched list and in the chosen band |
| App.BestIndex | frontend/src/App.tsx:141-143 | the reduce keeps a city of the highest score, and no later city has that score |
| App.SelectedCity | frontend/src/App.tsx:141-143 | the city with the selected id if there is one; otherwise a city of the highest score; nothing exactly when the list is empty |
| App.SelectedCityIsFirstWithId | frontend/src/App.tsx:141 | with a matching selection, the sidebar shows the first city with that id |
| App.BestIsLastOfTied | frontend/src/App.tsx:141-143 | with no matching selection, the sidebar shows the last of the equally best cities |
| App.ToggleSelection | frontend/src/App.tsx:726 | clicking the selected city clears the selection; clicking any other city selects it |
| App.ClickTwiceRestores | frontend/src/App.tsx:726 | two clicks on the same city undo each other, starting from no selection or from that city |

## Left out

- HTTP requests, JSON decoding and async/await: fetching one city is a parameter that returns a response, no data, or a failure. `int.TryParse` on the city code is a parameter too.
- Loading `cities.json`: the service is built with its city list. The fallback to an empty list when the file cannot be read is not modelled.
- The API key, the URL and the logging of skipped cities.
- WeatherService.WeatherService.GetAllCitiesWeather: the clock is a parameter, in seconds. The cache serves an entry while the clock is before its absolute expiry. Eviction for any other reason, such as memory pressure, is not modelled.
- Floating point: temperatures, wind speeds and scores are reals, so IEEE rounding error is not modelled. `Math.Round` is modelled exactly, with ties to even.
- ComfortService.RankCities: requires the list's objects to be pairwise distinct. The only caller builds a new object per city, so a list holding one object twice is not modelled.
- App.SortCities: the 'name' sort is not modelled, because `localeCompare` depends on the locale.
- The comparator's `default: return 0` branch and the filter's `default: return true` branch are unreachable with the typed options, so they are not modelled.
- The averages of the climate summary panel, rendering, dark mode, local storage, logout and the verification-email call.
- Authentication (`Auth0Service.cs`, `AuthController.cs`), the controllers, the `Program.cs` wiring other than the one shared cache, `main.tsx`, `WeatherCard.tsx` and `TemperatureChart.tsx`.
