/**
 * The data shapes of the backend: the per-city result sent to the client, the
 * configured city list, and the weather provider's response.
 */
module Models {
  import opened Wrappers

  /**
   * The weather fields of a CityWeatherResult. They are all set when the result
   * is built from a provider response and never assigned afterwards.
   */
  datatype WeatherReading = WeatherReading(
    cityId: int,
    cityName: string,
    temperature: real,       // degrees Celsius
    humidity: int,           // percent
    windSpeed: real,         // metres per second
    cloudPercentage: int,
    visibility: int,         // kilometres
    pressure: int,           // hPa
    weatherDescription: string)

  /**
   * A city's result. Only ComfortScore and Rank are assigned after the object is
   * built (by the comfort service), so the reading is a constant.
   */
  class CityWeatherResult {
    const reading: WeatherReading
    var comfortScore: real
    var rank: int

    constructor (reading: WeatherReading, comfortScore: real, rank: int)
      ensures this.reading == reading
      ensures this.comfortScore == comfortScore && this.rank == rank
    {
      this.reading := reading;
      this.comfortScore := comfortScore;
      this.rank := rank;
    }
  }

  /** The city ids of a list of readings, in list order. */
  function ReadingIds(readings: seq<WeatherReading>): (ids: seq<int>)
    ensures |ids| == |readings|
    ensures forall k :: 0 <= k < |readings| ==> ids[k] == readings[k].cityId
  {
    seq(|readings|, k requires 0 <= k < |readings| => readings[k].cityId)
  }

  /**
   * The city ids of a list of result objects, in list order. Equal to the
   * ReadingIds of their Readings; written out directly because the ranking
   * loop's frame reasoning is about the objects.
   */
  function Ids(cities: seq<CityWeatherResult>): (ids: seq<int>)
    ensures |ids| == |cities|
    ensures forall k :: 0 <= k < |cities| ==> ids[k] == cities[k].reading.cityId
  {
    seq(|cities|, k requires 0 <= k < |cities| => cities[k].reading.cityId)
  }

  /** The weather readings of a list of results, in list order. */
  function Readings(cities: seq<CityWeatherResult>): (readings: seq<WeatherReading>)
    ensures |readings| == |cities|
    ensures forall k :: 0 <= k < |cities| ==> readings[k] == cities[k].reading
  {
    seq(|cities|, k requires 0 <= k < |cities| => cities[k].reading)
  }

  /** The comfort scores of a list of results, in list order. */
  function Scores(cities: seq<CityWeatherResult>): (scores: seq<real>)
    reads cities
    ensures |scores| == |cities|
    ensures forall k :: 0 <= k < |cities| ==> scores[k] == cities[k].comfortScore
  {
    seq(|cities|, k requires 0 <= k < |cities| reads cities => cities[k].comfortScore)
  }

  /** The ranks of a list of results, in list order. */
  function Ranks(cities: seq<CityWeatherResult>): (ranks: seq<int>)
    reads cities
    ensures |ranks| == |cities|
    ensures forall k :: 0 <= k < |cities| ==> ranks[k] == cities[k].rank
  {
    seq(|cities|, k requires 0 <= k < |cities| reads cities => cities[k].rank)
  }

  /** An entry of the configured city list (cities.json). */
  datatype City = City(cityCode: string, cityName: string)

  /** One entry of the provider's "weather" array; the array may also hold nulls. */
  datatype WeatherCondition = WeatherCondition(main: string, description: Option<string>)

  datatype MainWeatherData = MainWeatherData(temperature: real, feelsLike: real, humidity: int, pressure: int)

  datatype Wind = Wind(speed: real, degree: int)

  datatype Clouds = Clouds(cloudPercentage: int)

  /**
   * The provider's response as deserialised. A nested object or list that is
   * missing from the JSON document deserialises to null: None here.
   */
  datatype WeatherResponse = WeatherResponse(
    weather: Option<seq<Option<WeatherCondition>>>,
    main: Option<MainWeatherData>,
    wind: Option<Wind>,
    clouds: Option<Clouds>,
    visibility: int,         // metres
    cityId: int,
    cityName: string)
}
