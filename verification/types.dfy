/** Shared records of the dashboard: the view models of types.ts and the small
    failure-compatible wrappers the other modules use. */
module Types {

  /** A value that may be absent (an optional field, a missing storage key). */
  datatype Option<+T> = None | Some(value: T) {
    function GetOr(default: T): (r: T)
      ensures Some? ==> r == value
      ensures None? ==> r == default
    {
      match this
      case Some(v) => v
      case None => default
    }
  }

  /** The outcome of an operation that can fail with an error value. */
  datatype Result<+R, +E> = Success(value: R) | Failure(error: E)

  /** The unit system of a request: 'metric' or 'imperial'. */
  datatype Unit = Metric | Imperial

  /** Current conditions at a location (WeatherData). Temperatures are already
      rounded to integers; wind speed and UV index are the provider's decimals. */
  datatype WeatherData = WeatherData(
    city: string,
    originalName: Option<string>,
    country: string,
    temp: int,
    feelsLike: int,
    humidity: int,
    windSpeed: real,
    windDeg: int,
    pressure: int,
    visibility: int,
    description: string,
    icon: string,
    timestamp: int,
    sunrise: int,
    sunset: int,
    uvIndex: Option<real>)

  /** A ForecastItem as the hourly list builds it: no min/max temperature. */
  datatype HourlyPoint = HourlyPoint(
    dt: int,
    temp: int,
    description: string,
    icon: string,
    rainProb: int,
    humidity: int)

  /** A ForecastItem as the daily roll-up builds it, with the day's range. */
  datatype DailyPoint = DailyPoint(
    dt: int,
    temp: int,
    minTemp: int,
    maxTemp: int,
    description: string,
    icon: string,
    rainProb: int,
    humidity: int)

  function Min(a: int, b: int): (m: int)
    ensures m <= a && m <= b
    ensures m == a || m == b
  {
    if a <= b then a else b
  }

  function Max(a: int, b: int): (m: int)
    ensures a <= m && b <= m
    ensures m == a || m == b
  {
    if a <= b then b else a
  }

  /** The first n elements of s, or all of s when it is shorter (Array.slice(0, n)). */
  function Take<T>(s: seq<T>, n: nat): (r: seq<T>)
    ensures |r| == Min(|s|, n)
    ensures r <= s
  {
    if |s| <= n then s else s[..n]
  }
}
