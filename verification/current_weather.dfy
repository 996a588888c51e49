/** The pure helpers inside the CurrentWeather card: unit labels, the
    headline location, the "Sensor:" line, and the UV-index category. */
module CurrentWeather {
  import opened Types

  /** Category of a UV index, lowest first. */
  datatype UvLevel = Low | Moderate | High | VeryHigh | Extreme {
    function Rank(): nat {
      match this
      case Low => 0
      case Moderate => 1
      case High => 2
      case VeryHigh => 3
      case Extreme => 4
    }

    function Label(): string {
      match this
      case Low => "Low"
      case Moderate => "Moderate"
      case High => "High"
      case VeryHigh => "Very High"
      case Extreme => "Extreme"
    }
  }

  /** Upper bounds (inclusive) of the categories below Extreme. */
  const UvBounds: seq<real> := [2.0, 5.0, 7.0, 10.0]

  /** How many of the bounds lie strictly below uv. */
  function BoundsExceeded(bounds: seq<real>, uv: real): (n: nat)
    ensures n <= |bounds|
    decreases |bounds|
  {
    if |bounds| == 0 then 0
    else (if bounds[0] < uv then 1 else 0) + BoundsExceeded(bounds[1..], uv)
  }

  /** The card's unit labels (temperature letter, wind-speed unit): 'C' and
      'm/s' for metric, 'F' and 'mph' otherwise. */
  function UnitLabels(unit: Unit): (labels: (string, string))
    ensures labels.0 == "C" <==> unit == Metric
    ensures labels.0 == "F" <==> unit == Imperial
    ensures labels.1 == "m/s" <==> unit == Metric
    ensures labels.1 == "mph" <==> unit == Imperial
  {
    match unit
    case Metric => ("C", "m/s")
    case Imperial => ("F", "mph")
  }

  /** `data.originalName || data.city`: the searched name unless absent or empty. */
  function DisplayLocation(data: WeatherData): (headline: string)
    ensures headline == data.city || data.originalName == Some(headline)
    ensures headline == "" ==> data.city == ""
  {
    if data.originalName.Some? && data.originalName.value != "" then data.originalName.value else data.city
  }

  /** `data.originalName && data.originalName !== data.city`. */
  function ShowsSensorLine(data: WeatherData): (shown: bool)
    ensures shown ==> data.originalName.Some? && data.originalName.value != data.city
  {
    data.originalName.Some? && data.originalName.value != "" && data.originalName.value != data.city
  }

  /** getUVStatus: the first category whose inclusive bound holds. */
  function UvStatus(uv: real): (level: UvLevel)
    ensures level.Rank() == BoundsExceeded(UvBounds, uv)
  {
    if uv <= 2.0 then Low
    else if uv <= 5.0 then Moderate
    else if uv <= 7.0 then High
    else if uv <= 10.0 then VeryHigh
    else Extreme
  }

  /** The UV card appears only when the index is known, with its category. */
  function UvDetail(data: WeatherData): (r: Option<UvLevel>)
    ensures r.Some? <==> data.uvIndex.Some?
    ensures r.Some? ==> r.value == UvStatus(data.uvIndex.value)
  {
    match data.uvIndex
    case Some(uv) => Some(UvStatus(uv))
    case None => None
  }

  // ---------------------------------------------------------------------------
  // Properties
  // ---------------------------------------------------------------------------

  /** A larger value never exceeds fewer bounds. */
  lemma {:induction false} BoundsExceededMonotone(bounds: seq<real>, uv1: real, uv2: real)
    requires uv1 <= uv2
    ensures BoundsExceeded(bounds, uv1) <= BoundsExceeded(bounds, uv2)
    decreases |bounds|
  {
    if |bounds| > 0 {
      BoundsExceededMonotone(bounds[1..], uv1, uv2);
    }
  }

  /** getUVStatus is monotone: a higher index never gets a lower category. */
  lemma UvStatusMonotone(uv1: real, uv2: real)
    requires uv1 <= uv2
    ensures UvStatus(uv1).Rank() <= UvStatus(uv2).Rank()
  {
    BoundsExceededMonotone(UvBounds, uv1, uv2);
  }

  /** The category of every index, each bound belonging to the lower category. */
  lemma UvStatusBoundaries()
    ensures forall uv :: uv <= 2.0 ==> UvStatus(uv) == Low
    ensures forall uv :: 2.0 < uv <= 5.0 ==> UvStatus(uv) == Moderate
    ensures forall uv :: 5.0 < uv <= 7.0 ==> UvStatus(uv) == High
    ensures forall uv :: 7.0 < uv <= 10.0 ==> UvStatus(uv) == VeryHigh
    ensures forall uv :: uv > 10.0 ==> UvStatus(uv) == Extreme
    ensures UvStatus(10.0).Label() == "Very High" && UvStatus(11.0).Label() == "Extreme"
  {
  }

  /** The sensor line is shown exactly when the headline is not the station
      name; the headline is the searched name when one was given. */
  lemma SensorLineIffHeadlineDiffers(data: WeatherData)
    ensures ShowsSensorLine(data) <==> DisplayLocation(data) != data.city
    ensures data.originalName.Some? && data.originalName.value != "" ==> DisplayLocation(data) == data.originalName.value
    ensures data.originalName.None? ==> DisplayLocation(data) == data.city
  {
  }
}
