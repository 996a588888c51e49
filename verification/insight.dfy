/** generateWeatherInsight: ask a text-generation service for a one-line
    insight about the forecast, and fall back to a fixed rule chain when the
    call fails. The service is the function `service` from the prompt's
    contents to its reply; the prompt text itself is not modelled, only the
    figures it embeds. */
module Insight {
  import opened Types

  const HeatMessage: string := "It's quite hot today. Stay hydrated and avoid direct sunlight!"
  const RainMessage: string := "High chance of rain today. Don't forget your umbrella!"
  const BreezyMessage: string := "Expect breezy conditions throughout the day."
  const StableMessage: string := "The weather looks stable. Have a great day!"
  const NoInsightMessage: string := "No insights available for this location."

  /** Strict thresholds of the fallback rules. */
  const HotAbove: int := 30
  const RainyAbove: int := 50
  const BreezyAbove: real := 10.0

  /** Number of forecast highs the prompt lists. */
  const PromptDays: nat := 3

  /** The figures the prompt embeds. */
  datatype Prompt = Prompt(
    temp: int,
    description: string,
    humidity: int,
    highs: seq<int>,
    rainProb: int)

  /** What the service call produced: a reply text (possibly empty), or a
      thrown error. */
  datatype Reply = Answered(text: string) | Threw

  /** Whether constructing the service client succeeded. The constructor runs
      before the `try`, so its failure is not caught by the fallback. */
  datatype ClientSetup = Constructed | ConstructorThrew

  /** Why the insight promise rejects: the client constructor threw, or reading
      `daily[0]` of an empty forecast threw while building the prompt. Both
      happen before the call is made. */
  datatype InsightError = ClientFailed | EmptyForecast

  function Highs(daily: seq<DailyPoint>): (r: seq<int>)
    ensures |r| == |daily|
    ensures forall i :: 0 <= i < |r| ==> r[i] == daily[i].maxTemp
    decreases |daily|
  {
    if |daily| == 0 then [] else [daily[0].maxTemp] + Highs(daily[1..])
  }

  /** The prompt: current temperature, description and humidity, the highs of
      the first three days, and the first day's rain probability. */
  function BuildPrompt(current: WeatherData, daily: seq<DailyPoint>): (p: Prompt)
    requires |daily| > 0
    ensures |p.highs| == Min(|daily|, PromptDays)
    ensures forall i :: 0 <= i < |p.highs| ==> p.highs[i] == daily[i].maxTemp
    ensures p.temp == current.temp && p.humidity == current.humidity && p.description == current.description
    ensures p.rainProb == daily[0].rainProb
  {
    Prompt(current.temp, current.description, current.humidity, Highs(Take(daily, PromptDays)), daily[0].rainProb)
  }

  /** The rule chain, first match wins. */
  function Fallback(temp: int, rainProb: int, windSpeed: real): (msg: string)
    ensures msg in {HeatMessage, RainMessage, BreezyMessage, StableMessage}
    ensures msg != ""
  {
    if temp > HotAbove then HeatMessage
    else if rainProb > RainyAbove then RainMessage
    else if windSpeed > BreezyAbove then BreezyMessage
    else StableMessage
  }

  /** generateWeatherInsight: a rejection when the client cannot be built or
      the forecast is empty; otherwise the service's reply when it is
      non-empty, the fixed notice when it is empty, the rule chain when the
      call throws. */
  function GenerateInsight(client: ClientSetup, current: WeatherData, daily: seq<DailyPoint>,
                           service: Prompt -> Reply): (r: Result<string, InsightError>)
    ensures r.Failure? <==> client == ConstructorThrew || |daily| == 0
    ensures client == ConstructorThrew ==> r == Failure(ClientFailed)
    ensures client == Constructed && |daily| == 0 ==> r == Failure(EmptyForecast)
    ensures client == Constructed && |daily| > 0 && service(BuildPrompt(current, daily)).Answered? ==>
      var text := service(BuildPrompt(current, daily)).text;
      r == Success(if text == "" then NoInsightMessage else text)
    ensures client == Constructed && |daily| > 0 && service(BuildPrompt(current, daily)).Threw? ==>
      r == Success(Fallback(current.temp, daily[0].rainProb, current.windSpeed))
  {
    if client == ConstructorThrew then Failure(ClientFailed)
    else if |daily| == 0 then Failure(EmptyForecast)
    else
      match service(BuildPrompt(current, daily))
      case Answered(text) => Success(if text == "" then NoInsightMessage else text)
      case Threw => Success(Fallback(current.temp, daily[0].rainProb, current.windSpeed))
  }

  // ---------------------------------------------------------------------------
  // The rule chain as a decision table
  // ---------------------------------------------------------------------------

  /** Each message is chosen exactly when its rule is the first that applies. */
  lemma FallbackDecisionTable(temp: int, rainProb: int, windSpeed: real)
    ensures Fallback(temp, rainProb, windSpeed) == HeatMessage <==> temp > 30
    ensures Fallback(temp, rainProb, windSpeed) == RainMessage <==> temp <= 30 && rainProb > 50
    ensures Fallback(temp, rainProb, windSpeed) == BreezyMessage <==> temp <= 30 && rainProb <= 50 && windSpeed > 10.0
    ensures Fallback(temp, rainProb, windSpeed) == StableMessage <==> temp <= 30 && rainProb <= 50 && windSpeed <= 10.0
  {
  }

  /** The thresholds are strict: a reading exactly at a threshold does not fire its rule. */
  lemma FallbackThresholdsStrict(windSpeed: real)
    ensures Fallback(30, 50, 10.0) == StableMessage
    ensures Fallback(30, 51, windSpeed) == RainMessage
    ensures Fallback(31, 0, 0.0) == HeatMessage
  {
  }

  /** With a non-empty forecast, only a failed client construction rejects;
      otherwise the user never sees empty text, and when the service throws a
      hot day gives the heat advice whatever the forecast. */
  lemma InsightNeverEmpty(client: ClientSetup, current: WeatherData, daily: seq<DailyPoint>, service: Prompt -> Reply)
    requires |daily| > 0
    ensures GenerateInsight(client, current, daily, service).Success? <==> client == Constructed
    ensures GenerateInsight(client, current, daily, service).Success? ==>
      GenerateInsight(client, current, daily, service).value != ""
    ensures client == Constructed && service(BuildPrompt(current, daily)).Threw? && current.temp > 30 ==>
      GenerateInsight(client, current, daily, service) == Success(HeatMessage)
  {
  }
}
