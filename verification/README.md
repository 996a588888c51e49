# Weather dashboard core, modelled in Dafny

This project models the small pieces of sequential logic in a browser weather
dashboard, and proves properties about them.

- **Forecast aggregation** (`Forecast`, forecast.dfy). The post-processing in
  `fetchWeatherByCoords` turns the provider's 3-hour forecast list into two
  forecasts:
  - an hourly forecast: the first eight entries;
  - a daily roll-up: one record per calendar date, in first-seen order, cut
    to seven days. The first reading of a date seeds the record. Later
    readings of that date only widen its min/max range.
- **Browser store** (`Store`, store.dfy). `backendSimulator.ts` keeps three
  things in local storage:
  - a most-recent-first location history, de-duplicated by name and capped
    at five;
  - a weather cache keyed by the two-decimal coordinates and the unit, with
    a strict 300000 ms freshness window;
  - the user's settings, with defaults.

  Local storage is an explicit value with one optional field per storage key,
  and the clock reading is a parameter `now`.
- **Insight generation** (`Insight`, insight.dfy). `generateWeatherInsight`
  builds a prompt, asks a text service, and falls back to a four-rule chain
  when the call throws. The service is a function parameter from the prompt's
  figures to a reply.
- **Current-weather card helpers** (`CurrentWeather`, current_weather.dfy). This
  module covers the unit labels, the headline location, the "Sensor:" line
  condition and the UV-index category.
- **Shared records** (`Types`, types.dfy). These are the view models of
  `types.ts`, plus `Option`, `Result`, `Min`, `Max` and `Take`
  (`Array.slice(0, n)`).

## How the daily roll-up is specified

`Roll` models the `forEach` that fills the insertion-ordered `dailyMap`.
`IsRollUp` states what the result must be, independently of how it is
computed:

- no date appears twice;
- the set of dates is exactly the set of dates in the raw list;
- records are ordered by the index of their date's first raw entry;
- each record carries that first entry's `dt`, `temp`, description, icon,
  rain probability and humidity;
- each record's `minTemp`/`maxTemp` bound every reading of its date, and each
  bound is attained by one of those readings.

`RollIsRollUp` proves this by induction over the list. It uses one step lemma
per case of the loop body: a new date, or a known date. `DailyIsCappedRollUp`
carries the result over the seven-day cut.

## Behaviour worth knowing

- **Corrupt stored data.** `JSON.parse` throws on corrupt stored text, so the
  model has no corrupt state. Each key is either absent or holds a
  well-formed value.
- **Length of the hourly forecast.** The hourly forecast is `slice(0, 8)`, so
  a shorter list gives min(N, 8) points.
- **Theme setting.** `darkMode` defaults to false, and the unit to metric.
- **Fallback units.** The fallback rules compare `temp > 30` and
  `windSpeed > 10` in whatever unit the data was fetched in. With imperial
  units, 31 °F selects the heat message. The model reproduces this.
- **Unreachable card branches.** The `current` record built in
  `fetchWeatherByCoords` never sets `originalName` or `uvIndex`, and the
  dashboard passes that record to the card unchanged. So, as the dashboard is
  written, the "Sensor:" line and the UV card never appear. The card helpers
  are modelled over every possible record all the same.
- **Client construction.** The text-generation client is built at line 6 of
  `geminiService.ts`, before the `try`. If its constructor throws, the
  promise rejects and the rule-based fallback never runs. The model makes
  this an explicit outcome (`ClientSetup`) that yields `Failure(ClientFailed)`.

## Model

| member | source | states |
|---|---|---|
| Forecast.Hourly | services/weatherService.ts:39-47 | The hourly forecast has exactly min(N, 8) points, and point i carries raw entry i's dt, temperature, description, icon, humidity and rain probability. |
| Forecast.MissingPopReadsZero | services/weatherService.ts:40-63 | An hourly point whose entry has no `pop` shows 0 % rain. A daily record shows the rain probability of its date's first reading, so 0 % when that reading has no `pop`. |
| Forecast.Absorb | services/weatherService.ts:52-68 | One `forEach` iteration adds at most one record to the map. |
| Forecast.AbsorbKeepsReadings | services/weatherService.ts:52-68 | The map grows by exactly one record when the reading's date is not yet in it, and keeps its size when it is (the `dailyMap.has(date)` decision). An iteration never re-seeds a record: existing records keep their time, temperature, description, icon, rain probability and humidity. A new record is the reading's seed. Afterwards the reading's date is in the map. |
| Forecast.Roll | services/weatherService.ts:50-69 | The filled map has at most as many records as raw entries, and at least one when the list is non-empty. |
| Forecast.Daily | services/weatherService.ts:71 | The daily forecast has at most seven records, no more than the raw entries, and at least one when the list is non-empty. |
| Forecast.FindDay | services/weatherService.ts:53-65 | The `dailyMap.has`/`get` lookup returns a position holding that date, or None only if no record has that date. |
| Forecast.AbsorbNewDay | services/weatherService.ts:53-63 | The first reading of a date appends a seed record and keeps the roll-up complete and correct for the extended list. |
| Forecast.AbsorbKnownDay | services/weatherService.ts:64-68 | A later reading of a known date only moves that date's min/max. The roll-up stays complete and correct for the extended list. |
| Forecast.AbsorbKeepsRollUp | services/weatherService.ts:51-69 | One iteration of the `forEach` body preserves the roll-up specification. |
| Forecast.RollIsRollUp | services/weatherService.ts:50-69 | The filled `dailyMap` meets the roll-up specification for the whole list: distinct dates, exactly the list's dates, first-seen order, first-reading fields, and a min/max that bounds and is attained. |
| Forecast.DistinctDaysCount | services/weatherService.ts:50-71 | Records with pairwise distinct dates have as many records as dates. This is why there is one record per distinct date. |
| Forecast.DailyIsCappedRollUp | services/weatherService.ts:49-71 | The daily forecast has min(D, 7) records for D distinct dates. It keeps every roll-up property, its dates come from the list, and it holds all of them when D <= 7. |
| Forecast.DailyDropsOnlyLaterDays | services/weatherService.ts:71 | Every date cut by the seven-day limit was first seen after every date that was kept. |
| Forecast.DailyRangeOrdered | services/weatherService.ts:57-67 | If every reading has temp_min <= temp_max, every daily record has minTemp <= maxTemp. |
| Forecast.EmptyListYieldsNothing | services/weatherService.ts:40-71 | An empty forecast list gives an empty hourly and an empty daily forecast. |
| Forecast.Aggregate | services/weatherService.ts:39-73 | The loop version of the post-processing returns both forecasts with their length, alignment and roll-up properties. |
| Store.ToFixed2 | services/backendSimulator.ts:45 | `toFixed(2)` keeps the sign of a negative value and rounds the magnitude to the nearest hundredth. |
| Store.SignedZeroSlots | services/backendSimulator.ts:45 | -0.001 and 0.001 give the texts "-0.00" and "0.00", so they use different cache slots. |
| Store.HalfHundredthRoundsUp | services/backendSimulator.ts:45 | An exact half hundredth rounds away from zero: 0.125 gives "0.13" and -0.125 gives "-0.13". |
| Store.GetHistory | services/backendSimulator.ts:24-26 | An absent history key reads as the empty list. A stored list is read back as stored. |
| Store.WithoutName | services/backendSimulator.ts:33 | The filter never lengthens the history, and no survivor carries the filtered name. |
| Store.SaveToHistory | services/backendSimulator.ts:28-36 | The new item (missing or empty country becomes 'IN') is first, and it is the only item with that name. There are at most five items, and the rest are a prefix of the old list without that name, of length min(that list's length, 4). Cache and settings are unchanged. |
| Store.WithoutNameAppend | services/backendSimulator.ts:33 | The name filter distributes over concatenation, so survivors keep their relative order. |
| Store.WithoutNameDropsOnly | services/backendSimulator.ts:33 | Every survivor of the name filter was in the old history. |
| Store.WithoutNameKeepsOthers | services/backendSimulator.ts:33 | The name filter keeps every old item whose name differs. |
| Store.SaveKeepsNamesDistinct | services/backendSimulator.ts:33-34 | If the old history had distinct names, so does the new one. |
| Store.SaveNewName | services/backendSimulator.ts:28-34 | A name not yet present is put in front of the first four old items. |
| Store.SaveMovesToFront | services/backendSimulator.ts:33-34 | Re-saving a name found at position k takes that item out of its old place and puts the new item first. The name is never duplicated. |
| Store.LaterSaveWins | services/backendSimulator.ts:28-34 | Two saves of the same name in a row leave the history that the second save alone would leave. This holds for any coordinates, country, state and clock readings. |
| Store.ClearHistory | services/backendSimulator.ts:38-41 | After clearing, the history reads as empty. The cache and settings are unchanged. |
| Store.ClearedHistoryReadsEmpty | services/backendSimulator.ts:24-26 | An absent history key reads as the empty list, and so does a cleared one. |
| Store.GetCachedWeather | services/backendSimulator.ts:43-53 | An entry is returned iff one exists under the (lat to 2 dp, lon to 2 dp, unit) slot and now minus its timestamp is below 300000. A returned entry is the stored one. |
| Store.SetCachedWeather | services/backendSimulator.ts:55-60 | The slot now holds the new entry stamped `now`. Every other slot, the history and the settings are unchanged. |
| Store.SetThenGet | services/backendSimulator.ts:43-60 | After a set at t, a get at t' returns the stored data if t' - t < 300000 and nothing otherwise. |
| Store.SameSlotShared | services/backendSimulator.ts:45-57 | Coordinates with the same two-decimal text share a slot. The entry served keeps the coordinates it was stored with. |
| Store.SetLeavesOtherSlots | services/backendSimulator.ts:55-60 | Setting one slot does not change what a get on any other slot returns. |
| Store.LastSetWins | services/backendSimulator.ts:58 | When a slot is set twice, the second entry is the one served. |
| Store.FreshnessOnlyDecays | services/backendSimulator.ts:48-50 | There is no sliding expiry: an entry served at t2 is served unchanged at every earlier t1, and reading it never extends its life. |
| Store.GetSettings | services/backendSimulator.ts:62-65 | With nothing stored, the settings read as metric and not dark. Stored settings read back as stored. |
| Store.SaveSettings | services/backendSimulator.ts:67-70 | Saved settings read back as saved. History and cache are unchanged. |
| Store.SettingsRoundTrip | services/backendSimulator.ts:62-68 | With nothing stored, the settings read as metric and not dark. After a save, they read as saved. |
| Insight.BuildPrompt | services/geminiService.ts:13-15 | The prompt embeds the current temperature, description and humidity, the highs of the first min(n, 3) days in order, and the first day's rain probability. |
| Insight.GenerateInsight | services/geminiService.ts:5-35 | The result fails exactly when the client constructor throws (ClientFailed) or the forecast is empty (EmptyForecast, because `daily[0]` throws while the prompt is built). Both failures come before the call. Otherwise a non-empty reply is returned as is, an empty reply gives "No insights available for this location.", and a thrown call gives the fallback for (temp, daily[0].rainProb, windSpeed). |
| Insight.Fallback | services/geminiService.ts:29-33 | The fallback always returns one of the four fixed, non-empty messages. |
| Insight.FallbackDecisionTable | services/geminiService.ts:29-33 | Each fallback message is chosen exactly when its rule is the first to apply: heat iff temp > 30; rain iff temp <= 30 and rain > 50; breezy iff both fail and wind > 10; stable otherwise. |
| Insight.FallbackThresholdsStrict | services/geminiService.ts:30-32 | Boundary examples: readings exactly at 30, 50 and 10 do not fire their rules, while 31 and 51 do. The decision table states the rule for all inputs. |
| Insight.InsightNeverEmpty | services/geminiService.ts:6-33 | With a non-empty forecast, the result succeeds exactly when the client was constructed, and a success is never empty text. A thrown call on a day above 30 gives the heat message. |
| CurrentWeather.UnitLabels | components/CurrentWeather.tsx:13-14 | The temperature label is 'C' exactly for metric and 'F' exactly for imperial. The speed label is 'm/s' exactly for metric and 'mph' exactly for imperial. |
| CurrentWeather.DisplayLocation | components/CurrentWeather.tsx:16 | The headline is either the city or the searched name, and it is blank only when the city is blank. |
| CurrentWeather.ShowsSensorLine | components/CurrentWeather.tsx:54 | The "Sensor:" line is shown only when a searched name exists and differs from the station name. |
| CurrentWeather.UvStatus | components/CurrentWeather.tsx:19-25 | The category's rank equals the number of the bounds 2, 5, 7 and 10 that the index strictly exceeds. |
| CurrentWeather.UvStatusMonotone | components/CurrentWeather.tsx:19-25 | A higher UV index never gets a lower category. |
| CurrentWeather.UvStatusBoundaries | components/CurrentWeather.tsx:19-25 | For every index: up to 2 is Low, above 2 up to 5 is Moderate, above 5 up to 7 is High, above 7 up to 10 is Very High, and above 10 is Extreme. |
| CurrentWeather.UvDetail | components/CurrentWeather.tsx:103-110 | The UV card is present exactly when the UV index is defined, and it shows that index's category. |
| CurrentWeather.SensorLineIffHeadlineDiffers | components/CurrentWeather.tsx:16-54 | The "Sensor:" line is shown exactly when the headline differs from the station name. The headline is the searched name when that name is present and non-empty, and the city otherwise. |

## Left out

- Network calls and JSON decoding. This covers `fetchGeocoding`, the two
  `fetch` calls with their `!ok` errors in `fetchWeatherByCoords`, and
  building the `current` record from the provider's reply. These are I/O
  against an external API, so the model takes the raw list and `WeatherData`
  as inputs.
- `Math.round`, `pop * 100` and other floating-point details. Raw forecast
  entries carry already-rounded integer temperatures and a rounded percentage.
  The cache key's `toFixed(2)` is modelled on the exact real value of the
  coordinate, not on its binary double.
- `toLocaleDateString`. The calendar date of a timestamp is the function
  parameter `day`, because time zone and locale belong to the environment.
- `localStorage` and `JSON.stringify`/`JSON.parse`. The three keys are fields
  of `Storage`. Corrupt stored text is not modelled, because the code throws
  on it. A read returns the stored value itself, not a JSON copy. This
  assumes stored values survive the JSON round trip unchanged. That holds for
  the finite numbers and strings the dashboard stores, but a copy would drop
  `undefined` properties and turn `NaN` into `null`.
- Logging (`logBackendRequest`) and `Date.now()`. Logging has no effect on
  the state, and the clock is the parameter `now`.
- `saveSettings` accepts any object. The model stores the typed `Settings`
  record (unit and dark-mode flag) that the dashboard uses.
- The text-generation request itself (model name, request options). It is the
  parameter `service`. A reply whose `text` is undefined is modelled as an
  empty reply, because both give the same notice. Whether the client
  constructor at line 6 throws is the parameter `client`. A throw there is
  outside the `try`, so the model rejects instead of falling back.
- The literal prompt text. Only the figures it embeds are modelled (`Prompt`),
  not its wording or number formatting.
- Visibility formatting, icon URLs, date display and all React rendering
  beyond the helpers listed above. These are presentation.
