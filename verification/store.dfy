/** The browser-side store of backendSimulator.ts: a recent-location history,
    a weather cache with a fixed freshness window, and the user's settings.
    localStorage is the explicit value `Storage`, one optional field per key
    (None when the key is absent), and the clock reading is the parameter `now`. */
module Store {
  import opened Types

  /** A cache entry is served while it is younger than five minutes (in ms). */
  const FreshnessMs: int := 300000

  /** The history holds at most five locations. */
  const HistoryCap: nat := 5

  /** Country recorded when the caller gives none (or an empty one). */
  const DefaultCountry: string := "IN"

  // ---------------------------------------------------------------------------
  // Stored records
  // ---------------------------------------------------------------------------

  /** The text x.toFixed(2) for a coordinate: its sign and its magnitude
      rounded to hundredths. "-0.00" and "0.00" are different texts. */
  datatype Fixed2 = Fixed2(negative: bool, hundredths: nat)

  /** The cache slot `${lat.toFixed(2)}_${lon.toFixed(2)}_${unit}`. */
  datatype CacheKey = CacheKey(lat: Fixed2, lon: Fixed2, unit: string)

  datatype CacheEntry<D> = CacheEntry(timestamp: int, data: D, lat: real, lon: real, unit: string)

  datatype HistoryItem = HistoryItem(
    name: string,
    lat: real,
    lon: real,
    country: string,
    state: Option<string>,
    timestamp: int)

  datatype Settings = Settings(unit: Unit, darkMode: bool)

  /** The three localStorage keys the store owns. */
  datatype Storage<D> = Storage(
    history: Option<seq<HistoryItem>>,
    cache: Option<map<CacheKey, CacheEntry<D>>>,
    settings: Option<Settings>)

  const DefaultSettings: Settings := Settings(Metric, false)

  // ---------------------------------------------------------------------------
  // Cache keys
  // ---------------------------------------------------------------------------

  function Magnitude(x: real): real {
    if x < 0.0 then -x else x
  }

  /** Number.prototype.toFixed(2) on the exact value x: the sign is kept
      separately and the magnitude goes to the nearest hundredth, ties up. */
  function ToFixed2(x: real): (r: Fixed2)
    ensures r.negative <==> x < 0.0
    ensures r.hundredths as real - 0.5 <= Magnitude(x) * 100.0 < r.hundredths as real + 0.5
  {
    Fixed2(x < 0.0, (Magnitude(x) * 100.0 + 0.5).Floor)
  }

  function KeyOf(lat: real, lon: real, unit: string): CacheKey {
    CacheKey(ToFixed2(lat), ToFixed2(lon), unit)
  }

  // ---------------------------------------------------------------------------
  // Location history
  // ---------------------------------------------------------------------------

  /** No two history items share a name. */
  ghost predicate NamesDistinct(h: seq<HistoryItem>) {
    forall i, j :: 0 <= i < j < |h| ==> h[i].name != h[j].name
  }

  /** getHistory: an absent key reads as the empty list. */
  function GetHistory<D>(s: Storage<D>): (h: seq<HistoryItem>)
    ensures s.history.None? ==> h == []
    ensures s.history.Some? ==> h == s.history.value
  {
    s.history.GetOr([])
  }

  /** history.filter(h => h.name !== name) */
  function WithoutName(h: seq<HistoryItem>, name: string): (r: seq<HistoryItem>)
    ensures |r| <= |h|
    ensures forall i :: 0 <= i < |r| ==> r[i].name != name
    decreases |h|
  {
    if |h| == 0 then []
    else (if h[0].name == name then [] else [h[0]]) + WithoutName(h[1..], name)
  }

  /** `country || 'IN'`: a missing or empty country becomes the default. */
  function CountryOrDefault(country: Option<string>): string {
    if country.None? || country.value == "" then DefaultCountry else country.value
  }

  /** saveToHistory: the new item goes first, followed by at most four of the
      old items, those with a different name, in their old order. */
  function SaveToHistory<D>(s: Storage<D>, name: string, lat: real, lon: real,
                            country: Option<string>, state: Option<string>, now: int): (r: Storage<D>)
    ensures r.cache == s.cache && r.settings == s.settings
    ensures var h := GetHistory(r);
      && 1 <= |h| <= HistoryCap
      && h[0] == HistoryItem(name, lat, lon, CountryOrDefault(country), state, now)
      && (forall i :: 0 <= i < |h| ==> (h[i].name == name <==> i == 0))
      && h[1..] <= WithoutName(GetHistory(s), name)
      && |h| == Min(|WithoutName(GetHistory(s), name)|, HistoryCap - 1) + 1
  {
    var item := HistoryItem(name, lat, lon, CountryOrDefault(country), state, now);
    s.(history := Some([item] + Take(WithoutName(GetHistory(s), name), HistoryCap - 1)))
  }

  /** clearHistory: the key is removed. */
  function ClearHistory<D>(s: Storage<D>): (r: Storage<D>)
    ensures GetHistory(r) == []
    ensures r.cache == s.cache && r.settings == s.settings
  {
    s.(history := None)
  }

  // ---------------------------------------------------------------------------
  // Weather cache
  // ---------------------------------------------------------------------------

  /** The cache object: an absent key reads as the empty object. */
  function CacheOf<D>(s: Storage<D>): map<CacheKey, CacheEntry<D>> {
    s.cache.GetOr(map[])
  }

  /** getCachedWeather: the entry under the coordinates' slot, while fresh.
      Reading never touches the stored timestamp. */
  function GetCachedWeather<D>(s: Storage<D>, lat: real, lon: real, unit: string, now: int): (r: Option<CacheEntry<D>>)
    ensures r.Some? <==> KeyOf(lat, lon, unit) in CacheOf(s) && now - CacheOf(s)[KeyOf(lat, lon, unit)].timestamp < FreshnessMs
    ensures r.Some? ==> r.value == CacheOf(s)[KeyOf(lat, lon, unit)]
  {
    var cache := CacheOf(s);
    var key := KeyOf(lat, lon, unit);
    if key in cache && now - cache[key].timestamp < FreshnessMs then Some(cache[key]) else None
  }

  /** setCachedWeather: overwrite the slot with a new entry stamped `now`. */
  function SetCachedWeather<D>(s: Storage<D>, lat: real, lon: real, unit: string, data: D, now: int): (r: Storage<D>)
    ensures r.history == s.history && r.settings == s.settings
    ensures KeyOf(lat, lon, unit) in CacheOf(r)
    ensures CacheOf(r)[KeyOf(lat, lon, unit)] == CacheEntry(now, data, lat, lon, unit)
    ensures forall k :: k != KeyOf(lat, lon, unit) ==> (k in CacheOf(r) <==> k in CacheOf(s))
    ensures forall k :: k != KeyOf(lat, lon, unit) && k in CacheOf(s) ==> CacheOf(r)[k] == CacheOf(s)[k]
  {
    s.(cache := Some(CacheOf(s)[KeyOf(lat, lon, unit) := CacheEntry(now, data, lat, lon, unit)]))
  }

  // ---------------------------------------------------------------------------
  // Settings
  // ---------------------------------------------------------------------------

  /** getSettings: the stored settings, or metric / light when absent. */
  function GetSettings<D>(s: Storage<D>): (settings: Settings)
    ensures s.settings.None? ==> settings.unit == Metric && !settings.darkMode
    ensures s.settings.Some? ==> settings == s.settings.value
  {
    s.settings.GetOr(DefaultSettings)
  }

  /** saveSettings: replace the stored settings. */
  function SaveSettings<D>(s: Storage<D>, settings: Settings): (r: Storage<D>)
    ensures GetSettings(r) == settings
    ensures r.history == s.history && r.cache == s.cache
  {
    s.(settings := Some(settings))
  }

  // ---------------------------------------------------------------------------
  // Properties of the history
  // ---------------------------------------------------------------------------

  /** Filtering keeps relative order: it distributes over concatenation. */
  lemma {:induction false} WithoutNameAppend(a: seq<HistoryItem>, b: seq<HistoryItem>, name: string)
    ensures WithoutName(a + b, name) == WithoutName(a, name) + WithoutName(b, name)
    decreases |a|
  {
    if |a| == 0 {
      assert a + b == b;
    } else {
      assert (a + b)[1..] == a[1..] + b;
      WithoutNameAppend(a[1..], b, name);
    }
  }

  /** Filtering keeps only items of the original list ... */
  lemma {:induction false} WithoutNameDropsOnly(h: seq<HistoryItem>, name: string, x: HistoryItem)
    requires x in WithoutName(h, name)
    ensures x in h
    decreases |h|
  {
    if h[0] != x {
      WithoutNameDropsOnly(h[1..], name, x);
    }
  }

  /** ... and keeps every item with a different name. */
  lemma {:induction false} WithoutNameKeepsOthers(h: seq<HistoryItem>, name: string, x: HistoryItem)
    requires x in h && x.name != name
    ensures x in WithoutName(h, name)
    decreases |h|
  {
    if h[0] != x {
      assert x in h[1..];
      WithoutNameKeepsOthers(h[1..], name, x);
    }
  }

  /** Filtering out a name nobody has changes nothing. */
  lemma {:induction false} WithoutAbsentName(h: seq<HistoryItem>, name: string)
    requires forall i :: 0 <= i < |h| ==> h[i].name != name
    ensures WithoutName(h, name) == h
    decreases |h|
  {
    if |h| > 0 {
      WithoutAbsentName(h[1..], name);
    }
  }

  lemma {:induction false} WithoutNameKeepsDistinct(h: seq<HistoryItem>, name: string)
    requires NamesDistinct(h)
    ensures NamesDistinct(WithoutName(h, name))
    decreases |h|
  {
    if |h| > 0 {
      var tail := WithoutName(h[1..], name);
      assert NamesDistinct(h[1..]);
      WithoutNameKeepsDistinct(h[1..], name);
      if h[0].name != name {
        var r := [h[0]] + tail;
        forall i, j | 0 <= i < j < |r|
          ensures r[i].name != r[j].name
        {
          if i == 0 {
            WithoutNameDropsOnly(h[1..], name, r[j]);
            var k :| 0 <= k < |h[1..]| && h[1..][k] == r[j];
            assert h[k + 1] == r[j];
          } else {
            assert r[i] == tail[i - 1] && r[j] == tail[j - 1];
          }
        }
      }
    }
  }

  /** Saving keeps the history free of duplicate names. */
  lemma SaveKeepsNamesDistinct<D>(s: Storage<D>, name: string, lat: real, lon: real,
                                  country: Option<string>, state: Option<string>, now: int)
    requires NamesDistinct(GetHistory(s))
    ensures NamesDistinct(GetHistory(SaveToHistory(s, name, lat, lon, country, state, now)))
  {
    var w := WithoutName(GetHistory(s), name);
    WithoutNameKeepsDistinct(GetHistory(s), name);
    var h := GetHistory(SaveToHistory(s, name, lat, lon, country, state, now));
    forall i, j | 0 <= i < j < |h|
      ensures h[i].name != h[j].name
    {
      if i > 0 {
        assert h[i] == w[i - 1] && h[j] == w[j - 1];
      }
    }
  }

  /** A name not yet in the history pushes the old list down by one place. */
  lemma SaveNewName<D>(s: Storage<D>, name: string, lat: real, lon: real,
                       country: Option<string>, state: Option<string>, now: int)
    requires forall i :: 0 <= i < |GetHistory(s)| ==> GetHistory(s)[i].name != name
    ensures GetHistory(SaveToHistory(s, name, lat, lon, country, state, now))
         == [HistoryItem(name, lat, lon, CountryOrDefault(country), state, now)] + Take(GetHistory(s), HistoryCap - 1)
  {
    WithoutAbsentName(GetHistory(s), name);
  }

  /** Filtering out the name of one item, with no other item of that name,
      removes exactly that item. */
  lemma WithoutNameSplice(before: seq<HistoryItem>, x: HistoryItem, after: seq<HistoryItem>, name: string)
    requires forall i :: 0 <= i < |before| ==> before[i].name != name
    requires forall i :: 0 <= i < |after| ==> after[i].name != name
    requires x.name == name
    ensures WithoutName(before + [x] + after, name) == before + after
  {
    WithoutAbsentName(before, name);
    WithoutAbsentName(after, name);
    assert WithoutName([x], name) == [] by {
      assert [x][1..] == [];
    }
    WithoutNameAppend([x], after, name);
    var tail := [x] + after;
    assert WithoutName(tail, name) == after;
    WithoutNameAppend(before, tail, name);
    assert before + [x] + after == before + tail;
  }

  /** In a history without duplicate names, filtering out the name held at
      position k removes exactly that item. */
  lemma WithoutNameAt(prior: seq<HistoryItem>, k: nat, name: string)
    requires NamesDistinct(prior)
    requires k < |prior| && prior[k].name == name
    ensures WithoutName(prior, name) == prior[..k] + prior[k + 1..]
  {
    var before := prior[..k];
    var after := prior[k + 1..];
    forall i | 0 <= i < |before|
      ensures before[i].name != name
    {
      assert before[i] == prior[i];
    }
    forall i | 0 <= i < |after|
      ensures after[i].name != name
    {
      assert after[i] == prior[k + 1 + i];
    }
    WithoutNameSplice(before, prior[k], after, name);
    assert prior == before + [prior[k]] + after;
  }

  /** Re-saving a name already at position k moves it to the front: the item
      is taken out of its old place rather than duplicated. */
  lemma SaveMovesToFront<D>(s: Storage<D>, k: nat, name: string, lat: real, lon: real,
                            country: Option<string>, state: Option<string>, now: int)
    requires NamesDistinct(GetHistory(s))
    requires k < |GetHistory(s)| && GetHistory(s)[k].name == name
    ensures var prior := GetHistory(s);
      GetHistory(SaveToHistory(s, name, lat, lon, country, state, now))
        == [HistoryItem(name, lat, lon, CountryOrDefault(country), state, now)] + Take(prior[..k] + prior[k + 1..], HistoryCap - 1)
  {
    WithoutNameAt(GetHistory(s), k, name);
  }

  /** Saving a name again replaces the earlier save: two saves of one name in
      a row, with any coordinates, country, state and clock readings, leave
      the history the second save alone would leave. */
  lemma LaterSaveWins<D>(s: Storage<D>, name: string,
                            lat1: real, lon1: real, country1: Option<string>, state1: Option<string>, t1: int,
                            lat2: real, lon2: real, country2: Option<string>, state2: Option<string>, t2: int)
    ensures var once := SaveToHistory(s, name, lat1, lon1, country1, state1, t1);
      GetHistory(SaveToHistory(once, name, lat2, lon2, country2, state2, t2))
        == GetHistory(SaveToHistory(s, name, lat2, lon2, country2, state2, t2))
  {
    var once := SaveToHistory(s, name, lat1, lon1, country1, state1, t1);
    var h := GetHistory(once);
    var rest := h[1..];
    assert h == [h[0]] + rest;
    WithoutNameAppend([h[0]], rest, name);
    assert WithoutName([h[0]], name) == [] by {
      assert [h[0]][1..] == [];
    }
    WithoutAbsentName(rest, name);
    assert WithoutName(h, name) == rest;
    assert Take(rest, HistoryCap - 1) == rest;
    var kept := Take(WithoutName(GetHistory(s), name), HistoryCap - 1);
    assert rest == kept;
  }

  /** An absent history reads as empty, and so does a cleared one. */
  lemma ClearedHistoryReadsEmpty<D>(s: Storage<D>)
    ensures s.history.None? ==> GetHistory(s) == []
    ensures GetHistory(ClearHistory(s)) == []
  {
  }

  // ---------------------------------------------------------------------------
  // Properties of the cache
  // ---------------------------------------------------------------------------

  /** A set entry is served for strictly less than the freshness window, then never. */
  lemma SetThenGet<D>(s: Storage<D>, lat: real, lon: real, unit: string, data: D, t: int, t': int)
    ensures GetCachedWeather(SetCachedWeather(s, lat, lon, unit, data, t), lat, lon, unit, t')
         == if t' - t < FreshnessMs then Some(CacheEntry(t, data, lat, lon, unit)) else None
  {
  }

  /** Coordinates with the same two-decimal text share one slot; the entry
      served keeps the coordinates it was stored with. */
  lemma SameSlotShared<D>(s: Storage<D>, lat: real, lon: real, lat': real, lon': real,
                          unit: string, data: D, t: int, t': int)
    requires ToFixed2(lat) == ToFixed2(lat') && ToFixed2(lon) == ToFixed2(lon')
    requires t' - t < FreshnessMs
    ensures GetCachedWeather(SetCachedWeather(s, lat, lon, unit, data, t), lat', lon', unit, t')
         == Some(CacheEntry(t, data, lat, lon, unit))
  {
  }

  /** Setting one slot does not change what any other slot serves. */
  lemma SetLeavesOtherSlots<D>(s: Storage<D>, lat: real, lon: real, unit: string, data: D, t: int,
                               lat': real, lon': real, unit': string, now: int)
    requires KeyOf(lat', lon', unit') != KeyOf(lat, lon, unit)
    ensures GetCachedWeather(SetCachedWeather(s, lat, lon, unit, data, t), lat', lon', unit', now)
         == GetCachedWeather(s, lat', lon', unit', now)
  {
  }

  /** The later of two writes to a slot is the one served. */
  lemma LastSetWins<D>(s: Storage<D>, lat: real, lon: real, unit: string, d1: D, t1: int, d2: D, t2: int, now: int)
    requires now - t2 < FreshnessMs
    ensures var s2 := SetCachedWeather(SetCachedWeather(s, lat, lon, unit, d1, t1), lat, lon, unit, d2, t2);
      GetCachedWeather(s2, lat, lon, unit, now) == Some(CacheEntry(t2, d2, lat, lon, unit))
  {
  }

  /** No sliding expiration: an entry served at some time was served at every
      earlier time too, and reads never extend its life. */
  lemma FreshnessOnlyDecays<D>(s: Storage<D>, lat: real, lon: real, unit: string, t1: int, t2: int)
    requires t1 <= t2
    requires GetCachedWeather(s, lat, lon, unit, t2).Some?
    ensures GetCachedWeather(s, lat, lon, unit, t1) == GetCachedWeather(s, lat, lon, unit, t2)
  {
  }

  /** toFixed(2) keeps the sign of a value that rounds to zero, so a tiny
      negative and a tiny positive coordinate use different slots. */
  lemma SignedZeroSlots(unit: string)
    ensures ToFixed2(-0.001) == Fixed2(true, 0) && ToFixed2(0.001) == Fixed2(false, 0)
    ensures KeyOf(-0.001, 0.0, unit) != KeyOf(0.001, 0.0, unit)
  {
  }

  /** An exact half-hundredth rounds away from zero. */
  lemma HalfHundredthRoundsUp()
    ensures ToFixed2(0.125) == Fixed2(false, 13)
    ensures ToFixed2(-0.125) == Fixed2(true, 13)
  {
  }

  // ---------------------------------------------------------------------------
  // Properties of the settings
  // ---------------------------------------------------------------------------

  /** With nothing stored the settings are metric units and the light theme;
      saved settings read back as saved. */
  lemma SettingsRoundTrip<D>(s: Storage<D>, settings: Settings)
    ensures s.settings.None? ==> GetSettings(s) == Settings(Metric, false)
    ensures GetSettings(SaveSettings(s, settings)) == settings
  {
  }
}
