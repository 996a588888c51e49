/** The post-processing of fetchWeatherByCoords: the provider's 3-hour forecast
    list becomes an hourly prefix and a per-calendar-day roll-up. Rounding of
    the provider's decimals and the local-time date string are abstracted: raw
    entries carry rounded integers, and the date of a timestamp is the function
    `day` passed in. */
module Forecast {
  import opened Types

  /** Number of 3-hour slots shown as the hourly forecast (about 24 hours). */
  const HourlyCount: nat := 8

  /** Maximum number of calendar days in the daily roll-up. */
  const DailyCount: nat := 7

  /** One element of the provider's forecast list. Temperatures are already
      rounded; `pop` is the precipitation probability as a rounded whole
      percentage, None when the provider omits the field. */
  datatype RawEntry = RawEntry(
    dt: int,
    temp: int,
    tempMin: int,
    tempMax: int,
    description: string,
    icon: string,
    pop: Option<int>,
    humidity: int)

  /** Rain probability of a raw entry: a missing `pop` reads as 0. */
  function RainProb(e: RawEntry): int {
    e.pop.GetOr(0)
  }

  // ---------------------------------------------------------------------------
  // Hourly forecast
  // ---------------------------------------------------------------------------

  /** h is the hourly point built from the raw entry e. */
  predicate Describes(h: HourlyPoint, e: RawEntry) {
    && h.dt == e.dt
    && h.temp == e.temp
    && h.description == e.description
    && h.icon == e.icon
    && h.rainProb == RainProb(e)
    && h.humidity == e.humidity
  }

  function ToHourly(e: RawEntry): HourlyPoint {
    HourlyPoint(e.dt, e.temp, e.description, e.icon, RainProb(e), e.humidity)
  }

  function MapToHourly(list: seq<RawEntry>): (r: seq<HourlyPoint>)
    ensures |r| == |list|
    ensures forall i :: 0 <= i < |r| ==> Describes(r[i], list[i])
    decreases |list|
  {
    if |list| == 0 then [] else [ToHourly(list[0])] + MapToHourly(list[1..])
  }

  /** The hourly forecast: the first eight raw entries, point for point. */
  function Hourly(list: seq<RawEntry>): (r: seq<HourlyPoint>)
    ensures |r| == Min(|list|, HourlyCount)
    ensures forall i :: 0 <= i < |r| ==> Describes(r[i], list[i])
  {
    MapToHourly(Take(list, HourlyCount))
  }

  // ---------------------------------------------------------------------------
  // Daily roll-up: the forEach over the list that fills `dailyMap`
  // ---------------------------------------------------------------------------

  /** The daily record a day's first reading creates. */
  function Seed(e: RawEntry): DailyPoint {
    DailyPoint(e.dt, e.temp, e.tempMin, e.tempMax, e.description, e.icon, RainProb(e), e.humidity)
  }

  /** A later reading of the same day: only the temperature range moves. */
  function Extend(p: DailyPoint, e: RawEntry): DailyPoint {
    p.(minTemp := Min(p.minTemp, e.tempMin), maxTemp := Max(p.maxTemp, e.tempMax))
  }

  /** Position of the record for day k in the insertion-ordered map, if any
      (`dailyMap.has(date)` / `dailyMap.get(date)`). */
  function FindDay(acc: seq<DailyPoint>, day: int -> string, k: string): (r: Option<nat>)
    ensures r.Some? ==> r.value < |acc| && day(acc[r.value].dt) == k
    ensures r.None? ==> forall i :: 0 <= i < |acc| ==> day(acc[i].dt) != k
    decreases |acc|
  {
    if |acc| == 0 then None
    else if day(acc[0].dt) == k then Some(0)
    else
      match FindDay(acc[1..], day, k)
      case None => None
      case Some(i) => Some(i + 1)
  }

  /** p and q carry the same reading; only the day's range may differ. */
  predicate SameReading(p: DailyPoint, q: DailyPoint) {
    && p.dt == q.dt
    && p.temp == q.temp
    && p.description == q.description
    && p.icon == q.icon
    && p.rainProb == q.rainProb
    && p.humidity == q.humidity
  }

  /** One iteration of the forEach: seed a new day at the end of the map, or
      widen the range of the day already there. */
  function Absorb(acc: seq<DailyPoint>, e: RawEntry, day: int -> string): (r: seq<DailyPoint>)
    ensures |acc| <= |r| <= |acc| + 1
  {
    match FindDay(acc, day, day(e.dt))
    case None => acc + [Seed(e)]
    case Some(i) => acc[i := Extend(acc[i], e)]
  }

  /** The values of `dailyMap` after the whole list, in insertion order. */
  function Roll(list: seq<RawEntry>, day: int -> string): (r: seq<DailyPoint>)
    ensures |r| <= |list|
    ensures |list| > 0 ==> |r| > 0
    decreases |list|
  {
    if |list| == 0 then [] else Absorb(Roll(list[..|list| - 1], day), list[|list| - 1], day)
  }

  /** The daily forecast: the first seven days of the roll-up. */
  function Daily(list: seq<RawEntry>, day: int -> string): (r: seq<DailyPoint>)
    ensures |r| <= DailyCount && |r| <= |list|
    ensures |list| > 0 ==> |r| > 0
  {
    Take(Roll(list, day), DailyCount)
  }

  // ---------------------------------------------------------------------------
  // What a roll-up is, independently of how it is computed
  // ---------------------------------------------------------------------------

  /** The distinct calendar days among the raw entries. */
  ghost function DaysIn(list: seq<RawEntry>, day: int -> string): set<string> {
    set j | 0 <= j < |list| :: day(list[j].dt)
  }

  /** The calendar days of the daily records. */
  ghost function DaysOut(r: seq<DailyPoint>, day: int -> string): set<string> {
    set i | 0 <= i < |r| :: day(r[i].dt)
  }

  /** Index of the first raw entry that falls on day k. */
  ghost function FirstIndex(list: seq<RawEntry>, day: int -> string, k: string): (f: nat)
    requires k in DaysIn(list, day)
    ensures f < |list| && day(list[f].dt) == k
    ensures forall j :: 0 <= j < f ==> day(list[j].dt) != k
    decreases |list|
  {
    if day(list[0].dt) == k then 0
    else
      assert k in DaysIn(list[1..], day) by {
        var j :| 0 <= j < |list| && day(list[j].dt) == k;
        assert list[1..][j - 1] == list[j];
      }
      1 + FirstIndex(list[1..], day, k)
  }

  /** p carries the reading of e, apart from the day's temperature range. */
  predicate Seeds(e: RawEntry, p: DailyPoint) {
    && p.dt == e.dt
    && p.temp == e.temp
    && p.description == e.description
    && p.icon == e.icon
    && p.rainProb == RainProb(e)
    && p.humidity == e.humidity
  }

  /** No two daily records fall on the same day. */
  ghost predicate DistinctDays(r: seq<DailyPoint>, day: int -> string) {
    forall i, j :: 0 <= i < j < |r| ==> day(r[i].dt) != day(r[j].dt)
  }

  /** Each record is the reading of the first raw entry of its day. */
  ghost predicate SeededByFirst(list: seq<RawEntry>, r: seq<DailyPoint>, day: int -> string) {
    forall i :: 0 <= i < |r| ==>
      day(r[i].dt) in DaysIn(list, day) && Seeds(list[FirstIndex(list, day, day(r[i].dt))], r[i])
  }

  /** Records appear in the order their day was first encountered. */
  ghost predicate FirstSeenOrder(list: seq<RawEntry>, r: seq<DailyPoint>, day: int -> string) {
    forall i, j :: 0 <= i < j < |r| && day(r[i].dt) in DaysIn(list, day) && day(r[j].dt) in DaysIn(list, day) ==>
      FirstIndex(list, day, day(r[i].dt)) < FirstIndex(list, day, day(r[j].dt))
  }

  /** Each record's range covers every raw entry of its day ... */
  ghost predicate RangeCovers(list: seq<RawEntry>, r: seq<DailyPoint>, day: int -> string) {
    forall i, j :: 0 <= i < |r| && 0 <= j < |list| && day(list[j].dt) == day(r[i].dt) ==>
      r[i].minTemp <= list[j].tempMin && list[j].tempMax <= r[i].maxTemp
  }

  /** ... and both of its ends are readings of that day. */
  ghost predicate RangeAttained(list: seq<RawEntry>, r: seq<DailyPoint>, day: int -> string) {
    forall i :: 0 <= i < |r| ==>
      && (exists j :: 0 <= j < |list| && day(list[j].dt) == day(r[i].dt) && list[j].tempMin == r[i].minTemp)
      && (exists j :: 0 <= j < |list| && day(list[j].dt) == day(r[i].dt) && list[j].tempMax == r[i].maxTemp)
  }

  /** The properties every prefix of the roll-up has. */
  ghost predicate DailyShape(list: seq<RawEntry>, r: seq<DailyPoint>, day: int -> string) {
    && DistinctDays(r, day)
    && SeededByFirst(list, r, day)
    && FirstSeenOrder(list, r, day)
    && RangeCovers(list, r, day)
    && RangeAttained(list, r, day)
  }

  /** r is the complete roll-up of list: one record per distinct day. */
  ghost predicate IsRollUp(list: seq<RawEntry>, r: seq<DailyPoint>, day: int -> string) {
    DailyShape(list, r, day) && DaysOut(r, day) == DaysIn(list, day)
  }

  // ---------------------------------------------------------------------------
  // Facts about days and first occurrences
  // ---------------------------------------------------------------------------

  lemma DaysInAppend(pre: seq<RawEntry>, e: RawEntry, day: int -> string)
    ensures DaysIn(pre + [e], day) == DaysIn(pre, day) + {day(e.dt)}
  {
    var list := pre + [e];
    forall k | k in DaysIn(list, day)
      ensures k in DaysIn(pre, day) + {day(e.dt)}
    {
      var j :| 0 <= j < |list| && day(list[j].dt) == k;
      if j < |pre| {
        assert list[j] == pre[j];
      }
    }
    forall k | k in DaysIn(pre, day)
      ensures k in DaysIn(list, day)
    {
      var j :| 0 <= j < |pre| && day(pre[j].dt) == k;
      assert list[j] == pre[j];
    }
    assert list[|pre|] == e;
  }

  lemma FirstIndexExtends(pre: seq<RawEntry>, e: RawEntry, day: int -> string, k: string)
    requires k in DaysIn(pre, day)
    ensures k in DaysIn(pre + [e], day)
    ensures FirstIndex(pre + [e], day, k) == FirstIndex(pre, day, k)
  {
    DaysInAppend(pre, e, day);
    var list := pre + [e];
    var f := FirstIndex(pre, day, k);
    var g := FirstIndex(list, day, k);
    assert list[f] == pre[f];
    if g < f {
      assert false;
    }
  }

  lemma FirstIndexOfNewDay(pre: seq<RawEntry>, e: RawEntry, day: int -> string)
    requires day(e.dt) !in DaysIn(pre, day)
    ensures day(e.dt) in DaysIn(pre + [e], day)
    ensures FirstIndex(pre + [e], day, day(e.dt)) == |pre|
  {
    DaysInAppend(pre, e, day);
    var list := pre + [e];
    var g := FirstIndex(list, day, day(e.dt));
    if g < |pre| {
      assert false;
    }
  }

  // ---------------------------------------------------------------------------
  // One iteration keeps the roll-up complete and correct
  // ---------------------------------------------------------------------------

  lemma NewDayDistinct(acc: seq<DailyPoint>, e: RawEntry, day: int -> string)
    requires DistinctDays(acc, day)
    requires day(e.dt) !in DaysOut(acc, day)
    ensures DistinctDays(acc + [Seed(e)], day)
  {
    var r := acc + [Seed(e)];
    forall i, j | 0 <= i < j < |r|
      ensures day(r[i].dt) != day(r[j].dt)
    {
      assert r[i] == acc[i];
      if j == |acc| {
        assert day(acc[i].dt) in DaysOut(acc, day);
      } else {
        assert r[j] == acc[j];
      }
    }
  }

  lemma NewDaySeeded(pre: seq<RawEntry>, acc: seq<DailyPoint>, e: RawEntry, day: int -> string)
    requires SeededByFirst(pre, acc, day)
    requires day(e.dt) !in DaysIn(pre, day)
    ensures SeededByFirst(pre + [e], acc + [Seed(e)], day)
  {
    var list := pre + [e];
    var r := acc + [Seed(e)];
    FirstIndexOfNewDay(pre, e, day);
    forall i | 0 <= i < |r|
      ensures day(r[i].dt) in DaysIn(list, day) && Seeds(list[FirstIndex(list, day, day(r[i].dt))], r[i])
    {
      if i < |acc| {
        assert r[i] == acc[i];
        var f := FirstIndex(pre, day, day(acc[i].dt));
        FirstIndexExtends(pre, e, day, day(acc[i].dt));
        assert list[f] == pre[f];
      } else {
        assert list[|pre|] == e;
      }
    }
  }

  lemma NewDayOrder(pre: seq<RawEntry>, acc: seq<DailyPoint>, e: RawEntry, day: int -> string)
    requires FirstSeenOrder(pre, acc, day)
    requires DaysOut(acc, day) == DaysIn(pre, day)
    requires day(e.dt) !in DaysIn(pre, day)
    ensures FirstSeenOrder(pre + [e], acc + [Seed(e)], day)
  {
    var list := pre + [e];
    var r := acc + [Seed(e)];
    FirstIndexOfNewDay(pre, e, day);
    forall i, j | 0 <= i < j < |r| && day(r[i].dt) in DaysIn(list, day) && day(r[j].dt) in DaysIn(list, day)
      ensures FirstIndex(list, day, day(r[i].dt)) < FirstIndex(list, day, day(r[j].dt))
    {
      assert r[i] == acc[i];
      assert day(acc[i].dt) in DaysOut(acc, day);
      FirstIndexExtends(pre, e, day, day(acc[i].dt));
      if j < |acc| {
        assert r[j] == acc[j];
        assert day(acc[j].dt) in DaysOut(acc, day);
        FirstIndexExtends(pre, e, day, day(acc[j].dt));
      }
    }
  }

  lemma NewDayRange(pre: seq<RawEntry>, acc: seq<DailyPoint>, e: RawEntry, day: int -> string)
    requires RangeCovers(pre, acc, day) && RangeAttained(pre, acc, day)
    requires DaysOut(acc, day) == DaysIn(pre, day)
    requires day(e.dt) !in DaysIn(pre, day)
    ensures RangeCovers(pre + [e], acc + [Seed(e)], day)
    ensures RangeAttained(pre + [e], acc + [Seed(e)], day)
  {
    var list := pre + [e];
    var r := acc + [Seed(e)];
    assert list[|pre|] == e;
    forall i, j | 0 <= i < |r| && 0 <= j < |list| && day(list[j].dt) == day(r[i].dt)
      ensures r[i].minTemp <= list[j].tempMin && list[j].tempMax <= r[i].maxTemp
    {
      if i < |acc| {
        assert r[i] == acc[i];
        assert day(acc[i].dt) in DaysOut(acc, day);
        if j < |pre| {
          assert list[j] == pre[j];
        }
      } else if j < |pre| {
        assert false;
      }
    }
    forall i | 0 <= i < |r|
      ensures exists j :: 0 <= j < |list| && day(list[j].dt) == day(r[i].dt) && list[j].tempMin == r[i].minTemp
      ensures exists j :: 0 <= j < |list| && day(list[j].dt) == day(r[i].dt) && list[j].tempMax == r[i].maxTemp
    {
      if i < |acc| {
        assert r[i] == acc[i];
        var j1 :| 0 <= j1 < |pre| && day(pre[j1].dt) == day(acc[i].dt) && pre[j1].tempMin == acc[i].minTemp;
        var j2 :| 0 <= j2 < |pre| && day(pre[j2].dt) == day(acc[i].dt) && pre[j2].tempMax == acc[i].maxTemp;
        assert list[j1] == pre[j1] && list[j2] == pre[j2];
      } else {
        assert day(list[|pre|].dt) == day(r[i].dt);
      }
    }
  }

  lemma NewDayDays(pre: seq<RawEntry>, acc: seq<DailyPoint>, e: RawEntry, day: int -> string)
    requires DaysOut(acc, day) == DaysIn(pre, day)
    ensures DaysOut(acc + [Seed(e)], day) == DaysIn(pre + [e], day)
  {
    var r := acc + [Seed(e)];
    DaysInAppend(pre, e, day);
    forall k | k in DaysOut(r, day)
      ensures k in DaysOut(acc, day) + {day(e.dt)}
    {
      var i :| 0 <= i < |r| && day(r[i].dt) == k;
      if i < |acc| {
        assert r[i] == acc[i];
        assert day(acc[i].dt) in DaysOut(acc, day);
      }
    }
    forall k | k in DaysOut(acc, day)
      ensures k in DaysOut(r, day)
    {
      var i :| 0 <= i < |acc| && day(acc[i].dt) == k;
      assert r[i] == acc[i];
    }
    assert r[|acc|] == Seed(e);
  }

  /** A reading of a day not seen before appends that day's seed record. */
  lemma AbsorbNewDay(pre: seq<RawEntry>, acc: seq<DailyPoint>, e: RawEntry, day: int -> string)
    requires IsRollUp(pre, acc, day)
    requires day(e.dt) !in DaysOut(acc, day)
    ensures IsRollUp(pre + [e], acc + [Seed(e)], day)
  {
    NewDayDistinct(acc, e, day);
    NewDaySeeded(pre, acc, e, day);
    NewDayOrder(pre, acc, e, day);
    NewDayRange(pre, acc, e, day);
    NewDayDays(pre, acc, e, day);
  }

  lemma KnownDayKeys(pre: seq<RawEntry>, acc: seq<DailyPoint>, e: RawEntry, day: int -> string, m: nat)
    requires DistinctDays(acc, day) && SeededByFirst(pre, acc, day) && FirstSeenOrder(pre, acc, day)
    requires DaysOut(acc, day) == DaysIn(pre, day)
    requires m < |acc| && day(acc[m].dt) == day(e.dt)
    ensures DistinctDays(acc[m := Extend(acc[m], e)], day)
    ensures SeededByFirst(pre + [e], acc[m := Extend(acc[m], e)], day)
    ensures FirstSeenOrder(pre + [e], acc[m := Extend(acc[m], e)], day)
    ensures DaysOut(acc[m := Extend(acc[m], e)], day) == DaysIn(pre + [e], day)
  {
    var list := pre + [e];
    var r := acc[m := Extend(acc[m], e)];
    DaysInAppend(pre, e, day);
    assert day(acc[m].dt) in DaysOut(acc, day);
    assert DaysIn(list, day) == DaysIn(pre, day);
    forall i | 0 <= i < |acc|
      ensures r[i].dt == acc[i].dt && day(acc[i].dt) in DaysIn(pre, day)
      ensures FirstIndex(list, day, day(acc[i].dt)) == FirstIndex(pre, day, day(acc[i].dt))
    {
      assert day(acc[i].dt) in DaysOut(acc, day);
      FirstIndexExtends(pre, e, day, day(acc[i].dt));
    }
    forall i | 0 <= i < |r|
      ensures Seeds(list[FirstIndex(list, day, day(r[i].dt))], r[i])
    {
      var f := FirstIndex(pre, day, day(acc[i].dt));
      assert list[f] == pre[f];
      assert Seeds(pre[f], acc[i]);
    }
    SameStampsSameDays(acc, r, day);
  }

  /** Records with the same timestamps, position by position, cover the same days. */
  lemma SameStampsSameDays(a: seq<DailyPoint>, b: seq<DailyPoint>, day: int -> string)
    requires |a| == |b|
    requires forall i :: 0 <= i < |a| ==> a[i].dt == b[i].dt
    ensures DaysOut(a, day) == DaysOut(b, day)
  {
    forall k | k in DaysOut(b, day)
      ensures k in DaysOut(a, day)
    {
      var i :| 0 <= i < |b| && day(b[i].dt) == k;
      assert day(a[i].dt) in DaysOut(a, day);
    }
    forall k | k in DaysOut(a, day)
      ensures k in DaysOut(b, day)
    {
      var i :| 0 <= i < |a| && day(a[i].dt) == k;
      assert day(b[i].dt) in DaysOut(b, day);
    }
  }

  lemma KnownDayRange(pre: seq<RawEntry>, acc: seq<DailyPoint>, e: RawEntry, day: int -> string, m: nat)
    requires DistinctDays(acc, day) && RangeCovers(pre, acc, day) && RangeAttained(pre, acc, day)
    requires m < |acc| && day(acc[m].dt) == day(e.dt)
    ensures RangeCovers(pre + [e], acc[m := Extend(acc[m], e)], day)
    ensures RangeAttained(pre + [e], acc[m := Extend(acc[m], e)], day)
  {
    var list := pre + [e];
    var r := acc[m := Extend(acc[m], e)];
    assert list[|pre|] == e;
    forall i, j | 0 <= i < |r| && 0 <= j < |list| && day(list[j].dt) == day(r[i].dt)
      ensures r[i].minTemp <= list[j].tempMin && list[j].tempMax <= r[i].maxTemp
    {
      if j < |pre| {
        assert list[j] == pre[j];
      } else if i != m {
        assert false;
      }
    }
    forall i | 0 <= i < |r|
      ensures exists j :: 0 <= j < |list| && day(list[j].dt) == day(r[i].dt) && list[j].tempMin == r[i].minTemp
      ensures exists j :: 0 <= j < |list| && day(list[j].dt) == day(r[i].dt) && list[j].tempMax == r[i].maxTemp
    {
      var j1 :| 0 <= j1 < |pre| && day(pre[j1].dt) == day(acc[i].dt) && pre[j1].tempMin == acc[i].minTemp;
      var j2 :| 0 <= j2 < |pre| && day(pre[j2].dt) == day(acc[i].dt) && pre[j2].tempMax == acc[i].maxTemp;
      assert list[j1] == pre[j1] && list[j2] == pre[j2];
      if i == m {
        if r[i].minTemp != acc[i].minTemp {
          assert list[|pre|].tempMin == r[i].minTemp;
        }
        if r[i].maxTemp != acc[i].maxTemp {
          assert list[|pre|].tempMax == r[i].maxTemp;
        }
      }
    }
  }

  /** A further reading of a known day only widens that day's range. */
  lemma AbsorbKnownDay(pre: seq<RawEntry>, acc: seq<DailyPoint>, e: RawEntry, day: int -> string, m: nat)
    requires IsRollUp(pre, acc, day)
    requires m < |acc| && day(acc[m].dt) == day(e.dt)
    ensures IsRollUp(pre + [e], acc[m := Extend(acc[m], e)], day)
  {
    KnownDayKeys(pre, acc, e, day, m);
    KnownDayRange(pre, acc, e, day, m);
  }

  /** A reading never re-seeds a record: existing records keep their reading,
      a new record is the reading's seed, and afterwards its day is found.
      The map grows exactly when the reading's day is new. */
  lemma AbsorbKeepsReadings(acc: seq<DailyPoint>, e: RawEntry, day: int -> string)
    ensures var r := Absorb(acc, e, day);
      && (forall i :: 0 <= i < |acc| ==> SameReading(r[i], acc[i]))
      && (|r| == |acc| + 1 ==> r[|acc|] == Seed(e))
      && FindDay(r, day, day(e.dt)).Some?
    ensures day(e.dt) !in DaysOut(acc, day) ==> |Absorb(acc, e, day)| == |acc| + 1
    ensures day(e.dt) in DaysOut(acc, day) ==> |Absorb(acc, e, day)| == |acc|
  {
    if day(e.dt) in DaysOut(acc, day) {
      var i :| 0 <= i < |acc| && day(acc[i].dt) == day(e.dt);
    }
  }

  lemma AbsorbKeepsRollUp(pre: seq<RawEntry>, acc: seq<DailyPoint>, e: RawEntry, day: int -> string)
    requires IsRollUp(pre, acc, day)
    ensures IsRollUp(pre + [e], Absorb(acc, e, day), day)
  {
    match FindDay(acc, day, day(e.dt))
    case None =>
      AbsorbNewDay(pre, acc, e, day);
    case Some(m) =>
      AbsorbKnownDay(pre, acc, e, day, m);
  }

  /** The forEach builds the complete roll-up of the list. */
  lemma {:induction false} RollIsRollUp(list: seq<RawEntry>, day: int -> string)
    ensures IsRollUp(list, Roll(list, day), day)
    decreases |list|
  {
    if |list| == 0 {
      assert DaysIn(list, day) == {};
    } else {
      var pre := list[..|list| - 1];
      var e := list[|list| - 1];
      var acc := Roll(pre, day);
      RollIsRollUp(pre, day);
      AbsorbKeepsRollUp(pre, acc, e, day);
      assert pre + [e] == list;
      assert Roll(list, day) == Absorb(acc, e, day);
    }
  }

  // ---------------------------------------------------------------------------
  // The daily forecast: at most seven days, the earliest-seen ones
  // ---------------------------------------------------------------------------

  lemma DaysOutAppend(pre: seq<DailyPoint>, p: DailyPoint, day: int -> string)
    ensures DaysOut(pre + [p], day) == DaysOut(pre, day) + {day(p.dt)}
  {
    var r := pre + [p];
    forall k | k in DaysOut(r, day)
      ensures k in DaysOut(pre, day) + {day(p.dt)}
    {
      var i :| 0 <= i < |r| && day(r[i].dt) == k;
      if i < |pre| {
        assert r[i] == pre[i];
      }
    }
    forall k | k in DaysOut(pre, day)
      ensures k in DaysOut(r, day)
    {
      var i :| 0 <= i < |pre| && day(pre[i].dt) == k;
      assert r[i] == pre[i];
    }
    assert r[|pre|] == p;
  }

  lemma {:induction false} DistinctDaysCount(r: seq<DailyPoint>, day: int -> string)
    requires DistinctDays(r, day)
    ensures |DaysOut(r, day)| == |r|
    decreases |r|
  {
    if |r| > 0 {
      var pre := r[..|r| - 1];
      var last := r[|r| - 1];
      assert pre + [last] == r;
      assert DistinctDays(pre, day);
      DistinctDaysCount(pre, day);
      DaysOutAppend(pre, last, day);
      assert day(last.dt) !in DaysOut(pre, day);
    }
  }

  lemma ShapeOfPrefix(list: seq<RawEntry>, r: seq<DailyPoint>, day: int -> string, n: nat)
    requires DailyShape(list, r, day)
    ensures DailyShape(list, Take(r, n), day)
    ensures DaysOut(Take(r, n), day) <= DaysOut(r, day)
  {
    var t := Take(r, n);
    assert forall i :: 0 <= i < |t| ==> t[i] == r[i];
    forall k | k in DaysOut(t, day)
      ensures k in DaysOut(r, day)
    {
      var i :| 0 <= i < |t| && day(t[i].dt) == k;
      assert day(r[i].dt) == k;
    }
  }

  /** The daily forecast has one record per distinct day, up to seven: no day
      twice, days in first-seen order, each record the first reading of its day
      with the day's full temperature range. */
  lemma DailyIsCappedRollUp(list: seq<RawEntry>, day: int -> string)
    ensures |Daily(list, day)| == Min(|DaysIn(list, day)|, DailyCount)
    ensures DailyShape(list, Daily(list, day), day)
    ensures DaysOut(Daily(list, day), day) <= DaysIn(list, day)
    ensures |DaysIn(list, day)| <= DailyCount ==> DaysOut(Daily(list, day), day) == DaysIn(list, day)
  {
    var r := Roll(list, day);
    RollIsRollUp(list, day);
    DistinctDaysCount(r, day);
    ShapeOfPrefix(list, r, day, DailyCount);
  }

  /** Days cut off by the seven-day cap are all first seen after every kept day. */
  lemma DailyDropsOnlyLaterDays(list: seq<RawEntry>, day: int -> string, k: string, i: nat)
    requires k in DaysIn(list, day) && k !in DaysOut(Daily(list, day), day)
    requires i < |Daily(list, day)|
    ensures day(Daily(list, day)[i].dt) in DaysIn(list, day)
    ensures FirstIndex(list, day, day(Daily(list, day)[i].dt)) < FirstIndex(list, day, k)
  {
    var r := Roll(list, day);
    var d := Daily(list, day);
    RollIsRollUp(list, day);
    assert k in DaysOut(r, day);
    var m :| 0 <= m < |r| && day(r[m].dt) == k;
    assert d[i] == r[i];
    if m < |d| {
      assert false;
    }
  }

  /** If every reading has temp_min <= temp_max, so does every daily record. */
  lemma DailyRangeOrdered(list: seq<RawEntry>, day: int -> string)
    requires forall j :: 0 <= j < |list| ==> list[j].tempMin <= list[j].tempMax
    ensures forall p :: p in Daily(list, day) ==> p.minTemp <= p.maxTemp
  {
    var d := Daily(list, day);
    DailyIsCappedRollUp(list, day);
    forall p | p in d
      ensures p.minTemp <= p.maxTemp
    {
      var i :| 0 <= i < |d| && d[i] == p;
      var f := FirstIndex(list, day, day(d[i].dt));
      assert d[i].minTemp <= list[f].tempMin && list[f].tempMax <= d[i].maxTemp;
    }
  }

  /** Entry f is the first raw entry of its day. */
  ghost predicate FirstOfDay(list: seq<RawEntry>, day: int -> string, f: int) {
    0 <= f < |list| && forall j :: 0 <= j < f ==> day(list[j].dt) != day(list[f].dt)
  }

  /** A daily record's rain probability is that of its day's first reading,
      so a day whose first reading lacks `pop` shows 0 %; an hourly point
      without `pop` shows 0 % as well. */
  lemma MissingPopReadsZero(list: seq<RawEntry>, day: int -> string)
    ensures forall i :: 0 <= i < |Hourly(list)| && list[i].pop.None? ==> Hourly(list)[i].rainProb == 0
    ensures forall i, f ::
              (0 <= i < |Daily(list, day)| && FirstOfDay(list, day, f)
               && day(list[f].dt) == day(Daily(list, day)[i].dt)) ==>
              Daily(list, day)[i].rainProb == RainProb(list[f])
    ensures forall i, f ::
              (0 <= i < |Daily(list, day)| && FirstOfDay(list, day, f)
               && day(list[f].dt) == day(Daily(list, day)[i].dt) && list[f].pop.None?) ==>
              Daily(list, day)[i].rainProb == 0
  {
    var d := Daily(list, day);
    DailyIsCappedRollUp(list, day);
    forall i, f | 0 <= i < |d| && FirstOfDay(list, day, f) && day(list[f].dt) == day(d[i].dt)
      ensures d[i].rainProb == RainProb(list[f])
    {
      var g := FirstIndex(list, day, day(d[i].dt));
      assert Seeds(list[g], d[i]);
      if f < g {
        assert false;
      } else if g < f {
        assert false;
      }
    }
  }

  /** An empty forecast list yields no hourly and no daily points. */
  lemma EmptyListYieldsNothing(day: int -> string)
    ensures Hourly([]) == [] && Daily([], day) == []
  {
  }

  /** The post-processing of fetchWeatherByCoords: the hourly prefix, then the
      forEach that fills the insertion-ordered day map, cut to seven days. */
  method Aggregate(list: seq<RawEntry>, day: int -> string) returns (hourly: seq<HourlyPoint>, daily: seq<DailyPoint>)
    ensures |hourly| == Min(|list|, HourlyCount)
    ensures forall i :: 0 <= i < |hourly| ==> Describes(hourly[i], list[i])
    ensures |daily| == Min(|DaysIn(list, day)|, DailyCount)
    ensures DailyShape(list, daily, day)
    ensures DaysOut(daily, day) <= DaysIn(list, day)
    ensures |DaysIn(list, day)| <= DailyCount ==> DaysOut(daily, day) == DaysIn(list, day)
  {
    hourly := Hourly(list);
    var dailyMap: seq<DailyPoint> := [];
    for i := 0 to |list|
      invariant dailyMap == Roll(list[..i], day)
    {
      assert list[..i + 1][..i] == list[..i] && list[..i + 1][i] == list[i];
      dailyMap := Absorb(dailyMap, list[i], day);
    }
    assert list[..|list|] == list;
    daily := Take(dailyMap, DailyCount);
    assert daily == Daily(list, day);
    DailyIsCappedRollUp(list, day);
  }
}
