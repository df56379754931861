/** The five-day forecast payload and the calendar arithmetic on its sample
    times (WeatherApp/Models/Forecast.swift). A sample's `date` is its `dt` in
    epoch seconds; the calendar is a fixed offset from UTC, in seconds. */
module Forecasts {
  import opened Weather

  /** One 3-hourly forecast sample. */
  datatype ForecastItem = ForecastItem(
    dt: int,
    main: MainWeather,
    weather: seq<WeatherCondition>,
    clouds: Clouds,
    wind: Wind,
    visibility: int,
    dtTxt: string)

  datatype ForecastCity = ForecastCity(
    id: int,
    name: string,
    country: string,
    population: int,
    timezone: int,
    sunrise: int,
    sunset: int)

  datatype ForecastResponse = ForecastResponse(list: seq<ForecastItem>, city: ForecastCity)

  const SecondsPerDay: int := 86400
  const SecondsToNoon: int := 43200

  /** Calendar.startOfDay(for:): the local midnight at or before `t`. */
  function StartOfDay(t: int, utcOffset: int): (m: int)
    ensures m <= t < m + SecondsPerDay
    ensures (m + utcOffset) % SecondsPerDay == 0
  {
    ((t + utcOffset) / SecondsPerDay) * SecondsPerDay - utcOffset
  }

  /** date(bySettingHour: 12, minute: 0, second: 0, of:): local noon of the day of `t`. */
  function NoonOf(t: int, utcOffset: int): int {
    StartOfDay(t, utcOffset) + SecondsToNoon
  }

  /** |date - noon of its own day|, in seconds. */
  function NoonDistance(item: ForecastItem, utcOffset: int): (d: nat)
    ensures d <= SecondsToNoon
  {
    var delta := item.dt - NoonOf(item.dt, utcOffset);
    if delta < 0 then -delta else delta
  }

  /** The start of the local day never decreases as time goes on. */
  lemma StartOfDayMonotone(s: int, t: int, utcOffset: int)
    requires s <= t
    ensures StartOfDay(s, utcOffset) <= StartOfDay(t, utcOffset)
  {
    var a, b := StartOfDay(s, utcOffset), StartOfDay(t, utcOffset);
    if b < a {
      DayStartsApart(b, a, utcOffset);
    }
  }

  /** Distinct local midnights are whole days apart. */
  lemma DayStartsApart(a: int, b: int, utcOffset: int)
    requires (a + utcOffset) % SecondsPerDay == 0 && (b + utcOffset) % SecondsPerDay == 0
    requires a < b
    ensures a + SecondsPerDay <= b
  {
    var p, q := (a + utcOffset) / SecondsPerDay, (b + utcOffset) / SecondsPerDay;
    assert a + utcOffset == p * SecondsPerDay;
    assert b + utcOffset == q * SecondsPerDay;
    assert p < q;
  }

  /** A local midnight less than a day before `t` is the start of its day. */
  lemma StartOfDayWithin(t: int, m: int, utcOffset: int)
    requires (m + utcOffset) % SecondsPerDay == 0 && m <= t < m + SecondsPerDay
    ensures StartOfDay(t, utcOffset) == m
  {
    var s := StartOfDay(t, utcOffset);
    if s < m {
      DayStartsApart(s, m, utcOffset);
    } else if m < s {
      DayStartsApart(m, s, utcOffset);
    }
  }

  /** A sample on an earlier local day is earlier in time. */
  lemma EarlierDayEarlierTime(s: int, t: int, utcOffset: int)
    requires StartOfDay(s, utcOffset) < StartOfDay(t, utcOffset)
    ensures s < t
  {
    DayStartsApart(StartOfDay(s, utcOffset), StartOfDay(t, utcOffset), utcOffset);
  }
}
