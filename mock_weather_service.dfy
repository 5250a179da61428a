/** The simulated weather service: readings drawn from the climate zone of the airport's
    latitude, kept for ten minutes per IATA code. `Math.random()` results are parameters. */
module MockWeatherService {
  import opened Wrappers
  import opened JsMath
  import opened AirportTypes
  import opened WeatherTypes

  /** Ten minutes, in milliseconds. */
  const CacheDuration: int := 10 * 60 * 1000

  /** A climate zone: the temperature range and the conditions likely in it. */
  datatype ClimateZone = ClimateZone(tempMin: int, tempMax: int, likely: seq<WeatherConditionCode>)

  const Tropical := ClimateZone(24, 35, [Sunny, PartlyCloudy, Rainy, Thunderstorm])
  const Subtropical := ClimateZone(18, 32, [Sunny, PartlyCloudy, Cloudy, Rainy])
  const Temperate := ClimateZone(10, 25, [PartlyCloudy, Cloudy, Overcast, Rainy, Windy])
  const Polar := ClimateZone(-5, 15, [Cloudy, Overcast, Foggy, Windy])

  function AbsReal(x: real): (y: real)
    ensures y >= 0.0 && (y == x || y == -x)
  {
    if x < 0.0 then -x else x
  }

  /** The zone of a latitude: below 23.5 degrees tropical, below 35 subtropical, below 50
      temperate, polar otherwise; each bound belongs to the colder zone. */
  function Zone(latitude: real): (z: ClimateZone)
    ensures z == Tropical <==> AbsReal(latitude) < 23.5
    ensures z == Subtropical <==> 23.5 <= AbsReal(latitude) < 35.0
    ensures z == Temperate <==> 35.0 <= AbsReal(latitude) < 50.0
    ensures z == Polar <==> 50.0 <= AbsReal(latitude)
  {
    var absLatitude := AbsReal(latitude);
    if absLatitude < 23.5 then Tropical
    else if absLatitude < 35.0 then Subtropical
    else if absLatitude < 50.0 then Temperate
    else Polar
  }

  /** Both hemispheres share their zones. */
  lemma ZoneSymmetric(latitude: real)
    ensures Zone(-latitude) == Zone(latitude)
  {
  }

  /** Further from the equator, the warmest possible reading is never warmer. */
  lemma ZoneCoolsWithLatitude(a: real, b: real)
    requires AbsReal(a) <= AbsReal(b)
    ensures Zone(b).tempMax <= Zone(a).tempMax && Zone(b).tempMin <= Zone(a).tempMin
  {
  }

  /** Every zone has a temperature range and at least one likely condition. */
  lemma ZonesWellFormed(latitude: real)
    ensures var z := Zone(latitude); z.tempMin < z.tempMax && |z.likely| >= 1
  {
  }

  /** `randomInRange(min, max)` for the draw r: in [min, max) when min < max. Every caller
      passes integer bounds, so the bounds are integers here. */
  function RandomInRange(r: real, min: int, max: int): (v: real)
    requires IsDraw(r)
    ensures min < max ==> min as real <= v < max as real
  {
    if min < max then
      ScaledDrawBelow(r, (max - min) as real);
      r * (max - min) as real + min as real
    else
      r * (max - min) as real + min as real
  }

  /** The four `Math.random()` results one reading consumes, in the order they are drawn. */
  datatype WeatherDraws = WeatherDraws(temperature: real, condition: real, wind: real, humidity: real)

  predicate ValidWeatherDraws(d: WeatherDraws) {
    IsDraw(d.temperature) && IsDraw(d.condition) && IsDraw(d.wind) && IsDraw(d.humidity)
  }

  /** `generateWeatherForLocation(airport)`: the rounded temperature lies in the zone's
      range, wind in [5, 30] and humidity in [40, 90]; the condition is one of the zone's
      likely ones, and label and icon are that condition's table row. */
  function GenerateWeatherForLocation(airport: Airport, d: WeatherDraws, now: int): (w: Weather)
    requires ValidWeatherDraws(d)
    ensures var z := Zone(airport.latitude);
      z.tempMin <= w.temperature <= z.tempMax &&
      w.conditionCode in z.likely && w.conditionCode == z.likely[PickIndex(d.condition, |z.likely|)]
    ensures 5 <= w.windSpeed <= 30 && 40 <= w.humidity <= 90
    ensures exists row :: (row in WeatherConditions && row.code == w.conditionCode &&
                            row.labelText == w.condition && row.icon == w.icon)
    ensures w.lastUpdated == now
  {
    var z := Zone(airport.latitude);
    ZonesWellFormed(airport.latitude);
    var temperature := RandomInRange(d.temperature, z.tempMin, z.tempMax);
    var conditionCode := z.likely[PickIndex(d.condition, |z.likely|)];
    ConditionLookupSucceeds(conditionCode);
    var condition := FindCondition(WeatherConditions, conditionCode).value;
    var windSpeed := RandomInRange(d.wind, 5, 30);
    var humidity := RandomInRange(d.humidity, 40, 90);
    RoundWithin(temperature, z.tempMin, z.tempMax);
    RoundWithin(windSpeed, 5, 30);
    RoundWithin(humidity, 40, 90);
    Weather(Round(temperature), condition.labelText, conditionCode, Round(windSpeed), Round(humidity),
            condition.icon, now)
  }

  /** Near the equator no fog and no overcast sky is ever generated; in polar latitudes no
      sun and no thunderstorm. */
  lemma ZoneExcludes(airport: Airport, d: WeatherDraws, now: int)
    requires ValidWeatherDraws(d)
    ensures var w := GenerateWeatherForLocation(airport, d, now);
      (AbsReal(airport.latitude) < 23.5 ==> w.conditionCode != Foggy && w.conditionCode != Overcast) &&
      (AbsReal(airport.latitude) >= 50.0 ==> w.conditionCode != Sunny && w.conditionCode != Thunderstorm)
  {
    var w := GenerateWeatherForLocation(airport, d, now);
    assert w.conditionCode in Zone(airport.latitude).likely;
  }

  /** A cached reading and the instant it was stored. */
  datatype CacheEntry = CacheEntry(data: Weather, timestamp: int)

  /** The entry under `key` when it is younger than ten minutes at `now`. */
  function FreshEntry(entries: map<string, CacheEntry>, key: string, now: int): (r: Option<Weather>)
    ensures r.Some? <==> key in entries && now - entries[key].timestamp < CacheDuration
    ensures r.Some? ==> r.value == entries[key].data
  {
    if key in entries && now - entries[key].timestamp < CacheDuration then Some(entries[key].data) else None
  }

  /** An entry stored at `t` is fresh exactly during the ten minutes that follow, and
      before. */
  lemma FreshnessWindow(entries: map<string, CacheEntry>, key: string, w: Weather, t: int, now: int)
    ensures FreshEntry(entries[key := CacheEntry(w, t)], key, now) == Some(w) <==> now < t + 10 * 60000
  {
  }

  class WeatherCache {
    var entries: map<string, CacheEntry>

    constructor()
      ensures entries == map[]
    {
      entries := map[];
    }

    /** `getWeather(airport)`: a reading younger than ten minutes under the airport's IATA
        code is returned as stored; otherwise a new reading is generated and stored under
        that code, stamped `now`, leaving every other code as it was. */
    method GetWeather(airport: Airport, now: int, d: WeatherDraws) returns (w: Weather)
      requires ValidWeatherDraws(d)
      modifies this
      ensures match FreshEntry(old(entries), airport.iata, now)
        case Some(data) => w == data && entries == old(entries)
        case None =>
          w == GenerateWeatherForLocation(airport, d, now) &&
          entries == old(entries)[airport.iata := CacheEntry(w, now)]
    {
      if airport.iata in entries && now - entries[airport.iata].timestamp < CacheDuration {
        return entries[airport.iata].data;
      }
      w := GenerateWeatherForLocation(airport, d, now);
      entries := entries[airport.iata := CacheEntry(w, now)];
    }

    /** `clearCache()`: afterwards nothing is fresh. */
    method ClearCache()
      modifies this
      ensures entries == map[]
      ensures forall key, now :: FreshEntry(entries, key, now).None?
    {
      entries := map[];
    }
  }
}
