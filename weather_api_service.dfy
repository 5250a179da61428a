/** The live weather service: WMO weather codes (WMO Code Table 4677, the `weather_code`
    field of the Open-Meteo forecast API) mapped to the service's six condition codes, and
    a ten-minute cache that falls back to stale data when fetching fails. The fetch itself
    is an outcome passed in. */
module WeatherApiService {
  import opened Wrappers
  import opened JsMath
  import opened AirportTypes

  /** Ten minutes, in milliseconds. */
  const CacheDuration: int := 10 * 60 * 1000

  /** The condition codes this service produces. */
  datatype ApiConditionCode = Clear | PartlyCloudy | Cloudy | Rainy | Snowy | Stormy

  /** A display label with its condition code. */
  datatype Mapping = Mapping(condition: string, conditionCode: ApiConditionCode)

  predicate IsRainCode(code: int) {
    51 <= code <= 57 || 61 <= code <= 67 || 80 <= code <= 82
  }

  predicate IsSnowCode(code: int) {
    71 <= code <= 75 || code == 77 || 85 <= code <= 86
  }

  /** `mapWeatherCode(code)`: total; each condition code covers exactly its WMO groups and
      every code outside them maps to partly cloudy. */
  function MapWeatherCode(code: int): (m: Mapping)
    ensures m.conditionCode == Clear <==> code == 0
    ensures m.conditionCode == Cloudy <==> code == 45 || code == 48
    ensures m.conditionCode == Rainy <==> IsRainCode(code)
    ensures m.conditionCode == Snowy <==> IsSnowCode(code)
    ensures m.conditionCode == Stormy <==> 95 <= code <= 99
    ensures m.conditionCode == PartlyCloudy <==>
      !(code == 0 || code == 45 || code == 48 || IsRainCode(code) || IsSnowCode(code) || 95 <= code <= 99)
  {
    if code == 0 then Mapping("Clear", Clear)
    else if 1 <= code <= 3 then Mapping("Partly Cloudy", PartlyCloudy)
    else if code == 45 || code == 48 then Mapping("Foggy", Cloudy)
    else if 51 <= code <= 55 then Mapping("Light Rain", Rainy)
    else if 56 <= code <= 57 then Mapping("Freezing Rain", Rainy)
    else if 61 <= code <= 65 then Mapping("Rainy", Rainy)
    else if 66 <= code <= 67 then Mapping("Freezing Rain", Rainy)
    else if 71 <= code <= 75 then Mapping("Snowy", Snowy)
    else if code == 77 then Mapping("Snowy", Snowy)
    else if 80 <= code <= 82 then Mapping("Rainy", Rainy)
    else if 85 <= code <= 86 then Mapping("Snowy", Snowy)
    else if 95 <= code <= 99 then Mapping("Stormy", Stormy)
    else Mapping("Partly Cloudy", PartlyCloudy)
  }

  /** The labels tell the rain groups apart: drizzle is "Light Rain", freezing drizzle and
      freezing rain are "Freezing Rain", rain and rain showers are "Rainy"; fog is "Foggy". */
  lemma RainAndFogLabels(code: int)
    ensures 51 <= code <= 55 ==> MapWeatherCode(code).condition == "Light Rain"
    ensures (56 <= code <= 57 || 66 <= code <= 67) ==> MapWeatherCode(code).condition == "Freezing Rain"
    ensures (61 <= code <= 65 || 80 <= code <= 82) ==> MapWeatherCode(code).condition == "Rainy"
    ensures (code == 45 || code == 48) ==> MapWeatherCode(code).condition == "Foggy"
  {
  }

  /** Codes with the same label have the same condition code. */
  lemma LabelDeterminesCode(a: int, b: int)
    requires MapWeatherCode(a).condition == MapWeatherCode(b).condition
    ensures MapWeatherCode(a).conditionCode == MapWeatherCode(b).conditionCode
  {
  }

  /** `getWeatherIcon(conditionCode)`: one icon per condition code. The strings are the
      literals of the icon table character for character; each is the UTF-8 encoding of a
      weather emoji read back as Mac OS Roman (the bytes E2 98 80 EF B8 8F of the sun emoji
      read as the six characters of `Clear`), so these are the strings the service returns. */
  function GetWeatherIcon(c: ApiConditionCode): (icon: string)
    ensures |icon| >= 1
  {
    match c
    case Clear => "\U{201A}\U{F2}\U{C4}\U{D4}\U{220F}\U{E8}"
    case PartlyCloudy => "\U{201A}\U{F5}\U{D6}"
    case Cloudy => "\U{201A}\U{F2}\U{C5}\U{D4}\U{220F}\U{E8}"
    case Rainy => "\U{F8FF}\U{FC}\U{E5}\U{DF}\U{D4}\U{220F}\U{E8}"
    case Stormy => "\U{201A}\U{F5}\U{E0}\U{D4}\U{220F}\U{E8}"
    case Snowy => "\U{201A}\U{F9}\U{D1}\U{D4}\U{220F}\U{E8}"
  }

  /** Different condition codes show different icons. */
  lemma IconsDistinct(a: ApiConditionCode, b: ApiConditionCode)
    requires a != b
    ensures GetWeatherIcon(a) != GetWeatherIcon(b)
  {
  }

  /** The fields of the API's `current` block the service reads. */
  datatype CurrentReading = CurrentReading(temperature2m: real, relativeHumidity2m: real, weatherCode: int, windSpeed10m: real)

  /** A reading as the service returns it. Humidity is passed through unrounded. */
  datatype ApiWeather = ApiWeather(
    temperature: int,
    condition: string,
    conditionCode: ApiConditionCode,
    windSpeed: int,
    humidity: real,
    icon: string,
    lastUpdated: int)

  /** The record `fetchWeatherData` builds from a response: temperature and wind rounded,
      label and code from the weather code, the icon of that code. */
  function BuildWeather(current: CurrentReading, at: int): (w: ApiWeather)
    ensures w.temperature as real - 0.5 <= current.temperature2m < w.temperature as real + 0.5
    ensures w.windSpeed as real - 0.5 <= current.windSpeed10m < w.windSpeed as real + 0.5
    ensures w.humidity == current.relativeHumidity2m && w.lastUpdated == at
    ensures Mapping(w.condition, w.conditionCode) == MapWeatherCode(current.weatherCode)
    ensures w.icon == GetWeatherIcon(w.conditionCode)
  {
    var mapping := MapWeatherCode(current.weatherCode);
    ApiWeather(Round(current.temperature2m), mapping.condition, mapping.conditionCode,
               Round(current.windSpeed10m), current.relativeHumidity2m,
               GetWeatherIcon(mapping.conditionCode), at)
  }

  /** What the fetch produced: the `current` block of a successful response, or the error
      it threw (a network failure or a response that is not ok). */
  datatype FetchOutcome = Fetched(current: CurrentReading) | FetchFailed(error: string)

  /** The cache key `<iata>-<latitude>-<longitude>`: one per airport code and position. */
  datatype CacheKey = CacheKey(iata: string, latitude: real, longitude: real)

  function KeyOf(airport: Airport): CacheKey {
    CacheKey(airport.iata, airport.latitude, airport.longitude)
  }

  /** A cached reading and the instant it was stored. */
  datatype CacheEntry = CacheEntry(data: ApiWeather, timestamp: int)

  /** The outcome of `getWeatherForAirport` and the cache after it, given the cache before,
      the clock at the check, the fetch outcome and the clock after the fetch. */
  datatype Lookup = Lookup(result: Result<ApiWeather, string>, entries: map<CacheKey, CacheEntry>)

  function GetWeatherOutcome(entries: map<CacheKey, CacheEntry>, key: CacheKey, now: int,
                             fetched: FetchOutcome, fetchedAt: int): (r: Lookup)
    // a fresh entry is served without looking at the fetch
    ensures key in entries && now - entries[key].timestamp < CacheDuration ==>
      r == Lookup(Success(entries[key].data), entries)
    // otherwise a successful fetch is stored under the key, stamped when it finished
    ensures !(key in entries && now - entries[key].timestamp < CacheDuration) && fetched.Fetched? ==>
      r.result == Success(BuildWeather(fetched.current, fetchedAt)) &&
      r.entries == entries[key := CacheEntry(r.result.value, fetchedAt)]
    // a failed fetch serves the entry however old it is, and fails only without one
    ensures !(key in entries && now - entries[key].timestamp < CacheDuration) && fetched.FetchFailed? ==>
      r.entries == entries &&
      r.result == (if key in entries then Success(entries[key].data) else Failure(fetched.error))
  {
    if key in entries && now - entries[key].timestamp < CacheDuration then
      Lookup(Success(entries[key].data), entries)
    else
      match fetched
      case Fetched(current) =>
        var weather := BuildWeather(current, fetchedAt);
        Lookup(Success(weather), entries[key := CacheEntry(weather, fetchedAt)])
      case FetchFailed(error) =>
        if key in entries then Lookup(Success(entries[key].data), entries)
        else Lookup(Failure(error), entries)
  }

  /** The call fails only when nothing was cached under the key and the fetch failed. */
  lemma FailsOnlyWithoutData(entries: map<CacheKey, CacheEntry>, key: CacheKey, now: int,
                             fetched: FetchOutcome, fetchedAt: int)
    ensures GetWeatherOutcome(entries, key, now, fetched, fetchedAt).result.Failure? <==>
      key !in entries && fetched.FetchFailed?
  {
  }

  /** Every other key keeps its entry, and the key keeps one once it had one. */
  lemma OtherKeysUnchanged(entries: map<CacheKey, CacheEntry>, key: CacheKey, now: int,
                           fetched: FetchOutcome, fetchedAt: int, other: CacheKey)
    requires other != key
    ensures var after := GetWeatherOutcome(entries, key, now, fetched, fetchedAt).entries;
      (other in after <==> other in entries) && (other in entries ==> after[other] == entries[other]) &&
      (key in entries ==> key in after)
  {
  }

  /** A successful answer straight after a fetch is served from the cache for the next ten
      minutes, whatever the later fetches do. */
  lemma FetchedThenCached(entries: map<CacheKey, CacheEntry>, key: CacheKey, now: int,
                          current: CurrentReading, fetchedAt: int,
                          later: int, fetched2: FetchOutcome, fetchedAt2: int)
    requires !(key in entries && now - entries[key].timestamp < CacheDuration)
    requires fetchedAt <= later < fetchedAt + CacheDuration
    ensures var first := GetWeatherOutcome(entries, key, now, Fetched(current), fetchedAt);
      var second := GetWeatherOutcome(first.entries, key, later, fetched2, fetchedAt2);
      second == Lookup(first.result, first.entries)
  {
  }

  class WeatherCache {
    var entries: map<CacheKey, CacheEntry>

    constructor()
      ensures entries == map[]
    {
      entries := map[];
    }

    /** `getWeatherForAirport(airport)`: the cache moves to the state `GetWeatherOutcome`
        describes and the call answers its result. `now` is the clock at the check,
        `fetchedAt` the clock once the fetch has finished. */
    method GetWeatherForAirport(airport: Airport, now: int, fetched: FetchOutcome, fetchedAt: int)
      returns (r: Result<ApiWeather, string>)
      modifies this
      ensures GetWeatherOutcome(old(entries), KeyOf(airport), now, fetched, fetchedAt) == Lookup(r, entries)
    {
      var cacheKey := KeyOf(airport);
      if cacheKey in entries && now - entries[cacheKey].timestamp < CacheDuration {
        return Success(entries[cacheKey].data);
      }
      match fetched
      case Fetched(current) =>
        var weather := BuildWeather(current, fetchedAt);
        entries := entries[cacheKey := CacheEntry(weather, fetchedAt)];
        r := Success(weather);
      case FetchFailed(error) =>
        if cacheKey in entries {
          r := Success(entries[cacheKey].data);
        } else {
          r := Failure(error);
        }
    }

    /** `clearWeatherCache()`: afterwards every call has to fetch. */
    method ClearWeatherCache()
      modifies this
      ensures entries == map[]
    {
      entries := map[];
    }
  }
}
