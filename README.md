# keep-your-seat, modelled in Dafny

keep-your-seat is a flight-board web application. The user searches an airport catalog,
picks an airport, keeps favourites and sees that airport's departures and arrivals with
its current weather. This project models the application's logic:

- **Airport service:** the scored, ranked and truncated airport search, the IATA lookup
  and the country filter (`AirportService`).
- **Mock flight service:** generation of a random flight and of a sorted board of 25
  flights, the 30-minute board cache and the id lookup across cached boards
  (`MockFlightService`). It rests on the status display table (`FlightTypes`) and the
  airline table (`AirlineTable`).
- **Weather:**
  - The simulated weather service: climate zones, `randomInRange` and a ten-minute cache
    keyed by IATA code (`MockWeatherService`, over the condition table in `WeatherTypes`).
  - The live weather service: the WMO weather-code mapping, the icons and a ten-minute
    cache that serves stale data when a fetch fails (`WeatherApiService`).
- **Stores:** the airport store with its selection and favourite codes (`AirportStore`),
  and the settings store with its temperature unit (`SettingsStore`).
- **Temperature display:** conversion and formatting (`TemperatureConverter`).
- **Search box:** the query, the result list, the open flag and the highlighted row, as
  the search effect and the handlers change them (`AirportSearch`).
- **Flight-board row:** which airport, time, late marker and gate one row of the board
  shows (`FlightRow`).

Some JavaScript built-ins get modules of their own:

- `JsMath`: `Math.random()` results, `Math.floor` of a scaled draw and `Math.round`.
- `AsciiText`: `toLowerCase`, `trim`, `startsWith` and `includes`.
- `Decimal`: the decimal rendering of numbers in template literals, with a parser that
  inverts it.
- `StableSort`: `Array.prototype.sort`, which ECMAScript requires to be stable.

Conventions:

- Every `Math.random()` result is a parameter: a real in [0, 1).
- Clock readings are parameters, in integer milliseconds.
- The static airport catalog and the default airport are parameters.
- Operations that change module-level state (the caches) or store state are methods of
  classes whose fields are that state.
- Pure operations are functions, with lemmas relating them to reference definitions or
  to each other.

Where comments in the source and its code disagree, the model follows the code:

- The comment on the flight-number suffix says 100-9999. `Math.floor(Math.random() * 9000) + 100`
  gives 100-9099.
- The delay comments say 15-60, 60-120 and 120-240 minutes. The code gives 15-59, 60-119 and
  120-239.
- The weather-code comments name WMO groups. The code's ranges are modelled as written:
  `IsRainCode` and `IsSnowCode` list them.
- The live service's condition codes (`clear`, `snowy`, `stormy`, …) are not values of the
  application's `WeatherConditionCode` type. They get their own type, `ApiConditionCode`.

The icon literals of the live service are not the emoji themselves: each is the UTF-8
encoding of a weather emoji read back as Mac OS Roman (`‚òÄÔ∏è` for the sun). The service
returns those strings, and `GetWeatherIcon` returns them character for character.

## Model

| member | source | states |
|---|---|---|
| `JsMath.PickIndex` | src/data/airlines.ts:68 | `Math.floor(Math.random() * n)` is a valid index below n, the integer part of the scaled draw |
| `JsMath.Round` | src/utils/temperatureConverter.ts:28 | `Math.round(x)` is an integer k with k - 1/2 <= x < k + 1/2 |
| `JsMath.RoundUnique` | src/utils/temperatureConverter.ts:28-30 | any integer within [x - 1/2, x + 1/2) is the rounded value, so rounding is fully characterised |
| `JsMath.RoundMonotone` | src/utils/temperatureConverter.ts:28-30 | rounding never reverses the order of two values |
| `JsMath.RoundWithin` | src/services/mockWeatherService.ts:83-87 | a value in [lo, hi] with integer bounds rounds into [lo, hi] |
| `AsciiText.ToLower` | src/services/airportService.ts:18 | lower-casing keeps the length and maps each character through the case mapping |
| `AsciiText.Trim` | src/services/airportService.ts:14 | the trimmed string is empty exactly for blank input, otherwise starts and ends with non-white space, and is a piece of the input with only white space before and after it |
| `AsciiText.BlankIgnoresCase` | src/services/airportService.ts:14-18 | the blank test on the raw query agrees with blankness of the lower-cased query |
| `AsciiText.IncludesAt` | src/services/airportService.ts:46-55 | `includes` holds exactly when the term occurs at some offset |
| `Decimal.NatToString` | src/services/mockFlightService.ts:33 | a non-negative number renders as at least one digit with no leading zero |
| `Decimal.ParseNatToString` | src/services/mockFlightService.ts:31-34 | parsing the rendering gives the number back |
| `Decimal.NatToStringInjective` | src/services/mockFlightService.ts:140 | different indices render differently |
| `Decimal.ThreeOrFourDigits` | src/services/mockFlightService.ts:32 | numbers from 100 to 9999 render with three or four digits |
| `Decimal.IntToString` | src/utils/temperatureConverter.ts:44 | every integer renders as a non-empty numeral |
| `Decimal.ParseIntToString` | src/utils/temperatureConverter.ts:44 | the numeral of any integer is a well-formed signed numeral that parses back to it |
| `StableSort.SortBy` | src/services/mockFlightService.ts:185-191 | sorting by a numeric key yields a permutation, ordered by key |
| `StableSort.SortByKeepsTies` | src/services/airportService.ts:61 | the sort is stable: the elements of each key keep their relative order |
| `StableSort.SortKeepsDistinct` | src/services/mockFlightService.ts:185-191 | sorting keeps elements that are pairwise distinct under any projection distinct |
| `AirportService.MatchScore` | src/services/airportService.ts:22-59 | the score is one of the ladder's values and is 100 exactly for an IATA code equal to the term |
| `AirportService.MatchScoreIsFirstRule` | src/services/airportService.ts:25-56 | the chain of tests gives the score of the first rule of the ladder that holds, as a data table evaluated rule by rule |
| `AirportService.ScorePositiveIff` | src/services/airportService.ts:25-60 | an airport survives the filter exactly when the term prefixes its IATA code or occurs in its city, name or country |
| `AirportService.ScoreAll` | src/services/airportService.ts:21-59 | one hit per catalog airport, in catalog order, carrying that airport's score |
| `AirportService.Positive` | src/services/airportService.ts:60 | the filter keeps exactly the hits with positive scores |
| `AirportService.PositiveCount` | src/services/airportService.ts:58-60 | the filter keeps one hit per scoring airport |
| `AirportService.SearchAirports` | src/services/airportService.ts:13-65 | a blank query gives no hits; otherwise min(10, number of scoring airports) hits, each a scoring catalog airport with its score, best first |
| `AirportService.RankedFacts` | src/services/airportService.ts:58-62 | before truncation the ranking has one hit per scoring airport, best first |
| `AirportService.RankedTier` | src/services/airportService.ts:60-61 | ranking keeps the hits of each score in catalog order |
| `AirportService.SearchIsRankedPrefix` | src/services/airportService.ts:62 | a non-blank search returns the first ten hits of the ranking |
| `AirportService.SearchKeepsCatalogOrder` | src/services/airportService.ts:60-62 | the hits of any score that are returned are the first ones of that score in catalog order |
| `AirportService.OneExactReturned` | src/services/airportService.ts:25-28 | with case-insensitively distinct codes, no two returned hits both score 100 |
| `AirportService.ExactIataMatchFirst` | src/services/airportService.ts:25-62 | an airport whose code equals the query, ignoring case, is the first hit with score 100, and no other hit scores 100 |
| `AirportService.GetAirportByIATA` | src/services/airportService.ts:72-76 | no result exactly when no code matches ignoring case; otherwise the first matching airport |
| `AirportService.GetAirportsByCountry` | src/services/airportService.ts:99-104 | exactly the catalog airports of the country, ignoring case, as a subsequence of the catalog |
| `AirportStore.Without` | src/stores/airportStore.ts:35-37 | the filtered list holds every code but `iata`, is no longer than the original, and is shorter exactly when `iata` occurred |
| `AirportStore.WithoutAbsent` | src/stores/airportStore.ts:35-37 | filtering out an absent code leaves the list as it is |
| `AirportStore.WithoutAppend` | src/stores/airportStore.ts:35-37 | filtering distributes over concatenation |
| `AirportStore.WithoutKeepsNoDuplicates` | src/stores/airportStore.ts:35-37 | filtering keeps a duplicate-free list duplicate-free |
| `AirportStore.Toggled` | src/stores/airportStore.ts:28-46 | a favourite code is filtered out, any other code is appended |
| `AirportStore.Store.IsFavorite` | src/stores/airportStore.ts:49-51 | a code is a favourite exactly when toggling it would shorten the list |
| `AirportStore.ToggleFlipsOnlyThatCode` | src/stores/airportStore.ts:28-46 | a toggle flips the membership of its code and keeps every other code's |
| `AirportStore.ToggleTwiceRestores` | src/stores/airportStore.ts:28-46 | toggling a non-favourite twice restores the list exactly |
| `AirportStore.ToggleTwiceMovesLast` | src/stores/airportStore.ts:28-46 | toggling a favourite twice moves it to the end, without its earlier copies |
| `AirportStore.ToggleKeepsNoDuplicates` | src/stores/airportStore.ts:28-46 | toggles keep a duplicate-free favourite list duplicate-free |
| `AirportStore.KnownValues` | src/stores/airportStore.ts:56-58 | at most one value per code, and a value is in the list exactly when the lookup gives it for some code |
| `AirportStore.KnownValuesCons` | src/stores/airportStore.ts:56-58 | the first code contributes its value if the lookup knows it and nothing otherwise, ahead of the rest |
| `AirportStore.KnownValuesAppend` | src/stores/airportStore.ts:56-58 | the values of two code lists end to end are their values end to end, so values keep the order of their codes |
| `AirportStore.KnownValuesAllKnown` | src/stores/airportStore.ts:56-58 | when every code is known, the list has one value per code, position by position |
| `AirportStore.FavoriteAirports` | src/stores/airportStore.ts:54-59 | never more airports than codes, and an airport is listed exactly when the catalog lookup gives it for some favourite code |
| `AirportStore.FavoriteAirportsCons` | src/stores/airportStore.ts:56-58 | the first code contributes its catalog airport if it is known and nothing otherwise, ahead of the rest, which with the empty list fixes every result |
| `AirportStore.FavoriteAirportsAppend` | src/stores/airportStore.ts:56-58 | the airports of two code lists end to end are their airports end to end |
| `AirportStore.FavoriteAirportsAllKnown` | src/stores/airportStore.ts:54-59 | with every code in the catalog, one airport per code in code order |
| `AirportStore.UnknownCodeDropped` | src/stores/airportStore.ts:56-58 | a code the catalog does not know contributes nothing |
| `AirportStore.Store.constructor` | src/stores/airportStore.ts:19-20 | the default airport is selected and SGN is the only favourite |
| `AirportStore.Store.SetSelectedAirport` | src/stores/airportStore.ts:23-25 | the selection is replaced and the favourites are kept |
| `AirportStore.Store.ToggleFavorite` | src/stores/airportStore.ts:28-46 | the favourites become the toggled list, `isFavorite` flips for that code alone, and the selection is kept |
| `AirportStore.Store.GetFavoriteAirports` | src/stores/airportStore.ts:54-59 | the answer is `FavoriteAirports` of the current favourite codes: no more airports than codes, each the catalog airport of a favourite code and every known favourite present |
| `SettingsStore.OtherUnit` | src/stores/settingsStore.ts:24-29 | the toggled unit differs from the current one |
| `SettingsStore.OtherUnitInvolution` | src/stores/settingsStore.ts:24-29 | toggling twice returns to the start |
| `SettingsStore.Store.constructor` | src/stores/settingsStore.ts:16 | the initial unit is Celsius |
| `SettingsStore.Store.SetTemperatureUnit` | src/stores/settingsStore.ts:19-21 | the unit becomes the one given |
| `SettingsStore.Store.ToggleTemperatureUnit` | src/stores/settingsStore.ts:24-29 | Celsius becomes Fahrenheit and Fahrenheit becomes Celsius |
| `SettingsStore.ToggleTwice` | src/stores/settingsStore.ts:24-29 | two toggles through the store restore its unit |
| `TemperatureConverter.CelsiusToFahrenheit` | src/utils/temperatureConverter.ts:6-8 | the Fahrenheit-to-Celsius formula maps the result back to the input, and the result is above 32 exactly above freezing |
| `TemperatureConverter.FahrenheitToCelsius` | src/utils/temperatureConverter.ts:13-15 | the Celsius-to-Fahrenheit formula maps the result back to the input, and the result is positive exactly above 32 °F |
| `TemperatureConverter.KnownPoints` | src/utils/temperatureConverter.ts:6-15 | 0 °C is 32 °F, 100 °C is 212 °F, the scales meet at -40, and back |
| `TemperatureConverter.ConversionsInverse` | src/utils/temperatureConverter.ts:6-15 | the two conversions undo each other in both orders |
| `TemperatureConverter.ConversionsIncrease` | src/utils/temperatureConverter.ts:6-15 | both conversions are strictly increasing |
| `TemperatureConverter.ConvertTemperature` | src/utils/temperatureConverter.ts:23-31 | the result is the integer nearest the reading in the target unit |
| `TemperatureConverter.ConvertMonotone` | src/utils/temperatureConverter.ts:23-31 | a warmer reading never displays a lower number |
| `TemperatureConverter.FormatTemperature` | src/utils/temperatureConverter.ts:39-45 | the numeral of the rounded value followed by "°C" exactly for Celsius and "°F" exactly for Fahrenheit |
| `TemperatureConverter.FormatReadsBack` | src/utils/temperatureConverter.ts:39-45 | the numeral part is well formed and parses back to the rounded value |
| `TemperatureConverter.FormatConverted` | src/utils/temperatureConverter.ts:23-45 | formatting a converted value shows exactly the converted integer |
| `FlightTypes.BoardTypeName` | src/types/flight.ts:115 | "departure" names exactly the departure board and "arrival" exactly the arrival board |
| `FlightTypes.FindStatus` | src/components/flights/FlightStatusBadge.tsx:8 | `find` fails exactly when no row has the status, otherwise it gives the first row that has it |
| `FlightTypes.TableInStatusOrder` | src/types/flight.ts:25-68 | seven rows, the i-th describing the i-th status |
| `FlightTypes.EachStatusOnce` | src/types/flight.ts:25-68 | every status has exactly one row |
| `FlightTypes.StatusLookupSucceeds` | src/components/flights/FlightStatusBadge.tsx:8-12 | the badge's lookup always finds the status's own row, so the badge is never empty |
| `FlightTypes.TableLabelsDistinct` | src/types/flight.ts:25-68 | the seven labels are pairwise different |
| `FlightTypes.StatusLabel` | src/components/flights/FlightStatusBadge.tsx:18 | the delayed and en-route statuses show their table labels |
| `FlightTypes.LabelsDistinct` | src/types/flight.ts:25-68 | distinct statuses show distinct labels |
| `AirlineTable.AirlineTableShape` | src/data/airlines.ts:6-55 | 35 airlines with pairwise-distinct two-character codes |
| `AirlineTable.FindByCode` | src/data/airlines.ts:61 | `find` fails exactly when no entry carries the code, and otherwise finds an entry carrying it |
| `AirlineTable.FindDistinct` | src/data/airlines.ts:60-62 | with distinct codes, `find` returns the one entry with the code |
| `AirlineTable.GetAirlineByCode` | src/data/airlines.ts:60-62 | the lookup fails exactly for codes of no airline, and otherwise gives a table airline with that code |
| `AirlineTable.GetAirlineByOwnCode` | src/data/airlines.ts:60-62 | every airline is found again by its own code |
| `AirlineTable.GetRandomAirline` | src/data/airlines.ts:67-69 | the random airline is a table airline |
| `AirlineTable.RandomAirlineFound` | src/data/airlines.ts:67-69 | the random airline is the row at the scaled draw, and its code looks it up |
| `MockFlightService.FlightNumberSuffix` | src/services/mockFlightService.ts:32 | the number part lies in [100, 9099] |
| `MockFlightService.GenerateFlightNumber` | src/services/mockFlightService.ts:31-34 | a flight number is the airline code followed by three or four digits, no leading zero, that read back as the suffix in [100, 9099] |
| `MockFlightService.GenerateGate` | src/services/mockFlightService.ts:39-43 | a gate is a letter A-F followed by a number 1-30 with no leading zero |
| `MockFlightService.GateReadsBack` | src/services/mockFlightService.ts:39-43 | the gate label gives back the letter pick and the number pick |
| `MockFlightService.GenerateTerminal` | src/services/mockFlightService.ts:48-51 | the terminal is one of the six terminals |
| `MockFlightService.GenerateStatus` | src/services/mockFlightService.ts:56-66 | the status is the one of the cumulative threshold table read band by band |
| `MockFlightService.StatusMonotone` | src/services/mockFlightService.ts:56-66 | a larger draw never gives an earlier status |
| `MockFlightService.StatusIntervals` | src/services/mockFlightService.ts:56-66 | each status takes exactly its half-open interval of draws, so the shares are 50/20/15/7/5/2/1 percent |
| `MockFlightService.GenerateDelay` | src/services/mockFlightService.ts:71-82 | delays of 15-59, 60-119 and 120-239 minutes for the three delayed statuses, and none otherwise |
| `MockFlightService.DelayDeterminesStatus` | src/services/mockFlightService.ts:71-82 | a positive delay tells the delayed status apart |
| `MockFlightService.OtherAirports` | src/services/mockFlightService.ts:89 | exactly the catalog airports whose code is not the excluded one |
| `MockFlightService.RandomDestination` | src/services/mockFlightService.ts:87-91 | the destination is a catalog airport other than the base |
| `MockFlightService.FlightDuration` | src/services/mockFlightService.ts:113-117 | every flight lasts at least one whole hour |
| `MockFlightService.FlightId` | src/services/mockFlightService.ts:140 | the id starts with the airport code, a dash, the board type and a dash, and the rest reads back as the index |
| `MockFlightService.FlightIdInjective` | src/services/mockFlightService.ts:140 | the ids of one board differ exactly when their indices differ |
| `MockFlightService.GenerateFlight` | src/services/mockFlightService.ts:96-161 | a generated flight has the id of its index, a table airline, the drawn status, gates, terminals and an aircraft type from the tables |
| `MockFlightService.GeneratedEnds` | src/services/mockFlightService.ts:108-111 | departures leave the base and arrivals reach it; the other end is another catalog airport |
| `MockFlightService.GeneratedSchedule` | src/services/mockFlightService.ts:119-121 | departure at the base time, arrival a whole number of hours (at least one) later |
| `MockFlightService.GeneratedActualTimes` | src/services/mockFlightService.ts:123-131 | a departure actual time exists exactly unless scheduled or cancelled, and lies the delay after the schedule; an arrival actual time exists exactly for en-route flights, on schedule |
| `MockFlightService.GeneratedLateness` | src/services/mockFlightService.ts:124-127 | the departure is late by its status's delay band, and on time for statuses that are not delays |
| `MockFlightService.MinuteOffset` | src/services/mockFlightService.ts:177 | the offset lies in [-120, 479] minutes |
| `MockFlightService.BatchElement` | src/services/mockFlightService.ts:175-182 | the batch has one flight per loop turn, the k-th generated in turn k |
| `MockFlightService.GenerateFlightsForAirport` | src/services/mockFlightService.ts:166-194 | the loop's batch, stably sorted by board time, is the board |
| `MockFlightService.BoardIsSortedPermutation` | src/services/mockFlightService.ts:184-191 | the board holds exactly the generated flights, ordered by the board's scheduled time |
| `MockFlightService.BoardIdsDistinct` | src/services/mockFlightService.ts:166-194 | the ids on a board are pairwise distinct |
| `MockFlightService.BatchElementWindow` | src/services/mockFlightService.ts:176-180 | the k-th flight departs within [now - 2 h, now + 479 min] and carries the id of index k |
| `MockFlightService.BoardWindow` | src/services/mockFlightService.ts:174-182 | every board flight departs within [now - 2 h, now + 479 min] and carries the id of one loop index |
| `MockFlightService.BoardKeysDiffer` | src/services/mockFlightService.ts:207 | an airport's two boards are cached under different keys |
| `MockFlightService.FreshnessWindow` | src/services/mockFlightService.ts:206-222 | a stored board is served for 30 minutes and no longer; other keys are unaffected |
| `MockFlightService.FindFlight` | src/services/mockFlightService.ts:235 | `find` fails exactly when no flight carries the id, and otherwise returns the flight at the first position carrying it |
| `MockFlightService.FindInEntriesSpec` | src/services/mockFlightService.ts:232-239 | the scan of the cache finds a flight exactly when some cached board holds the id, and the flight it finds carries the id |
| `MockFlightService.FindInEntriesFirst` | src/services/mockFlightService.ts:232-239 | what the scan finds is the `find` result of the first entry, in insertion order, whose board holds the id |
| `MockFlightService.StoreKeepsValid` | src/services/mockFlightService.ts:219-222 | a `Map.set` keeps the insertion order listing every key once |
| `MockFlightService.FlightCache.constructor` | src/services/mockFlightService.ts:25 | the cache starts empty |
| `MockFlightService.FlightCache.GetFlights` | src/services/mockFlightService.ts:206-225 | a board under 30 minutes old is returned as stored; otherwise a new board of 25 is returned and stored at `now`, a new key going last |
| `MockFlightService.FlightCache.Store` | src/services/mockFlightService.ts:219-222 | the entry is set under the key, and a new key goes last in insertion order |
| `MockFlightService.FlightCache.GetFlightById` | src/services/mockFlightService.ts:232-239 | the result is the first flight with the id, boards scanned in insertion order |
| `MockFlightService.FlightCache.ClearCache` | src/services/mockFlightService.ts:244-246 | afterwards no id is found |
| `WeatherTypes.FindCondition` | src/services/mockWeatherService.ts:78 | `find` fails exactly when no row has the code, and otherwise finds a table row with it |
| `WeatherTypes.TableInCodeOrder` | src/types/weather.ts:28-37 | eight rows, the i-th describing the i-th code |
| `WeatherTypes.FindFirstCondition` | src/services/mockWeatherService.ts:78 | `find` returns the first row with the code |
| `WeatherTypes.ConditionLookupSucceeds` | src/services/mockWeatherService.ts:78 | the lookup asserted non-null always succeeds, with the code's own row |
| `WeatherTypes.ConditionRowsDistinct` | src/types/weather.ts:28-37 | labels and icons are pairwise different |
| `MockWeatherService.AbsReal` | src/services/mockWeatherService.ts:45 | the absolute value is non-negative and equals the latitude or its negation |
| `MockWeatherService.Zone` | src/services/mockWeatherService.ts:45-72 | tropical below 23.5 degrees, subtropical below 35, temperate below 50, polar otherwise, each bound in the colder zone |
| `MockWeatherService.ZoneSymmetric` | src/services/mockWeatherService.ts:45-72 | both hemispheres share their zones |
| `MockWeatherService.ZoneCoolsWithLatitude` | src/services/mockWeatherService.ts:45-72 | further from the equator the temperature range never moves up |
| `MockWeatherService.ZonesWellFormed` | src/services/mockWeatherService.ts:47-72 | every zone has a non-empty range and at least one likely condition |
| `MockWeatherService.RandomInRange` | src/services/mockWeatherService.ts:96-98 | the value lies in [min, max) |
| `MockWeatherService.GenerateWeatherForLocation` | src/services/mockWeatherService.ts:41-91 | temperature in the zone's range, wind in [5, 30], humidity in [40, 90], the condition the drawn likely one, label and icon from its table row, stamped `now` |
| `MockWeatherService.ZoneExcludes` | src/services/mockWeatherService.ts:50-72 | no fog or overcast sky near the equator, no sun or thunderstorm in polar latitudes |
| `MockWeatherService.FreshEntry` | src/services/mockWeatherService.ts:20-21 | an entry is served exactly when it exists and is under ten minutes old |
| `MockWeatherService.FreshnessWindow` | src/services/mockWeatherService.ts:18-35 | a stored reading is served exactly during the ten minutes after it was stored |
| `MockWeatherService.WeatherCache.constructor` | src/services/mockWeatherService.ts:5 | the cache starts empty |
| `MockWeatherService.WeatherCache.GetWeather` | src/services/mockWeatherService.ts:18-35 | a fresh reading is returned as stored; otherwise a new reading is returned and stored under the IATA code at `now` |
| `MockWeatherService.WeatherCache.ClearCache` | src/services/mockWeatherService.ts:103-105 | afterwards nothing is fresh |
| `WeatherApiService.MapWeatherCode` | src/services/weatherApiService.ts:25-80 | each condition code covers exactly its WMO groups, and every other code is partly cloudy |
| `WeatherApiService.RainAndFogLabels` | src/services/weatherApiService.ts:37-68 | drizzle is "Light Rain", freezing drizzle and rain "Freezing Rain", rain and showers "Rainy", fog "Foggy" |
| `WeatherApiService.LabelDeterminesCode` | src/services/weatherApiService.ts:25-80 | codes with the same label have the same condition code |
| `WeatherApiService.GetWeatherIcon` | src/services/weatherApiService.ts:85-95 | every condition code has a non-empty icon, the table's literal for that code |
| `WeatherApiService.IconsDistinct` | src/services/weatherApiService.ts:85-95 | different condition codes show different icons |
| `WeatherApiService.BuildWeather` | src/services/weatherApiService.ts:119-131 | temperature and wind the nearest integers, humidity passed through, label and code from the mapping, the code's icon |
| `WeatherApiService.GetWeatherOutcome` | src/services/weatherApiService.ts:143-175 | a fresh entry is served; otherwise a successful fetch is served and stored, and a failed fetch serves a stale entry or fails |
| `WeatherApiService.FailsOnlyWithoutData` | src/services/weatherApiService.ts:165-174 | the call fails exactly when nothing was cached and the fetch failed |
| `WeatherApiService.OtherKeysUnchanged` | src/services/weatherApiService.ts:158-162 | other keys keep their entries, and a key that had an entry keeps one |
| `WeatherApiService.FetchedThenCached` | src/services/weatherApiService.ts:148-164 | after a successful fetch, the next ten minutes are served from the cache whatever later fetches do |
| `WeatherApiService.WeatherCache.constructor` | src/services/weatherApiService.ts:19 | the cache starts empty |
| `WeatherApiService.WeatherCache.GetWeatherForAirport` | src/services/weatherApiService.ts:143-175 | the call's answer and the new cache are those of `GetWeatherOutcome` for the airport's key |
| `WeatherApiService.WeatherCache.ClearWeatherCache` | src/services/weatherApiService.ts:180-182 | the cache becomes empty |
| `AirportSearch.NextIndex` | src/components/airport/AirportSearch.tsx:58-60 | ArrowDown moves one row down and stays on the last row |
| `AirportSearch.PrevIndex` | src/components/airport/AirportSearch.tsx:64 | ArrowUp moves one row up, and from the top row or none to no row |
| `AirportSearch.DownPressesReach` | src/components/airport/AirportSearch.tsx:56-61 | n presses of ArrowDown reach row prev + n or the last row |
| `AirportSearch.UpPressesReach` | src/components/airport/AirportSearch.tsx:62-65 | n presses of ArrowUp reach row prev - n or no row |
| `AirportSearch.SearchBox.constructor` | src/components/airport/AirportSearch.tsx:8-11 | empty query and results, closed, no row highlighted |
| `AirportSearch.SearchBox.RunSearch` | src/components/airport/AirportSearch.tsx:18-32 | a non-blank query shows the search results, opens exactly over results and clears the highlight; a blank one empties and closes the list |
| `AirportSearch.SearchBox.OnChange` | src/components/airport/AirportSearch.tsx:105 | only the query changes |
| `AirportSearch.SearchBox.OnFocus` | src/components/airport/AirportSearch.tsx:107-109 | the dropdown opens when there are results and is otherwise left as it was |
| `AirportSearch.SearchBox.HandleSelectAirport` | src/components/airport/AirportSearch.tsx:79-86 | the store selects the hit's airport and the box is emptied and closed |
| `AirportSearch.SearchBox.HandleClear` | src/components/airport/AirportSearch.tsx:88-94 | the box is emptied and closed |
| `AirportSearch.SearchBox.HandleKeyDown` | src/components/airport/AirportSearch.tsx:52-77 | nothing happens while closed or empty; the arrows move the highlight, Enter selects a highlighted row, Escape closes and clears the highlight |
| `FlightRow.ShownAirport` | src/components/flights/FlightRow.tsx:12-13 | arrival rows show the origin, departure rows the destination |
| `FlightRow.ShownLeg` | src/components/flights/FlightRow.tsx:12-14 | arrival rows show the arrival leg, departure rows the departure leg |
| `FlightRow.DisplayTime` | src/components/flights/FlightRow.tsx:17-19 | the actual time when known, else the scheduled time |
| `FlightRow.IsDelayed` | src/components/flights/FlightRow.tsx:17-20 | a row is marked late exactly when its displayed time is after the schedule |
| `FlightRow.GateLabel` | src/components/flights/FlightRow.tsx:57 | the gate when present and non-empty, else a dash |
| `FlightRow.GeneratedRowEnds` | src/components/flights/FlightRow.tsx:12-14 | a generated row shows another catalog airport than the board's and a real gate label |
| `FlightRow.GeneratedRowLateness` | src/components/flights/FlightRow.tsx:20 | on a departure board a generated row is late exactly for the three delayed statuses; on an arrival board never |

## Left out

- Rendering: React components, JSX markup, CSS classes and icons. Only the state and
  the values a row displays are modelled.
- Date formatting with date-fns and the time-zone helpers (`src/utils/timezone.ts`):
  instants are integer milliseconds, not ISO 8601 strings.
- Persistence of the stores to localStorage through zustand's `persist`, and its
  `partialize` selection.
- The network fetch of the live weather service, its URL building and JSON decoding. The
  outcome of the fetch is a parameter (`FetchOutcome`), and so is the clock reading once
  the fetch has finished.
- Time and randomness:
  - Timers and event listeners: the 300 ms debounce of the search box is left out, so
    `RunSearch` is its body run on the current query. The outside-click listener that
    closes the dropdown and the focus and blur calls on the input are left out too.
  - Every clock read of one call is a single `now` (mock services) or `now` and
    `fetchedAt` (live weather service). The live service stamps both `lastUpdated` and
    the cache entry with `fetchedAt`.
  - `Math.random()`: the order in which draws are consumed is not modelled. Draws are
    named by purpose (`FlightDraws`, `WeatherDraws`).
- `Math.sqrt` in the flight duration is a parameter, required only to be non-negative
  on non-negative arguments.
- Floating point: all JavaScript numbers are exact reals or integers. Rounding error in
  products such as `Math.random() * 9000` is not modelled.
- `toLowerCase` is modelled on ASCII letters only; other Unicode case mappings are left
  out. `trim` strips the ECMAScript white-space characters listed in `AsciiText`.
- `getAllAirports` and `getDefaultAirport` return the static catalog data
  (`src/data/airports.ts`), which is not part of this model. The catalog and the
  default airport are parameters instead.
- `Array.prototype.sort` is modelled by its result, a stable sort as a function. The
  in-place mechanics of the engine's algorithm are left out.
- `WeatherApiService.CacheKey` is a triple of IATA code, latitude and longitude. The
  source renders the key as a string, where two positions that print the same (0 and -0)
  share a key. The model distinguishes them.
- `WeatherApiService.CurrentReading`: the WMO weather code is an integer. The API
  documents it as one.
- `MockWeatherService.RandomInRange` takes integer bounds, because every caller passes
  integer literals.
- `AirportSearch.SearchBox.HandleSelectAirport` takes a search hit, as the source does,
  and selects its airport part. The source stores the hit object itself, `matchScore`
  included, as the selected airport.
- `AirportSearch.SearchBox.RunSearch` leaves the highlight of a blank query as it was, as
  the source does. A stale index can then survive beside an empty result list, where
  every key is ignored.
- `WeatherApiService.WeatherCache.GetWeatherForAirport` is one atomic step. The source
  reads the cache entry before it awaits the fetch and, when the fetch fails, answers
  with that earlier reading. A `clearWeatherCache` or another call's write during the
  await is not modelled.
- `MockFlightService.FlightCache.GetFlights` requires exactly 25 draw records, one per
  flight of the default count. `GenerateFlightsForAirport` takes any count.
- `AirportService.SearchAirports`: a `null` or `undefined` query is not modelled. Strings
  are never absent in the model, and the empty string is blank.
- The source's two weather condition type sets stay separate (`WeatherConditionCode` and
  `ApiConditionCode`), because the live service produces codes the shared type does not
  contain.
