/** Temperature conversion and formatting. Temperatures are JavaScript numbers, modelled as
    exact reals. */
module TemperatureConverter {
  import opened JsMath
  import opened Decimal
  import opened SettingsStore

  /** `celsiusToFahrenheit`: the Fahrenheit reading that the Fahrenheit-to-Celsius formula
      maps back to the input, above 32 exactly for readings above freezing. */
  function CelsiusToFahrenheit(celsius: real): (fahrenheit: real)
    ensures ((fahrenheit - 32.0) * 5.0) / 9.0 == celsius
    ensures fahrenheit > 32.0 <==> celsius > 0.0
  {
    (celsius * 9.0) / 5.0 + 32.0
  }

  /** `fahrenheitToCelsius`: the Celsius reading that the Celsius-to-Fahrenheit formula maps
      back to the input, above 0 exactly for readings above 32 °F. */
  function FahrenheitToCelsius(fahrenheit: real): (celsius: real)
    ensures (celsius * 9.0) / 5.0 + 32.0 == fahrenheit
    ensures celsius > 0.0 <==> fahrenheit > 32.0
  {
    ((fahrenheit - 32.0) * 5.0) / 9.0
  }

  /** Water freezes at 32 °F and boils at 212 °F; the scales meet at -40. */
  lemma KnownPoints()
    ensures CelsiusToFahrenheit(0.0) == 32.0 && CelsiusToFahrenheit(100.0) == 212.0
    ensures CelsiusToFahrenheit(-40.0) == -40.0
    ensures FahrenheitToCelsius(32.0) == 0.0 && FahrenheitToCelsius(212.0) == 100.0
  {
  }

  /** The two conversions are inverse to each other, in both orders. */
  lemma ConversionsInverse(t: real)
    ensures FahrenheitToCelsius(CelsiusToFahrenheit(t)) == t
    ensures CelsiusToFahrenheit(FahrenheitToCelsius(t)) == t
  {
  }

  /** Both conversions are strictly increasing. */
  lemma ConversionsIncrease(x: real, y: real)
    requires x < y
    ensures CelsiusToFahrenheit(x) < CelsiusToFahrenheit(y)
    ensures FahrenheitToCelsius(x) < FahrenheitToCelsius(y)
  {
  }

  /** `convertTemperature(temperature, unit)` for a Celsius reading: the integer nearest
      the reading in the target unit, halves rounded up. */
  function ConvertTemperature(temperature: real, unit: TemperatureUnit): (k: int)
    ensures unit == Celsius ==> k as real - 0.5 <= temperature < k as real + 0.5
    ensures unit == Fahrenheit ==>
      k as real - 0.5 <= CelsiusToFahrenheit(temperature) < k as real + 0.5
  {
    if unit == Fahrenheit then Round(CelsiusToFahrenheit(temperature)) else Round(temperature)
  }

  /** A warmer reading never converts to a lower displayed number. */
  lemma ConvertMonotone(x: real, y: real, unit: TemperatureUnit)
    requires x <= y
    ensures ConvertTemperature(x, unit) <= ConvertTemperature(y, unit)
  {
    RoundMonotone(x, y);
    RoundMonotone(CelsiusToFahrenheit(x), CelsiusToFahrenheit(y));
  }

  /** The unit symbol. */
  function Symbol(unit: TemperatureUnit): string {
    if unit == Celsius then "°C" else "°F"
  }

  /** `formatTemperature(temperature, unit)`: the rounded value as a decimal numeral, then
      "°C" exactly when the unit is Celsius and "°F" otherwise. */
  function FormatTemperature(temperature: real, unit: TemperatureUnit): (s: string)
    ensures |s| >= 3 && s[..|s| - 2] == IntToString(Round(temperature))
    ensures s[|s| - 2..] == "°C" <==> unit == Celsius
    ensures s[|s| - 2..] == "°F" <==> unit == Fahrenheit
  {
    var digits := IntToString(Round(temperature));
    var r := digits + Symbol(unit);
    assert r[..|r| - 2] == digits && r[|r| - 2..] == Symbol(unit);
    r
  }

  /** The numeral of a formatted temperature reads back as the rounded value. */
  lemma FormatReadsBack(temperature: real, unit: TemperatureUnit)
    ensures var s := FormatTemperature(temperature, unit);
      var numeral := s[..|s| - 2];
      |numeral| >= 1 && (numeral[0] == '-' ==> AllDigits(numeral[1..])) &&
      (numeral[0] != '-' ==> AllDigits(numeral)) && ParseInt(numeral) == Round(temperature)
  {
    ParseIntToString(Round(temperature));
  }

  /** Formatting an already converted value shows exactly the converted integer. */
  lemma FormatConverted(temperature: real, unit: TemperatureUnit)
    ensures var k := ConvertTemperature(temperature, unit);
      var s := FormatTemperature(k as real, unit);
      s[..|s| - 2] == IntToString(k)
  {
    var k := ConvertTemperature(temperature, unit);
    RoundUnique(k as real, k);
  }
}
