/** The settings store: the temperature unit the application displays. */
module SettingsStore {

  datatype TemperatureUnit = Celsius | Fahrenheit

  /** The unit `toggleTemperatureUnit` switches to. */
  function OtherUnit(u: TemperatureUnit): (v: TemperatureUnit)
    ensures v != u
  {
    if u == Celsius then Fahrenheit else Celsius
  }

  /** Switching twice returns to the start. */
  lemma OtherUnitInvolution(u: TemperatureUnit)
    ensures OtherUnit(OtherUnit(u)) == u
  {
  }

  class Store {
    var temperatureUnit: TemperatureUnit

    /** The initial unit is Celsius. */
    constructor()
      ensures temperatureUnit == Celsius
    {
      temperatureUnit := Celsius;
    }

    /** `setTemperatureUnit`: the unit becomes exactly `unit`, whatever it was. */
    method SetTemperatureUnit(unit: TemperatureUnit)
      modifies this
      ensures temperatureUnit == unit
    {
      temperatureUnit := unit;
    }

    /** `toggleTemperatureUnit`: Celsius becomes Fahrenheit and Fahrenheit becomes Celsius. */
    method ToggleTemperatureUnit()
      modifies this
      ensures temperatureUnit == OtherUnit(old(temperatureUnit))
      ensures old(temperatureUnit) == Celsius <==> temperatureUnit == Fahrenheit
    {
      var current := temperatureUnit;
      temperatureUnit := if current == Celsius then Fahrenheit else Celsius;
    }
  }

  /** Toggling twice through the store restores the unit. */
  method ToggleTwice(s: Store)
    modifies s
    ensures s.temperatureUnit == old(s.temperatureUnit)
  {
    s.ToggleTemperatureUnit();
    s.ToggleTemperatureUnit();
  }
}
