/** The weather reading and the table of weather conditions with labels and icons. */
module WeatherTypes {
  import opened Wrappers

  /** The eight condition codes of the weather type. */
  datatype WeatherConditionCode = Sunny | PartlyCloudy | Cloudy | Overcast | Rainy | Thunderstorm | Foggy | Windy

  /** A row of the condition table: code, display label and icon. */
  datatype WeatherCondition = WeatherCondition(code: WeatherConditionCode, labelText: string, icon: string)

  const WeatherConditions: seq<WeatherCondition> := [
    WeatherCondition(Sunny, "Sunny", "\U{2600}\U{FE0F}"),
    WeatherCondition(PartlyCloudy, "Partly Cloudy", "\U{26C5}"),
    WeatherCondition(Cloudy, "Cloudy", "\U{2601}\U{FE0F}"),
    WeatherCondition(Overcast, "Overcast", "\U{1F325}\U{FE0F}"),
    WeatherCondition(Rainy, "Rainy", "\U{1F327}\U{FE0F}"),
    WeatherCondition(Thunderstorm, "Thunderstorm", "\U{26C8}\U{FE0F}"),
    WeatherCondition(Foggy, "Foggy", "\U{1F32B}\U{FE0F}"),
    WeatherCondition(Windy, "Windy", "\U{1F4A8}")
  ]

  /** A weather reading: rounded temperature in Celsius, label, code, rounded wind speed in
      km/h, humidity in percent, icon and the instant it was produced (milliseconds). */
  datatype Weather = Weather(
    temperature: int,
    condition: string,
    conditionCode: WeatherConditionCode,
    windSpeed: int,
    humidity: int,
    icon: string,
    lastUpdated: int)

  /** `table.find((w) => w.code === code)`. */
  function FindCondition(table: seq<WeatherCondition>, code: WeatherConditionCode): (r: Option<WeatherCondition>)
    ensures r.None? <==> forall i :: 0 <= i < |table| ==> table[i].code != code
    ensures r.Some? ==> r.value in table && r.value.code == code
    decreases |table|
  {
    if table == [] then None
    else if table[0].code == code then Some(table[0])
    else
      var r := FindCondition(table[1..], code);
      assert forall i :: 1 <= i < |table| ==> table[i] == table[1..][i - 1];
      r
  }

  /** The position of a code in declaration order. */
  function CodeIndex(c: WeatherConditionCode): nat {
    match c
    case Sunny => 0
    case PartlyCloudy => 1
    case Cloudy => 2
    case Overcast => 3
    case Rainy => 4
    case Thunderstorm => 5
    case Foggy => 6
    case Windy => 7
  }

  /** Row i of the table describes the i-th code. */
  lemma TableInCodeOrder()
    ensures |WeatherConditions| == 8
    ensures forall i :: 0 <= i < |WeatherConditions| ==> CodeIndex(WeatherConditions[i].code) == i
  {
  }

  /** `find` returns the first row of the code. */
  lemma {:induction false} FindFirstCondition(table: seq<WeatherCondition>, code: WeatherConditionCode, k: nat)
    requires k < |table| && table[k].code == code
    requires forall j :: 0 <= j < k ==> table[j].code != code
    ensures FindCondition(table, code) == Some(table[k])
    decreases k
  {
    if k > 0 {
      FindFirstCondition(table[1..], code, k - 1);
    }
  }

  /** Every code has its own row, so looking it up in the table always succeeds. */
  lemma ConditionLookupSucceeds(c: WeatherConditionCode)
    ensures var r := FindCondition(WeatherConditions, c);
      r.Some? && r.value.code == c && r.value == WeatherConditions[CodeIndex(c)]
  {
    TableInCodeOrder();
    var k := CodeIndex(c);
    assert WeatherConditions[k].code == c by {
      match c
      case Sunny => assert WeatherConditions[0].code == c;
      case PartlyCloudy => assert WeatherConditions[1].code == c;
      case Cloudy => assert WeatherConditions[2].code == c;
      case Overcast => assert WeatherConditions[3].code == c;
      case Rainy => assert WeatherConditions[4].code == c;
      case Thunderstorm => assert WeatherConditions[5].code == c;
      case Foggy => assert WeatherConditions[6].code == c;
      case Windy => assert WeatherConditions[7].code == c;
    }
    FindFirstCondition(WeatherConditions, c, k);
  }

  /** The eight labels, and the eight icons, are pairwise different. */
  lemma ConditionRowsDistinct()
    ensures forall i, j :: 0 <= i < j < |WeatherConditions| ==>
      WeatherConditions[i].labelText != WeatherConditions[j].labelText &&
      WeatherConditions[i].icon != WeatherConditions[j].icon
  {
  }
}
