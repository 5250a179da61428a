/** The flight record types of the board and the status display table.
    Instants are integer milliseconds since the epoch; the ISO 8601 strings of the
    application are not modelled. */
module FlightTypes {
  import opened Wrappers
  import opened AirportTypes

  /** The seven flight statuses. */
  datatype FlightStatus = Scheduled | EnRoute | Delayed | Delayed1h | Delayed2h | Cancelled | Unknown

  /** Departure or arrival board. */
  datatype FlightBoardType = Departure | Arrival

  /** The string value of a board type, as used in ids and cache keys. */
  function BoardTypeName(t: FlightBoardType): (name: string)
    ensures name == "departure" <==> t == Departure
    ensures name == "arrival" <==> t == Arrival
  {
    match t
    case Departure => "departure"
    case Arrival => "arrival"
  }

  /** One row of the status display table: the status, its label and two style classes. */
  datatype FlightStatusConfig = FlightStatusConfig(status: FlightStatus, labelText: string, color: string, bgColor: string)

  const FlightStatuses: seq<FlightStatusConfig> := [
    FlightStatusConfig(Scheduled, "Scheduled", "text-blue-700", "bg-blue-100"),
    FlightStatusConfig(EnRoute, "En Route", "text-green-700", "bg-green-100"),
    FlightStatusConfig(Delayed, "Delayed", "text-yellow-700", "bg-yellow-100"),
    FlightStatusConfig(Delayed1h, "Delayed >1h", "text-orange-700", "bg-orange-100"),
    FlightStatusConfig(Delayed2h, "Delayed >2h", "text-red-700", "bg-red-100"),
    FlightStatusConfig(Cancelled, "Cancelled", "text-gray-700", "bg-gray-100"),
    FlightStatusConfig(Unknown, "Unknown", "text-gray-500", "bg-gray-50")
  ]

  /** `table.find((s) => s.status === status)`. */
  function FindStatus(table: seq<FlightStatusConfig>, status: FlightStatus): (r: Option<FlightStatusConfig>)
    ensures r.None? <==> forall i :: 0 <= i < |table| ==> table[i].status != status
    ensures r.Some? ==>
      exists i :: 0 <= i < |table| && table[i] == r.value && table[i].status == status &&
        forall j :: 0 <= j < i ==> table[j].status != status
    decreases |table|
  {
    if table == [] then None
    else if table[0].status == status then Some(table[0])
    else
      var r := FindStatus(table[1..], status);
      if r.Some? then
        var i :| 0 <= i < |table[1..]| && table[1..][i] == r.value && table[1..][i].status == status &&
          forall j :: 0 <= j < i ==> table[1..][j].status != status;
        assert table[i + 1] == r.value;
        r
      else r
  }

  /** The number of table rows for a status. */
  function CountStatus(table: seq<FlightStatusConfig>, status: FlightStatus): nat
    decreases |table|
  {
    if table == [] then 0
    else (if table[0].status == status then 1 else 0) + CountStatus(table[1..], status)
  }

  /** The position of a status in declaration order. */
  function StatusIndex(s: FlightStatus): nat {
    match s
    case Scheduled => 0
    case EnRoute => 1
    case Delayed => 2
    case Delayed1h => 3
    case Delayed2h => 4
    case Cancelled => 5
    case Unknown => 6
  }

  /** Row i of the table describes the i-th status, for all seven statuses. */
  lemma TableInStatusOrder()
    ensures |FlightStatuses| == 7
    ensures forall i :: 0 <= i < |FlightStatuses| ==> StatusIndex(FlightStatuses[i].status) == i
  {
  }

  /** The row of a status sits at the status's position. */
  lemma RowOfStatus(s: FlightStatus)
    ensures StatusIndex(s) < |FlightStatuses| && FlightStatuses[StatusIndex(s)].status == s
  {
    TableInStatusOrder();
    match s
    case Scheduled => assert FlightStatuses[0].status == s;
    case EnRoute => assert FlightStatuses[1].status == s;
    case Delayed => assert FlightStatuses[2].status == s;
    case Delayed1h => assert FlightStatuses[3].status == s;
    case Delayed2h => assert FlightStatuses[4].status == s;
    case Cancelled => assert FlightStatuses[5].status == s;
    case Unknown => assert FlightStatuses[6].status == s;
  }

  /** `find` returns the first row of the status. */
  lemma {:induction false} FindFirstRow(table: seq<FlightStatusConfig>, status: FlightStatus, k: nat)
    requires k < |table| && table[k].status == status
    requires forall j :: 0 <= j < k ==> table[j].status != status
    ensures FindStatus(table, status) == Some(table[k])
    decreases k
  {
    if k > 0 {
      FindFirstRow(table[1..], status, k - 1);
    }
  }

  /** A status that occupies exactly one row is counted once. */
  lemma {:induction false} CountSingleRow(table: seq<FlightStatusConfig>, status: FlightStatus, k: nat)
    requires k < |table| && table[k].status == status
    requires forall j :: 0 <= j < |table| && j != k ==> table[j].status != status
    ensures CountStatus(table, status) == 1
    decreases |table|
  {
    if k > 0 {
      CountSingleRow(table[1..], status, k - 1);
    } else {
      NoRowCountsZero(table[1..], status);
    }
  }

  lemma {:induction false} NoRowCountsZero(table: seq<FlightStatusConfig>, status: FlightStatus)
    requires forall j :: 0 <= j < |table| ==> table[j].status != status
    ensures CountStatus(table, status) == 0
    decreases |table|
  {
    if table != [] {
      NoRowCountsZero(table[1..], status);
    }
  }

  /** Every status has exactly one row in the table. */
  lemma EachStatusOnce(s: FlightStatus)
    ensures CountStatus(FlightStatuses, s) == 1
  {
    TableInStatusOrder();
    RowOfStatus(s);
    CountSingleRow(FlightStatuses, s, StatusIndex(s));
  }

  /** Looking a status up in the table, as the status badge does, always finds its row. */
  lemma StatusLookupSucceeds(s: FlightStatus)
    ensures var r := FindStatus(FlightStatuses, s);
      r.Some? && r.value.status == s && r.value == FlightStatuses[StatusIndex(s)]
  {
    TableInStatusOrder();
    RowOfStatus(s);
    FindFirstRow(FlightStatuses, s, StatusIndex(s));
  }

  /** The seven labels are pairwise different. */
  lemma TableLabelsDistinct()
    ensures forall i, j :: 0 <= i < j < |FlightStatuses| ==> FlightStatuses[i].labelText != FlightStatuses[j].labelText
  {
  }

  /** The label shown for a status. */
  function StatusLabel(s: FlightStatus): (text: string)
    ensures s == Delayed1h ==> text == "Delayed >1h"
    ensures s == Delayed2h ==> text == "Delayed >2h"
    ensures s == EnRoute ==> text == "En Route"
  {
    StatusLookupSucceeds(s);
    FindStatus(FlightStatuses, s).value.labelText
  }

  /** Distinct statuses have distinct labels. */
  lemma LabelsDistinct(s: FlightStatus, t: FlightStatus)
    requires s != t
    ensures StatusLabel(s) != StatusLabel(t)
  {
    var i, j := StatusIndex(s), StatusIndex(t);
    assert i != j;
    LabelAt(s);
    LabelAt(t);
    TableLabelsDistinct();
  }

  lemma LabelAt(s: FlightStatus)
    ensures StatusIndex(s) < |FlightStatuses| && StatusLabel(s) == FlightStatuses[StatusIndex(s)].labelText
  {
    StatusLookupSucceeds(s);
  }

  /** An airline: its two-character IATA code and its name. */
  datatype Airline = Airline(code: string, name: string)

  /** One leg of a flight: scheduled instant, actual instant if known, terminal and gate. */
  datatype FlightTime = FlightTime(scheduled: int, actual: Option<int>, terminal: Option<string>, gate: Option<string>)

  /** A flight on the board. */
  datatype Flight = Flight(
    id: string,
    flightNumber: string,
    airline: Airline,
    codeshares: Option<seq<string>>,
    origin: Airport,
    destination: Airport,
    departure: FlightTime,
    arrival: FlightTime,
    status: FlightStatus,
    aircraftType: Option<string>)
}
