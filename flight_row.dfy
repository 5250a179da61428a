/** What one row of the flight board shows: the airport at the far end, the leg at the
    base, the time to display, the late marker and the gate. */
module FlightRow {
  import opened Wrappers
  import opened AirportTypes
  import opened FlightTypes
  import MockFlightService

  /** Arrival boards show where the flight comes from, departure boards where it goes. */
  function ShownAirport(f: Flight, t: FlightBoardType): (a: Airport)
    ensures t == Arrival ==> a == f.origin
    ensures t == Departure ==> a == f.destination
  {
    if t == Arrival then f.origin else f.destination
  }

  /** Arrival boards show the arrival leg, departure boards the departure leg. */
  function ShownLeg(f: Flight, t: FlightBoardType): (leg: FlightTime)
    ensures t == Arrival ==> leg == f.arrival
    ensures t == Departure ==> leg == f.departure
  {
    if t == Arrival then f.arrival else f.departure
  }

  /** The actual time when there is one, the scheduled time otherwise. */
  function DisplayTime(leg: FlightTime): (at: int)
    ensures leg.actual.Some? ==> at == leg.actual.value
    ensures leg.actual.None? ==> at == leg.scheduled
  {
    if leg.actual.Some? then leg.actual.value else leg.scheduled
  }

  /** The row is marked late exactly when an actual time exists and is after the schedule,
      that is, exactly when the time it displays is after the schedule. */
  predicate IsDelayed(leg: FlightTime)
    ensures IsDelayed(leg) <==> DisplayTime(leg) > leg.scheduled
  {
    leg.actual.Some? && leg.actual.value > leg.scheduled
  }

  /** `gate || '-'`: the gate, or a dash when there is none or it is empty. */
  function GateLabel(leg: FlightTime): (s: string)
    ensures leg.gate.Some? && leg.gate.value != "" ==> s == leg.gate.value
    ensures leg.gate.None? || leg.gate.value == "" ==> s == "-"
  {
    if leg.gate.Some? && leg.gate.value != "" then leg.gate.value else "-"
  }

  /** A generated flight's row names the other airport, never the board's own, and shows
      the generated gate of the base leg rather than the dash. */
  lemma GeneratedRowEnds(index: nat, base: Airport, t: FlightBoardType, baseTime: int,
                         catalog: seq<Airport>, d: MockFlightService.FlightDraws, sqrt: real -> real)
    requires MockFlightService.ValidDraws(d) && MockFlightService.HasOtherAirport(catalog, base.iata)
    requires MockFlightService.NonNegativeRoot(sqrt)
    ensures var f := MockFlightService.GenerateFlight(index, base, t, baseTime, catalog, d, sqrt);
      var leg := ShownLeg(f, t);
      ShownAirport(f, t) in catalog && ShownAirport(f, t).iata != base.iata &&
      leg.gate.Some? && GateLabel(leg) == leg.gate.value && MockFlightService.IsGateLabel(GateLabel(leg))
  {
    MockFlightService.GeneratedEnds(index, base, t, baseTime, catalog, d, sqrt);
  }

  /** On a departure board a generated flight is marked late exactly when its status is one
      of the three delays; on an arrival board it is never marked late. */
  lemma GeneratedRowLateness(index: nat, base: Airport, t: FlightBoardType, baseTime: int,
                             catalog: seq<Airport>, d: MockFlightService.FlightDraws, sqrt: real -> real)
    requires MockFlightService.ValidDraws(d) && MockFlightService.HasOtherAirport(catalog, base.iata)
    requires MockFlightService.NonNegativeRoot(sqrt)
    ensures var f := MockFlightService.GenerateFlight(index, base, t, baseTime, catalog, d, sqrt);
      (t == Departure ==> (IsDelayed(ShownLeg(f, t)) <==> MockFlightService.IsDelayedStatus(f.status))) &&
      (t == Arrival ==> !IsDelayed(ShownLeg(f, t)))
  {
    MockFlightService.GeneratedActualTimes(index, base, t, baseTime, catalog, d, sqrt);
    MockFlightService.GeneratedLateness(index, base, t, baseTime, catalog, d, sqrt);
  }
}
