/** The mock flight board: random flight generation with the random draws passed in,
    the sorted batch for an airport, and the 30-minute cache of batches. */
module MockFlightService {
  import opened Wrappers
  import opened JsMath
  import opened Decimal
  import opened StableSort
  import opened AirportTypes
  import opened FlightTypes
  import opened AirlineTable

  const MinuteMs: int := 60000
  const HourMs: int := 3600000

  /** Batches stay fresh for 30 minutes. */
  const CacheDuration: int := 30 * 60 * 1000

  /** `generateFlightsForAirport`'s default count. */
  const DefaultCount: nat := 25

  const AircraftTypes: seq<string> := [
    "Airbus A320", "Airbus A321", "Airbus A330", "Airbus A350",
    "Boeing 737-800", "Boeing 787-9", "Boeing 777-300ER", "ATR 72-600"
  ]

  const Terminals: seq<string> := ["1", "2", "T1", "T2", "International", "Domestic"]

  // ---------------------------------------------------------------- flight numbers

  /** `Math.floor(r * 9000) + 100`. */
  function FlightNumberSuffix(r: real): (n: nat)
    requires IsDraw(r)
    ensures 100 <= n <= 9099
  {
    PickIndex(r, 9000) + 100
  }

  /** `generateFlightNumber(airlineCode)`: the airline code followed by three or four
      digits (no leading zero) that read back as the suffix, a number in [100, 9099]. */
  function GenerateFlightNumber(airlineCode: string, r: real): (s: string)
    requires IsDraw(r)
    ensures airlineCode <= s
    ensures var digits := s[|airlineCode|..];
      3 <= |digits| <= 4 && AllDigits(digits) && digits[0] != '0' &&
      ParseNat(digits) == FlightNumberSuffix(r) && 100 <= ParseNat(digits) <= 9099
  {
    var n := FlightNumberSuffix(r);
    ThreeOrFourDigits(n);
    ParseNatToString(n);
    var s := airlineCode + NatToString(n);
    assert s[|airlineCode|..] == NatToString(n);
    s
  }

  // ---------------------------------------------------------------- gates and terminals

  /** A gate label: a letter A-F, then the decimal form of a number in [1, 30]. */
  predicate IsGateLabel(g: string) {
    |g| >= 2 && 'A' <= g[0] <= 'F' && AllDigits(g[1..]) && g[1] != '0' &&
    1 <= ParseNat(g[1..]) <= 30
  }

  /** `generateGate()` for the letter draw rl and the number draw rn. */
  function GenerateGate(rl: real, rn: real): (g: string)
    requires IsDraw(rl) && IsDraw(rn)
    ensures IsGateLabel(g)
  {
    var letter := (65 + PickIndex(rl, 6)) as char;
    var number := PickIndex(rn, 30) + 1;
    ParseNatToString(number);
    var g := [letter] + NatToString(number);
    assert g[1..] == NatToString(number);
    g
  }

  /** The gate label determines both draws' picks: letter index and number. */
  lemma GateReadsBack(rl: real, rn: real)
    requires IsDraw(rl) && IsDraw(rn)
    ensures var g := GenerateGate(rl, rn);
      g[0] as int - 65 == PickIndex(rl, 6) && ParseNat(g[1..]) == PickIndex(rn, 30) + 1
  {
    var number := PickIndex(rn, 30) + 1;
    var g := GenerateGate(rl, rn);
    assert g[1..] == NatToString(number);
    ParseNatToString(number);
  }

  /** `generateTerminal()`. */
  function GenerateTerminal(r: real): (t: string)
    requires IsDraw(r)
    ensures t in Terminals
  {
    Terminals[PickIndex(r, |Terminals|)]
  }

  // ---------------------------------------------------------------- status and delay

  /** `generateStatus()` for the draw r: cumulative thresholds 0.5, 0.7, 0.85, 0.92,
      0.97, 0.99, a draw on a threshold falling into the next status; that is, the status
      of the cumulative table read band by band. */
  function GenerateStatus(r: real): (s: FlightStatus)
    requires IsDraw(r)
    ensures s == FirstBandAbove(StatusBands, r, Unknown)
  {
    assert StatusBands[1..][1..][1..][1..][1..][1..] == [];
    if r < 0.5 then Scheduled
    else if r < 0.7 then EnRoute
    else if r < 0.85 then Delayed
    else if r < 0.92 then Delayed1h
    else if r < 0.97 then Delayed2h
    else if r < 0.99 then Cancelled
    else Unknown
  }

  /** Upper thresholds of the cumulative status table, in status order. */
  const StatusBands: seq<(real, FlightStatus)> := [
    (0.5, Scheduled), (0.7, EnRoute), (0.85, Delayed), (0.92, Delayed1h),
    (0.97, Delayed2h), (0.99, Cancelled)
  ]

  /** Reference reading of a cumulative table: the status of the first band whose upper
      threshold lies above r, or `otherwise` past the last band. */
  function FirstBandAbove(bands: seq<(real, FlightStatus)>, r: real, otherwise: FlightStatus): FlightStatus
    decreases |bands|
  {
    if bands == [] then otherwise
    else if r < bands[0].0 then bands[0].1
    else FirstBandAbove(bands[1..], r, otherwise)
  }

  /** The status, read as its position in declaration order, grows with the draw; so
      each status takes one interval of draws and a draw equal to a threshold gets
      the later status. */
  lemma StatusMonotone(r1: real, r2: real)
    requires IsDraw(r1) && IsDraw(r2) && r1 <= r2
    ensures StatusIndex(GenerateStatus(r1)) <= StatusIndex(GenerateStatus(r2))
  {
  }

  /** Each status occupies exactly the half-open interval of draws of the table. */
  lemma StatusIntervals(r: real)
    requires IsDraw(r)
    ensures GenerateStatus(r) == Scheduled <==> r < 0.5
    ensures GenerateStatus(r) == EnRoute <==> 0.5 <= r < 0.7
    ensures GenerateStatus(r) == Delayed <==> 0.7 <= r < 0.85
    ensures GenerateStatus(r) == Delayed1h <==> 0.85 <= r < 0.92
    ensures GenerateStatus(r) == Delayed2h <==> 0.92 <= r < 0.97
    ensures GenerateStatus(r) == Cancelled <==> 0.97 <= r < 0.99
    ensures GenerateStatus(r) == Unknown <==> 0.99 <= r
  {
  }

  predicate IsDelayedStatus(s: FlightStatus) {
    s == Delayed || s == Delayed1h || s == Delayed2h
  }

  /** `generateDelay(status)` in minutes, for the draw r. */
  function GenerateDelay(status: FlightStatus, r: real): (minutes: nat)
    requires IsDraw(r)
    ensures status == Delayed ==> 15 <= minutes <= 59
    ensures status == Delayed1h ==> 60 <= minutes <= 119
    ensures status == Delayed2h ==> 120 <= minutes <= 239
    ensures !IsDelayedStatus(status) ==> minutes == 0
  {
    match status
    case Delayed => PickIndex(r, 45) + 15
    case Delayed1h => PickIndex(r, 60) + 60
    case Delayed2h => PickIndex(r, 120) + 120
    case _ => 0
  }

  /** A flight is late exactly when its status is one of the three delayed ones, and
      the delay bands do not overlap, so the delay alone tells the status apart. */
  lemma DelayDeterminesStatus(s1: FlightStatus, r1: real, s2: FlightStatus, r2: real)
    requires IsDraw(r1) && IsDraw(r2)
    requires GenerateDelay(s1, r1) == GenerateDelay(s2, r2) > 0
    ensures s1 == s2 && IsDelayedStatus(s1)
  {
  }

  // ---------------------------------------------------------------- the other airport

  /** `allAirports.filter((a) => a.iata !== excludeIATA)`. */
  function OtherAirports(catalog: seq<Airport>, excludeIata: string): (r: seq<Airport>)
    ensures forall a :: a in r <==> a in catalog && a.iata != excludeIata
    decreases |catalog|
  {
    if catalog == [] then []
    else if catalog[0].iata != excludeIata then [catalog[0]] + OtherAirports(catalog[1..], excludeIata)
    else OtherAirports(catalog[1..], excludeIata)
  }

  /** The catalog holds an airport with another code than `iata` (compared exactly). */
  predicate HasOtherAirport(catalog: seq<Airport>, iata: string) {
    exists i :: 0 <= i < |catalog| && catalog[i].iata != iata
  }

  /** `getRandomDestination(excludeIATA)` for the draw r. */
  function RandomDestination(catalog: seq<Airport>, excludeIata: string, r: real): (a: Airport)
    requires IsDraw(r) && HasOtherAirport(catalog, excludeIata)
    ensures a in catalog && a.iata != excludeIata
  {
    var others := OtherAirports(catalog, excludeIata);
    OthersNonEmpty(catalog, excludeIata);
    others[PickIndex(r, |others|)]
  }

  lemma OthersNonEmpty(catalog: seq<Airport>, excludeIata: string)
    requires HasOtherAirport(catalog, excludeIata)
    ensures |OtherAirports(catalog, excludeIata)| > 0
  {
    var i :| 0 <= i < |catalog| && catalog[i].iata != excludeIata;
    assert catalog[i] in OtherAirports(catalog, excludeIata);
  }

  // ---------------------------------------------------------------- one flight

  function Abs(x: real): real {
    if x < 0.0 then -x else x
  }

  /** `Math.sqrt` is not modelled; any function that is non-negative on non-negative
      arguments may stand for it. */
  ghost predicate NonNegativeRoot(sqrt: real -> real) {
    forall x: real :: 0.0 <= x ==> 0.0 <= sqrt(x)
  }

  /** `Math.floor(distance * 0.5 + 1)` hours, distance the Euclidean distance in degrees. */
  function FlightDuration(origin: Airport, destination: Airport, sqrt: real -> real): (hours: int)
    requires NonNegativeRoot(sqrt)
    ensures hours >= 1
  {
    var latDiff := Abs(origin.latitude - destination.latitude);
    var lonDiff := Abs(origin.longitude - destination.longitude);
    assert 0.0 <= latDiff * latDiff + lonDiff * lonDiff;
    var distance := sqrt(latDiff * latDiff + lonDiff * lonDiff);
    (distance * 0.5 + 1.0).Floor
  }

  /** The `Math.random()` values one flight consumes, by purpose. */
  datatype FlightDraws = FlightDraws(
    offset: real,
    airline: real, number: real, destination: real, status: real, delay: real,
    codeshare: real, codeshareAirline: real, codeshareNumber: real,
    departureTerminal: real, departureGateLetter: real, departureGateNumber: real,
    arrivalTerminal: real, arrivalGateLetter: real, arrivalGateNumber: real,
    aircraft: real)

  predicate ValidDraws(d: FlightDraws) {
    IsDraw(d.offset) && IsDraw(d.airline) && IsDraw(d.number) && IsDraw(d.destination) &&
    IsDraw(d.status) && IsDraw(d.delay) && IsDraw(d.codeshare) && IsDraw(d.codeshareAirline) &&
    IsDraw(d.codeshareNumber) && IsDraw(d.departureTerminal) && IsDraw(d.departureGateLetter) &&
    IsDraw(d.departureGateNumber) && IsDraw(d.arrivalTerminal) && IsDraw(d.arrivalGateLetter) &&
    IsDraw(d.arrivalGateNumber) && IsDraw(d.aircraft)
  }

  /** The id `<IATA>-<type>-<index>`: it starts with the airport code, and what follows the
      code, the dash, the board type and the second dash reads back as the index. */
  function FlightId(iata: string, t: FlightBoardType, index: nat): (id: string)
    ensures iata + "-" + BoardTypeName(t) + "-" <= id
    ensures var digits := id[|iata| + |BoardTypeName(t)| + 2..];
      AllDigits(digits) && ParseNat(digits) == index
  {
    var prefix := iata + "-" + BoardTypeName(t) + "-";
    var id := prefix + NatToString(index);
    assert id[|prefix|..] == NatToString(index);
    ParseNatToString(index);
    id
  }

  /** Ids of one board differ exactly when their indices differ. */
  lemma FlightIdInjective(iata: string, t: FlightBoardType, i: nat, j: nat)
    requires FlightId(iata, t, i) == FlightId(iata, t, j)
    ensures i == j
  {
    var p := iata + "-" + BoardTypeName(t) + "-";
    assert FlightId(iata, t, i)[|p|..] == NatToString(i);
    assert FlightId(iata, t, j)[|p|..] == NatToString(j);
    NatToStringInjective(i, j);
  }

  /** `generateFlight(id, baseAirport, type, baseTime)`. */
  function GenerateFlight(index: nat, base: Airport, t: FlightBoardType, baseTime: int,
                          catalog: seq<Airport>, d: FlightDraws, sqrt: real -> real): (f: Flight)
    requires ValidDraws(d) && HasOtherAirport(catalog, base.iata) && NonNegativeRoot(sqrt)
    ensures f.id == FlightId(base.iata, t, index)
    ensures f.airline in Airlines && f.status == GenerateStatus(d.status)
    ensures f.departure.gate.Some? && IsGateLabel(f.departure.gate.value)
    ensures f.arrival.gate.Some? && IsGateLabel(f.arrival.gate.value)
    ensures f.departure.terminal.Some? && f.departure.terminal.value in Terminals
    ensures f.arrival.terminal.Some? && f.arrival.terminal.value in Terminals
    ensures f.aircraftType.Some? && f.aircraftType.value in AircraftTypes
  {
    var airline := GetRandomAirline(d.airline);
    var flightNumber := GenerateFlightNumber(airline.code, d.number);
    var other := RandomDestination(catalog, base.iata, d.destination);
    var status := GenerateStatus(d.status);
    var delayMinutes := GenerateDelay(status, d.delay);
    var isArrival := t == Arrival;
    var origin := if isArrival then other else base;
    var destination := if isArrival then base else other;
    var departureScheduled := baseTime;
    var arrivalScheduled := departureScheduled + HourMs * FlightDuration(origin, destination, sqrt);
    var departureActual :=
      if status != Scheduled && status != Cancelled then Some(departureScheduled + MinuteMs * delayMinutes)
      else None;
    var arrivalActual :=
      if departureActual.Some? && status == EnRoute then Some(arrivalScheduled + MinuteMs * delayMinutes)
      else None;
    var codeshares :=
      if d.codeshare < 0.3 then Some([GenerateFlightNumber(GetRandomAirline(d.codeshareAirline).code, d.codeshareNumber)])
      else None;
    Flight(
      FlightId(base.iata, t, index),
      flightNumber,
      airline,
      codeshares,
      origin,
      destination,
      FlightTime(departureScheduled, departureActual, Some(GenerateTerminal(d.departureTerminal)),
        Some(GenerateGate(d.departureGateLetter, d.departureGateNumber))),
      FlightTime(arrivalScheduled, arrivalActual, Some(GenerateTerminal(d.arrivalTerminal)),
        Some(GenerateGate(d.arrivalGateLetter, d.arrivalGateNumber))),
      status,
      Some(AircraftTypes[PickIndex(d.aircraft, |AircraftTypes|)]))
  }

  /** Which airport is the base: departures leave it, arrivals reach it, and the other
      end is a different catalog airport. */
  lemma GeneratedEnds(index: nat, base: Airport, t: FlightBoardType, baseTime: int,
                      catalog: seq<Airport>, d: FlightDraws, sqrt: real -> real)
    requires ValidDraws(d) && HasOtherAirport(catalog, base.iata) && NonNegativeRoot(sqrt)
    ensures var f := GenerateFlight(index, base, t, baseTime, catalog, d, sqrt);
      (t == Departure ==> f.origin == base && f.destination in catalog && f.destination.iata != base.iata) &&
      (t == Arrival ==> f.destination == base && f.origin in catalog && f.origin.iata != base.iata)
  {
  }

  /** Scheduled times: departure at the base time, arrival a whole number of at least one
      hours later, that number being the duration between the two ends. */
  lemma GeneratedSchedule(index: nat, base: Airport, t: FlightBoardType, baseTime: int,
                          catalog: seq<Airport>, d: FlightDraws, sqrt: real -> real)
    requires ValidDraws(d) && HasOtherAirport(catalog, base.iata) && NonNegativeRoot(sqrt)
    ensures var f := GenerateFlight(index, base, t, baseTime, catalog, d, sqrt);
      f.departure.scheduled == baseTime &&
      f.arrival.scheduled == baseTime + HourMs * FlightDuration(f.origin, f.destination, sqrt) &&
      f.arrival.scheduled >= f.departure.scheduled + HourMs
  {
  }

  /** Actual times: a departure actual time exists exactly for statuses other than
      scheduled and cancelled and lies the generated delay after the schedule; an
      arrival actual time exists exactly for en-route flights, whose delay is zero. */
  lemma GeneratedActualTimes(index: nat, base: Airport, t: FlightBoardType, baseTime: int,
                             catalog: seq<Airport>, d: FlightDraws, sqrt: real -> real)
    requires ValidDraws(d) && HasOtherAirport(catalog, base.iata) && NonNegativeRoot(sqrt)
    ensures var f := GenerateFlight(index, base, t, baseTime, catalog, d, sqrt);
      (f.departure.actual.Some? <==> f.status != Scheduled && f.status != Cancelled) &&
      (f.departure.actual.Some? ==>
        f.departure.actual.value == f.departure.scheduled + MinuteMs * GenerateDelay(f.status, d.delay)) &&
      (f.arrival.actual.Some? <==> f.status == EnRoute) &&
      (f.arrival.actual.Some? ==> f.arrival.actual.value == f.arrival.scheduled)
  {
  }

  /** The departure runs late by the band of its status: 15-59 minutes when delayed,
      60-119 when delayed over an hour, 120-239 when delayed over two hours, and not at
      all otherwise. */
  lemma GeneratedLateness(index: nat, base: Airport, t: FlightBoardType, baseTime: int,
                          catalog: seq<Airport>, d: FlightDraws, sqrt: real -> real)
    requires ValidDraws(d) && HasOtherAirport(catalog, base.iata) && NonNegativeRoot(sqrt)
    ensures var f := GenerateFlight(index, base, t, baseTime, catalog, d, sqrt);
      f.departure.actual.Some? ==>
        var late := f.departure.actual.value - f.departure.scheduled;
        (f.status == Delayed ==> 15 * MinuteMs <= late <= 59 * MinuteMs) &&
        (f.status == Delayed1h ==> 60 * MinuteMs <= late <= 119 * MinuteMs) &&
        (f.status == Delayed2h ==> 120 * MinuteMs <= late <= 239 * MinuteMs) &&
        (!IsDelayedStatus(f.status) ==> late == 0)
  {
    GeneratedActualTimes(index, base, t, baseTime, catalog, d, sqrt);
  }

  // ---------------------------------------------------------------- the batch

  /** `Math.floor(r * 600) - 120` minutes. */
  function MinuteOffset(r: real): (m: int)
    requires IsDraw(r)
    ensures -120 <= m <= 479
  {
    PickIndex(r, 600) - 120
  }

  function BaseTime(now: int, d: FlightDraws): int
    requires ValidDraws(d)
  {
    now + MinuteMs * MinuteOffset(d.offset)
  }

  predicate AllValid(draws: seq<FlightDraws>) {
    forall i :: 0 <= i < |draws| ==> ValidDraws(draws[i])
  }

  /** The flight of loop turn k, as a function of k. */
  function Generator(catalog: seq<Airport>, airport: Airport, t: FlightBoardType, now: int,
                     draws: seq<FlightDraws>, sqrt: real -> real): (gen: nat --> Flight)
    requires AllValid(draws) && HasOtherAirport(catalog, airport.iata) && NonNegativeRoot(sqrt)
    ensures forall k: nat :: k < |draws| ==> gen.requires(k)
  {
    (k: nat) requires k < |draws| => GenerateFlight(k, airport, t, BaseTime(now, draws[k]), catalog, draws[k], sqrt)
  }

  lemma GeneratorAt(catalog: seq<Airport>, airport: Airport, t: FlightBoardType, now: int,
                    draws: seq<FlightDraws>, sqrt: real -> real, k: nat)
    requires k < |draws| && AllValid(draws) && HasOtherAirport(catalog, airport.iata) && NonNegativeRoot(sqrt)
    ensures Generator(catalog, airport, t, now, draws, sqrt)(k) ==
      GenerateFlight(k, airport, t, BaseTime(now, draws[k]), catalog, draws[k], sqrt)
  {
  }

  /** `[gen(0), ..., gen(n - 1)]`. */
  function Tabulate<T>(gen: nat --> T, n: nat): (s: seq<T>)
    requires forall k: nat :: k < n ==> gen.requires(k)
    ensures |s| == n && forall k: nat :: k < n ==> s[k] == gen(k)
  {
    seq(n, (k: int) requires 0 <= k < n => gen(k))
  }

  /** One more loop turn appends the next value. */
  lemma TabulateStep<T>(gen: nat --> T, n: nat)
    requires forall k: nat :: k <= n ==> gen.requires(k)
    ensures Tabulate(gen, n + 1) == Tabulate(gen, n) + [gen(n)]
  {
    assert Tabulate(gen, n + 1)[..n] == Tabulate(gen, n);
  }

  /** The flights of the loop, in generation order, one per draw record. */
  function GeneratedBatch(catalog: seq<Airport>, airport: Airport, t: FlightBoardType, now: int,
                          draws: seq<FlightDraws>, sqrt: real -> real): seq<Flight>
    requires AllValid(draws) && HasOtherAirport(catalog, airport.iata) && NonNegativeRoot(sqrt)
  {
    Tabulate(Generator(catalog, airport, t, now, draws, sqrt), |draws|)
  }

  /** The k-th flight of the batch is the one generated in loop turn k. */
  lemma BatchElement(catalog: seq<Airport>, airport: Airport, t: FlightBoardType, now: int,
                     draws: seq<FlightDraws>, sqrt: real -> real, k: nat)
    requires k < |draws| && AllValid(draws) && HasOtherAirport(catalog, airport.iata) && NonNegativeRoot(sqrt)
    ensures |GeneratedBatch(catalog, airport, t, now, draws, sqrt)| == |draws|
    ensures GeneratedBatch(catalog, airport, t, now, draws, sqrt)[k] ==
      GenerateFlight(k, airport, t, BaseTime(now, draws[k]), catalog, draws[k], sqrt)
  {
    GeneratorAt(catalog, airport, t, now, draws, sqrt, k);
  }

  /** The scheduled time a board sorts on: departure on departure boards, arrival on
      arrival boards. */
  function BoardTime(f: Flight, t: FlightBoardType): int {
    if t == Departure then f.departure.scheduled else f.arrival.scheduled
  }

  function BoardKey(t: FlightBoardType): Flight -> int {
    f => BoardTime(f, t)
  }

  /** What `generateFlightsForAirport` returns: the batch, stably sorted by board time. */
  function Board(catalog: seq<Airport>, airport: Airport, t: FlightBoardType, now: int,
                 draws: seq<FlightDraws>, sqrt: real -> real): seq<Flight>
    requires AllValid(draws) && HasOtherAirport(catalog, airport.iata) && NonNegativeRoot(sqrt)
  {
    SortBy(GeneratedBatch(catalog, airport, t, now, draws, sqrt), BoardKey(t))
  }

  /** `generateFlightsForAirport(airport, type, count)`: one flight per loop turn, then the
      sort. `draws[i]` holds the values the i-th turn consumes. */
  method GenerateFlightsForAirport(catalog: seq<Airport>, airport: Airport, t: FlightBoardType,
                                   count: nat, now: int, draws: seq<FlightDraws>, sqrt: real -> real)
    returns (flights: seq<Flight>)
    requires |draws| == count && AllValid(draws)
    requires HasOtherAirport(catalog, airport.iata) && NonNegativeRoot(sqrt)
    ensures flights == Board(catalog, airport, t, now, draws, sqrt)
  {
    ghost var gen := Generator(catalog, airport, t, now, draws, sqrt);
    var batch: seq<Flight> := [];
    for i := 0 to count
      invariant batch == Tabulate(gen, i)
    {
      var baseTime := BaseTime(now, draws[i]);
      var flight := GenerateFlight(i, airport, t, baseTime, catalog, draws[i], sqrt);
      GeneratorAt(catalog, airport, t, now, draws, sqrt, i);
      TabulateStep(gen, i);
      batch := batch + [flight];
    }
    flights := SortBy(batch, BoardKey(t));
  }

  /** The board holds exactly the generated flights, one per draw record, ordered by
      board time. */
  lemma BoardIsSortedPermutation(catalog: seq<Airport>, airport: Airport, t: FlightBoardType, now: int,
                                 draws: seq<FlightDraws>, sqrt: real -> real)
    requires AllValid(draws) && HasOtherAirport(catalog, airport.iata) && NonNegativeRoot(sqrt)
    ensures var b := Board(catalog, airport, t, now, draws, sqrt);
      |b| == |draws| &&
      multiset(b) == multiset(GeneratedBatch(catalog, airport, t, now, draws, sqrt)) &&
      forall i, j :: 0 <= i < j < |b| ==> BoardTime(b[i], t) <= BoardTime(b[j], t)
  {
    var b := Board(catalog, airport, t, now, draws, sqrt);
    assert SortedBy(b, BoardKey(t));
    forall i, j | 0 <= i < j < |b| ensures BoardTime(b[i], t) <= BoardTime(b[j], t) {
      assert BoardKey(t)(b[i]) <= BoardKey(t)(b[j]);
    }
  }

  function IdOf(f: Flight): string {
    f.id
  }

  /** Ids on a board are pairwise distinct. */
  lemma BoardIdsDistinct(catalog: seq<Airport>, airport: Airport, t: FlightBoardType, now: int,
                         draws: seq<FlightDraws>, sqrt: real -> real)
    requires AllValid(draws) && HasOtherAirport(catalog, airport.iata) && NonNegativeRoot(sqrt)
    ensures var b := Board(catalog, airport, t, now, draws, sqrt);
      forall i, j :: 0 <= i < j < |b| ==> b[i].id != b[j].id
  {
    var batch := GeneratedBatch(catalog, airport, t, now, draws, sqrt);
    forall i, j | 0 <= i < j < |batch| ensures IdOf(batch[i]) != IdOf(batch[j]) {
      BatchElement(catalog, airport, t, now, draws, sqrt, i);
      BatchElement(catalog, airport, t, now, draws, sqrt, j);
      if batch[i].id == batch[j].id {
        FlightIdInjective(airport.iata, t, i, j);
      }
    }
    SortKeepsDistinct(batch, BoardKey(t), IdOf);
    var b := Board(catalog, airport, t, now, draws, sqrt);
    forall i, j | 0 <= i < j < |b| ensures b[i].id != b[j].id {
      assert IdOf(b[i]) != IdOf(b[j]);
    }
  }

  /** The k-th generated flight departs `MinuteOffset` minutes from `now` and carries
      the id of index k. */
  lemma BatchElementWindow(catalog: seq<Airport>, airport: Airport, t: FlightBoardType, now: int,
                           draws: seq<FlightDraws>, sqrt: real -> real, k: nat)
    requires k < |draws| && AllValid(draws) && HasOtherAirport(catalog, airport.iata) && NonNegativeRoot(sqrt)
    ensures var f := GeneratedBatch(catalog, airport, t, now, draws, sqrt)[k];
      now - 120 * MinuteMs <= f.departure.scheduled <= now + 479 * MinuteMs &&
      f.id == FlightId(airport.iata, t, k)
  {
    BatchElement(catalog, airport, t, now, draws, sqrt, k);
    var m := MinuteOffset(draws[k].offset);
    GeneratedSchedule(k, airport, t, BaseTime(now, draws[k]), catalog, draws[k], sqrt);
  }

  /** Every flight on a board departs between two hours before and 479 minutes after
      `now`, and carries the id of one of the loop's indices. */
  lemma BoardWindow(catalog: seq<Airport>, airport: Airport, t: FlightBoardType, now: int,
                    draws: seq<FlightDraws>, sqrt: real -> real)
    requires AllValid(draws) && HasOtherAirport(catalog, airport.iata) && NonNegativeRoot(sqrt)
    ensures var b := Board(catalog, airport, t, now, draws, sqrt);
      forall f :: f in b ==>
        now - 120 * MinuteMs <= f.departure.scheduled <= now + 479 * MinuteMs &&
        exists k :: 0 <= k < |draws| && f.id == FlightId(airport.iata, t, k)
  {
    var batch := GeneratedBatch(catalog, airport, t, now, draws, sqrt);
    var b := Board(catalog, airport, t, now, draws, sqrt);
    forall f | f in b
      ensures now - 120 * MinuteMs <= f.departure.scheduled <= now + 479 * MinuteMs
      ensures exists k :: 0 <= k < |draws| && f.id == FlightId(airport.iata, t, k)
    {
      assert f in multiset(b);
      assert f in multiset(batch);
      var k :| 0 <= k < |batch| && batch[k] == f;
      BatchElementWindow(catalog, airport, t, now, draws, sqrt, k);
    }
  }

  // ---------------------------------------------------------------- the cache

  /** A cached batch and the instant it was stored. */
  datatype CacheEntry = CacheEntry(data: seq<Flight>, timestamp: int)

  /** The cache key `<IATA>-<type>`. */
  function CacheKey(iata: string, t: FlightBoardType): string {
    iata + "-" + BoardTypeName(t)
  }

  /** The two boards of an airport are cached under different keys. */
  lemma BoardKeysDiffer(iata: string)
    ensures CacheKey(iata, Departure) != CacheKey(iata, Arrival)
  {
    assert |CacheKey(iata, Departure)| == |iata| + 10;
    assert |CacheKey(iata, Arrival)| == |iata| + 8;
  }

  /** The batch a lookup at `now` may serve: one stored under key less than 30 minutes
      before. */
  function FreshEntry(entries: map<string, CacheEntry>, key: string, now: int): Option<seq<Flight>> {
    if key in entries && now - entries[key].timestamp < CacheDuration then Some(entries[key].data) else None
  }

  /** A batch stored at `stored` is served for the next 30 minutes and no longer; other
      keys are unaffected by the store. */
  lemma FreshnessWindow(entries: map<string, CacheEntry>, key: string, data: seq<Flight>,
                        stored: int, now: int, other: string)
    requires stored <= now && other != key
    ensures var e := entries[key := CacheEntry(data, stored)];
      (FreshEntry(e, key, now) == Some(data) <==> now < stored + CacheDuration) &&
      (FreshEntry(e, key, now) == None <==> now >= stored + CacheDuration) &&
      FreshEntry(e, other, now) == FreshEntry(entries, other, now)
  {
  }

  /** `flights.find((f) => f.id === flightId)`. */
  function FindFlight(flights: seq<Flight>, id: string): (r: Option<Flight>)
    ensures r.None? <==> forall i :: 0 <= i < |flights| ==> flights[i].id != id
    ensures r.Some? ==> r.value.id == id && r.value in flights
    ensures r.Some? ==> exists i :: 0 <= i < |flights| && flights[i] == r.value
                                  && forall j :: 0 <= j < i ==> flights[j].id != id
    decreases |flights|
  {
    if flights == [] then None
    else if flights[0].id == id then Some(flights[0])
    else
      var rest := FindFlight(flights[1..], id);
      assert rest.Some? ==> exists i :: 0 <= i < |flights| && flights[i] == rest.value
                                      && forall j :: 0 <= j < i ==> flights[j].id != id by {
        if rest.Some? {
          var i :| 0 <= i < |flights[1..]| && flights[1..][i] == rest.value
                   && forall j :: 0 <= j < i ==> flights[1..][j].id != id;
          assert flights[i + 1] == rest.value;
          assert forall j :: 1 <= j < i + 1 ==> flights[j] == flights[1..][j - 1];
        }
      }
      rest
  }

  /** The first flight with the id, scanning the entries in insertion order. */
  function FindInEntries(order: seq<string>, entries: map<string, CacheEntry>, id: string): Option<Flight>
    requires forall k :: k in order ==> k in entries
    decreases |order|
  {
    if order == [] then None
    else
      var found := FindFlight(entries[order[0]].data, id);
      if found.Some? then found else FindInEntries(order[1..], entries, id)
  }

  /** The scan finds a flight with the id exactly when some listed entry holds one, and
      what it finds carries the id and comes from a listed entry. */
  lemma {:induction false} FindInEntriesSpec(order: seq<string>, entries: map<string, CacheEntry>, id: string)
    requires forall k :: k in order ==> k in entries
    ensures var r := FindInEntries(order, entries, id);
      (r.None? <==> forall k, f :: k in order && f in entries[k].data ==> f.id != id) &&
      (r.Some? ==> r.value.id == id && exists k :: k in order && r.value in entries[k].data)
    decreases |order|
  {
    if order != [] {
      FindInEntriesSpec(order[1..], entries, id);
      var found := FindFlight(entries[order[0]].data, id);
      if found.None? {
        forall k, f | k in order && f in entries[k].data ensures k == order[0] || k in order[1..] {
        }
      }
    }
  }

  /** No entry listed before position n holds a flight with the id. */
  predicate NoneBefore(order: seq<string>, entries: map<string, CacheEntry>, id: string, n: nat)
    requires forall k :: k in order ==> k in entries
  {
    n <= |order| && forall m :: 0 <= m < n ==> FindFlight(entries[order[m]].data, id).None?
  }

  /** Putting an entry without the id in front moves the first holder one place on. */
  lemma NoneBeforeShift(order: seq<string>, entries: map<string, CacheEntry>, id: string, n: nat)
    requires forall k :: k in order ==> k in entries
    requires order != [] && FindFlight(entries[order[0]].data, id).None?
    requires NoneBefore(order[1..], entries, id, n)
    ensures NoneBefore(order, entries, id, n + 1)
  {
    forall m | 0 < m < n + 1 ensures FindFlight(entries[order[m]].data, id).None? {
      assert order[m] == order[1..][m - 1];
    }
  }

  /** What the scan finds is the `find` result of the first listed entry whose board holds
      the id: every entry listed before it has none. */
  lemma {:induction false} FindInEntriesFirst(order: seq<string>, entries: map<string, CacheEntry>, id: string)
    requires forall k :: k in order ==> k in entries
    ensures var r := FindInEntries(order, entries, id);
      r.Some? ==> exists n :: 0 <= n < |order| && FindFlight(entries[order[n]].data, id) == r
                              && NoneBefore(order, entries, id, n)
    decreases |order|
  {
    if order != [] && FindFlight(entries[order[0]].data, id).None? {
      var tail := order[1..];
      assert forall k :: k in tail ==> k in order;
      FindInEntriesFirst(tail, entries, id);
      var r := FindInEntries(order, entries, id);
      if r.Some? {
        var n :| 0 <= n < |tail| && FindFlight(entries[tail[n]].data, id) == r
                 && NoneBefore(tail, entries, id, n);
        NoneBeforeShift(order, entries, id, n);
        assert order[n + 1] == tail[n];
      }
    } else if order != [] {
      assert NoneBefore(order, entries, id, 0);
    }
  }

  /** The insertion order of a cache lists every key of its map exactly once. */
  ghost predicate ValidCache(order: seq<string>, entries: map<string, CacheEntry>) {
    (forall k :: k in order <==> k in entries) &&
    (forall i, j :: 0 <= i < j < |order| ==> order[i] != order[j])
  }

  /** The insertion order after storing under `key`: a new key goes last. */
  function StoredOrder(order: seq<string>, entries: map<string, CacheEntry>, key: string): seq<string> {
    order + (if key in entries then [] else [key])
  }

  /** Storing an entry keeps the insertion order exact. */
  lemma StoreKeepsValid(order: seq<string>, entries: map<string, CacheEntry>, key: string, e: CacheEntry)
    requires ValidCache(order, entries)
    ensures ValidCache(StoredOrder(order, entries, key), entries[key := e])
  {
    var o := StoredOrder(order, entries, key);
    forall i, j | 0 <= i < j < |o|
      ensures o[i] != o[j]
    {
      if j >= |order| {
        assert o[j] == key && key !in entries && o[i] == order[i];
      }
    }
  }

  /** The module-level `flightCache` map. JavaScript maps iterate in insertion order, so
      the keys are also kept in that order. */
  class FlightCache {
    var entries: map<string, CacheEntry>
    var order: seq<string>

    /** `order` lists every key of `entries` once. */
    ghost predicate Valid()
      reads this
    {
      ValidCache(order, entries)
    }

    constructor()
      ensures Valid() && entries == map[] && order == []
    {
      entries := map[];
      order := [];
    }

    /** `mockFlightService.getFlights(airport, type)`: a batch younger than 30 minutes is
        returned as stored; otherwise a fresh batch of 25 is generated and stored under the
        key, stamped `now`, which leaves every other key as it was. */
    method GetFlights(catalog: seq<Airport>, airport: Airport, t: FlightBoardType, now: int,
                      draws: seq<FlightDraws>, sqrt: real -> real)
      returns (flights: seq<Flight>)
      requires Valid()
      requires |draws| == DefaultCount && AllValid(draws)
      requires HasOtherAirport(catalog, airport.iata) && NonNegativeRoot(sqrt)
      modifies this
      ensures Valid()
      ensures var key := CacheKey(airport.iata, t);
        match FreshEntry(old(entries), key, now)
        case Some(data) =>
          flights == data && entries == old(entries) && order == old(order)
        case None =>
          flights == Board(catalog, airport, t, now, draws, sqrt) &&
          entries == old(entries)[key := CacheEntry(flights, now)] &&
          order == old(order) + (if key in old(entries) then [] else [key])
    {
      var cacheKey := CacheKey(airport.iata, t);
      if cacheKey in entries && now - entries[cacheKey].timestamp < CacheDuration {
        return entries[cacheKey].data;
      }
      flights := GenerateFlightsForAirport(catalog, airport, t, DefaultCount, now, draws, sqrt);
      Store(cacheKey, CacheEntry(flights, now));
    }

    /** `flightCache.set(key, entry)`: a new key goes last in the insertion order, an
        existing key keeps its place. */
    method Store(key: string, e: CacheEntry)
      requires Valid()
      modifies this
      ensures Valid()
      ensures entries == old(entries)[key := e] && order == StoredOrder(old(order), old(entries), key)
    {
      StoreKeepsValid(order, entries, key, e);
      order := StoredOrder(order, entries, key);
      entries := entries[key := e];
    }

    /** `mockFlightService.getFlightById(flightId)`: the first flight with the id, scanning
        the entries in insertion order. */
    method GetFlightById(flightId: string) returns (r: Option<Flight>)
      requires Valid()
      ensures r == FindInEntries(order, entries, flightId)
    {
      var i := 0;
      while i < |order|
        invariant 0 <= i <= |order|
        invariant FindInEntries(order[i..], entries, flightId) == FindInEntries(order, entries, flightId)
      {
        assert order[i..][1..] == order[i + 1..];
        var cached := entries[order[i]];
        var flight := FindFlight(cached.data, flightId);
        if flight.Some? {
          return flight;
        }
        i := i + 1;
      }
      return None;
    }

    /** `mockFlightService.clearCache()`: afterwards no id is found. */
    method ClearCache()
      modifies this
      ensures Valid() && entries == map[] && order == []
      ensures forall id :: FindInEntries(order, entries, id) == None
    {
      entries := map[];
      order := [];
    }
  }
}
