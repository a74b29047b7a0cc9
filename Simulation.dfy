/**
 * simulation_param_t and the input phase of the simulator, identical in
 * deliverable/atsim.c and src/atsim.c: every flight record read is appended
 * to the flight table in STAND_BY, its airports are looked up by code (and
 * registered on first sight), and the clock is lowered to the earliest
 * scheduled time so the simulation starts at the first departure.
 *
 * Reading lines, the "end" test and sscanf are input handling; the fields a
 * record holds arrive here already parsed.
 */
module Simulation {
  import opened Clock
  import opened Flights
  import opened Runway

  /** FLIGHT_MAX_COUNT: slots of the flight table. */
  const FLIGHT_MAX_COUNT: nat := 1000

  /** simulation_states_t. */
  datatype SimState = ReadFlightInfo | Simulate | SimulationComplete

  predicate Distinct<T(==)>(s: seq<T>)
  {
    forall x, y :: 0 <= x < y < |s| ==> s[x] != s[y]
  }

  /** The airport codes after find_airport looked `code` up. */
  function Register(codes: seq<AirportCode>, code: AirportCode): (r: seq<AirportCode>)
    ensures code in r
    ensures codes <= r && |r| <= |codes| + 1
    ensures forall c :: c in r ==> c in codes || c == code
    ensures |r| == |codes| <==> code in codes
  {
    if code in codes then codes else codes + [code]
  }

  /** Registration keeps the codes pairwise different. */
  lemma RegisterKeepsDistinct(codes: seq<AirportCode>, code: AirportCode)
    requires Distinct(codes)
    ensures Distinct(Register(codes, code))
  {
  }

  /** Looking a code up twice registers it once. */
  lemma RegisterIdempotent(codes: seq<AirportCode>, code: AirportCode)
    ensures Register(Register(codes, code), code) == Register(codes, code)
  {
  }

  /** The first slot holding `code`. */
  function IndexOf(codes: seq<AirportCode>, code: AirportCode): (i: nat)
    requires code in codes
    ensures i < |codes| && codes[i] == code
    ensures forall k :: 0 <= k < i ==> codes[k] != code
  {
    if codes[0] == code then 0 else 1 + IndexOf(codes[1..], code)
  }

  function Min(a: nat, b: nat): (m: nat)
    ensures m <= a && m <= b && (m == a || m == b)
  {
    if a < b then a else b
  }

  /** A zero-initialised flight_t, as the flight table starts. */
  const BLANK_FLIGHT: Flight :=
    Flight(['\0', '\0'], 0, 0, None, 0, 0, FlightTimes(0, 0, 0, 0, 0), StandBy)

  /**
   * What holds while records are read: every loaded flight is in STAND_BY
   * with both airports registered, the codes are pairwise different, and
   * the clock is the earliest scheduled time (UINT16_MAX before the first
   * record).
   */
  predicate Loaded(fs: seq<Flight>, count: nat, codes: seq<AirportCode>, limit: nat, clock: nat)
  {
    && count <= |fs|
    && |codes| <= limit && Distinct(codes)
    && (forall i :: 0 <= i < count ==>
          fs[i].state == StandBy && fs[i].origin < |codes| && fs[i].destination < |codes|)
    && clock <= UINT16_MAX
    && (forall i :: 0 <= i < count ==> clock <= fs[i].time.scheduled)
    && (count == 0 ==> clock == UINT16_MAX)
    && (count > 0 ==> exists i :: 0 <= i < count && clock == fs[i].time.scheduled)
  }

  /**
   * Loading one more STAND_BY flight into the next slot keeps the invariant
   * once the clock is lowered to its scheduled time: the clock stays the
   * earliest scheduled time of all loaded flights.
   */
  lemma LoadKeepsLoaded(fs: seq<Flight>, count: nat, codes: seq<AirportCode>, limit: nat, clock: nat,
                        f: Flight, codes': seq<AirportCode>)
    requires Loaded(fs, count, codes, limit, clock) && count < |fs|
    requires f.state == StandBy && f.origin < |codes'| && f.destination < |codes'|
    requires f.time.scheduled <= UINT16_MAX
    requires codes <= codes' && Distinct(codes') && |codes'| <= limit
    ensures Loaded(fs[count := f], count + 1, codes', limit, Min(clock, f.time.scheduled))
  {
    var fs' := fs[count := f];
    var m := Min(clock, f.time.scheduled);
    if m == f.time.scheduled {
      assert fs'[count].time.scheduled == m;
    } else {
      var i :| 0 <= i < count && clock == fs[i].time.scheduled;
      assert fs'[i].time.scheduled == m;
    }
  }

  /** The flight record configure_simulation_data writes over slot `f`. */
  function Record(f: Flight, carrier: CarrierId, number: nat, id: nat, origin: nat, destination: nat,
                  scheduled: nat, flightTime: nat): Flight
  {
    f.(carrier := carrier, number := number, id := id, origin := origin, destination := destination,
       time := f.time.(scheduled := scheduled, flight := flightTime), state := StandBy)
  }

  /** simulation_param_t. The airports are built at the end of input, from `codes`. */
  class Simulation {
    /** The FLIGHT_MAX_COUNT slots of `flights`. */
    const flights: array<Flight>
    /** AIRPORT_MAX_COUNT: 256 in deliverable/, 100 in src/. */
    const airportLimit: nat
    var flightCount: nat
    /** The airport codes registered so far; `airport_count` is their number. */
    var codes: seq<AirportCode>
    var airports: seq<Airport>
    var clock: nat
    var state: SimState
    var complete: bool

    /**
     * The initial simulation_param_t of main: no flights, no airports, the
     * clock at UINT16_MAX, reading flight records.
     */
    constructor (airportLimit: nat)
      ensures fresh(flights) && flights.Length == FLIGHT_MAX_COUNT
      ensures forall k :: 0 <= k < FLIGHT_MAX_COUNT ==> flights[k] == BLANK_FLIGHT
      ensures this.airportLimit == airportLimit
      ensures flightCount == 0 && codes == [] && airports == []
      ensures clock == UINT16_MAX && state == ReadFlightInfo && !complete
      ensures Loading()
    {
      flights := new Flight[FLIGHT_MAX_COUNT](_ => BLANK_FLIGHT);
      this.airportLimit := airportLimit;
      flightCount := 0;
      codes := [];
      airports := [];
      clock := UINT16_MAX;
      state := ReadFlightInfo;
      complete := false;
    }

    /** The input-phase invariant, Loaded, on the current state. */
    ghost predicate Loading()
      reads this, flights
    {
      flights.Length == FLIGHT_MAX_COUNT && Loaded(flights[..], flightCount, codes, airportLimit, clock)
    }

    /**
     * find_airport: the slot of `code`, registering it in the next free slot
     * when it is new.
     */
    method FindAirport(code: AirportCode) returns (index: nat)
      requires |codes| <= airportLimit && (code !in codes ==> |codes| < airportLimit)
      modifies this
      ensures codes == Register(old(codes), code)
      ensures index == IndexOf(codes, code)
      ensures |codes| <= airportLimit
      ensures flightCount == old(flightCount) && airports == old(airports) && clock == old(clock)
      ensures state == old(state) && complete == old(complete)
    {
      var i := 0;
      var found := false;
      while i < |codes| && !found
        invariant 0 <= i <= |codes|
        invariant forall k :: 0 <= k < i ==> codes[k] != code
        invariant found ==> i < |codes| && codes[i] == code
        decreases |codes| - i, !found
      {
        found := codes[i] == code;
        if !found {
          i := i + 1;
        }
      }
      if i == |codes| {
        codes := codes + [code];
      }
      index := i;
      IndexOfFirst(codes, code, i);
    }

    /**
     * The two find_airport calls of configure_simulation_data: the origin and
     * destination slots, the codes kept pairwise different and the flights
     * untouched.
     */
    method FindRoute(originCode: AirportCode, destCode: AirportCode) returns (origin: nat, destination: nat)
      requires Loading()
      requires |Register(Register(codes, originCode), destCode)| <= airportLimit
      modifies this
      ensures Loading()
      ensures codes == Register(Register(old(codes), originCode), destCode)
      ensures origin == IndexOf(codes, originCode) && destination == IndexOf(codes, destCode)
      ensures flightCount == old(flightCount) && clock == old(clock)
      ensures airports == old(airports) && state == old(state) && complete == old(complete)
    {
      origin := FindAirport(originCode);
      destination := FindAirport(destCode);
      IndexOfStable(old(codes), originCode, destCode);
      RegisterKeepsDistinct(old(codes), originCode);
      RegisterKeepsDistinct(Register(old(codes), originCode), destCode);
      LoadedMoreCodes(flights[..], flightCount, old(codes), airportLimit, clock, codes);
    }

    /**
     * Writes a STAND_BY record into the next slot, lowers the clock to its
     * scheduled time and counts it.
     */
    method Store(f: Flight)
      requires Loading() && flightCount < FLIGHT_MAX_COUNT
      requires f.state == StandBy && f.origin < |codes| && f.destination < |codes|
      requires f.time.scheduled <= UINT16_MAX
      modifies this, flights
      ensures Loading()
      ensures flights[..] == old(flights[..])[old(flightCount) := f]
      ensures flightCount == old(flightCount) + 1
      ensures clock == Min(old(clock), f.time.scheduled)
      ensures codes == old(codes) && airports == old(airports)
      ensures state == old(state) && complete == old(complete)
    {
      var n := flightCount;
      LoadKeepsLoaded(flights[..], n, codes, airportLimit, clock, f, codes);
      flights[n] := f;
      clock := if f.time.scheduled < clock then f.time.scheduled else clock;
      flightCount := n + 1;
    }

    /**
     * configure_simulation_data: loads the next slot of the flight table
     * from a parsed record (the stamps it does not set keep their zero),
     * registers both airports and lowers the clock to the scheduled time.
     */
    method ConfigureSimulationData(carrier: CarrierId, number: nat, id: nat, originCode: AirportCode,
                                   time: TimeOfDay, flightTime: nat, destCode: AirportCode)
      requires Loading() && flightCount < FLIGHT_MAX_COUNT
      requires |Register(Register(codes, originCode), destCode)| <= airportLimit
      modifies this, flights
      ensures Loading()
      ensures flightCount == old(flightCount) + 1
      ensures codes == Register(Register(old(codes), originCode), destCode)
      ensures flights[..] == old(flights[..])[old(flightCount) :=
                Record(old(flights[flightCount]), carrier, number, id,
                       IndexOf(codes, originCode), IndexOf(codes, destCode), TimeToClock(time), flightTime)]
      ensures clock == Min(old(clock), TimeToClock(time))
      ensures airports == old(airports) && state == old(state) && complete == old(complete)
    {
      var f := flights[flightCount];
      f := f.(carrier := carrier, number := number, id := id, time := f.time.(flight := flightTime));
      f := f.(state := StandBy, time := f.time.(scheduled := TimeToClock(time)));
      var origin, destination := FindRoute(originCode, destCode);
      f := f.(origin := origin, destination := destination);
      Store(f);
    }
  }

  /** Registering more codes keeps the loaded flights' airports registered. */
  lemma LoadedMoreCodes(fs: seq<Flight>, count: nat, codes: seq<AirportCode>, limit: nat, clock: nat,
                        codes': seq<AirportCode>)
    requires Loaded(fs, count, codes, limit, clock)
    requires codes <= codes' && Distinct(codes') && |codes'| <= limit
    ensures Loaded(fs, count, codes', limit, clock)
  {
  }

  /** The first occurrence is the one IndexOf finds. */
  lemma {:induction false} IndexOfFirst(codes: seq<AirportCode>, code: AirportCode, i: nat)
    requires i < |codes| && codes[i] == code && forall k :: 0 <= k < i ==> codes[k] != code
    ensures IndexOf(codes, code) == i
  {
    if codes[0] != code {
      IndexOfFirst(codes[1..], code, i - 1);
    }
  }

  /** Registering a second code keeps the slot of the first. */
  lemma IndexOfStable(codes: seq<AirportCode>, first: AirportCode, second: AirportCode)
    ensures IndexOf(Register(Register(codes, first), second), first) == IndexOf(Register(codes, first), first)
  {
    var r := Register(codes, first);
    var i := IndexOf(r, first);
    IndexOfFirst(Register(r, second), first, i);
  }
}
