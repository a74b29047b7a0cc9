/**
 * The data shared by every version of the scheduler: flights, planes, the two
 * queue kinds of an airport, the taxi constant and the delay a flight log
 * reports (types of includes/queue.h, includes/airport.h and src/airport.h).
 * Airports, planes and flights are referred to by their index in the
 * simulation's tables instead of by pointer.
 */
module Flights {
  import opened Clock

  datatype Option<T> = None | Some(value: T)

  /** TAXI_DURATION: minutes of ground taxi before take-off and after landing. */
  const TAXI_DURATION: nat := 10

  /**
   * flight_states_t of includes/queue.h. WaitForPlane and GroomPlane are
   * declared there but no version of the code ever enters them; the 7-state
   * enum of src/airport.h is this one without them.
   */
  datatype FlightState =
    | StandBy
    | WaitForPlane
    | DepartureTaxi
    | WaitToTakeoff
    | EnRoute
    | WaitToLand
    | ArrivalTaxi
    | GroomPlane
    | Complete

  /** flight_times_t; every field is in simulation-clock minutes. */
  datatype FlightTimes = FlightTimes(scheduled: nat, flight: nat, departure: nat, land: nat, arrival: nat)

  /** CARRIER_ID_LENGTH characters of carrier code. */
  type CarrierId = s: seq<char> | |s| == 2 witness "AA"
  /** CODE_LENGTH characters of airport code. */
  type AirportCode = s: seq<char> | |s| == 3 witness "AAA"

  /**
   * flight_t. `plane` is the index of the assigned plane, None for the NULL
   * pointer; `origin` and `destination` index the airport table.
   */
  datatype Flight = Flight(
    carrier: CarrierId,
    number: nat,
    id: nat,
    plane: Option<nat>,
    origin: nat,
    destination: nat,
    time: FlightTimes,
    state: FlightState)

  /**
   * Where a plane is. The source stores an airport pointer and uses the
   * sentinel PLANE_ON_AIR while the plane flies; here the sentinel is a
   * constructor of its own, distinct from every airport.
   */
  datatype PlaneLocation = AtAirport(airport: nat) | OnAir

  /** plane_t. */
  datatype Plane = Plane(location: PlaneLocation, busy: bool, groom: nat, id: nat)

  /** queue_types_t: the two request queues of an airport. */
  datatype QueueType = Departure | Arrival

  /** The numeric value of a queue type in the C enum. */
  function QueueIndex(q: QueueType): nat
  {
    if q == Departure then 0 else 1
  }

  /**
   * NEXT_QUEUE_TYPE(queue) = (queue + 1) & QUEUE_TYPE_MASK, with the mask 1
   * written as the remainder modulo 2.
   */
  function NextQueueType(q: QueueType): (r: QueueType)
    ensures QueueIndex(r) == (QueueIndex(q) + 1) % 2
    ensures r != q
  {
    if (QueueIndex(q) + 1) % 2 == 0 then Departure else Arrival
  }

  /** The airport whose queue of kind `q` this flight joins. */
  function QueueAirport(f: Flight, q: QueueType): nat
  {
    if q == Departure then f.origin else f.destination
  }

  /** The state a flight is in while it sits in the queue of kind `q`. */
  function WaitState(q: QueueType): FlightState
  {
    if q == Departure then WaitToTakeoff else WaitToLand
  }

  /** The flight belongs in queue `q` of airport `airport`. */
  predicate WaitingFor(f: Flight, q: QueueType, airport: nat)
  {
    f.state == WaitState(q) && QueueAirport(f, q) == airport
  }

  predicate IsWaiting(f: Flight)
  {
    f.state == WaitToTakeoff || f.state == WaitToLand
  }

  /**
   * The order of the lifecycle the code implements. WaitForPlane and
   * GroomPlane have no successor because nothing enters or leaves them.
   */
  function Successor(s: FlightState): FlightState
  {
    match s
    case StandBy => DepartureTaxi
    case DepartureTaxi => WaitToTakeoff
    case WaitToTakeoff => EnRoute
    case EnRoute => WaitToLand
    case WaitToLand => ArrivalTaxi
    case ArrivalTaxi => Complete
    case _ => s
  }

  /** Everything but the state and the departure/land/arrival stamps is kept. */
  predicate SameFlight(f: Flight, g: Flight)
  {
    && g.carrier == f.carrier && g.number == f.number && g.id == f.id
    && g.plane == f.plane && g.origin == f.origin && g.destination == f.destination
    && g.time.scheduled == f.time.scheduled && g.time.flight == f.time.flight
  }

  /** The earliest arrival possible: scheduled time, flight time and both taxis. */
  function ExpectedArrival(t: FlightTimes): nat
  {
    t.scheduled + t.flight + 2 * TAXI_DURATION
  }

  /**
   * The delay output_flight_log prints: the difference is computed in `int`
   * and stored into a `uint16_t`, so it wraps modulo 2^16.
   */
  function LoggedDelay(t: FlightTimes): (delay: nat)
    ensures delay < UINT16_LIMIT
    ensures (delay + ExpectedArrival(t)) % UINT16_LIMIT == t.arrival % UINT16_LIMIT
  {
    (t.arrival - ExpectedArrival(t)) % UINT16_LIMIT
  }

  /** With no early arrival the logged delay is the true one: no wrap-around. */
  lemma LoggedDelayExact(t: FlightTimes)
    requires ExpectedArrival(t) <= t.arrival < UINT16_LIMIT
    ensures LoggedDelay(t) == t.arrival - ExpectedArrival(t)
  {
  }

  /** An arrival earlier than possible would print as a huge delay. */
  lemma LoggedDelayWraps(t: FlightTimes)
    requires t.arrival < ExpectedArrival(t) <= t.arrival + UINT16_LIMIT
    ensures LoggedDelay(t) == UINT16_LIMIT - (ExpectedArrival(t) - t.arrival)
  {
  }

  /**
   * The time stamps a flight can carry in each state when `clock` is the
   * current tick, for the versions that stamp `land` on landing
   * (deliverable/airport.c and src/flight.c): each stamp is at least the
   * scheduled time plus the minimum durations that precede it.
   */
  predicate TimesConsistent(f: Flight, clock: nat)
  {
    var t := f.time;
    match f.state
    case WaitToTakeoff => t.scheduled + TAXI_DURATION <= clock
    case EnRoute => t.scheduled + TAXI_DURATION <= t.departure
    case WaitToLand => t.scheduled + TAXI_DURATION <= t.departure && t.departure + t.flight <= clock
    case ArrivalTaxi => t.scheduled + TAXI_DURATION + t.flight <= t.land
    case Complete => ExpectedArrival(t) <= t.arrival
    case _ => true
  }

  /** The invariant survives the passing of time. */
  lemma TimesConsistentLater(f: Flight, clock: nat, later: nat)
    requires TimesConsistent(f, clock) && clock <= later
    ensures TimesConsistent(f, later)
  {
  }
}
