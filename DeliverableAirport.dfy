/**
 * deliverable/airport.c: the runway scheduler and the flight state machine
 * without planes. STAND_BY and DEPARTURE_TAXI are timed from the scheduled
 * time by exact equality with the clock; the runway admission stamps
 * `departure` on take-off and `land` on landing.
 */
module DeliverableAirport {
  import opened Flights
  import opened Queue
  import opened Runway

  /**
   * What manage_runway does to the flight it pops: a flight waiting to take
   * off leaves at `clock`, a flight waiting to land lands at `clock`; any
   * other flight is left as it is.
   */
  function Admit(f: Flight, clock: nat): (g: Flight)
    ensures SameFlight(f, g)
    ensures g.state == f.state || g.state == Successor(f.state)
    ensures !IsWaiting(g)
  {
    match f.state
    case WaitToTakeoff => f.(state := EnRoute, time := f.time.(departure := clock))
    case WaitToLand => f.(state := ArrivalTaxi, time := f.time.(land := clock))
    case _ => f
  }

  /** Admitting a flight twice in one tick is the same as admitting it once. */
  lemma AdmitIdempotent(f: Flight, clock: nat)
    ensures Admit(Admit(f, clock), clock) == Admit(f, clock)
  {
  }

  /** Admission stamps the current tick as the take-off or landing time. */
  lemma AdmitTransitions(f: Flight, clock: nat)
    ensures f.state == WaitToTakeoff ==>
              Admit(f, clock).state == EnRoute && Admit(f, clock).time == f.time.(departure := clock)
    ensures f.state == WaitToLand ==>
              Admit(f, clock).state == ArrivalTaxi && Admit(f, clock).time == f.time.(land := clock)
    ensures !IsWaiting(f) ==> Admit(f, clock) == f
  {
  }

  /**
   * The outcome of update_flight: the new flight, the queue it joined (of its
   * origin for Departure, of its destination for Arrival) and the value
   * returned.
   */
  datatype Step = Step(flight: Flight, enqueue: Option<QueueType>, active: bool)

  /** update_flight, as a function of the flight and the clock. */
  function UpdateStep(f: Flight, clock: nat): (s: Step)
    ensures s.active <==> f.state != Complete
    ensures SameFlight(f, s.flight)
    ensures s.flight.state == f.state || s.flight.state == Successor(f.state)
    ensures IsWaiting(f) || f.state == Complete ==> s.flight == f
    ensures s.enqueue.Some? ==> !IsWaiting(f) && s.flight.state == WaitState(s.enqueue.value)
    ensures s.enqueue.None? ==> !IsWaiting(s.flight) || s.flight == f
  {
    var t := f.time;
    match f.state
    case StandBy =>
      if t.scheduled == clock then Step(f.(state := DepartureTaxi), None, true) else Step(f, None, true)
    case DepartureTaxi =>
      if t.scheduled + TAXI_DURATION == clock then Step(f.(state := WaitToTakeoff), Some(Departure), true)
      else Step(f, None, true)
    case EnRoute =>
      if t.departure + t.flight == clock then Step(f.(state := WaitToLand), Some(Arrival), true)
      else Step(f, None, true)
    case ArrivalTaxi =>
      if t.land + TAXI_DURATION == clock then Step(f.(state := Complete, time := t.(arrival := clock)), None, true)
      else Step(f, None, true)
    case Complete => Step(f, None, false)
    case _ => Step(f, None, true)
  }

  /** Each timed transition of update_flight fires exactly at its tick. */
  lemma UpdateTransitions(f: Flight, clock: nat)
    ensures f.state == StandBy ==>
              (UpdateStep(f, clock).flight.state == DepartureTaxi <==> clock == f.time.scheduled)
    ensures f.state == DepartureTaxi ==>
              (UpdateStep(f, clock).enqueue == Some(Departure) <==> clock == f.time.scheduled + TAXI_DURATION)
    ensures f.state == DepartureTaxi ==>
              (UpdateStep(f, clock).flight.state == WaitToTakeoff <==> clock == f.time.scheduled + TAXI_DURATION)
    ensures f.state == EnRoute ==>
              (UpdateStep(f, clock).enqueue == Some(Arrival) <==> clock == f.time.departure + f.time.flight)
    ensures f.state == EnRoute ==>
              (UpdateStep(f, clock).flight.state == WaitToLand <==> clock == f.time.departure + f.time.flight)
    ensures f.state == ArrivalTaxi ==>
              (UpdateStep(f, clock).flight.state == Complete <==> clock == f.time.land + TAXI_DURATION)
    ensures UpdateStep(f, clock).flight.state == Complete && f.state != Complete ==>
              UpdateStep(f, clock).flight.time == f.time.(arrival := clock)
    ensures UpdateStep(f, clock).flight.state != Complete || f.state == Complete ==>
              UpdateStep(f, clock).flight.time == f.time
  {
  }

  /** update_flight at tick `clock` keeps the time stamps consistent. */
  lemma UpdateKeepsTimes(f: Flight, clock: nat)
    requires TimesConsistent(f, clock)
    ensures TimesConsistent(UpdateStep(f, clock).flight, clock)
  {
  }

  /** Admission at tick `clock` keeps the time stamps consistent. */
  lemma AdmitKeepsTimes(f: Flight, clock: nat)
    requires TimesConsistent(f, clock)
    ensures TimesConsistent(Admit(f, clock), clock)
  {
  }

  /**
   * One flight in the driver's order from tick `clock` on: at each tick
   * update_flight runs, then, if `admitted` says its airport popped it, the
   * runway admission, then the clock advances by one.
   */
  function Run(f: Flight, clock: nat, admitted: seq<bool>): Flight
    decreases |admitted|
  {
    if admitted == [] then f
    else
      var g := UpdateStep(f, clock).flight;
      Run(if admitted[0] then Admit(g, clock) else g, clock + 1, admitted[1..])
  }

  /** The time-stamp invariant holds along every run. */
  lemma {:induction false} RunKeepsTimes(f: Flight, clock: nat, admitted: seq<bool>)
    requires TimesConsistent(f, clock)
    ensures TimesConsistent(Run(f, clock, admitted), clock + |admitted|)
    decreases |admitted|
  {
    if admitted != [] {
      var g := UpdateStep(f, clock).flight;
      UpdateKeepsTimes(f, clock);
      var h := if admitted[0] then Admit(g, clock) else g;
      if admitted[0] {
        AdmitKeepsTimes(g, clock);
      }
      TimesConsistentLater(h, clock, clock + 1);
      RunKeepsTimes(h, clock + 1, admitted[1..]);
    }
  }

  /**
   * A flight loaded in STAND_BY that completes, whatever the runway
   * contention, arrives no earlier than scheduled + flight + 2*TAXI_DURATION:
   * the delay output_flight_log prints is never negative and, for an arrival
   * within the `uint16_t` range, does not wrap.
   */
  lemma DelayNeverNegative(f: Flight, clock: nat, admitted: seq<bool>)
    requires f.state == StandBy
    ensures var g := Run(f, clock, admitted);
            g.state == Complete ==> ExpectedArrival(g.time) <= g.time.arrival
    ensures var g := Run(f, clock, admitted);
            g.state == Complete && g.time.arrival < Clock.UINT16_LIMIT ==>
              LoggedDelay(g.time) == g.time.arrival - ExpectedArrival(g.time)
  {
    RunKeepsTimes(f, clock, admitted);
  }

  /**
   * update_flight tests the landing tick `departure + flight == clock` for
   * equality, so a flight whose landing tick has already gone by stays
   * EN_ROUTE for good, whatever the runways do.
   */
  lemma {:induction false} MissedLandingStaysEnRoute(f: Flight, clock: nat, admitted: seq<bool>)
    requires f.state == EnRoute && f.time.departure + f.time.flight < clock
    ensures Run(f, clock, admitted) == f
    decreases |admitted|
  {
    if admitted != [] {
      AdmitTransitions(f, clock);
      MissedLandingStaysEnRoute(f, clock + 1, admitted[1..]);
    }
  }

  /**
   * A flight with a flight time of 0 never lands: manage_runway stamps its
   * take-off with the tick of the admission, after update_flight has run
   * for that tick, and from the next tick on its landing tick has passed.
   */
  lemma ZeroFlightNeverLands(f: Flight, clock: nat, admitted: seq<bool>)
    requires f.state == WaitToTakeoff && f.time.flight == 0
    requires |admitted| > 0 && admitted[0]
    ensures Run(f, clock, admitted).state == EnRoute
  {
    var h := Admit(UpdateStep(f, clock).flight, clock);
    AdmitTransitions(f, clock);
    MissedLandingStaysEnRoute(h, clock + 1, admitted[1..]);
  }

  /**
   * manage_runway: pops the front flight of the queue after last_queue_type,
   * or else of the other queue, admits it and records the queue served; with
   * both queues empty nothing changes.
   */
  method ManageRunway(a: Airport, flights: array<Flight>, clock: nat)
    requires a.Valid()
    requires Front(a).Some? ==> Front(a).value < flights.Length
    modifies a, a.departures, a.arrivals, flights
    ensures a.Valid()
    ensures var served := ServedQueue(old(a.lastQueueType), old(|a.departures.Contents|), old(|a.arrivals.Contents|));
            && a.lastQueueType == (if served.Some? then served.value else old(a.lastQueueType))
            && (forall q :: a.QueueOf(q).Contents ==
                  if served == Some(q) then old(a.QueueOf(q).Contents)[1..] else old(a.QueueOf(q).Contents))
    ensures old(Front(a)).None? ==> flights[..] == old(flights[..])
    ensures old(Front(a)).Some? ==>
              var x := old(Front(a)).value;
              flights[..] == old(flights[..])[x := Admit(old(flights[x]), clock)]
  {
    var front := a.PopRunway();
    if front.Some? {
      var x := front.value;
      var f := flights[x];
      if f.state == WaitToTakeoff {
        flights[x] := f.(state := EnRoute, time := f.time.(departure := clock));
      } else if f.state == WaitToLand {
        flights[x] := f.(state := ArrivalTaxi, time := f.time.(land := clock));
      }
    }
  }

  /**
   * manage_runway on airport `j` of the airport table: that airport pops and
   * admits as ManageRunway says, and every other airport is left as it was.
   */
  method ManageRunwayAt(airports: seq<Airport>, j: nat, flights: array<Flight>, clock: nat)
    requires j < |airports| && TableValid(airports)
    requires Front(airports[j]).Some? ==> Front(airports[j]).value < flights.Length
    modifies airports[j], airports[j].departures, airports[j].arrivals, flights
    ensures TableValid(airports)
    ensures Snapshot(airports) == old(Snapshot(airports))[j := Served(old(Snapshot(airports))[j])]
    ensures old(Front(airports[j])).None? ==> flights[..] == old(flights[..])
    ensures old(Front(airports[j])).Some? ==>
              var x := old(Front(airports[j])).value;
              flights[..] == old(flights[..])[x := Admit(old(flights[x]), clock)]
  {
    FlightsOutsideTable(airports, flights);
    ghost var v := View(airports[j]);
    ManageRunway(airports[j], flights, clock);
    var a := airports[j];
    assert a.departures.Contents == Select(Served(v), Departure);
    assert a.arrivals.Contents == Select(Served(v), Arrival);
    forall k | 0 <= k < |airports| && k != j
      ensures airports[k].Valid() && unchanged(airports[k].Repr())
    {
      assert airports[k].Repr() !! airports[j].Repr();
    }
    assert forall k :: 0 <= k < |airports| && k != j ==> Snapshot(airports)[k] == old(Snapshot(airports))[k];
  }

  /**
   * The switch of update_flight on flight `i`: advances the flight as
   * UpdateStep says and reports the queue it must join.
   */
  method AdvanceFlight(flights: array<Flight>, i: nat, clock: nat) returns (active: bool, join: Option<QueueType>)
    requires i < flights.Length
    modifies flights
    ensures var s := UpdateStep(old(flights[i]), clock);
            && active == s.active && join == s.enqueue
            && flights[..] == old(flights[..])[i := s.flight]
  {
    active := true;
    join := None;
    var f := flights[i];
    var t := f.time;
    match f.state {
      case StandBy =>
        if t.scheduled == clock {
          flights[i] := f.(state := DepartureTaxi);
        }
      case DepartureTaxi =>
        if t.scheduled + TAXI_DURATION == clock {
          join := Some(Departure);
          flights[i] := f.(state := WaitToTakeoff);
        }
      case EnRoute =>
        if t.departure + t.flight == clock {
          join := Some(Arrival);
          flights[i] := f.(state := WaitToLand);
        }
      case ArrivalTaxi =>
        if t.land + TAXI_DURATION == clock {
          flights[i] := f.(time := t.(arrival := clock), state := Complete);
        }
      case Complete =>
        active := false;
      case _ =>
    }
  }

  /**
   * update_flight on flight `i` of the flight table: the switch, then
   * queue_departure on the origin or queue_arrival on the destination when
   * the flight starts to wait for a runway.
   */
  method UpdateFlight(flights: array<Flight>, i: nat, airports: seq<Airport>, clock: nat) returns (active: bool)
    requires i < flights.Length
    requires flights[i].origin < |airports| && flights[i].destination < |airports|
    requires TableValid(airports)
    requires var s := UpdateStep(flights[i], clock);
             s.enqueue.Some? ==>
               |airports[QueueAirport(flights[i], s.enqueue.value)].QueueOf(s.enqueue.value).Contents| < FLIGHT_QUEUE_CAPACITY
    modifies flights
    modifies airports[flights[i].origin].departures, airports[flights[i].origin].departures.buffer
    modifies airports[flights[i].destination].arrivals, airports[flights[i].destination].arrivals.buffer
    ensures TableValid(airports)
    ensures var s := UpdateStep(old(flights[i]), clock);
            && active == s.active
            && flights[..] == old(flights[..])[i := s.flight]
            && Snapshot(airports) ==
                 if s.enqueue.Some? then
                   Push(old(Snapshot(airports)), QueueAirport(old(flights[i]), s.enqueue.value), s.enqueue.value, i)
                 else old(Snapshot(airports))
  {
    FlightsOutsideTable(airports, flights);
    var f := flights[i];
    var join;
    active, join := AdvanceFlight(flights, i, clock);
    TableUnchanged(airports);
    if join.Some? {
      QueueAt(airports, QueueAirport(f, join.value), join.value, i);
    }
  }
}
