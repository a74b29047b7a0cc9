/**
 * src/airport.c: the scheduler once flights fly assigned planes. A flight
 * leaves STAND_BY at or after its scheduled time, and only when its plane
 * is parked at the origin with no grooming left, stamping `departure` with
 * that tick. The departure taxi is timed from that stamp. Take-off marks the
 * plane as flying. The runway admission of a landing stamps `arrival` with
 * the landing tick; the arrival taxi is timed from it, `arrival` is
 * overwritten with the completion tick, and the plane is parked at the
 * destination for grooming.
 *
 * PLANE_GROOM_DURATION is not defined in any header of the repository; it
 * is the parameter `groomDuration` here.
 */
module PlaneAirport {
  import opened Flights
  import opened Queue
  import opened Runway

  /** plane_ready: the plane is parked at the flight's origin and groomed. */
  predicate PlaneReady(f: Flight, p: Plane)
  {
    p.location == AtAirport(f.origin) && p.groom == 0
  }

  /** A flying plane is ready for no flight at all. */
  lemma FlyingPlaneNeverReady(f: Flight, p: Plane)
    requires p.location == OnAir
    ensures !PlaneReady(f, p)
  {
  }

  /** The flight references a plane of the plane table. */
  predicate HasPlane(f: Flight, planeCount: nat)
  {
    f.plane.Some? && f.plane.value < planeCount
  }

  /** What manage_runway does to the flight it pops. */
  function AdmitFlight(f: Flight, clock: nat): (g: Flight)
    ensures SameFlight(f, g)
    ensures g.state == f.state || g.state == Successor(f.state)
    ensures !IsWaiting(g)
    ensures f.state == WaitToTakeoff ==> g.state == EnRoute && g.time == f.time.(departure := clock)
    ensures f.state == WaitToLand ==> g.state == ArrivalTaxi && g.time == f.time.(arrival := clock)
    ensures !IsWaiting(f) ==> g == f
  {
    match f.state
    case WaitToTakeoff => f.(state := EnRoute, time := f.time.(departure := clock))
    case WaitToLand => f.(state := ArrivalTaxi, time := f.time.(arrival := clock))
    case _ => f
  }

  /** What manage_runway does to the plane of the flight it pops. */
  function AdmitPlane(f: Flight, p: Plane): (q: Plane)
    ensures f.state == WaitToTakeoff ==> q.location == OnAir
    ensures f.state != WaitToTakeoff ==> q == p
    ensures q.groom == p.groom && q.busy == p.busy && q.id == p.id
  {
    if f.state == WaitToTakeoff then p.(location := PLANE_ON_AIR) else p
  }

  /** PLANE_ON_AIR. */
  const PLANE_ON_AIR: PlaneLocation := OnAir

  /** The outcome of update_flight: the flight, its plane, the queue joined, the value returned. */
  datatype PlaneStep = PlaneStep(flight: Flight, plane: Plane, enqueue: Option<QueueType>, active: bool)

  /** update_flight, as a function of the flight, its plane and the clock. */
  function UpdateStep(f: Flight, p: Plane, clock: nat, groomDuration: nat): (s: PlaneStep)
    ensures s.active <==> f.state != Complete
    ensures SameFlight(f, s.flight)
    ensures s.flight.state == f.state || s.flight.state == Successor(f.state)
    ensures IsWaiting(f) || f.state == Complete ==> s.flight == f && s.plane == p
    ensures s.enqueue.Some? ==> !IsWaiting(f) && s.flight.state == WaitState(s.enqueue.value)
    ensures s.enqueue.None? ==> !IsWaiting(s.flight) || s.flight == f
    ensures s.plane != p ==> f.state == ArrivalTaxi && s.flight.state == Complete
  {
    var t := f.time;
    match f.state
    case StandBy =>
      if t.scheduled <= clock && PlaneReady(f, p) then
        PlaneStep(f.(state := DepartureTaxi, time := t.(departure := clock)), p, None, true)
      else PlaneStep(f, p, None, true)
    case DepartureTaxi =>
      if t.departure + TAXI_DURATION == clock then PlaneStep(f.(state := WaitToTakeoff), p, Some(Departure), true)
      else PlaneStep(f, p, None, true)
    case EnRoute =>
      if t.departure + t.flight == clock then PlaneStep(f.(state := WaitToLand), p, Some(Arrival), true)
      else PlaneStep(f, p, None, true)
    case ArrivalTaxi =>
      if t.arrival + TAXI_DURATION == clock then
        PlaneStep(f.(time := t.(arrival := clock), state := Complete),
                  p.(location := AtAirport(f.destination), groom := groomDuration), None, true)
      else PlaneStep(f, p, None, true)
    case Complete => PlaneStep(f, p, None, false)
    case _ => PlaneStep(f, p, None, true)
  }

  /**
   * The transitions of update_flight: STAND_BY is left exactly when the
   * scheduled time has come and the plane is ready, the taxis and the flight
   * are timed from the stamps, and completion parks the plane at the
   * destination for grooming.
   */
  lemma UpdateTransitions(f: Flight, p: Plane, clock: nat, groomDuration: nat)
    ensures var s := UpdateStep(f, p, clock, groomDuration);
            f.state == StandBy ==>
              (s.flight.state == DepartureTaxi <==> f.time.scheduled <= clock && PlaneReady(f, p))
              && (s.flight.state == DepartureTaxi ==> s.flight.time == f.time.(departure := clock))
    ensures var s := UpdateStep(f, p, clock, groomDuration);
            f.state == DepartureTaxi ==>
              (s.enqueue == Some(Departure) <==> clock == f.time.departure + TAXI_DURATION)
    ensures var s := UpdateStep(f, p, clock, groomDuration);
            f.state == EnRoute ==>
              (s.enqueue == Some(Arrival) <==> clock == f.time.departure + f.time.flight)
    ensures var s := UpdateStep(f, p, clock, groomDuration);
            f.state == ArrivalTaxi ==>
              (s.flight.state == Complete <==> clock == f.time.arrival + TAXI_DURATION)
    ensures var s := UpdateStep(f, p, clock, groomDuration);
            f.state == ArrivalTaxi && s.flight.state == Complete ==>
              && s.flight.time == f.time.(arrival := clock)
              && s.plane == p.(location := AtAirport(f.destination), groom := groomDuration)
    ensures var s := UpdateStep(f, p, clock, groomDuration);
            s.flight.state == f.state || s.flight.state in {WaitToTakeoff, WaitToLand} ==> s.flight.time == f.time
  {
  }

  /**
   * The time stamps a flight can carry in each state at tick `clock`: here
   * `departure` first records when the flight left STAND_BY and `arrival`
   * first records the landing.
   */
  predicate PlaneTimesConsistent(f: Flight, clock: nat)
  {
    var t := f.time;
    match f.state
    case DepartureTaxi => t.scheduled <= t.departure
    case WaitToTakeoff => t.scheduled + TAXI_DURATION <= clock
    case EnRoute => t.scheduled + TAXI_DURATION <= t.departure
    case WaitToLand => t.scheduled + TAXI_DURATION <= t.departure && t.departure + t.flight <= clock
    case ArrivalTaxi => t.scheduled + TAXI_DURATION + t.flight <= t.arrival
    case Complete => ExpectedArrival(t) <= t.arrival
    case _ => true
  }

  lemma UpdateKeepsTimes(f: Flight, p: Plane, clock: nat, groomDuration: nat)
    requires PlaneTimesConsistent(f, clock)
    ensures PlaneTimesConsistent(UpdateStep(f, p, clock, groomDuration).flight, clock)
  {
  }

  lemma AdmitKeepsTimes(f: Flight, clock: nat)
    requires PlaneTimesConsistent(f, clock)
    ensures PlaneTimesConsistent(AdmitFlight(f, clock), clock)
  {
  }

  lemma PlaneTimesConsistentLater(f: Flight, clock: nat, later: nat)
    requires PlaneTimesConsistent(f, clock) && clock <= later
    ensures PlaneTimesConsistent(f, later)
  {
  }

  /** What one flight meets at one tick: its plane as update_flight reads it, and whether it is popped. */
  datatype TickView = TickView(plane: Plane, admitted: bool)

  /**
   * One flight from tick `clock` on: update_flight with the plane it sees,
   * then the admission if its airport pops it, then the next tick.
   */
  function Run(f: Flight, clock: nat, views: seq<TickView>, groomDuration: nat): Flight
    decreases |views|
  {
    if views == [] then f
    else
      var g := UpdateStep(f, views[0].plane, clock, groomDuration).flight;
      Run(if views[0].admitted then AdmitFlight(g, clock) else g, clock + 1, views[1..], groomDuration)
  }

  lemma {:induction false} RunKeepsTimes(f: Flight, clock: nat, views: seq<TickView>, groomDuration: nat)
    requires PlaneTimesConsistent(f, clock)
    ensures PlaneTimesConsistent(Run(f, clock, views, groomDuration), clock + |views|)
    decreases |views|
  {
    if views != [] {
      var g := UpdateStep(f, views[0].plane, clock, groomDuration).flight;
      UpdateKeepsTimes(f, views[0].plane, clock, groomDuration);
      var h := if views[0].admitted then AdmitFlight(g, clock) else g;
      if views[0].admitted {
        AdmitKeepsTimes(g, clock);
      }
      PlaneTimesConsistentLater(h, clock, clock + 1);
      RunKeepsTimes(h, clock + 1, views[1..], groomDuration);
    }
  }

  /**
   * However long the flight waits for its plane or the runways, the delay
   * output_flight_log prints for it is never negative and, for an arrival
   * within the `uint16_t` range, is the true one.
   */
  lemma DelayNeverNegative(f: Flight, clock: nat, views: seq<TickView>, groomDuration: nat)
    requires f.state == StandBy
    ensures var g := Run(f, clock, views, groomDuration);
            g.state == Complete ==> ExpectedArrival(g.time) <= g.time.arrival
    ensures var g := Run(f, clock, views, groomDuration);
            g.state == Complete && g.time.arrival < Clock.UINT16_LIMIT ==>
              LoggedDelay(g.time) == g.time.arrival - ExpectedArrival(g.time)
  {
    RunKeepsTimes(f, clock, views, groomDuration);
  }

  /**
   * manage_runway: pops as in Runway.ServedQueue, admits the popped flight
   * and, for a take-off, marks its plane as flying.
   */
  method ManageRunway(a: Airport, flights: array<Flight>, planes: array<Plane>, clock: nat)
    requires a.Valid()
    requires Front(a).Some? ==> Front(a).value < flights.Length
    requires Front(a).Some? && flights[Front(a).value].state == WaitToTakeoff ==>
               HasPlane(flights[Front(a).value], planes.Length)
    modifies a, a.departures, a.arrivals, flights, planes
    ensures a.Valid()
    ensures var served := ServedQueue(old(a.lastQueueType), old(|a.departures.Contents|), old(|a.arrivals.Contents|));
            && a.lastQueueType == (if served.Some? then served.value else old(a.lastQueueType))
            && (forall q :: a.QueueOf(q).Contents ==
                  if served == Some(q) then old(a.QueueOf(q).Contents)[1..] else old(a.QueueOf(q).Contents))
    ensures old(Front(a)).None? ==> flights[..] == old(flights[..]) && planes[..] == old(planes[..])
    ensures old(Front(a)).Some? ==>
              var x := old(Front(a)).value;
              flights[..] == old(flights[..])[x := AdmitFlight(old(flights[x]), clock)]
    ensures old(Front(a)).Some? && old(flights[Front(a).value]).state == WaitToTakeoff ==>
              var n := old(flights[Front(a).value]).plane.value;
              planes[..] == old(planes[..])[n := AdmitPlane(old(flights[Front(a).value]), old(planes[n]))]
    ensures old(Front(a)).Some? && old(flights[Front(a).value]).state != WaitToTakeoff ==>
              planes[..] == old(planes[..])
  {
    var front := a.PopRunway();
    if front.Some? {
      var x := front.value;
      var f := flights[x];
      if f.state == WaitToTakeoff {
        flights[x] := f.(state := EnRoute, time := f.time.(departure := clock));
        var n := f.plane.value;
        planes[n] := planes[n].(location := PLANE_ON_AIR);
      } else if f.state == WaitToLand {
        flights[x] := f.(state := ArrivalTaxi, time := f.time.(arrival := clock));
      }
    }
  }

  /**
   * The switch of update_flight on flight `i`: advances the flight and its
   * plane as UpdateStep says and reports the queue the flight must join.
   */
  method AdvanceFlight(flights: array<Flight>, i: nat, planes: array<Plane>, clock: nat, groomDuration: nat)
      returns (active: bool, join: Option<QueueType>)
    requires i < flights.Length && HasPlane(flights[i], planes.Length)
    modifies flights, planes
    ensures var n := old(flights[i]).plane.value;
            var s := UpdateStep(old(flights[i]), old(planes[n]), clock, groomDuration);
            && active == s.active && join == s.enqueue
            && flights[..] == old(flights[..])[i := s.flight]
            && planes[..] == old(planes[..])[n := s.plane]
  {
    active := true;
    join := None;
    var f := flights[i];
    var t := f.time;
    var n := f.plane.value;
    match f.state {
      case StandBy =>
        if t.scheduled <= clock {
          if PlaneReady(f, planes[n]) {
            flights[i] := f.(state := DepartureTaxi, time := t.(departure := clock));
          }
        }
      case DepartureTaxi =>
        if t.departure + TAXI_DURATION == clock {
          join := Some(Departure);
          flights[i] := f.(state := WaitToTakeoff);
        }
      case EnRoute =>
        if t.departure + t.flight == clock {
          join := Some(Arrival);
          flights[i] := f.(state := WaitToLand);
        }
      case ArrivalTaxi =>
        if t.arrival + TAXI_DURATION == clock {
          flights[i] := f.(time := t.(arrival := clock), state := Complete);
          planes[n] := planes[n].(location := AtAirport(f.destination), groom := groomDuration);
        }
      case Complete =>
        active := false;
      case _ =>
    }
  }

  /**
   * update_flight on flight `i`: the switch, then queue_departure on the
   * origin or queue_arrival on the destination when the flight starts to
   * wait for a runway. Every flight of this version flies an assigned plane,
   * which update_flight dereferences.
   */
  method UpdateFlight(flights: array<Flight>, i: nat, planes: array<Plane>, airports: seq<Airport>,
                      clock: nat, groomDuration: nat)
      returns (active: bool)
    requires i < flights.Length && HasPlane(flights[i], planes.Length)
    requires flights[i].origin < |airports| && flights[i].destination < |airports|
    requires TableValid(airports)
    requires var s := UpdateStep(flights[i], planes[flights[i].plane.value], clock, groomDuration);
             s.enqueue.Some? ==>
               |airports[QueueAirport(flights[i], s.enqueue.value)].QueueOf(s.enqueue.value).Contents| < FLIGHT_QUEUE_CAPACITY
    modifies flights, planes
    modifies airports[flights[i].origin].departures, airports[flights[i].origin].departures.buffer
    modifies airports[flights[i].destination].arrivals, airports[flights[i].destination].arrivals.buffer
    ensures TableValid(airports)
    ensures var n := old(flights[i]).plane.value;
            var s := UpdateStep(old(flights[i]), old(planes[n]), clock, groomDuration);
            && active == s.active
            && flights[..] == old(flights[..])[i := s.flight]
            && planes[..] == old(planes[..])[n := s.plane]
            && Snapshot(airports) ==
                 if s.enqueue.Some? then
                   Push(old(Snapshot(airports)), QueueAirport(old(flights[i]), s.enqueue.value), s.enqueue.value, i)
                 else old(Snapshot(airports))
  {
    FlightsOutsideTable(airports, flights);
    PlanesOutsideTable(airports, planes);
    var f := flights[i];
    var join;
    active, join := AdvanceFlight(flights, i, planes, clock, groomDuration);
    TableUnchanged(airports);
    if join.Some? {
      QueueAt(airports, QueueAirport(f, join.value), join.value, i);
    }
  }
}
