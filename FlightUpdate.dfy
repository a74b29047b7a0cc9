/**
 * src/flight.c: UpdateFlight of the version where a flight asks its airport
 * whether the runway is free. RunwayReady, EnterRunway, QueueDeparture and
 * QueueArrival belong to an airport module that is not part of this model:
 * RunwayReady's answer is the input `ready`, and the three calls become the
 * request the step returns.
 */
module FlightUpdate {
  import opened Flights

  /** The call UpdateFlight makes on an airport in one step, if any. */
  datatype RunwayRequest =
    | NoRequest
    | EnterRunway(airport: nat)
    | QueueDeparture(airport: nat)
    | QueueArrival(airport: nat)

  /** Whether UpdateFlight consults RunwayReady in this state at this tick. */
  predicate AsksRunway(f: Flight, timer: nat)
  {
    || (f.state == DepartureTaxi && f.time.scheduled + TAXI_DURATION == timer)
    || f.state == WaitToTakeoff
    || (f.state == EnRoute && f.time.departure + f.time.flight == timer)
    || f.state == WaitToLand
  }

  /** The outcome of UpdateFlight: the new flight, the airport call and the value returned. */
  datatype Step = Step(flight: Flight, request: RunwayRequest, active: bool)

  /** UpdateFlight, as a function of the flight, the tick and RunwayReady's answer. */
  function UpdateStep(f: Flight, timer: nat, ready: bool): (s: Step)
    ensures s.active <==> f.state != Complete
    ensures SameFlight(f, s.flight)
    ensures s.flight.state == f.state || s.flight.state == Successor(f.state)
      || (s.flight.state == EnRoute && f.state == DepartureTaxi)
      || (s.flight.state == ArrivalTaxi && f.state == EnRoute)
    ensures s.request != NoRequest ==> AsksRunway(f, timer)
  {
    var t := f.time;
    match f.state
    case StandBy =>
      if t.scheduled == timer then Step(f.(state := DepartureTaxi), NoRequest, true)
      else Step(f, NoRequest, true)
    case DepartureTaxi =>
      if t.scheduled + TAXI_DURATION == timer then
        if ready then Step(f.(time := t.(departure := timer), state := EnRoute), EnterRunway(f.origin), true)
        else Step(f.(state := WaitToTakeoff), QueueDeparture(f.origin), true)
      else Step(f, NoRequest, true)
    case WaitToTakeoff =>
      if ready then Step(f.(time := t.(departure := timer), state := EnRoute), EnterRunway(f.origin), true)
      else Step(f, NoRequest, true)
    case EnRoute =>
      if t.departure + t.flight == timer then
        if ready then Step(f.(time := t.(land := timer), state := ArrivalTaxi), EnterRunway(f.destination), true)
        else Step(f.(state := WaitToLand), QueueArrival(f.destination), true)
      else Step(f, NoRequest, true)
    case WaitToLand =>
      if ready then Step(f.(time := t.(land := timer), state := ArrivalTaxi), EnterRunway(f.destination), true)
      else Step(f, NoRequest, true)
    case ArrivalTaxi =>
      if t.land + TAXI_DURATION == timer then Step(f.(time := t.(arrival := timer), state := Complete), NoRequest, true)
      else Step(f, NoRequest, true)
    case Complete => Step(f, NoRequest, false)
    case _ => Step(f, NoRequest, true)
  }

  /**
   * The runway protocol: a flight that reaches the runway enters it when it
   * is ready and is queued otherwise; a waiting flight enters as soon as the
   * runway is ready and stays put until then; each use of the runway stamps
   * the take-off or landing time, while queueing stamps nothing; before its
   * tick a taxiing or flying flight is left as it is.
   */
  lemma RunwayProtocol(f: Flight, timer: nat, ready: bool)
    ensures var s := UpdateStep(f, timer, ready);
            AsksRunway(f, timer) && ready ==>
              s.request == EnterRunway(if f.state in {DepartureTaxi, WaitToTakeoff} then f.origin else f.destination)
    ensures var s := UpdateStep(f, timer, ready);
            f.state == DepartureTaxi && AsksRunway(f, timer) && !ready ==>
              s.request == QueueDeparture(f.origin) && s.flight.state == WaitToTakeoff
    ensures var s := UpdateStep(f, timer, ready);
            f.state == EnRoute && AsksRunway(f, timer) && !ready ==>
              s.request == QueueArrival(f.destination) && s.flight.state == WaitToLand
    ensures var s := UpdateStep(f, timer, ready);
            IsWaiting(f) && !ready ==> s.flight == f && s.request == NoRequest
    ensures var s := UpdateStep(f, timer, ready);
            s.request.EnterRunway? && f.state in {DepartureTaxi, WaitToTakeoff} ==>
              s.flight.state == EnRoute && s.flight.time == f.time.(departure := timer)
    ensures var s := UpdateStep(f, timer, ready);
            s.request.EnterRunway? && f.state in {EnRoute, WaitToLand} ==>
              s.flight.state == ArrivalTaxi && s.flight.time == f.time.(land := timer)
    ensures f.state in {DepartureTaxi, EnRoute} && !AsksRunway(f, timer) ==>
              UpdateStep(f, timer, ready) == Step(f, NoRequest, true)
    ensures var s := UpdateStep(f, timer, ready);
            s.request.QueueDeparture? || s.request.QueueArrival? ==> s.flight.time == f.time
  {
  }

  /** The timed transitions fire exactly at their tick and need no runway. */
  lemma TimedTransitions(f: Flight, timer: nat, ready: bool)
    ensures f.state == StandBy ==>
              (UpdateStep(f, timer, ready).flight.state == DepartureTaxi <==> timer == f.time.scheduled)
    ensures f.state == ArrivalTaxi ==>
              (UpdateStep(f, timer, ready).flight.state == Complete <==> timer == f.time.land + TAXI_DURATION)
    ensures f.state == ArrivalTaxi && UpdateStep(f, timer, ready).flight.state == Complete ==>
              UpdateStep(f, timer, ready).flight.time == f.time.(arrival := timer)
    ensures f.state == StandBy || f.state == ArrivalTaxi || f.state == Complete ==>
              UpdateStep(f, timer, ready) == UpdateStep(f, timer, !ready)
  {
  }

  lemma UpdateKeepsTimes(f: Flight, timer: nat, ready: bool)
    requires TimesConsistent(f, timer)
    ensures TimesConsistent(UpdateStep(f, timer, ready).flight, timer)
  {
  }

  /** One flight from tick `timer` on, RunwayReady answering `answers[k]` at the k-th tick. */
  function Run(f: Flight, timer: nat, answers: seq<bool>): Flight
    decreases |answers|
  {
    if answers == [] then f
    else Run(UpdateStep(f, timer, answers[0]).flight, timer + 1, answers[1..])
  }

  lemma {:induction false} RunKeepsTimes(f: Flight, timer: nat, answers: seq<bool>)
    requires TimesConsistent(f, timer)
    ensures TimesConsistent(Run(f, timer, answers), timer + |answers|)
    decreases |answers|
  {
    if answers != [] {
      var g := UpdateStep(f, timer, answers[0]).flight;
      UpdateKeepsTimes(f, timer, answers[0]);
      TimesConsistentLater(g, timer, timer + 1);
      RunKeepsTimes(g, timer + 1, answers[1..]);
    }
  }

  /**
   * Whatever the runways answer, a flight loaded in STAND_BY that completes
   * is never logged with a negative delay, and for an arrival within the
   * `uint16_t` range OutputFlightLog prints the true delay. This is the
   * guarantee DeliverableAirport.DelayNeverNegative gives for deliverable/,
   * restated for this version's Run, whose steps consult the runway.
   */
  lemma DelayNeverNegative(f: Flight, timer: nat, answers: seq<bool>)
    requires f.state == StandBy
    ensures var g := Run(f, timer, answers);
            g.state == Complete ==> ExpectedArrival(g.time) <= g.time.arrival
    ensures var g := Run(f, timer, answers);
            g.state == Complete && g.time.arrival < Clock.UINT16_LIMIT ==>
              LoggedDelay(g.time) == g.time.arrival - ExpectedArrival(g.time)
  {
    RunKeepsTimes(f, timer, answers);
  }

  /**
   * UpdateFlight on flight `i` of the flight table, `ready` being what
   * RunwayReady answers if it is asked.
   */
  method UpdateFlight(flights: array<Flight>, i: nat, timer: nat, ready: bool)
      returns (active: bool, request: RunwayRequest)
    requires i < flights.Length
    modifies flights
    ensures var s := UpdateStep(old(flights[i]), timer, ready);
            && active == s.active && request == s.request
            && flights[..] == old(flights[..])[i := s.flight]
  {
    active := true;
    request := NoRequest;
    var f := flights[i];
    var t := f.time;
    match f.state {
      case StandBy =>
        if t.scheduled == timer {
          flights[i] := f.(state := DepartureTaxi);
        }
      case DepartureTaxi =>
        if t.scheduled + TAXI_DURATION == timer {
          if ready {
            request := EnterRunway(f.origin);
            flights[i] := f.(time := t.(departure := timer), state := EnRoute);
          } else {
            request := QueueDeparture(f.origin);
            flights[i] := f.(state := WaitToTakeoff);
          }
        }
      case WaitToTakeoff =>
        if ready {
          request := EnterRunway(f.origin);
          flights[i] := f.(time := t.(departure := timer), state := EnRoute);
        }
      case EnRoute =>
        if t.departure + t.flight == timer {
          if ready {
            request := EnterRunway(f.destination);
            flights[i] := f.(time := t.(land := timer), state := ArrivalTaxi);
          } else {
            request := QueueArrival(f.destination);
            flights[i] := f.(state := WaitToLand);
          }
        }
      case WaitToLand =>
        if ready {
          request := EnterRunway(f.destination);
          flights[i] := f.(time := t.(land := timer), state := ArrivalTaxi);
        }
      case ArrivalTaxi =>
        if t.land + TAXI_DURATION == timer {
          flights[i] := f.(time := t.(arrival := timer), state := Complete);
        }
      case Complete =>
        active := false;
      case _ =>
    }
  }
}
