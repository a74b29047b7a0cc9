/**
 * The driver of src/atsim.c. Reading flight records is shared with the
 * other driver (module Simulation). At the end of input the airports are
 * initialised and the flights are kept in the order they were read. Each
 * SIMULATE tick runs UpdateFlight of src/flight.c on every loaded flight,
 * then UpdateAirport on every airport, then advances the clock.
 *
 * UpdateAirport and RunwayReady belong to an airport module that is not
 * part of this model. RunwayReady's answers for a tick are the input
 * `ready`, one per flight, and the airport calls of the tick are returned
 * as the `requests` they make, in flight order.
 */
module SrcDriver {
  import opened Flights
  import opened FlightUpdate
  import opened Runway
  import opened Simulation
  import DeliverableDriver

  /** The flight table after UpdateFlight ran on its first `n` flights at `clock`. */
  function Updated(fs: seq<Flight>, n: nat, clock: nat, ready: seq<bool>): (r: seq<Flight>)
    requires n <= |fs| && n <= |ready|
    ensures |r| == |fs|
  {
    seq(|fs|, k requires 0 <= k < |fs| => if k < n then UpdateStep(fs[k], clock, ready[k]).flight else fs[k])
  }

  /** The airport calls UpdateFlight made on the first `n` flights, in flight order. */
  function Requests(fs: seq<Flight>, n: nat, clock: nat, ready: seq<bool>): (r: seq<RunwayRequest>)
    requires n <= |fs| && n <= |ready|
    ensures |r| == n
  {
    seq(n, k requires 0 <= k < n => UpdateStep(fs[k], clock, ready[k]).request)
  }

  /** Updating one more flight extends the updated prefix by one. */
  lemma UpdatedStep(fs: seq<Flight>, n: nat, clock: nat, ready: seq<bool>)
    requires n < |fs| && n < |ready|
    ensures Updated(fs, n + 1, clock, ready) == Updated(fs, n, clock, ready)[n := UpdateStep(fs[n], clock, ready[n]).flight]
    ensures Requests(fs, n + 1, clock, ready) == Requests(fs, n, clock, ready) + [UpdateStep(fs[n], clock, ready[n]).request]
  {
  }

  /**
   * The first loop of the SIMULATE state: UpdateFlight on each of the
   * `count` loaded flights. The state returned is SIMULATE when some flight
   * was not complete, and SIMULATION_COMPLETE otherwise.
   */
  method UpdatePass(flights: array<Flight>, count: nat, clock: nat, ready: seq<bool>)
      returns (state: SimState, requests: seq<RunwayRequest>)
    requires count <= flights.Length && count <= |ready|
    modifies flights
    ensures flights[..] == Updated(old(flights[..]), count, clock, ready)
    ensures requests == Requests(old(flights[..]), count, clock, ready)
    ensures state == if DeliverableDriver.AnyPending(old(flights[..]), count) then Simulate else SimulationComplete
  {
    ghost var fs := flights[..];
    state := SimulationComplete;
    requests := [];
    var i := 0;
    while i < count
      invariant i <= count
      invariant flights[..] == Updated(fs, i, clock, ready)
      invariant requests == Requests(fs, i, clock, ready)
      invariant state == if DeliverableDriver.AnyPending(fs, i) then Simulate else SimulationComplete
    {
      assert flights[i] == fs[i];
      var active, request := UpdateFlight(flights, i, clock, ready[i]);
      state := if active then Simulate else state;
      requests := requests + [request];
      UpdatedStep(fs, i, clock, ready);
      DeliverableDriver.PendingStep(fs, i);
      i := i + 1;
    }
  }

  /** A tick keeps every loaded flight's time stamps consistent with the next clock value. */
  lemma UpdatedKeepsTimes(fs: seq<Flight>, count: nat, clock: nat, ready: seq<bool>)
    requires DeliverableDriver.Consistent(fs, count, clock) && count <= |ready|
    ensures DeliverableDriver.Consistent(Updated(fs, count, clock, ready), count, clock + 1)
  {
    var gs := Updated(fs, count, clock, ready);
    forall k | 0 <= k < count
      ensures TimesConsistent(gs[k], clock + 1)
    {
      UpdateKeepsTimes(fs[k], clock, ready[k]);
      TimesConsistentLater(gs[k], clock, clock + 1);
    }
  }

  /** The airport a call is addressed to. */
  function RequestAirport(r: RunwayRequest): nat
    requires r != NoRequest
  {
    r.airport
  }

  /**
   * A tick keeps every flight between the same registered airports, and
   * every airport call it makes comes from a flight that consults the
   * runway at this tick and names that flight's origin or destination.
   */
  lemma RequestsRouted(fs: seq<Flight>, count: nat, clock: nat, ready: seq<bool>, airportCount: nat)
    requires DeliverableDriver.Routed(fs, count, airportCount) && count <= |ready|
    ensures DeliverableDriver.Routed(Updated(fs, count, clock, ready), count, airportCount)
    ensures var rs := Requests(fs, count, clock, ready);
            forall k :: 0 <= k < count && rs[k] != NoRequest ==>
              && AsksRunway(fs[k], clock)
              && (RequestAirport(rs[k]) == fs[k].origin || RequestAirport(rs[k]) == fs[k].destination)
              && RequestAirport(rs[k]) < airportCount
  {
    var rs := Requests(fs, count, clock, ready);
    forall k | 0 <= k < count && rs[k] != NoRequest
      ensures RequestAirport(rs[k]) == fs[k].origin || RequestAirport(rs[k]) == fs[k].destination
    {
      RunwayProtocol(fs[k], clock, ready[k]);
    }
  }

  /** Once every flight is complete, a tick changes no flight and calls no airport. */
  lemma SettledIdle(fs: seq<Flight>, count: nat, clock: nat, ready: seq<bool>)
    requires count <= |fs| && count <= |ready| && !DeliverableDriver.AnyPending(fs, count)
    ensures Updated(fs, count, clock, ready) == fs
    ensures forall k :: 0 <= k < count ==> Requests(fs, count, clock, ready)[k] == NoRequest
  {
    forall k | 0 <= k < count
      ensures UpdateStep(fs[k], clock, ready[k]) == Step(fs[k], NoRequest, false)
    {
      assert fs[k].state == Complete;
    }
  }

  /**
   * What holds from the end of input on, for the fields of
   * simulation_param_t given separately: a full flight table whose first
   * `count` flights travel between the `airportCount` airports with time
   * stamps consistent at `clock`, in a SIMULATE or SIMULATION_COMPLETE
   * state; in SIMULATION_COMPLETE every flight is complete, and `complete`
   * is set only in that state.
   */
  predicate RunningOn(fs: seq<Flight>, count: nat, airportCount: nat, clock: nat, state: SimState, complete: bool)
  {
    && |fs| == FLIGHT_MAX_COUNT
    && DeliverableDriver.Routed(fs, count, airportCount)
    && DeliverableDriver.Consistent(fs, count, clock)
    && state != ReadFlightInfo
    && (state == SimulationComplete ==> !DeliverableDriver.AnyPending(fs, count))
    && (complete ==> state == SimulationComplete)
  }

  /** RunningOn on the fields of `sim`, with one airport per registered code. */
  ghost predicate Running(sim: Simulation)
    reads sim, sim.flights
  {
    && |sim.airports| == |sim.codes|
    && RunningOn(sim.flights[..], sim.flightCount, |sim.codes|, sim.clock, sim.state, sim.complete)
  }

  /**
   * The "END" line of READ_FLIGHT_INFO: init_airport on every registered
   * airport, then SIMULATE. The flights stay in the order they were read.
   */
  method EndOfInput(sim: Simulation)
    requires sim.Loading() && sim.state == ReadFlightInfo && !sim.complete
    modifies sim
    ensures Running(sim) && sim.state == Simulate
    ensures |sim.airports| == |sim.codes| && TableValid(sim.airports) && fresh(TableRepr(sim.airports))
    ensures forall j :: 0 <= j < |sim.codes| ==> DeliverableDriver.Initialised(sim.airports[j], sim.codes[j])
    ensures sim.flights[..] == old(sim.flights[..]) && sim.flightCount == old(sim.flightCount)
    ensures sim.codes == old(sim.codes) && sim.clock == old(sim.clock) && !sim.complete
  {
    var airports := DeliverableDriver.InitAirports(sim.codes);
    sim.airports := airports;
    sim.state := Simulate;
  }

  /**
   * The SIMULATE state of main, RunwayReady answering `ready[k]` to flight
   * `k`: UpdateFlight on every loaded flight, then the clock advances. The
   * state becomes SIMULATE again when some flight was not complete at the
   * start of the tick, and SIMULATION_COMPLETE otherwise.
   */
  method Tick(sim: Simulation, ready: seq<bool>) returns (requests: seq<RunwayRequest>)
    requires Running(sim) && sim.state == Simulate && sim.flightCount <= |ready|
    modifies sim, sim.flights
    ensures Running(sim) && sim.flightCount == old(sim.flightCount)
    ensures sim.flights[..] == Updated(old(sim.flights[..]), sim.flightCount, old(sim.clock), ready)
    ensures requests == Requests(old(sim.flights[..]), sim.flightCount, old(sim.clock), ready)
    ensures sim.clock == old(sim.clock) + 1
    ensures sim.state == if DeliverableDriver.AnyPending(old(sim.flights[..]), sim.flightCount) then Simulate
                         else SimulationComplete
    ensures sim.airports == old(sim.airports)
    ensures sim.codes == old(sim.codes) && sim.complete == old(sim.complete)
  {
    var flights, count, clock := sim.flights, sim.flightCount, sim.clock;
    ghost var fs := flights[..];
    var state;
    state, requests := UpdatePass(flights, count, clock, ready);
    UpdatedKeepsTimes(fs, count, clock, ready);
    RequestsRouted(fs, count, clock, ready, |sim.codes|);
    if !DeliverableDriver.AnyPending(fs, count) {
      SettledIdle(fs, count, clock, ready);
    }
    sim.state := state;
    sim.clock := clock + 1;
  }

  /** The SIMULATION_COMPLETE state of main: sets `complete`. */
  method Finish(sim: Simulation)
    requires Running(sim) && sim.state == SimulationComplete
    modifies sim
    ensures Running(sim) && sim.complete
    ensures forall k :: 0 <= k < sim.flightCount ==> DeliverableDriver.Landed(sim.flights[k])
    ensures sim.flights[..] == old(sim.flights[..]) && sim.flightCount == old(sim.flightCount)
    ensures sim.clock == old(sim.clock) && sim.state == old(sim.state) && sim.codes == old(sim.codes)
    ensures sim.airports == old(sim.airports)
  {
    DeliverableDriver.SettledLanded(sim.flights[..], sim.flightCount, sim.clock);
    sim.complete := true;
  }

  /**
   * The loop of main from the end of input on, the i-th SIMULATE tick
   * getting RunwayReady's answers `answers[i]`; it runs until `complete` is
   * set or the answers run out. When `complete` is set, every loaded flight
   * is complete and none arrived before scheduled + flight + 2*TAXI_DURATION.
   */
  method RunSimulation(sim: Simulation, answers: seq<seq<bool>>) returns (ticks: nat)
    requires Running(sim)
    requires forall i :: 0 <= i < |answers| ==> sim.flightCount <= |answers[i]|
    modifies sim, sim.flights
    ensures Running(sim)
    ensures ticks <= |answers| && (!sim.complete ==> ticks == |answers|)
    ensures sim.complete ==> forall k :: 0 <= k < sim.flightCount ==> DeliverableDriver.Landed(sim.flights[k])
    ensures sim.flightCount == old(sim.flightCount) && sim.airports == old(sim.airports)
    ensures sim.clock == old(sim.clock) + ticks
  {
    ticks := 0;
    while !sim.complete && ticks < |answers|
      invariant Running(sim) && ticks <= |answers|
      invariant sim.flightCount == old(sim.flightCount) && sim.airports == old(sim.airports)
      invariant sim.clock == old(sim.clock) + ticks
      decreases |answers| - ticks, !sim.complete
    {
      if sim.state == Simulate {
        var requests := Tick(sim, answers[ticks]);
        ticks := ticks + 1;
      } else {
        Finish(sim);
      }
    }
    if sim.complete {
      DeliverableDriver.SettledLanded(sim.flights[..], sim.flightCount, sim.clock);
    }
  }
}
