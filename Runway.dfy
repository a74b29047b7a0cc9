/**
 * An airport and its runway admission policy, common to src/airport.c and
 * deliverable/airport.c: two flight queues (departures, arrivals) and the kind
 * of queue served last. Each call to manage_runway admits at most one flight:
 * it tries the queue after last_queue_type first, falls back to the other one,
 * and remembers the queue it served.
 */
module Runway {
  import opened Flights
  import opened Queue

  /** The number of flights waiting in the queue of kind `q`. */
  function Pending(q: QueueType, departures: nat, arrivals: nat): nat
  {
    if q == Departure then departures else arrivals
  }

  /**
   * The queue manage_runway pops from, given the kind served last and the two
   * queue sizes; None when it admits nobody.
   */
  function ServedQueue(last: QueueType, departures: nat, arrivals: nat): (served: Option<QueueType>)
    ensures served.None? <==> departures == 0 && arrivals == 0
    ensures served.Some? ==> Pending(served.value, departures, arrivals) > 0
    ensures Pending(NextQueueType(last), departures, arrivals) > 0 ==> served == Some(NextQueueType(last))
    ensures (Pending(NextQueueType(last), departures, arrivals) == 0 && Pending(last, departures, arrivals) > 0) ==>
              served == Some(last)
  {
    var first := NextQueueType(last);
    if Pending(first, departures, arrivals) != EMPTY_QUEUE then Some(first)
    else
      var second := NextQueueType(first);
      if Pending(second, departures, arrivals) != EMPTY_QUEUE then Some(second) else None
  }

  /** last_queue_type after the call: the queue served, or unchanged. */
  function LastServed(last: QueueType, departures: nat, arrivals: nat): QueueType
  {
    match ServedQueue(last, departures, arrivals)
    case Some(q) => q
    case None => last
  }

  /**
   * Fairness: when both queues hold flights on two consecutive calls, the two
   * calls serve different queues.
   */
  lemma AlternatesUnderDemand(last: QueueType, d1: nat, a1: nat, d2: nat, a2: nat)
    requires d1 > 0 && a1 > 0 && d2 > 0 && a2 > 0
    ensures ServedQueue(last, d1, a1).Some? && ServedQueue(LastServed(last, d1, a1), d2, a2).Some?
    ensures ServedQueue(last, d1, a1) != ServedQueue(LastServed(last, d1, a1), d2, a2)
  {
  }

  /**
   * No starvation: a queue that holds flights on two consecutive calls is
   * served by one of them.
   */
  lemma ServedWithinTwoCalls(q: QueueType, last: QueueType, d1: nat, a1: nat, d2: nat, a2: nat)
    requires Pending(q, d1, a1) > 0 && Pending(q, d2, a2) > 0
    ensures ServedQueue(last, d1, a1) == Some(q) || ServedQueue(LastServed(last, d1, a1), d2, a2) == Some(q)
  {
  }

  /** The sizes the two queues have at one call. */
  datatype Demand = Demand(departures: nat, arrivals: nat)

  /** The queues served by consecutive calls facing the given demands. */
  function ServedSequence(last: QueueType, demands: seq<Demand>): (served: seq<Option<QueueType>>)
    ensures |served| == |demands|
    decreases |demands|
  {
    if demands == [] then []
    else
      var d := demands[0];
      [ServedQueue(last, d.departures, d.arrivals)]
        + ServedSequence(LastServed(last, d.departures, d.arrivals), demands[1..])
  }

  /**
   * Strict round robin: over any run of calls that all find both queues
   * non-empty, the calls serve NextQueueType(last), last, NextQueueType(last),
   * ... so no queue is served twice in a row.
   */
  lemma {:induction false} RoundRobinUnderDemand(last: QueueType, demands: seq<Demand>)
    requires forall k :: 0 <= k < |demands| ==> demands[k].departures > 0 && demands[k].arrivals > 0
    ensures forall k :: 0 <= k < |demands| ==>
              ServedSequence(last, demands)[k] == Some(if k % 2 == 0 then NextQueueType(last) else last)
    ensures forall k :: 0 <= k < |demands| - 1 ==>
              ServedSequence(last, demands)[k] != ServedSequence(last, demands)[k + 1]
    decreases |demands|
  {
    if demands != [] {
      var d := demands[0];
      var next := LastServed(last, d.departures, d.arrivals);
      assert next == NextQueueType(last);
      RoundRobinUnderDemand(next, demands[1..]);
      var rest := ServedSequence(next, demands[1..]);
      assert ServedSequence(last, demands) == [Some(next)] + rest;
      assert NextQueueType(next) == last;
      forall k | 0 <= k < |demands|
        ensures ServedSequence(last, demands)[k] == Some(if k % 2 == 0 then NextQueueType(last) else last)
      {
        if k > 0 {
          assert ServedSequence(last, demands)[k] == rest[k - 1];
        }
      }
    }
  }

  /** airport_t: two queues, the airport code and last_queue_type. */
  class Airport {
    const code: AirportCode
    const departures: FlightQueue
    const arrivals: FlightQueue
    var lastQueueType: QueueType

    /** The objects that make up this airport. */
    function Repr(): set<object>
    {
      {this, departures, departures.buffer, arrivals, arrivals.buffer}
    }

    ghost predicate Valid()
      reads Repr()
    {
      && departures != arrivals && departures.buffer != arrivals.buffer
      && departures.Valid() && arrivals.Valid()
    }

    /** The queue of kind `q`, as the `queues[QUEUE_TYPES]` array of manage_runway selects it. */
    function QueueOf(q: QueueType): FlightQueue
    {
      if q == Departure then departures else arrivals
    }

    /** The flights in the queue of kind `q`, oldest first. */
    ghost function Waiting(q: QueueType): seq<nat>
      reads Repr()
    {
      QueueOf(q).Contents
    }

    /**
     * init_airport: both queues empty and last_queue_type = DEPARTURE, so the
     * first admission looks at the arrivals queue first. The code is the one
     * find_airport recorded for this table slot.
     */
    constructor (code: AirportCode)
      ensures Valid()
      ensures fresh(departures) && fresh(arrivals) && fresh(departures.buffer) && fresh(arrivals.buffer)
      ensures this.code == code && lastQueueType == Departure
      ensures departures.Contents == [] && arrivals.Contents == []
    {
      this.code := code;
      var d := new FlightQueue();
      var a := new FlightQueue();
      assert d.Valid() && d.Contents == [];
      assert a.Valid() && a.Contents == [];
      departures, arrivals := d, a;
      lastQueueType := Departure;
    }

    /**
     * The first half of manage_runway: pops the front flight of the queue
     * after last_queue_type, or else of the other queue, and records the
     * queue served; with both queues empty nothing changes.
     */
    method PopRunway() returns (front: Option<nat>)
      requires Valid()
      modifies this, departures, arrivals
      ensures Valid()
      ensures var served := ServedQueue(old(lastQueueType), old(|departures.Contents|), old(|arrivals.Contents|));
              && (served.None? <==> front.None?)
              && (served.Some? ==> front == Some(old(QueueOf(served.value).Contents[0])))
              && lastQueueType == (if served.Some? then served.value else old(lastQueueType))
              && (forall q :: QueueOf(q).Contents ==
                    if served == Some(q) then old(QueueOf(q).Contents)[1..] else old(QueueOf(q).Contents))
    {
      var current := NextQueueType(lastQueueType);
      front := None;
      var queue := QueueOf(current);
      if queue.Size() != EMPTY_QUEUE {
        front := Some(queue.Peek());
        queue.Dequeue();
      } else {
        current := NextQueueType(current);
        queue := QueueOf(current);
        if queue.Size() != EMPTY_QUEUE {
          front := Some(queue.Peek());
          queue.Dequeue();
        }
      }
      if front.Some? {
        lastQueueType := current;
      }
    }

    /** queue_departure: enqueue on the departures queue. */
    method QueueDeparture(flight: nat)
      requires Valid() && |departures.Contents| < FLIGHT_QUEUE_CAPACITY
      modifies departures, departures.buffer
      ensures Valid()
      ensures departures.Contents == old(departures.Contents) + [flight]
    {
      departures.Enqueue(flight);
    }

    /** queue_arrival: enqueue on the arrivals queue. */
    method QueueArrival(flight: nat)
      requires Valid() && |arrivals.Contents| < FLIGHT_QUEUE_CAPACITY
      modifies arrivals, arrivals.buffer
      ensures Valid()
      ensures arrivals.Contents == old(arrivals.Contents) + [flight]
    {
      arrivals.Enqueue(flight);
    }
  }

  /** All objects of the airport table. */
  ghost function TableRepr(airports: seq<Airport>): set<object>
  {
    set j, o | 0 <= j < |airports| && o in airports[j].Repr() :: o
  }

  /** No two airports of the table share an object. */
  predicate TableDisjoint(airports: seq<Airport>)
  {
    forall j, k :: 0 <= j < |airports| && 0 <= k < |airports| && j != k ==>
      airports[j].Repr() !! airports[k].Repr()
  }

  /** Every airport of the table is valid and no two share an object. */
  ghost predicate TableValid(airports: seq<Airport>)
    reads TableRepr(airports)
  {
    && TableDisjoint(airports)
    && (forall j :: 0 <= j < |airports| ==> airports[j].Valid())
  }

  /** An airport as values: the contents of its two queues and last_queue_type. */
  datatype AirportView = AirportView(departures: seq<nat>, arrivals: seq<nat>, last: QueueType)

  function Select(v: AirportView, q: QueueType): seq<nat>
  {
    if q == Departure then v.departures else v.arrivals
  }

  /** The airport `a` as a value. */
  ghost function View(a: Airport): (v: AirportView)
    reads a.Repr()
    ensures forall q :: Select(v, q) == a.Waiting(q)
  {
    AirportView(a.departures.Contents, a.arrivals.Contents, a.lastQueueType)
  }

  /** The flight manage_runway pops from an airport in state `v`, if any. */
  function ViewFront(v: AirportView): (front: Option<nat>)
    ensures front.None? <==> v.departures == [] && v.arrivals == []
    ensures front.Some? ==> exists q :: ServedQueue(v.last, |v.departures|, |v.arrivals|) == Some(q) && front.value == Select(v, q)[0]
  {
    match ServedQueue(v.last, |v.departures|, |v.arrivals|)
    case Some(q) => Some(Select(v, q)[0])
    case None => None
  }

  /**
   * An airport in state `v` after manage_runway: the queue ServedQueue
   * chooses loses its front flight and becomes last_queue_type; with both
   * queues empty nothing changes.
   */
  function Served(v: AirportView): (r: AirportView)
    ensures r.last == LastServed(v.last, |v.departures|, |v.arrivals|)
    ensures forall q :: Select(r, q) ==
              if ServedQueue(v.last, |v.departures|, |v.arrivals|) == Some(q) then Select(v, q)[1..] else Select(v, q)
  {
    match ServedQueue(v.last, |v.departures|, |v.arrivals|)
    case Some(q) =>
      if q == Departure then AirportView(v.departures[1..], v.arrivals, q) else AirportView(v.departures, v.arrivals[1..], q)
    case None => v
  }

  /**
   * manage_runway removes exactly the flight it admits: the two queues of
   * the served airport hold, between them, what they held before less that
   * one flight.
   */
  lemma ServedRemovesFront(v: AirportView)
    ensures ViewFront(v).None? ==> Served(v) == v
    ensures ViewFront(v).Some? ==>
              multiset(v.departures) + multiset(v.arrivals) ==
              multiset(Served(v).departures) + multiset(Served(v).arrivals) + multiset{ViewFront(v).value}
  {
    var r := Served(v);
    match ServedQueue(v.last, |v.departures|, |v.arrivals|)
    case Some(q) =>
      var s := Select(v, q);
      assert s == [s[0]] + s[1..];
      assert Select(r, q) == s[1..];
    case None =>
  }

  /** The flight manage_runway would pop from this airport now, if any. */
  ghost function Front(a: Airport): (front: Option<nat>)
    reads a.Repr()
  {
    ViewFront(View(a))
  }

  /** The state of every airport of the table, as values. */
  ghost function Snapshot(airports: seq<Airport>): (r: seq<AirportView>)
    reads TableRepr(airports)
    ensures |r| == |airports|
    ensures forall j :: 0 <= j < |airports| ==>
              r[j] == AirportView(airports[j].departures.Contents, airports[j].arrivals.Contents, airports[j].lastQueueType)
  {
    seq(|airports|, j requires 0 <= j < |airports| reads TableRepr(airports) => View(airports[j]))
  }

  /** The snapshot after `x` joins queue `q` of airport `j`. */
  function Push(qs: seq<AirportView>, j: nat, q: QueueType, x: nat): (r: seq<AirportView>)
    requires j < |qs|
    ensures |r| == |qs|
    ensures forall k, p :: 0 <= k < |qs| ==>
              Select(r[k], p) == Select(qs[k], p) + (if k == j && p == q then [x] else [])
    ensures forall k :: 0 <= k < |qs| ==> r[k].last == qs[k].last
  {
    var e := qs[j];
    qs[j := if q == Departure then e.(departures := e.departures + [x]) else e.(arrivals := e.arrivals + [x])]
  }

  /** The snapshot after manage_runway ran on the first `n` airports, in table order. */
  function ServePrefix(qs: seq<AirportView>, n: nat): (r: seq<AirportView>)
    ensures |r| == |qs|
    ensures forall k :: 0 <= k < |qs| ==> r[k] == if k < n then Served(qs[k]) else qs[k]
  {
    seq(|qs|, k requires 0 <= k < |qs| => if k < n then Served(qs[k]) else qs[k])
  }

  /** The flights manage_runway pops, airport by airport. */
  function Fronts(qs: seq<AirportView>): (r: seq<Option<nat>>)
    ensures |r| == |qs| && forall j :: 0 <= j < |qs| ==> r[j] == ViewFront(qs[j])
  {
    seq(|qs|, j requires 0 <= j < |qs| => ViewFront(qs[j]))
  }

  /** The flight table is not part of any airport. */
  lemma FlightsOutsideTable(airports: seq<Airport>, flights: array<Flight>)
    ensures flights !in TableRepr(airports)
  {
  }

  /** Nor is the plane table. */
  lemma PlanesOutsideTable(airports: seq<Airport>, planes: array<Plane>)
    ensures planes !in TableRepr(airports)
  {
  }

  /** A valid airport apart from all others extends a valid table. */
  lemma TableAppend(airports: seq<Airport>, a: Airport)
    requires TableValid(airports) && a.Valid() && TableRepr(airports) !! a.Repr()
    ensures TableValid(airports + [a])
    ensures TableRepr(airports + [a]) == TableRepr(airports) + a.Repr()
  {
    var t := airports + [a];
    assert forall k :: 0 <= k < |airports| ==> t[k] == airports[k];
    assert t[|airports|] == a;
    forall k | 0 <= k < |airports|
      ensures airports[k].Repr() !! a.Repr()
    {
      assert airports[k].Repr() <= TableRepr(airports);
    }
  }

  /** A change outside the airport table leaves every airport as it was. */
  twostate lemma TableUnchanged(airports: seq<Airport>)
    requires old(TableValid(airports))
    requires unchanged(TableRepr(airports))
    ensures TableValid(airports)
    ensures Snapshot(airports) == old(Snapshot(airports))
  {
    forall j | 0 <= j < |airports|
      ensures airports[j].Valid()
      ensures Snapshot(airports)[j] == old(Snapshot(airports))[j]
    {
      assert old(airports[j].Valid());
      assert unchanged(airports[j].Repr());
    }
  }

  /**
   * queue_departure (q = Departure) or queue_arrival (q = Arrival) on airport
   * `j` of the table: that queue gains the flight at its end and every other
   * queue of the table is unchanged.
   */
  method QueueAt(airports: seq<Airport>, j: nat, q: QueueType, flight: nat)
    requires j < |airports| && TableValid(airports)
    requires |airports[j].QueueOf(q).Contents| < FLIGHT_QUEUE_CAPACITY
    modifies airports[j].QueueOf(q), airports[j].QueueOf(q).buffer
    ensures TableValid(airports)
    ensures Snapshot(airports) == Push(old(Snapshot(airports)), j, q, flight)
  {
    if q == Departure {
      airports[j].QueueDeparture(flight);
    } else {
      airports[j].QueueArrival(flight);
    }
    forall k | 0 <= k < |airports| && k != j
      ensures airports[k].Valid() && unchanged(airports[k].Repr())
    {
      assert airports[k].Repr() !! airports[j].Repr();
    }
    assert forall k :: 0 <= k < |airports| ==>
             Snapshot(airports)[k] == Push(old(Snapshot(airports)), j, q, flight)[k];
  }
}
