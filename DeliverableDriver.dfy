/**
 * The driver of deliverable/atsim.c: sort_flights, the end of the input phase
 * (sort, then init_airport on every registered airport) and the SIMULATE
 * tick of main (update every flight, then manage every runway, then advance
 * the clock), run until a tick finds every flight complete.
 */
module DeliverableDriver {
  import opened Clock
  import opened Flights
  import opened Queue
  import opened Runway
  import opened DeliverableAirport
  import opened Simulation

  /**
   * memcmp over the CARRIER_ID_LENGTH carrier bytes: the sign of the first
   * difference, 0 when both codes are equal.
   */
  function CarrierCompare(a: CarrierId, b: CarrierId): (c: int)
    ensures -1 <= c <= 1
    ensures c == 0 <==> a == b
    ensures c < 0 <==> a[0] < b[0] || (a[0] == b[0] && a[1] < b[1])
  {
    if a[0] != b[0] then (if a[0] < b[0] then -1 else 1)
    else if a[1] != b[1] then (if a[1] < b[1] then -1 else 1)
    else assert a == b; 0
  }

  /** The swap test of sort_flights: a greater carrier, or the same carrier and a greater number. */
  predicate OutOfOrder(f: Flight, g: Flight)
  {
    var c := CarrierCompare(f.carrier, g.carrier);
    c > 0 || (c == 0 && f.number > g.number)
  }

  predicate InOrder(f: Flight, g: Flight)
  {
    !OutOfOrder(f, g)
  }

  /**
   * The order sort_flights establishes is the lexicographic order on the
   * first carrier byte, the second carrier byte and the flight number.
   */
  lemma InOrderIsLexicographic(f: Flight, g: Flight)
    ensures InOrder(f, g) <==>
              || f.carrier[0] < g.carrier[0]
              || (f.carrier[0] == g.carrier[0] && f.carrier[1] < g.carrier[1])
              || (f.carrier[0] == g.carrier[0] && f.carrier[1] == g.carrier[1] && f.number <= g.number)
  {
    if f.carrier[0] == g.carrier[0] && f.carrier[1] == g.carrier[1] {
      assert f.carrier == g.carrier;
    }
  }

  /** InOrder is a total preorder: total and transitive. */
  lemma InOrderTotal(f: Flight, g: Flight)
    ensures InOrder(f, g) || InOrder(g, f)
  {
    InOrderIsLexicographic(f, g);
    InOrderIsLexicographic(g, f);
  }

  lemma InOrderTransitive(f: Flight, g: Flight, h: Flight)
    requires InOrder(f, g) && InOrder(g, h)
    ensures InOrder(f, h)
  {
    InOrderIsLexicographic(f, g);
    InOrderIsLexicographic(g, h);
    InOrderIsLexicographic(f, h);
  }

  predicate Sorted(s: seq<Flight>)
  {
    forall k, l :: 0 <= k < l < |s| ==> InOrder(s[k], s[l])
  }

  /**
   * sort_flights: bubble sort of the first `count` flights by carrier, then
   * number. Each pass of the outer loop bubbles the greatest flight of the
   * unsorted prefix to its end; the slots from `count` on are not touched.
   */
  method SortFlights(flights: array<Flight>, count: nat)
    requires count <= flights.Length
    modifies flights
    ensures Sorted(flights[..count])
    ensures multiset(flights[..count]) == multiset(old(flights[..count]))
    ensures flights[count..] == old(flights[count..])
  {
    var i := 0;
    while i + 1 < count
      invariant i <= count
      invariant forall k, l :: count - i <= k < l < count ==> InOrder(flights[k], flights[l])
      invariant forall k, l :: 0 <= k < count - i <= l < count ==> InOrder(flights[k], flights[l])
      invariant multiset(flights[..count]) == multiset(old(flights[..count]))
      invariant flights[count..] == old(flights[count..])
    {
      BubblePass(flights, count, i);
      i := i + 1;
    }
    if count > 0 {
      assert count - i <= 1;
    }
  }

  /**
   * One pass of the outer loop of sort_flights: the inner loop bubbles the
   * greatest flight of the unsorted prefix `[0, count - i)` to its end, so
   * the sorted suffix grows by one.
   */
  method BubblePass(flights: array<Flight>, count: nat, i: nat)
    requires count <= flights.Length && i + 1 < count
    requires forall k, l :: count - i <= k < l < count ==> InOrder(flights[k], flights[l])
    requires forall k, l :: 0 <= k < count - i <= l < count ==> InOrder(flights[k], flights[l])
    modifies flights
    ensures forall k, l :: count - i - 1 <= k < l < count ==> InOrder(flights[k], flights[l])
    ensures forall k, l :: 0 <= k < count - i - 1 <= l < count ==> InOrder(flights[k], flights[l])
    ensures multiset(flights[..count]) == multiset(old(flights[..count]))
    ensures flights[count..] == old(flights[count..])
  {
    var j := 0;
    while j + 1 < count - i
      invariant j < count - i
      invariant forall k :: 0 <= k < j ==> InOrder(flights[k], flights[j])
      invariant forall k, l :: count - i <= k < l < count ==> InOrder(flights[k], flights[l])
      invariant forall k, l :: 0 <= k < count - i <= l < count ==> InOrder(flights[k], flights[l])
      invariant multiset(flights[..count]) == multiset(old(flights[..count]))
      invariant flights[count..] == old(flights[count..])
    {
      BubbleStep(flights, count, i, j);
      j := j + 1;
    }
  }

  /** One comparison of the inner loop of sort_flights, with the swap it may do. */
  method BubbleStep(flights: array<Flight>, count: nat, i: nat, j: nat)
    requires count <= flights.Length && j + 1 < count - i
    requires forall k :: 0 <= k < j ==> InOrder(flights[k], flights[j])
    requires forall k, l :: 0 <= k < count - i <= l < count ==> InOrder(flights[k], flights[l])
    modifies flights
    ensures forall k :: 0 <= k < j + 1 ==> InOrder(flights[k], flights[j + 1])
    ensures flights[..] == old(flights[..]) || flights[..] == old(flights[..])[j := old(flights[j + 1])][j + 1 := old(flights[j])]
    ensures forall k, l :: 0 <= k < count - i <= l < count ==> InOrder(flights[k], flights[l])
    ensures multiset(flights[..count]) == multiset(old(flights[..count]))
  {
    if OutOfOrder(flights[j], flights[j + 1]) {
      InOrderTotal(flights[j], flights[j + 1]);
      flights[j], flights[j + 1] := flights[j + 1], flights[j];
      assert flights[..count] == old(flights[..count])[j := old(flights[j + 1])][j + 1 := old(flights[j])];
    } else {
      forall k | 0 <= k < j
        ensures InOrder(flights[k], flights[j + 1])
      {
        InOrderTransitive(flights[k], flights[j], flights[j + 1]);
      }
    }
  }

  /**
   * What queue `q` of airport `j` holds while the simulation runs: flights
   * of the table, each at most once, each waiting for that very queue.
   */
  predicate QueueTracks(fs: seq<Flight>, count: nat, j: nat, q: QueueType, queue: seq<nat>)
  {
    && count <= |fs| && Distinct(queue)
    && forall k :: 0 <= k < |queue| ==> queue[k] < count && WaitingFor(fs[queue[k]], q, j)
  }

  /** Every queue of the airport table, given by its contents `qs`, tracks the flight table. */
  predicate Tracks(fs: seq<Flight>, count: nat, qs: seq<AirportView>)
  {
    forall j, q :: 0 <= j < |qs| ==> QueueTracks(fs, count, j, q, Select(qs[j], q))
  }

  /** Both airports of every loaded flight are in the table. */
  predicate Routed(fs: seq<Flight>, count: nat, airportCount: nat)
  {
    count <= |fs| && forall k :: 0 <= k < count ==> fs[k].origin < airportCount && fs[k].destination < airportCount
  }

  /**
   * The state the SIMULATE phase works on: at most FLIGHT_QUEUE_CAPACITY
   * flights, a valid airport table whose queues track the flights, and
   * every flight routed between airports of the table.
   */
  ghost predicate Scheduling(flights: array<Flight>, count: nat, airports: seq<Airport>)
    reads flights, TableRepr(airports)
  {
    && count <= flights.Length && count <= FLIGHT_QUEUE_CAPACITY
    && TableValid(airports)
    && Routed(flights[..], count, |airports|)
    && Tracks(flights[..], count, Snapshot(airports))
  }

  /** A flight waits in one queue only. */
  lemma WaitingForUnique(f: Flight, q: QueueType, j: nat, r: QueueType, k: nat)
    requires WaitingFor(f, q, j) && WaitingFor(f, r, k)
    ensures q == r && j == k
  {
  }

  /** A change to flight `i` that keeps it waiting wherever it is queued keeps the queue tracking. */
  lemma TrackFlightChange(fs: seq<Flight>, count: nat, j: nat, q: QueueType, queue: seq<nat>, i: nat, g: Flight)
    requires QueueTracks(fs, count, j, q, queue) && i < |fs|
    requires i in queue ==> WaitingFor(g, q, j)
    ensures QueueTracks(fs[i := g], count, j, q, queue)
  {
  }

  /** Queueing a flight that was in no queue and now waits for this one keeps it tracking. */
  lemma TrackJoin(fs: seq<Flight>, count: nat, j: nat, q: QueueType, queue: seq<nat>, i: nat, g: Flight)
    requires QueueTracks(fs, count, j, q, queue) && i < count
    requires i !in queue && WaitingFor(g, q, j)
    ensures QueueTracks(fs[i := g], count, j, q, queue + [i])
  {
    var queue' := queue + [i];
    assert forall k :: 0 <= k < |queue| ==> queue'[k] == queue[k];
  }

  /** Popping the front flight and admitting it keeps the rest of the queue tracking. */
  lemma TrackPop(fs: seq<Flight>, count: nat, j: nat, q: QueueType, queue: seq<nat>, clock: nat)
    requires QueueTracks(fs, count, j, q, queue) && |queue| > 0
    ensures var x := queue[0]; QueueTracks(fs[x := Admit(fs[x], clock)], count, j, q, queue[1..])
  {
    assert forall k :: 0 <= k < |queue| - 1 ==> queue[1..][k] == queue[k + 1];
  }

  /** Pigeonhole: distinct elements drawn from a set are no more than the set has. */
  lemma {:induction false} DistinctWithin(queue: seq<nat>, within: set<nat>)
    requires Distinct(queue) && forall k :: 0 <= k < |queue| ==> queue[k] in within
    ensures |queue| <= |within|
    decreases |queue|
  {
    if queue != [] {
      var last := queue[|queue| - 1];
      var rest := queue[..|queue| - 1];
      assert forall k :: 0 <= k < |rest| ==> rest[k] == queue[k];
      DistinctWithin(rest, within - {last});
    }
  }

  /** The flight indices below `n`. */
  function Below(n: nat): (r: set<nat>)
    ensures |r| == n
    ensures forall x: nat :: x in r <==> x < n
  {
    if n == 0 then {} else Below(n - 1) + {n - 1}
  }

  /**
   * Room for one more: a queue that tracks at most FLIGHT_QUEUE_CAPACITY
   * flights and does not hold flight `i` has fewer than
   * FLIGHT_QUEUE_CAPACITY entries, so enqueue can take `i`.
   */
  lemma QueueRoom(fs: seq<Flight>, count: nat, j: nat, q: QueueType, queue: seq<nat>, i: nat)
    requires QueueTracks(fs, count, j, q, queue) && i < count <= FLIGHT_QUEUE_CAPACITY
    requires i !in queue
    ensures |queue| < FLIGHT_QUEUE_CAPACITY
  {
    DistinctWithin(queue, Below(count) - {i});
  }

  /**
   * update_flight on flight `i` keeps the queues tracking the flights: the
   * flight joins a queue only when it starts to wait for it, and that queue
   * had room for it.
   */
  lemma UpdateKeepsTracks(fs: seq<Flight>, count: nat, qs: seq<AirportView>, i: nat, clock: nat)
    requires Tracks(fs, count, qs) && Routed(fs, count, |qs|) && i < count <= FLIGHT_QUEUE_CAPACITY
    ensures var s := UpdateStep(fs[i], clock);
            s.enqueue.Some? ==> |Select(qs[QueueAirport(fs[i], s.enqueue.value)], s.enqueue.value)| < FLIGHT_QUEUE_CAPACITY
    ensures var s := UpdateStep(fs[i], clock);
            Tracks(fs[i := s.flight], count,
                   if s.enqueue.Some? then Push(qs, QueueAirport(fs[i], s.enqueue.value), s.enqueue.value, i) else qs)
  {
    var s := UpdateStep(fs[i], clock);
    if s.enqueue.Some? {
      var p := s.enqueue.value;
      var target := QueueAirport(fs[i], p);
      QueueRoom(fs, count, target, p, Select(qs[target], p), i);
      var qs' := Push(qs, target, p, i);
      forall j, q | 0 <= j < |qs|
        ensures QueueTracks(fs[i := s.flight], count, j, q, Select(qs'[j], q))
      {
        if j == target && q == p {
          TrackJoin(fs, count, j, q, Select(qs[j], q), i, s.flight);
        } else {
          TrackFlightChange(fs, count, j, q, Select(qs[j], q), i, s.flight);
        }
      }
    } else {
      forall j, q | 0 <= j < |qs|
        ensures QueueTracks(fs[i := s.flight], count, j, q, Select(qs[j], q))
      {
        TrackFlightChange(fs, count, j, q, Select(qs[j], q), i, s.flight);
      }
    }
  }

  /**
   * manage_runway on airport `j` keeps the queues tracking the flights: the
   * flight it pops is a loaded one and the only one it changes.
   */
  lemma RunwayKeepsTracks(fs: seq<Flight>, count: nat, qs: seq<AirportView>, j: nat, clock: nat)
    requires Tracks(fs, count, qs) && j < |qs|
    ensures ViewFront(qs[j]).None? ==> Tracks(fs, count, qs[j := Served(qs[j])])
    ensures ViewFront(qs[j]).Some? ==>
              var x := ViewFront(qs[j]).value;
              x < count && Tracks(fs[x := Admit(fs[x], clock)], count, qs[j := Served(qs[j])])
  {
    var qs' := qs[j := Served(qs[j])];
    match ServedQueue(qs[j].last, |qs[j].departures|, |qs[j].arrivals|)
    case None =>
      assert qs' == qs;
    case Some(p) =>
      var x := Select(qs[j], p)[0];
      assert QueueTracks(fs, count, j, p, Select(qs[j], p));
      forall k, q | 0 <= k < |qs|
        ensures QueueTracks(fs[x := Admit(fs[x], clock)], count, k, q, Select(qs'[k], q))
      {
        if k == j && q == p {
          TrackPop(fs, count, j, p, Select(qs[j], p), clock);
        } else {
          if x in Select(qs[k], q) {
            WaitingForUnique(fs[x], p, j, q, k);
          }
          TrackFlightChange(fs, count, k, q, Select(qs[k], q), x, Admit(fs[x], clock));
        }
      }
  }

  /**
   * No flight is popped by two airports in one runway pass: the front of
   * an airport's served queue waits for that airport's runway only.
   */
  lemma FrontsDistinct(fs: seq<Flight>, count: nat, qs: seq<AirportView>)
    requires Tracks(fs, count, qs)
    ensures forall j, k :: 0 <= j < |qs| && 0 <= k < |qs| && Fronts(qs)[j].Some? && Fronts(qs)[j] == Fronts(qs)[k] ==>
              j == k
  {
    forall j, k | 0 <= j < |qs| && 0 <= k < |qs| && Fronts(qs)[j].Some? && Fronts(qs)[j] == Fronts(qs)[k]
      ensures j == k
    {
      var x := Fronts(qs)[j].value;
      var p :| ServedQueue(qs[j].last, |qs[j].departures|, |qs[j].arrivals|) == Some(p) && x == Select(qs[j], p)[0];
      var r :| ServedQueue(qs[k].last, |qs[k].departures|, |qs[k].arrivals|) == Some(r) && x == Select(qs[k], r)[0];
      assert QueueTracks(fs, count, j, p, Select(qs[j], p));
      assert QueueTracks(fs, count, k, r, Select(qs[k], r));
      WaitingForUnique(fs[x], p, j, r, k);
    }
  }

  /** Whether update_flight on `f` at `clock` queues it on queue `q` of airport `j`. */
  predicate JoinsQueue(f: Flight, clock: nat, j: nat, q: QueueType)
  {
    UpdateStep(f, clock).enqueue == Some(q) && QueueAirport(f, q) == j
  }

  /** Those of the first `n` flights that update_flight queues on queue `q` of airport `j`, in table order. */
  function Joiners(fs: seq<Flight>, n: nat, clock: nat, j: nat, q: QueueType): (r: seq<nat>)
    requires n <= |fs|
    ensures forall k :: 0 <= k < |r| ==> r[k] < n && JoinsQueue(fs[r[k]], clock, j, q)
    decreases n
  {
    if n == 0 then []
    else Joiners(fs, n - 1, clock, j, q) + (if JoinsQueue(fs[n - 1], clock, j, q) then [n - 1] else [])
  }

  /** Every flight that update_flight queues on queue `q` of airport `j` is among the joiners, and no other. */
  lemma {:induction false} JoinersExactly(fs: seq<Flight>, n: nat, clock: nat, j: nat, q: QueueType)
    requires n <= |fs|
    ensures forall k :: 0 <= k < n ==> (k in Joiners(fs, n, clock, j, q) <==> JoinsQueue(fs[k], clock, j, q))
    decreases n
  {
    if n > 0 {
      JoinersExactly(fs, n - 1, clock, j, q);
      var r := Joiners(fs, n - 1, clock, j, q);
      assert Joiners(fs, n, clock, j, q) == r + (if JoinsQueue(fs[n - 1], clock, j, q) then [n - 1] else []);
    }
  }

  /** The joiners come in table order, each after all that come before it in the table. */
  lemma {:induction false} JoinersIncreasing(fs: seq<Flight>, n: nat, clock: nat, j: nat, q: QueueType)
    requires n <= |fs|
    ensures forall a, b :: 0 <= a < b < |Joiners(fs, n, clock, j, q)| ==>
              Joiners(fs, n, clock, j, q)[a] < Joiners(fs, n, clock, j, q)[b]
    decreases n
  {
    if n > 0 {
      JoinersIncreasing(fs, n - 1, clock, j, q);
    }
  }

  /**
   * Airport `j`, in state `v` before the first loop, after update_flight ran
   * on the first `n` flights: each queue has gained, at its end and in table
   * order, the flights that start to wait for it; last_queue_type is
   * untouched.
   */
  function JoinedAirport(v: AirportView, fs: seq<Flight>, n: nat, clock: nat, j: nat): (r: AirportView)
    requires n <= |fs|
    ensures forall q :: Select(r, q) == Select(v, q) + Joiners(fs, n, clock, j, q)
    ensures r.last == v.last
  {
    AirportView(v.departures + Joiners(fs, n, clock, j, Departure),
                v.arrivals + Joiners(fs, n, clock, j, Arrival), v.last)
  }

  /** The airport table after update_flight ran on the first `n` flights. */
  function Joined(qs: seq<AirportView>, fs: seq<Flight>, n: nat, clock: nat): (r: seq<AirportView>)
    requires n <= |fs|
    ensures |r| == |qs|
    ensures forall j :: 0 <= j < |qs| ==> r[j] == JoinedAirport(qs[j], fs, n, clock, j)
  {
    seq(|qs|, j requires 0 <= j < |qs| => JoinedAirport(qs[j], fs, n, clock, j))
  }

  /** Before any update, no queue has gained a flight. */
  lemma JoinedNone(qs: seq<AirportView>, fs: seq<Flight>, clock: nat)
    ensures Joined(qs, fs, 0, clock) == qs
  {
    forall j | 0 <= j < |qs|
      ensures Joined(qs, fs, 0, clock)[j] == qs[j]
    {
      assert qs[j].departures + [] == qs[j].departures;
      assert qs[j].arrivals + [] == qs[j].arrivals;
    }
  }

  /** Updating flight `n` appends it to the one queue of airport `j` it joins, if any. */
  lemma JoinedAirportStep(v: AirportView, fs: seq<Flight>, n: nat, clock: nat, j: nat)
    requires n < |fs|
    ensures var w := JoinedAirport(v, fs, n, clock, j);
            JoinedAirport(v, fs, n + 1, clock, j) ==
              if JoinsQueue(fs[n], clock, j, Departure) then w.(departures := w.departures + [n])
              else if JoinsQueue(fs[n], clock, j, Arrival) then w.(arrivals := w.arrivals + [n])
              else w
  {
    var d := Joiners(fs, n, clock, j, Departure);
    var a := Joiners(fs, n, clock, j, Arrival);
    assert Joiners(fs, n + 1, clock, j, Departure) == d + (if JoinsQueue(fs[n], clock, j, Departure) then [n] else []);
    assert Joiners(fs, n + 1, clock, j, Arrival) == a + (if JoinsQueue(fs[n], clock, j, Arrival) then [n] else []);
    assert v.departures + (d + [n]) == (v.departures + d) + [n];
    assert v.arrivals + (a + [n]) == (v.arrivals + a) + [n];
    assert v.departures + (d + []) == v.departures + d;
    assert v.arrivals + (a + []) == v.arrivals + a;
  }

  /** Updating one more flight pushes it on the queue it joins, if any. */
  lemma JoinedStep(qs: seq<AirportView>, fs: seq<Flight>, n: nat, clock: nat)
    requires n < |fs|
    requires var s := UpdateStep(fs[n], clock); s.enqueue.Some? ==> QueueAirport(fs[n], s.enqueue.value) < |qs|
    ensures var s := UpdateStep(fs[n], clock);
            Joined(qs, fs, n + 1, clock) ==
              if s.enqueue.Some? then Push(Joined(qs, fs, n, clock), QueueAirport(fs[n], s.enqueue.value), s.enqueue.value, n)
              else Joined(qs, fs, n, clock)
  {
    var s := UpdateStep(fs[n], clock);
    var b := Joined(qs, fs, n + 1, clock);
    var c := if s.enqueue.Some? then Push(Joined(qs, fs, n, clock), QueueAirport(fs[n], s.enqueue.value), s.enqueue.value, n)
             else Joined(qs, fs, n, clock);
    forall j | 0 <= j < |qs|
      ensures b[j] == c[j]
    {
      JoinedAirportStep(qs[j], fs, n, clock, j);
    }
  }

  /**
   * update_flight on flight `i` as the SIMULATE loop calls it: the queue the
   * flight joins has room for it, and the queues keep tracking the flights.
   */
  method UpdateTracked(flights: array<Flight>, count: nat, airports: seq<Airport>, i: nat, clock: nat)
      returns (active: bool)
    requires Scheduling(flights, count, airports) && i < count
    modifies flights
    modifies airports[flights[i].origin].departures, airports[flights[i].origin].departures.buffer
    modifies airports[flights[i].destination].arrivals, airports[flights[i].destination].arrivals.buffer
    ensures Scheduling(flights, count, airports)
    ensures var s := UpdateStep(old(flights[i]), clock);
            && active == s.active && flights[..] == old(flights[..])[i := s.flight]
            && Snapshot(airports) ==
                 if s.enqueue.Some? then
                   Push(old(Snapshot(airports)), QueueAirport(old(flights[i]), s.enqueue.value), s.enqueue.value, i)
                 else old(Snapshot(airports))
  {
    ghost var fs := flights[..];
    ghost var qs := Snapshot(airports);
    ghost var s := UpdateStep(flights[i], clock);
    UpdateKeepsTracks(fs, count, qs, i, clock);
    if s.enqueue.Some? {
      var target := QueueAirport(fs[i], s.enqueue.value);
      assert Select(qs[target], s.enqueue.value) == airports[target].QueueOf(s.enqueue.value).Contents;
    }
    active := UpdateFlight(flights, i, airports, clock);
  }

  /**
   * manage_runway on airport `j` as the SIMULATE loop calls it: the airport
   * is served as `Served` says, the flight it admits is one of the table's,
   * and the queues keep tracking the flights.
   */
  method RunwayTracked(flights: array<Flight>, count: nat, airports: seq<Airport>, j: nat, clock: nat)
    requires Scheduling(flights, count, airports) && j < |airports|
    modifies airports[j], airports[j].departures, airports[j].arrivals, flights
    ensures Scheduling(flights, count, airports)
    ensures Snapshot(airports) == old(Snapshot(airports))[j := Served(old(Snapshot(airports))[j])]
    ensures old(Front(airports[j])).None? ==> flights[..] == old(flights[..])
    ensures old(Front(airports[j])).Some? ==>
              var x := old(Front(airports[j])).value;
              x < count && flights[..] == old(flights[..])[x := Admit(old(flights[x]), clock)]
  {
    ghost var fs := flights[..];
    ghost var qs := Snapshot(airports);
    RunwayKeepsTracks(fs, count, qs, j, clock);
    ManageRunwayAt(airports, j, flights, clock);
  }

  /** Whether some loaded flight is not complete yet. */
  predicate AnyPending(fs: seq<Flight>, count: nat)
  {
    exists k :: 0 <= k < count && k < |fs| && fs[k].state != Complete
  }

  /** Whether one of the first `i + 1` flights is pending, from the first `i`. */
  lemma PendingStep(fs: seq<Flight>, i: nat)
    requires i < |fs|
    ensures AnyPending(fs, i + 1) <==> AnyPending(fs, i) || fs[i].state != Complete
  {
    if AnyPending(fs, i + 1) && fs[i].state == Complete {
      var k :| 0 <= k < i + 1 && k < |fs| && fs[k].state != Complete;
      assert k < i;
    }
  }

  /** The flight table after update_flight ran on its first `n` flights. */
  function UpdatePrefix(fs: seq<Flight>, n: nat, clock: nat): (r: seq<Flight>)
    requires n <= |fs|
    ensures |r| == |fs|
  {
    seq(|fs|, k requires 0 <= k < |fs| => if k < n then UpdateStep(fs[k], clock).flight else fs[k])
  }

  /** Updating one more flight extends the updated prefix by one. */
  lemma UpdatePrefixStep(fs: seq<Flight>, n: nat, clock: nat)
    requires n < |fs|
    ensures UpdatePrefix(fs, n + 1, clock) == UpdatePrefix(fs, n, clock)[n := UpdateStep(fs[n], clock).flight]
  {
  }

  /**
   * `gs` is `fs` with some of the first `count` flights admitted at
   * `clock`: every flight is as it was or admitted.
   */
  predicate AdmittedFrom(fs: seq<Flight>, gs: seq<Flight>, count: nat, clock: nat)
  {
    && |gs| == |fs|
    && forall k :: 0 <= k < |fs| ==> gs[k] == fs[k] || (k < count && gs[k] == Admit(fs[k], clock))
  }

  /** Admitting one more loaded flight, possibly again, keeps the table admitted from `fs`. */
  lemma AdmitOneMore(fs: seq<Flight>, gs: seq<Flight>, count: nat, clock: nat, x: nat)
    requires AdmittedFrom(fs, gs, count, clock) && x < count && x < |gs|
    ensures AdmittedFrom(fs, gs[x := Admit(gs[x], clock)], count, clock)
  {
    AdmitIdempotent(fs[x], clock);
  }

  /**
   * The flight table after a runway pass popped `fronts`: each popped
   * flight admitted, every other flight as it was.
   */
  function AdmitFronts(fs: seq<Flight>, fronts: seq<Option<nat>>, clock: nat): (r: seq<Flight>)
    ensures |r| == |fs|
    ensures forall k :: 0 <= k < |fs| ==> r[k] == if Some(k) in fronts then Admit(fs[k], clock) else fs[k]
  {
    seq(|fs|, k requires 0 <= k < |fs| => if Some(k) in fronts then Admit(fs[k], clock) else fs[k])
  }

  /**
   * Popping one more front admits it on top of the earlier admissions;
   * admitting is idempotent, so a flight popped twice ends up as once.
   */
  lemma AdmitFrontsStep(fs: seq<Flight>, fronts: seq<Option<nat>>, n: nat, clock: nat)
    requires n < |fronts| && (fronts[n].Some? ==> fronts[n].value < |fs|)
    ensures var gs := AdmitFronts(fs, fronts[..n], clock);
            AdmitFronts(fs, fronts[..n + 1], clock) ==
              if fronts[n].Some? then gs[fronts[n].value := Admit(gs[fronts[n].value], clock)] else gs
  {
    assert fronts[..n + 1] == fronts[..n] + [fronts[n]];
    if fronts[n].Some? {
      AdmitIdempotent(fs[fronts[n].value], clock);
    }
  }

  /**
   * One more flight updated: table `cur` becomes `next` and flights
   * `before` become `after` as update_flight on flight `i` says.
   */
  lemma JoinOneMore(qs: seq<AirportView>, fs: seq<Flight>, i: nat, clock: nat,
                    cur: seq<AirportView>, next: seq<AirportView>, before: seq<Flight>, after: seq<Flight>)
    requires i < |fs| && cur == Joined(qs, fs, i, clock) && before == UpdatePrefix(fs, i, clock)
    requires var s := UpdateStep(fs[i], clock);
             && after == before[i := s.flight]
             && (s.enqueue.Some? ==> QueueAirport(fs[i], s.enqueue.value) < |cur|)
             && next == if s.enqueue.Some? then Push(cur, QueueAirport(fs[i], s.enqueue.value), s.enqueue.value, i) else cur
    ensures next == Joined(qs, fs, i + 1, clock)
    ensures after == UpdatePrefix(fs, i + 1, clock)
  {
    UpdatePrefixStep(fs, i, clock);
    JoinedStep(qs, fs, i, clock);
  }

  /** The flights a runway pass pops are loaded ones, so it admits loaded flights only. */
  lemma AdmitFrontsAdmitted(fs: seq<Flight>, count: nat, qs: seq<AirportView>, clock: nat)
    requires Tracks(fs, count, qs) && count <= |fs|
    ensures AdmittedFrom(fs, AdmitFronts(fs, Fronts(qs), clock), count, clock)
  {
    forall k | 0 <= k < |fs| && Some(k) in Fronts(qs)
      ensures k < count
    {
      var j :| 0 <= j < |qs| && Fronts(qs)[j] == Some(k);
      var p :| ServedQueue(qs[j].last, |qs[j].departures|, |qs[j].arrivals|) == Some(p) && k == Select(qs[j], p)[0];
      assert QueueTracks(fs, count, j, p, Select(qs[j], p));
    }
  }

  /**
   * One more airport served: table `cur` becomes `next` and flights
   * `before` become `after` as manage_runway on airport `j` says.
   */
  lemma ServeOneMore(qs: seq<AirportView>, j: nat, clock: nat, fs: seq<Flight>,
                     cur: seq<AirportView>, next: seq<AirportView>, before: seq<Flight>, after: seq<Flight>)
    requires j < |qs| && cur == ServePrefix(qs, j) && next == cur[j := Served(cur[j])]
    requires before == AdmitFronts(fs, Fronts(qs)[..j], clock)
    requires Fronts(qs)[j].None? ==> after == before
    requires Fronts(qs)[j].Some? ==>
               var x := Fronts(qs)[j].value; x < |fs| && after == before[x := Admit(before[x], clock)]
    ensures next == ServePrefix(qs, j + 1)
    ensures after == AdmitFronts(fs, Fronts(qs)[..j + 1], clock)
  {
    AdmitFrontsStep(fs, Fronts(qs), j, clock);
  }

  /** One iteration of the first loop: update_flight on flight `i` after the flights before it. */
  method UpdateNext(flights: array<Flight>, count: nat, airports: seq<Airport>, i: nat, clock: nat,
                    ghost fs: seq<Flight>, ghost qs: seq<AirportView>)
      returns (active: bool)
    requires Scheduling(flights, count, airports) && i < count
    requires |fs| == flights.Length && flights[..] == UpdatePrefix(fs, i, clock)
    requires Snapshot(airports) == Joined(qs, fs, i, clock)
    modifies flights, TableRepr(airports)
    ensures Scheduling(flights, count, airports)
    ensures flights[..] == UpdatePrefix(fs, i + 1, clock)
    ensures active <==> fs[i].state != Complete
    ensures Snapshot(airports) == Joined(qs, fs, i + 1, clock)
  {
    var origin := airports[flights[i].origin];
    var destination := airports[flights[i].destination];
    assert origin.Repr() <= TableRepr(airports);
    assert destination.Repr() <= TableRepr(airports);
    ghost var before := flights[..];
    ghost var cur := Snapshot(airports);
    assert before[i] == fs[i];
    active := UpdateTracked(flights, count, airports, i, clock);
    JoinOneMore(qs, fs, i, clock, cur, Snapshot(airports), before, flights[..]);
  }

  /**
   * The first loop of the SIMULATE state: update_flight on every loaded
   * flight in table order, each queue gaining the flights that start to
   * wait for it in that order. The state it leaves is SIMULATE when some
   * update returned true, that is when some flight was not complete yet,
   * and SIMULATION_COMPLETE otherwise.
   */
  method UpdatePass(flights: array<Flight>, count: nat, airports: seq<Airport>, clock: nat)
      returns (state: SimState)
    requires Scheduling(flights, count, airports)
    modifies flights, TableRepr(airports)
    ensures Scheduling(flights, count, airports)
    ensures flights[..] == UpdatePrefix(old(flights[..]), count, clock)
    ensures Snapshot(airports) == Joined(old(Snapshot(airports)), old(flights[..]), count, clock)
    ensures state == if AnyPending(old(flights[..]), count) then Simulate else SimulationComplete
  {
    ghost var fs := flights[..];
    ghost var qs := Snapshot(airports);
    JoinedNone(qs, fs, clock);
    state := SimulationComplete;
    var i := 0;
    while i < count
      invariant i <= count
      invariant Scheduling(flights, count, airports)
      invariant flights[..] == UpdatePrefix(fs, i, clock)
      invariant Snapshot(airports) == Joined(qs, fs, i, clock)
      invariant state == if AnyPending(fs, i) then Simulate else SimulationComplete
    {
      var active := UpdateNext(flights, count, airports, i, clock, fs, qs);
      if active {
        state := Simulate;
      }
      PendingStep(fs, i);
      i := i + 1;
    }
  }

  /**
   * One iteration of the second loop: manage_runway on airport `j` after
   * the airports before it, of table `qs` and flights `fs` as they were when
   * the loop began.
   */
  method RunwayNext(flights: array<Flight>, count: nat, airports: seq<Airport>, j: nat, clock: nat,
                    ghost fs: seq<Flight>, ghost qs: seq<AirportView>)
    requires Scheduling(flights, count, airports) && j < |airports|
    requires |fs| == flights.Length
    requires Snapshot(airports) == ServePrefix(qs, j)
    requires flights[..] == AdmitFronts(fs, Fronts(qs)[..j], clock)
    modifies flights, TableRepr(airports)
    ensures Scheduling(flights, count, airports)
    ensures Snapshot(airports) == ServePrefix(qs, j + 1)
    ensures flights[..] == AdmitFronts(fs, Fronts(qs)[..j + 1], clock)
  {
    assert airports[j].Repr() <= TableRepr(airports);
    assert Front(airports[j]) == Fronts(qs)[j];
    ghost var before := flights[..];
    ghost var cur := Snapshot(airports);
    RunwayTracked(flights, count, airports, j, clock);
    ServeOneMore(qs, j, clock, fs, cur, Snapshot(airports), before, flights[..]);
  }

  /**
   * The second loop of the SIMULATE state: manage_runway on every airport in
   * table order. Every airport is served as `Served` says and the flights
   * they pop are admitted, every other flight left as it was; only loaded
   * flights are admitted.
   */
  method RunwayPass(flights: array<Flight>, count: nat, airports: seq<Airport>, clock: nat)
    requires Scheduling(flights, count, airports)
    modifies flights, TableRepr(airports)
    ensures Scheduling(flights, count, airports)
    ensures Snapshot(airports) == ServePrefix(old(Snapshot(airports)), |airports|)
    ensures flights[..] == AdmitFronts(old(flights[..]), Fronts(old(Snapshot(airports))), clock)
    ensures AdmittedFrom(old(flights[..]), flights[..], count, clock)
  {
    ghost var fs := flights[..];
    ghost var qs := Snapshot(airports);
    assert ServePrefix(qs, 0) == qs;
    assert AdmitFronts(fs, Fronts(qs)[..0], clock) == fs;
    var j := 0;
    while j < |airports|
      invariant j <= |airports|
      invariant Scheduling(flights, count, airports)
      invariant Snapshot(airports) == ServePrefix(qs, j)
      invariant flights[..] == AdmitFronts(fs, Fronts(qs)[..j], clock)
    {
      RunwayNext(flights, count, airports, j, clock, fs, qs);
      j := j + 1;
    }
    assert Fronts(qs)[..|airports|] == Fronts(qs);
    AdmitFrontsAdmitted(fs, count, qs, clock);
  }

  /** Every flight from a permutation of `a` is one of `a`'s flights. */
  lemma PermutedFlight(a: seq<Flight>, b: seq<Flight>, k: nat)
    requires multiset(a) == multiset(b) && k < |b|
    ensures exists l :: 0 <= l < |a| && a[l] == b[k]
  {
    assert b[k] in multiset(b);
    assert b[k] in a;
  }

  /** `n` airports as init_airport leaves them: both queues empty, last_queue_type = DEPARTURE. */
  function NoQueues(n: nat): (r: seq<AirportView>)
    ensures |r| == n && forall j :: 0 <= j < n ==> r[j] == AirportView([], [], Departure)
  {
    seq(n, _ => AirportView([], [], Departure))
  }

  /** An airport as init_airport leaves it, with the code find_airport gave it. */
  ghost predicate Initialised(a: Airport, code: AirportCode)
    reads a, a.departures, a.arrivals
  {
    a.code == code && a.lastQueueType == Departure && a.departures.Contents == [] && a.arrivals.Contents == []
  }

  /** The next airport slot, initialised by init_airport. */
  method AddAirport(airports: seq<Airport>, code: AirportCode) returns (r: seq<Airport>)
    requires TableValid(airports)
    ensures |r| == |airports| + 1 && r[..|airports|] == airports
    ensures TableValid(r) && fresh(TableRepr(r) - TableRepr(airports))
    ensures Initialised(r[|airports|], code)
  {
    var a := new Airport(code);
    assert TableRepr(airports) !! a.Repr();
    TableAppend(airports, a);
    r := airports + [a];
    assert TableRepr(r) - TableRepr(airports) <= a.Repr();
  }

  /** A freshly initialised table has all its queues empty. */
  lemma InitialisedSnapshot(airports: seq<Airport>, codes: seq<AirportCode>)
    requires |airports| == |codes| && TableValid(airports)
    requires forall j :: 0 <= j < |codes| ==> Initialised(airports[j], codes[j])
    ensures Snapshot(airports) == NoQueues(|codes|)
  {
  }

  /**
   * init_airport on every registered airport: the airport table holds one
   * airport per code, in the order the codes were registered, each with
   * both queues empty and last_queue_type = DEPARTURE.
   */
  method InitAirports(codes: seq<AirportCode>) returns (airports: seq<Airport>)
    ensures |airports| == |codes| && TableValid(airports) && fresh(TableRepr(airports))
    ensures forall j :: 0 <= j < |codes| ==> Initialised(airports[j], codes[j])
  {
    airports := [];
    var j := 0;
    while j < |codes|
      invariant j <= |codes| && |airports| == j
      invariant TableValid(airports) && fresh(TableRepr(airports))
      invariant forall k :: 0 <= k < j ==> Initialised(airports[k], codes[k])
    {
      var r := AddAirport(airports, codes[j]);
      assert forall k :: 0 <= k < j ==> r[k] == airports[k];
      airports := r;
      j := j + 1;
    }
  }

  /** The time stamps of the first `count` flights are consistent at `clock`. */
  predicate Consistent(fs: seq<Flight>, count: nat, clock: nat)
  {
    count <= |fs| && forall k :: 0 <= k < count ==> TimesConsistent(fs[k], clock)
  }

  /** The tables a tick works on: scheduled, with consistent time stamps. */
  ghost predicate Ticking(flights: array<Flight>, count: nat, airports: seq<Airport>, clock: nat)
    reads flights, TableRepr(airports)
  {
    Scheduling(flights, count, airports) && Consistent(flights[..], count, clock)
  }

  /**
   * What holds from the end of input on, for the tables and the scalar
   * fields of simulation_param_t given separately: a full flight table
   * whose first `count` flights are scheduled over the airport table with
   * time stamps consistent at `clock`, in a SIMULATE or SIMULATION_COMPLETE
   * state; in SIMULATION_COMPLETE every flight is complete, and `complete`
   * is set only in that state.
   */
  ghost predicate RunningAt(flights: array<Flight>, count: nat, airports: seq<Airport>, clock: nat,
                            state: SimState, complete: bool)
    reads flights, TableRepr(airports)
  {
    && flights.Length == FLIGHT_MAX_COUNT
    && Ticking(flights, count, airports, clock)
    && state != ReadFlightInfo
    && (state == SimulationComplete ==> !AnyPending(flights[..], count))
    && (complete ==> state == SimulationComplete)
  }

  /** RunningAt on the fields of `sim`. */
  ghost predicate Running(sim: Simulation)
    reads sim, sim.flights, TableRepr(sim.airports)
  {
    RunningAt(sim.flights, sim.flightCount, sim.airports, sim.clock, sim.state, sim.complete)
  }

  /**
   * The tables at the end of input: sort_flights on the `count` loaded
   * flights, then init_airport on every registered airport. The loaded
   * flights, all in STAND_BY over registered airports, end up sorted and
   * ready to simulate from `clock`.
   */
  method PrepareTables(flights: array<Flight>, count: nat, codes: seq<AirportCode>, clock: nat,
                       ghost limit: nat)
      returns (airports: seq<Airport>)
    requires flights.Length == FLIGHT_MAX_COUNT && count <= FLIGHT_QUEUE_CAPACITY
    requires Loaded(flights[..], count, codes, limit, clock)
    modifies flights
    ensures RunningAt(flights, count, airports, clock, Simulate, false)
    ensures Sorted(flights[..count])
    ensures multiset(flights[..count]) == multiset(old(flights[..count]))
    ensures flights[count..] == old(flights[count..])
    ensures |airports| == |codes| && fresh(TableRepr(airports))
    ensures forall j :: 0 <= j < |codes| ==> Initialised(airports[j], codes[j])
  {
    ghost var fs := flights[..];
    assert fs[..count] == old(flights[..count]);
    SortFlights(flights, count);
    airports := InitAirports(codes);
    InitialisedSnapshot(airports, codes);
    forall k | 0 <= k < count
      ensures flights[k].state == StandBy
      ensures flights[k].origin < |airports| && flights[k].destination < |airports|
    {
      PermutedFlight(fs[..count], flights[..count], k);
      var l :| 0 <= l < count && fs[l] == flights[k];
    }
    assert Routed(flights[..], count, |airports|);
  }

  /**
   * The "end" line of READ_FLIGHT_INFO: sort_flights on the loaded flights,
   * init_airport on every registered airport, then SIMULATE. The flight
   * table is a sorted permutation of what was loaded, and the clock stays at
   * the earliest scheduled time.
   */
  method EndOfInput(sim: Simulation)
    requires sim.Loading() && sim.state == ReadFlightInfo && !sim.complete
    requires sim.flightCount <= FLIGHT_QUEUE_CAPACITY
    modifies sim, sim.flights
    ensures Running(sim) && sim.state == Simulate
    ensures Sorted(sim.flights[..sim.flightCount])
    ensures multiset(sim.flights[..sim.flightCount]) == multiset(old(sim.flights[..sim.flightCount]))
    ensures sim.flights[sim.flightCount..] == old(sim.flights[sim.flightCount..])
    ensures |sim.airports| == |sim.codes| && fresh(TableRepr(sim.airports))
    ensures forall j :: 0 <= j < |sim.codes| ==> Initialised(sim.airports[j], sim.codes[j])
    ensures sim.flightCount == old(sim.flightCount) && sim.codes == old(sim.codes)
    ensures sim.clock == old(sim.clock) && !sim.complete
  {
    var flights, count, codes, clock := sim.flights, sim.flightCount, sim.codes, sim.clock;
    var airports := PrepareTables(flights, count, codes, clock, sim.airportLimit);
    SimulationOutsideTable(airports, sim);
    sim.airports := airports;
    sim.state := Simulate;
    assert RunningAt(flights, count, airports, clock, Simulate, false);
  }

  /** A tick keeps every loaded flight's time stamps consistent with the next clock value. */
  lemma TickKeepsTimes(fs: seq<Flight>, gs: seq<Flight>, count: nat, clock: nat)
    requires Consistent(fs, count, clock)
    requires AdmittedFrom(UpdatePrefix(fs, count, clock), gs, count, clock)
    ensures Consistent(gs, count, clock + 1)
  {
    forall k | 0 <= k < count
      ensures TimesConsistent(gs[k], clock + 1)
    {
      var g := UpdateStep(fs[k], clock).flight;
      UpdateKeepsTimes(fs[k], clock);
      AdmitKeepsTimes(g, clock);
      TimesConsistentLater(gs[k], clock, clock + 1);
    }
  }

  /** A tick leaves complete flights complete. */
  lemma TickKeepsComplete(fs: seq<Flight>, gs: seq<Flight>, count: nat, clock: nat)
    requires count <= |fs| && !AnyPending(fs, count)
    requires AdmittedFrom(UpdatePrefix(fs, count, clock), gs, count, clock)
    ensures !AnyPending(gs, count)
  {
    forall k | 0 <= k < count
      ensures gs[k].state == Complete
    {
      assert fs[k].state == Complete;
    }
  }

  /**
   * What one tick does to the tables, given as values before (`fs`, `qs`)
   * and after (`gs`, `rs`): every queue gains the flights that start to
   * wait for it, then every airport is served, and every flight is updated
   * and then admitted exactly when an airport popped it.
   */
  predicate TickEffect(fs: seq<Flight>, qs: seq<AirportView>, count: nat, clock: nat,
                       gs: seq<Flight>, rs: seq<AirportView>)
    requires count <= |fs|
  {
    var joined := Joined(qs, fs, count, clock);
    && rs == ServePrefix(joined, |qs|)
    && gs == AdmitFronts(UpdatePrefix(fs, count, clock), Fronts(joined), clock)
  }

  /** The simulation parameters are not part of any airport. */
  lemma SimulationOutsideTable(airports: seq<Airport>, sim: Simulation)
    ensures sim !in TableRepr(airports)
  {
  }

  /**
   * The two loops of the SIMULATE state on the flight and airport tables at
   * tick `clock`: every loaded flight is updated and then possibly
   * admitted, and the state returned is SIMULATE when some flight was not
   * complete yet.
   */
  method SimulateTick(flights: array<Flight>, count: nat, airports: seq<Airport>, clock: nat)
      returns (state: SimState)
    requires RunningAt(flights, count, airports, clock, Simulate, false)
    modifies flights, TableRepr(airports)
    ensures RunningAt(flights, count, airports, clock + 1, state, false)
    ensures state == if AnyPending(old(flights[..]), count) then Simulate else SimulationComplete
    ensures AdmittedFrom(UpdatePrefix(old(flights[..]), count, clock), flights[..], count, clock)
    ensures TickEffect(old(flights[..]), old(Snapshot(airports)), count, clock, flights[..], Snapshot(airports))
  {
    ghost var fs := flights[..];
    state := UpdatePass(flights, count, airports, clock);
    RunwayPass(flights, count, airports, clock);
    TickKeepsTimes(fs, flights[..], count, clock);
    if !AnyPending(fs, count) {
      TickKeepsComplete(fs, flights[..], count, clock);
    }
  }

  /**
   * The SIMULATE state of main: update every loaded flight, then manage
   * every runway, then advance the clock. The state becomes SIMULATE again
   * when some flight was not complete at the start of the tick, and
   * SIMULATION_COMPLETE otherwise; each flight is updated and then possibly
   * admitted to a runway.
   */
  method Tick(sim: Simulation)
    requires Running(sim) && sim.state == Simulate
    modifies sim, sim.flights, TableRepr(sim.airports)
    ensures Running(sim)
    ensures sim.clock == old(sim.clock) + 1
    ensures sim.state == if AnyPending(old(sim.flights[..]), sim.flightCount) then Simulate else SimulationComplete
    ensures AdmittedFrom(UpdatePrefix(old(sim.flights[..]), sim.flightCount, old(sim.clock)), sim.flights[..],
                         sim.flightCount, old(sim.clock))
    ensures TickEffect(old(sim.flights[..]), old(Snapshot(sim.airports)), sim.flightCount, old(sim.clock),
                       sim.flights[..], Snapshot(sim.airports))
    ensures sim.flightCount == old(sim.flightCount) && sim.airports == old(sim.airports)
    ensures sim.codes == old(sim.codes) && sim.complete == old(sim.complete)
  {
    var flights, count, airports, clock := sim.flights, sim.flightCount, sim.airports, sim.clock;
    SimulationOutsideTable(airports, sim);
    ghost var fs, qs := flights[..], Snapshot(airports);
    var state := SimulateTick(flights, count, airports, clock);
    ghost var gs, rs := flights[..], Snapshot(airports);
    assert TickEffect(fs, qs, count, clock, gs, rs);
    EndTick(sim, state);
    assert flights[..] == gs && Snapshot(airports) == rs;
  }

  /** The end of a SIMULATE tick: the state the loops computed, then `sim.clock++`. */
  method EndTick(sim: Simulation, state: SimState)
    requires RunningAt(sim.flights, sim.flightCount, sim.airports, sim.clock + 1, state, false) && !sim.complete
    modifies sim
    ensures Running(sim) && sim.state == state && sim.clock == old(sim.clock) + 1
    ensures sim.flightCount == old(sim.flightCount) && sim.airports == old(sim.airports)
    ensures sim.codes == old(sim.codes) && sim.complete == old(sim.complete)
  {
    var flights, count, airports, clock := sim.flights, sim.flightCount, sim.airports, sim.clock;
    SimulationOutsideTable(airports, sim);
    sim.state, sim.clock := state, clock + 1;
    assert RunningAt(flights, count, airports, clock + 1, state, false);
  }

  /** A completed flight with consistent stamps arrived no earlier than expected. */
  predicate Landed(f: Flight)
  {
    f.state == Complete && ExpectedArrival(f.time) <= f.time.arrival
  }

  /** Once no flight is pending, every loaded flight has landed no earlier than expected. */
  lemma SettledLanded(fs: seq<Flight>, count: nat, clock: nat)
    requires Consistent(fs, count, clock) && !AnyPending(fs, count)
    ensures forall k :: 0 <= k < count ==> Landed(fs[k])
  {
    forall k | 0 <= k < count
      ensures Landed(fs[k])
    {
      assert fs[k].state == Complete;
    }
  }

  /** The SIMULATION_COMPLETE state of main: sets `complete`. */
  method Finish(sim: Simulation)
    requires Running(sim) && sim.state == SimulationComplete
    modifies sim
    ensures Running(sim) && sim.complete
    ensures forall k :: 0 <= k < sim.flightCount ==> Landed(sim.flights[k])
    ensures sim.flightCount == old(sim.flightCount) && sim.airports == old(sim.airports)
    ensures sim.clock == old(sim.clock) && sim.state == old(sim.state) && sim.codes == old(sim.codes)
  {
    var flights, count, airports, clock := sim.flights, sim.flightCount, sim.airports, sim.clock;
    SimulationOutsideTable(airports, sim);
    SettledLanded(flights[..], count, clock);
    sim.complete := true;
    assert RunningAt(flights, count, airports, clock, SimulationComplete, true);
  }

  /**
   * The loop of main from the end of input on, for at most `fuel` passes:
   * SIMULATE runs a tick, SIMULATION_COMPLETE sets `complete`. When the loop
   * ends with `complete` set, every loaded flight is complete and none
   * arrived before scheduled + flight + 2*TAXI_DURATION.
   */
  method RunSimulation(sim: Simulation, fuel: nat) returns (passes: nat)
    requires Running(sim)
    modifies sim, sim.flights, TableRepr(sim.airports)
    ensures Running(sim)
    ensures passes <= fuel && (!sim.complete ==> passes == fuel)
    ensures sim.complete ==> forall k :: 0 <= k < sim.flightCount ==> Landed(sim.flights[k])
    ensures sim.flightCount == old(sim.flightCount) && sim.airports == old(sim.airports)
    ensures sim.clock >= old(sim.clock)
  {
    passes := 0;
    while !sim.complete && passes < fuel
      invariant Running(sim) && passes <= fuel
      invariant sim.flightCount == old(sim.flightCount) && sim.airports == old(sim.airports)
      invariant sim.clock >= old(sim.clock)
    {
      if sim.state == Simulate {
        Tick(sim);
      } else {
        Finish(sim);
      }
      passes := passes + 1;
    }
    if sim.complete {
      SettledLanded(sim.flights[..], sim.flightCount, sim.clock);
    }
  }
}
