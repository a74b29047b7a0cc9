# atsim: the air-traffic scheduling core, in Dafny

atsim reads a list of flights (carrier, number, id, origin, departure time,
flight time, destination) and then runs a simulation clock, one minute at a time.
Each flight goes through a fixed lifecycle:

- STAND_BY
- DEPARTURE_TAXI
- WAIT_TO_TAKEOFF
- EN_ROUTE
- WAIT_TO_LAND
- ARRIVAL_TAXI
- COMPLETE

Each airport has one runway. It admits at most one waiting flight per tick,
alternating between its departure queue and its arrival queue. The repository
holds two versions of this core, and both are modelled:

- `deliverable/`: flights queue themselves, and the airports admit them from
  ring-buffer queues. `deliverable/atsim.c` sorts the flights before the
  simulation starts.
- `src/`: one variant of `update_flight` (`src/airport.c`) adds planes that must
  be parked and groomed before a flight may leave. Another (`src/flight.c`)
  asks the airport whether the runway is ready. The driver `src/atsim.c` runs
  that second variant.

Modules, one per file:

- `Clock`: the conversions between clock and time of day.
- `Flights`: flight, plane and queue types; the delay arithmetic; the
  time-stamp invariant.
- `Queue`: the ring buffer of `deliverable/queue.c`, as a class over an array.
- `Runway`: the admission policy as a function, with its fairness lemmas. Also
  the airport class and the airport table.
- `DeliverableAirport`: `manage_runway` and `update_flight` of
  `deliverable/airport.c`.
- `PlaneAirport`: the plane-aware `manage_runway` and `update_flight` of
  `src/airport.c`.
- `FlightUpdate`: `UpdateFlight` of `src/flight.c`.
- `Simulation`: `simulation_param_t` and the input phase. Reading is the same
  in both drivers.
- `DeliverableDriver`: `sort_flights`, the end of input and the SIMULATE tick
  of `deliverable/atsim.c`.
- `SrcDriver`: the end of input and the SIMULATE tick of `src/atsim.c`.

Representation choices:

- Flights, airports and planes are indices into their tables; the source uses
  pointers. An airport is a class, because `manage_runway` and the queue
  wrappers update it in place. Each queue's contents are a ghost sequence
  tied to the array and the head and tail indices.
- Every function that changes state is a method. Each method is proved
  against a pure function that says what the step does: `UpdateStep`, `Admit`,
  `ServedQueue`, `Push`/`Served` over a snapshot of every airport, and
  `UpdatePrefix`/`Joined`/`ServePrefix`/`AdmitFronts`/`Updated` for a whole
  pass. The lemmas state the properties
  of those functions.

Properties proved:

- The runway policy alternates between the two queues under demand and never
  starves a queue.
- Time stamps stay consistent. As a result, a completed flight never has a
  negative delay, and when its arrival time is below 2^16 the printed
  `uint16_t` delay is exact.
- While the deliverable simulation runs, each airport queue holds only
  flights that wait for that queue at that airport, each flight at most once.
  So an enqueue never overflows the ring.
- One deliverable tick is stated exactly: each queue gains, in table order,
  the flights that start to wait for it; then every airport pops the front
  of the queue its policy serves and admits that flight.
- The end of input leaves a sorted permutation of the loaded flights.
- The simulation reaches SIMULATION_COMPLETE only when every flight has
  landed.

## Model

| member | source | states |
|---|---|---|
| Clock.ClockToTime | deliverable/airport.c:276-279 | minutes are below 60; for clocks under 256 hours, converting back gives the same clock; above that, the `uint8_t` hour truncates and converting back gives a smaller clock |
| Clock.TimeToClock | deliverable/airport.c:294-297 | the clock always fits `uint16_t`; for minutes below 60 it splits back into that hour and minute |
| Clock.ClockRoundTrip | src/airport.c:301-321 | every clock value of the simulated day survives clock → time → clock |
| Clock.TimeRoundTrip | src/flight.c:103-111 | every time with minutes below 60 survives time → clock → time |
| Flights.NextQueueType | deliverable/airport.h:22-23 | `(q + 1) & 1` as remainder modulo 2: always the other queue type |
| Flights.LoggedDelay | deliverable/airport.c:253-254 | the printed delay is below 2^16 and congruent, modulo 2^16, to arrival minus scheduled minus flight minus two taxis |
| Flights.LoggedDelayExact | src/flight.c:93-94 | with no early arrival and an arrival below 2^16, the printed delay is the true one |
| Flights.LoggedDelayWraps | src/airport.c:279-280 | an arrival earlier than possible would print as 2^16 minus the shortfall |
| Flights.TimesConsistentLater | includes/queue.h:30-36 | the time-stamp invariant still holds at any later tick |
| Queue.WrapU32 | deliverable/queue.c:96 | a `uint32_t` difference: below 2^32, and a negative difference gains 2^32 |
| Queue.Mask | deliverable/queue.c:42 | `& FLIGHT_QUEUE_SIZE_MASK`: below 256, and the identity on slot indices |
| Queue.RingSize | deliverable/queue.c:94-97 | `size()` is tail − head when the tail is ahead, and 256 − (head − tail) when it wrapped; never above 255 |
| Queue.FullRingReadsEmpty | deliverable/queue.c:59-64 | 256 enqueues bring the tail back to the head, so a full queue reads as empty |
| Queue.FlightQueue.constructor | deliverable/queue.c:22-26 | `init_queue`: head and tail at 0, queue empty |
| Queue.FlightQueue.Size | deliverable/queue.c:94-97 | `size()` is the number of queued flights, at most 255 |
| Queue.FlightQueue.Peek | deliverable/queue.c:75-78 | `peek()` returns the oldest queued flight |
| Queue.FlightQueue.Enqueue | deliverable/queue.c:59-64 | `enqueue()` appends the flight, writes only the old tail slot, and advances the tail modulo 256 |
| Queue.FlightQueue.Dequeue | deliverable/queue.c:39-43 | `dequeue()` drops the oldest flight and advances the head modulo 256 |
| Runway.ServedQueue | deliverable/airport.c:81-95 | `manage_runway` serves the queue after `last_queue_type` if it is non-empty, else the other one if that is non-empty; nobody is served exactly when both are empty |
| Runway.AlternatesUnderDemand | src/airport.c:91-105 | with both queues non-empty on two calls in a row, the two calls serve different queues |
| Runway.ServedWithinTwoCalls | deliverable/airport.c:81-108 | a queue non-empty on two calls in a row is served by one of them |
| Runway.RoundRobinUnderDemand | deliverable/airport.c:81-108 | over any run of calls with both queues non-empty, the served queues alternate strictly, starting with the one after `last_queue_type` |
| Runway.Airport.constructor | deliverable/airport.c:20-26 | `init_airport`: both queues empty, `last_queue_type = DEPARTURE`, the code recorded for the slot |
| Runway.Airport.PopRunway | deliverable/airport.c:76-95 | pops the front flight of the queue `ServedQueue` chooses and returns it, or returns nothing with both queues empty; the served queue is recorded and the other queue is unchanged |
| Runway.Airport.QueueDeparture | deliverable/airport.c:38-41 | `queue_departure` appends the flight to the departures queue |
| Runway.Airport.QueueArrival | deliverable/airport.c:53-56 | `queue_arrival` appends the flight to the arrivals queue |
| Runway.Snapshot | includes/queue.h:71-76 | the value view of the airport table: per airport, the contents of both queues and `last_queue_type` |
| Runway.ViewFront | deliverable/airport.c:81-95 | the flight `manage_runway` pops: the front of the queue `ServedQueue` chooses; none exactly when both queues are empty |
| Runway.Served | deliverable/airport.c:81-108 | an airport after `manage_runway`: the served queue loses its front and becomes `last_queue_type` (`LastServed`); the other queue is unchanged |
| Runway.ServedRemovesFront | deliverable/airport.c:81-95 | `manage_runway` removes exactly the flight it admits from the airport's two queues, and changes nothing when both are empty |
| Runway.Push | deliverable/queue.c:59-64 | the table view after an enqueue: that one queue gains the flight at its end, no other queue changes and no `last_queue_type` changes |
| Runway.QueueAt | src/airport.c:52-55 | `queue_departure`/`queue_arrival` on one airport of the table changes only that queue (as `Push`) and keeps every airport valid |
| DeliverableAirport.Admit | deliverable/airport.c:98-106 | the popped flight keeps its identity, route and schedule, is in the same or the next state, and no longer waits for a runway |
| DeliverableAirport.AdmitIdempotent | deliverable/airport.c:98-106 | admitting a flight twice in one tick equals admitting it once |
| DeliverableAirport.AdmitTransitions | deliverable/airport.c:99-105 | admission stamps the current tick as the take-off or landing time |
| DeliverableAirport.UpdateStep | deliverable/airport.c:126-235 | `update_flight` returns false exactly for COMPLETE flights; it only stamps times and moves to the next state; waiting and complete flights are unchanged; a flight joins a queue exactly when it starts waiting for it |
| DeliverableAirport.UpdateTransitions | deliverable/airport.c:140-222 | each timed transition fires exactly at its tick (`==`, not `>=`); completion stamps the arrival; nothing else touches the stamps |
| DeliverableAirport.UpdateKeepsTimes | deliverable/airport.c:126-235 | `update_flight` keeps the time-stamp invariant |
| DeliverableAirport.AdmitKeepsTimes | deliverable/airport.c:98-106 | admission keeps the time-stamp invariant |
| DeliverableAirport.RunKeepsTimes | deliverable/atsim.c:74-91 | along any run of ticks, whatever the runways do, the time-stamp invariant holds |
| DeliverableAirport.DelayNeverNegative | deliverable/airport.c:246-254 | a flight loaded in STAND_BY that completes arrives no earlier than scheduled + flight + 2·TAXI_DURATION, and its printed delay is exact when the arrival fits `uint16_t` |
| DeliverableAirport.MissedLandingStaysEnRoute | deliverable/airport.c:186-191 | an EN_ROUTE flight whose landing tick has already passed stays EN_ROUTE for every later tick |
| DeliverableAirport.ZeroFlightNeverLands | deliverable/airport.c:99-102 | a flight with flight time 0 that takes off is EN_ROUTE for the rest of any run |
| DeliverableAirport.ManageRunway | deliverable/airport.c:72-110 | pops as `ServedQueue` says, records the served queue, and admits the popped flight; nothing else in the flight table changes |
| DeliverableAirport.ManageRunwayAt | deliverable/atsim.c:86-88 | `manage_runway` on airport j of the table: airport j becomes `Served` of what it was, every other airport is unchanged, and only the front flight is admitted |
| DeliverableAirport.AdvanceFlight | deliverable/airport.c:130-232 | the switch of `update_flight` writes `UpdateStep`'s flight into slot i and reports the queue to join |
| DeliverableAirport.UpdateFlight | deliverable/airport.c:126-235 | `update_flight` on flight i: slot i becomes `UpdateStep`'s flight; the table view gains flight i on the queue it joins, on its origin or destination, and nothing else |
| PlaneAirport.FlyingPlaneNeverReady | src/airport.c:259-263 | a plane marked PLANE_ON_AIR is ready for no flight |
| PlaneAirport.AdmitFlight | src/airport.c:108-117 | a flight waiting to take off becomes EN_ROUTE with departure stamped; one waiting to land becomes ARRIVAL_TAXI with arrival stamped; any other flight is unchanged; the result never waits |
| PlaneAirport.AdmitPlane | src/airport.c:109-111 | a take-off marks the plane as flying; a landing leaves the plane alone |
| PlaneAirport.UpdateStep | src/airport.c:132-246 | returns false exactly for COMPLETE; moves only to the next state; the plane changes only on completion |
| PlaneAirport.UpdateTransitions | src/airport.c:146-233 | STAND_BY is left exactly when the scheduled time has passed and the plane is ready, stamping departure; the taxis and the flight are timed from the stamps; completion parks the plane at the destination with the groom time; joining a queue or staying put leaves the stamps unchanged |
| PlaneAirport.UpdateKeepsTimes | src/airport.c:132-246 | `update_flight` keeps this version's time-stamp invariant |
| PlaneAirport.AdmitKeepsTimes | src/airport.c:108-117 | admission keeps this version's time-stamp invariant |
| PlaneAirport.PlaneTimesConsistentLater | src/airport.c:132-246 | this version's invariant still holds at any later tick |
| PlaneAirport.RunKeepsTimes | src/airport.c:132-246 | along any run, whatever the planes and runways do, the invariant holds |
| PlaneAirport.DelayNeverNegative | src/airport.c:272-280 | a completed flight arrives no earlier than expected, and its printed delay is exact when the arrival fits `uint16_t` |
| PlaneAirport.ManageRunway | src/airport.c:82-121 | pops as `ServedQueue` says and admits the popped flight; a take-off marks its plane flying; nothing else changes |
| PlaneAirport.AdvanceFlight | src/airport.c:136-243 | the switch of `update_flight` writes `UpdateStep`'s flight and plane and reports the queue to join |
| PlaneAirport.UpdateFlight | src/airport.c:132-246 | `update_flight` on flight i: the flight and its plane as `UpdateStep` says; the table view gains flight i on the queue it joins and nothing else |
| FlightUpdate.UpdateStep | src/flight.c:7-84 | returns false exactly for COMPLETE; moves only forward in the lifecycle (DEPARTURE_TAXI may go straight to EN_ROUTE, EN_ROUTE straight to ARRIVAL_TAXI); calls an airport only in a state that consults the runway |
| FlightUpdate.RunwayProtocol | src/flight.c:19-67 | a ready runway is entered (origin for take-off, destination for landing) with the take-off or landing stamped; a busy runway queues the flight, with no stamp changed; a waiting flight stays put until the runway is ready; a taxiing or flying flight before its tick is unchanged and calls nothing |
| FlightUpdate.TimedTransitions | src/flight.c:12-17 | STAND_BY and ARRIVAL_TAXI fire exactly at their tick and do not depend on the runway; completion stamps the arrival |
| FlightUpdate.UpdateKeepsTimes | src/flight.c:7-84 | `UpdateFlight` keeps the time-stamp invariant |
| FlightUpdate.RunKeepsTimes | src/flight.c:7-84 | along any run, whatever RunwayReady answers, the invariant holds |
| FlightUpdate.DelayNeverNegative | src/flight.c:86-94 | a completed flight arrives no earlier than expected, and its printed delay is exact when the arrival fits `uint16_t` |
| FlightUpdate.UpdateFlight | src/flight.c:7-84 | `UpdateFlight` on flight i: slot i becomes `UpdateStep`'s flight, and it returns `UpdateStep`'s airport call and result |
| Simulation.Register | deliverable/atsim.c:132-135 | the codes after a lookup contain the code and extend the old ones by at most that code; they grow exactly when the code is new |
| Simulation.RegisterKeepsDistinct | deliverable/atsim.c:127-135 | registration never records a code twice |
| Simulation.RegisterIdempotent | src/atsim.c:20-28 | looking a code up twice registers it once |
| Simulation.IndexOf | deliverable/atsim.c:127-130 | the slot found holds the code and is its first occurrence |
| Simulation.LoadKeepsLoaded | deliverable/atsim.c:177-179 | loading one more STAND_BY flight and lowering the clock keeps the clock at the earliest scheduled time of all loaded flights |
| Simulation.Simulation.constructor | deliverable/atsim.c:29-35 | no flights, no airports, clock at UINT16_MAX, READ_FLIGHT_INFO, not complete |
| Simulation.Simulation.FindAirport | deliverable/atsim.c:122-138 | `find_airport` returns the first slot with the code and registers the code in the next slot when it is new |
| Simulation.Simulation.FindRoute | deliverable/atsim.c:172-173 | the two lookups of `configure_simulation_data`: origin and destination slots, codes kept distinct |
| Simulation.Simulation.Store | deliverable/atsim.c:168-179 | writes the record into the next slot, lowers the clock to its scheduled time and counts it |
| Simulation.Simulation.ConfigureSimulationData | deliverable/atsim.c:152-180 | the next slot gets the parsed record in STAND_BY with both airport slots; the codes are registered; the clock becomes the minimum of the old clock and the scheduled time |
| DeliverableDriver.CarrierCompare | deliverable/atsim.c:199-200 | `memcmp` over two carrier bytes: 0 exactly for equal codes, negative exactly when the first is lexicographically smaller |
| DeliverableDriver.InOrderIsLexicographic | deliverable/atsim.c:202-205 | the swap test leaves flights in lexicographic order of carrier, then number |
| DeliverableDriver.InOrderTotal | deliverable/atsim.c:202-205 | of any two flights, one is in order before the other |
| DeliverableDriver.InOrderTransitive | deliverable/atsim.c:202-205 | the order is transitive |
| DeliverableDriver.SortFlights | deliverable/atsim.c:192-212 | `sort_flights` leaves the first `count` flights sorted and a permutation of what they were; later slots are untouched |
| DeliverableDriver.BubblePass | deliverable/atsim.c:198-210 | one pass of the inner loop: the sorted suffix, every flight of which is in order after every flight before it, grows by one; the first `count` flights are permuted and later slots untouched |
| DeliverableDriver.BubbleStep | deliverable/atsim.c:199-209 | one comparison swaps the pair or not, and bubbles the larger flight up |
| DeliverableDriver.QueueRoom | deliverable/queue.c:59-64 | a queue that holds distinct loaded flights (at most 255 of them), but not flight i, has fewer than 255 entries, so enqueueing i cannot fill the ring |
| DeliverableDriver.UpdateKeepsTracks | deliverable/airport.c:156-191 | after `update_flight`, every queue still holds only flights waiting for it; the queue joined had room |
| DeliverableDriver.RunwayKeepsTracks | deliverable/airport.c:85-106 | after `manage_runway`, the popped flight is a loaded one and every queue still holds only flights waiting for it |
| DeliverableDriver.FrontsDistinct | deliverable/atsim.c:86-88 | while the queues track the flights, no flight is the front popped by two airports of one runway pass |
| DeliverableDriver.Joiners | deliverable/airport.c:156-191 | the flights among the first n that `update_flight` queues on a given queue of a given airport, each below n and each one that joins it |
| DeliverableDriver.JoinersExactly | deliverable/airport.c:156-191 | a flight below n is a joiner of a queue exactly when its update queues it there |
| DeliverableDriver.JoinersIncreasing | deliverable/atsim.c:79-84 | the joiners of a queue are in increasing table order, the order the first loop visits them |
| DeliverableDriver.JoinedStep | deliverable/atsim.c:79-84 | one more update pushes that flight on the queue it joins (as `Push`), or leaves the table as it was |
| DeliverableDriver.AdmitFrontsStep | deliverable/atsim.c:86-88 | popping one more front admits it on top of the earlier admissions |
| DeliverableDriver.AdmitFrontsAdmitted | deliverable/atsim.c:86-88 | while the queues track the flights, a runway pass admits loaded flights only |
| DeliverableDriver.UpdateTracked | deliverable/atsim.c:82-83 | `update_flight` as the loop calls it keeps the scheduling invariant and acts as `UpdateStep`, pushing the flight on the queue it joins (as `Push`) |
| DeliverableDriver.RunwayTracked | deliverable/atsim.c:87 | `manage_runway` as the loop calls it keeps the scheduling invariant; airport j becomes `Served` of what it was, other airports unchanged; only the popped flight, a loaded one, is admitted |
| DeliverableDriver.UpdateNext | deliverable/atsim.c:79-84 | one iteration of the first loop extends the updated prefix and the `Joined` table by flight i, and reports whether that flight was pending |
| DeliverableDriver.UpdatePass | deliverable/atsim.c:77-84 | the first loop updates every loaded flight and leaves the table `Joined` over all of them; the state is SIMULATE exactly when some flight was not complete |
| DeliverableDriver.RunwayNext | deliverable/atsim.c:86-88 | one iteration of the second loop extends `ServePrefix` and `AdmitFronts` by airport j |
| DeliverableDriver.RunwayPass | deliverable/atsim.c:86-88 | the second loop serves every airport (`ServePrefix` of the whole table) and admits exactly the popped flights (`AdmitFronts`), all of them loaded |
| DeliverableDriver.AddAirport | deliverable/atsim.c:55-57 | one `init_airport`: a fresh initialised airport appended to a valid table |
| DeliverableDriver.InitAirports | deliverable/atsim.c:55-57 | one initialised airport per registered code, in registration order, all queues empty |
| DeliverableDriver.PrepareTables | deliverable/atsim.c:53-58 | sorting plus `init_airport` put the loaded flights, sorted, into a running state over a fresh airport table |
| DeliverableDriver.EndOfInput | deliverable/atsim.c:53-59 | the "end" line: flights sorted and permuted, airports initialised, state SIMULATE; clock and count unchanged |
| DeliverableDriver.TickKeepsTimes | deliverable/atsim.c:74-91 | a tick keeps every loaded flight's stamps consistent with the next clock value |
| DeliverableDriver.TickKeepsComplete | deliverable/atsim.c:74-91 | a tick leaves complete flights complete |
| DeliverableDriver.SimulateTick | deliverable/atsim.c:77-88 | both loops of a tick: running state kept at the next clock; state as `AnyPending`; the table becomes `ServePrefix` of `Joined`; each flight is updated, then admitted exactly when it is a front popped from that table |
| DeliverableDriver.Tick | deliverable/atsim.c:74-91 | the SIMULATE state: as `SimulateTick`, then `clock++` |
| DeliverableDriver.SettledLanded | deliverable/atsim.c:99-101 | once no flight is pending, every loaded flight landed no earlier than expected |
| DeliverableDriver.Finish | deliverable/atsim.c:99-101 | SIMULATION_COMPLETE sets `complete`, and every loaded flight has landed |
| DeliverableDriver.RunSimulation | deliverable/atsim.c:39-103 | the main loop from the end of input: when `complete` is set, every loaded flight has landed no earlier than expected |
| SrcDriver.UpdatePass | src/atsim.c:82-87 | the first loop: each loaded flight updated in order, the airport calls collected in flight order, state SIMULATE exactly when some flight was pending |
| SrcDriver.UpdatedKeepsTimes | src/atsim.c:81-94 | a tick keeps every loaded flight's stamps consistent with the next clock value |
| SrcDriver.RequestsRouted | src/atsim.c:84-87 | a tick keeps flights between registered airports; every airport call comes from a flight that consults the runway at this tick and names its origin or destination |
| SrcDriver.SettledIdle | src/atsim.c:84-87 | once every flight is complete, a tick changes no flight and calls no airport |
| SrcDriver.EndOfInput | src/atsim.c:70-75 | the "END" line: airports initialised in registration order, flights kept in read order, state SIMULATE |
| SrcDriver.Tick | src/atsim.c:81-94 | the SIMULATE state: flights as `Updated`, calls as `Requests`, state as `AnyPending`, then `clock++` |
| SrcDriver.Finish | src/atsim.c:96-98 | SIMULATION_COMPLETE sets `complete`, and every loaded flight has landed |
| SrcDriver.RunSimulation | src/atsim.c:65-100 | the main loop from the end of input: when `complete` is set, every loaded flight has landed no earlier than expected; the clock advanced once per tick |

## Left out

- Reading standard input (`fgets`), the "end"/"END" test, the
  FLIGHT_DATA_MIN_SIZE length test and `sscanf` parsing. The records arrive
  already parsed. Unparsable lines are not modelled.
- `printf` of the flight log. Only the delay it prints is modelled (`LoggedDelay`).
- The pthread mutexes of the `src/` queues and `deinit_airport`: no
  concurrency is modelled.
- RunwayReady, EnterRunway, QueueDeparture, QueueArrival and UpdateAirport,
  which `src/flight.c` and `src/atsim.c` call. They are not part of this
  model, which has no body for them. RunwayReady's answer is an input; the
  other calls become the returned request values.
- `src/airport.c`'s `init_airport` returns the result of `init_queue`. That
  queue's source is not part of this model; the model's initialisation cannot fail.
- The `runway_queue` that `deliverable/airport.c`'s `init_airport` initialises is never used by any operation, so it is not modelled.
- The groom countdown, the `busy` flag and the WAIT_FOR_PLANE/GROOM_PLANE
  states: no code of the repository changes them or enters them.
  PLANE_GROOM_DURATION is defined in no header, so it is a parameter.
- PlaneAirport.UpdateFlight: requires the flight to have a plane, because
  `update_flight` dereferences it. Neither driver ever assigns planes.
- Wrap-around of the `uint16_t` clock and time stamps in the simulation loop.
  Times are unbounded naturals there. The wraps in `sim_ClockToTime`, in
  `size()` and in the printed delay are modelled explicitly.
- DeliverableDriver.EndOfInput: requires at most 255 loaded flights. A ring
  holding 256 flights reads as empty (`Queue.FullRingReadsEmpty`). The tracking
  invariant that rules out a lost enqueue therefore needs the flight count
  within the queue capacity. The source allows up to FLIGHT_MAX_COUNT = 1000
  flights.
- DeliverableDriver.RunSimulation: runs at most `fuel` passes. In the model,
  whose clock does not wrap, a flight whose landing tick was missed stays
  EN_ROUTE for good (`ZeroFlightNeverLands`), so the loop need not end. In the
  source the `uint16_t` clock wraps after 65536 ticks and the missed tick can
  come round again; that wrap is not modelled (see above).
- SrcDriver.RunSimulation: runs as many ticks as answer vectors are given, for
  the same reason.
- Simulation.Simulation.ConfigureSimulationData: requires room for one more
  flight and for the codes the record registers. The source writes past
  FLIGHT_MAX_COUNT flights and AIRPORT_MAX_COUNT airports without checking.
- The flight record's `uint16_t` fields and `memcmp` over bytes: carriers
  are compared by character, and numbers and times are naturals.
- `deliverable/atsim.c` calls `UpdateFlight` and `ManageRunway`, while
  `deliverable/airport.c` defines `update_flight` and `manage_runway`. The
  model takes them to be the same functions.
- `sort_flights` computes `flight_count-1` in `int`, so no pass runs for
  zero flights. The model's loop bound `i + 1 < count` has the same effect.
