/**
 * Conversion between the simulation clock (minutes since midnight, as one
 * integer) and the hour:minute time of day read from flight records and
 * written in flight logs. The same two functions, sim_ClockToTime and
 * sim_TimeToClock, appear verbatim in src/airport.c, deliverable/airport.c,
 * src/atsim.c and src/flight.c; they are modelled once here.
 */
module Clock {

  const MINUTES_PER_HOUR: nat := 60
  /** SIMULATION_MAX_TIME: one day of simulated minutes. */
  const SIMULATION_MAX_TIME: nat := 24 * 60

  const UINT8_LIMIT: nat := 0x100
  const UINT16_LIMIT: nat := 0x1_0000
  const UINT16_MAX: nat := UINT16_LIMIT - 1

  /** The C `uint8_t` and `uint16_t` ranges. */
  type Uint8 = x: nat | x < UINT8_LIMIT
  type Uint16 = x: nat | x < UINT16_LIMIT

  /** atsim_time_t: both fields are `uint8_t`, so neither is range-checked. */
  datatype TimeOfDay = TimeOfDay(hour: Uint8, minute: Uint8)

  /**
   * sim_ClockToTime. The hour `clock / 60` is stored into a `uint8_t`, so it
   * is truncated modulo 256 for clocks of 256 hours or more.
   */
  function ClockToTime(clock: Uint16): (t: TimeOfDay)
    ensures t.minute < MINUTES_PER_HOUR
    ensures clock < UINT8_LIMIT * MINUTES_PER_HOUR ==> TimeToClock(t) == clock
    ensures clock >= UINT8_LIMIT * MINUTES_PER_HOUR ==> TimeToClock(t) < clock
  {
    TimeOfDay((clock / MINUTES_PER_HOUR) % UINT8_LIMIT, clock % MINUTES_PER_HOUR)
  }

  /**
   * sim_TimeToClock. The result always fits the `uint16_t` the callers store
   * it into, even for minutes above 59 (which are not rejected).
   */
  function TimeToClock(t: TimeOfDay): (clock: nat)
    ensures clock < UINT16_LIMIT
    ensures t.minute < MINUTES_PER_HOUR ==> clock / MINUTES_PER_HOUR == t.hour
    ensures t.minute < MINUTES_PER_HOUR ==> clock % MINUTES_PER_HOUR == t.minute
  {
    t.hour * MINUTES_PER_HOUR + t.minute
  }

  /** Every clock value of the simulated day survives the round trip. */
  lemma ClockRoundTrip(clock: Uint16)
    requires clock < SIMULATION_MAX_TIME
    ensures TimeToClock(ClockToTime(clock)) == clock
  {
  }

  /** Every well-formed time of day survives the round trip the other way. */
  lemma TimeRoundTrip(t: TimeOfDay)
    requires t.minute < MINUTES_PER_HOUR
    ensures ClockToTime(TimeToClock(t)) == t
  {
  }
}
