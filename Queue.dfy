/**
 * The fixed-capacity flight queue of deliverable/queue.c: a circular buffer of
 * FLIGHT_QUEUE_SIZE flight references with a head (next to read) and a tail
 * (next to write), both advanced by one and masked with
 * FLIGHT_QUEUE_SIZE_MASK. Flight references are flight-table indices here.
 *
 * The mask `x & (FLIGHT_QUEUE_SIZE - 1)` equals `x % FLIGHT_QUEUE_SIZE`
 * because the size is a power of two; the model writes the remainder.
 */
module Queue {

  /** FLIGHT_QUEUE_SIZE: number of slots, a power of two. */
  const FLIGHT_QUEUE_SIZE: nat := 256
  /** Largest occupancy the queue can report: a full buffer reads as empty. */
  const FLIGHT_QUEUE_CAPACITY: nat := FLIGHT_QUEUE_SIZE - 1
  /** EMPTY_QUEUE. */
  const EMPTY_QUEUE: nat := 0

  const UINT32_LIMIT: int := 0x1_0000_0000

  /** A `uint32_t` result: the value modulo 2^32. */
  function WrapU32(x: int): (r: nat)
    ensures r < UINT32_LIMIT
    ensures 0 <= x < UINT32_LIMIT ==> r == x
    ensures -UINT32_LIMIT <= x < 0 ==> r == x + UINT32_LIMIT
  {
    x % UINT32_LIMIT
  }

  /** `x & FLIGHT_QUEUE_SIZE_MASK`. */
  function Mask(x: nat): (r: nat)
    ensures r < FLIGHT_QUEUE_SIZE
    ensures x < FLIGHT_QUEUE_SIZE ==> r == x
  {
    x % FLIGHT_QUEUE_SIZE
  }

  /**
   * size(): the tail-to-head distance computed in `uint32_t` (which wraps when
   * the tail has passed the end of the buffer) and masked.
   */
  function RingSize(head: nat, tail: nat): (n: nat)
    requires head < FLIGHT_QUEUE_SIZE && tail < FLIGHT_QUEUE_SIZE
    ensures n < FLIGHT_QUEUE_SIZE
    ensures head <= tail ==> n == tail - head
    ensures tail < head ==> n == FLIGHT_QUEUE_SIZE - (head - tail)
  {
    Mask(WrapU32(tail - head))
  }

  /** The slot that holds the element `k` places behind the head. */
  function Slot(head: nat, k: nat): nat
  {
    (head + k) % FLIGHT_QUEUE_SIZE
  }

  /**
   * A queue holding FLIGHT_QUEUE_SIZE flights cannot be told from an empty
   * one: 256 enqueues from the initial state bring the tail back to the head.
   * This is why enqueue must only be called on a queue holding fewer than
   * FLIGHT_QUEUE_CAPACITY flights.
   */
  lemma FullRingReadsEmpty(head: nat)
    requires head < FLIGHT_QUEUE_SIZE
    ensures RingSize(head, Mask(head + FLIGHT_QUEUE_SIZE)) == EMPTY_QUEUE
  {
  }

  class FlightQueue {
    /** The FLIGHT_QUEUE_SIZE slots. */
    const buffer: array<nat>
    var head: nat
    var tail: nat
    /** The flights queued, oldest first. */
    ghost var Contents: seq<nat>

    ghost predicate Valid()
      reads this, buffer
    {
      && buffer.Length == FLIGHT_QUEUE_SIZE
      && head < FLIGHT_QUEUE_SIZE && tail < FLIGHT_QUEUE_SIZE
      && |Contents| == RingSize(head, tail)
      && forall k :: 0 <= k < |Contents| ==> Contents[k] == buffer[Slot(head, k)]
    }

    /** init_queue: head and tail both at slot 0. */
    constructor ()
      ensures Valid() && fresh(buffer)
      ensures head == 0 && tail == 0 && Contents == []
    {
      buffer := new nat[FLIGHT_QUEUE_SIZE];
      head, tail := 0, 0;
      Contents := [];
    }

    /** size() */
    function Size(): (n: nat)
      reads this, buffer
      requires Valid()
      ensures n == |Contents|
      ensures n <= FLIGHT_QUEUE_CAPACITY
    {
      RingSize(head, tail)
    }

    /** peek(): the oldest flight still queued. */
    function Peek(): (flight: nat)
      reads this, buffer
      requires Valid() && |Contents| > 0
      ensures flight == Contents[0]
    {
      buffer[head]
    }

    /** enqueue(): writes the tail slot and advances the tail. */
    method Enqueue(flight: nat)
      requires Valid() && |Contents| < FLIGHT_QUEUE_CAPACITY
      modifies this, buffer
      ensures Valid()
      ensures Contents == old(Contents) + [flight]
      ensures head == old(head) && tail == Mask(old(tail) + 1)
      ensures buffer[old(tail)] == flight
      ensures forall k :: 0 <= k < FLIGHT_QUEUE_SIZE && k != old(tail) ==> buffer[k] == old(buffer[k])
    {
      buffer[tail] := flight;
      tail := Mask(tail + 1);
      Contents := Contents + [flight];
    }

    /** dequeue(): advances the head; the slot it leaves keeps its value. */
    method Dequeue()
      requires Valid() && |Contents| > 0
      modifies this
      ensures Valid()
      ensures Contents == old(Contents)[1..]
      ensures head == Mask(old(head) + 1) && tail == old(tail)
    {
      head := Mask(head + 1);
      Contents := Contents[1..];
    }
  }
}
