/**
 The timeout used for writing: milliseconds computed from a wall clock given as seconds and
 microseconds, with C's truncating division and 32-bit conversions.
 */
module Timeouts {
  import opened Counters
  import opened Streams

  const USEC := 1_000_000

  function TruncDiv(a: int, b: nat): int
    requires b > 0
  {
    if a >= 0 then a / b else -((-a) / b)
  }

  /** Conversion to int; that to unsigned int is a wrap. */
  function AsInt(n: int): int {
    (n + U32 / 2) % U32 - U32 / 2
  }

  /** Elapsed milliseconds between two times given in microseconds. */
  function ElapsedMs(start: nat, now: nat): int {
    (now / USEC - start / USEC) * 1000 + TruncDiv(now % USEC - start % USEC, 1000)
  }

  function HasElapsed(timeout: u32, start: nat, now: nat): bool {
    timeout < Wrap(ElapsedMs(start, now))
  }

  function TimeLeft(timeout: u32, start: nat, now: nat): u32 {
    var elapsed := AsInt(ElapsedMs(start, now));
    if AsInt(timeout) < elapsed then 0 else Wrap(timeout - elapsed)
  }

  /** The milliseconds computed are never negative and less than one away from the true time. */
  lemma ElapsedIsClose(start: nat, now: nat)
    requires start <= now
    ensures 0 <= ElapsedMs(start, now)
    ensures -1000 < 1000 * ElapsedMs(start, now) - (now - start) < 1000
  {
  }

  /** They never go back, not even where the seconds change and the microseconds start over. */
  lemma ElapsedIsMonotone(start: nat, now: nat, later: nat)
    requires now <= later
    ensures ElapsedMs(start, now) <= ElapsedMs(start, later)
  {
  }

  lemma SmallConversions(n: int)
    requires 0 <= n < U32 / 2
    ensures Wrap(n) == n && AsInt(n) == n
  {
  }

  /** Within int range the two queries agree: what is left and what has elapsed add up to the timeout
      until it is exceeded, and then nothing is left. */
  lemma LeftAndElapsedAddUp(timeout: u32, start: nat, now: nat)
    requires start <= now && timeout < U32 / 2 && ElapsedMs(start, now) < U32 / 2
    ensures HasElapsed(timeout, start, now) <==> timeout < ElapsedMs(start, now)
    ensures TimeLeft(timeout, start, now)
         == if timeout < ElapsedMs(start, now) then 0 else timeout - ElapsedMs(start, now)
  {
    ElapsedIsClose(start, now);
    SmallConversions(ElapsedMs(start, now));
    SmallConversions(timeout);
    if timeout >= ElapsedMs(start, now) {
      SmallConversions(timeout - ElapsedMs(start, now));
    }
  }

  /** A negative number of milliseconds, converted to unsigned, is a timeout that does not elapse and
      leaves no time to wait. */
  lemma NegativeTimeout(ms: int, start: nat, now: nat)
    requires -(U32 / 2) <= ms < 0 && start <= now && ElapsedMs(start, now) < U32 / 2
    ensures !HasElapsed(Wrap(ms), start, now) && TimeLeft(Wrap(ms), start, now) == 0
  {
    ElapsedIsClose(start, now);
    SmallConversions(ElapsedMs(start, now));
    assert Wrap(ms) == ms + U32;
    assert AsInt(ms + U32) == ms;
  }

  /** The argument of a wait for a number of milliseconds, multiplied out in an int. */
  function Microseconds(ms: u32): int {
    AsInt(AsInt(ms) * 1000)
  }

  /** The wait that a write with a timeout of `ms` asks for at time `now`. */
  function WriteWait(ms: int, start: nat, now: nat): int {
    Microseconds(TimeLeft(Wrap(ms), start, now))
  }

  /** A wait that ends less than a millisecond past the timeout, counted from the time that was sampled, or
      does not wait at all. */
  predicate EndsInTime(ms: int, start: nat, now: nat, wait: int) {
    wait == 0 || (wait > 0 && now + wait < start + 1000 * ms + 1000)
  }

  /** So do all waits of a write, for as long as an int can count its milliseconds. */
  ghost predicate WaitsEndInTime(ms: int) {
    forall start: nat, now: nat :: start <= now && ElapsedMs(start, now) < U32 / 2 ==>
      EndsInTime(ms, start, now, WriteWait(ms, start, now))
  }

  /** The time left itself, in milliseconds, ends in time whatever the timeout. */
  lemma LeftEndsInTime(timeout: u32, start: nat, now: nat)
    requires start <= now && timeout < U32 / 2 && ElapsedMs(start, now) < U32 / 2
    ensures EndsInTime(timeout, start, now, 1000 * TimeLeft(timeout, start, now))
  {
    hide ElapsedMs, TimeLeft;
    ElapsedIsClose(start, now);
    LeftAndElapsedAddUp(timeout, start, now);
  }

  /** The time left is multiplied out without overflow if it is short enough. */
  lemma ShortWaitEndsInTime(ms: int, start: nat, now: nat)
    requires 0 <= ms <= 2_147_483 && start <= now && ElapsedMs(start, now) < U32 / 2
    ensures WriteWait(ms, start, now) == 1000 * TimeLeft(ms, start, now)
    ensures EndsInTime(ms, start, now, WriteWait(ms, start, now))
  {
    hide ElapsedMs, TimeLeft;
    ElapsedIsClose(start, now);
    SmallConversions(ms);
    LeftAndElapsedAddUp(ms, start, now);
    LeftEndsInTime(ms, start, now);
    var left := TimeLeft(ms, start, now);
    SmallConversions(left);
    SmallConversions(left * 1000);
  }

  lemma WholeMillisecondsElapse(start: nat, k: nat)
    ensures ElapsedMs(start, start + 1000 * k) == k
  {
  }

  /** The shortest wait that overflows. */
  lemma LongWaitOverflows(start: nat)
    ensures TimeLeft(2_147_484, start, start) == 2_147_484 && Microseconds(2_147_484) < 0
  {
    WholeMillisecondsElapse(start, 0);
  }

  /** A longer timeout comes to that wait when exactly so much is left. */
  lemma LongTimeoutOverflows(ms: int, start: nat)
    requires 2_147_484 <= ms < U32 / 2
    ensures var now := start + 1000 * (ms - 2_147_484);
            ElapsedMs(start, now) < U32 / 2 && WriteWait(ms, start, now) < 0
  {
    hide ElapsedMs;
    var now := start + 1000 * (ms - 2_147_484);
    WholeMillisecondsElapse(start, ms - 2_147_484);
    SmallConversions(ms);
    LeftAndElapsedAddUp(ms, start, now);
    assert TimeLeft(ms, start, now) == 2_147_484;
    LongWaitOverflows(start);
  }

  lemma NegativeTimeoutDoesNotWait(ms: int, start: nat, now: nat)
    requires -(U32 / 2) <= ms < 0 && start <= now && ElapsedMs(start, now) < U32 / 2
    ensures WriteWait(ms, start, now) == 0
  {
    hide ElapsedMs, TimeLeft;
    NegativeTimeout(ms, start, now);
  }

  /** Of all timeouts that an int can hold, those below some 36 minutes are the ones whose waits end in
      time. */
  lemma WaitsEndInTimeIffShort(ms: int)
    requires -(U32 / 2) <= ms < U32 / 2
    ensures WaitsEndInTime(ms) <==> ms <= 2_147_483
  {
    hide ElapsedMs, WriteWait;
    if ms > 2_147_483 {
      LongTimeoutOverflows(ms, 0);
      assert !EndsInTime(ms, 0, 0 + 1000 * (ms - 2_147_484), WriteWait(ms, 0, 0 + 1000 * (ms - 2_147_484)));
    } else {
      forall start: nat, now: nat | start <= now && ElapsedMs(start, now) < U32 / 2
        ensures EndsInTime(ms, start, now, WriteWait(ms, start, now))
      {
        if ms >= 0 {
          ShortWaitEndsInTime(ms, start, now);
        } else {
          NegativeTimeoutDoesNotWait(ms, start, now);
        }
      }
    }
  }

  class Timeout {
    const clock: Clock
    const timeout: u32
    var startTime: nat

    /** Starts at the time it is created, which is the first sample it takes. */
    constructor (clock: Clock, ms: int)
      modifies clock
      ensures this.clock == clock && timeout == Wrap(ms)
      ensures startTime == clock.now && old(clock.now) <= clock.now
      ensures clock.trace == old(clock.trace) + [Sampled(startTime)]
    {
      this.clock, timeout, startTime := clock, Wrap(ms), 0;
      new;
      startTime := clock.Now();
    }

    method Restart()
      modifies this, clock
      ensures startTime == clock.now && clock.trace == old(clock.trace) + [Sampled(startTime)]
    {
      startTime := clock.Now();
    }

    method Elapsed() returns (r: bool)
      requires startTime <= clock.now
      modifies clock
      ensures old(clock.now) <= clock.now && clock.trace == old(clock.trace) + [Sampled(clock.now)]
      ensures r == HasElapsed(timeout, startTime, clock.now)
    {
      var now := clock.Now();
      r := HasElapsed(timeout, startTime, now);
    }

    method Left() returns (r: u32)
      requires startTime <= clock.now
      modifies clock
      ensures old(clock.now) <= clock.now && clock.trace == old(clock.trace) + [Sampled(clock.now)]
      ensures r == TimeLeft(timeout, startTime, clock.now)
    {
      var now := clock.Now();
      r := TimeLeft(timeout, startTime, now);
    }
  }
}
