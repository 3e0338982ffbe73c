/**
 The waits of a write, seen by the observer of its deadline.
 */
module Writing {
  import opened Engine
  import opened Counters
  import opened Streams
  import opened Deadlines
  import opened Timeouts

  /** An int can count the milliseconds since the call started. */
  predicate InRange(p: Progress) {
    0 <= p.start <= p.now && ElapsedMs(p.start, p.now) < U32 / 2
  }

  /** The wait of a short timeout ends less than a millisecond late, or is no wait. */
  lemma ShortWritesEndInTime(ms: int, size: nat, p: Progress, timeout: int)
    requires -(U32 / 2) <= ms <= 2_147_483 && InRange(p) && Allows(WriteRule(ms, size), p, timeout)
    ensures timeout == 0 || (timeout > 0 && Until(p, timeout) < Deadline(WriteRule(ms, size), p) + 1000)
  {
    hide ElapsedMs, WriteWait;
    WaitsEndInTimeIffShort(ms);
  }

  /** A timeout is reported as elapsed only after it is, and always two milliseconds later. */
  lemma ElapsedMeansExpired(ms: int, size: nat, p: Progress)
    requires 0 <= ms < U32 / 2 && InRange(p)
    ensures HasElapsed(Wrap(ms), p.start, p.now) ==> Expired(WriteRule(ms, size), p)
    ensures p.now >= p.start + 1000 * ms + 2000 ==> HasElapsed(Wrap(ms), p.start, p.now)
  {
    hide ElapsedMs;
    ElapsedIsClose(p.start, p.now);
    SmallConversions(ms);
    LeftAndElapsedAddUp(ms, p.start, p.now);
  }

  /** So no wait is requested once a clock sample was taken two milliseconds past the timeout. */
  lemma NoWaitAfterTimeout(ms: int, size: nat, p: Progress, timeout: int)
    requires 0 <= ms < U32 / 2 && p.start <= p.prior <= p.now && InRange(p) && Allows(WriteRule(ms, size), p, timeout)
    ensures p.prior < Deadline(WriteRule(ms, size), p) + 2000
  {
    hide ElapsedMs, WriteWait, HasElapsed;
    ElapsedIsMonotone(p.start, p.prior, p.now);
    ElapsedMeansExpired(ms, size, p.(now := p.prior));
  }

  /** How writePacket ends: with the fault of its last write or wait, with a timeout without a kind if a wait was not
      answered, and only then, and otherwise, if it is over, only with a packet timeout that has elapsed. */
  predicate WriteEnds(ms: int, p: Progress, r: Option<Error>) {
    && p.fault == FaultOf(r) && (p.unanswered <==> r == Some(Error.Timeout(NoKind)))
    && (r.Some? ==> r.value.Unix? || r.value == Error.Timeout(NoKind) || r.value == Error.Timeout(PacketTimeout))
    && (r == Some(Error.Timeout(PacketTimeout)) ==> 0 <= p.start <= p.now && HasElapsed(Wrap(ms), p.start, p.now))
  }

  lemma WriteDone(ms: int, p: Progress)
    requires !Over(p)
    ensures WriteEnds(ms, p, None)
  {
  }

  lemma WriteFaults(ms: int, p: Progress, errno: int)
    requires p.fault == Some(errno) && !p.unanswered
    ensures WriteEnds(ms, p, Some(Unix(errno)))
  {
  }

  /** How the wait of a turn ends the call, if it does. */
  function WaitFailure(reply: WaitReply): Option<Error> {
    match reply
    case Ready => None
    case NotReady => Some(Error.Timeout(NoKind))
    case WaitFault(errno) => Some(Unix(errno))
  }

  /** A turn of writePacket that does not find its timeout elapsed: two clock samples and a wait. */
  lemma WriteTurn(ms: int, size: nat, origin: seq<Event>, trace: seq<Event>, tr: seq<Event>, start: nat, now: nat,
                  later: nat, reply: WaitReply)
    requires Watched(WriteRule(ms, size), origin, trace, tr, start, false) && !Over(Follow(tr))
    requires Follow(tr).tried && Follow(tr).count < size && !HasElapsed(Wrap(ms), start, now)
    ensures var a, b := Sampled(now), Sampled(later);
            var w := Waited(WriteWait(ms, start, later), reply);
            && Watched(WriteRule(ms, size), origin, trace + [a] + [b] + [w], tr + [a] + [b] + [w], start, false)
            && (reply.Ready? ==> !Over(Follow(tr + [a] + [b] + [w])))
            && !Follow(tr + [a] + [b] + [w]).tried && Follow(tr + [a] + [b] + [w]).count == Follow(tr).count
            && WriteEnds(ms, Follow(tr + [a] + [b] + [w]), WaitFailure(reply))
  {
    hide Obeys, Follow, WriteWait, HasElapsed;
    var rule, a, b := WriteRule(ms, size), Sampled(now), Sampled(later);
    var w := Waited(WriteWait(ms, start, later), reply);
    WatchOne(rule, origin, trace, tr, start, false, a);
    WatchOne(rule, origin, trace + [a], tr + [a], start, false, b);
    WatchOne(rule, origin, trace + [a] + [b], tr + [a] + [b], start, false, w);
  }

  /** A turn of writePacket that finds its timeout elapsed. */
  lemma WriteExpires(ms: int, size: nat, origin: seq<Event>, trace: seq<Event>, tr: seq<Event>, start: nat, now: nat)
    requires Watched(WriteRule(ms, size), origin, trace, tr, start, false) && !Over(Follow(tr))
    requires start <= now && HasElapsed(Wrap(ms), start, now)
    ensures trace + [Sampled(now)] == origin + (tr + [Sampled(now)]) && Obeys(WriteRule(ms, size), tr + [Sampled(now)])
    ensures WriteEnds(ms, Follow(tr + [Sampled(now)]), Some(Error.Timeout(PacketTimeout)))
  {
    hide Obeys, Follow, HasElapsed;
    WatchOne(WriteRule(ms, size), origin, trace, tr, start, false, Sampled(now));
  }
}
