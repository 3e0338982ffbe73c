/**
 Raw reading, on values: bytes that go from the stream to the caller past the driver's buffer, and
 the deadlines kept while they do.
 */
module RawReadings {
  import opened Extraction
  import opened Engine
  import opened Streams
  import opened Listeners
  import opened Protocols
  import opened Deadlines
  import opened Runs

  /** `got` went from the stream to the caller, and to all listeners, and nothing else changed. */
  ghost predicate Passed(was: View, now: View, got: Bytes) {
    && now.queued == was.queued && now.stats == was.stats
    && now.taken == was.taken + got && was.pending == got + now.pending
    && now.heard == ToldRead(was.heard, got) && now.accepted == was.accepted
  }

  lemma PassedNothing(was: View)
    ensures Passed(was, was, [])
  {
    EmptySides(was.taken);
    EmptySides(was.pending);
    ToldNothing(was.heard);
  }

  lemma PassedMore(was: View, mid: View, now: View, got: Bytes, data: Bytes)
    requires Passed(was, mid, got) && Passed(mid, now, data)
    ensures Passed(was, now, got + data)
  {
    Associate(was.taken, got, data);
    Associate(got, data, now.pending);
    ToldMore(was.heard, got, data);
  }

  /** Without an inter-byte timeout the packet timeout takes its place. */
  function RawRuleOf(packetTimeout: int, firstByteTimeout: int, interByteTimeout: int, room: nat): Rule {
    RawRule(packetTimeout, firstByteTimeout, if interByteTimeout == 0 then packetTimeout else interByteTimeout, room)
  }

  /** So readRaw never waits for a negative time exactly if the caller gives no inter-byte timeout, or one that is at
      least the packet timeout, or if there is room for one byte at most. */
  lemma NeverNegativeIff(packetTimeout: int, firstByteTimeout: int, interByteTimeout: int, room: nat)
    requires 0 <= packetTimeout && 0 <= firstByteTimeout && 0 <= interByteTimeout
    ensures NeverNegative(RawRuleOf(packetTimeout, firstByteTimeout, interByteTimeout, room))
       <==> interByteTimeout == 0 || interByteTimeout >= packetTimeout || room <= 1
  {
    NeverNegativeIffLongInterByte(packetTimeout, firstByteTimeout,
                                  if interByteTimeout == 0 then packetTimeout else interByteTimeout, room);
    hide NeverNegative;
  }

  /** When a wait of readRaw ends, in terms of what the caller gives: with the overall deadline, which counts from the
      first byte once there is one, or, after a byte, the inter-byte timeout after the latest, if there is
      such a timeout and that is sooner. */
  lemma RawWaitEnds(packetTimeout: int, firstByteTimeout: int, interByteTimeout: int, room: nat, p: Progress,
                    timeout: int)
    requires Allows(RawRuleOf(packetTimeout, firstByteTimeout, interByteTimeout, room), p, timeout)
    requires 0 <= packetTimeout && 0 <= firstByteTimeout && 0 <= interByteTimeout
    ensures !p.timed ==>
      && Until(p, timeout) <= p.start + packetTimeout && Until(p, timeout) <= p.start + firstByteTimeout
      && (Until(p, timeout) == p.start + packetTimeout || Until(p, timeout) == p.start + firstByteTimeout)
    ensures p.timed ==>
      && Until(p, timeout) <= p.first + packetTimeout
      && (interByteTimeout > 0 ==> Until(p, timeout) <= p.latest + interByteTimeout)
      && (|| Until(p, timeout) == p.first + packetTimeout
          || (interByteTimeout > 0 && Until(p, timeout) == p.latest + interByteTimeout)
          || (interByteTimeout == 0 && Until(p, timeout) == p.latest + packetTimeout))
    ensures p.timed && interByteTimeout == 0 && p.first <= p.latest ==> Until(p, timeout) == p.first + packetTimeout
  {
  }

  /** The local variables of readRaw, between two turns of its loop. */
  predicate Pacing(rule: Rule, p: Progress, now: int, lastChar: int, global: int, filled: nat, ready: bool) {
    rule.RawRule? && p.started && !p.isNew && !Over(p) && p.now == now && p.timed == p.received
    && p.count == filled && p.ready == ready && global == Deadline(rule, p)
    && lastChar == if p.timed then p.latest else p.start + rule.packet
  }

  /** So far the events were `tr`, every wait allowed, and the local variables fit them. */
  predicate Paced(rule: Rule, origin: seq<Event>, trace: seq<Event>, tr: seq<Event>, received: bool, now: int,
                  lastChar: int, global: int, filled: nat, ready: bool) {
    && Watched(rule, origin, trace, tr, Follow(tr).start, received)
    && Pacing(rule, Follow(tr), now, lastChar, global, filled, ready)
  }

  lemma PaceStart(rule: Rule, origin: seq<Event>, now: int)
    requires rule.RawRule?
    ensures Paced(rule, origin, origin + [Sampled(now)], [Sampled(now)], false, now, now + rule.packet,
                  now + Min(rule.packet, rule.firstByte), 0, false)
  {
    WatchStart(rule, origin, now);
    hide Obeys, Follow;
  }

  /** The wait of a turn is allowed; one that is not answered, or fails, ends the call. */
  lemma PaceWait(rule: Rule, origin: seq<Event>, trace: seq<Event>, tr: seq<Event>, received: bool, now: int,
                 lastChar: int, global: int, filled: nat, w: Event)
    requires Paced(rule, origin, trace, tr, received, now, lastChar, global, filled, false)
    requires filled < rule.room && now <= global && w.Waited?
    requires w.timeout == Min(global, lastChar + rule.interByte) - now
    ensures w.reply.Ready? ==> Paced(rule, origin, trace + [w], tr + [w], received, now, lastChar, global, filled, true)
    ensures trace + [w] == origin + (tr + [w]) && Obeys(rule, tr + [w])
    ensures w.reply.NotReady? ==> Expired(rule, Follow(tr + [w]))
    ensures Follow(tr + [w]).fault == if w.reply.WaitFault? then Some(w.reply.errno) else None
    ensures Follow(tr + [w]).unanswered == w.reply.NotReady?
  {
  }

  /** A read of `n` bytes and the clock sample after it: the deadline moves with the first bytes, and
      only then. */
  lemma PaceRead(rule: Rule, origin: seq<Event>, trace: seq<Event>, tr: seq<Event>, received: bool, now: int,
                 lastChar: int, global: int, filled: nat, n: nat, later: int)
    requires Paced(rule, origin, trace, tr, received, now, lastChar, global, filled, true) && filled + n <= rule.room
    ensures Paced(rule, origin, trace + [Received(n)] + [Sampled(later)], tr + [Received(n)] + [Sampled(later)],
                  received || n > 0, later, if n > 0 then later else lastChar,
                  if n > 0 && !received then later + rule.packet else global, filled + n, false)
  {
    hide Obeys, Follow;
    var start, tr' := Follow(tr).start, tr + [Received(n)];
    WatchOne(rule, origin, trace, tr, start, received, Received(n));
    WatchOne(rule, origin, trace + [Received(n)], tr', start, received || n > 0, Sampled(later));
  }

  /** A read that failed, which ends the call. */
  lemma PaceFailed(rule: Rule, origin: seq<Event>, trace: seq<Event>, tr: seq<Event>, received: bool, now: int,
                   lastChar: int, global: int, filled: nat, errno: int)
    requires Paced(rule, origin, trace, tr, received, now, lastChar, global, filled, true)
    ensures trace + [Faulted(errno)] == origin + (tr + [Faulted(errno)]) && Obeys(rule, tr + [Faulted(errno)])
    ensures Follow(tr + [Faulted(errno)]).fault == Some(errno) && !Follow(tr + [Faulted(errno)]).unanswered
  {
  }

  /** When time is up by these variables, it is. */
  lemma PaceEnd(rule: Rule, origin: seq<Event>, trace: seq<Event>, tr: seq<Event>, received: bool, now: int,
                lastChar: int, global: int, filled: nat)
    requires Paced(rule, origin, trace, tr, received, now, lastChar, global, filled, false)
    ensures trace == origin + tr && Obeys(rule, tr) && !Over(Follow(tr))
    ensures now > global ==> Expired(rule, Follow(tr))
  {
  }

  lemma DeliveredFirst(pending: Bytes, replies: seq<Reply>, room: nat)
    ensures pending == Delivered(pending, replies, room) + Remaining(pending, replies, room)
  {
  }

  /** A pull of queued bytes. */
  function Pulling(v: View, n: nat): View
    requires n <= |v.queued|
  {
    v.(queued := v.queued[n..])
  }

  /** Bytes that go past the buffer only do once the buffer is empty. */
  lemma PassedIsFresh(was: View, now: View, got: Bytes, queued: Bytes, outSize: nat)
    requires Passed(was, now, got) && Pulled(queued, outSize) + |got| <= outSize
    ensures |got| == FreshBytes(queued, was.pending, outSize, |got|)
  {
  }
}
