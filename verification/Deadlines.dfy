/**
 Deadlines, seen by an observer of the clock samples, reads and waits of one call.
 */
module Deadlines {
  import opened Extraction
  import opened Engine
  import opened Counters
  import opened Streams
  import opened Timeouts

  /** Where an observer is: the time of the first sample, of the one before the latest (-1 if there is
      none) and of the latest; whether bytes were received, and whether that was since the latest
      sample; the first time sampled after the first, and after the latest, bytes were received; and
      whether a wait has ended without an answer; the fault that a wait, a read or a write ended in;
      how many bytes were received or written; and, of what happened since the latest wait, whether a
      read brought nothing or a write was made, and whether nothing was done although it was answered. */
  datatype Progress = Progress(started: bool, start: int, prior: int, now: int, received: bool, isNew: bool,
                               timed: bool, first: int, latest: int, unanswered: bool, fault: Option<int>,
                               count: nat, tried: bool, ready: bool)

  const IDLE := Progress(false, 0, -1, 0, false, false, false, 0, 0, false, None, 0, false, false)

  function Observe(p: Progress, e: Event): Progress {
    match e
    case Sampled(t) =>
      Progress(true, if p.started then p.start else t, if p.started then p.now else -1, t, p.received, false,
               p.timed || p.isNew, if p.isNew && !p.timed then t else p.first, if p.isNew then t else p.latest,
               p.unanswered, p.fault, p.count, p.tried, p.ready)
    case Waited(_, reply) =>
      p.(unanswered := p.unanswered || reply.NotReady?,
         fault := if reply.WaitFault? then Some(reply.errno) else p.fault, tried := false, ready := reply.Ready?)
    case Faulted(errno) => p.(fault := Some(errno), tried := true, ready := false)
    case Emitted(n) => p.(count := p.count + n, tried := true, ready := false)
    case Received(n) =>
      p.(received := p.received || n > 0, isNew := p.isNew || n > 0, count := p.count + n, tried := n == 0,
         ready := false)
  }

  function Follow(tr: seq<Event>): Progress {
    if tr == [] then IDLE else Observe(Follow(tr[..|tr| - 1]), tr[|tr| - 1])
  }

  /** When a wait requested now would end. */
  function Until(p: Progress, timeout: int): int {
    p.now + timeout
  }

  /** What a call allows of its waits. */
  datatype Rule =
    | PacketRule(packet: int, firstByte: int)
    | RawRule(packet: int, firstByte: int, interByte: int, room: nat)
    | WriteRule(ms: int, size: nat)

  /** The deadline a call is working towards: the first-byte one for as long as no byte was received,
      and then the packet one, which readPacket counts from the start of the call and readRaw from
      the first byte. */
  function Deadline(rule: Rule, p: Progress): int {
    match rule
    case PacketRule(packet, firstByte) => p.start + if p.received then packet else Min(packet, firstByte)
    case RawRule(packet, firstByte, _, _) => if p.timed then p.first + packet else p.start + Min(packet, firstByte)
    case WriteRule(ms, _) => p.start + 1000 * ms
  }

  /** Time is up, or a wait for input ended without any. */
  predicate Expired(rule: Rule, p: Progress) {
    p.unanswered || p.now > Deadline(rule, p)
  }

  /** readPacket: a read has just brought nothing; waits are never negative, and end with the deadline; with a packet
      timeout of 0 there are none.
      readRaw: there is room left, and time, and a wait ends with the deadline or, if that is sooner, the
      inter-byte timeout after the latest byte.
      writePacket: something is left to be written, although a write was tried, and the timeout had not
      elapsed by the sample before; a wait is for the time left, as computed in ints. */
  predicate Allows(rule: Rule, p: Progress, timeout: int) {
    p.started &&
    match rule
    case PacketRule(packet, firstByte) =>
      p.tried && packet != 0 && timeout >= 0 && Until(p, timeout) == Deadline(rule, p)
    case RawRule(packet, firstByte, interByte, room) =>
      && !p.ready && p.count < room && p.now <= Deadline(rule, p)
      && Until(p, timeout) == Min(Deadline(rule, p), (if p.timed then p.latest else p.start + packet) + interByte)
    case WriteRule(ms, size) =>
      && p.tried && p.count < size && 0 <= p.start && 0 <= p.prior && 0 <= p.now
      && !HasElapsed(Wrap(ms), p.start, p.prior) && timeout == WriteWait(ms, p.start, p.now)
  }

  /** When a wait of readPacket ends, in terms of the caller's timeouts: once bytes were received with the packet
      timeout, counted from the start, and until then with the sooner of the two. */
  lemma PacketWaitEnds(packet: int, firstByte: int, p: Progress, timeout: int)
    requires Allows(PacketRule(packet, firstByte), p, timeout)
    ensures timeout >= 0 && packet != 0
    ensures p.received ==> Until(p, timeout) == p.start + packet
    ensures !p.received ==>
      && Until(p, timeout) <= p.start + packet && Until(p, timeout) <= p.start + firstByte
      && (Until(p, timeout) == p.start + packet || Until(p, timeout) == p.start + firstByte)
  {
  }

  /** With timeouts that are not negative, the inter-byte limit never shortens a wait before the first
      byte, and no wait extends past the packet deadline. */
  lemma RawWaitsAreBounded(packet: int, firstByte: int, interByte: int, room: nat, p: Progress, timeout: int)
    requires Allows(RawRule(packet, firstByte, interByte, room), p, timeout) && interByte >= 0
    ensures !p.timed ==> Until(p, timeout) == p.start + Min(packet, firstByte)
    ensures Until(p, timeout) <= (if p.timed then p.first else p.start) + packet
    ensures p.timed ==> Until(p, timeout) <= p.latest + interByte
  {
  }

  /** A wait of readRaw is for a negative time exactly when the latest byte is older than the inter-byte timeout,
      which a wait that was answered and a read that brought nothing lead to. */
  lemma RawWaitIsNegativeIffLate(packet: int, firstByte: int, interByte: int, room: nat, p: Progress, timeout: int)
    requires Allows(RawRule(packet, firstByte, interByte, room), p, timeout) && interByte >= 0
    ensures timeout < 0 <==> p.timed && p.now > p.latest + interByte
  {
  }

  /** A wait was not answered, or something failed: the call is over. */
  predicate Over(p: Progress) {
    p.unanswered || p.fault.Some?
  }

  /** When a call reads or writes: readPacket until a read brings nothing, and again when a wait was answered; readRaw
      once after each wait that was answered; and writePacket at first, and once after each such wait. */
  predicate Acts(rule: Rule, p: Progress, e: Event) {
    match rule
    case PacketRule(_, _) => !e.Emitted? && !p.tried
    case RawRule(_, _, _, room) => !e.Emitted? && p.ready && (e.Received? ==> p.count + e.n <= room)
    case WriteRule(_, size) => !e.Received? && !p.tried && (e.Emitted? ==> p.count + e.n <= size)
  }

  /** What may come next: nothing but clock samples once the call is over, and only waits that are allowed. */
  predicate May(rule: Rule, p: Progress, e: Event) {
    (Over(p) ==> e.Sampled?) &&
    match e
    case Sampled(_) => true
    case Waited(timeout, _) => Allows(rule, p, timeout)
    case _ => Acts(rule, p, e)
  }

  /** Everything the call did, it might do then. */
  predicate Obeys(rule: Rule, tr: seq<Event>) {
    tr != [] ==>
      var before, e := tr[..|tr| - 1], tr[|tr| - 1];
      Obeys(rule, before) && May(rule, Follow(before), e)
  }

  /** The clock does not go back. */
  predicate Steady(tr: seq<Event>) {
    tr != [] ==>
      var before, e := tr[..|tr| - 1], tr[|tr| - 1];
      Steady(before) && (e.Sampled? && Follow(before).started ==> Follow(before).now <= e.at)
  }

  lemma StartOfAll(rule: Rule)
    ensures Obeys(rule, []) && Follow([]) == IDLE && Steady([])
  {
  }

  lemma FollowMore(tr: seq<Event>, e: Event)
    ensures Follow(tr + [e]) == Observe(Follow(tr), e)
  {
  }

  lemma ObeysMore(rule: Rule, tr: seq<Event>, e: Event)
    requires Obeys(rule, tr) && May(rule, Follow(tr), e)
    ensures Obeys(rule, tr + [e])
  {
  }

  lemma OneMore(rule: Rule, tr: seq<Event>, e: Event)
    requires Obeys(rule, tr) && May(rule, Follow(tr), e)
    requires Steady(tr) && (e.Sampled? && Follow(tr).started ==> Follow(tr).now <= e.at)
    ensures Obeys(rule, tr + [e]) && Follow(tr + [e]) == Observe(Follow(tr), e) && Steady(tr + [e])
  {
    hide Allows;
    FollowMore(tr, e);
    ObeysMore(rule, tr, e);
    assert (tr + [e])[..|tr|] == tr;
  }

  /** And it comes to that: when a byte is received at once, and then a wait is answered, a read brings
      nothing, and by then the byte is a microsecond too old, although there is time left. */
  lemma RawWaitCanBeNegative(packet: int, firstByte: int, interByte: int, room: nat) returns (tr: seq<Event>)
    requires 0 <= interByte < packet && 0 <= firstByte && room >= 2
    ensures Obeys(RawRule(packet, firstByte, interByte, room), tr) && Steady(tr)
    ensures tr != [] && tr[|tr| - 1] == Waited(-1, Ready)
  {
    hide Obeys, Follow, Steady;
    var rule, wait := RawRule(packet, firstByte, interByte, room), Min(packet, firstByte);
    StartOfAll(rule);
    tr := [];
    OneMore(rule, tr, Sampled(0));
    tr := tr + [Sampled(0)];
    OneMore(rule, tr, Waited(wait, Ready));
    tr := tr + [Waited(wait, Ready)];
    OneMore(rule, tr, Received(1));
    tr := tr + [Received(1)];
    OneMore(rule, tr, Sampled(0));
    tr := tr + [Sampled(0)];
    OneMore(rule, tr, Waited(interByte, Ready));
    tr := tr + [Waited(interByte, Ready)];
    OneMore(rule, tr, Received(0));
    tr := tr + [Received(0)];
    OneMore(rule, tr, Sampled(interByte + 1));
    tr := tr + [Sampled(interByte + 1)];
    OneMore(rule, tr, Waited(-1, Ready));
    tr := tr + [Waited(-1, Ready)];
  }

  /** What a steady clock means for the times remembered. */
  lemma {:induction false} SteadyOrder(tr: seq<Event>)
    requires Steady(tr)
    ensures var p := Follow(tr);
            (p.timed ==> p.started && p.first <= p.latest <= p.now) && (p.isNew && p.timed ==> p.latest <= p.now)
    decreases |tr|
  {
    if tr != [] {
      SteadyOrder(tr[..|tr| - 1]);
    }
  }

  lemma {:induction false} BytesCount(tr: seq<Event>)
    ensures var p := Follow(tr); p.timed || p.isNew ==> p.count > 0
    decreases |tr|
  {
    hide Observe;
    if tr != [] {
      BytesCount(tr[..|tr| - 1]);
      ByteCounts(Follow(tr[..|tr| - 1]), tr[|tr| - 1]);
    }
  }

  lemma ByteCounts(p: Progress, e: Event)
    requires p.timed || p.isNew ==> p.count > 0
    ensures var q := Observe(p, e); q.timed || q.isNew ==> q.count > 0
  {
    match e
    case Sampled(t) => assert Observe(p, e).timed == (p.timed || p.isNew) && !Observe(p, e).isNew;
    case Waited(timeout, reply) =>
    case Received(n) =>
    case Emitted(n) =>
    case Faulted(errno) =>
  }

  predicate NonNegative(tr: seq<Event>) {
    forall e <- tr :: e.Waited? ==> e.timeout >= 0
  }

  /** No call that keeps to the rule, with a clock that does not go back, waits for a negative time. */
  ghost predicate NeverNegative(rule: Rule) {
    forall tr: seq<Event> :: Obeys(rule, tr) && Steady(tr) ==> NonNegative(tr)
  }

  lemma {:induction false} LongInterByteNeverNegative(packet: int, firstByte: int, interByte: int, room: nat,
                                                      tr: seq<Event>)
    requires 0 <= packet && 0 <= firstByte && 0 <= interByte && (packet <= interByte || room <= 1)
    requires Obeys(RawRule(packet, firstByte, interByte, room), tr) && Steady(tr)
    ensures NonNegative(tr)
    decreases |tr|
  {
    if tr != [] {
      var before, e := tr[..|tr| - 1], tr[|tr| - 1];
      LongInterByteNeverNegative(packet, firstByte, interByte, room, before);
      SteadyOrder(before);
      BytesCount(before);
      hide Follow, Steady;
      assert tr == before + [e];
    }
  }

  /** With timeouts that are not negative, no wait of readRaw is negative if and only if the inter-byte timeout is at
      least the packet timeout, or no more than one byte is to be read. */
  lemma NeverNegativeIffLongInterByte(packet: int, firstByte: int, interByte: int, room: nat)
    requires 0 <= packet && 0 <= firstByte && 0 <= interByte
    ensures NeverNegative(RawRule(packet, firstByte, interByte, room)) <==> interByte >= packet || room <= 1
  {
    hide Obeys, Steady;
    var rule := RawRule(packet, firstByte, interByte, room);
    if interByte < packet && room > 1 {
      var tr := RawWaitCanBeNegative(packet, firstByte, interByte, room);
      var last := tr[|tr| - 1];
      assert last in tr && last.timeout == -1;
      assert !NonNegative(tr);
    } else {
      forall tr: seq<Event> | Obeys(rule, tr) && Steady(tr) ensures NonNegative(tr) {
        LongInterByteNeverNegative(packet, firstByte, interByte, room, tr);
      }
    }
  }

  /** A readPacket whose packet timeout is 0 never waits. */
  lemma {:induction false} ZeroTimeoutNeverWaits(firstByte: int, tr: seq<Event>)
    requires Obeys(PacketRule(0, firstByte), tr)
    ensures forall e <- tr :: !e.Waited?
    decreases |tr|
  {
    if tr != [] {
      ZeroTimeoutNeverWaits(firstByte, tr[..|tr| - 1]);
      assert tr == tr[..|tr| - 1] + [tr[|tr| - 1]];
    }
  }

  /** Reads of readPacket that bring bytes change nothing but what was received. */
  lemma {:induction false} FollowReads(rule: Rule, tr: seq<Event>, evs: seq<Event>)
    requires Obeys(rule, tr) && !Over(Follow(tr)) && AllBring(evs) && rule.PacketRule? && !Follow(tr).tried
    ensures Obeys(rule, tr + evs)
    ensures var p, q := Follow(tr), Follow(tr + evs);
            && q.started == p.started && q.start == p.start && q.received == (p.received || evs != [])
            && !Over(q) && !q.tried
    decreases |evs|
  {
    hide Follow, Obeys, Allows;
    if evs == [] {
      EmptySides(tr);
    } else {
      var evs', e := evs[..|evs| - 1], evs[|evs| - 1];
      assert e in evs && evs == evs' + [e];
      FollowReads(rule, tr, evs');
      Associate(tr, evs', [e]);
      FollowMore(tr + evs', e);
      ObeysMore(rule, tr + evs', e);
    }
  }

  /** Read without the recursion: any wait of an obedient call was allowed by what came before, which was no fault and
      no wait without an answer; and nothing but samples follow on such an event. */
  lemma {:induction false} EveryWaitAllowed(rule: Rule, tr: seq<Event>, i: nat)
    requires Obeys(rule, tr) && i < |tr| && !tr[i].Sampled?
    ensures !Over(Follow(tr[..i])) && (tr[i].Waited? ==> Allows(rule, Follow(tr[..i]), tr[i].timeout))
    decreases |tr|
  {
    if i < |tr| - 1 {
      var before := tr[..|tr| - 1];
      EveryWaitAllowed(rule, before, i);
      assert before[..i] == tr[..i];
    }
  }

  // Watching a call -----------------------------------------------------------------------------

  /** Since `origin` the events were `tr`, obedient ones; the call started at `start`, and received
      bytes if `received`. */
  predicate Watched(rule: Rule, origin: seq<Event>, trace: seq<Event>, tr: seq<Event>, start: int, received: bool) {
    && trace == origin + tr && Obeys(rule, tr)
    && Follow(tr).started && Follow(tr).start == start && Follow(tr).received == received
  }

  lemma WatchStart(rule: Rule, origin: seq<Event>, t: int)
    ensures Watched(rule, origin, origin + [Sampled(t)], [Sampled(t)], t, false)
    ensures Follow([Sampled(t)]) == Observe(IDLE, Sampled(t))
  {
  }

  lemma WatchReads(rule: Rule, origin: seq<Event>, mid: seq<Event>, trace: seq<Event>, tr: seq<Event>, start: int,
                   received: bool, evs: seq<Event>, got: bool, flow: Flow)
    requires Watched(rule, origin, mid, tr, start, received) && ReadSince(mid, trace, evs, got, flow)
    requires rule.PacketRule? && !Over(Follow(tr)) && !Follow(tr).tried
    ensures Watched(rule, origin, trace, tr + (evs + LastRead(flow)), start, received || got)
    ensures var p := Follow(tr + (evs + LastRead(flow)));
            && p.fault == (if flow.Snapped? then Some(flow.errno) else None) && !p.unanswered
            && p.tried == !flow.Flowing?
  {
    hide Follow, Obeys, Allows;
    Associate(origin, tr, evs + LastRead(flow));
    Associate(tr, evs, LastRead(flow));
    FollowReads(rule, tr, evs);
    if flow.Flowing? {
      EmptySides(evs);
    } else {
      FollowMore(tr + evs, LastRead(flow)[0]);
      ObeysMore(rule, tr + evs, LastRead(flow)[0]);
    }
  }

  lemma WatchOne(rule: Rule, origin: seq<Event>, trace: seq<Event>, tr: seq<Event>, start: int, received: bool,
                 e: Event)
    requires Watched(rule, origin, trace, tr, start, received)
    requires May(rule, Follow(tr), e)
    ensures Follow(tr + [e]) == Observe(Follow(tr), e)
    ensures Watched(rule, origin, trace + [e], tr + [e], start, received || Brings(e))
  {
  }

  /** A clock sample changes nothing but the time. */
  lemma SampleKeeps(p: Progress, t: int)
    requires p.started
    ensures var q := Observe(p, Sampled(t));
            && q.started && q.start == p.start && q.now == t && q.received == p.received && q.tried == p.tried
            && q.unanswered == p.unanswered && q.fault == p.fault && q.count == p.count
  {
  }

  lemma WaitEnds(p: Progress, timeout: int, reply: WaitReply)
    requires !Over(p)
    ensures var q := Observe(p, Waited(timeout, reply));
            && q.started == p.started && q.start == p.start && q.now == p.now && q.received == p.received && !q.tried
            && q.unanswered == reply.NotReady? && q.count == p.count
            && q.fault == if reply.WaitFault? then Some(reply.errno) else None
  {
  }

  lemma WatchedAt(rule: Rule, origin: seq<Event>, trace: seq<Event>, tr: seq<Event>, start: int, received: bool)
    requires Watched(rule, origin, trace, tr, start, received)
    ensures trace == origin + tr && Obeys(rule, tr)
    ensures Follow(tr).started && Follow(tr).start == start && Follow(tr).received == received
  {
  }
}
