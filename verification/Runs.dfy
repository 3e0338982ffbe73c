/**
 Whole runs.  A system is a driver reading from one stream, with the history an outside observer
 could keep; a run is any list of operations, each carrying the answers its stream gives, in any
 order, in both modes, errors included.
 */
module Runs {
  import opened Extraction
  import opened Engine
  import opened Counters
  import opened Carving

  /** Bytes handed to a caller, and where they were in the bytes consumed from the stream. */
  datatype Slice = Slice(at: nat, bytes: Bytes)

  /** `buf`, `last` and `stats` are the driver's, `pending` the stream's.  The rest is history:
      `consumed` are all bytes taken from the stream, of which `removed` are no longer in the buffer;
      `handed` went to callers; `written` are all bytes the stream accepted; `fed` and `bypassed`
      count the bytes that entered the buffer and that left it other than by extraction, and `good`
      and `bad` what was credited, since the last reset, when the buffer held `base` bytes. */
  datatype System = System(
    buf: Bytes, last: bool, stats: Status, pending: Bytes,
    consumed: Bytes, removed: nat, handed: seq<Slice>, written: Bytes,
    fed: nat, bypassed: nat, good: nat, bad: nat, base: nat)

  function Start(last: bool, stream: Bytes): System {
    System([], last, EMPTY_STATUS, stream, [], 0, [], [], 0, 0, 0, 0, 0)
  }

  datatype Op =
    | Read(outSize: int, replies: seq<Reply>)
    | ReadQueued
    | ReadRaw(wanted: nat, offer: nat, fails: bool)
    | Write(data: Bytes, done: bool)
    | Peek
    | Clear(drops: bool)
    | SetExtractLast(flag: bool)
    | GetStatus
    | ResetStatus

  function Hand(handed: seq<Slice>, at: nat, bytes: Bytes, gives: bool): seq<Slice> {
    if gives && bytes != [] then handed + [Slice(at, bytes)] else handed
  }

  function Gift(given: Bytes): seq<Bytes> {
    if given == [] then [] else [given]
  }

  /** What was handed out, without the positions. */
  function Payloads(handed: seq<Slice>): seq<Bytes> {
    if handed == [] then [] else Payloads(handed[..|handed| - 1]) + [handed[|handed| - 1].bytes]
  }

  lemma PayloadsHand(handed: seq<Slice>, at: nat, bytes: Bytes, gives: bool)
    ensures Payloads(Hand(handed, at, bytes, gives)) == Payloads(handed) + if gives then Gift(bytes) else []
  {
  }

  /** The effect of a call that went through the internal buffer. */
  function AfterCall(s: System, r: Call): System
    requires |r.tally.taken| <= |s.pending|
  {
    System(r.buf, s.last, Credit(s.stats, r.tally.bad, r.tally.good), s.pending[|r.tally.taken|..],
           s.consumed + r.tally.taken, s.removed + r.tally.dropped,
           Hand(s.handed, s.removed + r.tally.at, r.tally.packet, r.exit.Returned?), s.written,
           s.fed + |r.tally.taken|, s.bypassed, s.good + r.tally.good, s.bad + r.tally.bad, s.base)
  }

  /** How many queued bytes readRaw pulls, and how many it then reads from the stream itself, where
      its timeouts allow `offer`. */
  function Pulled(buf: Bytes, outSize: nat): (n: nat)
    ensures n <= |buf| && n <= outSize
  {
    Min(|buf|, outSize)
  }

  /** As many as there are, or are wanted. */
  predicate AllPulled(n: nat, buf: Bytes, outSize: nat) {
    n == |buf| || n == outSize
  }

  lemma PulledAll(buf: Bytes, outSize: nat)
    ensures Pulled(buf, outSize) == Min(|buf|, outSize) && AllPulled(Pulled(buf, outSize), buf, outSize)
  {
  }

  function FreshBytes(buf: Bytes, pending: Bytes, outSize: nat, offer: nat): (k: nat)
    ensures k <= |pending| && Pulled(buf, outSize) + k <= outSize
    ensures k > 0 ==> Pulled(buf, outSize) == |buf|
  {
    if Pulled(buf, outSize) < outSize
    then Min(offer, Min(outSize - Pulled(buf, outSize), |pending|))
    else 0
  }

  function AfterRaw(s: System, outSize: nat, offer: nat, fails: bool): System {
    var n := Pulled(s.buf, outSize);
    var k := FreshBytes(s.buf, s.pending, outSize, offer);
    s.(buf := s.buf[n..], pending := s.pending[k..],
       consumed := s.consumed + s.pending[..k], removed := s.removed + n + k,
       handed := Hand(s.handed, s.removed, s.buf[..n] + s.pending[..k], !fails),
       bypassed := s.bypassed + n)
  }

  /** `data` is what the stream accepted, all of the packet if the write is `done`; only then it is counted. */
  function AfterWrite(s: System, data: Bytes, done: bool): System {
    s.(written := s.written + data, stats := if done then s.stats.(tx := Add32(s.stats.tx, |data|)) else s.stats)
  }

  function Cleared(s: System, drops: bool): System {
    s.(buf := [], removed := |s.consumed|, bypassed := s.bypassed + |s.buf|,
       pending := if drops then [] else s.pending)
  }

  function Step(f: Extractor, max: nat, s: System, op: Op): (s': System)
    requires |s.buf| <= max
    ensures |s'.buf| <= max
  {
    match op
    case Read(outSize, replies) =>
      ReadPacketInternalInOrder(f, s.last, max, s.buf, s.pending, replies, outSize);
      AfterCall(s, ReadPacketInternal(f, s.last, max, s.buf, s.pending, replies, outSize))
    case ReadQueued =>
      QueuedInOrder(f, s.last, max, s.buf, s.pending);
      AfterCall(s, ExtractQueued(f, s.last, s.buf, NO_TALLY))
    case ReadRaw(wanted, offer, fails) => AfterRaw(s, wanted, offer, fails)
    case Write(data, done) => AfterWrite(s, data, done)
    case Peek =>
      var r := HasPacket(f, s.last, s.buf);
      s.(stats := Credit(s.stats, r.bad, r.good), good := s.good + r.good, bad := s.bad + r.bad)
    case Clear(drops) => Cleared(s, drops)
    case SetExtractLast(flag) => s.(last := flag)
    case GetStatus => s.(stats := s.stats.(queuedBytes := Wrap(|s.buf|)))
    case ResetStatus => s.(stats := EMPTY_STATUS, fed := 0, bypassed := 0, good := 0, bad := 0, base := |s.buf|)
  }

  lemma QueuedInOrder(f: Extractor, last: bool, max: nat, b: Bytes, pending: Bytes)
    requires |b| <= max
    ensures var r := ExtractQueued(f, last, b, NO_TALLY);
            r.tally.taken == [] && InOrder(max, b, pending, r)
  {
    ExtractQueuedInOrder(f, last, b, b, NO_TALLY);
    EmptySides(b);
  }

  // Order ---------------------------------------------------------------------------------------

  /** The slices handed out are pieces of the consumed bytes, one behind the other, none of them
      beyond `limit`. */
  predicate HandedInOrder(handed: seq<Slice>, consumed: Bytes, limit: nat)
    decreases |handed|
  {
    limit <= |consumed| &&
    (handed != [] ==>
      var x := handed[|handed| - 1];
      && x.at + |x.bytes| <= limit
      && x.bytes == consumed[x.at..x.at + |x.bytes|]
      && HandedInOrder(handed[..|handed| - 1], consumed, x.at))
  }

  /** The internal buffer is exactly the suffix of the consumed bytes that was not removed yet, it
      fits its capacity, and what was handed out is in order and disjoint. */
  predicate Ordered(max: nat, s: System) {
    && s.removed <= |s.consumed| && s.buf == s.consumed[s.removed..] && |s.buf| <= max
    && HandedInOrder(s.handed, s.consumed, s.removed)
  }

  lemma {:induction false} HandedStays(handed: seq<Slice>, consumed: Bytes, limit: nat, more: Bytes, limit': nat)
    requires HandedInOrder(handed, consumed, limit) && limit <= limit' <= |consumed| + |more|
    ensures HandedInOrder(handed, consumed + more, limit')
    decreases |handed|
  {
    if handed != [] {
      var x := handed[|handed| - 1];
      HandedStays(handed[..|handed| - 1], consumed, x.at, more, x.at);
      assert (consumed + more)[x.at..x.at + |x.bytes|] == consumed[x.at..x.at + |x.bytes|];
    }
  }

  lemma HandedGrows(handed: seq<Slice>, consumed: Bytes, at: nat, bytes: Bytes, limit: nat)
    requires HandedInOrder(handed, consumed, at) && at + |bytes| <= limit <= |consumed|
    requires bytes == consumed[at..at + |bytes|]
    ensures HandedInOrder(handed + [Slice(at, bytes)], consumed, limit)
  {
    assert (handed + [Slice(at, bytes)])[..|handed|] == handed;
  }

  /** Read without induction: slices lie one behind the other. */
  lemma {:induction false} HandedDisjoint(handed: seq<Slice>, consumed: Bytes, limit: nat, i: nat, j: nat)
    requires HandedInOrder(handed, consumed, limit) && i < j < |handed|
    ensures handed[i].at + |handed[i].bytes| <= handed[j].at
    ensures handed[j].at + |handed[j].bytes| <= limit
    ensures handed[i].bytes == consumed[handed[i].at..handed[i].at + |handed[i].bytes|]
    decreases |handed|
  {
    var init, x := handed[..|handed| - 1], handed[|handed| - 1];
    if j < |init| {
      HandedDisjoint(init, consumed, x.at, i, j);
    } else {
      HandedAt(init, consumed, x.at, i);
    }
  }

  lemma {:induction false} HandedAt(handed: seq<Slice>, consumed: Bytes, limit: nat, i: nat)
    requires HandedInOrder(handed, consumed, limit) && i < |handed|
    ensures handed[i].at + |handed[i].bytes| <= limit
    ensures handed[i].bytes == consumed[handed[i].at..handed[i].at + |handed[i].bytes|]
    decreases |handed|
  {
    if i < |handed| - 1 {
      HandedAt(handed[..|handed| - 1], consumed, handed[|handed| - 1].at, i);
    }
  }

  /** Bytes behind an ordered system's buffer are the buffer's, seen from the stream. */
  lemma SeenFromStream(consumed: Bytes, removed: nat, more: Bytes, i: nat, n: nat)
    requires removed <= |consumed| && removed + i + n <= |consumed| + |more|
    ensures (consumed[removed..] + more)[i..i + n] == (consumed + more)[removed + i..removed + i + n]
    ensures (consumed[removed..] + more)[i + n..] == (consumed + more)[removed + i + n..]
  {
    SliceUnderAppend(consumed, more, removed, 0, 0);
    SliceOfTail(consumed + more, removed, i, n);
  }

  /** Bytes arrive, a prefix of what is then there is removed, and a slice of it handed out. */
  lemma HandedAdvances(handed: seq<Slice>, consumed: Bytes, removed: nat, more: Bytes, dropped: nat,
                       at: nat, bytes: Bytes, gives: bool)
    requires HandedInOrder(handed, consumed, removed)
    requires removed + dropped <= |consumed| + |more| && at + |bytes| <= dropped
    requires bytes == (consumed + more)[removed + at..removed + at + |bytes|]
    ensures HandedInOrder(Hand(handed, removed + at, bytes, gives), consumed + more, removed + dropped)
  {
    assert removed <= |consumed|;
    if gives && bytes != [] {
      HandedStays(handed, consumed, removed, more, removed + at);
      HandedGrows(handed, consumed + more, removed + at, bytes, removed + dropped);
    } else {
      HandedStays(handed, consumed, removed, more, removed + dropped);
    }
  }

  lemma CallOrdered(max: nat, s: System, r: Call)
    requires Ordered(max, s) && InOrder(max, s.buf, s.pending, r)
    ensures Ordered(max, AfterCall(s, r))
  {
    hide HandedInOrder;
    var t := r.tally;
    SeenFromStream(s.consumed, s.removed, t.taken, t.dropped, 0);
    SeenFromStream(s.consumed, s.removed, t.taken, t.at, |t.packet|);
    HandedAdvances(s.handed, s.consumed, s.removed, t.taken, t.dropped, t.at, t.packet, r.exit.Returned?);
  }

  /** What readRaw hands out is a prefix of the queued and pending bytes taken together. */
  lemma RawIsPrefix(buf: Bytes, pending: Bytes, wanted: nat, offer: nat)
    ensures var n, k := Pulled(buf, wanted), FreshBytes(buf, pending, wanted, offer);
            && (k > 0 ==> n == |buf|)
            && buf[..n] + pending[..k] == (buf + pending[..k])[0..n + k]
            && buf[n..] == (buf + pending[..k])[n + k..]
  {
  }

  lemma RawOrdered(max: nat, s: System, wanted: nat, offer: nat, fails: bool)
    requires Ordered(max, s)
    ensures Ordered(max, AfterRaw(s, wanted, offer, fails))
  {
    hide HandedInOrder, FreshBytes, Pulled, Hand;
    var n, k := Pulled(s.buf, wanted), FreshBytes(s.buf, s.pending, wanted, offer);
    var more := s.pending[..k];
    RawIsPrefix(s.buf, s.pending, wanted, offer);
    SeenFromStream(s.consumed, s.removed, more, 0, n + k);
    HandedAdvances(s.handed, s.consumed, s.removed, more, n + k, 0, s.buf[..n] + more, !fails);
  }

  lemma ClearOrdered(max: nat, s: System, drops: bool)
    requires Ordered(max, s)
    ensures Ordered(max, Cleared(s, drops))
  {
  }

  lemma SameBytesOrdered(max: nat, s: System, s': System)
    requires Ordered(max, s)
    requires s'.buf == s.buf && s'.consumed == s.consumed && s'.removed == s.removed && s'.handed == s.handed
    ensures Ordered(max, s')
  {
  }

  lemma StepOrdered(f: Extractor, max: nat, s: System, op: Op)
    requires Ordered(max, s) && |s.buf| <= max
    ensures Ordered(max, Step(f, max, s, op))
  {
    hide Ordered, AfterCall, AfterRaw, Cleared, ReadPacketInternal, ExtractQueued, HasPacket, InOrder;
    match op
    case Read(outSize, replies) =>
      ReadPacketInternalInOrder(f, s.last, max, s.buf, s.pending, replies, outSize);
      CallOrdered(max, s, ReadPacketInternal(f, s.last, max, s.buf, s.pending, replies, outSize));
    case ReadQueued =>
      QueuedInOrder(f, s.last, max, s.buf, s.pending);
      CallOrdered(max, s, ExtractQueued(f, s.last, s.buf, NO_TALLY));
    case ReadRaw(wanted, offer, fails) =>
      RawOrdered(max, s, wanted, offer, fails);
    case Clear(drops) =>
      ClearOrdered(max, s, drops);
    case _ =>
      SameBytesOrdered(max, s, Step(f, max, s, op));
  }

  function Run(f: Extractor, max: nat, s: System, ops: seq<Op>): (s': System)
    requires |s.buf| <= max
    ensures |s'.buf| <= max
    decreases |ops|
  {
    if ops == [] then s else Run(f, max, Step(f, max, s, ops[0]), ops[1..])
  }

  /** Over any interleaving of reads of either kind, mode switches, queries, clears and errors, the
      buffer is exactly the unremoved suffix of the bytes consumed, never beyond its capacity, and
      callers have been handed disjoint slices of the consumed bytes in increasing order. */
  lemma {:induction false} RunKeepsOrder(f: Extractor, max: nat, s: System, ops: seq<Op>)
    requires Ordered(max, s)
    ensures Ordered(max, Run(f, max, s, ops))
    decreases |ops|
  {
    hide Step, HandedInOrder;
    if ops != [] {
      StepOrdered(f, max, s, ops[0]);
      RunKeepsOrder(f, max, Step(f, max, s, ops[0]), ops[1..]);
    }
  }

  /** What is consumed was next on the stream: nothing is skipped, repeated or invented. */
  lemma {:induction false} RunDrawsFromStream(f: Extractor, max: nat, s: System, ops: seq<Op>)
    requires Ordered(max, s) && forall op <- ops :: !op.Clear?
    ensures var s' := Run(f, max, s, ops); s'.consumed + s'.pending == s.consumed + s.pending
    decreases |ops|
  {
    hide Step, HandedInOrder;
    if ops != [] {
      StepOrdered(f, max, s, ops[0]);
      StepDraws(f, max, s, ops[0]);
      RunDrawsFromStream(f, max, Step(f, max, s, ops[0]), ops[1..]);
    }
  }

  lemma StepDraws(f: Extractor, max: nat, s: System, op: Op)
    requires |s.buf| <= max && !op.Clear?
    ensures var s' := Step(f, max, s, op); s'.consumed + s'.pending == s.consumed + s.pending
  {
    hide ReadPacketInternal, ExtractQueued, HasPacket, FreshBytes;
    match op
    case Read(outSize, replies) =>
      ReadPacketInternalInOrder(f, s.last, max, s.buf, s.pending, replies, outSize);
      var r := ReadPacketInternal(f, s.last, max, s.buf, s.pending, replies, outSize);
      MovePrefix(s.consumed, s.pending, |r.tally.taken|);
    case ReadQueued =>
      QueuedInOrder(f, s.last, max, s.buf, s.pending);
      EmptySides(s.consumed);
      EmptySides(s.pending);
    case ReadRaw(wanted, offer, fails) =>
      MovePrefix(s.consumed, s.pending, FreshBytes(s.buf, s.pending, wanted, offer));
    case _ =>
  }
}
