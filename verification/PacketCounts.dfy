/**
 What the counters say of packets, over runs that start anywhere and change modes: the good counter
 grows by exactly the packets that leave the buffer.
 */
module PacketCounts {
  import opened Extraction
  import opened Engine
  import opened Counters
  import opened Scanning
  import opened Reassembly
  import opened Carving
  import opened Accounting
  import opened DryStream
  import opened Runs
  import opened RunTheorems

  // Subsequences --------------------------------------------------------------------------------

  /** `a` is `b` with some elements left out. */
  predicate Subsequence<T(==)>(a: seq<T>, b: seq<T>)
    decreases |b|
  {
    a == [] || (b != [] && ((a[|a| - 1] == b[|b| - 1] && Subsequence(a[..|a| - 1], b[..|b| - 1]))
                            || Subsequence(a, b[..|b| - 1])))
  }

  lemma {:induction false} SubsequenceOfItself<T>(a: seq<T>)
    ensures Subsequence(a, a)
    decreases |a|
  {
    if a != [] {
      SubsequenceOfItself(a[..|a| - 1]);
    }
  }

  lemma {:induction false} SubsequenceSum<T>(a: seq<T>, b: seq<T>, c: seq<T>, d: seq<T>)
    requires Subsequence(a, b) && Subsequence(c, d)
    ensures Subsequence(a + c, b + d)
    decreases |d|
  {
    if d == [] {
      EmptySides(a);
      EmptySides(b);
    } else {
      var d' := d[..|d| - 1];
      assert (b + d)[..|b + d| - 1] == b + d';
      if c != [] && c[|c| - 1] == d[|d| - 1] && Subsequence(c[..|c| - 1], d') {
        SubsequenceSum(a, b, c[..|c| - 1], d');
        assert (a + c)[..|a + c| - 1] == a + c[..|c| - 1];
      } else {
        SubsequenceSum(a, b, c, d');
      }
    }
  }

  lemma LastIsSubsequence(ps: seq<Bytes>)
    ensures Subsequence(Gift(LastOf(ps)), ps)
  {
  }

  // Growth --------------------------------------------------------------------------------------

  /** What a run did: the bytes it took, the packets that left the buffer and those of them that were handed
      out, the bytes it removed, the bytes it counted as bad, and those that queries alone counted as good. */
  datatype Growth = Growth(taken: Bytes, gone: seq<Bytes>, given: seq<Bytes>, dropped: nat, bad: nat, seen: nat)

  const NO_GROWTH := Growth([], [], [], 0, 0, 0)

  function Sum(g: Growth, h: Growth): Growth {
    Growth(g.taken + h.taken, g.gone + h.gone, g.given + h.given, g.dropped + h.dropped, g.bad + h.bad,
           g.seen + h.seen)
  }

  /** The packets gone are packets of the bytes queued before and taken since, in order, and the rest of those
      can still be found in the buffer; the good counter has grown by their sizes, and by what queries counted
      again, and the bad one at least by the garbage removed. */
  ghost predicate Grew(f: Extractor, s: System, s': System, g: Growth) {
    && s'.consumed == s.consumed + g.taken && s'.removed == s.removed + g.dropped
    && Carries(f, s.buf + g.taken, g.gone, s'.buf)
    && s'.good == s.good + Size(g.gone) + g.seen && s'.bad == s.bad + g.bad
    && Size(g.gone) + g.bad >= g.dropped
    && (Shows(s.stats, s.bad, s.good) ==> Shows(s'.stats, s'.bad, s'.good))
    && Payloads(s'.handed) == Payloads(s.handed) + g.given && Subsequence(g.given, g.gone)
  }

  lemma GrewNothing(f: Extractor, s: System, s': System)
    requires s'.consumed == s.consumed && s'.removed == s.removed && s'.buf == s.buf && s'.handed == s.handed
    requires s'.good == s.good && s'.bad == s.bad
    requires Shows(s.stats, s.bad, s.good) ==> Shows(s'.stats, s'.bad, s'.good)
    ensures Grew(f, s, s', NO_GROWTH)
  {
    hide Shows, Carries, Payloads;
    EmptySides(s.consumed);
    EmptySides(s.buf);
    EmptySides(Payloads(s.handed));
    CarriesItself(f, s.buf);
  }

  lemma GrewSum(f: Extractor, s: System, mid: System, s': System, g: Growth, h: Growth)
    requires Grew(f, s, mid, g) && Grew(f, mid, s', h)
    ensures Grew(f, s, s', Sum(g, h))
  {
    hide Shows, Carries, Size, Payloads, Subsequence;
    Associate(s.consumed, g.taken, h.taken);
    Associate(s.buf, g.taken, h.taken);
    CarriesOn(f, s.buf + g.taken, g.gone, mid.buf, h.taken);
    CarriesTrans(f, s.buf + (g.taken + h.taken), g.gone, mid.buf + h.taken, h.gone, s'.buf);
    SizeAppend(g.gone, h.gone);
    Associate(Payloads(s.handed), g.given, h.given);
    SubsequenceSum(g.given, g.gone, h.given, h.gone);
  }

  // One call ------------------------------------------------------------------------------------

  /** The packets that leave the buffer in a call, and what it hands out of them. */
  function GoneIn(f: Extractor, last: bool, whole: Bytes, r: Call): seq<Bytes> {
    if last then Packets(f, whole) else Gift(r.tally.packet)
  }

  function GrowthOf(f: Extractor, last: bool, whole: Bytes, r: Call): Growth {
    Growth(r.tally.taken, GoneIn(f, last, whole, r), if r.exit.Returned? then Gift(r.tally.packet) else [],
           r.tally.dropped, r.tally.bad, 0)
  }

  /** A call that counts right: in extract-last mode it did not end in an overrun. */
  ghost predicate CountsRight(f: Extractor, last: bool, whole: Bytes, r: Call) {
    && Guarantee(f, last, whole, r) && Counts(last, r.tally)
    && (if last then Scanned(r.exit) && GoodCounted(f, whole, r.tally) else PacketCounted(r))
  }

  lemma SizeOfGift(p: Bytes)
    ensures Size(Gift(p)) == |p|
  {
    if p != [] {
      assert [p][1..] == [];
    }
  }

  lemma GoneIsCounted(f: Extractor, last: bool, whole: Bytes, r: Call)
    requires CountsRight(f, last, whole, r)
    ensures var g := GrowthOf(f, last, whole, r);
            && Carries(f, whole, g.gone, r.buf) && r.tally.good == Size(g.gone)
            && Size(g.gone) + g.bad >= g.dropped && Subsequence(g.given, g.gone) && (!last ==> g.given == g.gone)
  {
    hide Packets, Carries, Size, Subsequence, LastOf;
    SizeOfGift(r.tally.packet);
    LastIsSubsequence(Packets(f, whole));
    SubsequenceOfItself(Gift(r.tally.packet));
    SubsequenceOfNothing(GoneIn(f, last, whole, r));
  }

  lemma SubsequenceOfNothing<T>(b: seq<T>)
    ensures Subsequence([], b)
  {
  }

  lemma CallGrew(f: Extractor, max: nat, s: System, r: Call)
    requires InOrder(max, s.buf, s.pending, r) && CountsRight(f, s.last, s.buf + r.tally.taken, r)
    requires |r.tally.taken| <= |s.pending|
    ensures var g := GrowthOf(f, s.last, s.buf + r.tally.taken, r);
            Grew(f, s, AfterCall(s, r), g) && (!s.last ==> g.given == g.gone)
  {
    hide Packets, Carries, Size, Subsequence, CountsRight, InOrder, Shows, Credit, Payloads, Hand, GoneIn;
    var t := r.tally;
    GoneIsCounted(f, s.last, s.buf + t.taken, r);
    if Shows(s.stats, s.bad, s.good) {
      CreditShows(s.stats, s.bad, s.good, t.bad, t.good);
    }
    PayloadsHand(s.handed, s.removed + t.at, t.packet, r.exit.Returned?);
    EmptySides(Payloads(s.handed));
  }

  // Runs ----------------------------------------------------------------------------------------

  /** A step that reads or asks for packets, writes, changes modes or asks for the status; a read in extract-last mode
      does not end in the length error for a result larger than the buffer. */
  predicate Counted(f: Extractor, max: nat, s: System, op: Op)
    requires |s.buf| <= max
  {
    match op
    case Read(outSize, replies) =>
      s.last ==> ReadPacketInternal(f, s.last, max, s.buf, s.pending, replies,
                                    outSize).exit != Raised(ResultLargerThanBuffer)
    case ReadQueued => s.last ==> ExtractQueued(f, s.last, s.buf, NO_TALLY).exit != Raised(ResultLargerThanBuffer)
    case Peek => true
    case SetExtractLast(_) => true
    case GetStatus => true
    case Write(_, _) => true
    case _ => false
  }

  predicate AllCounted(f: Extractor, max: nat, s: System, ops: seq<Op>)
    requires |s.buf| <= max
    decreases |ops|
  {
    ops != [] ==> Counted(f, max, s, ops[0]) && AllCounted(f, max, Step(f, max, s, ops[0]), ops[1..])
  }

  lemma ReadCountsRight(f: Extractor, last: bool, max: nat, b: Bytes, pending: Bytes, replies: seq<Reply>, outSize: int)
    requires Resumable(f) && |b| <= max <= outSize
    ensures var r := ReadPacketInternal(f, last, max, b, pending, replies, outSize);
            (last && r.exit == Raised(ResultLargerThanBuffer)) || CountsRight(f, last, b + r.tally.taken, r)
  {
    hide ReadPacketInternal, Guarantee, Counts, GoodCounted, PacketCounted, Resumable;
    ReadPacketInternalDelivers(f, last, max, b, pending, replies, outSize);
    ReadPacketInternalCounts(f, last, max, b, pending, replies, outSize);
    RaisesOnly(f, last, max, b, pending, replies, outSize);
    if last {
      ReadPacketInternalGood(f, max, b, pending, replies, outSize);
    } else {
      ReadPacketInternalFirstGood(f, max, b, pending, replies, outSize);
    }
  }

  lemma QueuedCountsRight(f: Extractor, last: bool, b: Bytes)
    requires Resumable(f)
    ensures var r := ExtractQueued(f, last, b, NO_TALLY);
            (last && r.exit == Raised(ResultLargerThanBuffer)) || CountsRight(f, last, b, r)
  {
    hide Guarantee, Counts, GoodCounted, PacketCounted, Resumable, Extract;
    QueuedDelivers(f, last, b);
    NothingCounts(last);
    ExtractQueuedCounts(f, last, b, NO_TALLY);
    QueuedRaisesOnly(f, last, b, NO_TALLY);
    if last {
      QueuedGood(f, b);
    } else {
      QueuedFirstGood(f, b);
    }
  }

  lemma {:induction false} QueuedRaisesOnly(f: Extractor, last: bool, b: Bytes, t: Tally)
    ensures var r := ExtractQueued(f, last, b, t);
            (r.exit.Returned? || r.exit == Raised(ResultLargerThanBuffer)) && r.tally.taken == t.taken
    decreases |b|
  {
    hide Extract;
    if b != [] {
      var x := Extract(f, last, b);
      if x.Extracted? && x.packet != [] && last {
        CutIsShorter(f, last, b);
        QueuedRaisesOnly(f, last, x.rest, Absorb(t, x));
      }
    }
  }

  lemma CutIsShorter(f: Extractor, last: bool, b: Bytes)
    requires b != []
    ensures var x := Extract(f, last, b); x.Extracted? && x.packet != [] ==> |x.rest| < |b|
  {
  }

  lemma StepGrew(f: Extractor, max: nat, s: System, op: Op) returns (g: Growth)
    requires Resumable(f) && |s.buf| <= max && Counted(f, max, s, op)
    ensures Grew(f, s, Step(f, max, s, op), g) && g.seen == SeenIn(f, s, op)
    ensures op.Read? && op.outSize < max ==> Step(f, max, s, op).buf == s.buf
    ensures op.Read? && op.outSize >= max && s.last ==> g.gone == Packets(f, s.buf + g.taken)
    ensures !s.last ==> g.given == g.gone
  {
    hide ReadPacketInternal, ExtractQueued, HasPacket, CountsRight, InOrder, Grew, Resumable, AfterCall, Packets;
    if op.Read? {
      var r := ReadPacketInternal(f, s.last, max, s.buf, s.pending, op.replies, op.outSize);
      if op.outSize < max {
        g := NO_GROWTH;
        RefusedGrew(f, max, s, op);
      } else {
        ReadPacketInternalInOrder(f, s.last, max, s.buf, s.pending, op.replies, op.outSize);
        ReadCountsRight(f, s.last, max, s.buf, s.pending, op.replies, op.outSize);
        InOrderFits(max, s.buf, s.pending, r);
        CallGrew(f, max, s, r);
        g := GrowthOf(f, s.last, s.buf + r.tally.taken, r);
      }
    } else if op.ReadQueued? {
      var r := ExtractQueued(f, s.last, s.buf, NO_TALLY);
      QueuedInOrder(f, s.last, max, s.buf, s.pending);
      QueuedCountsRight(f, s.last, s.buf);
      QueuedRaisesOnly(f, s.last, s.buf, NO_TALLY);
      EmptySides(s.buf);
      CallGrew(f, max, s, r);
      g := GrowthOf(f, s.last, s.buf, r);
    } else if op.Peek? {
      g := PeekGrew(f, max, s);
    } else {
      g := NO_GROWTH;
      OtherGrew(f, max, s, op);
    }
  }

  lemma InOrderFits(max: nat, b: Bytes, pending: Bytes, r: Call)
    requires InOrder(max, b, pending, r)
    ensures |r.tally.taken| <= |pending|
  {
  }

  lemma RefusedGrew(f: Extractor, max: nat, s: System, op: Op)
    requires |s.buf| <= max && op.Read? && op.outSize < max
    ensures Grew(f, s, Step(f, max, s, op), NO_GROWTH) && Step(f, max, s, op).buf == s.buf
  {
    var s' := Step(f, max, s, op);
    EmptySides(s.consumed);
    if Shows(s.stats, s.bad, s.good) {
      CreditShows(s.stats, s.bad, s.good, 0, 0);
    }
    GrewNothing(f, s, s');
    hide Grew, Shows, Credit;
  }

  lemma OtherGrew(f: Extractor, max: nat, s: System, op: Op)
    requires |s.buf| <= max && Counted(f, max, s, op) && !op.Read? && !op.ReadQueued? && !op.Peek?
    ensures Grew(f, s, Step(f, max, s, op), NO_GROWTH)
  {
    hide Grew, Credit;
    GrewNothing(f, s, Step(f, max, s, op));
  }

  /** What a step counts as good that does not leave the buffer: in extract-last mode a query counts all packets in it,
      and every time. */
  function SeenIn(f: Extractor, s: System, op: Op): nat {
    if op.Peek? && s.last then Size(Packets(f, s.buf)) else 0
  }

  function SeenBy(f: Extractor, max: nat, s: System, ops: seq<Op>): nat
    requires |s.buf| <= max
    decreases |ops|
  {
    if ops == [] then 0 else SeenIn(f, s, ops[0]) + SeenBy(f, max, Step(f, max, s, ops[0]), ops[1..])
  }

  lemma {:induction false} SeesNothing(f: Extractor, max: nat, s: System, ops: seq<Op>)
    requires |s.buf| <= max && forall op <- ops :: !op.Peek?
    ensures SeenBy(f, max, s, ops) == 0
    decreases |ops|
  {
    hide Step;
    if ops != [] {
      assert ops[0] in ops;
      SeesNothing(f, max, Step(f, max, s, ops[0]), ops[1..]);
    }
  }

  lemma PeekGrew(f: Extractor, max: nat, s: System) returns (g: Growth)
    requires |s.buf| <= max
    ensures Grew(f, s, Step(f, max, s, Peek), g) && g.seen == SeenIn(f, s, Peek) && g.gone == [] && g.given == []
  {
    hide HasPacket, Packets, Grew, Credit;
    var r := HasPacket(f, s.last, s.buf);
    HasPacketCounts(f, s.last, s.buf);
    CountingGrew(f, s, r.bad, r.good);
    g := Growth([], [], [], 0, r.bad, r.good);
  }

  lemma CountingGrew(f: Extractor, s: System, bad: nat, good: nat)
    ensures Grew(f, s, s.(stats := Credit(s.stats, bad, good), good := s.good + good, bad := s.bad + bad),
                 Growth([], [], [], 0, bad, good))
  {
    hide Packets, Carries, Payloads, Subsequence, Shows, Credit;
    EmptySides(s.consumed);
    EmptySides(s.buf);
    EmptySides(Payloads(s.handed));
    CarriesItself(f, s.buf);
    SubsequenceOfNothing<Bytes>([]);
    if Shows(s.stats, s.bad, s.good) {
      CreditShows(s.stats, s.bad, s.good, bad, good);
    }
  }

  /** Over any run of packet reads, from any buffer and across mode switches, errors included: the packets of the
      bytes queued before and taken since are those that left the buffer and then those still in it; the good counter
      has grown by exactly the sizes of the former, returned or superseded, each counted once, and by what queries of
      extract-last mode saw; the packets handed out are among them, in order; and the bad counter has grown at least
      by the garbage removed. */
  lemma {:induction false} RunCountsPackets(f: Extractor, max: nat, s: System, ops: seq<Op>) returns (g: Growth)
    requires Resumable(f) && |s.buf| <= max && AllCounted(f, max, s, ops)
    ensures Grew(f, s, Run(f, max, s, ops), g)
    ensures Packets(f, s.buf + g.taken) == g.gone + Packets(f, Run(f, max, s, ops).buf)
    ensures g.seen == SeenBy(f, max, s, ops)
    decreases |ops|
  {
    hide Step, Counted, Resumable, Packets, Carries, Payloads, Subsequence, Size, SeenIn;
    if ops == [] {
      g := NO_GROWTH;
      GrewNothing(f, s, s);
    } else {
      var h := StepGrew(f, max, s, ops[0]);
      var k := RunCountsPackets(f, max, Step(f, max, s, ops[0]), ops[1..]);
      GrewSum(f, s, Step(f, max, s, ops[0]), Run(f, max, s, ops), h, k);
      g := Sum(h, k);
    }
    CarriesNow(f, s.buf + g.taken, g.gone, Run(f, max, s, ops).buf);
  }

  /** In extract-last mode, from a buffer without packets, none is left behind either: all packets are gone. */
  lemma {:induction false} RunLeavesNone(f: Extractor, max: nat, s: System, ops: seq<Op>)
    requires Resumable(f) && |s.buf| <= max && AllCounted(f, max, s, ops)
    requires s.last && Packets(f, s.buf) == [] && forall op <- ops :: op.Read?
    ensures Packets(f, Run(f, max, s, ops).buf) == []
    decreases |ops|
  {
    hide Counted, Resumable, Packets, Carries, Payloads, Subsequence, Size, ReadPacketInternal;
    if ops != [] {
      var s1 := Step(f, max, s, ops[0]);
      var g := StepGrew(f, max, s, ops[0]);
      CarriesNow(f, s.buf + g.taken, g.gone, s1.buf);
      RunLeavesNone(f, max, s1, ops[1..]);
    }
  }

  lemma RunCountsLast(f: Extractor, max: nat, s: System, ops: seq<Op>) returns (g: Growth)
    requires Resumable(f) && |s.buf| <= max && AllCounted(f, max, s, ops)
    requires s.last && Packets(f, s.buf) == [] && forall op <- ops :: op.Read?
    ensures Grew(f, s, Run(f, max, s, ops), g) && g.gone == Packets(f, s.buf + g.taken) && g.seen == 0
  {
    hide Run, Grew, Packets, Resumable, SeenBy;
    SeesNothing(f, max, s, ops);
    g := RunCountsPackets(f, max, s, ops);
    RunLeavesNone(f, max, s, ops);
    EmptySides(g.gone);
  }

  /** What good bytes are beyond those handed out, as packets. */
  function Unhanded(s: System): int {
    s.good - Size(Payloads(s.handed))
  }

  lemma CallHandsGood(s: System, r: Call)
    requires |r.tally.taken| <= |s.pending| && PacketCounted(r)
    ensures Unhanded(AfterCall(s, r)) == Unhanded(s)
  {
    hide Hand, Payloads, Size;
    var t := r.tally;
    PayloadsHand(s.handed, s.removed + t.at, t.packet, r.exit.Returned?);
    SizeAppend(Payloads(s.handed), Gift(t.packet));
    SizeOfGift(t.packet);
  }

  lemma StepHandsGood(f: Extractor, max: nat, s: System, op: Op)
    requires |s.buf| <= max && !s.last && (ReadsPackets(op) || op.SetExtractLast?) && !op.ResetStatus?
    ensures Unhanded(Step(f, max, s, op)) == Unhanded(s)
  {
    hide ReadPacketInternal, ExtractQueued, PacketCounted, InOrder, AfterCall, FindPacket, Unhanded;
    if op.Read? {
      var r := ReadPacketInternal(f, false, max, s.buf, s.pending, op.replies, op.outSize);
      ReadPacketInternalInOrder(f, s.last, max, s.buf, s.pending, op.replies, op.outSize);
      ReadPacketInternalFirstGood(f, max, s.buf, s.pending, op.replies, op.outSize);
      InOrderFits(max, s.buf, s.pending, r);
      CallHandsGood(s, r);
    } else if op.ReadQueued? {
      QueuedInOrder(f, s.last, max, s.buf, s.pending);
      QueuedFirstGood(f, s.buf);
      QueuedRaisesOnly(f, s.last, s.buf, NO_TALLY);
      CallHandsGood(s, ExtractQueued(f, false, s.buf, NO_TALLY));
    } else {
      OtherHandsGood(f, max, s, op);
    }
  }

  lemma OtherHandsGood(f: Extractor, max: nat, s: System, op: Op)
    requires |s.buf| <= max && !s.last && (op.Peek? || op.GetStatus? || op.SetExtractLast? || op.Write?)
    ensures Unhanded(Step(f, max, s, op)) == Unhanded(s)
  {
    hide FindPacket, Payloads, Size;
    if op.Peek? && s.buf != [] {
      ScanFirst(f, s.buf);
    }
  }

  /** In first-packet mode, whatever the extractor, the good counter grows by exactly the packets handed out. */
  lemma {:induction false} RunHandsGood(f: Extractor, max: nat, s: System, ops: seq<Op>)
    requires |s.buf| <= max && !s.last
    requires forall op <- ops :: (ReadsPackets(op) && !op.ResetStatus?) || (op.SetExtractLast? && !op.flag)
    ensures var s' := Run(f, max, s, ops);
            s'.good - s.good == Size(Payloads(s'.handed)) - Size(Payloads(s.handed))
    decreases |ops|
  {
    hide Step, Payloads, Size;
    if ops != [] {
      StepHandsGood(f, max, s, ops[0]);
      StaysFirst(f, max, s, ops[0]);
      RunHandsGood(f, max, Step(f, max, s, ops[0]), ops[1..]);
    }
  }

  // Extractors that keep to their range -----------------------------------------------------------

  /** The extractor never claims a packet larger than the bytes it was shown. */
  ghost predicate InBounds(f: Extractor) {
    forall b: Bytes :: b != [] ==> f(b) <= |b|
  }

  lemma {:induction false} NeverTooLong(f: Extractor, last: bool, b: Bytes)
    requires InBounds(f) && b != []
    ensures FindPacket(f, last, b).Found?
    decreases |b|
  {
    if 0 < Span(f, b) < |b| {
      NeverTooLong(f, last, b[Span(f, b)..]);
    }
  }

  lemma NeverRefused(f: Extractor, last: bool, b: Bytes)
    requires InBounds(f) && b != []
    ensures Extract(f, last, b).Extracted?
  {
    NeverTooLong(f, last, b);
    hide FindPacket, InBounds;
  }

  lemma {:induction false} LoopNeverRefused(f: Extractor, last: bool, max: nat, b: Bytes, pending: Bytes,
                                            replies: seq<Reply>, t: Tally)
    requires InBounds(f) && |b| <= max
    ensures ReadLoop(f, last, max, b, pending, replies, t).exit != Raised(ResultLargerThanBuffer)
    decreases |pending|
  {
    hide InBounds, Extract, ChunkSize, Delivered, Remaining, Took, Absorb;
    var room := max - |b|;
    if ChunkSize(pending, replies, room) != 0 {
      NeverRefused(f, last, b + Delivered(pending, replies, room));
    }
    var turn := ReadTurn(f, last, max, b, pending, replies, t);
    if turn.Again? {
      LoopNeverRefused(f, last, max, turn.buf, turn.pending, turn.replies, turn.tally);
    }
  }

  lemma CallNeverRefused(f: Extractor, last: bool, max: nat, b: Bytes, pending: Bytes, replies: seq<Reply>,
                         outSize: int)
    requires InBounds(f) && |b| <= max
    ensures ReadPacketInternal(f, last, max, b, pending, replies, outSize).exit != Raised(ResultLargerThanBuffer)
  {
    hide InBounds, Extract, ReadLoop;
    if b == [] {
      LoopNeverRefused(f, last, max, b, pending, replies, NO_TALLY);
    } else {
      NeverRefused(f, last, b);
      var x := Extract(f, last, b);
      LoopNeverRefused(f, last, max, x.rest, pending, replies, Absorb(NO_TALLY, x));
    }
  }

  predicate Reads(op: Op) {
    op.Read? || op.Write? || op.Peek? || op.SetExtractLast? || op.GetStatus?
  }

  /** For them all runs of packet reads and mode switches count right. */
  lemma {:induction false} AllAreCounted(f: Extractor, max: nat, s: System, ops: seq<Op>)
    requires InBounds(f) && |s.buf| <= max && forall op <- ops :: Reads(op)
    ensures AllCounted(f, max, s, ops)
    decreases |ops|
  {
    hide InBounds, Step, ReadPacketInternal;
    if ops != [] {
      var op := ops[0];
      assert op in ops;
      if op.Read? {
        CallNeverRefused(f, s.last, max, s.buf, s.pending, op.replies, op.outSize);
      }
      AllAreCounted(f, max, Step(f, max, s, op), ops[1..]);
    }
  }
}
