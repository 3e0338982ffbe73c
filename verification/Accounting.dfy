/**
 The byte counters.  In first-packet mode every byte that leaves the buffer through extraction is
 counted once, as good or as bad.  In extract-last mode good bytes are counted exactly, but garbage
 that the scan sees and does not remove is counted again by the next scan.
 */
module Accounting {
  import opened Extraction
  import opened Engine
  import opened Scanning
  import opened Reassembly
  import opened Carving
  import opened DryStream

  /** The counters have grown by exactly the bytes dropped. */
  predicate Balanced(t: Tally) {
    t.good + t.bad == t.dropped
  }

  /** The counters have grown by at least the bytes dropped. */
  predicate Covered(t: Tally) {
    t.good + t.bad >= t.dropped
  }

  predicate Counts(last: bool, t: Tally) {
    if last then Covered(t) else Balanced(t)
  }

  lemma ExtractCounts(f: Extractor, last: bool, b: Bytes, t: Tally)
    requires b != [] && Counts(last, t)
    ensures Counts(last, Absorb(t, Extract(f, last, b)))
  {
    if last {
      ExtractOvercounts(f, b);
    } else {
      ScanFirst(f, b);
    }
  }

  /** One extraction of extract-last mode counts what it removes plus the garbage it leaves. */
  lemma ExtractOvercounts(f: Extractor, b: Bytes)
    requires b != []
    ensures var x := Extract(f, true, b);
            x.Extracted? ==>
              && x.good == Size(Packets(f, b))
              && x.good + x.bad == x.offset + |x.packet| + Garbage(f, x.rest)
              && Garbage(f, x.rest) >= 0
  {
    ScanLastCounts(f, b);
    var x := Extract(f, true, b);
    if x.Extracted? {
      LeavesTail(f, b);
      ParseWithinBounds(f, x.rest);
    }
  }

  lemma OverrunRefuses(f: Extractor, b: Bytes)
    requires b != [] && Extract(f, true, b).Extracted?
    ensures f(b) <= |b|
  {
  }

  /** The bytes behind the last packet of `b`. */
  function BehindLast(f: Extractor, b: Bytes): Bytes
    decreases |b|
  {
    if b == [] || Span(f, b) == 0 then b
    else if Packets(f, b[Span(f, b)..]) == [] then b[Span(f, b)..]
    else BehindLast(f, b[Span(f, b)..])
  }

  /** A scan finds the last packet of what is behind the first decision, or else cuts there. */
  lemma ScanBehind(f: Extractor, b: Bytes)
    requires b != [] && FindPacket(f, true, b).Found?
    ensures var n, r := Span(f, b), FindPacket(f, true, b);
            if n == 0 || n == |b| then Rest(b, r) == b[n..]
            else
              var r' := FindPacket(f, true, b[n..]);
              r'.Found? && if r'.size == 0 then Rest(b, r) == b[n..] else Shifted(b, n, r', r)
  {
  }

  lemma SizeTells(f: Extractor, b: Bytes)
    requires b != [] && FindPacket(f, true, b).Found?
    ensures FindPacket(f, true, b).size == 0 <==> Packets(f, b) == []
  {
    ScanLast(f, b);
    hide FindPacket, Packets;
  }

  lemma NoPacketBehind(f: Extractor, b: Bytes)
    requires b != [] && Packets(f, b) == []
    ensures Packets(f, b[Span(f, b)..]) == []
  {
  }

  /** So the bytes behind the first decision of a buffer without packets, or else those behind its last
      packet, are what an extraction of extract-last mode leaves. */
  lemma {:induction false} LeavesBehindLast(f: Extractor, b: Bytes)
    requires b != []
    ensures var r := FindPacket(f, true, b);
            r.Found? ==> Rest(b, r) == if Packets(f, b) == [] then b[Span(f, b)..] else BehindLast(f, b)
    decreases |b|
  {
    hide FindPacket, Packets, Rest, Shifted, Span;
    if FindPacket(f, true, b).Found? {
      var r, c := FindPacket(f, true, b), b[Span(f, b)..];
      ScanBehind(f, b);
      if Packets(f, b) == [] {
        NoPacketBehind(f, b);
      }
      if Span(f, b) == 0 {
        NoDecision(f, b);
      } else if c == [] {
        NoDecision(f, c);
      } else {
        var r' := FindPacket(f, true, c);
        SizeTells(f, c);
        if r'.size > 0 {
          LeavesBehindLast(f, c);
          Shift(b, Span(f, b), r', r);
        }
      }
    }
  }

  /** So an extraction of extract-last mode conserves the count exactly when the extractor would wait on
      what is behind the last packet or, without any packet, behind the first discard. */
  lemma ExtractConservesIffUndecided(f: Extractor, b: Bytes)
    requires b != [] && !EndsInOverrun(f, b)
    ensures var x, t := Extract(f, true, b), if Packets(f, b) == [] then b[Span(f, b)..] else BehindLast(f, b);
            x.Extracted? && (x.good + x.bad == x.offset + |x.packet| <==> t == [] || f(t) == 0)
  {
    ScanLastCounts(f, b);
    LeavesBehindLast(f, b);
    ConservesIffRestUndecided(f, b);
    hide FindPacket, Packets, BehindLast, EndsInOverrun;
  }

  lemma ConservesIffRestUndecided(f: Extractor, b: Bytes)
    requires b != [] && Extract(f, true, b).Extracted?
    ensures var x := Extract(f, true, b);
            x.good + x.bad == x.offset + |x.packet| <==> x.rest == [] || f(x.rest) == 0
  {
    ExtractOvercounts(f, b);
    LeavesTail(f, b);
    var x := Extract(f, true, b);
    if x.rest == [] {
      NoDecision(f, x.rest);
    } else {
      NothingBehind(f, b);
      GarbageAhead(f, x.rest);
      OverrunRefuses(f, x.rest);
    }
    hide Extract, Packets, Residue;
  }

  /** A buffer without packets holds garbage exactly when the extractor discards right away. */
  lemma GarbageAhead(f: Extractor, b: Bytes)
    requires b != [] && Packets(f, b) == []
    ensures Garbage(f, b) > 0 <==> f(b) < 0
  {
    ParseWithinBounds(f, b);
    if f(b) < 0 {
      ParseWithinBounds(f, b[-f(b)..]);
    }
  }

  // Whole calls ---------------------------------------------------------------------------------

  predicate TurnCounts(last: bool, r: Turn) {
    Counts(last, TallyOf(r))
  }

  lemma ReadingCounts(last: bool, t: Tally, room: nat, data: Bytes)
    requires Counts(last, t)
    ensures Counts(last, Took(t, room, data))
  {
  }

  lemma NothingCounts(last: bool)
    ensures Counts(last, NO_TALLY)
  {
  }

  lemma CutCounts(last: bool, max: nat, b: Bytes, x: Cut, pending: Bytes, replies: seq<Reply>, t: Tally)
    requires |b| <= max && CutOf(b, x) && Counts(last, Absorb(t, x))
    ensures TurnCounts(last, AfterCut(last, max, b, x, pending, replies, t))
  {
  }

  lemma LoopTurnCounts(f: Extractor, last: bool, max: nat, b: Bytes, pending: Bytes, replies: seq<Reply>, t: Tally)
    requires |b| <= max && Counts(last, t)
    ensures TurnCounts(last, ReadTurn(f, last, max, b, pending, replies, t))
  {
    hide Extract, ChunkSize, Delivered, Remaining, CutOf, AfterCut, Took, Counts, Absorb;
    var room := max - |b|;
    if ChunkSize(pending, replies, room) == 0 {
      ReadingCounts(last, t, room, []);
    } else {
      var data := Delivered(pending, replies, room);
      ReadingCounts(last, t, room, data);
      ExtractCounts(f, last, b + data, Took(t, room, data));
      CutCounts(last, max, b + data, Extract(f, last, b + data), Remaining(pending, replies, room), replies[1..],
                Took(t, room, data));
    }
  }

  lemma {:induction false} LoopCounts(f: Extractor, last: bool, max: nat, b: Bytes, pending: Bytes,
                                      replies: seq<Reply>, t: Tally)
    requires |b| <= max && Counts(last, t)
    ensures Counts(last, ReadLoop(f, last, max, b, pending, replies, t).tally)
    decreases |pending|
  {
    LoopTurnCounts(f, last, max, b, pending, replies, t);
    hide ReadTurn, Counts;
    var turn := ReadTurn(f, last, max, b, pending, replies, t);
    if turn.Again? {
      LoopCounts(f, last, max, turn.buf, turn.pending, turn.replies, turn.tally);
    }
  }

  /** However a call ends, first-packet mode has counted exactly the bytes it removed, and
      extract-last mode at least those. */
  lemma ReadPacketInternalCounts(f: Extractor, last: bool, max: nat, b: Bytes, pending: Bytes,
                                 replies: seq<Reply>, outSize: int)
    requires |b| <= max
    ensures Counts(last, ReadPacketInternal(f, last, max, b, pending, replies, outSize).tally)
  {
    hide Extract, ReadLoop, Counts, CutOf, Absorb;
    NothingCounts(last);
    if outSize >= max {
      if b == [] {
        LoopCounts(f, last, max, b, pending, replies, NO_TALLY);
      } else {
        var x := Extract(f, last, b);
        ExtractCounts(f, last, b, NO_TALLY);
        if x.Extracted? && (x.packet == [] || last) {
          LoopCounts(f, last, max, x.rest, pending, replies, Absorb(NO_TALLY, x));
        }
      }
    }
  }

  lemma {:induction false} ExtractQueuedCounts(f: Extractor, last: bool, b: Bytes, t: Tally)
    requires Counts(last, t)
    ensures Counts(last, ExtractQueued(f, last, b, t).tally)
    decreases |b|
  {
    if b != [] {
      var x := Extract(f, last, b);
      ExtractCounts(f, last, b, t);
      if x.Extracted? && x.packet != [] && last {
        ExtractQueuedCounts(f, last, x.rest, Absorb(t, x));
      }
    }
  }

  // Good bytes in extract-last mode -------------------------------------------------------------

  /** The good counter has grown by the sizes of all packets of `whole`. */
  predicate GoodCounted(f: Extractor, whole: Bytes, t: Tally) {
    t.good == Size(Packets(f, whole))
  }

  predicate TurnGood(f: Extractor, buf: Bytes, r: Turn) {
    (r.Stop? ==> Scanned(r.call.exit)) ==> GoodCounted(f, buf + TallyOf(r).taken, TallyOf(r))
  }

  lemma GoodAdds(f: Extractor, whole: Bytes, b: Bytes, data: Bytes, good: nat)
    requires Carries(f, whole, Packets(f, whole), b) && data + [] == data && good == Size(Packets(f, whole))
    ensures good + Size(Packets(f, b + data)) == Size(Packets(f, whole + data))
  {
    assert CarriesWith(f, whole, Packets(f, whole), b, data);
    SizeAppend(Packets(f, whole), Packets(f, b + data));
  }

  lemma CutGood(f: Extractor, max: nat, buf: Bytes, b: Bytes, x: Cut, pending: Bytes, replies: seq<Reply>, t: Tally)
    requires |b| <= max && CutOf(b, x) && (x.Extracted? ==> x.good == Size(Packets(f, b)))
    requires t.good + Size(Packets(f, b)) == Size(Packets(f, buf + t.taken))
    ensures TurnGood(f, buf, AfterCut(true, max, b, x, pending, replies, t))
  {
    hide Packets, Size;
  }

  lemma LoopTurnGood(f: Extractor, max: nat, buf: Bytes, b: Bytes, pending: Bytes, replies: seq<Reply>, t: Tally)
    requires Resumable(f) && |b| <= max && Reading(f, true, buf + t.taken, t.packet, b)
    requires GoodCounted(f, buf + t.taken, t)
    ensures TurnGood(f, buf, ReadTurn(f, true, max, b, pending, replies, t))
  {
    hide AfterCut, Extract, Packets, ChunkSize, CutOf, Delivered, Remaining, TurnGood;
    var room := max - |b|;
    if ChunkSize(pending, replies, room) == 0 {
      DryGood(f, max, buf, b, pending, replies, t);
    } else {
      var data := Delivered(pending, replies, room);
      EmptySides(data);
      GoodAdds(f, buf + t.taken, b, data, t.good);
      Associate(buf, t.taken, data);
      ExtractOvercounts(f, b + data);
      CutGood(f, max, buf, b + data, Extract(f, true, b + data), Remaining(pending, replies, room), replies[1..],
              Took(t, room, data));
    }
  }

  lemma DryGood(f: Extractor, max: nat, buf: Bytes, b: Bytes, pending: Bytes, replies: seq<Reply>, t: Tally)
    requires |b| <= max && ChunkSize(pending, replies, max - |b|) == 0
    requires GoodCounted(f, buf + t.taken, t)
    ensures TurnGood(f, buf, ReadTurn(f, true, max, b, pending, replies, t))
  {
    hide Packets;
    EmptySides(t.taken);
  }

  lemma {:induction false} LoopGood(f: Extractor, max: nat, buf: Bytes, b: Bytes, pending: Bytes,
                                    replies: seq<Reply>, t: Tally)
    requires Resumable(f) && |b| <= max && Reading(f, true, buf + t.taken, t.packet, b)
    requires GoodCounted(f, buf + t.taken, t)
    ensures var r := ReadLoop(f, true, max, b, pending, replies, t);
            Scanned(r.exit) ==> GoodCounted(f, buf + r.tally.taken, r.tally)
    decreases |pending|
  {
    LoopTurnGood(f, max, buf, b, pending, replies, t);
    TurnGuarantee(f, true, max, buf, b, pending, replies, t);
    hide ReadTurn, Reading, GoodCounted, Resumable;
    var turn := ReadTurn(f, true, max, b, pending, replies, t);
    if turn.Again? {
      LoopGood(f, max, buf, turn.buf, turn.pending, turn.replies, turn.tally);
    }
  }

  lemma NothingYet(f: Extractor, b: Bytes)
    requires b == []
    ensures Reading(f, true, b, [], b) && GoodCounted(f, b, NO_TALLY)
  {
  }

  lemma AfterFirstCut(f: Extractor, b: Bytes, x: Cut)
    requires x.Extracted? && CutOf(b, x) && ExtractionDelivers(f, true, b, x) && x.good == Size(Packets(f, b))
    ensures Reading(f, true, b, Absorb(NO_TALLY, x).packet, x.rest) && GoodCounted(f, b, Absorb(NO_TALLY, x))
  {
    hide Packets, Size, Delivers, CutOf, Resumable;
  }

  /** In extract-last mode a call adds to the good counter the sizes of all packets in the bytes it
      scanned, returned or superseded, each once, although trailing bytes are scanned repeatedly. */
  lemma ReadPacketInternalGood(f: Extractor, max: nat, b: Bytes, pending: Bytes, replies: seq<Reply>, outSize: int)
    requires Resumable(f) && |b| <= max
    ensures var r := ReadPacketInternal(f, true, max, b, pending, replies, outSize);
            Scanned(r.exit) ==> GoodCounted(f, b + r.tally.taken, r.tally)
  {
    hide Extract, ReadLoop, CutOf, Packets, Size, Reading, Resumable, GoodCounted;
    EmptySides(b);
    if outSize >= max {
      if b == [] {
        NothingYet(f, b);
        LoopGood(f, max, b, b, pending, replies, NO_TALLY);
      } else {
        var x := Extract(f, true, b);
        ExtractDelivers(f, true, b);
        ExtractOvercounts(f, b);
        if x.Extracted? {
          AfterFirstCut(f, b, x);
          LoopGood(f, max, b, x.rest, pending, replies, Absorb(NO_TALLY, x));
        }
      }
    }
  }

  lemma QueuedGood(f: Extractor, b: Bytes)
    requires Resumable(f)
    ensures var r := ExtractQueued(f, true, b, NO_TALLY);
            r.exit.Returned? ==> GoodCounted(f, b, r.tally)
  {
    hide Extract, Packets, Size, CutOf, Resumable;
    if b == [] {
      NothingYet(f, b);
    } else {
      var x := Extract(f, true, b);
      ExtractOvercounts(f, b);
      if x.Extracted? && x.rest != [] {
        NothingBehind(f, b);
        LeavesTail(f, b);
        ExtractOvercounts(f, x.rest);
        NoneSize();
      }
    }
  }

  lemma NoneSize()
    ensures Size([]) == 0
  {
  }

  // Good bytes in first-packet mode -------------------------------------------------------------

  /** The good counter has grown by the packet handed over, if any; an error hands none over. */
  predicate PacketCounted(r: Call) {
    r.tally.good == |r.tally.packet| && (r.exit.Raised? ==> r.tally.packet == [])
  }

  predicate Empty(t: Tally) {
    t.good == 0 && t.packet == []
  }

  lemma FirstCut(f: Extractor, b: Bytes)
    requires b != []
    ensures Extract(f, false, b).good == if Extract(f, false, b).Extracted? then |Extract(f, false, b).packet| else 0
  {
    ScanFirst(f, b);
  }

  lemma TurnPacketCounted(f: Extractor, max: nat, b: Bytes, pending: Bytes, replies: seq<Reply>, t: Tally)
    requires |b| <= max && Empty(t)
    ensures var r := ReadTurn(f, false, max, b, pending, replies, t);
            if r.Stop? then PacketCounted(r.call) else Empty(r.tally)
  {
    hide Extract, ChunkSize, Delivered, Remaining;
    var data := Delivered(pending, replies, max - |b|);
    if ChunkSize(pending, replies, max - |b|) != 0 {
      FirstCut(f, b + data);
    }
  }

  lemma {:induction false} LoopPacketCounted(f: Extractor, max: nat, b: Bytes, pending: Bytes, replies: seq<Reply>,
                                             t: Tally)
    requires |b| <= max && Empty(t)
    ensures PacketCounted(ReadLoop(f, false, max, b, pending, replies, t))
    decreases |pending|
  {
    TurnPacketCounted(f, max, b, pending, replies, t);
    hide ReadTurn, Empty;
    var turn := ReadTurn(f, false, max, b, pending, replies, t);
    if turn.Again? {
      LoopPacketCounted(f, max, turn.buf, turn.pending, turn.replies, turn.tally);
    }
  }

  /** In first-packet mode a call credits exactly the packet it returns as good. */
  lemma ReadPacketInternalFirstGood(f: Extractor, max: nat, b: Bytes, pending: Bytes, replies: seq<Reply>, outSize: int)
    requires |b| <= max
    ensures PacketCounted(ReadPacketInternal(f, false, max, b, pending, replies, outSize))
  {
    hide Extract, ReadLoop, CutOf;
    if outSize >= max {
      if b == [] {
        LoopPacketCounted(f, max, b, pending, replies, NO_TALLY);
      } else {
        var x := Extract(f, false, b);
        FirstCut(f, b);
        if x.Extracted? && x.packet == [] {
          LoopPacketCounted(f, max, x.rest, pending, replies, Absorb(NO_TALLY, x));
        }
      }
    }
  }

  lemma QueuedFirstGood(f: Extractor, b: Bytes)
    ensures PacketCounted(ExtractQueued(f, false, b, NO_TALLY))
  {
    hide Extract;
    if b != [] {
      FirstCut(f, b);
    }
  }

  // The overcount, by example -------------------------------------------------------------------

  predicate Noise(b: Bytes) {
    b != [] && forall i :: 0 <= i < |b| ==> b[i] != 0
  }

  lemma {:induction false} ScanNoise(b: Bytes)
    requires Noise(b)
    ensures FindPacket(DriverTest, true, b) == Found(1, 0, |b|, 0)
    decreases |b|
  {
    assert Ask(DriverTest, b) == Discard(1);
    if |b| > 1 {
      ScanNoise(b[1..]);
    }
  }

  /** Bytes of noise waiting in the buffer: one is removed by a call, and all are counted, so that
      every further call counts the rest again. */
  lemma NoiseIsCountedAgain(max: nat, b: Bytes)
    requires Noise(b) && |b| <= max
    ensures var r := ReadPacketInternal(DriverTest, true, max, b, [], [], max);
            r.exit.Returned? && r.buf == b[1..] && r.tally.dropped == 1 && r.tally.bad == |b|
  {
    ScanNoise(b);
    hide FindPacket, ReadLoop;
    var x := Extract(DriverTest, true, b);
    assert x == Extracted(1, [], b[1..], |b|, 0);
    ReadingDry(DriverTest, true, max, b[1..], [], [], Absorb(NO_TALLY, x));
  }
}
