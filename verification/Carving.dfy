/**
 Bytes stay in order.  For any extractor and in any mode, a call cuts a prefix off the bytes that
 were queued before it or read by it, hands over one slice of that prefix, and keeps the rest; and
 the internal buffer never outgrows its capacity.
 */
module Carving {
  import opened Extraction
  import opened Engine

  /** `buf` is `whole` without the bytes dropped so far, and the packet is a slice of those. */
  predicate Carved(whole: Bytes, t: Tally, buf: Bytes) {
    && t.dropped <= |whole| && buf == whole[t.dropped..]
    && t.at + |t.packet| <= t.dropped && t.packet == whole[t.at..t.at + |t.packet|]
  }

  lemma CarvedAbsorb(whole: Bytes, t: Tally, b: Bytes, x: Cut)
    requires Carved(whole, t, b) && CutOf(b, x)
    ensures Carved(whole, Absorb(t, x), if x.Extracted? then x.rest else b)
  {
    if x.Extracted? {
      SliceOfTail(whole, t.dropped, x.offset, |x.packet|);
    }
  }

  lemma CarvedOn(buf: Bytes, t: Tally, rest: Bytes, room: nat, data: Bytes)
    requires Carved(buf + t.taken, t, rest)
    ensures Carved(buf + Took(t, room, data).taken, Took(t, room, data), rest + data)
  {
    Associate(buf, t.taken, data);
    SliceUnderAppend(buf + t.taken, data, t.dropped, t.at, |t.packet|);
  }

  /** What holds of any call: the bytes it took are the stream's next, in order; it keeps exactly
      what it did not drop, within capacity; and what it hands over is a slice of what it dropped. */
  predicate InOrder(max: nat, buf: Bytes, pending: Bytes, r: Call) {
    && Prefix(r.tally.taken, pending)
    && Carved(buf + r.tally.taken, r.tally, r.buf)
    && |r.buf| <= max
  }

  /** A turn keeps that order: `all` is what the stream held when the call started. */
  predicate KeepsOrder(max: nat, buf: Bytes, all: Bytes, r: Turn) {
    match r
    case Stop(call) => InOrder(max, buf, all, call)
    case Again(b, pending, _, t) => all == t.taken + pending && Carved(buf + t.taken, t, b)
  }

  lemma CutKeepsOrder(last: bool, max: nat, buf: Bytes, all: Bytes, b: Bytes, x: Cut, pending: Bytes,
                      replies: seq<Reply>, t: Tally)
    requires |b| <= max && CutOf(b, x)
    requires Carved(buf + t.taken, t, b) && all == t.taken + pending
    ensures KeepsOrder(max, buf, all, AfterCut(last, max, b, x, pending, replies, t))
  {
    CarvedAbsorb(buf + t.taken, t, b, x);
    PrefixOfSum(t.taken, pending);
  }

  lemma DryKeepsOrder(f: Extractor, last: bool, max: nat, buf: Bytes, all: Bytes, b: Bytes, pending: Bytes,
                      replies: seq<Reply>, t: Tally)
    requires |b| <= max && Carved(buf + t.taken, t, b) && Prefix(t.taken, all)
    requires ChunkSize(pending, replies, max - |b|) == 0
    ensures KeepsOrder(max, buf, all, ReadTurn(f, last, max, b, pending, replies, t))
  {
  }

  lemma StreamMoves(pending: Bytes, replies: seq<Reply>, room: nat, t: Tally)
    ensures t.taken + pending
         == Took(t, room, Delivered(pending, replies, room)).taken + Remaining(pending, replies, room)
    ensures Prefix(t.taken, t.taken + pending)
  {
  }

  lemma TurnKeepsOrder(f: Extractor, last: bool, max: nat, buf: Bytes, all: Bytes, b: Bytes, pending: Bytes,
                       replies: seq<Reply>, t: Tally)
    requires |b| <= max && Carved(buf + t.taken, t, b) && all == t.taken + pending
    ensures KeepsOrder(max, buf, all, ReadTurn(f, last, max, b, pending, replies, t))
  {
    hide AfterCut, Extract, KeepsOrder, Carved, ChunkSize, CutOf, Prefix, Delivered, Remaining, Took;
    var room := max - |b|;
    StreamMoves(pending, replies, room, t);
    if ChunkSize(pending, replies, room) == 0 {
      DryKeepsOrder(f, last, max, buf, all, b, pending, replies, t);
    } else {
      var data := Delivered(pending, replies, room);
      CarvedOn(buf, t, b, room, data);
      CutKeepsOrder(last, max, buf, all, b + data, Extract(f, last, b + data),
                    Remaining(pending, replies, room), replies[1..], Took(t, room, data));
    }
  }

  lemma {:induction false} LoopInOrder(f: Extractor, last: bool, max: nat, buf: Bytes, all: Bytes, b: Bytes,
                                       pending: Bytes, replies: seq<Reply>, t: Tally)
    requires |b| <= max && Carved(buf + t.taken, t, b) && all == t.taken + pending
    ensures InOrder(max, buf, all, ReadLoop(f, last, max, b, pending, replies, t))
    decreases |pending|
  {
    TurnKeepsOrder(f, last, max, buf, all, b, pending, replies, t);
    var turn := ReadTurn(f, last, max, b, pending, replies, t);
    if turn.Again? {
      LoopInOrder(f, last, max, buf, all, turn.buf, turn.pending, turn.replies, turn.tally);
    }
  }

  lemma ReadPacketInternalInOrder(f: Extractor, last: bool, max: nat, b: Bytes, pending: Bytes,
                                  replies: seq<Reply>, outSize: int)
    requires |b| <= max
    ensures InOrder(max, b, pending, ReadPacketInternal(f, last, max, b, pending, replies, outSize))
  {
    EmptySides(b);
    EmptySides(pending);
    if outSize >= max {
      if b == [] {
        LoopInOrder(f, last, max, b, pending, b, pending, replies, NO_TALLY);
      } else {
        var x := Extract(f, last, b);
        CarvedAbsorb(b, NO_TALLY, b, x);
        if x.Extracted? && (x.packet == [] || last) {
          LoopInOrder(f, last, max, b, pending, x.rest, pending, replies, Absorb(NO_TALLY, x));
        }
      }
    }
  }

  lemma {:induction false} ExtractQueuedInOrder(f: Extractor, last: bool, whole: Bytes, b: Bytes, t: Tally)
    requires Carved(whole, t, b)
    ensures var r := ExtractQueued(f, last, b, t);
            r.tally.taken == t.taken && Carved(whole, r.tally, r.buf)
    decreases |b|
  {
    if b != [] {
      var x := Extract(f, last, b);
      CarvedAbsorb(whole, t, b, x);
      if x.Extracted? && x.packet != [] && last {
        ExtractQueuedInOrder(f, last, whole, x.rest, Absorb(t, x));
      }
    }
  }

  // Capacity ------------------------------------------------------------------------------------

  /** An extraction leaves the buffer as it was exactly when the extractor waits for more. */
  lemma CutsNothingIffWaiting(f: Extractor, last: bool, b: Bytes)
    requires b != []
    ensures var x := Extract(f, last, b);
            x.Extracted? && |x.rest| == |b| <==> f(b) == 0
  {
  }

  /** The length error for a packet too large is raised only with a full buffer on which the
      extractor still waits. */
  predicate StuckOnlyIfWaiting(f: Extractor, max: nat, r: Call) {
    r.exit == Raised(CurrentPacketTooLarge) ==> |r.buf| == max && f(r.buf) == 0
  }

  lemma CutStuckOnlyIfWaiting(f: Extractor, last: bool, max: nat, b: Bytes, pending: Bytes,
                              replies: seq<Reply>, t: Tally)
    requires 0 < |b| <= max
    ensures var r := AfterCut(last, max, b, Extract(f, last, b), pending, replies, t);
            r.Stop? ==> StuckOnlyIfWaiting(f, max, r.call)
  {
    CutsNothingIffWaiting(f, last, b);
    hide Extract, FindPacket;
  }

  lemma TurnStuckOnlyIfWaiting(f: Extractor, last: bool, max: nat, b: Bytes, pending: Bytes,
                               replies: seq<Reply>, t: Tally)
    requires |b| <= max
    ensures var r := ReadTurn(f, last, max, b, pending, replies, t);
            r.Stop? ==> StuckOnlyIfWaiting(f, max, r.call)
  {
    hide AfterCut, Extract, ChunkSize, CutOf, Delivered, Remaining, Took;
    var room := max - |b|;
    if ChunkSize(pending, replies, room) != 0 {
      var data := Delivered(pending, replies, room);
      CutStuckOnlyIfWaiting(f, last, max, b + data, Remaining(pending, replies, room), replies[1..],
                            Took(t, room, data));
    }
  }

  lemma {:induction false} LoopStuckOnlyIfWaiting(f: Extractor, last: bool, max: nat, b: Bytes, pending: Bytes,
                                                  replies: seq<Reply>, t: Tally)
    requires |b| <= max
    ensures StuckOnlyIfWaiting(f, max, ReadLoop(f, last, max, b, pending, replies, t))
    decreases |pending|
  {
    TurnStuckOnlyIfWaiting(f, last, max, b, pending, replies, t);
    var turn := ReadTurn(f, last, max, b, pending, replies, t);
    if turn.Again? {
      LoopStuckOnlyIfWaiting(f, last, max, turn.buf, turn.pending, turn.replies, turn.tally);
    }
  }

  function TallyOf(r: Turn): Tally {
    if r.Stop? then r.call.tally else r.tally
  }

  lemma TurnHasRoom(f: Extractor, last: bool, max: nat, b: Bytes, pending: Bytes, replies: seq<Reply>, t: Tally)
    requires |b| < max && !t.cramped
    ensures !TallyOf(ReadTurn(f, last, max, b, pending, replies, t)).cramped
  {
    hide Extract, ChunkSize, CutOf, Delivered, Remaining;
  }

  lemma {:induction false} LoopHasRoom(f: Extractor, last: bool, max: nat, b: Bytes, pending: Bytes,
                                       replies: seq<Reply>, t: Tally)
    requires |b| < max && !t.cramped
    ensures !ReadLoop(f, last, max, b, pending, replies, t).tally.cramped
    decreases |pending|
  {
    TurnHasRoom(f, last, max, b, pending, replies, t);
    var turn := ReadTurn(f, last, max, b, pending, replies, t);
    if turn.Again? {
      LoopHasRoom(f, last, max, turn.buf, turn.pending, turn.replies, turn.tally);
    }
  }

  ghost predicate DecidesWhenFull(f: Extractor, max: nat) {
    forall b: Bytes :: |b| == max ==> f(b) != 0
  }

  /** An extractor that always decides on a full buffer never makes the driver get stuck: no packet
      is ever too large, and every read of the stream has room for at least one byte. */
  lemma DecidingExtractorsMakeProgress(f: Extractor, last: bool, max: nat, b: Bytes, pending: Bytes,
                                       replies: seq<Reply>, outSize: int)
    requires DecidesWhenFull(f, max) && |b| <= max && 0 < max
    ensures var r := ReadPacketInternal(f, last, max, b, pending, replies, outSize);
            r.exit != Raised(CurrentPacketTooLarge) && !r.tally.cramped
  {
    if b == [] {
      LoopStuckOnlyIfWaiting(f, last, max, b, pending, replies, NO_TALLY);
      LoopHasRoom(f, last, max, b, pending, replies, NO_TALLY);
    } else {
      CutsNothingIffWaiting(f, last, b);
      var x := Extract(f, last, b);
      if x.Extracted? {
        LoopStuckOnlyIfWaiting(f, last, max, x.rest, pending, replies, Absorb(NO_TALLY, x));
        LoopHasRoom(f, last, max, x.rest, pending, replies, Absorb(NO_TALLY, x));
      }
    }
  }
}
