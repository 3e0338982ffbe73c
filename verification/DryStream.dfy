/**
 Reading without a stream, and asking whether a packet is there, agree with reading from a stream
 that has nothing more to say.
 */
module DryStream {
  import opened Extraction
  import opened Engine
  import opened Scanning
  import opened Reassembly
  import opened Carving

  /** The stream's next answer brings no data and no error, whatever room is offered. */
  predicate Exhausted(pending: Bytes, replies: seq<Reply>) {
    replies == [] || replies[0].EndOfFile? || (replies[0].Deliver? && (replies[0].n == 0 || pending == []))
  }

  lemma ReadingDry(f: Extractor, last: bool, max: nat, b: Bytes, pending: Bytes, replies: seq<Reply>, t: Tally)
    requires |b| <= max && Exhausted(pending, replies)
    ensures ReadLoop(f, last, max, b, pending, replies, t) == Call(b, Took(t, max - |b|, []), Returned)
  {
  }

  lemma NoneAfterDiscard(f: Extractor, b: Bytes)
    requires b != [] && Packets(f, b) == []
    ensures Packets(f, b[Span(f, b)..]) == [] && Residue(f, b[Span(f, b)..]) == Residue(f, b)
  {
  }

  /** What an extraction of extract-last mode leaves holds no packet, and the same undecided tail. */
  lemma LeavesTail(f: Extractor, b: Bytes)
    requires b != [] && Extract(f, true, b).Extracted?
    ensures Packets(f, Extract(f, true, b).rest) == []
    ensures Residue(f, Extract(f, true, b).rest) == Residue(f, b)
  {
    ScanLast(f, b);
    hide FindPacket, Packets, Residue;
    var r := FindPacket(f, true, b);
    if Packets(f, b) == [] {
      NoneAfterDiscard(f, b);
      assert Rest(b, r) == b[Span(f, b)..];
    } else {
      assert Extract(f, true, b).rest == Rest(b, r);
    }
  }

  lemma FindsNone(f: Extractor, b: Bytes)
    requires b != [] && Packets(f, b) == [] && !EndsInOverrun(f, b)
    ensures Extract(f, true, b).Extracted? && Extract(f, true, b).packet == []
  {
    ScanLast(f, b);
    ScanLastCounts(f, b);
    hide FindPacket, Packets, Residue;
  }

  /** Behind the last packet, or when there is none, another extraction finds nothing either, and
      cannot fail if the one before did not. */
  lemma NothingBehind(f: Extractor, b: Bytes)
    requires b != [] && Extract(f, true, b).Extracted?
    ensures var rest := Extract(f, true, b).rest;
            rest != [] ==> Extract(f, true, rest).Extracted? && Extract(f, true, rest).packet == []
  {
    var rest := Extract(f, true, b).rest;
    if rest != [] {
      LeavesTail(f, b);
      assert !EndsInOverrun(f, b) by {
        ScanLastCounts(f, b);
      }
      hide FindPacket, Packets, Residue, Extract;
      FindsNone(f, rest);
    }
  }

  /** A call on an exhausted stream and a call without a stream end alike, with the same packet. */
  lemma QueuedAgreesWithDry(f: Extractor, last: bool, max: nat, b: Bytes, pending: Bytes,
                            replies: seq<Reply>, outSize: int)
    requires |b| <= max <= outSize && Exhausted(pending, replies)
    ensures var dry := ReadPacketInternal(f, last, max, b, pending, replies, outSize);
            var queued := ExtractQueued(f, last, b, NO_TALLY);
            && dry.exit == queued.exit && dry.tally.packet == queued.tally.packet
            && dry.tally.taken == [] && queued.tally.taken == []
            && (!last ==> dry.buf == queued.buf)
  {
    if b == [] {
      ReadingDry(f, last, max, b, pending, replies, NO_TALLY);
    } else {
      var x := Extract(f, last, b);
      if x.Extracted? && (x.packet == [] || last) {
        ReadingDry(f, last, max, x.rest, pending, replies, Absorb(NO_TALLY, x));
        if x.packet != [] {
          NothingBehind(f, b);
        }
      }
    }
  }

  /** For a resumable extractor the two calls also leave buffers that no later bytes can tell apart,
      although without a stream one more discard may have been applied. */
  lemma LeftoversAgree(f: Extractor, last: bool, max: nat, b: Bytes, pending: Bytes,
                       replies: seq<Reply>, outSize: int, x: Bytes)
    requires Resumable(f) && |b| <= max <= outSize && Exhausted(pending, replies)
    requires ExtractQueued(f, last, b, NO_TALLY).exit.Returned?
    ensures var dry := ReadPacketInternal(f, last, max, b, pending, replies, outSize);
            Packets(f, dry.buf + x) == Packets(f, ExtractQueued(f, last, b, NO_TALLY).buf + x)
  {
    var dry := ReadPacketInternal(f, last, max, b, pending, replies, outSize);
    var queued := ExtractQueued(f, last, b, NO_TALLY);
    QueuedAgreesWithDry(f, last, max, b, pending, replies, outSize);
    ReadPacketInternalDelivers(f, last, max, b, pending, replies, outSize);
    QueuedDelivers(f, last, b);
    EmptySides(b);
    hide ReadPacketInternal, ExtractQueued, Packets;
    var gone := Removed(f, last, b, dry.tally.packet);
    assert CarriesWith(f, b, gone, dry.buf, x) && CarriesWith(f, b, gone, queued.buf, x);
    SamePrefix(gone, Packets(f, dry.buf + x), Packets(f, queued.buf + x));
  }

  lemma SamePrefix<T>(a: seq<T>, b: seq<T>, c: seq<T>)
    requires a + b == a + c
    ensures b == c
  {
    assert (a + b)[|a|..] == b && (a + c)[|a|..] == c;
  }

  /** Reading without a stream delivers what the reference parser finds in the queued bytes. */
  lemma QueuedDelivers(f: Extractor, last: bool, b: Bytes)
    requires Resumable(f)
    ensures Guarantee(f, last, b, ExtractQueued(f, last, b, NO_TALLY))
  {
    CarriesItself(f, b);
    if b != [] {
      var x := Extract(f, last, b);
      ExtractDelivers(f, last, b);
      if x.Extracted? && x.packet != [] && last && x.rest != [] {
        NothingBehind(f, b);
        ExtractDelivers(f, last, x.rest);
        CutMore(f, last, b, Packets(f, b), x.packet, x.rest, [], Extract(f, last, x.rest).rest);
      }
    }
  }

  /** hasPacket is true exactly when reading without a stream would return a packet, and raises
      exactly when that would raise. */
  lemma HasPacketForesees(f: Extractor, last: bool, b: Bytes)
    ensures var peek, queued := HasPacket(f, last, b), ExtractQueued(f, last, b, NO_TALLY);
            && (peek.TooLong? <==> queued.exit == Raised(ResultLargerThanBuffer))
            && (peek.Found? <==> queued.exit == Returned)
            && (peek.Found? ==> peek.size == |queued.tally.packet|)
  {
    if b != [] && last && Extract(f, last, b).Extracted? {
      NothingBehind(f, b);
    }
  }

  /** In extract-last mode the query counts all packets and all garbage of the buffer, although it removes nothing; in
      first-packet mode it counts nothing. */
  lemma HasPacketCounts(f: Extractor, last: bool, b: Bytes)
    ensures var r := HasPacket(f, last, b);
            r.good == (if last then Size(Packets(f, b)) else 0) && r.bad == if last then Garbage(f, b) else 0
  {
    hide FindPacket;
    if b != [] && last {
      ScanLastCounts(f, b);
    } else if b != [] {
      ScanFirst(f, b);
    }
  }

  /** The stream has an answer, and at least one byte of it, for as long as bytes are pending. */
  predicate Generous(pending: Bytes, replies: seq<Reply>) {
    && |pending| <= |replies|
    && forall i :: 0 <= i < |replies| ==> replies[i].Deliver? && replies[i].n > 0
  }

  lemma TurnUntilDry(f: Extractor, last: bool, max: nat, b: Bytes, pending: Bytes, replies: seq<Reply>, t: Tally)
    requires |b| <= max && Generous(pending, replies)
    ensures match ReadTurn(f, last, max, b, pending, replies, t)
            case Stop(r) => r.exit.Returned? && (last || r.tally.packet == []) ==> r.tally.cramped || pending == []
            case Again(_, pending', replies', _) => Generous(pending', replies')
  {
    hide Extract, CutOf, Delivered, Remaining;
  }

  predicate Draws(pending: Bytes, t: Tally, r: Turn) {
    match r
    case Stop(call) => pending == [] ==> call.tally.taken == t.taken
    case Again(_, pending', _, t') => t'.taken + pending' == t.taken + pending
  }

  lemma CutDraws(last: bool, max: nat, b: Bytes, x: Cut, pending: Bytes, replies: seq<Reply>, t: Tally)
    requires |b| <= max && CutOf(b, x)
    ensures var r := AfterCut(last, max, b, x, pending, replies, t);
            TallyOf(r).taken == t.taken && (r.Again? ==> r.pending == pending)
  {
  }

  lemma DryDraws(f: Extractor, last: bool, max: nat, b: Bytes, pending: Bytes, replies: seq<Reply>, t: Tally)
    requires |b| <= max && ChunkSize(pending, replies, max - |b|) == 0
    ensures Draws(pending, t, ReadTurn(f, last, max, b, pending, replies, t))
  {
  }

  lemma TurnDraws(f: Extractor, last: bool, max: nat, b: Bytes, pending: Bytes, replies: seq<Reply>, t: Tally)
    requires |b| <= max
    ensures Draws(pending, t, ReadTurn(f, last, max, b, pending, replies, t))
  {
    hide AfterCut, Extract, CutOf, ChunkSize, Delivered, Remaining, Took;
    var room := max - |b|;
    if ChunkSize(pending, replies, room) == 0 {
      DryDraws(f, last, max, b, pending, replies, t);
    } else {
      var data := Delivered(pending, replies, room);
      StreamMoves(pending, replies, room, t);
      CutDraws(last, max, b + data, Extract(f, last, b + data), Remaining(pending, replies, room), replies[1..],
               Took(t, room, data));
    }
  }

  /** Unless it returns early with a packet in first-packet mode, a call that always had room reads
      a generous stream to its end, whatever the sizes of the chunks. */
  lemma {:induction false} LoopUntilDry(f: Extractor, last: bool, max: nat, b: Bytes, all: Bytes, pending: Bytes,
                                        replies: seq<Reply>, t: Tally)
    requires |b| <= max && Generous(pending, replies) && all == t.taken + pending
    ensures var r := ReadLoop(f, last, max, b, pending, replies, t);
            r.exit.Returned? && (last || r.tally.packet == []) && !r.tally.cramped ==> r.tally.taken == all
    decreases |pending|
  {
    TurnUntilDry(f, last, max, b, pending, replies, t);
    TurnDraws(f, last, max, b, pending, replies, t);
    hide ReadTurn, Generous;
    EmptySides(t.taken);
    var turn := ReadTurn(f, last, max, b, pending, replies, t);
    if turn.Again? {
      LoopUntilDry(f, last, max, turn.buf, all, turn.pending, turn.replies, turn.tally);
    }
  }

  /** A full buffer on which the extractor waits, which the error for a packet too large leaves behind. */
  predicate Stuck(f: Extractor, max: nat, b: Bytes) {
    |b| == max && (b == [] || f(b) == 0)
  }

  lemma CutMakesRoom(f: Extractor, last: bool, max: nat, b: Bytes)
    requires b != [] && |b| <= max && !Stuck(f, max, b)
    ensures Extract(f, last, b).Extracted? ==> |Extract(f, last, b).rest| < max
  {
    CutsNothingIffWaiting(f, last, b);
    hide FindPacket;
  }

  /** A whole call on a generous stream.  Unless it starts stuck, it takes all there is before it returns
      without a packet, and in extract-last mode before it returns at all. */
  lemma CallUntilDry(f: Extractor, last: bool, max: nat, b: Bytes, pending: Bytes, replies: seq<Reply>, outSize: int)
    requires |b| <= max <= outSize && Generous(pending, replies) && !Stuck(f, max, b)
    ensures var r := ReadPacketInternal(f, last, max, b, pending, replies, outSize);
            r.exit.Returned? && (last || r.tally.packet == []) ==> r.tally.taken == pending
  {
    hide Extract, ReadLoop, Generous, Stuck;
    EmptySides(pending);
    if b == [] {
      StuckIfEmpty(f, max, b);
      LoopHasRoom(f, last, max, b, pending, replies, NO_TALLY);
      LoopUntilDry(f, last, max, b, pending, pending, replies, NO_TALLY);
    } else {
      var x := Extract(f, last, b);
      CutMakesRoom(f, last, max, b);
      if x.Extracted? {
        var t := Absorb(NO_TALLY, x);
        LoopHasRoom(f, last, max, x.rest, pending, replies, t);
        LoopUntilDry(f, last, max, x.rest, pending, pending, replies, t);
      }
    }
  }

  lemma StuckIfEmpty(f: Extractor, max: nat, b: Bytes)
    requires b == [] && !Stuck(f, max, b)
    ensures |b| < max
  {
  }

  /** In extract-last mode it then returns the last packet of all bytes queued and available, or nothing if
      they hold none, for every way of cutting them into chunks. */
  lemma CallReturnsLast(f: Extractor, max: nat, b: Bytes, pending: Bytes, replies: seq<Reply>, outSize: int)
    requires Resumable(f) && |b| <= max <= outSize && Generous(pending, replies) && !Stuck(f, max, b)
    ensures var r := ReadPacketInternal(f, true, max, b, pending, replies, outSize);
            r.exit.Returned? ==>
              && r.tally.taken == pending && r.tally.packet == LastOf(Packets(f, b + pending))
              && Carries(f, b + pending, Packets(f, b + pending), r.buf)
  {
    hide ReadPacketInternal, Generous, Stuck, Packets, LastOf, Resumable, Carries;
    CallUntilDry(f, true, max, b, pending, replies, outSize);
    ReadPacketInternalDelivers(f, true, max, b, pending, replies, outSize);
  }

  /** A call that starts stuck returns without reading anything, although there is something to read. */
  lemma StuckCallTakesNothing(f: Extractor, last: bool, max: nat, b: Bytes, pending: Bytes, replies: seq<Reply>,
                              outSize: int)
    requires |b| <= max <= outSize && Generous(pending, replies) && Stuck(f, max, b)
    ensures var r := ReadPacketInternal(f, last, max, b, pending, replies, outSize);
            r.exit.Returned? && r.tally.taken == [] && r.tally.packet == [] && r.buf == b
  {
  }
}
