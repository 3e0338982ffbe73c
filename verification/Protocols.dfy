/**
 What a subclass provides, and what the driver's methods know of the values they compute, one turn
 at a time.
 */
module Protocols {
  import opened Extraction
  import opened Engine
  import opened Counters
  import opened Streams
  import opened Listeners
  import opened Scanning

  lemma CreditNothing(s: Status)
    ensures Credit(s, 0, 0) == s
  {
  }

  /** What a subclass of the driver provides.  The driver's methods, which work on the heap, see the extractor only
      through these functions, whose bodies they hide. */
  datatype Protocol = Protocol(extractPacket: Extractor)
  {
    function Answer(b: Bytes): (r: int)
      ensures b != [] ==> -|b| <= r
    {
      extractPacket(b)
    }

    function Scan(last: bool, b: Bytes): (r: Scan)
      requires b != []
      ensures r.Found? ==> r.offset + r.size <= |b|
    {
      Engine.FindPacket(extractPacket, last, b)
    }

    function Cut(last: bool, b: Bytes): (x: Cut)
      requires b != []
      ensures x.Extracted? ==> |x.packet| + |x.rest| <= |b|
    {
      Extract(extractPacket, last, b)
    }

    function ReadLoop(last: bool, max: nat, b: Bytes, pending: Bytes, replies: seq<Reply>, t: Tally): Call
      requires |b| <= max
    {
      Engine.ReadLoop(extractPacket, last, max, b, pending, replies, t)
    }

    function ReadPacketInternal(last: bool, max: nat, b: Bytes, pending: Bytes, replies: seq<Reply>,
                                outSize: int): Call
      requires |b| <= max
    {
      Engine.ReadPacketInternal(extractPacket, last, max, b, pending, replies, outSize)
    }

    function ExtractQueued(last: bool, b: Bytes, t: Tally): Call {
      Engine.ExtractQueued(extractPacket, last, b, t)
    }
  }

  /** One turn of the reading loop, as the method takes it. */
  lemma LoopByTurn(p: Protocol, last: bool, max: nat, b: Bytes, pending: Bytes, replies: seq<Reply>, t: Tally)
    requires |b| <= max
    ensures var room := max - |b|;
            var data := Delivered(pending, replies, room);
            var loop := p.ReadLoop(last, max, b, pending, replies, t);
            if data == [] then loop == Call(b, Took(t, room, []), NoData(replies))
            else
              var x := p.Cut(last, b + data);
              var t' := Absorb(Took(t, room, data), x);
              if x.Refused? then loop == Call(b + data, t', Raised(ResultLargerThanBuffer))
              else if x.packet != [] && !last then loop == Call(x.rest, t', Returned)
              else if |x.rest| == max then loop == Call(x.rest, t', Raised(CurrentPacketTooLarge))
              else loop == p.ReadLoop(last, max, x.rest, Remaining(pending, replies, room), Tail(replies), t')
  {
    hide Extract, Delivered, Remaining, Took, Absorb;
  }

  /** The extraction before the loop. */
  lemma CallByTurn(p: Protocol, last: bool, max: nat, b: Bytes, pending: Bytes, replies: seq<Reply>, outSize: int)
    requires |b| <= max
    ensures var call := p.ReadPacketInternal(last, max, b, pending, replies, outSize);
            if outSize < max then call == Call(b, NO_TALLY, Raised(ProvidedBufferTooSmall))
            else if b == [] then call == p.ReadLoop(last, max, b, pending, replies, NO_TALLY)
            else
              var x := p.Cut(last, b);
              var t := Absorb(NO_TALLY, x);
              if x.Refused? then call == Call(b, t, Raised(ResultLargerThanBuffer))
              else if x.packet != [] && !last then call == Call(x.rest, t, Returned)
              else call == p.ReadLoop(last, max, x.rest, pending, replies, t)
  {
  }

  /** The scan of findPacket by the arithmetic of the extractor's answer. */
  lemma ScanByAnswer(p: Protocol, last: bool, b: Bytes, start: nat, size: nat)
    requires b != [] && p.Answer(b) != 0 && p.Answer(b) <= |b|
    requires start == (if p.Answer(b) < 0 then -p.Answer(b) else 0)
    requires size == (if p.Answer(b) > 0 then p.Answer(b) else 0)
    ensures start + size <= |b|
    ensures var here := Found(start, size, if last then start else 0, if last then size else 0);
            p.Scan(last, b) ==
              if start + size < |b| && (size == 0 || last)
              then Beyond(last, here, p.Scan(last, b[start + size..]))
              else here
  {
  }

  lemma ScanWithoutAnswer(p: Protocol, last: bool, b: Bytes)
    requires b != [] && (p.Answer(b) == 0 || p.Answer(b) > |b|)
    ensures p.Scan(last, b) == if p.Answer(b) == 0 then Found(0, 0, 0, 0) else TooLong(0, 0)
  {
  }

  /** An extraction by the scan it follows: in first-packet mode the counting is left to it. */
  lemma CutByScan(p: Protocol, last: bool, b: Bytes)
    requires b != []
    ensures var r, x := p.Scan(last, b), p.Cut(last, b);
            && (r.TooLong? <==> x.Refused?) && (r.TooLong? ==> x.bad == r.bad && x.good == r.good)
            && (r.Found? ==>
                && x.packet == b[r.offset..r.offset + r.size] && x.rest == b[r.offset + r.size..]
                && x.bad == r.bad + (if last then 0 else r.offset)
                && x.good == r.good + (if last then 0 else r.size))
  {
    if !last {
      ScanFirst(p.extractPacket, b);
    }
  }


  /** A transfer moves as many bytes as the read delivers; a failed one delivers none. */
  lemma TransferIsData(pending: Bytes, replies: seq<Reply>, room: nat)
    ensures var t, data := TransferOf(pending, replies, room), Delivered(pending, replies, room);
            && |data| == (if t.Moved? then t.n else 0) && |data| <= room
            && (data == [] ==> NoData(replies) == (if t.Failed? then Raised(Unix(t.errno)) else Returned))
            && (t.Failed? ==> data == [])
  {
  }

  /** One turn of reading without a stream. */
  lemma QueuedByTurn(p: Protocol, last: bool, b: Bytes, t: Tally)
    ensures var queued := p.ExtractQueued(last, b, t);
            if b == [] then queued == Call(b, t, Returned)
            else
              var x := p.Cut(last, b);
              var t' := Absorb(t, x);
              if x.Refused? then queued == Call(b, t', Raised(ResultLargerThanBuffer))
              else if x.packet == [] || !last then queued == Call(x.rest, t', Returned)
              else queued == p.ExtractQueued(last, x.rest, t')
  {
  }

  // Views ---------------------------------------------------------------------------------------

  /** A driver and its stream at one moment. */
  datatype View = Snapshot(queued: Bytes, stats: Status, pending: Bytes, replies: seq<Reply>, taken: Bytes,
                           heard: Audience, accepted: Bytes)
  {
    /** After one read of the stream into the free part of a buffer of `max` bytes. */
    ghost function Chunked(max: nat): View
      requires |queued| <= max
    {
      var room := max - |queued|;
      var data := Delivered(pending, replies, room);
      Snapshot(queued + data, stats, Remaining(pending, replies, room), Streams.Tail(replies), taken + data,
               ToldRead(heard, data), accepted)
    }

    /** After an extraction. */
    function Cutting(x: Cut): View {
      Snapshot(if x.Extracted? then x.rest else queued, Credit(stats, x.bad, x.good), pending, replies, taken,
               heard, accepted)
    }
  }

  /** What the calls so far did, `t` being their tally: counters, stream, bytes taken and listeners. */
  ghost predicate Effect(was: View, now: View, t: Tally) {
    && now.stats == Credit(was.stats, t.bad, t.good)
    && now.taken == was.taken + t.taken
    && was.pending == t.taken + now.pending
    && now.heard == ToldRead(was.heard, t.taken) && now.accepted == was.accepted
  }

  /** `call` is what happened between `was` and `now`. */
  ghost predicate Ends(was: View, now: View, call: Call) {
    now.queued == call.buf && Effect(was, now, call.tally)
  }

  /** The reading loop is about to read, and what remains of `call` is to be done. */
  ghost predicate Looping(p: Protocol, last: bool, max: nat, was: View, call: Call, now: View, t: Tally) {
    && |now.queued| <= max && Effect(was, now, t) && (!last ==> t.packet == [])
    && call == p.ReadLoop(last, max, now.queued, now.pending, now.replies, t)
  }

  lemma EffectStart(was: View)
    ensures Effect(was, was, NO_TALLY)
  {
    CreditNothing(was.stats);
    EmptySides(was.taken);
    EmptySides(was.pending);
    ToldNothing(was.heard);
  }

  lemma EffectChunk(was: View, now: View, t: Tally, max: nat)
    requires Effect(was, now, t) && |now.queued| <= max
    ensures var room := max - |now.queued|;
            Effect(was, now.Chunked(max), Took(t, room, Delivered(now.pending, now.replies, room)))
  {
    var room := max - |now.queued|;
    var n := ChunkSize(now.pending, now.replies, room);
    Associate(was.taken, t.taken, Delivered(now.pending, now.replies, room));
    MovePrefix(t.taken, now.pending, n);
    ToldMore(was.heard, t.taken, Delivered(now.pending, now.replies, room));
    hide Credit, ChunkSize;
  }

  lemma EffectCut(was: View, now: View, t: Tally, x: Cut)
    requires Effect(was, now, t)
    ensures Effect(was, now.Cutting(x), Absorb(t, x))
  {
    hide Credit;
    CreditTwice(was.stats, t.bad, t.good, x.bad, x.good);
  }

  lemma LoopDry(p: Protocol, last: bool, max: nat, was: View, call: Call, now: View, t: Tally)
    requires Looping(p, last, max, was, call, now, t)
    requires Delivered(now.pending, now.replies, max - |now.queued|) == []
    ensures Ends(was, now.Chunked(max), call) && call.exit == NoData(now.replies)
    ensures call.tally.packet == t.packet && call.tally.taken == t.taken && (!last ==> t.packet == [])
  {
    hide Credit, Delivered, Protocol.ReadLoop, Protocol.Cut, Remaining, NoData;
    LoopByTurn(p, last, max, now.queued, now.pending, now.replies, t);
    EffectChunk(was, now, t, max);
    EmptySides(t.taken);
    EmptySides(now.queued);
  }

  lemma LoopStep(p: Protocol, last: bool, max: nat, was: View, call: Call, now: View, t: Tally)
    requires Looping(p, last, max, was, call, now, t)
    requires Delivered(now.pending, now.replies, max - |now.queued|) != []
    ensures var mid := now.Chunked(max);
            var room := max - |now.queued|;
            var data := Delivered(now.pending, now.replies, room);
            var x := p.Cut(last, mid.queued);
            var t' := Absorb(Took(t, room, data), x);
            && AfterExtraction(p, last, max, was, call, mid.Cutting(x), t', x)
            && t'.taken != []
            && t'.packet == if x.Extracted? && x.packet != [] then x.packet else t.packet
  {
    hide Credit, Delivered, Protocol.ReadLoop, Protocol.Cut, Remaining, NoData, Effect, Absorb, Took, ToldRead;
    var room := max - |now.queued|;
    var data := Delivered(now.pending, now.replies, room);
    var mid := now.Chunked(max);
    var x := p.Cut(last, mid.queued);
    var t1 := Took(t, room, data);
    LoopByTurn(p, last, max, now.queued, now.pending, now.replies, t);
    TransferIsData(now.pending, now.replies, room);
    TookMore(t, room, data);
    EffectChunk(was, now, t, max);
    EffectCut(was, mid, t1, x);
    AbsorbFirst(t1, x);
  }

  lemma TookMore(t: Tally, room: nat, data: Bytes)
    ensures var t' := Took(t, room, data); t'.taken == t.taken + data && t'.packet == t.packet
  {
  }

  lemma AbsorbFirst(t: Tally, x: Cut)
    ensures Absorb(t, x).packet == if x.Extracted? && x.packet != [] then x.packet else t.packet
    ensures Absorb(t, x).taken == t.taken
    ensures Absorb(t, x).bad == t.bad + x.bad && Absorb(t, x).good == t.good + x.good
  {
  }

  /** Where an extraction inside `call` leads: to one of its ends, or on with the loop. */
  ghost predicate AfterExtraction(p: Protocol, last: bool, max: nat, was: View, call: Call, now: View, t: Tally,
                                  x: Cut) {
    if x.Refused? then
      Ends(was, now, call) && call.tally == t && call.exit == Raised(ResultLargerThanBuffer)
    else if x.packet != [] && !last then
      Ends(was, now, call) && call.tally == t && call.exit == Returned
    else if |x.rest| == max then
      Ends(was, now, call) && call.tally == t && call.exit == Raised(CurrentPacketTooLarge)
    else
      Looping(p, last, max, was, call, now, t)
  }

  /** readPacketInternal from a view of the driver. */
  function CallFrom(p: Protocol, last: bool, max: nat, was: View, outSize: int): Call
    requires |was.queued| <= max
  {
    p.ReadPacketInternal(last, max, was.queued, was.pending, was.replies, outSize)
  }

  lemma CallRefused(p: Protocol, last: bool, max: nat, was: View, outSize: int)
    requires |was.queued| <= max && outSize < max
    ensures var call := CallFrom(p, last, max, was, outSize);
            Ends(was, was, call) && call.exit == Raised(ProvidedBufferTooSmall) && call.tally == NO_TALLY
  {
    EffectStart(was);
  }

  lemma CallStart(p: Protocol, last: bool, max: nat, was: View, outSize: int)
    requires |was.queued| <= max <= outSize
    ensures var call := CallFrom(p, last, max, was, outSize);
            if was.queued == [] then Looping(p, last, max, was, call, was, NO_TALLY)
            else
              var x := p.Cut(last, was.queued);
              var now, t := was.Cutting(x), Absorb(NO_TALLY, x);
              && t.taken == [] && (x.Extracted? ==> t.packet == x.packet)
              && (if x.Refused? then
                    Ends(was, now, call) && call.tally == t && call.exit == Raised(ResultLargerThanBuffer)
                  else if x.packet != [] && !last then Ends(was, now, call) && call.tally == t && call.exit == Returned
                  else Looping(p, last, max, was, call, now, t))
  {
    hide Credit, Protocol.ReadLoop, Protocol.Cut, Effect, Absorb, Protocol.ReadPacketInternal;
    CallByTurn(p, last, max, was.queued, was.pending, was.replies, outSize);
    EffectStart(was);
    if was.queued != [] {
      var x := p.Cut(last, was.queued);
      EffectCut(was, was, NO_TALLY, x);
      AbsorbFirst(NO_TALLY, x);
    }
  }
}
