/**
 The driver itself: a bounded buffer that is shifted in place, counters, a stream and listeners.
 Each method is proved against the value it has in Engine; what those values mean is proved there.
 */
module Drivers {
  import opened Extraction
  import opened Engine
  import opened Counters
  import opened Streams
  import opened Listeners
  import opened Protocols
  import opened Handovers
  import opened Deadlines
  import opened RawReadings
  import opened Timeouts
  import opened Writing
  import opened Accounting
  import opened Runs

  /** Result of findPacket on an array: a position and a size, or the length error. */
  datatype Location = At(first: nat, size: nat) | LengthError

  /** Result of readPacketInternal: packet size, or 0, and whether data was read; or an error. */
  datatype ReadState = Size(size: nat, received: bool) | Error(error: Error)

  lemma ArrayTail(a: array<byte>, from: nat, size: nat, k: nat)
    requires from + size <= a.Length && k <= size
    ensures a[from..from + size][k..] == a[from + k..from + k + (size - k)]
  {
  }

  class Driver {
    const protocol: Protocol
    const maxPacketSize: nat
    const internalBuffer: array<byte>
    var internalBufferSize: nat
    var extractLast: bool
    var stats: Status
    var stream: IOStream?
    var listeners: set<BufferListener>

    ghost predicate Valid()
      reads this
    {
      internalBuffer.Length == maxPacketSize && internalBufferSize <= maxPacketSize
    }

    /** The bytes held in the internal buffer. */
    ghost function Queued(): Bytes
      reads this, internalBuffer
      requires Valid()
    {
      internalBuffer[..internalBufferSize]
    }

    ghost function Heard(): Audience
      reads `listeners, listeners
    {
      map l | l in listeners :: l.Heard()
    }

    /** The driver, its stream and its listeners, as values. */
    ghost function Snap(): View
      reads this, internalBuffer, stream, listeners
      requires Valid() && stream != null
    {
      Snapshot(Queued(), stats, stream.pending, stream.replies, stream.taken, Heard(), stream.accepted)
    }

    lemma SnapIsQueued()
      requires Valid() && stream != null
      ensures Snap().queued == Queued() && |Queued()| == internalBufferSize
      ensures Snap().pending == stream.pending && Snap().replies == stream.replies
    {
    }

    constructor (protocol: Protocol, maxPacketSize: nat, extractLast: bool)
      ensures Valid() && Queued() == [] && this.maxPacketSize == maxPacketSize
      ensures this.protocol == protocol && this.extractLast == extractLast
      ensures stats == EMPTY_STATUS && stream == null && listeners == {} && fresh(internalBuffer)
    {
      this.protocol, this.maxPacketSize, this.extractLast := protocol, maxPacketSize, extractLast;
      internalBuffer, internalBufferSize := new byte[maxPacketSize], 0;
      stats, stream, listeners := EMPTY_STATUS, null, {};
    }

    // Scanning ----------------------------------------------------------------------------------

    method FindPacket(buffer: array<byte>, from: nat, size: nat) returns (r: Location)
      requires 0 < size && from + size <= buffer.Length
      modifies `stats
      ensures var scan := protocol.Scan(extractLast, buffer[from..from + size]);
              && stats == Credit(old(stats), scan.bad, scan.good)
              && r == if scan.TooLong? then LengthError else At(from + scan.offset, scan.size)
      decreases size
    {
      hide Protocol.Scan, Protocol.Answer, Credit;
      var packetStart, packetSize := 0, 0;
      ghost var b := buffer[from..from + size];
      var result := protocol.Answer(buffer[from..from + size]);
      CreditNothing(stats);
      if result > size {
        ScanWithoutAnswer(protocol, extractLast, b);
        return LengthError;
      }
      if result == 0 {
        ScanWithoutAnswer(protocol, extractLast, b);
        return At(from, 0);
      }
      if result < 0 {
        packetStart := -result;
      } else {
        packetSize := result;
      }
      ScanByAnswer(protocol, extractLast, b, packetStart, packetSize);
      if extractLast {
        stats := Credit(stats, packetStart, packetSize);
      }
      var remaining := size - (packetStart + packetSize);
      if remaining == 0 {
        return At(from + packetStart, packetSize);
      }
      if packetSize == 0 || extractLast {
        var behind := from + packetStart + packetSize;
        ArrayTail(buffer, from, size, packetStart + packetSize);
        ghost var next := protocol.Scan(extractLast, b[packetStart + packetSize..]);
        CreditTwice(old(stats), if extractLast then packetStart else 0, if extractLast then packetSize else 0,
                    next.bad, next.good);
        r := FindPacket(buffer, behind, remaining);
        if r.At? && extractLast && r.size == 0 {
          r := At(from + packetStart, packetSize);
        }
        return;
      }
      r := At(from + packetStart, packetSize);
    }

    // Extraction --------------------------------------------------------------------------------

    method PullBytesFromInternal(buffer: array<byte>, skip: nat, size: nat)
      requires Valid() && skip + size <= internalBufferSize && size <= buffer.Length && buffer != internalBuffer
      modifies `internalBufferSize, internalBuffer, buffer
      ensures Valid() && Queued() == old(Queued())[skip + size..]
      ensures buffer[..size] == old(Queued())[skip..skip + size]
      ensures buffer[size..] == old(buffer[size..])
    {
      var totalSize := skip + size;
      var newInternalSize := internalBufferSize - totalSize;
      forall i | 0 <= i < size {
        buffer[i] := internalBuffer[skip + i];
      }
      assert buffer[..size] == Queued()[skip..skip + size];
      forall i | 0 <= i < newInternalSize {
        internalBuffer[i] := internalBuffer[totalSize + i];
      }
      internalBufferSize := newInternalSize;
    }

    method DoPacketExtraction(buffer: array<byte>) returns (r: Option<nat>)
      requires Valid() && internalBufferSize > 0 && buffer.Length >= maxPacketSize && buffer != internalBuffer
      modifies `stats, `internalBufferSize, internalBuffer, buffer
      ensures Valid()
      ensures var x := protocol.Cut(extractLast, old(Queued()));
              && stats == Credit(old(stats), x.bad, x.good)
              && (x.Refused? ==> r == None && Queued() == old(Queued()) && buffer[..] == old(buffer[..]))
              && (x.Extracted? ==> r == Some(|x.packet|) && Queued() == x.rest)
              && (x.Extracted? ==>
                  buffer[..|x.packet|] == x.packet && buffer[|x.packet|..] == old(buffer[|x.packet|..]))
    {
      hide Protocol.Scan, Protocol.Cut, Credit;
      ghost var was := Queued();
      ghost var scan := protocol.Scan(extractLast, was);
      CutByScan(protocol, extractLast, was);
      assert internalBuffer[0..0 + internalBufferSize] == was;
      var packet := FindPacket(internalBuffer, 0, internalBufferSize);
      if packet.LengthError? {
        return None;
      }
      if !extractLast {
        CreditTwice(old(stats), scan.bad, scan.good, packet.first, packet.size);
        stats := Credit(stats, packet.first, packet.size);
      }
      PullBytesFromInternal(buffer, packet.first, packet.size);
      return Some(packet.size);
    }

    // Listeners ---------------------------------------------------------------------------------

    method NotifyRead(data: Bytes)
      modifies listeners
      ensures Heard() == ToldRead(old(Heard()), data)
    {
      var rest := listeners;
      while rest != {}
        invariant rest <= listeners
        invariant forall l <- rest ::
          l.ReadTraffic() == old(l.ReadTraffic()) && l.WriteTraffic() == old(l.WriteTraffic())
        invariant forall l <- listeners - rest ::
          l.ReadTraffic() == old(l.ReadTraffic()) + data && l.WriteTraffic() == old(l.WriteTraffic())
      {
        var l :| l in rest;
        l.ReadData(data);
        rest := rest - {l};
      }
    }

    method NotifyWrite(data: Bytes)
      modifies listeners
      ensures Heard() == ToldWrite(old(Heard()), data)
    {
      var rest := listeners;
      while rest != {}
        invariant rest <= listeners
        invariant forall l <- rest ::
          l.ReadTraffic() == old(l.ReadTraffic()) && l.WriteTraffic() == old(l.WriteTraffic())
        invariant forall l <- listeners - rest ::
          l.WriteTraffic() == old(l.WriteTraffic()) + data && l.ReadTraffic() == old(l.ReadTraffic())
      {
        var l :| l in rest;
        l.WriteData(data);
        rest := rest - {l};
      }
    }

    // Reading -----------------------------------------------------------------------------------

    /** One read of the stream into the free part of the internal buffer, passed on to the
        listeners. */
    method ReadChunk(ghost data: Bytes) returns (c: Transfer)
      requires Valid() && stream != null
      requires data == Delivered(stream.pending, stream.replies, maxPacketSize - internalBufferSize)
      modifies `internalBufferSize, internalBuffer, stream`pending, stream`replies, stream`atEof, stream`taken,
        stream.clock`trace, listeners
      ensures Valid() && Snap() == old(Snap()).Chunked(maxPacketSize)
      ensures internalBufferSize == old(internalBufferSize) + |data|
      ensures |stream.pending| == |old(stream.pending)| - |data|
      ensures c == TransferOf(old(stream.pending), old(stream.replies), maxPacketSize - old(internalBufferSize))
      ensures stream.clock.trace == old(stream.clock.trace) + [ReadEvent(c)]
      ensures if c.Failed? then data == [] else c.n == |data|
    {
      hide Delivered, Remaining, ChunkSize, TransferOf, Heard, ToldRead, Tail;
      TransferIsData(stream.pending, stream.replies, maxPacketSize - internalBufferSize);
      EmptySides(Queued());
      ToldNothing(Heard());
      c := stream.Read(internalBuffer, internalBufferSize, maxPacketSize - internalBufferSize);
      if c.Moved? && c.n > 0 {
        NotifyRead(internalBuffer[internalBufferSize..internalBufferSize + c.n]);
        internalBufferSize := internalBufferSize + c.n;
      }
    }

    /** The same, as one more event since `start`. */
    method ReadSeen(ghost data: Bytes, ghost start: seq<Event>, ghost before: seq<Event>, ghost received: bool)
      returns (c: Transfer, ghost evs: seq<Event>)
      requires Valid() && stream != null
      requires data == Delivered(stream.pending, stream.replies, maxPacketSize - internalBufferSize)
      requires ReadSince(start, stream.clock.trace, before, received, Flowing)
      modifies `internalBufferSize, internalBuffer, stream`pending, stream`replies, stream`atEof, stream`taken,
        stream.clock`trace, listeners
      ensures Valid() && Snap() == old(Snap()).Chunked(maxPacketSize)
      ensures internalBufferSize == old(internalBufferSize) + |data|
      ensures |stream.pending| == |old(stream.pending)| - |data|
      ensures c == TransferOf(old(stream.pending), old(stream.replies), maxPacketSize - old(internalBufferSize))
      ensures ReadSince(start, stream.clock.trace, evs, received || FlowOf(c).Flowing?, FlowOf(c))
    {
      hide Delivered, TransferOf, Snap, ReadSince, View.Chunked;
      ghost var trace := stream.clock.trace;
      c := ReadChunk(data);
      ReadSinceMore(start, trace, before, received, c);
      evs := if FlowOf(c).Flowing? then before + [ReadEvent(c)] else before;
    }

    /** One extraction, with the counters, as a step from view to view. */
    method ExtractOnce(buffer: array<byte>, ghost x: Cut) returns (found: Option<nat>)
      requires Valid() && stream != null && internalBufferSize > 0
      requires buffer.Length >= maxPacketSize && buffer != internalBuffer
      requires x == protocol.Cut(extractLast, Queued())
      modifies `stats, `internalBufferSize, internalBuffer, buffer
      ensures Valid() && Snap() == old(Snap()).Cutting(x) && (x.Extracted? ==> internalBufferSize == |x.rest|)
      ensures found == if x.Refused? then None else Some(|x.packet|)
      ensures x.Extracted? && x.packet != [] ==> |x.packet| <= buffer.Length && buffer[..|x.packet|] == x.packet
      ensures !(x.Extracted? && x.packet != []) ==> buffer[..] == old(buffer[..])
    {
      hide Protocol.Cut, Credit;
      found := DoPacketExtraction(buffer);
    }

    method ReadPacketInternal(buffer: array<byte>, outSize: int) returns (r: ReadState, ghost evs: seq<Event>)
      requires Valid() && stream != null && outSize <= buffer.Length && buffer != internalBuffer
      modifies `stats, `internalBufferSize, internalBuffer, buffer, stream`pending, stream`replies, stream`atEof,
        stream`taken, stream.clock`trace, listeners
      ensures Valid()
      ensures var call := CallFrom(protocol, extractLast, maxPacketSize, old(Snap()), outSize);
              && Ends(old(Snap()), Snap(), call)
              && Reports(call, r)
              && (r.Size? ==> r.size <= buffer.Length && buffer[..r.size] == call.tally.packet)
              && ReadSince(old(stream.clock.trace), stream.clock.trace, evs, call.tally.taken != [],
                           FlowAfter(extractLast, r))
    {
      hide Protocol.Cut, Credit, Looping, Ends, CallFrom, Absorb, ReadSince, View.Cutting, Heard;
      evs := [];
      ReadSinceStart(stream.clock.trace);
      ghost var was := Snap();
      ghost var call := CallFrom(protocol, extractLast, maxPacketSize, was, outSize);
      if outSize < maxPacketSize {
        CallRefused(protocol, extractLast, maxPacketSize, was, outSize);
        return Error(ProvidedBufferTooSmall), evs;
      }
      CallStart(protocol, extractLast, maxPacketSize, was, outSize);
      var packetSize: nat := 0;
      ghost var t := NO_TALLY;
      if internalBufferSize > 0 {
        ghost var x := protocol.Cut(extractLast, Queued());
        var found := ExtractOnce(buffer, x);
        t := Absorb(t, x);
        if found == None {
          return Error(ResultLargerThanBuffer), evs;
        }
        packetSize := found.value;
        if packetSize > 0 && !extractLast {
          return Size(packetSize, false), evs;
        }
      }
      r, evs := ReadUntilDry(buffer, packetSize, was, call, t);
    }

    /** The loop of readPacketInternal: reads and extracts until a read brings nothing or, in
        first-packet mode, a packet is found. */
    method ReadUntilDry(buffer: array<byte>, foundSize: nat, ghost was: View, ghost call: Call, ghost tally: Tally)
      returns (r: ReadState, ghost evs: seq<Event>)
      requires Valid() && stream != null && maxPacketSize <= buffer.Length && buffer != internalBuffer
      requires Looping(protocol, extractLast, maxPacketSize, was, call, Snap(), tally) && tally.taken == []
      requires foundSize <= buffer.Length && buffer[..foundSize] == tally.packet
      modifies `stats, `internalBufferSize, internalBuffer, buffer, stream`pending, stream`replies, stream`atEof,
        stream`taken, stream.clock`trace, listeners
      ensures Valid() && Ends(was, Snap(), call) && Reports(call, r)
      ensures r.Size? ==> r.size <= buffer.Length && buffer[..r.size] == call.tally.packet
      ensures ReadSince(old(stream.clock.trace), stream.clock.trace, evs, call.tally.taken != [],
                        FlowAfter(extractLast, r))
    {
      hide Protocol.Cut, Credit, Delivered, Remaining, ChunkSize, Looping, Ends, Absorb, TransferOf, ReadSince, NoData,
        Snap, Queued, View.Cutting, View.Chunked, Took, Heard;
      var packetSize: nat := foundSize;
      ghost var t := tally;
      var received := false;
      evs := [];
      ReadSinceStart(stream.clock.trace);
      while true
        invariant Valid() && Looping(protocol, extractLast, maxPacketSize, was, call, Snap(), t)
        invariant packetSize <= buffer.Length && buffer[..packetSize] == t.packet
        invariant ReadSince(old(stream.clock.trace), stream.clock.trace, evs, received, Flowing)
        invariant received == (t.taken != [])
        decreases |stream.pending|
      {
        ghost var now := Snap();
        SnapIsQueued();
        ghost var data := Delivered(stream.pending, stream.replies, maxPacketSize - internalBufferSize);
        TransferIsData(stream.pending, stream.replies, maxPacketSize - internalBufferSize);
        var c;
        c, evs := ReadSeen(data, old(stream.clock.trace), evs, received);
        if c.Failed? || c.n == 0 {
          LoopDry(protocol, extractLast, maxPacketSize, was, call, now, t);
          return if c.Failed? then Error(Unix(c.errno)) else Size(packetSize, received), evs;
        }
        LoopStep(protocol, extractLast, maxPacketSize, was, call, now, t);
        received := true;
        SnapIsQueued();
        ghost var x := protocol.Cut(extractLast, Queued());
        var found := ExtractOnce(buffer, x);
        t := Absorb(Took(t, maxPacketSize - |now.queued|, data), x);
        if found == None {
          return Error(ResultLargerThanBuffer), evs;
        }
        if found.value > 0 {
          packetSize := found.value;
          if !extractLast {
            return Size(packetSize, true), evs;
          }
        }
        if internalBufferSize == maxPacketSize {
          return Error(CurrentPacketTooLarge), evs;
        }
      }
    }

    // Reading without a stream, and asking -------------------------------------------------------

    method ExtractPacketFromInternalBuffer(buffer: array<byte>) returns (r: nat, failed: bool)
      requires Valid() && buffer.Length >= maxPacketSize && buffer != internalBuffer
      modifies `stats, `internalBufferSize, internalBuffer, buffer
      ensures Valid()
      ensures var call := protocol.ExtractQueued(extractLast, old(Queued()), NO_TALLY);
              && Queued() == call.buf && stats == Credit(old(stats), call.tally.bad, call.tally.good)
              && failed == (call.exit == Raised(ResultLargerThanBuffer)) && (!failed ==> call.exit == Returned)
              && r == |call.tally.packet| && r <= buffer.Length && buffer[..r] == call.tally.packet
    {
      hide Protocol.Cut, Credit, Absorb, Protocol.ExtractQueued;
      ghost var call := protocol.ExtractQueued(extractLast, Queued(), NO_TALLY);
      ghost var t := NO_TALLY;
      r, failed := 0, false;
      CreditNothing(stats);
      QueuedByTurn(protocol, extractLast, Queued(), t);
      while internalBufferSize > 0
        invariant Valid() && call == protocol.ExtractQueued(extractLast, Queued(), t)
        invariant stats == Credit(old(stats), t.bad, t.good)
        invariant r <= buffer.Length && buffer[..r] == t.packet
        decreases internalBufferSize
      {
        ghost var was := Queued();
        ghost var x := protocol.Cut(extractLast, was);
        QueuedByTurn(protocol, extractLast, was, t);
        AbsorbFirst(t, x);
        CreditTwice(old(stats), t.bad, t.good, x.bad, x.good);
        var found := DoPacketExtraction(buffer);
        t := Absorb(t, x);
        if found == None {
          return r, true;
        }
        if found.value > 0 {
          r := found.value;
        }
        if found.value == 0 || !extractLast {
          return r, false;
        }
      }
      QueuedByTurn(protocol, extractLast, Queued(), t);
    }

    /** None is the length error. */
    method HasPacket() returns (r: Option<bool>)
      requires Valid()
      modifies `stats
      ensures var scan := Engine.HasPacket(protocol.extractPacket, extractLast, Queued());
              && stats == Credit(old(stats), scan.bad, scan.good)
              && r == if scan.TooLong? then None else Some(scan.size > 0)
    {
      hide Engine.FindPacket, Credit;
      if internalBufferSize == 0 {
        CreditNothing(stats);
        return Some(false);
      }
      assert internalBuffer[0..0 + internalBufferSize] == Queued();
      var packet := FindPacket(internalBuffer, 0, internalBufferSize);
      r := if packet.LengthError? then None else Some(packet.size > 0);
    }

    method Clear()
      requires Valid()
      modifies `internalBufferSize, stream
      ensures Valid() && Queued() == []
      ensures stream != null ==> stream.pending == (if stream.dropsOnClear then [] else old(stream.pending))
                                 && stream.taken == old(stream.taken)
      ensures stream != null ==>
        && stream.accepted == old(stream.accepted) && stream.replies == old(stream.replies)
        && stream.waits == old(stream.waits) && stream.writes == old(stream.writes) && stream.atEof == old(stream.atEof)
    {
      if stream != null {
        stream.Clear();
      }
      internalBufferSize := 0;
    }

    method GetStatus() returns (s: Status)
      requires Valid()
      modifies `stats
      ensures s == stats == old(stats).(queuedBytes := Wrap(|Queued()|))
    {
      stats := stats.(queuedBytes := Wrap(internalBufferSize));
      s := stats;
    }

    method ResetStatus()
      modifies `stats
      ensures stats == EMPTY_STATUS
    {
      stats := EMPTY_STATUS;
    }

    /** None is the error of a driver without a stream. */
    method Eof() returns (r: Option<bool>)
      ensures r == if stream == null then None else Some(stream.atEof)
    {
      r := if stream == null then None else Some(stream.atEof);
    }

    method SetExtractLastPacket(flag: bool)
      modifies `extractLast
      ensures extractLast == flag
    {
      extractLast := flag;
    }

    // Reading with a deadline ---------------------------------------------------------------------

    ghost function Clocks(): set<Clock>
      reads `stream
    {
      if stream == null then {} else {stream.clock}
    }

    /** The waiting part of readPacket: waits for input until the deadline, if there is time left. */
    method AwaitInput(deadline: int, kind: TimeoutKind, ghost rule: Rule, ghost origin: seq<Event>,
                      ghost before: seq<Event>, ghost start: int, ghost got: bool)
      returns (failure: Option<Error>, ghost tr: seq<Event>)
      requires Valid() && stream != null
      requires Watched(rule, origin, stream.clock.trace, before, start, got) && rule.PacketRule? && rule.packet != 0
      requires !Over(Follow(before)) && Follow(before).tried
      requires deadline == start + if got then rule.packet else Min(rule.packet, rule.firstByte)
      modifies stream`waits, stream.clock
      ensures Snap() == old(Snap())
      ensures Watched(rule, origin, stream.clock.trace, tr, start, got)
      ensures failure == None ==> |stream.waits| < |old(stream.waits)| && !Over(Follow(tr)) && !Follow(tr).tried
      ensures failure.Some? ==> (failure.value == Timeout(kind) && Expired(rule, Follow(tr))) || failure.value.Unix?
      ensures failure.Some? ==> ReadEnds(Follow(tr), Error(failure.value))
    {
      hide Watched, Obeys, Follow, Observe, Heard;
      var now := stream.clock.Now();
      WatchedAt(rule, origin, old(stream.clock.trace), before, start, got);
      WatchOne(rule, origin, old(stream.clock.trace), before, start, got, Sampled(now));
      SampleKeeps(Follow(before), now);
      tr := before + [Sampled(now)];
      if now > deadline {
        return Some(Timeout(kind)), tr;
      }
      var remaining := deadline - now;
      WatchedAt(rule, origin, stream.clock.trace, tr, start, got);
      ghost var sampled := stream.clock.trace;
      var ready := stream.Wait(remaining);
      WatchOne(rule, origin, sampled, tr, start, got, Waited(remaining, ready));
      WaitEnds(Follow(tr), remaining, ready);
      tr := tr + [Waited(remaining, ready)];
      if ready.WaitFault? {
        return Some(Unix(ready.errno)), tr;
      }
      if ready.NotReady? {
        ghost var waited := stream.clock.trace;
        var end := stream.clock.Now();
        WatchOne(rule, origin, waited, tr, start, got, Sampled(end));
        SampleKeeps(Follow(tr), end);
        tr := tr + [Sampled(end)];
        return Some(Timeout(kind)), tr;
      }
      failure := None;
    }

    /** One internal call of readPacket, on the way to its deadline. */
    method ReadAwaited(buffer: array<byte>, outSize: int, ghost was: View, ghost calls: nat, ghost tally: Tally,
                       ghost rule: Rule, ghost origin: seq<Event>, ghost before: seq<Event>, ghost start: int,
                       ghost visited: seq<View>)
      returns (r: ReadState, ghost t: Tally, ghost tr: seq<Event>, ghost visits: seq<View>)
      requires Valid() && stream != null && maxPacketSize <= outSize <= buffer.Length && buffer != internalBuffer
      requires Awaiting(protocol, extractLast, was, Snap(), calls, tally)
      requires Watched(rule, origin, stream.clock.trace, before, start, tally.taken != [])
      requires rule.PacketRule? && !Over(Follow(before)) && !Follow(before).tried
      requires Visits(protocol, extractLast, maxPacketSize, outSize, was, Snap(), visited, []) && visited != []
      modifies `stats, `internalBufferSize, internalBuffer, buffer, stream`pending, stream`replies, stream`atEof,
        stream`taken, stream.clock`trace, listeners
      ensures Valid() && Effect(was, Snap(), t) && Counts(extractLast, t)
      ensures Watched(rule, origin, stream.clock.trace, tr, start, t.taken != [])
      ensures ReadEnds(Follow(tr), r) && (r.Size? ==> !Over(Follow(tr)) && (r.size == 0 ==> Follow(tr).tried))
      ensures (r.Size? ==> r.size <= buffer.Length) && |visits| > 1
      ensures Reports(LastCall(protocol, extractLast, maxPacketSize, outSize, visits), r)
      ensures Visits(protocol, extractLast, maxPacketSize, outSize, was, Snap(), visits,
                     if r.Size? then buffer[..r.size] else [])
      ensures var f, whole := protocol.extractPacket, was.queued + t.taken;
              && (r.Error? ==> !r.error.Timeout? && Kept(f, extractLast, whole, Queued()))
              && (r.Size? ==> Handover(f, extractLast, whole, buffer[..r.size], Queued()))
              && (r.Size? ==> (t.taken != [] <==> tally.taken != [] || r.received))
              && (r.Size? && r.size == 0 ==>
                  && Awaiting(protocol, extractLast, was, Snap(), calls + 1, t)
                  && Kept(f, extractLast, whole, Queued()) && Handover(f, extractLast, whole, [], Queued()))
    {
      hide Credit, Ends, Effect, CallFrom, Handover, Kept, Awaiting, Counts, Sum, Heard, Watched, ReadSince,
        Visits, LastCall;
      ghost var mid, earlier := Snap(), stream.clock.trace;
      ghost var call := CallFrom(protocol, extractLast, maxPacketSize, mid, outSize);
      ghost var evs;
      r, evs := ReadPacketInternal(buffer, outSize);
      CallAwaited(protocol, extractLast, maxPacketSize, was, mid, Snap(), calls, tally, outSize);
      VisitMore(protocol, extractLast, maxPacketSize, outSize, was, mid, Snap(), visited);
      visits := visited + [Snap()];
      SumTaken(tally, call.tally);
      WatchReads(rule, origin, earlier, stream.clock.trace, before, start, tally.taken != [], evs,
                 call.tally.taken != [], FlowAfter(extractLast, r));
      t, tr := Sum(tally, call.tally), before + (evs + LastRead(FlowAfter(extractLast, r)));
      if r.Size? && r.size == 0 {
        AwaitedIsKept(protocol, extractLast, was, Snap(), calls + 1, t);
      }
    }

    /** readPacket on a stream.  Times are in microseconds. */
    method ReadFromStream(buffer: array<byte>, outSize: int, packetTimeout: int, firstByteTimeout: int)
      returns (r: ReadState, ghost t: Tally, ghost tr: seq<Event>, ghost visits: seq<View>)
      requires Valid() && stream != null && maxPacketSize <= outSize <= buffer.Length && buffer != internalBuffer
      modifies `stats, `internalBufferSize, internalBuffer, buffer, stream`pending, stream`replies, stream`atEof,
        stream`taken, stream`waits, stream.clock, listeners
      ensures Valid() && Effect(old(Snap()), Snap(), t) && Counts(extractLast, t)
      ensures (r.Size? ==> 0 < r.size <= buffer.Length) && |visits| > 1
      ensures Visits(protocol, extractLast, maxPacketSize, outSize, old(Snap()), Snap(), visits,
                     if r.Size? then buffer[..r.size] else [])
      ensures var whole := old(Queued()) + t.taken;
              && (r.Size? ==> Handover(protocol.extractPacket, extractLast, whole, buffer[..r.size], Queued()))
              && (r.Error? ==> Kept(protocol.extractPacket, extractLast, whole, Queued()))
      ensures stream.clock.trace == old(stream.clock.trace) + tr
      ensures Obeys(PacketRule(packetTimeout, firstByteTimeout), tr)
      ensures r.Error? && r.error.Timeout? ==>
        && r.error.kind == (if packetTimeout == 0 || t.taken == [] then FirstByteTimeout else PacketTimeout)
        && (packetTimeout == 0 || Expired(PacketRule(packetTimeout, firstByteTimeout), Follow(tr)))
        && Handover(protocol.extractPacket, extractLast, old(Queued()) + t.taken, [], Queued())
      ensures ReadEnds(Follow(tr), r)
      ensures Concludes(LastCall(protocol, extractLast, maxPacketSize, outSize, visits), r)
    {
      hide Credit, Effect, Handover, Kept, Awaiting, Counts, Heard, Watched, Follow, Obeys, Expired, Deadline,
        Visits, Snap, Queued, LastCall, Concludes, Reports, ReadEnds;
      SnapIsQueued();
      var timeoutType := FirstByteTimeout;
      var startTime := stream.clock.Now();
      var deadline := startTime + Min(packetTimeout, firstByteTimeout);
      ghost var was, calls := Snap(), 0;
      ghost var rule, origin := PacketRule(packetTimeout, firstByteTimeout), old(stream.clock.trace);
      t, tr, visits := NO_TALLY, [Sampled(startTime)], [was];
      AwaitStart(protocol, extractLast, was);
      VisitStart(protocol, extractLast, maxPacketSize, outSize, was);
      WatchStart(rule, origin, startTime);
      while true
        invariant Valid() && Awaiting(protocol, extractLast, was, Snap(), calls, t)
        invariant Watched(rule, origin, stream.clock.trace, tr, startTime, t.taken != [])
        invariant Visits(protocol, extractLast, maxPacketSize, outSize, was, Snap(), visits, []) && visits != []
        invariant !Over(Follow(tr)) && !Follow(tr).tried
        invariant timeoutType == if t.taken == [] then FirstByteTimeout else PacketTimeout
        invariant deadline == startTime + if t.taken == [] then Min(packetTimeout, firstByteTimeout) else packetTimeout
        decreases |stream.waits|
      {
        r, t, tr, visits := ReadAwaited(buffer, outSize, was, calls, t, rule, origin, tr, startTime, visits);
        calls := calls + 1;
        SnapIsQueued();
        WatchedAt(rule, origin, stream.clock.trace, tr, startTime, t.taken != []);
        ghost var call := LastCall(protocol, extractLast, maxPacketSize, outSize, visits);
        if r.Error? || r.size > 0 {
          CallConcludes(call, r);
          return;
        }
        if packetTimeout == 0 {
          WaitConcludes(call, r, Timeout(FirstByteTimeout));
          ImpatientEnds(Follow(tr), FirstByteTimeout);
          return Error(Timeout(FirstByteTimeout)), t, tr, visits;
        }
        if timeoutType == FirstByteTimeout && r.received {
          deadline := startTime + packetTimeout;
          timeoutType := PacketTimeout;
        }
        var failure;
        failure, tr := AwaitInput(deadline, timeoutType, rule, origin, tr, startTime, t.taken != []);
        SnapIsQueued();
        if failure.Some? {
          WatchedAt(rule, origin, stream.clock.trace, tr, startTime, t.taken != []);
          WaitConcludes(call, r, failure.value);
          return Error(failure.value), t, tr, visits;
        }
      }
    }

    /** readPacket, with or without a stream. */
    method ReadPacket(buffer: array<byte>, outSize: int, packetTimeout: int, firstByteTimeout: int)
      returns (r: ReadState, ghost visits: seq<View>, ghost tr: seq<Event>)
      requires Valid() && outSize <= buffer.Length && buffer != internalBuffer
      modifies `stats, `internalBufferSize, internalBuffer, buffer, listeners, stream, Clocks()
      ensures Valid() && (r.Size? ==> 0 < r.size <= buffer.Length)
      ensures outSize < maxPacketSize ==>
        r == Error(ProvidedBufferTooSmall) && Queued() == old(Queued()) && (stream != null ==> Snap() == old(Snap()))
      ensures outSize >= maxPacketSize && stream == null ==>
        var queued := protocol.ExtractQueued(extractLast, old(Queued()), NO_TALLY);
        && Queued() == queued.buf && stats == Credit(old(stats), queued.tally.bad, queued.tally.good)
        && r == (if queued.exit.Raised? then Error(ResultLargerThanBuffer)
                 else if queued.tally.packet == [] then Error(Timeout(PacketTimeout))
                 else Size(|queued.tally.packet|, false))
        && (r.Size? ==> buffer[..r.size] == queued.tally.packet)
      ensures stream != null ==>
        && old(stream.taken) <= stream.taken && stream.accepted == old(stream.accepted)
        && Visits(protocol, extractLast, maxPacketSize, outSize, old(Snap()), Snap(), visits,
                  if r.Size? then buffer[..r.size] else [])
        && (|visits| > 1 <==> outSize >= maxPacketSize)
        && var whole := old(Queued()) + stream.taken[|old(stream.taken)|..];
        && (r.Size? ==> Handover(protocol.extractPacket, extractLast, whole, buffer[..r.size], Queued()))
        && (r.Error? && outSize >= maxPacketSize ==> Kept(protocol.extractPacket, extractLast, whole, Queued()))
        && (r.Error? && r.error.Timeout? ==> Handover(protocol.extractPacket, extractLast, whole, [], Queued()))
      ensures stream != null ==>
        && stream.clock.trace == old(stream.clock.trace) + tr && Obeys(PacketRule(packetTimeout, firstByteTimeout), tr)
        && (r.Error? && r.error.Timeout? ==>
            && r.error.kind ==
               (if packetTimeout == 0 || stream.taken == old(stream.taken) then FirstByteTimeout else PacketTimeout)
            && (packetTimeout == 0 || Expired(PacketRule(packetTimeout, firstByteTimeout), Follow(tr))))
        && ReadEnds(Follow(tr), r)
        && (|visits| > 1 ==> Concludes(LastCall(protocol, extractLast, maxPacketSize, outSize, visits), r))
    {
      hide Protocol.ExtractQueued, Handover, Kept, Counts, Heard, Obeys, Credit, Visits, Expired, Follow, LastCall,
        Concludes;
      visits, tr := [], [];
      if outSize < maxPacketSize {
        if stream != null {
          visits := [Snap()];
          StartOfAll(PacketRule(packetTimeout, firstByteTimeout));
          EmptySides(stream.clock.trace);
          VisitStart(protocol, extractLast, maxPacketSize, outSize, Snap());
        }
        return Error(ProvidedBufferTooSmall), visits, tr;
      }
      if stream == null {
        var size, failed := ExtractPacketFromInternalBuffer(buffer);
        return if failed then Error(ResultLargerThanBuffer)
          else if size > 0 then Size(size, false)
          else Error(Timeout(PacketTimeout)), visits, tr;
      }
      ghost var t;
      r, t, tr, visits := ReadFromStream(buffer, outSize, packetTimeout, firstByteTimeout);
      assert stream.taken[|old(stream.taken)|..] == t.taken;
    }

    // Raw reading ---------------------------------------------------------------------------------

    /** One read of the stream into the caller's buffer, behind the bytes already there. */
    method ReadPast(buffer: array<byte>, bufferFill: nat, room: nat) returns (c: Transfer, now: int, ghost data: Bytes)
      requires Valid() && stream != null && bufferFill + room <= buffer.Length && buffer != internalBuffer
      modifies buffer, stream`pending, stream`replies, stream`atEof, stream`taken, stream.clock, listeners
      ensures Valid() && Passed(old(Snap()), Snap(), data)
      ensures |data| <= room && |data| == if c.Moved? then c.n else 0
      ensures buffer[..bufferFill + |data|] == old(buffer[..bufferFill]) + data
      ensures var read := old(stream.clock.trace) + [ReadEvent(c)];
              stream.clock.trace == if c.Moved? then read + [Sampled(now)] else read
    {
      hide Delivered, Remaining, ChunkSize, TransferOf, Heard, ToldRead, Tail;
      TransferIsData(stream.pending, stream.replies, room);
      DeliveredFirst(stream.pending, stream.replies, room);
      ToldNothing(Heard());
      data := Delivered(stream.pending, stream.replies, room);
      c := stream.Read(buffer, bufferFill, room);
      if c.Failed? {
        return c, 0, data;
      }
      now := stream.clock.Now();
      if c.n > 0 {
        NotifyRead(buffer[bufferFill..bufferFill + c.n]);
      }
    }

    /** The waiting part of readRaw. */
    method AwaitBytes(timeout: int, ghost rule: Rule, ghost origin: seq<Event>, ghost before: seq<Event>,
                      ghost received: bool, ghost now: int, ghost lastChar: int, ghost global: int, ghost filled: nat)
      returns (ready: WaitReply, ghost tr: seq<Event>)
      requires Valid() && stream != null
      requires Paced(rule, origin, stream.clock.trace, before, received, now, lastChar, global, filled, false)
      requires filled < rule.room && now <= global && timeout == Min(global, lastChar + rule.interByte) - now
      modifies stream`waits, stream.clock`trace
      ensures Snap() == old(Snap()) && (ready.Ready? ==> |stream.waits| < |old(stream.waits)|)
      ensures ready.Ready? ==>
        Paced(rule, origin, stream.clock.trace, tr, received, now, lastChar, global, filled, true)
      ensures stream.clock.trace == origin + tr && Obeys(rule, tr)
      ensures ready.NotReady? ==> Expired(rule, Follow(tr))
      ensures Follow(tr).fault == if ready.WaitFault? then Some(ready.errno) else None
      ensures Follow(tr).unanswered == ready.NotReady?
    {
      hide Paced, Expired, Follow, Obeys, Heard;
      ghost var trace := stream.clock.trace;
      ready := stream.Wait(timeout);
      PaceWait(rule, origin, trace, before, received, now, lastChar, global, filled, Waited(timeout, ready));
      tr := before + [Waited(timeout, ready)];
    }

    /** The reading part of readRaw. */
    method ReadPaced(buffer: array<byte>, bufferFill: nat, room: nat, ghost was: View, ghost had: Bytes,
                     ghost rule: Rule,
                     ghost origin: seq<Event>, ghost before: seq<Event>, ghost received: bool, ghost now: int,
                     ghost lastChar: int, ghost global: int, ghost filled: nat)
      returns (c: Transfer, later: int, ghost got: Bytes, ghost tr: seq<Event>)
      requires Valid() && stream != null && bufferFill + room <= buffer.Length && buffer != internalBuffer
      requires Passed(was, Snap(), had)
      requires Paced(rule, origin, stream.clock.trace, before, received, now, lastChar, global, filled, true)
      requires filled + room <= rule.room
      modifies buffer, stream`pending, stream`replies, stream`atEof, stream`taken, stream.clock, listeners
      ensures Valid() && Passed(was, Snap(), had + got)
      ensures |got| <= room && |got| == if c.Moved? then c.n else 0
      ensures buffer[..bufferFill + |got|] == old(buffer[..bufferFill]) + got
      ensures if c.Failed? then
                && stream.clock.trace == origin + tr && Obeys(rule, tr)
                && Follow(tr).fault == Some(c.errno) && !Follow(tr).unanswered
              else Paced(rule, origin, stream.clock.trace, tr, received || c.n > 0, later,
                         if c.n > 0 then later else lastChar,
                         if c.n > 0 && !received then later + rule.packet else global, filled + c.n, false)
    {
      hide Passed, Paced, Obeys, Follow, Heard, Snap;
      ghost var mid, trace := Snap(), stream.clock.trace;
      c, later, got := ReadPast(buffer, bufferFill, room);
      PassedMore(was, mid, Snap(), had, got);
      tr := before + [ReadEvent(c)];
      if c.Failed? {
        PaceFailed(rule, origin, trace, before, received, now, lastChar, global, filled, c.errno);
      } else {
        PaceRead(rule, origin, trace, before, received, now, lastChar, global, filled, |got|, later);
        tr := tr + [Sampled(later)];
      }
    }

    /** The loop of readRaw, which reads behind `start` bytes already in the caller's buffer. */
    method ReadUntilFull(buffer: array<byte>, start: nat, outSize: nat, ghost rule: Rule, packetTimeout: int,
                         firstByteTimeout: int, interByteTimeout: int)
      returns (r: ReadState, ghost got: Bytes, ghost tr: seq<Event>)
      requires Valid() && stream != null && start <= outSize <= buffer.Length && buffer != internalBuffer
      requires rule == RawRule(packetTimeout, firstByteTimeout, interByteTimeout, outSize - start)
      modifies buffer, stream`pending, stream`replies, stream`atEof, stream`taken, stream`waits, stream.clock, listeners
      ensures Valid() && Passed(old(Snap()), Snap(), got) && start + |got| <= outSize
      ensures buffer[..start + |got|] == old(buffer[..start]) + got
      ensures stream.clock.trace == old(stream.clock.trace) + tr && Obeys(rule, tr)
      ensures r.Size? ==> r.size == start + |got| && (r.size == outSize || Expired(rule, Follow(tr)))
      ensures Follow(tr).fault == FaultOf(Problem(r)) && (r.Error? ==> r.error.Unix?)
      ensures Follow(tr).unanswered ==> r.Size?
    {
      hide Passed, Paced, Expired, Obeys, Follow, Heard, Snap;
      ghost var was, origin := Snap(), stream.clock.trace;
      var bufferFill := start;
      var received := false;
      var now := stream.clock.Now();
      var lastChar, global := now + packetTimeout, now + Min(packetTimeout, firstByteTimeout);
      got, tr := [], [Sampled(now)];
      PaceStart(rule, origin, now);
      PassedNothing(was);
      EmptySides(buffer[..start]);
      while bufferFill < outSize && now <= global
        invariant Valid() && Passed(was, Snap(), got)
        invariant bufferFill == start + |got| <= outSize && buffer[..bufferFill] == old(buffer[..start]) + got
        invariant Paced(rule, origin, stream.clock.trace, tr, received, now, lastChar, global, |got|, false)
        decreases |stream.waits|
      {
        var deadline := Min(global, lastChar + interByteTimeout);
        var ready;
        ready, tr := AwaitBytes(deadline - now, rule, origin, tr, received, now, lastChar, global, |got|);
        if !ready.Ready? {
          return if ready.NotReady? then Size(bufferFill, received) else Error(Unix(ready.errno)), got, tr;
        }
        var c, later;
        ghost var data;
        c, later, data, tr := ReadPaced(buffer, bufferFill, outSize - bufferFill, was, got, rule, origin, tr,
                                        received, now, lastChar, global, |got|);
        Associate(old(buffer[..start]), got, data);
        got := got + data;
        if c.Failed? {
          return Error(Unix(c.errno)), got, tr;
        }
        now := later;
        if c.n > 0 {
          lastChar := now;
          if !received {
            global, received := now + packetTimeout, true;
          }
        }
        bufferFill := bufferFill + c.n;
      }
      PaceEnd(rule, origin, stream.clock.trace, tr, received, now, lastChar, global, |got|);
      r := Size(bufferFill, received);
    }

    /** The queued bytes a raw read starts with. */
    method PullQueued(buffer: array<byte>, n: nat)
      requires Valid() && n <= internalBufferSize && n <= buffer.Length && buffer != internalBuffer && stream != null
      modifies `internalBufferSize, internalBuffer, buffer
      ensures Valid() && Snap() == Pulling(old(Snap()), n)
      ensures Queued() == old(Queued())[n..] && buffer[..n] == old(Queued())[..n]
    {
      hide Heard;
      PullBytesFromInternal(buffer, 0, n);
      assert old(Queued())[0..n] == old(Queued())[..n];
    }

    /** readRaw on a stream: the queued bytes first, then bytes from the stream, until the caller's buffer
        is full or time is up. */
    method ReadRawFromStream(buffer: array<byte>, outSize: nat, packetTimeout: int, firstByteTimeout: int,
                             interByteTimeout: int, ghost rule: Rule)
      returns (r: ReadState, ghost got: Bytes, ghost tr: seq<Event>)
      requires Valid() && stream != null && outSize <= buffer.Length && buffer != internalBuffer
      requires rule == RawRuleOf(packetTimeout, firstByteTimeout, interByteTimeout,
                                 outSize - Pulled(Queued(), outSize))
      modifies `internalBufferSize, internalBuffer, buffer, listeners, stream`pending, stream`replies, stream`atEof,
        stream`taken, stream`waits, stream.clock
      ensures Valid()
      ensures var n := Pulled(old(Queued()), outSize);
        && AllPulled(n, old(Queued()), outSize)
        && Queued() == old(Queued())[n..] && Passed(Pulling(old(Snap()), n), Snap(), got)
        && |got| == FreshBytes(old(Queued()), old(stream.pending), outSize, |got|)
        && buffer[..n + |got|] == old(Queued())[..n] + got
        && (r.Size? ==> r.size == n + |got| && (r.size == outSize || Expired(rule, Follow(tr))))
        && (r.Error? ==> r.error.Unix?)
      ensures stream.clock.trace == old(stream.clock.trace) + tr && Obeys(rule, tr)
      ensures Follow(tr).fault == FaultOf(Problem(r)) && (Follow(tr).unanswered ==> r.Size?)
    {
      hide Passed, Pulling, Expired, Obeys, Follow, Heard, FreshBytes, Pulled, AllPulled;
      PulledAll(Queued(), outSize);
      var bufferFill := Min(internalBufferSize, outSize);
      PullQueued(buffer, bufferFill);
      var inter := if interByteTimeout == 0 then packetTimeout else interByteTimeout;
      ghost var mid := Snap();
      r, got, tr := ReadUntilFull(buffer, bufferFill, outSize, rule, packetTimeout, firstByteTimeout, inter);
      PassedIsFresh(mid, Snap(), got, old(Queued()), outSize);
    }

    method ReadRaw(buffer: array<byte>, outSize: nat, packetTimeout: int, firstByteTimeout: int, interByteTimeout: int)
      returns (r: ReadState, ghost got: Bytes, ghost tr: seq<Event>)
      requires Valid() && outSize <= buffer.Length && buffer != internalBuffer
      modifies `internalBufferSize, internalBuffer, buffer, listeners, stream, Clocks()
      ensures Valid()
      ensures stream == null ==> r == Error(InvalidStream) && Queued() == old(Queued()) && got == []
      ensures stream != null ==>
        var n := Pulled(old(Queued()), outSize);
        && stream.accepted == old(stream.accepted) && AllPulled(n, old(Queued()), outSize)
        && Queued() == old(Queued())[n..] && Passed(Pulling(old(Snap()), n), Snap(), got)
        && |got| == FreshBytes(old(Queued()), old(stream.pending), outSize, |got|)
        && buffer[..n + |got|] == old(Queued())[..n] + got
        && (r.Size? ==> r.size == n + |got|) && (r.Error? ==> r.error.Unix?)
      ensures stream != null ==>
        var rule := RawRuleOf(packetTimeout, firstByteTimeout, interByteTimeout,
                              outSize - Pulled(old(Queued()), outSize));
        && stream.clock.trace == old(stream.clock.trace) + tr && Obeys(rule, tr)
        && (r.Size? && r.size < outSize ==> Expired(rule, Follow(tr)))
        && Follow(tr).fault == FaultOf(Problem(r)) && (Follow(tr).unanswered ==> r.Size?)
    {
      hide Passed, Pulling, Expired, Obeys, Follow, Heard, FreshBytes, Pulled, AllPulled, ToldRead;
      if stream == null {
        return Error(InvalidStream), [], [];
      }
      ghost var rule := RawRuleOf(packetTimeout, firstByteTimeout, interByteTimeout,
                                  outSize - Pulled(Queued(), outSize));
      r, got, tr := ReadRawFromStream(buffer, outSize, packetTimeout, firstByteTimeout, interByteTimeout, rule);
    }

    // Writing -------------------------------------------------------------------------------------

    /** One write of what is left, passed on to the listeners. */
    method WriteOnce(buffer: array<byte>, written: nat, size: nat) returns (c: Transfer)
      requires stream != null && written <= size <= buffer.Length
      modifies stream`accepted, stream`writes, stream.clock`trace, listeners
      ensures c.Moved? ==> written + c.n <= size
      ensures stream.clock.trace == old(stream.clock.trace) + [WriteEvent(c)]
      ensures var data := if c.Moved? then buffer[written..written + c.n] else [];
              Wrote(old(stream.accepted), old(Heard()), stream.accepted, Heard(), data)
    {
      hide TransferOf, ToldWrite, Heard;
      ToldNothing(Heard());
      EmptySides(stream.accepted);
      c := stream.Write(buffer[written..size]);
      if c.Moved? {
        assert buffer[written..size][..c.n] == buffer[written..written + c.n];
        NotifyWrite(buffer[written..written + c.n]);
      }
    }

    /** The waiting part of writePacket: waits for room to write, if there is time left. */
    method AwaitOutput(timeout: Timeouts.Timeout, ghost ms: int, ghost size: nat, ghost origin: seq<Event>,
                       ghost before: seq<Event>, ghost start: nat)
      returns (failure: Option<Error>, ghost tr: seq<Event>)
      requires stream != null && Watched(WriteRule(ms, size), origin, stream.clock.trace, before, start, false)
      requires !Over(Follow(before)) && Follow(before).tried && Follow(before).count < size
      requires timeout.clock == stream.clock && timeout.timeout == Wrap(ms)
      requires timeout.startTime == start <= stream.clock.now
      modifies stream`waits, stream.clock
      ensures failure == None ==>
        && |stream.waits| < |old(stream.waits)| && start <= stream.clock.now
        && Watched(WriteRule(ms, size), origin, stream.clock.trace, tr, start, false) && !Over(Follow(tr))
        && !Follow(tr).tried && Follow(tr).count == Follow(before).count
      ensures failure.Some? ==>
        stream.clock.trace == origin + tr && Obeys(WriteRule(ms, size), tr) && WriteEnds(ms, Follow(tr), failure)
    {
      hide Watched, Obeys, Follow, HasElapsed, TimeLeft, Wrap, Microseconds, WriteEnds;
      ghost var trace := stream.clock.trace;
      var elapsed := timeout.Elapsed();
      ghost var now := stream.clock.now;
      if elapsed {
        WriteExpires(ms, size, origin, trace, before, start, now);
        return Some(Error.Timeout(PacketTimeout)), before + [Sampled(now)];
      }
      var left := timeout.Left();
      ghost var later := stream.clock.now;
      var wait := Microseconds(left);
      var ready := stream.Wait(wait);
      WriteTurn(ms, size, origin, trace, before, start, now, later, ready);
      tr := before + [Sampled(now)] + [Sampled(later)] + [Waited(wait, ready)];
      WatchedAt(WriteRule(ms, size), origin, stream.clock.trace, tr, start, false);
      failure := if ready.Ready? then None
        else Some(if ready.NotReady? then Error.Timeout(NoKind) else Unix(ready.errno));
    }

    /** writePacket on a stream, with a timeout in milliseconds. */
    method WriteToStream(buffer: array<byte>, size: nat, ms: int)
      returns (r: Option<Error>, ghost written: nat, ghost tr: seq<Event>)
      requires stream != null && size <= buffer.Length
      modifies `stats, stream`accepted, stream`writes, stream`waits, stream.clock, listeners
      ensures written <= size && (r == None ==> written == size) && (r.Some? ==> written < size || size == 0)
      ensures Wrote(old(stream.accepted), old(Heard()), stream.accepted, Heard(), buffer[..written])
      ensures stats == if r == None then old(stats).(tx := Add32(old(stats).tx, size)) else old(stats)
      ensures stream.clock.trace == old(stream.clock.trace) + tr && Obeys(WriteRule(ms, size), tr)
      ensures WriteEnds(ms, Follow(tr), r) && (r.Some? && !r.value.Unix? ==> written < size)
    {
      hide Heard, Wrote, Watched, Obeys, Follow, Add32, HasElapsed, TimeLeft, Wrap, Microseconds, WriteEnds;
      ghost var origin, accepted, heard := stream.clock.trace, stream.accepted, Heard();
      var timeout := new Timeout(stream.clock, ms);
      ghost var start := timeout.startTime;
      tr := [Sampled(start)];
      var done: nat := 0;
      WatchStart(WriteRule(ms, size), origin, start);
      WroteNothing(accepted, heard);
      while true
        invariant (done < size || done == size == 0) && timeout.startTime == start <= stream.clock.now
        invariant Wrote(accepted, heard, stream.accepted, Heard(), buffer[..done])
        invariant Watched(WriteRule(ms, size), origin, stream.clock.trace, tr, start, false) && !Over(Follow(tr))
        invariant !Follow(tr).tried && Follow(tr).count == done
        invariant stats == old(stats)
        decreases |stream.waits|
      {
        ghost var trace := stream.clock.trace;
        ghost var soFar, told := stream.accepted, Heard();
        var c := WriteOnce(buffer, done, size);
        ghost var data := if c.Moved? then buffer[done..done + c.n] else [];
        WroteMore(accepted, heard, soFar, told, buffer[..done], stream.accepted, Heard(), data);
        WatchOne(WriteRule(ms, size), origin, trace, tr, start, false, WriteEvent(c));
        tr := tr + [WriteEvent(c)];
        WatchedAt(WriteRule(ms, size), origin, stream.clock.trace, tr, start, false);
        if c.Failed? {
          WriteFaults(ms, Follow(tr), c.errno);
          EmptySides(buffer[..done]);
          return Some(Unix(c.errno)), done, tr;
        }
        assert buffer[..done] + data == buffer[..done + c.n];
        done := done + c.n;
        if done == size {
          stats := stats.(tx := Add32(stats.tx, size));
          WriteDone(ms, Follow(tr));
          return None, done, tr;
        }
        var failure;
        failure, tr := AwaitOutput(timeout, ms, size, origin, tr, start);
        if failure.Some? {
          return failure, done, tr;
        }
      }
    }

    method WritePacket(buffer: array<byte>, size: nat, ms: int)
      returns (r: Option<Error>, ghost written: nat, ghost tr: seq<Event>)
      requires Valid() && size <= buffer.Length
      modifies `stats, stream, Clocks(), listeners
      ensures Valid() && Queued() == old(Queued()) && written <= size && (r == None ==> written == size)
      ensures r.Some? ==> written < size || size == 0
      ensures stream == null ==> r == Some(InvalidStream) && stats == old(stats) && Heard() == old(Heard())
      ensures stream != null ==>
        && Wrote(old(stream.accepted), old(Heard()), stream.accepted, Heard(), buffer[..written])
        && stream.pending == old(stream.pending) && stream.taken == old(stream.taken)
        && stream.replies == old(stream.replies) && stream.atEof == old(stream.atEof)
        && stats == (if r == None then old(stats).(tx := Add32(old(stats).tx, size)) else old(stats))
        && stream.clock.trace == old(stream.clock.trace) + tr && Obeys(WriteRule(ms, size), tr)
        && WriteEnds(ms, Follow(tr), r) && (r.Some? && !r.value.Unix? ==> written < size)
    {
      hide Heard, Wrote, Obeys, Follow, Add32, WriteEnds;
      if stream == null {
        return Some(InvalidStream), 0, [];
      }
      r, written, tr := WriteToStream(buffer, size, ms);
    }
  }

  function Problem(r: ReadState): Option<Error> {
    if r.Error? then Some(r.error) else None
  }

  /** How a readPacket ends after its last internal call: with the error that raised, with its packet, or, if it
      found none, with a timeout or a fault of the stream. */
  predicate Concludes(call: Call, r: ReadState) {
    match call.exit
    case Raised(e) => r == Error(e)
    case Returned =>
      if call.tally.packet != [] then r.Size? && r.size == |call.tally.packet|
      else r.Error? && (r.error.Timeout? || r.error.Unix?)
  }

  /** How the reads of an internal call ended: it goes on reading until it has what is asked for, or is dry. */
  function FlowAfter(last: bool, r: ReadState): Flow {
    if r.Error? then if r.error.Unix? then Snapped(r.error.errno) else Flowing
    else if last || r.size == 0 then RanDry else Flowing
  }

  /** An error of readPacket that is a fault of the stream is the one that was observed, and the other way round; and a
      wait without an answer leads to a timeout. */
  predicate ReadEnds(p: Progress, r: ReadState) {
    p.fault == FaultOf(Problem(r)) && (p.unanswered ==> r.Error? && r.error.Timeout?)
  }

  lemma ImpatientEnds(p: Progress, kind: TimeoutKind)
    requires !Over(p)
    ensures ReadEnds(p, Error(Timeout(kind)))
  {
  }

  lemma CallConcludes(call: Call, r: ReadState)
    requires Reports(call, r) && (r.Size? ==> r.size > 0)
    ensures Concludes(call, r)
  {
  }

  lemma WaitConcludes(call: Call, r: ReadState, error: Error)
    requires Reports(call, r) && r.Size? && r.size == 0 && (error.Timeout? || error.Unix?)
    ensures Concludes(call, Error(error))
  {
  }

  predicate Reports(call: Call, r: ReadState) {
    match call.exit
    case Raised(e) => r == Error(e)
    case Returned => r == Size(|call.tally.packet|, call.tally.taken != [])
  }
}
