/**
 What the driver's reading operations compute, on values: the specification the driver class is
 proved against, and the object of the theorems about reassembly, order and accounting.
 The stream is the bytes it has yet to deliver plus its replies to the reads of a call, so every
 way of cutting the bytes into chunks is some list of replies.
 */
module Engine {
  import opened Extraction

  datatype TimeoutKind = NoKind | PacketTimeout | FirstByteTimeout

  datatype Error =
    | ProvidedBufferTooSmall
    | ResultLargerThanBuffer
    | CurrentPacketTooLarge
    | Unix(errno: int)
    | Timeout(kind: TimeoutKind)
    | InvalidStream

  datatype Option<T> = None | Some(value: T)

  /** The fault of a stream that an error passes on. */
  function FaultOf(error: Option<Error>): Option<int> {
    if error.Some? && error.value.Unix? then Some(error.value.errno) else None
  }

  // Scanning ------------------------------------------------------------------------------------

  /** Result of findPacket: where the packet is (its size is zero when there is none), and what the
      scan itself added to the counters, also when it ends in a length error. */
  datatype Scan =
    | Found(offset: nat, size: nat, bad: nat, good: nat)
    | TooLong(bad: nat, good: nat)

  function FindPacket(f: Extractor, last: bool, b: Bytes): (r: Scan)
    requires b != []
    ensures r.Found? ==> r.offset + r.size <= |b|
    decreases |b|
  {
    match Ask(f, b)
    case Overrun => TooLong(0, 0)
    case Wait => Found(0, 0, 0, 0)
    case Discard(n) =>
      var bad := if last then n else 0;
      if n == |b| then Found(n, 0, bad, 0)
      else Beyond(last, Found(n, 0, bad, 0), FindPacket(f, last, b[n..]))
    case Packet(n) =>
      if n == |b| || !last then Found(0, n, 0, if last then n else 0)
      else Beyond(last, Found(0, n, 0, n), FindPacket(f, last, b[n..]))
  }

  /** Combines the decision `here` with the scan of the bytes behind it: in extract-last mode a
      scan that finds no packet leaves the earlier decision standing, counters excepted. */
  function Beyond(last: bool, here: Scan, next: Scan): Scan
    requires here.Found?
  {
    match next
    case TooLong(bad, good) => TooLong(here.bad + bad, here.good + good)
    case Found(offset, size, bad, good) =>
      if last && size == 0 then here.(bad := here.bad + bad, good := here.good + good)
      else Found(here.offset + here.size + offset, size, here.bad + bad, here.good + good)
  }

  /** Result of doPacketExtraction: what was cut out of the buffer, what is left of it, and what was
      added to the counters. */
  datatype Cut =
    | Extracted(offset: nat, packet: Bytes, rest: Bytes, bad: nat, good: nat)
    | Refused(bad: nat, good: nat)

  predicate CutOf(b: Bytes, x: Cut) {
    x.Extracted? ==>
      && x.offset + |x.packet| <= |b|
      && x.packet == b[x.offset..x.offset + |x.packet|]
      && x.rest == b[x.offset + |x.packet|..]
  }

  function Extract(f: Extractor, last: bool, b: Bytes): (x: Cut)
    requires b != []
    ensures CutOf(b, x)
    ensures x.Extracted? ==> |x.rest| == |b| - x.offset - |x.packet|
  {
    match FindPacket(f, last, b)
    case TooLong(bad, good) => Refused(bad, good)
    case Found(offset, size, bad, good) =>
      Extracted(offset, b[offset..offset + size], b[offset + size..],
                if last then bad else offset, if last then good else size)
  }

  // Reading -------------------------------------------------------------------------------------

  /** How the stream answers one read: with up to `n` of its pending bytes, with end-of-file, or
      with an error. */
  datatype Reply = Deliver(n: nat) | EndOfFile | Fault(errno: int)

  function Min(a: int, b: int): int {
    if a <= b then a else b
  }

  /** How many bytes a read returns.  A stream that has run out of replies has nothing to read. */
  function ChunkSize(pending: Bytes, replies: seq<Reply>, room: nat): (n: nat)
    ensures n <= |pending| && n <= room
    ensures n > 0 ==> replies != []
  {
    if replies != [] && replies[0].Deliver? then Min(replies[0].n, Min(room, |pending|)) else 0
  }

  /** The bytes a read returns: a prefix of what is pending, at most the room given. */
  function Delivered(pending: Bytes, replies: seq<Reply>, room: nat): (data: Bytes)
    ensures |data| == ChunkSize(pending, replies, room)
  {
    pending[..ChunkSize(pending, replies, room)]
  }

  function Remaining(pending: Bytes, replies: seq<Reply>, room: nat): (rest: Bytes)
    ensures |rest| == |pending| - ChunkSize(pending, replies, room)
  {
    pending[ChunkSize(pending, replies, room)..]
  }

  /** What happened so far in one call.  `taken` is what the stream delivered in `polls` reads, which
      were `cramped` if one of them had no room at all; positions count from the first byte that was
      queued when the call started. */
  datatype Tally = Tally(taken: Bytes, polls: nat, cramped: bool, dropped: nat, at: nat, packet: Bytes,
                         bad: nat, good: nat)

  const NO_TALLY := Tally([], 0, false, 0, 0, [], 0, 0)

  /** The tally of a read of `data` into `room` bytes. */
  function Took(t: Tally, room: nat, data: Bytes): Tally {
    t.(polls := t.polls + 1, cramped := t.cramped || room == 0, taken := t.taken + data)
  }

  /** Accounts for one extraction; one that finds no packet leaves the caller's buffer, and the
      packet recorded, as they are. */
  function Absorb(t: Tally, x: Cut): Tally {
    match x
    case Refused(bad, good) => t.(bad := t.bad + bad, good := t.good + good)
    case Extracted(offset, packet, _, bad, good) =>
      Tally(t.taken, t.polls, t.cramped, t.dropped + offset + |packet|,
            if packet == [] then t.at else t.dropped + offset, if packet == [] then t.packet else packet,
            t.bad + bad, t.good + good)
  }

  datatype Exit = Returned | Raised(error: Error)

  datatype Call = Call(buf: Bytes, tally: Tally, exit: Exit)

  /** How a call ends when a read brings no data. */
  function NoData(replies: seq<Reply>): Exit {
    if replies != [] && replies[0].Fault? then Raised(Unix(replies[0].errno)) else Returned
  }

  /** One turn of the reading loop ends the call or leads to another turn. */
  datatype Turn =
    | Stop(call: Call)
    | Again(buf: Bytes, pending: Bytes, replies: seq<Reply>, tally: Tally)

  function ReadTurn(f: Extractor, last: bool, max: nat, b: Bytes, pending: Bytes, replies: seq<Reply>,
                    t: Tally): (r: Turn)
    requires |b| <= max
    ensures r.Again? ==> |r.pending| < |pending| && |r.buf| < max
  {
    var room := max - |b|;
    if ChunkSize(pending, replies, room) == 0 then
      Stop(Call(b, Took(t, room, []), NoData(replies)))
    else
      var data := Delivered(pending, replies, room);
      AfterCut(last, max, b + data, Extract(f, last, b + data),
               Remaining(pending, replies, room), replies[1..], Took(t, room, data))
  }

  /** The second half of a turn: `b` includes the bytes just read, and `x` was cut out of it. */
  function AfterCut(last: bool, max: nat, b: Bytes, x: Cut, pending: Bytes, replies: seq<Reply>, t: Tally): (r: Turn)
    requires |b| <= max && CutOf(b, x)
    ensures r.Again? ==> r.pending == pending && |r.buf| < max
  {
    var t' := Absorb(t, x);
    if x.Refused? then Stop(Call(b, t', Raised(ResultLargerThanBuffer)))
    else if x.packet != [] && !last then Stop(Call(x.rest, t', Returned))
    else if |x.rest| == max then Stop(Call(x.rest, t', Raised(CurrentPacketTooLarge)))
    else Again(x.rest, pending, replies, t')
  }

  function ReadLoop(f: Extractor, last: bool, max: nat, b: Bytes, pending: Bytes, replies: seq<Reply>,
                    t: Tally): Call
    requires |b| <= max
    decreases |pending|
  {
    match ReadTurn(f, last, max, b, pending, replies, t)
    case Stop(call) => call
    case Again(b', pending', replies', t') => ReadLoop(f, last, max, b', pending', replies', t')
  }

  /** readPacketInternal: extract from what is queued, then read and extract until the stream is
      dry or, in first-packet mode, a packet is found. */
  function ReadPacketInternal(f: Extractor, last: bool, max: nat, b: Bytes, pending: Bytes,
                              replies: seq<Reply>, outSize: int): Call
    requires |b| <= max
  {
    if outSize < max then Call(b, NO_TALLY, Raised(ProvidedBufferTooSmall))
    else if b == [] then ReadLoop(f, last, max, b, pending, replies, NO_TALLY)
    else
      var x := Extract(f, last, b);
      var t := Absorb(NO_TALLY, x);
      if x.Refused? then Call(b, t, Raised(ResultLargerThanBuffer))
      else if x.packet != [] && !last then Call(x.rest, t, Returned)
      else ReadLoop(f, last, max, x.rest, pending, replies, t)
  }

  /** extractPacketFromInternalBuffer: reading without a stream. */
  function ExtractQueued(f: Extractor, last: bool, b: Bytes, t: Tally): Call
    decreases |b|
  {
    if b == [] then Call(b, t, Returned)
    else
      var x := Extract(f, last, b);
      var t' := Absorb(t, x);
      if x.Refused? then Call(b, t', Raised(ResultLargerThanBuffer))
      else if x.packet == [] || !last then Call(x.rest, t', Returned)
      else ExtractQueued(f, last, x.rest, t')
  }

  /** hasPacket: a scan that removes nothing, but in extract-last mode does count what it sees. */
  function HasPacket(f: Extractor, last: bool, b: Bytes): Scan {
    if b == [] then Found(0, 0, 0, 0) else FindPacket(f, last, b)
  }
}
