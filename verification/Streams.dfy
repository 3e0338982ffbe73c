/**
 What the driver talks to.  A stream, and the clock the driver samples while using it, answer from
 scripts, so a statement about every script covers every chunking, every partial write, every error
 and every flow of time that a finite run of the program can meet.  When a script runs out the
 stream has no data, accepts nothing and is never ready, and the clock stands still.
 */
module Streams {
  import opened Extraction
  import opened Engine

  datatype WaitReply = Ready | NotReady | WaitFault(errno: int)

  /** What can be observed from outside: times sampled, waits requested (in microseconds) and how they
      ended, how many bytes a read brought or a write got rid of, and reads and writes that failed. */
  datatype Event =
    | Sampled(at: int)
    | Waited(timeout: int, reply: WaitReply)
    | Received(n: nat)
    | Emitted(n: nat)
    | Faulted(errno: int)

  predicate Brings(e: Event) {
    e.Received? && e.n > 0
  }

  predicate AllBring(evs: seq<Event>) {
    forall e <- evs :: Brings(e)
  }

  /** How a stretch of reads ends: they all brought bytes, or did until the last, which brought none or failed. */
  datatype Flow = Flowing | RanDry | Snapped(errno: int)

  function FlowOf(t: Transfer): Flow {
    if t.Failed? then Snapped(t.errno) else if t.n == 0 then RanDry else Flowing
  }

  function LastRead(flow: Flow): seq<Event> {
    match flow
    case Flowing => []
    case RanDry => [Received(0)]
    case Snapped(errno) => [Faulted(errno)]
  }

  /** Since `start`, the events were reads: those that brought bytes, of which there were some if `got`, and
      then the one that did not, if any. */
  predicate ReadSince(start: seq<Event>, trace: seq<Event>, evs: seq<Event>, got: bool, flow: Flow) {
    trace == start + (evs + LastRead(flow)) && AllBring(evs) && (evs != []) == got
  }

  lemma ReadSinceStart(start: seq<Event>)
    ensures ReadSince(start, start, [], false, Flowing)
  {
    EmptySides(start);
    EmptySides<Event>([]);
  }

  lemma ReadSinceMore(start: seq<Event>, trace: seq<Event>, evs: seq<Event>, got: bool, t: Transfer)
    requires ReadSince(start, trace, evs, got, Flowing)
    ensures ReadSince(start, trace + [ReadEvent(t)], if FlowOf(t).Flowing? then evs + [ReadEvent(t)] else evs,
                      got || FlowOf(t).Flowing?, FlowOf(t))
  {
    EmptySides(evs);
    EmptySides(evs + [ReadEvent(t)]);
    Associate(start, evs, [ReadEvent(t)]);
  }

  /** A non-decreasing clock, in microseconds. */
  class Clock {
    var now: nat
    var ticks: seq<nat>
    ghost var trace: seq<Event>

    method Now() returns (t: int)
      modifies this
      ensures t == now && old(now) <= now
      ensures trace == old(trace) + [Sampled(t)]
    {
      if ticks != [] {
        now, ticks := now + ticks[0], ticks[1..];
      }
      t := now;
      trace := trace + [Sampled(t)];
    }
  }

  datatype Transfer = Moved(n: nat) | Failed(errno: int)

  /** How a read or write of up to `room` bytes ends. */
  function TransferOf(pending: Bytes, replies: seq<Reply>, room: nat): Transfer {
    if replies != [] && replies[0].Fault? then Failed(replies[0].errno)
    else Moved(ChunkSize(pending, replies, room))
  }

  /** What is observed of a read, and of a write. */
  function ReadEvent(t: Transfer): Event {
    if t.Failed? then Faulted(t.errno) else Received(t.n)
  }

  function WriteEvent(t: Transfer): Event {
    if t.Failed? then Faulted(t.errno) else Emitted(t.n)
  }

  function Tail<T>(s: seq<T>): seq<T> {
    if s == [] then [] else s[1..]
  }

  /** An I/O stream in one direction and the other: bytes yet to be delivered, and bytes accepted. */
  class IOStream {
    const clock: Clock
    const dropsOnClear: bool
    var pending: Bytes
    var replies: seq<Reply>
    var waits: seq<WaitReply>
    var accepted: Bytes
    var writes: seq<Reply>
    var atEof: bool
    ghost var taken: Bytes

    constructor (clock: Clock, dropsOnClear: bool, pending: Bytes, replies: seq<Reply>,
                 waits: seq<WaitReply>, writes: seq<Reply>)
      ensures this.clock == clock && this.pending == pending && taken == [] && accepted == []
    {
      this.clock, this.dropsOnClear := clock, dropsOnClear;
      this.pending, this.replies, this.waits := pending, replies, waits;
      this.accepted, this.writes, this.atEof, this.taken := [], writes, false, [];
    }

    /** Reads at most `room` bytes behind the first `offset` bytes of `buffer`. */
    method Read(buffer: array<byte>, offset: nat, room: nat) returns (r: Transfer)
      requires offset + room <= buffer.Length
      modifies `pending, `replies, `atEof, `taken, buffer, clock`trace
      ensures r == TransferOf(old(pending), old(replies), room)
      ensures var data := Delivered(old(pending), old(replies), room);
              && taken == old(taken) + data
              && buffer[..offset + |data|] == old(buffer[..offset]) + data
      ensures pending == Remaining(old(pending), old(replies), room) && replies == Tail(old(replies))
      ensures clock.trace == old(clock.trace) + [ReadEvent(r)]
      ensures atEof == (old(atEof) || (old(replies) != [] && old(replies)[0].EndOfFile?))
    {
      r := TransferOf(pending, replies, room);
      var data := Delivered(pending, replies, room);
      forall i | 0 <= i < |data| {
        buffer[offset + i] := data[i];
      }
      if replies != [] && replies[0].EndOfFile? {
        atEof := true;
      }
      pending, taken := Remaining(pending, replies, room), taken + data;
      replies := Tail(replies);
      clock.trace := clock.trace + [ReadEvent(r)];
    }

    /** Accepts a prefix of the bytes offered. */
    method Write(data: Bytes) returns (r: Transfer)
      modifies `accepted, `writes, clock`trace
      ensures r == TransferOf(data, old(writes), |data|)
      ensures r.Failed? ==> accepted == old(accepted)
      ensures r.Moved? ==> r.n <= |data| && accepted == old(accepted) + data[..r.n]
      ensures writes == Tail(old(writes)) && clock.trace == old(clock.trace) + [WriteEvent(r)]
    {
      r := TransferOf(data, writes, |data|);
      if r.Moved? {
        accepted := accepted + data[..r.n];
      }
      writes := Tail(writes);
      clock.trace := clock.trace + [WriteEvent(r)];
    }

    /** Waits for input (waitRead) or for room to write (waitWrite). */
    method Wait(timeout: int) returns (r: WaitReply)
      modifies `waits, clock`trace
      ensures old(waits) == [] ==> r == NotReady
      ensures r.Ready? ==> |waits| < |old(waits)|
      ensures clock.trace == old(clock.trace) + [Waited(timeout, r)]
    {
      r := if waits == [] then NotReady else waits[0];
      waits := Tail(waits);
      clock.trace := clock.trace + [Waited(timeout, r)];
    }

    method Clear()
      modifies `pending
      ensures pending == if dropsOnClear then [] else old(pending)
    {
      if dropsOnClear {
        pending := [];
      }
    }
  }
}
