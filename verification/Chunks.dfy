/**
 A call, chunk by chunk.  What a call does to the buffer and the counters is what the reference parser says of the
 buffer after each chunk, one extraction a chunk; and how it ends follows from what is left and what the
 stream answered last.
 */
module Chunks {
  import opened Extraction
  import opened Engine
  import opened Scanning
  import opened Reassembly
  import opened DryStream
  import opened Accounting

  // One extraction ------------------------------------------------------------------------------

  /** The bytes behind the first packet, or the undecided ones if there is none. */
  function BehindFirst(f: Extractor, b: Bytes): (rest: Bytes)
    ensures |rest| <= |b|
    decreases |b|
  {
    if b == [] || Span(f, b) == 0 then b
    else if Ask(f, b).Packet? then b[Span(f, b)..]
    else BehindFirst(f, b[Span(f, b)..])
  }

  /** What a scan leaves, the packet found so far, and what was counted. */
  datatype Seen = Seen(rest: Bytes, packet: Bytes, bad: int, good: int)

  function FirstOf(ps: seq<Bytes>): Bytes {
    if ps == [] then [] else ps[0]
  }

  /** An extraction, by the reference parser. */
  function Parsed(f: Extractor, last: bool, b: Bytes): Seen
    requires b != []
  {
    var ps := Packets(f, b);
    if last then Seen(if ps == [] then b[Span(f, b)..] else BehindLast(f, b), LastOf(ps), Garbage(f, b), Size(ps))
    else
      var rest := BehindFirst(f, b);
      Seen(rest, FirstOf(ps), |b| - |rest| - |FirstOf(ps)|, |FirstOf(ps)|)
  }

  lemma {:induction false} FirstBehind(f: Extractor, b: Bytes)
    requires b != [] && FindPacket(f, false, b).Found?
    ensures Rest(b, FindPacket(f, false, b)) == BehindFirst(f, b)
    decreases |b|
  {
    hide Packets, Residue;
    var v := Ask(f, b);
    if v.Discard? && v.n < |b| {
      FirstBehind(f, b[v.n..]);
      Shift(b, v.n, FindPacket(f, false, b[v.n..]), FindPacket(f, false, b));
    }
  }

  lemma ExtractIsParsed(f: Extractor, last: bool, b: Bytes)
    requires b != []
    ensures var x, s := Extract(f, last, b), Parsed(f, last, b);
            x.Extracted? ==> x.rest == s.rest && x.packet == s.packet && x.bad == s.bad && x.good == s.good
  {
    hide FindPacket, Packets, Residue, BehindLast, BehindFirst, EndsInOverrun, Span;
    if last {
      ScanLast(f, b);
      ScanLastCounts(f, b);
      LeavesBehindLast(f, b);
    } else {
      ScanFirst(f, b);
      if FindPacket(f, false, b).Found? {
        FirstBehind(f, b);
      }
    }
  }

  // A call --------------------------------------------------------------------------------------

  /** Bytes arrive, and one extraction is made if there is anything to extract from. */
  function Then(f: Extractor, last: bool, s: Seen, data: Bytes): Seen {
    if s.rest + data == [] then s
    else
      var x := Parsed(f, last, s.rest + data);
      Seen(x.rest, if x.packet == [] then s.packet else x.packet, s.bad + x.bad, s.good + x.good)
  }

  function Through(f: Extractor, last: bool, s: Seen, chunks: seq<Bytes>): Seen {
    if chunks == [] then s
    else Then(f, last, Through(f, last, s, chunks[..|chunks| - 1]), chunks[|chunks| - 1])
  }

  /** What a call did so far. */
  predicate Sees(s: Seen, buf: Bytes, t: Tally) {
    buf == s.rest && t.packet == s.packet && t.bad == s.bad && t.good == s.good
  }

  /** The chunks were delivered one by one by the first replies. */
  predicate ChunksOf(replies: seq<Reply>, chunks: seq<Bytes>) {
    && |chunks| <= |replies|
    && forall i :: 0 <= i < |chunks| ==> chunks[i] != [] && replies[i].Deliver? && |chunks[i]| <= replies[i].n
  }

  lemma OneMoreChunk(f: Extractor, last: bool, s: Seen, replies: seq<Reply>, chunks: seq<Bytes>, data: Bytes)
    requires ChunksOf(replies, chunks) && |chunks| < |replies| && data != []
    requires replies[|chunks|].Deliver? && |data| <= replies[|chunks|].n
    ensures ChunksOf(replies, chunks + [data]) && Flatten(chunks + [data]) == Flatten(chunks) + data
    ensures Through(f, last, s, chunks + [data]) == Then(f, last, Through(f, last, s, chunks), data)
  {
    hide Then;
    FlattenAppend(chunks, [data]);
    assert [data][1..] == [];
    assert (chunks + [data])[..|chunks|] == chunks;
  }

  lemma CutShows(f: Extractor, last: bool, s: Seen, b: Bytes, t: Tally, data: Bytes, room: nat)
    requires Sees(s, b, t) && b + data != []
    ensures var x := Extract(f, last, b + data);
            x.Extracted? ==> Sees(Then(f, last, s, data), x.rest, Absorb(Took(t, room, data), x))
                             && Sees(Then(f, last, s, data), x.rest, Absorb(t, x))
  {
    hide Extract, Parsed;
    ExtractIsParsed(f, last, b + data);
  }

  /** What was left by a scan is not the start of an overrun, unless it stopped at a packet. */
  lemma CutOverruns(f: Extractor, last: bool, b: Bytes)
    requires b != []
    ensures var x := Extract(f, last, b);
            if x.Refused? then EndsInOverrun(f, b)
            else last || x.packet == [] ==> !EndsInOverrun(f, x.rest) && !EndsInOverrun(f, b)
  {
    hide FindPacket, Packets, Residue;
    if last {
      ScanLastCounts(f, b);
      if Extract(f, last, b).Extracted? {
        LeavesTail(f, b);
      }
    } else {
      ScanFirst(f, b);
      var x := Extract(f, last, b);
      if x.Extracted? && x.packet == [] {
        WaitingIsNoOverrun(f, x.rest);
        assert x.rest == Residue(f, b);
        ResidueOfResidue(f, b);
      }
    }
  }

  lemma {:induction false} ResidueOfResidue(f: Extractor, b: Bytes)
    ensures Residue(f, Residue(f, b)) == Residue(f, b)
    decreases |b|
  {
    if b != [] && Span(f, b) > 0 {
      ResidueOfResidue(f, b[Span(f, b)..]);
    }
  }

  lemma WaitingIsNoOverrun(f: Extractor, b: Bytes)
    requires b == [] || f(b) == 0
    ensures !EndsInOverrun(f, b)
  {
  }

  /** A call was not stopped by a packet in first-packet mode. */
  predicate Open(last: bool, t: Tally) {
    last || t.packet == []
  }

  /** `chunks` were delivered, and the buffer was scanned after each; none but the last brought what stops a call. */
  predicate ScannedBy(f: Extractor, last: bool, start: Seen, replies: seq<Reply>, b: Bytes, t: Tally,
                      chunks: seq<Bytes>)
  {
    && ChunksOf(replies, chunks) && t.taken == Flatten(chunks) && Sees(Through(f, last, start, chunks), b, t)
    && (chunks != [] && !last ==> Through(f, last, start, chunks[..|chunks| - 1]).packet == [])
    && (Open(last, t) ==> !EndsInOverrun(f, b))
  }

  /** Where the reading loop is about to read. */
  predicate Heads(f: Extractor, last: bool, max: nat, start: Seen, replies: seq<Reply>, b: Bytes, rest: seq<Reply>,
                  t: Tally, chunks: seq<Bytes>)
  {
    && ScannedBy(f, last, start, replies, b, t, chunks) && Open(last, t)
    && |chunks| <= |replies| && rest == replies[|chunks|..] && t.polls == |chunks| && (chunks == [] || |b| < max)
  }

  /** How a call that ends with `buf` is to end: after a chunk with a packet, if that is what was asked for, or with a
      full buffer; or with a read that brought nothing or failed. */
  predicate EndsAfter(last: bool, max: nat, replies: seq<Reply>, n: nat, r: Call) {
    if !Open(last, r.tally) then r.exit == Returned && r.tally.polls == n
    else if n > 0 && |r.buf| >= max then r.exit == Raised(CurrentPacketTooLarge) && r.tally.polls == n
    else
      && r.tally.polls == n + 1
      && r.exit == if n < |replies| && replies[n].Fault? then Raised(Unix(replies[n].errno)) else Returned
  }

  /** A call that scanned all it took, in `chunks`. */
  predicate ByChunks(f: Extractor, last: bool, max: nat, start: Seen, replies: seq<Reply>, r: Call,
                     chunks: seq<Bytes>)
  {
    ScannedBy(f, last, start, replies, r.buf, r.tally, chunks) && EndsAfter(last, max, replies, |chunks|, r)
  }

  /** What a scan counts that ends in the length error: everything it saw, in extract-last mode, and else nothing. */
  predicate CountsLeft(f: Extractor, last: bool, b: Bytes, bad: int, good: int) {
    if last then bad == Garbage(f, b) && good == Size(Packets(f, b)) else bad == 0 && good == 0
  }

  /** A call that ended in the length error for a result larger than the buffer, on the chunk behind `chunks`, which
      stays in the buffer. */
  predicate Overran(f: Extractor, last: bool, start: Seen, replies: seq<Reply>, r: Call, chunks: seq<Bytes>) {
    var s := Through(f, last, start, chunks);
    && ChunksOf(replies, chunks) && Flatten(chunks) <= r.tally.taken && r.tally.polls == |chunks| + 1
    && Open(last, r.tally) && r.buf == s.rest + r.tally.taken[|Flatten(chunks)|..] && EndsInOverrun(f, r.buf)
    && r.tally.packet == s.packet && CountsLeft(f, last, r.buf, r.tally.bad - s.bad, r.tally.good - s.good)
  }

  /** Either one, and which it is shows in the error. */
  predicate Explained(f: Extractor, last: bool, max: nat, start: Seen, replies: seq<Reply>, r: Call,
                      chunks: seq<Bytes>)
  {
    if r.exit == Raised(ResultLargerThanBuffer) then Overran(f, last, start, replies, r, chunks)
    else ByChunks(f, last, max, start, replies, r, chunks)
  }

  lemma DryExplained(f: Extractor, last: bool, max: nat, start: Seen, replies: seq<Reply>, b: Bytes, rest: seq<Reply>,
                     t: Tally, chunks: seq<Bytes>, room: nat)
    requires Heads(f, last, max, start, replies, b, rest, t, chunks)
    ensures Explained(f, last, max, start, replies, Call(b, Took(t, room, []), NoData(rest)), chunks)
  {
    hide Through, Flatten, EndsInOverrun, ChunksOf;
    EmptySides(t.taken);
  }

  lemma RefusedScan(f: Extractor, last: bool, b: Bytes)
    requires b != [] && Extract(f, last, b).Refused?
    ensures var x := Extract(f, last, b);
            EndsInOverrun(f, b) && CountsLeft(f, last, b, x.bad, x.good)
  {
    hide FindPacket, Packets, Residue, Garbage, EndsInOverrun;
    if last {
      ScanLastCounts(f, b);
    } else {
      ScanFirst(f, b);
    }
  }

  lemma CutRefused(f: Extractor, last: bool, max: nat, start: Seen, replies: seq<Reply>, b: Bytes, rest: seq<Reply>,
                   t: Tally, chunks: seq<Bytes>, data: Bytes, room: nat)
    requires Heads(f, last, max, start, replies, b, rest, t, chunks) && data != []
    requires Extract(f, last, b + data).Refused?
    ensures Overran(f, last, start, replies,
                    Call(b + data, Absorb(Took(t, room, data), Extract(f, last, b + data)),
                         Raised(ResultLargerThanBuffer)),
                    chunks)
  {
    hide Through, Flatten, EndsInOverrun, Extract, ChunksOf, CountsLeft;
    AbsorbRefused(Took(t, room, data), Extract(f, last, b + data));
    RefusedScan(f, last, b + data);
    assert (Flatten(chunks) + data)[|Flatten(chunks)|..] == data;
  }

  lemma CutScanned(f: Extractor, last: bool, max: nat, start: Seen, replies: seq<Reply>, b: Bytes, rest: seq<Reply>,
                   t: Tally, chunks: seq<Bytes>, data: Bytes, room: nat)
    requires Heads(f, last, max, start, replies, b, rest, t, chunks) && data != []
    requires rest != [] && rest[0].Deliver? && |data| <= rest[0].n
    requires Extract(f, last, b + data).Extracted?
    ensures var x := Extract(f, last, b + data);
            ScannedBy(f, last, start, replies, x.rest, Absorb(Took(t, room, data), x), chunks + [data])
  {
    hide Through, Flatten, EndsInOverrun, Extract, ChunksOf, Then, CutOf;
    OneMoreChunk(f, last, start, replies, chunks, data);
    CutShows(f, last, Through(f, last, start, chunks), b, t, data, room);
    CutOverruns(f, last, b + data);
    assert (chunks + [data])[..|chunks + [data]| - 1] == chunks;
  }

  /** The extraction after a chunk. */
  lemma CutExplained(f: Extractor, last: bool, max: nat, start: Seen, replies: seq<Reply>, b: Bytes,
                     rest: seq<Reply>, t: Tally, chunks: seq<Bytes>, data: Bytes, room: nat, pending: Bytes)
    returns (chunks': seq<Bytes>)
    requires Heads(f, last, max, start, replies, b, rest, t, chunks) && data != [] && |b + data| <= max
    requires rest != [] && rest[0].Deliver? && |data| <= rest[0].n
    ensures TurnExplained(f, last, max, start, replies,
                          AfterCut(last, max, b + data, Extract(f, last, b + data), pending, rest[1..],
                                   Took(t, room, data)),
                          chunks')
  {
    hide ScannedBy, Overran, Extract, CutOf, Absorb, Took;
    var x := Extract(f, last, b + data);
    if x.Refused? {
      CutRefused(f, last, max, start, replies, b, rest, t, chunks, data, room);
      chunks' := chunks;
    } else {
      CutScanned(f, last, max, start, replies, b, rest, t, chunks, data, room);
      AbsorbTakes(t, room, data, x);
      chunks' := chunks + [data];
      assert replies[|chunks|..][1..] == replies[|chunks'|..];
    }
  }

  lemma AbsorbTakes(t: Tally, room: nat, data: Bytes, x: Cut)
    ensures var t' := Absorb(Took(t, room, data), x);
            t'.polls == t.polls + 1 && t'.packet == if x.Extracted? && x.packet != [] then x.packet else t.packet
  {
  }

  predicate TurnExplained(f: Extractor, last: bool, max: nat, start: Seen, replies: seq<Reply>, turn: Turn,
                          chunks: seq<Bytes>)
  {
    match turn
    case Stop(r) => Explained(f, last, max, start, replies, r, chunks)
    case Again(b, _, rest, t) => Heads(f, last, max, start, replies, b, rest, t, chunks)
  }

  lemma TurnByChunks(f: Extractor, last: bool, max: nat, start: Seen, replies: seq<Reply>, b: Bytes, pending: Bytes,
                     rest: seq<Reply>, t: Tally, chunks: seq<Bytes>)
    returns (chunks': seq<Bytes>)
    requires |b| <= max && Heads(f, last, max, start, replies, b, rest, t, chunks)
    ensures TurnExplained(f, last, max, start, replies, ReadTurn(f, last, max, b, pending, rest, t), chunks')
  {
    hide AfterCut, Extract, Heads, Explained, CutOf, Took, NoData;
    var room := max - |b|;
    if ChunkSize(pending, rest, room) == 0 {
      DryExplained(f, last, max, start, replies, b, rest, t, chunks, room);
      chunks' := chunks;
    } else {
      chunks' := CutExplained(f, last, max, start, replies, b, rest, t, chunks, Delivered(pending, rest, room), room,
                              Remaining(pending, rest, room));
    }
  }

  lemma {:induction false} LoopByChunks(f: Extractor, last: bool, max: nat, start: Seen, replies: seq<Reply>, b: Bytes,
                                        pending: Bytes, rest: seq<Reply>, t: Tally, chunks: seq<Bytes>)
    returns (chunks': seq<Bytes>)
    requires |b| <= max && Heads(f, last, max, start, replies, b, rest, t, chunks)
    ensures Explained(f, last, max, start, replies, ReadLoop(f, last, max, b, pending, rest, t), chunks')
    decreases |pending|
  {
    hide ReadTurn, Heads, Explained;
    chunks' := TurnByChunks(f, last, max, start, replies, b, pending, rest, t, chunks);
    var turn := ReadTurn(f, last, max, b, pending, rest, t);
    if turn.Again? {
      chunks' := LoopByChunks(f, last, max, start, replies, turn.buf, turn.pending, turn.replies, turn.tally, chunks');
    }
  }

  /** What is there before the first read: what an extraction leaves of the queued bytes, if there are any. */
  function Before(f: Extractor, last: bool, b: Bytes): Seen {
    Then(f, last, Seen(b, [], 0, 0), [])
  }

  lemma StartScanned(f: Extractor, last: bool, b: Bytes, replies: seq<Reply>)
    requires b == [] || Extract(f, last, b).Extracted?
    ensures var t := if b == [] then NO_TALLY else Absorb(NO_TALLY, Extract(f, last, b));
            ScannedBy(f, last, Before(f, last, b), replies, if b == [] then b else Extract(f, last, b).rest, t, [])
            && t.polls == 0 && t.packet == if b == [] then [] else Extract(f, last, b).packet
  {
    hide Extract, Parsed, EndsInOverrun;
    if b == [] {
      WaitingIsNoOverrun(f, b);
    } else {
      StartSeen(f, last, b);
      CutOverruns(f, last, b);
    }
  }

  /** A call whose queued bytes alone are an overrun reads nothing, and changes nothing but the counters. */
  predicate OverranAtOnce(f: Extractor, last: bool, b: Bytes, r: Call) {
    && b != [] && EndsInOverrun(f, b) && r.exit == Raised(ResultLargerThanBuffer) && r.buf == b
    && r.tally.taken == [] && r.tally.polls == 0 && r.tally.dropped == 0 && r.tally.packet == []
    && CountsLeft(f, last, b, r.tally.bad, r.tally.good)
  }

  /** The whole call, for any extractor, in either mode and however it ends: the buffer, the packet and both counters
      are those of the reference parser after one extraction of the queued bytes and one after each chunk; a
      chunk is no larger than its reply; in first-packet mode it reads only while it has no packet; and the queued
      bytes, the chunks and the replies determine how it ends. */
  lemma CallByChunks(f: Extractor, last: bool, max: nat, b: Bytes, pending: Bytes, replies: seq<Reply>, outSize: int)
    returns (chunks: seq<Bytes>)
    requires |b| <= max <= outSize
    ensures var r := ReadPacketInternal(f, last, max, b, pending, replies, outSize);
            && (OverranAtOnce(f, last, b, r) || Explained(f, last, max, Before(f, last, b), replies, r, chunks))
            && (!last && Before(f, last, b).packet != [] && !OverranAtOnce(f, last, b, r) ==>
                chunks == [] && r.tally.polls == 0)
  {
    hide Extract, ReadLoop, ScannedBy, EndsInOverrun, Overran, Absorb, Before, EndsAfter;
    chunks := [];
    if b != [] && Extract(f, last, b).Refused? {
      RefusedAtOnce(f, last, b);
      return;
    }
    StartScanned(f, last, b, replies);
    StartPacket(f, last, b);
    var t := if b == [] then NO_TALLY else Absorb(NO_TALLY, Extract(f, last, b));
    var rest := if b == [] then b else Extract(f, last, b).rest;
    if Open(last, t) {
      assert replies[0..] == replies;
      chunks := LoopByChunks(f, last, max, Before(f, last, b), replies, rest, pending, replies, t, []);
    } else {
      StopsAtOnce(last, max, replies, Call(rest, t, Returned));
    }
  }

  lemma StopsAtOnce(last: bool, max: nat, replies: seq<Reply>, r: Call)
    requires !Open(last, r.tally) && r.exit == Returned && r.tally.polls == 0
    ensures EndsAfter(last, max, replies, 0, r)
  {
  }

  lemma StartPacket(f: Extractor, last: bool, b: Bytes)
    requires b == [] || Extract(f, last, b).Extracted?
    ensures Before(f, last, b).packet == if b == [] then [] else Extract(f, last, b).packet
  {
    hide Extract, Parsed;
    EmptySides(b);
    if b != [] {
      ExtractIsParsed(f, last, b);
    }
  }

  lemma RefusedAtOnce(f: Extractor, last: bool, b: Bytes)
    requires b != [] && Extract(f, last, b).Refused?
    ensures OverranAtOnce(f, last, b, Call(b, Absorb(NO_TALLY, Extract(f, last, b)), Raised(ResultLargerThanBuffer)))
  {
    hide Extract, Absorb, EndsInOverrun, CountsLeft;
    RefusedScan(f, last, b);
    AbsorbRefused(NO_TALLY, Extract(f, last, b));
  }

  lemma AbsorbRefused(t: Tally, x: Cut)
    requires x.Refused?
    ensures Absorb(t, x) == t.(bad := t.bad + x.bad, good := t.good + x.good)
  {
  }

  // Without a stream ----------------------------------------------------------------------------

  lemma FirstExtraction(f: Extractor, last: bool, b: Bytes)
    requires b != []
    ensures var x, r := Extract(f, last, b), ExtractQueued(f, last, b, NO_TALLY);
            var t := Absorb(NO_TALLY, x);
            if x.Refused? then r == Call(b, t, Raised(ResultLargerThanBuffer))
            else x.packet == [] || !last ==> r == Call(x.rest, t, Returned)
  {
    hide Extract, Absorb;
  }

  lemma StartSeen(f: Extractor, last: bool, b: Bytes)
    requires b != [] && Extract(f, last, b).Extracted?
    ensures Sees(Before(f, last, b), Extract(f, last, b).rest, Absorb(NO_TALLY, Extract(f, last, b)))
  {
    hide Extract, Parsed;
    EmptySides(b);
    CutShows(f, last, Seen(b, [], 0, 0), b, NO_TALLY, [], 0);
  }

  /** In extract-last mode a packet is followed by another extraction. */
  lemma SecondExtraction(f: Extractor, b: Bytes)
    requires b != [] && Extract(f, true, b).Extracted? && Extract(f, true, b).packet != []
    ensures var r := ExtractQueued(f, true, b, NO_TALLY);
            r.exit == Returned && Sees(Then(f, true, Before(f, true, b), []), r.buf, r.tally)
  {
    hide Extract, Parsed, Before, Absorb;
    var x := Extract(f, true, b);
    var t, s := Absorb(NO_TALLY, x), Before(f, true, b);
    StartSeen(f, true, b);
    NothingBehind(f, b);
    EmptySides(x.rest);
    if x.rest != [] {
      CutShows(f, true, s, x.rest, t, [], 0);
      LastExtraction(f, x.rest, t);
    }
    OnwardExtraction(f, b);
  }

  lemma OnwardExtraction(f: Extractor, b: Bytes)
    requires b != [] && Extract(f, true, b).Extracted? && Extract(f, true, b).packet != []
    ensures var x := Extract(f, true, b);
            ExtractQueued(f, true, b, NO_TALLY) == ExtractQueued(f, true, x.rest, Absorb(NO_TALLY, x))
    ensures ExtractQueued(f, true, [], Absorb(NO_TALLY, Extract(f, true, b)))
         == Call([], Absorb(NO_TALLY, Extract(f, true, b)), Returned)
  {
    hide Extract, Absorb;
  }

  lemma LastExtraction(f: Extractor, b: Bytes, t: Tally)
    requires b != [] && Extract(f, true, b).Extracted? && Extract(f, true, b).packet == []
    ensures ExtractQueued(f, true, b, t) == Call(Extract(f, true, b).rest, Absorb(t, Extract(f, true, b)), Returned)
  {
    hide Extract, Absorb;
  }

  /** Extraction without a stream, for any extractor: one extraction, and in extract-last mode one more behind a
      packet, which finds none, but discards and counts; and the length error exactly for an overrun. */
  lemma QueuedByParse(f: Extractor, last: bool, b: Bytes)
    requires b != []
    ensures var r, s := ExtractQueued(f, last, b, NO_TALLY), Before(f, last, b);
            if r.exit == Raised(ResultLargerThanBuffer) then OverranAtOnce(f, last, b, r)
            else
              && r.exit == Returned && (last || s.packet == [] ==> !EndsInOverrun(f, b))
              && Sees(if last && s.packet != [] then Then(f, last, s, []) else s, r.buf, r.tally)
  {
    hide Extract, EndsInOverrun, Sees, Before, Absorb, OverranAtOnce, ExtractQueued, Then;
    var x := Extract(f, last, b);
    FirstExtraction(f, last, b);
    if x.Refused? {
      RefusedAtOnce(f, last, b);
    } else {
      StartSeen(f, last, b);
      StartPacket(f, last, b);
      CutOverruns(f, last, b);
      if last && x.packet != [] {
        SecondExtraction(f, b);
      }
    }
  }
}
