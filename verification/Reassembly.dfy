/**
 Reassembly does not depend on chunking: what a call hands to its caller, and what it leaves in the
 buffer, is determined by the reference parser and the bytes consumed, not by how they arrived.
 */
module Reassembly {
  import opened Extraction
  import opened Engine
  import opened Scanning

  predicate CarriesWith(f: Extractor, whole: Bytes, gone: seq<Bytes>, rest: Bytes, x: Bytes) {
    Packets(f, whole + x) == gone + Packets(f, rest + x)
  }

  /** Whatever arrives later, `rest` still holds all packets of `whole` except `gone`. */
  ghost predicate Carries(f: Extractor, whole: Bytes, gone: seq<Bytes>, rest: Bytes) {
    forall x: Bytes :: CarriesWith(f, whole, gone, rest, x)
  }

  lemma CarriesItself(f: Extractor, b: Bytes)
    ensures Carries(f, b, [], b)
  {
  }

  lemma CarriesNow(f: Extractor, whole: Bytes, gone: seq<Bytes>, rest: Bytes)
    requires Carries(f, whole, gone, rest)
    ensures Packets(f, whole) == gone + Packets(f, rest)
  {
    assert CarriesWith(f, whole, gone, rest, []);
    assert whole + [] == whole && rest + [] == rest;
  }

  lemma CarriesOn(f: Extractor, whole: Bytes, gone: seq<Bytes>, rest: Bytes, data: Bytes)
    requires Carries(f, whole, gone, rest)
    ensures Carries(f, whole + data, gone, rest + data)
  {
    forall x: Bytes ensures CarriesWith(f, whole + data, gone, rest + data, x) {
      assert CarriesWith(f, whole, gone, rest, data + x);
      Associate(whole, data, x);
      Associate(rest, data, x);
    }
  }

  lemma CarriesTrans(f: Extractor, a: Bytes, g: seq<Bytes>, b: Bytes, h: seq<Bytes>, c: Bytes)
    requires Carries(f, a, g, b) && Carries(f, b, h, c)
    ensures Carries(f, a, g + h, c)
  {
    forall x: Bytes ensures CarriesWith(f, a, g + h, c, x) {
      assert CarriesWith(f, a, g, b, x) && CarriesWith(f, b, h, c, x);
      Associate(g, h, Packets(f, c + x));
    }
  }

  function LastOf(ps: seq<Bytes>): Bytes {
    if ps == [] then [] else ps[|ps| - 1]
  }

  /** The packets a call removes: the one it hands over, or in extract-last mode all there are. */
  function Removed(f: Extractor, last: bool, whole: Bytes, packet: Bytes): seq<Bytes> {
    if last then Packets(f, whole) else if packet == [] then [] else [packet]
  }

  /** `packet` is what the mode asks for out of `whole`, and `rest` is as good as the remainder. */
  ghost predicate Delivers(f: Extractor, last: bool, whole: Bytes, packet: Bytes, rest: Bytes) {
    && Carries(f, whole, Removed(f, last, whole, packet), rest)
    && (last ==> packet == LastOf(Packets(f, whole)))
  }

  ghost predicate ExtractionDelivers(f: Extractor, last: bool, b: Bytes, x: Cut)
    requires x.Extracted?
  {
    && Delivers(f, last, b, x.packet, x.rest)
    && (x.packet == [] || last ==> Packets(f, x.rest) == [])
  }

  /** One extraction, in either mode. */
  lemma ExtractDelivers(f: Extractor, last: bool, b: Bytes)
    requires Resumable(f) && b != []
    ensures Extract(f, last, b).Extracted? ==> ExtractionDelivers(f, last, b, Extract(f, last, b))
  {
    var x, r := Extract(f, last, b), FindPacket(f, last, b);
    if x.Extracted? {
      var gone := Gone(f, last, b, r);
      forall y: Bytes ensures CarriesWith(f, b, gone, x.rest, y) {
        CutIsInvisible(f, last, b, y);
      }
      CarriesNow(f, b, gone, x.rest);
      if last {
        ScanLast(f, b);
      } else {
        ScanFirst(f, b);
      }
    }
  }

  /** What a reading loop knows each time it is about to read. */
  ghost predicate Reading(f: Extractor, last: bool, whole: Bytes, packet: Bytes, buf: Bytes) {
    && Delivers(f, last, whole, packet, buf)
    && Packets(f, buf) == []
    && (!last ==> packet == [])
  }

  lemma NonEmptyPackets(f: Extractor, b: Bytes)
    ensures LastOf(Packets(f, b)) == [] <==> Packets(f, b) == []
  {
  }

  /** A further cut replaces the packet found before, and one that finds nothing leaves it alone. */
  lemma CutMore(f: Extractor, last: bool, whole: Bytes, gone: seq<Bytes>, packet: Bytes,
                mid: Bytes, cut: Bytes, rest: Bytes)
    requires Carries(f, whole, gone, mid) && Delivers(f, last, mid, cut, rest)
    requires packet == LastOf(gone) && (!last ==> gone == [])
    ensures Delivers(f, last, whole, if cut == [] then packet else cut, rest)
  {
    CarriesTrans(f, whole, gone, mid, Removed(f, last, mid, cut), rest);
    CarriesNow(f, whole, gone, mid);
    NonEmptyPackets(f, mid);
    assert [] + Removed(f, last, mid, cut) == Removed(f, last, mid, cut);
  }

  /** A call that scanned all it read: it returned, or the stream failed, or the buffer was full. */
  predicate Scanned(e: Exit) {
    e.Raised? ==> e.error.Unix? || e.error == CurrentPacketTooLarge
  }

  /** What a call guarantees: the packet the mode asks for if it returns, nothing lost if it raises
      in first-packet mode, and no packet left behind unless first-packet mode returned one. */
  ghost predicate Guarantee(f: Extractor, last: bool, whole: Bytes, r: Call) {
    && (last && Scanned(r.exit) ==> Carries(f, whole, Packets(f, whole), r.buf))
    && (r.exit.Returned? ==> Delivers(f, last, whole, r.tally.packet, r.buf))
    && (r.exit.Returned? && (last || r.tally.packet == []) ==> Packets(f, r.buf) == [])
    && (r.exit.Raised? && !last ==> Carries(f, whole, [], r.buf))
  }

  /** A turn keeps the guarantee, or what the loop knows. */
  ghost predicate Continues(f: Extractor, last: bool, buf: Bytes, r: Turn) {
    match r
    case Stop(call) => Guarantee(f, last, buf + call.tally.taken, call)
    case Again(b, _, _, t) => Reading(f, last, buf + t.taken, t.packet, b)
  }

  /** Bytes have arrived behind a buffer that carried `gone`, and are extracted from. */
  lemma CutGuarantee(f: Extractor, last: bool, max: nat, buf: Bytes, gone: seq<Bytes>, b: Bytes, x: Cut,
                     pending: Bytes, replies: seq<Reply>, t: Tally)
    requires |b| <= max && CutOf(b, x)
    requires Carries(f, buf + t.taken, gone, b)
    requires t.packet == LastOf(gone) && (!last ==> gone == [])
    requires x.Extracted? ==> ExtractionDelivers(f, last, b, x)
    ensures Continues(f, last, buf, AfterCut(last, max, b, x, pending, replies, t))
  {
    hide Packets;
    if x.Extracted? {
      CutMore(f, last, buf + t.taken, gone, t.packet, b, x.packet, x.rest);
    }
  }

  /** Bytes that arrive while a loop is reading go behind what it carries. */
  lemma ReadingOn(f: Extractor, last: bool, buf: Bytes, taken: Bytes, packet: Bytes, rest: Bytes, data: Bytes)
    returns (gone: seq<Bytes>)
    requires Reading(f, last, buf + taken, packet, rest)
    ensures Carries(f, buf + (taken + data), gone, rest + data)
    ensures packet == LastOf(gone) && (!last ==> gone == [])
  {
    gone := Removed(f, last, buf + taken, packet);
    CarriesOn(f, buf + taken, gone, rest, data);
    Associate(buf, taken, data);
  }

  lemma DryGuarantee(f: Extractor, last: bool, max: nat, buf: Bytes, b: Bytes, pending: Bytes,
                     replies: seq<Reply>, t: Tally)
    requires |b| <= max && ChunkSize(pending, replies, max - |b|) == 0
    requires Reading(f, last, buf + t.taken, t.packet, b)
    ensures Continues(f, last, buf, ReadTurn(f, last, max, b, pending, replies, t))
  {
    hide Packets;
    EmptySides(t.taken);
  }

  lemma TurnGuarantee(f: Extractor, last: bool, max: nat, buf: Bytes, b: Bytes, pending: Bytes,
                      replies: seq<Reply>, t: Tally)
    requires Resumable(f) && |b| <= max
    requires Reading(f, last, buf + t.taken, t.packet, b)
    ensures Continues(f, last, buf, ReadTurn(f, last, max, b, pending, replies, t))
  {
    hide AfterCut, Extract, Packets, Continues, Reading, Carries, Resumable, ChunkSize, CutOf, Delivered,
      Remaining, LastOf;
    var room := max - |b|;
    if ChunkSize(pending, replies, room) == 0 {
      DryGuarantee(f, last, max, buf, b, pending, replies, t);
    } else {
      var data := Delivered(pending, replies, room);
      var gone := ReadingOn(f, last, buf, t.taken, t.packet, b, data);
      ExtractDelivers(f, last, b + data);
      CutGuarantee(f, last, max, buf, gone, b + data, Extract(f, last, b + data),
                   Remaining(pending, replies, room), replies[1..], Took(t, room, data));
    }
  }

  lemma {:induction false} LoopGuarantee(f: Extractor, last: bool, max: nat, buf: Bytes, b: Bytes,
                                         pending: Bytes, replies: seq<Reply>, t: Tally)
    requires Resumable(f) && |b| <= max
    requires Reading(f, last, buf + t.taken, t.packet, b)
    ensures var r := ReadLoop(f, last, max, b, pending, replies, t);
            Guarantee(f, last, buf + r.tally.taken, r)
    decreases |pending|
  {
    TurnGuarantee(f, last, max, buf, b, pending, replies, t);
    var turn := ReadTurn(f, last, max, b, pending, replies, t);
    if turn.Again? {
      LoopGuarantee(f, last, max, buf, turn.buf, turn.pending, turn.replies, turn.tally);
    }
  }

  /** readPacketInternal delivers what the reference parser finds in the bytes queued before the
      call and taken by it, however they were cut into chunks. */
  lemma ReadPacketInternalDelivers(f: Extractor, last: bool, max: nat, b: Bytes, pending: Bytes,
                                   replies: seq<Reply>, outSize: int)
    requires Resumable(f) && |b| <= max
    ensures var r := ReadPacketInternal(f, last, max, b, pending, replies, outSize);
            Guarantee(f, last, b + r.tally.taken, r)
  {
    assert b + [] == b;
    CarriesItself(f, b);
    if outSize >= max {
      if b == [] {
        LoopGuarantee(f, last, max, b, b, pending, replies, NO_TALLY);
      } else {
        var x := Extract(f, last, b);
        ExtractDelivers(f, last, b);
        if x.Extracted? && (x.packet == [] || last) {
          LoopGuarantee(f, last, max, b, x.rest, pending, replies, Absorb(NO_TALLY, x));
        }
      }
    }
  }

  /** A call with room for a packet raises nothing but the stream's errors and the two length errors. */
  lemma RaisesOnly(f: Extractor, last: bool, max: nat, b: Bytes, pending: Bytes, replies: seq<Reply>, outSize: int)
    requires |b| <= max <= outSize
    ensures var r := ReadPacketInternal(f, last, max, b, pending, replies, outSize);
            Scanned(r.exit) || r.exit == Raised(ResultLargerThanBuffer)
  {
    hide Extract, ReadLoop, CutOf;
    if b == [] {
      LoopRaisesOnly(f, last, max, b, pending, replies, NO_TALLY);
    } else {
      var x := Extract(f, last, b);
      if x.Extracted? {
        LoopRaisesOnly(f, last, max, x.rest, pending, replies, Absorb(NO_TALLY, x));
      }
    }
  }

  lemma {:induction false} LoopRaisesOnly(f: Extractor, last: bool, max: nat, b: Bytes, pending: Bytes,
                                          replies: seq<Reply>, t: Tally)
    requires |b| <= max
    ensures var r := ReadLoop(f, last, max, b, pending, replies, t);
            Scanned(r.exit) || r.exit == Raised(ResultLargerThanBuffer)
    decreases |pending|
  {
    hide Extract, ChunkSize, Delivered, Remaining, CutOf, Took;
    var turn := ReadTurn(f, last, max, b, pending, replies, t);
    if turn.Again? {
      LoopRaisesOnly(f, last, max, turn.buf, turn.pending, turn.replies, turn.tally);
    }
  }
}
