/**
 What a caller gets over one or several internal calls: a slice of the bytes that were queued or
 taken, and for a resumable extractor the packet the mode asks for.
 */
module Handovers {
  import opened Extraction
  import opened Engine
  import opened Reassembly
  import opened Carving
  import opened Protocols
  import opened Counters
  import opened Listeners
  import opened Accounting

  /** `rest` is the unremoved end of `whole`, and `packet` a slice of what was removed. */
  predicate CutOut(whole: Bytes, at: nat, packet: Bytes, rest: Bytes) {
    && |rest| <= |whole| && rest == whole[|whole| - |rest|..]
    && at + |packet| <= |whole| - |rest| && packet == whole[at..at + |packet|]
  }

  /** A packet handed over, and what is kept. */
  ghost predicate Handover(f: Extractor, last: bool, whole: Bytes, packet: Bytes, rest: Bytes) {
    && (exists at :: CutOut(whole, at, packet, rest))
    && (Resumable(f) ==> Delivers(f, last, whole, packet, rest))
    && (Resumable(f) && packet == [] ==> Packets(f, rest) == [])
  }

  /** Nothing handed over: bytes are kept in order, and in first-packet mode no packet is lost. */
  ghost predicate Kept(f: Extractor, last: bool, whole: Bytes, rest: Bytes) {
    && (exists at :: CutOut(whole, at, [], rest))
    && (Resumable(f) && !last ==> Carries(f, whole, [], rest))
  }

  /** No packet is left behind. */
  ghost predicate NoneLeft(f: Extractor, rest: Bytes) {
    Resumable(f) ==> Packets(f, rest) == []
  }

  lemma NothingHandedLeavesNone(f: Extractor, last: bool, whole: Bytes, rest: Bytes)
    requires Handover(f, last, whole, [], rest)
    ensures NoneLeft(f, rest)
  {
    hide Packets, Resumable, CutOut, Delivers;
  }

  lemma CallHandsOver(f: Extractor, last: bool, max: nat, b: Bytes, pending: Bytes, replies: seq<Reply>, outSize: int)
    requires |b| <= max
    ensures var r := ReadPacketInternal(f, last, max, b, pending, replies, outSize);
            var whole := b + r.tally.taken;
            && (r.exit.Returned? ==> Handover(f, last, whole, r.tally.packet, r.buf))
            && (r.exit.Raised? ==> Kept(f, last, whole, r.buf))
  {
    hide ReadPacketInternal, Packets, Resumable, Carved, Guarantee, Handover, Kept, Prefix;
    var r := ReadPacketInternal(f, last, max, b, pending, replies, outSize);
    ReadPacketInternalInOrder(f, last, max, b, pending, replies, outSize);
    if Resumable(f) {
      ReadPacketInternalDelivers(f, last, max, b, pending, replies, outSize);
    }
    GuaranteeHandsOver(f, last, b + r.tally.taken, r);
  }

  lemma GuaranteeHandsOver(f: Extractor, last: bool, whole: Bytes, r: Call)
    requires Carved(whole, r.tally, r.buf) && (Resumable(f) ==> Guarantee(f, last, whole, r))
    ensures r.exit.Returned? ==> Handover(f, last, whole, r.tally.packet, r.buf)
    ensures r.exit.Raised? ==> Kept(f, last, whole, r.buf)
  {
    hide Packets, Resumable, Carved, CutOut, Carries, Delivers, Scanned;
    CarvedCutsOut(whole, r.tally, r.buf);
  }

  lemma CarvedCutsOut(whole: Bytes, t: Tally, rest: Bytes)
    requires Carved(whole, t, rest)
    ensures CutOut(whole, t.at, t.packet, rest) && CutOut(whole, 0, [], rest)
  {
  }

  /** A call that found nothing, then one that hands over. */
  lemma HandoverAfter(f: Extractor, last: bool, whole: Bytes, mid: Bytes, more: Bytes, packet: Bytes, rest: Bytes)
    requires Handover(f, last, whole, [], mid) && Handover(f, last, mid + more, packet, rest)
    ensures Handover(f, last, whole + more, packet, rest)
  {
    var at :| CutOut(whole, at, [], mid);
    var at' :| CutOut(mid + more, at', packet, rest);
    CutOutAfter(whole, at, mid, more, at', packet, rest);
    if Resumable(f) {
      CarriesOn(f, whole, Removed(f, last, whole, []), mid, more);
      NonEmptyPackets(f, whole);
      CutMore(f, last, whole + more, [], [], mid + more, packet, rest);
    }
    hide Packets, Resumable, CutOut;
  }

  lemma CutOutAfter(whole: Bytes, at: nat, mid: Bytes, more: Bytes, at': nat, packet: Bytes, rest: Bytes)
    requires CutOut(whole, at, [], mid) && CutOut(mid + more, at', packet, rest)
    ensures CutOut(whole + more, |whole| - |mid| + at', packet, rest)
  {
    var d := |whole| - |mid|;
    SliceUnderAppend(whole, more, d, 0, 0);
    SliceOfTail(whole + more, d, at', |packet|);
    SliceOfTail(whole + more, d, |mid + more| - |rest|, 0);
  }

  lemma KeptAfter(f: Extractor, last: bool, whole: Bytes, mid: Bytes, more: Bytes, rest: Bytes)
    requires Handover(f, last, whole, [], mid) && Kept(f, last, mid + more, rest)
    ensures Kept(f, last, whole + more, rest)
  {
    var at :| CutOut(whole, at, [], mid);
    var at' :| CutOut(mid + more, at', [], rest);
    CutOutAfter(whole, at, mid, more, at', [], rest);
    if Resumable(f) && !last {
      CarriesOn(f, whole, [], mid, more);
      CarriesTrans(f, whole + more, [], mid + more, [], rest);
      EmptySides<Bytes>([]);
    }
    hide Packets, Resumable, CutOut;
  }

  lemma KeptAsIs(f: Extractor, last: bool, whole: Bytes)
    ensures Kept(f, last, whole, whole)
  {
    hide Packets, Resumable;
    CarriesItself(f, whole);
    assert CutOut(whole, 0, [], whole);
  }

  // Several internal calls ----------------------------------------------------------------------

  /** Two tallies in a row; only the second may hand a packet over. */
  function Sum(t: Tally, u: Tally): Tally {
    Tally(t.taken + u.taken, t.polls + u.polls, t.cramped || u.cramped, t.dropped + u.dropped,
          t.dropped + u.at, u.packet, t.bad + u.bad, t.good + u.good)
  }

  lemma EffectSum(was: View, mid: View, now: View, t: Tally, u: Tally)
    requires Effect(was, mid, t) && Effect(mid, now, u)
    ensures Effect(was, now, Sum(t, u))
  {
    hide Credit, ToldRead;
    CreditTwice(was.stats, t.bad, t.good, u.bad, u.good);
    Associate(was.taken, t.taken, u.taken);
    Associate(t.taken, u.taken, now.pending);
    ToldMore(was.heard, t.taken, u.taken);
  }

  /** A call that has made `calls` internal calls, none of which found a packet. */
  ghost predicate Awaiting(p: Protocol, last: bool, was: View, now: View, calls: nat, t: Tally) {
    && Effect(was, now, t) && Counts(last, t) && t.packet == []
    && (if calls == 0 then now.queued == was.queued && t.taken == []
        else Handover(p.extractPacket, last, was.queued + t.taken, [], now.queued))
  }

  lemma AwaitStart(p: Protocol, last: bool, was: View)
    ensures Awaiting(p, last, was, was, 0, NO_TALLY)
  {
    EffectStart(was);
  }

  lemma CallAwaited(p: Protocol, last: bool, max: nat, was: View, mid: View, now: View, calls: nat, t: Tally,
                    outSize: int)
    requires Awaiting(p, last, was, mid, calls, t) && |mid.queued| <= max <= outSize
    requires Ends(mid, now, CallFrom(p, last, max, mid, outSize))
    ensures var call := CallFrom(p, last, max, mid, outSize);
            var sum := Sum(t, call.tally);
            var whole := was.queued + sum.taken;
            && Effect(was, now, sum) && Counts(last, sum)
            && (call.exit.Returned? ==> Handover(p.extractPacket, last, whole, call.tally.packet, now.queued))
            && (call.exit.Returned? && call.tally.packet == [] ==> Awaiting(p, last, was, now, calls + 1, sum))
            && (call.exit.Raised? ==> Kept(p.extractPacket, last, whole, now.queued) && !call.exit.error.Timeout?)
  {
    hide Credit, ToldRead, ReadPacketInternal, Handover, Kept, Effect, Counts;
    var f, call := p.extractPacket, CallFrom(p, last, max, mid, outSize);
    EffectSum(was, mid, now, t, call.tally);
    RaisesOnly(f, last, max, mid.queued, mid.pending, mid.replies, outSize);
    ReadPacketInternalCounts(f, last, max, mid.queued, mid.pending, mid.replies, outSize);
    CountsSum(last, t, call.tally);
    CallHandsOver(f, last, max, mid.queued, mid.pending, mid.replies, outSize);
    if calls == 0 {
      EmptySides(call.tally.taken);
    } else {
      var whole := was.queued + t.taken;
      Associate(was.queued, t.taken, call.tally.taken);
      if call.exit.Returned? {
        HandoverAfter(f, last, whole, mid.queued, call.tally.taken, call.tally.packet, now.queued);
      } else {
        KeptAfter(f, last, whole, mid.queued, call.tally.taken, now.queued);
      }
    }
  }

  /** An internal call leads from one view to another. */
  ghost predicate Leads(p: Protocol, last: bool, max: nat, outSize: int, v: View, v': View) {
    |v.queued| <= max && Ends(v, v', CallFrom(p, last, max, v, outSize))
  }

  /** An internal call from any view; there is none from a buffer beyond its capacity. */
  function CallAt(p: Protocol, last: bool, max: nat, outSize: int, v: View): Call {
    if |v.queued| > max then Call(v.queued, NO_TALLY, Returned) else CallFrom(p, last, max, v, outSize)
  }

  /** What an internal call hands over. */
  function Gives(p: Protocol, last: bool, max: nat, outSize: int, v: View): Bytes {
    var call := CallAt(p, last, max, outSize, v);
    if call.exit.Returned? then call.tally.packet else []
  }

  /** The views between internal calls, from first to last; only the last call hands something over. */
  ghost predicate Visits(p: Protocol, last: bool, max: nat, outSize: int, was: View, now: View, vs: seq<View>,
                         given: Bytes) {
    && vs != [] && vs[0] == was && vs[|vs| - 1] == now
    && (forall i :: 0 <= i < |vs| - 1 ==> Leads(p, last, max, outSize, vs[i], vs[i + 1]))
    && (forall i :: 0 <= i < |vs| - 2 ==> Gives(p, last, max, outSize, vs[i]) == [])
    && given == if |vs| == 1 then [] else Gives(p, last, max, outSize, vs[|vs| - 2])
  }

  lemma VisitStart(p: Protocol, last: bool, max: nat, outSize: int, was: View)
    ensures Visits(p, last, max, outSize, was, was, [was], [])
  {
  }

  lemma VisitMore(p: Protocol, last: bool, max: nat, outSize: int, was: View, mid: View, now: View, vs: seq<View>)
    requires Visits(p, last, max, outSize, was, mid, vs, []) && Leads(p, last, max, outSize, mid, now)
    ensures Visits(p, last, max, outSize, was, now, vs + [now], Gives(p, last, max, outSize, mid))
    ensures LastCall(p, last, max, outSize, vs + [now]) == CallAt(p, last, max, outSize, mid)
  {
    hide Leads, Gives, CallAt;
  }

  /** The last of the internal calls between views. */
  function LastCall(p: Protocol, last: bool, max: nat, outSize: int, vs: seq<View>): Call
    requires |vs| > 1
  {
    CallAt(p, last, max, outSize, vs[|vs| - 2])
  }

  lemma CountsSum(last: bool, t: Tally, u: Tally)
    requires Counts(last, t) && Counts(last, u)
    ensures Counts(last, Sum(t, u))
  {
  }

  lemma SumTaken(t: Tally, u: Tally)
    ensures Sum(t, u).taken != [] <==> t.taken != [] || u.taken != []
  {
  }

  lemma AwaitedIsKept(p: Protocol, last: bool, was: View, now: View, calls: nat, t: Tally)
    requires Awaiting(p, last, was, now, calls, t) && calls > 0
    ensures Effect(was, now, t) && Counts(last, t)
    ensures Kept(p.extractPacket, last, was.queued + t.taken, now.queued)
    ensures Handover(p.extractPacket, last, was.queued + t.taken, [], now.queued)
  {
  }
}
