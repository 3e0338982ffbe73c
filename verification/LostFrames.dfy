/**
 What a start code of several bytes costs over whole runs: a driver whose first read ends inside the code never hands
 out the frame, whatever is asked of it afterwards.
 */
module LostFrames {
  import opened Extraction
  import opened Engine
  import opened Counters
  import opened Carving
  import opened StartCodes
  import opened Runs
  import opened RunTheorems
  import opened PacketCounts

  // Bytes removed are not handed out later ----------------------------------------------------------

  /** The first `n` bytes of the stream are gone, and nothing that was handed out contains any of them. */
  predicate Past(n: nat, s: System) {
    n <= s.removed && forall x <- s.handed :: n <= x.at
  }

  /** A driver that takes no more than `n` bytes of its stream. */
  predicate Within(n: nat, s: System) {
    |s.consumed| + |s.pending| <= n
  }

  lemma CallPast(s: System, r: Call, n: nat)
    requires Past(n, s) && |r.tally.taken| <= |s.pending|
    ensures Past(n, AfterCall(s, r))
  {
    hide Credit;
  }

  lemma RawPast(s: System, outSize: nat, offer: nat, fails: bool, n: nat)
    requires Past(n, s)
    ensures Past(n, AfterRaw(s, outSize, offer, fails))
  {
    hide FreshBytes;
  }

  lemma StepPast(f: Extractor, max: nat, s: System, op: Op, n: nat)
    requires Ordered(max, s) && |s.buf| <= max && Past(n, s)
    ensures Past(n, Step(f, max, s, op))
  {
    hide ReadPacketInternal, ExtractQueued, HasPacket, AfterCall, AfterRaw, HandedInOrder, InOrder, Credit;
    if op.Read? {
      var r := ReadPacketInternal(f, s.last, max, s.buf, s.pending, op.replies, op.outSize);
      ReadPacketInternalInOrder(f, s.last, max, s.buf, s.pending, op.replies, op.outSize);
      InOrderFits(max, s.buf, s.pending, r);
      CallPast(s, r, n);
    } else if op.ReadQueued? {
      QueuedInOrder(f, s.last, max, s.buf, s.pending);
      CallPast(s, ExtractQueued(f, s.last, s.buf, NO_TALLY), n);
    } else if op.ReadRaw? {
      RawPast(s, op.wanted, op.offer, op.fails, n);
    }
  }

  lemma StepWithin(f: Extractor, max: nat, s: System, op: Op, all: nat)
    requires |s.buf| <= max && Within(all, s)
    ensures Within(all, Step(f, max, s, op))
  {
    if !op.Clear? {
      hide Step;
      StepDraws(f, max, s, op);
      var s' := Step(f, max, s, op);
      assert |s'.consumed + s'.pending| == |s.consumed + s.pending|;
    }
  }

  lemma {:induction false} RunPast(f: Extractor, max: nat, s: System, ops: seq<Op>, n: nat, all: nat)
    requires Ordered(max, s) && Past(n, s) && Within(all, s)
    ensures var s' := Run(f, max, s, ops); Ordered(max, s') && Past(n, s') && Within(all, s')
    decreases |ops|
  {
    hide Step, HandedInOrder, Past, Within;
    if ops != [] {
      StepPast(f, max, s, ops[0], n);
      StepWithin(f, max, s, ops[0], all);
      StepOrdered(f, max, s, ops[0]);
      RunPast(f, max, Step(f, max, s, ops[0]), ops[1..], n, all);
    }
  }

  /** So no slice is larger than what is behind those bytes. */
  lemma SmallSlices(max: nat, s: System, n: nat, all: nat, x: Slice)
    requires Ordered(max, s) && Past(n, s) && Within(all, s) && x in s.handed
    ensures n + |x.bytes| <= all
  {
    var i :| 0 <= i < |s.handed| && s.handed[i] == x;
    HandedAt(s.handed, s.consumed, s.removed, i);
  }

  // The frame ---------------------------------------------------------------------------------------

  /** The bytes before a frame, as many as its start code has but one, and the first byte of the code. */
  function Noise(code: Bytes): (b: Bytes)
    requires code != []
  {
    Filler(code[0], |code| - 1) + [code[0]]
  }

  lemma NoiseThenRest(code: Bytes, frame: Bytes)
    requires |code| >= 2 && code <= frame
    ensures Noise(code) + frame[1..] == Filler(code[0], |code| - 1) + frame && |Noise(code)| == |code|
  {
    assert frame == [code[0]] + frame[1..];
    Associate(Filler(code[0], |code| - 1), [code[0]], frame[1..]);
  }

  /** A read of bytes that the extractor discards to the last. */
  lemma ReadDiscards(f: Extractor, last: bool, max: nat, b: Bytes, x: Bytes, outSize: int)
    requires b != [] && |b| <= max <= outSize && Ask(f, b) == Discard(|b|)
    ensures var s' := Step(f, max, Start(last, b + x), Read(outSize, [Deliver(|b|)]));
            Ordered(max, s') && s'.removed == |b| && s'.handed == [] && Within(|b| + |x|, s')
  {
    hide ReadPacketInternal, Extract, HandedInOrder;
    var s, op := Start(last, b + x), Read(outSize, [Deliver(|b|)]);
    StartIsSound(max, last, b + x);
    StepOrdered(f, max, s, op);
    StepDraws(f, max, s, op);
    CutDiscards(f, last, b);
    OneChunk(f, last, max, b, x, outSize);
    EmptySides(b + x);
  }

  lemma CutDiscards(f: Extractor, last: bool, b: Bytes)
    requires b != [] && Ask(f, b) == Discard(|b|)
    ensures var x := Extract(f, last, b); x.Extracted? && x.offset == |b| && x.packet == [] && x.rest == []
  {
  }

  /** A call that starts with an empty buffer, and whose only read brings `data`, all of which is cut out. */
  lemma OneChunk(f: Extractor, last: bool, max: nat, data: Bytes, later: Bytes, outSize: int)
    requires data != [] && |data| <= max <= outSize
    requires Extract(f, last, data).Extracted? && Extract(f, last, data).rest == []
    ensures var x := Extract(f, last, data);
            var r := ReadPacketInternal(f, last, max, [], data + later, [Deliver(|data|)], outSize);
            && r.buf == [] && r.tally.dropped == x.offset + |x.packet| && r.exit == Returned
            && r.tally.packet == x.packet && (x.packet != [] ==> r.tally.at == x.offset)
  {
    hide Extract, ReadLoop;
    var all, replies := data + later, [Deliver(|data|)];
    assert Delivered(all, replies, max) == data && [] + data == data && replies[1..] == [];
    FirstTurn(f, last, max, all, replies);
    LastTurn(f, last, max, Remaining(all, replies, max), Absorb(Took(NO_TALLY, max, data), Extract(f, last, data)));
  }

  lemma FirstTurn(f: Extractor, last: bool, max: nat, all: Bytes, replies: seq<Reply>)
    requires max > 0 && Delivered(all, replies, max) != [] && replies != []
    requires [] + Delivered(all, replies, max) == Delivered(all, replies, max)
    ensures var data := Delivered(all, replies, max);
            var x, rest := Extract(f, last, data), Remaining(all, replies, max);
            var t := Absorb(Took(NO_TALLY, max, data), x);
            x.Extracted? && x.rest == [] ==>
              ReadLoop(f, last, max, [], all, replies, NO_TALLY)
              == if x.packet != [] && !last then Call([], t, Returned)
                 else ReadLoop(f, last, max, [], rest, replies[1..], t)
  {
    hide Extract, Absorb, Took;
  }

  lemma LastTurn(f: Extractor, last: bool, max: nat, pending: Bytes, t: Tally)
    ensures ReadLoop(f, last, max, [], pending, [], t) == Call([], Took(t, max, []), Returned)
  {
  }

  /** The first read ends inside the start code, and whatever happens next, in either mode: no caller ever gets the
      frame. */
  lemma RunLosesFrame(code: Bytes, judge: Judge, frame: Bytes, last: bool, max: nat, outSize: int, ops: seq<Op>)
    requires |code| >= 2 && code <= frame && judge(frame) == |frame| && |code| <= max <= outSize
    ensures var f, b, x := Reader(code, judge), Noise(code), frame[1..];
            && b + x == Filler(code[0], |code| - 1) + frame
            && var s' := Run(f, max, Start(last, b + x), [Read(outSize, [Deliver(|b|)])] + ops);
               forall slice <- s'.handed :: slice.bytes != frame
  {
    hide Reader, Filler, Ask, Step, Run, Past, Within, HandedInOrder, Noise;
    var f, b, x := Reader(code, judge), Noise(code), frame[1..];
    NoiseThenRest(code, frame);
    NoiseDiscarded(code, judge);
    ReadDiscards(f, last, max, b, x, outSize);
    var op := Read(outSize, [Deliver(|b|)]);
    var s1 := Step(f, max, Start(last, b + x), op);
    RunFirst(f, max, Start(last, b + x), op, ops);
    NowPast(s1, |b|);
    RunPast(f, max, s1, ops, |b|, |b| + |x|);
    var s' := Run(f, max, s1, ops);
    forall slice | slice in s'.handed ensures slice.bytes != frame {
      SmallSlices(max, s', |b|, |b| + |x|, slice);
    }
  }

  lemma NoiseDiscarded(code: Bytes, judge: Judge)
    requires |code| >= 2
    ensures Ask(Reader(code, judge), Noise(code)) == Discard(|Noise(code)|)
  {
    FillerDiscarded(code, judge, [code[0]], |code| - 1);
  }

  lemma RunFirst(f: Extractor, max: nat, s: System, op: Op, ops: seq<Op>)
    requires |s.buf| <= max
    ensures Run(f, max, s, [op] + ops) == Run(f, max, Step(f, max, s, op), ops)
  {
    assert ([op] + ops)[1..] == ops;
  }

  lemma NowPast(s: System, n: nat)
    requires s.removed == n && s.handed == []
    ensures Past(n, s)
  {
  }

  /** When the same bytes arrive in one read, it returns the frame. */
  lemma OneReadFindsFrame(code: Bytes, judge: Judge, frame: Bytes, last: bool, max: nat, outSize: int)
    requires |code| >= 2 && code <= frame && judge(frame) == |frame| && |code| - 1 + |frame| <= max <= outSize
    ensures var f, all := Reader(code, judge), Noise(code) + frame[1..];
            var s' := Step(f, max, Start(last, all), Read(outSize, [Deliver(|all|)]));
            s'.handed == [Slice(|code| - 1, frame)]
  {
    hide Reader, Filler, Ask, Noise, ReadPacketInternal, Extract;
    var f, all, k := Reader(code, judge), Noise(code) + frame[1..], |code| - 1;
    NoiseThenRest(code, frame);
    FillerDiscarded(code, judge, frame, k);
    AskFrame(code, judge, frame);
    assert all[k..] == frame;
    CutFinds(f, last, all, k);
    OneChunk(f, last, max, all, [], outSize);
    EmptySides(all);
  }

  lemma AskFrame(code: Bytes, judge: Judge, frame: Bytes)
    requires code != [] && code <= frame && judge(frame) == |frame|
    ensures Ask(Reader(code, judge), frame) == Packet(|frame|)
  {
    assert frame[0..] == frame;
    assert At(code, frame, 0);
  }

  lemma CutFinds(f: Extractor, last: bool, all: Bytes, k: nat)
    requires 0 < k < |all| && Ask(f, all) == Discard(k) && Ask(f, all[k..]) == Packet(|all[k..]|)
    ensures var x := Extract(f, last, all); x.Extracted? && x.offset == k && x.packet == all[k..] && x.rest == []
  {
    var rest := all[k..];
    assert FindPacket(f, last, rest) == Found(0, |rest|, 0, if last then |rest| else 0);
  }
}
