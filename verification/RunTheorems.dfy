/** What reassembly and accounting mean over whole runs. */
module RunTheorems {
  import opened Extraction
  import opened Engine
  import opened Counters
  import opened Scanning
  import opened Reassembly
  import opened Carving
  import opened Accounting
  import opened DryStream
  import opened Runs

  // Reassembly ----------------------------------------------------------------------------------

  /** The packets handed out so far, and those the buffer still holds, are the packets of all bytes
      consumed, whatever bytes come next. */
  ghost predicate Assembled(f: Extractor, s: System) {
    Carries(f, s.consumed, Payloads(s.handed), s.buf)
  }

  predicate ReadsPackets(op: Op) {
    op.Read? || op.ReadQueued? || op.Peek? || op.GetStatus? || op.ResetStatus? || op.Write?
  }

  lemma CallAssembled(f: Extractor, max: nat, s: System, r: Call)
    requires Assembled(f, s) && InOrder(max, s.buf, s.pending, r)
    requires Guarantee(f, false, s.buf + r.tally.taken, r)
    ensures Assembled(f, AfterCall(s, r))
  {
    var t := r.tally;
    var gone := if r.exit.Returned? && t.packet != [] then [t.packet] else [];
    CarriesOn(f, s.consumed, Payloads(s.handed), s.buf, t.taken);
    CarriesTrans(f, s.consumed + t.taken, Payloads(s.handed), s.buf + t.taken, gone, r.buf);
    PayloadsHand(s.handed, s.removed + t.at, t.packet, r.exit.Returned?);
    hide Packets, Carved, Payloads;
  }

  lemma StepAssembled(f: Extractor, max: nat, s: System, op: Op)
    requires Resumable(f) && Assembled(f, s) && !s.last && ReadsPackets(op) && |s.buf| <= max
    ensures Assembled(f, Step(f, max, s, op)) && !Step(f, max, s, op).last
  {
    hide Assembled, InOrder, Guarantee, ReadPacketInternal, ExtractQueued, HasPacket, Resumable;
    if op.Read? {
      ReadPacketInternalInOrder(f, s.last, max, s.buf, s.pending, op.replies, op.outSize);
      ReadPacketInternalDelivers(f, s.last, max, s.buf, s.pending, op.replies, op.outSize);
      CallAssembled(f, max, s, ReadPacketInternal(f, s.last, max, s.buf, s.pending, op.replies, op.outSize));
    } else if op.ReadQueued? {
      QueuedInOrder(f, s.last, max, s.buf, s.pending);
      QueuedDelivers(f, s.last, s.buf);
      EmptySides(s.buf);
      CallAssembled(f, max, s, ExtractQueued(f, s.last, s.buf, NO_TALLY));
    } else {
      SameBytesAssembled(f, s, Step(f, max, s, op));
    }
  }

  lemma SameBytesAssembled(f: Extractor, s: System, s': System)
    requires Assembled(f, s) && s'.buf == s.buf && s'.consumed == s.consumed && s'.handed == s.handed
    ensures Assembled(f, s')
  {
  }

  /** Chunk independence.  However the stream cuts its bytes into chunks, and through errors of any
      kind, a run in first-packet mode hands out a prefix of the packets of all bytes consumed. */
  lemma {:induction false} RunReassembles(f: Extractor, max: nat, s: System, ops: seq<Op>)
    requires Resumable(f) && Assembled(f, s) && !s.last && |s.buf| <= max
    requires forall op <- ops :: ReadsPackets(op)
    ensures var s' := Run(f, max, s, ops);
            Assembled(f, s') && Packets(f, s'.consumed) == Payloads(s'.handed) + Packets(f, s'.buf)
    decreases |ops|
  {
    hide Step, Packets, Resumable, Payloads;
    if ops == [] {
      CarriesNow(f, s.consumed, Payloads(s.handed), s.buf);
    } else {
      StepAssembled(f, max, s, ops[0]);
      RunReassembles(f, max, Step(f, max, s, ops[0]), ops[1..]);
    }
  }

  /** ... and all of them whenever a read returns without a packet. */
  lemma EmptyReadMeansAll(f: Extractor, max: nat, s: System, op: Op)
    requires Resumable(f) && Assembled(f, s) && !s.last && |s.buf| <= max && op.Read?
    requires var r := ReadPacketInternal(f, s.last, max, s.buf, s.pending, op.replies, op.outSize);
             r.exit.Returned? && r.tally.packet == []
    ensures var s' := Step(f, max, s, op); Payloads(s'.handed) == Packets(f, s'.consumed)
  {
    StepAssembled(f, max, s, op);
    ReadPacketInternalDelivers(f, s.last, max, s.buf, s.pending, op.replies, op.outSize);
    var s' := Step(f, max, s, op);
    CarriesNow(f, s'.consumed, Payloads(s'.handed), s'.buf);
    hide ReadPacketInternal, Packets, Payloads, Resumable;
  }

  /** Two runs over the same bytes, chunked in any two ways, have handed out the same packets as soon
      as neither has one left in its buffer. */
  lemma SameBytesSamePackets(f: Extractor, max: nat, stream: Bytes, stream': Bytes, ops: seq<Op>, ops': seq<Op>)
    requires Resumable(f)
    requires (forall op <- ops :: ReadsPackets(op)) && (forall op <- ops' :: ReadsPackets(op))
    requires var s, s' := Run(f, max, Start(false, stream), ops), Run(f, max, Start(false, stream'), ops');
             s.consumed == s'.consumed && Packets(f, s.buf) == [] && Packets(f, s'.buf) == []
    ensures Payloads(Run(f, max, Start(false, stream), ops).handed)
         == Payloads(Run(f, max, Start(false, stream'), ops').handed)
  {
    hide Packets, Resumable, Run;
    StartAssembled(f, stream);
    StartAssembled(f, stream');
    RunReassembles(f, max, Start(false, stream), ops);
    RunReassembles(f, max, Start(false, stream'), ops');
    EmptySides(Payloads(Run(f, max, Start(false, stream), ops).handed));
    EmptySides(Payloads(Run(f, max, Start(false, stream'), ops').handed));
  }

  lemma StartAssembled(f: Extractor, stream: Bytes)
    ensures Assembled(f, Start(false, stream))
  {
  }

  // Conservation in first-packet mode -----------------------------------------------------------

  /** Every byte that was in the buffer at the last reset or entered it since is counted as good or
      bad, was taken out or cleared uncounted, or is still there; and the status shows that count. */
  predicate Conserved(s: System) {
    && s.good + s.bad + |s.buf| + s.bypassed == s.fed + s.base
    && Shows(s.stats, s.bad, s.good)
  }

  lemma CallConserves(max: nat, s: System, r: Call)
    requires Conserved(s) && InOrder(max, s.buf, s.pending, r) && Counts(false, r.tally)
    ensures Conserved(AfterCall(s, r))
  {
    CreditShows(s.stats, s.bad, s.good, r.tally.bad, r.tally.good);
    hide Shows, Credit;
  }

  lemma PeekConserves(f: Extractor, max: nat, s: System)
    requires Conserved(s) && !s.last && |s.buf| <= max
    ensures Conserved(Step(f, max, s, Peek))
  {
    hide FindPacket, Credit;
    if s.buf != [] {
      ScanFirst(f, s.buf);
    }
    CreditShows(s.stats, s.bad, s.good, 0, 0);
  }

  /** Steps that count nothing. */
  lemma OtherConserves(f: Extractor, max: nat, s: System, op: Op)
    requires Conserved(s) && |s.buf| <= max && !op.Read? && !op.ReadQueued? && !op.Peek?
    ensures Conserved(Step(f, max, s, op))
  {
    hide FreshBytes;
  }

  lemma StepConserves(f: Extractor, max: nat, s: System, op: Op)
    requires Conserved(s) && !s.last && Ordered(max, s)
    ensures Conserved(Step(f, max, s, op))
  {
    hide InOrder, Counts, ReadPacketInternal, ExtractQueued, AfterCall, HandedInOrder, Conserved, HasPacket, Credit;
    if op.Read? {
      ReadPacketInternalInOrder(f, s.last, max, s.buf, s.pending, op.replies, op.outSize);
      ReadPacketInternalCounts(f, s.last, max, s.buf, s.pending, op.replies, op.outSize);
      CallConserves(max, s, ReadPacketInternal(f, s.last, max, s.buf, s.pending, op.replies, op.outSize));
    } else if op.ReadQueued? {
      QueuedInOrder(f, s.last, max, s.buf, s.pending);
      NothingCounts(s.last);
      ExtractQueuedCounts(f, s.last, s.buf, NO_TALLY);
      CallConserves(max, s, ExtractQueued(f, s.last, s.buf, NO_TALLY));
    } else if op.Peek? {
      PeekConserves(f, max, s);
    } else {
      OtherConserves(f, max, s, op);
    }
  }

  /** Statistics are conserved over every run in first-packet mode, through errors, raw reads, clears
      and resets: modulo 2^32, good + bad + queued bytes, plus the bytes readRaw or clear took out,
      equal the bytes taken from the stream plus those queued at the last reset. */
  lemma {:induction false} RunConserves(f: Extractor, max: nat, s: System, ops: seq<Op>)
    requires Conserved(s) && !s.last && Ordered(max, s)
    requires forall op <- ops :: op.SetExtractLast? ==> !op.flag
    ensures var s' := Run(f, max, s, ops);
            && Conserved(s')
            && Wrap(s'.stats.goodRx + s'.stats.badRx + |s'.buf| + s'.bypassed) == Wrap(s'.fed + s'.base)
    decreases |ops|
  {
    hide Step, Shows, Wrap, HandedInOrder;
    if ops == [] {
      SumWraps(s.stats, s.bad, s.good, |s.buf| + s.bypassed);
    } else {
      StepOrdered(f, max, s, ops[0]);
      StepConserves(f, max, s, ops[0]);
      StaysFirst(f, max, s, ops[0]);
      RunConserves(f, max, Step(f, max, s, ops[0]), ops[1..]);
    }
  }

  lemma StaysFirst(f: Extractor, max: nat, s: System, op: Op)
    requires |s.buf| <= max && !s.last && (op.SetExtractLast? ==> !op.flag)
    ensures !Step(f, max, s, op).last
  {
  }

  lemma StartIsSound(max: nat, last: bool, stream: Bytes)
    ensures Ordered(max, Start(last, stream)) && Conserved(Start(last, stream))
  {
  }
}
