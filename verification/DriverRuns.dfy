/**
 The driver refines the system the runs are about: whatever is asked of a driver, its fields, its
 stream and the caller's buffer are those of a run.  So what is proved of all runs holds of it.
 */
module DriverRuns {
  import opened Extraction
  import opened Engine
  import opened Counters
  import opened Listeners
  import opened Protocols
  import opened Carving
  import opened Runs
  import opened RunTheorems
  import opened PacketCounts
  import opened Reassembly
  import opened Handovers
  import opened RawReadings
  import opened Deadlines
  import opened Drivers

  /** What the stream had delivered and accepted, and the listeners had heard, before a run. */
  datatype Origin = Origin(taken: Bytes, accepted: Bytes, heard: Audience)

  function OriginOf(v: View): Origin {
    Origin(v.taken, v.accepted, v.heard)
  }

  /** A driver at some moment and a system: the driver's state is the system's, and since the run began its stream
      and every one of its listeners have seen just what the system's history says. */
  ghost predicate Fits(v: View, s: System, origin: Origin) {
    && v.queued == s.buf && v.stats == s.stats && v.pending == s.pending
    && v.taken == origin.taken + s.consumed && v.accepted == origin.accepted + s.written
    && v.heard == ToldBoth(origin.heard, s.consumed, s.written)
  }

  /** The caller was given `given`, if it is anything. */
  ghost predicate Given(before: seq<Slice>, after: seq<Slice>, given: Bytes) {
    exists at :: after == Hand(before, at, given, true)
  }

  lemma CallFits(p: Protocol, max: nat, outSize: int, v: View, v': View, s: System, origin: Origin)
    requires Fits(v, s, origin) && Leads(p, s.last, max, outSize, v, v') && |s.buf| <= max
    ensures var s' := Step(p.extractPacket, max, s, Read(outSize, v.replies));
            && Fits(v', s', origin) && s'.last == s.last
            && Given(s.handed, s'.handed, Gives(p, s.last, max, outSize, v))
  {
    hide ReadPacketInternal, Credit, ToldRead, ToldBoth, InOrder;
    ReadPacketInternalInOrder(p.extractPacket, s.last, max, s.buf, s.pending, v.replies, outSize);
    var call := CallFrom(p, s.last, max, v, outSize);
    InOrderTakes(max, s.buf, s.pending, call);
    Associate(origin.taken, s.consumed, call.tally.taken);
    ToldBothMore(origin.heard, s.consumed, s.written, call.tally.taken);
    EffectPending(v, v', call.tally);
    var s' := AfterCall(s, call);
    assert s'.handed == Hand(s.handed, s.removed + call.tally.at, Gives(p, s.last, max, outSize, v), true);
  }

  lemma InOrderTakes(max: nat, b: Bytes, pending: Bytes, r: Call)
    requires InOrder(max, b, pending, r)
    ensures |r.tally.taken| <= |pending|
  {
  }

  lemma EffectPending(was: View, now: View, t: Tally)
    requires Effect(was, now, t)
    ensures |t.taken| <= |was.pending| && now.pending == was.pending[|t.taken|..]
  {
  }

  /** The internal calls of one readPacket are as many steps. */
  lemma {:induction false} VisitsFit(p: Protocol, max: nat, outSize: int, was: View, now: View, vs: seq<View>,
                                     given: Bytes, s: System, origin: Origin)
    returns (ops: seq<Op>)
    requires Visits(p, s.last, max, outSize, was, now, vs, given) && Fits(was, s, origin) && |s.buf| <= max
    ensures forall op <- ops :: op.Read? && op.outSize == outSize
    ensures var s' := Run(p.extractPacket, max, s, ops);
            Fits(now, s', origin) && s'.last == s.last && Given(s.handed, s'.handed, given)
    ensures |ops| == |vs| - 1
    decreases |vs|
  {
    hide Leads, Step, Fits, Given, Gives;
    if |vs| == 1 {
      ops := [];
      GivenNothing(s.handed);
    } else {
      var op := Read(outSize, was.replies);
      var s1 := Step(p.extractPacket, max, s, op);
      assert Leads(p, s.last, max, outSize, vs[0], vs[1]);
      CallFits(p, max, outSize, was, vs[1], s, origin);
      if |vs| == 2 {
        ops := [op];
        assert Run(p.extractPacket, max, s1, []) == s1;
      } else {
        VisitsOn(p, s.last, max, outSize, was, now, vs, given);
        var rest := VisitsFit(p, max, outSize, vs[1], now, vs[1..], given, s1, origin);
        SilentFirst(s.handed, s1.handed, Run(p.extractPacket, max, s1, rest).handed, given);
        ops := [op] + rest;
        assert ops[1..] == rest;
      }
    }
  }

  lemma VisitsOn(p: Protocol, last: bool, max: nat, outSize: int, was: View, now: View, vs: seq<View>, given: Bytes)
    requires Visits(p, last, max, outSize, was, now, vs, given) && |vs| > 2
    ensures Visits(p, last, max, outSize, vs[1], now, vs[1..], given)
    ensures Gives(p, last, max, outSize, was) == []
  {
    hide Leads, Gives;
    assert vs[1..][|vs| - 2] == now;
    forall i | 0 <= i < |vs| - 2 ensures Leads(p, last, max, outSize, vs[1..][i], vs[1..][i + 1]) {
      assert Leads(p, last, max, outSize, vs[i + 1], vs[i + 1 + 1]);
    }
    forall i | 0 <= i < |vs| - 3 ensures Gives(p, last, max, outSize, vs[1..][i]) == [] {
      assert Gives(p, last, max, outSize, vs[i + 1]) == [];
    }
  }

  lemma GivenNothing(handed: seq<Slice>)
    ensures Given(handed, handed, [])
  {
    assert handed == Hand(handed, 0, [], true);
  }

  lemma SilentFirst(a: seq<Slice>, b: seq<Slice>, c: seq<Slice>, given: Bytes)
    requires Given(a, b, []) && Given(b, c, given)
    ensures Given(a, c, given)
  {
  }

  /** A raw read is one step. */
  lemma RawFits(p: Protocol, max: nat, outSize: nat, was: View, now: View, got: Bytes, failed: bool, s: System,
                origin: Origin)
    requires Fits(was, s, origin) && |s.buf| <= max
    requires var n := Pulled(was.queued, outSize);
             Passed(Pulling(was, n), now, got) && |got| == FreshBytes(was.queued, was.pending, outSize, |got|)
    ensures var s' := Step(p.extractPacket, max, s, ReadRaw(outSize, |got|, failed));
            && Fits(now, s', origin) && s'.last == s.last
            && Given(s.handed, s'.handed, if failed then [] else was.queued[..Pulled(was.queued, outSize)] + got)
  {
    hide FreshBytes, ToldRead, ToldBoth, Pulled;
    var n := Pulled(was.queued, outSize);
    Associate(origin.taken, s.consumed, got);
    ToldBothMore(origin.heard, s.consumed, s.written, got);
    assert was.pending[..|got|] == got && was.pending[|got|..] == now.pending;
    var s' := AfterRaw(s, outSize, |got|, failed);
    assert s'.handed == Hand(s.handed, s.removed, if failed then [] else was.queued[..n] + got, true);
  }

  lemma PeekFits(p: Protocol, max: nat, v: View, now: View, s: System, origin: Origin)
    requires Fits(v, s, origin) && |s.buf| <= max
    requires var r := HasPacket(p.extractPacket, s.last, v.queued);
             now == v.(stats := Credit(v.stats, r.bad, r.good))
    ensures Fits(now, Step(p.extractPacket, max, s, Peek), origin)
  {
  }

  lemma ClearFits(p: Protocol, max: nat, v: View, now: View, drops: bool, s: System, origin: Origin)
    requires Fits(v, s, origin) && |s.buf| <= max
    requires now == v.(queued := [], pending := if drops then [] else v.pending)
    ensures Fits(now, Step(p.extractPacket, max, s, Clear(drops)), origin)
  {
  }

  /** A view after a write, of which the stream accepted `data`. */
  ghost function Writing(v: View, data: Bytes, done: bool): View {
    v.(accepted := v.accepted + data, heard := ToldWrite(v.heard, data),
       stats := if done then v.stats.(tx := Add32(v.stats.tx, |data|)) else v.stats)
  }

  lemma WriteFits(p: Protocol, max: nat, v: View, data: Bytes, done: bool, s: System, origin: Origin)
    requires Fits(v, s, origin) && |s.buf| <= max
    ensures Fits(Writing(v, data, done), Step(p.extractPacket, max, s, Op.Write(data, done)), origin)
  {
    hide Add32, ToldWrite, ToldBoth;
    Associate(origin.accepted, s.written, data);
    ToldBothMore(origin.heard, s.consumed, s.written, data);
  }

  // Requests ----------------------------------------------------------------------------------------

  /** What can be asked of a driver. */
  datatype Request =
    | Packet(outSize: nat, packetTimeout: int, firstByteTimeout: int)
    | Raw(outSize: nat, packetTimeout: int, firstByteTimeout: int, interByteTimeout: int)
    | Write(data: Bytes, ms: int)
    | HasOne
    | Drop
    | Mode(extractLast: bool)
    | Status
    | Reset

  /** What the caller gets: the bytes in its buffer, an error, whether a write failed, or what was asked for. */
  datatype Answer =
    | Handed(data: Bytes)
    | Denied(error: Engine.Error)
    | Sent(failure: Option<Engine.Error>)
    | Told(found: Option<bool>)
    | Reported(status: Counters.Status)
    | Acknowledged

  function Got(answer: Answer): Bytes {
    if answer.Handed? then answer.data else []
  }

  /** A step that is part of serving a request. */
  predicate Serves(request: Request, op: Op) {
    match request
    case Packet(outSize, _, _) => op.Read? && op.outSize == outSize
    case Raw(outSize, _, _, _) => op.ReadRaw? && op.wanted == outSize
    case Write(data, _) => op.Write? && op.data <= data && (op.done ==> op.data == data)
    case HasOne => op.Peek?
    case Drop => op.Clear?
    case Mode(flag) => op == SetExtractLast(flag)
    case Status => op.GetStatus?
    case Reset => op.ResetStatus?
  }

  /** The steps that serve a request: one, but for a packet as many reads as it takes, and none if the caller's
      buffer is too small.  A write that was done was not answered with an error. */
  predicate Performs(max: nat, request: Request, ops: seq<Op>, answer: Answer) {
    && (forall op <- ops :: Serves(request, op))
    && (if request.Packet? then ops != [] <==> request.outSize >= max else |ops| == 1)
    && (request.Write? ==> answer.Sent? && forall op <- ops :: op.Write? && op.done == (answer.failure == None))
  }

  /** What is answered is what the steps handed out or found. */
  ghost predicate Answers(p: Protocol, s: System, s': System, request: Request, answer: Answer) {
    && Given(s.handed, s'.handed, Got(answer))
    && (match request
        case Packet(_, _, _) => answer.Handed? || answer.Denied?
        case Raw(_, _, _, _) => answer.Handed? || answer.Denied?
        case Write(_, _) => answer.Sent?
        case HasOne =>
          var r := HasPacket(p.extractPacket, s.last, s.buf);
          answer == Told(if r.TooLong? then None else Some(r.size > 0))
        case Status => answer == Reported(s'.stats)
        case _ => answer == Acknowledged)
  }

  /** From `s` the steps `ops` serve the request, and lead to a driver with the view `v`. */
  ghost predicate Reached(p: Protocol, max: nat, s: System, origin: Origin, request: Request, ops: seq<Op>, v: View,
                          last: bool, answer: Answer)
    requires |s.buf| <= max
  {
    var s' := Run(p.extractPacket, max, s, ops);
    Fits(v, s', origin) && s'.last == last && Performs(max, request, ops, answer) && Answers(p, s, s', request, answer)
  }

  lemma OneStep(p: Protocol, max: nat, s: System, origin: Origin, request: Request, op: Op, v: View, last: bool,
                answer: Answer)
    requires |s.buf| <= max && Serves(request, op) && !request.Packet?
    requires request.Write? ==> answer.Sent? && op.Write? && op.done == (answer.failure == None)
    requires var s' := Step(p.extractPacket, max, s, op);
             Fits(v, s', origin) && s'.last == last && Answers(p, s, s', request, answer)
    ensures Reached(p, max, s, origin, request, [op], v, last, answer)
  {
    hide Step, Fits, Answers, Serves;
    var s' := Step(p.extractPacket, max, s, op);
    assert Run(p.extractPacket, max, s', []) == s' && [op][1..] == [];
  }

  lemma PacketReached(p: Protocol, max: nat, request: Request, was: View, now: View, vs: seq<View>, s: System,
                      origin: Origin, answer: Answer)
    returns (ops: seq<Op>)
    requires request.Packet? && (answer.Handed? || answer.Denied?) && (|vs| > 1 <==> request.outSize >= max)
    requires Visits(p, s.last, max, request.outSize, was, now, vs, Got(answer))
    requires Fits(was, s, origin) && |s.buf| <= max
    ensures Reached(p, max, s, origin, request, ops, now, s.last, answer)
  {
    hide Visits, Run, Fits, Given;
    ops := VisitsFit(p, max, request.outSize, was, now, vs, Got(answer), s, origin);
  }

  lemma RawReached(p: Protocol, max: nat, request: Request, was: View, now: View, got: Bytes, s: System, origin: Origin,
                   answer: Answer)
    requires request.Raw? && (answer.Handed? || answer.Denied?) && Fits(was, s, origin) && |s.buf| <= max
    requires var n := Pulled(was.queued, request.outSize);
             && Passed(Pulling(was, n), now, got)
             && |got| == FreshBytes(was.queued, was.pending, request.outSize, |got|)
             && (answer.Handed? ==> answer.data == was.queued[..n] + got)
    ensures Reached(p, max, s, origin, request, [ReadRaw(request.outSize, |got|, answer.Denied?)], now, s.last, answer)
  {
    hide Run, Fits, Given, Step, FreshBytes, Passed, Pulled, Pulling;
    RawFits(p, max, request.outSize, was, now, got, answer.Denied?, s, origin);
    OneStep(p, max, s, origin, request, ReadRaw(request.outSize, |got|, answer.Denied?), now, s.last, answer);
  }

  lemma PeekReached(p: Protocol, max: nat, v: View, now: View, s: System, origin: Origin, answer: Answer)
    requires Fits(v, s, origin) && |s.buf| <= max
    requires var r := HasPacket(p.extractPacket, s.last, v.queued);
             && now == v.(stats := Credit(v.stats, r.bad, r.good))
             && answer == Told(if r.TooLong? then None else Some(r.size > 0))
    ensures Reached(p, max, s, origin, HasOne, [Peek], now, s.last, answer)
  {
    hide Run, Given, HasPacket, Credit;
    PeekFits(p, max, v, now, s, origin);
    GivenNothing(s.handed);
    OneStep(p, max, s, origin, HasOne, Peek, now, s.last, answer);
  }

  lemma ClearReached(p: Protocol, max: nat, v: View, now: View, drops: bool, s: System, origin: Origin)
    requires Fits(v, s, origin) && |s.buf| <= max
    requires now == v.(queued := [], pending := if drops then [] else v.pending)
    ensures Reached(p, max, s, origin, Drop, [Clear(drops)], now, s.last, Acknowledged)
  {
    hide Run, Fits, Given;
    ClearFits(p, max, v, now, drops, s, origin);
    GivenNothing(s.handed);
    OneStep(p, max, s, origin, Drop, Clear(drops), now, s.last, Acknowledged);
  }

  lemma WriteReached(p: Protocol, max: nat, request: Request, v: View, data: Bytes, s: System, origin: Origin,
                     answer: Answer)
    requires Fits(v, s, origin) && |s.buf| <= max && request.Write? && answer.Sent?
    requires data <= request.data && (answer.failure == None ==> data == request.data)
    ensures var done := answer.failure == None;
            Reached(p, max, s, origin, request, [Op.Write(data, done)], Writing(v, data, done), s.last, answer)
  {
    hide Run, Given, Fits;
    var done := answer.failure == None;
    WriteFits(p, max, v, data, done, s, origin);
    GivenNothing(s.handed);
    OneStep(p, max, s, origin, request, Op.Write(data, done), Writing(v, data, done), s.last, answer);
  }

  lemma ModeReached(p: Protocol, max: nat, v: View, s: System, origin: Origin, flag: bool)
    requires Fits(v, s, origin) && |s.buf| <= max
    ensures Reached(p, max, s, origin, Mode(flag), [SetExtractLast(flag)], v, flag, Acknowledged)
  {
    hide Run, Given;
    GivenNothing(s.handed);
    OneStep(p, max, s, origin, Mode(flag), SetExtractLast(flag), v, flag, Acknowledged);
  }

  lemma StatusReached(p: Protocol, max: nat, v: View, now: View, s: System, origin: Origin)
    requires Fits(v, s, origin) && |s.buf| <= max
    requires now == v.(stats := v.stats.(queuedBytes := Wrap(|v.queued|)))
    ensures Reached(p, max, s, origin, Request.Status, [GetStatus], now, s.last, Reported(now.stats))
  {
    hide Run, Given;
    GivenNothing(s.handed);
    OneStep(p, max, s, origin, Request.Status, GetStatus, now, s.last, Reported(now.stats));
  }

  lemma ResetReached(p: Protocol, max: nat, v: View, now: View, s: System, origin: Origin)
    requires Fits(v, s, origin) && |s.buf| <= max
    requires now == v.(stats := EMPTY_STATUS)
    ensures Reached(p, max, s, origin, Reset, [ResetStatus], now, s.last, Acknowledged)
  {
    hide Run, Given;
    GivenNothing(s.handed);
    OneStep(p, max, s, origin, Reset, ResetStatus, now, s.last, Acknowledged);
  }

  predicate Fit(request: Request, room: nat) {
    request.Packet? || request.Raw? ==> request.outSize <= room
  }

  method PerformPacket(d: Driver, request: Request, buffer: array<byte>, ghost s: System, ghost origin: Origin)
    returns (answer: Answer, ghost ops: seq<Op>)
    requires d.Valid() && d.stream != null && buffer != d.internalBuffer
    requires Fits(d.Snap(), s, origin) && s.last == d.extractLast && |s.buf| <= d.maxPacketSize
    requires request.Packet? && Fit(request, buffer.Length)
    modifies d`stats, d`internalBufferSize, d.internalBuffer, buffer, d.listeners, d.stream, d.Clocks()
    ensures d.Valid()
    ensures Reached(d.protocol, d.maxPacketSize, s, origin, request, ops, d.Snap(), d.extractLast, answer)
    ensures Got(answer) <= buffer[..]
  {
    hide Fits, Reached, Visits, Handover, Kept, Obeys, Expired, Follow;
    ghost var was := d.Snap();
    var r;
    ghost var visits, tr;
    r, visits, tr := d.ReadPacket(buffer, request.outSize, request.packetTimeout, request.firstByteTimeout);
    answer := if r.Size? then Handed(buffer[..r.size]) else Denied(r.error);
    ops := PacketReached(d.protocol, d.maxPacketSize, request, was, d.Snap(), visits, s, origin, answer);
  }

  method PerformRaw(d: Driver, request: Request, buffer: array<byte>, ghost s: System, ghost origin: Origin)
    returns (answer: Answer, ghost ops: seq<Op>)
    requires d.Valid() && d.stream != null && buffer != d.internalBuffer
    requires Fits(d.Snap(), s, origin) && s.last == d.extractLast && |s.buf| <= d.maxPacketSize
    requires request.Raw? && Fit(request, buffer.Length)
    modifies d`internalBufferSize, d.internalBuffer, buffer, d.listeners, d.stream, d.Clocks()
    ensures d.Valid()
    ensures Reached(d.protocol, d.maxPacketSize, s, origin, request, ops, d.Snap(), d.extractLast, answer)
    ensures Got(answer) <= buffer[..]
  {
    hide Fits, Reached, Passed, Pulling, FreshBytes, Obeys, Expired, Follow;
    ghost var was := d.Snap();
    var r;
    ghost var got, tr;
    r, got, tr := d.ReadRaw(buffer, request.outSize, request.packetTimeout, request.firstByteTimeout,
                            request.interByteTimeout);
    answer := if r.Size? then Handed(buffer[..r.size]) else Denied(r.error);
    ops := [ReadRaw(request.outSize, |got|, answer.Denied?)];
    RawReached(d.protocol, d.maxPacketSize, request, was, d.Snap(), got, s, origin, answer);
  }

  method PerformWrite(d: Driver, request: Request, ghost s: System, ghost origin: Origin)
    returns (answer: Answer, ghost ops: seq<Op>)
    requires d.Valid() && d.stream != null && request.Write?
    requires Fits(d.Snap(), s, origin) && s.last == d.extractLast && |s.buf| <= d.maxPacketSize
    modifies d`stats, d.listeners, d.stream, d.Clocks()
    ensures d.Valid()
    ensures Reached(d.protocol, d.maxPacketSize, s, origin, request, ops, d.Snap(), d.extractLast, answer)
  {
    hide Fits, Reached, Obeys, Follow, Driver.Heard, ToldWrite, Add32;
    ghost var was := d.Snap();
    var buffer := new byte[|request.data|];
    forall i | 0 <= i < |request.data| {
      buffer[i] := request.data[i];
    }
    assert buffer[..] == request.data;
    var failure;
    ghost var written, tr;
    failure, written, tr := d.WritePacket(buffer, buffer.Length, request.ms);
    answer := Sent(failure);
    ghost var data := request.data[..written];
    assert buffer[..written] == data;
    ops := [Op.Write(data, failure == None)];
    WriteReached(d.protocol, d.maxPacketSize, request, was, data, s, origin, answer);
  }

  method PerformClear(d: Driver, ghost s: System, ghost origin: Origin) returns (ghost ops: seq<Op>)
    requires d.Valid() && d.stream != null
    requires Fits(d.Snap(), s, origin) && s.last == d.extractLast && |s.buf| <= d.maxPacketSize
    modifies d`internalBufferSize, d.stream
    ensures d.Valid()
    ensures Reached(d.protocol, d.maxPacketSize, s, origin, Drop, ops, d.Snap(), d.extractLast, Acknowledged)
  {
    hide Fits, Reached, Driver.Heard;
    ghost var was := d.Snap();
    d.Clear();
    ops := [Clear(d.stream.dropsOnClear)];
    ClearReached(d.protocol, d.maxPacketSize, was, d.Snap(), d.stream.dropsOnClear, s, origin);
  }

  /** Requests that leave the buffer and the stream alone. */
  method PerformQuery(d: Driver, request: Request, ghost s: System, ghost origin: Origin)
    returns (answer: Answer, ghost ops: seq<Op>)
    requires d.Valid() && d.stream != null && !request.Packet? && !request.Raw? && !request.Write?
    requires !request.Drop?
    requires Fits(d.Snap(), s, origin) && s.last == d.extractLast && |s.buf| <= d.maxPacketSize
    modifies d`stats, d`extractLast
    ensures d.Valid()
    ensures Reached(d.protocol, d.maxPacketSize, s, origin, request, ops, d.Snap(), d.extractLast, answer)
  {
    hide Fits, Reached, HasPacket, Credit, Driver.Heard;
    ghost var was := d.Snap();
    answer := Acknowledged;
    if request.HasOne? {
      var found := d.HasPacket();
      answer, ops := Told(found), [Peek];
      PeekReached(d.protocol, d.maxPacketSize, was, d.Snap(), s, origin, answer);
    } else if request.Mode? {
      d.SetExtractLastPacket(request.extractLast);
      ops := [SetExtractLast(request.extractLast)];
      ModeReached(d.protocol, d.maxPacketSize, was, s, origin, request.extractLast);
    } else if request.Status? {
      var status := d.GetStatus();
      answer, ops := Reported(status), [GetStatus];
      StatusReached(d.protocol, d.maxPacketSize, was, d.Snap(), s, origin);
    } else {
      d.ResetStatus();
      ops := [ResetStatus];
      ResetReached(d.protocol, d.maxPacketSize, was, d.Snap(), s, origin);
    }
  }

  // Whole runs of a driver --------------------------------------------------------------------------

  lemma {:induction false} RunOn(f: Extractor, max: nat, s: System, ops: seq<Op>, more: seq<Op>)
    requires |s.buf| <= max
    ensures Run(f, max, s, ops + more) == Run(f, max, Run(f, max, s, ops), more)
    decreases |ops|
  {
    hide Step;
    if ops == [] {
      EmptySides(more);
    } else {
      assert (ops + more)[1..] == ops[1..] + more && (ops + more)[0] == ops[0];
      RunOn(f, max, Step(f, max, s, ops[0]), ops[1..], more);
    }
  }

  /** Where the steps of `log`, request by request, lead. */
  function After(p: Protocol, max: nat, s: System, log: seq<seq<Op>>): (s': System)
    requires |s.buf| <= max
    ensures |s'.buf| <= max
    decreases |log|
  {
    if log == [] then s
    else Run(p.extractPacket, max, After(p, max, s, log[..|log| - 1]), log[|log| - 1])
  }

  /** Each request was served by its steps, and answered by what they did. */
  ghost predicate Exchange(p: Protocol, max: nat, s: System, requests: seq<Request>, log: seq<seq<Op>>,
                           answers: seq<Answer>)
    requires |s.buf| <= max
    decreases |requests|
  {
    |requests| == |log| == |answers| &&
    (requests != [] ==>
     var n := |requests| - 1;
     var before := After(p, max, s, log[..n]);
     && Exchange(p, max, s, requests[..n], log[..n], answers[..n])
     && Performs(max, requests[n], log[n], answers[n])
     && Answers(p, before, Run(p.extractPacket, max, before, log[n]), requests[n], answers[n]))
  }

  /** A driver after an exchange. */
  ghost predicate Served(p: Protocol, max: nat, s: System, origin: Origin, requests: seq<Request>, log: seq<seq<Op>>,
                         answers: seq<Answer>, v: View, last: bool)
    requires |s.buf| <= max
  {
    Exchange(p, max, s, requests, log, answers) && Fits(v, After(p, max, s, log), origin)
    && After(p, max, s, log).last == last
  }

  lemma ServedNothing(p: Protocol, max: nat, s: System, origin: Origin, v: View)
    requires |s.buf| <= max && Fits(v, s, origin)
    ensures Served(p, max, s, origin, [], [], [], v, s.last)
  {
  }

  lemma ServedMore(p: Protocol, max: nat, s: System, origin: Origin, requests: seq<Request>, log: seq<seq<Op>>,
                   answers: seq<Answer>, mid: View, last: bool, request: Request, ops: seq<Op>, answer: Answer,
                   now: View, last': bool)
    requires |s.buf| <= max && Served(p, max, s, origin, requests, log, answers, mid, last)
    requires Reached(p, max, After(p, max, s, log), origin, request, ops, now, last', answer)
    ensures Served(p, max, s, origin, requests + [request], log + [ops], answers + [answer], now, last')
  {
    hide Fits, Run, Performs, Answers, After, Exchange;
    AfterMore(p, max, s, log, ops);
    ExchangeMore(p, max, s, requests, log, answers, request, ops, answer);
  }

  lemma AfterMore(p: Protocol, max: nat, s: System, log: seq<seq<Op>>, ops: seq<Op>)
    requires |s.buf| <= max
    ensures After(p, max, s, log + [ops]) == Run(p.extractPacket, max, After(p, max, s, log), ops)
  {
    hide Run;
    assert (log + [ops])[..|log|] == log;
  }

  lemma ExchangeMore(p: Protocol, max: nat, s: System, requests: seq<Request>, log: seq<seq<Op>>,
                     answers: seq<Answer>, request: Request, ops: seq<Op>, answer: Answer)
    requires |s.buf| <= max && Exchange(p, max, s, requests, log, answers) && Performs(max, request, ops, answer)
    requires var mid := After(p, max, s, log);
             Answers(p, mid, Run(p.extractPacket, max, mid, ops), request, answer)
    ensures Exchange(p, max, s, requests + [request], log + [ops], answers + [answer])
  {
    hide Run, Performs, Answers, After;
    assert (requests + [request])[..|requests|] == requests;
    assert (log + [ops])[..|log|] == log;
    assert (answers + [answer])[..|answers|] == answers;
  }

  /** Any requests, in any order, made of a driver that starts with an empty buffer and clear counters. */
  method Serve(d: Driver, requests: seq<Request>, buffer: array<byte>)
    returns (answers: seq<Answer>, ghost log: seq<seq<Op>>)
    requires d.Valid() && d.stream != null && buffer != d.internalBuffer
    requires d.Queued() == [] && d.stats == EMPTY_STATUS && forall r <- requests :: Fit(r, buffer.Length)
    modifies d`stats, d`internalBufferSize, d.internalBuffer, d`extractLast, buffer, d.listeners, d.stream, d.Clocks()
    ensures d.Valid()
    ensures Served(d.protocol, d.maxPacketSize, Start(old(d.extractLast), old(d.stream.pending)),
                   OriginOf(old(d.Snap())), requests, log, answers, d.Snap(), d.extractLast)
  {
    hide Fits, Reached, Served, Fit;
    ghost var s0, origin := Start(d.extractLast, d.stream.pending), OriginOf(d.Snap());
    StartFits(d.Snap(), d.extractLast);
    log, answers := [], [];
    ServedNothing(d.protocol, d.maxPacketSize, s0, origin, d.Snap());
    assert requests[..0] == [];
    for k := 0 to |requests|
      invariant d.Valid()
      invariant Served(d.protocol, d.maxPacketSize, s0, origin, requests[..k], log, answers, d.Snap(), d.extractLast)
    {
      assert requests[k] in requests;
      assert requests[..k + 1] == requests[..k] + [requests[k]];
      var answer;
      ghost var ops;
      answer, ops := ServeOne(d, requests[k], buffer, s0, origin, requests[..k], log, answers);
      log, answers := log + [ops], answers + [answer];
    }
    assert requests[..|requests|] == requests;
  }

  lemma StartFits(v: View, last: bool)
    requires v.queued == [] && v.stats == EMPTY_STATUS
    ensures Fits(v, Start(last, v.pending), OriginOf(v))
  {
    ToldBothNothing(v.heard);
  }

  method ServeOne(d: Driver, request: Request, buffer: array<byte>, ghost s0: System, ghost origin: Origin,
                  ghost requests: seq<Request>, ghost log: seq<seq<Op>>, ghost answers: seq<Answer>)
    returns (answer: Answer, ghost ops: seq<Op>)
    requires d.Valid() && d.stream != null && buffer != d.internalBuffer && Fit(request, buffer.Length)
    requires |s0.buf| <= d.maxPacketSize
    requires Served(d.protocol, d.maxPacketSize, s0, origin, requests, log, answers, d.Snap(), d.extractLast)
    modifies d`stats, d`internalBufferSize, d.internalBuffer, d`extractLast, buffer, d.listeners, d.stream, d.Clocks()
    ensures d.Valid()
    ensures Served(d.protocol, d.maxPacketSize, s0, origin, requests + [request], log + [ops], answers + [answer],
                   d.Snap(), d.extractLast)
  {
    hide Reached, Fit, Exchange, After, Fits;
    ghost var was, last, s1 := d.Snap(), d.extractLast, After(d.protocol, d.maxPacketSize, s0, log);
    if request.Packet? {
      answer, ops := PerformPacket(d, request, buffer, s1, origin);
    } else if request.Raw? {
      answer, ops := PerformRaw(d, request, buffer, s1, origin);
    } else if request.Write? {
      answer, ops := PerformWrite(d, request, s1, origin);
    } else if request.Drop? {
      ops := PerformClear(d, s1, origin);
      answer := Acknowledged;
    } else {
      answer, ops := PerformQuery(d, request, s1, origin);
    }
    ServedMore(d.protocol, d.maxPacketSize, s0, origin, requests, log, answers, was, last, request, ops, answer,
               d.Snap(), d.extractLast);
  }

  // What holds of a driver that was asked anything ----------------------------------------------------

  /** The bytes that the callers got, request by request. */
  function Gifts(answers: seq<Answer>): seq<Bytes> {
    if answers == [] then [] else Gifts(answers[..|answers| - 1]) + Gift(Got(answers[|answers| - 1]))
  }

  lemma {:induction false} AfterIsRun(p: Protocol, max: nat, s: System, log: seq<seq<Op>>)
    requires |s.buf| <= max
    ensures After(p, max, s, log) == Run(p.extractPacket, max, s, Flatten(log))
    decreases |log|
  {
    hide Run;
    if log == [] {
      RunNothing(p.extractPacket, max, s);
    } else {
      var n := |log| - 1;
      AfterIsRun(p, max, s, log[..n]);
      RunOn(p.extractPacket, max, s, Flatten(log[..n]), log[n]);
      FlattenAppend(log[..n], [log[n]]);
      FlattenOne(log[n]);
      assert log == log[..n] + [log[n]];
    }
  }

  lemma RunNothing(f: Extractor, max: nat, s: System)
    requires |s.buf| <= max
    ensures Run(f, max, s, []) == s
  {
  }

  lemma {:induction false} GiftsHanded(p: Protocol, max: nat, s: System, requests: seq<Request>, log: seq<seq<Op>>,
                                       answers: seq<Answer>)
    requires |s.buf| <= max && Exchange(p, max, s, requests, log, answers)
    ensures Payloads(After(p, max, s, log).handed) == Payloads(s.handed) + Gifts(answers)
    decreases |requests|
  {
    hide Run, Payloads, Performs, Hand;
    if requests == [] {
      EmptySides(Payloads(s.handed));
    } else {
      var n := |requests| - 1;
      GiftsHanded(p, max, s, requests[..n], log[..n], answers[..n]);
      var before := After(p, max, s, log[..n]);
      var at :| After(p, max, s, log).handed == Hand(before.handed, at, Got(answers[n]), true);
      PayloadsHand(before.handed, at, Got(answers[n]), true);
      Associate(Payloads(s.handed), Gifts(answers[..n]), Gift(Got(answers[n])));
    }
  }

  /** Every step of an exchange serves one of its requests. */
  predicate ServesSome(requests: seq<Request>, op: Op) {
    exists r <- requests :: Serves(r, op)
  }

  lemma LastServes(max: nat, requests: seq<Request>, n: nat, ops: seq<Op>, answer: Answer, op: Op)
    requires n < |requests| && Performs(max, requests[n], ops, answer) && op in ops
    ensures ServesSome(requests, op)
  {
    hide Serves;
    assert requests[n] in requests;
  }

  lemma EarlierServe(requests: seq<Request>, n: nat, op: Op)
    requires n <= |requests| && ServesSome(requests[..n], op)
    ensures ServesSome(requests, op)
  {
    hide Serves;
    var r :| r in requests[..n] && Serves(r, op);
    assert r in requests;
  }

  lemma {:induction false} StepsServe(p: Protocol, max: nat, s: System, requests: seq<Request>, log: seq<seq<Op>>,
                                      answers: seq<Answer>)
    requires |s.buf| <= max && Exchange(p, max, s, requests, log, answers)
    ensures forall op <- Flatten(log) :: ServesSome(requests, op)
    decreases |requests|
  {
    hide Run, Answers, Performs, ServesSome, Flatten;
    if requests == [] {
      FlattenNone<Op>();
    } else {
      var n := |requests| - 1;
      StepsServe(p, max, s, requests[..n], log[..n], answers[..n]);
      FlattenAppend(log[..n], [log[n]]);
      FlattenOne(log[n]);
      assert log == log[..n] + [log[n]];
      forall op | op in Flatten(log) ensures ServesSome(requests, op) {
        if op in log[n] {
          LastServes(max, requests, n, log[n], answers[n], op);
        } else {
          EarlierServe(requests, n, op);
        }
      }
    }
  }

  /** Requests that remove nothing from the buffer but packets and what the extractor discards. */
  predicate Plain(request: Request) {
    request.Packet? || request.HasOne? || request.Status? || request.Reset? || request.Write?
  }

  predicate AllPlain(requests: seq<Request>) {
    forall r <- requests :: Plain(r)
  }

  lemma PlainSteps(requests: seq<Request>, op: Op)
    requires AllPlain(requests) && ServesSome(requests, op)
    ensures ReadsPackets(op)
  {
  }

  /** The stream delivered `consumed` after `origin`, and all but the first `n` of it is queued; what the callers got
      are slices of those, one behind the other; and if the packets are `complete`, those the callers
      got and then those still queued are the packets of it. */
  ghost predicate Account(p: Protocol, v: View, origin: Bytes, gifts: seq<Bytes>, complete: bool, consumed: Bytes,
                          n: nat, slices: seq<Slice>)
  {
    && v.taken == origin + consumed && n <= |consumed| && v.queued == consumed[n..]
    && HandedInOrder(slices, consumed, n) && Payloads(slices) == gifts
    && (complete ==> Packets(p.extractPacket, consumed) == gifts + Packets(p.extractPacket, v.queued))
  }

  /** So, for a driver that was asked anything: its buffer holds the end of what it took from the stream, its callers
      got slices of the rest, in order and each once; and in first-packet mode with a resumable extractor,
      when only packets were asked for, no packet was lost, changed, repeated or put out of order. */
  lemma ServedInOrder(p: Protocol, max: nat, last: bool, pending: Bytes, origin: Origin, requests: seq<Request>,
                      log: seq<seq<Op>>, answers: seq<Answer>, v: View, last': bool)
    returns (consumed: Bytes, n: nat, slices: seq<Slice>)
    requires Served(p, max, Start(last, pending), origin, requests, log, answers, v, last')
    ensures |v.queued| <= max
    ensures Account(p, v, origin.taken, Gifts(answers), AllPlain(requests) && !last && Resumable(p.extractPacket),
                    consumed, n, slices)
  {
    hide Run, Resumable, Packets, Payloads, HandedInOrder, Exchange, After, Flatten, Gifts, AllPlain, ServesSome;
    var f, s, ops := p.extractPacket, Start(last, pending), Flatten(log);
    var s' := Run(f, max, s, ops);
    AfterIsRun(p, max, s, log);
    GiftsHanded(p, max, s, requests, log, answers);
    StartIsSound(max, last, pending);
    RunKeepsOrder(f, max, s, ops);
    NothingHanded();
    EmptySides(Gifts(answers));
    if AllPlain(requests) && !last && Resumable(f) {
      StepsServe(p, max, s, requests, log, answers);
      forall op | op in ops ensures ReadsPackets(op) {
        PlainSteps(requests, op);
      }
      StartAssembled(f, pending);
      RunReassembles(f, max, s, ops);
    }
    consumed, n, slices := s'.consumed, s'.removed, s'.handed;
  }

  lemma NothingHanded()
    ensures Payloads([]) == []
  {
  }

  predicate StaysInFirstMode(requests: seq<Request>) {
    forall r <- requests :: !(r.Mode? && r.extractLast)
  }

  lemma FirstModeSteps(requests: seq<Request>, op: Op)
    requires StaysInFirstMode(requests) && ServesSome(requests, op)
    ensures op.SetExtractLast? ==> !op.flag
  {
  }

  /** And its counters show, modulo 2^32, every byte it ever had, whatever was asked of it in first-packet mode: as
      good, bad, queued, or taken out by raw reads and clears, since the last reset. */
  lemma ServedConserves(p: Protocol, max: nat, pending: Bytes, origin: Origin, requests: seq<Request>,
                        log: seq<seq<Op>>, answers: seq<Answer>, v: View, last': bool)
    requires Served(p, max, Start(false, pending), origin, requests, log, answers, v, last')
    requires StaysInFirstMode(requests)
    ensures var s' := After(p, max, Start(false, pending), log);
            Wrap(v.stats.goodRx + v.stats.badRx + |v.queued| + s'.bypassed) == Wrap(s'.fed + s'.base)
  {
    hide Run, Wrap, Conserved, Exchange, After, Flatten, ServesSome, StaysInFirstMode, HandedInOrder;
    var s := Start(false, pending);
    AfterIsRun(p, max, s, log);
    StepsServe(p, max, s, requests, log, answers);
    forall op | op in Flatten(log) ensures op.SetExtractLast? ==> !op.flag {
      FirstModeSteps(requests, op);
    }
    StartIsSound(max, false, pending);
    RunConserves(p.extractPacket, max, s, Flatten(log));
  }

  /** Steps that take nothing out of the buffer uncounted, and do not clear the counters. */
  predicate CountsAll(op: Op) {
    !op.ReadRaw? && !op.Clear? && !op.ResetStatus?
  }

  lemma StepFeeds(f: Extractor, max: nat, s: System, op: Op)
    requires |s.buf| <= max && CountsAll(op)
    ensures var s' := Step(f, max, s, op);
            && s'.fed - |s'.consumed| == s.fed - |s.consumed| && s'.bypassed == s.bypassed && s'.base == s.base
  {
    hide ReadPacketInternal, ExtractQueued, HasPacket, InOrder;
    if op.Read? {
      ReadPacketInternalInOrder(f, s.last, max, s.buf, s.pending, op.replies, op.outSize);
    } else if op.ReadQueued? {
      QueuedInOrder(f, s.last, max, s.buf, s.pending);
    }
  }

  lemma {:induction false} RunFeeds(f: Extractor, max: nat, s: System, ops: seq<Op>)
    requires |s.buf| <= max && forall op <- ops :: CountsAll(op)
    ensures var s' := Run(f, max, s, ops);
            && s'.fed - |s'.consumed| == s.fed - |s.consumed| && s'.bypassed == s.bypassed && s'.base == s.base
    decreases |ops|
  {
    hide Step, CountsAll;
    if ops != [] {
      StepFeeds(f, max, s, ops[0]);
      RunFeeds(f, max, Step(f, max, s, ops[0]), ops[1..]);
    }
  }

  predicate NeverBypassed(requests: seq<Request>) {
    forall r <- requests :: !r.Raw? && !r.Drop? && !r.Reset?
  }

  lemma CountingSteps(requests: seq<Request>, op: Op)
    requires NeverBypassed(requests) && ServesSome(requests, op)
    ensures CountsAll(op)
  {
  }

  /** So without raw reads, clears and resets, the counters and the queue add up to all bytes that the driver took
      from its stream. */
  lemma ServedCountsAll(p: Protocol, max: nat, pending: Bytes, origin: Origin, requests: seq<Request>,
                        log: seq<seq<Op>>, answers: seq<Answer>, v: View, last': bool)
    requires Served(p, max, Start(false, pending), origin, requests, log, answers, v, last')
    requires StaysInFirstMode(requests) && NeverBypassed(requests)
    ensures |origin.taken| <= |v.taken|
    ensures Wrap(v.stats.goodRx + v.stats.badRx + |v.queued|) == Wrap(|v.taken| - |origin.taken|)
  {
    hide Run, Wrap, Exchange, After, Flatten, ServesSome, StaysInFirstMode, NeverBypassed, CountsAll;
    var s := Start(false, pending);
    ServedConserves(p, max, pending, origin, requests, log, answers, v, last');
    AfterIsRun(p, max, s, log);
    StepsServe(p, max, s, requests, log, answers);
    forall op | op in Flatten(log) ensures CountsAll(op) {
      CountingSteps(requests, op);
    }
    RunFeeds(p.extractPacket, max, s, Flatten(log));
  }

  predicate OnlyReads(requests: seq<Request>) {
    forall r <- requests :: r.Packet? || r.HasOne? || r.Write? || r.Mode? || r.Status?
  }

  lemma ReadingSteps(requests: seq<Request>, op: Op)
    requires OnlyReads(requests) && ServesSome(requests, op)
    ensures Reads(op)
  {
  }

  lemma RunGrows(f: Extractor, max: nat, s: System, ops: seq<Op>) returns (g: Growth)
    requires InBounds(f) && Resumable(f) && (forall op <- ops :: Reads(op)) && |s.buf| <= max
    requires s.buf == [] && s.consumed == [] && s.good == 0 && s.stats == EMPTY_STATUS && s.bad == 0
    ensures var s' := Run(f, max, s, ops);
            && s'.consumed == g.taken && Packets(f, g.taken) == g.gone + Packets(f, s'.buf)
            && s'.stats.goodRx == Wrap(Extraction.Size(g.gone) + g.seen)
            && Payloads(s'.handed) == Payloads(s.handed) + g.given && Subsequence(g.given, g.gone)
            && g.seen == SeenBy(f, max, s, ops)
  {
    hide Run, InBounds, Resumable, Packets, Subsequence, Carries, Extraction.Size, Payloads, SeenBy, Reads;
    AllAreCounted(f, max, s, ops);
    g := RunCountsPackets(f, max, s, ops);
    EmptySides(g.taken);
  }

  lemma NoQuerySteps(requests: seq<Request>, op: Op)
    requires (forall r <- requests :: !r.HasOne?) && ServesSome(requests, op)
    ensures !op.Peek?
  {
  }

  /** And in either mode, through any switches, good_rx is the size of the packets that left the buffer, returned or
      superseded, and of those that queries saw in extract-last mode: the former are the packets of the bytes taken
      that are not queued any more, of which the callers got some, in order. */
  lemma ServedCountsPackets(p: Protocol, max: nat, last: bool, pending: Bytes, origin: Origin, requests: seq<Request>,
                            log: seq<seq<Op>>, answers: seq<Answer>, v: View, last': bool)
    returns (consumed: Bytes, gone: seq<Bytes>, seen: nat)
    requires Served(p, max, Start(last, pending), origin, requests, log, answers, v, last')
    requires OnlyReads(requests) && InBounds(p.extractPacket) && Resumable(p.extractPacket)
    ensures v.taken == origin.taken + consumed
    ensures Packets(p.extractPacket, consumed) == gone + Packets(p.extractPacket, v.queued)
    ensures v.stats.goodRx == Wrap(Extraction.Size(gone) + seen) && Subsequence(Gifts(answers), gone)
    ensures seen == SeenBy(p.extractPacket, max, Start(last, pending), Flatten(log))
    ensures (forall r <- requests :: !r.HasOne?) ==> seen == 0
  {
    hide Run, Exchange, After, Flatten, ServesSome, OnlyReads, Reads, InBounds, Resumable, Packets, Gifts, Subsequence,
      Carries, Extraction.Size, Payloads, SeenBy, Serves;
    var f, s, ops := p.extractPacket, Start(last, pending), Flatten(log);
    AfterIsRun(p, max, s, log);
    StepsServe(p, max, s, requests, log, answers);
    forall op | op in ops ensures Reads(op) {
      ReadingSteps(requests, op);
    }
    var g := RunGrows(f, max, s, ops);
    GiftsHanded(p, max, s, requests, log, answers);
    NothingHanded();
    EmptySides(g.given);
    EmptySides(Gifts(answers));
    if forall r <- requests :: !r.HasOne? {
      forall op | op in ops ensures !op.Peek? {
        NoQuerySteps(requests, op);
      }
      SeesNothing(f, max, s, ops);
    }
    consumed, gone, seen := g.taken, g.gone, g.seen;
  }

  // Writing ---------------------------------------------------------------------------------------

  /** What the stream accepted of a request: all of a write that succeeded, the beginning of one that failed, and
      nothing of any other request. */
  predicate AcceptedOf(request: Request, answer: Answer, part: Bytes) {
    if request.Write? then answer.Sent? && part <= request.data && (answer.failure == None ==> part == request.data)
    else part == []
  }

  predicate AcceptedOfAll(requests: seq<Request>, answers: seq<Answer>, parts: seq<Bytes>) {
    && |parts| == |requests| == |answers|
    && forall i :: 0 <= i < |parts| ==> AcceptedOf(requests[i], answers[i], parts[i])
  }

  /** The bytes of the writes that succeeded. */
  function SentBytes(requests: seq<Request>, answers: seq<Answer>): nat
    requires |requests| == |answers|
  {
    if requests == [] then 0
    else
      var n := |requests| - 1;
      SentBytes(requests[..n], answers[..n]) + SentIn(requests[n], answers[n])
  }

  function SentIn(request: Request, answer: Answer): nat {
    if request.Write? && answer == Sent(None) then |request.data| else 0
  }

  predicate NeverReset(requests: seq<Request>) {
    forall r <- requests :: !r.Reset?
  }

  lemma StepWrites(f: Extractor, max: nat, s: System, op: Op)
    requires |s.buf| <= max && !op.Write?
    ensures var s' := Step(f, max, s, op); s'.written == s.written && (!op.ResetStatus? ==> s'.stats.tx == s.stats.tx)
  {
    hide ReadPacketInternal, ExtractQueued, HasPacket, FreshBytes, Add32;
  }

  lemma {:induction false} RunWrites(f: Extractor, max: nat, s: System, ops: seq<Op>)
    requires |s.buf| <= max && forall op <- ops :: !op.Write?
    ensures Run(f, max, s, ops).written == s.written
    ensures (forall op <- ops :: !op.ResetStatus?) ==> Run(f, max, s, ops).stats.tx == s.stats.tx
    decreases |ops|
  {
    hide Step;
    if ops != [] {
      assert ops[0] in ops;
      StepWrites(f, max, s, ops[0]);
      RunWrites(f, max, Step(f, max, s, ops[0]), ops[1..]);
    }
  }

  lemma RequestWrites(p: Protocol, max: nat, s: System, request: Request, ops: seq<Op>, answer: Answer)
    returns (part: Bytes)
    requires |s.buf| <= max && Performs(max, request, ops, answer)
    ensures AcceptedOf(request, answer, part)
    ensures var s' := Run(p.extractPacket, max, s, ops);
            && s'.written == s.written + part
            && (!request.Reset? ==> s'.stats.tx == Add32(s.stats.tx, SentIn(request, answer)))
  {
    if request.Write? {
      var op := ops[0];
      assert op in ops && Serves(request, op);
      assert ops == [op] && ops[1..] == [];
      AddTwice(s.stats.tx, 0, 0);
      part := op.data;
      hide Add32;
    } else {
      hide Add32, Run;
      forall op | op in ops ensures !op.Write? && (op.ResetStatus? ==> request.Reset?) {
        assert Serves(request, op);
      }
      RunWrites(p.extractPacket, max, s, ops);
      AddTwice(s.stats.tx, 0, 0);
      EmptySides(s.written);
      part := [];
    }
  }

  lemma AcceptedMore(requests: seq<Request>, answers: seq<Answer>, n: nat, init: seq<Bytes>, part: Bytes)
    requires |requests| == |answers| == n + 1 && AcceptedOfAll(requests[..n], answers[..n], init)
    requires AcceptedOf(requests[n], answers[n], part)
    ensures AcceptedOfAll(requests, answers, init + [part])
    ensures NeverReset(requests) ==> NeverReset(requests[..n]) && !requests[n].Reset?
  {
    hide AcceptedOf;
    forall i | 0 <= i <= n ensures AcceptedOf(requests[i], answers[i], (init + [part])[i]) {
      if i < n {
        assert AcceptedOf(requests[..n][i], answers[..n][i], init[i]);
      }
    }
  }

  lemma NothingAccepted()
    ensures AcceptedOfAll([], [], [])
  {
  }

  lemma {:induction false} ExchangeWrites(p: Protocol, max: nat, s: System, requests: seq<Request>, log: seq<seq<Op>>,
                                          answers: seq<Answer>)
    returns (parts: seq<Bytes>)
    requires |s.buf| <= max && Exchange(p, max, s, requests, log, answers)
    ensures AcceptedOfAll(requests, answers, parts)
    ensures After(p, max, s, log).written == s.written + Flatten(parts)
    ensures NeverReset(requests) ==> After(p, max, s, log).stats.tx == Add32(s.stats.tx, SentBytes(requests, answers))
    decreases |requests|
  {
    hide Run, Performs, Answers, Add32, SentIn, AcceptedOf, AcceptedOfAll, NeverReset, Flatten;
    if requests == [] {
      parts := [];
      NothingAccepted();
      FlattenNone<byte>();
      EmptySides(s.written);
      AddTwice(s.stats.tx, 0, 0);
    } else {
      var n := |requests| - 1;
      var before := After(p, max, s, log[..n]);
      var init := ExchangeWrites(p, max, s, requests[..n], log[..n], answers[..n]);
      var part := RequestWrites(p, max, before, requests[n], log[n], answers[n]);
      parts := init + [part];
      FlattenAppend(init, [part]);
      FlattenOne(part);
      Associate(s.written, Flatten(init), part);
      AddTwice(s.stats.tx, SentBytes(requests[..n], answers[..n]), SentIn(requests[n], answers[n]));
      AcceptedMore(requests, answers, n, init, part);
    }
  }

  /** So, whatever was asked of a driver, the stream accepted the data of the writes, request by request, in full if the
      write succeeded; each listener heard all that was taken from the stream and all that it accepted, in each
      direction once and in order, on top of what it had heard before; and tx shows the writes that succeeded. */
  lemma ServedIsHeard(p: Protocol, max: nat, last: bool, pending: Bytes, origin: Origin, requests: seq<Request>,
                      log: seq<seq<Op>>, answers: seq<Answer>, v: View, last': bool)
    returns (consumed: Bytes, parts: seq<Bytes>)
    requires Served(p, max, Start(last, pending), origin, requests, log, answers, v, last')
    ensures v.taken == origin.taken + consumed
    ensures v.accepted == origin.accepted + Flatten(parts) && AcceptedOfAll(requests, answers, parts)
    ensures v.heard.Keys == origin.heard.Keys
    ensures forall l <- v.heard :: v.heard[l].read == origin.heard[l].read + consumed
    ensures forall l <- v.heard :: v.heard[l].write == origin.heard[l].write + Flatten(parts)
    ensures NeverReset(requests) ==> v.stats.tx == Wrap(SentBytes(requests, answers))
  {
    hide Run, Exchange, After, Flatten, NeverReset, SentBytes, AcceptedOfAll;
    var s := Start(last, pending);
    parts := ExchangeWrites(p, max, s, requests, log, answers);
    EmptySides(Flatten(parts));
    consumed := After(p, max, s, log).consumed;
  }
}
