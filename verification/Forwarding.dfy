/**
 The two-way forwarder: bytes read from either driver are written to the other, through one shared
 buffer, whenever select says so.
 */
module Forwarding {
  import opened Extraction
  import opened Engine
  import opened Counters
  import opened Deadlines
  import opened Streams
  import opened RawReadings
  import opened Writing
  import opened Reassembly
  import opened Listeners
  import opened Protocols
  import opened Runs
  import opened PacketCounts
  import opened Handovers
  import opened Drivers

  /** One direction: what the source has queued, what it ever took from its stream, and what the
      stream on the other side ever accepted. */
  datatype Lane = Lane(queued: Bytes, taken: Bytes, accepted: Bytes)

  const NO_LANE := Lane([], [], [])

  ghost function LaneOf(from: Driver, to: Driver): Lane
    reads from, from.internalBuffer, from.stream, to, to.stream
    requires from.Valid() && from.stream != null && to.stream != null
  {
    Lane(from.Queued(), from.stream.taken, to.stream.accepted)
  }

  // One transfer --------------------------------------------------------------------------------

  /** One call: `got` was taken from the source's stream, `handed` was read from the source, and `sent`
      was written to the other side. */
  predicate Moves(l: Lane, l': Lane, got: Bytes, handed: Bytes, sent: Bytes) {
    l'.taken == l.taken + got && l'.accepted == l.accepted + sent && sent <= handed
  }

  /** In raw mode what is read is what was queued first. */
  predicate RawMoves(l: Lane, l': Lane, got: Bytes, handed: Bytes, sent: Bytes) {
    Moves(l, l', got, handed, sent) && handed + l'.queued == l.queued + got
  }

  /** In packet mode it is one packet, or nothing; and nothing if the read raised an error. */
  ghost predicate PacketMoves(f: Extractor, last: bool, l: Lane, l': Lane, got: Bytes, handed: Bytes, sent: Bytes,
                              failed: bool) {
    && Moves(l, l', got, handed, sent)
    && (if failed then handed == [] && Kept(f, last, l.queued + got, l'.queued)
        else Handover(f, last, l.queued + got, handed, l'.queued))
  }

  ghost predicate Transfers(raw: bool, f: Extractor, last: bool, l: Lane, l': Lane, got: Bytes, handed: Bytes,
                            sent: Bytes, failed: bool) {
    if raw then RawMoves(l, l', got, handed, sent) else PacketMoves(f, last, l, l', got, handed, sent, failed)
  }

  lemma RawReadMoves(l: Lane, l': Lane, n: nat, got: Bytes)
    requires n <= |l.queued| && (got != [] ==> n == |l.queued|)
    requires l'.queued == l.queued[n..] && l'.taken == l.taken + got && l'.accepted == l.accepted
    ensures RawMoves(l, l', got, l.queued[..n] + got, [])
  {
  }

  /** A write after a read. */
  lemma WriteMoves(raw: bool, f: Extractor, last: bool, l: Lane, mid: Lane, got: Bytes, handed: Bytes, sent: Bytes)
    requires Transfers(raw, f, last, l, mid, got, handed, [], false) && sent <= handed
    ensures Transfers(raw, f, last, l, mid.(accepted := mid.accepted + sent), got, handed, sent, false)
  {
    EmptySides(l.accepted);
    hide Handover, Kept;
  }

  // Many transfers ------------------------------------------------------------------------------

  predicate Grown(a: Bytes, b: Bytes) {
    a <= b
  }

  function Since(a: Bytes, b: Bytes): Bytes
    requires Grown(a, b)
  {
    b[|a|..]
  }

  lemma SinceSum(a: Bytes, b: Bytes, more: Bytes)
    requires Grown(a, b)
    ensures Grown(a, b + more) && Since(a, b + more) == Since(a, b) + more
  {
  }

  /** Raw mode: what was accepted since `l0` is what was queued then and taken since, in order, as far as
      it is not queued now; all of it unless an error interrupted the transfer. */
  predicate Relayed(l0: Lane, l: Lane, interrupted: bool) {
    && Grown(l0.taken, l.taken) && Grown(l0.accepted, l.accepted)
    && var sent, all := Since(l0.accepted, l.accepted), l0.queued + Since(l0.taken, l.taken);
       if interrupted then sent <= all else sent + l.queued == all
  }

  lemma RelayStart(l: Lane)
    ensures Relayed(l, l, false)
  {
  }

  lemma RelayMore(l0: Lane, l: Lane, l': Lane, got: Bytes, handed: Bytes, sent: Bytes)
    requires Relayed(l0, l, false) && RawMoves(l, l', got, handed, sent)
    ensures Relayed(l0, l', sent != handed)
  {
    hide Grown, Since;
    var before, taken := Since(l0.accepted, l.accepted), Since(l0.taken, l.taken);
    SinceSum(l0.taken, l.taken, got);
    SinceSum(l0.accepted, l.accepted, sent);
    Associate(l0.queued, taken, got);
    Associate(before, l.queued, got);
    Associate(before, handed, l'.queued);
    if sent != handed {
      PrefixExtends(before, sent, handed, l'.queued);
    }
  }

  lemma PrefixExtends(a: Bytes, b: Bytes, c: Bytes, d: Bytes)
    requires b <= c
    ensures a + b <= a + c + d
  {
  }

  /** What was forwarded in one direction in packet mode: the packets, as slices of the bytes queued at the start and
      taken since; the packets that left the queue, which in extract-last mode include those superseded;
      whether the last write was cut short, or the last read failed; and how many reads did not fail,
      of which the latest handed over `latest` bytes. */
  datatype Log = Log(slices: seq<Slice>, gone: seq<Bytes>, cut: bool, failed: bool, transfers: nat, latest: nat)

  const EMPTY_LOG := Log([], [], false, false, 0, 0)

  /** For a resumable extractor: the packets forwarded are packets of `all` in order, in first-packet mode
      each of them, and in extract-last mode all packets are gone once a transfer is complete; the others are still
      to be found in what is queued, unless extract-last mode lost one to an error. */
  ghost predicate Orderly(f: Extractor, last: bool, all: Bytes, queued: Bytes, log: Log) {
    && Subsequence(Payloads(log.slices), log.gone) && (!last ==> log.gone == Payloads(log.slices))
    && (if last && log.failed then Prefix(log.gone, Packets(f, all)) else Carries(f, all, log.gone, queued))
    && (last && log.transfers > 0 && !log.failed ==> log.gone == Packets(f, all))
  }

  /** What was accepted are the packets, except that the last one may be cut short. */
  predicate Accepted(sent: Bytes, log: Log) {
    if log.cut then sent <= Flatten(Payloads(log.slices)) else sent == Flatten(Payloads(log.slices))
  }

  /** The slices of `all` are one behind the other, and what is queued is behind them. */
  predicate InPlace(slices: seq<Slice>, all: Bytes, queued: Bytes) {
    && |queued| <= |all| && queued == all[|all| - |queued|..]
    && HandedInOrder(slices, all, |all| - |queued|)
  }

  ghost predicate Sliced(f: Extractor, last: bool, all: Bytes, queued: Bytes, log: Log) {
    && InPlace(log.slices, all, queued)
    && (Resumable(f) ==> Orderly(f, last, all, queued, log))
  }

  /** Packet mode, for any extractor: the packets accepted are slices of the bytes queued at the start and taken
      since. */
  ghost predicate Packeted(f: Extractor, last: bool, l0: Lane, l: Lane, log: Log) {
    && Grown(l0.taken, l.taken) && Grown(l0.accepted, l.accepted)
    && Accepted(Since(l0.accepted, l.accepted), log)
    && Sliced(f, last, l0.queued + Since(l0.taken, l.taken), l.queued, log)
  }

  lemma PacketStart(f: Extractor, last: bool, l: Lane)
    ensures Packeted(f, last, l, l, EMPTY_LOG)
  {
    hide Resumable, Carries;
    assert Since(l.accepted, l.accepted) == [] && Since(l.taken, l.taken) == [];
    EmptySides(l.queued);
    CarriesItself(f, l.queued);
  }

  lemma GiftFlat(ps: seq<Bytes>, handed: Bytes)
    ensures Flatten(ps + Gift(handed)) == Flatten(ps) + handed
  {
    FlattenAppend(ps, Gift(handed));
    if handed != [] {
      assert Flatten([handed]) == handed + Flatten([handed][1..]);
    }
  }

  /** A packet read adds a slice behind the others. */
  lemma SliceMore(slices: seq<Slice>, all: Bytes, queued: Bytes, got: Bytes, at: nat, handed: Bytes, rest: Bytes)
    returns (slices': seq<Slice>)
    requires InPlace(slices, all, queued) && CutOut(queued + got, at, handed, rest)
    ensures InPlace(slices', all + got, rest) && Payloads(slices') == Payloads(slices) + Gift(handed)
  {
    hide HandedInOrder, Hand, Payloads, Gift;
    var r, dropped := |all| - |queued|, |queued + got| - |rest|;
    SeenFromStream(all, r, got, at, |handed|);
    SeenFromStream(all, r, got, dropped, 0);
    HandedAdvances(slices, all, r, got, dropped, at, handed, true);
    PayloadsHand(slices, r + at, handed, true);
    slices' := Hand(slices, r + at, handed, true);
  }

  lemma OrderlyMore(f: Extractor, last: bool, all: Bytes, queued: Bytes, log: Log, got: Bytes, handed: Bytes,
                    rest: Bytes, slices: seq<Slice>, cut: bool)
    requires Resumable(f) && Orderly(f, last, all, queued, log) && !log.failed
    requires Handover(f, last, queued + got, handed, rest) && Payloads(slices) == Payloads(log.slices) + Gift(handed)
    ensures Orderly(f, last, all + got, rest,
                    Logged(f, last, queued + got, log, slices, handed, cut, false))
  {
    hide Resumable, Carries, Packets, Payloads, Subsequence, CutOut, LastOf;
    var gone := Removed(f, last, queued + got, handed);
    CarriesOn(f, all, log.gone, queued, got);
    CarriesTrans(f, all + got, log.gone, queued + got, gone, rest);
    LastIsSubsequence(Packets(f, queued + got));
    SubsequenceOfItself(Gift(handed));
    SubsequenceSum(Payloads(log.slices), log.gone, Gift(handed), gone);
    CarriesNow(f, all + got, log.gone, queued + got);
  }

  lemma OrderlyFailed(f: Extractor, last: bool, all: Bytes, queued: Bytes, log: Log, got: Bytes, rest: Bytes,
                      slices: seq<Slice>)
    requires Resumable(f) && Orderly(f, last, all, queued, log) && !log.failed
    requires Kept(f, last, queued + got, rest) && Payloads(slices) == Payloads(log.slices)
    ensures Orderly(f, last, all + got, rest, Logged(f, last, queued + got, log, slices, [], false, true))
  {
    hide Resumable, Carries, Packets, Payloads, Subsequence, CutOut;
    CarriesOn(f, all, log.gone, queued, got);
    CarriesNow(f, all + got, log.gone, queued + got);
    PrefixOfSum(log.gone, Packets(f, queued + got));
    if !last {
      CarriesTrans(f, all + got, log.gone, queued + got, [], rest);
      EmptySides(log.gone);
    }
  }

  /** The log after a transfer. */
  function Logged(f: Extractor, last: bool, whole: Bytes, log: Log, slices: seq<Slice>, handed: Bytes, cut: bool,
                  failed: bool): Log
  {
    if failed then Log(slices, log.gone, cut, true, log.transfers, log.latest)
    else Log(slices, log.gone + Removed(f, last, whole, handed), cut, false, log.transfers + 1, |handed|)
  }

  lemma IsCutOut(f: Extractor, last: bool, whole: Bytes, handed: Bytes, rest: Bytes, failed: bool) returns (at: nat)
    requires if failed then handed == [] && Kept(f, last, whole, rest) else Handover(f, last, whole, handed, rest)
    ensures CutOut(whole, at, handed, rest)
  {
    hide Resumable, CutOut, Delivers, Carries;
    assert exists at :: CutOut(whole, at, handed, rest);
    at :| CutOut(whole, at, handed, rest);
  }

  lemma SlicedMore(f: Extractor, last: bool, all: Bytes, queued: Bytes, log: Log, got: Bytes, handed: Bytes,
                   rest: Bytes, cut: bool, failed: bool)
    returns (slices: seq<Slice>)
    requires Sliced(f, last, all, queued, log) && !log.failed && (failed ==> handed == [] && !cut)
    requires if failed then Kept(f, last, queued + got, rest) else Handover(f, last, queued + got, handed, rest)
    ensures Sliced(f, last, all + got, rest, Logged(f, last, queued + got, log, slices, handed, cut, failed))
    ensures Payloads(slices) == Payloads(log.slices) + Gift(handed)
  {
    hide Resumable, InPlace, CutOut, Payloads, Gift, Orderly, Handover, Kept, Removed;
    var at := IsCutOut(f, last, queued + got, handed, rest, failed);
    slices := SliceMore(log.slices, all, queued, got, at, handed, rest);
    NoGift(Payloads(log.slices));
    if Resumable(f) {
      if failed {
        OrderlyFailed(f, last, all, queued, log, got, rest, slices);
      } else {
        OrderlyMore(f, last, all, queued, log, got, handed, rest, slices, cut);
      }
    }
  }

  lemma AcceptedMore(before: Bytes, log: Log, handed: Bytes, sent: Bytes, log': Log)
    requires Accepted(before, log) && !log.cut && sent <= handed
    requires Payloads(log'.slices) == Payloads(log.slices) + Gift(handed) && log'.cut == (sent != handed)
    ensures Accepted(before + sent, log')
  {
    hide Flatten, Payloads, Gift;
    GiftFlat(Payloads(log.slices), handed);
    PrefixExtends(before, sent, handed, []);
    EmptySides(before + handed);
  }

  lemma PacketMore(f: Extractor, last: bool, l0: Lane, l: Lane, l': Lane, log: Log, got: Bytes, handed: Bytes,
                   sent: Bytes, failed: bool)
    returns (log': Log)
    requires Packeted(f, last, l0, l, log) && !log.cut && !log.failed
    requires PacketMoves(f, last, l, l', got, handed, sent, failed)
    ensures Packeted(f, last, l0, l', log')
    ensures log'.cut == (sent != handed) && log'.failed == failed
    ensures log'.transfers == log.transfers + if failed then 0 else 1
    ensures !failed ==> log'.latest == |handed|
  {
    hide Grown, Since, Accepted, Sliced, Handover, Kept, Removed, Payloads, Gift;
    SinceSum(l0.taken, l.taken, got);
    SinceSum(l0.accepted, l.accepted, sent);
    Associate(l0.queued, Since(l0.taken, l.taken), got);
    var slices := SlicedMore(f, last, l0.queued + Since(l0.taken, l.taken), l.queued, log, got, handed, l'.queued,
                             sent != handed, failed);
    log' := Logged(f, last, l.queued + got, log, slices, handed, sent != handed, failed);
    AcceptedMore(Since(l0.accepted, l.accepted), log, handed, sent, log');
  }

  lemma NoGift(ps: seq<Bytes>)
    ensures ps + Gift([]) == ps
  {
  }

  /** The statement for the whole run of a forwarder, in one direction. */
  ghost predicate Forwarded(raw: bool, f: Extractor, last: bool, l0: Lane, l: Lane, log: Log) {
    if raw then Relayed(l0, l, log.cut) else Packeted(f, last, l0, l, log)
  }

  lemma ForwardStart(raw: bool, f: Extractor, last: bool, l: Lane)
    ensures Forwarded(raw, f, last, l, l, EMPTY_LOG)
  {
    RelayStart(l);
    PacketStart(f, last, l);
    hide Relayed, Packeted;
  }

  lemma ForwardMore(raw: bool, f: Extractor, last: bool, l0: Lane, l: Lane, l': Lane, log: Log, got: Bytes,
                    handed: Bytes, sent: Bytes, failed: bool)
    returns (log': Log)
    requires Forwarded(raw, f, last, l0, l, log) && !log.cut && !log.failed
    requires Transfers(raw, f, last, l, l', got, handed, sent, failed)
    ensures Forwarded(raw, f, last, l0, l', log')
    ensures log'.cut == (sent != handed) && log'.failed == failed
    ensures log'.transfers == log.transfers + if failed then 0 else 1
    ensures !failed ==> log'.latest == |handed|
  {
    hide Relayed, Packeted, RawMoves, PacketMoves;
    if raw {
      RelayMore(l0, l, l', got, handed, sent);
      log' := Log([], [], sent != handed, failed, log.transfers + if failed then 0 else 1, |handed|);
    } else {
      log' := PacketMore(f, last, l0, l, l', log, got, handed, sent, failed);
    }
  }

  // Passages ------------------------------------------------------------------------------------

  /** One transfer as seen from outside: the room its read had for bytes from the stream, how it ended, what was
      observed of it, and the driver between its internal calls; and the same of its write, if there was
      one. */
  datatype Passage = Passage(room: nat, reading: ReadState, readEvents: seq<Event>, visits: seq<View>,
                             writing: Option<Error>, writeEvents: seq<Event>)

  /** The rule of a read with room for `room` more bytes from the stream. */
  function ReadRule(raw: bool, timeout: int, room: nat): Rule {
    if raw then RawRuleOf(timeout, timeout, 0, room) else PacketRule(timeout, timeout)
  }

  /** The error of a transfer: that of its read, unless it is a timeout, or else that of its write. */
  function Trouble(pass: Passage): Option<Error> {
    if pass.reading.Error? && !pass.reading.error.Timeout? then Some(pass.reading.error) else pass.writing
  }

  /** Something was read that can be written. */
  predicate Brought(reading: ReadState) {
    reading.Size? && reading.size > 0
  }

  /** The read kept to its deadlines, and failed exactly if its stream did, or, in packet mode, in a length error. */
  predicate ReadInTime(raw: bool, timeout: int, room: nat, reading: ReadState, readEvents: seq<Event>) {
    && Obeys(ReadRule(raw, timeout, room), readEvents) && Follow(readEvents).fault == FaultOf(Problem(reading))
    && (raw ==> reading.Error? ==> reading.error.Unix?)
    && (Follow(readEvents).unanswered ==> reading.Size? || reading.error.Timeout?)
  }

  /** And what was read was written, within the write timeout. */
  predicate InTime(raw: bool, timeout: int, writeTimeout: int, pass: Passage) {
    && ReadInTime(raw, timeout, pass.room, pass.reading, pass.readEvents)
    && (if Brought(pass.reading) then
          && Obeys(WriteRule(writeTimeout, pass.reading.size), pass.writeEvents)
          && WriteEnds(writeTimeout, Follow(pass.writeEvents), pass.writing)
        else pass.writeEvents == [] && pass.writing == None)
  }

  /** In packet mode the read ended as its last internal call, or the wait after it, did. */
  ghost predicate ReadConcludes(p: Protocol, last: bool, max: nat, room: nat, was: View, now: View, reading: ReadState,
                                visits: seq<View>, handed: Bytes) {
    if room < max then reading == Error(ProvidedBufferTooSmall)
    else
      && |visits| > 1 && Visits(p, last, max, room, was, now, visits, handed)
      && Concludes(LastCall(p, last, max, room, visits), reading)
  }

  /** The transfers in one direction: all were in time, and all but perhaps the last were without an error. */
  predicate AllInTime(raw: bool, timeout: int, writeTimeout: int, passes: seq<Passage>) {
    forall i :: 0 <= i < |passes| ==>
      InTime(raw, timeout, writeTimeout, passes[i]) && (i < |passes| - 1 ==> Trouble(passes[i]) == None)
  }

  function LastTrouble(passes: seq<Passage>): Option<Error> {
    if passes == [] then None else Trouble(passes[|passes| - 1])
  }

  lemma PassInTime(raw: bool, timeout: int, writeTimeout: int, pass: Passage)
    requires ReadInTime(raw, timeout, pass.room, pass.reading, pass.readEvents)
    ensures !Brought(pass.reading) && pass.writeEvents == [] && pass.writing == None ==>
              InTime(raw, timeout, writeTimeout, pass)
    ensures Brought(pass.reading) ==> Obeys(WriteRule(writeTimeout, pass.reading.size), pass.writeEvents) ==>
              WriteEnds(writeTimeout, Follow(pass.writeEvents), pass.writing) ==>
              InTime(raw, timeout, writeTimeout, pass)
  {
  }

  lemma NothingInTime(raw: bool, timeout: int, writeTimeout1: int, writeTimeout2: int)
    ensures AllInTime(raw, timeout, writeTimeout1, []) && AllInTime(raw, timeout, writeTimeout2, [])
    ensures LastTrouble([]) == None
  {
  }

  lemma OneMorePass(raw: bool, timeout: int, writeTimeout: int, passes: seq<Passage>, pass: Passage)
    requires AllInTime(raw, timeout, writeTimeout, passes) && LastTrouble(passes) == None
    requires InTime(raw, timeout, writeTimeout, pass)
    ensures AllInTime(raw, timeout, writeTimeout, passes + [pass]) && LastTrouble(passes + [pass]) == Trouble(pass)
  {
    hide InTime, Trouble;
  }

  // The forwarder -------------------------------------------------------------------------------

  /** Two drivers that share nothing but possibly clocks and listeners, and the shared buffer. */
  ghost predicate Apart(a: Driver, b: Driver, buffer: array<byte>)
    reads a, b
  {
    && a.Valid() && b.Valid() && a != b && a.internalBuffer != b.internalBuffer
    && buffer != a.internalBuffer && buffer != b.internalBuffer
    && a.stream != null && b.stream != null && a.stream != b.stream
  }

  /** A transfer of `size` bytes does not stop early: what stays queued did not fit the buffer, or, if nothing was
      transferred, holds no packet. */
  ghost predicate Drained(raw: bool, f: Extractor, queued: Bytes, size: nat, room: nat) {
    if raw then queued == [] || size == room else size > 0 || NoneLeft(f, queued)
  }

  method ReadRawForForward(from: Driver, ghost to: Driver, buffer: array<byte>, timeout: int)
    returns (outcome: ReadState, ghost got: Bytes, ghost handed: Bytes, ghost tr: seq<Event>)
    requires Apart(from, to, buffer)
    modifies from`internalBufferSize, from.internalBuffer, buffer, from.listeners, from.stream, from.Clocks()
    ensures Apart(from, to, buffer)
    ensures RawMoves(old(LaneOf(from, to)), LaneOf(from, to), got, handed, [])
    ensures LaneOf(to, from) == old(LaneOf(to, from))
    ensures outcome.Size? ==> outcome.size <= buffer.Length && handed == buffer[..outcome.size]
    ensures outcome.Error? ==> !outcome.error.Timeout?
    ensures outcome.Size? ==> from.Queued() == [] || outcome.size == buffer.Length
    ensures from.stream.clock.trace == old(from.stream.clock.trace) + tr
    ensures ReadInTime(true, timeout, buffer.Length - Pulled(old(from.Queued()), buffer.Length), outcome, tr)
  {
    hide RawMoves, Obeys, Follow, Expired, ToldRead;
    ghost var l, n := LaneOf(from, to), Pulled(from.Queued(), buffer.Length);
    outcome, got, tr := from.ReadRaw(buffer, buffer.Length, timeout, timeout, 0);
    handed := l.queued[..n] + got;
    RawReadMoves(l, LaneOf(from, to), n, got);
  }

  method ReadPacketForForward(from: Driver, ghost to: Driver, buffer: array<byte>, timeout: int)
    returns (outcome: ReadState, ghost got: Bytes, ghost handed: Bytes, ghost failed: bool, ghost visits: seq<View>,
             ghost tr: seq<Event>)
    requires Apart(from, to, buffer)
    modifies from`stats, from`internalBufferSize, from.internalBuffer, buffer, from.listeners, from.stream,
      from.Clocks()
    ensures Apart(from, to, buffer)
    ensures PacketMoves(from.protocol.extractPacket, from.extractLast, old(LaneOf(from, to)), LaneOf(from, to),
                        got, handed, [], failed)
    ensures LaneOf(to, from) == old(LaneOf(to, from))
    ensures failed == (outcome.Error? && !outcome.error.Timeout?)
    ensures outcome.Size? ==> 0 < outcome.size <= buffer.Length && handed == buffer[..outcome.size]
    ensures outcome.Error? && outcome.error.Timeout? ==>
      handed == [] && NoneLeft(from.protocol.extractPacket, from.Queued())
    ensures from.stream.clock.trace == old(from.stream.clock.trace) + tr
    ensures ReadInTime(false, timeout, buffer.Length - Pulled(old(from.Queued()), buffer.Length), outcome, tr)
    ensures ReadConcludes(from.protocol, from.extractLast, from.maxPacketSize, buffer.Length, old(from.Snap()),
                          from.Snap(), outcome, visits, handed)
  {
    hide Handover, Kept, NoneLeft, Protocol.ExtractQueued, Visits, Obeys, Expired, Follow, Concludes, LastCall;
    ghost var taken, was := from.stream.taken, from.Queued();
    KeptAsIs(from.protocol.extractPacket, from.extractLast, was);
    EmptySides(was);
    outcome, visits, tr := from.ReadPacket(buffer, buffer.Length, timeout, timeout);
    got := from.stream.taken[|taken|..];
    handed := if outcome.Size? then buffer[..outcome.size] else [];
    failed := outcome.Error? && !outcome.error.Timeout?;
    if outcome.Error? && outcome.error.Timeout? {
      NothingHandedLeavesNone(from.protocol.extractPacket, from.extractLast, was + got, from.Queued());
    }
    EmptySides(to.stream.accepted);
  }

  /** The reading half of a transfer.  The timeouts of the read are not errors; the others are. */
  method ReadForForward(raw: bool, from: Driver, ghost to: Driver, buffer: array<byte>, timeout: int)
    returns (r: Result, ghost got: Bytes, ghost handed: Bytes, ghost outcome: ReadState, ghost visits: seq<View>,
             ghost tr: seq<Event>)
    requires Apart(from, to, buffer)
    modifies from`stats, from`internalBufferSize, from.internalBuffer, buffer, from.listeners, from.stream,
      from.Clocks()
    ensures Apart(from, to, buffer)
    ensures Transfers(raw, from.protocol.extractPacket, from.extractLast, old(LaneOf(from, to)), LaneOf(from, to),
                      got, handed, [], r.Broke?)
    ensures LaneOf(to, from) == old(LaneOf(to, from))
    ensures r.Done? ==> r.size <= buffer.Length && handed == buffer[..r.size]
    ensures r == if outcome.Size? then Done(outcome.size)
                 else if outcome.error.Timeout? then Done(0) else Broke(outcome.error)
    ensures from.stream.clock.trace == old(from.stream.clock.trace) + tr
    ensures ReadInTime(raw, timeout, buffer.Length - Pulled(old(from.Queued()), buffer.Length), outcome, tr)
    ensures !raw ==> ReadConcludes(from.protocol, from.extractLast, from.maxPacketSize, buffer.Length, old(from.Snap()),
                                   from.Snap(), outcome, visits, handed)
    ensures r.Done? ==> Drained(raw, from.protocol.extractPacket, from.Queued(), r.size, buffer.Length)
  {
    hide RawMoves, PacketMoves, LaneOf, NoneLeft, ReadInTime, ReadConcludes, Driver.Snap;
    var read;
    visits := [];
    if raw {
      read, got, handed, tr := ReadRawForForward(from, to, buffer, timeout);
    } else {
      ghost var failed;
      read, got, handed, failed, visits, tr := ReadPacketForForward(from, to, buffer, timeout);
    }
    outcome := read;
    r := if read.Size? then Done(read.size)
      else if read.error.Timeout? then Done(0)
      else Broke(read.error);
  }

  /** What was observed of a transfer is what the clocks of the two streams saw, which may be one. */
  predicate Observed(same: bool, was: seq<Event>, now: seq<Event>, was': seq<Event>, now': seq<Event>, pass: Passage) {
    && now == was + pass.readEvents + (if same then pass.writeEvents else [])
    && now' == was' + (if same then pass.readEvents else []) + pass.writeEvents
  }

  lemma ObservedRead(same: bool, was: seq<Event>, now: seq<Event>, was': seq<Event>, now': seq<Event>, pass: Passage)
    requires now == was + pass.readEvents && pass.writeEvents == []
    requires if same then was' == was && now' == now else now' == was'
    ensures Observed(same, was, now, was', now', pass)
  {
  }

  lemma ObservedWrite(same: bool, was: seq<Event>, mid: seq<Event>, now: seq<Event>, was': seq<Event>,
                      mid': seq<Event>, now': seq<Event>, pass: Passage)
    requires Observed(same, was, mid, was', mid', pass.(writeEvents := []))
    requires now' == mid' + pass.writeEvents && if same then was' == was && mid' == mid && now' == now else now == mid
    ensures Observed(same, was, now, was', now', pass)
  {
  }

  /** The writing half of a transfer. */
  method WriteForForward(ghost from: Driver, to: Driver, buffer: array<byte>, size: nat, writeTimeout: int)
    returns (failure: Option<Error>, ghost sent: Bytes, ghost tr: seq<Event>)
    requires Apart(from, to, buffer) && 0 < size <= buffer.Length
    modifies to`stats, to.stream, to.Clocks(), to.listeners
    ensures Apart(from, to, buffer) && from.Queued() == old(from.Queued())
    ensures sent <= buffer[..size] && (failure == None <==> sent == buffer[..size])
    ensures LaneOf(from, to) == old(LaneOf(from, to)).(accepted := old(LaneOf(from, to)).accepted + sent)
    ensures LaneOf(to, from) == old(LaneOf(to, from))
    ensures to.stream.clock.trace == old(to.stream.clock.trace) + tr
    ensures from.stream.clock != to.stream.clock ==> from.stream.clock.trace == old(from.stream.clock.trace)
    ensures Obeys(WriteRule(writeTimeout, size), tr) && WriteEnds(writeTimeout, Follow(tr), failure)
  {
    hide Obeys, Follow, Add32, ToldWrite, WriteEnds;
    ghost var written;
    failure, written, tr := to.WritePacket(buffer, size, writeTimeout);
    sent := buffer[..written];
  }

  /** One transfer; `failed` tells that it was its read that raised an error. */
  method ForwardData(raw: bool, from: Driver, to: Driver, buffer: array<byte>, timeout: int, writeTimeout: int)
    returns (r: Result, ghost got: Bytes, ghost handed: Bytes, ghost sent: Bytes, ghost failed: bool,
             ghost pass: Passage)
    requires Apart(from, to, buffer)
    modifies from`stats, from`internalBufferSize, from.internalBuffer, buffer, from.listeners, from.stream,
      from.Clocks(), to`stats, to.stream, to.Clocks(), to.listeners
    ensures Apart(from, to, buffer)
    ensures Transfers(raw, from.protocol.extractPacket, from.extractLast, old(LaneOf(from, to)), LaneOf(from, to),
                      got, handed, sent, failed)
    ensures LaneOf(to, from) == old(LaneOf(to, from))
    ensures r.Done? ==> r.size == |handed|
    ensures r.Done? <==> !failed && sent == handed
    ensures InTime(raw, timeout, writeTimeout, pass)
    ensures pass.room == buffer.Length - Pulled(old(from.Queued()), buffer.Length)
    ensures if Trouble(pass).Some? then r == Broke(Trouble(pass).value) else r.Done?
    ensures Observed(from.stream.clock == to.stream.clock, old(from.stream.clock.trace), from.stream.clock.trace,
                     old(to.stream.clock.trace), to.stream.clock.trace, pass)
    ensures !raw && !Brought(pass.reading) ==>
      ReadConcludes(from.protocol, from.extractLast, from.maxPacketSize, buffer.Length, old(from.Snap()), from.Snap(),
                    pass.reading, pass.visits, handed)
    ensures !failed ==> Drained(raw, from.protocol.extractPacket, from.Queued(), |handed|, buffer.Length)
  {
    hide Drained, Transfers, Obeys, Follow, ReadInTime, ReadConcludes, WriteEnds, Observed, Driver.Snap, LaneOf,
      Driver.Queued, InTime;
    ghost var outcome, visits, readEvents;
    r, got, handed, outcome, visits, readEvents := ReadForForward(raw, from, to, buffer, timeout);
    ghost var room := buffer.Length - Pulled(old(from.Queued()), buffer.Length);
    pass := Passage(room, outcome, readEvents, visits, None, []);
    sent, failed := [], r.Broke?;
    ghost var same := from.stream.clock == to.stream.clock;
    ghost var was, was' := old(from.stream.clock.trace), old(to.stream.clock.trace);
    ghost var mid, trace, trace' := LaneOf(from, to), from.stream.clock.trace, to.stream.clock.trace;
    ObservedRead(same, was, trace, was', trace', pass);
    PassInTime(raw, timeout, writeTimeout, pass);
    if r.Done? && r.size > 0 {
      var failure;
      ghost var tr;
      failure, sent, tr := WriteForForward(from, to, buffer, r.size, writeTimeout);
      pass := Passage(room, outcome, readEvents, visits, failure, tr);
      WriteMoves(raw, from.protocol.extractPacket, from.extractLast, old(LaneOf(from, to)), mid, got, handed, sent);
      PassInTime(raw, timeout, writeTimeout, pass);
      ObservedWrite(same, was, trace, from.stream.clock.trace, was', trace', to.stream.clock.trace, pass);
      if failure.Some? {
        r := Broke(failure.value);
      }
    }
  }

  predicate Whole(log: Log) {
    !log.cut && !log.failed
  }

  /** What has been forwarded in one direction since it started from `l0`, through a buffer of `room` bytes; and
      between transfers nothing stays queued that the latest could have moved. */
  ghost predicate OnTheWay(raw: bool, room: nat, from: Driver, to: Driver, l0: Lane, log: Log)
    reads from, from.internalBuffer, from.stream, to, to.stream
    requires from.Valid() && from.stream != null && to.stream != null
  {
    var f, l := from.protocol.extractPacket, LaneOf(from, to);
    && Forwarded(raw, f, from.extractLast, l0, l, log)
    && (Whole(log) && log.transfers > 0 ==> Drained(raw, f, l.queued, log.latest, room))
  }

  lemma SetOut(raw: bool, room: nat, from: Driver, to: Driver)
    requires from.Valid() && from.stream != null && to.stream != null
    ensures OnTheWay(raw, room, from, to, LaneOf(from, to), EMPTY_LOG)
  {
    hide LaneOf, Forwarded;
    ForwardStart(raw, from.protocol.extractPacket, from.extractLast, LaneOf(from, to));
  }

  /** One transfer, as a step of the run. */
  method ForwardOn(raw: bool, from: Driver, to: Driver, buffer: array<byte>, timeout: int, writeTimeout: int,
                   ghost l0: Lane, ghost log: Log, ghost passes: seq<Passage>)
    returns (r: Result, ghost log': Log, ghost passes': seq<Passage>)
    requires AllInTime(raw, timeout, writeTimeout, passes) && LastTrouble(passes) == None
    requires Apart(from, to, buffer) && OnTheWay(raw, buffer.Length, from, to, l0, log) && Whole(log)
    modifies from`stats, from`internalBufferSize, from.internalBuffer, buffer, from.listeners, from.stream,
      from.Clocks(), to`stats, to.stream, to.Clocks(), to.listeners
    ensures Apart(from, to, buffer) && OnTheWay(raw, buffer.Length, from, to, l0, log')
    ensures LaneOf(to, from) == old(LaneOf(to, from))
    ensures (r.Done? <==> Whole(log')) && (r.Done? ==> log'.transfers == log.transfers + 1)
    ensures AllInTime(raw, timeout, writeTimeout, passes') && |passes'| == |passes| + 1
    ensures if LastTrouble(passes').Some? then r == Broke(LastTrouble(passes').value) else r.Done?
  {
    hide Transfers, Forwarded, Drained, Driver.Queued, InTime, ReadConcludes, AllInTime;
    ghost var was, got, handed, sent, failed, pass := LaneOf(from, to), [], [], [], false, *;
    r, got, handed, sent, failed, pass := ForwardData(raw, from, to, buffer, timeout, writeTimeout);
    log' := ForwardMore(raw, from.protocol.extractPacket, from.extractLast, l0, was, LaneOf(from, to), log, got, handed,
                        sent, failed);
    OneMorePass(raw, timeout, writeTimeout, passes, pass);
    passes' := passes + [pass];
  }

  /** How select ends: it times out, is interrupted by a signal, in which case the program goes by what
      the descriptor sets happen to say, fails, or finds data. */
  datatype Selected =
    | TimedOut
    | Interrupted(one: bool, two: bool)
    | SelectFailed(errno: int)
    | Readable(one: bool, two: bool)

  /** How often the first or the second descriptor was announced. */
  function Announced(selects: seq<Selected>, first: bool): nat {
    if selects == [] then 0
    else
      var s := selects[|selects| - 1];
      Announced(selects[..|selects| - 1], first)
      + if (s.Interrupted? || s.Readable?) && (if first then s.one else s.two) then 1 else 0
  }

  lemma AnnouncedMore(selects: seq<Selected>, k: nat, first: bool)
    requires k < |selects|
    ensures var s := selects[k];
            Announced(selects[..k + 1], first) == Announced(selects[..k], first)
            + if (s.Interrupted? || s.Readable?) && (if first then s.one else s.two) then 1 else 0
  {
    assert selects[..k + 1][..k] == selects[..k];
  }

  datatype End = EndOfStream | Failure(error: Error) | Running

  datatype Result = Done(size: nat) | Broke(error: Error)

  /** The first trouble ends the run. */
  function EndOf(trouble1: Option<Error>, trouble2: Option<Error>): End {
    if trouble1.Some? then Failure(trouble1.value) else if trouble2.Some? then Failure(trouble2.value) else Running
  }

  /** A run that fails does so on its last answer of select, because that is a failure, or because of the error of a
      transfer it led to; and nothing else makes it fail. */
  predicate EndsFor(end: End, selects: seq<Selected>, k: nat, trouble1: Option<Error>, trouble2: Option<Error>)
    requires k <= |selects|
  {
    if k > 0 && selects[k - 1].SelectFailed? then
      end == Failure(Unix(selects[k - 1].errno)) && trouble1 == None && trouble2 == None
    else if trouble1.Some? || trouble2.Some? then end == EndOf(trouble1, trouble2) && k > 0
    else !end.Failure?
  }

  /** The transfers of a run: one for each announcement, except that the first error ends it. */
  predicate Followed(selects: seq<Selected>, k: nat, passes1: seq<Passage>, passes2: seq<Passage>)
    requires k <= |selects|
  {
    && (LastTrouble(passes1).Some? ==> k > 0) && |passes1| == Announced(selects[..k], true)
    && |passes2| == Announced(selects[..if LastTrouble(passes1).Some? then k - 1 else k], false)
  }

  /** One turn of the loop of forward: first one direction, then the other. */
  method ForwardTurn(raw: bool, one: Driver, two: Driver, buffer: array<byte>, timeout: int, writeTimeout1: int,
                     writeTimeout2: int, selected: Selected, ghost l1: Lane, ghost l2: Lane, ghost log1: Log,
                     ghost log2: Log, ghost passes1: seq<Passage>, ghost passes2: seq<Passage>)
    returns (end: End, ghost log1': Log, ghost log2': Log, ghost passes1': seq<Passage>, ghost passes2': seq<Passage>)
    requires Apart(one, two, buffer) && (selected.Readable? || selected.Interrupted?)
    requires OnTheWay(raw, buffer.Length, one, two, l1, log1) && Whole(log1)
    requires OnTheWay(raw, buffer.Length, two, one, l2, log2) && Whole(log2)
    requires AllInTime(raw, timeout, writeTimeout2, passes1) && LastTrouble(passes1) == None
    requires AllInTime(raw, timeout, writeTimeout1, passes2) && LastTrouble(passes2) == None
    modifies one`stats, one`internalBufferSize, one.internalBuffer, buffer, one.stream, one.Clocks(), one.listeners,
      two`stats, two`internalBufferSize, two.internalBuffer, two.stream, two.Clocks(), two.listeners
    ensures Apart(one, two, buffer)
    ensures OnTheWay(raw, buffer.Length, one, two, l1, log1') && OnTheWay(raw, buffer.Length, two, one, l2, log2')
    ensures (Whole(log1') || Whole(log2')) && (if Whole(log1') && Whole(log2') then end.Running? else end.Failure?)
    ensures end.Running? ==>
      && log1'.transfers == log1.transfers + (if selected.one then 1 else 0)
      && log2'.transfers == log2.transfers + (if selected.two then 1 else 0)
    ensures AllInTime(raw, timeout, writeTimeout2, passes1') && AllInTime(raw, timeout, writeTimeout1, passes2')
    ensures end == EndOf(LastTrouble(passes1'), LastTrouble(passes2'))
    ensures |passes1'| == |passes1| + if selected.one then 1 else 0
    ensures |passes2'| == |passes2| + if selected.two && LastTrouble(passes1') == None then 1 else 0
  {
    hide Forwarded, LaneOf, Drained, AllInTime, LastTrouble;
    log1', log2', passes1', passes2', end := log1, log2, passes1, passes2, Running;
    var r;
    if selected.one {
      r, log1', passes1' := ForwardOn(raw, one, two, buffer, timeout, writeTimeout2, l1, log1, passes1);
      if r.Broke? {
        return Failure(r.error), log1', log2', passes1', passes2';
      }
    }
    if selected.two {
      r, log2', passes2' := ForwardOn(raw, two, one, buffer, timeout, writeTimeout1, l2, log2, passes2);
      if r.Broke? {
        return Failure(r.error), log1', log2', passes1', passes2';
      }
    }
  }

  /** The loop of forward on two streams, for as long as select has answers, of which it used the first `k`.  In
      both directions the first timeout is used. */
  method ForwardStreams(raw: bool, one: Driver, two: Driver, timeout1: int, timeout2: int, bufferSize: nat,
                        writeTimeout1: int, writeTimeout2: int, selects: seq<Selected>)
    returns (end: End, ghost log1: Log, ghost log2: Log, ghost k: nat, ghost passes1: seq<Passage>,
             ghost passes2: seq<Passage>)
    requires one.Valid() && two.Valid() && one != two && one.internalBuffer != two.internalBuffer
    requires one.stream != null && two.stream != null && one.stream != two.stream
    modifies one`stats, one`internalBufferSize, one.internalBuffer, one.stream, one.Clocks(), one.listeners,
      two`stats, two`internalBufferSize, two.internalBuffer, two.stream, two.Clocks(), two.listeners
    ensures one.Valid() && two.Valid()
    ensures OnTheWay(raw, bufferSize, one, two, old(LaneOf(one, two)), log1)
    ensures OnTheWay(raw, bufferSize, two, one, old(LaneOf(two, one)), log2)
    ensures (Whole(log1) || Whole(log2)) && (end.Failure? || (Whole(log1) && Whole(log2)))
    ensures end.EndOfStream? ==> one.stream.atEof || two.stream.atEof
    ensures end.Running? ==> !one.stream.atEof && !two.stream.atEof
    ensures old(one.stream.atEof || two.stream.atEof) ==> end.EndOfStream? && k == 0
    ensures k <= |selects| && (end.Running? ==> k == |selects|)
    ensures !end.Failure? ==>
      log1.transfers == Announced(selects[..k], true) && log2.transfers == Announced(selects[..k], false)
    ensures EndsFor(end, selects, k, LastTrouble(passes1), LastTrouble(passes2))
    ensures forall i :: 0 <= i < k && selects[i].SelectFailed? ==> i == k - 1
    ensures AllInTime(raw, timeout1, writeTimeout2, passes1) && AllInTime(raw, timeout1, writeTimeout1, passes2)
    ensures Followed(selects, k, passes1, passes2)
  {
    hide Forwarded, LaneOf, Announced, Drained, AllInTime, LastTrouble, Followed, OnTheWay;
    var buffer := new byte[bufferSize];
    ghost var l1, l2 := LaneOf(one, two), LaneOf(two, one);
    log1, log2, passes1, passes2 := EMPTY_LOG, EMPTY_LOG, [], [];
    SetOut(raw, bufferSize, one, two);
    SetOut(raw, bufferSize, two, one);
    NoneAnnounced(selects);
    FollowedNothing(selects);
    NothingInTime(raw, timeout1, writeTimeout1, writeTimeout2);
    end := Running;
    var i := 0;
    k := 0;
    while true
      invariant Apart(one, two, buffer) && i == k <= |selects| && end == Running
      invariant OnTheWay(raw, bufferSize, one, two, l1, log1) && Whole(log1)
      invariant OnTheWay(raw, bufferSize, two, one, l2, log2) && Whole(log2)
      invariant old(one.stream.atEof || two.stream.atEof) ==> k == 0 && (one.stream.atEof || two.stream.atEof)
      invariant log1.transfers == Announced(selects[..k], true) && log2.transfers == Announced(selects[..k], false)
      invariant AllInTime(raw, timeout1, writeTimeout2, passes1) && AllInTime(raw, timeout1, writeTimeout1, passes2)
      invariant LastTrouble(passes1) == None && LastTrouble(passes2) == None
      invariant Followed(selects, k, passes1, passes2) && forall i :: 0 <= i < k ==> !selects[i].SelectFailed?
      decreases |selects| - i
    {
      var eof1 := one.Eof();
      var eof2 := two.Eof();
      if eof1 == Some(true) || eof2 == Some(true) {
        end := EndOfStream;
        break;
      }
      if i == |selects| {
        break;
      }
      var selected := selects[i];
      AnnouncedMore(selects, i, true);
      AnnouncedMore(selects, i, false);
      i, k := i + 1, k + 1;
      if selected.SelectFailed? {
        FollowedOn(selects, k - 1, passes1, passes2, passes1, passes2);
        end := Failure(Unix(selected.errno));
        break;
      }
      if selected.TimedOut? {
        FollowedOn(selects, k - 1, passes1, passes2, passes1, passes2);
        continue;
      }
      ghost var before1, before2 := passes1, passes2;
      end, log1, log2, passes1, passes2 := ForwardTurn(raw, one, two, buffer, timeout1, writeTimeout1, writeTimeout2,
                                                       selected, l1, l2, log1, log2, passes1, passes2);
      FollowedOn(selects, k - 1, before1, before2, passes1, passes2);
      if end.Failure? {
        break;
      }
    }
  }

  lemma FollowedNothing(selects: seq<Selected>)
    ensures Followed(selects, 0, [], [])
  {
    NoneAnnounced(selects);
  }

  /** One more answer of select, followed in the directions it announces. */
  lemma FollowedOn(selects: seq<Selected>, k: nat, passes1: seq<Passage>, passes2: seq<Passage>,
                   passes1': seq<Passage>, passes2': seq<Passage>)
    requires k < |selects| && Followed(selects, k, passes1, passes2)
    requires LastTrouble(passes1) == None && LastTrouble(passes2) == None
    requires var s := selects[k];
             var announces := s.Interrupted? || s.Readable?;
             && |passes1'| == |passes1| + (if announces && s.one then 1 else 0)
             && |passes2'| == |passes2| + (if announces && s.two && LastTrouble(passes1') == None then 1 else 0)
    ensures Followed(selects, k + 1, passes1', passes2')
  {
    hide Announced, LastTrouble;
    AnnouncedMore(selects, k, true);
    AnnouncedMore(selects, k, false);
  }

  lemma NoneAnnounced(selects: seq<Selected>)
    ensures Announced(selects[..0], true) == 0 && Announced(selects[..0], false) == 0
  {
  }

  ghost predicate Connected(one: Driver, two: Driver)
    reads one, two
  {
    one.stream != null && two.stream != null
  }

  /** forward, which asks both drivers whether they are at the end of their streams first. */
  method Forward(raw: bool, one: Driver, two: Driver, timeout1: int, timeout2: int, bufferSize: nat,
                 writeTimeout1: int, writeTimeout2: int, selects: seq<Selected>)
    returns (end: End, ghost log1: Log, ghost log2: Log, ghost k: nat, ghost passes1: seq<Passage>,
             ghost passes2: seq<Passage>)
    requires one.Valid() && two.Valid() && one != two && one.internalBuffer != two.internalBuffer
    requires one.stream == null || one.stream != two.stream
    modifies one`stats, one`internalBufferSize, one.internalBuffer, one.stream, one.Clocks(), one.listeners,
      two`stats, two`internalBufferSize, two.internalBuffer, two.stream, two.Clocks(), two.listeners
    ensures one.Valid() && two.Valid()
    ensures !Connected(one, two) ==>
      end == if one.stream != null && one.stream.atEof then EndOfStream else Failure(InvalidStream)
    ensures Connected(one, two) ==>
      && OnTheWay(raw, bufferSize, one, two, old(if Connected(one, two) then LaneOf(one, two) else NO_LANE), log1)
      && OnTheWay(raw, bufferSize, two, one, old(if Connected(one, two) then LaneOf(two, one) else NO_LANE), log2)
      && (Whole(log1) || Whole(log2)) && (end.Failure? || (Whole(log1) && Whole(log2)))
      && (end.EndOfStream? ==> one.stream.atEof || two.stream.atEof)
      && (end.Running? ==> !one.stream.atEof && !two.stream.atEof)
      && (old(Connected(one, two) && (one.stream.atEof || two.stream.atEof)) ==> end.EndOfStream? && k == 0)
      && k <= |selects| && (end.Running? ==> k == |selects|)
      && (!end.Failure? ==>
          log1.transfers == Announced(selects[..k], true) && log2.transfers == Announced(selects[..k], false))
      && EndsFor(end, selects, k, LastTrouble(passes1), LastTrouble(passes2))
      && (forall i :: 0 <= i < k && selects[i].SelectFailed? ==> i == k - 1)
      && AllInTime(raw, timeout1, writeTimeout2, passes1) && AllInTime(raw, timeout1, writeTimeout1, passes2)
      && Followed(selects, k, passes1, passes2)
  {
    hide Forwarded, LaneOf, Announced, Drained, AllInTime, LastTrouble, EndsFor, Followed;
    log1, log2, k, passes1, passes2 := EMPTY_LOG, EMPTY_LOG, 0, [], [];
    var eof1 := one.Eof();
    if one.stream == null {
      return Failure(InvalidStream), log1, log2, k, passes1, passes2;
    }
    if two.stream == null {
      return if eof1 == Some(true) then EndOfStream else Failure(InvalidStream), log1, log2, k, passes1,
        passes2;
    }
    end, log1, log2, k, passes1, passes2 := ForwardStreams(raw, one, two, timeout1, timeout2, bufferSize, writeTimeout1,
                                                           writeTimeout2, selects);
  }
}
