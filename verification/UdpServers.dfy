/**
 The UDP server stream and its deferred errors: an error found while waiting is kept, and raised by
 the next read.
 */
module UdpServers {
  import opened Extraction
  import opened Engine
  import opened Streams

  type Errno = n: int | n > 0 witness 1

  const EAGAIN: Errno := 11
  const ENETUNREACH: Errno := 101
  const ENOBUFS: Errno := 105
  const ECONNREFUSED: Errno := 111
  const EHOSTUNREACH: Errno := 113

  type Address = nat

  datatype Flags = Flags(connRefused: bool, hostUnreach: bool, netUnreach: bool)

  predicate Ignored(flags: Flags, e: Errno) {
    || (flags.connRefused && e == ECONNREFUSED)
    || (flags.hostUnreach && e == EHOSTUNREACH)
    || (flags.netUnreach && e == ENETUNREACH)
  }

  /** The stream's fields; an error of 0 is none. */
  datatype Udp = Udp(flags: Flags, isDynamic: bool, error: int, hasOther: bool, other: Address, atEof: bool)

  // Waiting -------------------------------------------------------------------------------------

  /** One turn of waitRead: how select ends, the time that passes, and the error that peeking at the
      socket brings. */
  datatype Poll = Poll(ready: WaitReply, ticks: nat, peek: Peek)

  datatype Peek = Fine | Broken(errno: Errno)

  const SILENCE := Poll(NotReady, 0, Fine)

  function First(polls: seq<Poll>): Poll {
    if polls == [] then SILENCE else polls[0]
  }

  datatype Answer = Yes | No | Throws(errno: int)

  function AnswerOf(r: WaitReply): Answer {
    match r
    case Ready => Yes
    case NotReady => No
    case WaitFault(errno) => Throws(errno)
  }

  datatype Waiting = Waiting(answer: Answer, error: int, rest: seq<Poll>)

  /** The loop of waitRead from time `now` on. */
  function WaitFrom(flags: Flags, polls: seq<Poll>, now: int, deadline: int): Waiting
    decreases |polls|
  {
    var poll := First(polls);
    if now > deadline || polls == [] || !poll.ready.Ready? then Waiting(AnswerOf(poll.ready), 0, Tail(polls))
    else if poll.peek.Fine? then Waiting(Yes, 0, Tail(polls))
    else if Ignored(flags, poll.peek.errno) then WaitFrom(flags, Tail(polls), now + poll.ticks, deadline)
    else Waiting(Yes, poll.peek.errno, Tail(polls))
  }

  /** waitRead: with an error pending it answers no, at once. */
  function WaitOutcome(u: Udp, polls: seq<Poll>, now: int, timeout: int): Waiting {
    if u.error != 0 then Waiting(No, u.error, polls) else WaitFrom(u.flags, polls, now, now + timeout)
  }

  function Elapsed(polls: seq<Poll>): nat {
    if polls == [] then 0 else polls[0].ticks + Elapsed(polls[1..])
  }

  /** A turn that waitRead does not end with: input was announced, and peeking brought an error that is
      to be ignored. */
  predicate Skipped(flags: Flags, poll: Poll) {
    poll.ready.Ready? && poll.peek.Broken? && Ignored(flags, poll.peek.errno)
  }

  /** Without the loop: an error is stored exactly if the first turn that is not skipped comes before
      time is up and brings it. */
  lemma {:induction false} WaitStoresFirstError(flags: Flags, polls: seq<Poll>, k: nat, now: int, deadline: int)
    requires k < |polls| && forall i :: 0 <= i < k ==> Skipped(flags, polls[i])
    requires !Skipped(flags, polls[k]) && now + Elapsed(polls[..k]) <= deadline
    ensures var w, poll := WaitFrom(flags, polls, now, deadline), polls[k];
            && w.rest == polls[k + 1..] && w.answer == AnswerOf(poll.ready)
            && w.error == if poll.ready.Ready? && poll.peek.Broken? then poll.peek.errno else 0
    decreases k
  {
    if k > 0 {
      assert polls[..k][1..] == polls[1..][..k - 1];
      WaitStoresFirstError(flags, polls[1..], k - 1, now + polls[0].ticks, deadline);
    }
  }

  /** Nothing is stored when time is up before that, and select is asked once more, without waiting. */
  lemma {:induction false} LateWaitStoresNothing(flags: Flags, polls: seq<Poll>, k: nat, now: int, deadline: int)
    requires k <= |polls| && forall i :: 0 <= i < k ==> Skipped(flags, polls[i])
    requires now + Elapsed(polls[..k]) > deadline
    ensures WaitFrom(flags, polls, now, deadline).error == 0
    decreases k
  {
    if k > 0 && now <= deadline {
      assert polls[..k][1..] == polls[1..][..k - 1];
      LateWaitStoresNothing(flags, polls[1..], k - 1, now + polls[0].ticks, deadline);
    }
  }

  /** And then the answer is that of select, asked once more; it is no when select has nothing more to say, in time or
      not. */
  lemma {:induction false} LateWaitAsksOnce(flags: Flags, polls: seq<Poll>, k: nat, now: int, deadline: int)
    requires k <= |polls| && forall i :: 0 <= i < k ==> Skipped(flags, polls[i])
    requires forall i :: 0 <= i < k ==> now + Elapsed(polls[..i]) <= deadline
    requires k == |polls| || now + Elapsed(polls[..k]) > deadline
    ensures var w := WaitFrom(flags, polls, now, deadline);
            if k == |polls| then w == Waiting(No, 0, [])
            else w.answer == AnswerOf(polls[k].ready) && w.rest == polls[k + 1..]
    decreases k
  {
    if k > 0 {
      assert polls[..0] == [] && Elapsed(polls[..0]) == 0;
      assert polls[..k][1..] == polls[1..][..k - 1];
      forall i | 0 <= i < k - 1 ensures now + polls[0].ticks + Elapsed(polls[1..][..i]) <= deadline {
        assert polls[..i + 1][1..] == polls[1..][..i];
      }
      LateWaitAsksOnce(flags, polls[1..], k - 1, now + polls[0].ticks, deadline);
    }
  }

  /** What is stored is never to be ignored, and is announced as input. */
  lemma {:induction false} StoredIsNotIgnored(flags: Flags, polls: seq<Poll>, now: int, deadline: int)
    ensures var w := WaitFrom(flags, polls, now, deadline);
            w.error != 0 ==> w.error > 0 && !Ignored(flags, w.error) && w.answer == Yes
    decreases |polls|
  {
    if polls != [] && Skipped(flags, polls[0]) && now <= deadline {
      StoredIsNotIgnored(flags, polls[1..], now + polls[0].ticks, deadline);
    }
  }

  // Reading and writing -------------------------------------------------------------------------

  /** How recvfrom and sendto end. */
  datatype Datagram = Datagram(data: Bytes, sender: Address) | RecvFailed(errno: Errno)

  datatype Send = Sent(n: nat) | SendFailed(errno: Errno)

  datatype Outcome = Returns(n: nat) | Raises(errno: int)

  const NOTHING: Outcome := Returns(0)

  /** A read that asks the socket. */
  function ReadSocket(flags: Flags, reply: Datagram, room: nat): Outcome {
    match reply
    case Datagram(data, _) => Returns(Min(|data|, room))
    case RecvFailed(e) => if e == EAGAIN || Ignored(flags, e) then NOTHING else Raises(e)
  }

  function ReadOutcome(u: Udp, reply: Datagram, room: nat): Outcome {
    if u.error != 0 then Raises(u.error) else ReadSocket(u.flags, reply, room)
  }

  /** A read that raises a pending error does not ask the socket. */
  function AfterRead(u: Udp, reply: Datagram, room: nat): Udp {
    if u.error != 0 then u.(error := 0)
    else if reply.RecvFailed? then u
    else u.(hasOther := true, other := if u.isDynamic then reply.sender else u.other,
            atEof := u.atEof || Min(|reply.data|, room) == 0)
  }

  /** A write before anything is known of the other side goes nowhere; the errors EAGAIN and ENOBUFS, which
      are checked for both at once, are raised. */
  function WriteOutcome(u: Udp, reply: Send, size: nat): Outcome {
    if !u.hasOther then Returns(size)
    else
      match reply
      case Sent(n) => Returns(n)
      case SendFailed(e) =>
        if e == EAGAIN && e == ENOBUFS then NOTHING
        else if Ignored(u.flags, e) then Returns(size)
        else Raises(e)
  }

  /** A read that finds no error pending delivers a datagram whole, or as much of it as there is room for; the rest of
      it is lost. */
  lemma ReadDelivers(u: Udp, reply: Datagram, room: nat)
    requires u.error == 0 && reply.Datagram?
    ensures var r := ReadOutcome(u, reply, room);
            r.Returns? && r.n <= |reply.data| && r.n <= room && (r.n == |reply.data| || r.n == room)
  {
  }

  /** A read raises the pending error, or else the socket's if that is neither EAGAIN nor to be ignored; and it
      returns nothing for those. */
  lemma ReadRaisesIff(u: Udp, e: Errno, room: nat)
    ensures u.error != 0 ==> ReadOutcome(u, RecvFailed(e), room) == Raises(u.error)
    ensures u.error == 0 ==>
      && (ReadOutcome(u, RecvFailed(e), room) == Raises(e) <==> e != EAGAIN && !Ignored(u.flags, e))
      && (ReadOutcome(u, RecvFailed(e), room) == Returns(0) <==> e == EAGAIN || Ignored(u.flags, e))
  {
  }

  /** A write reports what was sent; and all of it when it went nowhere, because the other side is not known, or because
      the error is one to be ignored.  It raises all other errors. */
  lemma WriteReports(u: Udp, reply: Send, size: nat)
    ensures var r := WriteOutcome(u, reply, size);
            && (r.Raises? <==> u.hasOther && reply.SendFailed? && !Ignored(u.flags, reply.errno))
            && (r.Raises? ==> r.errno == reply.errno)
            && (r.Returns? ==> r.n == if u.hasOther && reply.Sent? then reply.n else size)
  {
  }

  /** What a write to any other descriptor does with an error. */
  function PlainWriteOutcome(e: Errno): Outcome {
    if e == EAGAIN || e == ENOBUFS then NOTHING else Raises(e)
  }

  /** The two differ, apart from the errors to be ignored, exactly on the two errors that only mean that
      there is no room now: here they are raised. */
  lemma WriteDiffersFromPlain(u: Udp, e: Errno, size: nat)
    requires u.hasOther && !Ignored(u.flags, e)
    ensures WriteOutcome(u, SendFailed(e), size) == Raises(e)
    ensures WriteOutcome(u, SendFailed(e), size) != PlainWriteOutcome(e) <==> e == EAGAIN || e == ENOBUFS
  {
  }

  /** An error found by peeking is kept exactly when a read that met it would have raised it, EAGAIN
      excepted, which such a read takes for no data. */
  lemma KeptIffRaisedUnlessAgain(u: Udp, e: Errno, now: int, timeout: nat, ticks: nat, room: nat)
    requires u.error == 0
    ensures var kept := WaitOutcome(u, [Poll(Ready, ticks, Broken(e))], now, timeout).error == e;
            (kept <==> ReadSocket(u.flags, RecvFailed(e), room) == Raises(e)) <==> e != EAGAIN
  {
    var poll := Poll(Ready, ticks, Broken(e));
    assert First([poll]) == poll && Tail([poll]) == [];
    assert WaitFrom(u.flags, [], now + ticks, now + timeout).error == 0;
  }

  // Runs ----------------------------------------------------------------------------------------

  datatype Op =
    | DoWait(polls: seq<Poll>, now: int, timeout: int)
    | DoRead(reply: Datagram, room: nat)
    | DoWrite(sending: Send, size: nat)

  /** The bytes of a datagram that a read delivered, and where it came from. */
  datatype Delivery = Delivery(data: Bytes, sender: Address)

  /** A stream, and the errors stored by its waits, raised by its reads from store, and raised by its reads
      from the socket; and what its reads delivered. */
  datatype History = History(udp: Udp, stored: seq<int>, raised: seq<int>, direct: seq<int>, got: seq<Delivery>)

  function DeliveredBy(u: Udp, reply: Datagram, r: Outcome): seq<Delivery> {
    if u.error == 0 && reply.Datagram? && r.Returns? && r.n <= |reply.data|
    then [Delivery(reply.data[..r.n], reply.sender)]
    else []
  }

  function Step(h: History, op: Op): History {
    var u := h.udp;
    match op
    case DoWait(polls, now, timeout) =>
      var w := WaitOutcome(u, polls, now, timeout);
      History(u.(error := w.error), if w.error != u.error then h.stored + [w.error] else h.stored, h.raised, h.direct,
              h.got)
    case DoRead(reply, room) =>
      var r := ReadOutcome(u, reply, room);
      History(AfterRead(u, reply, room), h.stored,
              if r.Raises? && u.error != 0 then h.raised + [r.errno] else h.raised,
              if r.Raises? && u.error == 0 then h.direct + [r.errno] else h.direct, h.got + DeliveredBy(u, reply, r))
    case DoWrite(_, _) => h
  }

  function Run(h: History, ops: seq<Op>): History
    decreases |ops|
  {
    if ops == [] then h else Run(Step(h, ops[0]), ops[1..])
  }

  /** Stored errors are raised once, in order, except for one that may be pending; and no error to be
      ignored is stored or raised. */
  predicate Deferred(h: History) {
    && h.udp.error >= 0
    && h.stored == h.raised + (if h.udp.error == 0 then [] else [h.udp.error])
    && (forall e <- h.stored :: e > 0 && !Ignored(h.udp.flags, e))
    && (forall e <- h.direct :: e > 0 && !Ignored(h.udp.flags, e) && e != EAGAIN)
  }

  lemma StepDefers(h: History, op: Op)
    requires Deferred(h)
    ensures Deferred(Step(h, op)) && Step(h, op).udp.flags == h.udp.flags
  {
    hide WaitFrom, Ignored;
    match op
    case DoWait(polls, now, timeout) =>
      StoredIsNotIgnored(h.udp.flags, polls, now, now + timeout);
      EmptySides(h.raised);
    case DoRead(_, _) =>
      EmptySides(h.raised + [h.udp.error]);
      EmptySides(h.got);
    case DoWrite(_, _) =>
  }

  lemma {:induction false} RunDefers(h: History, ops: seq<Op>)
    requires Deferred(h)
    ensures Deferred(Run(h, ops))
    decreases |ops|
  {
    hide Step, Deferred;
    if ops != [] {
      StepDefers(h, ops[0]);
      RunDefers(Step(h, ops[0]), ops[1..]);
    }
  }

  /** A pending error stays as it is, and keeps all waits from announcing input, until a read raises it and
      is done with it. */
  lemma {:induction false} PendingUntilRead(h: History, ops: seq<Op>, wait: Op, read: Op)
    requires Deferred(h) && h.udp.error != 0 && (forall op <- ops :: !op.DoRead?) && wait.DoWait? && read.DoRead?
    ensures var h' := Run(h, ops);
            && h' == h
            && WaitOutcome(h'.udp, wait.polls, wait.now, wait.timeout).answer == No
            && ReadOutcome(h'.udp, read.reply, read.room) == Raises(h.udp.error)
            && Step(h', read).udp.error == 0
    decreases |ops|
  {
    hide WaitFrom, Ignored;
    if ops != [] {
      assert Step(h, ops[0]) == h;
      PendingUntilRead(h, ops[1..], wait, read);
    }
  }

  /** What a stream knows of the other side, and of the end of file, is what it was delivered since `start`: a dynamic
      stream's other side is the sender of the latest datagram, a fixed one's never changes; one is known once a
      datagram was delivered; and an empty delivery is taken for the end of file, and nothing else. */
  predicate Tracks(start: Udp, h: History) {
    var u := h.udp;
    && u.isDynamic == start.isDynamic && u.hasOther == (start.hasOther || h.got != [])
    && u.other == (if start.isDynamic && h.got != [] then h.got[|h.got| - 1].sender else start.other)
    && u.atEof == (start.atEof || exists d <- h.got :: d.data == [])
  }

  lemma StepTracks(start: Udp, h: History, op: Op)
    requires Tracks(start, h)
    ensures Tracks(start, Step(h, op))
  {
    hide WaitFrom, Ignored;
    EmptySides(h.got);
    if op.DoRead? && h.udp.error == 0 && op.reply.Datagram? {
      var d := Delivery(op.reply.data[..Min(|op.reply.data|, op.room)], op.reply.sender);
      assert Step(h, op).got == h.got + [d];
      assert d in h.got + [d];
      forall x | x in h.got ensures x in h.got + [d] {
      }
    }
  }

  lemma {:induction false} RunTracks(start: Udp, h: History, ops: seq<Op>)
    requires Tracks(start, h)
    ensures Tracks(start, Run(h, ops))
    decreases |ops|
  {
    hide Step, Tracks;
    if ops != [] {
      StepTracks(start, h, ops[0]);
      RunTracks(start, Step(h, ops[0]), ops[1..]);
    }
  }

  // The stream ----------------------------------------------------------------------------------

  class UdpServerStream {
    const isDynamic: bool
    var flags: Flags
    var waitReadError: int
    var hasOther: bool
    var other: Address
    var eof: bool
    var now: int
    var polls: seq<Poll>
    var datagrams: seq<Datagram>
    var sends: seq<Send>
    ghost var sent: seq<(Address, Bytes)>

    ghost function State(): Udp
      reads this
    {
      Udp(flags, isDynamic, waitReadError, hasOther, other, eof)
    }

    /** Without an address, the other side is that of the latest datagram. */
    constructor (known: bool, address: Address)
      ensures State() == Udp(Flags(true, true, true), !known, 0, known, address, false)
      ensures Deferred(History(State(), [], [], [], [])) && sent == []
      ensures Tracks(State(), History(State(), [], [], [], []))
    {
      isDynamic, flags, waitReadError := !known, Flags(true, true, true), 0;
      hasOther, other, eof, sent := known, address, false, [];
      now, polls, datagrams, sends := 0, [], [], [];
    }

    method SetIgnore(connRefused: bool, hostUnreach: bool, netUnreach: bool)
      modifies `flags
      ensures flags == Flags(connRefused, hostUnreach, netUnreach)
    {
      flags := Flags(connRefused, hostUnreach, netUnreach);
    }

    method WaitRead(timeout: int) returns (answer: Answer)
      modifies `waitReadError, `polls, `now
      ensures var w := WaitOutcome(old(State()), old(polls), old(now), timeout);
              answer == w.answer && polls == w.rest && State() == old(State()).(error := w.error)
    {
      if waitReadError != 0 {
        return No;
      }
      var deadline := now + timeout;
      ghost var w := WaitOutcome(old(State()), old(polls), old(now), timeout);
      while now <= deadline && polls != []
        invariant w == WaitFrom(flags, polls, now, deadline) && waitReadError == 0
        decreases |polls|
      {
        var poll := polls[0];
        polls := Tail(polls);
        if !poll.ready.Ready? {
          return AnswerOf(poll.ready);
        }
        now := now + poll.ticks;
        if poll.peek.Broken? {
          if Ignored(flags, poll.peek.errno) {
            continue;
          }
          waitReadError := poll.peek.errno;
        } else {
          waitReadError := 0;
        }
        return Yes;
      }
      answer := AnswerOf(First(polls).ready);
      polls := Tail(polls);
    }

    method Read(buffer: array<byte>, room: nat) returns (r: Outcome)
      requires room <= buffer.Length
      modifies `waitReadError, `hasOther, `other, `eof, `datagrams, buffer
      ensures var reply := if old(datagrams) == [] then RecvFailed(EAGAIN) else old(datagrams)[0];
              && r == ReadOutcome(old(State()), reply, room) && State() == AfterRead(old(State()), reply, room)
              && datagrams == (if old(waitReadError) != 0 then old(datagrams) else Tail(old(datagrams)))
              && (r.Returns? && reply.Datagram? ==> buffer[..r.n] == reply.data[..r.n])
    {
      if waitReadError != 0 {
        var e := waitReadError;
        waitReadError := 0;
        return Raises(e);
      }
      var reply := if datagrams == [] then RecvFailed(EAGAIN) else datagrams[0];
      datagrams := Tail(datagrams);
      if reply.RecvFailed? {
        return if reply.errno == EAGAIN || Ignored(flags, reply.errno) then NOTHING else Raises(reply.errno);
      }
      var n := Min(|reply.data|, room);
      forall i | 0 <= i < n {
        buffer[i] := reply.data[i];
      }
      hasOther := true;
      if isDynamic {
        other := reply.sender;
      }
      if n == 0 {
        eof := true;
      }
      r := Returns(n);
    }

    method Write(data: Bytes) returns (r: Outcome)
      modifies `sends, `sent
      ensures var reply := if old(sends) == [] then Sent(0) else old(sends)[0];
              && r == WriteOutcome(old(State()), reply, |data|)
              && sends == (if hasOther then Tail(old(sends)) else old(sends))
              && sent == (if hasOther then old(sent) + [(other, data)] else old(sent))
    {
      if !hasOther {
        return Returns(|data|);
      }
      var reply := if sends == [] then Sent(0) else sends[0];
      sends, sent := Tail(sends), sent + [(other, data)];
      if reply.Sent? {
        return Returns(reply.n);
      }
      if reply.errno == EAGAIN && reply.errno == ENOBUFS {
        return NOTHING;
      }
      r := if Ignored(flags, reply.errno) then Returns(|data|) else Raises(reply.errno);
    }
  }
}
