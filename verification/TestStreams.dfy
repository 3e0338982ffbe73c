/**
 The test stream: data pushed by a test is read by the driver, and what the driver writes is kept for
 the test or, in mock mode, held against expectations that have replies.
 */
module TestStreams {
  import opened Extraction
  import opened Engine
  import opened Streams

  datatype Exchange = Exchange(expectation: Bytes, reply: Bytes)

  datatype Failure = MockContext | NoExpectationLeft | Mismatch

  datatype Result = Ok(n: nat) | Fails(failure: Failure)

  /** The queues, as values. */
  datatype Queues = Queues(mock: bool, toDriver: Bytes, fromDriver: Bytes, exchanges: seq<Exchange>)

  datatype Written = Written(queues: Queues, result: Result)

  /** A write.  In mock mode what is compared is everything written since the last match. */
  function WriteTo(q: Queues, data: Bytes): Written {
    var all := q.fromDriver + data;
    if !q.mock then Written(q.(fromDriver := all), Ok(|data|))
    else if q.exchanges == [] then Written(q.(fromDriver := all), Fails(NoExpectationLeft))
    else if all == q.exchanges[0].expectation then
      Written(q.(toDriver := q.toDriver + q.exchanges[0].reply, fromDriver := [], exchanges := q.exchanges[1..]),
              Ok(|data|))
    else Written(q.(fromDriver := all, exchanges := []), Fails(Mismatch))
  }

  /** A run of writes and its results, up to and including the first failure. */
  function WriteAll(q: Queues, writes: seq<Bytes>): Written
    decreases |writes|
  {
    if writes == [] then Written(q, Ok(0))
    else
      var w := WriteTo(q, writes[0]);
      if w.result.Fails? then w else WriteAll(w.queues, writes[1..])
  }

  function Replies(es: seq<Exchange>): Bytes {
    if es == [] then [] else es[0].reply + Replies(es[1..])
  }

  predicate Matches(writes: seq<Bytes>, es: seq<Exchange>) {
    |writes| <= |es| && forall i :: 0 <= i < |writes| ==> writes[i] == es[i].expectation
  }

  /** In mock mode a run of writes succeeds exactly if it writes what was expected, in order; then the driver
      gets the replies, in order, and the expectations met are gone. */
  lemma {:induction false} MockedRun(q: Queues, writes: seq<Bytes>)
    requires q.mock && q.fromDriver == []
    ensures var w := WriteAll(q, writes);
            && (w.result.Ok? <==> Matches(writes, q.exchanges))
            && (w.result.Ok? ==> w.queues == q.(toDriver := q.toDriver + Replies(q.exchanges[..|writes|]),
                                                exchanges := q.exchanges[|writes|..]))
    decreases |writes|
  {
    hide Replies;
    if writes == [] {
      NoReplies(q);
    } else {
      EmptySides(writes[0]);
      var w := WriteTo(q, writes[0]);
      if w.result.Ok? {
        var es := q.exchanges;
        MockedRun(w.queues, writes[1..]);
        assert Matches(writes, es) <==> Matches(writes[1..], es[1..]) by {
          MatchesRest(writes, es);
        }
        MoreReplies(es, |writes|, q.toDriver);
      }
    }
  }

  lemma NoReplies(q: Queues)
    ensures q.toDriver + Replies(q.exchanges[..0]) == q.toDriver
  {
  }

  lemma MatchesRest(writes: seq<Bytes>, es: seq<Exchange>)
    requires writes != [] && es != [] && writes[0] == es[0].expectation
    ensures Matches(writes, es) <==> Matches(writes[1..], es[1..])
  {
  }

  lemma MoreReplies(es: seq<Exchange>, n: nat, before: Bytes)
    requires n > 0 && es != []
    ensures n <= |es| ==> before + Replies(es[..n]) == before + es[0].reply + Replies(es[1..][..n - 1])
    ensures n <= |es| ==> es[n..] == es[1..][n - 1..]
  {
    if n <= |es| {
      assert es[..n][1..] == es[1..][..n - 1];
      Associate(before, es[0].reply, Replies(es[1..][..n - 1]));
    }
  }

  /** A failed write leaves nothing expected unless nothing was expected before, so every further write
      fails too until the test expects more or leaves mock mode. */
  lemma FailureIsLasting(q: Queues, data: Bytes, more: Bytes)
    requires q.mock && WriteTo(q, data).result.Fails?
    ensures WriteTo(q, data).queues.exchanges == []
    ensures WriteTo(WriteTo(q, data).queues, more).result == Fails(NoExpectationLeft)
  {
  }

  /** A write reports its size; it fails only in mock mode, when nothing is expected any more or something else. */
  lemma WriteReports(q: Queues, data: Bytes)
    ensures var r := WriteTo(q, data).result;
            && (r.Ok? ==> r.n == |data|)
            && (r.Fails? ==> q.mock && r.failure == if q.exchanges == [] then NoExpectationLeft else Mismatch)
            && (r.Fails? <==> q.mock && (q.exchanges == [] || q.fromDriver + data != q.exchanges[0].expectation))
  {
  }

  /** A run of writes that goes on after failures. */
  function WriteOn(q: Queues, writes: seq<Bytes>): Queues {
    if writes == [] then q else WriteTo(WriteOn(q, writes[..|writes| - 1]), writes[|writes| - 1]).queues
  }

  function Expected(es: seq<Exchange>): Bytes {
    if es == [] then [] else es[0].expectation + Expected(es[1..])
  }

  /** From `q` to `q'`, `all` was written: of what was expected the first `n` were met, each of them taken
      out of what was written and replied to; the rest of what was written is still there. */
  predicate Accounts(q: Queues, q': Queues, all: Bytes, n: nat) {
    && n <= |q.exchanges| && (n > 0 ==> q.mock) && q'.mock == q.mock
    && q.fromDriver + all == Expected(q.exchanges[..n]) + q'.fromDriver
    && q'.toDriver == q.toDriver + Replies(q.exchanges[..n])
    && (q'.exchanges == q.exchanges[n..] || (q.mock && q'.exchanges == []))
  }

  lemma {:induction false} OneMoreMet(es: seq<Exchange>, n: nat)
    requires n < |es|
    ensures Expected(es[..n + 1]) == Expected(es[..n]) + es[n].expectation
    ensures Replies(es[..n + 1]) == Replies(es[..n]) + es[n].reply
    ensures es[n..] != [] && es[n..][0] == es[n] && es[n..][1..] == es[n + 1..]
    decreases n
  {
    if n > 0 {
      OneMoreMet(es[1..], n - 1);
      assert es[..n + 1][1..] == es[1..][..n] && es[..n][1..] == es[1..][..n - 1];
      Associate(es[0].expectation, Expected(es[1..][..n - 1]), es[n].expectation);
      Associate(es[0].reply, Replies(es[1..][..n - 1]), es[n].reply);
    } else {
      assert es[..1][1..] == [] && es[..0] == [];
    }
  }

  lemma WriteAccounts(q: Queues, mid: Queues, all: Bytes, n: nat, data: Bytes) returns (n': nat)
    requires Accounts(q, mid, all, n)
    ensures Accounts(q, WriteTo(mid, data).queues, all + data, n')
  {
    hide Expected, Replies;
    n' := n;
    Associate(q.fromDriver, all, data);
    Associate(Expected(q.exchanges[..n]), mid.fromDriver, data);
    if mid.mock && mid.exchanges != [] && mid.fromDriver + data == mid.exchanges[0].expectation {
      OneMoreMet(q.exchanges, n);
      EmptySides(Expected(q.exchanges[..n + 1]));
      Associate(q.toDriver, Replies(q.exchanges[..n]), mid.exchanges[0].reply);
      n' := n + 1;
    }
  }

  /** Nothing that was written is lost, changed or put out of order, in either mode and through all failures: it was
      expected and replied to, in order, or the test still finds it.  Outside mock mode the test finds all
      of it, and nothing else changes. */
  lemma {:induction false} WritesAreKept(q: Queues, writes: seq<Bytes>) returns (n: nat)
    ensures Accounts(q, WriteOn(q, writes), Flatten(writes), n)
    ensures !q.mock ==> WriteOn(q, writes) == q.(fromDriver := q.fromDriver + Flatten(writes))
    decreases |writes|
  {
    hide Expected, Replies, WriteTo, Flatten;
    if writes == [] {
      FlattenNone<byte>();
      n := 0;
      NothingMet(q);
    } else {
      var init, data := writes[..|writes| - 1], writes[|writes| - 1];
      n := WritesAreKept(q, init);
      n := WriteAccounts(q, WriteOn(q, init), Flatten(init), n, data);
      assert writes == init + [data];
      FlattenAppend(init, [data]);
      FlattenOne(data);
      NothingMet(q);
    }
  }

  lemma NothingMet(q: Queues)
    ensures Expected(q.exchanges[..0]) == [] && Replies(q.exchanges[..0]) == [] && q.exchanges[0..] == q.exchanges
    ensures Accounts(q, q, [], 0)
  {
    EmptySides(q.fromDriver);
    EmptySides(q.toDriver);
  }

  class TestStream {
    var mock: bool
    var eof: bool
    var toDriver: Bytes
    var fromDriver: Bytes
    var exchanges: seq<Exchange>

    ghost function State(): Queues
      reads this
    {
      Queues(mock, toDriver, fromDriver, exchanges)
    }

    constructor ()
      ensures State() == Queues(false, [], [], []) && !eof
    {
      mock, eof, toDriver, fromDriver, exchanges := false, false, [], [], [];
    }

    method PushDataToDriver(data: Bytes)
      modifies this
      ensures State() == old(State()).(toDriver := old(toDriver) + data) && eof == old(eof)
    {
      toDriver := toDriver + data;
    }

    method ReadDataFromDriver() returns (data: Bytes)
      modifies this
      ensures data == old(fromDriver) && State() == old(State()).(fromDriver := []) && eof == old(eof)
    {
      data := fromDriver;
      fromDriver := [];
    }

    method WaitRead(timeout: int) returns (r: bool)
      ensures r == (toDriver != [])
    {
      r := toDriver != [];
    }

    /** A read is that of a stream that offers all it has; it never waits and never fails. */
    method Read(buffer: array<byte>, room: nat) returns (n: nat)
      requires room <= buffer.Length
      modifies this, buffer
      ensures var all := [Deliver(|old(toDriver)|)];
              && Moved(n) == TransferOf(old(toDriver), all, room)
              && buffer[..n] == Delivered(old(toDriver), all, room)
              && State() == old(State()).(toDriver := Remaining(old(toDriver), all, room))
      ensures buffer[n..] == old(buffer[n..]) && eof == old(eof)
    {
      n := Min(|toDriver|, room);
      forall i | 0 <= i < n {
        buffer[i] := toDriver[i];
      }
      toDriver := toDriver[n..];
    }

    method Write(data: Bytes) returns (r: Result)
      modifies this
      ensures var w := WriteTo(old(State()), data); State() == w.queues && r == w.result
      ensures eof == old(eof)
    {
      fromDriver := fromDriver + data;
      if mock {
        if exchanges == [] {
          return Fails(NoExpectationLeft);
        }
        if fromDriver == exchanges[0].expectation {
          toDriver := toDriver + exchanges[0].reply;
          fromDriver, exchanges := [], exchanges[1..];
        } else {
          exchanges := [];
          return Fails(Mismatch);
        }
      }
      r := Ok(|data|);
    }

    method ExpectReply(expectation: Bytes, reply: Bytes) returns (r: Result)
      modifies this
      ensures !mock ==> r == Fails(MockContext) && State() == old(State())
      ensures mock ==> r == Ok(0) && State() == old(State()).(exchanges := old(exchanges) + [Exchange(expectation,
                                                                                                      reply)])
      ensures mock == old(mock) && eof == old(eof)
    {
      if !mock {
        return Fails(MockContext);
      }
      exchanges := exchanges + [Exchange(expectation, reply)];
      r := Ok(0);
    }

    method Clear()
      modifies this
      ensures State() == old(State()).(toDriver := []) && eof == old(eof)
    {
      toDriver := [];
    }

    method ClearExpectations()
      modifies this
      ensures State() == old(State()).(exchanges := []) && eof == old(eof)
    {
      exchanges := [];
    }

    method SetMockMode(mode: bool)
      modifies this
      ensures State() == old(State()).(mock := mode, fromDriver := []) && eof == old(eof)
    {
      mock, fromDriver := mode, [];
    }
  }
}
