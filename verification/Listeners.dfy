/** The buffer listener: an observer that is passed all data a driver reads and writes. */
module Listeners {
  import opened Extraction

  /** Everything a listener was ever passed, in the two directions. */
  datatype Traffic = Traffic(read: Bytes, write: Bytes)

  type Audience = map<BufferListener, Traffic>

  /** The listeners after all of them were passed `data` as read. */
  ghost function ToldRead(m: Audience, data: Bytes): Audience {
    map l | l in m :: Traffic(m[l].read + data, m[l].write)
  }

  ghost function ToldWrite(m: Audience, data: Bytes): Audience {
    map l | l in m :: Traffic(m[l].read, m[l].write + data)
  }

  lemma ToldMore(m: Audience, a: Bytes, b: Bytes)
    ensures ToldRead(ToldRead(m, a), b) == ToldRead(m, a + b)
    ensures ToldWrite(ToldWrite(m, a), b) == ToldWrite(m, a + b)
  {
    forall l | l in m
      ensures m[l].read + a + b == m[l].read + (a + b) && m[l].write + a + b == m[l].write + (a + b)
    {
      Associate(m[l].read, a, b);
      Associate(m[l].write, a, b);
    }
  }

  lemma ToldNothing(m: Audience)
    ensures ToldRead(m, []) == m && ToldWrite(m, []) == m
  {
    forall l | l in m ensures m[l].read + [] == m[l].read && m[l].write + [] == m[l].write {
      EmptySides(m[l].read);
      EmptySides(m[l].write);
    }
  }

  /** The listeners after all of them were passed `read` and `written`, in whatever pieces. */
  ghost function ToldBoth(m: Audience, read: Bytes, written: Bytes): Audience {
    map l | l in m :: Traffic(m[l].read + read, m[l].write + written)
  }

  lemma ToldBothMore(m: Audience, read: Bytes, written: Bytes, data: Bytes)
    ensures ToldRead(ToldBoth(m, read, written), data) == ToldBoth(m, read + data, written)
    ensures ToldWrite(ToldBoth(m, read, written), data) == ToldBoth(m, read, written + data)
  {
    forall l | l in m
      ensures m[l].read + read + data == m[l].read + (read + data)
      ensures m[l].write + written + data == m[l].write + (written + data)
    {
      Associate(m[l].read, read, data);
      Associate(m[l].write, written, data);
    }
  }

  lemma ToldBothNothing(m: Audience)
    ensures ToldBoth(m, [], []) == m
  {
    forall l | l in m ensures m[l].read + [] == m[l].read && m[l].write + [] == m[l].write {
      EmptySides(m[l].read);
      EmptySides(m[l].write);
    }
  }

  /** `data` was accepted by a stream, and passed to all listeners as written. */
  ghost predicate Wrote(a: Bytes, m: Audience, a': Bytes, m': Audience, data: Bytes) {
    a' == a + data && m' == ToldWrite(m, data)
  }

  lemma WroteNothing(a: Bytes, m: Audience)
    ensures Wrote(a, m, a, m, [])
  {
    EmptySides(a);
    ToldNothing(m);
  }

  lemma WroteMore(a: Bytes, m: Audience, a': Bytes, m': Audience, data: Bytes, a'': Bytes, m'': Audience, more: Bytes)
    requires Wrote(a, m, a', m', data) && Wrote(a', m', a'', m'', more)
    ensures Wrote(a, m, a'', m'', data + more)
  {
    Associate(a, data, more);
    ToldMore(m, data, more);
  }

  class BufferListener {
    var readBuffer: Bytes
    var writeBuffer: Bytes
    ghost var readFlushed: Bytes
    ghost var writeFlushed: Bytes

    constructor ()
      ensures ReadTraffic() == [] && WriteTraffic() == []
    {
      readBuffer, writeBuffer, readFlushed, writeFlushed := [], [], [], [];
    }

    /** Everything ever read through the driver: what was flushed and what is still held. */
    ghost function ReadTraffic(): Bytes
      reads this
    {
      readFlushed + readBuffer
    }

    ghost function WriteTraffic(): Bytes
      reads this
    {
      writeFlushed + writeBuffer
    }

    ghost function Heard(): Traffic
      reads this
    {
      Traffic(ReadTraffic(), WriteTraffic())
    }

    method ReadData(data: Bytes)
      modifies this
      ensures ReadTraffic() == old(ReadTraffic()) + data && WriteTraffic() == old(WriteTraffic())
      ensures readBuffer == old(readBuffer) + data && writeBuffer == old(writeBuffer)
    {
      Associate(readFlushed, readBuffer, data);
      readBuffer := readBuffer + data;
    }

    method WriteData(data: Bytes)
      modifies this
      ensures WriteTraffic() == old(WriteTraffic()) + data && ReadTraffic() == old(ReadTraffic())
      ensures writeBuffer == old(writeBuffer) + data && readBuffer == old(readBuffer)
    {
      Associate(writeFlushed, writeBuffer, data);
      writeBuffer := writeBuffer + data;
    }

    /** Hands over what was read since the last flush; no traffic is lost or repeated by it. */
    method FlushRead() returns (ret: Bytes)
      modifies this
      ensures ret == old(readBuffer) && readBuffer == [] && writeBuffer == old(writeBuffer)
      ensures readFlushed == old(readFlushed) + ret
      ensures ReadTraffic() == old(ReadTraffic()) && WriteTraffic() == old(WriteTraffic())
    {
      ret := readBuffer;
      readBuffer, readFlushed := [], readFlushed + readBuffer;
    }

    method FlushWrite() returns (ret: Bytes)
      modifies this
      ensures ret == old(writeBuffer) && writeBuffer == [] && readBuffer == old(readBuffer)
      ensures writeFlushed == old(writeFlushed) + ret
      ensures WriteTraffic() == old(WriteTraffic()) && ReadTraffic() == old(ReadTraffic())
    {
      ret := writeBuffer;
      writeBuffer, writeFlushed := [], writeFlushed + writeBuffer;
    }
  }
}
