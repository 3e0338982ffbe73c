/**
 findPacket refines the reference parser in both of its modes, and what it lets the driver cut out
 of the buffer does not change the packets of whatever arrives later.
 */
module Scanning {
  import opened Extraction
  import opened Engine

  /** The undecided tail of `b` is one the extractor claims more bytes of than there are. */
  predicate EndsInOverrun(f: Extractor, b: Bytes) {
    Residue(f, b) != [] && Ask(f, Residue(f, b)).Overrun?
  }

  /** Bytes of `b` that belong to no packet and are not undecided either. */
  function Garbage(f: Extractor, b: Bytes): int {
    |b| - |Residue(f, b)| - Size(Packets(f, b))
  }

  predicate Within(b: Bytes, r: Scan) {
    r.Found? ==> r.offset + r.size <= |b|
  }

  /** The packet `r` reports in `b`, empty when there is none. */
  function PacketOf(b: Bytes, r: Scan): Bytes
    requires Within(b, r)
  {
    if r.Found? then b[r.offset..r.offset + r.size] else []
  }

  /** What stays in the buffer when it is cut as `r` says. */
  function Rest(b: Bytes, r: Scan): Bytes
    requires Within(b, r)
  {
    if r.Found? then b[r.offset + r.size..] else b
  }

  /** `r'` says of `b` what `r` says of its tail from `n` on. */
  predicate Shifted(b: Bytes, n: nat, r: Scan, r': Scan) {
    && n <= |b| && Within(b[n..], r) && Within(b, r') && r.TooLong? == r'.TooLong?
    && (r.Found? ==> r'.offset == n + r.offset && r'.size == r.size)
  }

  lemma Shift(b: Bytes, n: nat, r: Scan, r': Scan)
    requires Shifted(b, n, r, r')
    ensures PacketOf(b, r') == PacketOf(b[n..], r)
    ensures r.Found? ==> Rest(b, r') == Rest(b[n..], r)
  {
    if r.Found? {
      SliceOfTail(b, n, r.offset, r.size);
    }
  }

  // First-packet mode ---------------------------------------------------------------------------

  /** The packet reported is the first one of `b`; none is reported only if `b` has none.  The scan
      ends behind that packet, at an undecided position, at the end of the buffer, or in the length
      error. */
  predicate ReportsFirst(f: Extractor, b: Bytes, r: Scan)
    requires Within(b, r)
  {
    if r.TooLong? then Packets(f, b) == [] && EndsInOverrun(f, b)
    else if r.size > 0 then
      && Packets(f, b) == [PacketOf(b, r)] + Packets(f, Rest(b, r))
      && Residue(f, b) == Residue(f, Rest(b, r))
    else
      && Packets(f, b) == [] && Rest(b, r) == Residue(f, b)
      && (Rest(b, r) == [] || f(Rest(b, r)) == 0)
  }

  lemma ShiftFirst(f: Extractor, b: Bytes, n: nat, r: Scan, r': Scan)
    requires Shifted(b, n, r, r') && ReportsFirst(f, b[n..], r)
    requires Packets(f, b) == Packets(f, b[n..]) && Residue(f, b) == Residue(f, b[n..])
    ensures ReportsFirst(f, b, r')
  {
    Shift(b, n, r, r');
  }

  /** findPacket in first-packet mode: the offset is the sum of the leading discards, the packet is
      the reference parser's first, and the counters are left to the caller. */
  lemma {:induction false} ScanFirst(f: Extractor, b: Bytes)
    requires b != []
    ensures var r := FindPacket(f, false, b);
            && ReportsFirst(f, b, r)
            && (r.Found? ==> r.offset == Lead(f, b))
            && r.bad == 0 && r.good == 0
    decreases |b|
  {
    var v := Ask(f, b);
    if v.Discard? && v.n < |b| {
      ScanFirst(f, b[v.n..]);
      ShiftFirst(f, b, v.n, FindPacket(f, false, b[v.n..]), FindPacket(f, false, b));
    }
  }

  // Extract-last mode ---------------------------------------------------------------------------

  /** The last packet of `b` if it has one, and otherwise the first discard alone. */
  predicate ReportsLast(f: Extractor, b: Bytes, r: Scan)
    requires b != [] && Within(b, r)
  {
    var ps := Packets(f, b);
    r.Found? ==>
      if ps != [] then
        && r.size > 0 && PacketOf(b, r) == ps[|ps| - 1]
        && Packets(f, Rest(b, r)) == [] && Residue(f, Rest(b, r)) == Residue(f, b)
      else
        r.size == 0 && r.offset == (if Ask(f, b).Discard? then Ask(f, b).n else 0)
  }

  lemma ShiftLast(f: Extractor, b: Bytes, n: nat, r: Scan, r': Scan)
    requires b != [] && n < |b| && Shifted(b, n, r, r') && ReportsLast(f, b[n..], r)
    requires r.Found? ==> r.size > 0
    requires Packets(f, b) == Packets(f, b[n..]) || Packets(f, b) == [b[..n]] + Packets(f, b[n..])
    requires Residue(f, b) == Residue(f, b[n..])
    ensures ReportsLast(f, b, r')
  {
    Shift(b, n, r, r');
  }

  /** findPacket in extract-last mode reports the last packet, or the first discard alone. */
  lemma {:induction false} ScanLast(f: Extractor, b: Bytes)
    requires b != []
    ensures ReportsLast(f, b, FindPacket(f, true, b))
    decreases |b|
  {
    var v := Ask(f, b);
    if (v.Discard? || v.Packet?) && v.n < |b| {
      ScanLast(f, b[v.n..]);
      var r, r' := FindPacket(f, true, b[v.n..]), FindPacket(f, true, b);
      if r.Found? && r.size > 0 {
        ShiftLast(f, b, v.n, r, r');
      }
    }
  }

  /** What the next decision adds to the reference parser's figures. */
  lemma DecisionCounts(f: Extractor, b: Bytes)
    requires b != [] && Span(f, b) > 0
    ensures var n := Span(f, b); var c := b[n..];
            && Residue(f, b) == Residue(f, c)
            && Size(Packets(f, b)) == Size(Packets(f, c)) + (if Ask(f, b).Packet? then n else 0)
            && Garbage(f, b) == Garbage(f, c) + (if Ask(f, b).Discard? then n else 0)
  {
  }

  /** On its way the scan of extract-last mode adds every packet and all garbage of the buffer to
      the counters, whatever is cut out afterwards, and also when it ends in the length error. */
  lemma {:induction false} ScanLastCounts(f: Extractor, b: Bytes)
    requires b != []
    ensures var r := FindPacket(f, true, b);
            && r.good == Size(Packets(f, b)) && r.bad == Garbage(f, b)
            && (r.TooLong? <==> EndsInOverrun(f, b))
    decreases |b|
  {
    hide Packets, Residue, Size, Garbage;
    if Span(f, b) > 0 {
      DecisionCounts(f, b);
      if Span(f, b) < |b| {
        ScanLastCounts(f, b[Span(f, b)..]);
      } else {
        NoneCounts(f, b[Span(f, b)..]);
      }
    } else {
      NoDecision(f, b);
      NoneCounts(f, b);
    }
  }

  lemma NoneCounts(f: Extractor, b: Bytes)
    requires b == [] || Span(f, b) == 0
    ensures Residue(f, b) == b && Size(Packets(f, b)) == 0 && Garbage(f, b) == 0
  {
  }

  // Cutting -------------------------------------------------------------------------------------

  /** The packets that leave the buffer when it is cut as `r` says. */
  function Gone(f: Extractor, last: bool, b: Bytes, r: Scan): seq<Bytes>
    requires Within(b, r)
  {
    if last then Packets(f, b)
    else if r.Found? && r.size > 0 then [PacketOf(b, r)]
    else []
  }

  predicate Invisible(f: Extractor, last: bool, b: Bytes, r: Scan, x: Bytes)
    requires Within(b, r)
  {
    Packets(f, b + x) == Gone(f, last, b, r) + Packets(f, Rest(b, r) + x)
  }

  /** A cut of exactly one decision, behind which there is no packet yet. */
  lemma CutOneDecision(f: Extractor, last: bool, b: Bytes, n: nat, d: seq<Bytes>, x: Bytes, r: Scan)
    requires r.Found? && r.offset + r.size == n && Contributes(f, b, n, d, x)
    requires d == if r.size > 0 then [PacketOf(b, r)] else []
    requires last ==> Packets(f, b[n..]) == []
    ensures Invisible(f, last, b, r, x)
  {
  }

  /** One decision ahead of a cut that is itself invisible. */
  lemma AheadOfCut(f: Extractor, last: bool, b: Bytes, n: nat, d: seq<Bytes>, x: Bytes, r: Scan, r': Scan)
    requires Contributes(f, b, n, d, x) && (last || d == [])
    requires Shifted(b, n, r, r') && r.Found? && Invisible(f, last, b[n..], r, x)
    ensures Invisible(f, last, b, r', x)
  {
    Shift(b, n, r, r');
    Associate(d, Gone(f, last, b[n..], r), Packets(f, Rest(b, r') + x));
    if !last {
      assert d + Gone(f, last, b[n..], r) == Gone(f, last, b[n..], r);
    }
  }

  /** Cutting what findPacket reports off the front of the buffer is invisible to the future. */
  lemma {:induction false} CutIsInvisible(f: Extractor, last: bool, b: Bytes, x: Bytes)
    requires Resumable(f) && b != [] && FindPacket(f, last, b).Found?
    ensures Invisible(f, last, b, FindPacket(f, last, b), x)
    decreases |b|
  {
    hide Packets, Resumable;
    var r', n := FindPacket(f, last, b), Span(f, b);
    if n == 0 {
      NoDecision(f, b);
    } else {
      var d := Yield(f, b);
      OneDecision(f, b, x);
      if n == |b| || (Ask(f, b).Packet? && !last) {
        if n == |b| {
          NoDecision(f, b[n..]);
        }
        CutOneDecision(f, last, b, n, d, x, r');
      } else {
        var r := FindPacket(f, last, b[n..]);
        CutIsInvisible(f, last, b[n..], x);
        if last && r.size == 0 {
          ScanLast(f, b[n..]);
          CutOneDecision(f, last, b, n, d, x, r');
        } else {
          AheadOfCut(f, last, b, n, d, x, r, r');
        }
      }
    }
  }
}
