/**
 The extractor a driver is built around, and the reference parser that says which packets a
 byte string contains.  Nothing here knows about buffers, chunks or modes.
 */
module Extraction {

  newtype byte = x: int | 0 <= x < 256

  type Bytes = seq<byte>

  /** A pure packet extractor.  It is only ever asked about non-empty buffers, and never
      discards more bytes than it is given; it may claim a packet longer than its buffer, which
      is what the driver reports as a length error. */
  type Extractor = f: Bytes -> int | forall b: Bytes :: b != [] ==> -|b| <= f(b)
    witness (b: Bytes) => 0

  /** The four things an extractor can say about a non-empty buffer. */
  datatype Verdict = Wait | Discard(n: nat) | Packet(n: nat) | Overrun

  function Ask(f: Extractor, b: Bytes): (v: Verdict)
    requires b != []
    ensures v.Discard? || v.Packet? ==> 0 < v.n <= |b|
  {
    var e := f(b);
    if e == 0 then Wait else if e < 0 then Discard(-e) else if e <= |b| then Packet(e) else Overrun
  }

  /** The packets of `b`, in order, reading it once from left to right. */
  function Packets(f: Extractor, b: Bytes): seq<Bytes>
    decreases |b|
  {
    if b == [] then [] else
      match Ask(f, b)
      case Packet(n) => [b[..n]] + Packets(f, b[n..])
      case Discard(n) => Packets(f, b[n..])
      case _ => []
  }

  /** What is left of `b` once every decision the extractor can make has been made. */
  function Residue(f: Extractor, b: Bytes): Bytes
    decreases |b|
  {
    if b == [] then [] else
      match Ask(f, b)
      case Packet(n) => Residue(f, b[n..])
      case Discard(n) => Residue(f, b[n..])
      case _ => b
  }

  /** How many bytes are discarded before the first packet or undecided position. */
  function Lead(f: Extractor, b: Bytes): nat
    decreases |b|
  {
    if b == [] then 0 else
      match Ask(f, b)
      case Discard(n) => n + Lead(f, b[n..])
      case _ => 0
  }

  function Size(ps: seq<Bytes>): nat {
    if ps == [] then 0 else |ps[0]| + Size(ps[1..])
  }

  function Flatten<T>(ps: seq<seq<T>>): seq<T> {
    if ps == [] then [] else ps[0] + Flatten(ps[1..])
  }

  lemma Associate<T>(a: seq<T>, b: seq<T>, c: seq<T>)
    ensures a + (b + c) == (a + b) + c
  {
  }

  lemma EmptySides<T>(a: seq<T>)
    ensures a + [] == a && [] + a == a
  {
  }

  predicate Prefix<T(==)>(a: seq<T>, b: seq<T>) {
    |a| <= |b| && a == b[..|a|]
  }

  lemma PrefixOfSum<T>(a: seq<T>, b: seq<T>)
    ensures Prefix(a, a + b)
  {
  }

  lemma MovePrefix<T>(a: seq<T>, b: seq<T>, n: nat)
    requires n <= |b|
    ensures a + b == (a + b[..n]) + b[n..]
  {
  }

  lemma SliceOfTail<T>(w: seq<T>, d: nat, i: nat, n: nat)
    requires d + i + n <= |w|
    ensures w[d..][i..i + n] == w[d + i..d + i + n]
    ensures w[d..][i + n..] == w[d + i + n..]
  {
  }

  lemma SliceUnderAppend<T>(w: seq<T>, x: seq<T>, d: nat, i: nat, n: nat)
    requires d <= |w| && i + n <= |w|
    ensures (w + x)[d..] == w[d..] + x
    ensures (w + x)[i..i + n] == w[i..i + n]
  {
  }

  lemma {:induction false} SizeAppend(a: seq<Bytes>, b: seq<Bytes>)
    ensures Size(a + b) == Size(a) + Size(b)
  {
    if a == [] {
      assert a + b == b;
    } else {
      assert (a + b)[1..] == a[1..] + b;
      SizeAppend(a[1..], b);
    }
  }

  lemma {:induction false} FlattenAppend<T>(a: seq<seq<T>>, b: seq<seq<T>>)
    ensures Flatten(a + b) == Flatten(a) + Flatten(b)
  {
    if a == [] {
      assert a + b == b;
    } else {
      assert (a + b)[1..] == a[1..] + b;
      FlattenAppend(a[1..], b);
    }
  }

  lemma FlattenOne<T>(a: seq<T>)
    ensures Flatten([a]) == a
  {
    assert [a][1..] == [];
    EmptySides(a);
  }

  lemma FlattenNone<T>()
    ensures Flatten<T>([]) == []
  {
  }

  /** Packets and residue never exceed the bytes they come from. */
  lemma {:induction false} ParseWithinBounds(f: Extractor, b: Bytes)
    ensures Size(Packets(f, b)) + |Residue(f, b)| <= |b|
    ensures forall p :: p in Packets(f, b) ==> p != []
    ensures Residue(f, b) <= b[|b| - |Residue(f, b)|..]
    decreases |b|
  {
    if b != [] {
      var v := Ask(f, b);
      if v.Packet? || v.Discard? {
        ParseWithinBounds(f, b[v.n..]);
        if v.Packet? {
          SizeAppend([b[..v.n]], Packets(f, b[v.n..]));
        }
      }
    }
  }

  /** `f`'s decision on `b` survives the arrival of `x`. */
  predicate Keeps(f: Extractor, b: Bytes, x: Bytes)
    requires b != []
  {
    f(b) != 0 ==> f(b + x) == f(b)
  }

  /** Strict prefix stability: once the extractor has decided, more bytes change nothing. */
  ghost predicate Stable(f: Extractor) {
    forall b: Bytes, x: Bytes :: b != [] ==> Keeps(f, b, x)
  }

  /** A packet found in `b` stays found when `x` arrives, and a discard, which may have been made
      early, does not change the packets found once `x` is there. */
  predicate Resumes(f: Extractor, b: Bytes, x: Bytes)
    requires b != []
  {
    match Ask(f, b)
    case Packet(n) => f(b + x) == n
    case Discard(n) => Packets(f, b + x) == Packets(f, b[n..] + x)
    case _ => true
  }

  /** The weaker property that reassembly really needs. */
  ghost predicate Resumable(f: Extractor) {
    forall b: Bytes, x: Bytes :: b != [] ==> Resumes(f, b, x)
  }

  lemma StableIsResumable(f: Extractor)
    requires Stable(f)
    ensures Resumable(f)
  {
    forall b: Bytes, x: Bytes | b != []
      ensures Resumes(f, b, x)
    {
      assert Keeps(f, b, x);
      var v := Ask(f, b);
      if v.Discard? {
        assert (b + x)[v.n..] == b[v.n..] + x;
      }
    }
  }

  /** How many bytes the next decision on `b` covers, and the packets it yields (one or none). */
  function Span(f: Extractor, b: Bytes): (n: nat)
    requires b != []
    ensures n <= |b|
  {
    if Ask(f, b).Packet? || Ask(f, b).Discard? then Ask(f, b).n else 0
  }

  function Yield(f: Extractor, b: Bytes): seq<Bytes>
    requires b != []
  {
    if Ask(f, b).Packet? then [b[..Ask(f, b).n]] else []
  }

  /** `d` is what the first `n` bytes of `b` contribute, whether or not `x` follows. */
  predicate Contributes(f: Extractor, b: Bytes, n: nat, d: seq<Bytes>, x: Bytes) {
    && n <= |b|
    && Packets(f, b + x) == d + Packets(f, b[n..] + x)
    && Packets(f, b) == d + Packets(f, b[n..])
  }

  /** One decision, seen with and without the bytes still to come. */
  lemma OneDecision(f: Extractor, b: Bytes, x: Bytes)
    requires Resumable(f) && b != [] && Span(f, b) > 0
    ensures Contributes(f, b, Span(f, b), Yield(f, b), x)
    ensures Residue(f, b) == Residue(f, b[Span(f, b)..])
  {
    var n := Span(f, b);
    assert Resumes(f, b, x);
    assert (b + x)[..n] == b[..n] && (b + x)[n..] == b[n..] + x;
  }

  lemma NoDecision(f: Extractor, b: Bytes)
    requires b == [] || Span(f, b) == 0
    ensures Packets(f, b) == [] && Residue(f, b) == b
  {
  }

  /** Parsing can stop anywhere and resume on the residue: the law behind reassembly. */
  lemma {:induction false} Resume(f: Extractor, b: Bytes, x: Bytes)
    requires Resumable(f)
    ensures Packets(f, b + x) == Packets(f, b) + Packets(f, Residue(f, b) + x)
    decreases |b|
  {
    hide Packets, Residue;
    if b == [] || Span(f, b) == 0 {
      NoDecision(f, b);
    } else {
      var rest := b[Span(f, b)..];
      OneDecision(f, b, x);
      Resume(f, rest, x);
      Associate(Yield(f, b), Packets(f, rest), Packets(f, Residue(f, rest) + x));
    }
  }

  lemma OneStableDecision(f: Extractor, b: Bytes, x: Bytes)
    requires Stable(f) && b != [] && Span(f, b) > 0
    ensures Residue(f, b + x) == Residue(f, b[Span(f, b)..] + x)
    ensures Residue(f, b) == Residue(f, b[Span(f, b)..])
  {
    assert Keeps(f, b, x);
    assert (b + x)[Span(f, b)..] == b[Span(f, b)..] + x;
  }

  /** For a stable extractor the undecided tail resumes in the same way. */
  lemma {:induction false} ResumeResidue(f: Extractor, b: Bytes, x: Bytes)
    requires Stable(f)
    ensures Residue(f, b + x) == Residue(f, Residue(f, b) + x)
    decreases |b|
  {
    hide Residue;
    if b == [] || Span(f, b) == 0 {
      NoDecision(f, b);
    } else {
      OneStableDecision(f, b, x);
      ResumeResidue(f, b[Span(f, b)..], x);
    }
  }

  // The extractors of the repository's own tests.

  /** Four-byte frames that start and end with a zero byte. */
  function DriverTest(b: Bytes): int {
    if b == [] then 0
    else if b[0] != 0 then -1
    else if |b| < 4 then 0
    else if b[3] == 0 then 4
    else -4
  }

  function FirstZero(b: Bytes): (i: nat)
    ensures i <= |b|
    ensures forall k :: 0 <= k < i ==> b[k] != 0
    ensures i < |b| ==> b[i] == 0
  {
    if b == [] || b[0] == 0 then 0 else 1 + FirstZero(b[1..])
  }

  /** Zero-terminated packets of any length. */
  function PacketForwardDriver(b: Bytes): int {
    if FirstZero(b) < |b| then FirstZero(b) + 1 else 0
  }

  function RawForwardDriver(b: Bytes): int {
    0
  }

  lemma TestExtractorsAreStable()
    ensures Stable(DriverTest) && Stable(PacketForwardDriver) && Stable(RawForwardDriver)
  {
    forall b: Bytes, x: Bytes | b != []
      ensures Keeps(PacketForwardDriver, b, x)
    {
      if FirstZero(b) < |b| {
        assert (b + x)[FirstZero(b)] == 0;
        assert FirstZero(b + x) == FirstZero(b);
      }
    }
  }
}
