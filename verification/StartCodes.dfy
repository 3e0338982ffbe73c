/**
 The extractor pattern that the repository's documentation gives for protocols with a start code:
 look for the code, discard everything when it is nowhere to be seen.  The pattern is not stable,
 because an early "discard the whole buffer" is revised once the code arrives; this module finds
 out when it is nevertheless safe.
 */
module StartCodes {
  import opened Extraction

  /** What validation says of a buffer that starts with the code: not enough bytes (0), a packet
      of that size (> 0), or not a packet after all (< 0). */
  type Judge = j: Bytes -> int | forall b: Bytes :: j(b) <= |b|
    witness (b: Bytes) => 0

  predicate At(code: Bytes, b: Bytes, j: nat)
    requires j <= |b|
  {
    code <= b[j..]
  }

  /** Where `code` first occurs completely in `b` at or after `i`, or |b| when it does not. */
  function FindCode(code: Bytes, b: Bytes, i: nat): (k: nat)
    requires i <= |b|
    ensures i <= k <= |b|
    ensures k < |b| ==> At(code, b, k)
    ensures forall j :: i <= j < k ==> !At(code, b, j)
    decreases |b| - i
  {
    if i == |b| then i else if At(code, b, i) then i else FindCode(code, b, i + 1)
  }

  /** The documented pattern, step by step. */
  function Pattern(code: Bytes, judge: Judge, b: Bytes): int {
    if |b| < |code| || b == [] then 0
    else if !At(code, b, 0) then var k: int := FindCode(code, b, 1); -k
    else if judge(b) < 0 then -1
    else judge(b)
  }

  function Reader(code: Bytes, judge: Judge): Extractor {
    (b: Bytes) => Pattern(code, judge, b)
  }

  ghost predicate Settled(judge: Judge) {
    forall b: Bytes, x: Bytes :: b != [] ==> KeepsJudging(judge, b, x)
  }

  predicate KeepsJudging(judge: Judge, b: Bytes, x: Bytes) {
    judge(b) != 0 ==> judge(b + x) == judge(b)
  }

  lemma CodeAt(code: Bytes, b: Bytes, j: nat)
    requires |code| == 1 && j < |b|
    ensures At(code, b, j) <==> b[j] == code[0]
  {
  }

  /** For a one-byte code the search stops at the first byte that equals it. */
  lemma FindByte(code: Bytes, b: Bytes, i: nat)
    requires |code| == 1 && i <= |b|
    ensures forall j :: i <= j < FindCode(code, b, i) ==> b[j] != code[0]
    ensures FindCode(code, b, i) < |b| ==> b[FindCode(code, b, i)] == code[0]
  {
    forall j | i <= j < |b| ensures At(code, b, j) <==> b[j] == code[0] {
      CodeAt(code, b, j);
    }
  }

  /** Searching on from inside the noise finds the same byte. */
  lemma NextCode(code: Bytes, b: Bytes, k: nat)
    requires |code| == 1 && b != [] && 0 < k < FindCode(code, b, 1)
    ensures b[k] != code[0] && k + FindCode(code, b[k..], 1) == FindCode(code, b, 1)
  {
    var i := FindCode(code, b, 1);
    var c := b[k..];
    FindByte(code, b, 1);
    FindByte(code, c, 1);
    assert forall j :: 0 <= j < |c| ==> c[j] == b[k + j];
    assert i < |b| ==> c[i - k] == code[0];
  }

  lemma AskNoise(code: Bytes, judge: Judge, b: Bytes)
    requires |code| == 1 && b != [] && b[0] != code[0]
    ensures Ask(Reader(code, judge), b) == Discard(FindCode(code, b, 1))
  {
  }

  /** A discard may be made in two parts. */
  lemma SplitDiscard(f: Extractor, b: Bytes, i: nat, k: nat)
    requires b != [] && Ask(f, b) == Discard(i) && k <= i
    requires k < i ==> Ask(f, b[k..]) == Discard(i - k)
    ensures Packets(f, b) == Packets(f, b[k..])
  {
  }

  /** Dropping bytes before the first possible start of a one-byte code changes no packet. */
  lemma SkipToCode(code: Bytes, judge: Judge, b: Bytes, k: nat)
    requires |code| == 1 && k <= |b|
    requires forall j :: 0 <= j < k ==> b[j] != code[0]
    ensures Packets(Reader(code, judge), b) == Packets(Reader(code, judge), b[k..])
  {
    if k > 0 {
      var f := Reader(code, judge);
      var i := FindCode(code, b, 1);
      AskNoise(code, judge, b);
      FindByte(code, b, 1);
      if k < i {
        NextCode(code, b, k);
        AskNoise(code, judge, b[k..]);
      }
      SplitDiscard(f, b, i, k);
    }
  }

  lemma NoiseResumes(code: Bytes, judge: Judge, b: Bytes, x: Bytes)
    requires |code| == 1 && b != [] && b[0] != code[0]
    ensures Resumes(Reader(code, judge), b, x)
  {
    AskNoise(code, judge, b);
    var i := FindCode(code, b, 1);
    assert Packets(Reader(code, judge), b + x) == Packets(Reader(code, judge), b[i..] + x) by {
      FindByte(code, b, 1);
      assert (b + x)[i..] == b[i..] + x;
      SkipToCode(code, judge, b + x, i);
    }
  }

  lemma FrameResumes(code: Bytes, judge: Judge, b: Bytes, x: Bytes)
    requires |code| == 1 && b != [] && b[0] == code[0] && KeepsJudging(judge, b, x)
    ensures Resumes(Reader(code, judge), b, x)
  {
    CodeAt(code, b, 0);
    CodeAt(code, b + x, 0);
    assert (b + x)[1..] == b[1..] + x;
  }

  /** With a one-byte start code the pattern is chunk-independent, whatever the validation, as
      long as validation itself does not change its mind. */
  lemma OneByteCodeIsResumable(code: Bytes, judge: Judge)
    requires |code| == 1 && Settled(judge)
    ensures Resumable(Reader(code, judge))
  {
    forall b: Bytes, x: Bytes | b != []
      ensures Resumes(Reader(code, judge), b, x)
    {
      if b[0] == code[0] {
        assert KeepsJudging(judge, b, x);
        FrameResumes(code, judge, b, x);
      } else {
        NoiseResumes(code, judge, b, x);
      }
    }
  }

  function Filler(c: byte, n: nat): (b: Bytes)
    ensures |b| == n && forall j :: 0 <= j < n ==> b[j] != c
  {
    seq(n, _ => if c == 0 then 1 as byte else 0)
  }

  /** Behind filler, the search runs to the tail, and past it when the tail is shorter than the
      code. */
  lemma FindBehindFiller(code: Bytes, tail: Bytes, k: nat)
    requires k > 0 && code != []
    requires code <= tail || |tail| < |code|
    ensures var w := Filler(code[0], k) + tail;
            !At(code, w, 0) &&
            FindCode(code, w, 1) == if code <= tail then k else |w|
  {
    var w := Filler(code[0], k) + tail;
    forall j | 0 <= j < k ensures !At(code, w, j) {
      assert w[j..][0] == w[j] == Filler(code[0], k)[j];
    }
    assert w[k..] == tail;
    assert At(code, w, k) <==> code <= tail;
  }

  lemma WholeFrame(code: Bytes, judge: Judge, frame: Bytes)
    requires code != [] && code <= frame && judge(frame) == |frame|
    ensures Packets(Reader(code, judge), frame) == [frame]
  {
    assert frame[0..] == frame;
    assert At(code, frame, 0);
    assert Ask(Reader(code, judge), frame) == Packet(|frame|);
    assert frame[..|frame|] == frame && frame[|frame|..] == [];
  }

  lemma FillerDiscarded(code: Bytes, judge: Judge, tail: Bytes, k: nat)
    requires k > 0 && code != [] && k + |tail| >= |code| && (code <= tail || |tail| < |code|)
    ensures var b := Filler(code[0], k) + tail;
            Ask(Reader(code, judge), b) == Discard(if code <= tail then k else |b|)
  {
    FindBehindFiller(code, tail, k);
  }

  lemma DiscardGoesOn(f: Extractor, b: Bytes, n: nat)
    requires b != [] && n <= |b| && Ask(f, b) == Discard(n)
    ensures Packets(f, b) == Packets(f, b[n..]) && Residue(f, b) == Residue(f, b[n..])
  {
  }

  lemma TooShortForFrame(f: Extractor, x: Bytes, frame: Bytes)
    requires |x| < |frame|
    ensures Packets(f, x) != [frame]
  {
    ParseWithinBounds(f, x);
    assert Size([frame]) == |frame|;
  }

  /** A longer start code that straddles two reads is lost: the first read ends with the code's
      first byte, the pattern discards it with the rest, and the frame is never found. */
  lemma LongCodeLosesFrame(code: Bytes, judge: Judge, frame: Bytes)
    returns (b: Bytes, x: Bytes)
    requires |code| >= 2 && code <= frame && judge(frame) == |frame|
    ensures b + x == Filler(code[0], |code| - 1) + frame && b != []
    ensures Packets(Reader(code, judge), b + x) == [frame]
    ensures Packets(Reader(code, judge), Residue(Reader(code, judge), b) + x) != [frame]
    ensures !Resumes(Reader(code, judge), b, x)
  {
    hide Reader, Packets, Residue, Filler, Ask;
    var f := Reader(code, judge);
    var k := |code| - 1;
    var noise := Filler(code[0], k);
    b, x := noise + [code[0]], frame[1..];
    assert frame == [code[0]] + x;
    Associate(noise, [code[0]], x);
    FillerDiscarded(code, judge, [code[0]], k);
    FillerDiscarded(code, judge, frame, k);
    DiscardGoesOn(f, b, |b|);
    DiscardGoesOn(f, b + x, k);
    assert (b + x)[k..] == frame && b[|b|..] == [];
    WholeFrame(code, judge, frame);
    EmptySides(x);
    NothingLeft(f);
    TooShortForFrame(f, x, frame);
  }

  lemma NothingLeft(f: Extractor)
    ensures Residue(f, []) == []
  {
  }

  /** The documented pattern reassembles independently of chunking exactly when the start code is
      a single byte. */
  lemma PatternIsSafeIffOneByte(code: Bytes, judge: Judge, frame: Bytes)
    requires code != [] && Settled(judge)
    requires code <= frame && judge(frame) == |frame|
    ensures Resumable(Reader(code, judge)) <==> |code| == 1
  {
    if |code| == 1 {
      OneByteCodeIsResumable(code, judge);
    } else {
      var b, x := LongCodeLosesFrame(code, judge, frame);
      assert b != [] && !Resumes(Reader(code, judge), b, x);
    }
  }

  /** Even with a one-byte code the pattern is not stable in the strict sense. */
  lemma PatternIsNotStable(code: Bytes, judge: Judge)
    requires |code| == 1
    ensures !Stable(Reader(code, judge))
  {
    var one := Filler(code[0], 1);
    var two := one + one;
    AskNoise(code, judge, one);
    AskNoise(code, judge, two);
    FindByte(code, two, 1);
    assert FindCode(code, two, 1) == 2;
    assert !Keeps(Reader(code, judge), one, one);
  }
}
