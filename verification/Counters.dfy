/** The driver's status record: 32-bit counters that wrap around. */
module Counters {
  const U32 := 0x1_0000_0000

  type u32 = n: nat | n < U32

  function Add32(a: u32, n: nat): u32 {
    (a + n) % U32
  }

  datatype Status = Status(tx: u32, goodRx: u32, badRx: u32, queuedBytes: u32)

  const EMPTY_STATUS := Status(0, 0, 0, 0)

  function Credit(s: Status, bad: nat, good: nat): Status {
    s.(badRx := Add32(s.badRx, bad), goodRx := Add32(s.goodRx, good))
  }

  /** Conversion to unsigned int. */
  function Wrap(n: int): u32 {
    n % U32
  }

  /** The counters show the true counts, as far as 32 bits can. */
  predicate Shows(s: Status, bad: nat, good: nat) {
    s.badRx == Wrap(bad) && s.goodRx == Wrap(good)
  }

  lemma CreditShows(s: Status, bad: nat, good: nat, moreBad: nat, moreGood: nat)
    requires Shows(s, bad, good)
    ensures Shows(Credit(s, moreBad, moreGood), bad + moreBad, good + moreGood)
  {
  }

  /** Crediting in two steps is crediting once. */
  lemma CreditTwice(s: Status, bad: nat, good: nat, moreBad: nat, moreGood: nat)
    ensures Credit(Credit(s, bad, good), moreBad, moreGood) == Credit(s, bad + moreBad, good + moreGood)
  {
  }

  lemma AddTwice(a: u32, n: nat, m: nat)
    ensures Add32(Add32(a, n), m) == Add32(a, n + m) && Add32(a, 0) == a
  {
  }

  /** A sum of shown counters is the sum of the true counts, modulo 2^32. */
  lemma SumWraps(s: Status, bad: nat, good: nat, rest: nat)
    requires Shows(s, bad, good)
    ensures Wrap(s.goodRx + s.badRx + rest) == Wrap(good + bad + rest)
  {
  }
}
