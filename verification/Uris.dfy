/**
 The URI parser, and the grammar it accepts: scheme://host[:port][?key=value(&key=value)*].
 A search that finds nothing answers with the length of the string searched.
 */
module Uris {
  // Searching -----------------------------------------------------------------------------------

  /** How many leading characters of `t` are in `cs`. */
  function Leading(t: string, cs: set<char>): (n: nat)
    ensures n <= |t| && (forall i :: 0 <= i < n ==> t[i] in cs) && (n < |t| ==> t[n] !in cs)
  {
    if t == [] || t[0] !in cs then 0 else 1 + Leading(t[1..], cs)
  }

  /** Where the first of `cs` is. */
  function Find(t: string, cs: set<char>): (n: nat)
    ensures n <= |t| && (forall i :: 0 <= i < n ==> t[i] !in cs) && (n < |t| ==> t[n] in cs)
  {
    if t == [] || t[0] in cs then 0 else 1 + Find(t[1..], cs)
  }

  function FindFrom(t: string, cs: set<char>, from: nat): (n: nat)
    requires from <= |t|
    ensures from <= n <= |t|
  {
    from + Find(t[from..], cs)
  }

  predicate Free(t: string, cs: set<char>) {
    forall c <- t :: c !in cs
  }

  /** A search finds what ends a free stretch. */
  lemma {:induction false} FindBehind(a: string, b: string, cs: set<char>)
    requires Free(a, cs) && (b == [] || b[0] in cs)
    ensures Find(a + b, cs) == |a|
  {
    if a == [] {
      assert a + b == b;
    } else {
      assert (a + b)[1..] == a[1..] + b;
      FindBehind(a[1..], b, cs);
    }
  }

  lemma FreeBeforeFind(t: string, cs: set<char>)
    ensures Free(t[..Find(t, cs)], cs)
  {
  }

  // Numbers -------------------------------------------------------------------------------------

  const BLANKS := {' ', '\t', '\n', '\U{000B}', '\U{000C}', '\r'}
  const DIGITS := {'0', '1', '2', '3', '4', '5', '6', '7', '8', '9'}

  function Number(t: string): nat
    requires forall c <- t :: c in DIGITS
  {
    if t == [] then 0
    else
      var last := t[|t| - 1];
      assert last in t;
      10 * Number(t[..|t| - 1]) + (last as int - '0' as int)
  }

  datatype Conversion = Converted(n: int, size: nat) | NotANumber | OutOfRange

  const INT_MAX := 2_147_483_647

  /** The digits of a number, behind `skip` other characters. */
  function Digit(negative: bool, skip: nat, digits: string): (r: Conversion)
    ensures r.Converted? ==> skip < r.size <= skip + |digits|
  {
    var d := Leading(digits, DIGITS);
    if d == 0 then NotANumber
    else
      var v: int := Number(digits[..d]);
      var n: int := if negative then -v else v;
      if -INT_MAX - 1 <= n <= INT_MAX then Converted(n, skip + d) else OutOfRange
  }

  function SignAt(t: string, a: nat): (n: nat)
    ensures a <= |t| ==> a + n <= |t|
  {
    if a < |t| && t[a] in {'+', '-'} then 1 else 0
  }

  /** C++'s stoi: blanks, a sign, digits, and whatever behind them; and how many characters that is. */
  function Stoi(t: string): (r: Conversion)
    ensures r.Converted? ==> 0 < r.size <= |t|
  {
    var a := Leading(t, BLANKS);
    var b := a + SignAt(t, a);
    Digit(a < |t| && t[a] == '-', b, t[b..])
  }

  /** The leading characters, when what is behind them changes. */
  lemma {:induction false} LeadingBefore(t: string, x: string, cs: set<char>)
    requires Leading(t, cs) < |t| || x == [] || x[0] !in cs
    ensures Leading(t + x, cs) == Leading(t, cs)
  {
    if t == [] {
      assert t + x == x;
    } else if t[0] in cs {
      assert (t + x)[1..] == t[1..] + x;
      LeadingBefore(t[1..], x, cs);
    }
  }

  lemma DigitsBefore(negative: bool, skip: nat, digits: string, x: string)
    requires x == "" || x[0] !in DIGITS
    requires Digit(negative, skip, digits).Converted?
    ensures Digit(negative, skip, digits + x) == Digit(negative, skip, digits)
  {
    hide Number;
    var d := Leading(digits, DIGITS);
    LeadingBefore(digits, x, DIGITS);
    assert (digits + x)[..d] == digits[..d];
  }

  /** A number is read the same with anything behind it that is no digit. */
  lemma StoiBefore(t: string, x: string)
    requires Stoi(t).Converted? && (x == "" || x[0] !in DIGITS)
    ensures Stoi(t + x) == Stoi(t)
  {
    hide Digit;
    var a := Leading(t, BLANKS);
    var b := a + SignAt(t, a);
    LeadingBefore(t, x, BLANKS);
    assert (t + x)[a] == t[a] && (t + x)[b..] == t[b..] + x;
    DigitsBefore(t[a] == '-', b, t[b..], x);
  }

  lemma {:induction false} LeadingOf(t: string, k: nat, cs: set<char>)
    requires Leading(t, cs) <= k <= |t|
    ensures Leading(t[..k], cs) == Leading(t, cs)
  {
  }

  lemma DigitsOf(negative: bool, skip: nat, digits: string)
    requires Digit(negative, skip, digits).Converted?
    ensures Digit(negative, skip, digits[..Digit(negative, skip, digits).size - skip]) == Digit(negative, skip, digits)
  {
    hide Number;
    var d := Leading(digits, DIGITS);
    LeadingOf(digits, d, DIGITS);
    assert digits[..d][..d] == digits[..d];
  }

  /** What was read as a number is one. */
  lemma StoiToken(t: string)
    requires Stoi(t).Converted?
    ensures Stoi(t[..Stoi(t).size]) == Stoi(t)
  {
    hide Digit;
    var k := Stoi(t).size;
    var a := Leading(t, BLANKS);
    var b := a + SignAt(t, a);
    LeadingOf(t, k, BLANKS);
    assert t[..k][a] == t[a] && t[..k][b..] == t[b..][..k - b];
    DigitsOf(t[a] == '-', b, t[b..]);
  }

  /** Decimal notation, which is what a program would write. */
  function DigitChar(d: nat): (c: char)
    requires d < 10
    ensures c in DIGITS && c as int - '0' as int == d
  {
    if d == 0 then '0' else if d == 1 then '1' else if d == 2 then '2' else if d == 3 then '3'
    else if d == 4 then '4' else if d == 5 then '5' else if d == 6 then '6' else if d == 7 then '7'
    else if d == 8 then '8' else '9'
  }

  function Decimal(n: nat): string {
    if n < 10 then [DigitChar(n)] else Decimal(n / 10) + [DigitChar(n % 10)]
  }

  function Notation(n: int): string {
    if n < 0 then "-" + Decimal(-n) else Decimal(n)
  }

  lemma {:induction false} NumberOfDecimal(n: nat)
    ensures Decimal(n) != "" && (forall c <- Decimal(n) :: c in DIGITS) && Number(Decimal(n)) == n
  {
    if n < 10 {
      assert Decimal(n)[..0] == "";
    } else {
      NumberOfDecimal(n / 10);
      var t := Decimal(n);
      assert t[..|t| - 1] == Decimal(n / 10);
    }
  }

  lemma {:induction false} LeadingAll(t: string, cs: set<char>)
    requires forall c <- t :: c in cs
    ensures Leading(t, cs) == |t|
  {
  }

  /** The texts that stoi converts, without saying how: blanks, a sign, zeros, decimal notation, and then no digit. */
  function Zeros(k: nat): string {
    if k == 0 then "" else Zeros(k - 1) + "0"
  }

  const SIGNS := {"", "+", "-"}

  predicate SpelledBy(t: string, blanks: string, sign: string, k: nat, m: nat, rest: string) {
    && t == blanks + (sign + (Zeros(k) + Decimal(m) + rest))
    && (forall c <- blanks :: c in BLANKS) && sign in SIGNS && (rest == "" || rest[0] !in DIGITS)
  }

  /** The first `size` characters of `t` spell `n`. */
  ghost predicate Spells(t: string, n: int, size: nat) {
    exists blanks, sign, k, m, rest ::
      SpelledBy(t, blanks, sign, k, m, rest) && n == Signed(sign, m) && size == |t| - |rest|
  }

  function Signed(sign: string, m: nat): int {
    var n: int := m;
    if sign == "-" then -n else n
  }

  predicate IsInt(n: int) {
    -INT_MAX - 1 <= n <= INT_MAX
  }

  predicate AllDigits(t: string) {
    forall c <- t :: c in DIGITS
  }

  lemma {:induction false} ZerosAreDigits(k: nat)
    ensures AllDigits(Zeros(k)) && |Zeros(k)| == k && Number(Zeros(k)) == 0
  {
    if k > 0 {
      ZerosAreDigits(k - 1);
      assert Zeros(k)[..|Zeros(k)| - 1] == Zeros(k - 1);
    }
  }

  lemma {:induction false} LeadingZeros(k: nat, t: string)
    requires AllDigits(t)
    ensures AllDigits(Zeros(k) + t) && Number(Zeros(k) + t) == Number(t)
    decreases |t|
  {
    ZerosAreDigits(k);
    if t == "" {
      assert Zeros(k) + t == Zeros(k);
    } else {
      var init := t[..|t| - 1];
      LeadingZeros(k, init);
      assert (Zeros(k) + t)[..|Zeros(k) + t| - 1] == Zeros(k) + init;
    }
  }

  lemma OneMoreDigit(k: nat, v: nat, c: char) returns (k': nat)
    requires c in DIGITS
    ensures var d := c as int - '0' as int;
            d >= 0 && Zeros(k) + Decimal(v) + [c] == Zeros(k') + Decimal(10 * v + d)
  {
    var d := c as int - '0' as int;
    assert 0 <= d < 10 && DigitChar(d) == c;
    if v == 0 {
      assert Zeros(k + 1) == Zeros(k) + "0" && Decimal(v) == "0" && Decimal(d) == [c];
      k' := k + 1;
    } else {
      assert Decimal(10 * v + d) == Decimal(v) + [c];
      k' := k;
    }
  }

  /** All digits are zeros and then decimal notation. */
  lemma {:induction false} DigitsAreDecimal(t: string) returns (k: nat)
    requires t != "" && AllDigits(t)
    ensures t == Zeros(k) + Decimal(Number(t))
    decreases |t|
  {
    hide Zeros, Decimal;
    var init, c := t[..|t| - 1], t[|t| - 1];
    assert c in t && t == init + [c];
    if init == "" {
      k := OneDigit(c);
    } else {
      var k' := DigitsAreDecimal(init);
      k := OneMoreDigit(k', Number(init), c);
    }
  }

  lemma OneDigit(c: char) returns (k: nat)
    requires c in DIGITS
    ensures [c] == Zeros(k) + Decimal(Number([c]))
  {
    var d := c as int - '0' as int;
    assert 0 <= d < 10 && DigitChar(d) == c;
    assert [c][..0] == "";
    k := 0;
  }

  lemma ReadAfter(negative: bool, skip: nat, digits: string, rest: string)
    requires digits != "" && AllDigits(digits) && (rest == "" || rest[0] !in DIGITS)
    ensures var m: int := Number(digits);
            var n := if negative then -m else m;
            Digit(negative, skip, digits + rest) == if IsInt(n) then Converted(n, skip + |digits|) else OutOfRange
  {
    hide Number;
    LeadingAll(digits, DIGITS);
    LeadingBefore(digits, rest, DIGITS);
    assert (digits + rest)[..|digits|] == digits;
  }

  lemma SkipsBlanks(blanks: string, sign: string, digits: string, rest: string)
    requires (forall c <- blanks :: c in BLANKS) && sign in SIGNS && digits != "" && AllDigits(digits)
    ensures var t := blanks + (sign + (digits + rest));
            Stoi(t) == Digit(sign == "-", |blanks| + |sign|, digits + rest)
  {
    hide Digit, Leading, AllDigits;
    var x := sign + (digits + rest);
    var t := blanks + x;
    StartsNumber(sign, digits, rest);
    LeadingAll(blanks, BLANKS);
    LeadingBefore(blanks, x, BLANKS);
    assert t[|blanks|] == x[0];
    assert t[|blanks|..] == x && t[|blanks| + |sign|..] == x[|sign|..];
  }

  lemma StartsNumber(sign: string, digits: string, rest: string)
    requires sign in SIGNS && digits != "" && AllDigits(digits)
    ensures var x := sign + (digits + rest);
            && x != "" && x[0] !in BLANKS && x[|sign|..] == digits + rest && (x[0] in {'+', '-'} <==> sign != "")
            && (x[0] == '-' <==> sign == "-")
  {
    assert digits[0] in digits;
  }

  /** What spells a number is converted to it, if it is an int. */
  lemma SpelledIsRead(t: string, blanks: string, sign: string, k: nat, m: nat, rest: string)
    requires SpelledBy(t, blanks, sign, k, m, rest)
    ensures var n := Signed(sign, m);
            Stoi(t) == if IsInt(n) then Converted(n, |t| - |rest|) else OutOfRange
  {
    hide Stoi, Digit, Decimal, Zeros, Number;
    var digits := Zeros(k) + Decimal(m);
    NumberOfDecimal(m);
    LeadingZeros(k, Decimal(m));
    SkipsBlanks(blanks, sign, digits, rest);
    ReadAfter(sign == "-", |blanks| + |sign|, digits, rest);
  }

  /** And what is converted, or out of range, spells a number. */
  lemma ReadIsSpelled(t: string)
    returns (blanks: string, sign: string, k: nat, m: nat, rest: string)
    requires !Stoi(t).NotANumber?
    ensures SpelledBy(t, blanks, sign, k, m, rest)
  {
    hide Number, Decimal, Zeros, Stoi, Leading;
    var a, b, d := Pieces(t);
    k := DigitsAreDecimal(t[b..][..d]);
    m := Number(t[b..][..d]);
    blanks, sign, rest := t[..a], t[a..b], t[b..][d..];
    Reassembled(t, a, b, d);
  }

  lemma Reassembled(t: string, a: nat, b: nat, d: nat)
    requires a <= b && b + d <= |t|
    ensures t == t[..a] + (t[a..b] + (t[b..][..d] + t[b..][d..]))
  {
    assert t[b..][..d] + t[b..][d..] == t[b..] && t[a..b] + t[b..] == t[a..];
  }

  lemma Pieces(t: string) returns (a: nat, b: nat, d: nat)
    requires !Stoi(t).NotANumber?
    ensures a <= b && b + d <= |t| && (forall c <- t[..a] :: c in BLANKS) && t[a..b] in SIGNS
    ensures t[b..][..d] != "" && AllDigits(t[b..][..d]) && (t[b..][d..] == "" || t[b..][d..][0] !in DIGITS)
  {
    hide Number, Leading;
    a := Leading(t, BLANKS);
    b := a + SignAt(t, a);
    d := Leading(t[b..], DIGITS);
    if b > a {
      assert t[a..b] == [t[a]];
    } else {
      assert t[a..b] == "";
    }
  }

  /** Which texts stoi converts, and to what, for every text: exactly those that begin with blanks, a sign and digits,
      to the int these spell; and the errors are those texts that spell no int, and those that spell nothing. */
  lemma StoiIffSpells(t: string)
    ensures forall n: int, size: nat :: Stoi(t) == Converted(n, size) <==> Spells(t, n, size) && IsInt(n)
    ensures Stoi(t) == OutOfRange <==> exists n: int, size: nat :: Spells(t, n, size) && !IsInt(n)
    ensures Stoi(t) == NotANumber <==> !exists n: int, size: nat :: Spells(t, n, size)
  {
    hide Stoi, SpelledBy, Signed, IsInt;
    forall n: int, size: nat | Spells(t, n, size)
      ensures Stoi(t) == if IsInt(n) then Converted(n, size) else OutOfRange
    {
      var blanks, sign, k, m, rest :| SpelledBy(t, blanks, sign, k, m, rest) && n == Signed(sign, m)
        && size == |t| - |rest|;
      SpelledIsRead(t, blanks, sign, k, m, rest);
    }
    if !Stoi(t).NotANumber? {
      var blanks, sign, k, m, rest := ReadIsSpelled(t);
      RestFits(t, blanks, sign, k, m, rest);
      assert Spells(t, Signed(sign, m), |t| - |rest|);
      SpelledIsRead(t, blanks, sign, k, m, rest);
    }
  }

  lemma RestFits(t: string, blanks: string, sign: string, k: nat, m: nat, rest: string)
    requires SpelledBy(t, blanks, sign, k, m, rest)
    ensures |rest| <= |t|
  {
  }

  /** In particular stoi reads back every int. */
  lemma StoiReads(n: int)
    requires IsInt(n)
    ensures Stoi(Notation(n)) == Converted(n, |Notation(n)|)
  {
    hide Stoi, Decimal;
    var sign, m := if n < 0 then "-" else "", if n < 0 then -n else n;
    assert Notation(n) == "" + (sign + (Zeros(0) + Decimal(m) + ""));
    SpelledIsRead(Notation(n), "", sign, 0, m, "");
  }

  // Parsing -------------------------------------------------------------------------------------

  type Options = map<string, string>

  datatype Uri = Uri(scheme: string, host: string, port: int, options: Options)

  datatype Error = NoScheme | PortNotANumber | PortOutOfRange | PortNotOnlyNumbers | InvalidOptions

  datatype Parsed<T> = Ok(value: T) | Err(error: Error)

  /** The options behind a '?' or '&'. */
  function ParseOptions(t: string, m: Options): Parsed<Options>
    decreases |t|
  {
    var separator, end := Find(t, {'='}), Find(t, {'&'});
    if separator == |t| || separator > end then Err(InvalidOptions)
    else
      var m' := m[t[..separator] := t[separator + 1..end]];
      if end == |t| then Ok(m') else ParseOptions(t[end + 1..], m')
  }

  function WithOptions(scheme: string, host: string, port: int, options: Parsed<Options>): Parsed<Uri> {
    if options.Ok? then Ok(Uri(scheme, host, port, options.value)) else Err(options.error)
  }

  /** The port behind a ':', and what follows it. */
  function ParsePort(scheme: string, host: string, t: string): Parsed<Uri> {
    match Stoi(t)
    case NotANumber => Err(PortNotANumber)
    case OutOfRange => Err(PortOutOfRange)
    case Converted(port, size) =>
      if size == |t| then Ok(Uri(scheme, host, port, map[]))
      else if t[size] == '?' then WithOptions(scheme, host, port, ParseOptions(t[size + 1..], map[]))
      else Err(PortNotOnlyNumbers)
  }

  function ParseHost(scheme: string, t: string): Parsed<Uri> {
    var end := Find(t, {'?', ':'});
    var host := t[..end];
    if end == |t| then Ok(Uri(scheme, host, 0, map[]))
    else if t[end] == ':' then ParsePort(scheme, host, t[end + 1..])
    else WithOptions(scheme, host, 0, ParseOptions(t[end + 1..], map[]))
  }

  function Parse(uri: string): Parsed<Uri> {
    var end := Find(uri, {':'});
    if end + 3 > |uri| || uri[end..end + 3] != "://" then Err(NoScheme)
    else ParseHost(uri[..end], uri[end + 3..])
  }

  // The grammar ---------------------------------------------------------------------------------

  datatype Pair = Pair(key: string, value: string)

  datatype Port = NoPort | PortText(text: string)

  /** A URI taken apart. */
  datatype Parts = Parts(scheme: string, host: string, port: Port, options: seq<Pair>)

  predicate WellFormedPair(p: Pair) {
    Free(p.key, {'=', '&'}) && Free(p.value, {'&'})
  }

  predicate WellFormed(p: Parts) {
    && Free(p.scheme, {':'}) && Free(p.host, {'?', ':'})
    && (p.port.PortText? ==> Stoi(p.port.text).Converted? && Stoi(p.port.text).size == |p.port.text|)
    && forall o <- p.options :: WellFormedPair(o)
  }

  function RenderOptions(options: seq<Pair>): string
    requires options != []
  {
    var o := options[0];
    o.key + ("=" + (o.value + if |options| == 1 then "" else "&" + RenderOptions(options[1..])))
  }

  function RenderTail(options: seq<Pair>): string {
    if options == [] then "" else "?" + RenderOptions(options)
  }

  function RenderPort(port: Port): string {
    match port
    case NoPort => ""
    case PortText(text) => ":" + text
  }

  function Render(p: Parts): string {
    p.scheme + ("://" + (p.host + (RenderPort(p.port) + RenderTail(p.options))))
  }

  /** Of several values for one key the last one counts. */
  function Collect(options: seq<Pair>, m: Options): Options {
    if options == [] then m else Collect(options[1..], m[options[0].key := options[0].value])
  }

  function Meaning(p: Parts): Uri
    requires WellFormed(p)
  {
    Uri(p.scheme, p.host, if p.port.PortText? then Stoi(p.port.text).n else 0, Collect(p.options, map[]))
  }

  /** The value of an option, or a default. */
  function GetOption(u: Uri, key: string, default: string): string {
    if key in u.options then u.options[key] else default
  }

  /** The last pair with a key. */
  predicate IsLast(options: seq<Pair>, i: nat, key: string) {
    i < |options| && options[i].key == key && forall j :: i < j < |options| ==> options[j].key != key
  }

  predicate Mentions(options: seq<Pair>, key: string) {
    exists o <- options :: o.key == key
  }

  /** The options, without recursion: the keys are those that are given, and each has the value it is
      given last. */
  lemma {:induction false} KeysAreGiven(options: seq<Pair>, m: Options, key: string)
    ensures key in Collect(options, m) <==> key in m || Mentions(options, key)
    ensures key in m && !Mentions(options, key) ==> Collect(options, m)[key] == m[key]
    decreases |options|
  {
    if options != [] {
      var o, rest := options[0], options[1..];
      KeysAreGiven(rest, m[o.key := o.value], key);
      assert options == [o] + rest && o in options;
      assert Mentions(options, key) <==> o.key == key || Mentions(rest, key);
    }
  }

  lemma {:induction false} LastValueCounts(options: seq<Pair>, m: Options, i: nat, key: string)
    requires IsLast(options, i, key)
    ensures key in Collect(options, m) && Collect(options, m)[key] == options[i].value
    decreases |options|
  {
    var o, rest := options[0], options[1..];
    if i > 0 {
      LastOfRest(options, i, key);
      LastValueCounts(rest, m[o.key := o.value], i - 1, key);
    } else {
      NotInRest(options, key);
      KeysAreGiven(rest, m[o.key := o.value], key);
    }
  }

  /** An option that was given has the value given last, and one that was not has the default. */
  lemma GivenOrDefault(p: Parts, key: string, default: string)
    requires WellFormed(p)
    ensures Parse(Render(p)).Ok?
    ensures !Mentions(p.options, key) ==> GetOption(Parse(Render(p)).value, key, default) == default
    ensures forall i: nat :: IsLast(p.options, i, key) ==>
              GetOption(Parse(Render(p)).value, key, default) == p.options[i].value
  {
    hide Parse, Render, Collect, Stoi;
    ParseRender(p);
    KeysAreGiven(p.options, map[], key);
    forall i: nat | IsLast(p.options, i, key)
      ensures GetOption(Parse(Render(p)).value, key, default) == p.options[i].value
    {
      LastValueCounts(p.options, map[], i, key);
    }
  }

  lemma LastOfRest(options: seq<Pair>, i: nat, key: string)
    requires IsLast(options, i, key) && i > 0
    ensures IsLast(options[1..], i - 1, key) && options[1..][i - 1] == options[i]
  {
  }

  lemma NotInRest(options: seq<Pair>, key: string)
    requires IsLast(options, 0, key)
    ensures !Mentions(options[1..], key)
  {
  }

  // The parser accepts the grammar ----------------------------------------------------------------

  lemma PairSlices(k: string, v: string, rest: string)
    ensures var t := k + ("=" + (v + rest));
            && |t| == |k| + 1 + |v| + |rest|
            && t[..|k|] == k && t[|k| + 1..|k| + 1 + |v|] == v && t[|k| + 1 + |v|..] == rest
            && t == (k + ("=" + v)) + rest
  {
  }

  lemma FreePair(k: string, v: string)
    requires Free(k, {'=', '&'}) && Free(v, {'&'})
    ensures Free(k, {'='}) && Free(k + ("=" + v), {'&'})
  {
  }

  lemma OptionsAt(t: string, m: Options, n: nat, end: nat)
    requires n == Find(t, {'='}) && end == Find(t, {'&'}) && n < end
    ensures var m' := m[t[..n] := t[n + 1..end]];
            ParseOptions(t, m) == if end == |t| then Ok(m') else ParseOptions(t[end + 1..], m')
  {
    hide Find;
  }

  lemma PairAt(k: string, v: string, rest: string)
    requires Free(k, {'=', '&'}) && Free(v, {'&'}) && (rest == "" || rest[0] == '&')
    ensures var t := k + ("=" + (v + rest));
            && Find(t, {'='}) == |k| && Find(t, {'&'}) == |k| + 1 + |v| && |t| == |k| + 1 + |v| + |rest|
            && t[..|k|] == k && t[|k| + 1..|k| + 1 + |v|] == v && t[|k| + 1 + |v|..] == rest
  {
    hide Find, Free;
    PairSlices(k, v, rest);
    FreePair(k, v);
    FindBehind(k, "=" + (v + rest), {'='});
    FindBehind(k + ("=" + v), rest, {'&'});
  }

  /** One pair is parsed. */
  lemma PairParses(k: string, v: string, rest: string, m: Options)
    requires Free(k, {'=', '&'}) && Free(v, {'&'}) && (rest == "" || rest[0] == '&')
    ensures ParseOptions(k + ("=" + (v + rest)), m)
         == if rest == "" then Ok(m[k := v]) else ParseOptions(rest[1..], m[k := v])
  {
    hide Find, Free, ParseOptions;
    var t := k + ("=" + (v + rest));
    PairAt(k, v, rest);
    OptionsAt(t, m, |k|, |k| + 1 + |v|);
    if rest != "" {
      TailOfTail(t, |k| + 1 + |v|, rest);
    }
  }

  lemma TailOfTail(t: string, n: nat, rest: string)
    requires n < |t| && t[n..] == rest
    ensures t[n + 1..] == rest[1..] && t[n] == rest[0]
  {
  }

  function AndMore(options: seq<Pair>): string {
    if options == [] then "" else "&" + RenderOptions(options)
  }

  lemma RenderPair(o: Pair, options: seq<Pair>)
    ensures RenderOptions([o] + options) == o.key + ("=" + (o.value + AndMore(options)))
  {
  }

  lemma CollectPair(o: Pair, options: seq<Pair>, m: Options)
    ensures Collect([o] + options, m) == Collect(options, m[o.key := o.value])
  {
  }

  lemma {:induction false} OptionsParse(options: seq<Pair>, m: Options)
    requires options != [] && forall o <- options :: WellFormedPair(o)
    ensures ParseOptions(RenderOptions(options), m) == Ok(Collect(options, m))
    decreases |options|
  {
    hide Free, ParseOptions, RenderOptions, Collect;
    var o, rest := options[0], options[1..];
    assert options == [o] + rest && o in options;
    assert WellFormedPair(o);
    RenderPair(o, rest);
    CollectPair(o, rest, m);
    PairParses(o.key, o.value, AndMore(rest), m);
    if rest != [] {
      OptionsParse(rest, m[o.key := o.value]);
      assert AndMore(rest)[1..] == RenderOptions(rest);
    } else {
      NoOptions(m[o.key := o.value]);
    }
  }

  lemma OptionsBehind(scheme: string, host: string, port: int, options: seq<Pair>)
    requires options != [] && forall o <- options :: WellFormedPair(o)
    ensures WithOptions(scheme, host, port, ParseOptions(RenderTail(options)[1..], map[]))
         == Ok(Uri(scheme, host, port, Collect(options, map[])))
  {
    OptionsParse(options, map[]);
    hide ParseOptions, RenderOptions;
    assert RenderTail(options)[1..] == RenderOptions(options);
  }

  lemma PortParses(scheme: string, host: string, text: string, options: seq<Pair>)
    requires Stoi(text).Converted? && Stoi(text).size == |text|
    requires forall o <- options :: WellFormedPair(o)
    ensures ParsePort(scheme, host, text + RenderTail(options))
         == Ok(Uri(scheme, host, Stoi(text).n, Collect(options, map[])))
  {
    hide Stoi, ParseOptions, RenderOptions;
    var tail := RenderTail(options);
    StoiBefore(text, tail);
    if options != [] {
      OptionsBehind(scheme, host, Stoi(text).n, options);
      assert (text + tail)[|text|] == tail[0];
      assert (text + tail)[|text| + 1..] == tail[1..];
    }
  }

  lemma SchemeParses(scheme: string, behind: string)
    requires Free(scheme, {':'})
    ensures Parse(scheme + ("://" + behind)) == ParseHost(scheme, behind)
  {
    hide Find, Free, ParseHost;
    FindBehind(scheme, "://" + behind, {':'});
    SchemeSlices(scheme, behind);
  }

  lemma HostParses(scheme: string, host: string, x: string)
    requires Free(host, {'?', ':'}) && (x == "" || x[0] in {'?', ':'})
    ensures ParseHost(scheme, host + x)
         == if x == "" then Ok(Uri(scheme, host, 0, map[]))
            else if x[0] == ':' then ParsePort(scheme, host, x[1..])
            else WithOptions(scheme, host, 0, ParseOptions(x[1..], map[]))
  {
    hide Find, Free, ParsePort, WithOptions, ParseOptions;
    FindBehind(host, x, {'?', ':'});
    assert (host + x)[..|host|] == host;
    if x != "" {
      assert (host + x)[|host|..] == x;
      TailOfTail(host + x, |host|, x);
    }
  }

  /** Parsing the rendering of well-formed parts gives those parts. */
  lemma ParseRender(p: Parts)
    requires WellFormed(p)
    ensures Parse(Render(p)) == Ok(Meaning(p))
  {
    hide Parse, ParseHost, Stoi, ParseOptions, RenderOptions, Free, ParsePort, Collect, WithOptions;
    var port, tail := RenderPort(p.port), RenderTail(p.options);
    SchemeParses(p.scheme, p.host + (port + tail));
    HostParses(p.scheme, p.host, port + tail);
    if p.port.PortText? {
      PortParses(p.scheme, p.host, p.port.text, p.options);
      assert (port + tail)[1..] == p.port.text + tail;
    } else {
      EmptyPort(tail);
      if p.options != [] {
        OptionsBehind(p.scheme, p.host, 0, p.options);
      } else {
        NoOptions(map[]);
      }
    }
  }

  /** The components of a URI come back from its text. */
  lemma ComponentsComeBack(scheme: string, host: string, port: int, options: seq<Pair>)
    requires Free(scheme, {':'}) && Free(host, {'?', ':'}) && -INT_MAX - 1 <= port <= INT_MAX
    requires forall o <- options :: WellFormedPair(o)
    ensures Parse(scheme + ("://" + (host + ((":" + Notation(port)) + RenderTail(options)))))
         == Ok(Uri(scheme, host, port, Collect(options, map[])))
  {
    hide Free, Stoi, Parse, RenderTail, Collect, Notation;
    StoiReads(port);
    ParseRender(Parts(scheme, host, PortText(Notation(port)), options));
  }

  lemma EmptyPort(tail: string)
    ensures "" + tail == tail
  {
  }

  lemma NoOptions(m: Options)
    ensures Collect([], m) == m
  {
  }

  lemma SchemeSlices(scheme: string, behind: string)
    ensures var t := scheme + ("://" + behind);
            && |t| == |scheme| + 3 + |behind| && t[..|scheme|] == scheme
            && t[|scheme|..|scheme| + 3] == "://" && t[|scheme| + 3..] == behind
  {
  }

  // The parser accepts nothing else ---------------------------------------------------------------

  lemma FreeIsFreeOfFewer(t: string, n: nat, end: nat)
    requires n < end <= |t| && n == Find(t, {'='}) && end == Find(t, {'&'})
    ensures Free(t[..n], {'=', '&'}) && Free(t[n + 1..end], {'&'})
    ensures t[n] == '=' && (end < |t| ==> t[end] == '&')
  {
  }

  lemma PairPieces(t: string, n: nat, end: nat)
    requires n < end <= |t| && t[n] == '='
    ensures t == t[..n] + ("=" + (t[n + 1..end] + t[end..]))
  {
  }

  lemma PairFound(t: string, m: Options) returns (o: Pair, rest: string)
    requires ParseOptions(t, m).Ok?
    ensures WellFormedPair(o) && t == o.key + ("=" + (o.value + rest)) && (rest == "" || rest[0] == '&')
    ensures |rest| < |t|
  {
    hide Find, Free;
    var n, end := Find(t, {'='}), Find(t, {'&'});
    FreeIsFreeOfFewer(t, n, end);
    PairPieces(t, n, end);
    o, rest := Pair(t[..n], t[n + 1..end]), t[end..];
  }

  lemma {:induction false} OptionsParsed(t: string, m: Options) returns (options: seq<Pair>)
    requires ParseOptions(t, m).Ok?
    ensures options != [] && (forall o <- options :: WellFormedPair(o))
    ensures RenderOptions(options) == t && ParseOptions(t, m) == Ok(Collect(options, m))
    decreases |t|
  {
    hide Free, ParseOptions, RenderOptions, Collect;
    var o, rest := PairFound(t, m);
    PairParses(o.key, o.value, rest, m);
    var more := [];
    if rest == "" {
      NoOptions(m[o.key := o.value]);
    } else {
      more := OptionsParsed(rest[1..], m[o.key := o.value]);
      assert rest == "&" + rest[1..];
    }
    RenderPair(o, more);
    CollectPair(o, more, m);
    options := [o] + more;
  }

  /** Whatever is accepted is the rendering of well-formed parts. */
  lemma ParsedTail(t: string) returns (options: seq<Pair>)
    requires t == "" || (t[0] == '?' && ParseOptions(t[1..], map[]).Ok?)
    ensures RenderTail(options) == t && forall o <- options :: WellFormedPair(o)
    ensures Collect(options, map[]) == if t == "" then map[] else ParseOptions(t[1..], map[]).value
  {
    if t == "" {
      options := [];
    } else {
      options := OptionsParsed(t[1..], map[]);
      hide ParseOptions, RenderOptions, Collect;
      assert t == "?" + t[1..];
    }
  }

  lemma ParsedPort(scheme: string, host: string, t: string) returns (text: string, options: seq<Pair>)
    requires ParsePort(scheme, host, t).Ok?
    ensures Stoi(text).Converted? && Stoi(text).size == |text| && t == text + RenderTail(options)
    ensures forall o <- options :: WellFormedPair(o)
    ensures ParsePort(scheme, host, t) == Ok(Uri(scheme, host, Stoi(text).n, Collect(options, map[])))
  {
    hide Stoi, ParseOptions, RenderOptions, Collect, RenderTail;
    var size := Stoi(t).size;
    text := t[..size];
    StoiToken(t);
    options := ParsedTail(t[size..]);
    if size < |t| {
      assert t[size..][1..] == t[size + 1..];
    }
  }

  lemma HostFound(t: string) returns (host: string, x: string)
    ensures Free(host, {'?', ':'}) && t == host + x && (x == "" || x[0] in {'?', ':'})
  {
    hide Free;
    var end := Find(t, {'?', ':'});
    FreeBeforeFind(t, {'?', ':'});
    host, x := t[..end], t[end..];
  }

  lemma PortPieces(text: string, tail: string)
    ensures ":" + (text + tail) == (":" + text) + tail
  {
  }

  lemma ParsedHost(scheme: string, t: string) returns (p: Parts)
    requires ParseHost(scheme, t).Ok?
    ensures p.scheme == scheme && Free(p.host, {'?', ':'}) && WellFormed(p.(scheme := ""))
    ensures t == p.host + (RenderPort(p.port) + RenderTail(p.options))
    ensures ParseHost(scheme, t) == Ok(Uri(scheme, p.host, if p.port.PortText? then Stoi(p.port.text).n else 0,
                                           Collect(p.options, map[])))
  {
    hide Stoi, ParseOptions, RenderOptions, Collect, RenderTail, ParseHost, ParsePort, Find, Free;
    var host, x := HostFound(t);
    HostParses(scheme, host, x);
    FreeNothing({':'});
    if x != "" && x[0] == ':' {
      var text, options := ParsedPort(scheme, host, x[1..]);
      p := Parts(scheme, host, PortText(text), options);
      assert x == ":" + x[1..];
      PortPieces(text, RenderTail(options));
    } else {
      var options := ParsedTail(x);
      p := Parts(scheme, host, NoPort, options);
      EmptyPort(RenderTail(options));
    }
  }

  lemma FreeNothing(cs: set<char>)
    ensures Free("", cs)
  {
  }

  lemma Accepted(uri: string) returns (p: Parts)
    requires Parse(uri).Ok?
    ensures WellFormed(p) && Render(p) == uri && Parse(uri) == Ok(Meaning(p))
  {
    hide Stoi, Collect, RenderTail, RenderPort, ParseHost, Find, Free;
    var end := Find(uri, {':'});
    FreeBeforeFind(uri, {':'});
    p := ParsedHost(uri[..end], uri[end + 3..]);
    assert uri == uri[..end] + (uri[end..end + 3] + uri[end + 3..]);
  }

  /** The parser accepts exactly the grammar, with the meaning it has there. */
  lemma ParseIffGrammar(uri: string, u: Uri)
    ensures Parse(uri) == Ok(u) <==> exists p :: WellFormed(p) && Render(p) == uri && Meaning(p) == u
  {
    hide WellFormed, Render, Meaning, Parse;
    if Parse(uri) == Ok(u) {
      var p := Accepted(uri);
    }
    forall p | WellFormed(p) && Render(p) == uri && Meaning(p) == u
      ensures Parse(uri) == Ok(u)
    {
      ParseRender(p);
    }
  }

  // Errors --------------------------------------------------------------------------------------

  /** What is behind the host of a text that is rejected with an error, and why. */
  ghost predicate Blames(x: string, error: Error) {
    match error
    case NoScheme => false
    case InvalidOptions => x != "" && (x[0] == '?' || (x[0] == ':' && exists n: int, size: nat ::
        Spells(x[1..], n, size) && IsInt(n) && size + 1 < |x| && x[size + 1] == '?'))
    case PortNotANumber => x != "" && x[0] == ':' && !exists n: int, size: nat :: Spells(x[1..], n, size)
    case PortOutOfRange => x != "" && x[0] == ':' && exists n: int, size: nat :: Spells(x[1..], n, size) && !IsInt(n)
    case PortNotOnlyNumbers => x != "" && x[0] == ':' && exists n: int, size: nat ::
        Spells(x[1..], n, size) && IsInt(n) && size + 1 < |x| && x[size + 1] != '?'
  }

  /** A rejected text is rejected for what it is: the conditions of the errors exclude each other. */
  lemma ErrorIsToBlame(scheme: string, host: string, x: string)
    requires Free(scheme, {':'}) && Free(host, {'?', ':'}) && (x == "" || x[0] in {'?', ':'})
    ensures var r := Parse(scheme + ("://" + (host + x))); r.Err? ==> Blames(x, r.error)
  {
    hide Parse, ParseHost, Stoi, Free, Spells, ParseOptions, IsInt;
    SchemeParses(scheme, host + x);
    HostParses(scheme, host, x);
    if x != "" && x[0] == ':' {
      StoiIffSpells(x[1..]);
      PortBlames(scheme, host, x);
    } else if x != "" {
      OptionsBlame(x[1..], map[]);
    }
  }

  lemma {:induction false} OptionsBlame(t: string, m: Options)
    ensures ParseOptions(t, m).Err? ==> ParseOptions(t, m).error == InvalidOptions
    decreases |t|
  {
    var separator, end := Find(t, {'='}), Find(t, {'&'});
    if separator < end < |t| {
      OptionsBlame(t[end + 1..], m[t[..separator] := t[separator + 1..end]]);
    }
  }

  lemma PortBlames(scheme: string, host: string, x: string)
    requires x != "" && x[0] == ':'
    requires forall n: int, size: nat :: Stoi(x[1..]) == Converted(n, size) <==> Spells(x[1..], n, size) && IsInt(n)
    requires Stoi(x[1..]) == OutOfRange <==> exists n: int, size: nat :: Spells(x[1..], n, size) && !IsInt(n)
    requires Stoi(x[1..]) == NotANumber <==> !exists n: int, size: nat :: Spells(x[1..], n, size)
    ensures var r := ParsePort(scheme, host, x[1..]); r.Err? ==> Blames(x, r.error)
  {
    hide Stoi, Spells, ParseOptions, IsInt;
    var t := x[1..];
    var c := Stoi(t);
    if c.Converted? {
      assert Spells(t, c.n, c.size) && IsInt(c.n);
      if c.size < |t| {
        assert t[c.size] == x[c.size + 1];
        OptionsBlame(t[c.size + 1..], map[]);
      }
    }
  }

  /** A text lacks a scheme exactly if nothing without a colon and then :// is in front. */
  lemma NoSchemeIff(uri: string)
    ensures Parse(uri) == Err(NoScheme) <==>
              !exists scheme: string, behind: string :: Free(scheme, {':'}) && uri == scheme + ("://" + behind)
  {
    hide ParseHost, Free;
    forall scheme: string, behind: string | Free(scheme, {':'}) && uri == scheme + ("://" + behind)
      ensures Parse(uri) != Err(NoScheme)
    {
      var host, x := HostFound(behind);
      SchemeParses(scheme, behind);
      ErrorIsToBlame(scheme, host, x);
    }
    var end := Find(uri, {':'});
    FreeBeforeFind(uri, {':'});
    if end + 3 <= |uri| && uri[end..end + 3] == "://" {
      var scheme, behind := uri[..end], uri[end + 3..];
      assert Free(scheme, {':'}) && uri == scheme + ("://" + behind);
    }
  }

  // The parser as a loop over indices -------------------------------------------------------------

  lemma SliceOfRest(t: string, from: nat, i: nat, j: nat)
    requires from + i <= from + j <= |t|
    ensures t[from..][i..j] == t[from + i..from + j] && t[from..][..j] == t[from..from + j]
    ensures t[from..][j..] == t[from + j..] && (j < |t[from..]| ==> t[from..][j] == t[from + j])
  {
  }

  lemma OptionsFrom(uri: string, start: nat, m: Options)
    requires start <= |uri|
    ensures var separator, end := FindFrom(uri, {'='}, start), FindFrom(uri, {'&'}, start);
            ParseOptions(uri[start..], m) ==
              if separator == |uri| || separator > end then Err(InvalidOptions)
              else
                var m' := m[uri[start..separator] := uri[separator + 1..end]];
                if end == |uri| then Ok(m') else ParseOptions(uri[end + 1..], m')
  {
    hide Find, ParseOptions;
    var t := uri[start..];
    var n, e := Find(t, {'='}), Find(t, {'&'});
    MarksApart(t);
    if n < e {
      OptionsAt(t, m, n, e);
      SliceOfRest(uri, start, n + 1, e);
      SliceOfRest(uri, start, 0, n);
      if e < |t| {
        SliceOfRest(uri, start, 0, e + 1);
      }
    } else {
      BadOptions(t, m);
    }
  }

  lemma BadOptions(t: string, m: Options)
    requires Find(t, {'='}) >= Find(t, {'&'})
    ensures ParseOptions(t, m) == Err(InvalidOptions)
  {
  }

  lemma PortFrom(uri: string, start: nat, scheme: string, host: string)
    requires start <= |uri|
    ensures var c := Stoi(uri[start..]);
            && (c.NotANumber? ==> ParsePort(scheme, host, uri[start..]) == Err(PortNotANumber))
            && (c.OutOfRange? ==> ParsePort(scheme, host, uri[start..]) == Err(PortOutOfRange))
            && (c.Converted? ==>
                var end := start + c.size;
                && end <= |uri|
                && ParsePort(scheme, host, uri[start..]) ==
                   if end == |uri| then WithOptions(scheme, host, c.n, Ok(map[]))
                   else if uri[end] == '?' then WithOptions(scheme, host, c.n, ParseOptions(uri[end + 1..], map[]))
                   else Err(PortNotOnlyNumbers))
  {
  }

  lemma HostFrom(uri: string, start: nat, scheme: string)
    requires start <= |uri|
    ensures var end := FindFrom(uri, {'?', ':'}, start);
            var host := uri[start..end];
            ParseHost(scheme, uri[start..]) ==
              if end == |uri| then WithOptions(scheme, host, 0, Ok(map[]))
              else if uri[end] == ':' then ParsePort(scheme, host, uri[end + 1..])
              else WithOptions(scheme, host, 0, ParseOptions(uri[end + 1..], map[]))
  {
    hide Find, ParseOptions, ParsePort;
    var n := Find(uri[start..], {'?', ':'});
    SliceOfRest(uri, start, 0, n);
    if start + n < |uri| {
      SliceOfRest(uri, start, 0, n + 1);
    }
  }

  lemma MarksApart(t: string)
    ensures Find(t, {'='}) == Find(t, {'&'}) ==> Find(t, {'='}) == |t|
  {
  }

  /** The option loop of the parser. */
  method ParseOptionsFrom(uri: string, start: nat) returns (r: Parsed<Options>)
    requires start <= |uri|
    ensures r == if start == |uri| then Ok(map[]) else ParseOptions(uri[start + 1..], map[])
  {
    hide Find, ParseOptions;
    var options: Options := map[];
    var oneBeforeOptions := start;
    ghost var all := if start == |uri| then Ok(map[]) else ParseOptions(uri[start + 1..], map[]);
    while oneBeforeOptions != |uri|
      invariant oneBeforeOptions <= |uri|
      invariant all == if oneBeforeOptions == |uri| then Ok(options) else ParseOptions(uri[oneBeforeOptions + 1..],
                                                                                       options)
      decreases |uri| - oneBeforeOptions
    {
      var optionsStart := oneBeforeOptions + 1;
      var separator := FindFrom(uri, {'='}, optionsStart);
      var optionsEnd := FindFrom(uri, {'&'}, optionsStart);
      OptionsFrom(uri, optionsStart, options);
      if separator == |uri| || separator > optionsEnd {
        return Err(InvalidOptions);
      }
      MarksApart(uri[optionsStart..]);
      var key := uri[optionsStart..separator];
      var value := uri[separator + 1..optionsEnd];
      options := options[key := value];
      oneBeforeOptions := optionsEnd;
    }
    r := Ok(options);
  }

  method ParseUri(uri: string) returns (r: Parsed<Uri>)
    ensures r == Parse(uri)
  {
    hide Find, ParseOptions, Stoi, ParseHost, ParsePort, WithOptions;
    assert uri[0..] == uri;
    var schemeEnd := FindFrom(uri, {':'}, 0);
    if schemeEnd + 3 > |uri| || uri[schemeEnd..schemeEnd + 3] != "://" {
      return Err(NoScheme);
    }
    var scheme, hostStart := uri[..schemeEnd], schemeEnd + 3;
    var hostEnd := FindFrom(uri, {'?', ':'}, hostStart);
    var host := uri[hostStart..hostEnd];
    HostFrom(uri, hostStart, scheme);
    var port, oneBeforeOptions := 0, hostEnd;
    if hostEnd < |uri| && uri[hostEnd] == ':' {
      PortFrom(uri, hostEnd + 1, scheme, host);
      var conversion := Stoi(uri[hostEnd + 1..]);
      if !conversion.Converted? {
        return Err(if conversion.NotANumber? then PortNotANumber else PortOutOfRange);
      }
      port, oneBeforeOptions := conversion.n, hostEnd + 1 + conversion.size;
      if oneBeforeOptions < |uri| && uri[oneBeforeOptions] != '?' {
        return Err(PortNotOnlyNumbers);
      }
    }
    var options := ParseOptionsFrom(uri, oneBeforeOptions);
    r := WithOptions(scheme, host, port, options);
  }
}
