/**
 * The derived parsers of utils.go (and the equivalent vars of
 * conditionals.go): character-class shorthands, Sign, the integers,
 * Exponent, the recognition part of RealNumber, RestOfLine, and the helpers
 * JoinStrResults and GetResultsItem.
 */
module Utils {
  import opened Wrappers
  import opened Utf8
  import opened ParserState
  import opened Combinators
  import Primitives
  import Conditionals
  import CombinatorLaws

  const Plus: Byte := '+' as int
  const Minus: Byte := '-' as int
  const LineFeed: Byte := '\n' as int

  // One-character and class parsers; the `As` renaming changes only their names.
  const Space: Parser := Char([' ' as int])
  const Newline: Parser := Char([LineFeed])
  const Tab: Parser := Char(['\t' as int])
  const Crlf: Parser := Parser.Str(['\r' as int, LineFeed])
  const AnyChar: Parser := Cond(Conditionals.IsAnyChar)
  const AnyStr: Parser := CondMin(Conditionals.IsAnyChar, 1)
  const Letter: Parser := Cond(Conditionals.IsAsciiLetter)
  const Letters: Parser := CondMin(Conditionals.IsAsciiLetter, 1)
  const Digit: Parser := Cond(Conditionals.IsDecimalDigit)
  const Digits: Parser := CondMin(Conditionals.IsDecimalDigit, 1)

  /** Sign's mapper: the matched sign, or "+" when there was none. */
  function SignOrPlus(v: Value): Value {
    if v.Str? then v else Value.Str([Plus])
  }

  /** Sign: an optional '+' or '-', defaulting to "+". */
  const Sign: Parser := Map(ZeroOrOne(Choice([Char([Plus]), Char([Minus])])), SignOrPlus)

  /** The decimal value of a string of ASCII digits, most significant first. */
  function DecimalValue(s: seq<Byte>): nat {
    if s == [] then 0
    else DecimalValue(s[..|s| - 1]) * 10 + (if Conditionals.IsDecimalDigit(s[|s| - 1]) then s[|s| - 1] - '0' as int else 0)
  }

  predicate AllDigits(s: seq<Byte>) {
    forall k :: 0 <= k < |s| ==> Conditionals.IsDecimalDigit(s[k])
  }

  /**
   * strconv.Atoi on the strings Digits produces: their decimal value. Its
   * error (for anything else) is ignored by the callers and gives 0.
   */
  function Atoi(s: seq<Byte>): (n: int)
    ensures n >= 0
    ensures !(|s| > 0 && AllDigits(s)) ==> n == 0
  {
    if |s| > 0 && AllDigits(s) then DecimalValue(s) else 0
  }

  /** NonNegativeInteger's mapper; the Go type assertion panics on a non-string, here Nil. */
  function DigitsToInt(v: Value): Value {
    if v.Str? then Int(Atoi(v.s)) else Nil
  }

  /** NonNegativeInteger (and conditionals.go's Integer var): Digits mapped to their value. */
  const NonNegativeInteger: Parser := Map(Digits, DigitsToInt)

  /** Integer's mapper: the value, negated after a "-" sign; Nil when the shape is not [sign, int]. */
  function SignedValue(v: Value): Value {
    if v.List? && |v.items| >= 2 && v.items[1].Int? then
      if v.items[0] == Value.Str([Minus]) then Int(-v.items[1].i) else Int(v.items[1].i)
    else Nil
  }

  /** Integer: an optional sign followed by digits. */
  const Integer: Parser := Map(SequenceOf([Sign, NonNegativeInteger]), SignedValue)

  /** Exponent's mapper: 0 without an exponent, else Integer's value, negated after a "-" sign. */
  function ExponentOf(v: Value): Value {
    if v.List? && |v.items| >= 3 && v.items[2].Int? then
      if v.items[1] == Value.Str([Minus]) then Int(-v.items[2].i) else Int(v.items[2].i)
    else Int(0)
  }

  const LowerE: Byte := 'e' as int
  const UpperE: Byte := 'E' as int
  const ExponentMark: Parser := Choice([Char([LowerE]), Char([UpperE])])

  /** Exponent: an optional 'e' or 'E', a sign and an Integer. */
  const Exponent: Parser :=
    Map(ZeroOrOne(SequenceOf([ExponentMark, Sign, Integer])), ExponentOf)

  /** RealNumber without its floating-point mapper: sign, digits, '.', optional digits, exponent. */
  const RealNumberSyntax: Parser := SequenceOf([Sign, Digits, Char(['.' as int]), ZeroOrOne(Digits), Exponent])

  /** RestOfLine's mapper: the first item of the sequence. */
  function FirstItem(v: Value): Value {
    if v.List? && |v.items| >= 1 then v.items[0] else Nil
  }

  /** RestOfLine: at least one character other than '\n', then a '\n' or the end of the input. */
  const RestOfLine: Parser :=
    Map(SequenceOf([CondMin(Conditionals.NotNewline, 1), Choice([Newline, EndOfInput])]), FirstItem)

  /** The next byte is a sign character. */
  predicate SignAt(st: State) {
    ByteAt(st, Plus, Minus)
  }

  /** The next byte is `x` or `y`. */
  predicate ByteAt(st: State, x: Byte, y: Byte) {
    st.index < |st.input| && (st.input[st.index] == x || st.input[st.index] == y)
  }

  /** A choice between two one-byte Chars: the byte that matched, or a failure at the cursor. */
  lemma CharPairChoice(g: Grammar, x: Byte, y: Byte, st: State, fuel: nat)
    requires st.Valid() && !st.isError
    ensures Run(g, Choice([Char([x]), Char([y])]), st, fuel + 2) ==
      Some(if ByteAt(st, x, y) then st.(index := st.index + 1, results := Value.Str([st.input[st.index]]))
           else UpdateError(st, Error(NoAlternative, st.index)))
  {
    var alts := [Char([x]), Char([y])];
    assert Run(g, Choice(alts), st, fuel + 2) == Alternatives(g, alts, 0, st, fuel + 1);
    var a := Primitives.Char([x], st);
    var b := Primitives.Char([y], st);
    assert Run(g, alts[0], st, fuel + 1) == Some(a);
    assert Run(g, alts[1], st, fuel + 1) == Some(b);
    if st.index < |st.input| {
      assert Remaining(st)[..1] == [st.input[st.index]];
    }
    if !a.isError {
    } else if !b.isError {
      assert Alternatives(g, alts, 1, st, fuel + 1) == Some(b);
    } else {
      assert Alternatives(g, alts, 1, st, fuel + 1) == Alternatives(g, alts, 2, st, fuel + 1);
    }
  }

  /**
   * Sign never fails: it consumes a '+' or '-' and returns it, and
   * otherwise returns "+" without moving the cursor.
   */
  lemma SignReadsOptionalSign(g: Grammar, st: State, fuel: nat)
    requires st.Valid() && !st.isError
    ensures Run(g, Sign, st, fuel + 4) ==
      Some(if SignAt(st) then st.(index := st.index + 1, results := Value.Str([st.input[st.index]]))
           else st.(results := Value.Str([Plus])))
  {
    var ch := Choice([Char([Plus]), Char([Minus])]);
    assert Run(g, Sign, st, fuel + 4) == RunMap(g, ZeroOrOne(ch), SignOrPlus, st, fuel + 3);
    assert Run(g, ZeroOrOne(ch), st, fuel + 3) == RunZeroOrOne(g, ch, st, fuel + 2);
    CharPairChoice(g, Plus, Minus, st, fuel);
  }

  /** A run of decimal-digit runes is a run of single ASCII digit bytes. */
  lemma {:induction false} DigitRunsAreBytes(input: seq<Byte>, i: nat, j: nat)
    requires i <= j <= |input| && Conditionals.RunesMatch(Conditionals.IsDecimalDigit, input, i, j)
    ensures AllDigits(input[i..j])
    decreases j - i
  {
    if i < j {
      var d := DecodeRune(input[i..]);
      EncodeDecode(input[i..]);
      assert EncodeRune(d.0) == [d.0];
      DigitRunsAreBytes(input, i + 1, j);
      assert input[i..j] == [input[i]] + input[i + 1..j];
    }
  }

  /** The digits Digits would take from position `i`, as (end, value). */
  function DigitsFrom(input: seq<Byte>, i: nat): (nat, nat)
    requires i <= |input|
  {
    var j := Conditionals.Scan(Conditionals.IsDecimalDigit, input, i).1;
    (j, DecimalValue(input[i..j]))
  }

  /** The error a CondMin with minimum 1 reports without a matching rune at `k`. */
  function EmptyRunError(input: seq<Byte>, k: nat): Err {
    Error(if k >= |input| then UnexpectedEnd else TooFewMatches, k)
  }

  /** Digits takes the whole run of ASCII digits at `i` and no more. */
  lemma DigitsTakeAllDigits(input: seq<Byte>, i: nat)
    requires i <= |input|
    ensures var j := DigitsFrom(input, i).0;
      i <= j <= |input| && AllDigits(input[i..j]) &&
      (j < |input| ==> !Conditionals.IsDecimalDigit(input[j]))
  {
    var p := Conditionals.IsDecimalDigit;
    var j := Conditionals.Scan(p, input, i).1;
    Conditionals.ScanMatches(p, input, i);
    DigitRunsAreBytes(input, i, j);
    if j < |input| && p(input[j]) {
      DecodeAscii(input[j..]);
    }
  }

  /**
   * NonNegativeInteger takes the digits at the cursor and returns their
   * decimal value; without a digit at the cursor it fails there, with the
   * error Digits reports.
   */
  lemma NonNegativeIntegerValue(g: Grammar, st: State, fuel: nat)
    requires st.Valid() && !st.isError
    ensures var (j, v) := DigitsFrom(st.input, st.index);
      Run(g, NonNegativeInteger, st, fuel + 2) ==
        Some(if j == st.index then UpdateError(st, EmptyRunError(st.input, st.index))
             else st.(index := j, results := Int(v)))
  {
    var p := Conditionals.IsDecimalDigit;
    var j := Conditionals.Scan(p, st.input, st.index).1;
    DigitsTakeAllDigits(st.input, st.index);
    assert Run(g, NonNegativeInteger, st, fuel + 2) == RunMap(g, Digits, DigitsToInt, st, fuel + 1);
    assert Run(g, Digits, st, fuel + 1) == Some(Conditionals.CondMin(p, 1, st));
  }

  /** The cursor after Sign. */
  function AfterSign(st: State): nat {
    if SignAt(st) then st.index + 1 else st.index
  }

  /** The sign was a '-'. */
  predicate Negative(st: State) {
    SignAt(st) && st.input[st.index] == Minus
  }

  /** The result Sign returns on `st`. */
  function SignText(st: State): Value
    requires st.Valid()
  {
    if SignAt(st) then Value.Str([st.input[st.index]]) else Value.Str([Plus])
  }

  /** The state after the exponent mark. */
  function AfterMark(st: State): State
    requires st.Valid() && ByteAt(st, LowerE, UpperE)
  {
    st.(index := st.index + 1, results := Value.Str([st.input[st.index]]))
  }

  /** The state after Sign. */
  function SignedState(st: State): State
    requires st.Valid()
  {
    st.(index := AfterSign(st), results := SignText(st))
  }

  /** Sign, as the state SignedState names. */
  lemma SignRead(g: Grammar, st: State, fuel: nat)
    requires st.Valid() && !st.isError
    ensures Run(g, Sign, st, fuel + 4) == Some(SignedState(st))
  {
    SignReadsOptionalSign(g, st, fuel);
  }

  /** The value of Integer from its own state: the digits' value, negated after '-'. */
  function SignedDigits(st: State, v: nat): int {
    if Negative(st) then -(v as int) else v
  }

  /** The sequence inside Integer: the sign and the digits' value as a two-item list. */
  lemma IntegerParts(g: Grammar, st: State, fuel: nat)
    requires st.Valid() && !st.isError
    ensures var k := AfterSign(st);
      var d := DigitsFrom(st.input, k);
      Run(g, SequenceOf([Sign, NonNegativeInteger]), st, fuel + 5) ==
        Some(if d.0 == k then UpdateError(st, EmptyRunError(st.input, k))
             else st.(index := d.0, results := List([SignText(st), Int(d.1)])))
  {
    SignReadsOptionalSign(g, st, fuel);
    var s1 := SignedState(st);
    assert Run(g, Sign, st, fuel + 4) == Some(s1);
    NonNegativeIntegerValue(g, s1, fuel + 2);
    CombinatorLaws.SequenceOfPair(g, Sign, NonNegativeInteger, st, fuel + 4);
  }

  /**
   * Integer: an optional sign and the longest run of digits after it, whose
   * value is negated after '-'. Without digits after the sign it fails at
   * the incoming cursor, with the error Digits reports after the sign.
   */
  lemma IntegerValue(g: Grammar, st: State, fuel: nat)
    requires st.Valid() && !st.isError
    ensures var k := AfterSign(st);
      var d := DigitsFrom(st.input, k);
      Run(g, Integer, st, fuel + 6) ==
        Some(if d.0 == k then UpdateError(st, EmptyRunError(st.input, k))
             else st.(index := d.0, results := Int(SignedDigits(st, d.1))))
  {
    var seqp := SequenceOf([Sign, NonNegativeInteger]);
    assert Run(g, Integer, st, fuel + 6) == RunMap(g, seqp, SignedValue, st, fuel + 5);
    IntegerParts(g, st, fuel);
    var v := DigitsFrom(st.input, AfterSign(st)).1;
    assert SignedValue(List([SignText(st), Int(v)])) == Int(SignedDigits(st, v));
  }

  /**
   * The sequence inside Exponent on an 'e' or 'E': the mark, the sign after
   * it and the Integer after that, which reads a second sign of its own.
   */
  lemma ExponentParts(g: Grammar, st: State, fuel: nat)
    requires st.Valid() && !st.isError && ByteAt(st, LowerE, UpperE)
    ensures var s1 := AfterMark(st);
      var s2 := SignedState(s1);
      var k := AfterSign(s2);
      var d := DigitsFrom(st.input, k);
      Run(g, SequenceOf([ExponentMark, Sign, Integer]), st, fuel + 7) ==
        Some(if d.0 == k then UpdateError(st, EmptyRunError(st.input, k))
             else st.(index := d.0, results := List([s1.results, s2.results, Int(SignedDigits(s2, d.1))])))
  {
    var s1 := AfterMark(st);
    var s2 := SignedState(s1);
    CharPairChoice(g, LowerE, UpperE, st, fuel + 4);
    assert Run(g, ExponentMark, st, fuel + 6) == Some(s1);
    SignReadsOptionalSign(g, s1, fuel + 2);
    assert Run(g, Sign, s1, fuel + 6) == Some(s2);
    IntegerValue(g, s2, fuel);
    CombinatorLaws.SequenceOfTriple(g, ExponentMark, Sign, Integer, st, fuel + 6);
  }

  /** Exponent's optional part: the three-item list after a mark with digits, a nil result otherwise. */
  function ExponentParsed(st: State): State
    requires st.Valid()
  {
    if ByteAt(st, LowerE, UpperE) then
      var s2 := SignedState(AfterMark(st));
      var k := AfterSign(s2);
      var d := DigitsFrom(st.input, k);
      if d.0 == k then st.(results := Nil)
      else st.(index := d.0, results := List([AfterMark(st).results, s2.results, Int(SignedDigits(s2, d.1))]))
    else st.(results := Nil)
  }

  lemma ExponentOptional(g: Grammar, st: State, fuel: nat)
    requires st.Valid() && !st.isError
    ensures Run(g, ZeroOrOne(SequenceOf([ExponentMark, Sign, Integer])), st, fuel + 8) == Some(ExponentParsed(st))
  {
    var body := SequenceOf([ExponentMark, Sign, Integer]);
    assert Run(g, ZeroOrOne(body), st, fuel + 8) == RunZeroOrOne(g, body, st, fuel + 7);
    if ByteAt(st, LowerE, UpperE) {
      ExponentParts(g, st, fuel);
    } else {
      CharPairChoice(g, LowerE, UpperE, st, fuel + 4);
      CombinatorLaws.SequenceOfTriple(g, ExponentMark, Sign, Integer, st, fuel + 6);
    }
  }

  /** What Exponent returns on `st`, without an exponent mark or digits: 0 at the cursor. */
  function ExponentState(st: State): State
    requires st.Valid()
  {
    if ByteAt(st, LowerE, UpperE) then
      var s1 := AfterMark(st);
      var s2 := SignedState(s1);
      var k := AfterSign(s2);
      var d := DigitsFrom(st.input, k);
      if d.0 == k then st.(results := Int(0))
      else st.(index := d.0, results := Int(if Negative(s1) then -SignedDigits(s2, d.1) else SignedDigits(s2, d.1)))
    else st.(results := Int(0))
  }

  /**
   * Exponent never fails. After an 'e' or 'E', a sign and an Integer it
   * returns the Integer's value, negated once more after a '-' sign, so
   * "e--2" gives 2; otherwise it returns 0 and does not move the cursor.
   */
  lemma ExponentReadsSignedInteger(g: Grammar, st: State, fuel: nat)
    requires st.Valid() && !st.isError
    ensures Run(g, Exponent, st, fuel + 9) == Some(ExponentState(st))
  {
    var body := SequenceOf([ExponentMark, Sign, Integer]);
    ExponentOptional(g, st, fuel);
    var t := ExponentParsed(st);
    assert Run(g, Exponent, st, fuel + 9) == Some(t.(results := ExponentOf(t.results)));
    ExponentMapped(st);
  }

  lemma ExponentMapped(st: State)
    requires st.Valid() && !st.isError
    ensures var t := ExponentParsed(st); t.(results := ExponentOf(t.results)) == ExponentState(st)
  {
    if ByteAt(st, LowerE, UpperE) {
      var s1 := AfterMark(st);
      var s2 := SignedState(s1);
      assert s2.results == Value.Str([Minus]) <==> Negative(s1);
    }
  }

  /** The decimal digits of `n`, most significant first, with no leading zero. */
  function Decimal(n: nat): (s: seq<Byte>)
    ensures |s| > 0 && AllDigits(s)
  {
    if n < 10 then ['0' as int + n] else Decimal(n / 10) + ['0' as int + n % 10]
  }

  /** Reading the digits of `n` gives `n` back. */
  lemma {:induction false} DecimalRoundTrip(n: nat)
    ensures DecimalValue(Decimal(n)) == n
  {
    var s := Decimal(n);
    if n >= 10 {
      DecimalRoundTrip(n / 10);
      assert s[..|s| - 1] == Decimal(n / 10);
    }
  }

  /** ASCII digit bytes are decimal-digit runes. */
  lemma {:induction false} DigitBytesAreRunes(input: seq<Byte>, i: nat, j: nat)
    requires i <= j <= |input| && AllDigits(input[i..j])
    ensures Conditionals.RunesMatch(Conditionals.IsDecimalDigit, input, i, j)
    decreases j - i
  {
    if i < j {
      assert input[i..j][0] == input[i];
      DecodeAscii(input[i..]);
      assert input[i + 1..j] == input[i..j][1..];
      DigitBytesAreRunes(input, i + 1, j);
    }
  }

  /** Digits stops exactly where a run of ASCII digits ends. */
  lemma DigitsFromExact(input: seq<Byte>, i: nat, j: nat)
    requires i <= j <= |input| && AllDigits(input[i..j])
    requires j == |input| || !Conditionals.IsDecimalDigit(input[j])
    ensures DigitsFrom(input, i) == (j, DecimalValue(input[i..j]))
  {
    DigitBytesAreRunes(input, i, j);
    Conditionals.ScanLongest(Conditionals.IsDecimalDigit, input, i, j);
    DigitsTakeAllDigits(input, i);
  }

  /** The text of an integer as Integer reads it: a '-' before the digits of a negative value. */
  function IntegerText(v: int): (s: seq<Byte>)
    ensures |s| > 0
  {
    if v < 0 then [Minus] + Decimal(-v) else Decimal(v)
  }

  /**
   * Integer reads back the text of any integer, provided the text is not
   * followed by another digit.
   */
  lemma IntegerReadsText(g: Grammar, v: int, st: State, fuel: nat)
    requires st.Valid() && !st.isError
    requires IntegerTextAt(v, st)
    ensures Run(g, Integer, st, fuel + 6) == Some(st.(index := st.index + |IntegerText(v)|, results := Int(v)))
  {
    IntegerValue(g, st, fuel);
    IntegerTextScan(v, st);
  }

  /** The text of `v` is at the cursor and is not followed by another digit. */
  predicate IntegerTextAt(v: int, st: State) {
    var t := IntegerText(v);
    st.index + |t| <= |st.input| && st.input[st.index..st.index + |t|] == t &&
    (st.index + |t| == |st.input| || !Conditionals.IsDecimalDigit(st.input[st.index + |t|]))
  }

  /** Where IntegerValue's sign and digits fall on the text of `v`. */
  lemma IntegerTextScan(v: int, st: State)
    requires st.Valid() && IntegerTextAt(v, st)
    ensures var d := DigitsFrom(st.input, AfterSign(st));
      d.0 == st.index + |IntegerText(v)| && d.0 != AfterSign(st) && SignedDigits(st, d.1) == v
  {
    if v < 0 {
      NegativeTextScan(v, st);
    } else {
      NonNegativeTextScan(v, st);
    }
  }

  lemma NegativeTextScan(v: int, st: State)
    requires st.Valid() && IntegerTextAt(v, st) && v < 0
    ensures Negative(st) && AfterSign(st) == st.index + 1
    ensures DigitsFrom(st.input, st.index + 1) == (st.index + |IntegerText(v)|, -v)
  {
    var n: nat := -v;
    var d := Decimal(n);
    var t := IntegerText(v);
    assert t == [Minus] + d;
    var e := st.index + |t|;
    var w := st.input[st.index..e];
    assert w == t;
    assert st.input[st.index] == w[0] == Minus;
    assert st.input[st.index + 1..e] == w[1..] == d;
    DigitsFromExact(st.input, st.index + 1, e);
    DecimalRoundTrip(n);
  }

  lemma NonNegativeTextScan(v: int, st: State)
    requires st.Valid() && IntegerTextAt(v, st) && v >= 0
    ensures !SignAt(st) && AfterSign(st) == st.index
    ensures DigitsFrom(st.input, st.index) == (st.index + |IntegerText(v)|, v)
  {
    var t := IntegerText(v);
    var e := st.index + |t|;
    assert st.input[st.index] == t[0];
    DigitsFromExact(st.input, st.index, e);
    DecimalRoundTrip(v);
  }

  /** The choice that ends RestOfLine: a '\n', consumed, or the end of the input. */
  lemma NewlineOrEnd(g: Grammar, t: State, fuel: nat)
    requires t.Valid() && !t.isError
    ensures Run(g, Choice([Newline, EndOfInput]), t, fuel + 2) ==
      Some(if t.index < |t.input| && t.input[t.index] == LineFeed then t.(index := t.index + 1, results := Value.Str([LineFeed]))
           else if t.index == |t.input| then t
           else UpdateError(t, Error(NoAlternative, t.index)))
  {
    var alts := [Newline, EndOfInput];
    assert Run(g, Choice(alts), t, fuel + 2) == Alternatives(g, alts, 0, t, fuel + 1);
    var a := Primitives.Char([LineFeed], t);
    var b := Primitives.EndOfInput(t);
    assert Run(g, alts[0], t, fuel + 1) == Some(a);
    assert Run(g, alts[1], t, fuel + 1) == Some(b);
    if t.index < |t.input| {
      assert Remaining(t)[..1] == [t.input[t.index]];
    }
    if !a.isError {
    } else if !b.isError {
      assert Alternatives(g, alts, 1, t, fuel + 1) == Some(b);
    } else {
      assert Alternatives(g, alts, 1, t, fuel + 1) == Alternatives(g, alts, 2, t, fuel + 1);
    }
  }

  /** The line RestOfLine takes from `i`, as (runes, end) of the scan that stops at '\n'. */
  function LineFrom(input: seq<Byte>, i: nat): (nat, nat)
    requires i <= |input|
  {
    Conditionals.Scan(Conditionals.NotNewline, input, i)
  }

  /**
   * What RestOfLine returns on `st`: the non-empty text up to the next '\n'
   * (which is consumed) or to the end of the input. It fails on an empty line,
   * and where the scan stops at a byte that is not valid UTF-8.
   */
  function RestOfLineState(st: State): State
    requires st.Valid()
  {
    var m := LineFrom(st.input, st.index);
    if m.0 == 0 then UpdateError(st, EmptyRunError(st.input, st.index))
    else if m.1 == |st.input| then st.(index := m.1, results := Value.Str(st.input[st.index..m.1]))
    else if st.input[m.1] == LineFeed then st.(index := m.1 + 1, results := Value.Str(st.input[st.index..m.1]))
    else UpdateError(st, Error(NoAlternative, m.1))
  }

  lemma RestOfLineParts(g: Grammar, st: State, fuel: nat)
    requires st.Valid() && !st.isError
    ensures var s := RestOfLineState(st);
      var r := Run(g, SequenceOf([CondMin(Conditionals.NotNewline, 1), Choice([Newline, EndOfInput])]), st, fuel + 3);
      r.Some? && (s.isError ==> r.value == s) &&
      (!s.isError ==> r.value == s.(results := r.value.results) && FirstItem(r.value.results) == s.results)
  {
    var line := CondMin(Conditionals.NotNewline, 1);
    var t := Conditionals.CondMin(Conditionals.NotNewline, 1, st);
    assert Run(g, line, st, fuel + 2) == Some(t);
    if !t.isError {
      NewlineOrEnd(g, t, fuel);
    }
    CombinatorLaws.SequenceOfPair(g, line, Choice([Newline, EndOfInput]), st, fuel + 2);
  }

  /** RestOfLine returns the state RestOfLineState describes. */
  lemma RestOfLineTakesLine(g: Grammar, st: State, fuel: nat)
    requires st.Valid() && !st.isError
    ensures Run(g, RestOfLine, st, fuel + 4) == Some(RestOfLineState(st))
  {
    var body := SequenceOf([CondMin(Conditionals.NotNewline, 1), Choice([Newline, EndOfInput])]);
    assert Run(g, RestOfLine, st, fuel + 4) == RunMap(g, body, FirstItem, st, fuel + 3);
    RestOfLineParts(g, st, fuel);
  }

  /** Every byte of the encoding of a non-ASCII rune is a non-ASCII byte. */
  lemma EncodeNonAscii(r: int)
    requires r >= 0x80
    ensures forall k :: 0 <= k < |EncodeRune(r)| ==> EncodeRune(r)[k] >= 0x80
  {
  }

  /** A run of runes other than '\n' holds no '\n' byte. */
  lemma {:induction false} LineHasNoLineFeed(input: seq<Byte>, i: nat, j: nat)
    requires i <= j <= |input| && Conditionals.RunesMatch(Conditionals.NotNewline, input, i, j)
    ensures forall k :: i <= k < j ==> input[k] != LineFeed
    decreases j - i
  {
    if i < j {
      var d := DecodeRune(input[i..]);
      EncodeDecode(input[i..]);
      if d.0 >= 0x80 {
        EncodeNonAscii(d.0);
      }
      assert forall k :: i <= k < i + d.1 ==> input[k] == EncodeRune(d.0)[k - i];
      LineHasNoLineFeed(input, i + d.1, j);
    }
  }

  /**
   * RestOfLine takes one line: a successful run returns non-empty text with
   * no '\n', and consumes exactly that text and the '\n' after it, or that
   * text up to the end of the input. An empty line fails, and a failure does
   * not move the cursor.
   */
  lemma RestOfLineIsOneLine(st: State)
    requires st.Valid() && !st.isError
    ensures var s := RestOfLineState(st);
      s.isError ==> s.index == st.index
    ensures var s := RestOfLineState(st);
      st.index < |st.input| && st.input[st.index] == LineFeed ==> s.isError
    ensures var s := RestOfLineState(st);
      !s.isError ==>
        s.results.Str? && |s.results.s| > 0 &&
        (forall k :: 0 <= k < |s.results.s| ==> s.results.s[k] != LineFeed) &&
        st.index <= s.index <= |st.input| &&
        ((s.index == |st.input| && st.input[st.index..] == s.results.s) ||
         st.input[st.index..s.index] == s.results.s + [LineFeed])
  {
    var m := LineFrom(st.input, st.index);
    Conditionals.ScanMatches(Conditionals.NotNewline, st.input, st.index);
    LineHasNoLineFeed(st.input, st.index, m.1);
    if st.index < |st.input| && st.input[st.index] == LineFeed {
      DecodeAscii(st.input[st.index..]);
    }
    if m.1 < |st.input| && st.input[m.1] == LineFeed {
      assert st.input[st.index..m.1 + 1] == st.input[st.index..m.1] + [LineFeed];
    }
  }

  /**
   * AnyStr takes the rest of the input when all of it is valid UTF-8 (no
   * U+FFFD either): the result is the remaining bytes.
   */
  lemma AnyStrTakesTheRest(g: Grammar, st: State, fuel: nat)
    requires st.Valid() && !st.isError && st.index < |st.input|
    requires Conditionals.RunesMatch(Conditionals.IsAnyChar, st.input, st.index, |st.input|)
    ensures Run(g, AnyStr, st, fuel + 1) == Some(st.(index := |st.input|, results := Value.Str(Remaining(st))))
  {
    var p := Conditionals.IsAnyChar;
    Conditionals.ScanLongest(p, st.input, st.index, |st.input|);
    var d := DecodeRune(st.input[st.index..]);
    assert d.0 != RuneError;
    assert st.input[st.index..|st.input|] == Remaining(st);
    assert Conditionals.Scan(p, st.input, st.index).0 == Conditionals.Scan(p, st.input, st.index + d.1).0 + 1;
    assert Run(g, AnyStr, st, fuel + 1) == Some(Conditionals.CondMin(p, 1, st));
  }

  /** The concatenation of the strings in `items`, or None at the first item that is not a string. */
  function JoinStr(items: seq<Value>): Option<seq<Byte>> {
    if items == [] then Some([])
    else match JoinStr(items[..|items| - 1])
      case None => None
      case Some(acc) => if items[|items| - 1].Str? then Some(acc + items[|items| - 1].s) else None
  }

  /** The joined value of a list of strings; Nil where Go's type assertions panic. */
  function Joined(v: Value): Value {
    if v.List? then
      match JoinStr(v.items)
      case None => Nil
      case Some(s) => Value.Str(s)
    else Nil
  }

  /** Joining succeeds exactly on lists whose items are all strings. */
  lemma {:induction false} JoinStrDefined(items: seq<Value>)
    ensures JoinStr(items).Some? <==> forall k :: 0 <= k < |items| ==> items[k].Str?
  {
    if items != [] {
      var init := items[..|items| - 1];
      JoinStrDefined(init);
      assert forall k :: 0 <= k < |init| ==> init[k] == items[k];
    }
  }

  /** Joining a concatenation joins the parts and concatenates them. */
  lemma {:induction false} JoinStrAppend(a: seq<Value>, b: seq<Value>)
    ensures JoinStr(a).Some? && JoinStr(b).Some? ==> JoinStr(a + b) == Some(JoinStr(a).value + JoinStr(b).value)
    ensures JoinStr(a + b).Some? ==> JoinStr(a).Some? && JoinStr(b).Some?
    decreases |b|
  {
    if b == [] {
      assert a + b == a;
      assert JoinStr(a).Some? ==> JoinStr(a).value + [] == JoinStr(a).value;
    } else {
      var init := b[..|b| - 1];
      JoinStrAppend(a, init);
      assert (a + b)[..|a + b| - 1] == a + init;
      assert (a + b)[|a + b| - 1] == b[|b| - 1];
      match (JoinStr(a), JoinStr(init)) {
        case (Some(x), Some(y)) =>
          if b[|b| - 1].Str? {
            assert x + (y + b[|b| - 1].s) == (x + y) + b[|b| - 1].s;
          }
        case _ =>
      }
    }
  }

  /**
   * JoinStrResults: the loop that concatenates the string items of a
   * list result in order.
   */
  method JoinStrResults(v: Value) returns (r: Value)
    ensures r == Joined(v)
  {
    if !v.List? {
      return Nil;
    }
    var acc: seq<Byte> := [];
    var i := 0;
    while i < |v.items|
      invariant 0 <= i <= |v.items|
      invariant JoinStr(v.items[..i]) == Some(acc)
    {
      assert v.items[..i + 1][..i] == v.items[..i];
      if !v.items[i].Str? {
        assert JoinStr(v.items[..i + 1]).None?;
        JoinStrAppend(v.items[..i + 1], v.items[i + 1..]);
        assert v.items[..i + 1] + v.items[i + 1..] == v.items;
        return Nil;
      }
      acc := acc + v.items[i].s;
      i := i + 1;
    }
    assert v.items[..i] == v.items;
    return Value.Str(acc);
  }

  /**
   * GetResultsItem: item `idx` of a list result when it has the asked-for
   * type (`isT`), else nothing. Go panics on an index out of range, so a
   * list result needs `idx` in range.
   */
  function GetResultsItem(v: Value, idx: int, isT: Value -> bool): (r: Option<Value>)
    requires v.List? ==> 0 <= idx < |v.items|
    ensures r.Some? <==> v.List? && isT(v.items[idx])
    ensures r.Some? ==> r.value == v.items[idx]
  {
    if v.List? && isT(v.items[idx]) then Some(v.items[idx]) else None
  }
}
