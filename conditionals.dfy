/**
 * The predicate-driven primitives of conditionals.go: the character classes,
 * Cond, CondMin and CondMinMax.
 */
module Conditionals {
  import opened Utf8
  import opened ParserState

  /** The rune predicates of conditionals.go; a Cond parser takes any `int -> bool`, as Go takes a func(rune) bool. */
  predicate IsAsciiLetter(r: int) { 'a' as int <= r <= 'z' as int || 'A' as int <= r <= 'Z' as int }
  predicate IsDecimalDigit(r: int) { '0' as int <= r <= '9' as int }
  predicate IsHexadecimalDigit(r: int) {
    '0' as int <= r <= '9' as int || 'a' as int <= r <= 'f' as int || 'A' as int <= r <= 'F' as int
  }
  predicate IsOctalDigit(r: int) { '0' as int <= r <= '7' as int }
  /** The Go body tests '0'..'7', not '0'..'1'. */
  predicate IsBinaryDigit(r: int) { '0' as int <= r <= '7' as int }
  predicate IsAlphaNumeric(r: int) {
    'a' as int <= r <= 'z' as int || 'A' as int <= r <= 'Z' as int || '0' as int <= r <= '9' as int
  }
  predicate IsWhitespace(r: int) { r == ' ' as int || r == '\n' as int || r == '\t' as int }
  predicate IsSpace(r: int) { r == ' ' as int }
  predicate IsTab(r: int) { r == '\t' as int }
  predicate IsNewline(r: int) { r == '\n' as int }
  predicate IsCarriageReturn(r: int) { r == '\r' as int }
  predicate IsAnyChar(r: int) { true }
  /** The anonymous predicate of utils.go's RestOfLine. */
  predicate NotNewline(r: int) { r != '\n' as int }

  /**
   * How the classes relate: hexadecimal digits extend decimal ones, the
   * binary class is the octal one, alphanumeric is exactly letter or digit,
   * whitespace is space, tab or newline, and of all the classes only the two
   * catch-alls accept U+FFFD.
   */
  lemma ClassRelations(r: int)
    ensures IsDecimalDigit(r) ==> IsHexadecimalDigit(r)
    ensures IsBinaryDigit(r) <==> IsOctalDigit(r)
    ensures IsBinaryDigit('7' as int) && !IsBinaryDigit('8' as int)
    ensures IsAlphaNumeric(r) <==> IsAsciiLetter(r) || IsDecimalDigit(r)
    ensures IsWhitespace(r) <==> IsSpace(r) || IsTab(r) || IsNewline(r)
    ensures IsAnyChar(RuneError) && NotNewline(RuneError)
    ensures !IsAsciiLetter(RuneError) && !IsHexadecimalDigit(RuneError) && !IsAlphaNumeric(RuneError)
    ensures !IsWhitespace(RuneError) && !IsCarriageReturn(RuneError)
  {
  }

  /**
   * Cond: one rune that satisfies the predicate; the result is the rune
   * written back as a string.
   */
  function Cond(p: int -> bool, st: State): (r: State)
    requires st.Valid()
    ensures r.Valid() && r.input == st.input
    ensures st.isError ==> r == st
    ensures !st.isError ==> (!r.isError <==> !AtTheEnd(st) && p(DecodeRune(Remaining(st)).0))
    ensures !st.isError && AtTheEnd(st) ==> r.err == Error(UnexpectedEnd, st.index)
    ensures !st.isError && !r.isError ==>
      r.index == st.index + DecodeRune(Remaining(st)).1 && r.index > st.index &&
      r.results == Value.Str(EncodeRune(DecodeRune(Remaining(st)).0)) && r.err == st.err
    ensures !st.isError && !r.isError && DecodeRune(Remaining(st)).0 != RuneError ==>
      r.results == Value.Str(st.input[st.index..r.index])
    ensures r.isError ==> r.index == st.index && r.results == st.results
  {
    if st.isError then st
    else if AtTheEnd(st) then UpdateError(st, Error(UnexpectedEnd, st.index))
    else
      var (rn, next) := NextRune(st);
      if !p(rn) then UpdateError(st, Error(NoMatch, st.index))
      else UpdateState(st, next.index, Value.Str(EncodeRune(rn)))
  }

  /**
   * The scan of CondMin's loop from position `i` of `input`: it stops at the
   * first rune the predicate rejects or at U+FFFD (which is also what
   * decoding gives at the end). The pair is (number of runes taken, position
   * where the scan stops).
   */
  function Scan(p: int -> bool, input: seq<Byte>, i: nat): (m: (nat, nat))
    requires i <= |input|
    ensures i + m.0 <= m.1 <= |input|
    decreases |input| - i
  {
    var d := DecodeRune(input[i..]);
    if d.0 == RuneError || !p(d.0) then (0, i)
    else
      var t := Scan(p, input, i + d.1);
      (t.0 + 1, t.1)
  }

  /** The bytes from `i` to `j` are runes (none of them U+FFFD) that all satisfy the predicate. */
  predicate RunesMatch(p: int -> bool, input: seq<Byte>, i: nat, j: nat)
    requires i <= j <= |input|
    decreases j - i
  {
    i == j ||
    var d := DecodeRune(input[i..]);
    d.0 != RuneError && p(d.0) && i + d.1 <= j && RunesMatch(p, input, i + d.1, j)
  }

  /** The rune at position `j` stops a CondMin scan. */
  predicate StopsAt(p: int -> bool, input: seq<Byte>, j: nat)
    requires j <= |input|
  {
    var r := DecodeRune(input[j..]).0;
    r == RuneError || !p(r)
  }

  /** The scan takes a run of matching runes and stops where the next rune does not match. */
  lemma {:induction false} ScanMatches(p: int -> bool, input: seq<Byte>, i: nat)
    requires i <= |input|
    ensures RunesMatch(p, input, i, Scan(p, input, i).1)
    ensures StopsAt(p, input, Scan(p, input, i).1)
    decreases |input| - i
  {
    var d := DecodeRune(input[i..]);
    if d.0 != RuneError && p(d.0) {
      ScanMatches(p, input, i + d.1);
      ScanStep(p, input, i, d.0, i + d.1);
      var e := Scan(p, input, i + d.1).1;
      assert StopsAt(p, input, e);
      assert RunesMatch(p, input, i, e);
    } else {
      assert Scan(p, input, i) == (0, i);
    }
  }

  /** No run of matching runes from `i` goes further than the scan. */
  lemma {:induction false} ScanLongest(p: int -> bool, input: seq<Byte>, i: nat, j: nat)
    requires i <= j <= |input| && RunesMatch(p, input, i, j)
    ensures j <= Scan(p, input, i).1
    decreases j - i
  {
    if i < j {
      var d := DecodeRune(input[i..]);
      ScanLongest(p, input, i + d.1, j);
    }
  }

  /**
   * CondMin: the longest run of matching runes, as the result string; fails
   * when that run has fewer than `min` runes, when `min` is negative, and at
   * the end of the input when `min` is positive.
   */
  function CondMin(p: int -> bool, min: int, st: State): (r: State)
    requires st.Valid()
    ensures r.Valid() && r.input == st.input
    ensures st.isError ==> r == st
    ensures r.isError ==> r.index == st.index && r.results == st.results
    ensures !st.isError && min < 0 ==> r.isError
    ensures !st.isError && AtTheEnd(st) && min > 0 ==> r.err == Error(UnexpectedEnd, st.index)
    ensures !st.isError && min >= 0 ==> (r.isError <==> Scan(p, st.input, st.index).0 < min)
    ensures !st.isError && !r.isError ==>
      r.index == Scan(p, st.input, st.index).1 && r.err == st.err &&
      r.results == Value.Str(st.input[st.index..r.index])
  {
    if st.isError then st
    else if AtTheEnd(st) && min > 0 then UpdateError(st, Error(UnexpectedEnd, st.index))
    else if min < 0 then UpdateError(st, Error(WrongArgument, st.index))
    else
      var (n, j) := Scan(p, st.input, st.index);
      if n < min then UpdateError(st, Error(TooFewMatches, st.index))
      else UpdateState(st, j, Value.Str(st.input[st.index..j]))
  }

  /**
   * A successful CondMin is greedy: it took matching runes only, the next
   * rune does not match, and no run of matching runes goes further.
   */
  lemma CondMinGreedy(p: int -> bool, min: int, st: State, j: nat)
    requires st.Valid() && !st.isError && !CondMin(p, min, st).isError
    requires st.index <= j <= |st.input| && RunesMatch(p, st.input, st.index, j)
    ensures var r := CondMin(p, min, st);
      RunesMatch(p, st.input, st.index, r.index) && StopsAt(p, st.input, r.index) && j <= r.index
  {
    ScanMatches(p, st.input, st.index);
    ScanLongest(p, st.input, st.index, j);
  }

  /**
   * The loop of CondMin's closure, as Go writes it: it decodes runes from the
   * advancing state and appends their encodings to a result buffer. It
   * returns the number of runes found, the advanced state and the buffer.
   */
  method ScanMatching(p: int -> bool, st: State) returns (numFound: nat, current: State, results: seq<Byte>)
    requires st.Valid()
    ensures (numFound, current.index) == Scan(p, st.input, st.index)
    ensures results == st.input[st.index..current.index]
  {
    ghost var total := Scan(p, st.input, st.index);
    ghost var rest := total;
    current := st;
    numFound := 0;
    results := [];
    while true
      invariant current.input == st.input && st.index <= current.index <= |st.input|
      invariant results == st.input[st.index..current.index]
      invariant rest == Scan(p, st.input, current.index)
      invariant numFound + rest.0 == total.0 && rest.1 == total.1
      decreases |st.input| - current.index
    {
      if AtTheEnd(st) { break; }
      var (rn, next) := NextRune(current);
      if rn == RuneError || AtTheEnd(st) || !p(rn) { break; }
      ScanStep(p, st.input, current.index, rn, next.index);
      SliceJoin(st.input, st.index, current.index, next.index);
      numFound := numFound + 1;
      current := next;
      results := results + EncodeRune(rn);
      rest := Scan(p, st.input, current.index);
    }
    assert rest == (0, current.index);
  }

  /** One step of the scan: a matching rune `r` at `i` is taken and the scan goes on at `j`, after it. */
  lemma ScanStep(p: int -> bool, input: seq<Byte>, i: nat, r: int, j: nat)
    requires i <= |input| && r != RuneError && p(r)
    requires r == DecodeRune(input[i..]).0 && j == i + DecodeRune(input[i..]).1
    ensures i < j <= |input|
    ensures Scan(p, input, i) == (Scan(p, input, j).0 + 1, Scan(p, input, j).1)
  {
    var d := DecodeRune(input[i..]);
    assert d == (r, j - i);
    var t := Scan(p, input, j);
    assert Scan(p, input, i) == (t.0 + 1, t.1);
  }

  /** A rune decoded at `i` is encoded by the bytes it was decoded from. */
  lemma EncodedAt(input: seq<Byte>, i: nat)
    requires i <= |input| && DecodeRune(input[i..]).0 != RuneError
    ensures i + DecodeRune(input[i..]).1 <= |input|
    ensures EncodeRune(DecodeRune(input[i..]).0) == input[i..i + DecodeRune(input[i..]).1]
  {
    EncodeDecode(input[i..]);
    assert input[i..][..DecodeRune(input[i..]).1] == input[i..i + DecodeRune(input[i..]).1];
  }

  /** Appending two adjacent slices appends the slice they make up. */
  lemma JoinAt(acc: seq<Byte>, input: seq<Byte>, i: nat, j: nat, m: nat)
    requires i <= j <= m <= |input|
    ensures (acc + input[i..j]) + input[j..m] == acc + input[i..m]
  {
    SliceJoin(input, i, j, m);
  }

  lemma SliceJoin(s: seq<Byte>, i: nat, j: nat, k: nat)
    requires i <= j <= k <= |s|
    ensures s[i..j] + s[j..k] == s[i..k]
  {
  }

  /** CondMin's closure: the argument checks, the scan, and the count check. */
  method ScanCondMin(p: int -> bool, min: int, st: State) returns (r: State)
    requires st.Valid()
    ensures r == CondMin(p, min, st)
  {
    if st.isError { return st; }
    if AtTheEnd(st) && min > 0 { return UpdateError(st, Error(UnexpectedEnd, st.index)); }
    if min < 0 { return UpdateError(st, Error(WrongArgument, st.index)); }
    var numFound, current, results := ScanMatching(p, st);
    if numFound < min { return UpdateError(st, Error(TooFewMatches, st.index)); }
    return UpdateState(st, current.index, Value.Str(results));
  }

  /**
   * The scan of CondMinMax's loop, from a loop state: the cursor `i`, the
   * `k` runes still allowed, the `n` runes found and the bytes `acc`
   * collected so far. It stops at the first rune the predicate rejects;
   * U+FFFD is not a stop by itself, and at the end of the input the decoder
   * keeps returning it without consuming. The triple is the final (number of
   * runes, stop position, bytes collected).
   */
  function ScanMax(p: int -> bool, input: seq<Byte>, i: nat, k: nat, n: nat, acc: seq<Byte>): (m: (nat, nat, seq<Byte>))
    requires i <= |input|
    ensures i <= m.1 <= |input|
    ensures n <= m.0 <= n + k
    decreases k
  {
    if k == 0 then (n, i, acc)
    else
      var d := DecodeRune(input[i..]);
      if !p(d.0) then (n, i, acc)
      else ScanMax(p, input, i + d.1, k - 1, n + 1, acc + EncodeRune(d.0))
  }

  function MinNat(a: nat, b: nat): nat { if a <= b then a else b }

  /**
   * With a predicate that rejects U+FFFD, CondMinMax's scan is CondMin's scan
   * cut at `k` runes: the count is the smaller of the two, and with `k` large
   * enough both stop at the same place.
   */
  lemma {:induction false} ScanMaxBounded(p: int -> bool, input: seq<Byte>, i: nat, k: nat, n: nat, acc: seq<Byte>)
    requires i <= |input| && !p(RuneError)
    ensures var m := ScanMax(p, input, i, k, n, acc);
      m.0 == n + MinNat(k, Scan(p, input, i).0) &&
      (k >= Scan(p, input, i).0 ==> m.1 == Scan(p, input, i).1)
    decreases k
  {
    var d := DecodeRune(input[i..]);
    if k > 0 && p(d.0) {
      var j := i + d.1;
      var e := EncodeRune(d.0);
      ScanMaxBounded(p, input, j, k - 1, n + 1, acc + e);
      ScanMaxStep(p, input, i, k, n, acc);
      ScanStep(p, input, i, d.0, j);
      var u := Scan(p, input, j);
      assert n + MinNat(k, u.0 + 1) == n + 1 + MinNat(k - 1, u.0);
    } else {
      ScanMaxStop(p, input, i, k, n, acc);
      if k > 0 {
        assert Scan(p, input, i) == (0, i);
      } else if Scan(p, input, i).0 == 0 {
        assert Scan(p, input, i).1 == i;
      }
    }
  }

  /**
   * With a predicate that rejects U+FFFD, the bytes CondMinMax's scan
   * collects are exactly the bytes it consumed.
   */
  lemma {:induction false} ScanMaxConsumed(p: int -> bool, input: seq<Byte>, i: nat, k: nat, n: nat, acc: seq<Byte>)
    requires i <= |input| && !p(RuneError)
    ensures var m := ScanMax(p, input, i, k, n, acc); m.2 == acc + input[i..m.1]
    decreases k
  {
    var d := DecodeRune(input[i..]);
    if k > 0 && p(d.0) {
      var j := i + d.1;
      var e := EncodeRune(d.0);
      ScanMaxConsumed(p, input, j, k - 1, n + 1, acc + e);
      ScanMaxStep(p, input, i, k, n, acc);
      EncodedAt(input, i);
      JoinAt(acc, input, i, j, ScanMax(p, input, j, k - 1, n + 1, acc + e).1);
    } else {
      ScanMaxStop(p, input, i, k, n, acc);
      assert input[i..i] == [];
    }
  }

  /** One step of the bounded scan: a matching rune is counted, collected and consumed. */
  lemma ScanMaxStep(p: int -> bool, input: seq<Byte>, i: nat, k: nat, n: nat, acc: seq<Byte>)
    requires i <= |input| && k > 0 && p(DecodeRune(input[i..]).0)
    ensures var d := DecodeRune(input[i..]);
      ScanMax(p, input, i, k, n, acc) == ScanMax(p, input, i + d.1, k - 1, n + 1, acc + EncodeRune(d.0))
  {
  }

  /** The bounded scan stops with its loop state when no rune is allowed or the next one does not match. */
  lemma ScanMaxStop(p: int -> bool, input: seq<Byte>, i: nat, k: nat, n: nat, acc: seq<Byte>)
    requires i <= |input| && (k == 0 || !p(DecodeRune(input[i..]).0))
    ensures ScanMax(p, input, i, k, n, acc) == (n, i, acc)
  {
  }

  /** n copies of the encoding of U+FFFD. */
  function RuneErrors(n: nat): seq<Byte> {
    if n == 0 then [] else RuneErrorBytes + RuneErrors(n - 1)
  }

  /**
   * The end-of-input quirk: with a predicate that accepts U+FFFD, the scan at
   * the end of the input counts all `k` allowed runes as phantom matches
   * without consuming a byte.
   */
  lemma {:induction false} ScanMaxAtEnd(p: int -> bool, input: seq<Byte>, k: nat, n: nat, acc: seq<Byte>)
    requires p(RuneError)
    ensures ScanMax(p, input, |input|, k, n, acc) == (n + k, |input|, acc + RuneErrors(k))
  {
    if k > 0 {
      ScanMaxAtEnd(p, input, k - 1, n + 1, acc + RuneErrorBytes);
      assert acc + (RuneErrorBytes + RuneErrors(k - 1)) == (acc + RuneErrorBytes) + RuneErrors(k - 1);
    } else {
      assert acc + [] == acc;
    }
  }

  /**
   * CondMinMax: between `min` and `max` matching runes, greedily up to `max`;
   * fails when `min` is negative or above `max`, at the end of the input when
   * `min` is positive, and when fewer than `min` runes match.
   */
  function CondMinMax(p: int -> bool, min: int, max: int, st: State): (r: State)
    requires st.Valid()
    ensures r.Valid() && r.input == st.input
    ensures st.isError ==> r == st
    ensures r.isError ==> r.index == st.index && r.results == st.results
    ensures !st.isError && (min < 0 || min > max) ==> r.isError
    ensures !st.isError && AtTheEnd(st) && min > 0 ==> r.err == Error(UnexpectedEnd, st.index)
    ensures !st.isError && 0 <= min <= max && !(AtTheEnd(st) && min > 0) ==>
      (r.isError <==> ScanMax(p, st.input, st.index, max, 0, []).0 < min)
    ensures !st.isError && !r.isError ==>
      (0 <= min <= max && r.index == ScanMax(p, st.input, st.index, max, 0, []).1 && r.err == st.err &&
       r.results == Value.Str(ScanMax(p, st.input, st.index, max, 0, []).2))
  {
    if st.isError then st
    else if AtTheEnd(st) && min > 0 then UpdateError(st, Error(UnexpectedEnd, st.index))
    else if min < 0 || min > max then UpdateError(st, Error(WrongArgument, st.index))
    else
      var (n, j, bytes) := ScanMax(p, st.input, st.index, max, 0, []);
      if n < min then UpdateError(st, Error(TooFewMatches, st.index))
      else UpdateState(st, j, Value.Str(bytes))
  }

  /**
   * The loop of CondMinMax's closure, as Go writes it (including its test of
   * the decoded state's error flag, which NextRune never sets).
   */
  method ScanBounded(p: int -> bool, max: nat, st: State) returns (numFound: nat, current: State, results: seq<Byte>)
    requires st.Valid() && !st.isError
    ensures (numFound, current.index, results) == ScanMax(p, st.input, st.index, max, 0, [])
  {
    ghost var total := ScanMax(p, st.input, st.index, max, 0, []);
    ghost var k := max;
    current := st;
    numFound := 0;
    results := [];
    while numFound < max
      invariant current.input == st.input && !current.isError && st.index <= current.index <= |st.input|
      invariant numFound + k == max
      invariant ScanMax(p, st.input, current.index, k, numFound, results) == total
      decreases k
    {
      var (rn, next) := NextRune(current);
      if next.isError || !p(rn) { break; }
      numFound := numFound + 1;
      current := next;
      results := results + EncodeRune(rn);
      k := k - 1;
    }
  }

  /** CondMinMax's closure: the argument checks, the bounded scan, and the count check. */
  method ScanCondMinMax(p: int -> bool, min: int, max: int, st: State) returns (r: State)
    requires st.Valid()
    ensures r == CondMinMax(p, min, max, st)
  {
    if st.isError { return st; }
    if AtTheEnd(st) && min > 0 { return UpdateError(st, Error(UnexpectedEnd, st.index)); }
    if min < 0 || min > max { return UpdateError(st, Error(WrongArgument, st.index)); }
    var numFound, current, results := ScanBounded(p, max, st);
    if numFound < min { return UpdateError(st, Error(TooFewMatches, st.index)); }
    return UpdateState(st, current.index, Value.Str(results));
  }

}
