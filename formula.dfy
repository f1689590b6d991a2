/**
 * tutorial/errors/parsers.go: the formula language of the errors tutorial
 * ("pi + 2", "(1 + 2) * 3"). Numbers, the constants pi, phi and e,
 * bracketed expressions, products and sums, built from the library's
 * combinators around a forward-declared `expression`, and Parse, which
 * returns either the tree or the error.
 *
 * Go's realNumber converts the text to a float64; the float value is not
 * modelled, so a real number's Number node holds the parts its syntax
 * produced.
 */
module Formula {
  import opened Wrappers
  import opened Utf8
  import opened ParserState
  import opened Combinators
  import Primitives
  import Conditionals
  import CombinatorLaws
  import Parsing
  import Utils

  const Pi: seq<Byte> := ['p' as int, 'i' as int]
  const Phi: seq<Byte> := ['p' as int, 'h' as int, 'i' as int]
  const EulerE: seq<Byte> := ['e' as int]
  const Star: Byte := '*' as int
  const Slash: Byte := '/' as int
  const OpenParen: Byte := '(' as int
  const CloseParen: Byte := ')' as int
  const Point: Byte := '.' as int

  /** Optional whitespace between tokens: any run of spaces, newlines and tabs. */
  const Whitespace: Parser := ZeroOrMore(Cond(Conditionals.IsWhitespace))

  /** constant's mapper; the Go type assertion would panic on a non-string, here Nil. */
  function ToConstant(v: Value): Value {
    if v.Str? then Constant(v.s) else Nil
  }

  /** constant: "pi", "phi" or "e", tried in that order. */
  const ConstantParser: Parser :=
    Map(Choice([Parser.Str(Pi), Parser.Str(Phi), Parser.Str(EulerE)]), ToConstant)

  /** intNumber's mapper: Integer's value in a Number node. */
  function ToIntNumber(v: Value): Value {
    if v.Int? then Number(v) else Nil
  }

  /** intNumber: an Integer, as a Number node. */
  const IntNumber: Parser := Map(Utils.Integer, ToIntNumber)

  /** realNumber's mapper, without the conversion to a float. */
  function ToRealNumber(v: Value): Value {
    Number(v)
  }

  /** realNumber: the syntax of RealNumber, as a Number node. */
  const RealNumber: Parser := Map(Utils.RealNumberSyntax, ToRealNumber)

  /** number: a real number is tried before an integer. */
  const NumberParser: Parser := Choice([RealNumber, IntNumber])

  /** The operators' mapper: the operator's text in an Operator node. */
  function ToOperator(v: Value): Value {
    if v.Str? then Operator(v.s) else Nil
  }

  /** An operator of two one-byte spellings. */
  function OperatorOf(x: Byte, y: Byte): Parser {
    Map(Choice([Parser.Str([x]), Parser.Str([y])]), ToOperator)
  }

  const MulOperator: Parser := OperatorOf(Star, Slash)
  const AddOperator: Parser := OperatorOf(Utils.Plus, Utils.Minus)

  /** bracketed_expression's mapper: the third item of its sequence. */
  function ThirdItem(v: Value): Value {
    if v.List? && |v.items| >= 3 then v.items[2] else Nil
  }

  /** bracketed_expression: an expression between parentheses, whitespace allowed inside them. */
  const Bracketed: Parser := Map(SequenceOf(BracketedParts), ThirdItem)

  const BracketedParts: seq<Parser> :=
    [Parser.Str([OpenParen]), Whitespace, Ref("expression"), Whitespace, Parser.Str([CloseParen])]

  /** atom: a number, a constant or a bracketed expression, tried in that order. */
  const Atom: Parser := Choice([NumberParser, ConstantParser, Bracketed])

  /** One step of a tail: an operator and an operand, whitespace allowed around the operator. */
  function OperatorPair(op: Parser, operand: Parser): Parser {
    SequenceOf([Whitespace, op, Whitespace, operand])
  }

  /** The tail of a term: any number of multiplicative steps. */
  const MulTail: Parser := ZeroOrMore(OperatorPair(MulOperator, Atom))

  /**
   * term's mapper on [first atom, steps]: without steps the atom itself,
   * otherwise a Term of the atom and the first step's operator and operand.
   * Later steps are dropped. The Go type assertions would panic on other
   * shapes, here Nil.
   */
  function ToTerm(v: Value): Value {
    if v.List? && |v.items| >= 2 && v.items[1].List? then
      var steps := v.items[1].items;
      if |steps| == 0 then v.items[0]
      else if steps[0].List? && |steps[0].items| >= 4 then Term(v.items[0], steps[0].items[1], steps[0].items[3])
      else Nil
    else Nil
  }

  const TermParser: Parser := Map(SequenceOf([Atom, MulTail]), ToTerm)

  /** The tail of an expression: any number of additive steps. */
  const AddTail: Parser := ZeroOrMore(OperatorPair(AddOperator, TermParser))

  /**
   * expression's mapper as written: as term's, except that the Expression
   * node's first operand is the list of steps rather than the first term.
   */
  function ToExpressionAsWritten(v: Value): Value {
    if v.List? && |v.items| >= 2 && v.items[1].List? then
      var steps := v.items[1].items;
      if |steps| == 0 then v.items[0]
      else if steps[0].List? && |steps[0].items| >= 4 then Expression(v.items[1], steps[0].items[1], steps[0].items[3])
      else Nil
    else Nil
  }

  /** expression's mapper as intended: the first term is the first operand, as in term. */
  function ToExpression(v: Value): Value {
    if v.List? && |v.items| >= 2 && v.items[1].List? then
      var steps := v.items[1].items;
      if |steps| == 0 then v.items[0]
      else if steps[0].List? && |steps[0].items| >= 4 then Expression(v.items[0], steps[0].items[1], steps[0].items[3])
      else Nil
    else Nil
  }

  const ExpressionParts: Parser := SequenceOf([TermParser, AddTail])
  const ExpressionAsWritten: Parser := Map(ExpressionParts, ToExpressionAsWritten)
  const ExpressionParser: Parser := Map(ExpressionParts, ToExpression)

  /** formula: an expression spanning the whole input. */
  const FormulaParser: Parser := Map(SequenceOf([StartOfInput, Ref("expression"), EndOfInput]), SecondItem)

  /** The late binding of the forward-declared `expression`, as the program makes it: to the mapper as written. */
  const FormulaGrammar: Grammar := map["expression" := ExpressionAsWritten]

  /** The same binding with the expression mapper corrected. */
  const FormulaGrammarCorrected: Grammar := map["expression" := ExpressionParser]

  /** Either binding of `expression`: the program's, or the corrected one. */
  ghost predicate Bound(g: Grammar) {
    g == FormulaGrammar || g == FormulaGrammarCorrected
  }

  lemma BoundExpression(g: Grammar)
    requires Bound(g)
    ensures "expression" in g && IsExpression(g["expression"])
  {
  }

  /**
   * Parse, with `expression` bound as in `g`: the tree and no error, or no
   * tree and the error. None when the fuel runs out.
   */
  function ParseFormula(g: Grammar, source: seq<Byte>, fuel: nat): (r: Option<(Value, Err)>)
    ensures r.Some? && r.value.1 != NoErr ==> r.value.0 == Nil
    ensures r.Some? && r.value.0 != Nil ==> r.value.1 == NoErr
    ensures r.Some? <==> Parsing.Parse(g, FormulaParser, source, fuel).Some?
  {
    match Parsing.Parse(g, FormulaParser, source, fuel)
    case None => None
    case Some(st) => if st.isError then Some((Nil, st.err)) else Some((st.results, NoErr))
  }

  /*
   * The whole input.
   */

  /** What formula makes of the expression's outcome on the initial state. */
  function Spanning(init: State, e: State): State
    requires init.Valid()
  {
    if e.isError then UpdateError(init, e.err)
    else if e.index == |init.input| then e
    else UpdateError(init, Error(NotAtEnd, e.index))
  }

  /**
   * formula succeeds exactly when the expression succeeds on the whole
   * input, with the expression's tree; otherwise it fails at cursor 0,
   * with the expression's error or a not-at-end error where it stopped.
   */
  lemma FormulaSpansInput(g: Grammar, source: seq<Byte>, fuel: nat)
    requires "expression" in g
    ensures var init := Parsing.InitialState(source);
      Run(g, FormulaParser, init, fuel + 3) ==
        match Run(g, g["expression"], init, fuel)
        case None => None
        case Some(e) => Some(Spanning(init, e))
  {
    var init := Parsing.InitialState(source);
    match Run(g, g["expression"], init, fuel)
    case None => FormulaWithoutResult(g, source, fuel);
    case Some(e) => FormulaOfResult(g, source, e, fuel);
  }

  /** The start of input and the reference to the expression at the initial state. */
  lemma FormulaOpening(g: Grammar, source: seq<Byte>, fuel: nat)
    requires "expression" in g
    ensures var init := Parsing.InitialState(source);
      && Run(g, StartOfInput, init, fuel + 1) == Some(init)
      && Run(g, Ref("expression"), init, fuel + 1) == Run(g, g["expression"], init, fuel)
  {
    CombinatorLaws.RefRuns(g, "expression", Parsing.InitialState(source), fuel);
  }

  /** formula where the expression runs out of fuel: no outcome either. */
  lemma FormulaWithoutResult(g: Grammar, source: seq<Byte>, fuel: nat)
    requires "expression" in g && Run(g, g["expression"], Parsing.InitialState(source), fuel).None?
    ensures Run(g, FormulaParser, Parsing.InitialState(source), fuel + 3).None?
  {
    var init := Parsing.InitialState(source);
    var ps := [StartOfInput, Ref("expression"), EndOfInput];
    FormulaOpening(g, source, fuel);
    assert Run(g, FormulaParser, init, fuel + 3) == RunMap(g, SequenceOf(ps), SecondItem, init, fuel + 2);
    CombinatorLaws.SequenceOfRunsInOrder(g, ps, init, fuel + 1);
    assert ps[1..][0] == Ref("expression");
  }

  /** formula where the expression has an outcome: that outcome held against the end of input. */
  lemma FormulaOfResult(g: Grammar, source: seq<Byte>, e: State, fuel: nat)
    requires "expression" in g && Run(g, g["expression"], Parsing.InitialState(source), fuel) == Some(e)
    ensures var init := Parsing.InitialState(source);
      Run(g, FormulaParser, init, fuel + 3) == Some(Spanning(init, e))
  {
    var init := Parsing.InitialState(source);
    var ps := [StartOfInput, Ref("expression"), EndOfInput];
    FormulaOpening(g, source, fuel);
    assert Run(g, FormulaParser, init, fuel + 3) == RunMap(g, SequenceOf(ps), SecondItem, init, fuel + 2);
    CombinatorLaws.SequenceOfTriple(g, StartOfInput, Ref("expression"), EndOfInput, init, fuel + 1);
  }

  /** Parse on the whole input: the expression's tree when it spans the input, else its failure. */
  lemma ParseFormulaSpans(g: Grammar, source: seq<Byte>, fuel: nat)
    requires "expression" in g
    ensures var init := Parsing.InitialState(source);
      ParseFormula(g, source, fuel + 3) ==
        match Run(g, g["expression"], init, fuel)
        case None => None
        case Some(e) =>
          if e.isError then Some((Nil, e.err))
          else if e.index == |source| then Some((e.results, NoErr))
          else Some((Nil, Error(NotAtEnd, e.index)))
  {
    FormulaSpansInput(g, source, fuel);
  }

  /*
   * Whitespace.
   */

  /** The end of the run of whitespace bytes at `i`. */
  function BlankEnd(s: seq<Byte>, i: nat): (j: nat)
    requires i <= |s|
    ensures i <= j <= |s|
    decreases |s| - i
  {
    if i < |s| && Conditionals.IsWhitespace(s[i]) then BlankEnd(s, i + 1) else i
  }

  /** The results Whitespace collects from `i` to `j`: one one-byte string per byte. */
  function Blanks(s: seq<Byte>, i: nat, j: nat): (bs: seq<Value>)
    requires i <= j <= |s|
    ensures |bs| == j - i
  {
    seq(j - i, m requires 0 <= m < j - i => Value.Str([s[i + m]]))
  }

  /** The first whitespace byte and the rest. */
  lemma BlanksCons(s: seq<Byte>, i: nat, j: nat)
    requires i < j <= |s|
    ensures Blanks(s, i, j) == [Value.Str([s[i]])] + Blanks(s, i + 1, j)
  {
  }

  /**
   * Whitespace never fails: it moves the cursor past the run of whitespace
   * bytes and returns them, one string each.
   */
  lemma WhitespaceSkipped(g: Grammar, st: State, fuel: nat)
    requires st.Valid() && !st.isError
    requires fuel >= BlankEnd(st.input, st.index) - st.index
    ensures var e := BlankEnd(st.input, st.index);
      Run(g, Whitespace, st, fuel + 2) == Some(st.(index := e, results := List(Blanks(st.input, st.index, e))))
  {
    var c := Cond(Conditionals.IsWhitespace);
    forall t: State | t.Valid() && !t.isError
      ensures Run(g, c, t, fuel + 1) == Some(BlankStep(t))
    {
      BlankByte(g, t, fuel);
    }
    BlankRepeat(g, c, st, [], fuel + 1, fuel + 1);
    CombinatorLaws.ZeroOrMoreRepeat(g, c, st, fuel + 1);
    assert [] + Blanks(st.input, st.index, BlankEnd(st.input, st.index)) == Blanks(st.input, st.index, BlankEnd(st.input, st.index));
  }

  /** What Whitespace's child does: one whitespace byte, or a failure at the cursor. */
  function BlankStep(st: State): State
    requires st.Valid() && !st.isError
  {
    if st.index < |st.input| && Conditionals.IsWhitespace(st.input[st.index])
    then st.(index := st.index + 1, results := Value.Str([st.input[st.index]]))
    else UpdateError(st, Error(if st.index == |st.input| then UnexpectedEnd else NoMatch, st.index))
  }

  /** The parser `c` behaves as Whitespace's child on every state. */
  ghost predicate ReadsBlanks(g: Grammar, c: Parser, fuel: nat) {
    forall t: State {:trigger BlankStep(t)} :: t.Valid() && !t.isError ==> Run(g, c, t, fuel) == Some(BlankStep(t))
  }

  /** Cond(IsWhitespace) on bytes: one whitespace byte, or a failure at the cursor. */
  lemma BlankByte(g: Grammar, st: State, fuel: nat)
    requires st.Valid() && !st.isError
    ensures Run(g, Cond(Conditionals.IsWhitespace), st, fuel + 1) == Some(BlankStep(st))
  {
    if st.index < |st.input| {
      var rest := Remaining(st);
      if Conditionals.IsWhitespace(DecodeRune(rest).0) {
        AsciiRuneIsOneByte(rest);
      } else if st.input[st.index] < 0x80 {
        DecodeAscii(rest);
      }
    }
  }

  /**
   * The repetition loop of a parser that behaves as Whitespace's child,
   * started on `st` with `acc` collected, ends with the whitespace bytes at
   * the cursor added to `acc`, on a state past them.
   */
  ghost predicate BlankLoop(g: Grammar, c: Parser, st: State, acc: seq<Value>, fuel: nat, k: nat)
    requires st.Valid() && !st.isError
  {
    var e := BlankEnd(st.input, st.index);
    var r := Repeat(g, c, None, st, acc, fuel, k);
    r.Some? && r.value.0 == acc + Blanks(st.input, st.index, e) &&
    r.value.1 == st.(index := e, results := r.value.1.results)
  }

  /** The loop collects the whitespace bytes at the cursor and stops after the last, given a round for each. */
  lemma {:induction false} BlankRepeat(g: Grammar, c: Parser, st: State, acc: seq<Value>, fuel: nat, k: nat)
    requires st.Valid() && !st.isError && ReadsBlanks(g, c, fuel)
    requires k > BlankEnd(st.input, st.index) - st.index
    ensures BlankLoop(g, c, st, acc, fuel, k)
    decreases |st.input| - st.index, 1
  {
    if st.index < |st.input| && Conditionals.IsWhitespace(st.input[st.index]) {
      BlankRepeatOn(g, c, st, acc, fuel, k);
    } else {
      BlankRepeatEnd(g, c, st, acc, fuel, k);
    }
  }

  /** ... on a whitespace byte: one match, then the loop from the next byte. */
  lemma {:induction false} BlankRepeatOn(g: Grammar, c: Parser, st: State, acc: seq<Value>, fuel: nat, k: nat)
    requires st.Valid() && !st.isError && ReadsBlanks(g, c, fuel)
    requires st.index < |st.input| && Conditionals.IsWhitespace(st.input[st.index])
    requires k > BlankEnd(st.input, st.index) - st.index
    ensures BlankLoop(g, c, st, acc, fuel, k)
    decreases |st.input| - st.index, 0
  {
    var t := BlankStep(st);
    BlankStepOn(st);
    BlankRepeat(g, c, t, acc + [t.results], fuel, k - 1);
    BlankRepeatMatches(g, c, st, acc, fuel, k);
  }

  /** ... on any other byte or at the end: the loop stops. */
  lemma BlankRepeatEnd(g: Grammar, c: Parser, st: State, acc: seq<Value>, fuel: nat, k: nat)
    requires st.Valid() && !st.isError && ReadsBlanks(g, c, fuel) && k > 0
    requires !(st.index < |st.input| && Conditionals.IsWhitespace(st.input[st.index]))
    ensures BlankLoop(g, c, st, acc, fuel, k)
  {
    assert Run(g, c, st, fuel) == Some(BlankStep(st));
    BlankRepeatStops(g, c, st, acc, fuel, k);
  }

  /** A whitespace byte at the cursor: one byte on, in the same run of whitespace. */
  lemma BlankStepOn(st: State)
    requires st.Valid() && !st.isError && st.index < |st.input| && Conditionals.IsWhitespace(st.input[st.index])
    ensures var t := BlankStep(st);
      t.Valid() && !t.isError && t.input == st.input && t.index == st.index + 1 &&
      BlankEnd(t.input, t.index) == BlankEnd(st.input, st.index)
  {
  }

  /** ... where a whitespace byte is at the cursor, the loop goes on from one byte further. */
  lemma BlankRepeatMatches(g: Grammar, c: Parser, st: State, acc: seq<Value>, fuel: nat, k: nat)
    requires st.Valid() && !st.isError && ReadsBlanks(g, c, fuel) && k > 0
    requires st.index < |st.input| && Conditionals.IsWhitespace(st.input[st.index])
    requires BlankLoop(g, c, BlankStep(st), acc + [BlankStep(st).results], fuel, k - 1)
    ensures BlankLoop(g, c, st, acc, fuel, k)
  {
    var t := BlankStep(st);
    CombinatorLaws.RepeatMatch(g, c, st, t, acc, fuel, k);
    BlankLoopStep(st, acc, Repeat(g, c, None, t, acc + [t.results], fuel, k - 1).value);
  }

  /** What the loop ends with from one byte further is what it ends with from the cursor. */
  lemma BlankLoopStep(st: State, acc: seq<Value>, r: (seq<Value>, State))
    requires st.Valid() && !st.isError && st.index < |st.input| && Conditionals.IsWhitespace(st.input[st.index])
    requires var t := BlankStep(st);
      var e := BlankEnd(t.input, t.index);
      r.0 == acc + [t.results] + Blanks(t.input, t.index, e) && r.1 == t.(index := e, results := r.1.results)
    ensures var e := BlankEnd(st.input, st.index);
      r.0 == acc + Blanks(st.input, st.index, e) && r.1 == st.(index := e, results := r.1.results)
  {
    var t := BlankStep(st);
    var e := BlankEnd(st.input, st.index);
    assert BlankEnd(t.input, t.index) == e;
    BlanksCons(st.input, st.index, e);
    assert acc + [t.results] + Blanks(st.input, st.index + 1, e) == acc + Blanks(st.input, st.index, e);
  }

  /** ... where no whitespace byte is at the cursor, the loop stops at once. */
  lemma BlankRepeatStops(g: Grammar, c: Parser, st: State, acc: seq<Value>, fuel: nat, k: nat)
    requires st.Valid() && !st.isError && Run(g, c, st, fuel) == Some(BlankStep(st)) && k > 0
    requires !(st.index < |st.input| && Conditionals.IsWhitespace(st.input[st.index]))
    ensures BlankLoop(g, c, st, acc, fuel, k)
  {
    assert BlankEnd(st.input, st.index) == st.index;
    CombinatorLaws.RepeatStop(g, c, st, acc, fuel, k);
    assert acc + Blanks(st.input, st.index, st.index) == acc;
  }

  /** The state after Whitespace. */
  function Skip(st: State): (t: State)
    requires st.Valid()
    ensures t.Valid()
  {
    var e := BlankEnd(st.input, st.index);
    st.(index := e, results := List(Blanks(st.input, st.index, e)))
  }

  /** Whitespace, with fuel for the whole input: the state Skip names. */
  lemma Skipped(g: Grammar, st: State, fuel: nat)
    requires st.Valid() && !st.isError && fuel >= |st.input|
    ensures Run(g, Whitespace, st, fuel + 2) == Some(Skip(st))
  {
    WhitespaceSkipped(g, st, fuel);
  }

  /** The whitespace bytes are where BlankEnd says, and it stops at a byte that is not one. */
  lemma {:induction false} BlankEndIsRun(s: seq<Byte>, i: nat)
    requires i <= |s|
    ensures var j := BlankEnd(s, i);
      (forall k :: i <= k < j ==> Conditionals.IsWhitespace(s[k])) &&
      (j < |s| ==> !Conditionals.IsWhitespace(s[j]))
    decreases |s| - i
  {
    if i < |s| && Conditionals.IsWhitespace(s[i]) {
      BlankEndIsRun(s, i + 1);
    }
  }

  /*
   * Tokens.
   */

  /**
   * An operator on one of its two bytes: that operator, one byte on;
   * anything else fails at the cursor with no alternative left.
   */
  lemma OperatorReads(g: Grammar, x: Byte, y: Byte, st: State, fuel: nat)
    requires st.Valid() && !st.isError
    ensures Run(g, OperatorOf(x, y), st, fuel + 3) ==
      Some(if Utils.ByteAt(st, x, y) then st.(index := st.index + 1, results := Operator([st.input[st.index]]))
           else UpdateError(st, Error(NoAlternative, st.index)))
  {
    var alts := [Parser.Str([x]), Parser.Str([y])];
    assert Run(g, OperatorOf(x, y), st, fuel + 3) == RunMap(g, Choice(alts), ToOperator, st, fuel + 2);
    assert Run(g, Choice(alts), st, fuel + 2) == Alternatives(g, alts, 0, st, fuel + 1);
    Primitives.StrOneByte(x, st);
    Primitives.StrOneByte(y, st);
    assert Run(g, alts[0], st, fuel + 1) == Some(Primitives.Str([x], st));
    assert Run(g, alts[1], st, fuel + 1) == Some(Primitives.Str([y], st));
    if !Primitives.Str([x], st).isError {
    } else if !Primitives.Str([y], st).isError {
      assert Alternatives(g, alts, 1, st, fuel + 1) == Some(Primitives.Str([y], st));
    } else {
      assert Alternatives(g, alts, 1, st, fuel + 1) == Alternatives(g, alts, 2, st, fuel + 1);
    }
  }

  /** Where a real number's decimal point has to be: after the optional sign and the digits. */
  function PointAt(st: State): nat
    requires st.Valid()
  {
    Utils.DigitsFrom(st.input, Utils.AfterSign(st)).0
  }

  /** Digits on its own: the run of digits as text, or the error of an empty run. */
  lemma DigitsRead(g: Grammar, st: State, fuel: nat)
    requires st.Valid() && !st.isError
    ensures var j := Utils.DigitsFrom(st.input, st.index).0;
      Run(g, Utils.Digits, st, fuel + 1) ==
        Some(if j == st.index then UpdateError(st, Utils.EmptyRunError(st.input, st.index))
             else st.(index := j, results := Value.Str(st.input[st.index..j])))
  {
    Utils.DigitsTakeAllDigits(st.input, st.index);
    assert Run(g, Utils.Digits, st, fuel + 1) == Some(Conditionals.CondMin(Conditionals.IsDecimalDigit, 1, st));
  }

  /**
   * realNumber needs a '.' right after its digits: without digits, or
   * without the point, it fails at the incoming cursor.
   */
  lemma RealNumberNeedsPoint(g: Grammar, st: State, fuel: nat)
    requires st.Valid() && !st.isError
    requires var k := PointAt(st); k == Utils.AfterSign(st) || k == |st.input| || st.input[k] != Point
    ensures var a := Utils.AfterSign(st);
      var k := PointAt(st);
      Run(g, RealNumber, st, fuel + 7) ==
        Some(UpdateError(st, if k == a then Utils.EmptyRunError(st.input, a) else Error(NoMatch, k)))
  {
    var a, k := Utils.AfterSign(st), PointAt(st);
    var e := if k == a then Utils.EmptyRunError(st.input, a) else Error(NoMatch, k);
    if k == a {
      RealNumberWithoutDigits(g, st, fuel);
    } else {
      RealNumberWithoutPoint(g, st, fuel);
    }
    CombinatorLaws.MapFails(g, Utils.RealNumberSyntax, ToRealNumber, st, UpdateError(st, e), fuel + 6);
  }

  /** The syntax of a real number without digits after the sign: the empty run's error. */
  lemma RealNumberWithoutDigits(g: Grammar, st: State, fuel: nat)
    requires st.Valid() && !st.isError && PointAt(st) == Utils.AfterSign(st)
    ensures Run(g, Utils.RealNumberSyntax, st, fuel + 6) == Some(UpdateError(st, Utils.EmptyRunError(st.input, Utils.AfterSign(st))))
  {
    var s1 := Utils.SignedState(st);
    var e := Utils.EmptyRunError(st.input, Utils.AfterSign(st));
    Utils.SignRead(g, st, fuel + 1);
    DigitsRead(g, s1, fuel + 4);
    CombinatorLaws.SequenceFailsSecond(g, [Utils.Sign, Utils.Digits, Char([Point]), ZeroOrOne(Utils.Digits), Utils.Exponent],
      st, s1, UpdateError(s1, e), fuel + 5);
  }

  /** The syntax of a real number whose digits no '.' follows: no match at the end of the digits. */
  lemma RealNumberWithoutPoint(g: Grammar, st: State, fuel: nat)
    requires st.Valid() && !st.isError && PointAt(st) != Utils.AfterSign(st)
    requires PointAt(st) == |st.input| || st.input[PointAt(st)] != Point
    ensures Run(g, Utils.RealNumberSyntax, st, fuel + 6) == Some(UpdateError(st, Error(NoMatch, PointAt(st))))
  {
    var s1 := Utils.SignedState(st);
    var k := PointAt(st);
    var s2 := s1.(index := k, results := Value.Str(st.input[s1.index..k]));
    var e := Error(NoMatch, k);
    Utils.SignRead(g, st, fuel + 1);
    DigitsRead(g, s1, fuel + 4);
    PointMissing(g, s2, fuel + 4);
    CombinatorLaws.SequenceFailsThird(g, [Utils.Sign, Utils.Digits, Char([Point]), ZeroOrOne(Utils.Digits), Utils.Exponent],
      st, s1, s2, UpdateError(s2, e), fuel + 5);
  }

  /** Char('.') where no '.' is at the cursor: no match there. */
  lemma PointMissing(g: Grammar, st: State, fuel: nat)
    requires st.Valid() && !st.isError && (st.index == |st.input| || st.input[st.index] != Point)
    ensures Run(g, Char([Point]), st, fuel + 1) == Some(UpdateError(st, Error(NoMatch, st.index)))
  {
  }

  /**
   * number on the text of an integer with no '.' after it: the integer,
   * in a Number node, after the real-number alternative fails.
   */
  lemma NumberReadsInteger(g: Grammar, v: int, st: State, fuel: nat)
    requires st.Valid() && !st.isError && Utils.IntegerTextAt(v, st)
    requires var k := st.index + |Utils.IntegerText(v)|; k == |st.input| || st.input[k] != Point
    ensures Run(g, NumberParser, st, fuel + 8) ==
      Some(st.(index := st.index + |Utils.IntegerText(v)|, results := Number(Int(v))))
  {
    IntegerNotReal(g, v, st, fuel);
    IntNumberReads(g, v, st, fuel);
    CombinatorLaws.ChoiceOfTwoSecond(g, RealNumber, IntNumber, st,
      st.(index := st.index + |Utils.IntegerText(v)|, results := Number(Int(v))), fuel + 7);
  }

  /** realNumber on an integer's text not followed by a point fails. */
  lemma IntegerNotReal(g: Grammar, v: int, st: State, fuel: nat)
    requires st.Valid() && !st.isError && Utils.IntegerTextAt(v, st)
    requires var k := st.index + |Utils.IntegerText(v)|; k == |st.input| || st.input[k] != Point
    ensures CombinatorLaws.FailsOn(g, RealNumber, st, fuel + 7)
  {
    Utils.IntegerTextScan(v, st);
    RealNumberNeedsPoint(g, st, fuel);
  }

  /** intNumber on an integer's text: the Number node of its value. */
  lemma IntNumberReads(g: Grammar, v: int, st: State, fuel: nat)
    requires st.Valid() && !st.isError && Utils.IntegerTextAt(v, st)
    ensures Run(g, IntNumber, st, fuel + 7) ==
      Some(st.(index := st.index + |Utils.IntegerText(v)|, results := Number(Int(v))))
  {
    var r := st.(index := st.index + |Utils.IntegerText(v)|, results := Int(v));
    Utils.IntegerReadsText(g, v, st, fuel);
    CombinatorLaws.MapSucceeds(g, Utils.Integer, ToIntNumber, st, r, fuel + 6);
  }

  /** number without a digit after the optional sign: both alternatives fail. */
  lemma NumberNeedsDigit(g: Grammar, st: State, fuel: nat)
    requires st.Valid() && !st.isError && PointAt(st) == Utils.AfterSign(st)
    ensures Run(g, NumberParser, st, fuel + 8) == Some(UpdateError(st, Error(NoAlternative, st.index)))
  {
    RealNumberNeedsPoint(g, st, fuel);
    Utils.IntegerValue(g, st, fuel);
    var alts := [RealNumber, IntNumber];
    assert Run(g, NumberParser, st, fuel + 8) == Alternatives(g, alts, 0, st, fuel + 7);
    assert Run(g, IntNumber, st, fuel + 7) == RunMap(g, Utils.Integer, ToIntNumber, st, fuel + 6);
    assert Alternatives(g, alts, 0, st, fuel + 7) == Alternatives(g, alts, 1, st, fuel + 7);
    assert Alternatives(g, alts, 1, st, fuel + 7) == Alternatives(g, alts, 2, st, fuel + 7);
  }

  /** The names of the constants, in the order constant tries them. */
  const Constants: seq<seq<Byte>> := [Pi, Phi, EulerE]

  /** The text `t` is at the cursor. */
  predicate Spelled(st: State, t: seq<Byte>) {
    st.index + |t| <= |st.input| && st.input[st.index..st.index + |t|] == t
  }

  /** Str of a name spelled at the cursor: the cursor past it, the name as the result. */
  lemma NameRead(g: Grammar, name: seq<Byte>, st: State, fuel: nat)
    requires st.Valid() && !st.isError && |name| > 0 && Spelled(st, name)
    ensures Run(g, Parser.Str(name), st, fuel + 1) == Some(st.(index := st.index + |name|, results := Value.Str(name)))
  {
    Primitives.StrMatches(name, st);
  }

  /** Str of a name not spelled at the cursor fails. */
  lemma NameMissing(g: Grammar, name: seq<Byte>, st: State, fuel: nat)
    requires st.Valid() && !st.isError && !Spelled(st, name)
    ensures CombinatorLaws.FailsOn(g, Parser.Str(name), st, fuel + 1)
  {
  }

  /** constant on one of the names: that constant, after the name. */
  lemma ConstantReads(g: Grammar, name: seq<Byte>, st: State, fuel: nat)
    requires st.Valid() && !st.isError && name in Constants && Spelled(st, name)
    ensures Run(g, ConstantParser, st, fuel + 3) ==
      Some(st.(index := st.index + |name|, results := Constant(name)))
  {
    var r := st.(index := st.index + |name|, results := Value.Str(name));
    if name == Pi {
      PiChosen(g, st, fuel);
    } else if name == Phi {
      PhiChosen(g, st, fuel);
    } else {
      EulerEChosen(g, st, fuel);
    }
    CombinatorLaws.MapSucceeds(g, Choice([Parser.Str(Pi), Parser.Str(Phi), Parser.Str(EulerE)]), ToConstant, st, r, fuel + 2);
  }

  /** The choice of names where "pi" is spelled: the first alternative. */
  lemma PiChosen(g: Grammar, st: State, fuel: nat)
    requires st.Valid() && !st.isError && Spelled(st, Pi)
    ensures Run(g, Choice([Parser.Str(Pi), Parser.Str(Phi), Parser.Str(EulerE)]), st, fuel + 2) ==
      Some(st.(index := st.index + |Pi|, results := Value.Str(Pi)))
  {
    NameRead(g, Pi, st, fuel);
    CombinatorLaws.ChoiceOfThreeFirst(g, Parser.Str(Pi), Parser.Str(Phi), Parser.Str(EulerE), st,
      st.(index := st.index + |Pi|, results := Value.Str(Pi)), fuel + 1);
  }

  /** ... where "phi" is spelled: "pi" is not, so the second alternative. */
  lemma PhiChosen(g: Grammar, st: State, fuel: nat)
    requires st.Valid() && !st.isError && Spelled(st, Phi)
    ensures Run(g, Choice([Parser.Str(Pi), Parser.Str(Phi), Parser.Str(EulerE)]), st, fuel + 2) ==
      Some(st.(index := st.index + |Phi|, results := Value.Str(Phi)))
  {
    assert st.input[st.index + 1] == 'h' as int by {
      assert st.input[st.index..st.index + 3][1] == st.input[st.index + 1];
    }
    assert !Spelled(st, Pi) by {
      assert st.input[st.index..st.index + 2][1] == st.input[st.index + 1];
    }
    NameRead(g, Phi, st, fuel);
    NameMissing(g, Pi, st, fuel);
    CombinatorLaws.ChoiceOfThreeSecond(g, Parser.Str(Pi), Parser.Str(Phi), Parser.Str(EulerE), st,
      st.(index := st.index + |Phi|, results := Value.Str(Phi)), fuel + 1);
  }

  /** ... where "e" is spelled: neither "pi" nor "phi" is, so the third alternative. */
  lemma EulerEChosen(g: Grammar, st: State, fuel: nat)
    requires st.Valid() && !st.isError && Spelled(st, EulerE)
    ensures Run(g, Choice([Parser.Str(Pi), Parser.Str(Phi), Parser.Str(EulerE)]), st, fuel + 2) ==
      Some(st.(index := st.index + |EulerE|, results := Value.Str(EulerE)))
  {
    assert st.input[st.index] == 'e' as int by {
      assert st.input[st.index..st.index + 1][0] == st.input[st.index];
    }
    NameRead(g, EulerE, st, fuel);
    NameMissing(g, Pi, st, fuel);
    NameMissing(g, Phi, st, fuel);
    CombinatorLaws.ChoiceOfThreeThird(g, Parser.Str(Pi), Parser.Str(Phi), Parser.Str(EulerE), st,
      st.(index := st.index + |EulerE|, results := Value.Str(EulerE)), fuel + 1);
  }

  /** constant where no name is spelled: a failure at the cursor with no alternative left. */
  lemma ConstantNeedsName(g: Grammar, st: State, fuel: nat)
    requires st.Valid() && !st.isError
    requires !Spelled(st, Pi) && !Spelled(st, Phi) && !Spelled(st, EulerE)
    ensures Run(g, ConstantParser, st, fuel + 3) == Some(UpdateError(st, Error(NoAlternative, st.index)))
  {
    var p0, p1, p2 := Parser.Str(Pi), Parser.Str(Phi), Parser.Str(EulerE);
    NameMissing(g, Pi, st, fuel);
    NameMissing(g, Phi, st, fuel);
    NameMissing(g, EulerE, st, fuel);
    CombinatorLaws.ChoiceOfThreeNone(g, p0, p1, p2, st, fuel + 1);
    CombinatorLaws.MapFails(g, Choice([p0, p1, p2]), ToConstant, st, UpdateError(st, Error(NoAlternative, st.index)), fuel + 2);
  }

  /*
   * Steps and tails.
   */

  const MulStep: Parser := OperatorPair(MulOperator, Atom)
  const AddStep: Parser := OperatorPair(AddOperator, TermParser)

  /** The state after the operator byte at the cursor. */
  function AfterOperator(st: State): (t: State)
    requires st.Valid() && st.index < |st.input|
    ensures t.Valid()
  {
    st.(index := st.index + 1, results := Operator([st.input[st.index]]))
  }

  /** An operator on one of its two bytes: the state AfterOperator names. */
  lemma OperatorRead(g: Grammar, x: Byte, y: Byte, st: State, fuel: nat)
    requires st.Valid() && !st.isError && Utils.ByteAt(st, x, y)
    ensures Run(g, OperatorOf(x, y), st, fuel + 3) == Some(AfterOperator(st))
  {
    OperatorReads(g, x, y, st, fuel);
  }

  /** Where a step's operand starts: past the whitespace, the operator and the whitespace after it. */
  function OperandStart(st: State): State
    requires st.Valid() && Skip(st).index < |st.input|
  {
    Skip(AfterOperator(Skip(st)))
  }

  /** The result of a step that ends in the state `u`: the whitespace, the operator, the whitespace and the operand. */
  function StepValue(st: State, u: State): Value
    requires st.Valid() && Skip(st).index < |st.input|
  {
    var s1 := Skip(st);
    var s2 := AfterOperator(s1);
    List([s1.results, s2.results, Skip(s2).results, u.results])
  }

  /** A step without its operator after the whitespace fails at the incoming cursor. */
  lemma StepNeedsOperator(g: Grammar, x: Byte, y: Byte, operand: Parser, st: State, fuel: nat)
    requires st.Valid() && !st.isError && fuel >= |st.input| + 1
    requires !Utils.ByteAt(Skip(st), x, y)
    ensures Run(g, OperatorPair(OperatorOf(x, y), operand), st, fuel + 3) ==
      Some(UpdateError(st, Error(NoAlternative, Skip(st).index)))
  {
    var ps := [Whitespace, OperatorOf(x, y), Whitespace, operand];
    var s1 := Skip(st);
    Skipped(g, st, fuel);
    OperatorReads(g, x, y, s1, fuel - 1);
    assert CombinatorLaws.Chained(g, ps[..1], [st, s1], fuel + 2);
    CombinatorLaws.SequenceOfFailsAt(g, ps, [st, s1], fuel + 2, UpdateError(s1, Error(NoAlternative, s1.index)));
  }

  /** The whitespace before a step, its operator and the whitespace after it each succeed in turn. */
  lemma StepOpening(g: Grammar, x: Byte, y: Byte, st: State, fuel: nat)
    requires st.Valid() && !st.isError && fuel >= |st.input| + 1
    requires Utils.ByteAt(Skip(st), x, y)
    ensures var s1 := Skip(st);
      var s2 := AfterOperator(s1);
      && Run(g, Whitespace, st, fuel + 2) == Some(s1)
      && Run(g, OperatorOf(x, y), s1, fuel + 2) == Some(s2)
      && Run(g, Whitespace, s2, fuel + 2) == Some(Skip(s2))
  {
    StepOperatorRead(g, x, y, st, fuel);
    Skipped(g, AfterOperator(Skip(st)), fuel);
  }

  /** The whitespace before a step, then its operator. */
  lemma StepOperatorRead(g: Grammar, x: Byte, y: Byte, st: State, fuel: nat)
    requires st.Valid() && !st.isError && fuel >= |st.input| + 1
    requires Utils.ByteAt(Skip(st), x, y)
    ensures Run(g, Whitespace, st, fuel + 2) == Some(Skip(st))
    ensures Run(g, OperatorOf(x, y), Skip(st), fuel + 2) == Some(AfterOperator(Skip(st)))
  {
    Skipped(g, st, fuel);
    OperatorRead(g, x, y, Skip(st), fuel - 1);
  }

  /** Those three form the chain in front of the operand. */
  lemma StepPrefix(g: Grammar, x: Byte, y: Byte, operand: Parser, st: State, fuel: nat)
    requires st.Valid() && !st.isError && Skip(st).index < |st.input|
    requires var s1 := Skip(st);
      var s2 := AfterOperator(s1);
      && Run(g, Whitespace, st, fuel + 2) == Some(s1)
      && Run(g, OperatorOf(x, y), s1, fuel + 2) == Some(s2)
      && Run(g, Whitespace, s2, fuel + 2) == Some(Skip(s2))
    ensures var s1 := Skip(st);
      var s2 := AfterOperator(s1);
      var ps := [Whitespace, OperatorOf(x, y), Whitespace, operand];
      CombinatorLaws.Chained(g, ps[..3], [st, s1, s2, Skip(s2)], fuel + 2)
  {
    var s1 := Skip(st);
    var s2 := AfterOperator(s1);
    CombinatorLaws.Chained3(g, Whitespace, OperatorOf(x, y), Whitespace, st, s1, s2, Skip(s2), fuel + 2);
    assert [Whitespace, OperatorOf(x, y), Whitespace, operand][..3] == [Whitespace, OperatorOf(x, y), Whitespace];
  }

  /** A step whose operand fails fails at the incoming cursor, with the operand's error. */
  lemma StepOperandFails(g: Grammar, x: Byte, y: Byte, operand: Parser, st: State, e: State, fuel: nat)
    requires st.Valid() && !st.isError && fuel >= |st.input| + 1
    requires Utils.ByteAt(Skip(st), x, y)
    requires Run(g, operand, OperandStart(st), fuel + 2) == Some(e) && e.isError
    ensures Run(g, OperatorPair(OperatorOf(x, y), operand), st, fuel + 3) == Some(UpdateError(st, e.err))
  {
    StepOpening(g, x, y, st, fuel);
    StepPrefixFails(g, x, y, operand, st, e, fuel);
  }

  /** ... once the three in front of the operand are known to succeed. */
  lemma StepPrefixFails(g: Grammar, x: Byte, y: Byte, operand: Parser, st: State, e: State, fuel: nat)
    requires st.Valid() && !st.isError && Skip(st).index < |st.input|
    requires var s1 := Skip(st);
      var s2 := AfterOperator(s1);
      && Run(g, Whitespace, st, fuel + 2) == Some(s1)
      && Run(g, OperatorOf(x, y), s1, fuel + 2) == Some(s2)
      && Run(g, Whitespace, s2, fuel + 2) == Some(Skip(s2))
    requires Run(g, operand, OperandStart(st), fuel + 2) == Some(e) && e.isError
    ensures Run(g, OperatorPair(OperatorOf(x, y), operand), st, fuel + 3) == Some(UpdateError(st, e.err))
  {
    var s1 := Skip(st);
    var s2 := AfterOperator(s1);
    var ps := [Whitespace, OperatorOf(x, y), Whitespace, operand];
    StepPrefix(g, x, y, operand, st, fuel);
    CombinatorLaws.SequenceOfFailsAt(g, ps, [st, s1, s2, Skip(s2)], fuel + 2, e);
  }

  /** A step whose operand succeeds: the operand's state, with the step's four results. */
  lemma StepReads(g: Grammar, x: Byte, y: Byte, operand: Parser, st: State, u: State, fuel: nat)
    requires st.Valid() && !st.isError && fuel >= |st.input| + 1
    requires Utils.ByteAt(Skip(st), x, y)
    requires Run(g, operand, OperandStart(st), fuel + 2) == Some(u) && !u.isError
    ensures Run(g, OperatorPair(OperatorOf(x, y), operand), st, fuel + 3) == Some(u.(results := StepValue(st, u)))
  {
    StepOpening(g, x, y, st, fuel);
    StepChain(g, x, y, operand, st, u, fuel);
    StepSequence(g, x, y, operand, st, u, fuel);
  }

  /** The whole step as a chain, once its four parts are known to succeed in turn. */
  lemma StepChain(g: Grammar, x: Byte, y: Byte, operand: Parser, st: State, u: State, fuel: nat)
    requires st.Valid() && !st.isError && Skip(st).index < |st.input|
    requires var s1 := Skip(st);
      var s2 := AfterOperator(s1);
      && Run(g, Whitespace, st, fuel + 2) == Some(s1)
      && Run(g, OperatorOf(x, y), s1, fuel + 2) == Some(s2)
      && Run(g, Whitespace, s2, fuel + 2) == Some(Skip(s2))
    requires Run(g, operand, OperandStart(st), fuel + 2) == Some(u) && !u.isError
    ensures var s1 := Skip(st);
      var s2 := AfterOperator(s1);
      CombinatorLaws.Chained(g, [Whitespace, OperatorOf(x, y), Whitespace, operand], [st, s1, s2, Skip(s2), u], fuel + 2)
  {
    var s1 := Skip(st);
    var s2 := AfterOperator(s1);
    CombinatorLaws.Chained4(g, Whitespace, OperatorOf(x, y), Whitespace, operand, st, s1, s2, Skip(s2), u, fuel + 2);
  }

  /** The step over that chain: the last state, with the four results. */
  lemma StepSequence(g: Grammar, x: Byte, y: Byte, operand: Parser, st: State, u: State, fuel: nat)
    requires st.Valid() && Skip(st).index < |st.input|
    requires var s1 := Skip(st);
      var s2 := AfterOperator(s1);
      CombinatorLaws.Chained(g, [Whitespace, OperatorOf(x, y), Whitespace, operand], [st, s1, s2, Skip(s2), u], fuel + 2)
    ensures Run(g, OperatorPair(OperatorOf(x, y), operand), st, fuel + 3) == Some(u.(results := StepValue(st, u)))
  {
    var s1 := Skip(st);
    var s2 := AfterOperator(s1);
    var sts := [st, s1, s2, Skip(s2), u];
    CombinatorLaws.SequenceOfChain(g, [Whitespace, OperatorOf(x, y), Whitespace, operand], sts, fuel + 2);
    assert CombinatorLaws.ChainResults(sts) == [s1.results, s2.results, Skip(s2).results, u.results];
  }

  /*
   * Atoms.
   */

  /** The state after reading the byte `b` at the cursor with a one-byte Str. */
  function Read(st: State, b: Byte): (t: State)
    requires st.Valid() && st.index < |st.input|
    ensures t.Valid() && t.index == st.index + 1
  {
    st.(index := st.index + 1, results := Value.Str([b]))
  }

  /** The states a bracketed expression passes through when its inner expression ends in `e`. */
  function BracketedStates(st: State, e: State): seq<State>
    requires st.Valid() && st.index < |st.input| && e.Valid() && Skip(e).index < |e.input|
  {
    var s1 := Read(st, OpenParen);
    [st, s1, Skip(s1), e, Skip(e), Read(Skip(e), CloseParen)]
  }

  /** A one-byte Str on that byte: the state one byte on, holding the byte. */
  lemma ByteRead(g: Grammar, b: Byte, st: State, fuel: nat)
    requires st.Valid() && !st.isError && st.index < |st.input| && st.input[st.index] == b
    ensures Run(g, Parser.Str([b]), st, fuel + 1) == Some(Read(st, b))
  {
    Primitives.StrOneByte(b, st);
  }

  /** The '(', the whitespace after it and the inner expression follow one another. */
  lemma BracketedOpening(g: Grammar, st: State, e: State, fuel: nat)
    requires st.Valid() && !st.isError && "expression" in g && fuel >= |st.input|
    requires st.index < |st.input| && st.input[st.index] == OpenParen
    requires Run(g, g["expression"], Skip(Read(st, OpenParen)), fuel + 1) == Some(e) && !e.isError
    ensures var s1 := Read(st, OpenParen);
      && Run(g, Parser.Str([OpenParen]), st, fuel + 2) == Some(s1)
      && Run(g, Whitespace, s1, fuel + 2) == Some(Skip(s1))
      && Run(g, Ref("expression"), Skip(s1), fuel + 2) == Some(e)
  {
    var s1 := Read(st, OpenParen);
    ByteRead(g, OpenParen, st, fuel + 1);
    Skipped(g, s1, fuel);
    CombinatorLaws.RefRuns(g, "expression", Skip(s1), fuel + 1);
  }

  /** ... and the whitespace after the inner expression. */
  lemma BracketedBody(g: Grammar, st: State, e: State, fuel: nat)
    requires st.Valid() && !st.isError && "expression" in g && fuel >= |st.input|
    requires st.index < |st.input| && st.input[st.index] == OpenParen
    requires Run(g, g["expression"], Skip(Read(st, OpenParen)), fuel + 1) == Some(e) && !e.isError
    ensures var s1 := Read(st, OpenParen);
      CombinatorLaws.Chained(g, [Parser.Str([OpenParen]), Whitespace, Ref("expression"), Whitespace],
        [st, s1, Skip(s1), e, Skip(e)], fuel + 2)
  {
    var s1 := Read(st, OpenParen);
    BracketedOpening(g, st, e, fuel);
    Skipped(g, e, fuel);
    CombinatorLaws.Chained4(g, Parser.Str([OpenParen]), Whitespace, Ref("expression"), Whitespace,
      st, s1, Skip(s1), e, Skip(e), fuel + 2);
  }

  lemma BracketedChain(g: Grammar, st: State, e: State, fuel: nat)
    requires st.Valid() && !st.isError && "expression" in g && fuel >= |st.input|
    requires st.index < |st.input| && st.input[st.index] == OpenParen
    requires Run(g, g["expression"], Skip(Read(st, OpenParen)), fuel + 1) == Some(e) && !e.isError
    requires Skip(e).index < |st.input| && st.input[Skip(e).index] == CloseParen
    ensures CombinatorLaws.Chained(g, BracketedParts, BracketedStates(st, e), fuel + 2)
  {
    BracketedBody(g, st, e, fuel);
    BracketedClose(g, st, e, fuel);
  }

  /** ... and the ')' after that whitespace. */
  lemma BracketedClose(g: Grammar, st: State, e: State, fuel: nat)
    requires st.Valid() && st.index < |st.input| && e.Valid() && !e.isError && Skip(e).index < |e.input|
    requires e.input[Skip(e).index] == CloseParen
    requires var s1 := Read(st, OpenParen);
      CombinatorLaws.Chained(g, [Parser.Str([OpenParen]), Whitespace, Ref("expression"), Whitespace],
        [st, s1, Skip(s1), e, Skip(e)], fuel + 2)
    ensures CombinatorLaws.Chained(g, BracketedParts, BracketedStates(st, e), fuel + 2)
  {
    var s1 := Read(st, OpenParen);
    var ps := [Parser.Str([OpenParen]), Whitespace, Ref("expression"), Whitespace];
    var sts := [st, s1, Skip(s1), e, Skip(e)];
    ByteRead(g, CloseParen, Skip(e), fuel + 1);
    CombinatorLaws.ChainedSnoc(g, ps, sts, Parser.Str([CloseParen]), Read(Skip(e), CloseParen), fuel + 2);
    BracketedClosed(st, e);
  }

  /** The parts and states of a bracketed expression: those up to the closing bracket, then the bracket. */
  lemma BracketedClosed(st: State, e: State)
    requires st.Valid() && st.index < |st.input| && e.Valid() && Skip(e).index < |e.input|
    ensures [Parser.Str([OpenParen]), Whitespace, Ref("expression"), Whitespace] + [Parser.Str([CloseParen])] == BracketedParts
    ensures var s1 := Read(st, OpenParen);
      [st, s1, Skip(s1), e, Skip(e)] + [Read(Skip(e), CloseParen)] == BracketedStates(st, e)
  {
  }

  /** bracketed_expression: a '(' and whitespace, the expression, whitespace and a ')'; the expression's tree. */
  lemma BracketedReads(g: Grammar, st: State, e: State, fuel: nat)
    requires st.Valid() && !st.isError && "expression" in g && fuel >= |st.input|
    requires st.index < |st.input| && st.input[st.index] == OpenParen
    requires Run(g, g["expression"], Skip(Read(st, OpenParen)), fuel + 1) == Some(e) && !e.isError
    requires Skip(e).index < |st.input| && st.input[Skip(e).index] == CloseParen
    ensures Run(g, Bracketed, st, fuel + 4) == Some(Read(Skip(e), CloseParen).(results := e.results))
  {
    BracketedChain(g, st, e, fuel);
    CombinatorLaws.MappedChain(g, BracketedParts, ThirdItem, BracketedStates(st, e), fuel + 2);
  }

  /** bracketed_expression without a '(' at the cursor fails there. */
  lemma BracketedNeedsOpen(g: Grammar, st: State, fuel: nat)
    requires st.Valid() && !st.isError
    requires !(st.index < |st.input| && st.input[st.index] == OpenParen)
    ensures Run(g, Bracketed, st, fuel + 4) ==
      Some(UpdateError(st, Error(if st.index == |st.input| then UnexpectedEnd else NoMatch, st.index)))
  {
    var ps := BracketedParts;
    Primitives.StrOneByte(OpenParen, st);
    assert Run(g, Bracketed, st, fuel + 4) == RunMap(g, SequenceOf(ps), ThirdItem, st, fuel + 3);
    CombinatorLaws.SequenceOfFailsAt(g, ps, [st], fuel + 2, Primitives.Str([OpenParen], st));
  }

  /** No number starts at the cursor: no digit after the optional sign. */
  predicate NoNumberAt(st: State)
    requires st.Valid()
  {
    PointAt(st) == Utils.AfterSign(st)
  }

  /** A letter or a parenthesis starts no number. */
  lemma NoNumberBefore(st: State)
    requires st.Valid() && st.index < |st.input|
    requires var b := st.input[st.index]; b == 'p' as int || b == 'e' as int || b == OpenParen
    ensures NoNumberAt(st)
  {
    Utils.DigitsTakeAllDigits(st.input, st.index);
  }

  /** A parenthesis starts no name of a constant. */
  lemma NoNameBefore(st: State)
    requires st.Valid() && st.index < |st.input| && st.input[st.index] == OpenParen
    ensures !Spelled(st, Pi) && !Spelled(st, Phi) && !Spelled(st, EulerE)
  {
  }

  /** Nothing at all starts at the end of the input. */
  lemma NoNumberAtEnd(st: State)
    requires st.Valid() && st.index == |st.input|
    ensures NoNumberAt(st) && !Spelled(st, Pi) && !Spelled(st, Phi) && !Spelled(st, EulerE)
  {
  }

  /** atom on the text of an integer: the Number node. */
  lemma AtomNumber(g: Grammar, v: int, st: State, fuel: nat)
    requires st.Valid() && !st.isError && Utils.IntegerTextAt(v, st)
    requires var k := st.index + |Utils.IntegerText(v)|; k == |st.input| || st.input[k] != Point
    ensures Run(g, Atom, st, fuel + 9) ==
      Some(st.(index := st.index + |Utils.IntegerText(v)|, results := Number(Int(v))))
  {
    NumberReadsInteger(g, v, st, fuel);
    assert Run(g, Atom, st, fuel + 9) == Alternatives(g, [NumberParser, ConstantParser, Bracketed], 0, st, fuel + 8);
  }

  /** atom on the name of a constant: the Constant node. */
  lemma AtomConstant(g: Grammar, name: seq<Byte>, st: State, fuel: nat)
    requires st.Valid() && !st.isError && name in Constants && Spelled(st, name)
    ensures Run(g, Atom, st, fuel + 9) == Some(st.(index := st.index + |name|, results := Constant(name)))
  {
    var alts := [NumberParser, ConstantParser, Bracketed];
    assert st.input[st.index] == name[0];
    NoNumberBefore(st);
    NumberNeedsDigit(g, st, fuel);
    ConstantReads(g, name, st, fuel + 5);
    assert Run(g, Atom, st, fuel + 9) == Alternatives(g, alts, 0, st, fuel + 8);
    assert Alternatives(g, alts, 0, st, fuel + 8) == Alternatives(g, alts, 1, st, fuel + 8);
  }

  /** atom on a '(': the bracketed expression's tree. */
  lemma AtomBracketed(g: Grammar, st: State, r: State, fuel: nat)
    requires st.Valid() && !st.isError && st.index < |st.input| && st.input[st.index] == OpenParen
    requires Run(g, Bracketed, st, fuel + 8) == Some(r) && !r.isError
    ensures Run(g, Atom, st, fuel + 9) == Some(r)
  {
    var alts := [NumberParser, ConstantParser, Bracketed];
    NoNumberBefore(st);
    NoNameBefore(st);
    NumberNeedsDigit(g, st, fuel);
    ConstantNeedsName(g, st, fuel + 5);
    assert Run(g, Atom, st, fuel + 9) == Alternatives(g, alts, 0, st, fuel + 8);
    assert Alternatives(g, alts, 0, st, fuel + 8) == Alternatives(g, alts, 1, st, fuel + 8);
    assert Alternatives(g, alts, 1, st, fuel + 8) == Alternatives(g, alts, 2, st, fuel + 8);
  }

  /** atom where no number, constant or '(' starts: a failure at the cursor. */
  lemma AtomFails(g: Grammar, st: State, fuel: nat)
    requires st.Valid() && !st.isError && NoNumberAt(st)
    requires !Spelled(st, Pi) && !Spelled(st, Phi) && !Spelled(st, EulerE)
    requires !(st.index < |st.input| && st.input[st.index] == OpenParen)
    ensures Run(g, Atom, st, fuel + 9) == Some(UpdateError(st, Error(NoAlternative, st.index)))
  {
    var alts := [NumberParser, ConstantParser, Bracketed];
    NumberNeedsDigit(g, st, fuel);
    ConstantNeedsName(g, st, fuel + 5);
    BracketedNeedsOpen(g, st, fuel + 4);
    assert Run(g, Atom, st, fuel + 9) == Alternatives(g, alts, 0, st, fuel + 8);
    assert Alternatives(g, alts, 0, st, fuel + 8) == Alternatives(g, alts, 1, st, fuel + 8);
    assert Alternatives(g, alts, 1, st, fuel + 8) == Alternatives(g, alts, 2, st, fuel + 8);
    assert Alternatives(g, alts, 2, st, fuel + 8) == Alternatives(g, alts, 3, st, fuel + 8);
  }

  /*
   * Terms and expressions.
   */

  /** The operator byte of the step that starts at `st`. */
  function StepOperator(st: State): Value
    requires st.Valid() && Skip(st).index < |st.input|
  {
    Operator([st.input[Skip(st).index]])
  }

  /** term's tree holds the first step only: whatever steps follow it leave the tree as it is. */
  lemma TermKeepsFirstStepOnly(x: Value, step: Value, rest: seq<Value>)
    ensures ToTerm(List([x, List([step] + rest)])) == ToTerm(List([x, List([step])]))
  {
  }

  /** term on an atom that no multiplicative step follows: the atom itself. */
  lemma TermOfAtom(g: Grammar, st: State, a: State, fuel: nat)
    requires st.Valid() && !st.isError && Run(g, Atom, st, fuel + 2) == Some(a) && !a.isError
    requires CombinatorLaws.FailsOn(g, MulStep, a, fuel + 1)
    ensures Run(g, TermParser, st, fuel + 4) == Some(a)
  {
    CombinatorLaws.MappedHeadAlone(g, Atom, MulStep, ToTerm, st, a, fuel);
  }

  /** term on an atom that no '*' or '/' follows: the atom itself. */
  lemma TermOfLoneAtom(g: Grammar, st: State, a: State, fuel: nat)
    requires st.Valid() && !st.isError && fuel >= |st.input| + 1
    requires Run(g, Atom, st, fuel + 4) == Some(a) && !a.isError && !Utils.ByteAt(Skip(a), Star, Slash)
    ensures Run(g, TermParser, st, fuel + 6) == Some(a)
  {
    StepNeedsOperator(g, Star, Slash, Atom, a, fuel);
    TermOfAtom(g, st, a, fuel + 2);
  }

  /** term on an atom, one multiplicative step and nothing more: a Term of the two atoms and the operator. */
  lemma TermOfStep(g: Grammar, st: State, a: State, b: State, fuel: nat)
    requires st.Valid() && !st.isError && fuel >= |st.input| + 1
    requires Run(g, Atom, st, fuel + 4) == Some(a) && !a.isError && Utils.ByteAt(Skip(a), Star, Slash)
    requires Run(g, Atom, OperandStart(a), fuel + 2) == Some(b) && !b.isError
    requires CombinatorLaws.FailsOn(g, MulStep, b.(results := StepValue(a, b)), fuel + 3)
    ensures Run(g, TermParser, st, fuel + 6) == Some(b.(results := Term(a.results, StepOperator(a), b.results)))
  {
    StepReads(g, Star, Slash, Atom, a, b, fuel);
    StepTrees(a, b);
    CombinatorLaws.MappedHeadOnce(g, Atom, MulStep, ToTerm, st, a, b.(results := StepValue(a, b)), fuel + 1);
  }

  /** term without an atom at the cursor fails there, with the atom's error. */
  lemma TermNeedsAtom(g: Grammar, st: State, e: State, fuel: nat)
    requires st.Valid() && !st.isError && Run(g, Atom, st, fuel) == Some(e) && e.isError
    ensures Run(g, TermParser, st, fuel + 2) == Some(UpdateError(st, e.err))
  {
    CombinatorLaws.MappedHeadFails(g, Atom, MulTail, ToTerm, st, e, fuel);
  }

  /** The expression parser under either mapper: as written, or corrected. */
  ghost predicate IsExpression(e: Parser) {
    e == ExpressionAsWritten || e == ExpressionParser
  }

  /** expression, under either mapper, on a term that no additive step follows: the term itself. */
  lemma ExpressionOfTerm(g: Grammar, e: Parser, st: State, t: State, fuel: nat)
    requires IsExpression(e)
    requires st.Valid() && !st.isError && Run(g, TermParser, st, fuel + 2) == Some(t) && !t.isError
    requires CombinatorLaws.FailsOn(g, AddStep, t, fuel + 1)
    ensures Run(g, e, st, fuel + 4) == Some(t)
  {
    if e == ExpressionParser {
      CombinatorLaws.MappedHeadAlone(g, TermParser, AddStep, ToExpression, st, t, fuel);
    } else {
      CombinatorLaws.MappedHeadAlone(g, TermParser, AddStep, ToExpressionAsWritten, st, t, fuel);
    }
  }

  /** expression, under either mapper, on a term that no '+' or '-' follows: the term itself. */
  lemma ExpressionOfLoneTerm(g: Grammar, e: Parser, st: State, t: State, fuel: nat)
    requires IsExpression(e)
    requires st.Valid() && !st.isError && fuel >= |st.input| + 1
    requires Run(g, TermParser, st, fuel + 4) == Some(t) && !t.isError && !Utils.ByteAt(Skip(t), Utils.Plus, Utils.Minus)
    ensures Run(g, e, st, fuel + 6) == Some(t)
  {
    StepNeedsOperator(g, Utils.Plus, Utils.Minus, TermParser, t, fuel);
    ExpressionOfTerm(g, e, st, t, fuel + 2);
  }

  /** An additive step whose operand term succeeds. */
  lemma AddStepReads(g: Grammar, t: State, w: State, fuel: nat)
    requires t.Valid() && !t.isError && fuel >= |t.input| + 1 && Utils.ByteAt(Skip(t), Utils.Plus, Utils.Minus)
    requires Run(g, TermParser, OperandStart(t), fuel + 2) == Some(w) && !w.isError
    ensures Run(g, AddStep, t, fuel + 3) == Some(w.(results := StepValue(t, w)))
  {
    StepReads(g, Utils.Plus, Utils.Minus, TermParser, t, w, fuel);
  }

  /** The three mappers on a first operand and one step: the trees they build. */
  lemma StepTrees(t: State, w: State)
    requires t.Valid() && Skip(t).index < |t.input|
    ensures var v := List([t.results, List([StepValue(t, w)])]);
      ToTerm(v) == Term(t.results, StepOperator(t), w.results) &&
      ToExpression(v) == Expression(t.results, StepOperator(t), w.results) &&
      ToExpressionAsWritten(v) == Expression(List([StepValue(t, w)]), StepOperator(t), w.results)
  {
  }

  /** expression on a term, one additive step and nothing more: an Expression of the two terms and the operator. */
  lemma ExpressionOfStep(g: Grammar, st: State, t: State, w: State, fuel: nat)
    requires st.Valid() && !st.isError && fuel >= |st.input| + 1
    requires Run(g, TermParser, st, fuel + 4) == Some(t) && !t.isError && Utils.ByteAt(Skip(t), Utils.Plus, Utils.Minus)
    requires Run(g, TermParser, OperandStart(t), fuel + 2) == Some(w) && !w.isError
    requires CombinatorLaws.FailsOn(g, AddStep, w.(results := StepValue(t, w)), fuel + 3)
    ensures Run(g, ExpressionParser, st, fuel + 6) ==
      Some(w.(results := Expression(t.results, StepOperator(t), w.results)))
  {
    AddStepReads(g, t, w, fuel);
    ExpressionOfReadStep(g, st, t, w, fuel);
  }

  /** ... once the step is known to read up to `w`. */
  lemma ExpressionOfReadStep(g: Grammar, st: State, t: State, w: State, fuel: nat)
    requires st.Valid() && !st.isError
    requires Run(g, TermParser, st, fuel + 4) == Some(t) && !t.isError && Skip(t).index < |t.input| && !w.isError
    requires Run(g, AddStep, t, fuel + 3) == Some(w.(results := StepValue(t, w)))
    requires CombinatorLaws.FailsOn(g, AddStep, w.(results := StepValue(t, w)), fuel + 3)
    ensures Run(g, ExpressionParser, st, fuel + 6) ==
      Some(w.(results := Expression(t.results, StepOperator(t), w.results)))
  {
    StepTrees(t, w);
    CombinatorLaws.MappedHeadOnce(g, TermParser, AddStep, ToExpression, st, t, w.(results := StepValue(t, w)), fuel + 1);
  }

  /** The same input under the mapper as written: the first operand is the list of steps, not the first term. */
  lemma ExpressionAsWrittenOfStep(g: Grammar, st: State, t: State, w: State, fuel: nat)
    requires st.Valid() && !st.isError && fuel >= |st.input| + 1
    requires Run(g, TermParser, st, fuel + 4) == Some(t) && !t.isError && Utils.ByteAt(Skip(t), Utils.Plus, Utils.Minus)
    requires Run(g, TermParser, OperandStart(t), fuel + 2) == Some(w) && !w.isError
    requires CombinatorLaws.FailsOn(g, AddStep, w.(results := StepValue(t, w)), fuel + 3)
    ensures Run(g, ExpressionAsWritten, st, fuel + 6) ==
      Some(w.(results := Expression(List([StepValue(t, w)]), StepOperator(t), w.results)))
  {
    AddStepReads(g, t, w, fuel);
    ExpressionAsWrittenOfReadStep(g, st, t, w, fuel);
  }

  /** ... once the step is known to read up to `w`. */
  lemma ExpressionAsWrittenOfReadStep(g: Grammar, st: State, t: State, w: State, fuel: nat)
    requires st.Valid() && !st.isError
    requires Run(g, TermParser, st, fuel + 4) == Some(t) && !t.isError && Skip(t).index < |t.input| && !w.isError
    requires Run(g, AddStep, t, fuel + 3) == Some(w.(results := StepValue(t, w)))
    requires CombinatorLaws.FailsOn(g, AddStep, w.(results := StepValue(t, w)), fuel + 3)
    ensures Run(g, ExpressionAsWritten, st, fuel + 6) ==
      Some(w.(results := Expression(List([StepValue(t, w)]), StepOperator(t), w.results)))
  {
    StepTrees(t, w);
    CombinatorLaws.MappedHeadOnce(g, TermParser, AddStep, ToExpressionAsWritten, st, t, w.(results := StepValue(t, w)), fuel + 1);
  }

  /** expression, under either mapper, without a term at the cursor fails there, with the term's error. */
  lemma ExpressionNeedsTerm(g: Grammar, x: Parser, st: State, e: State, fuel: nat)
    requires IsExpression(x)
    requires st.Valid() && !st.isError && Run(g, TermParser, st, fuel) == Some(e) && e.isError
    ensures Run(g, x, st, fuel + 2) == Some(UpdateError(st, e.err))
  {
    if x == ExpressionParser {
      CombinatorLaws.MappedHeadFails(g, TermParser, AddTail, ToExpression, st, e, fuel);
    } else {
      CombinatorLaws.MappedHeadFails(g, TermParser, AddTail, ToExpressionAsWritten, st, e, fuel);
    }
  }
}
