/**
 * The formula language on a few inputs: what Parse returns for a number,
 * a sum, an unknown name, two numbers without an operator and an operator
 * without an operand. Each holds for every fuel beyond a small bound and,
 * except the sum, under either binding of `expression`.
 */
module FormulaExamples {
  import opened Wrappers
  import opened Utf8
  import opened ParserState
  import opened Combinators
  import CombinatorLaws
  import Parsing
  import Utils
  import opened Formula

  const Space: Byte := ' ' as int

  /** "42" is the number 42. */
  lemma ParsesInteger(g: Grammar, fuel: nat)
    requires Bound(g)
    ensures ParseFormula(g, ['4' as int, '2' as int], fuel + 16) == Some((Number(Int(42)), NoErr))
  {
    FortyTwoExpression(g, fuel);
    ParseFormulaSpans(g, ['4' as int, '2' as int], fuel + 13);
  }

  /** The expression on "42": the lone term, the lone atom, the number, up to the end. */
  lemma FortyTwoExpression(g: Grammar, fuel: nat)
    requires Bound(g)
    ensures "expression" in g
    ensures Run(g, g["expression"], Parsing.InitialState(['4' as int, '2' as int]), fuel + 13) ==
      Some(Parsing.InitialState(['4' as int, '2' as int]).(index := 2, results := Number(Int(42))))
  {
    var init := Parsing.InitialState(['4' as int, '2' as int]);
    var a := init.(index := 2, results := Number(Int(42)));
    BoundExpression(g);
    FortyTwoAtom(g, fuel);
    TermOfLoneAtom(g, init, a, fuel + 5);
    ExpressionOfLoneTerm(g, g["expression"], init, a, fuel + 7);
  }

  lemma FortyTwoAtom(g: Grammar, fuel: nat)
    ensures Run(g, Atom, Parsing.InitialState(['4' as int, '2' as int]), fuel + 9) ==
      Some(Parsing.InitialState(['4' as int, '2' as int]).(index := 2, results := Number(Int(42))))
  {
    var source: seq<Byte> := ['4' as int, '2' as int];
    var init := Parsing.InitialState(source);
    assert Utils.IntegerText(42) == source;
    assert Utils.IntegerTextAt(42, init);
    AtomNumber(g, 42, init, fuel);
  }

  const PiPlusTwo: seq<Byte> := ['p' as int, 'i' as int, Space, Utils.Plus, Space, '2' as int]

  /** The states "pi + 2" passes through: the term "pi", and the term "2" with its cursor at the end. */
  function PiTerm(): State {
    Parsing.InitialState(PiPlusTwo).(index := 2, results := Constant(Pi))
  }

  function TwoTerm(): State {
    Parsing.InitialState(PiPlusTwo).(index := 6, results := Number(Int(2)))
  }

  /** The first term of "pi + 2" is pi, and a '+' follows it. */
  lemma PiTermRead(g: Grammar, fuel: nat)
    ensures Run(g, TermParser, Parsing.InitialState(PiPlusTwo), fuel + 15) == Some(PiTerm())
    ensures Utils.ByteAt(Skip(PiTerm()), Utils.Plus, Utils.Minus)
  {
    var init := Parsing.InitialState(PiPlusTwo);
    assert Spelled(init, Pi);
    AtomConstant(g, Pi, init, fuel + 4);
    assert Skip(PiTerm()).index == 3 by {
      assert BlankEnd(PiPlusTwo, 3) == 3;
    }
    TermOfLoneAtom(g, init, PiTerm(), fuel + 9);
  }

  /** The operand of the sum's step is the term 2, at the end of the input. */
  lemma TwoTermRead(g: Grammar, fuel: nat)
    ensures OperandStart(PiTerm()).index == 5
    ensures Run(g, TermParser, OperandStart(PiTerm()), fuel + 13) == Some(TwoTerm())
  {
    var s5 := OperandStart(PiTerm());
    assert s5.index == 5 by {
      assert BlankEnd(PiPlusTwo, 2) == 3 && BlankEnd(PiPlusTwo, 5) == 5;
    }
    assert Utils.IntegerText(2) == ['2' as int];
    assert Utils.IntegerTextAt(2, s5);
    AtomNumber(g, 2, s5, fuel + 2);
    TermOfLoneAtom(g, s5, TwoTerm(), fuel + 7);
  }

  /** The terms of "pi + 2", each followed by no multiplicative step, and the sum's single step. */
  lemma PiPlusTwoTerms(g: Grammar, fuel: nat)
    ensures var init := Parsing.InitialState(PiPlusTwo);
      Run(g, TermParser, init, fuel + 15) == Some(PiTerm()) &&
      Utils.ByteAt(Skip(PiTerm()), Utils.Plus, Utils.Minus) &&
      Run(g, TermParser, OperandStart(PiTerm()), fuel + 13) == Some(TwoTerm()) &&
      CombinatorLaws.FailsOn(g, AddStep, TwoTerm().(results := StepValue(PiTerm(), TwoTerm())), fuel + 14)
  {
    PiTermRead(g, fuel);
    TwoTermRead(g, fuel);
    StepNeedsOperator(g, Utils.Plus, Utils.Minus, TermParser, TwoTerm().(results := StepValue(PiTerm(), TwoTerm())), fuel + 11);
  }

  /** "pi + 2" is the sum of the constant pi and the number 2. */
  lemma ParsesSum(fuel: nat)
    ensures ParseFormula(FormulaGrammarCorrected, PiPlusTwo, fuel + 20) ==
      Some((Expression(Constant(Pi), Operator([Utils.Plus]), Number(Int(2))), NoErr))
  {
    PiPlusTwoExpression(fuel);
    ParseFormulaSpans(FormulaGrammarCorrected, PiPlusTwo, fuel + 17);
  }

  /** The expression on "pi + 2": the two terms around the '+', up to the end. */
  lemma PiPlusTwoExpression(fuel: nat)
    ensures Run(FormulaGrammarCorrected, ExpressionParser, Parsing.InitialState(PiPlusTwo), fuel + 17) ==
      Some(TwoTerm().(results := Expression(Constant(Pi), Operator([Utils.Plus]), Number(Int(2)))))
  {
    PiPlusTwoTerms(FormulaGrammarCorrected, fuel);
    ExpressionOfStep(FormulaGrammarCorrected, Parsing.InitialState(PiPlusTwo), PiTerm(), TwoTerm(), fuel + 11);
  }

  /** The tree the expression mapper as written builds for "pi + 2": the first operand is the list of steps. */
  function PiPlusTwoAsWritten(): Value {
    var blank := List([Value.Str([Space])]);
    var step := List([blank, Operator([Utils.Plus]), blank, Number(Int(2))]);
    Expression(List([step]), Operator([Utils.Plus]), Number(Int(2)))
  }

  /** As the program binds `expression`, "pi + 2" loses pi: the tree's first operand is the step " + 2". */
  lemma ParsesSumAsWritten(fuel: nat)
    ensures ParseFormula(FormulaGrammar, PiPlusTwo, fuel + 20) == Some((PiPlusTwoAsWritten(), NoErr))
  {
    PiPlusTwoExpressionAsWritten(fuel);
    ParseFormulaSpans(FormulaGrammar, PiPlusTwo, fuel + 17);
  }

  /** The expression as written on "pi + 2": the step's own list where pi should be. */
  lemma PiPlusTwoExpressionAsWritten(fuel: nat)
    ensures Run(FormulaGrammar, ExpressionAsWritten, Parsing.InitialState(PiPlusTwo), fuel + 17) ==
      Some(TwoTerm().(results := PiPlusTwoAsWritten()))
  {
    PiPlusTwoTerms(FormulaGrammar, fuel);
    ExpressionAsWrittenOfStep(FormulaGrammar, Parsing.InitialState(PiPlusTwo), PiTerm(), TwoTerm(), fuel + 11);
    PiPlusTwoStep();
  }

  /** The step " + 2" after pi: whitespace, the '+', whitespace and the number. */
  lemma PiPlusTwoStep()
    ensures Skip(PiTerm()).index == 3 && Utils.ByteAt(Skip(PiTerm()), Utils.Plus, Utils.Minus)
    ensures Expression(List([StepValue(PiTerm(), TwoTerm())]), StepOperator(PiTerm()), TwoTerm().results) == PiPlusTwoAsWritten()
  {
    var a := PiTerm();
    assert BlankEnd(PiPlusTwo, 2) == 3 && BlankEnd(PiPlusTwo, 4) == 5;
    assert Skip(a).results == List([Value.Str([Space])]);
    assert Skip(AfterOperator(Skip(a))).results == List([Value.Str([Space])]);
  }

  /** "po" names no constant: no alternative of atom matches at the start. */
  lemma RejectsUnknownName(g: Grammar, fuel: nat)
    requires Bound(g)
    ensures ParseFormula(g, ['p' as int, 'o' as int], fuel + 16) == Some((Nil, Error(NoAlternative, 0)))
  {
    var source: seq<Byte> := ['p' as int, 'o' as int];
    BoundExpression(g);
    var init := Parsing.InitialState(source);
    NoNumberBefore(init);
    assert !Spelled(init, Pi) by {
      assert source[0..2][1] != Pi[1];
    }
    assert !Spelled(init, EulerE) by {
      assert source[0..1][0] != EulerE[0];
    }
    AtomFails(g, init, fuel);
    TermNeedsAtom(g, init, UpdateError(init, Error(NoAlternative, 0)), fuel + 9);
    ExpressionNeedsTerm(g, g["expression"], init, UpdateError(init, Error(NoAlternative, 0)), fuel + 11);
    ParseFormulaSpans(g, source, fuel + 13);
  }

  /** "1 2": the expression is the 1, and the input does not end after it. */
  lemma RejectsMissingOperator(g: Grammar, fuel: nat)
    requires Bound(g)
    ensures ParseFormula(g, ['1' as int, Space, '2' as int], fuel + 16) == Some((Nil, Error(NotAtEnd, 1)))
  {
    var source: seq<Byte> := ['1' as int, Space, '2' as int];
    BoundExpression(g);
    var init := Parsing.InitialState(source);
    assert Utils.IntegerText(1) == source[..1];
    assert Utils.IntegerTextAt(1, init);
    AtomNumber(g, 1, init, fuel);
    var a := init.(index := 1, results := Number(Int(1)));
    assert Skip(a).index == 2 by {
      assert BlankEnd(source, 2) == 2;
    }
    TermOfLoneAtom(g, init, a, fuel + 5);
    ExpressionOfLoneTerm(g, g["expression"], init, a, fuel + 7);
    ParseFormulaSpans(g, source, fuel + 13);
  }

  const OnePlus: seq<Byte> := ['1' as int, Space, Utils.Plus]

  /** In "1 +" the step after the 1 reads the '+' and then finds no term: the step fails. */
  lemma OnePlusStepFails(g: Grammar, fuel: nat)
    ensures var a := Parsing.InitialState(OnePlus).(index := 1, results := Number(Int(1)));
      CombinatorLaws.FailsOn(g, AddStep, a, fuel + 12)
  {
    var a := Parsing.InitialState(OnePlus).(index := 1, results := Number(Int(1)));
    OnePlusCursor();
    OnePlusOperandFails(g, fuel);
    var s3 := OperandStart(a);
    StepOperandFails(g, Utils.Plus, Utils.Minus, TermParser, a, UpdateError(s3, Error(NoAlternative, 3)), fuel + 9);
  }

  /** In "1 +" after the 1: no whitespace, the '+', and the operand would start at the end. */
  lemma OnePlusCursor()
    ensures var a := Parsing.InitialState(OnePlus).(index := 1, results := Number(Int(1)));
      Skip(a).index == 2 && Utils.ByteAt(Skip(a), Utils.Plus, Utils.Minus) && OperandStart(a).index == 3
  {
    var a := Parsing.InitialState(OnePlus).(index := 1, results := Number(Int(1)));
    assert BlankEnd(OnePlus, 2) == 2;
  }

  /** ... where term finds no atom. */
  lemma OnePlusOperandFails(g: Grammar, fuel: nat)
    ensures var a := Parsing.InitialState(OnePlus).(index := 1, results := Number(Int(1)));
      Skip(a).index == 2 && OperandStart(a).Valid() && OperandStart(a).index == 3 &&
      Run(g, TermParser, OperandStart(a), fuel + 11) == Some(UpdateError(OperandStart(a), Error(NoAlternative, 3)))
  {
    var a := Parsing.InitialState(OnePlus).(index := 1, results := Number(Int(1)));
    OnePlusCursor();
    var s3 := OperandStart(a);
    NoNumberAtEnd(s3);
    AtomFails(g, s3, fuel);
    TermNeedsAtom(g, s3, UpdateError(s3, Error(NoAlternative, 3)), fuel + 9);
  }

  /** "1 +": the sum's step has no operand, so the expression is the 1, and the input does not end after it. */
  lemma RejectsMissingOperand(g: Grammar, fuel: nat)
    requires Bound(g)
    ensures ParseFormula(g, OnePlus, fuel + 18) == Some((Nil, Error(NotAtEnd, 1)))
  {
    BoundExpression(g);
    var init := Parsing.InitialState(OnePlus);
    assert Utils.IntegerText(1) == OnePlus[..1];
    assert Utils.IntegerTextAt(1, init);
    AtomNumber(g, 1, init, fuel + 2);
    var a := init.(index := 1, results := Number(Int(1)));
    assert Skip(a).index == 2 by {
      assert BlankEnd(OnePlus, 2) == 2;
    }
    TermOfLoneAtom(g, init, a, fuel + 7);
    OnePlusStepFails(g, fuel);
    ExpressionOfTerm(g, g["expression"], init, a, fuel + 11);
    ParseFormulaSpans(g, OnePlus, fuel + 15);
  }

  const BracketedOne: seq<Byte> := [OpenParen, '1' as int, CloseParen]

  /** Inside "(1)" the forward-declared expression reads the 1. */
  lemma BracketedOneInner(g: Grammar, fuel: nat)
    requires Bound(g)
    ensures "expression" in g
    ensures var s1 := Skip(Read(Parsing.InitialState(BracketedOne), OpenParen));
      Run(g, g["expression"], s1, fuel + 13) ==
        Some(s1.(index := 2, results := Number(Int(1))))
  {
    BoundExpression(g);
    var s1 := Skip(Read(Parsing.InitialState(BracketedOne), OpenParen));
    assert s1.index == 1 by {
      assert BlankEnd(BracketedOne, 1) == 1;
    }
    assert Utils.IntegerText(1) == BracketedOne[1..2];
    assert Utils.IntegerTextAt(1, s1);
    AtomNumber(g, 1, s1, fuel);
    var a := s1.(index := 2, results := Number(Int(1)));
    assert Skip(a).index == 2 by {
      assert BlankEnd(BracketedOne, 2) == 2;
    }
    TermOfLoneAtom(g, s1, a, fuel + 5);
    ExpressionOfLoneTerm(g, g["expression"], s1, a, fuel + 7);
  }

  /** "(1)" is the number 1: the brackets leave only the tree of what they hold. */
  lemma ParsesBracketed(g: Grammar, fuel: nat)
    requires Bound(g)
    ensures ParseFormula(g, BracketedOne, fuel + 24) == Some((Number(Int(1)), NoErr))
  {
    BoundExpression(g);
    var init := Parsing.InitialState(BracketedOne);
    var s1 := Skip(Read(init, OpenParen));
    var e := s1.(index := 2, results := Number(Int(1)));
    BracketedOneInner(g, fuel);
    assert Skip(e).index == 2 by {
      assert BlankEnd(BracketedOne, 2) == 2;
    }
    BracketedReads(g, init, e, fuel + 12);
    var r := Read(Skip(e), CloseParen).(results := e.results);
    AtomBracketed(g, init, r, fuel + 8);
    TermOfLoneAtom(g, init, r, fuel + 13);
    ExpressionOfLoneTerm(g, g["expression"], init, r, fuel + 15);
    ParseFormulaSpans(g, BracketedOne, fuel + 21);
  }
}
