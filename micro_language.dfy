/**
 * tutorial/micro-language/main.go: a prefix arithmetic language such as
 * "(+ (* 10 2) (- (/ 50 3) 2))", its grammar built from the library's
 * combinators, and the integer interpreter over the tree it yields.
 */
module MicroLanguage {
  import opened Wrappers
  import opened Utf8
  import opened ParserState
  import opened Combinators
  import Primitives
  import Conditionals
  import CombinatorLaws
  import Parsing
  import Utils

  const Add: seq<Byte> := ['+' as int]
  const Subtract: seq<Byte> := ['-' as int]
  const Multiply: seq<Byte> := ['*' as int]
  const Divide: seq<Byte> := ['/' as int]
  const Open: seq<Byte> := ['(' as int]
  const Close: seq<Byte> := [')' as int]
  const Blank: seq<Byte> := [' ' as int]

  /** The operator alternatives, in the order they are tried. */
  const Operators: seq<seq<Byte>> := [Add, Subtract, Multiply, Divide]

  const Operator: Parser := Choice([Parser.Str(Add), Parser.Str(Subtract), Parser.Str(Multiply), Parser.Str(Divide)])

  /** The mapper that wraps Integer's value in an Operand node; a non-int (a Go panic) gives Nil. */
  function ToOperand(v: Value): Value {
    if v.Int? then Operand(v.i) else Nil
  }

  /** The mapper of `operation`: the operator at position 1 and the operands at positions 3 and 5. */
  function ToOperation(v: Value): Value {
    if v.List? && |v.items| >= 6 && v.items[1].Str? then Operation(v.items[1].s, v.items[3], v.items[5]) else Nil
  }

  /** `expr`: an integer operand, tried first, or an operation. */
  const Expr: Parser := Choice([Map(Utils.Integer, ToOperand), Ref("operation")])

  /** The seven parts of an operation: "(", operator, " ", expr, " ", expr, ")". */
  const OperationParts: seq<Parser> := [Parser.Str(Open), Operator, Parser.Str(Blank), Ref("expr"), Parser.Str(Blank), Ref("expr"), Parser.Str(Close)]

  const OperationParser: Parser := Map(SequenceOf(OperationParts), ToOperation)

  /** The forward-declared variables, bound once both are built. */
  const MicroGrammar: Grammar := map["expr" := Expr, "operation" := OperationParser]

  /** Go's `/` on int: the quotient truncated toward zero. */
  function GoDiv(a: int, b: int): int
    requires b != 0
  {
    var q := Abs(a) / Abs(b);
    if (a < 0) == (b < 0) then q else -q
  }

  function Abs(x: int): nat { if x < 0 then -x else x }

  /** No division in the tree divides by zero, where Go's `/` would panic. */
  predicate Divisible(node: Value)
    decreases node, 0
  {
    match node
    case Operation(op, a, b) =>
      Divisible(a) && Divisible(b) && (op == Divide ==> Evaluate(b) != 0)
    case _ => true
  }

  /** Go's `int` on a 64-bit target. */
  const MinInt64: int := -0x8000_0000_0000_0000
  const MaxInt64: int := 0x7fff_ffff_ffff_ffff
  const Int64Span: int := 0x1_0000_0000_0000_0000

  /** Two's-complement wrap-around: the one int64 value congruent to `x` modulo 2^64. */
  function Wrap64(x: int): (w: int)
    ensures MinInt64 <= w <= MaxInt64
    ensures (w - x) % Int64Span == 0
    ensures MinInt64 <= x <= MaxInt64 ==> w == x
  {
    (x - MinInt64) % Int64Span + MinInt64
  }

  /**
   * evaluate: an Operand is its value; an Operation applies its operator to
   * the evaluated operands in 64-bit arithmetic, so its value is an int64;
   * any other node or operator gives 0.
   */
  function Evaluate(node: Value): (v: int)
    requires Divisible(node)
    ensures node.Operand? ==> v == node.value
    ensures node.Operation? ==> MinInt64 <= v <= MaxInt64
    ensures !node.Operand? && !node.Operation? ==> v == 0
    decreases node, 1
  {
    match node
    case Operation(op, a, b) =>
      if op == Add then Wrap64(Evaluate(a) + Evaluate(b))
      else if op == Subtract then Wrap64(Evaluate(a) - Evaluate(b))
      else if op == Divide then Wrap64(GoDiv(Evaluate(a), Evaluate(b)))
      else if op == Multiply then Wrap64(Evaluate(a) * Evaluate(b))
      else 0
    case Operand(value) => value
    case _ => 0
  }

  /**
   * interpreter: parse the input with `expr` and evaluate the result; None
   * when the fuel runs out or where Go's division by zero would panic. A
   * failed parse leaves no result, which evaluates to 0; a successful one
   * yields a tree.
   */
  function Interpreter(input: seq<Byte>, fuel: nat): (r: Option<int>)
    ensures var p := Parsing.Parse(MicroGrammar, Expr, input, fuel);
      (p.None? ==> r.None?) &&
      (p.Some? && p.value.isError ==> r == Some(0)) &&
      (p.Some? && !p.value.isError ==> Tree(p.value.results) && (r.Some? <==> Divisible(p.value.results))) &&
      (r.Some? && p.Some? && p.value.results.Operation? ==> MinInt64 <= r.value <= MaxInt64)
  {
    ParsedIsTree(input, fuel);
    match Parsing.Parse(MicroGrammar, Expr, input, fuel)
    case None => None
    case Some(r) => if Divisible(r.results) then Some(Evaluate(r.results)) else None
  }

  /** Whatever the grammar parses successfully from the start of an input is a tree. */
  lemma ParsedIsTree(input: seq<Byte>, fuel: nat)
    ensures var p := Parsing.Parse(MicroGrammar, Expr, input, fuel);
      p.Some? && !p.value.isError ==> Tree(p.value.results)
  {
    var p := Parsing.Parse(MicroGrammar, Expr, input, fuel);
    if p.Some? && !p.value.isError {
      ExprYieldsTree(Parsing.InitialState(input), fuel, p.value.results);
    }
  }

  /**
   * GoDiv truncates: the remainder is smaller than the divisor in magnitude
   * and has the dividend's sign (or is zero), and the quotient's sign is the
   * product of the operands' signs.
   */
  lemma GoDivTruncates(a: int, b: int)
    requires b != 0
    ensures var q := GoDiv(a, b); var r := a - q * b;
      Abs(r) < Abs(b) && (r == 0 || (r < 0) == (a < 0)) &&
      (q != 0 ==> ((q < 0) <==> ((a < 0) != (b < 0))))
  {
    var p, m := TruncatedParts(a, b);
    TruncatedRemainder(a, b, GoDiv(a, b) * b, p, m);
    SignedQuotient(Abs(a) / Abs(b), a, b, GoDiv(a, b));
  }

  /** The dividend's magnitude split into the divisor's multiple that GoDiv takes and what is left. */
  lemma TruncatedParts(a: int, b: int) returns (p: nat, m: nat)
    requires b != 0
    ensures Abs(a) == p + m && m < Abs(b)
    ensures GoDiv(a, b) * b == (if a >= 0 then p as int else -(p as int))
  {
    var q0, m0 := EuclidNat(Abs(a), Abs(b));
    SignedProduct(q0, Abs(b), a, b, GoDiv(a, b));
    p, m := q0 * Abs(b), m0;
  }

  /** What is left of the dividend after a multiple of the divisor that leaves less than the divisor, with the dividend's sign. */
  lemma TruncatedRemainder(a: int, b: int, qb: int, p: int, m: int)
    requires b != 0 && Abs(a) == p + m && 0 <= m < Abs(b)
    requires qb == (if a >= 0 then p else -p)
    ensures Abs(a - qb) < Abs(b) && (a - qb == 0 || (a - qb < 0) == (a < 0))
  {
  }

  /** A magnitude given the sign of the operands' signs: its sign and size. */
  lemma SignedQuotient(q0: nat, a: int, b: int, q: int)
    requires q == (if (a < 0) == (b < 0) then q0 else -(q0 as int))
    ensures q == q0 || q == -(q0 as int)
    ensures q < 0 ==> ((a < 0) != (b < 0))
    ensures q > 0 ==> ((a < 0) == (b < 0))
  {
  }

  /** A quotient with the sign of the operands' signs, times the divisor. */
  lemma SignedProduct(q0: int, y: nat, a: int, b: int, q: int)
    requires y > 0 && (b == y || b == -(y as int)) && q == (if (a < 0) == (b < 0) then q0 else -q0)
    ensures q * b == (if a >= 0 then q0 * y else -(q0 * y))
  {
    MulSigns(q0, y);
    if b == y {
      if a >= 0 { assert q == q0; } else { assert q == -q0; }
    } else {
      if a >= 0 { assert q == -q0; } else { assert q == q0; }
    }
  }

  /** Euclidean division of naturals: the quotient times the divisor plus a remainder below the divisor. */
  lemma EuclidNat(x: nat, y: nat) returns (q: nat, m: nat)
    requires y > 0
    ensures q == x / y && x == q * y + m && m < y
  {
    q, m := x / y, x % y;
  }

  lemma MulSigns(x: int, y: int)
    ensures (-x) * y == -(x * y) && x * (-y) == -(x * y) && (-x) * (-y) == x * y
  {
  }

  /** Truncation differs from Dafny's Euclidean division on a negative dividend: -7 / 2 is -3, not -4. */
  lemma GoDivOfNegative()
    ensures GoDiv(-7, 2) == -3 && -7 / 2 == -4
  {
  }

  /** The trees the grammar can build: operands, and operations with one of the four operators. */
  predicate Tree(node: Value) {
    match node
    case Operand(_) => true
    case Operation(op, a, b) => op in Operators && Tree(a) && Tree(b)
    case _ => false
  }

  /** The text of a tree in the language's own notation. */
  function Print(node: Value): (t: seq<Byte>)
    requires Tree(node)
    ensures |t| > 0
  {
    match node
    case Operand(v) => Utils.IntegerText(v)
    case Operation(op, a, b) => Open + op + Blank + Print(a) + Blank + Print(b) + Close
  }

  /** Fuel enough to parse the text of a tree: each nesting level costs five steps. */
  function Need(node: Value): (f: nat)
    requires Tree(node)
    ensures f >= 8
  {
    match node
    case Operand(_) => 8
    case Operation(_, a, b) => 5 + Max(Need(a), Need(b))
  }

  function Max(x: nat, y: nat): nat { if x < y then y else x }

  /** The text of the tree is at the cursor, and no digit follows it. */
  predicate PrintedAt(node: Value, st: State)
    requires st.Valid()
  {
    Tree(node) && TextAt(st.input, st.index, Print(node))
  }

  /** Str of one byte at a cursor inside the input: that byte, or a no-match failure there. */
  lemma OneByteStr(g: Grammar, x: Byte, st: State, fuel: nat)
    requires st.Valid() && !st.isError && st.index < |st.input|
    ensures Run(g, Parser.Str([x]), st, fuel + 1) ==
      Some(if st.input[st.index] == x then st.(index := st.index + 1, results := Value.Str([x]))
           else UpdateError(st, Error(NoMatch, st.index)))
  {
    Primitives.StrOneByte(x, st);
  }

  /** The operator choice on the text of one of the four operators: that operator, one byte on. */
  lemma OperatorReads(g: Grammar, op: seq<Byte>, st: State, fuel: nat)
    requires st.Valid() && !st.isError && op in Operators
    requires st.index < |st.input| && op == [st.input[st.index]]
    ensures Run(g, Operator, st, fuel + 2) == Some(st.(index := st.index + 1, results := Value.Str(op)))
  {
    var alts := [Parser.Str(Add), Parser.Str(Subtract), Parser.Str(Multiply), Parser.Str(Divide)];
    assert Run(g, Operator, st, fuel + 2) == Alternatives(g, alts, 0, st, fuel + 1);
    var b := st.input[st.index];
    OneByteStr(g, '+' as int, st, fuel);
    OneByteStr(g, '-' as int, st, fuel);
    OneByteStr(g, '*' as int, st, fuel);
    OneByteStr(g, '/' as int, st, fuel);
    if b != '+' as int {
      assert Alternatives(g, alts, 0, st, fuel + 1) == Alternatives(g, alts, 1, st, fuel + 1);
      if b != '-' as int {
        assert Alternatives(g, alts, 1, st, fuel + 1) == Alternatives(g, alts, 2, st, fuel + 1);
        if b != '*' as int {
          assert Alternatives(g, alts, 2, st, fuel + 1) == Alternatives(g, alts, 3, st, fuel + 1);
        }
      }
    }
  }

  /**
   * The operator choice at the end of the input, or on any byte that is not
   * one of the four operators: every alternative fails, so the choice fails
   * at the cursor with no alternative matched.
   */
  lemma OperatorRejects(g: Grammar, st: State, fuel: nat)
    requires st.Valid() && !st.isError
    requires st.index == |st.input| || [st.input[st.index]] !in Operators
    ensures Run(g, Operator, st, fuel + 2) == Some(UpdateError(st, Error(NoAlternative, st.index)))
  {
    var alts := [Parser.Str(Add), Parser.Str(Subtract), Parser.Str(Multiply), Parser.Str(Divide)];
    assert Run(g, Operator, st, fuel + 2) == Alternatives(g, alts, 0, st, fuel + 1);
    forall k | 0 <= k < 4
      ensures CombinatorLaws.FailsOn(g, alts[k], st, fuel + 1)
    {
      assert Operators[k] == [Operators[k][0]];
      Primitives.StrOneByte(Operators[k][0], st);
    }
    CombinatorLaws.AlternativesFail(g, alts, 0, st, fuel + 1);
  }

  /** Whatever the operator choice reads on success is one of the four operators. */
  lemma OperatorYields(g: Grammar, s: State, fuel: nat, v: Value)
    requires CombinatorLaws.SucceedsWith(g, Operator, s, fuel, v)
    ensures v.Str? && v.s in Operators
  {
    var alts := [Parser.Str(Add), Parser.Str(Subtract), Parser.Str(Multiply), Parser.Str(Divide)];
    var r := Run(g, Operator, s, fuel).value;
    assert !s.isError;
    assert Run(g, Operator, s, fuel) == Alternatives(g, alts, 0, s, fuel - 1);
    CombinatorLaws.AlternativesSucceed(g, alts, 0, s, fuel - 1, r);
    var j: nat :| CombinatorLaws.FirstSuccess(g, alts, j, s, fuel - 1, r);
    assert alts[j] == Parser.Str(Operators[j]);
  }

  /** The integer alternative of `expr`, on success, yields an Operand. */
  lemma OperandAlternativeYields(g: Grammar, st: State, fuel: nat, r: State)
    requires st.Valid() && !st.isError && Run(g, Map(Utils.Integer, ToOperand), st, fuel) == Some(r) && !r.isError
    ensures r.results.Operand?
  {
    assert Run(g, Map(Utils.Integer, ToOperand), st, fuel) == RunMap(g, Utils.Integer, ToOperand, st, fuel - 1);
    CombinatorLaws.RunMonotone(g, Utils.Integer, st, fuel - 1, fuel + 5);
    Utils.IntegerValue(g, st, fuel - 1);
  }

  /**
   * The converse of reading back printed trees: whatever `expr` yields on
   * success, from any state and with any fuel, is a tree of operands and
   * operations over the four operators.
   */
  lemma {:induction false} ExprYieldsTree(st: State, fuel: nat, v: Value)
    requires CombinatorLaws.SucceedsWith(MicroGrammar, Expr, st, fuel, v)
    ensures Tree(v)
    decreases fuel
  {
    var g := MicroGrammar;
    var alts := [Map(Utils.Integer, ToOperand), Ref("operation")];
    var r := Run(g, Expr, st, fuel).value;
    assert !st.isError;
    assert Run(g, Expr, st, fuel) == Alternatives(g, alts, 0, st, fuel - 1);
    CombinatorLaws.AlternativesSucceed(g, alts, 0, st, fuel - 1, r);
    var j :| CombinatorLaws.FirstSuccess(g, alts, j, st, fuel - 1, r);
    if j == 0 {
      OperandAlternativeYields(g, st, fuel - 1, r);
    } else {
      OperationYieldsTree(st, fuel - 1, r);
    }
  }

  /** The `operation` alternative, on success, yields an Operation node over two trees. */
  lemma {:induction false} OperationYieldsTree(st: State, fuel: nat, r: State)
    requires st.Valid() && !st.isError && Run(MicroGrammar, Ref("operation"), st, fuel) == Some(r) && !r.isError
    ensures Tree(r.results)
    decreases fuel, 2
  {
    var g := MicroGrammar;
    OperationUnmapped(st, fuel, r);
    var t := Run(g, SequenceOf(OperationParts), st, fuel - 2).value;
    CombinatorLaws.SequenceOfRunsInOrder(g, OperationParts, st, fuel - 3);
    var o := CombinatorLaws.Threaded(g, OperationParts, st, fuel - 3);
    assert o.Some? && o.value.Matched?;
    var xs, last := o.value.items, o.value.last;
    assert t.results == List([] + xs) && [] + xs == xs;
    PartsYieldTree(st, fuel, xs, last);
  }

  /** A successful `operation` is its seven parts in sequence, successful, with the mapper applied. */
  lemma OperationUnmapped(st: State, fuel: nat, r: State)
    requires st.Valid() && !st.isError && Run(MicroGrammar, Ref("operation"), st, fuel) == Some(r) && !r.isError
    ensures fuel >= 3
    ensures var t := Run(MicroGrammar, SequenceOf(OperationParts), st, fuel - 2);
      t.Some? && !t.value.isError && r.results == ToOperation(t.value.results)
  {
    var g := MicroGrammar;
    RefLookup("operation", st, fuel - 1);
    assert Run(g, OperationParser, st, fuel - 1) == RunMap(g, SequenceOf(OperationParts), ToOperation, st, fuel - 2);
  }

  /** The parts of a matched operation, mapped, are an Operation node over two trees. */
  lemma {:induction false} PartsYieldTree(st: State, fuel: nat, xs: seq<Value>, last: State)
    requires fuel >= 3 && st.Valid() && !st.isError
    requires CombinatorLaws.Threaded(MicroGrammar, OperationParts, st, fuel - 3) == Some(CombinatorLaws.Matched(xs, last))
    ensures Tree(ToOperation(List(xs)))
    decreases fuel, 1
  {
    var g := MicroGrammar;
    CombinatorLaws.ThreadedYields(g, OperationParts, st, fuel - 3, xs, last, 1);
    var s1 :| CombinatorLaws.SucceedsWith(g, Operator, s1, fuel - 3, xs[1]);
    OperatorYields(g, s1, fuel - 3, xs[1]);
    OperandYieldsTree(OperationParts, xs, last, st, fuel, 3);
    OperandYieldsTree(OperationParts, xs, last, st, fuel, 5);
  }

  /** An `expr` part of a matched operation yields a tree. */
  lemma {:induction false} OperandYieldsTree(ps: seq<Parser>, xs: seq<Value>, last: State, st: State, fuel: nat, i: nat)
    requires ps == OperationParts && (i == 3 || i == 5) && fuel >= 3
    requires st.Valid() && !st.isError && CombinatorLaws.Threaded(MicroGrammar, ps, st, fuel - 3) == Some(CombinatorLaws.Matched(xs, last))
    ensures i < |xs| && Tree(xs[i])
    decreases fuel, 0
  {
    var g := MicroGrammar;
    CombinatorLaws.ThreadedYields(g, ps, st, fuel - 3, xs, last, i);
    assert ps[i] == Ref("expr");
    var s :| CombinatorLaws.SucceedsWith(g, Ref("expr"), s, fuel - 3, xs[i]);
    RefLookup("expr", s, fuel - 4);
    ExprYieldsTree(s, fuel - 4, xs[i]);
  }

  /** The integer alternative of `expr` fails, without moving, on an opening parenthesis. */
  lemma OperandRejectsOpen(g: Grammar, st: State, fuel: nat)
    requires st.Valid() && !st.isError
    requires st.index < |st.input| && st.input[st.index] == '(' as int
    ensures Run(g, Map(Utils.Integer, ToOperand), st, fuel + 7) == Some(UpdateError(st, Error(TooFewMatches, st.index)))
  {
    Utils.IntegerValue(g, st, fuel);
    Utils.DigitsTakeAllDigits(st.input, st.index);
    assert Run(g, Map(Utils.Integer, ToOperand), st, fuel + 7) == RunMap(g, Utils.Integer, ToOperand, st, fuel + 6);
  }

  /** The state `k` bytes further on, with the result `v`. */
  function Ahead(st: State, k: nat, v: Value): State {
    st.(index := st.index + k, results := v)
  }

  /** A piece of a text found at `i` in `s` is found at the matching offset of `s`. */
  lemma SliceAt(s: seq<Byte>, i: nat, t: seq<Byte>, x: nat, y: nat)
    requires i + |t| <= |s| && s[i..i + |t|] == t && x <= y <= |t|
    ensures s[i + x..i + y] == t[x..y]
  {
    forall k | 0 <= k < y - x
      ensures s[i + x..i + y][k] == t[x..y][k]
    {
      assert s[i + x + k] == s[i..i + |t|][x + k];
    }
  }

  /** Every operator is one byte. */
  lemma OperatorIsOneByte(op: seq<Byte>)
    requires op in Operators
    ensures |op| == 1
  {
  }

  /** The seven pieces of a text built as an operation is printed. */
  lemma Pieces(t: seq<Byte>, op: seq<Byte>, a: seq<Byte>, b: seq<Byte>)
    requires |op| == 1 && t == Open + op + Blank + a + Blank + b + Close
    ensures var pa := |a|;
      var pb := |b|;
      |t| == 5 + pa + pb &&
      t[0] == '(' as int && op == [t[1]] && t[2] == ' ' as int &&
      t[3..3 + pa] == a && t[3 + pa] == ' ' as int &&
      t[4 + pa..4 + pa + pb] == b && t[4 + pa + pb] == ')' as int
  {
    var pa := |a|;
    var pb := |b|;
    assert t[3..3 + pa] == a by {
      forall k | 0 <= k < pa ensures t[3 + k] == a[k] {}
    }
    assert t[4 + pa..4 + pa + pb] == b by {
      forall k | 0 <= k < pb ensures t[4 + pa + k] == b[k] {}
    }
    assert op == [op[0]];
  }

  /** A printed operation is the concatenation of its seven pieces, with a one-byte operator. */
  lemma PrintedParts(n: Value)
    requires Tree(n) && n.Operation?
    ensures |n.operation| == 1
    ensures Print(n) == Open + n.operation + Blank + Print(n.operandA) + Blank + Print(n.operandB) + Close
  {
    OperatorIsOneByte(n.operation);
  }

  /** The fixed bytes of a printed operation. */
  lemma PrintedBytes(n: Value)
    requires Tree(n) && n.Operation?
    ensures var t := Print(n);
      var pa := |Print(n.operandA)|;
      var pb := |Print(n.operandB)|;
      |t| == 5 + pa + pb &&
      t[0] == '(' as int && n.operation == [t[1]] && t[2] == ' ' as int &&
      t[3 + pa] == ' ' as int && t[4 + pa + pb] == ')' as int
  {
    PrintedParts(n);
    Pieces(Print(n), n.operation, Print(n.operandA), Print(n.operandB));
  }

  /** A text at position `i` of `s`, not followed by a digit. */
  predicate TextAt(s: seq<Byte>, i: nat, t: seq<Byte>) {
    i + |t| <= |s| && s[i..i + |t|] == t &&
    (i + |t| == |s| || !Conditionals.IsDecimalDigit(s[i + |t|]))
  }

  /** A piece of a text at `i`, followed by a non-digit inside the text, is a text at its own offset. */
  lemma PieceAt(s: seq<Byte>, i: nat, t: seq<Byte>, x: nat, u: seq<Byte>)
    requires i + |t| <= |s| && s[i..i + |t|] == t
    requires x + |u| < |t| && t[x..x + |u|] == u && !Conditionals.IsDecimalDigit(t[x + |u|])
    ensures TextAt(s, i + x, u)
  {
    SliceAt(s, i, t, x, x + |u|);
    assert s[i + x + |u|] == s[i..i + |t|][x + |u|];
  }

  /** A byte of a text found at `i` in `s`. */
  lemma ByteOf(s: seq<Byte>, i: nat, t: seq<Byte>, k: nat)
    requires i + |t| <= |s| && s[i..i + |t|] == t && k < |t|
    ensures s[i + k] == t[k]
  {
    assert s[i + k] == s[i..i + |t|][k];
  }

  /** A text with the fixed bytes of an operation, found at the cursor, frames an operation there. */
  lemma FramedText(st: State, t: seq<Byte>, op: seq<Byte>, pa: nat, pb: nat)
    requires st.Valid() && TextAt(st.input, st.index, t) && op in Operators
    requires |t| == 5 + pa + pb && t[0] == '(' as int && op == [t[1]] && t[2] == ' ' as int
    requires t[3 + pa] == ' ' as int && t[4 + pa + pb] == ')' as int
    ensures Framed(st, op, pa, pb)
  {
    var s := st.input;
    var i := st.index;
    ByteOf(s, i, t, 0);
    ByteOf(s, i, t, 1);
    ByteOf(s, i, t, 2);
    ByteOf(s, i, t, 3 + pa);
    ByteOf(s, i, t, 4 + pa + pb);
  }

  /** The fixed bytes of a printed operation: the parentheses, the operator and the two blanks. */
  lemma LiteralsLayout(n: Value, st: State)
    requires st.Valid() && n.Operation? && PrintedAt(n, st)
    ensures var pa := |Print(n.operandA)|;
      var pb := |Print(n.operandB)|;
      |Print(n)| == 5 + pa + pb && Framed(st, n.operation, pa, pb)
  {
    PrintedBytes(n);
    FramedText(st, Print(n), n.operation, |Print(n.operandA)|, |Print(n.operandB)|);
  }

  /** The operands of a printed operation are printed after the first and the second blank. */
  lemma FirstOperandLayout(n: Value, st: State)
    requires st.Valid() && n.Operation? && PrintedAt(n, st)
    ensures TextAt(st.input, st.index + 3, Print(n.operandA))
  {
    PrintedParts(n);
    Pieces(Print(n), n.operation, Print(n.operandA), Print(n.operandB));
    PieceAt(st.input, st.index, Print(n), 3, Print(n.operandA));
  }

  lemma SecondOperandLayout(n: Value, st: State)
    requires st.Valid() && n.Operation? && PrintedAt(n, st)
    ensures TextAt(st.input, st.index + 4 + |Print(n.operandA)|, Print(n.operandB))
  {
    PrintedParts(n);
    Pieces(Print(n), n.operation, Print(n.operandA), Print(n.operandB));
    PieceAt(st.input, st.index, Print(n), 4 + |Print(n.operandA)|, Print(n.operandB));
  }

  /**
   * The fixed bytes of an operation whose operands' texts are `pa` and `pb`
   * bytes long: "(", the operator, " ", the first operand, " ", the second
   * operand, ")".
   */
  predicate Framed(st: State, op: seq<Byte>, pa: nat, pb: nat) {
    var i := st.index;
    i + 5 + pa + pb <= |st.input| && op in Operators &&
    st.input[i] == '(' as int && op == [st.input[i + 1]] && st.input[i + 2] == ' ' as int &&
    st.input[i + 3 + pa] == ' ' as int && st.input[i + 4 + pa + pb] == ')' as int
  }

  /** The eight states an operation's parts pass through, from the opening parenthesis to the closing one. */
  function Stages(st: State, op: seq<Byte>, a: Value, b: Value, pa: nat, pb: nat): (sts: seq<State>)
    ensures |sts| == 8 && sts[0] == st && sts[1] == Ahead(st, 1, Value.Str(Open)) && sts[2] == Ahead(st, 2, Value.Str(op))
    ensures sts[3] == Ahead(st, 3, Value.Str(Blank)) && sts[4] == Ahead(sts[3], pa, a)
    ensures sts[5] == Ahead(st, 4 + pa, Value.Str(Blank)) && sts[6] == Ahead(sts[5], pb, b)
    ensures sts[7] == Ahead(st, 5 + pa + pb, Value.Str(Close))
  {
    var sa := Ahead(st, 3, Value.Str(Blank));
    var sb := Ahead(st, 4 + pa, Value.Str(Blank));
    [st, Ahead(st, 1, Value.Str(Open)), Ahead(st, 2, Value.Str(op)), sa,
     Ahead(sa, pa, a), sb, Ahead(sb, pb, b), Ahead(st, 5 + pa + pb, Value.Str(Close))]
  }

  /** A reference of the grammar runs what its name is bound to, one step later. */
  lemma RefLookup(name: string, st: State, fuel: nat)
    requires st.Valid() && name in MicroGrammar
    ensures Run(MicroGrammar, Ref(name), st, fuel + 1) == Run(MicroGrammar, MicroGrammar[name], st, fuel)
  {
  }

  /** Every stage of a framed operation is a live state inside the input. */
  lemma StagesLive(st: State, op: seq<Byte>, a: Value, b: Value, pa: nat, pb: nat)
    requires st.Valid() && !st.isError && Framed(st, op, pa, pb)
    ensures var sts := Stages(st, op, a, b, pa, pb);
      forall k :: 0 <= k < 8 ==> sts[k].Valid() && !sts[k].isError
  {
  }

  /** The opening parenthesis, the operator and the first blank each read their byte. */
  lemma LeadingLiterals(st: State, op: seq<Byte>, a: Value, b: Value, pa: nat, pb: nat, fuel: nat)
    requires st.Valid() && !st.isError && Framed(st, op, pa, pb)
    ensures var sts := Stages(st, op, a, b, pa, pb);
      Run(MicroGrammar, Parser.Str(Open), sts[0], fuel + 2) == Some(sts[1]) &&
      Run(MicroGrammar, Operator, sts[1], fuel + 2) == Some(sts[2]) &&
      Run(MicroGrammar, Parser.Str(Blank), sts[2], fuel + 2) == Some(sts[3])
  {
    var sts := Stages(st, op, a, b, pa, pb);
    OneByteStr(MicroGrammar, '(' as int, sts[0], fuel + 1);
    OperatorReads(MicroGrammar, op, sts[1], fuel);
    OneByteStr(MicroGrammar, ' ' as int, sts[2], fuel + 1);
  }

  /** The second blank and the closing parenthesis each read their byte. */
  lemma TrailingLiterals(st: State, op: seq<Byte>, a: Value, b: Value, pa: nat, pb: nat, fuel: nat)
    requires st.Valid() && !st.isError && Framed(st, op, pa, pb)
    ensures var sts := Stages(st, op, a, b, pa, pb);
      Run(MicroGrammar, Parser.Str(Blank), sts[4], fuel + 2) == Some(sts[5]) &&
      Run(MicroGrammar, Parser.Str(Close), sts[6], fuel + 2) == Some(sts[7])
  {
    var sts := Stages(st, op, a, b, pa, pb);
    OneByteStr(MicroGrammar, ' ' as int, sts[4], fuel + 1);
    OneByteStr(MicroGrammar, ')' as int, sts[6], fuel + 1);
  }

  /** With both operands read, every part of the operation succeeds on the state before it. */
  lemma OperationChained(st: State, op: seq<Byte>, a: Value, b: Value, pa: nat, pb: nat, fuel: nat)
    requires st.Valid() && !st.isError && Framed(st, op, pa, pb)
    requires var sts := Stages(st, op, a, b, pa, pb);
      fuel >= 1 &&
      Run(MicroGrammar, Expr, sts[3], fuel) == Some(sts[4]) &&
      Run(MicroGrammar, Expr, sts[5], fuel) == Some(sts[6])
    ensures CombinatorLaws.Chained(MicroGrammar, OperationParts, Stages(st, op, a, b, pa, pb), fuel + 1)
  {
    StagesLive(st, op, a, b, pa, pb);
    var g := MicroGrammar;
    var sts := Stages(st, op, a, b, pa, pb);
    forall k | 0 <= k < 7
      ensures Run(g, OperationParts[k], sts[k], fuel + 1) == Some(sts[k + 1])
    {
      if k == 0 || k == 1 || k == 2 {
        LeadingLiterals(st, op, a, b, pa, pb, fuel - 1);
      } else if k == 3 {
        RefLookup("expr", sts[3], fuel);
      } else if k == 5 {
        RefLookup("expr", sts[5], fuel);
      } else {
        TrailingLiterals(st, op, a, b, pa, pb, fuel - 1);
      }
    }
  }

  /** The results of an operation's parts, mapped: the Operation node of the operator and the two operands. */
  lemma OperationResults(st: State, op: seq<Byte>, a: Value, b: Value, pa: nat, pb: nat)
    ensures var sts := Stages(st, op, a, b, pa, pb);
      sts[7].(results := ToOperation(List(CombinatorLaws.ChainResults(sts)))) == Ahead(st, 5 + pa + pb, Operation(op, a, b))
  {
    var sts := Stages(st, op, a, b, pa, pb);
    var items := CombinatorLaws.ChainResults(sts);
    assert items[1] == Value.Str(op) && items[3] == a && items[5] == b;
  }

  /**
   * The operation parser on the frame of an operation, given that each
   * operand's `expr` reads that operand: the seven parts in order, mapped to
   * the Operation node.
   */
  lemma OperationParserReads(st: State, op: seq<Byte>, a: Value, b: Value, pa: nat, pb: nat, fuel: nat)
    requires st.Valid() && !st.isError && Framed(st, op, pa, pb)
    requires var sts := Stages(st, op, a, b, pa, pb);
      fuel >= 1 &&
      Run(MicroGrammar, Expr, sts[3], fuel) == Some(sts[4]) &&
      Run(MicroGrammar, Expr, sts[5], fuel) == Some(sts[6])
    ensures Run(MicroGrammar, OperationParser, st, fuel + 3) == Some(Ahead(st, 5 + pa + pb, Operation(op, a, b)))
  {
    OperationChained(st, op, a, b, pa, pb, fuel);
    OperationMapped(st, op, a, b, pa, pb, fuel);
  }

  /** A chain of the operation's parts, mapped: the Operation node after the closing parenthesis. */
  lemma OperationMapped(st: State, op: seq<Byte>, a: Value, b: Value, pa: nat, pb: nat, fuel: nat)
    requires CombinatorLaws.Chained(MicroGrammar, OperationParts, Stages(st, op, a, b, pa, pb), fuel + 1)
    ensures Run(MicroGrammar, OperationParser, st, fuel + 3) == Some(Ahead(st, 5 + pa + pb, Operation(op, a, b)))
  {
    CombinatorLaws.MappedChain(MicroGrammar, OperationParts, ToOperation, Stages(st, op, a, b, pa, pb), fuel + 1);
    OperationResults(st, op, a, b, pa, pb);
  }

  /** The `operation` reference runs the operation parser. */
  lemma OperationReads(st: State, op: seq<Byte>, a: Value, b: Value, pa: nat, pb: nat, fuel: nat)
    requires st.Valid() && !st.isError && Framed(st, op, pa, pb)
    requires var sts := Stages(st, op, a, b, pa, pb);
      fuel >= 1 &&
      Run(MicroGrammar, Expr, sts[3], fuel) == Some(sts[4]) &&
      Run(MicroGrammar, Expr, sts[5], fuel) == Some(sts[6])
    ensures Run(MicroGrammar, Ref("operation"), st, fuel + 4) == Some(Ahead(st, 5 + pa + pb, Operation(op, a, b)))
  {
    OperationParserReads(st, op, a, b, pa, pb, fuel);
    RefLookup("operation", st, fuel + 3);
  }

  /** `expr` on the text of an integer: the integer alternative reads it into an Operand. */
  lemma ExprOperand(v: int, st: State, fuel: nat)
    requires st.Valid() && !st.isError && TextAt(st.input, st.index, Utils.IntegerText(v))
    ensures Run(MicroGrammar, Expr, st, fuel + 8) == Some(Ahead(st, |Utils.IntegerText(v)|, Operand(v)))
  {
    var g := MicroGrammar;
    var alts := [Map(Utils.Integer, ToOperand), Ref("operation")];
    assert Run(g, Expr, st, fuel + 8) == Alternatives(g, alts, 0, st, fuel + 7);
    Utils.IntegerReadsText(g, v, st, fuel);
    assert Run(g, alts[0], st, fuel + 7) == RunMap(g, Utils.Integer, ToOperand, st, fuel + 6);
  }

  /** `expr` on an opening parenthesis: the integer alternative fails and the operation alternative decides. */
  lemma ExprOperation(st: State, r: State, fuel: nat)
    requires st.Valid() && !st.isError && st.index < |st.input| && st.input[st.index] == '(' as int
    requires fuel >= 8 && Run(MicroGrammar, Ref("operation"), st, fuel - 1) == Some(r) && !r.isError
    ensures Run(MicroGrammar, Expr, st, fuel) == Some(r)
  {
    var g := MicroGrammar;
    var alts := [Map(Utils.Integer, ToOperand), Ref("operation")];
    assert Run(g, Expr, st, fuel) == Alternatives(g, alts, 0, st, fuel - 1);
    OperandRejectsOpen(g, st, fuel - 8);
    assert Alternatives(g, alts, 0, st, fuel - 1) == Alternatives(g, alts, 1, st, fuel - 1);
  }

  /** The stages of a printed operation. */
  function PrintedStages(n: Value, st: State): (sts: seq<State>)
    requires Tree(n) && n.Operation?
    ensures |sts| == 8
  {
    Stages(st, n.operation, n.operandA, n.operandB, |Print(n.operandA)|, |Print(n.operandB)|)
  }

  /** `expr` on a framed operation whose operands are read back: the `operation` alternative reads it. */
  lemma OperationExprReads(st: State, n: Value, len: nat, op: seq<Byte>, a: Value, b: Value, pa: nat, pb: nat, fuel: nat)
    requires st.Valid() && !st.isError && Framed(st, op, pa, pb)
    requires n == Operation(op, a, b) && len == 5 + pa + pb
    requires var sts := Stages(st, op, a, b, pa, pb);
      fuel >= 8 &&
      Run(MicroGrammar, Expr, sts[3], fuel - 5) == Some(sts[4]) &&
      Run(MicroGrammar, Expr, sts[5], fuel - 5) == Some(sts[6])
    ensures Run(MicroGrammar, Expr, st, fuel) == Some(Ahead(st, len, n))
  {
    OperationReads(st, op, a, b, pa, pb, fuel - 5);
    ExprOperation(st, Ahead(st, len, n), fuel);
  }

  /** `expr` on a printed operation whose operands are read back. */
  lemma PrintedOperationReads(n: Value, st: State, fuel: nat)
    requires st.Valid() && !st.isError && n.Operation? && PrintedAt(n, st) && fuel >= Need(n)
    requires var sts := PrintedStages(n, st);
      Run(MicroGrammar, Expr, sts[3], fuel - 5) == Some(sts[4]) &&
      Run(MicroGrammar, Expr, sts[5], fuel - 5) == Some(sts[6])
    ensures Run(MicroGrammar, Expr, st, fuel) == Some(Ahead(st, |Print(n)|, n))
  {
    LiteralsLayout(n, st);
    OperationExprReads(st, n, |Print(n)|, n.operation, n.operandA, n.operandB, |Print(n.operandA)|, |Print(n.operandB)|, fuel);
  }

  /** `expr` on a printed operand. */
  lemma OperandExprReads(n: Value, st: State, fuel: nat)
    requires st.Valid() && !st.isError && n.Operand? && PrintedAt(n, st) && fuel >= Need(n)
    ensures Run(MicroGrammar, Expr, st, fuel) == Some(Ahead(st, |Print(n)|, n))
  {
    ExprOperand(n.value, st, fuel - 8);
  }

  /** The first operand of a printed operation is read back. */
  lemma {:induction false} FirstOperandReads(n: Value, st: State, fuel: nat)
    requires st.Valid() && !st.isError && n.Operation? && PrintedAt(n, st) && fuel >= Need(n)
    ensures var sts := PrintedStages(n, st);
      sts[3].Valid() && Run(MicroGrammar, Expr, sts[3], fuel - 5) == Some(sts[4])
    decreases n, 0
  {
    FirstOperandLayout(n, st);
    ExprReadsPrinted(n.operandA, Ahead(st, 3, Value.Str(Blank)), fuel - 5);
  }

  /** The second operand of a printed operation is read back. */
  lemma {:induction false} SecondOperandReads(n: Value, st: State, fuel: nat)
    requires st.Valid() && !st.isError && n.Operation? && PrintedAt(n, st) && fuel >= Need(n)
    ensures var sts := PrintedStages(n, st);
      sts[5].Valid() && Run(MicroGrammar, Expr, sts[5], fuel - 5) == Some(sts[6])
    decreases n, 0
  {
    SecondOperandLayout(n, st);
    ExprReadsPrinted(n.operandB, Ahead(st, 4 + |Print(n.operandA)|, Value.Str(Blank)), fuel - 5);
  }

  /**
   * The grammar reads back the text of every tree: given at least the fuel
   * its nesting needs, `expr` on the printed tree ends right after it with
   * the tree itself as the result.
   */
  lemma {:induction false} ExprReadsPrinted(n: Value, st: State, fuel: nat)
    requires st.Valid() && !st.isError && PrintedAt(n, st) && fuel >= Need(n)
    ensures Run(MicroGrammar, Expr, st, fuel) == Some(Ahead(st, |Print(n)|, n))
    decreases n, 1
  {
    match n
    case Operand(v) =>
      OperandExprReads(n, st, fuel);
    case Operation(_, _, _) =>
      FirstOperandReads(n, st, fuel);
      SecondOperandReads(n, st, fuel);
      PrintedOperationReads(n, st, fuel);
  }

  /**
   * The interpreter on the text of a tree without a division by zero: the
   * whole text is read back into the tree, which evaluates to its value.
   */
  lemma InterpreterEvaluatesPrinted(n: Value, fuel: nat)
    requires Tree(n) && Divisible(n) && fuel >= Need(n)
    ensures Interpreter(Print(n), fuel) == Some(Evaluate(n))
  {
    var st := Parsing.InitialState(Print(n));
    assert st.input[0..|Print(n)|] == Print(n);
    ExprReadsPrinted(n, st, fuel);
  }

  /** The tree of the program's own input, (+ (* 10 2) (- (/ 50 3) 2)). */
  const ExampleTree: Value :=
    Operation(Add, Product, Difference)

  /** The four operators are four different one-byte texts. */
  lemma OperatorsDistinct()
    ensures Add in Operators && Subtract in Operators && Multiply in Operators && Divide in Operators
    ensures Add != Subtract && Add != Multiply && Add != Divide
    ensures Subtract != Multiply && Subtract != Divide && Multiply != Divide
  {
    assert Operators[0] == Add && Operators[1] == Subtract && Operators[2] == Multiply && Operators[3] == Divide;
    assert Add[0] != Subtract[0] && Add[0] != Multiply[0] && Add[0] != Divide[0];
    assert Subtract[0] != Multiply[0] && Subtract[0] != Divide[0] && Multiply[0] != Divide[0];
  }

  const Product: Value := Operation(Multiply, Operand(10), Operand(2))
  const Quotient: Value := Operation(Divide, Operand(50), Operand(3))
  const Difference: Value := Operation(Subtract, Quotient, Operand(2))

  /** The example tree is a tree without a division by zero; it needs 23 steps of fuel and evaluates to 34, since Go's 50 / 3 is 16. */
  lemma ExampleShape()
    ensures Tree(ExampleTree) && Divisible(ExampleTree)
    ensures Need(ExampleTree) == 23 && Evaluate(ExampleTree) == 34
  {
    OperatorsDistinct();
    assert Tree(Value.Operand(10)) && Tree(Value.Operand(2)) && Tree(Value.Operand(50)) && Tree(Value.Operand(3));
    assert Tree(Product);
    assert Tree(Quotient);
    assert Tree(Difference);
    assert Divisible(Value.Operand(10)) && Divisible(Value.Operand(2)) && Divisible(Value.Operand(50)) && Divisible(Value.Operand(3));
    assert Evaluate(Value.Operand(3)) == 3 && Evaluate(Value.Operand(50)) == 50;
    assert Evaluate(Value.Operand(10)) == 10 && Evaluate(Value.Operand(2)) == 2;
    assert Divisible(Product);
    assert Divisible(Quotient);
    assert Divisible(Difference);
    assert Evaluate(Quotient) == 16 && Evaluate(Difference) == 14 && Evaluate(Product) == 20;
    assert Need(Quotient) == 13 && Need(Difference) == 18 && Need(Product) == 13;
  }

  /** Each subtree prints as its part of the program's input. */
  lemma SubtreeTexts()
    ensures Tree(Product) && Print(Product) == Ascii("(* 10 2)")
    ensures Tree(Quotient) && Print(Quotient) == Ascii("(/ 50 3)")
  {
    OperatorsDistinct();
    assert Utils.IntegerText(10) == Ascii("10");
    assert Utils.IntegerText(50) == Ascii("50");
  }

  lemma DifferenceText()
    ensures Tree(Difference) && Print(Difference) == Ascii("(- (/ 50 3) 2)")
  {
    ExampleShape();
    SubtreeTexts();
    assert Print(Difference) == Open + Subtract + Blank + Print(Quotient) + Blank + Print(Value.Operand(2)) + Close;
    assert Open + Subtract + Blank == Ascii("(- ");
    assert Blank + Print(Value.Operand(2)) + Close == Ascii(" 2)");
    DifferencePieces();
  }

  /** The difference's text in the pieces its tree prints. */
  lemma DifferencePieces()
    ensures Ascii("(- (/ 50 3) 2)") == Ascii("(- ") + Ascii("(/ 50 3)") + Ascii(" 2)")
  {
  }

  /** The program's input in the pieces its tree prints. */
  lemma ProgramPieces()
    ensures Ascii("(+ (* 10 2) (- (/ 50 3) 2))") ==
      Ascii("(+ ") + Ascii("(* 10 2)") + Ascii(" ") + Ascii("(- (/ 50 3) 2)") + Ascii(")")
  {
  }

  /** The example tree prints as the program's own input. */
  lemma ExampleText()
    ensures Tree(ExampleTree) && Print(ExampleTree) == Ascii("(+ (* 10 2) (- (/ 50 3) 2))")
  {
    ExampleShape();
    SubtreeTexts();
    DifferenceText();
    ProgramPieces();
    assert Print(ExampleTree) == Open + Add + Blank + Print(Product) + Blank + Print(Difference) + Close;
    assert Open + Add + Blank == Ascii("(+ ");
    assert Blank == Ascii(" ") && Close == Ascii(")");
  }

  /** The program's own input reads into its tree and evaluates to 34. */
  lemma ExampleEvaluates()
    ensures Interpreter(Ascii("(+ (* 10 2) (- (/ 50 3) 2))"), 23) == Some(34)
  {
    ExampleShape();
    ExampleText();
    InterpreterEvaluatesPrinted(ExampleTree, 23);
  }

  /**
   * The arithmetic wraps as Go's does: 2^32 * 2^32 is 0, the largest int64
   * plus one is the smallest, and the smallest divided by -1 is itself.
   */
  lemma EvaluateWraps()
    ensures Evaluate(Operation(Multiply, Operand(0x1_0000_0000), Operand(0x1_0000_0000))) == 0
    ensures Evaluate(Operation(Add, Operand(MaxInt64), Operand(1))) == MinInt64
    ensures Divisible(Operation(Divide, Operand(MinInt64), Operand(-1)))
    ensures Evaluate(Operation(Divide, Operand(MinInt64), Operand(-1))) == MinInt64
  {
    OperatorsDistinct();
    assert GoDiv(MinInt64, -1) == -MinInt64;
  }
}
