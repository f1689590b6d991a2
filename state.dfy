/**
 * The parse state of state.go: the input, a byte cursor, the last result and
 * the error flag, with the cursor arithmetic and the copy-and-update helpers.
 */
module ParserState {
  import opened Utf8

  /** What went wrong; the message text of the Go errors is not modelled. */
  datatype ErrKind =
    | WrongArgument   // an argument the parser cannot work with (Char of a longer string, min > max)
    | UnexpectedEnd   // more input was needed
    | NoMatch         // the input did not match
    | NotAtStart      // StartOfInput away from index 0
    | NotAtEnd        // EndOfInput before the end
    | TooFewMatches   // a repetition found fewer than its minimum
    | NoAlternative   // no alternative of a Choice matched
    | Custom(code: nat) // an error built by a caller's ErrorMap function

  /** Go's `error`: nil, or an error value with the index it reports. */
  datatype Err = NoErr | Error(kind: ErrKind, at: nat)

  /**
   * Go's `Result` (an `any`): the shapes the engine and the grammars of this
   * model produce. The last group are the record types of the two tutorial grammars.
   */
  datatype Value =
    | Nil
    | Str(s: seq<Byte>)
    | Int(i: int)
    | List(items: seq<Value>)
    | Nested(state: State)                          // Chain's result: the whole state of its second stage
    | Operand(value: int)                           // micro-language: Operand{"INTEGER", Value}
    | Operation(operation: seq<Byte>, operandA: Value, operandB: Value)  // micro-language: Operation{"OPERATION", ...}
    | Number(raw: Value)                            // formula: Number{"NUMBER", ...}; raw is the value before the float conversion
    | Constant(name: seq<Byte>)                     // formula: Constant{"CONSTANT", Name}
    | Operator(symbol: seq<Byte>)                   // formula: Operator{"OPERATOR", Value}
    | Term(operandA: Value, operator: Value, operandB: Value)        // formula: Term{"TERM", ...}
    | Expression(operandA: Value, operator: Value, operandB: Value)  // formula: Expression{"EXPRESSION", ...}

  /** ParserState. The Go struct shares the input by reference; here it is a value. */
  datatype State = State(input: seq<Byte>, results: Value, index: nat, err: Err, isError: bool) {
    /** The cursor is inside the input; slicing the remaining input does not panic. */
    predicate Valid() { index <= |input| }
    /** A state that is not an error carries no error value. */
    predicate Consistent() { !isError ==> err == NoErr }
  }

  /** NewParserState: the error flag is set exactly when an error value is given. */
  function NewParserState(input: seq<Byte>, result: Value, index: nat, err: Err): (st: State)
    ensures st.isError <==> err != NoErr
    ensures st.input == input && st.results == result && st.index == index && st.err == err
    ensures st.Consistent()
  {
    State(input, result, index, err, err != NoErr)
  }

  /** Remaining: the unconsumed input. */
  function Remaining(st: State): (rest: seq<Byte>)
    requires st.Valid()
    ensures |rest| == |st.input| - st.index
  {
    st.input[st.index..]
  }

  /** The consumed and the remaining input make up the whole input. */
  lemma RemainingSplits(st: State)
    requires st.Valid()
    ensures st.input[..st.index] + Remaining(st) == st.input
  {
  }

  /** AtTheEnd: the cursor is at (or past) the end of the input. */
  function AtTheEnd(st: State): (b: bool)
    ensures st.Valid() ==> (b <==> |Remaining(st)| == 0)
  {
    st.index >= |st.input|
  }

  /** Consume: a copy with the cursor moved `n` bytes forward and nothing else changed. */
  function Consume(st: State, n: nat): (r: State)
    ensures r.index == st.index + n
    ensures r.input == st.input && r.results == st.results && r.err == st.err && r.isError == st.isError
  {
    st.(index := st.index + n)
  }

  /**
   * NextRune: the first rune of the remaining input and the state that has
   * consumed its encoded bytes.
   */
  function NextRune(st: State): (res: (int, State))
    requires st.Valid()
    ensures res.0 == DecodeRune(Remaining(st)).0
    ensures res.1 == Consume(st, DecodeRune(Remaining(st)).1) && res.1.Valid()
    ensures AtTheEnd(st) <==> res.1.index == st.index
    ensures res.0 != RuneError ==> EncodeRune(res.0) == st.input[st.index..res.1.index]
  {
    var rest := Remaining(st);
    var (r, w) := DecodeRune(rest);
    if r == RuneError then (r, Consume(st, w))
    else
      EncodeDecode(rest);
      assert rest[..w] == st.input[st.index..st.index + w];
      (r, Consume(st, w))
  }

  /** The number of occurrences of byte `b` in `s` (strings.Count with a one-byte separator). */
  function CountByte(s: seq<Byte>, b: Byte): (n: nat)
    ensures n == multiset(s)[b]
    ensures n <= |s|
    ensures n == 0 <==> b !in s
  {
    if s == [] then 0
    else
      assert s == s[..|s| - 1] + [s[|s| - 1]];
      CountByte(s[..|s| - 1], b) + (if s[|s| - 1] == b then 1 else 0)
  }

  /** strings.LastIndex with a one-byte separator: the last position of `b`, or -1. */
  function LastIndexByte(s: seq<Byte>, b: Byte): (k: int)
    ensures -1 <= k < |s|
    ensures k >= 0 ==> s[k] == b
    ensures forall j :: k < j < |s| ==> s[j] != b
  {
    if s == [] then -1 else if s[|s| - 1] == b then |s| - 1 else LastIndexByte(s[..|s| - 1], b)
  }

  const Newline: Byte := 10

  /** IndexRowCol: 1-based row and column of the cursor. */
  function IndexRowCol(st: State): (rc: (int, int))
    requires st.Valid()
    ensures rc.0 >= 1 && 1 <= rc.1 <= st.index + 1
    ensures Newline !in st.input[..st.index] ==> rc == (1, st.index + 1)
  {
    var consumed := st.input[0..st.index];
    (CountByte(consumed, Newline) + 1, st.index - LastIndexByte(consumed, Newline))
  }

  /**
   * Moving the cursor over one byte moves the column one step right, or, over
   * a newline, starts the next row at column 1.
   */
  lemma {:induction false} IndexRowColStep(st: State)
    requires st.index < |st.input|
    ensures var (row, col) := IndexRowCol(st);
            IndexRowCol(st.(index := st.index + 1)) ==
              if st.input[st.index] == Newline then (row + 1, 1) else (row, col + 1)
  {
    var pre := st.input[0..st.index];
    var pre' := st.input[0..st.index + 1];
    assert pre'[..|pre'| - 1] == pre;
  }

  /**
   * updateParserState: a copy with the index and the result replaced; the
   * error flag and the error value are those of `st`.
   */
  function UpdateState(st: State, index: nat, result: Value): (r: State)
    ensures r.index == index && r.results == result
    ensures r.input == st.input && r.isError == st.isError && r.err == st.err
  {
    st.(index := index, results := result)
  }

  /**
   * updateParserError: a copy marked as failed with `err`; the index and the
   * result stay, so a failure never moves the cursor.
   */
  function UpdateError(st: State, err: Err): (r: State)
    ensures r.isError && r.err == err
    ensures r.input == st.input && r.index == st.index && r.results == st.results
  {
    st.(isError := true, err := err)
  }
}
