/**
 * The combinator engine of combinators.go, maps.go and parser.go, as a deep
 * embedding: a datatype of parsers, a functional interpreter `Run` that
 * specifies what each Go closure returns, and the imperative `Exec` methods
 * that follow the Go loops and are proved to compute `Run`.
 *
 * Go's parsers may loop forever (a repetition of a child that succeeds
 * without consuming input) and may be recursive through forward-declared
 * variables. The interpreter therefore takes `fuel`: it bounds the depth of
 * nested parser calls and the number of iterations of every loop, and
 * `None` means that the bound was reached (or that a reference was unbound).
 */
module Combinators {
  import opened Wrappers
  import opened Utf8
  import opened ParserState
  import Primitives
  import Conditionals

  /**
   * A parser. Each constructor is one of the Go constructors; the closures
   * of the Go code (rune predicates, mappers, error mappers, parser makers)
   * are Dafny functions. `Ref` is a forward-declared parser variable, looked
   * up in the grammar when the parser runs.
   */
  datatype Parser =
    | Char(s: seq<Byte>)
    | Str(s: seq<Byte>)
    | StartOfInput
    | EndOfInput
    | Cond(pred: int -> bool)
    | CondMin(pred: int -> bool, min: int)
    | CondMinMax(pred: int -> bool, min: int, max: int)
    | SequenceOf(parsers: seq<Parser>)
    | Choice(parsers: seq<Parser>)
    | Count(parser: Parser, count: int)
    | CountMin(parser: Parser, min: int)
    | CountMinMax(parser: Parser, min: int, max: int)
    | ZeroOrOne(parser: Parser)
    | ZeroOrMore(parser: Parser)
    | OneOrMore(parser: Parser)
    | Map(parser: Parser, mapper: Value -> Value)
    | ErrorMap(parser: Parser, mapperFn: State -> Err)
    | Chain(parser: Parser, parserMakerFn: Value -> Parser)
    | Ref(name: string)

  /** The forward-declared parser variables of a grammar and what they are bound to. */
  type Grammar = map<string, Parser>

  /**
   * What every parser guarantees about the state `r` it returns for `st`:
   * the same input, a cursor that does not move back, a failure that keeps
   * the incoming cursor and result, an error that is never cleared, and a
   * consistent state staying consistent.
   */
  predicate Continues(st: State, r: State) {
    && r.Valid() && r.input == st.input && st.index <= r.index
    && (r.isError ==> r.index == st.index && r.results == st.results)
    && (st.isError ==> r.isError)
    && (st.Consistent() ==> r.Consistent())
  }

  /** The optional bound of a repetition loop: `Some(max)` for Count and CountMinMax. */
  predicate AtBound(max: Option<int>, found: nat) {
    max.Some? && found >= max.value
  }

  /**
   * The state the parser `p` returns for `st`, or `None` when `fuel` runs
   * out. Every parser but ErrorMap (and a reference to one) returns an
   * errored incoming state unchanged.
   */
  function Run(g: Grammar, p: Parser, st: State, fuel: nat): (r: Option<State>)
    requires st.Valid()
    ensures r.Some? ==> Continues(st, r.value)
    decreases fuel, 0
  {
    if fuel == 0 then None
    else match p
      case Char(s) => Some(Primitives.Char(s, st))
      case Str(s) => Some(Primitives.Str(s, st))
      case StartOfInput => Some(Primitives.StartOfInput(st))
      case EndOfInput => Some(Primitives.EndOfInput(st))
      case Cond(q) => Some(Conditionals.Cond(q, st))
      case CondMin(q, min) => Some(Conditionals.CondMin(q, min, st))
      case CondMinMax(q, min, max) => Some(Conditionals.CondMinMax(q, min, max, st))
      case SequenceOf(ps) => RunSequenceOf(g, ps, st, fuel - 1)
      case Choice(ps) => RunChoice(g, ps, st, fuel - 1)
      case Count(c, n) => RunCount(g, c, n, st, fuel - 1)
      case CountMin(c, min) => RunCountMin(g, c, min, st, fuel - 1)
      case CountMinMax(c, min, max) => RunCountMinMax(g, c, min, max, st, fuel - 1)
      case ZeroOrOne(c) => RunZeroOrOne(g, c, st, fuel - 1)
      case ZeroOrMore(c) => RunZeroOrMore(g, c, st, fuel - 1)
      case OneOrMore(c) => RunOneOrMore(g, c, st, fuel - 1)
      case Map(c, f) => RunMap(g, c, f, st, fuel - 1)
      case ErrorMap(c, h) => RunErrorMap(g, c, h, st, fuel - 1)
      case Chain(c, mk) => RunChain(g, c, mk, st, fuel - 1)
      case Ref(name) => if name in g then Run(g, g[name], st, fuel - 1) else None
  }

  /** The closure of SequenceOf (combinators.go). */
  function RunSequenceOf(g: Grammar, ps: seq<Parser>, st: State, fuel: nat): (r: Option<State>)
    requires st.Valid()
    ensures r.Some? ==> Continues(st, r.value)
    decreases fuel, 2
  {
    if st.isError then Some(st) else Sequence(g, ps, 0, st, st, [], fuel)
  }

  /** The closure of Choice. */
  function RunChoice(g: Grammar, ps: seq<Parser>, st: State, fuel: nat): (r: Option<State>)
    requires st.Valid()
    ensures r.Some? ==> Continues(st, r.value)
    decreases fuel, 2
  {
    if st.isError then Some(st) else Alternatives(g, ps, 0, st, fuel)
  }

  /**
   * The closure of Count: exactly `n` results. A failure returns the error
   * of Go's never-assigned outer `testState`, which is nil.
   */
  function RunCount(g: Grammar, c: Parser, n: int, st: State, fuel: nat): (r: Option<State>)
    requires st.Valid()
    ensures r.Some? ==> Continues(st, r.value)
    decreases fuel, 2
  {
    if st.isError then Some(st)
    else match Repeat(g, c, Some(n), st, [], fuel, fuel)
      case None => None
      case Some((rs, next)) =>
        if |rs| != n then Some(UpdateError(st, NoErr))
        else Some(UpdateState(next, next.index, List(rs)))
  }

  /** The closure of CountMin: at least `min` results; the failure is as Count's. */
  function RunCountMin(g: Grammar, c: Parser, min: int, st: State, fuel: nat): (r: Option<State>)
    requires st.Valid()
    ensures r.Some? ==> Continues(st, r.value)
    decreases fuel, 2
  {
    if st.isError then Some(st)
    else match Repeat(g, c, None, st, [], fuel, fuel)
      case None => None
      case Some((rs, next)) =>
        if |rs| < min then Some(UpdateError(st, NoErr))
        else Some(UpdateState(next, next.index, List(rs)))
  }

  /** The closure of CountMinMax: at most `max` results, failing below `min`; the failure is as Count's. */
  function RunCountMinMax(g: Grammar, c: Parser, min: int, max: int, st: State, fuel: nat): (r: Option<State>)
    requires st.Valid()
    ensures r.Some? ==> Continues(st, r.value)
    decreases fuel, 2
  {
    if st.isError then Some(st)
    else match Repeat(g, c, Some(max), st, [], fuel, fuel)
      case None => None
      case Some((rs, next)) =>
        if |rs| < min then Some(UpdateError(st, NoErr))
        else Some(UpdateState(next, next.index, List(rs)))
  }

  /**
   * The closure of ZeroOrOne: a failing child gives a nil result at the
   * failed child's cursor (which is the incoming one).
   */
  function RunZeroOrOne(g: Grammar, c: Parser, st: State, fuel: nat): (r: Option<State>)
    requires st.Valid()
    ensures r.Some? ==> Continues(st, r.value)
    decreases fuel, 2
  {
    if st.isError then Some(st)
    else match Run(g, c, st, fuel)
      case None => None
      case Some(t) => if t.isError then Some(UpdateState(st, t.index, Nil)) else Some(t)
  }

  /** The closure of ZeroOrMore. */
  function RunZeroOrMore(g: Grammar, c: Parser, st: State, fuel: nat): (r: Option<State>)
    requires st.Valid()
    ensures r.Some? ==> Continues(st, r.value)
    decreases fuel, 2
  {
    if st.isError then Some(st)
    else match Repeat(g, c, None, st, [], fuel, fuel)
      case None => None
      case Some((rs, next)) => Some(UpdateState(next, next.index, List(rs)))
  }

  /**
   * The closure of OneOrMore. With no match, the error value is the one of
   * the loop's last successful state, which then is the incoming state.
   */
  function RunOneOrMore(g: Grammar, c: Parser, st: State, fuel: nat): (r: Option<State>)
    requires st.Valid()
    ensures r.Some? ==> Continues(st, r.value)
    decreases fuel, 2
  {
    if st.isError then Some(st)
    else match Repeat(g, c, None, st, [], fuel, fuel)
      case None => None
      case Some((rs, next)) =>
        if |rs| == 0 then Some(UpdateError(st, next.err))
        else Some(UpdateState(next, next.index, List(rs)))
  }

  /** The closure of Map (maps.go, and the Map method of parser.go). */
  function RunMap(g: Grammar, c: Parser, f: Value -> Value, st: State, fuel: nat): (r: Option<State>)
    requires st.Valid()
    ensures r.Some? ==> Continues(st, r.value)
    decreases fuel, 2
  {
    if st.isError then Some(st)
    else match Run(g, c, st, fuel)
      case None => None
      case Some(t) => if t.isError then Some(t) else Some(UpdateState(t, t.index, f(t.results)))
  }

  /** The closure of ErrorMap; it has no guard for an errored incoming state. */
  function RunErrorMap(g: Grammar, c: Parser, h: State -> Err, st: State, fuel: nat): (r: Option<State>)
    requires st.Valid()
    ensures r.Some? ==> Continues(st, r.value)
    decreases fuel, 2
  {
    match Run(g, c, st, fuel)
    case None => None
    case Some(t) => if !t.isError then Some(t) else Some(UpdateError(t, h(t)))
  }

  /**
   * The closure of Chain (combinators.go, and the Chain method of
   * parser.go): the second stage's whole state becomes the result, and its
   * failure is not propagated.
   */
  function RunChain(g: Grammar, c: Parser, mk: Value -> Parser, st: State, fuel: nat): (r: Option<State>)
    requires st.Valid()
    ensures r.Some? ==> Continues(st, r.value)
    decreases fuel, 2
  {
    if st.isError then Some(st)
    else match Run(g, c, st, fuel)
      case None => None
      case Some(t) =>
        if t.isError then Some(t)
        else match Run(g, mk(t.results), t, fuel)
          case None => None
          case Some(u) => Some(UpdateState(t, t.index, Nested(u)))
  }

  /**
   * SequenceOf's loop from child `i` on: `next` is the previous child's
   * output and `results` the children's results so far; the first failing
   * child makes the whole sequence fail on the incoming state `st`.
   */
  function Sequence(g: Grammar, ps: seq<Parser>, i: nat, st: State, next: State, results: seq<Value>, fuel: nat): (r: Option<State>)
    requires i <= |ps| && st.Valid() && !st.isError && Continues(st, next) && !next.isError
    ensures r.Some? ==> Continues(st, r.value)
    decreases fuel, 1, |ps| - i
  {
    if i == |ps| then Some(UpdateState(next, next.index, List(results)))
    else match Run(g, ps[i], next, fuel)
      case None => None
      case Some(t) =>
        if t.isError then Some(UpdateError(st, t.err))
        else Sequence(g, ps, i + 1, st, t, results + [t.results], fuel)
  }

  /** Choice's loop from alternative `i` on: each one runs on the incoming state. */
  function Alternatives(g: Grammar, ps: seq<Parser>, i: nat, st: State, fuel: nat): (r: Option<State>)
    requires i <= |ps| && st.Valid() && !st.isError
    ensures r.Some? ==> Continues(st, r.value)
    decreases fuel, 1, |ps| - i
  {
    if i == |ps| then Some(UpdateError(st, Error(NoAlternative, st.index)))
    else match Run(g, ps[i], st, fuel)
      case None => None
      case Some(t) => if !t.isError then Some(t) else Alternatives(g, ps, i + 1, st, fuel)
  }

  /**
   * The loop shared by Count, CountMin, CountMinMax, ZeroOrMore and
   * OneOrMore: run the child on the last successful state until it fails
   * or, with a bound, until `max` results are collected. The child runs once
   * more after the bound is reached, as in Go, and that run is discarded.
   * `k` is the number of iterations the fuel still allows.
   */
  function Repeat(g: Grammar, c: Parser, max: Option<int>, next: State, results: seq<Value>, fuel: nat, k: nat): (r: Option<(seq<Value>, State)>)
    requires next.Valid() && !next.isError
    ensures r.Some? ==> Continues(next, r.value.1) && !r.value.1.isError
    ensures r.Some? ==> |results| <= |r.value.0| && r.value.0[..|results|] == results
    ensures r.Some? && max.Some? && |results| <= max.value ==> |r.value.0| <= max.value
    ensures r.Some? && |r.value.0| == |results| ==> r.value.1 == next
    ensures r.Some? && |r.value.0| > |results| ==> r.value.1.results == r.value.0[|r.value.0| - 1]
    ensures r.Some? && AtBound(max, |results|) ==> r.value.0 == results
    decreases fuel, 1, k
  {
    if k == 0 then None
    else match Run(g, c, next, fuel)
      case None => None
      case Some(t) =>
        if t.isError || AtBound(max, |results|) then Some((results, next))
        else Repeat(g, c, max, t, results + [t.results], fuel, k - 1)
  }

  /** The mapper of Between: the second item of SequenceOf's result list. */
  function SecondItem(v: Value): (r: Value)
    ensures v.List? && |v.items| >= 2 ==> r == v.items[1]
  {
    // The Go type assertion panics on other values; they do not come out of a SequenceOf of three.
    if v.List? && |v.items| >= 2 then v.items[1] else Nil
  }

  /** Between(left, right)(content): the three in sequence, keeping the content's result. */
  function Between(left: Parser, right: Parser, content: Parser): Parser {
    Map(SequenceOf([left, content, right]), SecondItem)
  }

  /*
   * The closures as Go runs them: straight-line code and the loops of
   * combinators.go, each proved to return what the interpreter specifies.
   */

  /** A parser's closure, called on a state. */
  method Exec(g: Grammar, p: Parser, st: State, fuel: nat) returns (r: Option<State>)
    requires st.Valid()
    ensures r == Run(g, p, st, fuel)
    decreases fuel, 1
  {
    if fuel == 0 {
      r := None;
    } else if p.Char? || p.Str? || p.StartOfInput? || p.EndOfInput? || p.Cond? || p.CondMin? || p.CondMinMax? {
      r := ExecPrimitive(p, st, fuel);
    } else if p.Count? || p.CountMin? || p.CountMinMax? || p.ZeroOrOne? || p.ZeroOrMore? || p.OneOrMore? {
      r := ExecRepetition(g, p, st, fuel);
    } else {
      r := ExecComposition(g, p, st, fuel);
    }
  }

  /** The closures of the repetition combinators. */
  method ExecRepetition(g: Grammar, p: Parser, st: State, fuel: nat) returns (r: Option<State>)
    requires st.Valid() && fuel > 0
    requires p.Count? || p.CountMin? || p.CountMinMax? || p.ZeroOrOne? || p.ZeroOrMore? || p.OneOrMore?
    ensures r == Run(g, p, st, fuel)
    decreases fuel, 0
  {
    match p {
      case Count(c, n) => r := ExecCount(g, c, n, st, fuel - 1);
      case CountMin(c, min) => r := ExecCountMin(g, c, min, st, fuel - 1);
      case CountMinMax(c, min, max) => r := ExecCountMinMax(g, c, min, max, st, fuel - 1);
      case ZeroOrOne(c) => r := ExecZeroOrOne(g, c, st, fuel - 1);
      case ZeroOrMore(c) => r := ExecZeroOrMore(g, c, st, fuel - 1);
      case OneOrMore(c) => r := ExecOneOrMore(g, c, st, fuel - 1);
    }
  }

  /** The closures of sequence, choice, the maps, Chain, and a reference's lookup. */
  method ExecComposition(g: Grammar, p: Parser, st: State, fuel: nat) returns (r: Option<State>)
    requires st.Valid() && fuel > 0
    requires p.SequenceOf? || p.Choice? || p.Map? || p.ErrorMap? || p.Chain? || p.Ref?
    ensures r == Run(g, p, st, fuel)
    decreases fuel, 0
  {
    match p {
      case SequenceOf(ps) => r := ExecSequenceOf(g, ps, st, fuel - 1);
      case Choice(ps) => r := ExecChoice(g, ps, st, fuel - 1);
      case Map(c, f) => r := ExecMap(g, c, f, st, fuel - 1);
      case ErrorMap(c, h) => r := ExecErrorMap(g, c, h, st, fuel - 1);
      case Chain(c, mk) => r := ExecChain(g, c, mk, st, fuel - 1);
      case Ref(name) =>
        if name in g { r := Exec(g, g[name], st, fuel - 1); } else { r := None; }
    }
  }

  /** The primitives' closures; those of CondMin and CondMinMax loop over the runes. */
  method ExecPrimitive(p: Parser, st: State, fuel: nat) returns (r: Option<State>)
    requires st.Valid() && fuel > 0
    requires p.Char? || p.Str? || p.StartOfInput? || p.EndOfInput? || p.Cond? || p.CondMin? || p.CondMinMax?
    ensures forall g :: r == Run(g, p, st, fuel)
  {
    match p {
      case Char(s) => r := Some(Primitives.Char(s, st));
      case Str(s) => r := Some(Primitives.Str(s, st));
      case StartOfInput => r := Some(Primitives.StartOfInput(st));
      case EndOfInput => r := Some(Primitives.EndOfInput(st));
      case Cond(q) => r := Some(Conditionals.Cond(q, st));
      case CondMin(q, min) =>
        var t := Conditionals.ScanCondMin(q, min, st);
        r := Some(t);
      case CondMinMax(q, min, max) =>
        var t := Conditionals.ScanCondMinMax(q, min, max, st);
        r := Some(t);
    }
  }

  /** SequenceOf's loop over its children, returning early at the first failure. */
  method ExecSequenceOf(g: Grammar, ps: seq<Parser>, st: State, fuel: nat) returns (r: Option<State>)
    requires st.Valid()
    ensures r == RunSequenceOf(g, ps, st, fuel)
    decreases fuel, 3
  {
    if st.isError { return Some(st); }
    var results: seq<Value> := [];
    var next := st;
    var i := 0;
    while i < |ps|
      invariant i <= |ps| && Continues(st, next) && !next.isError
      invariant Sequence(g, ps, i, st, next, results, fuel) == Sequence(g, ps, 0, st, st, [], fuel)
    {
      var t := Exec(g, ps[i], next, fuel);
      if t.None? { return None; }
      if t.value.isError { return Some(UpdateError(st, t.value.err)); }
      results := results + [t.value.results];
      next := t.value;
      i := i + 1;
    }
    return Some(UpdateState(next, next.index, List(results)));
  }

  /** Choice's loop over its alternatives, returning the first success. */
  method ExecChoice(g: Grammar, ps: seq<Parser>, st: State, fuel: nat) returns (r: Option<State>)
    requires st.Valid()
    ensures r == RunChoice(g, ps, st, fuel)
    decreases fuel, 3
  {
    if st.isError { return Some(st); }
    var i := 0;
    while i < |ps|
      invariant i <= |ps|
      invariant Alternatives(g, ps, i, st, fuel) == Alternatives(g, ps, 0, st, fuel)
    {
      var t := Exec(g, ps[i], st, fuel);
      if t.None? { return None; }
      if !t.value.isError { return t; }
      i := i + 1;
    }
    return Some(UpdateError(st, Error(NoAlternative, st.index)));
  }

  /**
   * The repetition loop of Count, CountMin, CountMinMax, ZeroOrMore and
   * OneOrMore: the child's results and the last successful state.
   */
  method ExecRepeat(g: Grammar, c: Parser, max: Option<int>, st: State, fuel: nat) returns (r: Option<(seq<Value>, State)>)
    requires st.Valid() && !st.isError
    ensures r == Repeat(g, c, max, st, [], fuel, fuel)
    decreases fuel, 2
  {
    var results: seq<Value> := [];
    var next := st;
    var k := fuel;
    while true
      invariant next.Valid() && !next.isError
      invariant Repeat(g, c, max, next, results, fuel, k) == Repeat(g, c, max, st, [], fuel, fuel)
      decreases k
    {
      if k == 0 { return None; }
      var t := Exec(g, c, next, fuel);
      if t.None? { return None; }
      var testState := t.value;
      assert Repeat(g, c, max, next, results, fuel, k) ==
        if testState.isError || AtBound(max, |results|) then Some((results, next))
        else Repeat(g, c, max, testState, results + [testState.results], fuel, k - 1);
      if testState.isError || AtBound(max, |results|) { return Some((results, next)); }
      results := results + [testState.results];
      next := testState;
      k := k - 1;
    }
  }

  method ExecCount(g: Grammar, c: Parser, n: int, st: State, fuel: nat) returns (r: Option<State>)
    requires st.Valid()
    ensures r == RunCount(g, c, n, st, fuel)
    decreases fuel, 3
  {
    if st.isError { return Some(st); }
    var loop := ExecRepeat(g, c, Some(n), st, fuel);
    if loop.None? { return None; }
    var (rs, next) := loop.value;
    if |rs| != n { return Some(UpdateError(st, NoErr)); }
    return Some(UpdateState(next, next.index, List(rs)));
  }

  method ExecCountMin(g: Grammar, c: Parser, min: int, st: State, fuel: nat) returns (r: Option<State>)
    requires st.Valid()
    ensures r == RunCountMin(g, c, min, st, fuel)
    decreases fuel, 3
  {
    if st.isError { return Some(st); }
    var loop := ExecRepeat(g, c, None, st, fuel);
    if loop.None? { return None; }
    var (rs, next) := loop.value;
    if |rs| < min { return Some(UpdateError(st, NoErr)); }
    return Some(UpdateState(next, next.index, List(rs)));
  }

  method ExecCountMinMax(g: Grammar, c: Parser, min: int, max: int, st: State, fuel: nat) returns (r: Option<State>)
    requires st.Valid()
    ensures r == RunCountMinMax(g, c, min, max, st, fuel)
    decreases fuel, 3
  {
    if st.isError { return Some(st); }
    var loop := ExecRepeat(g, c, Some(max), st, fuel);
    if loop.None? { return None; }
    var (rs, next) := loop.value;
    if |rs| < min { return Some(UpdateError(st, NoErr)); }
    return Some(UpdateState(next, next.index, List(rs)));
  }

  method ExecZeroOrOne(g: Grammar, c: Parser, st: State, fuel: nat) returns (r: Option<State>)
    requires st.Valid()
    ensures r == RunZeroOrOne(g, c, st, fuel)
    decreases fuel, 3
  {
    if st.isError { return Some(st); }
    var t := Exec(g, c, st, fuel);
    if t.None? { return None; }
    if t.value.isError { return Some(UpdateState(st, t.value.index, Nil)); }
    return t;
  }

  method ExecZeroOrMore(g: Grammar, c: Parser, st: State, fuel: nat) returns (r: Option<State>)
    requires st.Valid()
    ensures r == RunZeroOrMore(g, c, st, fuel)
    decreases fuel, 3
  {
    if st.isError { return Some(st); }
    var loop := ExecRepeat(g, c, None, st, fuel);
    if loop.None? { return None; }
    var (rs, next) := loop.value;
    return Some(UpdateState(next, next.index, List(rs)));
  }

  method ExecOneOrMore(g: Grammar, c: Parser, st: State, fuel: nat) returns (r: Option<State>)
    requires st.Valid()
    ensures r == RunOneOrMore(g, c, st, fuel)
    decreases fuel, 3
  {
    if st.isError { return Some(st); }
    var loop := ExecRepeat(g, c, None, st, fuel);
    if loop.None? { return None; }
    var (rs, next) := loop.value;
    if |rs| == 0 { return Some(UpdateError(st, next.err)); }
    return Some(UpdateState(next, next.index, List(rs)));
  }

  method ExecMap(g: Grammar, c: Parser, f: Value -> Value, st: State, fuel: nat) returns (r: Option<State>)
    requires st.Valid()
    ensures r == RunMap(g, c, f, st, fuel)
    decreases fuel, 3
  {
    if st.isError { return Some(st); }
    var t := Exec(g, c, st, fuel);
    if t.None? || t.value.isError { return t; }
    return Some(UpdateState(t.value, t.value.index, f(t.value.results)));
  }

  method ExecErrorMap(g: Grammar, c: Parser, h: State -> Err, st: State, fuel: nat) returns (r: Option<State>)
    requires st.Valid()
    ensures r == RunErrorMap(g, c, h, st, fuel)
    decreases fuel, 3
  {
    var t := Exec(g, c, st, fuel);
    if t.None? || !t.value.isError { return t; }
    return Some(UpdateError(t.value, h(t.value)));
  }

  method ExecChain(g: Grammar, c: Parser, mk: Value -> Parser, st: State, fuel: nat) returns (r: Option<State>)
    requires st.Valid()
    ensures r == RunChain(g, c, mk, st, fuel)
    decreases fuel, 3
  {
    if st.isError { return Some(st); }
    var t := Exec(g, c, st, fuel);
    if t.None? || t.value.isError { return t; }
    var nextParser := mk(t.value.results);
    var u := Exec(g, nextParser, t.value, fuel);
    if u.None? { return None; }
    return Some(UpdateState(t.value, t.value.index, Nested(u.value)));
  }
}
