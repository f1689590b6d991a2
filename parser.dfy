/**
 * parser.go: the entry point Parse and the names the constructors give
 * their parsers. NewParser's wrapper only prints (when debugging is on) and
 * returns the wrapped closure's state, so a parser here is its closure.
 */
module Parsing {
  import opened Wrappers
  import opened Utf8
  import opened ParserState
  import opened Combinators

  /** The state Parse starts from: cursor 0, nil result, no error. */
  function InitialState(input: seq<Byte>): (st: State)
    ensures st.Valid() && st.Consistent() && !st.isError
    ensures st.input == input && st.index == 0 && st.results == Nil
  {
    State(input, Nil, 0, NoErr, false)
  }

  /**
   * Parse runs the parser once on the initial state. The state it returns
   * has the same input and is consistent; a failure is at cursor 0 with a
   * nil result.
   */
  function Parse(g: Grammar, p: Parser, input: seq<Byte>, fuel: nat): (r: Option<State>)
    ensures r.Some? ==> r.value.input == input && r.value.Valid() && r.value.Consistent()
    ensures r.Some? && r.value.isError ==> r.value.index == 0 && r.value.results == Nil
  {
    Run(g, p, InitialState(input), fuel)
  }

  /** A byte string read as text, one character per byte, as Go concatenates it into a name. */
  function Text(bs: seq<Byte>): (t: string)
    ensures |t| == |bs|
  {
    seq(|bs|, i requires 0 <= i < |bs| => bs[i] as char)
  }

  /**
   * Name: the name a constructor gives its parser (with debugging off, so
   * SequenceOf and Choice list no children). A forward-declared variable
   * still holds the zero Parser when the wrappers around it are built, so its
   * name is empty.
   */
  function Name(p: Parser): (n: string)
    ensures p.Ref? <==> n == []
  {
    match p
    case Char(s) => "Char('" + Text(s) + "')"
    case Str(s) => "Str('" + Text(s) + "')"
    case StartOfInput => "StartOfInput()"
    case EndOfInput => "EndOfInput()"
    case Cond(_) => "Cond"
    case CondMin(_, _) => "CondMin"
    case CondMinMax(_, _, _) => "CondMinMax"
    case SequenceOf(_) => "SequenceOf()"
    case Choice(_) => "Choice()"
    case Count(c, _) => "Count(" + Name(c) + ")"
    case CountMin(c, _) => "CountMin(" + Name(c) + ")"
    case CountMinMax(c, _, _) => "CountMinMax(" + Name(c) + ")"
    case ZeroOrOne(c) => "ZeroOrOne(" + Name(c) + ")"
    case ZeroOrMore(c) => "ZeroOrMore(" + Name(c) + ")"
    case OneOrMore(c) => "OneOrMore(" + Name(c) + ")"
    case Map(c, _) => "Map(" + Name(c) + ")"
    case ErrorMap(c, _) => "ErrorMap(" + Name(c) + ")"
    case Chain(c, _) => "Chain(" + Name(c) + ")"
    case Ref(_) => ""
  }

  /**
   * Name read through a variable once the grammar binds it: the variable
   * then holds its parser, name included. A variable left unbound, or bound
   * to another variable, still reads as the empty name.
   */
  function NameOf(g: Grammar, p: Parser): (n: string)
    ensures n == [] <==> p.Ref? && (p.name !in g || g[p.name].Ref?)
    ensures !p.Ref? ==> n == Name(p)
  {
    if p.Ref? && p.name in g then Name(g[p.name]) else Name(p)
  }
}
