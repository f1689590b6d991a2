/**
 * The early prototype of parc.go: a state whose result is a list of
 * matched tokens, the `str` and `sequenceOf` parsers, the three state
 * helpers, and `Parser.Run`. It has its own state type and shares nothing
 * with the library.
 */
module Prototype {
  import opened Utf8

  /** The prototype's error value; the message text is not modelled, only what it names. */
  datatype Failure = NoFailure | CouldNotMatch(token: seq<Byte>, at: nat)

  /** ParserState of the prototype: the target text, the tokens matched so far, the cursor and the error. */
  datatype PState = PState(target: seq<Byte>, result: seq<seq<Byte>>, index: nat, err: Failure, isError: bool) {
    /** The cursor is inside the target, as the slice `TargetString[Index:]` needs. */
    predicate Valid() { index <= |target| }
  }

  /** The prototype's parsers: `str(s)` and `sequenceOf(parsers...)`. */
  datatype PParser = PStr(s: seq<Byte>) | PSequenceOf(parsers: seq<PParser>)

  predicate HasPrefix(s: seq<Byte>, prefix: seq<Byte>) {
    |prefix| <= |s| && s[..|prefix|] == prefix
  }

  /** updateParserState: the cursor replaced and `result` appended to the token list. */
  function UpdateParserState(st: PState, index: nat, result: seq<seq<Byte>>): (r: PState)
    ensures r.index == index && r.result == st.result + result
    ensures r.target == st.target && r.err == st.err && r.isError == st.isError
  {
    st.(index := index, result := st.result + result)
  }

  /** updateParserResult: `result` appended to the token list, nothing else changed. */
  function UpdateParserResult(st: PState, result: seq<seq<Byte>>): (r: PState)
    ensures r.result == st.result + result
    ensures r.target == st.target && r.index == st.index && r.err == st.err && r.isError == st.isError
  {
    st.(result := st.result + result)
  }

  /** updateParserError: marked as failed with `err`; cursor and tokens stay. */
  function UpdateParserError(st: PState, err: Failure): (r: PState)
    ensures r.isError && r.err == err
    ensures r.target == st.target && r.index == st.index && r.result == st.result
  {
    st.(isError := true, err := err)
  }

  /** `st` has grown into `r`: same target, cursor not behind, tokens only appended, errors sticky. */
  predicate Extends(st: PState, r: PState) {
    r.target == st.target && st.index <= r.index && r.Valid() &&
    |st.result| <= |r.result| && r.result[..|st.result|] == st.result &&
    (st.isError ==> r == st)
  }

  /**
   * What a prototype parser does to a state. `str` appends its token and
   * moves past it on a prefix match, and marks the state failed otherwise;
   * `sequenceOf` threads the state through every child and appends its own
   * (empty) result list.
   */
  function Apply(p: PParser, st: PState): (r: PState)
    requires st.Valid()
    ensures Extends(st, r)
    decreases p, 1
  {
    if st.isError then st
    else match p
      case PStr(s) =>
        if HasPrefix(st.target[st.index..], s) then UpdateParserState(st, st.index + |s|, [s])
        else UpdateParserError(st, CouldNotMatch(s, st.index))
      case PSequenceOf(ps) => UpdateParserResult(Thread(ps, st), [])
  }

  /** The children of a sequence applied one after another; none is skipped after a failure. */
  function Thread(ps: seq<PParser>, st: PState): (r: PState)
    requires st.Valid()
    ensures Extends(st, r)
    decreases ps, 0
  {
    if ps == [] then st
    else Thread(ps[1..], Apply(ps[0], st))
  }

  /** Parser.Run: the parser applied to index 0, an empty token list and no error. */
  function Run(p: PParser, target: seq<Byte>): (r: PState)
    ensures r.target == target && r.Valid()
  {
    Apply(p, PState(target, [], 0, NoFailure, false))
  }

  /**
   * The sequenceOf closure as Go runs it: the loop reassigns the state with
   * each child's output and never leaves the loop early.
   */
  method ExecSequenceOf(ps: seq<PParser>, st: PState) returns (r: PState)
    requires st.Valid()
    ensures r == Apply(PSequenceOf(ps), st)
    decreases PSequenceOf(ps), 1
  {
    if st.isError {
      return st;
    }
    var results: seq<seq<Byte>> := [];
    var next := st;
    var i := 0;
    while i < |ps|
      invariant 0 <= i <= |ps| && next.Valid()
      invariant Thread(ps[i..], next) == Thread(ps, st)
    {
      assert ps[i..][0] == ps[i] && ps[i..][1..] == ps[i + 1..];
      next := Exec(ps[i], next);
      i := i + 1;
    }
    assert ps[i..] == [];
    return UpdateParserResult(next, results);
  }

  /** A prototype parser run on a state. */
  method Exec(p: PParser, st: PState) returns (r: PState)
    requires st.Valid()
    ensures r == Apply(p, st)
    decreases p, 2
  {
    match p {
      case PStr(s) =>
        if st.isError {
          return st;
        }
        if HasPrefix(st.target[st.index..], s) {
          return UpdateParserState(st, st.index + |s|, [s]);
        }
        return UpdateParserError(st, CouldNotMatch(s, st.index));
      case PSequenceOf(ps) =>
        r := ExecSequenceOf(ps, st);
    }
  }

  /**
   * str on a live state: it succeeds exactly when the rest of the target
   * starts with its token; then the cursor moves past the token and the token
   * is appended, and otherwise cursor and tokens stay and the error names the
   * token and the cursor.
   */
  lemma StrAppendsToken(s: seq<Byte>, st: PState)
    requires st.Valid() && !st.isError
    ensures var r := Apply(PStr(s), st);
      (!r.isError <==> HasPrefix(st.target[st.index..], s)) &&
      (!r.isError ==> r == st.(index := st.index + |s|, result := st.result + [s])) &&
      (r.isError ==> r == st.(isError := true, err := CouldNotMatch(s, st.index)))
  {
  }

  /** A failed state passes through every parser unchanged, so a sequence runs on after a failure with no effect. */
  lemma FailurePassesThrough(p: PParser, ps: seq<PParser>, st: PState)
    requires st.Valid() && st.isError
    ensures Apply(p, st) == st && Thread(ps, st) == st
  {
  }

  /** sequenceOf adds nothing of its own: on a live state it is its children threaded in order. */
  lemma SequenceIsThread(ps: seq<PParser>, st: PState)
    requires st.Valid() && !st.isError
    ensures Apply(PSequenceOf(ps), st) == Thread(ps, st)
  {
    assert Thread(ps, st).result + [] == Thread(ps, st).result;
  }

  /** Threading a concatenation of children threads the first part, then the second. */
  lemma {:induction false} ThreadAppend(ps: seq<PParser>, qs: seq<PParser>, st: PState)
    requires st.Valid()
    ensures Thread(ps + qs, st) == Thread(qs, Thread(ps, st))
    decreases |ps|
  {
    if ps == [] {
      assert ps + qs == qs;
    } else {
      assert (ps + qs)[0] == ps[0] && (ps + qs)[1..] == ps[1..] + qs;
      ThreadAppend(ps[1..], qs, Apply(ps[0], st));
    }
  }

  /** One str per token. */
  function Strs(ts: seq<seq<Byte>>): (ps: seq<PParser>)
    ensures |ps| == |ts|
  {
    if ts == [] then [] else [PStr(ts[0])] + Strs(ts[1..])
  }

  /** The tokens written one after another. */
  function Concat(ts: seq<seq<Byte>>): seq<Byte> {
    if ts == [] then [] else ts[0] + Concat(ts[1..])
  }

  lemma PrefixSplit(rest: seq<Byte>, t: seq<Byte>, c: seq<Byte>)
    ensures HasPrefix(rest, t + c) <==> HasPrefix(rest, t) && HasPrefix(rest[|t|..], c)
  {
    if HasPrefix(rest, t) && HasPrefix(rest[|t|..], c) {
      assert rest[..|t + c|] == rest[..|t|] + rest[|t|..][..|c|];
    }
    if HasPrefix(rest, t + c) {
      assert rest[..|t|] == (t + c)[..|t|] == t;
      assert rest[|t|..][..|c|] == (t + c)[|t|..] == c;
    }
  }

  /**
   * A sequence of strs succeeds exactly when the rest of the target starts
   * with the tokens written one after another; the cursor then moves past
   * all of them and the token list gains exactly those tokens, in order.
   */
  lemma {:induction false} StrsMatchConcat(ts: seq<seq<Byte>>, st: PState)
    requires st.Valid() && !st.isError
    ensures var r := Thread(Strs(ts), st);
      (!r.isError <==> HasPrefix(st.target[st.index..], Concat(ts))) &&
      (!r.isError ==> r == st.(index := st.index + |Concat(ts)|, result := st.result + ts))
    decreases |ts|
  {
    if ts == [] {
      assert st.result + ts == st.result;
    } else {
      StrsUnfold(ts, st);
      StrsPrefix(ts, st);
      var st1 := Apply(PStr(ts[0]), st);
      if st1.isError {
        FailurePassesThrough(PStr(ts[0]), Strs(ts[1..]), st1);
      } else {
        StrsMatchConcat(ts[1..], st1);
        assert st.result + [ts[0]] + ts[1..] == st.result + ts;
      }
    }
  }

  lemma StrsUnfold(ts: seq<seq<Byte>>, st: PState)
    requires st.Valid() && !st.isError && ts != []
    ensures Thread(Strs(ts), st) == Thread(Strs(ts[1..]), Apply(PStr(ts[0]), st))
  {
    assert Strs(ts)[0] == PStr(ts[0]) && Strs(ts)[1..] == Strs(ts[1..]);
  }

  /** After the first token matched, the rest of the target must start with the other tokens. */
  lemma StrsPrefix(ts: seq<seq<Byte>>, st: PState)
    requires st.Valid() && !st.isError && ts != []
    ensures var st1 := Apply(PStr(ts[0]), st);
      (st1.isError ==> !HasPrefix(st.target[st.index..], Concat(ts))) &&
      (!st1.isError ==>
        (HasPrefix(st.target[st.index..], Concat(ts)) <==> HasPrefix(st1.target[st1.index..], Concat(ts[1..]))))
  {
    var t := ts[0];
    var rest := st.target[st.index..];
    PrefixSplit(rest, t, Concat(ts[1..]));
    var st1 := Apply(PStr(t), st);
    if !st1.isError {
      assert st1.target[st1.index..] == rest[|t|..];
    }
  }

  /** The program's own example: "Hello " then "World" on "Hello World" matches both tokens and the whole text. */
  lemma HelloWorld()
    ensures var r := Run(PSequenceOf(Strs([Ascii("Hello "), Ascii("World")])), Ascii("Hello World"));
      !r.isError && r.index == 11 && r.result == [Ascii("Hello "), Ascii("World")]
  {
    var ts := [Ascii("Hello "), Ascii("World")];
    var st := PState(Ascii("Hello World"), [], 0, NoFailure, false);
    assert Concat(ts) == Ascii("Hello ") + Ascii("World") + [];
    assert Concat(ts) == Ascii("Hello World");
    StrsMatchConcat(ts, st);
    SequenceIsThread(Strs(ts), st);
  }
}
