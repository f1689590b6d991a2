/**
 * The literal and anchor primitives of primitives.go. Each one is the state
 * transition its Go closure performs.
 */
module Primitives {
  import opened Utf8
  import opened ParserState

  /** strings.HasPrefix. */
  predicate HasPrefix(s: seq<Byte>, prefix: seq<Byte>) {
    |prefix| <= |s| && s[..|prefix|] == prefix
  }

  /**
   * Char(s): `s` must be exactly one byte long; on a match the cursor moves
   * one byte and the result is `s`.
   */
  function Char(s: seq<Byte>, st: State): (r: State)
    requires st.Valid()
    ensures r.Valid() && r.input == st.input
    ensures st.isError ==> r == st
    ensures !st.isError ==> (!r.isError <==> |s| == 1 && HasPrefix(Remaining(st), s))
    ensures !st.isError && |s| != 1 ==> r.err == Error(WrongArgument, st.index)
    ensures !r.isError && !st.isError ==> r.index == st.index + 1 && r.results == Value.Str(s) && r.err == st.err
    ensures r.isError ==> r.index == st.index && r.results == st.results
  {
    if st.isError then st
    else if |s| != 1 then UpdateError(st, Error(WrongArgument, st.index))
    else if HasPrefix(Remaining(st), s) then UpdateState(st, st.index + |s|, Value.Str(s))
    else UpdateError(st, Error(NoMatch, st.index))
  }

  /**
   * Str(s): fails on empty remaining input, even when `s` is empty; on a
   * match the cursor moves |s| bytes and the result is `s`.
   */
  function Str(s: seq<Byte>, st: State): (r: State)
    requires st.Valid()
    ensures r.Valid() && r.input == st.input
    ensures st.isError ==> r == st
    ensures !st.isError ==> (!r.isError <==> Remaining(st) != [] && HasPrefix(Remaining(st), s))
    ensures !st.isError && AtTheEnd(st) ==> r.err == Error(UnexpectedEnd, st.index)
    ensures !r.isError && !st.isError ==> r.index == st.index + |s| && r.results == Value.Str(s) && r.err == st.err
    ensures r.isError ==> r.index == st.index && r.results == st.results
  {
    if st.isError then st
    else if |Remaining(st)| == 0 then UpdateError(st, Error(UnexpectedEnd, st.index))
    else if HasPrefix(Remaining(st), s) then UpdateState(st, st.index + |s|, Value.Str(s))
    else UpdateError(st, Error(NoMatch, st.index))
  }

  /** Str on a non-empty literal found at the cursor: the cursor moves past it and the literal is the result. */
  lemma StrMatches(s: seq<Byte>, st: State)
    requires st.Valid() && !st.isError && |s| > 0
    requires st.index + |s| <= |st.input| && st.input[st.index..st.index + |s|] == s
    ensures Str(s, st) == st.(index := st.index + |s|, results := Value.Str(s))
  {
    assert Remaining(st)[..|s|] == s;
  }

  /**
   * Str of one byte: at the end of the input an unexpected-end failure,
   * otherwise that byte (one step on) or a no-match failure at the cursor.
   */
  lemma StrOneByte(x: Byte, st: State)
    requires st.Valid() && !st.isError
    ensures Str([x], st) ==
      if st.index == |st.input| then UpdateError(st, Error(UnexpectedEnd, st.index))
      else if st.input[st.index] == x then st.(index := st.index + 1, results := Value.Str([x]))
      else UpdateError(st, Error(NoMatch, st.index))
  {
    if st.index < |st.input| {
      assert Remaining(st)[..1] == [st.input[st.index]];
    }
  }

  /** StartOfInput: zero-width; succeeds exactly at index 0, returning the state as it was. */
  function StartOfInput(st: State): (r: State)
    ensures st.isError ==> r == st
    ensures !st.isError ==> (!r.isError <==> st.index == 0)
    ensures !r.isError ==> r == st
    ensures r.isError ==> r.input == st.input && r.index == st.index && r.results == st.results
  {
    if st.isError then st
    else if st.index > 0 then UpdateError(st, Error(NotAtStart, st.index))
    else st
  }

  /** EndOfInput: zero-width; succeeds exactly at the end, keeping the previous result. */
  function EndOfInput(st: State): (r: State)
    ensures st.isError ==> r == st
    ensures !st.isError ==> (!r.isError <==> st.index == |st.input|)
    ensures !r.isError ==> r == st
    ensures r.isError ==> r.input == st.input && r.index == st.index && r.results == st.results
  {
    if st.isError then st
    else if st.index != |st.input| then UpdateError(st, Error(NotAtEnd, st.index))
    else st
  }
}
