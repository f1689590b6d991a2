/**
 * Map and ErrorMap of maps.go (and the Map method of parser.go, which has
 * the same closure): what they do to the child's state.
 */
module Maps {
  import opened Wrappers
  import opened ParserState
  import opened Combinators
  import CombinatorLaws

  /**
   * Map passes an errored incoming state and a failing child's state
   * through unchanged; on success it keeps the cursor and the error value and
   * replaces the result with the mapper's value.
   */
  lemma MapTransformsResult(g: Grammar, c: Parser, f: Value -> Value, st: State, fuel: nat)
    requires st.Valid()
    ensures st.isError ==> Run(g, Map(c, f), st, fuel + 1) == Some(st)
    ensures !st.isError ==>
      Run(g, Map(c, f), st, fuel + 1) ==
        match Run(g, c, st, fuel)
        case None => None
        case Some(t) => Some(if t.isError then t else t.(results := f(t.results)))
  {
  }

  /** Map(Map(c, f), h) returns the same states as Map(c, hf) for hf the composition of h after f. */
  lemma MapFusion(g: Grammar, c: Parser, f: Value -> Value, h: Value -> Value, hf: Value -> Value, st: State, fuel: nat)
    requires st.Valid() && forall x :: hf(x) == h(f(x))
    ensures Run(g, Map(Map(c, f), h), st, fuel + 2) == Run(g, Map(c, hf), st, fuel + 1)
  {
    if !st.isError {
      assert Run(g, Map(Map(c, f), h), st, fuel + 2) == RunMap(g, Map(c, f), h, st, fuel + 1);
      assert Run(g, Map(c, f), st, fuel + 1) == RunMap(g, c, f, st, fuel);
      assert Run(g, Map(c, hf), st, fuel + 1) == RunMap(g, c, hf, st, fuel);
    }
  }

  /** Map with the identity leaves every state as the child returns it. */
  lemma MapIdentity(g: Grammar, c: Parser, st: State, fuel: nat)
    requires st.Valid() && !st.isError
    ensures Run(g, Map(c, x => x), st, fuel + 1) == Run(g, c, st, fuel)
  {
    match Run(g, c, st, fuel) {
      case None =>
      case Some(t) => assert !t.isError ==> t.(results := t.results) == t;
    }
  }

  /**
   * ErrorMap returns a successful child state untouched; a failing one keeps
   * its flag, cursor and result and gets the error value `h` computes from it.
   */
  lemma ErrorMapRewritesError(g: Grammar, c: Parser, h: State -> Err, st: State, fuel: nat)
    requires st.Valid()
    ensures Run(g, ErrorMap(c, h), st, fuel + 1) ==
      match Run(g, c, st, fuel)
      case None => None
      case Some(t) => Some(if t.isError then t.(err := h(t)) else t)
    ensures Run(g, ErrorMap(c, h), st, fuel + 1).Some? ==>
      var r := Run(g, ErrorMap(c, h), st, fuel + 1).value;
      r.isError == Run(g, c, st, fuel).value.isError && r.index == Run(g, c, st, fuel).value.index
  {
  }

  /**
   * ErrorMap has no guard for an errored incoming state: the state goes
   * through the child, which returns it unchanged, and its error value is
   * rewritten.
   */
  lemma ErrorMapRewritesIncomingError(g: Grammar, c: Parser, h: State -> Err, st: State, fuel: nat)
    requires st.Valid() && st.isError && !c.ErrorMap? && !c.Ref?
    ensures Run(g, ErrorMap(c, h), st, fuel + 2) == Some(st.(err := h(st)))
  {
    CombinatorLaws.ErroredStatePassesThrough(g, c, st, fuel);
  }
}
