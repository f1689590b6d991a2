/**
 * What the combinators of combinators.go promise, proved about the
 * interpreter: the guard for errored states, SequenceOf against a direct
 * recursive reading of "run the children in order", Choice's first
 * success, the bounds of the repetitions and the relations between them,
 * and Between.
 */
module CombinatorLaws {
  import opened Wrappers
  import opened ParserState
  import opened Combinators

  /** Every parser but ErrorMap and a reference returns an errored incoming state unchanged. */
  lemma ErroredStatePassesThrough(g: Grammar, p: Parser, st: State, fuel: nat)
    requires st.Valid() && st.isError && !p.ErrorMap? && !p.Ref?
    ensures Run(g, p, st, fuel + 1) == Some(st)
  {
  }

  /** The child `p` runs to completion and fails on `st`. */
  predicate FailsOn(g: Grammar, p: Parser, st: State, fuel: nat)
    requires st.Valid()
  {
    Run(g, p, st, fuel).Some? && Run(g, p, st, fuel).value.isError
  }

  /** A reference runs the parser its name is bound to, one layer down. */
  lemma RefRuns(g: Grammar, name: string, st: State, fuel: nat)
    requires st.Valid() && name in g
    ensures Run(g, Ref(name), st, fuel + 1) == Run(g, g[name], st, fuel)
  {
  }

  /**
   * Fuel only cuts a run short: a run that finishes with some fuel finishes
   * with the same state given any more. So every outcome of Run is the one
   * the Go closure reaches, whatever bound was enough to see it.
   */
  lemma {:induction false} RunMonotone(g: Grammar, p: Parser, st: State, fuel: nat, more: nat)
    requires st.Valid() && fuel <= more && Run(g, p, st, fuel).Some?
    ensures Run(g, p, st, more) == Run(g, p, st, fuel)
    decreases fuel, 0, 1
  {
    var f, m := fuel - 1, more - 1;
    match p
    case SequenceOf(ps) =>
      if !st.isError { SequenceMonotone(g, ps, 0, st, st, [], f, m); }
    case Choice(ps) =>
      if !st.isError { AlternativesMonotone(g, ps, 0, st, f, m); }
    case Count(_, _) => RepetitionMonotone(g, p, st, fuel, more);
    case CountMin(_, _) => RepetitionMonotone(g, p, st, fuel, more);
    case CountMinMax(_, _, _) => RepetitionMonotone(g, p, st, fuel, more);
    case ZeroOrMore(_) => RepetitionMonotone(g, p, st, fuel, more);
    case OneOrMore(_) => RepetitionMonotone(g, p, st, fuel, more);
    case ZeroOrOne(c) =>
      if !st.isError { RunMonotone(g, c, st, f, m); }
    case Map(c, _) =>
      if !st.isError { RunMonotone(g, c, st, f, m); }
    case ErrorMap(c, _) =>
      RunMonotone(g, c, st, f, m);
    case Chain(c, mk) =>
      if !st.isError {
        RunMonotone(g, c, st, f, m);
        var t := Run(g, c, st, f).value;
        if !t.isError { RunMonotone(g, mk(t.results), t, f, m); }
      }
    case Ref(name) =>
      if name in g { RunMonotone(g, g[name], st, f, m); }
    case _ =>
  }

  /** The five repeating combinators, given more fuel, reach the same state. */
  lemma {:induction false} RepetitionMonotone(g: Grammar, p: Parser, st: State, fuel: nat, more: nat)
    requires p.Count? || p.CountMin? || p.CountMinMax? || p.ZeroOrMore? || p.OneOrMore?
    requires st.Valid() && 0 < fuel <= more && Run(g, p, st, fuel).Some?
    ensures Run(g, p, st, more) == Run(g, p, st, fuel)
    decreases fuel, 0, 0
  {
    var f, m := fuel - 1, more - 1;
    if !st.isError {
      match p
      case Count(c, n) => RepeatMonotone(g, c, Some(n), st, [], f, m, f, m);
      case CountMin(c, _) => RepeatMonotone(g, c, None, st, [], f, m, f, m);
      case CountMinMax(c, _, max) => RepeatMonotone(g, c, Some(max), st, [], f, m, f, m);
      case ZeroOrMore(c) => RepeatMonotone(g, c, None, st, [], f, m, f, m);
      case OneOrMore(c) => RepeatMonotone(g, c, None, st, [], f, m, f, m);
    }
  }

  /** SequenceOf's loop, given more fuel, reaches the same state. */
  lemma {:induction false} SequenceMonotone(g: Grammar, ps: seq<Parser>, i: nat, st: State, next: State, acc: seq<Value>, fuel: nat, more: nat)
    requires i <= |ps| && st.Valid() && !st.isError && Continues(st, next) && !next.isError
    requires fuel <= more && Sequence(g, ps, i, st, next, acc, fuel).Some?
    ensures Sequence(g, ps, i, st, next, acc, more) == Sequence(g, ps, i, st, next, acc, fuel)
    decreases fuel, 1, |ps| - i
  {
    if i < |ps| {
      RunMonotone(g, ps[i], next, fuel, more);
      var t := Run(g, ps[i], next, fuel).value;
      if !t.isError { SequenceMonotone(g, ps, i + 1, st, t, acc + [t.results], fuel, more); }
    }
  }

  /** Choice's loop, given more fuel, reaches the same state. */
  lemma {:induction false} AlternativesMonotone(g: Grammar, ps: seq<Parser>, i: nat, st: State, fuel: nat, more: nat)
    requires i <= |ps| && st.Valid() && !st.isError
    requires fuel <= more && Alternatives(g, ps, i, st, fuel).Some?
    ensures Alternatives(g, ps, i, st, more) == Alternatives(g, ps, i, st, fuel)
    decreases fuel, 1, |ps| - i
  {
    if i < |ps| {
      RunMonotone(g, ps[i], st, fuel, more);
      if Run(g, ps[i], st, fuel).value.isError { AlternativesMonotone(g, ps, i + 1, st, fuel, more); }
    }
  }

  /** The repetition loop, given more fuel and more rounds, reaches the same results and state. */
  lemma {:induction false} RepeatMonotone(g: Grammar, c: Parser, max: Option<int>, next: State, acc: seq<Value>, fuel: nat, more: nat, k: nat, rounds: nat)
    requires next.Valid() && !next.isError && fuel <= more && k <= rounds
    requires Repeat(g, c, max, next, acc, fuel, k).Some?
    ensures Repeat(g, c, max, next, acc, more, rounds) == Repeat(g, c, max, next, acc, fuel, k)
    decreases fuel, 1, k
  {
    var t := Run(g, c, next, fuel).value;
    RunMonotone(g, c, next, fuel, more);
    RepeatUnfolds(g, c, max, next, acc, fuel, k, t);
    RepeatUnfolds(g, c, max, next, acc, more, rounds, t);
    if !(t.isError || AtBound(max, |acc|)) {
      RepeatMonotone(g, c, max, t, acc + [t.results], fuel, more, k - 1, rounds - 1);
    }
  }

  /** One round of the repetition loop: stop on a failure or at the bound, otherwise go on from the child's state. */
  lemma RepeatUnfolds(g: Grammar, c: Parser, max: Option<int>, next: State, acc: seq<Value>, fuel: nat, k: nat, t: State)
    requires next.Valid() && !next.isError && k > 0 && Run(g, c, next, fuel) == Some(t)
    ensures t.isError || AtBound(max, |acc|) ==> Repeat(g, c, max, next, acc, fuel, k) == Some((acc, next))
    ensures !(t.isError || AtBound(max, |acc|)) ==>
              Repeat(g, c, max, next, acc, fuel, k) == Repeat(g, c, max, t, acc + [t.results], fuel, k - 1)
  {
  }

  /** How a sequence of children ends: at the first failure, or with every result and the last state. */
  datatype Outcome = Failed(err: Err) | Matched(items: seq<Value>, last: State)

  /**
   * The children run in order, each on the output of the one before; the
   * first failure ends the run. This is the plain recursive reading of
   * SequenceOf's loop.
   */
  function Threaded(g: Grammar, ps: seq<Parser>, next: State, fuel: nat): (o: Option<Outcome>)
    requires next.Valid() && !next.isError
    ensures o.Some? && o.value.Matched? ==>
      |o.value.items| == |ps| && Continues(next, o.value.last) && !o.value.last.isError
    decreases |ps|
  {
    if ps == [] then Some(Matched([], next))
    else match Run(g, ps[0], next, fuel)
      case None => None
      case Some(t) =>
        if t.isError then Some(Failed(t.err))
        else match Threaded(g, ps[1..], t, fuel)
          case None => None
          case Some(Failed(e)) => Some(Failed(e))
          case Some(Matched(xs, last)) => Some(Matched([t.results] + xs, last))
  }

  /** The state SequenceOf builds from an outcome, with `acc` the results collected before it. */
  function SequenceState(st: State, acc: seq<Value>, o: Option<Outcome>): Option<State> {
    match o
    case None => None
    case Some(Failed(e)) => Some(UpdateError(st, e))
    case Some(Matched(xs, last)) => Some(UpdateState(last, last.index, List(acc + xs)))
  }

  lemma {:induction false} SequenceIsThreaded(g: Grammar, ps: seq<Parser>, i: nat, st: State, next: State, acc: seq<Value>, fuel: nat)
    requires i <= |ps| && st.Valid() && !st.isError && Continues(st, next) && !next.isError
    ensures Sequence(g, ps, i, st, next, acc, fuel) == SequenceState(st, acc, Threaded(g, ps[i..], next, fuel))
    decreases |ps| - i
  {
    if i == |ps| {
      assert ps[i..] == [] && acc + [] == acc;
    } else {
      assert ps[i..][0] == ps[i] && ps[i..][1..] == ps[i + 1..];
      match Run(g, ps[i], next, fuel) {
        case None =>
        case Some(t) =>
          if !t.isError {
            SequenceIsThreaded(g, ps, i + 1, st, t, acc + [t.results], fuel);
            match Threaded(g, ps[i + 1..], t, fuel) {
              case None =>
              case Some(Failed(e)) =>
              case Some(Matched(xs, last)) =>
                assert (acc + [t.results]) + xs == acc + ([t.results] + xs);
            }
          }
      }
    }
  }

  /**
   * SequenceOf: on success the result lists the children's results in
   * order and the cursor is the last child's; on the first failure the
   * incoming state is returned, marked with that child's error.
   */
  lemma SequenceOfRunsInOrder(g: Grammar, ps: seq<Parser>, st: State, fuel: nat)
    requires st.Valid() && !st.isError
    ensures Run(g, SequenceOf(ps), st, fuel + 1) == SequenceState(st, [], Threaded(g, ps, st, fuel))
  {
    SequenceIsThreaded(g, ps, 0, st, st, [], fuel);
    assert ps[0..] == ps;
  }

  /** A run of `p` from the live state `s` that succeeds with the result `v`. */
  predicate SucceedsWith(g: Grammar, p: Parser, s: State, fuel: nat, v: Value) {
    s.Valid() && Run(g, p, s, fuel).Some? && !Run(g, p, s, fuel).value.isError && Run(g, p, s, fuel).value.results == v
  }

  /**
   * Every item of a matched sequence is what its own child returned on
   * success, from the state the children before it left.
   */
  lemma {:induction false} ThreadedYields(g: Grammar, ps: seq<Parser>, next: State, fuel: nat, xs: seq<Value>, last: State, i: nat)
    requires next.Valid() && !next.isError && Threaded(g, ps, next, fuel) == Some(Matched(xs, last)) && i < |ps|
    ensures i < |xs| && exists s :: SucceedsWith(g, ps[i], s, fuel, xs[i])
    decreases |ps|
  {
    var t := Run(g, ps[0], next, fuel).value;
    match Threaded(g, ps[1..], t, fuel)
    case Some(Matched(ys, l)) =>
      assert xs == [t.results] + ys;
      if i == 0 {
        assert SucceedsWith(g, ps[0], next, fuel, xs[0]);
      } else {
        ThreadedYields(g, ps[1..], t, fuel, ys, l, i - 1);
        var s :| SucceedsWith(g, ps[1..][i - 1], s, fuel, ys[i - 1]);
        assert SucceedsWith(g, ps[i], s, fuel, xs[i]);
      }
  }

  lemma ThreadedSingle(g: Grammar, q: Parser, t: State, fuel: nat)
    requires t.Valid() && !t.isError && Run(g, q, t, fuel).Some?
    ensures var u := Run(g, q, t, fuel).value;
      Threaded(g, [q], t, fuel) == if u.isError then Some(Failed(u.err)) else Some(Matched([u.results], u))
  {
    assert [q][0] == q && [q][1..] == [];
    var u := Run(g, q, t, fuel).value;
    if !u.isError {
      assert Threaded(g, [], u, fuel) == Some(Matched([], u));
      assert [u.results] + [] == [u.results];
    }
  }

  /**
   * SequenceOf with two parsers: the second runs on the first's state, and
   * either failure is reported on the incoming state.
   */
  lemma SequenceOfPair(g: Grammar, p: Parser, q: Parser, st: State, fuel: nat)
    requires st.Valid() && !st.isError && Run(g, p, st, fuel).Some?
    requires !Run(g, p, st, fuel).value.isError ==> Run(g, q, Run(g, p, st, fuel).value, fuel).Some?
    ensures var t := Run(g, p, st, fuel).value;
      Run(g, SequenceOf([p, q]), st, fuel + 1) ==
        if t.isError then Some(UpdateError(st, t.err))
        else
          var u := Run(g, q, t, fuel).value;
          Some(if u.isError then UpdateError(st, u.err) else u.(results := List([t.results, u.results])))
  {
    SequenceOfRunsInOrder(g, [p, q], st, fuel);
    ThreadedPair(g, p, q, st, fuel);
    var t := Run(g, p, st, fuel).value;
    if !t.isError {
      var u := Run(g, q, t, fuel).value;
      assert [] + [t.results, u.results] == [t.results, u.results];
    }
  }

  lemma ThreadedPair(g: Grammar, q: Parser, r: Parser, t: State, fuel: nat)
    requires t.Valid() && !t.isError && Run(g, q, t, fuel).Some?
    requires !Run(g, q, t, fuel).value.isError ==> Run(g, r, Run(g, q, t, fuel).value, fuel).Some?
    ensures var u := Run(g, q, t, fuel).value;
      Threaded(g, [q, r], t, fuel) ==
        if u.isError then Some(Failed(u.err))
        else
          var w := Run(g, r, u, fuel).value;
          if w.isError then Some(Failed(w.err)) else Some(Matched([u.results, w.results], w))
  {
    assert [q, r][0] == q && [q, r][1..] == [r];
    var u := Run(g, q, t, fuel).value;
    if !u.isError {
      ThreadedSingle(g, r, u, fuel);
      assert [u.results] + [Run(g, r, u, fuel).value.results] == [u.results, Run(g, r, u, fuel).value.results];
    }
  }

  /** SequenceOf with three parsers, each run on the state the previous one returned. */
  lemma SequenceOfTriple(g: Grammar, p: Parser, q: Parser, r: Parser, st: State, fuel: nat)
    requires st.Valid() && !st.isError && Run(g, p, st, fuel).Some?
    requires var t := Run(g, p, st, fuel).value;
      !t.isError ==>
        Run(g, q, t, fuel).Some? &&
        (!Run(g, q, t, fuel).value.isError ==> Run(g, r, Run(g, q, t, fuel).value, fuel).Some?)
    ensures var t := Run(g, p, st, fuel).value;
      Run(g, SequenceOf([p, q, r]), st, fuel + 1) ==
        if t.isError then Some(UpdateError(st, t.err))
        else
          var u := Run(g, q, t, fuel).value;
          if u.isError then Some(UpdateError(st, u.err))
          else
            var w := Run(g, r, u, fuel).value;
            Some(if w.isError then UpdateError(st, w.err) else w.(results := List([t.results, u.results, w.results])))
  {
    SequenceOfRunsInOrder(g, [p, q, r], st, fuel);
    ThreadedTriple(g, p, q, r, st, fuel);
    var t := Run(g, p, st, fuel).value;
    if !t.isError {
      var u := Run(g, q, t, fuel).value;
      if !u.isError {
        var w := Run(g, r, u, fuel).value;
        assert [] + [t.results, u.results, w.results] == [t.results, u.results, w.results];
      }
    }
  }

  lemma ThreadedTriple(g: Grammar, p: Parser, q: Parser, r: Parser, st: State, fuel: nat)
    requires st.Valid() && !st.isError && Run(g, p, st, fuel).Some?
    requires var t := Run(g, p, st, fuel).value;
      !t.isError ==>
        Run(g, q, t, fuel).Some? &&
        (!Run(g, q, t, fuel).value.isError ==> Run(g, r, Run(g, q, t, fuel).value, fuel).Some?)
    ensures var t := Run(g, p, st, fuel).value;
      Threaded(g, [p, q, r], st, fuel) ==
        if t.isError then Some(Failed(t.err))
        else
          var u := Run(g, q, t, fuel).value;
          if u.isError then Some(Failed(u.err))
          else
            var w := Run(g, r, u, fuel).value;
            if w.isError then Some(Failed(w.err)) else Some(Matched([t.results, u.results, w.results], w))
  {
    assert [p, q, r][0] == p && [p, q, r][1..] == [q, r];
    var t := Run(g, p, st, fuel).value;
    if !t.isError {
      ThreadedPair(g, q, r, t, fuel);
      var u := Run(g, q, t, fuel).value;
      if !u.isError {
        var w := Run(g, r, u, fuel).value;
        assert [t.results] + [u.results, w.results] == [t.results, u.results, w.results];
      }
    }
  }

  /** Each parser of `ps` succeeds on the state before it in `sts` and yields the state after it. */
  predicate Chained(g: Grammar, ps: seq<Parser>, sts: seq<State>, fuel: nat) {
    |sts| == |ps| + 1 &&
    (forall i :: 0 <= i < |sts| ==> sts[i].Valid() && !sts[i].isError) &&
    (forall i {:trigger Run(g, ps[i], sts[i], fuel)} :: 0 <= i < |ps| ==> Run(g, ps[i], sts[i], fuel) == Some(sts[i + 1]))
  }

  /** A chain grows by one parser that succeeds on its last state. */
  lemma ChainedSnoc(g: Grammar, ps: seq<Parser>, sts: seq<State>, p: Parser, t: State, fuel: nat)
    requires Chained(g, ps, sts, fuel) && t.Valid() && !t.isError
    requires Run(g, p, sts[|ps|], fuel) == Some(t)
    ensures Chained(g, ps + [p], sts + [t], fuel)
  {
    var ps', sts' := ps + [p], sts + [t];
    forall i | 0 <= i < |sts'|
      ensures sts'[i].Valid() && !sts'[i].isError
    {
      if i < |sts| {
        assert sts'[i] == sts[i];
      }
    }
    forall i | 0 <= i < |ps'|
      ensures Run(g, ps'[i], sts'[i], fuel) == Some(sts'[i + 1])
    {
      if i < |ps| {
        assert ps'[i] == ps[i] && sts'[i] == sts[i] && sts'[i + 1] == sts[i + 1];
        assert Run(g, ps[i], sts[i], fuel) == Some(sts[i + 1]);
      } else {
        assert ps'[i] == p && sts'[i] == sts[|ps|] && sts'[i + 1] == t;
      }
    }
  }

  /** Three parsers that succeed one after the other form a chain. */
  lemma Chained3(g: Grammar, p0: Parser, p1: Parser, p2: Parser, s0: State, s1: State, s2: State, s3: State, fuel: nat)
    requires forall t <- [s0, s1, s2, s3] :: t.Valid() && !t.isError
    requires Run(g, p0, s0, fuel) == Some(s1) && Run(g, p1, s1, fuel) == Some(s2) && Run(g, p2, s2, fuel) == Some(s3)
    ensures Chained(g, [p0, p1, p2], [s0, s1, s2, s3], fuel)
  {
    ChainedSnoc(g, [], [s0], p0, s1, fuel);
    ChainedSnoc(g, [p0], [s0, s1], p1, s2, fuel);
    ChainedSnoc(g, [p0, p1], [s0, s1, s2], p2, s3, fuel);
  }

  /** Four parsers that succeed one after the other form a chain. */
  lemma Chained4(g: Grammar, p0: Parser, p1: Parser, p2: Parser, p3: Parser,
                 s0: State, s1: State, s2: State, s3: State, s4: State, fuel: nat)
    requires forall t <- [s0, s1, s2, s3, s4] :: t.Valid() && !t.isError
    requires Run(g, p0, s0, fuel) == Some(s1) && Run(g, p1, s1, fuel) == Some(s2)
    requires Run(g, p2, s2, fuel) == Some(s3) && Run(g, p3, s3, fuel) == Some(s4)
    ensures Chained(g, [p0, p1, p2, p3], [s0, s1, s2, s3, s4], fuel)
  {
    Chained3(g, p0, p1, p2, s0, s1, s2, s3, fuel);
    ChainedSnoc(g, [p0, p1, p2], [s0, s1, s2, s3], p3, s4, fuel);
  }

  /** SequenceOf whose second child fails after the first succeeds: the second child's error, at the incoming cursor. */
  lemma SequenceFailsSecond(g: Grammar, ps: seq<Parser>, s0: State, s1: State, e: State, fuel: nat)
    requires |ps| >= 2 && s0.Valid() && !s0.isError && s1.Valid() && !s1.isError
    requires Run(g, ps[0], s0, fuel) == Some(s1) && Run(g, ps[1], s1, fuel) == Some(e) && e.isError
    ensures Run(g, SequenceOf(ps), s0, fuel + 1) == Some(UpdateError(s0, e.err))
  {
    ChainedSnoc(g, [], [s0], ps[0], s1, fuel);
    assert ps[..1] == [ps[0]];
    SequenceOfFailsAt(g, ps, [s0, s1], fuel, e);
  }

  /** SequenceOf whose third child fails after the first two succeed: the third child's error, at the incoming cursor. */
  lemma SequenceFailsThird(g: Grammar, ps: seq<Parser>, s0: State, s1: State, s2: State, e: State, fuel: nat)
    requires |ps| >= 3 && forall t <- [s0, s1, s2] :: t.Valid() && !t.isError
    requires Run(g, ps[0], s0, fuel) == Some(s1) && Run(g, ps[1], s1, fuel) == Some(s2)
    requires Run(g, ps[2], s2, fuel) == Some(e) && e.isError
    ensures Run(g, SequenceOf(ps), s0, fuel + 1) == Some(UpdateError(s0, e.err))
  {
    ChainedSnoc(g, [], [s0], ps[0], s1, fuel);
    ChainedSnoc(g, [ps[0]], [s0, s1], ps[1], s2, fuel);
    assert ps[..2] == [ps[0], ps[1]];
    SequenceOfFailsAt(g, ps, [s0, s1, s2], fuel, e);
  }

  /** The results of the states after each parser of a chain. */
  function ChainResults(sts: seq<State>): (xs: seq<Value>)
    requires |sts| > 0
    ensures |xs| == |sts| - 1
    ensures forall i :: 0 <= i < |xs| ==> xs[i] == sts[i + 1].results
  {
    seq(|sts| - 1, i requires 0 <= i < |sts| - 1 => sts[i + 1].results)
  }

  /** A chain of successes threads through to the last state, collecting every result in order. */
  lemma {:induction false} ThreadedChain(g: Grammar, ps: seq<Parser>, sts: seq<State>, fuel: nat)
    requires Chained(g, ps, sts, fuel)
    ensures Threaded(g, ps, sts[0], fuel) == Some(Matched(ChainResults(sts), sts[|ps|]))
    decreases |ps|
  {
    if ps != [] {
      assert Chained(g, ps[1..], sts[1..], fuel) by {
        forall i | 0 <= i < |ps| - 1
          ensures Run(g, ps[1..][i], sts[1..][i], fuel) == Some(sts[1..][i + 1])
        {
          assert ps[1..][i] == ps[i + 1];
        }
      }
      ThreadedChain(g, ps[1..], sts[1..], fuel);
      assert [sts[1].results] + ChainResults(sts[1..]) == ChainResults(sts);
    }
  }

  /** SequenceOf over a chain of successes: the last state, with the list of every result. */
  lemma SequenceOfChain(g: Grammar, ps: seq<Parser>, sts: seq<State>, fuel: nat)
    requires Chained(g, ps, sts, fuel)
    ensures Run(g, SequenceOf(ps), sts[0], fuel + 1) == Some(sts[|ps|].(results := List(ChainResults(sts))))
  {
    SequenceOfRunsInOrder(g, ps, sts[0], fuel);
    ThreadedChain(g, ps, sts, fuel);
    assert [] + ChainResults(sts) == ChainResults(sts);
  }

  /** A mapped SequenceOf over a chain of successes: the last state, with the mapper applied to the list of every result. */
  lemma MappedChain(g: Grammar, ps: seq<Parser>, f: Value -> Value, sts: seq<State>, fuel: nat)
    requires Chained(g, ps, sts, fuel)
    ensures Run(g, Map(SequenceOf(ps), f), sts[0], fuel + 2) == Some(sts[|ps|].(results := f(List(ChainResults(sts)))))
  {
    SequenceOfChain(g, ps, sts, fuel);
    assert Run(g, Map(SequenceOf(ps), f), sts[0], fuel + 2) == RunMap(g, SequenceOf(ps), f, sts[0], fuel + 1);
  }

  /**
   * A chain of successes that reaches a failing child: the sequence's
   * outcome is that child's error.
   */
  lemma {:induction false} ThreadedFailsAt(g: Grammar, ps: seq<Parser>, sts: seq<State>, fuel: nat, e: State)
    requires 0 < |sts| <= |ps| && Chained(g, ps[..|sts| - 1], sts, fuel)
    requires Run(g, ps[|sts| - 1], sts[|sts| - 1], fuel) == Some(e) && e.isError
    ensures Threaded(g, ps, sts[0], fuel) == Some(Failed(e.err))
    decreases |sts|
  {
    if |sts| > 1 {
      var n := |sts| - 1;
      assert Run(g, ps[..n][0], sts[0], fuel) == Some(sts[1]);
      assert Chained(g, ps[1..][..n - 1], sts[1..], fuel) by {
        forall i | 0 <= i < n - 1
          ensures Run(g, ps[1..][..n - 1][i], sts[1..][i], fuel) == Some(sts[1..][i + 1])
        {
          assert ps[1..][..n - 1][i] == ps[..n][i + 1];
        }
      }
      assert ps[1..][|sts[1..]| - 1] == ps[n];
      ThreadedFailsAt(g, ps[1..], sts[1..], fuel, e);
    }
  }

  /**
   * SequenceOf whose children succeed along `sts` until one fails: the
   * sequence fails on the incoming state with that child's error.
   */
  lemma SequenceOfFailsAt(g: Grammar, ps: seq<Parser>, sts: seq<State>, fuel: nat, e: State)
    requires 0 < |sts| <= |ps| && Chained(g, ps[..|sts| - 1], sts, fuel)
    requires Run(g, ps[|sts| - 1], sts[|sts| - 1], fuel) == Some(e) && e.isError
    ensures Run(g, SequenceOf(ps), sts[0], fuel + 1) == Some(UpdateError(sts[0], e.err))
  {
    SequenceOfRunsInOrder(g, ps, sts[0], fuel);
    ThreadedFailsAt(g, ps, sts, fuel, e);
  }

  /** Alternative `j` is the first one that succeeds on `st`, with the state `r`. */
  predicate FirstSuccess(g: Grammar, ps: seq<Parser>, j: nat, st: State, fuel: nat, r: State)
    requires st.Valid()
  {
    j < |ps| && Run(g, ps[j], st, fuel) == Some(r) && !r.isError &&
    forall i :: 0 <= i < j ==> FailsOn(g, ps[i], st, fuel)
  }

  lemma {:induction false} AlternativesFindFirst(g: Grammar, ps: seq<Parser>, i: nat, j: nat, st: State, fuel: nat, r: State)
    requires st.Valid() && !st.isError && i <= j && FirstSuccess(g, ps, j, st, fuel, r)
    ensures Alternatives(g, ps, i, st, fuel) == Some(r)
    decreases j - i
  {
    if i < j {
      assert FailsOn(g, ps[i], st, fuel);
      AlternativesFindFirst(g, ps, i + 1, j, st, fuel, r);
    }
  }

  lemma {:induction false} AlternativesSucceed(g: Grammar, ps: seq<Parser>, i: nat, st: State, fuel: nat, r: State)
    requires st.Valid() && !st.isError && i <= |ps|
    requires forall k :: 0 <= k < i ==> FailsOn(g, ps[k], st, fuel)
    requires Alternatives(g, ps, i, st, fuel) == Some(r) && !r.isError
    ensures exists j :: FirstSuccess(g, ps, j, st, fuel, r)
    decreases |ps| - i
  {
    if i == |ps| {
    } else if FailsOn(g, ps[i], st, fuel) {
      AlternativesSucceed(g, ps, i + 1, st, fuel, r);
    } else {
      assert FirstSuccess(g, ps, i, st, fuel, r);
    }
  }

  lemma {:induction false} AlternativesFail(g: Grammar, ps: seq<Parser>, i: nat, st: State, fuel: nat)
    requires st.Valid() && !st.isError && i <= |ps|
    ensures (forall k :: i <= k < |ps| ==> FailsOn(g, ps[k], st, fuel)) <==>
            Alternatives(g, ps, i, st, fuel) == Some(UpdateError(st, Error(NoAlternative, st.index)))
    decreases |ps| - i
  {
    if i < |ps| {
      AlternativesFail(g, ps, i + 1, st, fuel);
      if Alternatives(g, ps, i, st, fuel) == Some(UpdateError(st, Error(NoAlternative, st.index))) {
        assert FailsOn(g, ps[i], st, fuel);
      }
    }
  }

  /**
   * Choice succeeds with exactly the state of its first successful
   * alternative (declaration order wins), each tried on the incoming state.
   */
  lemma ChoiceTakesFirstSuccess(g: Grammar, ps: seq<Parser>, st: State, fuel: nat, r: State)
    requires st.Valid() && !st.isError && !r.isError
    ensures Run(g, Choice(ps), st, fuel + 1) == Some(r) <==> exists j :: FirstSuccess(g, ps, j, st, fuel, r)
  {
    assert Run(g, Choice(ps), st, fuel + 1) == Alternatives(g, ps, 0, st, fuel);
    if Run(g, Choice(ps), st, fuel + 1) == Some(r) {
      AlternativesSucceed(g, ps, 0, st, fuel, r);
    }
    if j :| FirstSuccess(g, ps, j, st, fuel, r) {
      AlternativesFindFirst(g, ps, 0, j, st, fuel, r);
    }
  }

  /** Choice fails, on the incoming state with a no-alternative error, exactly when every alternative fails. */
  lemma ChoiceFailsWhenAllFail(g: Grammar, ps: seq<Parser>, st: State, fuel: nat)
    requires st.Valid() && !st.isError
    ensures (forall k :: 0 <= k < |ps| ==> FailsOn(g, ps[k], st, fuel)) <==>
            Run(g, Choice(ps), st, fuel + 1) == Some(UpdateError(st, Error(NoAlternative, st.index)))
  {
    AlternativesFail(g, ps, 0, st, fuel);
  }

  /**
   * The repetition loop stops only at its bound or where the child fails:
   * the child fails on the last successful state.
   */
  lemma {:induction false} RepeatStopsAtFailure(g: Grammar, c: Parser, max: Option<int>, next: State, acc: seq<Value>, fuel: nat, k: nat)
    requires next.Valid() && !next.isError && Repeat(g, c, max, next, acc, fuel, k).Some?
    ensures var (rs, last) := Repeat(g, c, max, next, acc, fuel, k).value;
            AtBound(max, |rs|) || FailsOn(g, c, last, fuel)
    decreases k
  {
    assert k > 0 && Run(g, c, next, fuel).Some?;
    var t := Run(g, c, next, fuel).value;
    if !t.isError && !AtBound(max, |acc|) {
      assert Repeat(g, c, max, next, acc, fuel, k) == Repeat(g, c, max, t, acc + [t.results], fuel, k - 1);
      RepeatStopsAtFailure(g, c, max, t, acc + [t.results], fuel, k - 1);
    } else {
      assert Repeat(g, c, max, next, acc, fuel, k).value == (acc, next);
    }
  }

  /** The last successful state of the loop, recovered from the incoming state and the results. */
  function LastState(st: State, r: State): State
    requires r.results.List?
  {
    if |r.results.items| == 0 then st else r.(results := r.results.items[|r.results.items| - 1])
  }

  /**
   * Count(c, n) collects exactly n results or fails on the incoming state
   * with a nil error; a negative n always fails.
   */
  lemma CountIsExact(g: Grammar, c: Parser, n: int, st: State, fuel: nat)
    requires st.Valid() && !st.isError && Run(g, Count(c, n), st, fuel + 1).Some?
    ensures var r := Run(g, Count(c, n), st, fuel + 1).value;
            && (r.isError ==> r == UpdateError(st, NoErr))
            && (!r.isError ==> r.results.List? && |r.results.items| == n)
            && (n < 0 ==> r.isError)
  {
  }

  /**
   * CountMinMax(c, min, max) collects at most max (and at least min)
   * results, failing as Count does; with min above a non-negative max it
   * always fails, with a negative max it collects nothing.
   */
  lemma CountMinMaxIsBounded(g: Grammar, c: Parser, min: int, max: int, st: State, fuel: nat)
    requires st.Valid() && !st.isError && Run(g, CountMinMax(c, min, max), st, fuel + 1).Some?
    ensures var r := Run(g, CountMinMax(c, min, max), st, fuel + 1).value;
            && (r.isError ==> r == UpdateError(st, NoErr))
            && (!r.isError ==> r.results.List? && min <= |r.results.items| && (max >= 0 ==> |r.results.items| <= max))
            && (max < 0 ==> (r.isError <==> min > 0) && (!r.isError ==> r.results == List([])))
            && (0 <= max < min ==> r.isError)
  {
  }

  /** CountMin(c, min) fails below min results, as Count does, and never fails for min <= 0. */
  lemma CountMinIsBounded(g: Grammar, c: Parser, min: int, st: State, fuel: nat)
    requires st.Valid() && !st.isError && Run(g, CountMin(c, min), st, fuel + 1).Some?
    ensures var r := Run(g, CountMin(c, min), st, fuel + 1).value;
            && (r.isError ==> r == UpdateError(st, NoErr))
            && (!r.isError ==> r.results.List? && min <= |r.results.items|)
            && (min <= 0 ==> !r.isError)
  {
  }

  /**
   * ZeroOrMore never fails and is greedy: the child fails on the state the
   * last match left (the incoming state when nothing matched).
   */
  lemma ZeroOrMoreIsGreedy(g: Grammar, c: Parser, st: State, fuel: nat)
    requires st.Valid() && !st.isError && Run(g, ZeroOrMore(c), st, fuel + 1).Some?
    ensures var r := Run(g, ZeroOrMore(c), st, fuel + 1).value;
            && !r.isError && r.results.List?
            && FailsOn(g, c, LastState(st, r), fuel)
            && (|r.results.items| == 0 ==> r == st.(results := List([])))
  {
    RepeatStopsAtFailure(g, c, None, st, [], fuel, fuel);
  }

  /** One round of the unbounded repetition loop on a match. */
  lemma RepeatMatch(g: Grammar, c: Parser, next: State, t: State, acc: seq<Value>, fuel: nat, k: nat)
    requires next.Valid() && !next.isError && k > 0
    requires Run(g, c, next, fuel) == Some(t) && !t.isError
    ensures Repeat(g, c, None, next, acc, fuel, k) == Repeat(g, c, None, t, acc + [t.results], fuel, k - 1)
  {
  }

  /** One round of the unbounded repetition loop on a failure: the loop ends. */
  lemma RepeatStop(g: Grammar, c: Parser, next: State, acc: seq<Value>, fuel: nat, k: nat)
    requires next.Valid() && !next.isError && k > 0 && FailsOn(g, c, next, fuel)
    ensures Repeat(g, c, None, next, acc, fuel, k) == Some((acc, next))
  {
  }

  /** ZeroOrMore is its repetition loop from an empty list, with the list of results on the loop's last state. */
  lemma ZeroOrMoreRepeat(g: Grammar, c: Parser, st: State, fuel: nat)
    requires st.Valid() && !st.isError && Repeat(g, c, None, st, [], fuel, fuel).Some?
    ensures var r := Repeat(g, c, None, st, [], fuel, fuel).value;
      Run(g, ZeroOrMore(c), st, fuel + 1) == Some(r.1.(results := List(r.0)))
  {
  }

  /** ZeroOrMore whose child fails at once: an empty list, the cursor unmoved. */
  lemma ZeroOrMoreNone(g: Grammar, c: Parser, st: State, fuel: nat)
    requires st.Valid() && !st.isError && FailsOn(g, c, st, fuel + 1)
    ensures Run(g, ZeroOrMore(c), st, fuel + 2) == Some(st.(results := List([])))
  {
    RepeatStop(g, c, st, [], fuel + 1, fuel + 1);
    ZeroOrMoreRepeat(g, c, st, fuel + 1);
  }

  /** ZeroOrMore whose child matches once and then fails: the one result, at the cursor the match left. */
  lemma ZeroOrMoreOnce(g: Grammar, c: Parser, st: State, t: State, fuel: nat)
    requires st.Valid() && !st.isError && Run(g, c, st, fuel + 2) == Some(t) && !t.isError
    requires FailsOn(g, c, t, fuel + 2)
    ensures Run(g, ZeroOrMore(c), st, fuel + 3) == Some(t.(results := List([t.results])))
  {
    RepeatMatch(g, c, st, t, [], fuel + 2, fuel + 2);
    RepeatStop(g, c, t, [] + [t.results], fuel + 2, fuel + 1);
    ZeroOrMoreRepeat(g, c, st, fuel + 2);
  }

  /** Map on a failure: the failure, unmapped. */
  lemma MapFails(g: Grammar, c: Parser, f: Value -> Value, st: State, e: State, fuel: nat)
    requires st.Valid() && !st.isError && Run(g, c, st, fuel) == Some(e) && e.isError
    ensures Run(g, Map(c, f), st, fuel + 1) == Some(e)
  {
    assert Run(g, Map(c, f), st, fuel + 1) == RunMap(g, c, f, st, fuel);
  }

  /** Choice of two whose first alternative fails: the second's success. */
  lemma ChoiceOfTwoSecond(g: Grammar, p0: Parser, p1: Parser, st: State, r: State, fuel: nat)
    requires st.Valid() && !st.isError && FailsOn(g, p0, st, fuel)
    requires Run(g, p1, st, fuel) == Some(r) && !r.isError
    ensures Run(g, Choice([p0, p1]), st, fuel + 1) == Some(r)
  {
    var ps := [p0, p1];
    assert Run(g, Choice(ps), st, fuel + 1) == Alternatives(g, ps, 0, st, fuel);
    assert Alternatives(g, ps, 0, st, fuel) == Alternatives(g, ps, 1, st, fuel);
  }

  /** A choice of three whose first alternative succeeds. */
  lemma ChoiceOfThreeFirst(g: Grammar, p0: Parser, p1: Parser, p2: Parser, st: State, r: State, fuel: nat)
    requires st.Valid() && !st.isError && Run(g, p0, st, fuel) == Some(r) && !r.isError
    ensures Run(g, Choice([p0, p1, p2]), st, fuel + 1) == Some(r)
  {
    assert Run(g, Choice([p0, p1, p2]), st, fuel + 1) == Alternatives(g, [p0, p1, p2], 0, st, fuel);
  }

  /** A choice of three whose second alternative is the first to succeed. */
  lemma ChoiceOfThreeSecond(g: Grammar, p0: Parser, p1: Parser, p2: Parser, st: State, r: State, fuel: nat)
    requires st.Valid() && !st.isError && FailsOn(g, p0, st, fuel)
    requires Run(g, p1, st, fuel) == Some(r) && !r.isError
    ensures Run(g, Choice([p0, p1, p2]), st, fuel + 1) == Some(r)
  {
    var ps := [p0, p1, p2];
    assert Run(g, Choice(ps), st, fuel + 1) == Alternatives(g, ps, 0, st, fuel);
    assert Alternatives(g, ps, 0, st, fuel) == Alternatives(g, ps, 1, st, fuel);
  }

  /** A choice of three whose third alternative is the first to succeed. */
  lemma ChoiceOfThreeThird(g: Grammar, p0: Parser, p1: Parser, p2: Parser, st: State, r: State, fuel: nat)
    requires st.Valid() && !st.isError && FailsOn(g, p0, st, fuel) && FailsOn(g, p1, st, fuel)
    requires Run(g, p2, st, fuel) == Some(r) && !r.isError
    ensures Run(g, Choice([p0, p1, p2]), st, fuel + 1) == Some(r)
  {
    var ps := [p0, p1, p2];
    assert Run(g, Choice(ps), st, fuel + 1) == Alternatives(g, ps, 0, st, fuel);
    assert Alternatives(g, ps, 0, st, fuel) == Alternatives(g, ps, 1, st, fuel);
    assert Alternatives(g, ps, 1, st, fuel) == Alternatives(g, ps, 2, st, fuel);
  }

  /** A choice of three whose alternatives all fail: no alternative, at the incoming cursor. */
  lemma ChoiceOfThreeNone(g: Grammar, p0: Parser, p1: Parser, p2: Parser, st: State, fuel: nat)
    requires st.Valid() && !st.isError
    requires FailsOn(g, p0, st, fuel) && FailsOn(g, p1, st, fuel) && FailsOn(g, p2, st, fuel)
    ensures Run(g, Choice([p0, p1, p2]), st, fuel + 1) == Some(UpdateError(st, Error(NoAlternative, st.index)))
  {
    var ps := [p0, p1, p2];
    assert Run(g, Choice(ps), st, fuel + 1) == Alternatives(g, ps, 0, st, fuel);
    assert Alternatives(g, ps, 0, st, fuel) == Alternatives(g, ps, 1, st, fuel);
    assert Alternatives(g, ps, 1, st, fuel) == Alternatives(g, ps, 2, st, fuel);
    assert Alternatives(g, ps, 2, st, fuel) == Alternatives(g, ps, 3, st, fuel);
  }

  /** Map on a success: the same state, with the mapped result. */
  lemma MapSucceeds(g: Grammar, c: Parser, f: Value -> Value, st: State, t: State, fuel: nat)
    requires st.Valid() && !st.isError && Run(g, c, st, fuel) == Some(t) && !t.isError
    ensures Run(g, Map(c, f), st, fuel + 1) == Some(t.(results := f(t.results)))
  {
    assert Run(g, Map(c, f), st, fuel + 1) == RunMap(g, c, f, st, fuel);
  }

  /** A pair of successes: the second's state, with both results. */
  lemma PairSucceeds(g: Grammar, p: Parser, q: Parser, st: State, a: State, u: State, fuel: nat)
    requires st.Valid() && !st.isError && Run(g, p, st, fuel) == Some(a) && !a.isError
    requires Run(g, q, a, fuel) == Some(u) && !u.isError
    ensures Run(g, SequenceOf([p, q]), st, fuel + 1) == Some(u.(results := List([a.results, u.results])))
  {
    SequenceOfPair(g, p, q, st, fuel);
  }

  /** A mapped pair whose first parser fails fails at the incoming state, with that error. */
  lemma MappedHeadFails(g: Grammar, p: Parser, q: Parser, f: Value -> Value, st: State, e: State, fuel: nat)
    requires st.Valid() && !st.isError && Run(g, p, st, fuel) == Some(e) && e.isError
    ensures Run(g, Map(SequenceOf([p, q]), f), st, fuel + 2) == Some(UpdateError(st, e.err))
  {
    SequenceOfPair(g, p, q, st, fuel);
    assert Run(g, Map(SequenceOf([p, q]), f), st, fuel + 2) == RunMap(g, SequenceOf([p, q]), f, st, fuel + 1);
  }

  /** A mapped head followed by a repetition that matches nothing: the mapper sees the head and an empty list. */
  lemma MappedHeadAlone(g: Grammar, p: Parser, c: Parser, f: Value -> Value, st: State, a: State, fuel: nat)
    requires st.Valid() && !st.isError && Run(g, p, st, fuel + 2) == Some(a) && !a.isError
    requires FailsOn(g, c, a, fuel + 1)
    ensures Run(g, Map(SequenceOf([p, ZeroOrMore(c)]), f), st, fuel + 4) ==
      Some(a.(results := f(List([a.results, List([])]))))
  {
    ZeroOrMoreNone(g, c, a, fuel);
    PairSucceeds(g, p, ZeroOrMore(c), st, a, a.(results := List([])), fuel + 2);
    MapSucceeds(g, SequenceOf([p, ZeroOrMore(c)]), f, st, a.(results := List([a.results, List([])])), fuel + 3);
  }

  /** A mapped head followed by a repetition that matches once: the mapper sees the head and that one match. */
  lemma MappedHeadOnce(g: Grammar, p: Parser, c: Parser, f: Value -> Value, st: State, a: State, u: State, fuel: nat)
    requires st.Valid() && !st.isError && Run(g, p, st, fuel + 3) == Some(a) && !a.isError
    requires Run(g, c, a, fuel + 2) == Some(u) && !u.isError && FailsOn(g, c, u, fuel + 2)
    ensures Run(g, Map(SequenceOf([p, ZeroOrMore(c)]), f), st, fuel + 5) ==
      Some(u.(results := f(List([a.results, List([u.results])]))))
  {
    var v := u.(results := List([u.results]));
    ZeroOrMoreOnce(g, c, a, u, fuel);
    PairSucceeds(g, p, ZeroOrMore(c), st, a, v, fuel + 3);
    MapSucceeds(g, SequenceOf([p, ZeroOrMore(c)]), f, st, v.(results := List([a.results, v.results])), fuel + 4);
  }

  /**
   * OneOrMore is ZeroOrMore that fails, on the incoming state and with its
   * error value, when nothing matched.
   */
  lemma OneOrMoreIsNonEmptyZeroOrMore(g: Grammar, c: Parser, st: State, fuel: nat)
    requires st.Valid() && !st.isError
    ensures Run(g, OneOrMore(c), st, fuel + 1).Some? <==> Run(g, ZeroOrMore(c), st, fuel + 1).Some?
    ensures Run(g, ZeroOrMore(c), st, fuel + 1).Some? ==>
      var z := Run(g, ZeroOrMore(c), st, fuel + 1).value;
      Run(g, OneOrMore(c), st, fuel + 1).value ==
        if z.results == List([]) then UpdateError(st, st.err) else z
  {
  }

  /** CountMin(c, 0) is ZeroOrMore(c). */
  lemma CountMinZeroIsZeroOrMore(g: Grammar, c: Parser, st: State, fuel: nat)
    requires st.Valid()
    ensures Run(g, CountMin(c, 0), st, fuel) == Run(g, ZeroOrMore(c), st, fuel)
  {
  }

  /** On a consistent state CountMin(c, 1) is OneOrMore(c); they differ only in the error value otherwise. */
  lemma CountMinOneIsOneOrMore(g: Grammar, c: Parser, st: State, fuel: nat)
    requires st.Valid() && st.Consistent()
    ensures Run(g, CountMin(c, 1), st, fuel) == Run(g, OneOrMore(c), st, fuel)
  {
  }

  /** For n >= 0, Count(c, n) is CountMinMax(c, n, n). */
  lemma CountIsCountMinMax(g: Grammar, c: Parser, n: int, st: State, fuel: nat)
    requires st.Valid() && n >= 0
    ensures Run(g, Count(c, n), st, fuel) == Run(g, CountMinMax(c, n, n), st, fuel)
  {
  }

  /** ZeroOrOne never fails: a failing child gives a nil result at the incoming cursor. */
  lemma ZeroOrOneNeverFails(g: Grammar, c: Parser, st: State, fuel: nat)
    requires st.Valid() && !st.isError && Run(g, c, st, fuel).Some?
    ensures var t := Run(g, c, st, fuel).value;
            Run(g, ZeroOrOne(c), st, fuel + 1) == Some(if t.isError then st.(results := Nil) else t)
  {
  }

  /**
   * Chain runs the parser made from the first result on the first parser's
   * output; the outer state keeps that output's cursor and holds the second
   * stage's whole state, which may be a failure the outer state does not show.
   */
  lemma ChainNestsSecondStage(g: Grammar, c: Parser, mk: Value -> Parser, st: State, fuel: nat)
    requires st.Valid() && !st.isError && Run(g, c, st, fuel).Some? && !Run(g, c, st, fuel).value.isError
    ensures var t := Run(g, c, st, fuel).value;
            Run(g, mk(t.results), t, fuel).Some? ==>
              Run(g, Chain(c, mk), st, fuel + 1) == Some(t.(results := Nested(Run(g, mk(t.results), t, fuel).value)))
  {
  }

  /**
   * Between(left, right)(content) succeeds when the three succeed in turn,
   * with the content's result and the right parser's cursor, and otherwise
   * fails on the incoming state with the first failure's error.
   */
  lemma BetweenKeepsContent(g: Grammar, left: Parser, right: Parser, content: Parser, st: State, fuel: nat)
    requires st.Valid() && !st.isError
    ensures Run(g, Between(left, right, content), st, fuel + 2) ==
      match Threaded(g, [left, content, right], st, fuel)
      case None => None
      case Some(Failed(e)) => Some(UpdateError(st, e))
      case Some(Matched(xs, last)) => Some(UpdateState(last, last.index, xs[1]))
  {
    SequenceOfRunsInOrder(g, [left, content, right], st, fuel);
  }
}
