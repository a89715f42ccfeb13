/** Replaying operations over a state, in the abstract.

    A log can be replayed over a state that already holds part of it whenever
    repeating an operation changes nothing, and running one, any other, and the
    first again is the same as leaving its first run out. Those two laws about
    single operations are enough for whole logs. */
module Replay {

  function Run<S, O>(step: (S, O) -> S, state: S, ops: seq<O>): S
    decreases |ops|
  {
    if ops == [] then state else Run(step, step(state, ops[0]), ops[1..])
  }

  ghost predicate Absorbing<S(!new), O(!new)>(step: (S, O) -> S)
  {
    && (forall state, f :: step(step(state, f), f) == step(state, f))
    && (forall state, f, g :: step(step(step(state, f), g), f) == step(step(state, g), f))
  }

  lemma {:induction false} RunAppend<S, O>(step: (S, O) -> S, state: S, a: seq<O>, b: seq<O>)
    ensures Run(step, state, a + b) == Run(step, Run(step, state, a), b)
    decreases |a|
  {
    if a == [] {
      assert a + b == b;
    } else {
      assert (a + b)[1..] == a[1..] + b;
      RunAppend(step, step(state, a[0]), a[1..], b);
    }
  }

  lemma RunOneMore<S, O>(step: (S, O) -> S, state: S, ops: seq<O>, i: nat)
    requires i < |ops|
    ensures Run(step, state, ops[..i + 1]) == step(Run(step, state, ops[..i]), ops[i])
  {
    assert ops[..i + 1] == ops[..i] + [ops[i]];
    RunAppend(step, state, ops[..i], [ops[i]]);
  }

  /** The second law operations carries over to a whole word between them. */
  lemma {:induction false} AbsorbAcross<S(!new), O(!new)>(step: (S, O) -> S, state: S, f: O, ops: seq<O>)
    requires Absorbing(step)
    ensures Run(step, step(state, f), ops + [f]) == Run(step, state, ops + [f])
    decreases |ops|
  {
    if ops == [] {
      assert step(step(state, f), f) == step(state, f);
    } else {
      var g, rest := ops[0], ops[1..];
      assert (ops + [f])[1..] == rest + [f];
      AbsorbAcross(step, step(step(state, f), g), f, rest);
      AbsorbAcross(step, step(state, g), f, rest);
    }
  }

  lemma {:induction false} AbsorbEarlier<S(!new), O(!new)>(step: (S, O) -> S, state: S, f: O, ops: seq<O>)
    requires Absorbing(step) && f in ops
    ensures Run(step, step(state, f), ops) == Run(step, state, ops)
  {
    var i :| 0 <= i < |ops| && ops[i] == f;
    assert ops == (ops[..i] + [f]) + ops[i + 1..];
    AbsorbAcross(step, state, f, ops[..i]);
    RunAppend(step, step(state, f), ops[..i] + [f], ops[i + 1..]);
    RunAppend(step, state, ops[..i] + [f], ops[i + 1..]);
  }

  /** Whatever ran before is absorbed by a log that runs all of it again. */
  lemma {:induction false} AbsorbPrefix<S(!new), O(!new)>(step: (S, O) -> S, state: S, done: seq<O>, ops: seq<O>)
    requires Absorbing(step)
    requires forall f | f in done :: f in ops
    ensures Run(step, Run(step, state, done), ops) == Run(step, state, ops)
    decreases |done|
  {
    if done != [] {
      var last := |done| - 1;
      assert done == done[..last] + [done[last]];
      RunAppend(step, state, done[..last], [done[last]]);
      AbsorbEarlier(step, Run(step, state, done[..last]), done[last], ops);
      AbsorbPrefix(step, state, done[..last], ops);
    }
  }

  /** A state that holds the first `taken` operations may be brought up to date
      by replaying from any earlier point, not only from the exact one. */
  lemma RestartAnywhere<S(!new), O(!new)>(step: (S, O) -> S, state: S, log: seq<O>, taken: nat, start: nat)
    requires Absorbing(step)
    requires start <= taken <= |log|
    ensures Run(step, Run(step, state, log[..taken]), log[start..]) == Run(step, state, log)
  {
    var early, covered := log[..start], log[start..taken];
    assert log[..taken] == early + covered;
    RunAppend(step, state, early, covered);
    forall f | f in covered ensures f in log[start..] {
      var i :| 0 <= i < |covered| && covered[i] == f;
      assert log[start..][i] == f;
    }
    AbsorbPrefix(step, Run(step, state, early), covered, log[start..]);
    RunAppend(step, state, early, log[start..]);
    assert log == early + log[start..];
  }
}
