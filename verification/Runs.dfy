/** Invariants over runs of a state machine. */
module Runs {

  /** Each state follows from the one before by the step between them. */
  ghost predicate IsRun<S(!new), T(!new)>(next: (S, T, S) -> bool, states: seq<S>, steps: seq<T>) {
    |states| == |steps| + 1 && forall k :: 0 <= k < |steps| ==> next(states[k], steps[k], states[k + 1])
  }

  /** What the first state satisfies and every step keeps holds in every state. */
  lemma {:induction false} Keeps<S(!new), T(!new)>(
    inv: S -> bool, next: (S, T, S) -> bool, states: seq<S>, steps: seq<T>, n: nat)
    requires IsRun(next, states, steps) && n <= |steps| && inv(states[0])
    requires forall s, x, t :: inv(s) && next(s, x, t) ==> inv(t)
    ensures inv(states[n])
  {
    if n > 0 {
      Keeps(inv, next, states, steps, n - 1);
      assert next(states[n - 1], steps[n - 1], states[n]);
    }
  }

  function Mapped<X, Y>(f: X -> Y, xs: seq<X>): seq<Y> {
    seq(|xs|, i requires 0 <= i < |xs| => f(xs[i]))
  }

  /** The step `y` from `s` can reach a counterpart of `b`. */
  ghost predicate Answers<A, S(!new), Y>(rel: (A, S) -> bool, wholeNext: (S, Y, S) -> bool, b: A, s: S, y: Y) {
    exists t :: wholeNext(s, y, t) && rel(b, t)
  }

  /** A machine whose steps all have a counterpart in another one runs as that one does. */
  lemma {:induction false} Simulates<A(!new), X(!new), S(!new), Y(!new)>(
    rel: (A, S) -> bool, f: X -> Y, next: (A, X, A) -> bool, wholeNext: (S, Y, S) -> bool,
    machines: seq<A>, steps: seq<X>, start: S)
    returns (states: seq<S>)
    requires IsRun(next, machines, steps) && rel(machines[0], start)
    requires forall a, s, x, b :: rel(a, s) && next(a, x, b) ==> Answers(rel, wholeNext, b, s, f(x))
    ensures IsRun(wholeNext, states, Mapped(f, steps)) && states[0] == start
    ensures |states| == |machines| && forall k :: 0 <= k < |states| ==> rel(machines[k], states[k])
    decreases |steps|
  {
    if steps == [] {
      states := [start];
    } else {
      var n := |steps| - 1;
      var before := Simulates(rel, f, next, wholeNext, machines[..n + 1], steps[..n], start);
      assert rel(machines[n], before[n]) && next(machines[n], steps[n], machines[n + 1]);
      assert Answers(rel, wholeNext, machines[n + 1], before[n], f(steps[n]));
      var last :| wholeNext(before[n], f(steps[n]), last) && rel(machines[n + 1], last);
      states := before + [last];
      forall k | 0 <= k < |steps| ensures wholeNext(states[k], Mapped(f, steps)[k], states[k + 1]) {
        if k < n { assert Mapped(f, steps[..n])[k] == f(steps[k]); }
      }
    }
  }
}
