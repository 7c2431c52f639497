/**
 Runs of a transition system, and the states they reach.
 */
module Transitions {

  ghost predicate Traces<S(!new), A(!new)>(step: (S, A, S) -> bool, start: S, states: seq<S>, acts: seq<A>) {
    && |states| == |acts| + 1 && states[0] == start
    && forall i :: 0 <= i < |acts| ==> step(states[i], acts[i], states[i + 1])
  }

  ghost predicate Reached<S(!new), A(!new)>(step: (S, A, S) -> bool, start: S, s: S) {
    exists states: seq<S>, acts: seq<A> :: Traces(step, start, states, acts) && states[|acts|] == s
  }

  lemma StartIsReached<S(!new), A(!new)>(step: (S, A, S) -> bool, start: S)
    ensures Reached(step, start, start)
  {
    var states, acts: seq<A> := [start], [];
    assert Traces(step, start, states, acts) && states[|acts|] == start;
  }

  lemma StepIsReached<S(!new), A(!new)>(step: (S, A, S) -> bool, start: S, s: S, a: A, s': S)
    requires Reached(step, start, s) && step(s, a, s')
    ensures Reached(step, start, s')
  {
    var states, acts: seq<A> :| Traces(step, start, states, acts) && states[|acts|] == s;
    assert Traces(step, start, states + [s'], acts + [a]);
    assert (states + [s'])[|acts + [a]|] == s';
  }
}
