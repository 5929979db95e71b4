/** Labelled transition systems whose labels carry all the nondeterminism.

    `step(s, e)` is the state after label `e`, or `None` when `e` is not enabled in `s`.
    A run is a sequence of labels, so quantifying over label sequences quantifies over every
    schedule, every environment and every failure. */
module Lts {
  import opened Options

  function Exec<S, E>(step: (S, E) -> Option<S>, s: S, es: seq<E>): Option<S> {
    if es == [] then
      Some(s)
    else
      var prev := Exec(step, s, es[..|es| - 1]);
      if prev.Some? then step(prev.value, es[|es| - 1]) else None
  }

  lemma {:induction false} PrefixRuns<S, E>(step: (S, E) -> Option<S>, s: S, es: seq<E>, n: nat)
    requires n <= |es|
    requires Exec(step, s, es).Some?
    ensures Exec(step, s, es[..n]).Some?
    ensures n < |es| ==>
              step(Exec(step, s, es[..n]).value, es[n]) == Exec(step, s, es[..n + 1]) != None
  {
    if n == |es| {
      assert es[..n] == es;
    } else {
      var front := es[..|es| - 1];
      if n == |front| {
        assert es[..n + 1] == es;
      } else {
        PrefixRuns(step, s, front, n);
        assert front[..n] == es[..n] && front[..n + 1] == es[..n + 1];
      }
    }
  }

  /** A run can also be followed from its first label. */
  lemma {:induction false} FirstStep<S, E>(step: (S, E) -> Option<S>, s: S, es: seq<E>)
    requires es != []
    ensures Exec(step, s, es) == var next := step(s, es[0]); if next.Some? then Exec(step, next.value, es[1..]) else None
  {
    if |es| == 1 {
      assert es[..0] == [] && es[1..] == [];
    } else {
      var front := es[..|es| - 1];
      FirstStep(step, s, front);
      assert front[1..] == es[1..][..|es| - 2];
    }
  }

  /** The states a run passes through. */
  ghost predicate Trail<S, E>(step: (S, E) -> Option<S>, states: seq<S>, es: seq<E>) {
    |states| == |es| + 1 && forall i :: 0 <= i < |es| ==> step(states[i], es[i]) == Some(states[i + 1])
  }

  lemma {:induction false} TrailRuns<S, E>(step: (S, E) -> Option<S>, states: seq<S>, es: seq<E>)
    requires Trail(step, states, es)
    ensures Exec(step, states[0], es) == Some(states[|es|])
  {
    if es != [] {
      TrailRuns(step, states[..|es|], es[..|es| - 1]);
    }
  }

  /** Runs can be joined. */
  lemma {:induction false} Join<S, E>(step: (S, E) -> Option<S>, s: S, es1: seq<E>, es2: seq<E>)
    ensures Exec(step, s, es1 + es2) ==
            var mid := Exec(step, s, es1);
            if mid.Some? then Exec(step, mid.value, es2) else None
  {
    if es2 == [] {
      assert es1 + es2 == es1;
    } else {
      var front := es2[..|es2| - 1];
      Join(step, s, es1, front);
      assert (es1 + es2)[..|es1 + es2| - 1] == es1 + front;
    }
  }
}
