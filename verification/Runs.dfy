/**
 Runs of a state machine. Every protocol of this project is a state, an event type and a
 step function; a run is the fold of the step function over a sequence of events, so a
 statement about all event sequences is a statement about every reachable state.
 */
module Runs {

  /** The state reached from s when the events happen in order. */
  ghost function Run<S, E>(step: (S, E) -> S, s: S, events: seq<E>): S
    decreases |events|
  {
    if events == [] then s else Run(step, step(s, events[0]), events[1..])
  }

  /** What holds at first and is kept by every step holds after every run. */
  lemma {:induction false} Invariance<S(!new), E(!new)>(step: (S, E) -> S, inv: S -> bool, s: S, events: seq<E>)
    requires inv(s)
    requires forall t, e :: inv(t) ==> inv(step(t, e))
    ensures inv(Run(step, s, events))
    decreases |events|
  {
    if events == [] {
    } else {
      Invariance(step, inv, step(s, events[0]), events[1..]);
    }
  }

  /** Invariance for runs whose events are all of an allowed kind. */
  lemma {:induction false} InvarianceWithin<S(!new), E(!new)>(
      step: (S, E) -> S, inv: S -> bool, allowed: E -> bool, s: S, events: seq<E>)
    requires inv(s)
    requires forall e :: e in events ==> allowed(e)
    requires forall t, e :: inv(t) && allowed(e) ==> inv(step(t, e))
    ensures inv(Run(step, s, events))
    decreases |events|
  {
    if events == [] {
    } else {
      assert allowed(events[0]);
      InvarianceWithin(step, inv, allowed, step(s, events[0]), events[1..]);
    }
  }

  /** Running a concatenation is running its parts one after the other. */
  lemma {:induction false} RunConcat<S, E>(step: (S, E) -> S, s: S, first: seq<E>, second: seq<E>)
    ensures Run(step, s, first + second) == Run(step, Run(step, s, first), second)
    decreases |first|
  {
    if first == [] {
      assert first + second == second;
    } else {
      assert (first + second)[1..] == first[1..] + second;
      RunConcat(step, step(s, first[0]), first[1..], second);
    }
  }

  /** One more event at the end of a run. */
  lemma RunAppend<S, E>(step: (S, E) -> S, s: S, events: seq<E>, e: E)
    ensures Run(step, s, events + [e]) == step(Run(step, s, events), e)
  {
    RunConcat(step, s, events, [e]);
    assert Run(step, Run(step, s, events), [e]) == step(Run(step, s, events), e);
  }

  /**
   When a step from a state that satisfies inv keeps it exactly if it is a good step, inv holds after
   every part of a run if and only if every step of the run is good. What holds anyway is given.
   */
  lemma {:induction false} HoldsThroughoutIff<S(!new), E(!new)>(
      step: (S, E) -> S, given: S -> bool, inv: S -> bool, good: (S, E) -> bool, s: S, events: seq<E>)
    requires given(s) && inv(s)
    requires forall t, e :: given(t) ==> given(step(t, e))
    requires forall t, e :: given(t) && inv(t) ==> (inv(step(t, e)) <==> good(t, e))
    ensures (forall k :: 0 <= k <= |events| ==> inv(Run(step, s, events[..k])))
            <==> (forall k :: 0 <= k < |events| ==> good(Run(step, s, events[..k]), events[k]))
    decreases |events|
  {
    if events == [] {
    } else {
      var n := |events| - 1;
      var most := events[..n];
      HoldsThroughoutIff(step, given, inv, good, s, most);
      Invariance(step, given, s, most);
      assert events == most + [events[n]];
      RunAppend(step, s, most, events[n]);
      assert forall k :: 0 <= k <= n ==> events[..k] == most[..k];
      assert events[..n + 1] == events && most[..n] == most;
    }
  }

  /** When inv, once lost, stays lost, it holds at the end of a run exactly if every step was good. */
  lemma {:induction false} HoldsAtEndIff<S(!new), E(!new)>(
      step: (S, E) -> S, given: S -> bool, inv: S -> bool, good: (S, E) -> bool, s: S, events: seq<E>)
    requires given(s) && inv(s)
    requires forall t, e :: given(t) ==> given(step(t, e))
    requires forall t, e :: given(t) ==> (inv(step(t, e)) <==> inv(t) && good(t, e))
    ensures inv(Run(step, s, events))
            <==> (forall k :: 0 <= k < |events| ==> good(Run(step, s, events[..k]), events[k]))
    decreases |events|
  {
    if events == [] {
    } else {
      var n := |events| - 1;
      var most := events[..n];
      HoldsAtEndIff(step, given, inv, good, s, most);
      Invariance(step, given, s, most);
      assert events == most + [events[n]];
      RunAppend(step, s, most, events[n]);
      assert forall k :: 0 <= k < n ==> events[..k] == most[..k];
    }
  }
}
