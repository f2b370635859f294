/**
 Event-driven components as state machines: a step function applied to a
 sequence of events, the events the user interface can deliver in each
 state, and the induction that carries an invariant along a run.
 */
module Machine {

  /** The state after delivering `events` one by one, starting from `s`. */
  function Run<S, E>(step: (S, E) -> S, s: S, events: seq<E>): S
    decreases |events|
  {
    if events == [] then s else Run(step, step(s, events[0]), events[1..])
  }

  /** Every event of `events` is enabled in the state it arrives in. */
  predicate Accepts<S, E>(enabled: (S, E) -> bool, step: (S, E) -> S, s: S, events: seq<E>)
    decreases |events|
  {
    events == [] || (enabled(s, events[0]) && Accepts(enabled, step, step(s, events[0]), events[1..]))
  }

  /** A property that every enabled step preserves holds at the end of every
      run of enabled events that starts where it holds. */
  lemma {:induction false} InvariantHolds<S, E>(
    enabled: (S, E) -> bool, step: (S, E) -> S, inv: S -> bool, s: S, events: seq<E>)
    requires forall x, e :: inv(x) && enabled(x, e) ==> inv(step(x, e))
    requires inv(s) && Accepts(enabled, step, s, events)
    ensures inv(Run(step, s, events))
    decreases |events|
  {
    if events != [] {
      InvariantHolds(enabled, step, inv, step(s, events[0]), events[1..]);
    }
  }
}
