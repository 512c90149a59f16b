/** Runs of any transition system, given by when an event is enabled and what it does. */
module Transitions {

  ghost predicate RunsIn<S, E>(enabled: (S, E) -> bool, step: (S, E) -> S, s: S, es: seq<E>)
    decreases |es|
  {
    es == [] || (enabled(s, es[0]) && RunsIn(enabled, step, step(s, es[0]), es[1..]))
  }

  ghost function EndOf<S, E>(step: (S, E) -> S, s: S, es: seq<E>): S
    decreases |es|
  {
    if es == [] then s else EndOf(step, step(s, es[0]), es[1..])
  }

  lemma {:induction false} RunsJoin<S, E>(enabled: (S, E) -> bool, step: (S, E) -> S, s: S, es: seq<E>, fs: seq<E>)
    requires RunsIn(enabled, step, s, es) && RunsIn(enabled, step, EndOf(step, s, es), fs)
    ensures RunsIn(enabled, step, s, es + fs) && EndOf(step, s, es + fs) == EndOf(step, EndOf(step, s, es), fs)
    decreases |es|
  {
    var all := es + fs;
    if es == [] {
      assert all == fs;
    } else {
      assert all[0] == es[0] && all[1..] == es[1..] + fs;
      RunsJoin(enabled, step, step(s, es[0]), es[1..], fs);
    }
  }
}
