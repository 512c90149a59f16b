/** Clock readings in the runs of a group: when they do not go back, and what they say about the timers. */
module ElectionClocks {
  import opened Timers
  import opened ElectionGroup

  /** Clock readings never go back. An introduction reads no clock. */
  ghost predicate Clocked(es: seq<Event>) {
    forall i, j :: 0 <= i < j < |es| && !es[i].Introduce? && !es[j].Introduce? ==> es[i].now <= es[j].now
  }

  ghost predicate ReadUpTo(es: seq<Event>, hi: int) {
    forall i :: 0 <= i < |es| && !es[i].Introduce? ==> es[i].now <= hi
  }

  ghost predicate ReadFrom(es: seq<Event>, lo: int) {
    forall i :: 0 <= i < |es| && !es[i].Introduce? ==> lo <= es[i].now
  }

  /** Clock readings between the two bounds that never go back. */
  ghost predicate Paced(es: seq<Event>, lo: int, hi: int) {
    Clocked(es) && ReadFrom(es, lo) && ReadUpTo(es, hi)
  }

  /** All events read the same time. */
  ghost predicate AllAt(es: seq<Event>, t: int) {
    forall i :: 0 <= i < |es| ==> !es[i].Introduce? && es[i].now == t
  }

  lemma ClockedConcat(es: seq<Event>, fs: seq<Event>, mid: int)
    requires Clocked(es) && ReadUpTo(es, mid) && Clocked(fs) && ReadFrom(fs, mid)
    ensures Clocked(es + fs)
  {
  }

  lemma PacedConcat(es: seq<Event>, fs: seq<Event>, lo: int, mid: int, mid': int, hi: int)
    requires Paced(es, lo, mid) && Paced(fs, mid', hi) && lo <= mid <= mid' <= hi
    ensures Paced(es + fs, lo, hi)
  {
    ClockedConcat(es, fs, mid);
  }

  /** Every running election coroutine was created at or before t. */
  ghost predicate StartedBy(g: Group, t: int) {
    forall s :: s in g.servers && g.servers[s].co == CoRunning ==> g.servers[s].timer.start <= t
  }

  lemma ChangedStart(g: Group, e: Event)
    requires Enabled(g, e) && Changed(g, e).co == CoRunning
    ensures var c := g.servers[Actor(g, e)];
      || (c.co == CoRunning && Changed(g, e).timer.start == c.timer.start)
      || (!e.Introduce? && Changed(g, e).timer.start == e.now)
  {
  }

  lemma StepKeepsStarted(g: Group, e: Event, t: int)
    requires Enabled(g, e) && StartedBy(g, t) && (!e.Introduce? ==> e.now <= t)
    ensures StartedBy(Step(g, e), t)
  {
    if Changed(g, e).co == CoRunning { ChangedStart(g, e); }
  }

  lemma {:induction false} RunKeepsStarted(g: Group, es: seq<Event>, t: int)
    requires Runs(g, es) && StartedBy(g, t) && ReadUpTo(es, t)
    ensures StartedBy(RunOf(g, es), t)
    decreases |es|
  {
    if es != [] {
      StepKeepsStarted(g, es[0], t);
      RunKeepsStarted(Step(g, es[0]), es[1..], t);
    }
  }
}
