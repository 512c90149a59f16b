/** When the integer test disagrees with election_higher_id, elections can go on for ever. */
module ElectionLoops {
  import opened Uuids
  import opened Timers
  import opened ElectionServer
  import opened ElectionGroup
  import opened ElectionClocks
  import opened ElectionTermination
  import opened Transitions

  // ----- putting runs together

  ghost function StepIfEnabled(g: Group, e: Event): Group {
    if Enabled(g, e) then Step(g, e) else g
  }

  /** Runs of the group are runs of its transition system. */
  lemma {:induction false} AsTransitions(g: Group, es: seq<Event>)
    ensures Runs(g, es) <==> RunsIn(Enabled, StepIfEnabled, g, es)
    ensures Runs(g, es) ==> RunOf(g, es) == EndOf(StepIfEnabled, g, es)
    decreases |es|
  {
    if es != [] && Enabled(g, es[0]) {
      AsTransitions(Step(g, es[0]), es[1..]);
    }
  }

  lemma RunsConcat(g: Group, es: seq<Event>, fs: seq<Event>)
    requires Runs(g, es) && Runs(RunOf(g, es), fs)
    ensures Runs(g, es + fs) && RunOf(g, es + fs) == RunOf(RunOf(g, es), fs)
  {
    AsTransitions(g, es);
    AsTransitions(RunOf(g, es), fs);
    AsTransitions(g, es + fs);
    RunsJoin(Enabled, StepIfEnabled, g, es, fs);
  }

  /** One event as a run. */
  lemma RunOfOne(g: Group, e: Event)
    requires Enabled(g, e)
    ensures Runs(g, [e]) && RunOf(g, [e]) == Step(g, e)
    ensures ProductiveSteps(g, [e]) == Progress(g, e)
  {
  }

  lemma Prefixed(g: Group, e: Event, es: seq<Event>)
    requires Enabled(g, e) && Runs(Step(g, e), es)
    ensures Runs(g, [e] + es) && RunOf(g, [e] + es) == RunOf(Step(g, e), es)
    ensures ProductiveSteps(g, [e] + es) == Progress(g, e) + ProductiveSteps(Step(g, e), es)
  {
  }

  // ----- the cycle

  /** a ranks above b, but b is below a as an integer, so a asks b whenever it starts an election. */
  ghost predicate Crossed(ids: seq<Uuid>, a: Uuid, b: Uuid) {
    a in ids && b in ids && HigherId(a, b) && Integer(b) < Integer(a)
  }

  /** b is about to declare victory at time 1. */
  ghost predicate AboutToClaim(g: Group, b: Uuid) {
    && b in g.servers && g.servers[b].co == CoRunning && g.servers[b].looping
    && g.servers[b].election == Running && Claims(g.servers[b], 1)
  }

  lemma SentTo(ms: seq<Msg>, m: Msg) returns (i: nat)
    requires m in ms
    ensures i < |ms| && ms[i] == m
  {
    i :| 0 <= i < |ms| && ms[i] == m;
  }

  /** b claims, and its COORDINATOR to a is in flight. */
  lemma ClaimStep(g: Group, a: Uuid, b: Uuid)
    requires Ranked(g) && Crossed(g.ids, a, b) && AboutToClaim(g, b)
    ensures Enabled(g, Resume(b, 1)) && Progress(g, Resume(b, 1)) == 1
    ensures Ranked(Step(g, Resume(b, 1)))
    ensures var h := Step(g, Resume(b, 1)); h.ids == g.ids && Won(h, b) && Coordinator(b, a) in h.flight
  {
    var e := Resume(b, 1);
    StepKeepsRanked(g, e);
    HigherIdIsTotalOrder(a, b, a);
    OthersMembers(g.ids, b);
    var ms := CoordinatorMsgs(b, Others(g.ids, b));
    var i :| 0 <= i < |Others(g.ids, b)| && Others(g.ids, b)[i] == a;
    CoordinatorMsgsAt(b, Others(g.ids, b));
    assert ms[i] == Coordinator(b, a);
    assert Step(g, e).flight == g.flight + ms;
  }

  /** b has just won: idle, its coroutine still running with the timer over. */
  ghost predicate Won(g: Group, b: Uuid) {
    && b in g.servers && g.servers[b].co == CoRunning && g.servers[b].looping
    && g.servers[b].election == Idle && g.servers[b].timer.state == CoCompleted
  }

  /** The message makes a start an election, which asks b. */
  lemma ObjectionStep(g: Group, a: Uuid, b: Uuid, i: nat)
    requires Ranked(g) && Crossed(g.ids, a, b) && Won(g, b)
    requires i < |g.flight| && g.flight[i] == Coordinator(b, a)
    ensures Enabled(g, Deliver(i, 1)) && Progress(g, Deliver(i, 1)) == 1
    ensures Ranked(Step(g, Deliver(i, 1)))
    ensures var h := Step(g, Deliver(i, 1)); h.ids == g.ids && Won(h, b) && Election(b) in h.flight
  {
    assert a in g.servers;
    var e := Deliver(i, 1);
    StepKeepsRanked(g, e);
    HigherIdIsTotalOrder(a, b, a);
    OthersMembers(g.ids, a);
    TargetsWithin(Others(g.ids, a), a);
    var asked := Targets(Others(g.ids, a), a);
    var k :| 0 <= k < |asked| && asked[k] == b;
    ElectionMsgsAt(asked);
    assert ElectionMsgs(asked)[k] == Election(b);
    assert Step(g, e).flight == Without(g.flight, i) + ElectionMsgs(asked);
  }

  /** b starts again without a new timer and can claim at once. */
  lemma RestartStep(g: Group, b: Uuid, i: nat)
    requires Ranked(g) && Won(g, b)
    requires i < |g.flight| && g.flight[i] == Election(b)
    ensures Enabled(g, Deliver(i, 1)) && Progress(g, Deliver(i, 1)) == 1
    ensures Ranked(Step(g, Deliver(i, 1))) && Step(g, Deliver(i, 1)).ids == g.ids
    ensures AboutToClaim(Step(g, Deliver(i, 1)), b)
  {
    StepKeepsRanked(g, Deliver(i, 1));
  }

  /** One productive step, from one named state to the next. */
  ghost predicate Moves(g: Group, e: Event, h: Group) {
    Enabled(g, e) && Step(g, e) == h && Progress(g, e) == 1 && !e.Trigger? && !e.Introduce? && e.now == 1
  }

  lemma MovesFirst(g: Group, e: Event, h: Group, es: seq<Event>)
    requires Moves(g, e, h) && Runs(h, es) && Unprompted(es) && AllAt(es, 1)
    ensures Runs(g, [e] + es) && Unprompted([e] + es) && AllAt([e] + es, 1)
    ensures ProductiveSteps(g, [e] + es) == 1 + ProductiveSteps(h, es)
  {
    Prefixed(g, e, es);
  }

  /** b claims, a objects, b starts again: b is about to claim once more. */
  lemma Cycle(g: Group, a: Uuid, b: Uuid) returns (e: Event, h: Group, f: Event, k: Group, d: Event, l: Group)
    requires Ranked(g) && Crossed(g.ids, a, b) && AboutToClaim(g, b)
    ensures Moves(g, e, h) && Moves(h, f, k) && Moves(k, d, l)
    ensures Ranked(l) && l.ids == g.ids && AboutToClaim(l, b)
  {
    e := Resume(b, 1);
    ClaimStep(g, a, b);
    h := Step(g, e);
    var i := SentTo(h.flight, Coordinator(b, a));
    f, k := Objects(h, a, b, i);
    var j := SentTo(k.flight, Election(b));
    d, l := StartsAgain(k, b, j);
  }

  lemma Objects(h: Group, a: Uuid, b: Uuid, i: nat) returns (f: Event, k: Group)
    requires Ranked(h) && Crossed(h.ids, a, b) && Won(h, b)
    requires i < |h.flight| && h.flight[i] == Coordinator(b, a)
    ensures Moves(h, f, k) && Ranked(k) && k.ids == h.ids && Won(k, b) && Election(b) in k.flight
  {
    ObjectionStep(h, a, b, i);
    f := Deliver(i, 1);
    k := Step(h, f);
  }

  lemma StartsAgain(k: Group, b: Uuid, j: nat) returns (d: Event, l: Group)
    requires Ranked(k) && Won(k, b) && j < |k.flight| && k.flight[j] == Election(b)
    ensures Moves(k, d, l) && Ranked(l) && l.ids == k.ids && AboutToClaim(l, b)
  {
    RestartStep(k, b, j);
    d := Deliver(j, 1);
    l := Step(k, d);
  }

  lemma Three(g: Group, e: Event, f: Event, d: Event) returns (es: seq<Event>)
    requires Enabled(g, e) && Enabled(Step(g, e), f) && Enabled(Step(Step(g, e), f), d)
    ensures Runs(g, es) && RunOf(g, es) == Step(Step(Step(g, e), f), d) && es == [e, f, d]
  {
    RunOfOne(Step(Step(g, e), f), d);
    Prefixed(Step(g, e), f, [d]);
    Prefixed(g, e, [f] + [d]);
    es := [e] + ([f] + [d]);
  }

  lemma {:induction false} CyclesForEver(g: Group, a: Uuid, b: Uuid, n: nat) returns (es: seq<Event>)
    requires Ranked(g) && Crossed(g.ids, a, b) && AboutToClaim(g, b)
    ensures Runs(g, es) && Unprompted(es) && AllAt(es, 1) && ProductiveSteps(g, es) == 3 * n
    decreases n
  {
    if n == 0 {
      es := [];
    } else {
      var e, h, f, k, d, l := Cycle(g, a, b);
      es := CyclesForEver(l, a, b, n - 1);
      MovesFirst(k, d, l, es);
      MovesFirst(h, f, k, [d] + es);
      MovesFirst(g, e, h, [f] + ([d] + es));
      es := [e] + ([f] + ([d] + es));
    }
  }

  /** From the initial state, one trigger and three slices bring any server to its claim. */
  lemma ReachClaim(ids: seq<Uuid>, b: Uuid) returns (es: seq<Event>)
    requires Distinct(ids) && b in ids
    ensures Runs(InitialGroup(ids), es)
    ensures Ranked(RunOf(InitialGroup(ids), es)) && RunOf(InitialGroup(ids), es).ids == ids
    ensures AboutToClaim(RunOf(InitialGroup(ids), es), b)
    ensures Clocked(es) && ReadUpTo(es, 1)
  {
    var g := InitialGroup(ids);
    InitialIsRanked(ids);
    es := Three(g, Trigger(b, 0), Resume(b, 0), Resume(b, 1));
    RunKeepsRanked(g, es);
  }

  // ----- exactly when elections stop

  ghost predicate BoundedBy(g: Group, bound: nat) {
    forall es :: Runs(g, es) && Unprompted(es) ==> ProductiveSteps(g, es) <= bound
  }

  /** Some number of deliveries and claims is never exceeded, whatever happens short of a new trigger. */
  ghost predicate StopsFrom(g: Group) {
    exists bound: nat :: BoundedBy(g, bound)
  }

  ghost predicate AlwaysStops(ids: seq<Uuid>) {
    forall es :: Runs(InitialGroup(ids), es) ==> StopsFrom(RunOf(InitialGroup(ids), es))
  }

  /** The same for clocks that never go back. */
  ghost predicate ClockedBound(g: Group, es: seq<Event>, bound: nat)
    requires Runs(g, es)
  {
    forall fs :: Runs(RunOf(g, es), fs) && Unprompted(fs) && Clocked(es + fs) ==> ProductiveSteps(RunOf(g, es), fs) <= bound
  }

  ghost predicate StopsByTheClock(ids: seq<Uuid>) {
    forall es :: Runs(InitialGroup(ids), es) && Clocked(es) ==> exists bound: nat :: ClockedBound(InitialGroup(ids), es, bound)
  }

  lemma StopsThenByTheClock(ids: seq<Uuid>)
    requires AlwaysStops(ids)
    ensures StopsByTheClock(ids)
  {
    forall es | Runs(InitialGroup(ids), es) && Clocked(es)
      ensures exists bound: nat :: ClockedBound(InitialGroup(ids), es, bound)
    {
      assert StopsFrom(RunOf(InitialGroup(ids), es));
      var bound: nat :| BoundedBy(RunOf(InitialGroup(ids), es), bound);
      assert ClockedBound(InitialGroup(ids), es, bound);
    }
  }

  lemma NoClockedBound(g: Group, es: seq<Event>, a: Uuid, b: Uuid, bound: nat)
    requires Runs(g, es) && Clocked(es) && ReadUpTo(es, 1)
    requires Ranked(RunOf(g, es)) && Crossed(RunOf(g, es).ids, a, b) && AboutToClaim(RunOf(g, es), b)
    ensures !ClockedBound(g, es, bound)
  {
    var fs := CyclesForEver(RunOf(g, es), a, b, bound + 1);
    ClockedConcat(es, fs, 1);
    assert ProductiveSteps(RunOf(g, es), fs) > bound;
  }

  lemma CrossedRunsForEver(ids: seq<Uuid>, a: Uuid, b: Uuid)
    requires Distinct(ids) && Crossed(ids, a, b)
    ensures !StopsByTheClock(ids)
  {
    var es := ReachClaim(ids, b);
    forall bound: nat
      ensures !ClockedBound(InitialGroup(ids), es, bound)
    {
      NoClockedBound(InitialGroup(ids), es, a, b, bound);
    }
  }

  lemma CrossedPair(ids: seq<Uuid>) returns (a: Uuid, b: Uuid)
    requires !Compatible(ids)
    ensures Crossed(ids, a, b)
  {
    var x, y :| x in ids && y in ids && (Integer(x) < Integer(y)) != HigherId(x, y);
    HigherIdIsTotalOrder(x, y, x);
    IntegerIsInjective(x, y);
    if HigherId(x, y) { a, b := x, y; } else { a, b := y, x; }
  }

  /** Elections always stop if and only if the integer test at the send ranks the members as
      election_higher_id does, whether or not clocks may go back. */
  lemma StopIffCompatible(ids: seq<Uuid>)
    requires Distinct(ids)
    ensures AlwaysStops(ids) <==> Compatible(ids)
    ensures StopsByTheClock(ids) <==> Compatible(ids)
  {
    if Compatible(ids) {
      forall es | Runs(InitialGroup(ids), es)
        ensures StopsFrom(RunOf(InitialGroup(ids), es))
      {
        InitialIsRanked(ids);
        RunKeepsRanked(InitialGroup(ids), es);
        BoundedByMeasure(RunOf(InitialGroup(ids), es));
      }
      StopsThenByTheClock(ids);
    } else {
      var a, b := CrossedPair(ids);
      CrossedRunsForEver(ids, a, b);
      if AlwaysStops(ids) { StopsThenByTheClock(ids); }
    }
  }

  lemma BoundedByMeasure(g: Group)
    requires Ranked(g) && Compatible(g.ids)
    ensures StopsFrom(g)
  {
    var bound := Measure(g);
    forall es | Runs(g, es) && Unprompted(es)
      ensures ProductiveSteps(g, es) <= bound
    {
      ElectionsStop(g, es);
    }
    assert BoundedBy(g, bound);
  }

  /** Two servers started in successive milliseconds can have identities on which the two tests disagree. */
  lemma GeneratedPairLoops(m: nat)
    requires m + 1 < TWO_48 && m % 256 < 255
    ensures var a, b := Generated(m, 2), Generated(m + 1, 1); Crossed([a, b], a, b) && !StopsByTheClock([a, b])
  {
    var a, b := Generated(m, 2), Generated(m + 1, 1);
    GeneratedOrder(m, 2, m + 1, 1);
    assert [a, b][..1] == [a] && [a][..0] == [];
    CrossedRunsForEver([a, b], a, b);
  }
}
