/** Elections under fairness: a group that both orders rank alike comes to rest on every fair run. */
module ElectionFairness {
  import opened Uuids
  import opened Timers
  import opened ElectionServer
  import opened ElectionGroup
  import opened ElectionTermination
  import opened ElectionLoops
  import opened ElectionAgreement
  import opened ElectionFinish

  ghost predicate InElection(g: Group, s: Uuid) {
    s in g.servers && g.servers[s].election == Running
  }

  /** A slice of the election coroutine of s once its timeout has passed. */
  ghost predicate LateSlice(g: Group, e: Event, s: Uuid) {
    e.Resume? && e.s == s && s in g.servers && e.now >= g.servers[s].timer.start + ELECTION_TIMEOUT
  }

  ghost function LateSlices(g: Group, es: seq<Event>, s: Uuid): nat
    requires Runs(g, es)
    decreases |es|
  {
    if es == [] then 0
    else (if LateSlice(g, es[0], s) then 1 else 0) + LateSlices(Step(g, es[0]), es[1..], s)
  }

  ghost predicate InElectionThroughout(g: Group, es: seq<Event>, s: Uuid)
    requires Runs(g, es)
    decreases |es|
  {
    InElection(g, s) && (es == [] || InElectionThroughout(Step(g, es[0]), es[1..], s))
  }

  ghost predicate Delivers(es: seq<Event>) {
    exists i :: 0 <= i < |es| && es[i].Deliver?
  }

  /** Some message is handled if there is one, and a server that is in an election all the time gets three
      slices after its timeout. No trigger falls into the round. */
  ghost predicate FairRound(g: Group, es: seq<Event>) {
    && Runs(g, es) && Unprompted(es)
    && (g.flight != [] ==> Delivers(es))
    && (forall s :: s in g.servers && InElectionThroughout(g, es, s) ==> LateSlices(g, es, s) >= 3)
  }

  ghost predicate FairRounds(g: Group, rounds: seq<seq<Event>>)
    decreases |rounds|
  {
    rounds == [] || (FairRound(g, rounds[0]) && FairRounds(RunOf(g, rounds[0]), rounds[1..]))
  }

  function Flat(rounds: seq<seq<Event>>): seq<Event> {
    if rounds == [] then [] else rounds[0] + Flat(rounds[1..])
  }

  lemma {:induction false} FlatRuns(g: Group, rounds: seq<seq<Event>>)
    requires FairRounds(g, rounds)
    ensures Runs(g, Flat(rounds)) && Unprompted(Flat(rounds))
    decreases |rounds|
  {
    if rounds != [] {
      FlatRuns(RunOf(g, rounds[0]), rounds[1..]);
      RunsConcat(g, rounds[0], Flat(rounds[1..]));
    }
  }

  lemma FlatFirst(g: Group, rounds: seq<seq<Event>>)
    requires FairRounds(g, rounds) && rounds != []
    ensures Runs(RunOf(g, rounds[0]), Flat(rounds[1..]))
    ensures Runs(g, Flat(rounds)) && RunOf(g, Flat(rounds)) == RunOf(RunOf(g, rounds[0]), Flat(rounds[1..]))
  {
    FlatRuns(RunOf(g, rounds[0]), rounds[1..]);
    RunsConcat(g, rounds[0], Flat(rounds[1..]));
  }

  // ----- a fair round does something, unless nothing is left to do

  /** How many late slices a server in an election may get before the one that claims. */
  ghost function SlicesLeft(c: Core): nat {
    if c.timer.state == CoCompleted || (c.looping && c.timer.elapsed >= c.timer.seconds) then 0
    else if c.looping then 1 else 2
  }

  lemma SliceWaits(c: Core, now: int)
    requires CoreLive(c) && c.election == Running && !Claims(c, now)
    ensures Slice(c, now).election == Running && Slice(c, now).timer.start == c.timer.start
    ensures SlicesLeft(Slice(c, now)) <= SlicesLeft(c)
    ensures now >= c.timer.start + ELECTION_TIMEOUT ==> SlicesLeft(Slice(c, now)) < SlicesLeft(c)
  {
  }

  /** A step that is neither a delivery nor a claim leaves an election running and counts its late slices. */
  lemma IdleStep(g: Group, e: Event, s: Uuid)
    requires Ranked(g) && Live(g) && InElection(g, s) && Enabled(g, e) && !e.Trigger? && !Productive(g, e)
    ensures InElection(Step(g, e), s)
    ensures SlicesLeft(Step(g, e).servers[s]) + (if LateSlice(g, e, s) then 1 else 0) <= SlicesLeft(g.servers[s])
  {
    if e.Resume? && e.s == s { SliceWaits(g.servers[s], e.now); }
  }

  lemma {:induction false} IdleRun(g: Group, es: seq<Event>, s: Uuid)
    requires Ranked(g) && Live(g) && InElection(g, s) && Runs(g, es) && Unprompted(es)
    requires ProductiveSteps(g, es) == 0
    ensures InElectionThroughout(g, es, s) && LateSlices(g, es, s) <= SlicesLeft(g.servers[s])
    decreases |es|
  {
    if es != [] {
      IdleStep(g, es[0], s);
      StepKeepsRanked(g, es[0]);
      StepKeepsLive(g, es[0]);
      IdleRun(Step(g, es[0]), es[1..], s);
    }
  }

  lemma {:induction false} DeliveryCounts(g: Group, es: seq<Event>, i: nat)
    requires Runs(g, es) && i < |es| && es[i].Deliver?
    ensures ProductiveSteps(g, es) > 0
    decreases |es|
  {
    if i > 0 { DeliveryCounts(Step(g, es[0]), es[1..], i - 1); }
  }

  /** Whatever the identities, a fair round of a group that is not at rest delivers or claims. */
  lemma FairRoundIsProductive(g: Group, es: seq<Event>)
    requires Ranked(g) && Live(g) && FairRound(g, es) && !Quiescent(g)
    ensures ProductiveSteps(g, es) > 0
  {
    if g.flight != [] {
      var i :| 0 <= i < |es| && es[i].Deliver?;
      DeliveryCounts(g, es, i);
    } else if ProductiveSteps(g, es) == 0 {
      var s :| s in g.servers && g.servers[s].election == Running;
      IdleRun(g, es, s);
    }
  }

  // ----- at rest nothing starts by itself

  lemma RestStep(g: Group, e: Event)
    requires Ranked(g) && Quiescent(g) && Enabled(g, e) && !e.Trigger?
    ensures Quiescent(Step(g, e))
  {
  }

  lemma {:induction false} RestRun(g: Group, es: seq<Event>)
    requires Ranked(g) && Quiescent(g) && Runs(g, es) && Unprompted(es)
    ensures Quiescent(RunOf(g, es))
    decreases |es|
  {
    if es != [] {
      RestStep(g, es[0]);
      StepKeepsRanked(g, es[0]);
      RestRun(Step(g, es[0]), es[1..]);
    }
  }

  // ----- compatible members come to rest

  lemma {:induction false} MeasureDrops(g: Group, es: seq<Event>)
    requires Ranked(g) && Compatible(g.ids) && Runs(g, es) && Unprompted(es)
    ensures Ranked(RunOf(g, es)) && RunOf(g, es).ids == g.ids
    ensures Measure(RunOf(g, es)) + ProductiveSteps(g, es) <= Measure(g)
    decreases |es|
  {
    if es != [] {
      StepCost(g, es[0]);
      MeasureDrops(Step(g, es[0]), es[1..]);
    }
  }

  /** Every run of more than Measure(g) fair rounds comes to rest. */
  lemma {:induction false} FairRunsRest(g: Group, rounds: seq<seq<Event>>)
    requires Ranked(g) && Live(g) && Compatible(g.ids) && FairRounds(g, rounds) && |rounds| > Measure(g)
    ensures Runs(g, Flat(rounds)) && Quiescent(RunOf(g, Flat(rounds)))
    decreases |rounds|
  {
    FlatRuns(g, rounds);
    if Quiescent(g) {
      RestRun(g, Flat(rounds));
    } else {
      var h := RunOf(g, rounds[0]);
      FairRoundIsProductive(g, rounds[0]);
      MeasureDrops(g, rounds[0]);
      RunKeepsLive(g, rounds[0]);
      FlatFirst(g, rounds);
      FairRunsRest(h, rounds[1..]);
    }
  }

  /** The run is over and the top-ranked member is the one master. */
  ghost predicate Elects(g: Group, es: seq<Event>, top: Uuid) {
    && Runs(g, es) && Quiescent(RunOf(g, es))
    && forall s :: s in RunOf(g, es).servers ==> (RunOf(g, es).servers[s].role == Master <==> s == top)
  }

  /** After any run with a trigger, enough fair rounds elect the top-ranked member and nobody else. */
  lemma FairRunsElect(ids: seq<Uuid>, es: seq<Event>, top: Uuid) returns (bound: nat)
    requires Distinct(ids) && Compatible(ids) && IsTop(InitialGroup(ids), top)
    requires Runs(InitialGroup(ids), es) && Prompted(es)
    ensures forall rounds :: FairRounds(RunOf(InitialGroup(ids), es), rounds) && |rounds| > bound
              ==> Elects(InitialGroup(ids), es + Flat(rounds), top)
  {
    var g := InitialGroup(ids);
    InitialIsRanked(ids);
    RunKeepsRanked(g, es);
    RunKeepsLive(g, es);
    bound := Measure(RunOf(g, es));
    forall rounds | FairRounds(RunOf(g, es), rounds) && |rounds| > bound
      ensures Elects(g, es + Flat(rounds), top)
    {
      FairRunsRest(RunOf(g, es), rounds);
      RunsConcat(g, es, Flat(rounds));
      var i :| 0 <= i < |es| && es[i].Trigger?;
      assert (es + Flat(rounds))[i] == es[i];
      UniqueMaster(ids, es + Flat(rounds), top);
    }
  }

  // ----- fairness suffices when the orders agree

  ghost predicate RestsWithin(g: Group, bound: nat) {
    forall rounds :: FairRounds(g, rounds) && |rounds| > bound ==> Runs(g, Flat(rounds)) && Quiescent(RunOf(g, Flat(rounds)))
  }

  /** From every reachable state, enough fair rounds lead to rest. */
  ghost predicate FairnessSuffices(ids: seq<Uuid>) {
    forall es :: Runs(InitialGroup(ids), es) ==> exists bound: nat :: RestsWithin(RunOf(InitialGroup(ids), es), bound)
  }

  lemma CompatibleRest(ids: seq<Uuid>)
    requires Distinct(ids) && Compatible(ids)
    ensures FairnessSuffices(ids)
  {
    forall es | Runs(InitialGroup(ids), es)
      ensures exists bound: nat :: RestsWithin(RunOf(InitialGroup(ids), es), bound)
    {
      InitialIsRanked(ids);
      RunKeepsRanked(InitialGroup(ids), es);
      RunKeepsLive(InitialGroup(ids), es);
      var g := RunOf(InitialGroup(ids), es);
      forall rounds | FairRounds(g, rounds) && |rounds| > Measure(g)
        ensures Runs(g, Flat(rounds)) && Quiescent(RunOf(g, Flat(rounds)))
      {
        FairRunsRest(g, rounds);
      }
      assert RestsWithin(g, Measure(g));
    }
  }
}
