/** Elections stop: a measure over pending messages and running elections, weighted by rank. */
module ElectionTermination {
  import opened Uuids
  import opened ElectionServer
  import opened ElectionGroup

  /** The integer test that picks the receivers of ELECTION ranks members as election_higher_id does. */
  ghost predicate Compatible(ids: seq<Uuid>) {
    forall a, b {:trigger HigherId(a, b)} :: a in ids && b in ids ==> (Integer(a) < Integer(b) <==> HigherId(a, b))
  }

  /** Whom a server writes to when it starts an election. */
  function Asked(ids: seq<Uuid>, t: Uuid): seq<Uuid> {
    Targets(Others(ids, t), t)
  }

  lemma AskedAreHigher(ids: seq<Uuid>, t: Uuid)
    requires Compatible(ids) && t in ids
    ensures forall u :: u in Asked(ids, t) ==> u in ids && HigherId(u, t) && Rank(ids, u) < Rank(ids, t)
  {
    OthersMembers(ids, t);
    TargetsWithin(Others(ids, t), t);
    forall u | u in Asked(ids, t)
      ensures u in ids && HigherId(u, t) && Rank(ids, u) < Rank(ids, t)
    {
      IntegerIsInjective(u, t);
      RankOrders(ids, u, t);
    }
  }

  // ----- weights

  /** A pending ELECTION outweighs the election it may start and the messages that writes. */
  ghost function ElectionWeight(ids: seq<Uuid>, t: Uuid): nat
    requires Compatible(ids) && t in ids
    decreases Rank(ids, t), 1
  {
    1 + RunningWeight(ids, t) + AskedWeight(ids, t)
  }

  /** A running election outweighs the COORDINATOR messages of its claim. */
  ghost function RunningWeight(ids: seq<Uuid>, t: Uuid): nat
    requires Compatible(ids) && t in ids
    decreases Rank(ids, t), 0, 1
  {
    1 + |ids| + AskedWeight(ids, t)
  }

  ghost function AskedWeight(ids: seq<Uuid>, t: Uuid): nat
    requires Compatible(ids) && t in ids
    decreases Rank(ids, t), 0, 0, |ids|
  {
    AskedAreHigher(ids, t);
    SumElections(ids, Rank(ids, t), Asked(ids, t))
  }

  ghost predicate AllLower(ids: seq<Uuid>, us: seq<Uuid>, r: nat) {
    forall u :: u in us ==> u in ids && Rank(ids, u) < r
  }

  /** The ELECTION weights of members of rank below r. */
  ghost function SumElections(ids: seq<Uuid>, r: nat, us: seq<Uuid>): nat
    requires Compatible(ids) && AllLower(ids, us, r)
    decreases r, 0, 0, 0, |us|
  {
    if us == [] then 0 else SumElections(ids, r, us[..|us| - 1]) + ElectionWeight(ids, us[|us| - 1])
  }

  ghost function MsgWeight(ids: seq<Uuid>, m: Msg): (w: nat)
    requires Compatible(ids) && MsgOk(ids, m)
    ensures w >= 1
  {
    match m
    case Election(to) => ElectionWeight(ids, to)
    case Coordinator(from, to) => if HigherId(from, to) then 1 else ElectionWeight(ids, to)
  }

  ghost function FlightWeight(ids: seq<Uuid>, ms: seq<Msg>): nat
    requires Compatible(ids) && AllOk(ids, ms)
  {
    if ms == [] then 0 else FlightWeight(ids, ms[..|ms| - 1]) + MsgWeight(ids, ms[|ms| - 1])
  }

  ghost function CoreWeight(ids: seq<Uuid>, c: Core): nat
    requires Compatible(ids) && c.uuid in ids
  {
    if c.election == Running then RunningWeight(ids, c.uuid) else 0
  }

  /** The weights of the running elections among the first n members. */
  ghost function RunningTotal(g: Group, n: nat): nat
    requires WellFormed(g) && Compatible(g.ids) && n <= |g.ids|
  {
    if n == 0 then 0 else RunningTotal(g, n - 1) + CoreWeight(g.ids, g.servers[g.ids[n - 1]])
  }

  ghost function Measure(g: Group): nat
    requires WellFormed(g) && Compatible(g.ids)
  {
    assert AllOk(g.ids, g.flight);
    FlightWeight(g.ids, g.flight) + RunningTotal(g, |g.ids|)
  }

  // ----- sums

  lemma {:induction false} FlightWeightConcat(ids: seq<Uuid>, a: seq<Msg>, b: seq<Msg>)
    requires Compatible(ids) && AllOk(ids, a + b)
    ensures AllOk(ids, a)
    ensures AllOk(ids, b)
    ensures FlightWeight(ids, a + b) == FlightWeight(ids, a) + FlightWeight(ids, b)
    decreases |b|
  {
    assert forall m :: m in a ==> m in a + b;
    assert forall m :: m in b ==> m in a + b;
    if b == [] {
      assert a + b == a;
    } else {
      assert (a + b)[..|a + b| - 1] == a + b[..|b| - 1];
      FlightWeightConcat(ids, a, b[..|b| - 1]);
    }
  }

  lemma FlightWeightWithout(ids: seq<Uuid>, ms: seq<Msg>, i: nat)
    requires Compatible(ids) && i < |ms| && AllOk(ids, ms)
    ensures AllOk(ids, Without(ms, i))
    ensures FlightWeight(ids, ms) == FlightWeight(ids, Without(ms, i)) + MsgWeight(ids, ms[i])
  {
    var a, b := ms[..i], ms[i + 1..];
    assert ms == (a + [ms[i]]) + b;
    FlightWeightConcat(ids, a + [ms[i]], b);
    FlightWeightConcat(ids, a, [ms[i]]);
    assert forall m :: m in Without(ms, i) ==> m in ms;
    FlightWeightConcat(ids, a, b);
    assert [ms[i]][..0] == [];
  }

  /** Starting an election writes messages of total weight AskedWeight. */
  lemma {:induction false} ElectionMsgsWeight(ids: seq<Uuid>, r: nat, us: seq<Uuid>)
    requires Compatible(ids) && AllLower(ids, us, r)
    ensures AllOk(ids, ElectionMsgs(us))
    ensures FlightWeight(ids, ElectionMsgs(us)) == SumElections(ids, r, us)
    decreases |us|
  {
    ElectionMsgsAt(us);
    if us != [] {
      ElectionMsgsAt(us[..|us| - 1]);
      ElectionMsgsWeight(ids, r, us[..|us| - 1]);
      assert ElectionMsgs(us)[..|us| - 1] == ElectionMsgs(us[..|us| - 1]);
    }
  }

  /** A claim writes at most one unit per lower member and an ELECTION weight per higher one. */
  lemma {:induction false} CoordinatorMsgsWeight(ids: seq<Uuid>, s: Uuid, us: seq<Uuid>)
    requires Compatible(ids) && s in ids && forall u :: u in us ==> u in ids && u != s
    ensures AllOk(ids, CoordinatorMsgs(s, us)) && AllLower(ids, Targets(us, s), Rank(ids, s))
    ensures FlightWeight(ids, CoordinatorMsgs(s, us)) <= |us| + SumElections(ids, Rank(ids, s), Targets(us, s))
    decreases |us|
  {
    HigherTargets(ids, s, us);
    CoordinatorMsgsOk(ids, s, us);
    if us != [] {
      var init, last := us[..|us| - 1], us[|us| - 1];
      assert us == init + [last];
      CoordinatorMsgsWeight(ids, s, init);
      CoordinatorMsgsStep(ids, s, init, last);
    }
  }

  lemma {:induction false} CoordinatorMsgsStep(ids: seq<Uuid>, s: Uuid, us: seq<Uuid>, u: Uuid)
    requires Compatible(ids) && s in ids && u in ids && u != s
    requires AllOk(ids, CoordinatorMsgs(s, us + [u])) && AllLower(ids, Targets(us + [u], s), Rank(ids, s))
    requires AllOk(ids, CoordinatorMsgs(s, us)) && AllLower(ids, Targets(us, s), Rank(ids, s))
    requires FlightWeight(ids, CoordinatorMsgs(s, us)) <= |us| + SumElections(ids, Rank(ids, s), Targets(us, s))
    ensures FlightWeight(ids, CoordinatorMsgs(s, us + [u]))
         <= |us| + 1 + SumElections(ids, Rank(ids, s), Targets(us + [u], s))
  {
    TargetsSnoc(us, u, s);
    CoordinatorMsgWeight(ids, s, u);
    CoordinatorMsgsSnoc(s, us, u);
    FlightWeightSnoc(ids, CoordinatorMsgs(s, us), Coordinator(s, u));
    if Integer(s) >= Integer(u) {
      SumElectionsSnoc(ids, Rank(ids, s), Targets(us, s), u);
    }
  }

  lemma CoordinatorMsgsSnoc(s: Uuid, us: seq<Uuid>, u: Uuid)
    ensures CoordinatorMsgs(s, us + [u]) == CoordinatorMsgs(s, us) + [Coordinator(s, u)]
  {
    CoordinatorMsgsAt(s, us);
    CoordinatorMsgsAt(s, us + [u]);
  }

  lemma CoordinatorMsgsOk(ids: seq<Uuid>, s: Uuid, us: seq<Uuid>)
    requires s in ids && forall u :: u in us ==> u in ids && u != s
    ensures AllOk(ids, CoordinatorMsgs(s, us))
  {
    CoordinatorMsgsAt(s, us);
  }

  lemma CoordinatorMsgWeight(ids: seq<Uuid>, s: Uuid, u: Uuid)
    requires Compatible(ids) && s in ids && u in ids && u != s
    ensures MsgWeight(ids, Coordinator(s, u)) == if Integer(s) < Integer(u) then 1 else ElectionWeight(ids, u)
  {
  }

  lemma FlightWeightSnoc(ids: seq<Uuid>, ms: seq<Msg>, m: Msg)
    requires Compatible(ids) && AllOk(ids, ms + [m])
    ensures AllOk(ids, ms) && MsgOk(ids, m)
    ensures FlightWeight(ids, ms + [m]) == FlightWeight(ids, ms) + MsgWeight(ids, m)
  {
  }

  lemma SumElectionsSnoc(ids: seq<Uuid>, r: nat, us: seq<Uuid>, u: Uuid)
    requires Compatible(ids) && AllLower(ids, us + [u], r)
    ensures u in ids && AllLower(ids, us, r)
    ensures SumElections(ids, r, us + [u]) == SumElections(ids, r, us) + ElectionWeight(ids, u)
  {
  }

  lemma HigherTargets(ids: seq<Uuid>, s: Uuid, us: seq<Uuid>)
    requires Compatible(ids) && s in ids && forall u :: u in us ==> u in ids && u != s
    ensures AllLower(ids, Targets(us, s), Rank(ids, s))
  {
    TargetsWithin(us, s);
    forall u | u in Targets(us, s)
      ensures u in ids && Rank(ids, u) < Rank(ids, s)
    {
      IntegerIsInjective(u, s);
      RankOrders(ids, u, s);
    }
  }

  /** Replacing one server changes the running total by that server's weight alone. */
  lemma {:induction false} RunningTotalReplaced(g: Group, h: Group, c: Core, n: nat)
    requires WellFormed(g) && Compatible(g.ids) && n <= |g.ids| && c.uuid in g.servers
    requires WellFormed(h) && h.ids == g.ids && h.servers == g.servers[c.uuid := c]
    ensures RunningTotal(h, n) + (if c.uuid in g.ids[..n] then CoreWeight(g.ids, g.servers[c.uuid]) else 0)
         == RunningTotal(g, n) + (if c.uuid in g.ids[..n] then CoreWeight(g.ids, c) else 0)
  {
    if n > 0 {
      RunningTotalReplaced(g, h, c, n - 1);
      assert g.ids[..n] == g.ids[..n - 1] + [g.ids[n - 1]];
      DistinctAt(g.ids, n - 1);
    }
  }

  // ----- every delivery and every claim costs

  /** Messages delivered and victories declared; other slices only wait or clean up. */
  ghost predicate Productive(g: Group, e: Event)
    requires Enabled(g, e)
  {
    e.Deliver? || (e.Resume? && Claims(g.servers[e.s], e.now))
  }

  lemma StartCost(ids: seq<Uuid>, c: Core, now: int)
    requires Compatible(ids) && c.uuid in ids && c.election == Idle
    ensures AllOk(ids, StartMsgs(ids, c))
    ensures FlightWeight(ids, StartMsgs(ids, c)) + CoreWeight(ids, Start(c, now)) + 1 == ElectionWeight(ids, c.uuid)
  {
    AskedAreHigher(ids, c.uuid);
    ElectionMsgsWeight(ids, Rank(ids, c.uuid), Asked(ids, c.uuid));
  }

  lemma ClaimCost(ids: seq<Uuid>, s: Uuid)
    requires Compatible(ids) && s in ids
    ensures AllOk(ids, CoordinatorMsgs(s, Others(ids, s)))
    ensures FlightWeight(ids, CoordinatorMsgs(s, Others(ids, s))) + 1 <= RunningWeight(ids, s)
  {
    OthersMembers(ids, s);
    CoordinatorMsgsWeight(ids, s, Others(ids, s));
  }

  ghost function Consumed(g: Group, e: Event): nat
    requires WellFormed(g) && Compatible(g.ids) && Enabled(g, e)
  {
    if e.Deliver? then MsgWeight(g.ids, g.flight[e.i]) else 0
  }

  /** What the acting server writes and becomes weighs less than what it consumed and was. */
  ghost predicate Pays(g: Group, e: Event)
    requires WellFormed(g) && Compatible(g.ids) && Enabled(g, e)
  {
    && Changed(g, e).uuid == Actor(g, e)
    && (AllOk(g.ids, Written(g, e)))
    && Covers(FlightWeight(g.ids, Written(g, e)), CoreWeight(g.ids, Changed(g, e)), Progress(g, e),
              Consumed(g, e), CoreWeight(g.ids, g.servers[Actor(g, e)]))
  }

  ghost predicate Covers(written: nat, after: nat, paid: nat, consumed: nat, before: nat) {
    written + after + paid <= consumed + before
  }

  ghost function Progress(g: Group, e: Event): nat
    requires Enabled(g, e)
  {
    if Productive(g, e) then 1 else 0
  }

  lemma DeliverPays(g: Group, e: Event)
    requires WellFormed(g) && Compatible(g.ids) && Enabled(g, e) && e.Deliver?
    ensures Pays(g, e)
  {
    var c, m := g.servers[g.flight[e.i].to], g.flight[e.i];
    if m.Election? {
      if c.election == Idle { StartCost(g.ids, c, e.now); }
    } else if !HigherId(m.from, c.uuid) {
      StartCost(g.ids, c.(election := Idle), e.now);
    }
  }

  lemma ResumePays(g: Group, e: Event)
    requires WellFormed(g) && Compatible(g.ids) && Enabled(g, e) && e.Resume?
    ensures Pays(g, e)
  {
    if Claims(g.servers[e.s], e.now) { ClaimCost(g.ids, e.s); }
  }

  lemma StepPays(g: Group, e: Event)
    requires WellFormed(g) && Compatible(g.ids) && Enabled(g, e) && !e.Trigger?
    ensures Pays(g, e)
  {
    match e
    case Deliver(_, _) => DeliverPays(g, e);
    case Resume(_, _) => ResumePays(g, e);
    case Introduce(_, _) =>
  }

  /** The measure drops by at least one at every delivery and claim, and no other unprompted step raises it. */
  lemma StepCost(g: Group, e: Event)
    requires Ranked(g) && Compatible(g.ids) && Enabled(g, e) && !e.Trigger?
    ensures Ranked(Step(g, e)) && Step(g, e).ids == g.ids
    ensures Measure(Step(g, e)) + Progress(g, e) <= Measure(g)
  {
    StepKeepsRanked(g, e);
    StepPays(g, e);
    RemainingCost(g, e);
    ReplacedMeasure(g, Actor(g, e), Changed(g, e), Remaining(g, e), Written(g, e), Consumed(g, e), Progress(g, e));
  }

  lemma RemainingCost(g: Group, e: Event)
    requires WellFormed(g) && Compatible(g.ids) && Enabled(g, e)
    ensures AllOk(g.ids, g.flight)
    ensures AllOk(g.ids, Remaining(g, e))
    ensures FlightWeight(g.ids, Remaining(g, e)) + Consumed(g, e) == FlightWeight(g.ids, g.flight)
  {
    assert AllOk(g.ids, g.flight);
    if e.Deliver? { FlightWeightWithout(g.ids, g.flight, e.i); }
  }

  lemma ReplacedMeasure(g: Group, s: Uuid, c: Core, rest: seq<Msg>, written: seq<Msg>, consumed: nat, paid: nat)
    requires WellFormed(g) && Compatible(g.ids) && c.uuid == s && s in g.servers
    requires WellFormed(Group(g.ids, g.servers[s := c], rest + written))
    requires AllOk(g.ids, g.flight)
    requires AllOk(g.ids, rest)
    requires AllOk(g.ids, written)
    requires FlightWeight(g.ids, rest) + consumed == FlightWeight(g.ids, g.flight)
    requires Covers(FlightWeight(g.ids, written), CoreWeight(g.ids, c), paid, consumed, CoreWeight(g.ids, g.servers[s]))
    ensures Measure(Group(g.ids, g.servers[s := c], rest + written)) + paid <= Measure(g)
  {
    var h := Group(g.ids, g.servers[s := c], rest + written);
    FlightWeightConcat(g.ids, rest, written);
    RunningTotalReplaced(g, h, c, |g.ids|);
    assert g.ids[..|g.ids|] == g.ids;
  }

  ghost function ProductiveSteps(g: Group, es: seq<Event>): nat
    requires Runs(g, es)
    decreases |es|
  {
    if es == [] then 0
    else Progress(g, es[0]) + ProductiveSteps(Step(g, es[0]), es[1..])
  }

  ghost predicate Unprompted(es: seq<Event>) {
    forall i :: 0 <= i < |es| ==> !es[i].Trigger?
  }

  /** Elections stop: however messages are delivered and timers expire, a run without outside triggers
      makes at most Measure(g) deliveries and claims. */
  lemma {:induction false} ElectionsStop(g: Group, es: seq<Event>)
    requires Ranked(g) && Compatible(g.ids) && Runs(g, es) && Unprompted(es)
    ensures ProductiveSteps(g, es) <= Measure(g)
    decreases |es|
  {
    if es != [] {
      StepCost(g, es[0]);
      ElectionsStop(Step(g, es[0]), es[1..]);
    }
  }
}
