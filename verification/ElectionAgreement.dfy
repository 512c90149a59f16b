/** Where elections end: one master, the top-ranked member, once every message is handled and no election runs. */
module ElectionAgreement {
  import opened Uuids
  import opened Timers
  import opened ElectionServer
  import opened ElectionGroup

  ghost predicate Quiescent(g: Group) {
    g.flight == [] && forall s :: s in g.servers ==> g.servers[s].election == Idle
  }

  /** The top-ranked member is in an election or about to be: any message to it makes it start one. */
  ghost predicate Contacted(g: Group, top: Uuid)
    requires top in g.servers
  {
    g.servers[top].election == Running || exists m :: m in g.flight && m.to == top
  }

  /** Unless the top is still to act, s is a replica or has its COORDINATOR message under way. */
  ghost predicate Settled(g: Group, top: Uuid, s: Uuid)
    requires top in g.servers && s in g.servers
  {
    Contacted(g, top) || g.servers[s].role == Replica || Coordinator(top, s) in g.flight
  }

  ghost predicate AllSettled(g: Group, top: Uuid)
    requires top in g.servers
  {
    forall s {:trigger Settled(g, top, s)} :: s in g.servers && s != top ==> Settled(g, top, s)
  }

  /** Before the first claim: someone runs an election and nobody has announced a victory. */
  ghost predicate Campaigning(g: Group) {
    && (exists s :: s in g.servers && g.servers[s].election == Running)
    && forall m :: m in g.flight ==> m.Election?
  }

  /** Before the first election. */
  ghost predicate Untouched(g: Group) {
    g.flight == [] && forall s :: s in g.servers ==> g.servers[s].election == Idle && g.servers[s].co == CoCreated
  }

  // ----- messages across a step

  /** A message not delivered by the step is still in flight after it. */
  lemma StillInFlight(g: Group, e: Event, m: Msg)
    requires Enabled(g, e) && m in g.flight
    requires e.Deliver? ==> g.flight[e.i] != m
    ensures m in Step(g, e).flight
  {
    var k :| 0 <= k < |g.flight| && g.flight[k] == m;
    if e.Deliver? {
      var r := Without(g.flight, e.i);
      assert r[if k < e.i then k else k - 1] == m;
    }
  }

  lemma WrittenInFlight(g: Group, e: Event, m: Msg)
    requires Enabled(g, e) && m in Written(g, e)
    ensures m in Step(g, e).flight
  {
  }

  lemma ComesFrom(g: Group, e: Event, m: Msg)
    requires Enabled(g, e) && m in Step(g, e).flight
    ensures m in g.flight || m in Written(g, e)
  {
  }

  /** Only a claim writes COORDINATOR messages. */
  lemma OnlyElections(g: Group, e: Event)
    requires Enabled(g, e) && (e.Resume? ==> !Claims(g.servers[e.s], e.now))
    ensures forall m :: m in Written(g, e) ==> m.Election?
  {
    var s := g.servers[Actor(g, e)].uuid;
    ElectionMsgsAt(Targets(Others(g.ids, s), s));
  }

  /** A claim tells every other member. */
  lemma ClaimTells(g: Group, e: Event, u: Uuid)
    requires WellFormed(g) && Enabled(g, e) && e.Resume? && Claims(g.servers[e.s], e.now)
    requires u in g.servers && u != e.s
    ensures Coordinator(e.s, u) in Step(g, e).flight
  {
    OthersMembers(g.ids, e.s);
    var us := Others(g.ids, e.s);
    var k :| 0 <= k < |us| && us[k] == u;
    CoordinatorMsgsAt(e.s, us);
    assert CoordinatorMsgs(e.s, us)[k] == Coordinator(e.s, u);
    WrittenInFlight(g, e, Coordinator(e.s, u));
  }

  // ----- the step cases

  /** A step of the top member itself: it ends up running, or it announces its victory, or it only waits. */
  lemma TopSteps(g: Group, e: Event, top: Uuid, s: Uuid)
    requires Ranked(g) && IsTop(g, top) && Enabled(g, e) && Actor(g, e) == top
    requires s in g.servers && s != top && Settled(g, top, s)
    ensures Settled(Step(g, e), top, s)
  {
    if e.Resume? && Claims(g.servers[top], e.now) {
      ClaimTells(g, e, s);
    } else if Contacted(g, top) {
      TopStaysContacted(g, e, top);
    } else if Coordinator(top, s) in g.flight {
      StillInFlight(g, e, Coordinator(top, s));
    }
  }

  lemma NobodyAboveTop(g: Group, top: Uuid, u: Uuid)
    requires Ranked(g) && IsTop(g, top) && u in g.ids
    ensures !HigherId(u, top)
  {
    HigherIdIsTotalOrder(u, top, u);
    assert u in g.servers;
  }

  lemma KeepsFlight(g: Group, e: Event)
    requires Enabled(g, e) && (e.Introduce? || (e.Resume? && !Claims(g.servers[e.s], e.now)))
    ensures Step(g, e).flight == g.flight
  {
  }

  /** A step of the top member's own, short of its claim, leaves it in contact. */
  lemma TopStaysContacted(g: Group, e: Event, top: Uuid)
    requires Ranked(g) && IsTop(g, top) && Enabled(g, e) && Actor(g, e) == top && Contacted(g, top)
    requires e.Resume? ==> !Claims(g.servers[top], e.now)
    ensures Contacted(Step(g, e), top)
  {
    match e
    case Deliver(i, now) =>
      var m := g.flight[i];
      assert m in g.flight;
      if m.Coordinator? { NobodyAboveTop(g, top, m.from); }
    case Resume(_, _) => KeepsFlight(g, e);
    case Trigger(_, _) =>
    case Introduce(_, _) => KeepsFlight(g, e);
  }

  /** A step elsewhere leaves the top member contacted. */
  lemma ContactKept(g: Group, e: Event, top: Uuid)
    requires Enabled(g, e) && top in g.servers && Actor(g, e) != top && Contacted(g, top)
    ensures Contacted(Step(g, e), top)
  {
    if g.servers[top].election != Running {
      var m :| m in g.flight && m.to == top;
      StillInFlight(g, e, m);
    }
  }

  /** A message handled by s: its role stays, or it accepts a higher coordinator. */
  lemma OwnDelivery(g: Group, e: Event, top: Uuid, s: Uuid)
    requires Ranked(g) && IsTop(g, top) && Enabled(g, e) && e.Deliver? && Actor(g, e) == s
    requires s != top && (g.servers[s].role == Replica || Coordinator(top, s) in g.flight)
    ensures Settled(Step(g, e), top, s)
  {
  }

  lemma RoleAfterIntroduction(g: Group, e: Event)
    requires Ranked(g) && Enabled(g, e) && e.Introduce? && g.servers[e.s].role == Replica
    ensures Changed(g, e).role == Replica
  {
  }

  /** A step of s itself. */
  lemma OwnStep(g: Group, e: Event, top: Uuid, s: Uuid)
    requires Ranked(g) && IsTop(g, top) && Enabled(g, e) && Actor(g, e) == s
    requires s != top && (g.servers[s].role == Replica || Coordinator(top, s) in g.flight)
    ensures Settled(Step(g, e), top, s)
  {
    match e
    case Deliver(_, _) => OwnDelivery(g, e, top, s);
    case Resume(_, now) =>
      if Claims(g.servers[s], now) {
        ClaimTells(g, e, top);
      } else {
        KeepsFlight(g, e);
      }
    case Trigger(_, _) =>
      if g.servers[s].role != Replica { StillInFlight(g, e, Coordinator(top, s)); }
    case Introduce(_, _) =>
      KeepsFlight(g, e);
      if g.servers[s].role == Replica { RoleAfterIntroduction(g, e); }
  }

  lemma SettledKept(g: Group, e: Event, top: Uuid, s: Uuid)
    requires Ranked(g) && IsTop(g, top) && Enabled(g, e)
    requires s in g.servers && s != top && Settled(g, top, s)
    ensures s in Step(g, e).servers && Settled(Step(g, e), top, s)
  {
    var p := Actor(g, e);
    if p == top {
      TopSteps(g, e, top, s);
    } else if Contacted(g, top) {
      ContactKept(g, e, top);
    } else if p == s {
      OwnStep(g, e, top, s);
    } else if Coordinator(top, s) in g.flight {
      StillInFlight(g, e, Coordinator(top, s));
    }
  }

  /** The first claim either comes from the top, which tells everyone, or reaches the top. */
  lemma CampaignStep(g: Group, e: Event, top: Uuid)
    requires Ranked(g) && IsTop(g, top) && Enabled(g, e) && Campaigning(g)
    ensures top in Step(g, e).servers
    ensures Campaigning(Step(g, e)) || AllSettled(Step(g, e), top)
  {
    if e.Resume? && Claims(g.servers[e.s], e.now) {
      if e.s == top {
        forall s | s in g.servers && s != top
          ensures Settled(Step(g, e), top, s)
        {
          ClaimTells(g, e, s);
        }
      } else {
        ClaimTells(g, e, top);
      }
    } else {
      CampaignGoesOn(g, e);
    }
  }

  lemma CampaignGoesOn(g: Group, e: Event)
    requires WellFormed(g) && Enabled(g, e) && Campaigning(g)
    requires e.Resume? ==> !Claims(g.servers[e.s], e.now)
    ensures Campaigning(Step(g, e))
  {
    var h := Step(g, e);
    var s :| s in g.servers && g.servers[s].election == Running;
    if e.Deliver? { assert g.flight[e.i] in g.flight; }
    assert h.servers[s].election == Running;
    OnlyElections(g, e);
    forall m | m in h.flight
      ensures m.Election?
    {
      ComesFrom(g, e, m);
    }
  }

  lemma UntouchedStep(g: Group, e: Event)
    requires WellFormed(g) && Enabled(g, e) && Untouched(g)
    ensures if e.Trigger? then Campaigning(Step(g, e)) else Untouched(Step(g, e))
  {
    if e.Trigger? {
      var h := Step(g, e);
      assert h.servers[e.s].election == Running;
      assert h.flight == Written(g, e);
      OnlyElections(g, e);
    } else {
      KeepsFlight(g, e);
    }
  }

  // ----- whole runs

  ghost predicate Progressing(g: Group, top: Uuid) {
    top in g.servers && (Campaigning(g) || AllSettled(g, top))
  }

  lemma {:induction false} ProgressKept(g: Group, es: seq<Event>, top: Uuid)
    requires Ranked(g) && IsTop(g, top) && Progressing(g, top) && Runs(g, es)
    ensures Ranked(RunOf(g, es)) && IsTop(RunOf(g, es), top) && Progressing(RunOf(g, es), top)
    decreases |es|
  {
    if es != [] {
      var h := Step(g, es[0]);
      OneStep(g, es[0], top);
      ProgressKept(h, es[1..], top);
    }
  }

  lemma OneStep(g: Group, e: Event, top: Uuid)
    requires Ranked(g) && IsTop(g, top) && Progressing(g, top) && Enabled(g, e)
    ensures Ranked(Step(g, e)) && IsTop(Step(g, e), top) && Progressing(Step(g, e), top)
  {
    StepKeepsRanked(g, e);
    if Campaigning(g) {
      CampaignStep(g, e, top);
    } else {
      forall s | s in g.servers && s != top
        ensures s in Step(g, e).servers && Settled(Step(g, e), top, s)
      {
        assert Settled(g, top, s);
        SettledKept(g, e, top, s);
      }
    }
  }

  ghost predicate Prompted(es: seq<Event>) {
    exists i :: 0 <= i < |es| && es[i].Trigger?
  }

  lemma {:induction false} ProgressReached(g: Group, es: seq<Event>, top: Uuid)
    requires Ranked(g) && IsTop(g, top) && Untouched(g) && Runs(g, es) && Prompted(es)
    ensures Ranked(RunOf(g, es)) && IsTop(RunOf(g, es), top) && Progressing(RunOf(g, es), top)
    decreases |es|
  {
    var h := Step(g, es[0]);
    StepKeepsRanked(g, es[0]);
    UntouchedStep(g, es[0]);
    if es[0].Trigger? {
      ProgressKept(h, es[1..], top);
    } else {
      var i :| 0 <= i < |es| && es[i].Trigger?;
      assert es[1..][i - 1] == es[i];
      ProgressReached(h, es[1..], top);
    }
  }

  /** When all is quiet after at least one election, the top-ranked member is the only master and every
      server reaches it by following coordinators: for any messages order, any timing, any further
      triggers and any identities. */
  lemma {:induction false} UniqueMaster(ids: seq<Uuid>, es: seq<Event>, top: Uuid)
    requires Distinct(ids) && IsTop(InitialGroup(ids), top)
    requires Runs(InitialGroup(ids), es) && Prompted(es) && Quiescent(RunOf(InitialGroup(ids), es))
    ensures var g := RunOf(InitialGroup(ids), es);
      && Ranked(g) && (forall s :: s in g.servers ==> (g.servers[s].role == Master <==> s == top))
      && forall s :: s in g.servers ==> Leader(g, s) == top
  {
    InitialIsRanked(ids);
    ProgressReached(InitialGroup(ids), es, top);
    var g := RunOf(InitialGroup(ids), es);
    LeadersAreMasters(g, top, top);
    forall s | s in g.servers && s != top
      ensures g.servers[s].role == Replica
    {
      assert Settled(g, top, s);
    }
  }
}
