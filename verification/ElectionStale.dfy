/** A COORDINATOR message that is overtaken: an election can end with a server that follows a member that lost,
    in every group of three or more. */
module ElectionStale {
  import opened Uuids
  import opened ElectionServer
  import opened ElectionGroup
  import opened ElectionClocks
  import opened ElectionTermination
  import opened ElectionLoops
  import opened ElectionAgreement
  import opened ElectionFinish

  // ----- a message that waits while a run goes on

  /** h is g with the message m waiting in flight, behind k others. */
  ghost predicate Waits(g: Group, h: Group, m: Msg, k: nat) {
    && h.ids == g.ids && h.servers == g.servers && k <= |g.flight|
    && h.flight == Inserted(g.flight, m, k)
  }

  /** The same event while m waits. */
  ghost function Beside(e: Event, k: nat): Event {
    if e.Deliver? && e.i >= k then Deliver(e.i + 1, e.now) else e
  }

  lemma BesideStep(g: Group, h: Group, m: Msg, k: nat, e: Event)
    requires Waits(g, h, m, k) && Enabled(g, e)
    ensures Enabled(h, Beside(e, k))
    ensures Waits(Step(g, e), Step(h, Beside(e, k)), m, if e.Deliver? && e.i < k then k - 1 else k)
  {
    SameEffect(g, h, m, k, e);
    BesideRemaining(g, h, m, k, e);
    BesideMore(Remaining(g, e), m, if e.Deliver? && e.i < k then k - 1 else k, Written(g, e));
  }

  lemma BesideRemaining(g: Group, h: Group, m: Msg, k: nat, e: Event)
    requires Waits(g, h, m, k) && Enabled(g, e) && Enabled(h, Beside(e, k))
    ensures Remaining(h, Beside(e, k)) == Inserted(Remaining(g, e), m, if e.Deliver? && e.i < k then k - 1 else k)
  {
    if e.Deliver? { WithoutBeside(g.flight, m, k, e.i); }
  }

  lemma SameEffect(g: Group, h: Group, m: Msg, k: nat, e: Event)
    requires Waits(g, h, m, k) && Enabled(g, e)
    ensures Enabled(h, Beside(e, k)) && Actor(h, Beside(e, k)) == Actor(g, e)
    ensures Written(h, Beside(e, k)) == Written(g, e) && Changed(h, Beside(e, k)) == Changed(g, e)
  {
  }

  ghost function Inserted(ms: seq<Msg>, m: Msg, k: nat): seq<Msg>
    requires k <= |ms|
  {
    ms[..k] + [m] + ms[k..]
  }

  lemma WithoutBeside(ms: seq<Msg>, m: Msg, k: nat, i: nat)
    requires k <= |ms| && i < |ms|
    ensures Without(Inserted(ms, m, k), if i < k then i else i + 1) == Inserted(Without(ms, i), m, if i < k then k - 1 else k)
  {
  }

  lemma BesideMore(ms: seq<Msg>, m: Msg, k: nat, more: seq<Msg>)
    requires k <= |ms|
    ensures Inserted(ms, m, k) + more == Inserted(ms + more, m, k)
  {
  }

  /** Clock readings and triggers of two runs, event by event. */
  ghost predicate SameTimes(es: seq<Event>, fs: seq<Event>) {
    |es| == |fs| && forall i :: 0 <= i < |es| ==>
      (es[i].Introduce? <==> fs[i].Introduce?) && (!es[i].Introduce? ==> es[i].now == fs[i].now)
  }

  /** Every run can go on beside a waiting message. */
  lemma {:induction false} BesideRun(g: Group, h: Group, m: Msg, k: nat, es: seq<Event>) returns (fs: seq<Event>, k': nat)
    requires Waits(g, h, m, k) && Runs(g, es)
    ensures Runs(h, fs) && SameTimes(es, fs) && Waits(RunOf(g, es), RunOf(h, fs), m, k')
    decreases |es|
  {
    if es == [] {
      fs, k' := [], k;
    } else {
      var e, e' := es[0], Beside(es[0], k);
      BesideStep(g, h, m, k, e);
      var rest;
      rest, k' := BesideRun(Step(g, e), Step(h, e'), m, if e.Deliver? && e.i < k then k - 1 else k, es[1..]);
      Prefixed(h, e', rest);
      fs := [e'] + rest;
    }
  }

  lemma SameTimesPaced(es: seq<Event>, fs: seq<Event>, lo: int, hi: int)
    requires SameTimes(es, fs) && Paced(es, lo, hi)
    ensures Paced(fs, lo, hi)
  {
  }

  // ----- x claims, its message to z waits until everything else is over

  lemma XStarts(g: Group, x: Uuid, top: Uuid)
    requires Good(g, top) && x in g.servers && g.servers[x] == Initial(x)
    ensures Enabled(g, Trigger(x, 0)) && Good(Step(g, Trigger(x, 0)), top) && Step(g, Trigger(x, 0)).ids == g.ids
    ensures var c := Step(g, Trigger(x, 0)).servers[x]; c.election == Running && c.timer.start == 0
  {
    StepKeepsGood(g, Trigger(x, 0), top);
  }

  lemma XClaims(g: Group, x: Uuid, z: Uuid, top: Uuid) returns (es: seq<Event>, k: nat)
    requires Good(g, top) && x in g.ids && z in g.ids && x != z && g.servers[x] == Initial(x) && StartedBy(g, 1)
    ensures Runs(g, es) && Prompted(es) && Paced(es, 0, 1)
    ensures var h := RunOf(g, es);
      && Good(h, top) && h.ids == g.ids && StartedBy(h, 1)
      && k < |h.flight| && h.flight[k] == Coordinator(x, z)
  {
    XStarts(g, x, top);
    var e := Trigger(x, 0);
    var rest := ResumeToClaim(Step(g, e), x, 1, top);
    Prefixed(g, e, rest);
    es := [e] + rest;
    ClaimTimes(e, rest, x);
    RunKeepsStarted(g, es, 1);
    k := ClaimOnItsWay(RunOf(g, es), Step(g, e), x, z);
  }

  lemma ClaimTimes(e: Event, rest: seq<Event>, x: Uuid)
    requires e == Trigger(x, 0) && forall i :: 0 <= i < |rest| ==> rest[i] == Resume(x, 1)
    ensures Prompted([e] + rest) && Paced([e] + rest, 0, 1)
  {
    assert ([e] + rest)[0].Trigger?;
  }

  lemma ClaimOnItsWay(h: Group, g: Group, x: Uuid, z: Uuid) returns (k: nat)
    requires Ranked(g) && x in g.servers && z in g.ids && z != x && ClaimedBy(h, g, x)
    ensures k < |h.flight| && h.flight[k] == Coordinator(x, z)
  {
    var others := Others(g.ids, x);
    OthersMembers(g.ids, x);
    CoordinatorMsgsAt(x, others);
    var i :| 0 <= i < |others| && others[i] == z;
    assert CoordinatorMsgs(x, others)[i] == Coordinator(x, z);
    k := |g.flight| + i;
  }

  lemma TakenOut(g: Group, h: Group, k: nat, top: Uuid)
    requires Good(h, top) && k < |h.flight| && g == Group(h.ids, h.servers, Without(h.flight, k))
    ensures Good(g, top) && Waits(g, h, h.flight[k], k)
  {
    assert forall m :: m in g.flight ==> m in h.flight;
  }

  /** With one message taken out of flight, everything else can be brought to rest. */
  lemma RestBeside(h: Group, k: nat, top: Uuid) returns (es: seq<Event>)
    requires Good(h, top) && StartedBy(h, 1) && k < |h.flight|
    ensures Runs(h, es) && Paced(es, 1, 3)
    ensures var r := RunOf(h, es);
      && Good(r, top) && r.ids == h.ids && r.flight == [h.flight[k]]
      && forall s :: s in r.servers ==> r.servers[s].election == Idle
  {
    var g := Group(h.ids, h.servers, Without(h.flight, k));
    TakenOut(g, h, k, top);
    var fs, t := CanFinish(g, 1);
    var k';
    es, k' := BesideRun(g, h, h.flight[k], k, fs);
    SameTimesPaced(fs, es, 1, 3);
    RunKeepsRanked(h, es);
    RunKeepsLive(h, es);
  }

  /** The last message is accepted. */
  lemma LastAccepted(g: Group, x: Uuid, z: Uuid)
    requires Ranked(g) && z in g.servers && g.flight == [Coordinator(x, z)] && HigherId(x, z)
    requires forall s :: s in g.servers ==> g.servers[s].election == Idle
    ensures Enabled(g, Deliver(0, 3))
    ensures var h := Step(g, Deliver(0, 3)); Quiescent(h) && z in h.servers && h.servers[z].coordinator == x
  {
    assert Without(g.flight, 0) + [] == [];
  }

  /** In every group, whatever the identities: for any member x below the top and any z below x some run with clocks
      that do not go back ends at rest with z following x. */
  lemma AgreementCanFail(ids: seq<Uuid>, top: Uuid, x: Uuid, z: Uuid) returns (es: seq<Event>)
    requires Distinct(ids) && IsTop(InitialGroup(ids), top) && x in ids && z in ids && x != top && HigherId(x, z)
    ensures Runs(InitialGroup(ids), es) && Prompted(es) && Clocked(es) && Quiescent(RunOf(InitialGroup(ids), es))
    ensures z in RunOf(InitialGroup(ids), es).servers && RunOf(InitialGroup(ids), es).servers[z].coordinator == x
  {
    var g := InitialGroup(ids);
    InitialIsRanked(ids);
    HigherIdIsTotalOrder(x, z, x);
    var first, k := XClaims(g, x, z, top);
    var rest := AcceptedLast(RunOf(g, first), k, x, z, top);
    RunsConcat(g, first, rest);
    ClockedConcat(first, rest, 1);
    es := first + rest;
    var i :| 0 <= i < |first| && first[i].Trigger?;
    assert es[i] == first[i];
  }

  lemma AcceptedLast(h: Group, k: nat, x: Uuid, z: Uuid, top: Uuid) returns (es: seq<Event>)
    requires Good(h, top) && StartedBy(h, 1) && k < |h.flight| && h.flight[k] == Coordinator(x, z) && HigherId(x, z)
    ensures Runs(h, es) && Paced(es, 1, 3) && Quiescent(RunOf(h, es))
    ensures z in RunOf(h, es).servers && RunOf(h, es).servers[z].coordinator == x
  {
    var rest := RestBeside(h, k, top);
    var last := Deliver(0, 3);
    var r := RunOf(h, rest);
    assert MsgOk(r.ids, r.flight[0]);
    LastAccepted(r, x, z);
    RunOfOne(r, last);
    RunsConcat(h, rest, [last]);
    PacedConcat(rest, [last], 1, 3, 3, 3);
    es := rest + [last];
  }

  // ----- exactly the groups that cannot disagree

  /** All servers follow the top-ranked member. */
  ghost predicate Agreed(g: Group) {
    forall s :: s in g.servers ==> IsTop(g, g.servers[s].coordinator)
  }

  /** Every run that has come to rest after an election has left agreement; `clocked` leaves out runs in which
      clocks go back. */
  ghost predicate AgreesAtRest(ids: seq<Uuid>, clocked: bool) {
    forall es | Runs(InitialGroup(ids), es) && Prompted(es) && (clocked ==> Clocked(es)) ::
      Quiescent(RunOf(InitialGroup(ids), es)) ==> Agreed(RunOf(InitialGroup(ids), es))
  }

  lemma PairAgrees(ids: seq<Uuid>, es: seq<Event>)
    requires Distinct(ids) && |ids| <= 2
    requires Runs(InitialGroup(ids), es) && Prompted(es) && Quiescent(RunOf(InitialGroup(ids), es))
    ensures Agreed(RunOf(InitialGroup(ids), es))
  {
    var g := RunOf(InitialGroup(ids), es);
    InitialIsRanked(ids);
    RunKeepsRanked(InitialGroup(ids), es);
    if ids != [] {
      var top := TopAmong(ids);
      assert IsTop(InitialGroup(ids), top) && IsTop(g, top);
      UniqueMaster(ids, es, top);
      forall s | s in g.servers
        ensures g.servers[s].coordinator == top
      {
        FollowsTheOther(ids, g.servers[s], top);
      }
    }
  }

  lemma FollowsTheOther(ids: seq<Uuid>, c: Core, top: Uuid)
    requires |ids| <= 2 && CoreRanked(ids, c) && c.uuid in ids && top in ids && (c.role == Master <==> c.uuid == top)
    ensures c.coordinator == top
  {
    HigherIdIsTotalOrder(c.coordinator, c.uuid, c.coordinator);
  }

  /** Of three members two are below the top, one of them below the other. */
  lemma TwoBelow(ids: seq<Uuid>, top: Uuid) returns (x: Uuid, z: Uuid)
    requires Distinct(ids) && |ids| >= 3
    ensures x in ids && z in ids && x != top && HigherId(x, z)
  {
    DistinctAt(ids, 1);
    DistinctAt(ids, 2);
    var p, q := ids[0], ids[1];
    assert ids[0] in ids[..1] && ids[0] in ids[..2] && ids[1] in ids[..2];
    if ids[0] == top { p := ids[2]; } else if ids[1] == top { q := ids[2]; }
    HigherIdIsTotalOrder(p, q, p);
    if HigherId(p, q) { x, z := p, q; } else { x, z := q, p; }
  }

  /** Every election that comes to rest leaves agreement if and only if the group has at most two members, whether
      or not clocks may go back. */
  lemma AgreesIffAtMostTwo(ids: seq<Uuid>, clocked: bool)
    requires Distinct(ids)
    ensures AgreesAtRest(ids, clocked) <==> |ids| <= 2
  {
    if |ids| <= 2 {
      forall es | Runs(InitialGroup(ids), es) && Prompted(es) && Quiescent(RunOf(InitialGroup(ids), es))
        ensures Agreed(RunOf(InitialGroup(ids), es))
      {
        PairAgrees(ids, es);
      }
    } else {
      var top := TopAmong(ids);
      assert IsTop(InitialGroup(ids), top);
      var x, z := TwoBelow(ids, top);
      var es := AgreementCanFail(ids, top, x, z);
      HigherIdIsTotalOrder(top, x, top);
      RunKeepsIds(InitialGroup(ids), es);
      assert !IsTop(RunOf(InitialGroup(ids), es), x);
      assert !Agreed(RunOf(InitialGroup(ids), es));
    }
  }

  lemma RunKeepsIds(g: Group, es: seq<Event>)
    requires Runs(g, es)
    ensures RunOf(g, es).servers.Keys == g.servers.Keys
    decreases |es|
  {
    if es != [] { RunKeepsIds(Step(g, es[0]), es[1..]); }
  }

  /** Three servers started in successive milliseconds can have identities that both orders rank alike, and still
      disagree at rest. */
  lemma GeneratedCanDisagree(m: nat)
    requires m + 2 < TWO_48 && m % 256 < 254
    ensures var ids := [Generated(m, 1), Generated(m + 1, 2), Generated(m + 2, 3)];
      Distinct(ids) && Compatible(ids) && !AgreesAtRest(ids, true)
  {
    var t, x, z := ThreeGenerated(m);
    InRank(t, x, z);
    AgreesIffAtMostTwo([t, x, z], true);
  }

  lemma InRank(t: Uuid, x: Uuid, z: Uuid)
    requires HigherId(t, x) && HigherId(x, z) && Integer(t) < Integer(x) < Integer(z)
    ensures Distinct([t, x, z]) && Compatible([t, x, z])
  {
    var ids := [t, x, z];
    assert ids[..2] == [t, x] && [t, x][..1] == [t] && [t][..0] == [];
    assert Distinct([t]) && Distinct([t, x]);
    HigherIdIsTotalOrder(t, x, z);
    HigherIdIsTotalOrder(t, x, t);
    HigherIdIsTotalOrder(x, z, x);
    HigherIdIsTotalOrder(t, z, t);
  }
}
