/** Every election can be brought to its end, whatever the identities: some run without further triggers
    leaves nothing to do. */
module ElectionFinish {
  import opened Uuids
  import opened Timers
  import opened ElectionServer
  import opened ElectionGroup
  import opened ElectionClocks
  import opened ElectionTermination
  import opened ElectionLoops
  import opened ElectionAgreement

  /** A running election has its coroutine, and the coroutine has its timer. */
  ghost predicate CoreLive(c: Core) {
    && c.co in {CoCreated, CoRunning, CoCompleted}
    && (c.election == Running ==> c.co == CoRunning)
    && (c.co == CoRunning ==> c.timer.seconds == ELECTION_TIMEOUT && c.timer.state in {CoRunning, CoCompleted})
  }

  ghost predicate Live(g: Group) {
    forall s :: s in g.servers ==> CoreLive(g.servers[s])
  }

  lemma CoreStaysLive(g: Group, e: Event)
    requires Enabled(g, e) && CoreLive(g.servers[Actor(g, e)])
    ensures CoreLive(Changed(g, e))
  {
  }

  lemma StepKeepsLive(g: Group, e: Event)
    requires Enabled(g, e) && Live(g)
    ensures Live(Step(g, e))
  {
    CoreStaysLive(g, e);
  }

  lemma {:induction false} RunKeepsLive(g: Group, es: seq<Event>)
    requires Runs(g, es) && Live(g)
    ensures Live(RunOf(g, es))
    decreases |es|
  {
    if es != [] {
      StepKeepsLive(g, es[0]);
      RunKeepsLive(Step(g, es[0]), es[1..]);
    }
  }

  /** What every run of this file keeps. */
  ghost predicate Good(g: Group, top: Uuid) {
    Ranked(g) && Live(g) && IsTop(g, top)
  }

  lemma StepKeepsGood(g: Group, e: Event, top: Uuid)
    requires Good(g, top) && Enabled(g, e)
    ensures Good(Step(g, e), top) && Step(g, e).ids == g.ids
  {
    StepKeepsRanked(g, e);
    StepKeepsLive(g, e);
  }

  // ----- handling all messages, without a claim in between

  ghost function Claimed(ms: seq<Msg>): nat {
    if ms == [] then 0 else (if ms[0].Coordinator? then 1 else 0) + Claimed(ms[1..])
  }

  lemma {:induction false} ClaimedUnchanged(a: seq<Msg>, b: seq<Msg>)
    requires forall m :: m in b ==> m.Election?
    ensures Claimed(a + b) == Claimed(a)
  {
    if a == [] {
      assert a + b == b;
      if b != [] {
        assert b[0] in b;
        ClaimedUnchanged([], b[1..]);
        assert [] + b[1..] == b[1..];
      }
    } else {
      ClaimedUnchanged(a[1..], b);
      assert (a + b)[1..] == a[1..] + b;
    }
  }

  ghost function IdleServers(g: Group): set<Uuid> {
    set s | s in g.servers && g.servers[s].election == Idle
  }

  lemma IdleAfter(g: Group, s: Uuid, c: Core, flight: seq<Msg>)
    requires s in g.servers
    ensures IdleServers(Group(g.ids, g.servers[s := c], flight))
         == if c.election == Idle then IdleServers(g) + {s} else IdleServers(g) - {s}
  {
  }

  /** Less is left to handle: fewer claims, or fewer idle servers, or fewer messages. */
  ghost predicate LessLeft(h: Group, g: Group) {
    || Claimed(h.flight) < Claimed(g.flight)
    || (Claimed(h.flight) == Claimed(g.flight)
        && (IdleServers(h) < IdleServers(g) || (IdleServers(h) == IdleServers(g) && |h.flight| < |g.flight|)))
  }

  lemma DeliverFirst(g: Group, now: int, top: Uuid)
    requires Good(g, top) && g.flight != []
    ensures Enabled(g, Deliver(0, now)) && Good(Step(g, Deliver(0, now)), top)
    ensures Step(g, Deliver(0, now)).ids == g.ids && LessLeft(Step(g, Deliver(0, now)), g)
  {
    var e, m := Deliver(0, now), g.flight[0];
    assert m in g.flight && MsgOk(g.ids, m);
    StepKeepsGood(g, e, top);
    OnlyElections(g, e);
    assert Without(g.flight, 0) == g.flight[1..];
    ClaimedUnchanged(g.flight[1..], Written(g, e));
    if m.Election? {
      ElectionUses(g, now);
      IdleAfter(g, m.to, Changed(g, e), g.flight[1..] + Written(g, e));
    }
  }

  /** An ELECTION starts an idle server, or is absorbed without writing anything. */
  lemma ElectionUses(g: Group, now: int)
    requires g.flight != [] && Enabled(g, Deliver(0, now)) && g.flight[0].Election?
    ensures Changed(g, Deliver(0, now)).election == Running
    ensures g.servers[g.flight[0].to].election == Running ==> Written(g, Deliver(0, now)) == []
  {
  }

  /** A smaller set of idle servers has fewer members. */
  lemma {:induction false} FewerMembers(a: set<Uuid>, b: set<Uuid>)
    requires a < b
    ensures |a| < |b|
  {
    var x :| x in b && x !in a;
    if a != {} {
      var y :| y in a;
      FewerMembers(a - {y}, b - {y});
    }
  }

  /** Always the oldest message, at one time. */
  ghost predicate AllFirst(es: seq<Event>, now: int) {
    forall i :: 0 <= i < |es| ==> es[i] == Deliver(0, now)
  }

  lemma FirstOfAll(es: seq<Event>, now: int)
    requires AllFirst(es, now)
    ensures AllFirst([Deliver(0, now)] + es, now) && Unprompted([Deliver(0, now)] + es)
  {
  }

  /** All messages handled; a top member that was in an election or had a message is in one then. */
  lemma {:induction false} Drain(g: Group, now: int, top: Uuid) returns (es: seq<Event>)
    requires Good(g, top)
    ensures Runs(g, es) && Unprompted(es) && Good(RunOf(g, es), top) && RunOf(g, es).ids == g.ids
    ensures RunOf(g, es).flight == [] && AllFirst(es, now)
    ensures Contacted(g, top) ==> RunOf(g, es).servers[top].election == Running
    decreases Claimed(g.flight), |IdleServers(g)|, |g.flight|
  {
    if g.flight == [] {
      es := [];
    } else {
      var e := Deliver(0, now);
      DeliverFirst(g, now, top);
      var before, after := IdleServers(g), IdleServers(Step(g, e));
      if after < before { FewerMembers(after, before); }
      if Contacted(g, top) { DeliveryKeepsContact(g, e, top); }
      var rest := Drain(Step(g, e), now, top);
      Prefixed(g, e, rest);
      FirstOfAll(rest, now);
      es := [e] + rest;
    }
  }

  lemma DeliveryKeepsContact(g: Group, e: Event, top: Uuid)
    requires Good(g, top) && Enabled(g, e) && e.Deliver? && Contacted(g, top)
    ensures Contacted(Step(g, e), top)
  {
    if Actor(g, e) == top {
      TopStaysContacted(g, e, top);
    } else {
      ContactKept(g, e, top);
    }
  }

  // ----- a claim

  /** Only s has changed, and its claim is on its way to all others. */
  ghost predicate ClaimedBy(h: Group, g: Group, s: Uuid)
    requires s in g.servers
  {
    && h.ids == g.ids && h.flight == g.flight + CoordinatorMsgs(s, Others(g.ids, s))
    && s in h.servers && h.servers == g.servers[s := h.servers[s]] && h.servers[s].election == Idle
  }

  lemma ClaimingSlice(g: Group, s: Uuid, now: int)
    requires s in g.servers && g.servers[s].co == CoRunning && Claims(g.servers[s], now)
    ensures Enabled(g, Resume(s, now)) && ClaimedBy(Step(g, Resume(s, now)), g, s)
  {
  }

  lemma WaitingSlice(g: Group, s: Uuid, now: int)
    requires s in g.servers && g.servers[s].co == CoRunning && !Claims(g.servers[s], now)
    ensures Enabled(g, Resume(s, now))
    ensures Step(g, Resume(s, now)) == Group(g.ids, g.servers[s := Slice(g.servers[s], now)], g.flight)
  {
    KeepsFlight(g, Resume(s, now));
  }

  lemma ClaimedLater(h: Group, g: Group, s: Uuid, c: Core)
    requires s in g.servers && ClaimedBy(h, Group(g.ids, g.servers[s := c], g.flight), s)
    ensures ClaimedBy(h, g, s)
  {
  }

  /** Resuming one running server after its timeout leads to its claim. */
  lemma {:induction false} ResumeToClaim(g: Group, s: Uuid, now: int, top: Uuid) returns (es: seq<Event>)
    requires Good(g, top) && s in g.servers
    requires g.servers[s].election == Running && now >= g.servers[s].timer.start + ELECTION_TIMEOUT
    ensures Runs(g, es) && Unprompted(es) && Good(RunOf(g, es), top) && ClaimedBy(RunOf(g, es), g, s)
    ensures es != [] && forall i :: 0 <= i < |es| ==> es[i] == Resume(s, now)
    decreases Waiting(g.servers[s], now)
  {
    var e, c := Resume(s, now), g.servers[s];
    assert CoreLive(c);
    if Claims(c, now) {
      ClaimingSlice(g, s, now);
      StepKeepsGood(g, e, top);
      RunOfOne(g, e);
      es := [e];
    } else {
      SliceTowardsClaim(c, now);
      WaitingSlice(g, s, now);
      StepKeepsGood(g, e, top);
      var rest := ResumeToClaim(Step(g, e), s, now, top);
      ClaimedLater(RunOf(Step(g, e), rest), g, s, Slice(c, now));
      Prefixed(g, e, rest);
      es := [e] + rest;
    }
  }

  /** The claim of any other server contacts the top member. */
  lemma ClaimContacts(h: Group, g: Group, s: Uuid, top: Uuid)
    requires Good(g, top) && s in g.servers && s != top && ClaimedBy(h, g, s)
    ensures top in h.servers && Contacted(h, top)
  {
    var others := Others(g.ids, s);
    OthersMembers(g.ids, s);
    CoordinatorMsgsAt(s, others);
    var k :| 0 <= k < |others| && others[k] == top;
    assert CoordinatorMsgs(s, others)[k] == Coordinator(s, top);
    assert Coordinator(s, top) in h.flight;
  }

  // ----- the claim of the top member is accepted by everyone

  /** Only claims of the top are under way, and one to each server that still runs an election. */
  ghost predicate Closing(g: Group, top: Uuid) {
    && (forall m :: m in g.flight ==> m.Coordinator? && m.from == top)
    && (forall s :: s in g.servers && g.servers[s].election == Running ==> Coordinator(top, s) in g.flight)
  }

  lemma ClaimCloses(h: Group, g: Group, top: Uuid)
    requires Good(g, top) && g.flight == [] && ClaimedBy(h, g, top)
    ensures Closing(h, top)
  {
    var others := Others(g.ids, top);
    OthersMembers(g.ids, top);
    CoordinatorMsgsAt(top, others);
    assert h.flight == CoordinatorMsgs(top, others);
    forall s | s in h.servers && h.servers[s].election == Running
      ensures Coordinator(top, s) in h.flight
    {
      assert s in g.servers && s in others;
      var k :| 0 <= k < |others| && others[k] == s;
      assert h.flight[k] == Coordinator(top, s);
    }
  }

  lemma {:induction false} AcceptAll(g: Group, now: int, top: Uuid) returns (es: seq<Event>)
    requires Good(g, top) && Closing(g, top)
    ensures Runs(g, es) && Unprompted(es) && Quiescent(RunOf(g, es)) && AllFirst(es, now)
    decreases |g.flight|
  {
    if g.flight == [] {
      es := [];
    } else {
      var e := Deliver(0, now);
      AcceptFirst(g, now, top);
      var rest := AcceptAll(Step(g, e), now, top);
      Prefixed(g, e, rest);
      FirstOfAll(rest, now);
      es := [e] + rest;
    }
  }

  lemma AcceptFirst(g: Group, now: int, top: Uuid)
    requires Good(g, top) && Closing(g, top) && g.flight != []
    ensures Enabled(g, Deliver(0, now))
    ensures var h := Step(g, Deliver(0, now)); Good(h, top) && Closing(h, top) && |h.flight| < |g.flight|
  {
    var e, m := Deliver(0, now), g.flight[0];
    assert m in g.flight && MsgOk(g.ids, m);
    StepKeepsGood(g, e, top);
    var h := Step(g, e);
    assert Written(g, e) == [];
    assert Without(g.flight, 0) + [] == g.flight[1..];
    forall s | s in h.servers && h.servers[s].election == Running
      ensures Coordinator(top, s) in h.flight
    {
      assert s != m.to && Coordinator(top, s) in g.flight;
      StillInFlight(g, e, Coordinator(top, s));
    }
  }

  // ----- putting it together

  lemma TopWins(g: Group, t: int, top: Uuid) returns (es: seq<Event>)
    requires Good(g, top) && g.flight == [] && g.servers[top].election == Running && StartedBy(g, t)
    ensures Runs(g, es) && Unprompted(es) && Quiescent(RunOf(g, es)) && AllAt(es, t + ELECTION_TIMEOUT)
  {
    assert CoreLive(g.servers[top]);
    var first := ResumeToClaim(g, top, t + ELECTION_TIMEOUT, top);
    var h := RunOf(g, first);
    ClaimCloses(h, g, top);
    var rest := AcceptAll(h, t + ELECTION_TIMEOUT, top);
    RunsConcat(g, first, rest);
    OneReading(first, rest, top, t + ELECTION_TIMEOUT);
    es := first + rest;
  }

  lemma OneReading(es: seq<Event>, fs: seq<Event>, s: Uuid, t: int)
    requires (forall i :: 0 <= i < |es| ==> es[i] == Resume(s, t)) && AllFirst(fs, t)
    ensures AllAt(es + fs, t) && Unprompted(es + fs)
  {
  }

  /** Somebody runs an election: it can be brought to the top member. */
  lemma ReachTop(g: Group, s: Uuid, t: int, top: Uuid) returns (es: seq<Event>)
    requires Good(g, top) && g.flight == [] && s in g.servers && g.servers[s].election == Running && StartedBy(g, t)
    ensures Runs(g, es) && Unprompted(es) && Good(RunOf(g, es), top) && AllAt(es, t + ELECTION_TIMEOUT)
    ensures RunOf(g, es).flight == [] && RunOf(g, es).servers[top].election == Running
  {
    if g.servers[top].election == Running {
      es := [];
    } else {
      assert CoreLive(g.servers[s]);
      var first := ResumeToClaim(g, s, t + ELECTION_TIMEOUT, top);
      var h := RunOf(g, first);
      ClaimContacts(h, g, s, top);
      var rest := Drain(h, t + ELECTION_TIMEOUT, top);
      RunsConcat(g, first, rest);
      OneReading(first, rest, s, t + ELECTION_TIMEOUT);
      es := first + rest;
    }
  }

  /** All messages are handled at t; if somebody runs an election then, the top member does at t + 1, and its
      claim at t + 2 ends everything. */
  lemma FinishBelow(g: Group, t: int, top: Uuid) returns (es: seq<Event>)
    requires Good(g, top) && StartedBy(g, t)
    ensures Runs(g, es) && Unprompted(es) && Quiescent(RunOf(g, es)) && Paced(es, t, t + 2 * ELECTION_TIMEOUT)
  {
    es := Drain(g, t, top);
    var h := RunOf(g, es);
    RunKeepsStarted(g, es, t);
    if !Quiescent(h) {
      var reach, win := ReachAndWin(h, t, top);
      ThreeRuns(g, es, reach, win);
      PacedThrice(es, reach, win, t);
      es := es + (reach + win);
    }
  }

  lemma ReachAndWin(h: Group, t: int, top: Uuid) returns (reach: seq<Event>, win: seq<Event>)
    requires Good(h, top) && h.flight == [] && !Quiescent(h) && StartedBy(h, t)
    ensures Runs(h, reach) && Unprompted(reach) && AllAt(reach, t + ELECTION_TIMEOUT)
    ensures Runs(RunOf(h, reach), win) && Unprompted(win) && AllAt(win, t + 2 * ELECTION_TIMEOUT)
    ensures Quiescent(RunOf(RunOf(h, reach), win))
  {
    var s :| s in h.servers && h.servers[s].election != Idle;
    reach := ReachTop(h, s, t, top);
    RunKeepsStarted(h, reach, t + ELECTION_TIMEOUT);
    win := TopWins(RunOf(h, reach), t + ELECTION_TIMEOUT, top);
  }

  lemma PacedThrice(es: seq<Event>, fs: seq<Event>, ds: seq<Event>, t: int)
    requires AllAt(es, t) && AllAt(fs, t + ELECTION_TIMEOUT) && AllAt(ds, t + 2 * ELECTION_TIMEOUT)
    ensures Paced(es + (fs + ds), t, t + 2 * ELECTION_TIMEOUT)
  {
    PacedConcat(fs, ds, t + ELECTION_TIMEOUT, t + ELECTION_TIMEOUT, t + 2 * ELECTION_TIMEOUT, t + 2 * ELECTION_TIMEOUT);
    PacedConcat(es, fs + ds, t, t, t + ELECTION_TIMEOUT, t + 2 * ELECTION_TIMEOUT);
  }

  lemma ThreeRuns(g: Group, es: seq<Event>, fs: seq<Event>, ds: seq<Event>)
    requires Runs(g, es) && Runs(RunOf(g, es), fs) && Runs(RunOf(RunOf(g, es), fs), ds)
    ensures Runs(g, es + (fs + ds)) && RunOf(g, es + (fs + ds)) == RunOf(RunOf(RunOf(g, es), fs), ds)
  {
    RunsConcat(RunOf(g, es), fs, ds);
    RunsConcat(g, es, fs + ds);
  }

  lemma {:induction false} TopAmong(ids: seq<Uuid>) returns (top: Uuid)
    requires ids != []
    ensures top in ids && forall s :: s in ids && s != top ==> HigherId(top, s)
  {
    if |ids| == 1 {
      top := ids[0];
    } else {
      top := TopAmong(ids[1..]);
      if HigherId(ids[0], top) {
        forall s | s in ids && s != ids[0]
          ensures HigherId(ids[0], s)
        {
          HigherIdIsTotalOrder(ids[0], top, s);
        }
        top := ids[0];
      } else {
        HigherIdIsTotalOrder(ids[0], top, top);
      }
    }
  }

  lemma SentToMember(g: Group)
    requires WellFormed(g)
    ensures g.flight != [] ==> g.flight[0].to in g.ids
  {
    if g.flight != [] { assert MsgOk(g.ids, g.flight[0]); }
  }

  /** The first of these times at or after `now` by which every running coroutine was created. */
  lemma LatestStart(g: Group, now: int) returns (t: int)
    ensures t >= now && StartedBy(g, t) && (StartedBy(g, now) ==> t == now)
  {
    if StartedBy(g, now) {
      t := now;
    } else {
      t := LatestAmong(g, g.servers.Keys, now);
    }
  }

  lemma {:induction false} LatestAmong(g: Group, among: set<Uuid>, now: int) returns (t: int)
    ensures t >= now && forall s :: s in g.servers && s in among ==> g.servers[s].timer.start <= t
    decreases |among|
  {
    if among == {} {
      t := now;
    } else {
      var s :| s in among;
      t := LatestAmong(g, among - {s}, now);
      if s in g.servers && g.servers[s].timer.start > t { t := g.servers[s].timer.start; }
    }
  }

  /** From every state some run without further triggers leads to rest, within two timeouts of the present (or of
      the latest time at which an election coroutine was created) and with clocks that do not go back. */
  lemma CanFinish(g: Group, now: int) returns (es: seq<Event>, t: int)
    requires Ranked(g) && Live(g)
    ensures Runs(g, es) && Unprompted(es) && Quiescent(RunOf(g, es))
    ensures Paced(es, t, t + 2 * ELECTION_TIMEOUT) && t >= now && (StartedBy(g, now) ==> t == now)
  {
    t := LatestStart(g, now);
    if g.ids == [] {
      SentToMember(g);
      es := [];
    } else {
      var top := TopAmong(g.ids);
      assert IsTop(g, top);
      es := FinishBelow(g, t, top);
    }
  }

  /** From every reachable state the group can come to rest, and at rest after an election the top-ranked member is
      the one master. If clocks have not gone back and show at most `now`, rest comes by now + 2 and they need not
      go back. */
  lemma EveryElectionCanFinish(ids: seq<Uuid>, es: seq<Event>, top: Uuid, now: int) returns (fs: seq<Event>)
    requires Distinct(ids) && IsTop(InitialGroup(ids), top)
    requires Runs(InitialGroup(ids), es) && Prompted(es)
    ensures Runs(InitialGroup(ids), es + fs) && Unprompted(fs) && Quiescent(RunOf(InitialGroup(ids), es + fs))
    ensures forall s :: s in RunOf(InitialGroup(ids), es + fs).servers ==>
              (RunOf(InitialGroup(ids), es + fs).servers[s].role == Master <==> s == top)
    ensures ReadUpTo(es, now) ==> Paced(fs, now, now + 2 * ELECTION_TIMEOUT) && (Clocked(es) ==> Clocked(es + fs))
  {
    var g := InitialGroup(ids);
    InitialIsRanked(ids);
    RunKeepsRanked(g, es);
    RunKeepsLive(g, es);
    var t;
    fs, t := CanFinish(RunOf(g, es), now);
    if ReadUpTo(es, now) {
      RunKeepsStarted(g, es, now);
      if Clocked(es) { ClockedConcat(es, fs, now); }
    }
    RunsConcat(g, es, fs);
    var i :| 0 <= i < |es| && es[i].Trigger?;
    assert (es + fs)[i] == es[i];
    UniqueMaster(ids, es + fs, top);
  }
}
