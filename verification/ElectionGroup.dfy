/** A fully connected group of servers running the election of server.c over messages in flight. */
module ElectionGroup {
  import opened Uuids
  import opened Timers
  import opened ElectionServer

  /** ELECTION carries no sender; COORDINATOR carries the uuid of the winner that wrote it. */
  datatype Msg = Election(to: Uuid) | Coordinator(from: Uuid, to: Uuid)

  /** `ids` are the servers in a fixed order, `flight` the messages written and not yet handled. */
  datatype Group = Group(ids: seq<Uuid>, servers: map<Uuid, Core>, flight: seq<Msg>)

  /** One step: a message is handled (any message: sockets are polled in no particular order), the
      election coroutine of a server runs a slice, a server starts an election on its own, or a server is
      told of another one. */
  datatype Event =
    | Deliver(i: nat, now: int)
    | Resume(s: Uuid, now: int)
    | Trigger(s: Uuid, now: int)
    | Introduce(s: Uuid, u: Uuid)

  ghost predicate Distinct(ids: seq<Uuid>) {
    ids == [] || (ids[|ids| - 1] !in ids[..|ids| - 1] && Distinct(ids[..|ids| - 1]))
  }

  lemma {:induction false} DistinctAt(ids: seq<Uuid>, i: nat)
    requires Distinct(ids) && i < |ids|
    ensures ids[i] !in ids[..i]
    decreases |ids|
  {
    if i < |ids| - 1 {
      DistinctAt(ids[..|ids| - 1], i);
      assert ids[..|ids| - 1][..i] == ids[..i];
    }
  }

  ghost predicate WellFormed(g: Group) {
    && Distinct(g.ids)
    && (forall s {:trigger s in g.servers} :: s in g.servers <==> s in g.ids)
    && (forall s :: s in g.servers ==> g.servers[s].uuid == s)
    && AllOk(g.ids, g.flight)
  }

  ghost predicate AllOk(ids: seq<Uuid>, ms: seq<Msg>) {
    forall m :: m in ms ==> MsgOk(ids, m)
  }

  predicate MsgOk(ids: seq<Uuid>, m: Msg) {
    m.to in ids && (m.Coordinator? ==> m.from in ids && m.from != m.to)
  }

  ghost predicate Enabled(g: Group, e: Event) {
    match e
    case Deliver(i, _) => i < |g.flight| && g.flight[i].to in g.servers
    case Resume(s, _) => s in g.servers && g.servers[s].co == CoRunning
    case Trigger(s, _) => s in g.servers
    case Introduce(s, u) => s in g.servers && u in g.servers
  }

  function Others(ids: seq<Uuid>, me: Uuid): (r: seq<Uuid>)
    ensures |r| <= |ids|
  {
    if ids == [] then []
    else if ids[0] == me then Others(ids[1..], me)
    else [ids[0]] + Others(ids[1..], me)
  }

  lemma {:induction false} OthersMembers(ids: seq<Uuid>, me: Uuid)
    ensures forall u :: u in Others(ids, me) <==> u in ids && u != me
  {
    if ids != [] { OthersMembers(ids[1..], me); }
  }

  function ElectionMsgs(to: seq<Uuid>): (ms: seq<Msg>)
    ensures |ms| == |to|
  {
    if to == [] then [] else [Election(to[0])] + ElectionMsgs(to[1..])
  }

  function CoordinatorMsgs(from: Uuid, to: seq<Uuid>): (ms: seq<Msg>)
    ensures |ms| == |to|
  {
    if to == [] then [] else [Coordinator(from, to[0])] + CoordinatorMsgs(from, to[1..])
  }

  lemma {:induction false} ElectionMsgsAt(to: seq<Uuid>)
    ensures forall i :: 0 <= i < |to| ==> ElectionMsgs(to)[i] == Election(to[i])
    ensures forall m :: m in ElectionMsgs(to) ==> m.Election? && m.to in to
  {
    if to != [] { ElectionMsgsAt(to[1..]); }
  }

  lemma {:induction false} CoordinatorMsgsAt(from: Uuid, to: seq<Uuid>)
    ensures forall i :: 0 <= i < |to| ==> CoordinatorMsgs(from, to)[i] == Coordinator(from, to[i])
    ensures forall m :: m in CoordinatorMsgs(from, to) ==> m.Coordinator? && m.from == from && m.to in to
  {
    if to != [] { CoordinatorMsgsAt(from, to[1..]); }
  }

  /** What starting an election writes. */
  function StartMsgs(ids: seq<Uuid>, c: Core): seq<Msg> {
    if c.election.Running? then [] else ElectionMsgs(Targets(Others(ids, c.uuid), c.uuid))
  }

  function Without<T>(s: seq<T>, i: nat): seq<T>
    requires i < |s|
  {
    s[..i] + s[i + 1..]
  }

  /** The server an event happens at. */
  function Actor(g: Group, e: Event): Uuid
    requires Enabled(g, e)
  {
    match e
    case Deliver(i, _) => g.flight[i].to
    case Resume(s, _) => s
    case Trigger(s, _) => s
    case Introduce(s, _) => s
  }

  /** The new value of that server. */
  function Changed(g: Group, e: Event): Core
    requires Enabled(g, e)
  {
    var c := g.servers[Actor(g, e)];
    match e
    case Deliver(i, now) => if g.flight[i].Election? then Start(c, now) else OnCoordinator(c, g.flight[i].from, now)
    case Resume(_, now) => Slice(c, now)
    case Trigger(_, now) => Start(c, now)
    case Introduce(_, u) => OnAddReplica(c, u)
  }

  /** The messages it writes. */
  function Written(g: Group, e: Event): seq<Msg>
    requires Enabled(g, e)
  {
    var c := g.servers[Actor(g, e)];
    match e
    case Deliver(i, now) =>
      if g.flight[i].Election? then StartMsgs(g.ids, c)
      else if HigherId(g.flight[i].from, c.uuid) then []
      else StartMsgs(g.ids, c.(election := Idle))
    case Resume(s, now) => if Claims(c, now) then CoordinatorMsgs(s, Others(g.ids, s)) else []
    case Trigger(_, _) => StartMsgs(g.ids, c)
    case Introduce(_, _) => []
  }

  function Remaining(g: Group, e: Event): seq<Msg>
    requires Enabled(g, e)
  {
    if e.Deliver? then Without(g.flight, e.i) else g.flight
  }

  function Step(g: Group, e: Event): Group
    requires Enabled(g, e)
  {
    Group(g.ids, g.servers[Actor(g, e) := Changed(g, e)], Remaining(g, e) + Written(g, e))
  }

  function InitialGroup(ids: seq<Uuid>): Group {
    Group(ids, map s | s in ids :: Initial(s), [])
  }

  /** A run: every event is enabled where it happens. */
  ghost predicate Runs(g: Group, es: seq<Event>)
    decreases |es|
  {
    es == [] || (Enabled(g, es[0]) && Runs(Step(g, es[0]), es[1..]))
  }

  ghost function RunOf(g: Group, es: seq<Event>): Group
    requires Runs(g, es)
    decreases |es|
  {
    if es == [] then g else RunOf(Step(g, es[0]), es[1..])
  }

  // ----- roles and coordinators, in every reachable state

  ghost predicate CoreRanked(ids: seq<Uuid>, c: Core) {
    && (c.role == Master <==> c.coordinator == c.uuid)
    && (c.role == Replica ==> HigherId(c.coordinator, c.uuid))
    && c.coordinator in ids
  }

  /** Every server is master exactly when it coordinates itself, and otherwise follows a higher member. */
  ghost predicate Ranked(g: Group) {
    WellFormed(g) && forall s :: s in g.servers ==> CoreRanked(g.ids, g.servers[s])
  }

  lemma InitialIsRanked(ids: seq<Uuid>)
    requires Distinct(ids)
    ensures Ranked(InitialGroup(ids))
  {
  }

  lemma {:induction false} TargetsWithin(peers: seq<Uuid>, me: Uuid)
    ensures forall u :: u in Targets(peers, me) <==> u in peers && Integer(u) <= Integer(me)
    decreases |peers|
  {
    if peers != [] {
      var init, last := peers[..|peers| - 1], peers[|peers| - 1];
      TargetsWithin(init, me);
      assert peers == init + [last];
    }
  }

  lemma WrittenOk(g: Group, e: Event)
    requires WellFormed(g) && Enabled(g, e)
    ensures AllOk(g.ids, Written(g, e))
  {
    var c := g.servers[Actor(g, e)];
    match e
    case Deliver(_, _) => StartMsgsOk(g.ids, c); StartMsgsOk(g.ids, c.(election := Idle));
    case Resume(s, _) => ClaimMsgsOk(g.ids, s);
    case Trigger(_, _) => StartMsgsOk(g.ids, c);
    case Introduce(_, _) =>
  }

  lemma StartMsgsOk(ids: seq<Uuid>, c: Core)
    ensures AllOk(ids, StartMsgs(ids, c))
  {
    OthersMembers(ids, c.uuid);
    TargetsWithin(Others(ids, c.uuid), c.uuid);
    ElectionMsgsAt(Targets(Others(ids, c.uuid), c.uuid));
  }

  lemma ClaimMsgsOk(ids: seq<Uuid>, s: Uuid)
    requires s in ids
    ensures AllOk(ids, CoordinatorMsgs(s, Others(ids, s)))
  {
    OthersMembers(ids, s);
    CoordinatorMsgsAt(s, Others(ids, s));
  }

  lemma CoreStaysRanked(ids: seq<Uuid>, c: Core, u: Uuid, now: int)
    requires CoreRanked(ids, c) && u in ids
    ensures CoreRanked(ids, Start(c, now)) && CoreRanked(ids, OnCoordinator(c, u, now))
    ensures CoreRanked(ids, OnAddReplica(c, u))
    ensures c.uuid in ids ==> CoreRanked(ids, Slice(c, now))
  {
    IntegerIsInjective(OnAddReplica(c, u).coordinator, c.uuid);
    HigherIdIsTotalOrder(c.uuid, c.uuid, c.uuid);
  }

  lemma ChangedUuid(g: Group, e: Event)
    requires WellFormed(g) && Enabled(g, e)
    ensures Changed(g, e).uuid == Actor(g, e)
  {
  }

  lemma ChangedRanked(g: Group, e: Event)
    requires Ranked(g) && Enabled(g, e)
    ensures CoreRanked(g.ids, Changed(g, e))
  {
    var s := Actor(g, e);
    match e
    case Introduce(_, u) => CoreStaysRanked(g.ids, g.servers[s], u, 0);
    case Deliver(i, now) =>
      assert MsgOk(g.ids, g.flight[i]);
      CoreStaysRanked(g.ids, g.servers[s], if g.flight[i].Election? then s else g.flight[i].from, now);
    case Resume(_, now) => CoreStaysRanked(g.ids, g.servers[s], s, now);
    case Trigger(_, now) => CoreStaysRanked(g.ids, g.servers[s], s, now);
  }

  lemma ReplaceKeepsRanked(g: Group, c: Core, flight: seq<Msg>)
    requires Ranked(g) && c.uuid in g.servers && CoreRanked(g.ids, c)
    requires AllOk(g.ids, flight)
    ensures Ranked(Group(g.ids, g.servers[c.uuid := c], flight))
  {
  }

  /** Every step keeps roles, coordinators and messages in order. */
  lemma StepKeepsRanked(g: Group, e: Event)
    requires Ranked(g) && Enabled(g, e)
    ensures Ranked(Step(g, e)) && Step(g, e).ids == g.ids
  {
    ChangedRanked(g, e);
    ChangedUuid(g, e);
    FlightOk(g, e);
    ReplaceKeepsRanked(g, Changed(g, e), Remaining(g, e) + Written(g, e));
  }

  lemma FlightOk(g: Group, e: Event)
    requires WellFormed(g) && Enabled(g, e)
    ensures AllOk(g.ids, Remaining(g, e) + Written(g, e))
  {
    WrittenOk(g, e);
    forall m | m in Remaining(g, e)
      ensures MsgOk(g.ids, m)
    {
      assert m in g.flight;
    }
  }

  lemma {:induction false} RunKeepsRanked(g: Group, es: seq<Event>)
    requires Ranked(g) && Runs(g, es)
    ensures Ranked(RunOf(g, es)) && RunOf(g, es).ids == g.ids
    decreases |es|
  {
    if es != [] {
      StepKeepsRanked(g, es[0]);
      RunKeepsRanked(Step(g, es[0]), es[1..]);
    }
  }

  // ----- following coordinators

  /** How many members rank above u. */
  ghost function Rank(ids: seq<Uuid>, u: Uuid): nat {
    if ids == [] then 0 else (if HigherId(ids[0], u) then 1 else 0) + Rank(ids[1..], u)
  }

  lemma {:induction false} RankOrders(ids: seq<Uuid>, a: Uuid, b: Uuid)
    requires HigherId(a, b)
    ensures Rank(ids, a) <= Rank(ids, b)
    ensures a in ids ==> Rank(ids, a) < Rank(ids, b)
  {
    if ids != [] {
      RankOrders(ids[1..], a, b);
      HigherIdIsTotalOrder(ids[0], a, b);
      HigherIdIsTotalOrder(a, b, a);
    }
  }

  /** The server reached from s by following coordinators. */
  ghost function Leader(g: Group, s: Uuid): (l: Uuid)
    requires Ranked(g) && s in g.servers
    ensures l in g.servers && g.servers[l].role == Master && (l == s || HigherId(l, s))
    decreases Rank(g.ids, s)
  {
    var c := g.servers[s].coordinator;
    if c == s then s
    else
      RankOrders(g.ids, c, s);
      var l := Leader(g, c);
      HigherIdIsTotalOrder(l, c, s);
      l
  }

  ghost predicate IsTop(g: Group, t: Uuid) {
    t in g.servers && forall s :: s in g.servers && s != t ==> HigherId(t, s)
  }

  /** Following coordinators from any server ends at a master, and the top-ranked server is master. */
  lemma LeadersAreMasters(g: Group, s: Uuid, top: Uuid)
    requires Ranked(g) && s in g.servers && IsTop(g, top)
    ensures g.servers[Leader(g, s)].role == Master
    ensures g.servers[top].role == Master
  {
    HigherIdIsTotalOrder(top, g.servers[top].coordinator, top);
  }

  /** So it is in every reachable state. */
  lemma ReachableLeaders(ids: seq<Uuid>, es: seq<Event>, s: Uuid, top: Uuid)
    requires Distinct(ids) && Runs(InitialGroup(ids), es)
    requires s in ids && IsTop(InitialGroup(ids), top)
    ensures var g := RunOf(InitialGroup(ids), es);
      && Ranked(g) && s in g.servers && top in g.servers
      && g.servers[Leader(g, s)].role == Master && g.servers[top].role == Master
  {
    InitialIsRanked(ids);
    RunKeepsRanked(InitialGroup(ids), es);
    var g := RunOf(InitialGroup(ids), es);
    assert forall u :: u in g.servers <==> u in InitialGroup(ids).servers;
    LeadersAreMasters(g, s, top);
  }
}
