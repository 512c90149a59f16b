/** Who is master: over the whole life of a server, its role tells whether it has claimed since it was last told
    of a higher one. */
module ElectionRoles {
  import opened Uuids
  import opened ElectionServer
  import opened ElectionRuns
  import opened ElectionTimeouts

  /** The server is told of a higher one: by the COORDINATOR of a winner or by an introduction. */
  predicate Told(uuid: Uuid, e: Event) {
    (e.CoordinatorFrom? || e.AddReplica?) && HigherId(e.u, uuid)
  }

  /** The i-th event is the slice that declares victory. */
  ghost predicate ClaimsAt(n: Node, es: seq<Timed>, i: int) {
    0 <= i < |es| && es[i].event.Dispatch? && WinsAt(AfterAll(n, es[..i]), es[i].now)
  }

  /** Every time the server was told of a higher one, it has claimed since. */
  ghost predicate ClaimedSince(n: Node, es: seq<Timed>) {
    forall j :: 0 <= j < |es| && Told(n.core.uuid, es[j].event) ==> exists i :: j < i && ClaimsAt(n, es, i)
  }

  lemma RoleStep(n: Node, e: Timed)
    requires RoleOk(n.core) && QueueOk(n)
    ensures After(n, e).core.role ==
      if Told(n.core.uuid, e.event) then Replica
      else if e.event.Dispatch? && WinsAt(n, e.now) then Master
      else n.core.role
  {
    match e.event
    case AddReplica(u) =>
      HigherIdIsTotalOrder(u, n.core.coordinator, n.core.uuid);
      IntegerIsInjective(OnAddReplica(n.core, u).coordinator, n.core.uuid);
    case CoordinatorFrom(_) =>
    case Trigger =>
    case Dispatch(_) =>
      if NextIsElection(n.queue) { assert ElectionHandle in multiset(n.queue); }
  }

  /** Claims do not depend on what comes later. */
  lemma SameClaims(n: Node, es: seq<Timed>, i: int)
    requires es != [] && i < |es| - 1
    ensures ClaimsAt(n, es, i) <==> ClaimsAt(n, es[..|es| - 1], i)
  {
    if 0 <= i { assert es[..|es| - 1][..i] == es[..i]; }
  }

  lemma StillClaimed(n: Node, es: seq<Timed>)
    requires es != [] && !ClaimsAt(n, es, |es| - 1) && ClaimedSince(n, es)
    ensures ClaimedSince(n, es[..|es| - 1])
  {
    var init := es[..|es| - 1];
    forall j | 0 <= j < |init| && Told(n.core.uuid, init[j].event)
      ensures exists i :: j < i && ClaimsAt(n, init, i)
    {
      assert es[j] == init[j];
      var i :| j < i && ClaimsAt(n, es, i);
      SameClaims(n, es, i);
    }
  }

  lemma ClaimedBefore(n: Node, es: seq<Timed>)
    requires es != [] && !Told(n.core.uuid, es[|es| - 1].event) && ClaimedSince(n, es[..|es| - 1])
    ensures ClaimedSince(n, es)
  {
    var init := es[..|es| - 1];
    forall j | 0 <= j < |es| && Told(n.core.uuid, es[j].event)
      ensures exists i :: j < i && ClaimsAt(n, es, i)
    {
      assert es[j] == init[j];
      var i :| j < i && ClaimsAt(n, init, i);
      SameClaims(n, es, i);
    }
  }

  lemma ClaimedSinceStep(n: Node, es: seq<Timed>)
    requires es != []
    ensures ClaimedSince(n, es) <==>
      !Told(n.core.uuid, es[|es| - 1].event) && (ClaimsAt(n, es, |es| - 1) || ClaimedSince(n, es[..|es| - 1]))
  {
    var k := |es| - 1;
    if ClaimedSince(n, es) && !ClaimsAt(n, es, k) { StillClaimed(n, es); }
    if !Told(n.core.uuid, es[k].event) && ClaimedSince(n, es[..k]) { ClaimedBefore(n, es); }
  }

  /** In every reachable state a server is master, and its own coordinator, if and only if it has claimed since it
      was last told of a higher one. */
  lemma {:induction false} MasterIffClaimedSince(uuid: Uuid, others: seq<Handle>, es: seq<Timed>, clock: int)
    requires ElectionHandle !in others && OthersMindTheirOwn(es) && ClockedFrom(clock, es)
    ensures AfterAll(Node(Initial(uuid), others), es).core.role == Master <==> ClaimedSince(Node(Initial(uuid), others), es)
    ensures AfterAll(Node(Initial(uuid), others), es).core.coordinator == uuid
      <==> ClaimedSince(Node(Initial(uuid), others), es)
    decreases |es|
  {
    var start := Node(Initial(uuid), others);
    RunKeeps(uuid, others, es, clock);
    UuidStays(start, es);
    if es != [] {
      var init, last := es[..|es| - 1], es[|es| - 1];
      MasterIffClaimedSince(uuid, others, init, clock);
      RunKeeps(uuid, others, init, clock);
      UuidStays(start, init);
      RoleStep(AfterAll(start, init), last);
      ClaimedSinceStep(start, es);
    }
  }
}
