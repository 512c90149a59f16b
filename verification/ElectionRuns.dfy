/** What every run of one server keeps: roles agree with coordinators, the election coroutine is scheduled
    exactly while it runs, and victory is not declared before the timeout. */
module ElectionRuns {
  import opened Uuids
  import opened Timers
  import opened DynamicArrays
  import opened ElectionServer
  import S = Scheduling

  /** Everything that can happen to one server, each with the clock reading it sees. A trigger is an
      ELECTION message or a failed ping; a dispatch carries what another coroutine would do to the queue. */
  datatype Event =
    | Trigger
    | CoordinatorFrom(u: Uuid)
    | AddReplica(u: Uuid)
    | Dispatch(other: S.Outcome<Handle>)

  datatype Timed = Timed(event: Event, now: int)

  function After(n: Node, e: Timed): Node {
    match e.event
    case Trigger => NodeStart(n, e.now)
    case CoordinatorFrom(u) => NodeCoordinator(n, u, e.now)
    case AddReplica(u) => n.(core := OnAddReplica(n.core, u))
    case Dispatch(other) => NodeDispatch(n, e.now, other)
  }

  function AfterAll(n: Node, es: seq<Timed>): Node
    decreases |es|
  {
    if es == [] then n else After(AfterAll(n, es[..|es| - 1]), es[|es| - 1])
  }

  /** Clock readings never go back, starting from `clock`. */
  ghost predicate ClockedFrom(clock: int, es: seq<Timed>) {
    && (forall i :: 0 <= i < |es| ==> clock <= es[i].now)
    && (forall i, j :: 0 <= i < j < |es| ==> es[i].now <= es[j].now)
  }

  /** Only start_election puts the election coroutine on the queue. */
  ghost predicate OthersMindTheirOwn(es: seq<Timed>) {
    forall i :: 0 <= i < |es| && es[i].event.Dispatch? ==> ElectionHandle !in es[i].event.other.pushed
  }

  /** A server is master exactly when it is its own coordinator; otherwise it follows a higher one. */
  ghost predicate RoleOk(c: Core) {
    && (c.role == Master <==> c.coordinator == c.uuid)
    && (c.role == Replica ==> HigherId(c.coordinator, c.uuid))
  }

  /** The election coroutine is queued once while it runs and not otherwise, and a running election has it. */
  ghost predicate QueueOk(n: Node) {
    && n.core.co in {CoCreated, CoRunning, CoCompleted}
    && multiset(n.queue)[ElectionHandle] == (if n.core.co == CoRunning then 1 else 0)
    && (n.core.election == Running ==> n.core.co == CoRunning)
  }

  /** The timer of the coroutine created at timer.start: over only after the timeout has passed. */
  ghost predicate TimerOk(c: Core, clock: int) {
    c.co == CoRunning ==>
      && c.timer.seconds == ELECTION_TIMEOUT && c.timer.start <= clock
      && c.timer.elapsed <= clock - c.timer.start
      && (c.timer.state == CoCompleted ==> clock - c.timer.start >= ELECTION_TIMEOUT)
  }

  lemma RoleKept(n: Node, e: Timed)
    requires RoleOk(n.core)
    ensures RoleOk(After(n, e).core) && After(n, e).core.uuid == n.core.uuid
  {
    var c := n.core;
    match e.event
    case AddReplica(u) => IntegerIsInjective(OnAddReplica(c, u).coordinator, c.uuid);
    case CoordinatorFrom(u) =>
    case Trigger =>
    case Dispatch(other) =>
  }

  lemma QueueKept(n: Node, e: Timed)
    requires QueueOk(n)
    requires e.event.Dispatch? ==> ElectionHandle !in e.event.other.pushed
    ensures QueueOk(After(n, e))
  {
    match e.event
    case AddReplica(u) =>
    case CoordinatorFrom(u) =>
      if !HigherId(u, n.core.uuid) { StartKeepsQueue(n.(core := n.core.(election := Idle)), e.now); }
    case Trigger => StartKeepsQueue(n, e.now);
    case Dispatch(other) =>
      if n.queue != [] { DispatchKeepsQueue(n, e.now, other); }
  }

  lemma StartKeepsQueue(n: Node, now: int)
    requires QueueOk(n)
    ensures QueueOk(NodeStart(n, now))
  {
  }

  lemma DispatchKeepsQueue(n: Node, now: int, other: S.Outcome<Handle>)
    requires QueueOk(n) && n.queue != [] && ElectionHandle !in other.pushed
    ensures QueueOk(NodeDispatch(n, now, other))
  {
    var h := Oldest(n.queue);
    var o := if h.ElectionHandle? then S.Outcome([], Slice(n.core, now).co == CoCompleted) else other;
    S.DispatchConserves(n.queue, o);
    assert n.queue[|n.queue| - 1] in multiset(n.queue);
  }

  lemma TimerKept(n: Node, e: Timed, clock: int)
    requires TimerOk(n.core, clock) && clock <= e.now
    ensures TimerOk(After(n, e).core, e.now)
  {
  }

  /** Victory needs the timeout to have passed since this coroutine was created, whatever happened since. */
  lemma NoEarlyVictory(c: Core, now: int, clock: int)
    requires TimerOk(c, clock) && clock <= now && c.co == CoRunning && Claims(c, now)
    ensures now >= c.timer.start + ELECTION_TIMEOUT
  {
  }

  /** All of it over every run from the initial state, with any other coroutines in the queue. */
  lemma {:induction false} RunKeeps(uuid: Uuid, others: seq<Handle>, es: seq<Timed>, clock: int)
    requires ElectionHandle !in others && OthersMindTheirOwn(es) && ClockedFrom(clock, es)
    ensures var n := AfterAll(Node(Initial(uuid), others), es);
      RoleOk(n.core) && QueueOk(n) && TimerOk(n.core, if es == [] then clock else es[|es| - 1].now) && n.core.uuid == uuid
    decreases |es|
  {
    if es != [] {
      var init, last := es[..|es| - 1], es[|es| - 1];
      RunKeeps(uuid, others, init, clock);
      var n := AfterAll(Node(Initial(uuid), others), init);
      RoleKept(n, last);
      QueueKept(n, last);
      TimerKept(n, last, if init == [] then clock else init[|init| - 1].now);
    }
  }

  /** No election is ever orphaned or driven twice, over every run. */
  lemma ElectionScheduledOnce(uuid: Uuid, others: seq<Handle>, es: seq<Timed>, clock: int)
    requires ElectionHandle !in others && OthersMindTheirOwn(es) && ClockedFrom(clock, es)
    ensures var n := AfterAll(Node(Initial(uuid), others), es);
      && (n.core.co == CoRunning <==> ElectionHandle in n.queue)
      && (forall i, j :: 0 <= i < |n.queue| && 0 <= j < |n.queue| && n.queue[i] == n.queue[j] == ElectionHandle ==> i == j)
      && (n.core.election == Running ==> ElectionHandle in n.queue)
  {
    RunKeeps(uuid, others, es, clock);
    var n := AfterAll(Node(Initial(uuid), others), es);
    assert ElectionHandle in n.queue <==> ElectionHandle in multiset(n.queue);
    OccursAtMostOnce(n.queue, ElectionHandle);
  }

  lemma {:induction false} OccursAtMostOnce(q: seq<Handle>, h: Handle)
    requires multiset(q)[h] <= 1
    ensures forall i, j :: 0 <= i < |q| && 0 <= j < |q| && q[i] == q[j] == h ==> i == j
    decreases |q|
  {
    if q != [] {
      var init, last := q[..|q| - 1], q[|q| - 1];
      assert q == init + [last];
      OccursAtMostOnce(init, h);
      assert last == h ==> h !in multiset(init) && h !in init;
    }
  }

  /** The timer starts when the coroutine is created and its start does not change while it runs. */
  lemma CoroutineStart(n: Node, e: Timed)
    requires After(n, e).core.co == CoRunning
    ensures After(n, e).core.timer.start == if n.core.co == CoRunning then n.core.timer.start else e.now
  {
  }

  /** The coroutine that runs after the events was created by the i-th of them and has run since. */
  ghost predicate Creates(n: Node, es: seq<Timed>, i: nat) {
    && i < |es|
    && AfterAll(n, es[..i]).core.co != CoRunning
    && forall j :: i < j <= |es| ==> AfterAll(n, es[..j]).core.co == CoRunning
  }

  /** A running election coroutine was created by some event of the run, at the start of its timer. */
  lemma {:induction false} CreatedAt(uuid: Uuid, others: seq<Handle>, es: seq<Timed>) returns (i: nat)
    requires AfterAll(Node(Initial(uuid), others), es).core.co == CoRunning
    ensures Creates(Node(Initial(uuid), others), es, i)
    ensures es[i].now == AfterAll(Node(Initial(uuid), others), es).core.timer.start
    decreases |es|
  {
    var start := Node(Initial(uuid), others);
    var init, last := es[..|es| - 1], es[|es| - 1];
    assert es[..|es|] == es;
    var n := AfterAll(start, init);
    CoroutineStart(n, last);
    if n.core.co == CoRunning {
      i := CreatedAt(uuid, others, init);
      assert forall j :: 0 <= j <= |init| ==> init[..j] == es[..j];
    } else {
      i := |es| - 1;
    }
  }

  /** A server claims at some time only if its election coroutine was created a timeout earlier. */
  lemma VictoryAfterTimeout(uuid: Uuid, others: seq<Handle>, es: seq<Timed>, clock: int, now: int) returns (i: nat)
    requires ElectionHandle !in others && OthersMindTheirOwn(es) && ClockedFrom(clock, es)
    requires clock <= now && (es != [] ==> es[|es| - 1].now <= now)
    requires AfterAll(Node(Initial(uuid), others), es).core.co == CoRunning
    requires Claims(AfterAll(Node(Initial(uuid), others), es).core, now)
    ensures Creates(Node(Initial(uuid), others), es, i) && now >= es[i].now + ELECTION_TIMEOUT
  {
    RunKeeps(uuid, others, es, clock);
    var c := AfterAll(Node(Initial(uuid), others), es).core;
    NoEarlyVictory(c, now, if es == [] then clock else es[|es| - 1].now);
    i := CreatedAt(uuid, others, es);
  }
}
