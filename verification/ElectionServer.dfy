/** One server of server.c as seen by the leader election: its fields, its message handlers, its election
    coroutine and the scheduler queue that coroutine lives in. */
module ElectionServer {
  import opened Uuids
  import opened Timers
  import opened DynamicArrays
  import opened Wrappers
  import S = Scheduling

  const ELECTION_TIMEOUT := 1

  datatype Role = Master | Replica

  datatype ElectionState = Idle | Running

  /** The fields the protocol assigns. `co`, `looping` and `timer` are the election coroutine: its state,
      whether its label is set (it has yielded inside its loop) and its lifted timer. */
  datatype Core = Core(uuid: Uuid, role: Role, election: ElectionState, coordinator: Uuid,
                       co: CoState, looping: bool, timer: Timer)

  function Initial(uuid: Uuid): Core {
    Core(uuid, Master, Idle, uuid, CoCreated, false, Timer(0, 0, 0, CoCreated))
  }

  /** Starting an election creates and schedules the election coroutine unless it is still running. */
  predicate Schedules(c: Core) {
    c.election.Idle? && (c.co == CoCompleted || c.co == CoCreated)
  }

  /** dripbox_server_start_election: nothing happens while an election is running. */
  function Start(c: Core, now: int): Core {
    if c.election.Running? then c
    else if Schedules(c) then
      c.(election := Running, co := CoRunning, looping := false, timer := Started(ELECTION_TIMEOUT, now))
    else c.(election := Running)
  }

  /** A COORDINATOR message: accepted from a higher server, answered with an election otherwise. */
  function OnCoordinator(c: Core, u: Uuid, now: int): Core {
    if HigherId(u, c.uuid) then c.(election := Idle, role := Replica, coordinator := u)
    else Start(c.(election := Idle), now)
  }

  function OnAddReplica(c: Core, u: Uuid): Core {
    var coordinator := if HigherId(u, c.coordinator) && HigherId(u, c.uuid) then u else c.coordinator;
    c.(coordinator := coordinator, role := if Integer(coordinator) == Integer(c.uuid) then Master else Replica)
  }

  /** The timer as the loop test of this slice sees it. */
  function TimerNow(c: Core, now: int): Timer {
    if c.looping then Resumed(c.timer, now) else c.timer
  }

  /** This slice of the election coroutine declares victory. */
  predicate Claims(c: Core, now: int) {
    c.election.Running? && TimerNow(c, now).state == CoCompleted
  }

  /** One slice of the election coroutine, from a resume to its next yield or its end. */
  function Slice(c: Core, now: int): Core {
    var d := c.(timer := TimerNow(c, now));
    if c.election.Idle? then d.(co := CoCompleted)
    else if Claims(c, now) then d.(role := Master, coordinator := c.uuid, election := Idle, looping := true)
    else d.(looping := true)
  }

  /** How many slices at time `now` are still needed before the claim. */
  function Waiting(c: Core, now: int): nat {
    if Claims(c, now) then 0 else if c.looping then 1 else 2
  }

  /** Once the timeout has passed since the coroutine was created, every slice brings its claim nearer. */
  lemma SliceTowardsClaim(c: Core, now: int)
    requires c.election == Running && c.co == CoRunning && !Claims(c, now)
    requires c.timer.seconds == ELECTION_TIMEOUT && c.timer.state in {CoRunning, CoCompleted}
    requires now >= c.timer.start + ELECTION_TIMEOUT
    ensures Waiting(Slice(c, now), now) < Waiting(c, now)
    ensures var d := Slice(c, now);
      && d.election == Running && d.co == CoRunning && d.timer.start == c.timer.start
      && d.timer.seconds == ELECTION_TIMEOUT && d.timer.state in {CoRunning, CoCompleted}
  {
  }

  // ----- who is written to

  datatype Peer = Peer(address: nat, uuid: Uuid, connected: bool)

  /** The connected peers of the replica table, in slot order. */
  function Connected(slots: seq<Option<Peer>>): seq<Uuid> {
    if slots == [] then []
    else Connected(slots[..|slots| - 1]) +
         var last := slots[|slots| - 1];
         if last.Some? && last.value.connected then [last.value.uuid] else []
  }

  /** Peers that get an ELECTION message: those not above `me` as 128-bit integers. */
  function Targets(peers: seq<Uuid>, me: Uuid): seq<Uuid> {
    if peers == [] then []
    else Targets(peers[..|peers| - 1], me) +
         if Integer(me) < Integer(peers[|peers| - 1]) then [] else [peers[|peers| - 1]]
  }

  // ----- the server with its scheduler queue

  datatype Handle = ElectionHandle | Other(id: nat)

  datatype Node = Node(core: Core, queue: seq<Handle>)

  function NodeStart(n: Node, now: int): Node {
    Node(Start(n.core, now), if Schedules(n.core) then Enqueued(n.queue, ElectionHandle) else n.queue)
  }

  function NodeCoordinator(n: Node, u: Uuid, now: int): Node {
    if HigherId(u, n.core.uuid) then n.(core := OnCoordinator(n.core, u, now))
    else NodeStart(n.(core := n.core.(election := Idle)), now)
  }

  /** One dispatch: the oldest queued coroutine runs one slice and goes back unless it completed. */
  function NodeDispatch(n: Node, now: int, other: S.Outcome<Handle>): Node {
    if n.queue == [] then n
    else if Oldest(n.queue).ElectionHandle? then
      var core := Slice(n.core, now);
      Node(core, S.QueueAfter(n.queue, S.Outcome([], core.co == CoCompleted)))
    else n.(queue := S.QueueAfter(n.queue, other))
  }

  ghost predicate NextIsElection(queue: seq<Handle>) {
    queue != [] && Oldest(queue) == ElectionHandle
  }

  class DripboxServer {
    const uuid: Uuid
    var role: Role
    var election: ElectionState
    var coordinator: Uuid
    var co: CoState
    var looping: bool
    var timer: Timer
    var replicas: seq<Option<Peer>>
    var replicaCount: nat
    const scheduler: DynamicArray<Handle>

    /** No replica is ever removed, so the table's first replicaCount slots are the ones in use. */
    ghost predicate Valid()
      reads this, scheduler
    {
      && scheduler.Valid() && scheduler.data != null
      && replicaCount <= |replicas|
      && forall i :: 0 <= i < |replicas| ==> (replicas[i].Some? <==> i < replicaCount)
    }

    ghost function Value(): Core
      reads this
    {
      Core(uuid, role, election, coordinator, co, looping, timer)
    }

    ghost function State(): Node
      reads this, scheduler, scheduler.data
      requires Valid()
    {
      Node(Value(), scheduler.Contents())
    }

    constructor (uuid: Uuid, scheduler: DynamicArray<Handle>)
      requires scheduler.Valid() && scheduler.data != null
      ensures Valid() && Value() == Initial(uuid) && replicas == [] && this.scheduler == scheduler
    {
      this.uuid, this.scheduler := uuid, scheduler;
      role, election, coordinator := Master, Idle, uuid;
      co, looping, timer := CoCreated, false, Timer(0, 0, 0, CoCreated);
      replicas, replicaCount := [], 0;
    }

    /** dripbox_server_start_election; `sent` are the peers an ELECTION message is written to. */
    method StartElection(now: int) returns (sent: seq<Uuid>)
      requires Valid()
      modifies this`election, this`co, this`looping, this`timer, scheduler, scheduler.data
      ensures Valid() && State() == NodeStart(old(State()), now)
      ensures sent == if old(election).Idle? then Targets(Connected(replicas), uuid) else []
    {
      sent := [];
      if election == Idle {
        sent := Solicit();
        election := Running;
        if co == CoCompleted {
          co := CoCreated;
        }
        if co == CoCreated {
          timer := Started(ELECTION_TIMEOUT, now);
          co, looping := CoRunning, false;
          scheduler.FifoPush(ElectionHandle);
        }
      }
    }

    /** The loop over replicas in dripbox_server_start_election, which runs to the table's capacity. */
    method Solicit() returns (sent: seq<Uuid>)
      ensures sent == Targets(Connected(replicas), uuid)
    {
      sent := [];
      var i := 0;
      while i < |replicas|
        invariant 0 <= i <= |replicas|
        invariant sent == Targets(Connected(replicas[..i]), uuid)
      {
        ConnectedSnoc(replicas, i);
        ghost var before := Connected(replicas[..i]);
        var entry := replicas[i];
        i := i + 1;
        if entry.None? { continue; }
        var replica := entry.value;
        if !replica.connected { continue; }
        TargetsSnoc(before, replica.uuid, uuid);
        if Integer(uuid) < Integer(replica.uuid) { continue; }
        sent := sent + [replica.uuid];
      }
      assert replicas[..|replicas|] == replicas;
    }

    /** One slice of dripbox_server_election_coroutine; `sent` are the peers a COORDINATOR message is written to. */
    method ElectionSlice(now: int) returns (sent: seq<Uuid>)
      requires Valid() && co == CoRunning
      modifies this`role, this`coordinator, this`election, this`co, this`looping, this`timer
      ensures Valid() && Value() == Slice(old(Value()), now)
      ensures sent == if Claims(old(Value()), now) then Connected(replicas) else []
    {
      sent := [];
      if looping {
        timer := Resumed(timer, now);
      }
      if election != Idle {
        if timer.state == CoCompleted {
          role := Master;
          coordinator := uuid;
          sent := Notify();
          election := Idle;
        }
        looping := true;
        return;
      }
      co := CoCompleted;
    }

    /** The loop over replicas in a claim, which runs to the table's length. */
    method Notify() returns (sent: seq<Uuid>)
      requires Valid()
      ensures sent == Connected(replicas)
    {
      sent := [];
      var i := 0;
      while i < replicaCount
        invariant 0 <= i <= replicaCount
        invariant sent == Connected(replicas[..i])
      {
        ConnectedSnoc(replicas, i);
        var entry := replicas[i];
        i := i + 1;
        if entry.None? || !entry.value.connected { continue; }
        sent := sent + [entry.value.uuid];
      }
      EmptySlotsAddNoPeer(replicas, replicaCount);
    }

    /** The COORDINATOR case of dripbox_server_handle_replica_massage. */
    method HandleCoordinator(u: Uuid, now: int) returns (sent: seq<Uuid>)
      requires Valid()
      modifies this`role, this`coordinator, this`election, this`co, this`looping, this`timer, scheduler, scheduler.data
      ensures Valid() && State() == NodeCoordinator(old(State()), u, now)
      ensures sent == if HigherId(u, uuid) then [] else Targets(Connected(replicas), uuid)
    {
      sent := [];
      if HigherId(u, uuid) {
        election := Idle;
        role := Replica;
        coordinator := u;
      } else {
        election := Idle;
        sent := StartElection(now);
      }
    }

    /** dripbox_server_handle_add_replica: an address already in the table keeps its entry. */
    method HandleAddReplica(address: nat, u: Uuid)
      requires Valid()
      modifies this`role, this`coordinator, this`replicas, this`replicaCount
      ensures Valid() && Value() == OnAddReplica(old(Value()), u)
      ensures Connected(replicas) == old(Connected(replicas)) +
        if HasAddress(old(replicas), address) then [] else [u]
      ensures HasAddress(old(replicas), address) ==> replicas == old(replicas)
      ensures forall a :: HasAddress(replicas, a) <==> HasAddress(old(replicas), a) || a == address
    {
      var known := Known(address);
      if !known {
        AddressRecorded(replicas, replicaCount, Peer(address, u, true));
        replicas := Recorded(replicas, replicaCount, Peer(address, u, true));
        replicaCount := replicaCount + 1;
      }
      if HigherId(u, coordinator) && HigherId(u, uuid) {
        coordinator := u;
      }
      if Integer(coordinator) == Integer(uuid) {
        role := Master;
      } else {
        role := Replica;
      }
    }

    method Known(address: nat) returns (known: bool)
      ensures known == HasAddress(replicas, address)
    {
      known := false;
      var i := 0;
      while i < |replicas|
        invariant 0 <= i <= |replicas|
        invariant known <==> exists j :: 0 <= j < i && replicas[j].Some? && replicas[j].value.address == address
      {
        known := known || (replicas[i].Some? && replicas[i].value.address == address);
        i := i + 1;
      }
    }

    /** A dispatch of the scheduler. `other` is what running another coroutine does to the queue. */
    method Dispatch(now: int, other: S.Outcome<Handle>) returns (sent: seq<Uuid>)
      requires Valid()
      requires NextIsElection(State().queue) ==> co == CoRunning
      modifies this`role, this`coordinator, this`election, this`co, this`looping, this`timer, scheduler, scheduler.data
      ensures Valid() && State() == NodeDispatch(old(State()), now, other)
      ensures sent == if old(NextIsElection(State().queue)) && Claims(old(Value()), now) then Connected(replicas) else []
    {
      sent := [];
      var popped, handle := scheduler.FifoTryPop();
      if !popped { return; }
      var completed := other.completed;
      if handle == ElectionHandle {
        sent := ElectionSlice(now);
        completed := co == CoCompleted;
      } else {
        S.PushAll(scheduler, other.pushed);
      }
      if !completed {
        scheduler.FifoPush(handle);
      }
    }
  }

  ghost predicate HasAddress(slots: seq<Option<Peer>>, address: nat) {
    exists i :: 0 <= i < |slots| && slots[i].Some? && slots[i].value.address == address
  }

  /** The replica table after inserting a peer behind the n slots in use, growing it when it is full. */
  function Recorded(slots: seq<Option<Peer>>, n: nat, peer: Peer): (r: seq<Option<Peer>>)
    requires n <= |slots| && forall i :: 0 <= i < |slots| ==> (slots[i].Some? <==> i < n)
    ensures |r| > n && forall i :: 0 <= i < |r| ==> (r[i].Some? <==> i < n + 1)
    ensures r[..n] == slots[..n] && r[n] == Some(peer)
    ensures Connected(r) == Connected(slots) + if peer.connected then [peer.uuid] else []
  {
    var grown := if n < |slots| then slots else slots + seq(if |slots| > 2 then |slots| else 4 - |slots|, _ => None);
    var r := grown[n := Some(peer)];
    OnePeerMore(slots, r, n, peer);
    r
  }

  lemma OnePeerMore(slots: seq<Option<Peer>>, r: seq<Option<Peer>>, n: nat, peer: Peer)
    requires n <= |slots| && n < |r| && r[..n] == slots[..n] && r[n] == Some(peer)
    requires forall i :: n <= i < |slots| ==> slots[i].None?
    requires forall i :: n < i < |r| ==> r[i].None?
    ensures Connected(r) == Connected(slots) + if peer.connected then [peer.uuid] else []
  {
    EmptySlotsAddNoPeer(slots, n);
    EmptySlotsAddNoPeer(r, n + 1);
    ConnectedSnoc(r, n);
  }

  lemma AddressRecorded(slots: seq<Option<Peer>>, n: nat, peer: Peer)
    requires n <= |slots| && forall i :: 0 <= i < |slots| ==> (slots[i].Some? <==> i < n)
    ensures forall a :: HasAddress(Recorded(slots, n, peer), a) <==> HasAddress(slots, a) || a == peer.address
  {
    var r := Recorded(slots, n, peer);
    forall a
      ensures HasAddress(r, a) <==> HasAddress(slots, a) || a == peer.address
    {
      assert r[n].Some?;
      assert forall i :: 0 <= i < n ==> r[..n][i] == slots[..n][i];
      if HasAddress(slots, a) {
        var i :| 0 <= i < |slots| && slots[i].Some? && slots[i].value.address == a;
        assert r[i] == slots[i];
      }
    }
  }

  lemma ConnectedSnoc(slots: seq<Option<Peer>>, i: nat)
    requires i < |slots|
    ensures Connected(slots[..i + 1]) ==
      if slots[i].Some? && slots[i].value.connected then Connected(slots[..i]) + [slots[i].value.uuid]
      else Connected(slots[..i])
  {
    assert slots[..i + 1][..i] == slots[..i];
  }

  lemma TargetsSnoc(peers: seq<Uuid>, u: Uuid, me: Uuid)
    ensures Targets(peers + [u], me) ==
      if Integer(me) < Integer(u) then Targets(peers, me) else Targets(peers, me) + [u]
  {
  }

  lemma {:induction false} EmptySlotsAddNoPeer(slots: seq<Option<Peer>>, n: nat)
    requires n <= |slots| && forall i :: n <= i < |slots| ==> slots[i].None?
    ensures Connected(slots) == Connected(slots[..n])
    decreases |slots|
  {
    if n < |slots| {
      EmptySlotsAddNoPeer(slots[..|slots| - 1], n);
      assert slots[..|slots| - 1][..n] == slots[..n];
    } else {
      assert slots[..n] == slots;
    }
  }

  /** The slots in which u is connected. */
  function SlotsOf(slots: seq<Option<Peer>>, u: Uuid): set<int> {
    set i | 0 <= i < |slots| && slots[i].Some? && slots[i].value.connected && slots[i].value.uuid == u
  }

  /** A claim is sent to every connected replica once for each of its slots. */
  lemma {:induction false} ToldOncePerSlot(slots: seq<Option<Peer>>, u: Uuid)
    ensures multiset(Connected(slots))[u] == |SlotsOf(slots, u)|
    decreases |slots|
  {
    if slots == [] {
      assert SlotsOf(slots, u) == {};
    } else {
      ToldOncePerSlot(slots[..|slots| - 1], u);
      LastSlot(slots, u);
    }
  }

  lemma LastSlot(slots: seq<Option<Peer>>, u: Uuid)
    requires slots != []
    ensures var n := |slots| - 1;
      |SlotsOf(slots, u)| == |SlotsOf(slots[..n], u)| + if n in SlotsOf(slots, u) then 1 else 0
  {
    var n := |slots| - 1;
    var before, here: set<int> := SlotsOf(slots[..n], u), if n in SlotsOf(slots, u) then {n} else {};
    assert forall i :: 0 <= i < n ==> slots[..n][i] == slots[i];
    assert SlotsOf(slots, u) == before + here && before !! here;
  }

  /** An election asks, of the same replicas, those not above the server as integers. */
  lemma {:induction false} AskedOncePerSlot(peers: seq<Uuid>, me: Uuid, u: Uuid)
    ensures multiset(Targets(peers, me))[u] == if Integer(u) <= Integer(me) then multiset(peers)[u] else 0
    decreases |peers|
  {
    if peers != [] {
      var init, last := peers[..|peers| - 1], peers[|peers| - 1];
      assert peers == init + [last];
      AskedOncePerSlot(init, me, u);
    }
  }
}
