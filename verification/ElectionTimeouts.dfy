/** The election timeout belongs to the coroutine, not to the election: when an election is won early. */
module ElectionTimeouts {
  import opened Uuids
  import opened Timers
  import opened DynamicArrays
  import opened ElectionServer
  import opened ElectionRuns
  import S = Scheduling

  /** What can happen while an election goes on, short of a message of the protocol and of another start:
      dispatches and introductions, with clock readings less than a timeout after `now`. */
  ghost predicate GoesOn(fs: seq<Timed>, now: int) {
    && ClockedFrom(now, fs) && OthersMindTheirOwn(fs)
    && forall i :: 0 <= i < |fs| ==> (fs[i].event.Dispatch? || fs[i].event.AddReplica?) && fs[i].now < now + ELECTION_TIMEOUT
  }

  /** The next dispatch at this time declares victory. */
  ghost predicate WinsAt(n: Node, now: int) {
    NextIsElection(n.queue) && n.core.co == CoRunning && Claims(n.core, now)
  }

  /** An election started at `now` can be won less than a timeout later. */
  ghost predicate CanWinEarly(n: Node, now: int) {
    exists fs, t :: WinsEarly(n, now, fs, t)
  }

  ghost predicate WinsEarly(n: Node, now: int, fs: seq<Timed>, t: int) {
    && GoesOn(fs, now) && now <= t < now + ELECTION_TIMEOUT
    && (forall i :: 0 <= i < |fs| ==> fs[i].now <= t)
    && WinsAt(AfterAll(n, fs), t)
  }

  /** A coroutine that was created at `now` cannot claim before the timeout. */
  ghost predicate TooYoung(c: Core, now: int) {
    c.co == CoRunning ==>
      c.timer.seconds == ELECTION_TIMEOUT && c.timer.start == now && c.timer.state == CoRunning
      && c.timer.elapsed < ELECTION_TIMEOUT
  }

  lemma TooYoungStep(n: Node, e: Timed, now: int)
    requires TooYoung(n.core, now) && (e.event.Dispatch? || e.event.AddReplica?) && e.now < now + ELECTION_TIMEOUT
    ensures TooYoung(After(n, e).core, now)
  {
  }

  lemma {:induction false} StaysTooYoung(n: Node, fs: seq<Timed>, now: int)
    requires TooYoung(n.core, now) && GoesOn(fs, now)
    ensures TooYoung(AfterAll(n, fs).core, now)
    decreases |fs|
  {
    if fs != [] {
      StaysTooYoung(n, fs[..|fs| - 1], now);
      TooYoungStep(AfterAll(n, fs[..|fs| - 1]), fs[|fs| - 1], now);
    }
  }

  /** The events of one run after those of another. */
  lemma {:induction false} AfterBoth(n: Node, es: seq<Timed>, fs: seq<Timed>)
    ensures AfterAll(n, es + fs) == AfterAll(AfterAll(n, es), fs)
    decreases |fs|
  {
    if fs == [] {
      assert es + fs == es;
    } else {
      AfterBoth(n, es, fs[..|fs| - 1]);
      assert (es + fs)[..|es + fs| - 1] == es + fs[..|fs| - 1];
    }
  }

  // ----- whatever the other coroutines do

  /** What the k-th dispatch does to the queue if it runs another coroutine. */
  type Behaviour = nat -> S.Outcome<Handle>

  ghost predicate MindsItsOwn(o: Behaviour) {
    forall k :: ElectionHandle !in o(k).pushed
  }

  /** The first k dispatches at time t. */
  ghost function Dispatches(o: Behaviour, k: nat, t: int): seq<Timed> {
    seq(k, i requires 0 <= i < k => Timed(Dispatch(o(i)), t))
  }

  /** After some number of dispatches at time t, the next one declares victory. */
  ghost predicate Wins(n: Node, o: Behaviour, t: int) {
    exists k: nat :: WinsAt(AfterAll(n, Dispatches(o, k, t)), t)
  }

  ghost function Later(o: Behaviour): Behaviour {
    (k: nat) => o(k + 1)
  }

  lemma WinsLater(n: Node, o: Behaviour, t: int)
    requires Wins(After(n, Timed(Dispatch(o(0)), t)), Later(o), t)
    ensures Wins(n, o, t)
  {
    var e := Timed(Dispatch(o(0)), t);
    var k: nat :| WinsAt(AfterAll(After(n, e), Dispatches(Later(o), k, t)), t);
    assert Dispatches(o, k + 1, t) == [e] + Dispatches(Later(o), k, t);
    AfterBoth(n, [e], Dispatches(Later(o), k, t));
    assert [e][..0] == [];
    assert WinsAt(AfterAll(n, Dispatches(o, k + 1, t)), t);
  }

  lemma WinsNow(n: Node, o: Behaviour, t: int)
    requires WinsAt(n, t)
    ensures Wins(n, o, t)
  {
    assert Dispatches(o, 0, t) == [];
    assert WinsAt(AfterAll(n, Dispatches(o, 0, t)), t);
  }

  /** An election whose coroutine was created a timeout ago. */
  ghost predicate Overdue(n: Node, t: int) {
    && QueueOk(n) && n.core.election == Running && n.core.timer.seconds == ELECTION_TIMEOUT
    && n.core.timer.state in {CoRunning, CoCompleted} && t >= n.core.timer.start + ELECTION_TIMEOUT
  }

  /** It is won at that clock reading, whatever the other coroutines push and whichever complete: the election
      coroutine moves up by one at every dispatch of another, and claims after at most two more slices. */
  lemma {:induction false} OverdueWins(n: Node, front: seq<Handle>, nearer: seq<Handle>, o: Behaviour, t: int)
    requires Overdue(n, t) && MindsItsOwn(o) && n.queue == front + [ElectionHandle] + nearer
    ensures Wins(n, o, t)
    decreases Waiting(n.core, t), |nearer|
  {
    var e := Timed(Dispatch(o(0)), t);
    if nearer == [] && Claims(n.core, t) {
      WinsNow(n, o, t);
    } else {
      QueueKept(n, e);
      if nearer == [] {
        SliceTowardsClaim(n.core, t);
        assert After(n, e).queue == [] + [ElectionHandle] + front;
        OverdueWins(After(n, e), [], front, Later(o), t);
      } else {
        var front', near := OtherDispatched(n, front, nearer, o(0), t);
        OverdueWins(After(n, e), front', near, Later(o), t);
      }
      WinsLater(n, o, t);
    }
  }

  lemma OtherDispatched(n: Node, front: seq<Handle>, nearer: seq<Handle>, other: S.Outcome<Handle>, t: int)
    returns (front': seq<Handle>, near: seq<Handle>)
    requires QueueOk(n) && n.queue == front + [ElectionHandle] + nearer && nearer != []
    ensures After(n, Timed(Dispatch(other), t)) == n.(queue := front' + [ElectionHandle] + near)
    ensures |near| < |nearer|
  {
    near := Dequeued(nearer);
    NotTwice(n.queue, front, nearer);
    assert Dequeued(n.queue) == front + [ElectionHandle] + near;
    var more := S.FrontAfter(n.queue, front + [ElectionHandle] + near, other);
    front' := more + front;
    assert more + (front + [ElectionHandle] + near) == front' + [ElectionHandle] + near;
  }

  lemma NotTwice(q: seq<Handle>, front: seq<Handle>, nearer: seq<Handle>)
    requires multiset(q)[ElectionHandle] <= 1 && q == front + [ElectionHandle] + nearer
    ensures ElectionHandle !in front && ElectionHandle !in nearer
  {
    assert multiset(q) == multiset(front) + multiset{ElectionHandle} + multiset(nearer);
  }

  /** An election started at `now` is won before the next timeout, whatever the other coroutines do. */
  ghost predicate AlwaysWinsEarly(n: Node, now: int) {
    forall o: Behaviour :: MindsItsOwn(o) ==> Wins(n, o, now + ELECTION_TIMEOUT - 1)
  }

  lemma AlwaysThenCan(n: Node, now: int)
    requires AlwaysWinsEarly(n, now)
    ensures CanWinEarly(n, now)
  {
    var o: Behaviour := (k: nat) => S.Outcome([], true);
    var t := now + ELECTION_TIMEOUT - 1;
    assert MindsItsOwn(o) && Wins(n, o, t);
    var k: nat :| WinsAt(AfterAll(n, Dispatches(o, k, t)), t);
    assert WinsEarly(n, now, Dispatches(o, k, t), t);
  }

  /** The timer of a running coroutine has not failed, and carries the timeout. */
  ghost predicate TimerLive(c: Core) {
    c.co == CoRunning ==> c.timer.seconds == ELECTION_TIMEOUT && c.timer.state in {CoRunning, CoCompleted}
  }

  lemma {:induction false} TimerStaysLive(uuid: Uuid, others: seq<Handle>, es: seq<Timed>)
    ensures TimerLive(AfterAll(Node(Initial(uuid), others), es).core)
    decreases |es|
  {
    if es != [] { TimerStaysLive(uuid, others, es[..|es| - 1]); }
  }

  /** The timeout belongs to the coroutine, not to the election. In every reachable state without an election:
      one started now can be won less than a timeout later, and then is won whatever the other coroutines do, if
      and only if the coroutine of an earlier one is still running and was created before. */
  lemma {:induction false} WonEarlyIff(uuid: Uuid, others: seq<Handle>, es: seq<Timed>, clock: int, now: int)
    requires ElectionHandle !in others && OthersMindTheirOwn(es) && ClockedFrom(clock, es)
    requires clock <= now && (es != [] ==> es[|es| - 1].now <= now)
    requires AfterAll(Node(Initial(uuid), others), es).core.election == Idle
    ensures var n := AfterAll(Node(Initial(uuid), others), es);
      && (CanWinEarly(NodeStart(n, now), now) <==> n.core.co == CoRunning && n.core.timer.start < now)
      && (AlwaysWinsEarly(NodeStart(n, now), now) <==> n.core.co == CoRunning && n.core.timer.start < now)
  {
    var n := AfterAll(Node(Initial(uuid), others), es);
    RunKeeps(uuid, others, es, clock);
    TimerStaysLive(uuid, others, es);
    var m := NodeStart(n, now);
    StartKeepsQueue(n, now);
    if n.core.co == CoRunning && n.core.timer.start < now {
      SurelyWonEarly(m, now);
    } else {
      assert TooYoung(m.core, now);
      NeverWonEarly(m, now);
    }
    if AlwaysWinsEarly(m, now) { AlwaysThenCan(m, now); }
  }

  lemma SurelyWonEarly(m: Node, now: int)
    requires Overdue(m, now + ELECTION_TIMEOUT - 1)
    ensures AlwaysWinsEarly(m, now)
  {
    assert ElectionHandle in multiset(m.queue);
    var i :| 0 <= i < |m.queue| && m.queue[i] == ElectionHandle;
    assert m.queue == m.queue[..i] + [ElectionHandle] + m.queue[i + 1..];
    forall o: Behaviour | MindsItsOwn(o)
      ensures Wins(m, o, now + ELECTION_TIMEOUT - 1)
    {
      OverdueWins(m, m.queue[..i], m.queue[i + 1..], o, now + ELECTION_TIMEOUT - 1);
    }
  }

  lemma NeverWonEarly(m: Node, now: int)
    requires TooYoung(m.core, now)
    ensures !CanWinEarly(m, now)
  {
    forall fs, t
      ensures !WinsEarly(m, now, fs, t)
    {
      if GoesOn(fs, now) { StaysTooYoung(m, fs, now); }
    }
  }

  /** Such states are reached: a server starts an election at time 0, runs a slice and accepts a higher
      coordinator. An election it starts at time 1 is won at time 1. */
  lemma {:induction false} WonWithinTheSecond(u: Uuid, v: Uuid) returns (es: seq<Timed>)
    requires HigherId(v, u)
    ensures OthersMindTheirOwn(es) && ClockedFrom(0, es) && forall i :: 0 <= i < |es| ==> es[i].now == 0
    ensures var n := AfterAll(Node(Initial(u), []), es);
      n.core.election == Idle && n.core.coordinator == v && AlwaysWinsEarly(NodeStart(n, 1), 1)
  {
    var ended := S.Outcome([], true);
    var first, slice, accept := Timed(Trigger, 0), Timed(Dispatch(ended), 0), Timed(CoordinatorFrom(v), 0);
    es := [first, slice, accept];
    var start := Node(Initial(u), []);
    assert es[..2] == [first, slice] && [first, slice][..1] == [first] && [first][..0] == [];
    assert AfterAll(start, [first]) == NodeStart(start, 0);
    assert AfterAll(start, [first, slice]) == NodeDispatch(NodeStart(start, 0), 0, ended);
    WonEarlyIff(u, [], es, 0, 1);
  }

  // ----- an election that is over leaves the queue

  /** Not the start of an election: a dispatch, an introduction, or the COORDINATOR of a higher server. */
  ghost predicate NoStart(uuid: Uuid, e: Timed) {
    match e.event
    case Trigger => false
    case CoordinatorFrom(u) => HigherId(u, uuid)
    case AddReplica(_) => true
    case Dispatch(_) => true
  }

  ghost predicate NoStarts(uuid: Uuid, fs: seq<Timed>) {
    forall i :: 0 <= i < |fs| ==> NoStart(uuid, fs[i])
  }

  ghost function DispatchesIn(fs: seq<Timed>): nat {
    if fs == [] then 0 else DispatchesIn(fs[..|fs| - 1]) + if fs[|fs| - 1].event.Dispatch? then 1 else 0
  }

  /** The election coroutine is queued with at most k others nearer the pop end. */
  ghost predicate QueuedBehind(q: seq<Handle>, k: int) {
    exists front, nearer :: q == front + [ElectionHandle] + nearer && |nearer| <= k
  }

  /** No election runs, and after k more dispatches of others it is the coroutine's turn at the latest. */
  ghost predicate Leaving(n: Node, uuid: Uuid, k: int) {
    && n.core.uuid == uuid && n.core.election == Idle && QueueOk(n)
    && (ElectionHandle !in n.queue || QueuedBehind(n.queue, k))
  }

  lemma LeavingStep(n: Node, uuid: Uuid, k: int, e: Timed)
    requires Leaving(n, uuid, k) && NoStart(uuid, e)
    requires e.event.Dispatch? ==> ElectionHandle !in e.event.other.pushed
    ensures Leaving(After(n, e), uuid, if e.event.Dispatch? then k - 1 else k)
  {
    QueueKept(n, e);
    if e.event.Dispatch? {
      if ElectionHandle in n.queue {
        var front, nearer :| n.queue == front + [ElectionHandle] + nearer && |nearer| <= k;
        DispatchedBehind(n, front, nearer, e, k);
      } else {
        StaysOut(n, e);
      }
    }
  }

  lemma StaysOut(n: Node, e: Timed)
    requires QueueOk(n) && ElectionHandle !in n.queue && e.event.Dispatch? && ElectionHandle !in e.event.other.pushed
    ensures After(n, e).core == n.core && ElectionHandle !in After(n, e).queue
  {
    QueueKept(n, e);
    assert ElectionHandle !in multiset(n.queue);
    if n.queue != [] { assert Oldest(n.queue) in n.queue; }
    assert multiset(After(n, e).queue)[ElectionHandle] == 0;
  }

  /** Its own dispatch ends the coroutine, that of another brings it nearer. */
  lemma DispatchedBehind(n: Node, front: seq<Handle>, nearer: seq<Handle>, e: Timed, k: int)
    requires QueueOk(n) && n.core.election == Idle && n.queue == front + [ElectionHandle] + nearer && |nearer| <= k
    requires e.event.Dispatch?
    ensures After(n, e).core.uuid == n.core.uuid && After(n, e).core.election == Idle
    ensures ElectionHandle !in After(n, e).queue || QueuedBehind(After(n, e).queue, k - 1)
  {
    if nearer == [] {
      NotTwice(n.queue, front, nearer);
      assert Dequeued(n.queue) == front;
    } else {
      var front', near := OtherDispatched(n, front, nearer, e.event.other, e.now);
    }
  }

  lemma {:induction false} LeavingKept(n: Node, uuid: Uuid, k: int, fs: seq<Timed>)
    requires Leaving(n, uuid, k) && NoStarts(uuid, fs) && OthersMindTheirOwn(fs)
    ensures Leaving(AfterAll(n, fs), uuid, k - DispatchesIn(fs))
    decreases |fs|
  {
    if fs != [] {
      var init, last := fs[..|fs| - 1], fs[|fs| - 1];
      LeavingKept(n, uuid, k, init);
      LeavingStep(AfterAll(n, init), uuid, k - DispatchesIn(init), last);
    }
  }

  lemma IsLeaving(n: Node)
    requires QueueOk(n) && n.core.election == Idle
    ensures Leaving(n, n.core.uuid, |n.queue| - 1)
  {
    if ElectionHandle in n.queue {
      var i :| 0 <= i < |n.queue| && n.queue[i] == ElectionHandle;
      assert n.queue == n.queue[..i] + [ElectionHandle] + n.queue[i + 1..];
    }
  }

  /** In every reachable state without an election: as many dispatches as the queue is long, without a start in
      between, take the election coroutine out of the queue, whatever the others push and whichever complete. */
  lemma EndedElectionLeaves(uuid: Uuid, others: seq<Handle>, es: seq<Timed>, fs: seq<Timed>, clock: int)
    requires ElectionHandle !in others && OthersMindTheirOwn(es) && ClockedFrom(clock, es)
    requires AfterAll(Node(Initial(uuid), others), es).core.election == Idle
    requires NoStarts(uuid, fs) && OthersMindTheirOwn(fs)
    requires DispatchesIn(fs) >= |AfterAll(Node(Initial(uuid), others), es).queue|
    ensures var m := AfterAll(AfterAll(Node(Initial(uuid), others), es), fs);
      && ElectionHandle !in m.queue && m.core.election == Idle && QueueOk(m) && m.core.co != CoRunning
  {
    var n := AfterAll(Node(Initial(uuid), others), es);
    RunKeeps(uuid, others, es, clock);
    UuidStays(Node(Initial(uuid), others), es);
    IsLeaving(n);
    LeavingKept(n, uuid, |n.queue| - 1, fs);
    var m := AfterAll(n, fs);
    assert ElectionHandle !in m.queue;
    assert ElectionHandle !in multiset(m.queue);
  }

  lemma {:induction false} UuidStays(n: Node, es: seq<Timed>)
    ensures AfterAll(n, es).core.uuid == n.core.uuid
    decreases |es|
  {
    if es != [] { UuidStays(n, es[..|es| - 1]); }
  }

  /** An election started after that has a coroutine and a timer of its own, which starts with it, and is not won
      before the timeout, whatever happens. */
  lemma NextElectionIsPunctual(uuid: Uuid, others: seq<Handle>, es: seq<Timed>, fs: seq<Timed>, clock: int, now: int)
    requires ElectionHandle !in others && OthersMindTheirOwn(es) && ClockedFrom(clock, es)
    requires AfterAll(Node(Initial(uuid), others), es).core.election == Idle
    requires NoStarts(uuid, fs) && OthersMindTheirOwn(fs)
    requires DispatchesIn(fs) >= |AfterAll(Node(Initial(uuid), others), es).queue|
    ensures var m := NodeStart(AfterAll(AfterAll(Node(Initial(uuid), others), es), fs), now);
      && m.core.election == Running && ElectionHandle in m.queue && m.core.timer.start == now
      && !CanWinEarly(m, now)
  {
    EndedElectionLeaves(uuid, others, es, fs, clock);
    NeverWonEarly(NodeStart(AfterAll(AfterAll(Node(Initial(uuid), others), es), fs), now), now);
  }

  // ----- exactly when a running election is claimed

  /** A server after slices of its election coroutine alone, at these clock readings. */
  function Sliced(c: Core, nows: seq<int>): Core
    decreases |nows|
  {
    if nows == [] then c else Slice(Sliced(c, nows[..|nows| - 1]), nows[|nows| - 1])
  }

  /** No slice so far has claimed. */
  ghost predicate Unclaimed(c: Core, nows: seq<int>) {
    forall k :: 0 <= k < |nows| ==> !Claims(Sliced(c, nows[..k]), nows[k])
  }

  lemma UnclaimedBefore(c: Core, nows: seq<int>)
    requires nows != [] && Unclaimed(c, nows)
    ensures Unclaimed(c, nows[..|nows| - 1]) && !Claims(Sliced(c, nows[..|nows| - 1]), nows[|nows| - 1])
  {
    var init := nows[..|nows| - 1];
    assert forall k :: 0 <= k < |init| ==> init[..k] == nows[..k] && init[k] == nows[k];
  }

  lemma WaitingSlice(d: Core, now: int)
    requires d.election == Running && d.looping && !Claims(d, now)
    ensures Slice(d, now) == d.(timer := Resumed(d.timer, now))
  {
  }

  lemma ResumedOnceMore(t: Timer, nows: seq<int>)
    requires |nows| > 1
    ensures ResumedAt(t, nows[1..]) == Resumed(ResumedAt(t, nows[..|nows| - 1][1..]), nows[|nows| - 1])
  {
    assert nows[1..][..|nows| - 2] == nows[..|nows| - 1][1..];
  }

  lemma {:induction false} SlicedTimer(c: Core, born: int, nows: seq<int>)
    requires Schedules(c) && nows != [] && Unclaimed(Start(c, born), nows)
    ensures var d := Sliced(Start(c, born), nows);
      && d.election == Running && d.co == CoRunning && d.looping
      && d.timer == ResumedAt(Started(ELECTION_TIMEOUT, born), nows[1..])
    decreases |nows|
  {
    var init, last := nows[..|nows| - 1], nows[|nows| - 1];
    UnclaimedBefore(Start(c, born), nows);
    if init == [] {
      assert nows[1..] == [];
    } else {
      SlicedTimer(c, born, init);
      WaitingSlice(Sliced(Start(c, born), init), last);
      ResumedOnceMore(Started(ELECTION_TIMEOUT, born), nows);
    }
  }

  /** The claim is made by the first slice behind one, other than the very first, that saw the timeout reached. */
  lemma ClaimedBehindTheTimeout(c: Core, born: int, nows: seq<int>, now: int)
    requires Schedules(c) && Unclaimed(Start(c, born), nows)
    ensures Claims(Sliced(Start(c, born), nows), now)
      <==> exists i :: 1 <= i < |nows| && nows[i] - born >= ELECTION_TIMEOUT
  {
    if nows != [] {
      SlicedTimer(c, born, nows);
      var timed := nows[1..] + [now];
      assert timed[..|timed| - 1] == nows[1..];
      CompletesOneResumeLate(ELECTION_TIMEOUT, born, timed);
      assert forall i :: 0 <= i < |nows| - 1 ==> timed[i] == nows[i + 1];
      if i :| 1 <= i < |nows| && nows[i] - born >= ELECTION_TIMEOUT { assert timed[i - 1] == nows[i]; }
    }
  }
}
