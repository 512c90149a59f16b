/** co_queue_dispatch of lib/coroutine.h: a round-robin scheduler over the array-backed FIFO. */
module Scheduling {
  import opened DynamicArrays
  import opened Timers
  import opened Wrappers

  /** What resuming a coroutine does, as the scheduler sees it: the coroutines it pushes onto the same
      queue, in order, and whether its state is CO_COMPLETED_SUCESSFULY afterwards. */
  datatype Outcome<H> = Outcome(pushed: seq<H>, completed: bool)

  /** The queue after its oldest coroutine ran with the given outcome. */
  function QueueAfter<H>(q: seq<H>, o: Outcome<H>): seq<H>
    requires q != []
  {
    var rest := EnqueueAll(Dequeued(q), o.pushed);
    if o.completed then rest else Enqueued(rest, Oldest(q))
  }

  datatype Dispatch<H> = Dispatch(state: CoState, queue: seq<H>, current: Option<H>)

  /** One resume of the dispatcher coroutine. Its initialising call only saves its frame, and once it
      found the queue empty it is completed and does nothing more. */
  function Dispatched<H>(state: CoState, q: seq<H>, resume: H -> Outcome<H>): Dispatch<H> {
    match state
    case CoCreated => Dispatch(CoRunning, q, None)
    case CoRunning =>
      if q == [] then Dispatch(CoCompleted, q, None)
      else Dispatch(CoRunning, QueueAfter(q, resume(Oldest(q))), Some(Oldest(q)))
    case _ => Dispatch(CoCompleted, q, None)
  }

  class Dispatcher<H(0)> {
    var state: CoState
    const coroutines: DynamicArray<H>

    ghost predicate Valid()
      reads this, coroutines
    {
      coroutines.Valid() && coroutines.data != null
    }

    ghost function Queue(): seq<H>
      reads this, coroutines, coroutines.data
      requires Valid()
    {
      coroutines.Contents()
    }

    constructor (coroutines: DynamicArray<H>)
      requires coroutines.Valid() && coroutines.data != null
      ensures Valid() && this.coroutines == coroutines && state == CoCreated
    {
      this.coroutines, state := coroutines, CoCreated;
    }

    method Resume(resume: H -> Outcome<H>) returns (current: Option<H>)
      requires Valid()
      modifies this, coroutines, coroutines.data
      ensures Valid()
      ensures Dispatch(state, Queue(), current) == Dispatched(old(state), old(Queue()), resume)
    {
      current := None;
      if state == CoCreated {
        state := CoRunning;
        return;
      }
      if state != CoRunning {
        state := CoCompleted;
        return;
      }
      var popped, co := coroutines.FifoTryPop();
      if !popped {
        state := CoCompleted;
        return;
      }
      current := Some(co);
      var outcome := resume(co);
      PushAll(coroutines, outcome.pushed);
      if !outcome.completed {
        coroutines.FifoPush(co);
      }
    }
  }

  method PushAll<H(0)>(q: DynamicArray<H>, hs: seq<H>)
    requires q.Valid() && q.data != null
    modifies q, q.data
    ensures q.Valid() && q.data != null && (q.data == old(q.data) || fresh(q.data))
    ensures q.Contents() == EnqueueAll(old(q.Contents()), hs)
  {
    ghost var q0 := q.Contents();
    var i := 0;
    assert hs[..0] == [] && hs[..|hs|] == hs;
    while i < |hs|
      invariant 0 <= i <= |hs| && q.Valid() && q.data != null
      invariant q.data == old(q.data) || fresh(q.data)
      invariant q.Contents() == EnqueueAll(q0, hs[..i])
    {
      q.FifoPush(hs[i]);
      EnqueueAllSnoc(q0, hs[..i], hs[i]);
      assert hs[..i + 1] == hs[..i] + [hs[i]];
      i := i + 1;
    }
  }

  lemma {:induction false} EnqueueAllSnoc<H>(q: seq<H>, hs: seq<H>, h: H)
    ensures EnqueueAll(q, hs + [h]) == Enqueued(EnqueueAll(q, hs), h)
    decreases |hs|
  {
    if hs == [] {
      assert [h][1..] == [];
    } else {
      EnqueueAllSnoc(Enqueued(q, hs[0]), hs[1..], h);
      assert (hs + [h])[1..] == hs[1..] + [h];
    }
  }

  // ----- conservation

  lemma {:induction false} EnqueueAllBag<H>(q: seq<H>, hs: seq<H>)
    ensures multiset(EnqueueAll(q, hs)) == multiset(q) + multiset(hs)
    decreases |hs|
  {
    if hs != [] {
      EnqueueAllBag(Enqueued(q, hs[0]), hs[1..]);
      assert hs == [hs[0]] + hs[1..];
    }
  }

  /** A dispatch loses the coroutine it ran only if that completed, and gains exactly what was pushed. */
  lemma DispatchConserves<H>(q: seq<H>, o: Outcome<H>)
    requires q != []
    ensures multiset(QueueAfter(q, o)) ==
      multiset(q) - (if o.completed then multiset{Oldest(q)} else multiset{}) + multiset(o.pushed)
  {
    EnqueueAllBag(Dequeued(q), o.pushed);
    assert q == Dequeued(q) + [Oldest(q)];
  }

  // ----- fairness

  /** The dispatcher resumed once for each element of `resumes`; returns the coroutines it ran. */
  function Trace<H>(q: seq<H>, resumes: seq<H -> Outcome<H>>): seq<Option<H>>
    decreases |resumes|
  {
    if resumes == [] then []
    else if q == [] then seq(|resumes|, _ => None)
    else [Some(Oldest(q))] + Trace(QueueAfter(q, resumes[0](Oldest(q))), resumes[1..])
  }

  /** A dispatch leaves everything between the front and the popped end in place. */
  lemma {:induction false} PushesGoBehind<H>(q: seq<H>, hs: seq<H>)
    ensures |q| <= |EnqueueAll(q, hs)|
    ensures EnqueueAll(q, hs)[|EnqueueAll(q, hs)| - |q|..] == q
    decreases |hs|
  {
    if hs != [] {
      PushesGoBehind(Enqueued(q, hs[0]), hs[1..]);
    }
  }

  /** The coroutines of `nearer` run first, the one at the pop end before all others, and then `c`. */
  ghost predicate Resumed<H>(trace: seq<Option<H>>, nearer: seq<H>, c: H) {
    && |nearer| < |trace|
    && trace[|nearer|] == Some(c)
    && forall i :: 0 <= i < |nearer| ==> trace[i] == Some(nearer[|nearer| - 1 - i])
  }

  /** A coroutine with k others nearer the pop end is resumed on exactly the (k + 1)-th dispatch, and
      those k in order before it, whatever the coroutines push and whichever complete. */
  lemma {:induction false} RoundRobin<H>(q: seq<H>, front: seq<H>, nearer: seq<H>, c: H, resumes: seq<H -> Outcome<H>>)
    requires q == front + [c] + nearer && |nearer| < |resumes|
    ensures Resumed(Trace(q, resumes), nearer, c)
    decreases |nearer|
  {
    TraceLength(q, resumes);
    if nearer != [] {
      var o, near := resumes[0](Oldest(q)), Dequeued(nearer);
      assert Dequeued(q) == front + [c] + near;
      var front' := FrontAfter(q, front + [c] + near, o);
      assert front' + (front + [c] + near) == (front' + front) + [c] + near;
      RoundRobin(QueueAfter(q, o), front' + front, near, c, resumes[1..]);
      OneDispatchEarlier(Trace(QueueAfter(q, o), resumes[1..]), nearer, c);
    }
  }

  lemma OneDispatchEarlier<H>(trace: seq<Option<H>>, nearer: seq<H>, c: H)
    requires nearer != [] && Resumed(trace, Dequeued(nearer), c)
    ensures Resumed([Some(Oldest(nearer))] + trace, nearer, c)
  {
  }

  /** What stands before the rest of the queue after a dispatch. */
  lemma FrontAfter<H>(q: seq<H>, rest: seq<H>, o: Outcome<H>) returns (front: seq<H>)
    requires q != [] && rest == Dequeued(q)
    ensures QueueAfter(q, o) == front + rest
  {
    PushesGoBehind(rest, o.pushed);
    var kept := EnqueueAll(rest, o.pushed);
    front := (if o.completed then [] else [Oldest(q)]) + kept[..|kept| - |rest|];
  }

  lemma {:induction false} TraceLength<H>(q: seq<H>, resumes: seq<H -> Outcome<H>>)
    ensures |Trace(q, resumes)| == |resumes|
    decreases |resumes|
  {
    if resumes != [] && q != [] {
      TraceLength(QueueAfter(q, resumes[0](Oldest(q))), resumes[1..]);
    }
  }

  // ----- the running order

  lemma {:induction false} DrainReverses<H>(q: seq<H>)
    ensures |Drain(q)| == |q| && forall i :: 0 <= i < |q| ==> Drain(q)[i] == q[|q| - 1 - i]
    decreases |q|
  {
    if q != [] { DrainReverses(Dequeued(q)); }
  }

  lemma {:induction false} DrainAfterAll<H>(q: seq<H>, hs: seq<H>)
    ensures Drain(EnqueueAll(q, hs)) == Drain(q) + hs
    decreases |hs|
  {
    if hs != [] {
      DrainAfterAll(Enqueued(q, hs[0]), hs[1..]);
      DrainAfterEnqueue(q, hs[0]);
      assert (Drain(q) + [hs[0]]) + hs[1..] == Drain(q) + hs;
    }
  }

  /** A dispatch puts behind all that waits what its coroutine pushed, in that order, and the coroutine itself last. */
  lemma OrderAfter<H>(q: seq<H>, o: Outcome<H>)
    requires q != []
    ensures Drain(QueueAfter(q, o)) == Drain(Dequeued(q)) + o.pushed + if o.completed then [] else [Oldest(q)]
  {
    DrainAfterAll(Dequeued(q), o.pushed);
    if !o.completed { DrainAfterEnqueue(EnqueueAll(Dequeued(q), o.pushed), Oldest(q)); }
  }

  /** Whatever they do, the queued coroutines run in the order in which they leave the queue. */
  lemma TraceFollowsDrain<H>(q: seq<H>, resumes: seq<H -> Outcome<H>>, i: nat)
    requires i < |q| <= |resumes|
    ensures i < |Drain(q)| && i < |Trace(q, resumes)| && Trace(q, resumes)[i] == Some(Drain(q)[i])
  {
    var k := |q| - 1 - i;
    assert q == q[..k] + [q[k]] + q[k + 1..];
    RoundRobin(q, q[..k], q[k + 1..], q[k], resumes);
    DrainReverses(q);
  }

  /** What a coroutine pushed runs before that coroutine runs again, in the order in which it was pushed, and
      behind all that had been waiting. */
  lemma PushedRunFirst<H>(q: seq<H>, o: Outcome<H>, resumes: seq<H -> Outcome<H>>, i: nat)
    requires q != [] && |QueueAfter(q, o)| <= |resumes| && i < |o.pushed| + (if o.completed then 0 else 1)
    ensures var k := |q| - 1 + i;
      && k < |Trace(QueueAfter(q, o), resumes)|
      && Trace(QueueAfter(q, o), resumes)[k] == Some(if i < |o.pushed| then o.pushed[i] else Oldest(q))
  {
    OrderAfter(q, o);
    DrainReverses(QueueAfter(q, o));
    DrainReverses(Dequeued(q));
    TraceFollowsDrain(QueueAfter(q, o), resumes, |q| - 1 + i);
  }

  // ----- the dispatcher from its creation on

  /** What the dispatcher runs, resume by resume. */
  function RunBy<H>(state: CoState, q: seq<H>, resumes: seq<H -> Outcome<H>>): seq<Option<H>>
    decreases |resumes|
  {
    if resumes == [] then []
    else
      var d := Dispatched(state, q, resumes[0]);
      [d.current] + RunBy(d.state, d.queue, resumes[1..])
  }

  lemma {:induction false} RunsNothing<H>(state: CoState, q: seq<H>, resumes: seq<H -> Outcome<H>>)
    requires state == CoCompleted || state == CoFailed
    ensures RunBy(state, q, resumes) == seq(|resumes|, _ => None)
    decreases |resumes|
  {
    if resumes != [] { RunsNothing(CoCompleted, q, resumes[1..]); }
  }

  lemma {:induction false} RunsTheTrace<H>(q: seq<H>, resumes: seq<H -> Outcome<H>>)
    ensures RunBy(CoRunning, q, resumes) == Trace(q, resumes)
    decreases |resumes|
  {
    if resumes != [] {
      if q == [] {
        RunsNothing(CoCompleted, q, resumes[1..]);
        assert [None] + seq(|resumes| - 1, _ => None) == seq<Option<H>>(|resumes|, _ => None);
      } else {
        RunsTheTrace(QueueAfter(q, resumes[0](Oldest(q))), resumes[1..]);
      }
    }
  }

  /** The initialising call runs nothing; from then on the dispatcher runs the trace of its queue, and once it
      has found the queue empty it is over for good, whatever is pushed later. */
  lemma TraceIsDispatched<H>(q: seq<H>, resumes: seq<H -> Outcome<H>>, later: seq<H>, more: seq<H -> Outcome<H>>)
    requires resumes != []
    ensures RunBy(CoCreated, q, resumes) == [None] + Trace(q, resumes[1..])
    ensures RunBy(Dispatched(CoRunning, [], resumes[0]).state, later, more) == seq(|more|, _ => None)
  {
    RunsTheTrace(q, resumes[1..]);
    RunsNothing(CoCompleted, later, more);
  }
}
