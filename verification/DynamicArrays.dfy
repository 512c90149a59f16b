/** The growable array of lib/dynamic_array.h and the FIFO built on it. */
module DynamicArrays {
  import opened BitMath

  /** Capacity after reserving `requested` elements. The test is `capacity <= requested`, so the new
      capacity is always strictly above the request. */
  ghost function CapacityAfter(capacity: nat, requested: nat): (c: nat)
    ensures requested < c
  {
    if requested < capacity then capacity
    else 2 * (if CeilingPower(requested) > 2 then CeilingPower(requested) else 2)
  }

  /** A reallocation leaves twice the least power of two that is at least the request, and at least 4. */
  lemma ReservedCapacity(capacity: nat, requested: nat)
    requires capacity <= requested
    ensures var c := CapacityAfter(capacity, requested);
      c % 2 == 0 && IsCeilingPower(if requested < 2 then 2 else requested, c / 2)
  {
    assert Pow2(0) == 1 && Pow2(1) == 2;
    assert PowerOfTwo(2);
  }

  /** What a history of calls has cost: `copied` elements moved by reallocations, `added` elements. */
  datatype Cost = Cost(length: nat, capacity: nat, copied: nat, added: nat)

  ghost function AddCost(c: Cost): Cost {
    Cost(c.length + 1, CapacityAfter(c.capacity, c.length + 1),
         c.copied + (if c.length + 1 < c.capacity then 0 else c.length), c.added + 1)
  }

  class DynamicArray<T(0)> {
    var data: array?<T>
    var length: nat
    ghost var copied: nat
    ghost var added: nat

    ghost predicate Valid()
      reads this
    {
      length <= Capacity()
    }

    ghost function Capacity(): nat
      reads this
    {
      if data == null then 0 else data.Length
    }

    ghost function Contents(): (s: seq<T>)
      reads this, data
      requires Valid()
      ensures |s| == length
    {
      if data == null then [] else data[..length]
    }

    ghost function Spent(): Cost
      reads this
    {
      Cost(length, if data == null then 2 else data.Length, copied, added)
    }

    /** A NULL array variable: the first push or insert allocates it. */
    constructor Null()
      ensures Valid() && data == null && Contents() == []
      ensures copied == added == 0
    {
      data := null;
      length, copied, added := 0, 0, 0;
    }

    constructor WithCapacity(capacity: nat)
      ensures Valid() && fresh(data) && data != null && data.Length == capacity && Contents() == []
      ensures copied == added == 0
    {
      data := new T[capacity];
      length, copied, added := 0, 0, 0;
    }

    /** dynamic_array_reserve_impl, for an array that is allocated. */
    method Reserve(requested: nat)
      requires Valid() && data != null
      modifies this`data, this`copied
      ensures Valid() && data != null
      ensures data == old(data) || fresh(data)
      ensures data.Length == CapacityAfter(old(data.Length), requested)
      ensures Contents() == old(Contents())
      ensures old(data.Length) > requested ==> data == old(data)
      ensures copied == old(copied) + if requested < old(data.Length) then 0 else length
    {
      if data.Length <= requested {
        var power := NextPowerOfTwo(requested);
        var newData := new T[2 * (if power > 2 then power else 2)];
        forall i | 0 <= i < length {
          newData[i] := data[i];
        }
        assert newData[..length] == data[..length];
        data := newData;
        copied := copied + length;
      }
    }

    /** The lazy allocation at the head of the push and insert macros. */
    method EnsureAllocated()
      requires Valid()
      modifies this`data
      ensures Valid() && data != null
      ensures data == old(data) || fresh(data)
      ensures old(data) != null ==> data == old(data)
      ensures old(data) == null ==> data.Length == 2
      ensures Contents() == old(Contents())
      ensures Spent() == old(Spent())
    {
      if data == null {
        data := new T[2];
      }
    }

    method Push(x: T)
      requires Valid()
      modifies this, data
      ensures Valid() && data != null && (data == old(data) || fresh(data))
      ensures Contents() == old(Contents()) + [x]
      ensures Spent() == AddCost(old(Spent()))
    {
      EnsureAllocated();
      Reserve(length + 1);
      length := length + 1;
      added := added + 1;
      data[length - 1] := x;
    }

    method Pop() returns (x: T)
      requires Valid() && length > 0
      modifies this`length
      ensures Valid() && length == old(length) - 1
      ensures Contents() == old(Contents())[..old(length) - 1]
      ensures x == old(Contents())[old(length) - 1]
    {
      length := length - 1;
      x := data[length];
    }

    /** dynamic_array_insert over dynamic_array_shift_impl. The move is one element longer than the
        tail it has to shift; the capacity left by Reserve is what keeps it inside the buffer. */
    method Insert(index: nat, x: T)
      requires Valid() && index <= length
      modifies this, data
      ensures Valid() && data != null && (data == old(data) || fresh(data))
      ensures Contents() == old(Contents())[..index] + [x] + old(Contents())[index..]
      ensures Spent() == AddCost(old(Spent()))
    {
      EnsureAllocated();
      Reserve(length + 1);
      ghost var before := data[..length];
      assert before == old(Contents());
      length := length + 1;
      added := added + 1;
      OpenSlot(data, index, length, x, before);
    }

    method RemoveAt(index: nat)
      requires Valid() && index < length
      modifies this`length, data
      ensures Valid()
      ensures Contents() == old(Contents())[..index] + old(Contents())[index + 1..]
    {
      ghost var before := Contents();
      MemMove(data, index, index + 1, length - (index + 1));
      length := length - 1;
      assert data[..length] == before[..index] + before[index + 1..];
    }

    // ----- dynamic_array_fifo: insert at the front, take from the back

    method FifoPush(x: T)
      requires Valid()
      modifies this, data
      ensures Valid() && data != null && (data == old(data) || fresh(data))
      ensures Contents() == Enqueued(old(Contents()), x)
    {
      Insert(0, x);
    }

    method FifoTryPop() returns (ok: bool, x: T)
      requires Valid() && data != null
      modifies this`length
      ensures Valid()
      ensures ok == (old(Contents()) != [])
      ensures ok ==> x == Oldest(old(Contents())) && Contents() == Dequeued(old(Contents()))
      ensures !ok ==> Contents() == old(Contents())
    {
      if length == 0 {
        ok, x := false, *;
      } else {
        x := data[length - 1];
        var _ := Pop();
        ok := true;
      }
    }

    method FifoTryPeek() returns (ok: bool, x: T)
      requires Valid() && data != null
      ensures ok == (Contents() != [])
      ensures ok ==> x == Oldest(Contents())
    {
      if length == 0 {
        ok, x := false, *;
      } else {
        ok, x := true, data[length - 1];
      }
    }
  }

  /** memmove inside one buffer: both ranges must lie in the buffer. */
  method MemMove<T>(a: array<T>, dst: nat, src: nat, count: nat)
    requires src + count <= a.Length && dst + count <= a.Length
    modifies a
    ensures forall j :: dst <= j < dst + count ==> a[j] == old(a[j - dst + src])
    ensures forall j :: 0 <= j < a.Length && !(dst <= j < dst + count) ==> a[j] == old(a[j])
  {
    forall k | 0 <= k < count {
      a[dst + k] := a[src + k];
    }
  }

  /** The move of dynamic_array_shift_impl, after the length was raised, and the write of the element.
      The move copies slots index..length to index + 1..length + 1 and so needs one slot beyond the
      new length. */
  method OpenSlot<T>(a: array<T>, index: nat, length: nat, x: T, ghost before: seq<T>)
    requires index < length < a.Length && a[..length - 1] == before
    modifies a
    ensures a[..length] == before[..index] + [x] + before[index..]
  {
    MemMove(a, index + 1, index, length - index);
    assert forall j :: index < j < length ==> a[j] == before[j - 1];
    a[index] := x;
    OpenedAt(a[..length], index, x, before);
  }

  lemma OpenedAt<T>(after: seq<T>, index: nat, x: T, before: seq<T>)
    requires index <= |before| && |after| == |before| + 1 && after[index] == x
    requires forall j :: 0 <= j < index ==> after[j] == before[j]
    requires forall j :: index < j < |after| ==> after[j] == before[j - 1]
    ensures after == before[..index] + [x] + before[index..]
  {
  }

  // ----- the FIFO as a queue

  function Enqueued<T>(q: seq<T>, x: T): seq<T> { [x] + q }

  function Oldest<T>(q: seq<T>): T
    requires q != []
  {
    q[|q| - 1]
  }

  function Dequeued<T>(q: seq<T>): seq<T>
    requires q != []
  {
    q[..|q| - 1]
  }

  function EnqueueAll<T>(q: seq<T>, xs: seq<T>): seq<T>
    decreases |xs|
  {
    if xs == [] then q else EnqueueAll(Enqueued(q, xs[0]), xs[1..])
  }

  /** Everything taken out of the queue, in the order it comes out. */
  function Drain<T>(q: seq<T>): seq<T>
    decreases |q|
  {
    if q == [] then [] else [Oldest(q)] + Drain(Dequeued(q))
  }

  lemma {:induction false} DrainAfterEnqueue<T>(q: seq<T>, x: T)
    ensures Drain(Enqueued(q, x)) == Drain(q) + [x]
    decreases |q|
  {
    if q == [] {
      assert Dequeued([x]) == [];
    } else {
      assert Dequeued(Enqueued(q, x)) == Enqueued(Dequeued(q), x);
      DrainAfterEnqueue(Dequeued(q), x);
    }
  }

  /** A push, or an attempt to pop. */
  datatype FifoCall<T> = Put(x: T) | Get

  function AfterCalls<T>(q: seq<T>, calls: seq<FifoCall<T>>): seq<T>
    decreases |calls|
  {
    if calls == [] then q
    else if calls[0].Put? then AfterCalls(Enqueued(q, calls[0].x), calls[1..])
    else AfterCalls(if q == [] then q else Dequeued(q), calls[1..])
  }

  /** What the pops of a history return; a pop from the empty queue returns nothing. */
  function Popped<T>(q: seq<T>, calls: seq<FifoCall<T>>): seq<T>
    decreases |calls|
  {
    if calls == [] then []
    else if calls[0].Put? then Popped(Enqueued(q, calls[0].x), calls[1..])
    else if q == [] then Popped(q, calls[1..])
    else [Oldest(q)] + Popped(Dequeued(q), calls[1..])
  }

  function Pushed<T>(calls: seq<FifoCall<T>>): seq<T> {
    if calls == [] then [] else (if calls[0].Put? then [calls[0].x] else []) + Pushed(calls[1..])
  }

  /** First in, first out, for any interleaving of pushes and pops: what has left, followed by what is still
      queued, is what was queued before followed by what was pushed, in that order. */
  lemma {:induction false} FirstInFirstOut<T>(q: seq<T>, calls: seq<FifoCall<T>>)
    ensures Popped(q, calls) + Drain(AfterCalls(q, calls)) == Drain(q) + Pushed(calls)
    decreases |calls|
  {
    if calls != [] {
      var rest := calls[1..];
      if calls[0].Put? {
        FirstInFirstOut(Enqueued(q, calls[0].x), rest);
        DrainAfterEnqueue(q, calls[0].x);
        assert (Drain(q) + [calls[0].x]) + Pushed(rest) == Drain(q) + ([calls[0].x] + Pushed(rest));
      } else if q == [] {
        FirstInFirstOut(q, rest);
      } else {
        FirstInFirstOut(Dequeued(q), rest);
        assert Popped(q, calls) + Drain(AfterCalls(q, calls))
            == [Oldest(q)] + (Popped(Dequeued(q), rest) + Drain(AfterCalls(Dequeued(q), rest)));
      }
    }
  }

  // ----- amortised cost of growth

  datatype Op = Add | Take

  ghost function CostAfter(c: Cost, ops: seq<Op>): Cost
    decreases |ops|
  {
    if ops == [] then c
    else if ops[0].Add? then CostAfter(AddCost(c), ops[1..])
    else if c.length > 0 then CostAfter(c.(length := c.length - 1), ops[1..])
    else CostAfter(c, ops[1..])
  }

  /** Holds of every array that started empty with capacity 0 or from a NULL variable (capacity 2). */
  ghost predicate Amortised(c: Cost) {
    && (c.capacity == 0 || (c.capacity >= 2 && PowerOfTwo(c.capacity)))
    && c.length <= c.added
    && (c.capacity == 0 ==> c.added == 0)
    && (c.capacity > 0 ==> c.length < c.capacity)
    && (c.capacity <= 2 ==> c.copied == 0)
    && (c.capacity >= 4 ==> c.copied + 3 <= c.capacity)
    && (c.capacity == 4 ==> c.added >= 1)
    && (c.capacity >= 8 ==> c.capacity <= 2 * c.added)
  }

  /** A reallocation doubles the capacity (or takes 0 to 4), and the bound on copies is kept. */
  lemma AddKeepsAmortised(c: Cost)
    requires Amortised(c)
    ensures Amortised(AddCost(c))
    ensures AddCost(c).capacity ==
      if c.length + 1 < c.capacity then c.capacity else if c.capacity == 0 then 4 else 2 * c.capacity
  {
    if c.length + 1 >= c.capacity {
      assert Pow2(0) == 1 && Pow2(1) == 2 && Pow2(2) == 4;
      if c.capacity > 0 {
        assert CeilingPower(c.capacity) == c.capacity;
        DoublePowerOfTwo(c.capacity);
        assert PowerOfTwo(4);
        if 2 < c.capacity { NoPowerBetween(2, c.capacity); }
        if 4 < c.capacity { NoPowerBetween(4, c.capacity); }
      }
    }
  }

  lemma {:induction false} AmortisedThroughout(c: Cost, ops: seq<Op>)
    requires Amortised(c)
    ensures Amortised(CostAfter(c, ops))
    decreases |ops|
  {
    if ops == [] {
    } else if ops[0].Add? {
      AddKeepsAmortised(c);
      AmortisedThroughout(AddCost(c), ops[1..]);
    } else if c.length > 0 {
      AmortisedThroughout(c.(length := c.length - 1), ops[1..]);
    } else {
      AmortisedThroughout(c, ops[1..]);
    }
  }

  ghost function Adds(ops: seq<Op>): nat {
    if ops == [] then 0 else (if ops[0].Add? then 1 else 0) + Adds(ops[1..])
  }

  lemma {:induction false} AddedCountsAdds(c: Cost, ops: seq<Op>)
    ensures CostAfter(c, ops).added == c.added + Adds(ops)
    decreases |ops|
  {
    if ops == [] {
    } else if ops[0].Add? {
      AddedCountsAdds(AddCost(c), ops[1..]);
    } else if c.length > 0 {
      AddedCountsAdds(c.(length := c.length - 1), ops[1..]);
    } else {
      AddedCountsAdds(c, ops[1..]);
    }
  }

  /** Over any mix of n additions and any removals, at most 2n elements are copied by reallocation. */
  lemma AmortisedGrowth(ops: seq<Op>, capacity: nat)
    requires capacity == 0 || capacity == 2
    ensures CostAfter(Cost(0, capacity, 0, 0), ops).copied <= 2 * Adds(ops)
  {
    assert Pow2(0) == 1 && Pow2(1) == 2;
    var start := Cost(0, capacity, 0, 0);
    AmortisedThroughout(start, ops);
    AddedCountsAdds(start, ops);
    var c := CostAfter(start, ops).capacity;
    assert Pow2(2) == 4;
    if 2 < c { NoPowerBetween(2, c); }
    if 4 < c { NoPowerBetween(4, c); }
  }

  /** The bound is not far off: an array that started NULL has copied at least half its capacity less one. */
  lemma {:induction false} GrowthCopies(c: Cost, ops: seq<Op>)
    requires Amortised(c) && c.capacity >= 2 && c.copied >= c.capacity / 2 - 1
    ensures CostAfter(c, ops).copied >= CostAfter(c, ops).capacity / 2 - 1
    decreases |ops|
  {
    if ops == [] {
    } else if ops[0].Add? {
      AddKeepsAmortised(c);
      GrowthCopies(AddCost(c), ops[1..]);
    } else if c.length > 0 {
      GrowthCopies(c.(length := c.length - 1), ops[1..]);
    } else {
      GrowthCopies(c, ops[1..]);
    }
  }
}
