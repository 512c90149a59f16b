/** Collision chains of lib/hash_set.h: 1-based links stored inside a flat entry array. */
module HashChains {
  import opened Arithmetic

  const NULL_NEXT := -1

  type int32 = x: int | -0x8000_0000 <= x <= 0x7fff_ffff

  /** next: 0 ends a chain, n > 0 links to slot n - 1, NULL_NEXT marks an unused slot. */
  datatype Entry<E> = Entry(next: int, hash: int32, value: E)

  /** x % n by repeated subtraction, which keeps division by a variable out of the chain proofs. */
  function Remainder(x: nat, n: nat): (r: nat)
    requires n > 0
    ensures r < n
  {
    if x < n then x else Remainder(x - n, n)
  }

  lemma {:induction false} RemainderIsModulo(x: nat, n: nat)
    requires n > 0
    ensures Remainder(x, n) == x % n
  {
    if x < n {
      DivisionIsUnique(x, n, 0, x);
    } else {
      RemainderIsModulo(x - n, n);
      var q := (x - n) / n;
      assert x == n * (q + 1) + (x - n) % n;
      DivisionIsUnique(x, n, q + 1, (x - n) % n);
    }
  }

  /** hash % buckets_length, where buckets_length is a size_t and so the hash is converted to 64-bit unsigned. */
  function Bucket(hash: int32, buckets: nat): (b: nat)
    requires buckets > 0
    ensures b < buckets
  {
    Remainder(if hash < 0 then hash + 0x1_0000_0000_0000_0000 else hash, buckets)
  }

  /** The 64-bit unsigned values of the hashes have the same remainder. */
  predicate Congruent(h: int32, j: int32, n: nat)
    requires n > 0
  {
    (h % 0x1_0000_0000_0000_0000) % n == (j % 0x1_0000_0000_0000_0000) % n
  }

  /** Two hashes share a bucket exactly when their 64-bit unsigned values are congruent modulo the bucket count. */
  lemma SameBucketIff(h: int32, j: int32, n: nat)
    requires n > 0
    ensures Bucket(h, n) == (h % 0x1_0000_0000_0000_0000) % n
    ensures Bucket(h, n) == Bucket(j, n) <==> Congruent(h, j, n)
  {
    UnsignedValue(h);
    UnsignedValue(j);
    RemainderIsModulo(h % 0x1_0000_0000_0000_0000, n);
    RemainderIsModulo(j % 0x1_0000_0000_0000_0000, n);
  }

  lemma UnsignedValue(h: int32)
    ensures h % 0x1_0000_0000_0000_0000 == if h < 0 then h + 0x1_0000_0000_0000_0000 else h
  {
  }

  predicate Live<E>(e: Entry<E>) { e.next != NULL_NEXT }

  ghost predicate InBucket<E>(es: seq<Entry<E>>, n: nat, b: nat, i: int)
    requires n > 0
  {
    0 <= i < |es| && Live(es[i]) && Bucket(es[i].hash, n) == b
  }

  /** The handle names the first slot of bucket b at or after `from`, or is 0 when there is none. */
  ghost predicate PointsToFirst<E>(es: seq<Entry<E>>, n: nat, b: nat, from: nat, handle: int)
    requires n > 0
  {
    && (handle == 0 || (from < handle <= |es| && Live(es[handle - 1]) && Bucket(es[handle - 1].hash, n) == b))
    && forall j :: from <= j < (if handle == 0 then |es| else handle - 1) ==> !InBucket(es, n, b, j)
  }

  ghost predicate WellChained<E>(es: seq<Entry<E>>, bs: seq<int>) {
    && |bs| > 0
    && (forall b :: 0 <= b < |bs| ==> PointsToFirst(es, |bs|, b, 0, bs[b]))
    && (forall b: nat, i: nat :: InBucket(es, |bs|, b, i) ==> PointsToFirst(es, |bs|, b, i + 1, es[i].next))
  }

  /** Exactly the first n slots are in use. */
  ghost predicate Dense<E>(es: seq<Entry<E>>, n: nat) {
    n <= |es| && forall i :: 0 <= i < |es| ==> (Live(es[i]) <==> i < n)
  }

  lemma NextPoints<E>(es: seq<Entry<E>>, bs: seq<int>, i: nat)
    requires WellChained(es, bs) && i < |es| && Live(es[i])
    ensures PointsToFirst(es, |bs|, Bucket(es[i].hash, |bs|), i + 1, es[i].next)
  {
    assert InBucket(es, |bs|, Bucket(es[i].hash, |bs|), i);
  }

  // ----- what the links amount to

  /** The slots met by following links from a handle. */
  ghost function Chain<E>(es: seq<Entry<E>>, bs: seq<int>, handle: int): seq<int>
    requires WellChained(es, bs)
    requires handle == 0 || (1 <= handle <= |es| && Live(es[handle - 1]))
    decreases if handle == 0 then 0 else |es| + 1 - handle
  {
    if handle == 0 then []
    else
      NextPoints(es, bs, handle - 1);
      [handle - 1] + Chain(es, bs, es[handle - 1].next)
  }

  /** Following links from a bucket's handle meets its slots from that handle on, each once and in
      increasing order: the chain is finite, has no cycle and misses nothing. */
  lemma {:induction false} ChainMeetsBucket<E>(es: seq<Entry<E>>, bs: seq<int>, b: nat, from: nat, handle: int)
    requires WellChained(es, bs) && b < |bs|
    requires PointsToFirst(es, |bs|, b, from, handle)
    ensures forall i :: i in Chain(es, bs, handle) <==> from <= i && InBucket(es, |bs|, b, i)
    ensures forall j, k :: 0 <= j < k < |Chain(es, bs, handle)| ==> Chain(es, bs, handle)[j] < Chain(es, bs, handle)[k]
    decreases if handle == 0 then 0 else |es| + 1 - handle
  {
    if handle != 0 {
      var next := es[handle - 1].next;
      NextPoints(es, bs, handle - 1);
      ChainMeetsBucket(es, bs, b, handle, next);
      var rest := Chain(es, bs, next);
      assert Chain(es, bs, handle) == [handle - 1] + rest;
      forall k | 0 <= k < |rest|
        ensures handle - 1 < rest[k]
      {
        assert rest[k] in rest;
      }
    }
  }

  /** A bucket's chain is acyclic and holds exactly the slots in use whose hash belongs there: chains of
      different buckets are disjoint, and together they cover all slots in use. */
  lemma ChainsPartitionSlots<E>(es: seq<Entry<E>>, bs: seq<int>, b: nat)
    requires WellChained(es, bs) && b < |bs|
    ensures forall i :: i in Chain(es, bs, bs[b]) <==> 0 <= i < |es| && Live(es[i]) && Bucket(es[i].hash, |bs|) == b
    ensures forall j, k :: 0 <= j < k < |Chain(es, bs, bs[b])| ==> Chain(es, bs, bs[b])[j] != Chain(es, bs, bs[b])[k]
  {
    ChainMeetsBucket(es, bs, b, 0, bs[b]);
  }

  // ----- adding slot n at the end of its chain

  lemma AppendFirstOfBucket<E>(es: seq<Entry<E>>, bs: seq<int>, n: nat, e: Entry<E>)
    requires WellChained(es, bs) && Dense(es, n) && n < |es| && e.next == 0
    requires bs[Bucket(e.hash, |bs|)] == 0
    ensures WellChained(es[n := e], bs[Bucket(e.hash, |bs|) := n + 1])
    ensures Dense(es[n := e], n + 1)
  {
    var es', b := es[n := e], Bucket(e.hash, |bs|);
    var bs' := bs[b := n + 1];
    assert forall c: nat, j :: j != n ==> (InBucket(es', |bs|, c, j) <==> InBucket(es, |bs|, c, j));
    forall c | 0 <= c < |bs'|
      ensures PointsToFirst(es', |bs|, c, 0, bs'[c])
    {
      assert PointsToFirst(es, |bs|, c, 0, bs[c]);
    }
    forall i | 0 <= i < |es'| && Live(es'[i])
      ensures PointsToFirst(es', |bs|, Bucket(es'[i].hash, |bs|), i + 1, es'[i].next)
    {
      if i != n {
        NextPoints(es, bs, i);
        assert PointsToFirst(es, |bs|, b, 0, bs[b]);
        assert !InBucket(es, |bs|, b, i);
      }
    }
  }

  lemma AppendBehindTail<E>(es: seq<Entry<E>>, bs: seq<int>, n: nat, e: Entry<E>, t: nat)
    requires WellChained(es, bs) && Dense(es, n) && n < |es| && e.next == 0
    requires InBucket(es, |bs|, Bucket(e.hash, |bs|), t) && es[t].next == 0
    ensures WellChained(es[n := e][t := es[t].(next := n + 1)], bs)
    ensures Dense(es[n := e][t := es[t].(next := n + 1)], n + 1)
  {
    var es', b := es[n := e][t := es[t].(next := n + 1)], Bucket(e.hash, |bs|);
    assert t < n;
    assert forall c: nat, j :: j != n ==> (InBucket(es', |bs|, c, j) <==> InBucket(es, |bs|, c, j));
    NextPoints(es, bs, t);
    forall c | 0 <= c < |bs|
      ensures PointsToFirst(es', |bs|, c, 0, bs[c])
    {
      assert PointsToFirst(es, |bs|, c, 0, bs[c]);
      if c == b { assert bs[b] != 0; }
    }
    forall i | 0 <= i < |es'| && Live(es'[i])
      ensures PointsToFirst(es', |bs|, Bucket(es'[i].hash, |bs|), i + 1, es'[i].next)
    {
      if i != n {
        NextPoints(es, bs, i);
        if i != t && Bucket(es[i].hash, |bs|) == b {
          assert InBucket(es, |bs|, b, i);
          assert i < t && es[i].next != 0;
        }
      }
    }
  }

  // ----- removing slot k

  /** The entries after removing slot k: the successor, if any, moves into the slot. */
  function RemovedAt<E>(es: seq<Entry<E>>, k: nat): (es': seq<Entry<E>>)
    requires k < |es| && 0 <= es[k].next <= |es|
    ensures |es'| == |es|
  {
    var next := es[k].next;
    if next == 0 then es[k := es[k].(next := NULL_NEXT)]
    else es[k := es[next - 1]][next - 1 := es[next - 1].(next := NULL_NEXT)]
  }

  /** The bucket heads after removing slot k. */
  function HeadsAfterRemove<E>(es: seq<Entry<E>>, bs: seq<int>, k: nat): seq<int>
    requires k < |es| && |bs| > 0
  {
    var b := Bucket(es[k].hash, |bs|);
    if bs[b] == k + 1 && es[k].next == 0 then bs[b := 0] else bs
  }

  /** Slot k ends its chain and another slot of the bucket comes before it. */
  predicate TailWithPredecessor<E>(es: seq<Entry<E>>, bs: seq<int>, k: nat)
    requires k < |es| && |bs| > 0
  {
    es[k].next == 0 && bs[Bucket(es[k].hash, |bs|)] != k + 1
  }

  /** Another slot in use whose hash is congruent to that of slot k. */
  ghost predicate Rival<E>(es: seq<Entry<E>>, n: nat, k: nat, j: int)
    requires n > 0 && k < |es|
  {
    0 <= j < |es| && j != k && Live(es[j]) && Congruent(es[j].hash, es[k].hash, n)
  }

  /** Some slot before k has a congruent hash and none after it. */
  ghost predicate LastOfRivals<E>(es: seq<Entry<E>>, n: nat, k: nat)
    requires n > 0 && k < |es|
  {
    (exists j :: j < k && Rival(es, n, k, j)) && forall j :: j > k ==> !Rival(es, n, k, j)
  }

  lemma RivalsShareBucket<E>(es: seq<Entry<E>>, n: nat, k: nat)
    requires n > 0 && k < |es|
    ensures forall j :: Rival(es, n, k, j) <==> j != k && InBucket(es, n, Bucket(es[k].hash, n), j)
  {
    forall j | 0 <= j < |es|
      ensures Congruent(es[j].hash, es[k].hash, n) <==> Bucket(es[j].hash, n) == Bucket(es[k].hash, n)
    {
      SameBucketIff(es[j].hash, es[k].hash, n);
    }
  }

  /** The removal that breaks a chain, told from the hashes alone. */
  lemma TailIffLastOfRivals<E>(es: seq<Entry<E>>, bs: seq<int>, k: nat)
    requires WellChained(es, bs) && k < |es| && Live(es[k])
    ensures TailWithPredecessor(es, bs, k) <==> LastOfRivals(es, |bs|, k)
  {
    var b := Bucket(es[k].hash, |bs|);
    RivalsShareBucket(es, |bs|, k);
    NextPoints(es, bs, k);
    assert PointsToFirst(es, |bs|, b, 0, bs[b]);
    assert InBucket(es, |bs|, b, k);
    if es[k].next != 0 { assert Rival(es, |bs|, k, es[k].next - 1); }
    if bs[b] != k + 1 { assert Rival(es, |bs|, k, bs[b] - 1); }
  }

  lemma RemovedBucketMembers<E>(es: seq<Entry<E>>, bs: seq<int>, k: nat)
    requires WellChained(es, bs) && k < |es| && Live(es[k])
    ensures 0 <= es[k].next <= |es|
    ensures var gone := if es[k].next == 0 then k else es[k].next - 1;
            forall c: nat, j :: InBucket(RemovedAt(es, k), |bs|, c, j) <==> InBucket(es, |bs|, c, j) && j != gone
  {
    NextPoints(es, bs, k);
  }

  /** Removal keeps every chain well formed exactly when the slot is not a tail with a predecessor:
      in that case the predecessor keeps a link to the emptied slot. */
  lemma RemoveKeepsChains<E>(es: seq<Entry<E>>, bs: seq<int>, k: nat)
    requires WellChained(es, bs) && k < |es| && Live(es[k])
    ensures 0 <= es[k].next <= |es|
    ensures WellChained(RemovedAt(es, k), HeadsAfterRemove(es, bs, k)) <==> !TailWithPredecessor(es, bs, k)
  {
    RemovedBucketMembers(es, bs, k);
    if TailWithPredecessor(es, bs, k) {
      RemoveTailBreaksChain(es, bs, k);
    } else if es[k].next == 0 {
      RemoveOnlyMember(es, bs, k);
    } else {
      RemoveWithSuccessor(es, bs, k);
    }
  }

  /** A handle that does not name the emptied slot keeps its meaning. */
  lemma PointerSurvives<E>(es: seq<Entry<E>>, es': seq<Entry<E>>, n: nat, c: nat, from: nat, handle: int, gone: nat)
    requires n > 0 && |es'| == |es|
    requires PointsToFirst(es, n, c, from, handle) && handle != gone + 1
    requires forall j :: InBucket(es', n, c, j) <==> InBucket(es, n, c, j) && j != gone
    ensures PointsToFirst(es', n, c, from, handle)
  {
    if handle != 0 {
      assert InBucket(es, n, c, handle - 1);
      assert InBucket(es', n, c, handle - 1);
    }
  }

  lemma RemoveOnlyMember<E>(es: seq<Entry<E>>, bs: seq<int>, k: nat)
    requires WellChained(es, bs) && k < |es| && Live(es[k])
    requires es[k].next == 0 && bs[Bucket(es[k].hash, |bs|)] == k + 1
    ensures WellChained(RemovedAt(es, k), HeadsAfterRemove(es, bs, k))
  {
    var es', bs', b := RemovedAt(es, k), HeadsAfterRemove(es, bs, k), Bucket(es[k].hash, |bs|);
    RemovedBucketMembers(es, bs, k);
    NextPoints(es, bs, k);
    assert PointsToFirst(es, |bs|, b, 0, bs[b]);
    forall c: nat | c < |bs'|
      ensures PointsToFirst(es', |bs|, c, 0, bs'[c])
    {
      assert PointsToFirst(es, |bs|, c, 0, bs[c]);
      if c != b {
        assert !InBucket(es, |bs|, c, k);
        PointerSurvives(es, es', |bs|, c, 0, bs[c], k);
      }
    }
    forall i: nat | i < |es'| && Live(es'[i])
      ensures PointsToFirst(es', |bs|, Bucket(es'[i].hash, |bs|), i + 1, es'[i].next)
    {
      var c := Bucket(es[i].hash, |bs|);
      NextPoints(es, bs, i);
      assert InBucket(es, |bs|, c, i);
      assert c != b;
      assert es[i].next != k + 1;
      PointerSurvives(es, es', |bs|, c, i + 1, es[i].next, k);
    }
  }

  lemma RemoveWithSuccessor<E>(es: seq<Entry<E>>, bs: seq<int>, k: nat)
    requires WellChained(es, bs) && k < |es| && Live(es[k])
    requires es[k].next != 0
    ensures 0 <= es[k].next <= |es|
    ensures WellChained(RemovedAt(es, k), HeadsAfterRemove(es, bs, k))
  {
    RemovedBucketMembers(es, bs, k);
    var es', b, s := RemovedAt(es, k), Bucket(es[k].hash, |bs|), es[k].next - 1;
    NextPoints(es, bs, k);
    NextPoints(es, bs, s);
    forall c: nat | c < |bs|
      ensures PointsToFirst(es', |bs|, c, 0, bs[c])
    {
      assert PointsToFirst(es, |bs|, c, 0, bs[c]);
      NotLinkedTo(es, bs, k, c, 0, bs[c]);
      PointerSurvives(es, es', |bs|, c, 0, bs[c], s);
    }
    forall i: nat | i < |es'| && Live(es'[i])
      ensures PointsToFirst(es', |bs|, Bucket(es'[i].hash, |bs|), i + 1, es'[i].next)
    {
      var c := Bucket(es'[i].hash, |bs|);
      if i == k {
        assert forall j :: k < j < s ==> !InBucket(es, |bs|, b, j);
        PointerSurvives(es, es', |bs|, b, s + 1, es[s].next, s);
        assert forall j :: k < j <= s ==> !InBucket(es', |bs|, b, j);
      } else {
        NextPoints(es, bs, i);
        assert InBucket(es, |bs|, c, i);
        NotLinkedTo(es, bs, k, c, i + 1, es[i].next);
        PointerSurvives(es, es', |bs|, c, i + 1, es[i].next, s);
      }
    }
  }

  /** Only slot k points to the successor of slot k. */
  lemma NotLinkedTo<E>(es: seq<Entry<E>>, bs: seq<int>, k: nat, c: nat, from: nat, handle: int)
    requires WellChained(es, bs) && k < |es| && Live(es[k]) && es[k].next > 0
    requires PointsToFirst(es, |bs|, c, from, handle)
    requires from == k + 1 ==> c != Bucket(es[k].hash, |bs|)
    requires from == 0 || InBucket(es, |bs|, c, from - 1)
    ensures handle != es[k].next
  {
    var b := Bucket(es[k].hash, |bs|);
    NextPoints(es, bs, k);
    assert InBucket(es, |bs|, b, k);
  }

  lemma RemoveTailBreaksChain<E>(es: seq<Entry<E>>, bs: seq<int>, k: nat)
    requires WellChained(es, bs) && k < |es| && Live(es[k])
    requires TailWithPredecessor(es, bs, k)
    ensures !WellChained(RemovedAt(es, k), HeadsAfterRemove(es, bs, k))
  {
    var es', b := RemovedAt(es, k), Bucket(es[k].hash, |bs|);
    assert PointsToFirst(es, |bs|, b, 0, bs[b]);
    assert InBucket(es, |bs|, b, k);
    var p := Predecessor(es, bs, b, bs[b] - 1, k);
    assert es'[p] == es[p];
    assert !InBucket(es', |bs|, b, k);
    assert !PointsToFirst(es', |bs|, Bucket(es'[p].hash, |bs|), p + 1, es'[p].next);
  }

  /** The slot of the chain that links to slot k, searched for from an earlier slot of the bucket. */
  lemma {:induction false} Predecessor<E>(es: seq<Entry<E>>, bs: seq<int>, b: nat, i: nat, k: nat) returns (p: nat)
    requires WellChained(es, bs) && b < |bs|
    requires i < k && InBucket(es, |bs|, b, i) && InBucket(es, |bs|, b, k)
    ensures i <= p < k && InBucket(es, |bs|, b, p) && es[p].next == k + 1
    decreases k - i
  {
    NextPoints(es, bs, i);
    assert es[i].next != 0 && es[i].next <= k + 1;
    if es[i].next == k + 1 {
      p := i;
    } else {
      p := Predecessor(es, bs, b, es[i].next - 1, k);
    }
  }

  /** The slot that removing slot k empties: its own, or the successor's that moved into it. */
  function Emptied<E>(es: seq<Entry<E>>, k: nat): int
    requires k < |es|
  {
    if es[k].next == 0 then k else es[k].next - 1
  }

  /** After a removal from n packed slots an insert writes slot n - 1. That slot is free, and the
      remaining elements are packed again, exactly when the removal emptied slot n - 1; otherwise the
      insert overwrites a live element. */
  lemma InsertAfterRemove<E>(es: seq<Entry<E>>, bs: seq<int>, n: nat, k: nat)
    requires WellChained(es, bs) && Dense(es, n) && k < n
    ensures 0 <= es[k].next <= |es|
    ensures Live(RemovedAt(es, k)[n - 1]) <==> Emptied(es, k) != n - 1
    ensures Dense(RemovedAt(es, k), n - 1) <==> Emptied(es, k) == n - 1
  {
    NextPoints(es, bs, k);
    assert forall j :: 0 <= j < |es| ==> (Live(RemovedAt(es, k)[j]) <==> Live(es[j]) && j != Emptied(es, k));
  }
}
