/** The chained hash table of lib/hash_set.h: an entry array, a bucket array and a length, all updated in place. */
module HashTables {
  import opened HashChains
  import opened TableModel
  import opened Primes
  import opened Arithmetic
  import opened Wrappers

  const MIN_BUCKETS := 5
  const MIN_CAPACITY := 4

  ghost predicate HashesStored<E>(es: seq<Entry<E>>, hash: E -> int32) {
    forall i :: 0 <= i < |es| && Live(es[i]) ==> es[i].hash == hash(es[i].value)
  }

  ghost predicate SlotsDistinct<E>(es: seq<Entry<E>>, equals: (E, E) -> bool) {
    forall i, j :: 0 <= i < |es| && 0 <= j < |es| && Live(es[i]) && Live(es[j]) && i != j ==>
      !equals(es[i].value, es[j].value)
  }

  ghost predicate Holds<E>(es: seq<Entry<E>>, equals: (E, E) -> bool, q: E) {
    exists i :: 0 <= i < |es| && Live(es[i]) && equals(q, es[i].value)
  }

  function Values<E>(es: seq<Entry<E>>): (xs: seq<E>)
    ensures |xs| == |es| && forall i :: 0 <= i < |es| ==> xs[i] == es[i].value
  {
    seq(|es|, i requires 0 <= i < |es| => es[i].value)
  }

  class HashTable<E(!new, 0)> {
    const hash: E -> int32
    const equals: (E, E) -> bool
    var entries: array<Entry<E>>
    var buckets: array<int>
    var length: nat

    /** The state of every table, also after removals that keep the chains whole. */
    ghost predicate Valid()
      reads this, entries, buckets
    {
      && Stored()
      && WellChained(entries[..], buckets[..])
    }

    /** Everything but the links: the bucket count is a prime above the capacity, the length counts
        the visible elements, hashes are cached and no two elements are equal. */
    ghost predicate Stored()
      reads this, entries, buckets
    {
      && Lawful(hash, equals)
      && IsPrime(buckets.Length) && buckets.Length > entries.Length
      && length == |Visible(entries[..])|
      && HashesStored(entries[..], hash)
      && SlotsDistinct(entries[..], equals)
    }

    /** The state before any removal: the elements fill the first `length` slots. */
    ghost predicate Compact()
      reads this, entries, buckets
    {
      Valid() && Dense(entries[..], length)
    }

    /** The elements in slot order. */
    ghost function Elements(): seq<E>
      reads this, entries
    {
      Visible(entries[..])
    }

    /** hash_set_with_capacity_impl. */
    constructor (capacity: nat, hash: E -> int32, equals: (E, E) -> bool)
      requires Lawful(hash, equals)
      ensures Compact() && Elements() == []
      ensures this.hash == hash && this.equals == equals
      ensures entries.Length == capacity && fresh(entries) && fresh(buckets)
      ensures if capacity < 3 then buckets.Length == 5 else IsNextPrime(capacity, buckets.Length)
    {
      this.hash, this.equals := hash, equals;
      var es := new Entry<E>[capacity];
      Erase(es);
      var p, _ := NextPrime(capacity);
      SmallPrimes(capacity, p);
      var bs := new int[Max(p, MIN_BUCKETS)](_ => 0);
      entries, buckets, length := es, bs, 0;
      new;
      DenseVisible(entries[..], 0);
      NothingLinked(entries[..], buckets[..]);
    }

    /** hash_set_get_location_impl: the slot of an element is found by following one chain. */
    method Find(element: E) returns (found: bool, h: int32, location: int)
      requires Valid()
      ensures h == hash(element)
      ensures found == Holds(entries[..], equals, element)
      ensures found ==> 1 <= location <= entries.Length && Live(entries[location - 1]) && equals(element, entries[location - 1].value)
      ensures !found ==> location == 0
    {
      found, h, location := FollowChain(entries, buckets, hash, equals, element);
      if !found { NotInBucketNotHeld(entries[..], buckets.Length, hash, equals, element); }
    }

    /** hash_table_at_impl: the element stored under a key. */
    method At(key: E) returns (r: Option<E>)
      requires Valid()
      ensures r == LookUp(Elements(), equals, key)
    {
      var found, _, location := Find(key);
      HoldsIffIndexed(entries[..], equals, key);
      if found {
        r := Some(entries[location - 1].value);
        FoundIsLookedUp(entries[..], hash, equals, key, location - 1);
      } else {
        r := None;
      }
    }

    /** hash_set_insert_impl. */
    method Insert(element: E) returns (added: bool)
      requires Compact()
      modifies this, entries, buckets
      ensures Compact()
      ensures added == !old(Holds(entries[..], equals, element))
      ensures Elements() == Applied(old(Elements()), equals, Op.Insert(element))
      ensures !added ==> entries == old(entries) && buckets == old(buckets) && entries[..] == old(entries[..])
      ensures added && old(length) < old(entries.Length) ==> entries == old(entries) && buckets == old(buckets)
      ensures added && old(length) < old(entries.Length) ==>
        forall j :: old(length) < j < entries.Length ==> entries[j] == old(entries[j])
      ensures added && old(length) >= old(entries.Length) ==>
        && fresh(entries) && fresh(buckets) && entries.Length == Max(MIN_CAPACITY, 2 * old(entries.Length))
        && IsNextPrime(Max(MIN_BUCKETS, entries.Length), buckets.Length)
      decreases if length >= entries.Length then 1 else 0, 3
    {
      HoldsIffIndexed(entries[..], equals, element);
      var found, h, location := Find(element);
      if found {
        return false;
      }
      InsertLocation(element, h, location);
      added := true;
    }

    /** hash_table_update_impl. */
    method Update(element: E)
      requires Compact()
      modifies this, entries, buckets
      ensures Compact()
      ensures Elements() == Applied(old(Elements()), equals, Op.Update(element))
      ensures length == old(length) || old(length) < old(entries.Length) ==> entries == old(entries) && buckets == old(buckets)
      ensures length > old(length) && old(length) >= old(entries.Length) ==>
        && fresh(entries) && fresh(buckets) && entries.Length == Max(MIN_CAPACITY, 2 * old(entries.Length))
        && IsNextPrime(Max(MIN_BUCKETS, entries.Length), buckets.Length)
    {
      ghost var es := entries[..];
      HoldsIffIndexed(es, equals, element);
      var found, h, location := Find(element);
      if found {
        entries[location - 1] := entries[location - 1].(value := element);
        assert entries[..] == es[location - 1 := es[location - 1].(value := element)];
        OverwriteValue(es, buckets[..], length, hash, equals, element, location - 1);
      } else {
        InsertLocation(element, h, location);
      }
    }

    /** hash_table_insert_location_impl, entered with an element that is not in the table. */
    method InsertLocation(element: E, h: int32, location: int)
      requires Compact() && h == hash(element) && location == 0 && !Holds(entries[..], equals, element)
      modifies this, entries, buckets
      ensures Compact()
      ensures Elements() == old(Elements()) + [element]
      ensures old(length) < old(entries.Length) ==> entries == old(entries) && buckets == old(buckets)
      ensures old(length) < old(entries.Length) ==>
        forall j :: old(length) < j < entries.Length ==> entries[j] == old(entries[j])
      ensures old(length) >= old(entries.Length) ==>
        && fresh(entries) && fresh(buckets) && entries.Length == Max(MIN_CAPACITY, 2 * old(entries.Length))
        && IsNextPrime(Max(MIN_BUCKETS, entries.Length), buckets.Length)
      decreases if length >= entries.Length then 1 else 0, 2
    {
      var handle, hashed := location, h;
      if length >= entries.Length {
        GrowEntries();
        GrowBuckets(Max(MIN_BUCKETS, entries.Length));
        DenseHolds(old(entries[..]), entries[..], length, equals, element);
        var found;
        found, hashed, handle := Find(element);
        assert !found;
      }
      Link(element, hashed, handle);
    }

    /** The reallocation at the head of hash_table_insert_location_impl: the entries are copied with
        their links, the buckets are still the old ones. */
    method GrowEntries()
      requires Compact() && length >= entries.Length
      modifies this`entries
      ensures fresh(entries) && entries.Length == Max(MIN_CAPACITY, 2 * old(entries.Length))
      ensures length < entries.Length && Values(entries[..length]) == old(Elements())
      ensures AllDistinct(old(Elements()), equals)
    {
      VisibleDistinct(entries[..], equals);
      DenseVisible(entries[..], length);
      var grown := new Entry<E>[Max(Max(MIN_CAPACITY, 2 * entries.Length), length)];
      Erase(grown);
      forall i | 0 <= i < length {
        grown[i] := entries[i];
      }
      assert grown[..length] == entries[..];
      entries := grown;
    }

    /** hash_set_grow_buckets_impl: every link is discarded and each element inserted again. Each one
        goes back to its own slot, no duplicate is met and no second growth starts. */
    method GrowBuckets(hint: nat)
      requires Lawful(hash, equals)
      requires length < entries.Length <= hint
      requires AllDistinct(Values(entries[..length]), equals)
      modifies this, entries
      ensures Compact() && entries == old(entries) && fresh(buckets) && IsNextPrime(hint, buckets.Length)
      ensures length == old(length) && Elements() == old(Values(entries[..length]))
      decreases 0, 4
    {
      ghost var xs := Values(entries[..length]);
      var p, _ := NextPrime(hint);
      var newBuckets := new int[p](_ => 0);
      var len := length;
      length, buckets := 0, newBuckets;
      Erase(entries);
      DenseVisible(entries[..], 0);
      NothingLinked(entries[..], buckets[..]);
      var es, bs := entries, buckets;
      var i := 0;
      while i < len
        invariant 0 <= i <= len && entries == es && buckets == bs
        invariant Compact() && length == i && Elements() == xs[..i]
        invariant forall j :: i <= j < len ==> entries[j].value == xs[j]
      {
        DenseVisible(entries[..], length);
        NewElementIsAbsent(entries[..], xs, i, equals);
        var added := Insert(entries[i].value);
        assert added;
        assert Elements() == xs[..i + 1];
        i := i + 1;
      }
      assert xs[..len] == xs;
    }

    /** The tail of hash_table_insert_location_impl: write the next free slot and hang it at the end of its chain. */
    method Link(element: E, h: int32, location: int)
      requires Compact() && h == hash(element) && location == 0 && !Holds(entries[..], equals, element)
      requires length < entries.Length
      modifies this`length, entries, buckets
      ensures Compact()
      ensures Elements() == old(Elements()) + [element]
      ensures forall j :: old(length) < j < entries.Length ==> entries[j] == old(entries[j])
    {
      ghost var es, n := entries[..], length;
      length := length + 1;
      var slot := if location == 0 then length else location;
      Hang(entries, buckets, slot, h, element);
      AppendedState(es, entries[..], n, hash, equals, element);
    }

    /** hash_set_remove_impl. The entries and heads it leaves are RemovedAt and HeadsAfterRemove; the
        visible elements lose exactly the removed one, and the chains stay whole unless the element
        ended a chain behind another: unless an earlier element has a congruent hash and no later one. */
    method Remove(element: E) returns (removed: bool, ghost k: nat)
      requires Valid()
      modifies this`length, entries, buckets
      ensures removed == old(Holds(entries[..], equals, element))
      ensures !removed ==> length == old(length) && entries[..] == old(entries[..]) && buckets[..] == old(buckets[..])
      ensures removed ==> k < entries.Length && old(Live(entries[k]) && equals(element, entries[k].value))
      ensures removed ==> 0 <= old(entries[k].next) <= entries.Length
      ensures removed ==> entries[..] == RemovedAt(old(entries[..]), k)
      ensures removed ==> buckets[..] == HeadsAfterRemove(old(entries[..]), old(buckets[..]), k)
      ensures removed ==> Stored() && length == old(length) - 1
      ensures removed ==> multiset(Elements()) == multiset(old(Elements())) - multiset{old(entries[k].value)}
      ensures removed ==> (Valid() <==> !TailWithPredecessor(old(entries[..]), old(buckets[..]), k))
      ensures removed ==> buckets.Length > 0 && (Valid() <==> !LastOfRivals(old(entries[..]), buckets.Length, k))
    {
      var found, h, location := Find(element);
      k := if found then location - 1 else 0;
      if !found {
        return false, k;
      }
      NextPoints(entries[..], buckets[..], k);
      RemoveKeepsChains(entries[..], buckets[..], k);
      TailIffLastOfRivals(entries[..], buckets[..], k);
      RemovedKeepsStored(entries[..], buckets[..], k, hash, equals);
      Unlink(entries, buckets, location);
      length := length - 1;
      removed := true;
    }
  }

  /** The search loop of hash_set_get_location_impl over the raw arrays. */
  method FollowChain<E>(entries: array<Entry<E>>, buckets: array<int>, hash: E -> int32, equals: (E, E) -> bool, element: E)
    returns (found: bool, h: int32, location: int)
    requires WellChained(entries[..], buckets[..])
    ensures h == hash(element)
    ensures found ==> 1 <= location <= entries.Length && Live(entries[location - 1])
    ensures found ==> h == entries[location - 1].hash && equals(element, entries[location - 1].value)
    ensures !found ==> location == 0
    ensures !found ==> forall j :: InBucket(entries[..], buckets.Length, Bucket(h, buckets.Length), j) && entries[j].hash == h ==>
      !equals(element, entries[j].value)
  {
    h := hash(element);
    var b := Bucket(h, buckets.Length);
    assert PointsToFirst(entries[..], buckets.Length, b, 0, buckets[b]);
    if buckets[b] == 0 {
      return false, h, 0;
    }
    found, location := WalkChain(entries, buckets[b], buckets[..], b, h, equals, element);
  }

  method WalkChain<E>(entries: array<Entry<E>>, head: int, ghost bs: seq<int>, ghost b: nat, h: int32,
                      equals: (E, E) -> bool, element: E)
    returns (found: bool, location: int)
    requires WellChained(entries[..], bs) && b < |bs|
    requires PointsToFirst(entries[..], |bs|, b, 0, head) && head != 0
    ensures found ==> 1 <= location <= entries.Length && Live(entries[location - 1])
    ensures found ==> h == entries[location - 1].hash && equals(element, entries[location - 1].value)
    ensures !found ==> location == 0
    ensures !found ==> forall j :: InBucket(entries[..], |bs|, b, j) && entries[j].hash == h ==> !equals(element, entries[j].value)
  {
    ghost var es := entries[..];
    location := head;
    while true
      invariant 1 <= location <= |es| && InBucket(es, |bs|, b, location - 1)
      invariant forall j :: 0 <= j < location - 1 && InBucket(es, |bs|, b, j) && es[j].hash == h ==> !equals(element, es[j].value)
      decreases |es| - location
    {
      var e := entries[location - 1];
      NextPoints(es, bs, location - 1);
      if h == e.hash && equals(element, e.value) {
        return true, location;
      }
      if e.next == 0 { break; }
      location := e.next;
    }
    return false, 0;
  }

  /** Writes slot `slot` and appends it to its bucket's chain by walking to the end. */
  method Hang<E>(entries: array<Entry<E>>, buckets: array<int>, slot: nat, h: int32, element: E)
    requires 1 <= slot <= entries.Length
    requires WellChained(entries[..], buckets[..]) && Dense(entries[..], slot - 1)
    modifies entries, buckets
    ensures WellChained(entries[..], buckets[..]) && Dense(entries[..], slot)
    ensures entries[slot - 1].hash == h && entries[slot - 1].value == element
    ensures forall j :: 0 <= j < slot - 1 ==> entries[j] == old(entries[j]).(next := entries[j].next)
    ensures forall j :: slot <= j < entries.Length ==> entries[j] == old(entries[j])
  {
    ghost var es, bs, n := entries[..], buckets[..], slot - 1;
    ghost var e := Entry(0, h, element);
    var b := Bucket(h, buckets.Length);
    assert PointsToFirst(es, |bs|, b, 0, bs[b]);
    entries[slot - 1] := Entry(0, h, element);
    assert entries[..] == es[n := e];
    if buckets[b] == 0 {
      buckets[b] := slot;
      AppendFirstOfBucket(es, bs, n, e);
      assert buckets[..] == bs[b := n + 1];
    }
    if slot != buckets[b] {
      var tail := ChainEnd(entries, buckets[b], es, bs, b, n);
      entries[tail] := entries[tail].(next := slot);
      AppendBehindTail(es, bs, n, e, tail);
      assert entries[..] == es[n := e][tail := es[tail].(next := n + 1)];
    }
  }

  /** The walk to the last entry of a chain. Slot n, just written, is not linked yet. */
  method ChainEnd<E>(entries: array<Entry<E>>, head: int, ghost es: seq<Entry<E>>, ghost bs: seq<int>, b: nat, ghost n: nat)
    returns (tail: int)
    requires WellChained(es, bs) && Dense(es, n) && b < |bs|
    requires |es| == entries.Length && forall j :: 0 <= j < n ==> entries[j] == es[j]
    requires 1 <= head <= |es| && InBucket(es, |bs|, b, head - 1)
    ensures 0 <= tail < n && InBucket(es, |bs|, b, tail) && es[tail].next == 0
  {
    tail := head - 1;
    while entries[tail].next > 0
      invariant 0 <= tail < n && InBucket(es, |bs|, b, tail)
      decreases n - tail
    {
      NextPoints(es, bs, tail);
      tail := entries[tail].next - 1;
    }
    NextPoints(es, bs, tail);
  }

  /** The writes of hash_set_remove_impl for the slot named by `location`. */
  method Unlink<E>(entries: array<Entry<E>>, buckets: array<int>, location: int)
    requires 1 <= location <= entries.Length && buckets.Length > 0
    requires 0 <= entries[location - 1].next <= entries.Length && entries[location - 1].next != location
    modifies entries, buckets
    ensures entries[..] == RemovedAt(old(entries[..]), location - 1)
    ensures buckets[..] == HeadsAfterRemove(old(entries[..]), old(buckets[..]), location - 1)
  {
    var entry := entries[location - 1];
    var b := Bucket(entry.hash, buckets.Length);
    if buckets[b] == location && entry.next == 0 {
      buckets[b] := 0;
    }
    if entry.next == 0 {
      entries[location - 1] := entry.(next := NULL_NEXT);
    } else {
      var nextEntry := entries[entry.next - 1];
      entries[location - 1] := Entry(nextEntry.next, nextEntry.hash, nextEntry.value);
      entries[entry.next - 1] := nextEntry.(next := NULL_NEXT);
    }
  }

  /** hash_set_erase_impl over a whole entry array. */
  method Erase<E>(es: array<Entry<E>>)
    modifies es
    ensures forall i :: 0 <= i < es.Length ==> es[i] == old(es[i]).(next := NULL_NEXT)
  {
    for i := 0 to es.Length
      invariant forall j :: 0 <= j < i ==> es[j] == old(es[j]).(next := NULL_NEXT)
      invariant forall j :: i <= j < es.Length ==> es[j] == old(es[j])
    {
      es[i] := es[i].(next := NULL_NEXT);
    }
  }

  lemma SmallPrimes(capacity: nat, p: int)
    requires IsNextPrime(capacity, p)
    ensures IsPrime(5)
    ensures capacity < 3 ==> p < 5
    ensures capacity >= 3 ==> p >= 5
  {
    assert !Divides(2, 5) && !Divides(3, 5) && !Divides(4, 5);
    assert IsPrime(2) && IsPrime(3) by { assert !Divides(2, 3); }
    assert Divides(2, 4);
  }

  lemma NothingLinked<E>(es: seq<Entry<E>>, bs: seq<int>)
    requires |bs| > 0 && (forall b :: 0 <= b < |bs| ==> bs[b] == 0)
    requires forall i :: 0 <= i < |es| ==> !Live(es[i])
    ensures WellChained(es, bs) && Dense(es, 0)
  {
  }

  /** An element not met in its bucket is nowhere: equal elements have equal hashes. */
  lemma NotInBucketNotHeld<E(!new)>(es: seq<Entry<E>>, n: nat, hash: E -> int32, equals: (E, E) -> bool, q: E)
    requires n > 0 && Lawful(hash, equals) && HashesStored(es, hash)
    requires forall j :: InBucket(es, n, Bucket(hash(q), n), j) && es[j].hash == hash(q) ==> !equals(q, es[j].value)
    ensures !Holds(es, equals, q)
  {
  }

  lemma HoldsIffIndexed<E>(es: seq<Entry<E>>, equals: (E, E) -> bool, q: E)
    ensures Holds(es, equals, q) <==> IndexOf(Visible(es), equals, q) < |Visible(es)|
  {
    var xs := Visible(es);
    var i := IndexOf(xs, equals, q);
    if i < |xs| {
      var k := VisibleFrom(es, xs[i]);
    } else if Holds(es, equals, q) {
      var k :| 0 <= k < |es| && Live(es[k]) && equals(q, es[k].value);
      VisibleAt(es, k);
    }
  }

  lemma {:induction false} VisibleDistinct<E(!new)>(es: seq<Entry<E>>, equals: (E, E) -> bool)
    requires SlotsDistinct(es, equals)
    ensures AllDistinct(Visible(es), equals)
    decreases |es|
  {
    if es != [] {
      var init, last := es[..|es| - 1], es[|es| - 1];
      VisibleDistinct(init, equals);
      if Live(last) {
        forall i | 0 <= i < |Visible(init)|
          ensures !equals(Visible(init)[i], last.value) && !equals(last.value, Visible(init)[i])
        {
          var k := VisibleFrom(init, Visible(init)[i]);
          assert es[k] == init[k] && es[|es| - 1] == last;
        }
      }
    }
  }

  lemma FoundIsLookedUp<E(!new)>(es: seq<Entry<E>>, hash: E -> int32, equals: (E, E) -> bool, q: E, k: nat)
    requires Lawful(hash, equals) && SlotsDistinct(es, equals)
    requires k < |es| && Live(es[k]) && equals(q, es[k].value)
    ensures LookUp(Visible(es), equals, q) == Some(es[k].value)
  {
    var xs := Visible(es);
    VisibleDistinct(es, equals);
    VisibleAt(es, k);
    HoldsIffIndexed(es, equals, q);
    SameKeySameElement(xs, hash, equals, q, es[k].value, xs[IndexOf(xs, equals, q)]);
  }

  lemma OverwriteValue<E(!new)>(es: seq<Entry<E>>, bs: seq<int>, n: nat, hash: E -> int32, equals: (E, E) -> bool,
                                e: E, k: nat)
    requires Lawful(hash, equals) && WellChained(es, bs) && Dense(es, n) && HashesStored(es, hash) && SlotsDistinct(es, equals)
    requires k < |es| && Live(es[k]) && equals(e, es[k].value)
    ensures var es' := es[k := es[k].(value := e)];
            && WellChained(es', bs) && Dense(es', n) && HashesStored(es', hash) && SlotsDistinct(es', equals)
            && Visible(es') == Applied(Visible(es), equals, Op.Update(e)) && |Visible(es')| == n
  {
    var es' := es[k := es[k].(value := e)];
    SameLinks(es, es', bs);
    OverwriteKeepsDistinct(es, hash, equals, e, k);
    DenseVisible(es, n);
    DenseVisible(es', n);
    forall j | 0 <= j < k
      ensures !equals(e, Visible(es)[j])
    {
      assert equals(es[k].value, e) && !equals(es[k].value, es[j].value);
    }
    IndexIsUnique(Visible(es), equals, e, k);
    assert Visible(es') == Visible(es)[k := e];
  }

  lemma SameLinks<E>(es: seq<Entry<E>>, es': seq<Entry<E>>, bs: seq<int>)
    requires WellChained(es, bs) && |es'| == |es|
    requires forall i :: 0 <= i < |es| ==> es'[i].next == es[i].next && es'[i].hash == es[i].hash
    ensures WellChained(es', bs)
  {
    assert forall c: nat, j :: InBucket(es', |bs|, c, j) <==> InBucket(es, |bs|, c, j);
    forall b | 0 <= b < |bs|
      ensures PointsToFirst(es', |bs|, b, 0, bs[b])
    {
      assert PointsToFirst(es, |bs|, b, 0, bs[b]);
    }
    forall i | 0 <= i < |es'| && Live(es'[i])
      ensures PointsToFirst(es', |bs|, Bucket(es'[i].hash, |bs|), i + 1, es'[i].next)
    {
      NextPoints(es, bs, i);
    }
  }

  lemma OverwriteKeepsDistinct<E(!new)>(es: seq<Entry<E>>, hash: E -> int32, equals: (E, E) -> bool, e: E, k: nat)
    requires Lawful(hash, equals) && SlotsDistinct(es, equals)
    requires k < |es| && Live(es[k]) && equals(e, es[k].value)
    ensures SlotsDistinct(es[k := es[k].(value := e)], equals)
  {
  }

  /** Growing keeps the set of elements, so what was absent is still absent. */
  lemma DenseHolds<E>(es: seq<Entry<E>>, es': seq<Entry<E>>, n: nat, equals: (E, E) -> bool, q: E)
    requires Visible(es) == Visible(es')
    ensures Holds(es, equals, q) <==> Holds(es', equals, q)
  {
    HoldsIffIndexed(es, equals, q);
    HoldsIffIndexed(es', equals, q);
  }

  lemma NewElementIsAbsent<E>(es: seq<Entry<E>>, xs: seq<E>, i: nat, equals: (E, E) -> bool)
    requires i < |xs| && AllDistinct(xs, equals) && Visible(es) == xs[..i]
    ensures !Holds(es, equals, xs[i])
    ensures Applied(xs[..i], equals, Op.Insert(xs[i])) == xs[..i + 1]
  {
    HoldsIffIndexed(es, equals, xs[i]);
  }

  lemma AppendedState<E(!new)>(es: seq<Entry<E>>, es': seq<Entry<E>>, n: nat, hash: E -> int32, equals: (E, E) -> bool, e: E)
    requires Lawful(hash, equals) && HashesStored(es, hash) && SlotsDistinct(es, equals) && !Holds(es, equals, e)
    requires |es'| == |es| && Dense(es, n) && Dense(es', n + 1)
    requires forall i :: 0 <= i < n ==> es'[i].value == es[i].value && es'[i].hash == es[i].hash
    requires es'[n].value == e && es'[n].hash == hash(e)
    ensures HashesStored(es', hash) && SlotsDistinct(es', equals)
    ensures Visible(es') == Visible(es) + [e]
  {
    DenseVisible(es, n);
    DenseVisible(es', n + 1);
    forall i | 0 <= i < n
      ensures !equals(e, es[i].value) && !equals(es[i].value, e)
    {
      assert !equals(e, es[i].value);
    }
  }

  lemma RemovedKeepsStored<E(!new)>(es: seq<Entry<E>>, bs: seq<int>, k: nat, hash: E -> int32, equals: (E, E) -> bool)
    requires Lawful(hash, equals) && WellChained(es, bs) && HashesStored(es, hash) && SlotsDistinct(es, equals)
    requires k < |es| && Live(es[k])
    ensures 0 <= es[k].next <= |es|
    ensures HashesStored(RemovedAt(es, k), hash) && SlotsDistinct(RemovedAt(es, k), equals)
    ensures multiset(Visible(RemovedAt(es, k))) == multiset(Visible(es)) - multiset{es[k].value}
    ensures |Visible(RemovedAt(es, k))| == |Visible(es)| - 1
  {
    NextPoints(es, bs, k);
    VisibleRemoved(es, k);
    SlotsAfterRemoval(es, k, hash, equals);
  }

  lemma SlotsAfterRemoval<E(!new)>(es: seq<Entry<E>>, k: nat, hash: E -> int32, equals: (E, E) -> bool)
    requires HashesStored(es, hash) && SlotsDistinct(es, equals)
    requires k < |es| && Live(es[k]) && 0 <= es[k].next <= |es|
    requires es[k].next != 0 ==> es[k].next - 1 != k && Live(es[es[k].next - 1])
    ensures HashesStored(RemovedAt(es, k), hash) && SlotsDistinct(RemovedAt(es, k), equals)
  {
    if es[k].next != 0 {
      var s := es[k].next - 1;
      assert forall i :: 0 <= i < |es| && i != k && i != s ==> RemovedAt(es, k)[i] == es[i];
    }
  }
}
