/** Tables on which the removal of lib/hash_set.h goes wrong, built by inserting elements with equal hashes. */
module HashRemovals {
  import opened HashChains
  import opened TableModel
  import opened HashTables
  import opened Primes

  /** In a packed table whose first two slots share a bucket, the first is the head and links to the second. */
  lemma FirstTwoChained<E>(es: seq<Entry<E>>, bs: seq<int>, n: nat)
    requires WellChained(es, bs) && Dense(es, n) && 2 <= n && Bucket(es[0].hash, |bs|) == Bucket(es[1].hash, |bs|)
    ensures bs[Bucket(es[0].hash, |bs|)] == 1 && es[0].next == 2
  {
    var b := Bucket(es[0].hash, |bs|);
    assert InBucket(es, |bs|, b, 0) && InBucket(es, |bs|, b, 1);
    assert PointsToFirst(es, |bs|, b, 0, bs[b]);
    NextPoints(es, bs, 0);
  }

  /** With no third slot in use, the second ends the chain. */
  lemma SecondIsTail<E>(es: seq<Entry<E>>, bs: seq<int>)
    requires WellChained(es, bs) && Dense(es, 2) && Bucket(es[0].hash, |bs|) == Bucket(es[1].hash, |bs|)
    ensures TailWithPredecessor(es, bs, 1)
  {
    FirstTwoChained(es, bs, 2);
    NextPoints(es, bs, 1);
  }

  method Filled<E(!new, 0)>(hash: E -> int32, equals: (E, E) -> bool, xs: seq<E>) returns (t: HashTable<E>)
    requires Lawful(hash, equals) && AllDistinct(xs, equals)
    ensures fresh(t) && fresh(t.entries) && fresh(t.buckets) && t.Compact() && t.hash == hash && t.equals == equals
    ensures t.length == |xs| <= t.entries.Length
    ensures forall i :: 0 <= i < |xs| ==> t.entries[i].value == xs[i] && t.entries[i].hash == hash(xs[i])
  {
    t := new HashTable(0, hash, equals);
    for i := 0 to |xs|
      invariant fresh(t) && fresh(t.entries) && fresh(t.buckets) && t.Compact() && t.hash == hash && t.equals == equals
      invariant t.Elements() == xs[..i]
    {
      DenseVisible(t.entries[..], t.length);
      NewElementIsAbsent(t.entries[..], xs, i, equals);
      var _ := t.Insert(xs[i]);
    }
    assert xs[..|xs|] == xs;
    DenseVisible(t.entries[..], t.length);
  }

  /** Two elements with equal hashes; removing the second leaves the first linked to an emptied slot. */
  method BrokenChain<E(!new, 0)>(hash: E -> int32, equals: (E, E) -> bool, x: E, y: E) returns (t: HashTable<E>)
    requires Lawful(hash, equals) && hash(x) == hash(y) && !equals(x, y)
    ensures t.Stored() && !t.Valid() && t.length == 1
  {
    assert !equals(y, x);
    t := Filled(hash, equals, [x, y]);
    SecondIsTail(t.entries[..], t.buckets[..]);
    assert Holds(t.entries[..], equals, y) by { assert equals(y, t.entries[1].value); }
    var removed, k := t.Remove(y);
    assert k == 1;
  }

  /** Three elements, the first two with equal hashes; removing the first leaves all chains whole, but the
      slot that the next insert writes still holds the third. */
  method OverwrittenNext<E(!new, 0)>(hash: E -> int32, equals: (E, E) -> bool, x: E, y: E, z: E) returns (t: HashTable<E>)
    requires Lawful(hash, equals) && hash(x) == hash(y) && !equals(x, y) && !equals(x, z) && !equals(y, z)
    ensures t.Valid() && t.length == 2 < t.entries.Length && Live(t.entries[2]) && t.entries[2].value == z
  {
    assert !equals(y, x) && !equals(z, x) && !equals(z, y);
    t := Filled(hash, equals, [x, y, z]);
    FirstTwoChained(t.entries[..], t.buckets[..], 3);
    assert Holds(t.entries[..], equals, x) by { assert equals(x, t.entries[0].value); }
    var removed, k := t.Remove(x);
    assert k == 0;
  }

  /** The first insert into a table without room: capacity 4 and 7 buckets. */
  method FirstGrowth<E(!new, 0)>(hash: E -> int32, equals: (E, E) -> bool, x: E) returns (t: HashTable<E>)
    requires Lawful(hash, equals)
    ensures t.Compact() && t.Elements() == [x] && t.entries.Length == 4 && t.buckets.Length == 7
  {
    t := new HashTable(0, hash, equals);
    var _ := t.Insert(x);
    SevenIsNext(t.buckets.Length);
  }

  lemma SevenIsNext(p: int)
    requires IsNextPrime(5, p)
    ensures p == 7
  {
    assert Divides(2, 6);
    assert !Divides(2, 7) && !Divides(3, 7) && !Divides(4, 7) && !Divides(5, 7) && !Divides(6, 7);
    assert IsPrime(7);
  }

  /** Both happen, for instance to numbers that all have the hash 0. */
  method BothHappen() returns (broken: HashTable<int>, overwritten: HashTable<int>)
    ensures broken.Stored() && !broken.Valid() && broken.length == 1
    ensures overwritten.Valid() && overwritten.length == 2 < overwritten.entries.Length && Live(overwritten.entries[2])
  {
    broken := BrokenChain((n: int) => 0, (m: int, n: int) => m == n, 1, 2);
    overwritten := OverwrittenNext((n: int) => 0, (m: int, n: int) => m == n, 1, 2, 3);
  }
}
