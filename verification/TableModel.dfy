/** The finite map that a hash table of lib/hash_set.h stands for. */
module TableModel {
  import opened HashChains
  import opened Wrappers

  /** What the table asks of its callers: `equals` is an equivalence and equal elements hash alike. */
  ghost predicate Lawful<E(!new)>(hash: E -> int32, equals: (E, E) -> bool) {
    && (forall a :: equals(a, a))
    && (forall a, b :: equals(a, b) ==> equals(b, a) && hash(a) == hash(b))
    && (forall a, b, c :: equals(a, b) && equals(b, c) ==> equals(a, c))
  }

  /** Position of the element equal to q, or |xs|. */
  function IndexOf<E>(xs: seq<E>, equals: (E, E) -> bool, q: E): (r: nat)
    ensures r <= |xs|
    ensures r < |xs| ==> equals(q, xs[r])
    ensures forall j :: 0 <= j < r ==> !equals(q, xs[j])
  {
    if xs == [] then 0
    else if equals(q, xs[0]) then 0
    else 1 + IndexOf(xs[1..], equals, q)
  }

  ghost function LookUp<E>(xs: seq<E>, equals: (E, E) -> bool, q: E): Option<E> {
    var i := IndexOf(xs, equals, q);
    if i < |xs| then Some(xs[i]) else None
  }

  ghost predicate AllDistinct<E>(xs: seq<E>, equals: (E, E) -> bool) {
    forall i, j :: 0 <= i < |xs| && 0 <= j < |xs| && i != j ==> !equals(xs[i], xs[j])
  }

  /** Insert keeps an equal element that is already there, update overwrites it. */
  datatype Op<E> = Insert(e: E) | Update(e: E)

  function Applied<E>(xs: seq<E>, equals: (E, E) -> bool, op: Op<E>): seq<E> {
    var i := IndexOf(xs, equals, op.e);
    if i == |xs| then xs + [op.e]
    else if op.Update? then xs[i := op.e]
    else xs
  }

  lemma IndexIsUnique<E>(xs: seq<E>, equals: (E, E) -> bool, q: E, i: nat)
    requires i < |xs| && equals(q, xs[i])
    requires forall j :: 0 <= j < i ==> !equals(q, xs[j])
    ensures IndexOf(xs, equals, q) == i
  {
  }

  lemma AppliedKeepsDistinct<E(!new)>(xs: seq<E>, hash: E -> int32, equals: (E, E) -> bool, op: Op<E>)
    requires Lawful(hash, equals) && AllDistinct(xs, equals)
    ensures AllDistinct(Applied(xs, equals, op), equals)
  {
  }

  /** The map law: an update binds its key, an insert binds it if it was unbound, and no other key changes. */
  lemma LookUpApplied<E(!new)>(xs: seq<E>, hash: E -> int32, equals: (E, E) -> bool, op: Op<E>, q: E)
    requires Lawful(hash, equals) && AllDistinct(xs, equals)
    ensures LookUp(Applied(xs, equals, op), equals, q) ==
      if equals(q, op.e) && (op.Update? || LookUp(xs, equals, op.e).None?) then Some(op.e)
      else LookUp(xs, equals, q)
  {
    var i, ys := IndexOf(xs, equals, op.e), Applied(xs, equals, op);
    if i == |xs| {
      var k := IndexOf(xs, equals, q);
      if k < |xs| {
        assert equals(q, xs[k]) && !equals(op.e, xs[k]);
        IndexIsUnique(ys, equals, q, k);
      } else if equals(q, op.e) {
        IndexIsUnique(ys, equals, q, i);
      } else {
        assert forall j :: 0 <= j < |ys| ==> !equals(q, ys[j]);
      }
    } else if op.Update? {
      assert equals(op.e, xs[i]);
      if equals(q, op.e) {
        forall j | 0 <= j < i
          ensures !equals(q, ys[j])
        {
          assert !equals(op.e, xs[j]);
        }
        IndexIsUnique(ys, equals, q, i);
      } else {
        assert !equals(q, xs[i]);
        var k := IndexOf(xs, equals, q);
        if k < |xs| {
          IndexIsUnique(ys, equals, q, k);
        } else {
          assert forall j :: 0 <= j < |ys| ==> !equals(q, ys[j]);
        }
      }
    }
  }

  // ----- whole histories

  function AppliedAll<E>(xs: seq<E>, equals: (E, E) -> bool, ops: seq<Op<E>>): seq<E>
    decreases |ops|
  {
    if ops == [] then xs else Applied(AppliedAll(xs, equals, ops[..|ops| - 1]), equals, ops[|ops| - 1])
  }

  /** What the last operations on a key mean: the last update, or else the first insert. */
  ghost function Bound<E>(equals: (E, E) -> bool, ops: seq<Op<E>>, q: E): Option<E>
    decreases |ops|
  {
    if ops == [] then None
    else
      var last, before := ops[|ops| - 1], Bound(equals, ops[..|ops| - 1], q);
      if equals(q, last.e) && (last.Update? || before.None?) then Some(last.e) else before
  }

  /** A table built from nothing by any inserts and updates answers every lookup as the map does. */
  lemma {:induction false} HistoryIsAMap<E(!new)>(hash: E -> int32, equals: (E, E) -> bool, ops: seq<Op<E>>, q: E)
    requires Lawful(hash, equals)
    ensures AllDistinct(AppliedAll([], equals, ops), equals)
    ensures LookUp(AppliedAll([], equals, ops), equals, q) == Bound(equals, ops, q)
    decreases |ops|
  {
    if ops != [] {
      var before, last := ops[..|ops| - 1], ops[|ops| - 1];
      HistoryIsAMap(hash, equals, before, q);
      var xs := AppliedAll([], equals, before);
      AppliedKeepsDistinct(xs, hash, equals, last);
      LookUpApplied(xs, hash, equals, last, q);
      if equals(q, last.e) { LookUpRespectsEquals(xs, hash, equals, q, last.e); }
    }
  }

  lemma LookUpRespectsEquals<E(!new)>(xs: seq<E>, hash: E -> int32, equals: (E, E) -> bool, p: E, q: E)
    requires Lawful(hash, equals) && equals(p, q)
    ensures LookUp(xs, equals, p) == LookUp(xs, equals, q)
  {
  }

  // ----- the elements that can be seen by scanning the slots

  /** The elements of the slots in use, in slot order. */
  ghost function Visible<E>(es: seq<Entry<E>>): (xs: seq<E>)
    ensures |xs| <= |es|
    decreases |es|
  {
    if es == [] then []
    else
      var init, last := es[..|es| - 1], es[|es| - 1];
      Visible(init) + if Live(last) then [last.value] else []
  }

  /** In a dense table the elements seen are the values of the first n slots. */
  lemma {:induction false} DenseVisible<E>(es: seq<Entry<E>>, n: nat)
    requires Dense(es, n)
    ensures |Visible(es)| == n && forall i :: 0 <= i < n ==> Visible(es)[i] == es[i].value
    decreases |es|
  {
    if es != [] {
      var init := es[..|es| - 1];
      DenseVisible(init, if n == |es| then n - 1 else n);
    }
  }

  lemma {:induction false} VisibleAt<E>(es: seq<Entry<E>>, i: nat)
    requires i < |es|
    ensures Live(es[i]) ==> es[i].value in Visible(es)
    decreases |es|
  {
    if i < |es| - 1 {
      VisibleAt(es[..|es| - 1], i);
      assert es[..|es| - 1][i] == es[i];
    }
  }

  lemma {:induction false} VisibleFrom<E>(es: seq<Entry<E>>, x: E) returns (i: nat)
    requires x in Visible(es)
    ensures i < |es| && Live(es[i]) && es[i].value == x
    decreases |es|
  {
    var init, last := es[..|es| - 1], es[|es| - 1];
    if Live(last) && last.value == x {
      i := |es| - 1;
    } else {
      i := VisibleFrom(init, x);
    }
  }

  /** The visible elements as a bag, slot by slot. */
  ghost function Bag<E>(es: seq<Entry<E>>): multiset<E>
    decreases |es|
  {
    if es == [] then multiset{} else Bag(es[..|es| - 1]) + SlotBag(es[|es| - 1])
  }

  lemma {:induction false} BagOfVisible<E>(es: seq<Entry<E>>)
    ensures multiset(Visible(es)) == Bag(es)
    decreases |es|
  {
    if es != [] { BagOfVisible(es[..|es| - 1]); }
  }

  /** Overwriting one slot changes the bag of visible elements by that slot alone. */
  lemma {:induction false} BagUpdated<E>(es: seq<Entry<E>>, i: nat, e: Entry<E>)
    requires i < |es|
    ensures Bag(es[i := e]) + SlotBag(es[i]) == Bag(es) + SlotBag(e)
    decreases |es|
  {
    var es', n := es[i := e], |es| - 1;
    var init, init' := es[..n], es'[..n];
    if i < n {
      assert init' == init[i := e] && init[i] == es[i];
      BagUpdated(init, i, e);
      assert es'[n] == es[n];
      Regroup(Bag(init'), Bag(init), SlotBag(es[i]), SlotBag(e), SlotBag(es[n]));
    } else {
      assert init' == init;
      Commute(Bag(init), SlotBag(e), SlotBag(es[n]));
    }
  }

  lemma Commute<T>(a: multiset<T>, x: multiset<T>, y: multiset<T>)
    ensures (a + x) + y == (a + y) + x
  {
  }

  lemma Regroup<T>(a: multiset<T>, b: multiset<T>, x: multiset<T>, y: multiset<T>, c: multiset<T>)
    requires a + x == b + y
    ensures (a + c) + x == (b + c) + y
  {
    assert (a + c) + x == (a + x) + c;
    assert (b + c) + y == (b + y) + c;
  }

  ghost function SlotBag<E>(e: Entry<E>): multiset<E> {
    if Live(e) then multiset{e.value} else multiset{}
  }

  lemma OneLess<T>(xs: seq<T>, ys: seq<T>, x: T)
    requires multiset(ys) + multiset{x} == multiset(xs)
    ensures multiset(ys) == multiset(xs) - multiset{x} && |ys| == |xs| - 1
  {
    assert |multiset(xs)| == |multiset(ys)| + 1;
  }

  lemma BagRemoved<E>(es: seq<Entry<E>>, k: nat)
    requires k < |es| && Live(es[k]) && 0 <= es[k].next <= |es|
    requires es[k].next != 0 ==> es[k].next - 1 != k && Live(es[es[k].next - 1])
    ensures Bag(RemovedAt(es, k)) + multiset{es[k].value} == Bag(es)
  {
    if es[k].next == 0 {
      BagEmptied(es, k);
    } else {
      var s := es[k].next - 1;
      var moved := es[k := es[s]];
      BagMoved(es, k, es[s]);
      BagEmptied(moved, s);
      Exchange(Bag(es), Bag(moved), Bag(RemovedAt(es, k)), es[k].value, es[s].value);
    }
  }

  lemma BagEmptied<E>(es: seq<Entry<E>>, i: nat)
    requires i < |es| && Live(es[i])
    ensures Bag(es[i := es[i].(next := NULL_NEXT)]) + multiset{es[i].value} == Bag(es)
  {
    BagUpdated(es, i, es[i].(next := NULL_NEXT));
  }

  lemma BagMoved<E>(es: seq<Entry<E>>, i: nat, e: Entry<E>)
    requires i < |es| && Live(es[i]) && Live(e)
    ensures Bag(es[i := e]) + multiset{es[i].value} == Bag(es) + multiset{e.value}
  {
    BagUpdated(es, i, e);
  }

  /** Removing slot k, tail or not, loses exactly the element it held. */
  lemma VisibleRemoved<E>(es: seq<Entry<E>>, k: nat)
    requires k < |es| && Live(es[k]) && 0 <= es[k].next <= |es|
    requires es[k].next != 0 ==> es[k].next - 1 != k && Live(es[es[k].next - 1])
    ensures multiset(Visible(RemovedAt(es, k))) == multiset(Visible(es)) - multiset{es[k].value}
    ensures |Visible(RemovedAt(es, k))| == |Visible(es)| - 1
  {
    BagOfVisible(es);
    BagOfVisible(RemovedAt(es, k));
    BagRemoved(es, k);
    OneLess(Visible(es), Visible(RemovedAt(es, k)), es[k].value);
  }

  lemma Exchange<T>(before: multiset<T>, between: multiset<T>, after: multiset<T>, x: T, y: T)
    requires between + multiset{x} == before + multiset{y}
    requires after + multiset{y} == between
    ensures after + multiset{x} == before
  {
    forall z
      ensures after[z] + multiset{x}[z] == before[z]
    {
      assert (between + multiset{x})[z] == (before + multiset{y})[z];
      assert (after + multiset{y})[z] == between[z];
    }
    assert after + multiset{x} == before;
  }

  /** Looking up in a table that lost x finds what was there, except under keys equal to x. */
  lemma LookUpRemoved<E(!new)>(xs: seq<E>, ys: seq<E>, x: E, hash: E -> int32, equals: (E, E) -> bool, q: E)
    requires Lawful(hash, equals) && AllDistinct(xs, equals)
    requires x in xs && multiset(ys) == multiset(xs) - multiset{x}
    ensures LookUp(ys, equals, q) == if equals(q, x) then None else LookUp(xs, equals, q)
  {
    var i, j := IndexOf(xs, equals, q), IndexOf(ys, equals, q);
    OccursOnce(xs, hash, equals, x);
    if j < |ys| {
      assert ys[j] in multiset(ys);
      assert ys[j] in xs && ys[j] != x;
      SameKeySameElement(xs, hash, equals, q, ys[j], x);
      assert i < |xs| by { assert exists m :: 0 <= m < |xs| && xs[m] == ys[j]; }
      SameKeySameElement(xs, hash, equals, q, ys[j], xs[i]);
    }
    if i < |xs| && xs[i] != x {
      assert xs[i] in multiset(ys);
      var m :| 0 <= m < |ys| && ys[m] == xs[i];
      assert j <= m;
    }
    if equals(q, x) && i < |xs| { SameKeySameElement(xs, hash, equals, q, x, xs[i]); }
  }

  lemma SameKeySameElement<E(!new)>(xs: seq<E>, hash: E -> int32, equals: (E, E) -> bool, q: E, x: E, y: E)
    requires Lawful(hash, equals) && AllDistinct(xs, equals) && x in xs && y in xs
    ensures equals(q, x) && equals(q, y) ==> x == y
  {
  }

  lemma OccursOnce<E(!new)>(xs: seq<E>, hash: E -> int32, equals: (E, E) -> bool, x: E)
    requires Lawful(hash, equals) && AllDistinct(xs, equals) && x in xs
    ensures multiset(xs)[x] == 1
  {
    var i :| 0 <= i < |xs| && xs[i] == x;
    assert xs == xs[..i] + [x] + xs[i + 1..];
    assert equals(x, x);
    assert x !in xs[..i] && x !in xs[i + 1..];
  }
}
