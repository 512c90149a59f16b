/** Server identities: struct uuidv7 and election_higher_id. */
module Uuids {
  import opened Arithmetic
  import opened Wrappers

  const TWO_48 := 0x1_0000_0000_0000
  const TWO_80 := 0x1_0000_0000_0000_0000_0000

  type u48 = n: nat | n < TWO_48

  type u80 = n: nat | n < TWO_80

  /** A 128-bit integer seen as its low 48 bits, the timestamp bit-field, and the rest. */
  datatype Uuid = Uuid(timestamp: u48, rest: u80)

  function Integer(u: Uuid): nat { u.rest * TWO_48 + u.timestamp }

  /** election_higher_id. */
  predicate HigherId(a: Uuid, b: Uuid) {
    if a.timestamp == b.timestamp then Integer(a) < Integer(b)
    else a.timestamp < b.timestamp
  }

  lemma IntegerIsInjective(a: Uuid, b: Uuid)
    ensures Integer(a) == Integer(b) <==> a == b
  {
  }

  /** A strict total order on identities. */
  lemma HigherIdIsTotalOrder(a: Uuid, b: Uuid, c: Uuid)
    ensures !HigherId(a, a)
    ensures HigherId(a, b) && HigherId(b, c) ==> HigherId(a, c)
    ensures a != b ==> (HigherId(a, b) <==> !HigherId(b, a))
  {
  }

  // ----- how identities are made: uuidv7_try_new

  function Pow256(k: nat): (p: nat)
    ensures p >= 1
  {
    if k == 0 then 1 else 256 * Pow256(k - 1)
  }

  /** An integer read from bytes in memory order on a little-endian machine. */
  function LittleEndian(bytes: seq<byte>): nat {
    if bytes == [] then 0 else bytes[0] + 256 * LittleEndian(bytes[1..])
  }

  /** The k low bytes of n, the most significant first. */
  function BigEndianBytes(n: nat, k: nat): (bytes: seq<byte>)
    ensures |bytes| == k
  {
    if k == 0 then [] else BigEndianBytes(n / 256, k - 1) + [n % 256]
  }

  lemma ShiftByte(a: nat, p: nat, last: nat)
    ensures 256 * (a + p * last) == 256 * a + (256 * p) * last
  {
  }

  lemma {:induction false} LittleEndianAppend(bytes: seq<byte>, last: byte)
    ensures LittleEndian(bytes + [last]) == LittleEndian(bytes) + Pow256(|bytes|) * last
    ensures LittleEndian(bytes) < Pow256(|bytes|)
  {
    var all := bytes + [last];
    if bytes == [] {
      assert all == [last] && [last][1..] == [];
    } else {
      assert all[0] == bytes[0] && all[1..] == bytes[1..] + [last];
      LittleEndianAppend(bytes[1..], last);
      ShiftByte(LittleEndian(bytes[1..]), Pow256(|bytes| - 1), last);
    }
  }

  /** The bytes the generator stores: the time big-endian, then random bytes with version and variant bits. */
  function NewBytes(millis: nat, entropy: seq<byte>): (bytes: seq<byte>)
    requires |entropy| == 16
    ensures |bytes| == 16
  {
    BigEndianBytes(millis, 6)
    + [entropy[6] % 16 + 0x70, entropy[7], entropy[8] % 64 + 0x80]
    + entropy[9..]
  }

  function FromBytes(bytes: seq<byte>): Uuid
    requires |bytes| == 16
  {
    LittleEndianBound(bytes[..6]);
    LittleEndianBound(bytes[6..]);
    Uuid(LittleEndian(bytes[..6]), LittleEndian(bytes[6..]))
  }

  lemma LittleEndianBound(bytes: seq<byte>)
    ensures LittleEndian(bytes) < Pow256(|bytes|)
    ensures |bytes| == 6 ==> Pow256(|bytes|) == TWO_48
    ensures |bytes| == 10 ==> Pow256(|bytes|) == TWO_80
  {
    LittleEndianAppend(bytes, 0);
    assert Pow256(4) == 0x1_0000_0000 by { assert Pow256(2) == 0x1_0000; }
    assert Pow256(6) == TWO_48;
    assert Pow256(8) == 0x1_0000_0000_0000_0000;
    assert Pow256(10) == TWO_80;
  }

  // ----- the bytes

  lemma DividedTwice(n: nat, p: nat)
    requires p > 0
    ensures n / 256 / p == n / (256 * p)
  {
    var m, r := n / 256, n % 256;
    var q, s := m / p, m % p;
    assert n == 256 * m + r && m == p * q + s;
    assert n == (256 * p) * q + (256 * s + r) by { assert 256 * (p * q) == (256 * p) * q; }
    DivisionIsUnique(n, 256 * p, q, 256 * s + r);
  }

  /** The first byte is the most significant. */
  lemma {:induction false} BigEndianAt(n: nat, k: nat, i: nat)
    requires i < k
    ensures BigEndianBytes(n, k)[i] == n / Pow256(k - 1 - i) % 256
  {
    if i < k - 1 {
      BigEndianAt(n / 256, k - 1, i);
      DividedTwice(n, Pow256(k - 2 - i));
    }
  }

  /** Which bytes hold the time, the version and variant bits, and randomness. */
  lemma GeneratedBytes(millis: nat, entropy: seq<byte>)
    requires |entropy| == 16
    ensures forall i :: 0 <= i < 6 ==> NewBytes(millis, entropy)[i] == millis / Pow256(5 - i) % 256
    ensures NewBytes(millis, entropy)[6] / 16 == 7 && NewBytes(millis, entropy)[6] % 16 == entropy[6] % 16
    ensures NewBytes(millis, entropy)[8] / 64 == 2 && NewBytes(millis, entropy)[8] % 64 == entropy[8] % 64
    ensures forall i :: i == 7 || 9 <= i < 16 ==> NewBytes(millis, entropy)[i] == entropy[i]
  {
    forall i | 0 <= i < 6
      ensures NewBytes(millis, entropy)[i] == millis / Pow256(5 - i) % 256
    {
      BigEndianAt(millis, 6, i);
    }
  }

  /** Compares the last differing byte. */
  predicate LastByteFirst(a: seq<byte>, b: seq<byte>)
    requires |a| == |b|
  {
    a != [] && (if a[|a| - 1] != b[|b| - 1] then a[|a| - 1] < b[|b| - 1] else LastByteFirst(a[..|a| - 1], b[..|b| - 1]))
  }

  lemma {:induction false} LittleEndianOrder(a: seq<byte>, b: seq<byte>)
    requires |a| == |b|
    ensures LittleEndian(a) < LittleEndian(b) <==> LastByteFirst(a, b)
    decreases |a|
  {
    if a != [] {
      var p, q := a[..|a| - 1], b[..|b| - 1];
      assert a == p + [a[|a| - 1]] && b == q + [b[|b| - 1]];
      LittleEndianAppend(p, a[|a| - 1]);
      LittleEndianAppend(q, b[|b| - 1]);
      LittleEndianOrder(p, q);
      LeadingByteDecides(LittleEndian(p), LittleEndian(q), Pow256(|p|), a[|a| - 1], b[|b| - 1]);
    }
  }

  lemma {:induction false} LittleEndianConcat(a: seq<byte>, b: seq<byte>)
    ensures LittleEndian(a + b) == LittleEndian(a) + Pow256(|a|) * LittleEndian(b)
    decreases |b|
  {
    if b == [] {
      assert a + b == a;
    } else {
      var init, last := b[..|b| - 1], b[|b| - 1];
      assert b == init + [last] && a + b == (a + init) + [last];
      LittleEndianConcat(a, init);
      LittleEndianAppend(init, last);
      LittleEndianAppend(a + init, last);
      Pow256Sum(|a|, |init|);
      Distributed(Pow256(|a|), LittleEndian(init), Pow256(|init|), last);
    }
  }

  lemma Distributed(p: nat, x: nat, q: nat, y: nat)
    ensures p * (x + q * y) == p * x + (p * q) * y
  {
  }

  lemma {:induction false} Pow256Sum(a: nat, b: nat)
    ensures Pow256(a + b) == Pow256(a) * Pow256(b)
  {
    if b > 0 {
      Pow256Sum(a, b - 1);
      assert Pow256(a) * (256 * Pow256(b - 1)) == 256 * (Pow256(a) * Pow256(b - 1));
    }
  }

  /** As integers, identities compare by the last differing of their sixteen bytes. */
  lemma IntegerOrder(a: seq<byte>, b: seq<byte>)
    requires |a| == |b| == 16
    ensures Integer(FromBytes(a)) < Integer(FromBytes(b)) <==> LastByteFirst(a, b)
  {
    IntegerOfBytes(a);
    IntegerOfBytes(b);
    LittleEndianOrder(a, b);
  }

  lemma IntegerOfBytes(a: seq<byte>)
    requires |a| == 16
    ensures Integer(FromBytes(a)) == LittleEndian(a)
  {
    assert a == a[..6] + a[6..];
    LittleEndianConcat(a[..6], a[6..]);
    LittleEndianBound(a[..6]);
  }

  /** By election_higher_id they compare by the last differing of the first six bytes, and then by the last
      differing of the others: servers of one millisecond by their random bytes. */
  lemma HigherIdOrder(a: seq<byte>, b: seq<byte>)
    requires |a| == |b| == 16
    ensures HigherId(FromBytes(a), FromBytes(b))
      <==> if a[..6] == b[..6] then LastByteFirst(a[6..], b[6..]) else LastByteFirst(a[..6], b[..6])
  {
    LittleEndianOrder(a[..6], b[..6]);
    LittleEndianOrder(b[..6], a[..6]);
    LittleEndianOrder(a[6..], b[6..]);
    OneOfThem(a[..6], b[..6]);
  }

  lemma {:induction false} OneOfThem(a: seq<byte>, b: seq<byte>)
    requires |a| == |b|
    ensures a == b || LastByteFirst(a, b) || LastByteFirst(b, a)
    ensures !LastByteFirst(a, a)
    decreases |a|
  {
    if a != [] {
      OneOfThem(a[..|a| - 1], b[..|b| - 1]);
      assert a == a[..|a| - 1] + [a[|a| - 1]] && b == b[..|b| - 1] + [b[|b| - 1]];
    }
  }

  /** Compares the least significant differing byte of the k low bytes. */
  predicate LowByteFirst(m: nat, n: nat, k: nat) {
    k > 0 && (if m % 256 != n % 256 then m % 256 < n % 256 else LowByteFirst(m / 256, n / 256, k - 1))
  }

  lemma {:induction false} SwappedOrder(m: nat, n: nat, k: nat)
    ensures LittleEndian(BigEndianBytes(m, k)) < LittleEndian(BigEndianBytes(n, k)) <==> LowByteFirst(m, n, k)
  {
    if k > 0 {
      var a, b := BigEndianBytes(m / 256, k - 1), BigEndianBytes(n / 256, k - 1);
      LittleEndianAppend(a, m % 256);
      LittleEndianAppend(b, n % 256);
      SwappedOrder(m / 256, n / 256, k - 1);
      LeadingByteDecides(LittleEndian(a), LittleEndian(b), Pow256(k - 1), m % 256, n % 256);
    }
  }

  lemma LeadingByteDecides(a: nat, b: nat, p: nat, x: nat, y: nat)
    requires a < p && b < p
    ensures a + p * x < b + p * y <==> (if x != y then x < y else a < b)
  {
    if x < y { assert p * (x + 1) <= p * y; }
    if y < x { assert p * (y + 1) <= p * x; }
  }

  /** For servers created at different milliseconds, the election order compares the low byte of the
      creation time first, so it is an order but not by age. */
  lemma HigherIdOfGenerated(m: nat, n: nat, em: seq<byte>, en: seq<byte>)
    requires |em| == |en| == 16 && m != n && m < TWO_48 && n < TWO_48
    ensures HigherId(FromBytes(NewBytes(m, em)), FromBytes(NewBytes(n, en))) <==> LowByteFirst(m, n, 6)
  {
    assert NewBytes(m, em)[..6] == BigEndianBytes(m, 6);
    assert NewBytes(n, en)[..6] == BigEndianBytes(n, 6);
    SwappedOrder(m, n, 6);
    SwappedOrder(n, m, 6);
    LittleEndianBound(BigEndianBytes(n, 6));
    LowByteFirstIsTotal(m, n, 6);
  }

  lemma {:induction false} LowByteFirstIsTotal(m: nat, n: nat, k: nat)
    requires m != n && m < Pow256(k) && n < Pow256(k)
    ensures LowByteFirst(m, n, k) || LowByteFirst(n, m, k)
  {
    if k > 0 && m % 256 == n % 256 {
      LowByteFirstIsTotal(m / 256, n / 256, k - 1);
    }
  }

  /** A moment in November 2024, in milliseconds; its low byte is 0. */
  const SOME_TIME: nat := 1732000000000

  /** A server created one millisecond before another ranks below it when the low byte wraps around in
      between, whatever the random bytes. */
  lemma NotByAge(em: seq<byte>, en: seq<byte>)
    requires |em| == |en| == 16
    ensures HigherId(FromBytes(NewBytes(SOME_TIME, en)), FromBytes(NewBytes(SOME_TIME - 1, em)))
  {
    HigherIdOfGenerated(SOME_TIME, SOME_TIME - 1, en, em);
    assert LowByteFirst(SOME_TIME, SOME_TIME - 1, 6);
  }

  // ----- some generated identities

  /** Random bytes of which only the last is not 0. */
  function Entropy(last: byte): (bytes: seq<byte>)
    ensures |bytes| == 16
  {
    seq(15, _ => 0) + [last]
  }

  function Generated(millis: nat, last: byte): Uuid {
    FromBytes(NewBytes(millis, Entropy(last)))
  }

  lemma GeneratedRest(millis: nat, last: byte)
    ensures Generated(millis, last).rest == LittleEndian([0x70, 0, 0x80] + seq(6, _ => 0)) + Pow256(9) * last
  {
    var low: seq<byte> := [0x70, 0, 0x80] + seq(6, _ => 0);
    LittleEndianAppend(low, last);
    assert NewBytes(millis, Entropy(last))[6..] == low + [last];
  }

  /** The random bytes decide how integers compare, the low bytes of the time how election_higher_id does. */
  lemma GeneratedOrder(m: nat, j: byte, n: nat, k: byte)
    requires m < TWO_48 && n < TWO_48 && m % 256 < n % 256
    ensures HigherId(Generated(m, j), Generated(n, k))
    ensures j < k ==> Integer(Generated(m, j)) < Integer(Generated(n, k))
    ensures j > k ==> Integer(Generated(m, j)) > Integer(Generated(n, k))
  {
    HigherIdOfGenerated(m, n, Entropy(j), Entropy(k));
    assert LowByteFirst(m, n, 6);
    GeneratedRest(m, j);
    GeneratedRest(n, k);
    LastByteDecides(Pow256(9), j, k);
  }

  lemma NextGenerated(m: nat, j: byte, k: byte)
    requires m + 1 < TWO_48 && m % 256 < 255 && j < k
    ensures HigherId(Generated(m, j), Generated(m + 1, k)) && Integer(Generated(m, j)) < Integer(Generated(m + 1, k))
  {
    GeneratedOrder(m, j, m + 1, k);
  }

  /** Three servers started in successive milliseconds that both orders rank alike. */
  lemma ThreeGenerated(m: nat) returns (t: Uuid, x: Uuid, z: Uuid)
    requires m + 2 < TWO_48 && m % 256 < 254
    ensures t == Generated(m, 1) && x == Generated(m + 1, 2) && z == Generated(m + 2, 3)
    ensures HigherId(t, x) && HigherId(x, z) && Integer(t) < Integer(x) < Integer(z)
  {
    t, x, z := Generated(m, 1), Generated(m + 1, 2), Generated(m + 2, 3);
    NextGenerated(m, 1, 2);
    NextGenerated(m + 1, 2, 3);
  }

  lemma LastByteDecides(p: nat, j: nat, k: nat)
    requires p >= 1
    ensures j < k ==> p * j < p * k
    ensures j > k ==> p * j > p * k
  {
    if j < k { assert p * (j + 1) <= p * k; }
    if k < j { assert p * (k + 1) <= p * j; }
  }
}
