/** The bump allocator of lib/Allocator.h over a byte buffer. */
module Arenas {
  import opened BitMath
  import opened Wrappers

  /** Bytes after copying `data` to offset `at`. */
  function Copied(mem: seq<byte>, at: nat, data: seq<byte>): (r: seq<byte>)
    requires at + |data| <= |mem|
    ensures |r| == |mem|
  {
    seq(|mem|, i requires 0 <= i < |mem| => if at <= i < at + |data| then data[i - at] else mem[i])
  }

  /** The `size` bytes at offset `at`. */
  function Bytes(mem: seq<byte>, at: nat, size: nat): (r: seq<byte>)
    requires at + size <= |mem|
    ensures |r| == size
  {
    seq(size, i requires 0 <= i < size => mem[at + i])
  }

  /** What an aligned allocation returns: the space test does not count the padding. */
  function Allocated(current: nat, max: nat, size: nat, alignment: nat): Option<nat>
    requires alignment > 0
  {
    if current + size > max then None else Some(AlignUp(current, alignment))
  }

  /** A successful aligned allocation runs past the end exactly when the padding does not fit. */
  lemma OverrunIffPaddingMissing(current: nat, max: nat, size: nat, alignment: nat)
    requires alignment > 0
    ensures var p := Allocated(current, max, size, alignment);
      p.Some? && p.value + size > max <==> current + size <= max < AlignUp(current, alignment) + size
    ensures AlignUp(current, alignment) + size <= max ==> Allocated(current, max, size, alignment).Some?
  {
  }

  /** Where a request to a ring goes. */
  function RingAllocated(min: nat, max: nat, current: nat, size: nat): nat {
    if current + size > max then min else current
  }

  /** Two equal requests to an unused ring get the same memory exactly when they do not fit side by side. */
  lemma RingRepeats(min: nat, max: nat, size: nat)
    requires min <= max && size > 0
    ensures var p := RingAllocated(min, max, min, size);
      p == min && (RingAllocated(min, max, p + size, size) == p <==> 2 * size > max - min)
  {
  }

  class Arena {
    const base: nat
    const bytes: array<byte>
    var min: nat
    var max: nat
    var current: nat

    /** Addresses lie in the buffer; `current` may have run past `max` by padding. */
    ghost predicate Valid()
      reads this
    {
      base <= min <= max <= base + bytes.Length && min <= current
    }

    /** allocator_arena_init. */
    constructor (address: nat, size: nat)
      ensures Valid() && fresh(bytes) && bytes.Length == size
      ensures base == min == current == address && max == address + size
    {
      base, min, current, max := address, address, address, address + size;
      bytes := new byte[size];
    }

    method Alloc(size: nat) returns (p: Option<nat>)
      requires Valid()
      modifies this`current
      ensures Valid()
      ensures p == if old(current) + size > max then None else Some(old(current))
      ensures current == if p.Some? then old(current) + size else old(current)
    {
      if current + size > max { return None; }
      p := Some(current);
      current := current + size;
    }

    method AllocAligned(size: nat, alignment: nat) returns (p: Option<nat>)
      requires Valid() && PowerOfTwo(alignment) && max + alignment <= SIZE_MAX
      modifies this`current
      ensures Valid()
      ensures p == Allocated(old(current), max, size, alignment)
      ensures current == if p.Some? then p.value + size else old(current)
    {
      if current + size > max { return None; }
      ghost var k: nat :| alignment == Pow2(k);
      AlignedToRoundsUp(current, k);
      var aligned := AlignedTo(current, alignment);
      current := aligned + size;
      p := Some(aligned);
    }

    /** allocator_arena_ring_alloc: a request that does not fit starts again at the front, whatever its size. */
    method RingAlloc(size: nat) returns (p: nat)
      requires Valid()
      modifies this`current
      ensures Valid() && p == RingAllocated(min, max, old(current), size) && current == p + size
    {
      if current + size > max {
        current := min;
      }
      p := current;
      current := current + size;
    }

    method Clear()
      requires Valid()
      modifies this`current
      ensures Valid() && current == min
    {
      current := min;
    }

    /** allocator_arena_detach_bytes: sets bytes aside at the front, or at the end for a negative size. */
    method DetachBytes(size: int) returns (p: nat)
      requires Valid()
      requires if size < 0 then current <= max && max - current >= -size else current + size <= max
      modifies this
      ensures Valid() && current <= max
      ensures size < 0 ==> p == max == old(max) + size && min == old(min) && current == old(current)
      ensures size >= 0 ==> p == old(current) && min == current == old(current) + size && max == old(max)
    {
      if size < 0 {
        max := max + size;
        return max;
      }
      p := current;
      current := current + size;
      min := current;
    }

    /** memcpy to an address in the buffer. */
    method Store(p: nat, data: seq<byte>)
      requires Valid() && base <= p && p + |data| <= base + bytes.Length
      modifies bytes
      ensures bytes[..] == Copied(old(bytes[..]), p - base, data)
    {
      forall i | 0 <= i < |data| {
        bytes[p - base + i] := data[i];
      }
    }

    method Fetch(p: nat, size: nat) returns (data: seq<byte>)
      requires Valid() && base <= p && p + size <= base + bytes.Length
      ensures data == Bytes(bytes[..], p - base, size)
    {
      data := bytes[p - base..p - base + size];
    }
  }
}
