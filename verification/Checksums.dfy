/** The one-byte checksums of lib/dripbox_common.h. */
module Checksums {
  import opened Wrappers

  const BUFFER_SIZE: nat := 1024

  /** The sum of all bytes. */
  function Sum(bytes: seq<byte>): int {
    if bytes == [] then 0 else Sum(bytes[..|bytes| - 1]) + bytes[|bytes| - 1]
  }

  lemma {:induction false} SumOfConcat(a: seq<byte>, b: seq<byte>)
    ensures Sum(a + b) == Sum(a) + Sum(b)
    decreases |b|
  {
    if b == [] {
      assert a + b == a;
    } else {
      SumOfConcat(a, b[..|b| - 1]);
      assert (a + b)[..|a + b| - 1] == a + b[..|b| - 1];
    }
  }

  // ----- what the sum is

  lemma OneByte(b: byte)
    ensures Sum([b]) == b && Whole([b]) == b && Negated(Sum([b])) == (256 - b) % 256
  {
    assert [b][..0] == [];
  }

  /** Replacing one byte changes the sum by the difference of the two bytes. */
  lemma SumReplaced(bytes: seq<byte>, i: nat, b: byte)
    requires i < |bytes|
    ensures Sum(bytes[i := b]) == Sum(bytes) + b - bytes[i]
  {
    var before, after := bytes[..i], bytes[i + 1..];
    assert bytes == (before + [bytes[i]]) + after && bytes[i := b] == (before + [b]) + after;
    SumAround(before, bytes[i], after);
    SumAround(before, b, after);
  }

  lemma SumAround(before: seq<byte>, b: byte, after: seq<byte>)
    ensures Sum((before + [b]) + after) == Sum(before) + b + Sum(after)
  {
    OneByte(b);
    SumOfConcat(before + [b], after);
    SumOfConcat(before, [b]);
  }

  /** The checksum tells contents of one length apart that differ in exactly one byte. */
  lemma OneByteIsDetected(a: seq<byte>, c: seq<byte>, i: nat)
    requires i < |a| == |c| && a[i] != c[i] && forall j :: 0 <= j < |a| && j != i ==> a[j] == c[j]
    ensures Whole(a) != Whole(c) && Negated(Sum(a)) != Negated(Sum(c))
  {
    assert c == a[i := c[i]];
    SumReplaced(a, i, c[i]);
    WrapTellsApart(Sum(a), Sum(c));
  }

  lemma WrapTellsApart(x: int, y: int)
    requires x != y && -256 < x - y < 256
    ensures Wrap(x) != Wrap(y) && Negated(x) != Negated(y)
  {
    assert x - y == 256 * (x / 256 - y / 256) + (x % 256 - y % 256);
    assert y - x == 256 * (-x / 256 - -y / 256) + (-x % 256 - -y % 256);
  }

  /** It does not tell reorderings apart. */
  lemma {:induction false} OrderIsNotDetected(a: seq<byte>, c: seq<byte>)
    requires multiset(a) == multiset(c)
    ensures Sum(a) == Sum(c) && Whole(a) == Whole(c)
    decreases |a|
  {
    if a == [] {
      assert |multiset(c)| == 0;
    } else {
      var init, last := a[..|a| - 1], a[|a| - 1];
      assert a == init + [last] && last in multiset(c);
      var rest := TakenOut(c, last);
      Cancelled(multiset(init), multiset(rest), last);
      OrderIsNotDetected(init, rest);
    }
  }

  lemma TakenOut(c: seq<byte>, b: byte) returns (rest: seq<byte>)
    requires b in multiset(c)
    ensures multiset(rest) + multiset{b} == multiset(c) && Sum(rest) + b == Sum(c)
  {
    var i :| 0 <= i < |c| && c[i] == b;
    assert c == (c[..i] + [b]) + c[i + 1..];
    rest := c[..i] + c[i + 1..];
    SumAround(c[..i], b, c[i + 1..]);
    SumOfConcat(c[..i], c[i + 1..]);
  }

  lemma Cancelled(a: multiset<byte>, c: multiset<byte>, b: byte)
    requires a + multiset{b} == c + multiset{b}
    ensures a == c
  {
    assert a == (a + multiset{b}) - multiset{b} && c == (c + multiset{b}) - multiset{b};
  }

  /** uint8_t arithmetic. */
  function Wrap(x: int): byte {
    x % 256
  }

  /** Negation in uint8_t. */
  function Negated(x: int): byte {
    Wrap(-x)
  }

  lemma WrapMinus(x: int, y: int)
    ensures Wrap(Wrap(x) - y) == Wrap(x - y) && Wrap(y - Wrap(x)) == Wrap(y - x)
  {
  }

  /** dripbox_checksum: minus the sum of the bytes. */
  method Checksum(bytes: seq<byte>) returns (chk: byte)
    ensures chk == Negated(Sum(bytes))
  {
    chk := 0;
    for i := 0 to |bytes|
      invariant chk == Negated(Sum(bytes[..i]))
    {
      assert bytes[..i + 1][..i] == bytes[..i];
      WrapMinus(-Sum(bytes[..i]), bytes[i]);
      chk := Wrap(chk - bytes[i]);
    }
    assert bytes[..|bytes|] == bytes;
  }

  /** fread: some of the requested bytes, none at the end of the file or after an error. */
  method Read(contents: seq<byte>, at: nat, len: nat) returns (buffer: seq<byte>)
    requires at <= |contents|
    ensures |buffer| <= len && at + |buffer| <= |contents| && buffer == contents[at..at + |buffer|]
  {
    var got: nat :| got <= len && at + got <= |contents|;
    buffer := contents[at..at + got];
  }

  /** dripbox_file_checksum of a file of which fstat reports `size` bytes, None for a file that cannot be
      opened. `read` bytes were added up; how the reads cut them into chunks does not show in the result. */
  method FileChecksum(file: Option<seq<byte>>, size: nat) returns (chk: byte, read: nat)
    ensures file == None ==> chk == 255 && read == 0
    ensures file.Some? ==> read <= size && read <= |file.value| && chk == Wrap(Sum(file.value[..read]))
  {
    if file == None { return 255, 0; }
    var contents, left := file.value, size;
    chk, read := 0, 0;
    while left > 0
      invariant left >= 0 && read + left == size && read <= |contents|
      invariant chk == Wrap(Sum(contents[..read]))
    {
      var buffer := Read(contents, read, if BUFFER_SIZE < left then BUFFER_SIZE else left);
      if buffer == [] { break; }
      var part := Checksum(buffer);
      SumGoesOn(contents, read, buffer);
      WrapMinusNegated(Sum(contents[..read]), Sum(buffer));
      chk := Wrap(chk - part);
      read, left := read + |buffer|, left - |buffer|;
    }
  }

  lemma SumGoesOn(contents: seq<byte>, read: nat, chunk: seq<byte>)
    requires read + |chunk| <= |contents| && chunk == contents[read..read + |chunk|]
    ensures Sum(contents[..read + |chunk|]) == Sum(contents[..read]) + Sum(chunk)
  {
    assert contents[..read + |chunk|] == contents[..read] + chunk;
    SumOfConcat(contents[..read], chunk);
  }

  /** Subtracting the negated sum of the next chunk adds the chunk. */
  lemma WrapMinusNegated(x: int, y: int)
    ensures Wrap(Wrap(x) - Wrap(-y)) == Wrap(x + y)
  {
    WrapMinus(x, Wrap(-y));
    WrapMinus(-y, x);
  }

  /** The checksum of a file that was read to its end. */
  function Whole(contents: seq<byte>): byte {
    Wrap(Sum(contents))
  }

  /** A complete read gives the negation of dripbox_checksum over the whole contents. */
  method CompleteRead(contents: seq<byte>) returns (chk: byte, whole: byte, complete: bool)
    ensures complete ==> chk == Whole(contents) && chk == Negated(whole)
  {
    var read: nat;
    chk, read := FileChecksum(Some(contents), |contents|);
    whole := Checksum(contents);
    complete := read == |contents|;
    assert complete ==> contents[..read] == contents;
    WrapMinus(-Sum(contents), 0);
  }
}
