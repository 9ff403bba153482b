/** A block of samples inside a sample buffer. */
module Samples {

  ghost function All(a: array<int>): (s: seq<int>)
    reads a
    ensures |s| == a.Length
  {
    a[..]
  }

  /** The first n samples of the block at off. */
  ghost function Taken(dest: array<int>, off: nat, n: nat): (s: seq<int>)
    requires off + n <= dest.Length
    reads dest
    ensures |s| == n
  {
    dest[off..off + n]
  }

  /** All samples of the buffer but those of the block at off. */
  ghost function Others(dest: array<int>, off: nat, size: nat): (seq<int>, seq<int>)
    requires off + size <= dest.Length
    reads dest
  {
    (dest[..off], dest[off + size..])
  }

  function Repeat(v: int, n: nat): (s: seq<int>)
    ensures |s| == n && forall j :: 0 <= j < n ==> s[j] == v
  {
    seq(n, j => v)
  }

  /** Writes sample n of a block. */
  method Put(dest: array<int>, off: nat, n: nat, ghost size: nat, v: int)
    requires n < size && off + size <= dest.Length
    modifies dest
    ensures Taken(dest, off, n + 1) == old(Taken(dest, off, n)) + [v]
    ensures Others(dest, off, size) == old(Others(dest, off, size))
  {
    dest[off + n] := v;
  }

  /** memset and std::fill: writes samples n to n + count of a block. */
  method Fill(dest: array<int>, off: nat, n: nat, count: nat, ghost size: nat, v: int)
    requires n + count <= size && off + size <= dest.Length
    modifies dest
    ensures Taken(dest, off, n + count) == old(Taken(dest, off, n)) + Repeat(v, count)
    ensures Others(dest, off, size) == old(Others(dest, off, size))
  {
    forall j | off + n <= j < off + n + count {
      dest[j] := v;
    }
    assert dest[..off] == old(dest[..off]) && dest[off + size..] == old(dest[off + size..]);
    assert dest[off..off + n] == old(dest[off..off + n]);
    assert dest[off + n..off + n + count] == Repeat(v, count);
  }
}
