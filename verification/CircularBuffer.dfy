/** Offsets inside the DMA ring, and the copy out of it (the CIRCULAR_* macros of axi_adc.c). */
module CircularBuffer {
  type Byte = bv8

  function CircularAdd(x: nat, y: nat, size: nat): nat
    requires size > 0
  {
    (x + y) % size
  }

  function CircularSub(x: int, y: int, size: int): int {
    if x >= y then x - y else size + x - y
  }

  function CircularDist(from: int, to: int, size: int): int {
    CircularSub(to, from, size)
  }

  /** Where the j-th byte of a `length`-byte copy starting at ring offset `offs` is fetched from:
      one memcpy if the block does not reach the end of the ring, otherwise two. */
  function SourceIndex(offs: nat, length: nat, size: nat, j: nat): int {
    if offs + length <= size then offs + j
    else if j < size - offs then offs + j
    else j - (size - offs)
  }

  lemma MultipleIsFar(n: int, d: int)
    requires n > 0
    ensures d > 0 ==> n * d >= n
    ensures d < 0 ==> n * d <= -n
  {
  }

  lemma ModUnique(x: int, n: int, q: int, r: int)
    requires 0 <= r < n
    requires x == q * n + r
    ensures x % n == r
  {
    var d := q - x / n;
    assert n * d == x % n - r;
    MultipleIsFar(n, d);
  }

  /** Adding to an offset that is already reduced is adding to the position it stands for. */
  lemma AddReduced(x: int, y: int, n: int)
    requires n > 0
    ensures (x % n + y) % n == (x + y) % n
  {
    var r := (x % n + y) % n;
    assert x + y == (x / n + (x % n + y) / n) * n + r by {
      assert x == x / n * n + x % n;
      assert x % n + y == (x % n + y) / n * n + r;
    }
    ModUnique(x + y, n, x / n + (x % n + y) / n, r);
  }

  /** CIRCULAR_SUB steps back `y` positions. */
  lemma SubReduced(x: int, y: int, n: int)
    requires 0 <= y <= n && n > 0
    ensures CircularSub(x % n, y, n) == (x - y) % n
  {
    var r := CircularSub(x % n, y, n);
    var q := if x % n >= y then x / n else x / n - 1;
    assert x == x / n * n + x % n;
    assert x - y == q * n + r;
    ModUnique(x - y, n, q, r);
  }

  /** CIRCULAR_DIST is the true distance as long as that distance is below the ring size. */
  lemma DistReduced(x: int, y: int, n: int)
    requires x <= y < x + n
    ensures CircularDist(x % n, y % n, n) == y - x
  {
    var d := CircularDist(x % n, y % n, n);
    assert x == x / n * n + x % n && y == y / n * n + y % n;
    var k := if y % n >= x % n then y / n - x / n else y / n - x / n - 1;
    assert y - x == k * n + d;
    ModUnique(y - x, n, k, d);
    ModUnique(y - x, n, 0, y - x);
  }

  /** Two positions less than a ring apart share an offset only if they are equal. */
  lemma SameOffset(x: int, y: int, n: int)
    requires x <= y < x + n
    requires x % n == y % n
    ensures x == y
  {
    DistReduced(x, y, n);
  }

  /** Both branches of the copy fetch byte j from the offset of position `offs + j`. */
  lemma SourceIndexIsOffset(offs: nat, length: nat, size: nat, j: nat)
    requires offs < size && j < length <= size
    ensures SourceIndex(offs, length, size, j) == (offs + j) % size
  {
    if offs + j < size {
      ModUnique(offs + j, size, 0, offs + j);
    } else {
      ModUnique(offs + j, size, 1, offs + j - size);
    }
  }

  lemma SourceOfReduced(x: int, size: nat, length: nat, j: nat)
    requires j < length <= size
    ensures SourceIndex(x % size, length, size, j) == (x + j) % size
  {
    SourceIndexIsOffset(x % size, length, size, j);
    AddReduced(x, j, size);
  }

  /** memcpy between two different blocks. */
  method MemCopy(target: array<Byte>, at: nat, src: array<Byte>, from: nat, length: nat)
    requires target != src && at + length <= target.Length && from + length <= src.Length
    modifies target
    ensures forall k :: at <= k < at + length ==> target[k] == src[from + (k - at)]
    ensures forall k :: 0 <= k < at || at + length <= k < target.Length ==> target[k] == old(target[k])
  {
    for n := 0 to length
      invariant forall k :: at <= k < at + n ==> target[k] == src[from + (k - at)]
      invariant forall k :: 0 <= k < at || at + n <= k < target.Length ==> target[k] == old(target[k])
    {
      target[at + n] := src[from + n];
    }
  }

  /** CIRCULARSRC_MEMCPY: copies `length` bytes of the ring, starting at `offs` and wrapping at its
      end, to `target[at..at + length]`, and touches nothing else. */
  method CircularCopy(target: array<Byte>, at: nat, src: array<Byte>, offs: nat, length: nat)
    requires offs < src.Length && length <= src.Length && at + length <= target.Length
    requires target != src
    modifies target
    ensures forall k :: at <= k < at + length ==> target[k] == src[(offs + (k - at)) % src.Length]
    ensures forall k :: 0 <= k < at || at + length <= k < target.Length ==> target[k] == old(target[k])
  {
    var size := src.Length;
    if offs + length <= size {
      MemCopy(target, at, src, offs, length);
    } else {
      var length1 := size - offs;
      MemCopy(target, at, src, offs, length1);
      MemCopy(target, at + length1, src, 0, length - length1);
    }
    forall k | at <= k < at + length
      ensures target[k] == src[(offs + (k - at)) % size]
    {
      SourceIndexIsOffset(offs, length, size, k - at);
    }
  }
}
