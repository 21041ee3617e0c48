/**
 Byte heaps on top of the buddy tree: kalloc and kfree of kernel/heap.c and
 malloc and free of user/malloc.c. Addresses are integers; 0 is the null pointer.
 */
module Heap {
  import opened Bits
  import opened BuddySpec
  import opened Bytes
  import Buddy

  datatype Allocation = Null | Panic | At(addr: int)

  /** The block count kalloc asks for: its test "size && (MIN_BLOCK_SIZE-1)" always adds one. */
  function KernelBlocks(size: int, unit: int): (n: int)
    requires size > 0 && unit > 0
    ensures 1 <= n <= size + 1
  {
    QuotientBounds(size, unit);
    size / unit + 1
  }

  /** The block count malloc asks for. */
  function UserBlocks(size: int, unit: int): (n: int)
    requires size > 0 && unit > 0
    ensures 1 <= n <= size
  {
    QuotientBounds(size - 1, unit);
    (size - 1) / unit + 1
  }

  lemma QuotientBounds(a: int, d: int)
    requires a >= 0 && d > 0
    ensures 0 <= a / d <= a
  {
    var q := a / d;
    assert q * d == a - a % d;
    if q > 0 {
      MulGe(d, q);
    }
  }

  /** The least number of units that hold size bytes. */
  predicate ExactFit(n: int, size: int, unit: int) {
    n * unit >= size && (n - 1) * unit < size
  }

  lemma UserBlocksFit(size: int, unit: int)
    requires size > 0 && unit > 0
    ensures ExactFit(UserBlocks(size, unit), size, unit)
  {
    var q := (size - 1) / unit;
    assert size - 1 == q * unit + (size - 1) % unit;
    assert (q + 1) * unit == q * unit + unit;
  }

  /** kalloc always has room, and asks for one block too many exactly on multiples of the unit. */
  lemma KernelBlocksFit(size: int, unit: int)
    requires size > 0 && unit > 0
    ensures KernelBlocks(size, unit) * unit >= size
    ensures ExactFit(KernelBlocks(size, unit), size, unit) <==> size % unit != 0
  {
    var q := size / unit;
    assert size == q * unit + size % unit;
    assert (q + 1) * unit == q * unit + unit;
  }

  /** The bytes of a live block. */
  function Contents(bytes: seq<byte>, p: int, t: int, unit: int): seq<byte>
    requires 0 <= p && 0 <= t && unit > 0 && (p + t) * unit <= |bytes|
  {
    assert p * unit >= 0 && (p + t) * unit == p * unit + t * unit && t * unit >= 0;
    bytes[p * unit..(p + t) * unit]
  }

  /** Clearing one block leaves every other live block's bytes alone. */
  lemma OthersKept(before: seq<byte>, after: seq<byte>, live: Live, n: int, p: int, q: int, unit: int)
    requires unit > 0 && |before| == |after| == n * unit && LiveOk(live, n)
    requires p in live && q in live && p != q
    requires forall i | 0 <= i < |before| && !(p * unit <= i < (p + live[p]) * unit) :: after[i] == before[i]
    ensures 0 <= q && 0 <= live[q] && (q + live[q]) * unit <= |before|
    ensures Contents(after, q, live[q], unit) == Contents(before, q, live[q], unit)
  {
    assert Sound(live, n, p) && Sound(live, n, q) && Apart(live, p, q);
    var o, s, t := q * unit, (q + live[q]) * unit, (p + live[p]) * unit;
    Scale(q + live[q], n, unit);
    Scale(0, q, unit);
    Scale(q, q + live[q], unit);
    if q + live[q] <= p {
      Scale(q + live[q], p, unit);
    } else {
      Scale(p + live[p], q, unit);
    }
    SliceKept(before, after, p * unit, t, o, s);
  }

  lemma SliceKept(before: seq<byte>, after: seq<byte>, from: int, to: int, o: int, s: int)
    requires |before| == |after| && 0 <= o <= s <= |before| && (s <= from || to <= o)
    requires forall i | 0 <= i < |before| && !(from <= i < to) :: after[i] == before[i]
    ensures after[o..s] == before[o..s]
  {
  }

  lemma Scale(a: int, b: int, unit: int)
    requires a <= b && unit > 0
    ensures a * unit <= b * unit
  {
  }

  class ByteHeap {
    const base: int
    const unit: int
    var tree: Buddy.BuddyTree
    var bytes: array<byte>

    ghost predicate Valid()
      reads this, tree, tree.longest, bytes
    {
      && base > 0 && unit > 0
      && tree.Valid()
      && tree.size <= 0x4000_0000
      && bytes.Length == tree.size * unit
      && bytes as object != tree.longest
    }

    /** initHeap: n units of u bytes, all free, from address start. */
    constructor (start: int, n: int, u: int)
      requires start > 0 && u > 0 && IsPow2(n) && n <= 0x4000_0000
      ensures Valid() && fresh(tree) && fresh(tree.longest) && fresh(bytes)
      ensures tree.live == map[] && tree.size == n && base == start && unit == u
    {
      base := start;
      unit := u;
      tree := new Buddy.BuddyTree(n);
      Scale(0, n, u);
      bytes := new byte[n * u];
    }

    /** kalloc; with units of 64 bytes the block count of every int is in range. */
    method Kalloc(size: int) returns (r: Allocation)
      requires Valid() && (size > 0 ==> KernelBlocks(size, unit) <= 0x4000_0000)
      modifies tree, tree.longest, bytes
      ensures Valid() && tree == old(tree) && tree.size == old(tree.size) && bytes == old(bytes)
      ensures size <= 0 ==> r == Null && tree.live == old(tree.live) && bytes[..] == old(bytes[..])
      ensures size > 0 ==> Served(old(tree.live), old(bytes[..]), tree.live, bytes[..], KernelBlocks(size, unit), r)
    {
      if size <= 0 {
        return Null;
      }
      var n := size / unit + 1;
      assert n == KernelBlocks(size, unit);
      r := Serve(n);
    }

    /** malloc; with units of 32 bytes the block count of every uint32 is in range. */
    method Malloc(size: int) returns (r: Allocation)
      requires Valid() && 0 <= size && (size > 0 ==> UserBlocks(size, unit) <= 0x4000_0000)
      modifies tree, tree.longest, bytes
      ensures Valid() && tree == old(tree) && tree.size == old(tree.size) && bytes == old(bytes)
      ensures size == 0 ==> r == Null && tree.live == old(tree.live) && bytes[..] == old(bytes[..])
      ensures size > 0 ==> Served(old(tree.live), old(bytes[..]), tree.live, bytes[..], UserBlocks(size, unit), r)
    {
      if size == 0 {
        return Null;
      }
      var n := (size - 1) / unit + 1;
      assert n == UserBlocks(size, unit);
      r := Serve(n);
    }

    /** What a request for n units does: a panic if no run is free, else a cleared block of at least n units. */
    ghost predicate Served(live0: Live, bytes0: seq<byte>, live1: Live, bytes1: seq<byte>, n: int, r: Allocation)
      reads this, tree
      requires n <= 0x4000_0000 && tree.size >= 1
    {
      var t := Rounded(n);
      && |bytes1| == |bytes0|
      && live1 == Step(live0, tree.size, Allocate(n))
      && (r == Panic <==> forall p :: !FreeRun(live0, tree.size, p, t))
      && (r == Panic ==> bytes1 == bytes0)
      && (r != Panic ==>
            exists p :: && r == At(base + p * unit)
                        && FreeRun(live0, tree.size, p, t) && n <= t
                        && live1 == live0[p := t]
                        && Cleared(bytes0, bytes1, p * unit, (p + t) * unit))
    }

    /** The common tail of kalloc and malloc: take n blocks and clear them byte by byte. */
    method Serve(n: int) returns (r: Allocation)
      requires Valid() && 1 <= n <= 0x4000_0000
      modifies tree, tree.longest, bytes
      ensures Valid() && tree == old(tree) && tree.size == old(tree.size) && bytes == old(bytes)
      ensures Served(old(tree.live), old(bytes[..]), tree.live, bytes[..], n, r)
    {
      hide FixSize, LiveOk, Choose, LargestFree;
      RoundedIsPow2(n);
      var block := tree.Alloc(n);
      if block == -1 {
        return Panic;
      }
      var totalBytes := FixSize(n) * unit;
      var begin := block * unit;
      InBounds(block, FixSize(n), tree.size, unit);
      for i := 0 to totalBytes
        modifies bytes
        invariant Cleared(old(bytes[..]), bytes[..], begin, begin + i)
      {
        bytes[begin + i] := 0;
      }
      r := At(base + begin);
    }

    /** kfree and free */
    method Kfree(ptr: int)
      requires Valid()
      modifies tree, tree.longest
      ensures Valid() && tree == old(tree) && tree.size == old(tree.size)
      ensures tree.live == if base <= ptr <= base + bytes.Length - unit
                           then Release(old(tree.live), (ptr - base) / unit) else old(tree.live)
    {
      if ptr < base {
        return;
      }
      if ptr > base + bytes.Length - unit {
        return;
      }
      var offset := ptr - base;
      CellInBounds(offset, tree.size, unit);
      tree.Free(offset / unit);
    }
  }

  /** Exactly the bytes from .. to were set to zero. */
  ghost predicate Cleared(before: seq<byte>, after: seq<byte>, from: int, to: int) {
    && |after| == |before|
    && 0 <= from <= to <= |before|
    && (forall i | 0 <= i < |before| :: after[i] == if from <= i < to then 0 else before[i])
  }

  lemma InBounds(p: int, t: int, n: int, unit: int)
    requires 0 <= p && 0 <= t && p + t <= n && unit > 0
    ensures 0 <= p * unit && 0 <= t * unit && p * unit + t * unit == (p + t) * unit <= n * unit
  {
    Scale(0, p, unit);
    Scale(0, t, unit);
    Scale(p + t, n, unit);
  }

  lemma CellInBounds(offset: int, n: int, unit: int)
    requires unit > 0 && 0 <= offset <= n * unit - unit
    ensures 0 <= offset / unit < n
  {
    var q := offset / unit;
    assert q * unit <= offset;
    if q >= n {
      Scale(n, q, unit);
    }
  }
}
