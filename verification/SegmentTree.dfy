/**
 The frame allocator of kernel/memory.c: a segment tree over n leaves in which
 entry h is 1 when no leaf below node h is free. Nodes are numbered as in
 CompleteTree; leaf k of the tree is entry n + k and stands for frame first + k.
 */
module SegmentTree {
  import opened Bits
  import opened CompleteTree

  type bit = x: int | 0 <= x < 2

  const MAX_PHYSICAL_PAGES := 0x8000

  datatype Option<T> = None | Some(value: T)

  /** Every internal node is the conjunction of its children, except p and its ancestors. */
  ghost predicate SumsExcept(a: seq<bit>, n: int, p: int) {
    && |a| >= 2 * n
    && forall h | 1 <= h < n && !(p >= 1 && AncestorOrSelf(h, p)) :: a[h] == And(a[2 * h], a[2 * h + 1])
  }

  /** The frames whose leaf is 0. */
  ghost function FreeOf(a: seq<bit>, n: int, first: int): set<int>
    requires |a| >= 2 * n
  {
    set f: int | first <= f < first + n && FrameFree(a, n, first, f)
  }

  ghost predicate FrameFree(a: seq<bit>, n: int, first: int, f: int) {
    |a| >= 2 * n && first <= f < first + n && a[n + f - first] == 0
  }

  ghost predicate NoneFree(a: seq<bit>, n: int, from: int, to: int)
    requires |a| >= 2 * n && 0 <= from && to <= n
  {
    forall j | n + from <= j < n + to :: a[j] == 1
  }

  /** What an internal entry says about the leaves below it. */
  lemma {:induction false} EntryMeaning(a: seq<bit>, n: int, h: int)
    requires IsNode(h, n) && SumsExcept(a, n, 0)
    ensures Within(Start(h, n), Span(h, n), 0, n) && Start(h, n) >= 0
    ensures a[h] == 1 <==> NoneFree(a, n, Start(h, n), Start(h, n) + Span(h, n))
    decreases 2 * n - h
  {
    hide SumsExcept, Span, Start, Block;
    LengthIs(a, n, 0);
    NodeFacts(h, n);
    if h < n {
      Children(h, n);
      EntryMeaning(a, n, 2 * h);
      EntryMeaning(a, n, 2 * h + 1);
      NodeSum(a, n, h);
      Split(a, n, Start(h, n), Start(h, n) + Span(h, n) / 2, Start(h, n) + Span(h, n));
    } else {
      LeafNode(h - n, n);
    }
  }

  lemma LengthIs(a: seq<bit>, n: int, p: int)
    requires SumsExcept(a, n, p)
    ensures |a| >= 2 * n
  {
  }

  lemma NodeSum(a: seq<bit>, n: int, h: int)
    requires SumsExcept(a, n, 0) && 1 <= h < n
    ensures |a| >= 2 * n && (a[h] == 1 <==> a[2 * h] == 1 && a[2 * h + 1] == 1)
  {
    assert a[h] == And(a[2 * h], a[2 * h + 1]);
  }

  lemma Split(a: seq<bit>, n: int, from: int, mid: int, to: int)
    requires |a| >= 2 * n && 0 <= from <= mid <= to <= n
    ensures NoneFree(a, n, from, to) <==> NoneFree(a, n, from, mid) && NoneFree(a, n, mid, to)
  {
  }

  /** Rewriting a leaf leaves only the sums above it open. */
  lemma SetLeaf(a: seq<bit>, n: int, k: int, v: bit)
    requires IsPow2(n) && SumsExcept(a, n, 0) && 0 <= k < n
    ensures SumsExcept(a[n + k := v], n, (n + k) / 2)
  {
    var b, p := a[n + k := v], (n + k) / 2;
    forall h | 1 <= h < n && !(p >= 1 && AncestorOrSelf(h, p))
      ensures b[h] == And(b[2 * h], b[2 * h + 1])
    {
      assert h != p;
    }
  }

  /** One turn of the loop that recomputes a path. */
  lemma RefreshStep(a: seq<bit>, n: int, p: int, v: bit)
    requires 1 <= p < n && SumsExcept(a, n, p) && v == And(a[2 * p], a[2 * p + 1])
    ensures SumsExcept(a[p := v], n, p / 2)
  {
    var b := a[p := v];
    forall h | 1 <= h < n && !(p / 2 >= 1 && AncestorOrSelf(h, p / 2))
      ensures b[h] == And(b[2 * h], b[2 * h + 1])
    {
      if h != p {
        assert 2 * h != p && 2 * h + 1 != p;
      }
    }
  }

  lemma LeavesKept(a: seq<bit>, n: int, first: int, p: int, v: bit)
    requires |a| >= 2 * n && 1 <= p < n
    ensures FreeOf(a[p := v], n, first) == FreeOf(a, n, first)
  {
    forall f | first <= f < first + n
      ensures FrameFree(a[p := v], n, first, f) == FrameFree(a, n, first, f)
    {
    }
  }

  lemma LeafTaken(a: seq<bit>, n: int, first: int, f: int)
    requires |a| >= 2 * n && first <= f < first + n
    ensures FreeOf(a[n + f - first := 1], n, first) == FreeOf(a, n, first) - {f}
    ensures FreeOf(a[n + f - first := 0], n, first) == FreeOf(a, n, first) + {f}
  {
    forall g | first <= g < first + n && g != f
      ensures FrameFree(a[n + f - first := 1], n, first, g) == FrameFree(a, n, first, g)
      ensures FrameFree(a[n + f - first := 0], n, first, g) == FrameFree(a, n, first, g)
    {
    }
  }

  /** The root entry is 1 exactly when no frame is free. */
  lemma Depleted(a: seq<bit>, n: int, first: int)
    requires IsPow2(n) && SumsExcept(a, n, 0)
    ensures |a| >= 2 && (a[1] == 1 <==> FreeOf(a, n, first) == {})
  {
    hide SumsExcept;
    LengthIs(a, n, 0);
    EntryMeaning(a, n, 1);
    if FreeOf(a, n, first) == {} {
      forall j | n <= j < 2 * n
        ensures a[j] == 1
      {
        assert first + (j - n) !in FreeOf(a, n, first);
        assert !FrameFree(a, n, first, first + (j - n));
      }
    } else {
      var f :| f in FreeOf(a, n, first);
      assert FrameFree(a, n, first, f);
    }
  }

  // ----- the search for the lowest free leaf

  /** There is a free leaf below node p and none to the left of it. */
  ghost predicate Leftmost(a: seq<bit>, n: int, p: int) {
    && IsNode(p, n)
    && |a| >= 2 * n
    && a[p] == 0
    && 0 <= Start(p, n) <= n
    && NoneFree(a, n, 0, Start(p, n))
  }

  lemma GoDown(a: seq<bit>, n: int, p: int)
    requires SumsExcept(a, n, 0) && Leftmost(a, n, p) && p < n
    ensures Leftmost(a, n, if a[2 * p] == 0 then 2 * p else 2 * p + 1)
  {
    hide SumsExcept, Span, Start, Block;
    LengthIs(a, n, 0);
    Children(p, n);
    NodeSum(a, n, p);
    EntryMeaning(a, n, 2 * p);
    EntryMeaning(a, n, 2 * p + 1);
    Split(a, n, 0, Start(p, n), Start(2 * p + 1, n));
  }

  lemma Arrive(a: seq<bit>, n: int, p: int, first: int)
    requires Leftmost(a, n, p) && p >= n
    ensures IsLeast(FreeOf(a, n, first), p - n + first)
  {
    LeafNode(p - n, n);
    assert FrameFree(a, n, first, p - n + first);
    forall q | q in FreeOf(a, n, first)
      ensures p - n + first <= q
    {
      assert FrameFree(a, n, first, q);
      assert a[n + (q - first)] == 0;
    }
  }

  // ----- building the tree

  /** The sums are right from node i upwards. */
  ghost predicate BuiltFrom(a: seq<bit>, n: int, i: int) {
    |a| >= 2 * n && forall h | i < h < n && h >= 1 :: a[h] == And(a[2 * h], a[2 * h + 1])
  }

  lemma BuildStep(a: seq<bit>, n: int, i: int, v: bit)
    requires 1 <= i < n && BuiltFrom(a, n, i) && v == And(a[2 * i], a[2 * i + 1])
    ensures BuiltFrom(a[i := v], n, i - 1)
  {
  }

  lemma Pow2Of15()
    ensures Pow2(15) == MAX_PHYSICAL_PAGES
  {
    assert Pow2(8) == 256;
    assert Pow2(12) == 4096;
  }

  lemma TreeSizeStep(n: int, k: nat)
    requires IsPow2(n) && n < Pow2(k)
    ensures IsPow2(2 * n) && 2 * n <= Pow2(k)
  {
    Pow2IsPow2(k);
    Pow2Gap(n, Pow2(k));
  }

  lemma AndBits(x: bit, y: bit)
    ensures And(x, y) == if x == 1 && y == 1 then 1 else 0
  {
  }

  // ----- whole histories of the set of free frames

  datatype Call = Take | Give(ppn: int)

  ghost predicate IsLeast(s: set<int>, x: int) {
    x in s && forall y | y in s :: x <= y
  }

  lemma {:induction false} LeastExists(s: set<int>)
    requires s != {}
    ensures exists x :: IsLeast(s, x)
  {
    assert (forall x :: x !in s) ==> s == {};
    var x: int :| x in s;
    var rest := s - {x};
    if rest == {} {
      assert forall z | z in s :: z == x || z in rest;
      assert IsLeast(s, x);
    } else {
      LeastExists(rest);
      var y :| IsLeast(rest, y);
      assert forall z | z in s :: z == x || z in rest;
      assert IsLeast(s, if y < x then y else x);
    }
  }

  ghost function Least(s: set<int>): (x: int)
    requires s != {}
    ensures IsLeast(s, x)
  {
    LeastExists(s);
    var x :| IsLeast(s, x);
    x
  }

  /** The free frames after a call; a Take on an empty set panics and changes nothing. */
  ghost function After(free: set<int>, c: Call): set<int> {
    match c
    case Take => if free == {} then free else free - {Least(free)}
    case Give(ppn) => free + {ppn}
  }

  ghost function AfterAll(free: set<int>, calls: seq<Call>): set<int>
    decreases |calls|
  {
    if calls == [] then free else AfterAll(After(free, calls[0]), calls[1..])
  }

  /** What the calls hand out: the lowest free frame for a Take, or nothing. */
  ghost function HandedOut(free: set<int>, calls: seq<Call>): (out: seq<Option<int>>)
    ensures |out| == |calls|
    decreases |calls|
  {
    if calls == [] then []
    else [if calls[0] == Take && free != {} then Some(Least(free)) else None]
         + HandedOut(After(free, calls[0]), calls[1..])
  }

  /** As long as only managed frames are given back, only managed frames are ever handed out. */
  lemma {:induction false} OnlyManagedFrames(managed: set<int>, free: set<int>, calls: seq<Call>)
    requires free <= managed
    requires forall i | 0 <= i < |calls| && calls[i].Give? :: calls[i].ppn in managed
    ensures AfterAll(free, calls) <= managed
    ensures forall i | 0 <= i < |calls| && HandedOut(free, calls)[i].Some? :: HandedOut(free, calls)[i].value in managed
    decreases |calls|
  {
    if calls != [] {
      OnlyManagedFrames(managed, After(free, calls[0]), calls[1..]);
    }
  }

  ghost predicate GivenBack(calls: seq<Call>, f: int, from: int, to: int) {
    exists k | from <= k < to :: 0 <= k < |calls| && calls[k] == Give(f)
  }

  /** A frame that is not free is handed out only after it was given back. */
  lemma {:induction false} NotBefore(free: set<int>, calls: seq<Call>, f: int, j: nat)
    requires f !in free && j < |calls| && HandedOut(free, calls)[j] == Some(f)
    ensures GivenBack(calls, f, 0, j)
    decreases |calls|
  {
    assert j > 0;
    if calls[0] == Give(f) {
      assert GivenBack(calls, f, 0, j);
    } else {
      NotBefore(After(free, calls[0]), calls[1..], f, j - 1);
      var k :| 0 <= k < j - 1 && calls[1..][k] == Give(f);
      assert calls[k + 1] == Give(f);
    }
  }

  /** Between two calls that hand out the same frame it is given back: no frame has two owners. */
  lemma {:induction false} NeverTwice(free: set<int>, calls: seq<Call>, f: int, i: nat, j: nat)
    requires i < j < |calls| && HandedOut(free, calls)[i] == HandedOut(free, calls)[j] == Some(f)
    ensures GivenBack(calls, f, i, j)
    decreases |calls|
  {
    var rest := After(free, calls[0]);
    var k;
    if i == 0 {
      NotBefore(rest, calls[1..], f, j - 1);
      k :| 0 <= k < j - 1 && calls[1..][k] == Give(f);
    } else {
      NeverTwice(rest, calls[1..], f, i - 1, j - 1);
      k :| i - 1 <= k < j - 1 && 0 <= k < |calls[1..]| && calls[1..][k] == Give(f);
    }
    assert calls[k + 1] == Give(f);
  }

  function Takes(n: nat): seq<Call> {
    seq(n, i => Take)
  }

  /** From an interval of free frames, takes alone hand it out from the bottom up, and then nothing. */
  lemma {:induction false} TakesInOrder(lo: int, hi: int, free: set<int>, n: nat, i: nat)
    requires (forall f :: f in free <==> lo <= f < hi) && i < n
    ensures HandedOut(free, Takes(n))[i] == if lo + i < hi then Some(lo + i) else None
    decreases n
  {
    assert Takes(n)[1..] == Takes(n - 1);
    assert lo < hi ==> lo in free;
    if free != {} {
      assert Least(free) in free;
      if i > 0 {
        TakesInOrder(lo + 1, hi, free - {lo}, n - 1, i - 1);
      }
    } else if i > 0 {
      TakesInOrder(lo, hi, free, n - 1, i - 1);
    }
  }

  class FrameTree {
    var node: array<bit>
    var firstSingle: int
    var length: int
    var startPpn: int

    ghost predicate Valid()
      reads this, node
    {
      IsPow2(firstSingle) && node.Length >= 2 * firstSingle && SumsExcept(node[..], firstSingle, 0)
    }

    /** The frames that the tree shows as free. */
    ghost function FreeFrames(): set<int>
      requires node.Length >= 2 * firstSingle
      reads this, node
    {
      FreeOf(node[..], firstSingle, startPpn)
    }

    /** Frame numbers that have a leaf. */
    ghost predicate HasLeaf(ppn: int)
      reads this
    {
      startPpn <= ppn < startPpn + firstSingle
    }

    /** newAllocator */
    constructor (start: int, end: int)
      requires start <= end && end - start + 2 <= MAX_PHYSICAL_PAGES
      ensures Valid() && fresh(node)
      ensures forall f :: f in FreeFrames() <==> start <= f < end - 1
      ensures startPpn == start - 1 && length == end - start && firstSingle >= end - start + 2
    {
      startPpn := start - 1;
      length := end - start;
      firstSingle := 1;
      node := new bit[MAX_PHYSICAL_PAGES * 2];
      new;
      while firstSingle < length + 2
        invariant IsPow2(firstSingle) && firstSingle <= MAX_PHYSICAL_PAGES
        invariant length == end - start && startPpn == start - 1
        invariant fresh(node) && node.Length == MAX_PHYSICAL_PAGES * 2
        decreases length + 2 - firstSingle
      {
        Pow2Of15();
        TreeSizeStep(firstSingle, 15);
        firstSingle := firstSingle * 2;
      }
      FillLeaves();
      Build();
      forall f
        ensures f in FreeFrames() <==> start <= f < end - 1
      {
        if startPpn <= f < startPpn + firstSingle {
          assert node[..][firstSingle + f - startPpn] == if 1 <= f - startPpn < length then 0 else 1;
          assert FrameFree(node[..], firstSingle, startPpn, f) <==> start <= f < end - 1;
        }
      }
    }

    /** The loops of newAllocator that mark leaves 1 .. length-1 free and all else taken. */
    method FillLeaves()
      requires 0 <= length && length + 2 <= firstSingle && 2 * firstSingle <= node.Length
      modifies node
      ensures forall j | firstSingle <= j < 2 * firstSingle ::
                node[j] == if 1 <= j - firstSingle < length then 0 else 1
    {
      for i := 1 to firstSingle * 2
        invariant forall j | 1 <= j < i :: node[j] == 1
      {
        node[i] := 1;
      }
      var i := 1;
      while i < length
        invariant 1 <= i && (if length <= 1 then i == 1 else i <= length)
        invariant forall j | firstSingle <= j < 2 * firstSingle ::
                    node[j] == if 1 <= j - firstSingle < i then 0 else 1
      {
        node[firstSingle + i] := 0;
        i := i + 1;
      }
    }

    /** The loop of newAllocator that fills in the internal nodes from the bottom. */
    method Build()
      requires IsPow2(firstSingle) && node.Length >= 2 * firstSingle
      modifies node
      ensures Valid()
      ensures forall j | firstSingle <= j < 2 * firstSingle :: node[j] == old(node[j])
    {
      hide And;
      var i := firstSingle - 1;
      while i >= 1
        invariant 0 <= i < firstSingle
        invariant BuiltFrom(node[..], firstSingle, i)
        invariant forall j | firstSingle <= j < 2 * firstSingle :: node[j] == old(node[j])
        decreases i
      {
        AndBits(node[2 * i], node[2 * i + 1]);
        ghost var a := node[..];
        BuildStep(a, firstSingle, i, And(a[2 * i], a[2 * i + 1]));
        node[i] := And(node[2 * i], node[2 * i + 1]);
        assert node[..] == a[i := And(a[2 * i], a[2 * i + 1])];
        i := i - 1;
      }
    }

    /** alloc, with its panic on depleted memory as None. */
    method Alloc() returns (r: Option<int>)
      requires Valid()
      modifies node
      ensures Valid()
      ensures r.None? <==> old(FreeFrames()) == {}
      ensures FreeFrames() == After(old(FreeFrames()), Take)
      ensures r.Some? ==> IsLeast(old(FreeFrames()), r.value) && FreeFrames() == old(FreeFrames()) - {r.value}
    {
      hide And, SumsExcept, Span, Start, FreeOf;
      Depleted(node[..], firstSingle, startPpn);
      if node[1] == 1 {
        return None;
      }
      var p := FindFree();
      var result := p - firstSingle + startPpn;
      Arrive(node[..], firstSingle, p, startPpn);
      SetAndRefresh(p, 1);
      r := Some(result);
    }

    /** The loop of alloc that walks down to the lowest free leaf. */
    method FindFree() returns (p: int)
      requires Valid() && node[1] == 0
      ensures firstSingle <= p < 2 * firstSingle && Leftmost(node[..], firstSingle, p)
    {
      hide And, SumsExcept;
      p := 1;
      while p < firstSingle
        invariant Leftmost(node[..], firstSingle, p)
        decreases firstSingle - p
      {
        GoDown(node[..], firstSingle, p);
        if node[2 * p] == 0 {
          p := 2 * p;
        } else {
          p := 2 * p + 1;
        }
      }
    }

    /** dealloc */
    method Dealloc(ppn: int)
      requires Valid() && HasLeaf(ppn)
      modifies node
      ensures Valid() && FreeFrames() == After(old(FreeFrames()), Give(ppn)) == old(FreeFrames()) + {ppn}
      ensures ppn in old(FreeFrames()) ==> node[..] == old(node[..])
    {
      var p := ppn - startPpn + firstSingle;
      if node[p] != 1 {
        return;
      }
      SetAndRefresh(p, 0);
    }

    /** Write leaf p and recompute the path to the root, as alloc and dealloc both do. */
    method SetAndRefresh(leaf: int, v: bit)
      requires Valid() && firstSingle <= leaf < 2 * firstSingle
      modifies node
      ensures Valid()
      ensures FreeFrames() == (if v == 0 then old(FreeFrames()) + {leaf - firstSingle + startPpn}
                               else old(FreeFrames()) - {leaf - firstSingle + startPpn})
    {
      hide And, SumsExcept, FreeOf;
      ghost var a := node[..];
      SetLeaf(a, firstSingle, leaf - firstSingle, v);
      LeafTaken(a, firstSingle, startPpn, leaf - firstSingle + startPpn);
      node[leaf] := v;
      a := a[leaf := v];
      assert node[..] == a;
      ghost var free := FreeOf(a, firstSingle, startPpn);
      var p := leaf / 2;
      while p > 0
        invariant 0 <= p < firstSingle
        invariant node[..] == a && SumsExcept(a, firstSingle, p)
        invariant FreeOf(a, firstSingle, startPpn) == free
        decreases p
      {
        var sum := And(node[2 * p], node[2 * p + 1]);
        AndBits(node[2 * p], node[2 * p + 1]);
        RefreshStep(a, firstSingle, p, sum);
        LeavesKept(a, firstSingle, startPpn, p, sum);
        node[p] := sum;
        a := a[p := sum];
        p := p / 2;
      }
    }

    /** A history of calls; out is what each of them hands out. */
    method Replay(calls: seq<Call>) returns (out: seq<Option<int>>)
      requires Valid() && forall i | 0 <= i < |calls| && calls[i].Give? :: HasLeaf(calls[i].ppn)
      modifies node
      ensures Valid() && FreeFrames() == AfterAll(old(FreeFrames()), calls)
      ensures out == HandedOut(old(FreeFrames()), calls)
    {
      hide SumsExcept, FreeOf;
      out := [];
      ghost var free := FreeFrames();
      for i := 0 to |calls|
        invariant Valid() && AfterAll(FreeFrames(), calls[i..]) == AfterAll(free, calls)
        invariant out + HandedOut(FreeFrames(), calls[i..]) == HandedOut(free, calls)
      {
        assert calls[i..][0] == calls[i] && calls[i..][1..] == calls[i + 1..];
        ghost var before := FreeFrames();
        var r := None;
        match calls[i] {
          case Take => r := Alloc();
          case Give(ppn) => Dealloc(ppn);
        }
        assert HandedOut(before, calls[i..]) == [r] + HandedOut(FreeFrames(), calls[i + 1..]);
        out := out + [r];
      }
    }
  }

  /** The frames that an allocator for start .. end manages: the last one of them is left out. */
  predicate IsManaged(start: int, end: int, f: int) { start <= f < end - 1 }

  ghost function Managed(start: int, end: int): set<int> {
    set f: int | start <= f < end - 1 && IsManaged(start, end, f)
  }

  /**
   Any history on a new allocator that gives back managed frames only: it hands out managed frames, each
   the lowest one free, and none that is still in use.
   */
  method ManagedHistory(start: int, end: int, calls: seq<Call>) returns (out: seq<Option<int>>)
    requires start <= end && end - start + 2 <= MAX_PHYSICAL_PAGES
    requires forall i | 0 <= i < |calls| && calls[i].Give? :: start <= calls[i].ppn < end - 1
    ensures out == HandedOut(Managed(start, end), calls)
    ensures forall i | 0 <= i < |calls| && out[i].Some? :: start <= out[i].value < end - 1
    ensures forall i, j | 0 <= i < j < |calls| && out[i].Some? && out[i] == out[j] ::
              GivenBack(calls, out[i].value, i, j)
  {
    var tree := new FrameTree(start, end);
    ghost var managed := Managed(start, end);
    assert tree.FreeFrames() == managed;
    out := tree.Replay(calls);
    OnlyManagedFrames(managed, managed, calls);
    forall i, j | 0 <= i < j < |calls| && out[i].Some? && out[i] == out[j]
      ensures GivenBack(calls, out[i].value, i, j)
    {
      NeverTwice(managed, calls, out[i].value, i, j);
    }
  }

  /** n allocations on a new allocator hand out start, start + 1 and so on up to end - 2; every further one panics. */
  method TakesUntilEmpty(start: int, end: int, n: nat) returns (out: seq<Option<int>>)
    requires start <= end && end - start + 2 <= MAX_PHYSICAL_PAGES
    ensures |out| == n
    ensures forall i | 0 <= i < n :: out[i] == if start + i < end - 1 then Some(start + i) else None
  {
    out := ManagedHistory(start, end, Takes(n));
    forall i | 0 <= i < n
      ensures out[i] == if start + i < end - 1 then Some(start + i) else None
    {
      TakesInOrder(start, end - 1, Managed(start, end), n, i);
    }
  }
}
