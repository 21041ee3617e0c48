/**
 The tree-in-array buddy allocator of kernel/heap.c and user/malloc.c.
 Array index i is node i+1 of CompleteTree.
 */
module Buddy {
  import opened Bits
  import opened CompleteTree
  import opened BuddySpec

  /** The entry that the live blocks dictate for a node. */
  ghost function NodeValue(live: Live, h: int, n: int): nat
    requires IsNode(h, n)
  {
    NodeFacts(h, n);
    Value(live, Start(h, n), Span(h, n))
  }

  /** Every entry is the canonical one, except possibly above node top. */
  ghost predicate Agrees(a: seq<int>, live: Live, n: int, top: int) {
    && |a| == 2 * n - 1
    && forall h | IsNode(h, n) && !ProperAncestor(h, top) :: a[h - 1] == NodeValue(live, h, n)
  }

  /** The whole array, as a function of the live blocks. */
  ghost function Canonical(live: Live, n: int): seq<int>
    requires IsPow2(n)
  {
    seq(2 * n - 1, i requires 0 <= i < 2 * n - 1 => NodeValue(live, i + 1, n))
  }

  /** The array that buddyInit writes: every node shows its full length. */
  function InitialArray(n: int): seq<int>
    requires IsPow2(n)
  {
    seq(2 * n - 1, i requires 0 <= i < 2 * n - 1 => Span(i + 1, n))
  }

  lemma EntriesAreCanonical(a: seq<int>, live: Live, n: int)
    requires IsPow2(n) && Agrees(a, live, n, 1)
    ensures a == Canonical(live, n)
  {
    forall i | 0 <= i < |a|
      ensures a[i] == Canonical(live, n)[i]
    {
      var h := i + 1;
      assert IsNode(h, n);
      NodeOfIndexZero(n);
      assert a[h - 1] == NodeValue(live, h, n);
    }
  }

  lemma EmptyIsInitial(n: int)
    requires IsPow2(n)
    ensures Canonical(map[], n) == InitialArray(n)
  {
    forall i | 0 <= i < 2 * n - 1
      ensures Canonical(map[], n)[i] == InitialArray(n)[i]
    {
      NoBlocks(i + 1, n);
    }
  }

  /** An array that agrees with the live blocks after the release of all of them is the initial one. */
  lemma AllReleased(live: Live, n: int, cells: seq<int>, a: seq<int>)
    requires IsPow2(n) && LiveOk(live, n)
    requires forall p | p in live :: exists i :: 0 <= i < |cells| && Holds(live, p, cells[i])
    requires Agrees(a, Run(live, n, Releases(cells)), n, 1)
    ensures a == InitialArray(n)
  {
    ReleaseAll(live, n, cells);
    EntriesAreCanonical(a, map[], n);
    EmptyIsInitial(n);
  }

  // ----- nodes and blocks

  lemma {:induction false} ContainsMeansAncestor(h: int, top: int, n: int)
    requires IsNode(h, n) && IsNode(top, n) && h != top && !ProperAncestor(h, top)
    ensures !Within(Start(top, n), Span(top, n), Start(h, n), Span(h, n))
  {
    NodeFacts(h, n);
    NodeFacts(top, n);
    if AncestorOrSelf(top, h) {
      AncestorContains(top, h, n);
    } else {
      UnrelatedDisjoint(h, top, n);
    }
  }

  /** Writing the marked node makes the array agree with one more block. */
  lemma MarkLive(a: seq<int>, live: Live, n: int, top: int)
    requires IsNode(top, n) && Agrees(a, live, n, 1)
    requires Start(top, n) !in live && LiveOk(live[Start(top, n) := Span(top, n)], n)
    ensures Agrees(a[top - 1 := 0], live[Start(top, n) := Span(top, n)], n, top)
  {
    var p, t := Start(top, n), Span(top, n);
    NodeFacts(top, n);
    forall h | IsNode(h, n) && !ProperAncestor(h, top)
      ensures a[top - 1 := 0][h - 1] == NodeValue(live[p := t], h, n)
    {
      if h == top {
        ValueAt(live, p, t, n);
      } else {
        NodeFacts(h, n);
        ContainsMeansAncestor(h, top, n);
        ValueElsewhere(live, p, t, n, Start(h, n), Span(h, n));
      }
    }
  }

  /** Writing the full length back makes the array agree with one block less. */
  lemma MarkFree(a: seq<int>, live: Live, n: int, top: int)
    requires IsNode(top, n) && Agrees(a, live[Start(top, n) := Span(top, n)], n, 1)
    requires Start(top, n) !in live && LiveOk(live[Start(top, n) := Span(top, n)], n)
    ensures Agrees(a[top - 1 := Span(top, n)], live, n, top)
  {
    var p, t := Start(top, n), Span(top, n);
    NodeFacts(top, n);
    forall h | IsNode(h, n) && !ProperAncestor(h, top)
      ensures a[top - 1 := t][h - 1] == NodeValue(live, h, n)
    {
      if h == top {
        ValueAt(live, p, t, n);
      } else {
        NodeFacts(h, n);
        ContainsMeansAncestor(h, top, n);
        ValueElsewhere(live, p, t, n, Start(h, n), Span(h, n));
      }
    }
  }

  lemma ClimbStep(a: seq<int>, live: Live, n: int, top: int)
    requires IsNode(top, n) && top > 1 && Agrees(a, live, n, top)
    ensures IsNode(top / 2, n)
    ensures Agrees(a[top / 2 - 1 := NodeValue(live, top / 2, n)], live, n, top / 2)
  {
  }

  /** The two entries below node p. */
  lemma ChildEntries(a: seq<int>, live: Live, n: int, top: int, p: int)
    requires IsNode(p, n) && p < n && Agrees(a, live, n, top)
    requires !ProperAncestor(2 * p, top) && !ProperAncestor(2 * p + 1, top)
    ensures Block(Start(p, n), Span(p, n)) && Span(p, n) > 1
    ensures a[2 * p - 1] == Value(live, Start(p, n), Span(p, n) / 2)
    ensures a[2 * p] == Value(live, Start(p, n) + Span(p, n) / 2, Span(p, n) / 2)
  {
    hide Agrees, Value;
    NodeFacts(p, n);
    Children(p, n);
    EntryOf(a, live, n, top, 2 * p);
    EntryOf(a, live, n, top, 2 * p + 1);
  }

  lemma EntryOf(a: seq<int>, live: Live, n: int, top: int, h: int)
    requires IsNode(h, n) && Agrees(a, live, n, top) && !ProperAncestor(h, top)
    ensures |a| == 2 * n - 1 && Span(h, n) >= 1 && a[h - 1] == Value(live, Start(h, n), Span(h, n))
  {
    NodeFacts(h, n);
  }

  /** A parent's entry from its children's, when no block covers the parent. */
  lemma ParentValue(a: seq<int>, live: Live, n: int, top: int)
    requires IsNode(top, n) && top > 1 && Agrees(a, live, n, top) && LiveOk(live, n)
    requires !Covered(live, Start(top / 2, n), Span(top / 2, n))
    ensures IsNode(top / 2, n) && top / 2 < n
    ensures var p, s := top / 2, Span(top / 2, n);
            && NodeValue(live, p, n)
               == (if a[2 * p - 1] + a[2 * p] == s then s else Max(a[2 * p - 1], a[2 * p]))
            && (!Vacant(live, Start(p, n), s) ==> NodeValue(live, p, n) == Max(a[2 * p - 1], a[2 * p]))
  {
    hide Block, Vacant, Inside, Covered, LiveOk, LargestFree, Value, Agrees;
    var p := top / 2;
    NodeFacts(p, n);
    NotAbove(2 * p, top);
    NotAbove(2 * p + 1, top);
    ChildEntries(a, live, n, top, p);
    Merge(live, n, Start(p, n), Span(p, n));
  }

  lemma {:induction false} NotAbove(h: int, top: int)
    requires 1 <= top && top / 2 < h
    ensures !ProperAncestor(h, top)
  {
    if AncestorOrSelf(h, top / 2) {
      AncestorIsSmaller(h, top / 2);
    }
  }

  lemma {:induction false} AncestorIsSmaller(a: int, h: int)
    requires AncestorOrSelf(a, h)
    ensures a <= h
    decreases h
  {
    if a != h {
      AncestorIsSmaller(a, h / 2);
    }
  }

  lemma {:induction false} NodeOfIndexZero(n: int)
    requires IsPow2(n)
    ensures IsNode(1, n) && forall h :: !ProperAncestor(h, 1)
  {
  }

  // ----- initialisation

  /** Spans halve exactly when the 1-based node number reaches a power of two. */
  lemma {:induction false} SpanNext(h: int, n: int)
    requires h >= 2
    ensures Span(h, n) == if IsPow2(h) then Span(h - 1, n) / 2 else Span(h - 1, n)
  {
    if h > 2 {
      if h % 2 == 0 {
        assert (h - 1) / 2 == h / 2 - 1;
        SpanNext(h / 2, n);
      } else {
        assert (h - 1) / 2 == h / 2;
      }
    }
  }

  lemma NoBlocks(h: int, n: int)
    requires IsNode(h, n)
    ensures NodeValue(map[], h, n) == Span(h, n)
  {
    NodeFacts(h, n);
    assert Vacant(map[], Start(h, n), Span(h, n));
  }

  // ----- the descent

  /** What the search for a node of the wanted size keeps. */
  ghost predicate OnTheWay(live: Live, n: int, h: int, want: int) {
    && IsNode(h, n)
    && Span(h, n) >= 1
    && want <= Span(h, n)
    && want <= LargestFree(live, Start(h, n), Span(h, n))
    && !Inside(live, Start(h, n), Span(h, n))
    && Choose(live, 0, n, want) == Choose(live, Start(h, n), Span(h, n), want)
  }

  lemma StartOnTheWay(a: seq<int>, live: Live, n: int, want: int)
    requires IsPow2(n) && LiveOk(live, n) && Agrees(a, live, n, 1) && 1 <= want <= a[0]
    ensures OnTheWay(live, n, 1, want)
  {
    RootValue(a, live, n);
  }

  /** The root's entry is the longest free run of the whole heap. */
  lemma RootValue(a: seq<int>, live: Live, n: int)
    requires IsPow2(n) && LiveOk(live, n) && Agrees(a, live, n, 1)
    ensures !Inside(live, 0, n) && a[0] == LargestFree(live, 0, n)
  {
    NodeOfIndexZero(n);
    assert a[1 - 1] == NodeValue(live, 1, n);
    forall p | p in live
      ensures !(Within(0, n, p, live[p]) && n < live[p])
    {
      assert Sound(live, n, p);
    }
  }

  lemma GoDown(a: seq<int>, live: Live, n: int, h: int, want: int)
    requires LiveOk(live, n) && Agrees(a, live, n, 1) && IsPow2(want)
    requires OnTheWay(live, n, h, want) && Span(h, n) != want
    ensures h < n && IsNode(2 * h, n) && IsNode(2 * h + 1, n) && Span(2 * h, n) == Span(h, n) / 2
    ensures var left, right := a[2 * h - 1], a[2 * h];
            var goLeft := if left <= right then left >= want else right < want;
            OnTheWay(live, n, if goLeft then 2 * h else 2 * h + 1, want)
  {
    hide Block, Vacant, Inside, Covered, LiveOk, LargestFree, Choose, GoLeft, Value;
    NodeFacts(h, n);
    DescendStep(live, n, Start(h, n), Span(h, n), want);
    NodeOfIndexZero(n);
    Children(h, n);
    ChildEntries(a, live, n, 1, h);
    HalfwayDown(live, n, Start(h, n), Span(h, n), want, a[2 * h - 1], a[2 * h]);
  }

  lemma HalfwayDown(live: Live, n: int, o: int, s: int, want: int, left: int, right: int)
    requires LiveOk(live, n) && Block(o, s) && s > 1 && s != want && !Covered(live, o, s)
    requires left == Value(live, o, s / 2) && right == Value(live, o + s / 2, s / 2)
    requires LargestFree(live, o, s / 2) >= want || LargestFree(live, o + s / 2, s / 2) >= want
    ensures var goLeft := if left <= right then left >= want else right < want;
            var o' := if goLeft then o else o + s / 2;
            && want <= LargestFree(live, o', s / 2)
            && !Inside(live, o', s / 2)
            && Choose(live, o, s, want) == Choose(live, o', s / 2, want)
  {
    hide Block, Vacant, Inside, LiveOk, LargestFree;
    Merge(live, n, o, s);
    HalvesNotInside(live, n, o, s);
  }

  lemma Arrive(live: Live, n: int, h: int, want: int)
    requires LiveOk(live, n) && OnTheWay(live, n, h, want) && Span(h, n) == want
    ensures Start(h, n) >= 0 && FreeRun(live, n, Start(h, n), want)
    ensures Start(h, n) == Choose(live, 0, n, want) && want <= LargestFree(live, 0, n)
    ensures (h * want) - n == Start(h, n)
    ensures Start(h, n) !in live && LiveOk(live[Start(h, n) := want], n)
  {
    NodeFacts(h, n);
    StartFormula(h, n);
    AddKeepsOk(live, n, Start(h, n), want);
    WholeBlock(n);
    BlockParts(Start(h, n), want);
    LargestFreeBound(live, 0, n, Start(h, n), want);
  }

  /** A root entry below the wanted size means that no run is long enough. */
  lemma NoRun(a: seq<int>, live: Live, n: int, want: int)
    requires IsPow2(n) && LiveOk(live, n) && Agrees(a, live, n, 1) && a[0] < want
    ensures want > LargestFree(live, 0, n)
    ensures forall p :: !FreeRun(live, n, p, want)
  {
    RootValue(a, live, n);
    WholeBlock(n);
    forall p | FreeRun(live, n, p, want)
      ensures false
    {
      LargestFreeBound(live, 0, n, p, want);
    }
  }

  // ----- the way back up

  /** The array is right except above node top, which contains the changed block p .. p+t. */
  ghost predicate Climbing(a: seq<int>, live: Live, n: int, top: int, p: int, t: int) {
    && IsNode(top, n)
    && Agrees(a, live, n, top)
    && Within(p, t, Start(top, n), Span(top, n))
    && t <= Span(top, n)
  }

  /** What the loop that ends buddyAlloc keeps. */
  ghost predicate RisingUsed(a: seq<int>, before: Live, n: int, top: int, p: int, t: int) {
    && p !in before
    && LiveOk(before[p := t], n)
    && Climbing(a, before[p := t], n, top, p, t)
  }

  lemma StartRisingUsed(a: seq<int>, before: Live, n: int, top: int, p: int, t: int)
    requires IsNode(top, n) && Agrees(a, before, n, 1)
    requires p == Start(top, n) && t == Span(top, n)
    requires p !in before && LiveOk(before[p := t], n)
    ensures top <= |a| && RisingUsed(a[top - 1 := 0], before, n, top, p, t)
  {
    MarkLive(a, before, n, top);
  }

  /** One turn of that loop. */
  lemma RiseUsed(a: seq<int>, before: Live, n: int, top: int, up: int, p: int, t: int)
    requires top > 1 && 2 * up <= top <= 2 * up + 1 && RisingUsed(a, before, n, top, p, t)
    ensures 0 < up && 2 * up < |a|
    ensures RisingUsed(a[up - 1 := Max(a[2 * up - 1], a[2 * up])], before, n, up, p, t)
  {
    hide Vacant, Covered, LiveOk, Agrees, NodeValue, Value;
    LengthIs(a, before[p := t], n, top);
    Up(before, p, t, n, top);
    ParentValue(a, before[p := t], n, top);
    ClimbStep(a, before[p := t], n, top);
  }

  lemma EndRisingUsed(a: seq<int>, before: Live, n: int, p: int, t: int)
    requires RisingUsed(a, before, n, 1, p, t)
    ensures Agrees(a, before[p := t], n, 1) && LiveOk(before[p := t], n)
  {
  }

  lemma LengthIs(a: seq<int>, live: Live, n: int, top: int)
    requires Agrees(a, live, n, top)
    ensures |a| == 2 * n - 1
  {
  }

  /** The value that buddyFree writes into a node with entries l and r below it. */
  function Merged(l: int, r: int, s: int): int {
    if l + r == s then s else Max(l, r)
  }

  /** What the loop that ends buddyFree keeps; s is its nodeSize. */
  ghost predicate RisingFreed(a: seq<int>, live: Live, n: int, top: int, s: int, p: int, t: int) {
    && p !in live
    && LiveOk(live[p := t], n)
    && LiveOk(live, n)
    && Climbing(a, live, n, top, p, t)
    && s == Span(top, n)
  }

  lemma StartRisingFreed(a: seq<int>, full: Live, n: int, top: int, p: int, t: int)
    requires IsNode(top, n) && Agrees(a, full, n, 1) && LiveOk(full, n)
    requires p == Start(top, n) && t == Span(top, n)
    requires p in full && full[p] == t
    ensures top <= |a| && RisingFreed(a[top - 1 := t], full - {p}, n, top, t, p, t)
  {
    var live := full - {p};
    assert live[p := t] == full;
    assert Sound(full, n, p);
    ValueAt(live, p, t, n);
    MarkFree(a, live, n, top);
  }

  /** One turn of that loop. */
  lemma RiseFreed(a: seq<int>, live: Live, n: int, top: int, up: int, s: int, p: int, t: int)
    requires top > 1 && 2 * up <= top <= 2 * up + 1 && RisingFreed(a, live, n, top, s, p, t)
    ensures 0 < up && 2 * up < |a|
    ensures RisingFreed(a[up - 1 := Merged(a[2 * up - 1], a[2 * up], 2 * s)], live, n, up, 2 * s, p, t)
  {
    hide Vacant, Covered, LiveOk, Agrees, NodeValue, Value;
    LengthIs(a, live, n, top);
    Up(live, p, t, n, top);
    ParentValue(a, live, n, top);
    ClimbStep(a, live, n, top);
    Children(up, n);
  }

  lemma EndRisingFreed(a: seq<int>, live: Live, n: int, s: int, p: int, t: int)
    requires RisingFreed(a, live, n, 1, s, p, t)
    ensures Agrees(a, live, n, 1) && LiveOk(live, n)
  {
  }

  // ----- the search for the node of a live block

  /** Node h covers cell k and does not reach beyond the live block that holds k. */
  ghost predicate Towards(live: Live, n: int, h: int, k: int) {
    && IsNode(h, n)
    && Start(h, n) <= k < Start(h, n) + Span(h, n)
    && forall p | Holds(live, p, k) :: Within(Start(h, n), Span(h, n), p, live[p])
  }

  lemma StartTowards(live: Live, n: int, k: int)
    requires IsPow2(n) && 0 <= k < n
    ensures Towards(live, n, n + k, k)
  {
    LeafNode(k, n);
  }

  /** A nonzero entry: the node is a proper part of k's block, or k is in no live block. */
  lemma NotYet(a: seq<int>, live: Live, n: int, h: int, k: int)
    requires LiveOk(live, n) && Agrees(a, live, n, 1) && Towards(live, n, h, k)
    requires |a| == 2 * n - 1 && a[h - 1] != 0
    ensures h == 1 ==> Release(live, k) == live
    ensures h > 1 ==> Towards(live, n, h / 2, k) && Span(h / 2, n) == 2 * Span(h, n)
  {
    hide Block, LiveOk, LargestFree, Value, Span, Start;
    EntryIs(a, live, n, h);
    if h > 1 {
      Children(h / 2, n);
      AncestorContains(h / 2, h, n);
    }
    forall p | Holds(live, p, k)
      ensures h > 1 && Within(Start(h / 2, n), Span(h / 2, n), p, live[p])
    {
      NonzeroIsInside(live, n, Start(h, n), Span(h, n), p);
      ParentInBlock(live, n, h, p);
    }
    if h == 1 {
      ReleaseNothing(live, k);
    }
  }

  lemma EntryIs(a: seq<int>, live: Live, n: int, h: int)
    requires IsNode(h, n) && Agrees(a, live, n, 1)
    ensures Block(Start(h, n), Span(h, n))
    ensures a[h - 1] == Value(live, Start(h, n), Span(h, n))
  {
    NodeOfIndexZero(n);
    NodeFacts(h, n);
    assert a[h - 1] == NodeValue(live, h, n);
  }

  lemma ParentInBlock(live: Live, n: int, h: int, p: int)
    requires LiveOk(live, n) && IsNode(h, n) && p in live
    requires Within(Start(h, n), Span(h, n), p, live[p]) && Span(h, n) < live[p]
    ensures h > 1 && Within(Start(h / 2, n), Span(h / 2, n), p, live[p])
  {
    assert Sound(live, n, p);
    NodeFacts(h, n);
    assert h > 1;
    NodeFacts(h / 2, n);
    ParentWithin(h, n, p, live[p]);
  }

  lemma ParentWithin(h: int, n: int, p: int, t: int)
    requires IsNode(h, n) && h > 1 && Block(p, t) && Block(Start(h, n), Span(h, n))
    requires Block(Start(h / 2, n), Span(h / 2, n))
    requires Within(Start(h, n), Span(h, n), p, t) && Span(h, n) < t
    ensures Within(Start(h / 2, n), Span(h / 2, n), p, t)
  {
    hide Block, Span, Start;
    BlockGap(Start(h, n), Span(h, n), p, t);
    Children(h / 2, n);
    LaminarHalf(Start(h / 2, n), Span(h / 2, n), p, t);
  }

  /** A zero entry on the way up is the node of the live block that holds k. */
  lemma Found(a: seq<int>, live: Live, n: int, h: int, k: int) returns (p: int)
    requires LiveOk(live, n) && Agrees(a, live, n, 1) && Towards(live, n, h, k)
    requires |a| == 2 * n - 1 && a[h - 1] == 0
    ensures Holds(live, p, k) && Start(h, n) == p && Span(h, n) == live[p]
    ensures Release(live, k) == live - {p}
  {
    hide Block, LiveOk, LargestFree, Value, Span, Start, Release;
    EntryIs(a, live, n, h);
    p := ZeroIsBlock(live, n, Start(h, n), Span(h, n), k);
    ReleaseIsRemove(live, n, k, p);
  }

  class BuddyTree {
    var size: int
    var longest: array<int>
    ghost var live: Live

    ghost predicate Valid()
      reads this, longest
    {
      && IsPow2(size)
      && LiveOk(live, size)
      && Agrees(longest[..], live, size, 1)
    }

    /** buddyInit */
    constructor (n: int)
      requires IsPow2(n)
      ensures Valid() && fresh(longest) && size == n && live == map[]
    {
      size := n;
      live := map[];
      var a := new int[2 * n - 1];
      longest := a;
      new;
      var nodeSize := n * 2;
      for i := 0 to n * 2 - 1
        invariant a == longest && fresh(a) && size == n && live == map[]
        invariant nodeSize == if i == 0 then 2 * n else Span(i, n)
        invariant forall j | 0 <= j < i :: a[j] == Span(j + 1, n)
      {
        MacroMeansPow2(i + 1);
        if IsPowerOf2Macro(i + 1) {
          nodeSize := nodeSize / 2;
        }
        if i > 0 {
          SpanNext(i + 1, n);
        }
        a[i] := nodeSize;
      }
      forall h | IsNode(h, n)
        ensures longest[h - 1] == NodeValue(live, h, n)
      {
        NoBlocks(h, n);
      }
    }

    /** The loop of buddyAlloc that walks down to a node of the wanted size. */
    method FindNode(want: int) returns (index: int, nodeSize: int)
      requires Valid() && IsPow2(want) && want <= longest[0]
      ensures index >= 0 && OnTheWay(live, size, index + 1, want)
      ensures nodeSize == Span(index + 1, size) == want
    {
      hide Block, Vacant, Inside, Covered, LiveOk, LargestFree, Choose, GoLeft, Value, Start, NodeValue;
      StartOnTheWay(longest[..], live, size, want);
      index := 0;
      nodeSize := size;
      while nodeSize != want
        invariant index >= 0 && OnTheWay(live, size, index + 1, want)
        invariant nodeSize == Span(index + 1, size)
        decreases nodeSize
      {
        GoDown(longest[..], live, size, index + 1, want);
        var left := longest[2 * index + 1];
        var right := longest[2 * index + 2];
        if left <= right {
          if left >= want { index := 2 * index + 1; } else { index := 2 * index + 2; }
        } else {
          if right >= want { index := 2 * index + 2; } else { index := 2 * index + 1; }
        }
        nodeSize := nodeSize / 2;
      }
    }

    /** buddyAlloc */
    method Alloc(request: int) returns (offset: int)
      requires Valid() && request <= 0x4000_0000
      modifies this`live, longest
      ensures Valid()
      ensures offset == -1 <==> forall p :: !FreeRun(old(live), size, p, Rounded(request))
      ensures offset == -1 ==> longest[..] == old(longest[..])
      ensures live == Step(old(live), size, Allocate(request))
      ensures offset != -1 ==>
        && FreeRun(old(live), size, offset, Rounded(request))
        && offset == Choose(old(live), 0, size, Rounded(request))
        && live == old(live)[offset := Rounded(request)]
    {
      hide Vacant, LiveOk, LargestFree, Choose, Agrees, FixSize, And, IsPow2, FreeRun, Rounded, BuddyTree.Valid;
      var want := request;
      if want <= 0 {
        want := 1;
      } else if !IsPowerOf2Macro(want) {
        want := FixSize(want);
      }
      RoundedIs(request, want);
      offset := AllocRun(want);
    }

    /** buddyAlloc for a size that is a power of two. */
    method AllocRun(want: int) returns (offset: int)
      requires Valid() && IsPow2(want)
      modifies this`live, longest
      ensures Valid()
      ensures offset == -1 ==>
        && (forall p :: !FreeRun(old(live), size, p, want)) && want > LargestFree(old(live), 0, size)
        && live == old(live) && longest[..] == old(longest[..])
      ensures offset != -1 ==>
        && FreeRun(old(live), size, offset, want) && want <= LargestFree(old(live), 0, size)
        && offset == Choose(old(live), 0, size, want) && live == old(live)[offset := want]
    {
      assert longest.Length == 2 * size - 1;
      hide Block, Vacant, Inside, Covered, LiveOk, LargestFree, Choose, GoLeft, Value, Start, Span, NodeValue;
      hide Agrees, OnTheWay, FreeRun, IsPow2;
      offset := -1;
      if longest[0] < want {
        NoRun(longest[..], live, size, want);
      } else {
        var index, nodeSize := FindNode(want);
        Arrive(live, size, index + 1, want);
        offset := (index + 1) * nodeSize - size;
        MarkUsed(index, offset, want);
      }
    }

    /** buddyTree.longest[index] = value */
    method SetEntry(index: int, value: int)
      requires 0 <= index < longest.Length
      modifies longest
      ensures longest[..] == old(longest[..])[index := value]
    {
      longest[index] := value;
    }

    /** The end of buddyAlloc: mark the node as taken and carry that up to the root. */
    method MarkUsed(start: int, ghost p: int, ghost t: int)
      requires Valid() && start >= 0 && IsNode(start + 1, size)
      requires Start(start + 1, size) == p && Span(start + 1, size) == t
      requires p !in live && LiveOk(live[p := t], size)
      modifies this`live, longest
      ensures Valid() && live == old(live)[p := t]
    {
      ghost var before := live;
      hide LiveOk, Agrees, Span, Start, IsNode, IsPow2, RisingUsed;
      StartRisingUsed(longest[..], before, size, start + 1, p, t);
      live := live[p := t];
      SetEntry(start, 0);
      var index := start;
      while index != 0
        invariant live == before[p := t]
        invariant index >= 0 && RisingUsed(longest[..], before, size, index + 1, p, t)
        decreases index
      {
        ghost var top := index + 1;
        index := (index + 1) / 2 - 1;
        RiseUsed(longest[..], before, size, top, index + 1, p, t);
        SetEntry(index, Max(longest[2 * index + 1], longest[2 * index + 2]));
      }
      EndRisingUsed(longest[..], before, size, p, t);
    }

    /** buddyFree */
    method Free(offset: int)
      requires Valid() && 0 <= offset < size
      modifies this`live, longest
      ensures Valid() && live == Step(old(live), size, Request.Free(offset)) == Release(old(live), offset)
      ensures (forall p :: !Holds(old(live), p, offset)) ==> longest[..] == old(longest[..])
    {
      assert longest.Length == 2 * size - 1;
      hide Block, Vacant, Inside, Covered, LiveOk, LargestFree, Value, NodeValue, Agrees, Span, Start;
      LeafNode(offset, size);
      StartTowards(live, size, offset);
      var nodeSize := 1;
      var index := offset + size - 1;
      while longest[index] != 0
        invariant live == old(live) && longest[..] == old(longest[..])
        invariant 0 <= index < 2 * size - 1
        invariant nodeSize == Span(index + 1, size)
        invariant Towards(live, size, index + 1, offset)
        decreases index
      {
        NotYet(longest[..], live, size, index + 1, offset);
        nodeSize := nodeSize * 2;
        if index == 0 {
          return;
        }
        index := (index + 1) / 2 - 1;
      }
      ghost var p := Found(longest[..], live, size, index + 1, offset);
      MarkUnused(index, p, nodeSize);
    }

    /** The end of buddyFree: restore the node's length and merge on the way up to the root. */
    method MarkUnused(start: int, ghost p: int, t: int)
      requires Valid() && start >= 0 && IsNode(start + 1, size)
      requires Start(start + 1, size) == p && Span(start + 1, size) == t
      requires p in live && live[p] == t
      modifies this`live, longest
      ensures Valid() && live == old(live) - {p}
    {
      hide LiveOk, Agrees, Span, Start, IsNode, IsPow2, RisingFreed;
      StartRisingFreed(longest[..], live, size, start + 1, p, t);
      live := live - {p};
      SetEntry(start, t);
      var index := start;
      var nodeSize := t;
      while index != 0
        invariant live == old(live) - {p}
        invariant index >= 0 && RisingFreed(longest[..], live, size, index + 1, nodeSize, p, t)
        decreases index
      {
        ghost var top := index + 1;
        index := (index + 1) / 2 - 1;
        RiseFreed(longest[..], live, size, top, index + 1, nodeSize, p, t);
        nodeSize := nodeSize * 2;
        var leftLongest := longest[2 * index + 1];
        var rightLongest := longest[2 * index + 2];
        SetEntry(index, if leftLongest + rightLongest == nodeSize then nodeSize
                        else Max(leftLongest, rightLongest));
      }
      EndRisingFreed(longest[..], live, size, nodeSize, p, t);
    }

    /** A history of calls. */
    method Replay(rs: seq<Request>)
      requires Valid() && CallsInRange(rs, size)
      modifies this`live, longest
      ensures Valid() && live == Run(old(live), size, rs)
    {
      for i := 0 to |rs|
        invariant Valid() && Run(live, size, rs[i..]) == Run(old(live), size, rs)
      {
        assert rs[i..][0] == rs[i] && rs[i..][1..] == rs[i + 1..] && rs[i] in rs;
        match rs[i]
        case Allocate(request) =>
          var offset := Alloc(request);
        case Free(cell) => Free(cell);
      }
    }

  }

  lemma RoundedIs(request: int, want: int)
    requires request <= 0x4000_0000
    requires want == if request <= 0 then 1 else if !IsPowerOf2Macro(request) then FixSize(request) else request
    ensures want == Rounded(request) && want >= 1 && IsPow2(want)
  {
    if request > 0 {
      MacroMeansPow2(request);
      FixSizeIsCeiling(request, 1);
      if IsPow2(request) {
        FixSizeOfPow2(request);
      }
    }
  }

  /** The parent of a node that contains a live block contains it properly. */
  lemma Up(before: Live, p: int, t: int, n: int, top: int)
    requires IsNode(top, n) && top > 1 && p !in before && LiveOk(before[p := t], n)
    requires Within(p, t, Start(top, n), Span(top, n)) && t <= Span(top, n)
    ensures IsNode(top / 2, n)
    ensures Within(p, t, Start(top / 2, n), Span(top / 2, n)) && t < Span(top / 2, n)
    ensures !Covered(before[p := t], Start(top / 2, n), Span(top / 2, n))
    ensures !Covered(before, Start(top / 2, n), Span(top / 2, n))
    ensures !Vacant(before[p := t], Start(top / 2, n), Span(top / 2, n))
  {
    AncestorContains(top / 2, top, n);
    AboveNotCovered(before, p, t, n, Start(top / 2, n), Span(top / 2, n));
  }

  // ----- histories

  /** What the callers in kernel/heap.c and user/malloc.c see to: cells of the heap, counts that fixSize can round. */
  predicate CallsInRange(rs: seq<Request>, n: int) {
    forall r | r in rs :: match r case Allocate(size) => size <= 0x4000_0000 case Free(cell) => 0 <= cell < n
  }

  /**
   Two histories that leave the same blocks live leave the same array, in fact one that only depends on
   these blocks.
   */
  method SameBlocksSameArray(n: int, first: seq<Request>, second: seq<Request>) returns (a: seq<int>, b: seq<int>)
    requires IsPow2(n) && CallsInRange(first, n) && CallsInRange(second, n)
    ensures a == Canonical(Run(map[], n, first), n) && b == Canonical(Run(map[], n, second), n)
    ensures Run(map[], n, first) == Run(map[], n, second) ==> a == b
  {
    var s := new BuddyTree(n);
    s.Replay(first);
    a := s.longest[..];
    EntriesAreCanonical(a, s.live, n);
    var t := new BuddyTree(n);
    t.Replay(second);
    b := t.longest[..];
    EntriesAreCanonical(b, t.live, n);
  }

  /**
   After any history, releasing every block, in any order and through any of its cells, restores the
   array buddyInit wrote.
   */
  method ReleasingAllRestores(n: int, rs: seq<Request>, cells: seq<int>) returns (a: seq<int>)
    requires IsPow2(n) && CallsInRange(rs, n) && forall k | k in cells :: 0 <= k < n
    requires var live := Run(map[], n, rs);
             forall p | p in live :: exists i :: 0 <= i < |cells| && Holds(live, p, cells[i])
    ensures a == InitialArray(n)
  {
    var t := new BuddyTree(n);
    t.Replay(rs);
    ghost var live := t.live;
    for i := 0 to |cells|
      invariant t.Valid() && t.size == n && fresh(t) && fresh(t.longest)
      invariant Run(t.live, n, Releases(cells[i..])) == Run(live, n, Releases(cells))
    {
      assert cells[i..][0] == cells[i] && cells[i..][1..] == cells[i + 1..] && cells[i] in cells;
      assert Releases(cells[i..])[1..] == Releases(cells[i + 1..]);
      t.Free(cells[i]);
    }
    a := t.longest[..];
    AllReleased(live, n, cells, a);
  }
}
