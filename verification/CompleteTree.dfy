/**
 A complete binary tree over n leaves (n a power of two) kept in an array.
 Node 1 is the root and the children of node h are 2h and 2h+1. Node h stands
 for the leaves Start(h) .. Start(h) + Span(h).
 The buddy heap stores node h at array index h-1, the frame allocator at index h.
 */
module CompleteTree {
  import opened Bits

  /** An aligned run of leaves whose length is a power of two. */
  predicate Block(o: int, s: int)
    decreases s
  {
    o >= 0 && (s == 1 || (s > 1 && s % 2 == 0 && o % 2 == 0 && Block(o / 2, s / 2)))
  }

  predicate IsNode(h: int, n: int) {
    IsPow2(n) && 1 <= h < 2 * n
  }

  function Span(h: int, n: int): int
    requires h >= 1
  {
    if h == 1 then n else Span(h / 2, n) / 2
  }

  function Start(h: int, n: int): int
    requires h >= 1
  {
    if h == 1 then 0 else Start(h / 2, n) + (h % 2) * Span(h, n)
  }

  predicate AncestorOrSelf(a: int, h: int)
    decreases h
  {
    a == h || (h > 1 && AncestorOrSelf(a, h / 2))
  }

  predicate ProperAncestor(a: int, h: int) {
    h > 1 && AncestorOrSelf(a, h / 2)
  }

  predicate Within(o: int, s: int, p: int, t: int) {
    p <= o && o + s <= p + t
  }

  predicate Disjoint(o: int, s: int, p: int, t: int) {
    o + s <= p || p + t <= o
  }

  // ----- aligned blocks

  lemma {:induction false} BlockParts(o: int, s: int)
    requires Block(o, s)
    ensures IsPow2(s) && o % s == 0
  {
    if s > 1 {
      BlockParts(o / 2, s / 2);
      ModTwice(o / 2, s / 2);
    }
  }

  lemma ModTwice(a: int, b: int)
    requires b > 0 && a >= 0 && a % b == 0
    ensures (2 * a) % (2 * b) == 0
  {
    var q := a / b;
    assert 2 * a == q * (2 * b) + 0;
    DivUnique(2 * a, 2 * b, q, 0);
  }

  lemma DoubleBlock(a: int, r: int)
    requires Block(a, r)
    ensures Block(2 * a, 2 * r)
  {
    assert 2 * a / 2 == a && 2 * r / 2 == r;
  }

  lemma {:induction false} TwoHalves(o: int, s: int, q: int)
    requires Block(o, s) && s == 2 * q && q >= 1
    ensures Block(o, q) && Block(o + q, q)
  {
    if q > 1 {
      var a, r := o / 2, q / 2;
      assert o == 2 * a && s / 2 == q && Block(a, q) && q == 2 * r;
      TwoHalves(a, q, r);
      hide Block;
      DoubleBlock(a, r);
      DoubleBlock(a + r, r);
    }
  }

  /** A block falls into two half blocks. */
  lemma BlockHalves(o: int, s: int)
    requires Block(o, s) && s > 1
    ensures Block(o, s / 2) && Block(o + s / 2, s / 2)
  {
    TwoHalves(o, s, s / 2);
  }

  /** Two aligned blocks nest or do not meet. */
  lemma {:induction false} Laminar(o: int, s: int, p: int, t: int)
    requires Block(o, s) && Block(p, t) && s <= t
    ensures Within(o, s, p, t) || Disjoint(o, s, p, t)
    ensures s == t && !Disjoint(o, s, p, t) ==> o == p
    decreases s + t
  {
    if s > 1 {
      Laminar(o / 2, s / 2, p / 2, t / 2);
    }
  }

  /** A strictly larger block that meets a block contains its parent block too. */
  lemma LaminarHalf(o: int, s: int, p: int, t: int)
    requires Block(o, s) && s > 1 && Block(p, t) && s <= t
    requires !Disjoint(o, s / 2, p, t) || !Disjoint(o + s / 2, s / 2, p, t)
    ensures Within(o, s, p, t)
  {
    Laminar(o, s, p, t);
  }

  // ----- nodes

  lemma {:induction false} NodeFacts(h: int, n: int)
    requires IsNode(h, n)
    ensures Block(Start(h, n), Span(h, n))
    ensures Within(Start(h, n), Span(h, n), 0, n)
    ensures Span(h, n) == 1 <==> h >= n
  {
    if h == 1 {
      WholeBlock(n);
    } else {
      hide Block;
      NodeFacts(h / 2, n);
      BlockHalves(Start(h / 2, n), Span(h / 2, n));
      SpanLevel(h, n);
    }
  }

  lemma {:induction false} WholeBlock(n: int)
    requires IsPow2(n)
    ensures Block(0, n)
  {
    if n > 1 {
      WholeBlock(n / 2);
    }
  }

  lemma {:induction false} SpanLevel(h: int, n: int)
    requires IsNode(h, n)
    ensures Span(h, n) >= 1 && (Span(h, n) == 1 <==> h >= n)
    decreases h
  {
    if h > 1 && n > 1 {
      SpanLevel(h / 2, n / 2);
      SpanScale(h / 2, n / 2);
    }
  }

  lemma {:induction false} SpanScale(h: int, n: int)
    requires n >= 1 && h >= 1
    ensures Span(2 * h, 2 * n) == Span(h, n) && Span(2 * h + 1, 2 * n) == Span(h, n)
  {
    if h > 1 {
      SpanScale(h / 2, n);
    }
  }

  /** The closed form behind offset = (index + 1) * nodeSize - size. */
  lemma {:induction false} StartFormula(h: int, n: int)
    requires IsNode(h, n)
    ensures h * Span(h, n) - n == Start(h, n)
  {
    if h > 1 {
      StartFormula(h / 2, n);
      SpanLevel(h / 2, n);
      Children(h / 2, n);
      FormulaStep(h / 2, h % 2, Span(h, n), Span(h / 2, n));
    }
  }

  lemma FormulaStep(q: int, d: int, s: int, t: int)
    requires t == 2 * s
    ensures (2 * q + d) * s == q * t + d * s
  {
    assert q * t == 2 * (q * s);
  }

  /** Leaf number k sits at node n + k. */
  lemma {:induction false} LeafNode(k: int, n: int)
    requires IsPow2(n) && 0 <= k < n
    ensures IsNode(n + k, n) && Start(n + k, n) == k && Span(n + k, n) == 1
  {
    NodeFacts(n + k, n);
    StartFormula(n + k, n);
  }

  lemma {:induction false} Children(h: int, n: int)
    requires IsNode(h, n) && h < n
    ensures IsNode(2 * h, n) && IsNode(2 * h + 1, n)
    ensures Span(h, n) > 1 && Span(h, n) % 2 == 0
    ensures Span(2 * h, n) == Span(h, n) / 2 && Span(2 * h + 1, n) == Span(h, n) / 2
    ensures Start(2 * h, n) == Start(h, n)
    ensures Start(2 * h + 1, n) == Start(h, n) + Span(h, n) / 2
  {
    NodeFacts(h, n);
  }

  /** A node's leaves are among those of each of its ancestors. */
  lemma {:induction false} AncestorContains(a: int, h: int, n: int)
    requires IsNode(h, n) && 1 <= a && AncestorOrSelf(a, h)
    ensures a <= h && IsNode(a, n)
    ensures Within(Start(h, n), Span(h, n), Start(a, n), Span(a, n))
    ensures a != h ==> Span(h, n) < Span(a, n)
    decreases h
  {
    if a != h {
      AncestorContains(a, h / 2, n);
      SpanLevel(h / 2, n);
      Children(h / 2, n);
    }
  }

  /** Nodes that are not related have no leaf in common. */
  lemma {:induction false} UnrelatedDisjoint(a: int, h: int, n: int)
    requires IsNode(a, n) && IsNode(h, n)
    requires !AncestorOrSelf(a, h) && !AncestorOrSelf(h, a)
    ensures Disjoint(Start(a, n), Span(a, n), Start(h, n), Span(h, n))
    decreases a + h
  {
    NodeFacts(a, n);
    NodeFacts(h, n);
    if a < h {
      UnrelatedStep(a, h, n);
    } else {
      UnrelatedStep(h, a, n);
    }
  }

  lemma {:induction false} UnrelatedStep(a: int, h: int, n: int)
    requires IsNode(a, n) && IsNode(h, n) && a < h
    requires !AncestorOrSelf(a, h) && !AncestorOrSelf(h, a)
    ensures Disjoint(Start(a, n), Span(a, n), Start(h, n), Span(h, n))
    decreases a + h, 0
  {
    RootIsAncestor(h);
    RootIsAncestor(a);
    var p := h / 2;
    AncestorContains(p, h, n);
    if AncestorOrSelf(p, a) {
      ChildTowards(p, a);
      Children(p, n);
      SpanLevel(a, n);
    } else {
      if p < a {
        UnrelatedStep(p, a, n);
      } else {
        UnrelatedStep(a, p, n);
      }
    }
  }

  lemma {:induction false} RootIsAncestor(h: int)
    requires h >= 1
    ensures AncestorOrSelf(1, h)
  {
    if h > 1 {
      RootIsAncestor(h / 2);
    }
  }

  /** A proper descendant a of p that comes before p's right child is p's left child. */
  lemma {:induction false} ChildTowards(p: int, a: int)
    requires 1 <= p && AncestorOrSelf(p, a) && a != p
    ensures a >= 2 * p
  {
    if a / 2 != p {
      ChildTowards(p, a / 2);
    }
  }
}
