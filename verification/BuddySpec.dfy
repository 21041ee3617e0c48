/**
 What the buddy allocator's node array means. A heap of n cells is described by
 the map of its live blocks (first cell to length); every array entry is a
 function of that map, and allocation and release are updates of it.
 */
module BuddySpec {
  import opened Bits
  import opened CompleteTree

  type Live = map<int, int>

  function Max(a: int, b: int): int {
    if a > b then a else b
  }

  /** Live blocks are aligned powers of two, in bounds and pairwise disjoint. */
  ghost predicate LiveOk(live: Live, n: int) {
    && (forall p :: Sound(live, n, p))
    && (forall p, q :: Apart(live, p, q))
  }

  ghost predicate Sound(live: Live, n: int, p: int) {
    p in live ==> Block(p, live[p]) && live[p] >= 1 && p + live[p] <= n
  }

  ghost predicate Apart(live: Live, p: int, q: int) {
    p in live && q in live && p != q ==> Disjoint(p, live[p], q, live[q])
  }

  /** No cell of the run belongs to a live block. */
  ghost predicate Vacant(live: Live, o: int, s: int) {
    forall p | p in live :: Disjoint(o, s, p, live[p])
  }

  /** The run lies in a live block. */
  ghost predicate Covered(live: Live, o: int, s: int) {
    exists p :: p in live && Within(o, s, p, live[p])
  }

  /** The run is a proper part of a live block. */
  ghost predicate Inside(live: Live, o: int, s: int) {
    exists p :: p in live && Within(o, s, p, live[p]) && s < live[p]
  }

  /** The length of the longest aligned free run in an aligned run, or 0. */
  ghost function LargestFree(live: Live, o: int, s: int): (r: nat)
    requires s >= 1
    ensures r <= s
    ensures r == s <==> Vacant(live, o, s)
    decreases s
  {
    if Vacant(live, o, s) then s
    else if s == 1 then 0
    else Max(LargestFree(live, o, s / 2), LargestFree(live, o + s / 2, s / 2))
  }

  /** The entry of the node that stands for cells o .. o+s. */
  ghost function Value(live: Live, o: int, s: int): nat
    requires s >= 1
  {
    if Inside(live, o, s) then s else LargestFree(live, o, s)
  }

  /** Of two halves take the one whose longest free run is the shorter sufficient one. */
  ghost predicate GoLeft(live: Live, o: int, s: int, want: int)
    requires s > 1
  {
    var left := LargestFree(live, o, s / 2);
    var right := LargestFree(live, o + s / 2, s / 2);
    if left <= right then left >= want else right < want
  }

  /** The cell that allocation settles on: at every level the smaller sufficient half, left on a tie. */
  ghost function Choose(live: Live, o: int, s: int, want: int): int
    requires s >= 1
    decreases s
  {
    if s == want || s == 1 then o
    else
      if GoLeft(live, o, s, want) then Choose(live, o, s / 2, want) else Choose(live, o + s / 2, s / 2, want)
  }

  /** The live block that holds cell k, if any. */
  ghost predicate Holds(live: Live, p: int, k: int) {
    p in live && p <= k < p + live[p]
  }

  ghost function Release(live: Live, k: int): Live {
    map p | p in live && !Holds(live, p, k) :: live[p]
  }

  /** The block count that a request is rounded to. */
  function Rounded(size: int): int
    requires size <= 0x1_0000_0000
  {
    if size <= 0 then 1 else FixSize(size)
  }

  /** An aligned run of t cells with no live cell. */
  ghost predicate FreeRun(live: Live, n: int, p: int, t: int) {
    Block(p, t) && p + t <= n && Vacant(live, p, t)
  }

  datatype Request = Allocate(size: int) | Free(cell: int)

  /** What one call does to the live blocks. */
  ghost function Step(live: Live, n: int, r: Request): Live
    requires n >= 1
  {
    match r
    case Allocate(size) =>
      if size <= 0x4000_0000 && Rounded(size) <= LargestFree(live, 0, n)
      then live[Choose(live, 0, n, Rounded(size)) := Rounded(size)] else live
    case Free(cell) => Release(live, cell)
  }

  ghost function Run(live: Live, n: int, rs: seq<Request>): Live
    requires n >= 1
    decreases |rs|
  {
    if rs == [] then live else Run(Step(live, n, rs[0]), n, rs[1..])
  }

  function Releases(cells: seq<int>): seq<Request> {
    if cells == [] then [] else [Free(cells[0])] + Releases(cells[1..])
  }

  // ----- LargestFree really is the largest aligned free run

  lemma {:induction false} LargestFreeExists(live: Live, o: int, s: int) returns (p: int)
    requires Block(o, s) && LargestFree(live, o, s) > 0
    ensures Block(p, LargestFree(live, o, s)) && Within(p, LargestFree(live, o, s), o, s)
    ensures Vacant(live, p, LargestFree(live, o, s))
    decreases s
  {
    if Vacant(live, o, s) {
      p := o;
    } else {
      BlockHalves(o, s);
      if LargestFree(live, o, s / 2) == LargestFree(live, o, s) {
        p := LargestFreeExists(live, o, s / 2);
      } else {
        p := LargestFreeExists(live, o + s / 2, s / 2);
      }
    }
  }

  lemma {:induction false} LargestFreeBound(live: Live, o: int, s: int, p: int, t: int)
    requires Block(o, s) && Block(p, t) && Within(p, t, o, s) && Vacant(live, p, t)
    ensures t <= LargestFree(live, o, s)
    decreases s
  {
    assert t >= 1;
    hide Block, Vacant;
    if t < s {
      BlockHalves(o, s);
      WithinHalf(p, t, o, s);
      if Within(p, t, o, s / 2) {
        LargestFreeBound(live, o, s / 2, p, t);
      } else {
        LargestFreeBound(live, o + s / 2, s / 2, p, t);
      }
    } else {
      assert p == o && t == s;
    }
  }

  lemma WithinHalf(p: int, t: int, o: int, s: int)
    requires Block(p, t) && Block(o, s) && t < s && Within(p, t, o, s)
    ensures Within(p, t, o, s / 2) || Within(p, t, o + s / 2, s / 2)
  {
    BlockGap(p, t, o, s);
    BlockHalves(o, s);
    Laminar(p, t, o, s / 2);
    Laminar(p, t, o + s / 2, s / 2);
  }

  lemma BlockGap(p: int, t: int, o: int, s: int)
    requires Block(p, t) && Block(o, s) && t < s
    ensures t <= s / 2 && s % 2 == 0
  {
    BlockParts(p, t);
    BlockParts(o, s);
    Pow2Gap(t, s);
  }

  // ----- blocks and nodes

  lemma {:induction false} CoveredHasNoFree(live: Live, o: int, s: int)
    requires Block(o, s) && Covered(live, o, s)
    ensures LargestFree(live, o, s) == 0
    decreases s
  {
    var p :| p in live && Within(o, s, p, live[p]);
    assert !Disjoint(o, s, p, live[p]);
    if s > 1 {
      BlockHalves(o, s);
      assert Within(o, s / 2, p, live[p]) && Within(o + s / 2, s / 2, p, live[p]);
      CoveredHasNoFree(live, o, s / 2);
      CoveredHasNoFree(live, o + s / 2, s / 2);
    }
  }

  /** Below a node that no live block covers, nothing is inside a live block either. */
  lemma HalvesNotInside(live: Live, n: int, o: int, s: int)
    requires LiveOk(live, n) && Block(o, s) && s > 1 && !Covered(live, o, s)
    ensures !Inside(live, o, s)
    ensures !Inside(live, o, s / 2) && !Inside(live, o + s / 2, s / 2)
  {
    BlockHalves(o, s);
    forall p | p in live && s / 2 < live[p]
      ensures !Within(o, s / 2, p, live[p]) && !Within(o + s / 2, s / 2, p, live[p])
    {
      assert Sound(live, n, p);
      BlockGap(o, s / 2, p, live[p]);
      assert s <= live[p];
      if Within(o, s / 2, p, live[p]) || Within(o + s / 2, s / 2, p, live[p]) {
        LaminarHalf(o, s, p, live[p]);
      }
    }
  }

  /** How a node's entry follows from its two children's. */
  lemma Merge(live: Live, n: int, o: int, s: int)
    requires LiveOk(live, n) && Block(o, s) && s > 1 && !Covered(live, o, s)
    ensures var l, r := Value(live, o, s / 2), Value(live, o + s / 2, s / 2);
            && l == LargestFree(live, o, s / 2) && r == LargestFree(live, o + s / 2, s / 2)
            && Value(live, o, s) == LargestFree(live, o, s)
            && Value(live, o, s) == (if l + r == s then s else Max(l, r))
            && (!Vacant(live, o, s) ==> Value(live, o, s) == Max(l, r))
  {
    HalvesNotInside(live, n, o, s);
    FreeHalves(live, n, o, s);
    var l, r := LargestFree(live, o, s / 2), LargestFree(live, o + s / 2, s / 2);
    assert s == s / 2 + s / 2;
    assert LargestFree(live, o, s) == if Vacant(live, o, s) then s else Max(l, r);
    assert l + r == s <==> l == s / 2 && r == s / 2;
  }

  lemma FreeHalves(live: Live, n: int, o: int, s: int)
    requires LiveOk(live, n) && s > 1 && s % 2 == 0
    ensures Vacant(live, o, s) <==> Vacant(live, o, s / 2) && Vacant(live, o + s / 2, s / 2)
  {
    if Vacant(live, o, s / 2) && Vacant(live, o + s / 2, s / 2) {
      forall p | p in live
        ensures Disjoint(o, s, p, live[p])
      {
        assert Disjoint(o, s / 2, p, live[p]) && Disjoint(o + s / 2, s / 2, p, live[p]);
        assert Sound(live, n, p);
      }
    }
  }

  // ----- one block more or less

  lemma {:induction false} LargestFreeApart(live: Live, p: int, t: int, o: int, s: int)
    requires s >= 1 && t >= 1 && p !in live && Disjoint(o, s, p, t)
    ensures LargestFree(live[p := t], o, s) == LargestFree(live, o, s)
    decreases s
  {
    FreeApart(live, p, t, o, s);
    if s > 1 {
      LargestFreeApart(live, p, t, o, s / 2);
      LargestFreeApart(live, p, t, o + s / 2, s / 2);
    }
  }

  lemma FreeApart(live: Live, p: int, t: int, o: int, s: int)
    requires p !in live && Disjoint(o, s, p, t)
    ensures Vacant(live[p := t], o, s) <==> Vacant(live, o, s)
  {
    var more := live[p := t];
    if Vacant(more, o, s) {
      forall q | q in live
        ensures Disjoint(o, s, q, live[q])
      {
        assert q in more && more[q] == live[q];
      }
    }
  }

  /** Adding a block changes only the entries of the nodes that contain it. */
  lemma {:induction false} ValueElsewhere(live: Live, p: int, t: int, n: int, o: int, s: int)
    requires p !in live && LiveOk(live[p := t], n) && Block(o, s)
    requires !Within(p, t, o, s)
    ensures Value(live[p := t], o, s) == Value(live, o, s)
  {
    var more := live[p := t];
    assert more[p] == t && Sound(more, n, p);
    if Within(o, s, p, t) {
      assert Inside(more, o, s);
      forall q | q in live
        ensures Disjoint(o, s, q, live[q])
      {
        assert Apart(more, p, q);
      }
      assert Vacant(live, o, s);
    } else {
      if s <= t {
        Laminar(o, s, p, t);
      } else {
        Laminar(p, t, o, s);
      }
      LargestFreeApart(live, p, t, o, s);
      InsideApart(live, p, t, o, s);
    }
  }

  lemma InsideApart(live: Live, p: int, t: int, o: int, s: int)
    requires p !in live && !Within(o, s, p, t)
    ensures Inside(live[p := t], o, s) <==> Inside(live, o, s)
  {
    var more := live[p := t];
    if Inside(live, o, s) {
      var q :| q in live && Within(o, s, q, live[q]) && s < live[q];
      assert q in more && more[q] == live[q];
    }
  }

  /** The block itself: zero while live, its full length once free. */
  lemma ValueAt(live: Live, p: int, t: int, n: int)
    requires p !in live && LiveOk(live[p := t], n) && t >= 1
    ensures Value(live[p := t], p, t) == 0 && Value(live, p, t) == t
    ensures LiveOk(live, n) && Vacant(live, p, t)
  {
    var more := live[p := t];
    assert more[p] == t && Covered(more, p, t) && Sound(more, n, p);
    CoveredHasNoFree(more, p, t);
    forall q | q in more
      ensures !(Within(p, t, q, more[q]) && t < more[q])
    {
      if q != p {
        assert Apart(more, p, q);
      }
    }
    forall q | q in live
      ensures Disjoint(p, t, q, live[q])
    {
      assert q in more && more[q] == live[q];
      assert Apart(more, p, q);
    }
    forall q
      ensures Sound(live, n, q)
    {
      assert Sound(more, n, q);
    }
    forall q, r
      ensures Apart(live, q, r)
    {
      assert Apart(more, q, r);
    }
  }

  /** A node that properly contains a block is covered neither before nor after. */
  lemma AboveNotCovered(live: Live, p: int, t: int, n: int, o: int, s: int)
    requires p !in live && LiveOk(live[p := t], n)
    requires Within(p, t, o, s) && t < s
    ensures !Covered(live[p := t], o, s) && !Covered(live, o, s)
    ensures !Vacant(live[p := t], o, s)
  {
    var more := live[p := t];
    assert more[p] == t && Sound(more, n, p);
    assert !Disjoint(o, s, p, more[p]);
    forall q | q in more
      ensures !Within(o, s, q, more[q])
    {
      if q != p {
        assert Apart(more, p, q);
      }
    }
    forall q | q in live
      ensures !Within(o, s, q, live[q])
    {
      assert q in more;
    }
  }

  /** Adding a free aligned block keeps the live blocks well formed. */
  lemma AddKeepsOk(live: Live, n: int, p: int, t: int)
    requires LiveOk(live, n) && Block(p, t) && p + t <= n && Vacant(live, p, t)
    ensures p !in live && LiveOk(live[p := t], n)
  {
    assert p in live ==> Disjoint(p, t, p, live[p]);
    assert Sound(live, n, p);
    var more := live[p := t];
    forall q
      ensures Sound(more, n, q)
    {
      assert Sound(live, n, q);
    }
    forall q, r
      ensures Apart(more, q, r)
    {
      assert Apart(live, q, r);
    }
  }

  /** Each live block is released as a whole, whichever of its cells is named. */
  lemma ReleaseIsRemove(live: Live, n: int, k: int, p: int)
    requires LiveOk(live, n) && Holds(live, p, k)
    ensures Release(live, k) == live - {p} && p !in Release(live, k)
    ensures Release(live, k)[p := live[p]] == live
  {
    assert Sound(live, n, p);
    forall q | q in live && q != p
      ensures !Holds(live, q, k)
    {
      assert Apart(live, p, q);
    }
  }

  lemma ReleaseNothing(live: Live, k: int)
    requires forall p :: !Holds(live, p, k)
    ensures Release(live, k) == live
  {
  }

  // ----- reading sizes back from the entries

  /** A nonzero entry in a live block belongs to a proper part of the block. */
  lemma NonzeroIsInside(live: Live, n: int, o: int, s: int, p: int)
    requires LiveOk(live, n) && Block(o, s) && p in live && Within(o, s, p, live[p])
    requires Value(live, o, s) != 0
    ensures s < live[p]
  {
    assert Covered(live, o, s);
    CoveredHasNoFree(live, o, s);
    assert Inside(live, o, s);
    var q :| q in live && Within(o, s, q, live[q]) && s < live[q];
    assert Apart(live, p, q);
  }

  /** A zero entry that does not reach beyond its cells' blocks is the entry of a live block. */
  lemma ZeroIsBlock(live: Live, n: int, o: int, s: int, k: int) returns (p: int)
    requires LiveOk(live, n) && Block(o, s) && o <= k < o + s && Value(live, o, s) == 0
    requires forall q | Holds(live, q, k) :: Within(o, s, q, live[q])
    ensures Holds(live, p, k) && o == p && s == live[p]
  {
    if forall q | q in live :: !Holds(live, q, k) {
      LargestFreeBound(live, o, s, k, 1);
    }
    p :| p in live && Holds(live, p, k);
    assert Sound(live, n, p);
    assert !(Within(o, s, p, live[p]) && s < live[p]);
  }

  // ----- the descent

  /** One level of the descent never enters a half without a sufficient run. */
  lemma DescendStep(live: Live, n: int, o: int, s: int, want: int)
    requires LiveOk(live, n) && Block(o, s) && IsPow2(want) && want < s
    requires want <= LargestFree(live, o, s) && !Inside(live, o, s)
    ensures s > 1 && s % 2 == 0 && want <= s / 2
    ensures !Covered(live, o, s)
    ensures var l, r := LargestFree(live, o, s / 2), LargestFree(live, o + s / 2, s / 2);
            l >= want || r >= want
  {
    BlockParts(o, s);
    Pow2Gap(want, s);
    if Covered(live, o, s) {
      CoveredHasNoFree(live, o, s);
    }
    Merge(live, n, o, s);
  }

  /** The chosen run is an aligned free run of the wanted length. */
  lemma {:induction false} ChooseIsFree(live: Live, n: int, o: int, s: int, want: int)
    requires LiveOk(live, n) && Block(o, s) && IsPow2(want) && want <= s
    requires want <= LargestFree(live, o, s) && !Inside(live, o, s)
    ensures var c := Choose(live, o, s, want);
            Block(c, want) && Within(c, want, o, s) && Vacant(live, c, want)
    decreases s
  {
    if s != want {
      DescendStep(live, n, o, s, want);
      BlockHalves(o, s);
      HalvesNotInside(live, n, o, s);
      if GoLeft(live, o, s, want) {
        ChooseIsFree(live, n, o, s / 2, want);
      } else {
        ChooseIsFree(live, n, o + s / 2, s / 2, want);
      }
    }
  }

  /** Cell c is in the half of the block at p that serves the request more tightly. */
  ghost predicate Tighter(live: Live, c: int, p: int, t: int, want: int) {
    && t > 1
    && var l, r := LargestFree(live, p, t / 2), LargestFree(live, p + t / 2, t / 2);
       c < p + t / 2 <==> l >= want && (r < want || l <= r)
  }

  /**
   At every level above it the chosen run lies in the half that can serve the request and, if both can, in
   the one whose longest free run is shorter, the left one on a tie.
   */
  lemma {:induction false} ChoosesTighter(live: Live, n: int, o: int, s: int, want: int, p: int, t: int)
    requires LiveOk(live, n) && Block(o, s) && IsPow2(want) && want <= LargestFree(live, o, s) && !Inside(live, o, s)
    requires Block(p, t) && want < t <= s && Within(Choose(live, o, s, want), want, p, t)
    ensures Tighter(live, Choose(live, o, s, want), p, t, want)
    decreases s
  {
    ChooseIsFree(live, n, o, s, want);
    Laminar(p, t, o, s);
    TighterHere(live, n, o, s, want);
    hide Block, LiveOk, Inside, LargestFree, Choose, GoLeft, Vacant, Tighter;
    if t < s {
      HalfOf(p, t, o, s);
      BlockHalves(o, s);
      HalvesNotInside(live, n, o, s);
      ChooseHalf(live, o, s, want);
      if GoLeft(live, o, s, want) {
        ChoosesTighter(live, n, o, s / 2, want, p, t);
      } else {
        ChoosesTighter(live, n, o + s / 2, s / 2, want, p, t);
      }
    } else {
      assert p == o && t == s;
    }
  }

  lemma ChooseHalf(live: Live, o: int, s: int, want: int)
    requires s > 1 && want != s
    ensures Choose(live, o, s, want)
         == if GoLeft(live, o, s, want) then Choose(live, o, s / 2, want) else Choose(live, o + s / 2, s / 2, want)
  {
  }

  lemma TighterHere(live: Live, n: int, o: int, s: int, want: int)
    requires LiveOk(live, n) && Block(o, s) && IsPow2(want) && want <= LargestFree(live, o, s) && !Inside(live, o, s)
    requires want < s
    ensures s > 1
    ensures var l, r := LargestFree(live, o, s / 2), LargestFree(live, o + s / 2, s / 2);
            && Tighter(live, Choose(live, o, s, want), o, s, want)
            && (GoLeft(live, o, s, want) <==> Choose(live, o, s, want) < o + s / 2)
            && (if GoLeft(live, o, s, want) then l >= want else r >= want)
  {
    DescendStep(live, n, o, s, want);
    BlockHalves(o, s);
    HalvesNotInside(live, n, o, s);
    hide Block, LiveOk, Inside, LargestFree, Vacant;
    if GoLeft(live, o, s, want) {
      ChooseIsFree(live, n, o, s / 2, want);
    } else {
      ChooseIsFree(live, n, o + s / 2, s / 2, want);
    }
  }

  /** A smaller aligned block lies in one half. */
  lemma HalfOf(p: int, t: int, o: int, s: int)
    requires Block(p, t) && Block(o, s) && t < s && Within(p, t, o, s)
    ensures s > 1 && t <= s / 2 && (Within(p, t, o, s / 2) || Within(p, t, o + s / 2, s / 2))
  {
    BlockParts(p, t);
    BlockParts(o, s);
    Pow2Gap(t, s);
    BlockHalves(o, s);
    Laminar(p, t, o, s / 2);
  }

  // ----- whole histories

  lemma {:induction false} RunKeepsOk(live: Live, n: int, rs: seq<Request>)
    requires IsPow2(n) && LiveOk(live, n)
    ensures LiveOk(Run(live, n, rs), n)
    decreases |rs|
  {
    if rs != [] {
      StepKeepsOk(live, n, rs[0]);
      RunKeepsOk(Step(live, n, rs[0]), n, rs[1..]);
    }
  }

  lemma StepKeepsOk(live: Live, n: int, r: Request)
    requires IsPow2(n) && LiveOk(live, n)
    ensures LiveOk(Step(live, n, r), n)
  {
    if r.Allocate? {
      if r.size <= 0x4000_0000 && Rounded(r.size) <= LargestFree(live, 0, n) {
        AllocateTakes(live, n, r.size);
      }
    } else {
      ReleaseKeepsOk(live, n, r.cell);
    }
  }

  lemma RoundedIsPow2(size: int)
    requires size <= 0x4000_0000
    ensures IsPow2(Rounded(size)) && size <= Rounded(size)
    ensures forall t | IsPow2(t) && size <= t :: Rounded(size) <= t
  {
    if size > 0 {
      forall t | IsPow2(t) && size <= t
        ensures Rounded(size) <= t
      {
        FixSizeIsCeiling(size, t);
      }
      FixSizeIsCeiling(size, 1);
    }
  }

  lemma WholeNotInside(live: Live, n: int)
    requires LiveOk(live, n)
    ensures !Inside(live, 0, n)
  {
    forall p | p in live
      ensures !(Within(0, n, p, live[p]) && n < live[p])
    {
      assert Sound(live, n, p);
    }
  }

  lemma ReleaseKeepsOk(live: Live, n: int, k: int)
    requires LiveOk(live, n)
    ensures LiveOk(Release(live, k), n)
  {
    var less := Release(live, k);
    forall p
      ensures Sound(less, n, p)
    {
      assert Sound(live, n, p);
    }
    forall p, q
      ensures Apart(less, p, q)
    {
      assert Apart(live, p, q);
    }
  }

  /** An allocation that succeeds takes a run of unused cells. */
  lemma AllocateTakes(live: Live, n: int, size: int)
    requires IsPow2(n) && LiveOk(live, n) && size <= 0x4000_0000
    requires Rounded(size) <= LargestFree(live, 0, n)
    ensures var p, t := Choose(live, 0, n, Rounded(size)), Rounded(size);
            && Block(p, t) && p + t <= n && Vacant(live, p, t) && p !in live
            && LiveOk(live[p := t], n)
  {
    hide FixSize;
    RoundedIsPow2(size);
    WholeBlock(n);
    WholeNotInside(live, n);
    ChooseIsFree(live, n, 0, n, Rounded(size));
    AddKeepsOk(live, n, Choose(live, 0, n, Rounded(size)), Rounded(size));
  }

  /** Allocating and then releasing any cell of the new block restores the live blocks. */
  lemma AllocateThenFree(live: Live, n: int, size: int, k: int)
    requires IsPow2(n) && LiveOk(live, n) && size <= 0x4000_0000
    requires Rounded(size) <= LargestFree(live, 0, n)
    requires var p := Choose(live, 0, n, Rounded(size)); p <= k < p + Rounded(size)
    ensures Step(Step(live, n, Allocate(size)), n, Free(k)) == live
  {
    hide LargestFree, Choose, LiveOk, Vacant, Block, Rounded;
    AllocateTakes(live, n, size);
    var p, t := Choose(live, 0, n, Rounded(size)), Rounded(size);
    var more := live[p := t];
    assert Holds(more, p, k);
    ReleaseIsRemove(more, n, k, p);
    assert more - {p} == live;
  }

  lemma {:induction false} ReleaseAll(live: Live, n: int, cells: seq<int>)
    requires n >= 1
    requires forall p | p in live :: exists i :: 0 <= i < |cells| && Holds(live, p, cells[i])
    ensures Run(live, n, Releases(cells)) == map[]
    decreases |cells|
  {
    if cells == [] {
      forall p | p in live
        ensures false
      {
      }
      assert live == map[];
    } else {
      var less := Release(live, cells[0]);
      forall p | p in less
        ensures exists i :: 0 <= i < |cells[1..]| && Holds(less, p, cells[1..][i])
      {
        var i :| 0 <= i < |cells| && Holds(live, p, cells[i]);
        assert i > 0 && Holds(less, p, cells[1..][i - 1]);
      }
      ReleaseAll(less, n, cells[1..]);
      assert Releases(cells)[1..] == Releases(cells[1..]);
    }
  }

  /** Live blocks are aligned, in bounds and pairwise disjoint. */
  lemma LiveBlocksApart(live: Live, n: int, p: int, q: int)
    requires LiveOk(live, n) && p in live && q in live && p != q
    ensures live[p] > 0 && p % live[p] == 0 && IsPow2(live[p]) && 0 <= p && p + live[p] <= n
    ensures p + live[p] <= q || q + live[q] <= p
  {
    assert Sound(live, n, p) && Apart(live, p, q);
    BlockParts(p, live[p]);
  }
}
