/**
 Thread contexts: what kernel/switch.S does to the registers, the stack and the
 two context slots, and what the by-value copies of kernel/processor.c and
 kernel/thread.c make of the saved addresses over a whole run.
 */
module Context {
  import opened KernelSpace
  import PageTable
  import Mapping
  import Loader

  /** The frames that hold page tables: what decides the translation in every address space. */
  type Tables = PageTable.Mem

  /** The root page table that satp names; the mode field is taken to be Sv39. */
  function Root(satp: int): int { satp % PageTable.MAX_PPN }

  /**
   The physical address behind a, seen from the address space of satp, if the word there can be loaded and
   stored (the kernel runs with the SUM bit set, so user pages count), or -1 for a page fault.
   */
  function Phys(u: Tables, satp: int, a: int): int {
    match PageTable.Translate(u, Root(satp), a)
    case PageFault => -1
    case Leaf(pte, level) =>
      if !PageTable.Readable(pte) || !PageTable.Writable(pte) then -1
      else
        var size := if level == 0 then PageTable.PAGE_SIZE else if level == 1 then 0x20_0000 else 0x4000_0000;
        PageTable.PpnField(pte) * PageTable.PAGE_SIZE + a % size
  }

  /** The registers a switch replaces; s is s0 to s11. */
  datatype Regs = Regs(sp: int, ra: int, satp: int, s: seq<int>)

  /** Memory by physical word address, the words &self->contextAddr may point to, the registers. */
  datatype Machine = Machine(mem: map<int, int>, slots: seq<int>, r: Regs)

  const CURRENT := 0 // CPU.current.thread.contextAddr
  const IDLE := 1    // CPU.idle.contextAddr
  const BOOT := 2    // boot.contextAddr of runCPU

  const FRAME := 14 * 8

  /** Word k of a ThreadContext that holds r. */
  function Image(r: Regs, k: int): int
    requires |r.s| == 12 && 0 <= k < 14
  {
    if k == 0 then r.ra else if k == 1 then r.satp else r.s[k - 2]
  }

  /** The physical address of word k of a context at p. */
  function Place(u: Tables, satp: int, p: int, k: int): int {
    Phys(u, satp, p + 8 * k)
  }

  ghost function Words(u: Tables, satp: int, p: int): set<int> {
    set k | 0 <= k < 14 :: Place(u, satp, p, k)
  }

  /** The words of a context at p exist and are different words. */
  ghost predicate Room(u: Tables, mem: map<int, int>, satp: int, p: int) {
    && (forall k | 0 <= k < 14 :: Place(u, satp, p, k) in mem)
    && (forall j, k | 0 <= j < k < 14 :: Place(u, satp, p, j) != Place(u, satp, p, k))
  }

  /** The context at p holds r, seen through r's own tables. */
  ghost predicate Stored(u: Tables, mem: map<int, int>, p: int, r: Regs) {
    && |r.s| == 12 && r.sp == p + FRAME
    && forall k | 0 <= k < 14 :: Place(u, r.satp, p, k) in mem && mem[Place(u, r.satp, p, k)] == Image(r, k)
  }

  /** The word that the n-th store writes: ra, s0 to s11, and satp last, by way of s11. */
  function Nth(n: int): int {
    if n == 0 then 0 else if n < 13 then n + 1 else 1
  }

  /** mem after the first n stores of a context for r at p. */
  ghost function Frame(u: Tables, mem: map<int, int>, p: int, r: Regs, n: nat): map<int, int>
    requires |r.s| == 12 && n <= 14
  {
    if n == 0 then mem else Frame(u, mem, p, r, n - 1)[Place(u, r.satp, p, Nth(n - 1)) := Image(r, Nth(n - 1))]
  }

  lemma {:induction false} FrameAt(u: Tables, mem: map<int, int>, p: int, r: Regs, n: nat)
    requires |r.s| == 12 && n <= 14 && Room(u, mem, r.satp, p)
    ensures var f := Frame(u, mem, p, r, n);
            && f.Keys == mem.Keys
            && (forall i | 0 <= i < n :: f[Place(u, r.satp, p, Nth(i))] == Image(r, Nth(i)))
            && (forall a | a in mem && a !in Words(u, r.satp, p) :: f[a] == mem[a])
  {
    hide Phys;
    if n > 0 {
      FrameAt(u, mem, p, r, n - 1);
    }
  }

  /** The whole context holds r, and nothing else has changed. */
  lemma FrameHolds(u: Tables, mem: map<int, int>, r: Regs)
    requires |r.s| == 12 && Room(u, mem, r.satp, r.sp - FRAME)
    ensures var f := Frame(u, mem, r.sp - FRAME, r, 14);
            && f.Keys == mem.Keys && Stored(u, f, r.sp - FRAME, r)
            && (forall a | a in mem && a !in Words(u, r.satp, r.sp - FRAME) :: f[a] == mem[a])
  {
    FrameAt(u, mem, r.sp - FRAME, r, 14);
    var f := Frame(u, mem, r.sp - FRAME, r, 14);
    forall k | 0 <= k < 14
      ensures Place(u, r.satp, r.sp - FRAME, k) in f && f[Place(u, r.satp, r.sp - FRAME, k)] == Image(r, k)
    {
      var i := if k == 0 then 0 else if k == 1 then 13 else k - 1;
      assert Nth(i) == k;
    }
  }

  /** The loads of a switch find memory: the satp word through the old tables, the rest through the new ones. */
  ghost predicate Readable(u: Tables, mem: map<int, int>, satp: int, q: int) {
    && Place(u, satp, q, 1) in mem
    && forall k | 0 <= k < 14 && k != 1 :: Place(u, mem[Place(u, satp, q, 1)], q, k) in mem
  }

  /** The registers that a switch loads from the context at q. */
  ghost function Loaded(u: Tables, mem: map<int, int>, satp: int, q: int): Regs
    requires Readable(u, mem, satp, q)
  {
    var to := mem[Place(u, satp, q, 1)];
    Regs(q + FRAME, mem[Place(u, to, q, 0)], to,
         seq(12, i requires 0 <= i < 12 && Place(u, to, q, i + 2) in mem => mem[Place(u, to, q, i + 2)]))
  }

  ghost predicate CanSwitch(u: Tables, m: Machine, self: int, target: int) {
    && |m.slots| == 3 && 0 <= self < 3 && 0 <= target < 3 && self != target && |m.r.s| == 12
    && Room(u, m.mem, m.r.satp, m.r.sp - FRAME)
    && Readable(u, Frame(u, m.mem, m.r.sp - FRAME, m.r, 14), m.r.satp, m.slots[target])
  }

  /** switchContext: save under self, load what target points to, clear target. */
  ghost function Switched(u: Tables, m: Machine, self: int, target: int): Machine
    requires CanSwitch(u, m, self, target)
  {
    var mem := Frame(u, m.mem, m.r.sp - FRAME, m.r, 14);
    Machine(mem, m.slots[self := m.r.sp - FRAME][target := 0], Loaded(u, mem, m.r.satp, m.slots[target]))
  }

  /**
   A switch leaves the context of the side it comes from in the fourteen words below that side's sp: ra, satp
   and s0 to s11, and what it loads has sp behind the fourteen words of the target.
   */
  lemma ContextIsBelowSp(u: Tables, m: Machine, self: int, target: int)
    requires CanSwitch(u, m, self, target)
    ensures var v := Switched(u, m, self, target);
            && v.slots[self] == m.r.sp - 112 && v.slots[target] == 0 && v.r.sp == m.slots[target] + 112
            && v.mem.Keys == m.mem.Keys
            && Phys(u, m.r.satp, m.r.sp - 112) in v.mem && v.mem[Phys(u, m.r.satp, m.r.sp - 112)] == m.r.ra
            && Phys(u, m.r.satp, m.r.sp - 104) in v.mem && v.mem[Phys(u, m.r.satp, m.r.sp - 104)] == m.r.satp
            && (forall k | 0 <= k < 12 :: SHolds(u, v.mem, m.r, k))
  {
    hide Phys, Loaded, Readable;
    FrameHolds(u, m.mem, m.r);
    var f := Frame(u, m.mem, m.r.sp - FRAME, m.r, 14);
    assert Place(u, m.r.satp, m.r.sp - 112, 0) in f && Place(u, m.r.satp, m.r.sp - 112, 1) in f;
    assert f[Place(u, m.r.satp, m.r.sp - 112, 0)] == Image(m.r, 0);
    assert f[Place(u, m.r.satp, m.r.sp - 112, 1)] == Image(m.r, 1);
    forall k | 0 <= k < 12
      ensures SHolds(u, f, m.r, k)
    {
      assert Place(u, m.r.satp, m.r.sp - 112, k + 2) in f;
      assert f[Place(u, m.r.satp, m.r.sp - 112, k + 2)] == Image(m.r, k + 2);
    }
    LoadedSp(u, m, self, target);
  }

  /** Register s k is in its word below sp. */
  ghost predicate SHolds(u: Tables, mem: map<int, int>, r: Regs, k: int)
    requires |r.s| == 12 && 0 <= k < 12
  {
    var a := Phys(u, r.satp, r.sp - 96 + 8 * k);
    a in mem && mem[a] == r.s[k]
  }

  lemma LoadedSp(u: Tables, m: Machine, self: int, target: int)
    requires CanSwitch(u, m, self, target)
    ensures Switched(u, m, self, target).r.sp == m.slots[target] + 112
  {
  }

  /** A switch to the context at q from an address space satp restores r. */
  ghost predicate Resumes(u: Tables, mem: map<int, int>, satp: int, q: int, r: Regs) {
    Readable(u, mem, satp, q) && Loaded(u, mem, satp, q) == r
  }

  /** A saved context comes back exactly if and only if the tables of the side that switches show its satp word. */
  lemma ResumesIff(u: Tables, mem: map<int, int>, satp: int, q: int, r: Regs)
    requires Stored(u, mem, q, r)
    ensures Resumes(u, mem, satp, q, r) <==> Place(u, satp, q, 1) in mem && mem[Place(u, satp, q, 1)] == r.satp
  {
    if Place(u, satp, q, 1) in mem && mem[Place(u, satp, q, 1)] == r.satp {
      var l := Loaded(u, mem, satp, q);
      assert forall k | 0 <= k < 14 :: mem[Place(u, r.satp, q, k)] == Image(r, k);
      forall i | 0 <= i < 12
        ensures l.s[i] == r.s[i]
      {
        assert Image(r, i + 2) == r.s[i];
      }
      assert l.s == r.s;
    }
  }

  // ----- where contexts lie

  /** Address space satp is the one that the well-formed tables of s stand for. */
  ghost predicate SpaceOf(u: Tables, satp: int, s: PageTable.State) {
    PageTable.Ok(s) && s.mem == u && s.tables[1] == Root(satp)
  }

  /** Mapping calls keep every mapped word where it is, in the address space they are made in. */
  lemma MappingCallKeeps(satp: int, s: PageTable.State, t: PageTable.State, a: int)
    requires SpaceOf(s.mem, satp, s) && SpaceOf(t.mem, satp, t) && PageTable.Grows(s, t)
    ensures Phys(s.mem, satp, a) != -1 ==> Phys(t.mem, satp, a) == Phys(s.mem, satp, a)
  {
    if a >= 0 {
      PageTable.TranslationOf(s, a);
      PageTable.TranslationOf(t, a);
      assert PageTable.MappingKept(s, t, a / PageTable.PAGE_SIZE % PageTable.VPNS);
    }
  }

  /** And in every other one, if that one's tables are frames in use. */
  lemma MappingCallKeepsOthers(s: PageTable.State, t: PageTable.State, satp: int, other: map<int, int>, a: int)
    requires PageTable.Ok(s) && PageTable.Ok(t) && PageTable.Grows(s, t)
    requires SpaceOf(s.mem, satp, PageTable.State(s.mem, s.free, other))
    requires forall k | k in other :: PageTable.NotTable(s, other[k])
    ensures SpaceOf(t.mem, satp, PageTable.State(t.mem, t.free, other)) && Phys(t.mem, satp, a) == Phys(s.mem, satp, a)
  {
    Mapping.OtherSpaceKept(s, t, other);
    if a >= 0 {
      PageTable.TranslationOf(PageTable.State(s.mem, s.free, other), a);
      PageTable.TranslationOf(PageTable.State(t.mem, t.free, other), a);
    }
  }

  /**
   A context on a kernel stack, in the kernel's data, lies at the same place in every address space that
   has the kernel.
   */
  lemma KernelStackIsVisible(u: Tables, satp: int, s: PageTable.State, other: int, t: PageTable.State, l: Layout,
                             q: int, k: int)
    requires SpaceOf(u, satp, s) && SpaceOf(u, other, t) && LayoutOk(l) && Loader.KernelKept(s, l)
             && Loader.KernelKept(t, l)
    requires l.data <= q && q + FRAME <= MEMORY_END_VADDR && 0 <= k < 14
    ensures Place(u, satp, q, k) == Place(u, other, q, k) == q + 8 * k - KERNEL_MAP_OFFSET
  {
    Loader.KeptTranslation(s, l, q + 8 * k);
    Loader.KeptTranslation(t, l, q + 8 * k);
  }

  /** Nothing on a user stack can be reached through the page table that the idle thread runs on. */
  lemma UserStackIsHidden(u: Tables, satp: int, s: PageTable.State, l: Layout, a: int)
    requires SpaceOf(u, satp, s) && LayoutOk(l) && MappedWithDevices(s, l, 4)
    requires Loader.USER_STACK_OFFSET <= a < Loader.USER_STACK_OFFSET + Loader.USER_STACK_SIZE
    ensures PageTable.Translate(u, Root(satp), a) == PageTable.PageFault && Phys(u, satp, a) == -1
  {
    var x := a / PageTable.PAGE_SIZE;
    Loader.StackPages(x);
    PageTable.TranslationOf(s, a);
    assert !AmongDevices(x - PageTable.KERNEL_PAGE_OFFSET, 4) && KernelEntry(l, x) == 0;
    assert PageTable.Lookup(s, x - TOP) == 0;
  }

  /** So no context on a user stack comes back from the idle thread, whatever it holds. */
  lemma UserStackIsLost(u: Tables, satp: int, s: PageTable.State, l: Layout, mem: map<int, int>, q: int, r: Regs)
    requires SpaceOf(u, satp, s) && LayoutOk(l) && MappedWithDevices(s, l, 4)
    requires Loader.USER_STACK_OFFSET <= q + 8 < Loader.USER_STACK_OFFSET + Loader.USER_STACK_SIZE
    requires -1 !in mem
    ensures !Resumes(u, mem, satp, q, r)
  {
    UserStackIsHidden(u, satp, s, l, q + 8);
  }

  class Hart {
    const u: Tables
    var mem: map<int, int>
    var slots: seq<int>
    var sp: int
    var ra: int
    var satp: int
    var s: seq<int>

    ghost function M(): Machine
      reads this
    {
      Machine(mem, slots, Regs(sp, ra, satp, s))
    }

    constructor (u: Tables, mem: map<int, int>, slots: seq<int>, r: Regs)
      ensures this.u == u && M() == Machine(mem, slots, r)
    {
      this.u := u;
      this.mem := mem;
      this.slots := slots;
      sp := r.sp;
      ra := r.ra;
      satp := r.satp;
      s := r.s;
    }

    /** sd v, 8*k(sp) */
    method Store(k: int, v: int)
      modifies this`mem
      ensures mem == old(mem)[Place(u, satp, sp, k) := v]
    {
      mem := mem[Place(u, satp, sp, k) := v];
    }

    /** sd s_i, 8*k(sp) */
    method StoreS(i: int, k: int)
      requires 0 <= i < |s|
      modifies this`mem
      ensures mem == old(mem)[Place(u, satp, sp, k) := s[i]]
    {
      Store(k, s[i]);
    }

    /** ld s_i, 8*k(sp) */
    method LoadS(i: int, k: int)
      requires 0 <= i < |s| && Place(u, satp, sp, k) in mem
      modifies this`s
      ensures s == old(s)[i := mem[Place(u, satp, sp, k)]]
    {
      s := s[i := mem[Place(u, satp, sp, k)]];
    }

    /** The first half of kernel/switch.S: save the registers under a0. */
    method Save(self: int)
      requires |slots| == 3 && 0 <= self < 3 && |s| == 12
      modifies this`mem, this`slots, this`sp, this`s
      ensures |s| == 12 && sp == old(sp) - FRAME && slots == old(slots)[self := sp]
      ensures mem == Frame(u, old(mem), sp, old(M()).r, 14)
    {
      ghost var m, r := mem, M().r;
      sp := sp - FRAME;
      slots := slots[self := sp];
      Store(0, ra);
      assert mem == Frame(u, m, sp, r, 1);
      StoreS(0, 2);
      assert mem == Frame(u, m, sp, r, 2);
      StoreS(1, 3);
      assert mem == Frame(u, m, sp, r, 3);
      StoreS(2, 4);
      assert mem == Frame(u, m, sp, r, 4);
      StoreS(3, 5);
      assert mem == Frame(u, m, sp, r, 5);
      StoreS(4, 6);
      assert mem == Frame(u, m, sp, r, 6);
      StoreS(5, 7);
      assert mem == Frame(u, m, sp, r, 7);
      StoreS(6, 8);
      assert mem == Frame(u, m, sp, r, 8);
      StoreS(7, 9);
      assert mem == Frame(u, m, sp, r, 9);
      StoreS(8, 10);
      assert mem == Frame(u, m, sp, r, 10);
      StoreS(9, 11);
      assert mem == Frame(u, m, sp, r, 11);
      StoreS(10, 12);
      assert mem == Frame(u, m, sp, r, 12);
      StoreS(11, 13);
      assert mem == Frame(u, m, sp, r, 13);
      s := s[11 := satp];
      StoreS(11, 1);
    }

    /** The second half: restore from where a1 points, and clear a1. */
    method Restore(target: int)
      requires |slots| == 3 && 0 <= target < 3 && |s| == 12 && Readable(u, mem, satp, slots[target])
      modifies this`slots, this`sp, this`s, this`satp, this`ra
      ensures M() == Machine(mem, old(slots)[target := 0], Loaded(u, mem, old(satp), old(slots)[target]))
    {
      ghost var l := Loaded(u, mem, satp, slots[target]);
      sp := slots[target];
      LoadS(11, 1);
      satp := s[11];
      ra := mem[Place(u, satp, sp, 0)];
      LoadS(0, 2);
      LoadS(1, 3);
      LoadS(2, 4);
      LoadS(3, 5);
      LoadS(4, 6);
      LoadS(5, 7);
      LoadS(6, 8);
      LoadS(7, 9);
      LoadS(8, 10);
      LoadS(9, 11);
      LoadS(10, 12);
      LoadS(11, 13);
      assert s == l.s;
      sp := sp + FRAME;
      slots := slots[target := 0];
    }

    /** switchContext, with a0 and a1 the slots self and target. */
    method SwitchContext(self: int, target: int)
      requires CanSwitch(u, M(), self, target)
      modifies this
      ensures M() == Switched(u, old(M()), self, target)
    {
      Save(self);
      Restore(target);
    }
  }
}
