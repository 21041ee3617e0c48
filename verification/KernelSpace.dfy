/**
 The kernel's own mapping: newMapping, newKernelMapping and mapExtInterruptArea
 of kernel/mapping.c over the section bounds of kernel/kernel.ld.
 */
module KernelSpace {
  import opened Bits
  import opened PageTable
  import opened Mapping
  import opened FrameCount

  const KERNEL_BEGIN_VADDR := 0xffff_ffff_8020_0000
  const KERNEL_MAP_OFFSET := 0xffff_ffff_0000_0000
  const MEMORY_END_VADDR := 0xffff_ffff_8800_0000
  /** Page numbers from here up to the end of the 64-bit space are the upper half of Sv39. */
  const TOP := 0xf_ffff_f800_0000

  const READ_EXECUTE := 11
  const READ_ONLY := 3
  const READ_WRITE := 7

  /** The linker's section boundaries. */
  datatype Layout = Layout(text: int, rodata: int, data: int, bss: int, end: int)

  predicate LayoutOk(l: Layout) {
    && KERNEL_BEGIN_VADDR <= l.text <= l.rodata <= l.data <= l.bss <= l.end <= MEMORY_END_VADDR
    && l.text % PAGE_SIZE == 0 && l.rodata % PAGE_SIZE == 0 && l.data % PAGE_SIZE == 0
    && l.bss % PAGE_SIZE == 0 && l.end % PAGE_SIZE == 0
  }

  /** The full page number whose low 27 bits are w, in the upper half. */
  function Full(w: int): int { w + TOP }

  /** The permissions of the section that page number x lies in. */
  function KernelFlags(l: Layout, x: int): nat {
    if x < l.rodata / PAGE_SIZE then READ_EXECUTE
    else if x < l.data / PAGE_SIZE then READ_ONLY
    else READ_WRITE
  }

  function KernelEntry(l: Layout, x: int): nat {
    if l.text / PAGE_SIZE <= x < MEMORY_END_VADDR / PAGE_SIZE then LinearPte(x, KernelFlags(l, x)) else 0
  }

  /** Exactly the kernel pages below address upto are mapped. */
  ghost predicate MappedUpTo(s: State, l: Layout, upto: int) {
    forall w | IsVpn(w) :: Lookup(s, w) == if Full(w) < upto / PAGE_SIZE then KernelEntry(l, Full(w)) else 0
  }

  /** The next linear segment of the kernel: from .. to has one kind of permission. */
  predicate Section(l: Layout, from: int, to: int, flags: nat) {
    && LayoutOk(l)
    && l.text <= from <= to <= MEMORY_END_VADDR
    && from % PAGE_SIZE == 0 && to % PAGE_SIZE == 0
    && flags < 1024
    && (from < to ==> KernelFlags(l, from / PAGE_SIZE) == flags && KernelFlags(l, to / PAGE_SIZE - 1) == flags)
  }

  lemma SectionPages(from: int, to: int, flags: nat)
    requires KERNEL_BEGIN_VADDR <= from <= to <= MEMORY_END_VADDR
    requires from % PAGE_SIZE == 0 && to % PAGE_SIZE == 0
    ensures var g := Segment(from, to, flags);
            && FirstVpn(g) == from / PAGE_SIZE && EndVpn(g) == to / PAGE_SIZE
            && Count(g) == to / PAGE_SIZE - from / PAGE_SIZE
            && TOP <= FirstVpn(g) && EndVpn(g) <= TOP + VPNS && Count(g) < VPNS
  {
  }

  /** In the upper half, lying in a run is plain comparison of full page numbers. */
  lemma RelIsDifference(w: int, start: int, n: int)
    requires IsVpn(w) && TOP <= start && 0 <= n && start + n <= TOP + VPNS
    ensures Rel(w, start) < n <==> start <= Full(w) < start + n
    ensures start <= Full(w) ==> Rel(w, start) == Full(w) - start
  {
    var d := Full(w) - start;
    assert TOP % VPNS == 0;
    assert w - start == d - TOP;
    assert TOP == 0x1ff_ffff * VPNS;
    if d >= 0 {
      DivUnique(w - start, VPNS, -0x1ff_ffff, d);
    } else {
      DivUnique(w - start, VPNS, -0x200_0000, d + VPNS);
    }
  }

  /** The kernel's segments abut, so none of their pages is mapped twice. */
  lemma NeverOccupied(a: State, l: Layout, from: int, to: int, flags: nat, x: int)
    requires Section(l, from, to, flags) && MappedUpTo(a, l, from)
    ensures !Occupied(a, Segment(from, to, flags), x)
  {
    SectionPages(from, to, flags);
    if from / PAGE_SIZE <= x < to / PAGE_SIZE {
      var w := x - TOP;
      DivUnique(x, VPNS, 0x1ff_ffff, w);
      assert Lookup(a, w) == 0;
    }
  }

  lemma NextSection(a: State, b: State, l: Layout, from: int, to: int, flags: nat)
    requires Section(l, from, to, flags) && MappedUpTo(a, l, from)
    requires var g := Segment(from, to, flags); Laid(a, b, FirstVpn(g), LinearPtes(FirstVpn(g), Count(g), flags))
    ensures MappedUpTo(b, l, to)
  {
    SectionPages(from, to, flags);
    var start, n := from / PAGE_SIZE, to / PAGE_SIZE - from / PAGE_SIZE;
    forall w | IsVpn(w)
      ensures Lookup(b, w) == if Full(w) < to / PAGE_SIZE then KernelEntry(l, Full(w)) else 0
    {
      assert LaidAt(a, b, start, LinearPtes(start, n, flags), w);
      assert Lookup(a, w) == if Full(w) < start then KernelEntry(l, Full(w)) else 0;
      RelIsDifference(w, start, n);
    }
  }

  /** Memory in which every free frame is a whole page. */
  ghost predicate MemoryOk(m: Machine)
    reads m
  {
    forall f :: FrameOk(State(m.mem, m.free, map[]), f)
  }

  lemma EmptyRoot(mem: Mem, free: set<int>, f: int)
    requires f in free && forall g :: FrameOk(State(mem, free, map[]), g)
    ensures var s := State(mem[f := ZeroPage()], free - {f}, map[1 := f]);
            && Ok(s) && Grows(State(mem, free, map[]), s)
            && forall w | IsVpn(w) :: Lookup(s, w) == 0
  {
    var s := State(mem[f := ZeroPage()], free - {f}, map[1 := f]);
    assert FrameOk(State(mem, free, map[]), f);
    forall k
      ensures TableOk(s, k)
    {
    }
    forall k, i
      ensures LinkOk(s, k, i)
    {
      if 0 <= i < 512 {
        ZeroEntry(mem, f, i);
      }
    }
    forall g
      ensures FrameOk(s, g)
    {
      assert FrameOk(State(mem, free, map[]), g);
    }
  }

  /** The free frames, before there are any tables. */
  ghost function Purse(m: Machine): State
    reads m
  {
    State(m.mem, m.free, map[])
  }

  /** newMapping, or null when frames ran out. */
  method NewMapping(m: Machine) returns (space: AddressSpace?)
    requires m.Valid() && MemoryOk(m)
    modifies m`mem, m`free, m.frames.node
    ensures if space == null then m.free == {} && Short(old(Purse(m)), {1}, 0)
            else Charged(old(Purse(m)), space.S(m), {1}, 0)
    ensures space != null ==>
      && fresh(space) && space.Valid(m) && Grows(old(Purse(m)), space.S(m))
      && (forall w | IsVpn(w) :: Lookup(space.S(m), w) == 0)
  {
    ghost var mem, free := m.mem, m.free;
    forall f | f in m.free
      ensures f in m.mem && |m.mem[f]| == PAGE_SIZE
    {
      assert FrameOk(State(m.mem, m.free, map[]), f);
    }
    hide Charged, Short;
    var rootPaddr := m.AllocFrame();
    if rootPaddr.None? {
      ShortOfTable(State(mem, free, map[]), 1);
      return null;
    }
    ghost var f := rootPaddr.value / PAGE_SIZE;
    EmptyRoot(mem, free, f);
    space := new AddressSpace(rootPaddr.value / PAGE_SIZE, map[1 := f]);
    assert space.S(m) == State(mem[f := ZeroPage()], free - {f}, map[1 := f]);
    ChargeTable(State(mem, free, map[]), space.S(m), 1, f);
  }

  /** The tables of the pages from page number first up to x, and the root. */
  function TablesTo(first: int, x: int): set<int>
    requires first <= x
  {
    {1} + KeysOf(first, x - first)
  }

  /** All tables of the kernel's pages. */
  function KernelKeys(l: Layout): set<int>
    requires LayoutOk(l)
  {
    TablesTo(l.text / PAGE_SIZE, MEMORY_END_VADDR / PAGE_SIZE)
  }

  /**
   newKernelMapping: the five abutting segments. The "already mapped" panic never happens; the frames run
   out exactly if fewer are free than the kernel's page tables take.
   */
  method NewKernelMapping(m: Machine, l: Layout) returns (space: AddressSpace?)
    requires m.Valid() && MemoryOk(m) && LayoutOk(l)
    modifies m`mem, m`free, m.frames.node
    ensures if space == null then m.free == {} && Short(old(Purse(m)), KernelKeys(l), 0)
            else Charged(old(Purse(m)), space.S(m), KernelKeys(l), 0)
    ensures space != null ==>
      && fresh(space) && space.Valid(m) && MappedUpTo(space.S(m), l, MEMORY_END_VADDR)
      && Grows(old(Purse(m)), space.S(m))
  {
    hide Grows, Charged, Short, KeysOf, Lookup;
    ghost var o := Purse(m);
    var mapping := NewMapping(m);
    if mapping == null {
      ShortForMore(o, {1}, KernelKeys(l), 0, 0);
      return null;
    }
    NoSections(l);
    assert MappedUpTo(mapping.S(m), l, l.text);
    hide MappedUpTo, Section, TablesTo;
    var ok := MapSection(m, mapping, l, l.text, l.rodata, READ_EXECUTE, o);
    if ok {
      ok := MapSection(m, mapping, l, l.rodata, l.data, READ_ONLY, o);
    }
    if ok {
      ok := MapSection(m, mapping, l, l.data, l.bss, READ_WRITE, o);
    }
    if ok {
      ok := MapSection(m, mapping, l, l.bss, l.end, READ_WRITE, o);
    }
    if ok {
      ok := MapSection(m, mapping, l, l.end, MEMORY_END_VADDR, READ_WRITE, o);
    }
    return if ok then mapping else null;
  }

  lemma NoSections(l: Layout)
    requires LayoutOk(l)
    ensures TablesTo(l.text / PAGE_SIZE, l.text / PAGE_SIZE) == {1}
  {
  }

  method MapSection(m: Machine, space: AddressSpace, l: Layout, from: int, to: int, flags: nat, ghost o: State)
    returns (ok: bool)
    requires space.Valid(m) && Section(l, from, to, flags) && MappedUpTo(space.S(m), l, from)
    requires Charged(o, space.S(m), TablesTo(l.text / PAGE_SIZE, from / PAGE_SIZE), 0) && Grows(o, space.S(m))
    modifies space`tables, m`mem, m`free, m.frames.node
    ensures space.Valid(m) && Grows(o, space.S(m))
    ensures if ok then MappedUpTo(space.S(m), l, to) else m.free == {}
    ensures if ok then Charged(o, space.S(m), TablesTo(l.text / PAGE_SIZE, to / PAGE_SIZE), 0)
            else Short(o, KernelKeys(l), 0)
  {
    hide MappedUpTo, Ok, Laid, Grows, Occupied, Charged, Short, TablesTo, KeysOf, Billed, EndsAfter, TooFew;
    ghost var a := space.S(m);
    SectionPages(from, to, flags);
    var r, n := space.MapLinearSegment(m, Segment(from, to, flags));
    GrowsTrans(o, a, space.S(m));
    SectionBill(o, a, space.S(m), l.text / PAGE_SIZE, Segment(from, to, flags), r, n, MEMORY_END_VADDR / PAGE_SIZE);
    ok := r == Done;
    if r == Done {
      NextSection(a, space.S(m), l, from, to, flags);
    } else if r.AlreadyMapped? {
      NeverOccupied(a, l, from, to, flags, r.vpn);
    }
  }

  /** What the sections up to g have cost, if g was mapped, and what is short for all up to end if it was not. */
  lemma SectionBill(o: State, a: State, b: State, first: int, g: Segment, r: Outcome, n: nat, end: int)
    requires first <= FirstVpn(g) <= EndVpn(g) <= end && Charged(o, a, TablesTo(first, FirstVpn(g)), 0)
    requires EndsAfter(a, g, r, n) && Billed(a, b, FirstVpn(g), false, r, n)
    ensures r == Done ==> n == Count(g) && Charged(o, b, TablesTo(first, EndVpn(g)), 0)
    ensures r == Depleted ==> b.free == {} && Short(o, TablesTo(first, end), 0)
    ensures r.AlreadyMapped? ==> Occupied(a, g, r.vpn)
  {
    hide Charged, Short, KeysOf, TablesTo, Occupied, FirstVpn, EndVpn;
    var x := FirstVpn(g);
    if r == Done {
      ChargeBoth(o, a, b, TablesTo(first, x), KeysOf(x, n), 0, 0);
      MoreTables(first, x, n, end);
    } else if r == Depleted {
      MoreTables(first, x, n + 1, end);
      ShortInAll(o, a, TablesTo(first, x), KeysOf(x, n + 1), 0, 0, TablesTo(first, end), 0);
    }
  }

  lemma MoreTables(first: int, x: int, n: nat, end: int)
    requires first <= x && x + n <= end
    ensures TablesTo(first, x) + KeysOf(x, n) == TablesTo(first, x + n)
    ensures TablesTo(first, x) + KeysOf(x, n) <= TablesTo(first, end)
  {
    hide KeysOf;
    KeysJoin(first, x - first, n);
    Regroup({1}, KeysOf(first, x - first), KeysOf(x, n));
    FewerKeys(first, x + n - first, end - first);
  }

  lemma Regroup(a: set<int>, b: set<int>, c: set<int>)
    ensures a + b + c == a + (b + c)
  {
  }

  // ----- what the hardware sees

  /** Every kernel address translates to itself minus the linear offset, with its section's permissions. */
  lemma KernelTranslation(s: State, l: Layout, va: int)
    requires Ok(s) && LayoutOk(l) && MappedUpTo(s, l, MEMORY_END_VADDR)
    requires l.text <= va < MEMORY_END_VADDR
    ensures LinearAt(s, l, va)
  {
    KernelPage(va);
    assert Lookup(s, va / PAGE_SIZE - TOP) == KernelEntry(l, va / PAGE_SIZE);
    KernelPageTranslation(s, l, va);
  }

  ghost predicate LinearAt(s: State, l: Layout, va: int)
    requires 1 in s.tables
  {
    var r := Translate(s.mem, s.tables[1], va);
    && r.Leaf? && r.level == 0
    && PpnField(r.pte) * PAGE_SIZE + va % PAGE_SIZE == va - KERNEL_MAP_OFFSET
    && Readable(r.pte) && !User(r.pte)
    && (Executable(r.pte) <==> va < l.rodata)
    && (Writable(r.pte) <==> va >= l.data)
  }

  /** No program can fetch, load or store at address va. */
  ghost predicate Closed(s: State, va: int)
    requires 1 in s.tables
  {
    forall x :: !Permits(Translate(s.mem, s.tables[1], va), x)
  }

  /** The kernel's pages are closed to programs. */
  lemma KernelIsClosed(s: State, l: Layout, va: int)
    requires Ok(s) && LayoutOk(l) && MappedUpTo(s, l, MEMORY_END_VADDR)
    requires l.text <= va < MEMORY_END_VADDR
    ensures Closed(s, va)
  {
    KernelTranslation(s, l, va);
  }

  lemma KernelPage(va: int)
    requires KERNEL_BEGIN_VADDR <= va < MEMORY_END_VADDR
    ensures var w := va / PAGE_SIZE - TOP; IsVpn(w) && Full(w) == va / PAGE_SIZE && va / PAGE_SIZE % VPNS == w
  {
    DivUnique(va / PAGE_SIZE, VPNS, 0x1ff_ffff, va / PAGE_SIZE - TOP);
  }

  lemma KernelPageTranslation(s: State, l: Layout, va: int)
    requires Ok(s) && LayoutOk(l) && l.text <= va < MEMORY_END_VADDR
    requires Lookup(s, va / PAGE_SIZE - TOP) == KernelEntry(l, va / PAGE_SIZE)
    ensures LinearAt(s, l, va)
  {
    var x := va / PAGE_SIZE;
    KernelPage(va);
    TranslationOf(s, va);
    KernelFrame(x);
    LinearPteFields(x, KernelFlags(l, x));
    FlagsOf(KernelFlags(l, x));
    PteParts(x - KERNEL_PAGE_OFFSET, KernelFlags(l, x));
  }

  lemma KernelFrame(x: int)
    requires KERNEL_BEGIN_VADDR / PAGE_SIZE <= x < MEMORY_END_VADDR / PAGE_SIZE
    ensures LinearFrame(x) == x - KERNEL_PAGE_OFFSET && 0 <= x - KERNEL_PAGE_OFFSET < 0x8_8000
  {
  }

  lemma FlagsOf(flags: nat)
    requires flags == READ_EXECUTE || flags == READ_ONLY || flags == READ_WRITE
    ensures Or(flags, 1) == flags
  {
  }

  lemma PteParts(f: int, flags: nat)
    requires 0 <= f < MAX_PPN && (flags == READ_EXECUTE || flags == READ_ONLY || flags == READ_WRITE)
    ensures var pte := f * 1024 + flags;
            && PpnField(pte) == f && Valid(pte) && Readable(pte) && !Reserved(pte) && !User(pte)
            && (Writable(pte) <==> flags == READ_WRITE) && (Executable(pte) <==> flags == READ_EXECUTE)
  {
    FieldsOf(f, flags);
  }

  // ----- device pages

  /** The page numbers of the PLIC and UART registers, less the linear offset. */
  function Device(n: nat): int
    requires n < 4
  {
    if n == 0 then 0xC000 else if n == 1 then 0xC002 else if n == 2 then 0xC201 else 0x1_0000
  }

  predicate AmongDevices(x: int, n: nat) {
    (n > 0 && x == Device(0)) || (n > 1 && x == Device(1)) || (n > 2 && x == Device(2)) || (n > 3 && x == Device(3))
  }

  /** The kernel is mapped, and so are the first n device pages. */
  ghost predicate MappedWithDevices(s: State, l: Layout, n: nat) {
    forall w | IsVpn(w) ::
      Lookup(s, w) == if AmongDevices(Full(w) - KERNEL_PAGE_OFFSET, n)
                      then LinearPte(Full(w), READ_WRITE) else KernelEntry(l, Full(w))
  }

  lemma NextDevice(a: State, b: State, l: Layout, n: nat)
    requires LayoutOk(l) && n < 4 && MappedWithDevices(a, l, n)
    requires Laid(a, b, Device(n) + KERNEL_PAGE_OFFSET, LinearPtes(Device(n) + KERNEL_PAGE_OFFSET, 1, READ_WRITE))
    ensures MappedWithDevices(b, l, n + 1)
  {
    hide LinearPte;
    var start := Device(n) + KERNEL_PAGE_OFFSET;
    forall w | IsVpn(w)
      ensures Lookup(b, w) == if AmongDevices(Full(w) - KERNEL_PAGE_OFFSET, n + 1)
                              then LinearPte(Full(w), READ_WRITE) else KernelEntry(l, Full(w))
    {
      assert LaidAt(a, b, start, LinearPtes(start, 1, READ_WRITE), w);
      RelIsDifference(w, start, 1);
    }
  }

  lemma DeviceFree(a: State, l: Layout, n: nat, x: int)
    requires LayoutOk(l) && n < 4 && MappedWithDevices(a, l, n)
    ensures !Occupied(a, DevicePage(n), x)
  {
    hide LinearPte, Lookup;
    DevicePages(n);
    var start := Device(n) + KERNEL_PAGE_OFFSET;
    if x == start {
      var w := start - TOP;
      DivUnique(x, VPNS, 0x1ff_ffff, w);
      assert IsVpn(w) && Full(w) == start;
      assert Lookup(a, w) == 0;
    }
  }

  function DevicePage(n: nat): Segment
    requires n < 4
  {
    Segment(Device(n) * PAGE_SIZE + KERNEL_MAP_OFFSET, (Device(n) + 1) * PAGE_SIZE + KERNEL_MAP_OFFSET, READ_WRITE)
  }

  lemma DevicePages(n: nat)
    requires n < 4
    ensures FirstVpn(DevicePage(n)) == Device(n) + KERNEL_PAGE_OFFSET && Count(DevicePage(n)) == 1
  {
  }

  /** mapExtInterruptArea, which never panics on a mapped address either. */
  method MapExtInterruptArea(m: Machine, space: AddressSpace, l: Layout) returns (ok: bool)
    requires space.Valid(m) && LayoutOk(l) && MappedUpTo(space.S(m), l, MEMORY_END_VADDR)
    modifies space`tables, m`mem, m`free, m.frames.node
    ensures space.Valid(m) && Grows(old(space.S(m)), space.S(m))
    ensures if ok then MappedWithDevices(space.S(m), l, 4) else m.free == {}
  {
    hide Ok, Grows, MappedUpTo, MappedWithDevices;
    ghost var a := space.S(m);
    NoDevices(a, l);
    ok := MapDevice(m, space, l, 0);
    ghost var b := space.S(m);
    if ok {
      ok := MapDevice(m, space, l, 1);
      GrowsTrans(a, b, space.S(m));
      b := space.S(m);
    }
    if ok {
      ok := MapDevice(m, space, l, 2);
      GrowsTrans(a, b, space.S(m));
      b := space.S(m);
    }
    if ok {
      ok := MapDevice(m, space, l, 3);
      GrowsTrans(a, b, space.S(m));
    }
  }

  lemma NoDevices(s: State, l: Layout)
    requires LayoutOk(l) && MappedUpTo(s, l, MEMORY_END_VADDR)
    ensures MappedWithDevices(s, l, 0)
  {
  }

  method MapDevice(m: Machine, space: AddressSpace, l: Layout, n: nat) returns (ok: bool)
    requires space.Valid(m) && LayoutOk(l) && n < 4 && MappedWithDevices(space.S(m), l, n)
    modifies space`tables, m`mem, m`free, m.frames.node
    ensures space.Valid(m) && Grows(old(space.S(m)), space.S(m))
    ensures if ok then MappedWithDevices(space.S(m), l, n + 1) else m.free == {}
  {
    hide MappedWithDevices, Ok, Laid, Grows, Occupied, TooFew, Charged, Short, KeysOf;
    ghost var a := space.S(m);
    DevicePages(n);
    var r, pages := space.MapLinearSegment(m, DevicePage(n));
    ok := r == Done;
    if r == Done {
      NextDevice(a, space.S(m), l, n);
    } else if r.AlreadyMapped? {
      DeviceFree(a, l, n, r.vpn);
    }
  }

  /** A byte of the PLIC or UART registers, less the linear offset. */
  predicate DeviceByte(pa: int) {
    || 0xC00_0000 <= pa < 0xC00_1000
    || 0xC00_2000 <= pa < 0xC00_3000
    || 0xC20_1000 <= pa < 0xC20_2000
    || 0x1000_0000 <= pa < 0x1000_1000
  }

  /** Device registers translate linearly, can be read and written, but not executed, and are closed to programs. */
  lemma DeviceTranslation(s: State, l: Layout, va: int)
    requires Ok(s) && LayoutOk(l) && MappedWithDevices(s, l, 4) && DeviceByte(va - KERNEL_MAP_OFFSET)
    ensures var r := Translate(s.mem, s.tables[1], va);
            && r.Leaf? && r.level == 0 && PpnField(r.pte) * PAGE_SIZE + va % PAGE_SIZE == va - KERNEL_MAP_OFFSET
            && Readable(r.pte) && Writable(r.pte) && !Executable(r.pte) && !User(r.pte)
    ensures Closed(s, va)
  {
    var x := va / PAGE_SIZE;
    var n := DeviceOf(va);
    assert Full(x - TOP) == x && IsVpn(x - TOP);
    assert Lookup(s, x - TOP) == LinearPte(x, READ_WRITE);
    DivUnique(x, VPNS, 0x1ff_ffff, x - TOP);
    TranslationOf(s, va);
    DeviceFrame(x);
    LinearPteFields(x, READ_WRITE);
    FlagsOf(READ_WRITE);
    PteParts(x - KERNEL_PAGE_OFFSET, READ_WRITE);
  }

  lemma DeviceOf(va: int) returns (n: nat)
    requires DeviceByte(va - KERNEL_MAP_OFFSET)
    ensures n < 4 && va / PAGE_SIZE - KERNEL_PAGE_OFFSET == Device(n)
  {
    var pa := va - KERNEL_MAP_OFFSET;
    n := if pa < 0xC00_1000 then 0 else if pa < 0xC00_3000 then 1 else if pa < 0xC20_2000 then 2 else 3;
  }

  lemma DeviceFrame(x: int)
    requires 0 <= x - KERNEL_PAGE_OFFSET < 0x8_8000
    ensures LinearFrame(x) == x - KERNEL_PAGE_OFFSET
  {
  }
}
