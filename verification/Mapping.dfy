/**
 Physical memory with its frame allocator, and the mapping operations of
 kernel/mapping.c and kernel/thread.c on one address space. Physical memory is
 reached directly: the kernel's linear window only adds a constant to addresses.
 */
module Mapping {
  import opened Bits
  import opened Bytes
  import opened SegmentTree
  import opened PageTable
  import opened FrameCount

  /** How a mapping call ends: normally, or in one of its two panics. */
  datatype Outcome = Done | AlreadyMapped(vpn: int) | Depleted

  datatype Segment = Segment(startVaddr: int, endVaddr: int, flags: nat)

  /** Every page number has the same entry in both states. */
  ghost predicate SameLookup(a: State, b: State) {
    forall v | IsVpn(v) :: Lookup(b, v) == Lookup(a, v)
  }

  class Machine {
    var mem: Mem
    const frames: FrameTree
    ghost var free: set<int>

    ghost predicate Valid()
      reads this, frames, frames.node
    {
      frames.Valid() && free == frames.FreeFrames()
    }

    /** initFrameAllocator: memory m with the frames that tree f hands out. */
    constructor (m: Mem, f: FrameTree)
      requires f.Valid()
      ensures Valid() && mem == m && frames == f && free == f.FreeFrames()
    {
      mem := m;
      frames := f;
      free := f.FreeFrames();
    }

    /** allocFrame: the address of a zeroed page, or None for its panic. */
    method AllocFrame() returns (r: Option<int>)
      requires Valid() && forall f | f in free :: f in mem && |mem[f]| == PAGE_SIZE
      modifies this`mem, this`free, frames.node
      ensures Valid()
      ensures r.None? <==> old(free) == {}
      ensures r.None? ==> free == {} && mem == old(mem)
      ensures r.Some? ==>
        && IsLeast(old(free), r.value / PAGE_SIZE)
        && r.value % PAGE_SIZE == 0
        && free == old(free) - {r.value / PAGE_SIZE}
        && mem == old(mem)[r.value / PAGE_SIZE := ZeroPage()]
    {
      var ppn := frames.Alloc();
      free := frames.FreeFrames();
      if ppn.None? {
        return None;
      }
      var start := ppn.value * PAGE_SIZE;
      for i := 0 to PAGE_SIZE
        modifies this`mem
        invariant ppn.value in mem && |mem[ppn.value]| == PAGE_SIZE
        invariant mem == old(mem)[ppn.value := mem[ppn.value]]
        invariant forall j | 0 <= j < i :: mem[ppn.value][j] == 0
      {
        mem := mem[ppn.value := mem[ppn.value][i := 0]];
      }
      assert mem[ppn.value] == ZeroPage();
      return Some(start);
    }

    /** The copying loops of mapFramedAndCopy: l bytes are left from data[s] on. */
    method FillPage(f: int, data: seq<byte>, s: int, l: int)
      requires Valid() && f in mem && |mem[f]| == PAGE_SIZE
      requires (0 <= s && s + l <= |data|) || l <= 0
      modifies this`mem
      ensures Valid() && mem == old(mem)[f := PageFrom(data, s, l)]
    {
      if l >= PAGE_SIZE {
        for i := 0 to PAGE_SIZE
          invariant f in mem && |mem[f]| == PAGE_SIZE && mem == old(mem)[f := mem[f]]
          invariant forall j | 0 <= j < i :: mem[f][j] == data[s + j]
        {
          mem := mem[f := mem[f][i := data[s + i]]];
        }
      } else {
        var n := if l < 0 then 0 else l;
        for i := 0 to n
          invariant f in mem && |mem[f]| == PAGE_SIZE && mem == old(mem)[f := mem[f]]
          invariant forall j | 0 <= j < i :: mem[f][j] == data[s + j]
        {
          mem := mem[f := mem[f][i := data[s + i]]];
        }
        for i := n to PAGE_SIZE
          invariant f in mem && |mem[f]| == PAGE_SIZE && mem == old(mem)[f := mem[f]]
          invariant forall j | 0 <= j < i :: mem[f][j] == if j < n then data[s + j] else 0
        {
          mem := mem[f := mem[f][i := 0]];
        }
      }
      assert mem[f] == PageFrom(data, s, l);
    }
  }

  /** getVpnLevels */
  method GetVpnLevels(vpn: nat) returns (levels: seq<int>)
    ensures |levels| == 3
    ensures forall d | 0 <= d < 3 :: levels[d] == PathIndex(vpn % VPNS, d)
  {
    levels := [And(Shr(vpn, 18), 0x1ff), And(Shr(vpn, 9), 0x1ff), And(vpn, 0x1ff)];
    Pow2Of10();
    assert Pow2(18) == 0x4_0000;
    FieldOf(vpn, 18, 9);
    FieldOf(vpn, 9, 9);
    AndLowMask(vpn, 9);
    LevelArithmetic(vpn);
  }

  lemma LevelArithmetic(vpn: nat)
    ensures vpn / 0x4_0000 % 512 == vpn % VPNS / 0x4_0000
    ensures vpn / 512 % 512 == vpn % VPNS / 512 % 512
    ensures vpn % 512 == vpn % VPNS % 512
  {
    var q, v := vpn / VPNS, vpn % VPNS;
    assert vpn == q * VPNS + v;
    DivUnique(vpn, 0x4_0000, q * 512 + v / 0x4_0000, v % 0x4_0000);
    DivUnique(q * 512 + v / 0x4_0000, 512, q, v / 0x4_0000);
    DivUnique(vpn, 512, q * 0x4_0000 + v / 512, v % 512);
    DivUnique(q * 0x4_0000 + v / 512, 512, q * 512 + v / 0x4_0000, v / 512 % 512);
  }

  lemma DescendFacts(s: State, v: int, d: int)
    requires Ok(s) && IsVpn(v) && 0 <= d < 2 && PathKey(v, d) in s.tables
    ensures var k, i := PathKey(v, d), PathIndex(v, d);
            var e := Entry(s.mem, s.tables[k], i);
            && Inner(k) && 0 <= i < 512 && 512 * k + i == PathKey(v, d + 1)
            && (e == 0 <==> PathKey(v, d + 1) !in s.tables)
            && (e != 0 ==> NextFrame(e) == s.tables[PathKey(v, d + 1)])
  {
    PathStep(v, d);
    assert LinkOk(s, PathKey(v, d), PathIndex(v, d));
    if PathKey(v, d + 1) in s.tables {
      assert TableOk(s, PathKey(v, d + 1));
      NextOfTablePte(s.tables[PathKey(v, d + 1)]);
    }
  }

  lemma FreeFramesOk(s: State)
    requires Ok(s)
    ensures forall f | f in s.free :: f in s.mem && |s.mem[f]| == PAGE_SIZE && 0 <= f < MAX_PPN
  {
    forall f | f in s.free
      ensures f in s.mem && |s.mem[f]| == PAGE_SIZE && 0 <= f < MAX_PPN
    {
      assert FrameOk(s, f);
    }
  }

  /** What findEntry's loop keeps after d levels: the walk so far, and a state grown without new mappings. */
  ghost predicate Walking(before: State, s: State, v: int, d: int, table: int, index: int) {
    && Ok(before) && Ok(s) && Grows(before, s) && SameLookup(before, s)
    && IsVpn(v) && 0 <= d <= 2
    && PathKey(v, d) in s.tables
    && table == s.tables[PathKey(v, d)]
    && index == PathIndex(v, d)
  }

  lemma StartWalking(s: State, v: int)
    requires Ok(s) && IsVpn(v)
    ensures Walking(s, s, v, 0, s.tables[1], PathIndex(v, 0))
  {
    GrowsRefl(s);
  }

  /** One level where the table exists. */
  lemma WalkOn(before: State, s: State, v: int, d: int, table: int, index: int)
    requires Walking(before, s, v, d, table, index) && d < 2
    requires Entry(s.mem, table, index) != 0
    ensures Walking(before, s, v, d + 1, NextFrame(Entry(s.mem, table, index)), PathIndex(v, d + 1))
  {
    DescendFacts(s, v, d);
  }

  /** One level where the table is missing and a new one is hung in. */
  lemma WalkNew(before: State, s: State, v: int, d: int, table: int, index: int, f: int)
    requires Walking(before, s, v, d, table, index) && d < 2
    requires Entry(s.mem, table, index) == 0 && f in s.free
    ensures var k := PathKey(v, d);
            && k in s.tables && s.tables[k] == table && table in s.mem && |s.mem[table]| == PAGE_SIZE
            && 0 <= index < 512 && f != table && f >= 0
            && Walking(before, AddTable(s, k, index, f), v, d, table, index)
            && Entry(AddTable(s, k, index, f).mem, table, index) != 0
  {
    DescendFacts(s, v, d);
    var k := PathKey(v, d);
    AddTableKeepsOk(s, k, index, f);
    AddTableGrows(s, k, index, f);
    var b := AddTable(s, k, index, f);
    forall u | IsVpn(u)
      ensures Lookup(b, u) == Lookup(s, u)
    {
      AddTableKeepsLookup(s, k, index, f, u);
    }
    GrowsTrans(before, s, b);
    AddTableEntries(s, k, index, f, table, index);
  }

  /** An empty entry means that the next table is missing, and the page is not mapped. */
  lemma MissingTable(before: State, s: State, v: int, d: int, table: int, index: int)
    requires Walking(before, s, v, d, table, index) && d < 2 && Entry(s.mem, table, index) == 0
    ensures PathKey(v, d + 1) == 512 * PathKey(v, d) + index && PathKey(v, d + 1) !in s.tables
    ensures Lookup(before, v) == 0
  {
    DescendFacts(s, v, d);
    WalkLevel(s, v, d);
  }

  /** The walk has got to depth d and has paid for the tables on the way, and for nothing else. */
  ghost predicate Walked(before: State, s: State, v: int, d: int, table: int, index: int) {
    Walking(before, s, v, d, table, index) && Charged(before, s, TableKeys(v, d), 0)
  }

  /** The walk has used up the free frames before the last table, so v was not mapped. */
  ghost predicate Stuck(before: State, s: State, v: int) {
    && Ok(s) && Grows(before, s) && SameLookup(before, s)
    && s.free == {} && Lookup(before, v) == 0 && Short(before, TableKeys(v, 2), 0)
  }

  /** How findEntry ends: stuck, or at the last-level entry of v with the tables on the way paid for. */
  ghost predicate Located(before: State, s: State, v: int, r: Option<(int, int)>) {
    && Ok(s) && Grows(before, s) && SameLookup(before, s)
    && match r
       case None => Stuck(before, s, v)
       case Some(e) =>
         && PathKey(v, 2) in s.tables && e == (s.tables[PathKey(v, 2)], PathIndex(v, 2))
         && Charged(before, s, TableKeys(v, 2), 0)
  }

  lemma WalkFails(before: State, s: State, v: int)
    requires Ok(before) && Stuck(before, s, v)
    ensures Located(before, s, v, None) && Ok(s)
    ensures 1 in before.tables && 1 in s.tables && s.tables[1] == before.tables[1]
  {
    assert TableKept(before, s, 1);
  }

  lemma StartWalked(s: State, v: int)
    requires Ok(s) && IsVpn(v)
    ensures Walked(s, s, v, 0, s.tables[1], PathIndex(v, 0))
  {
    StartWalking(s, v);
    ChargeNothing(s);
    assert TableKeys(v, 0) == {};
  }

  /** One level: the next table is there, or has just been hung in behind the entry. */
  lemma WalkedOn(before: State, s: State, v: int, d: int, table: int, index: int)
    requires Walked(before, s, v, d, table, index) && d < 2 && Entry(s.mem, table, index) != 0
    ensures Walked(before, s, v, d + 1, NextFrame(Entry(s.mem, table, index)), PathIndex(v, d + 1))
  {
    WalkOn(before, s, v, d, table, index);
    DescendFacts(s, v, d);
    hide Walking, TableKeys, Charged, Lookup;
    TableIsThere(s, PathKey(v, d + 1));
    ChargeBoth(before, s, s, TableKeys(v, d), {PathKey(v, d + 1)}, 0, 0);
    NextTableKey(v, d + 1);
  }

  lemma WalkedNew(before: State, s: State, v: int, d: int, table: int, index: int, f: int)
    requires Walked(before, s, v, d, table, index) && d < 2
    requires Entry(s.mem, table, index) == 0 && f in s.free
    ensures var k := PathKey(v, d);
            && k in s.tables && s.tables[k] == table && table in s.mem && |s.mem[table]| == PAGE_SIZE
            && 0 <= index < 512 && f != table && f >= 0
            && var b := AddTable(s, k, index, f); var e := Entry(b.mem, table, index);
               e != 0 && Walked(before, b, v, d + 1, NextFrame(e), PathIndex(v, d + 1))
  {
    WalkNew(before, s, v, d, table, index, f);
    MissingTable(before, s, v, d, table, index);
    var b := AddTable(s, PathKey(v, d), index, f);
    WalkOn(before, b, v, d, table, index);
    hide Walking, TableKeys, Charged, Lookup, NextFrame, PathKey;
    ChargeTable(s, b, PathKey(v, d + 1), f);
    ChargeBoth(before, s, b, TableKeys(v, d), {PathKey(v, d + 1)}, 0, 0);
    NextTableKey(v, d + 1);
  }

  lemma WalkStuck(before: State, s: State, v: int, d: int, table: int, index: int)
    requires Walked(before, s, v, d, table, index) && d < 2
    requires Entry(s.mem, table, index) == 0 && s.free == {}
    ensures Stuck(before, s, v)
  {
    MissingTable(before, s, v, d, table, index);
    hide TableKeys, Charged, Short, PathKey;
    ShortOfTable(s, PathKey(v, d + 1));
    ShortAfter(before, s, TableKeys(v, d), {PathKey(v, d + 1)}, 0, 0);
    NextTableKey(v, d + 1);
    ShortOnTheWay(before, v, d + 1);
  }

  lemma WalkFacts(before: State, s: State, v: int, d: int, table: int, index: int)
    requires Walked(before, s, v, d, table, index)
    ensures table in s.mem && |s.mem[table]| == PAGE_SIZE && 0 <= index < 512
    ensures Ok(s) && Grows(before, s) && SameLookup(before, s)
    ensures 1 in before.tables && 1 in s.tables && s.tables[1] == before.tables[1]
  {
    assert TableKept(before, s, 1);
    TableFacts(s, PathKey(v, d));
  }

  // ----- page contents

  /** The page that mapFramedAndCopy fills from data when s bytes are behind it and l bytes are left. */
  function PageFrom(data: seq<byte>, s: int, l: int): (p: seq<byte>)
    requires (0 <= s && s + l <= |data|) || l <= 0
    ensures |p| == PAGE_SIZE
  {
    seq(PAGE_SIZE, i requires 0 <= i < PAGE_SIZE => if i < l then data[s + i] else 0)
  }

  /** Page j of a segment whose file part is data: the file bytes, then zeros. */
  function PageOf(data: seq<byte>, j: nat): (p: seq<byte>)
    ensures |p| == PAGE_SIZE
  {
    seq(PAGE_SIZE, i requires 0 <= i < PAGE_SIZE =>
      if PAGE_SIZE * j + i < |data| then data[PAGE_SIZE * j + i] else 0)
  }

  function PagesOf(data: seq<byte>, n: nat): seq<seq<byte>> {
    seq(n, j requires 0 <= j < n => PageOf(data, j))
  }

  // ----- laying out a run of pages

  function FirstVpn(g: Segment): int { g.startVaddr / PAGE_SIZE }

  /** (endVaddr - 1) / PAGE_SIZE + 1, in 64-bit arithmetic. */
  function EndVpn(g: Segment): int { (g.endVaddr - 1) % WORD / PAGE_SIZE + 1 }

  /** The place of the 27-bit page number w in a run that starts at start. */
  function Rel(w: int, start: int): int { (w - start) % VPNS }

  /** After laying entries ptes from page number start on, w has the entry laid over it, else its old one. */
  ghost predicate LaidAt(a: State, b: State, start: int, ptes: seq<nat>, w: int) {
    if Rel(w, start) < |ptes| then Lookup(b, w) == ptes[Rel(w, start)] && Lookup(a, w) == 0
    else Lookup(b, w) == Lookup(a, w)
  }

  /** State b is state a with exactly the entries ptes mapped from page number start on, where nothing was mapped. */
  ghost predicate Laid(a: State, b: State, start: int, ptes: seq<nat>) {
    && Ok(a) && Ok(b) && Grows(a, b)
    && |ptes| <= VPNS
    && (forall j | 0 <= j < |ptes| :: ptes[j] != 0)
    && (forall w | IsVpn(w) :: LaidAt(a, b, start, ptes, w))
  }

  lemma RelOf(x: int, start: int, w: int)
    requires start <= x <= start + VPNS && IsVpn(w)
    ensures x < start + VPNS ==> (Rel(w, start) == x - start <==> w == x % VPNS)
    ensures 0 <= Rel(w, start) < VPNS
  {
    var r := Rel(w, start);
    assert (w - start) == (w - start) / VPNS * VPNS + r;
    if x < start + VPNS {
      if w == x % VPNS {
        DivUnique(w - start, VPNS, -(x / VPNS), x - start);
      } else if r == x - start {
        DivUnique(x, VPNS, -((w - start) / VPNS), w);
      }
    }
  }

  lemma StartLaying(a: State, start: int)
    requires Ok(a)
    ensures Laid(a, a, start, [])
  {
    GrowsRefl(a);
  }

  /** One more page: b1 is b with the tables for the page in place, and its entry is still empty. */
  lemma LayNext(a: State, b: State, b1: State, start: int, ptes: seq<nat>, pte: nat)
    requires Laid(a, b, start, ptes) && Ok(b1) && Grows(b, b1) && SameLookup(b, b1)
    requires var v := (start + |ptes|) % VPNS; Lookup(b1, v) == 0 && PathKey(v, 2) in b1.tables
    requires 0 < pte < WORD
    ensures var v := (start + |ptes|) % VPNS; var t := b1.tables[PathKey(v, 2)];
            && IsVpn(v) && t in b1.mem && |b1.mem[t]| == PAGE_SIZE
            && Laid(a, MapPage(b1, v, pte), start, ptes + [pte])
  {
    var v := (start + |ptes|) % VPNS;
    FreeBefore(a, b, start, ptes);
    TableFacts(b1, PathKey(v, 2));
    MapPageKeepsOk(b1, v, pte);
    MapPageGrows(b1, v, pte);
    GrowsTrans(b, b1, MapPage(b1, v, pte));
    GrowsTrans(a, b, MapPage(b1, v, pte));
    hide Ok, Grows, SameLookup, Lookup, MapPage;
    forall w | IsVpn(w)
      ensures LaidAt(a, MapPage(b1, v, pte), start, ptes + [pte], w)
    {
      LaidNextAt(a, b, b1, start, ptes, pte, w);
    }
  }

  lemma LaidNextAt(a: State, b: State, b1: State, start: int, ptes: seq<nat>, pte: nat, w: int)
    requires Laid(a, b, start, ptes) && |ptes| < VPNS && Ok(b1) && SameLookup(b, b1) && IsVpn(w) && pte < WORD
    requires var v := (start + |ptes|) % VPNS; Lookup(b1, v) == 0 && PathKey(v, 2) in b1.tables
    ensures var v := (start + |ptes|) % VPNS; var t := b1.tables[PathKey(v, 2)];
            && IsVpn(v) && t in b1.mem && |b1.mem[t]| == PAGE_SIZE
            && LaidAt(a, MapPage(b1, v, pte), start, ptes + [pte], w)
  {
    var v := (start + |ptes|) % VPNS;
    hide Ok, Grows, Lookup;
    assert LaidAt(a, b, start, ptes, w);
    TableFacts(b1, PathKey(v, 2));
    MapPageLookup(b1, v, pte, w);
    RelOf(start + |ptes|, start, w);
  }

  /** A page whose entry is not empty was mapped before, or the run has gone round the whole address space. */
  lemma MappedBefore(a: State, b: State, start: int, ptes: seq<nat>, b1: State)
    requires Laid(a, b, start, ptes) && SameLookup(b, b1)
    requires Lookup(b1, (start + |ptes|) % VPNS) != 0
    ensures Lookup(a, (start + |ptes|) % VPNS) != 0 || |ptes| == VPNS
  {
    var v := (start + |ptes|) % VPNS;
    assert LaidAt(a, b, start, ptes, v);
    RelOf(start + |ptes|, start, v);
  }

  lemma LaidFacts(a: State, b: State, start: int, ptes: seq<nat>)
    requires Laid(a, b, start, ptes)
    ensures Ok(a) && Ok(b) && Grows(a, b) && 1 in a.tables && 1 in b.tables && b.tables[1] == a.tables[1]
  {
    assert TableKept(a, b, 1);
  }

  /** The entries of pages start .. start+n of a linear segment. */
  function LinearPtes(start: int, n: nat, flags: nat): seq<nat> {
    seq<nat>(n, j requires 0 <= j < n => LinearPte(start + j, flags))
  }

  lemma LinearPteBounds(vpn: int, flags: nat)
    requires flags < 1024
    ensures 0 < LinearPte(vpn, flags) < WORD
  {
    LinearPteFields(vpn, flags);
    FlagsWithValid(flags);
  }

  /** The entries that map data frames fs. */
  function FramePtes(fs: seq<nat>, flags: nat): seq<nat> {
    seq(|fs|, j requires 0 <= j < |fs| => FramePte(fs[j], flags))
  }

  lemma FramePteBounds(f: nat, flags: nat)
    requires flags < 1024 && f < MAX_PPN
    ensures 0 < FramePte(f, flags) < WORD
  {
    PteFields(f, flags);
    FlagsWithValid(flags);
  }

  /** Frames fs came from a's free frames, are distinct, in use, no tables, and hold the given pages. */
  ghost predicate Held(a: State, b: State, fs: seq<nat>, pages: seq<seq<byte>>) {
    && |fs| == |pages|
    && (forall j | 0 <= j < |fs| :: HeldAt(a, b, fs[j], pages[j]))
    && (forall i, j | 0 <= i < j < |fs| :: fs[i] != fs[j])
  }

  ghost predicate HeldAt(a: State, b: State, f: nat, page: seq<byte>) {
    && f in a.free && f !in b.free && NotTable(b, f)
    && f in b.mem && b.mem[f] == page
  }

  lemma HeldGrows(a: State, b: State, c: State, fs: seq<nat>, pages: seq<seq<byte>>)
    requires Held(a, b, fs, pages) && Grows(b, c)
    ensures Held(a, c, fs, pages)
  {
    forall j | 0 <= j < |fs|
      ensures HeldAt(a, c, fs[j], pages[j])
    {
      assert HeldAt(a, b, fs[j], pages[j]);
      HeldAtGrows(a, b, c, fs[j], pages[j]);
    }
  }

  lemma HeldAtGrows(a: State, b: State, c: State, f: nat, page: seq<byte>)
    requires HeldAt(a, b, f, page) && Grows(b, c)
    ensures HeldAt(a, c, f, page)
  {
    assert BytesKept(b, c, f);
    forall k | k in c.tables
      ensures c.tables[k] != f
    {
      assert TableKept(b, c, k);
    }
  }

  /** One more data page, filled before its entry is written. */
  lemma HoldNext(a: State, b: State, b1: State, start: int, fs: seq<nat>, flags: nat,
                 pages: seq<seq<byte>>, f: nat, page: seq<byte>)
    requires Laid(a, b, start, FramePtes(fs, flags)) && Held(a, b, fs, pages) && flags < 1024
    requires Ok(b1) && Grows(b, b1) && SameLookup(b, b1) && f in b1.free && |page| == PAGE_SIZE
    requires var v := (start + |fs|) % VPNS; Lookup(b1, v) == 0 && PathKey(v, 2) in b1.tables
    ensures var v := (start + |fs|) % VPNS; var b2 := TakePage(b1, f, page); var t := b1.tables[PathKey(v, 2)];
            && IsVpn(v) && t in b2.mem && |b2.mem[t]| == PAGE_SIZE && t != f
            && Laid(a, MapPage(b2, v, FramePte(f, flags)), start, FramePtes(fs + [f], flags))
            && Held(a, MapPage(b2, v, FramePte(f, flags)), fs + [f], pages + [page])
  {
    var v := (start + |fs|) % VPNS;
    var b2, pte := TakePage(b1, f, page), FramePte(f, flags);
    TakeForData(b, b1, f, page);
    assert FrameOk(b1, f);
    FramePteBounds(f, flags);
    LayNext(a, b, b2, start, FramePtes(fs, flags), pte);
    assert FramePtes(fs, flags) + [pte] == FramePtes(fs + [f], flags);
    TableFacts(b1, PathKey(v, 2));
    MapPageGrows(b2, v, pte);
    var b3 := MapPage(b2, v, pte);
    HeldGrows(a, b, b2, fs, pages);
    NewHeld(a, b, b1, f, page);
    HeldGrows(a, b2, b3, fs, pages);
    HeldAtGrows(a, b2, b3, f, page);
    StillDistinct(a, b, b1, fs, pages, f, page);
    HeldSnoc(a, b3, fs, pages, f, page);
  }

  lemma HeldSnoc(a: State, b: State, fs: seq<nat>, pages: seq<seq<byte>>, f: nat, page: seq<byte>)
    requires Held(a, b, fs, pages) && HeldAt(a, b, f, page) && f !in fs
    ensures Held(a, b, fs + [f], pages + [page])
  {
  }

  lemma StillDistinct(a: State, b: State, b1: State, fs: seq<nat>, pages: seq<seq<byte>>, f: nat, page: seq<byte>)
    requires Held(a, b, fs, pages) && f in b1.free && Grows(b, b1)
    ensures f !in fs
  {
    forall j | 0 <= j < |fs|
      ensures fs[j] != f
    {
      assert HeldAt(a, b, fs[j], pages[j]);
    }
  }

  lemma TakeForData(b: State, b1: State, f: nat, page: seq<byte>)
    requires Ok(b) && Ok(b1) && Grows(b, b1) && SameLookup(b, b1) && f in b1.free && |page| == PAGE_SIZE
    ensures Ok(TakePage(b1, f, page)) && Grows(b1, TakePage(b1, f, page)) && Grows(b, TakePage(b1, f, page))
    ensures SameLookup(b1, TakePage(b1, f, page)) && SameLookup(b, TakePage(b1, f, page))
    ensures NotTable(TakePage(b1, f, page), f)
  {
    TakePageKeeps(b1, f, page);
    GrowsTrans(b, b1, TakePage(b1, f, page));
  }

  lemma NewHeld(a: State, b: State, b1: State, f: nat, page: seq<byte>)
    requires Ok(b1) && Grows(a, b) && Grows(b, b1) && f in b1.free && |page| == PAGE_SIZE
    ensures HeldAt(a, TakePage(b1, f, page), f, page)
  {
    TakePageKeeps(b1, f, page);
  }

  /** Filling the page after its entry is written comes to the same. */
  lemma FillCommutes(s: State, f: int, page: seq<byte>, v: int, w: nat)
    requires IsVpn(v) && PathKey(v, 2) in s.tables && f != s.tables[PathKey(v, 2)]
    requires s.tables[PathKey(v, 2)] in s.mem && |s.mem[s.tables[PathKey(v, 2)]]| == PAGE_SIZE
    ensures var b := MapPage(TakePage(s, f, ZeroPage()), v, w);
            b.(mem := b.mem[f := page]) == MapPage(TakePage(s, f, page), v, w)
  {
  }

  class AddressSpace {
    var rootPpn: int
    ghost var tables: map<int, int>

    ghost function S(m: Machine): State
      reads this, m
    {
      State(m.mem, m.free, tables)
    }

    ghost predicate Valid(m: Machine)
      reads this, m, m.frames, m.frames.node
    {
      m.Valid() && Ok(S(m)) && tables[1] == rootPpn
    }

    constructor (root: int, ghost t: map<int, int>)
      ensures rootPpn == root && tables == t
    {
      rootPpn := root;
      tables := t;
    }

    /** findEntry's test for an empty entry: behind one, a new table is allocated and the entry points at it. */
    method HangTable(m: Machine, ghost before: State, ghost v: int, ghost d: int, table: int, index: int)
      returns (ok: bool)
      requires m.Valid() && Walked(before, S(m), v, d, table, index) && d < 2
      modifies this`tables, m`mem, m`free, m.frames.node
      ensures m.Valid()
      ensures if ok then Walked(before, S(m), v, d + 1, NextFrame(Entry(m.mem, table, index)), PathIndex(v, d + 1))
              else Stuck(before, S(m), v)
    {
      hide Ok, Grows, SameLookup, Walked, Stuck, Lookup, Entry, PathKey, PathIndex, TablePte, NextFrame;
      hide FrameTree.Valid, FrameTree.FreeFrames;
      ghost var s := S(m);
      WalkFacts(before, s, v, d, table, index);
      ok := true;
      if Entry(m.mem, table, index) != 0 {
        WalkedOn(before, s, v, d, table, index);
      } else {
        FreeFramesOk(s);
        var newPage := m.AllocFrame();
        ok := newPage.Some?;
        if ok {
          var newPpn := newPage.value / PAGE_SIZE;
          WalkedNew(before, s, v, d, table, index, newPpn);
          m.mem := SetEntry(m.mem, table, index, TablePte(newPpn));
          tables := tables[512 * PathKey(v, d) + index := newPpn];
          assert S(m) == AddTable(s, PathKey(v, d), index, newPpn);
        } else {
          WalkStuck(before, s, v, d, table, index);
        }
      }
    }

    /** findEntry: the table and index of the last-level entry of vpn, or None if frames ran out. */
    method FindEntry(m: Machine, vpn: nat) returns (r: Option<(int, int)>)
      requires Valid(m)
      modifies this`tables, m`mem, m`free, m.frames.node
      ensures Valid(m) && Located(old(S(m)), S(m), vpn % VPNS, r)
    {
      hide Ok, Walked, Stuck, Located, Entry, PathKey, PathIndex, NextFrame, Machine.Valid;
      ghost var before, v := S(m), vpn % VPNS;
      var levels := GetVpnLevels(vpn);
      var table, index := rootPpn, levels[0];
      StartWalked(before, v);
      var i := 1;
      while i <= 2
        invariant 1 <= i <= 3 && m.Valid()
        invariant Walked(before, S(m), v, i - 1, table, index)
      {
        var ok := HangTable(m, before, v, i - 1, table, index);
        if !ok {
          WalkFails(before, S(m), v);
          return None;
        }
        table, index := NextFrame(Entry(m.mem, table, index)), levels[i];
        i := i + 1;
      }
      WalkEnds(before, S(m), v, table, index);
      r := Some((table, index));
    }

    /** mapLinearSegment; n pages were mapped before it ended. */
    method MapLinearSegment(m: Machine, segment: Segment) returns (r: Outcome, ghost n: nat)
      requires Valid(m) && segment.flags < 1024 && segment.startVaddr >= 0
      modifies this`tables, m`mem, m`free, m.frames.node
      ensures Valid(m) && Grows(old(S(m)), S(m))
      ensures Laid(old(S(m)), S(m), FirstVpn(segment), LinearPtes(FirstVpn(segment), n, segment.flags))
      ensures EndsAfter(old(S(m)), segment, r, n) && Billed(old(S(m)), S(m), FirstVpn(segment), false, r, n)
      ensures r == Depleted <==> TooFew(old(S(m)), segment, false)
      ensures r == Done && Nonempty(segment) ==> MapsItsAddresses(old(S(m)), S(m), segment)
    {
      hide Laid, Ok, Grows, SameLookup, LinearPtes, Located, LinearSoFar, Billed, TooFew, EndsAfter;
      hide MapsItsAddresses;
      ghost var a := S(m);
      var startVpn, endVpn := FirstVpn(segment), EndVpn(segment);
      StartLinear(a, segment);
      var vpn := startVpn;
      n, r := 0, Done;
      while r == Done && vpn < endVpn
        invariant n == vpn - startVpn
        invariant m.Valid() && LinearSoFar(a, S(m), segment, r, n)
        decreases r == Done, endVpn - vpn
      {
        LinearFacts(a, S(m), segment, r, n);
        ghost var b := S(m);
        var entry := FindEntry(m, vpn);
        if entry.None? {
          LinearStuck(a, b, S(m), segment, n);
          r := Depleted;
        } else {
          var (table, index) := entry.value;
          LinearStep(a, b, S(m), segment, n, table, index);
          if Entry(m.mem, table, index) != 0 {
            r := AlreadyMapped(vpn);
          } else {
            m.mem := SetEntry(m.mem, table, index, LinearPte(vpn, segment.flags));
            vpn := vpn + 1;
            n := n + 1;
          }
        }
      }
      LinearFacts(a, S(m), segment, r, n);
      EndLinear(a, S(m), segment, r, n);
    }

    /** What the loops of mapFramedSegment and mapFramedAndCopy have in common: give page vpn a zeroed frame. */
    method MapFrame(m: Machine, vpn: nat, flags: nat, ghost a: State, ghost start: int, ghost fs: seq<nat>,
                    ghost data: seq<byte>)
      returns (r: Outcome, page: nat)
      requires Valid(m) && Framing(a, S(m), start, fs, flags, data) && vpn == start + |fs|
      modifies this`tables, m`mem, m`free, m.frames.node
      ensures m.Valid() && Turn(a, old(S(m)), S(m), start, fs, flags, data, r, page)
    {
      hide Framing, Ok, Grows, SameLookup, Lookup, PageOf, Located, Turn;
      ghost var b := S(m);
      r, page := Done, 0;
      var entry := FindEntry(m, vpn);
      ghost var b1 := S(m);
      if entry.None? {
        TurnStuck(a, b, b1, start, fs, flags, data);
        r := Depleted;
      } else {
        var (table, index) := entry.value;
        FramingEntry(a, b, b1, start, fs, flags, data, table, index);
        if Entry(m.mem, table, index) != 0 {
          r := AlreadyMapped(vpn);
        } else {
          FreeFramesOk(b1);
          var p := m.AllocFrame();
          if p.None? {
            TurnShort(a, b, b1, start, fs, flags, data, table, index);
            r := Depleted;
          } else {
            page := p.value;
            FramingStep(a, b, b1, start, fs, flags, data, page / PAGE_SIZE, page, table, index);
            m.mem := SetEntry(m.mem, table, index, Or(Or(page / 4, flags), 1));
          }
        }
      }
    }

    /** mapFramedSegment; the frames fs were mapped before it ended. */
    method MapFramedSegment(m: Machine, segment: Segment) returns (r: Outcome, ghost fs: seq<nat>)
      requires Valid(m) && segment.flags < 1024 && segment.startVaddr >= 0
      modifies this`tables, m`mem, m`free, m.frames.node
      ensures Valid(m) && Grows(old(S(m)), S(m))
      ensures Framing(old(S(m)), S(m), FirstVpn(segment), fs, segment.flags, [])
      ensures EndsAfter(old(S(m)), segment, r, |fs|) && Billed(old(S(m)), S(m), FirstVpn(segment), true, r, |fs|)
      ensures r == Depleted <==> TooFew(old(S(m)), segment, true)
      ensures r == Done && Nonempty(segment) ==> MapsItsAddresses(old(S(m)), S(m), segment)
    {
      hide Framing, Ok, Grows, Lookup, PageOf, Turn, FramedSoFar, Billed, TooFew, EndsAfter;
      hide MapsItsAddresses;
      ghost var a := S(m);
      var startVpn, endVpn := FirstVpn(segment), EndVpn(segment);
      var vpn := startVpn;
      r, fs := Done, [];
      StartFraming(a, segment, []);
      while r == Done && vpn < endVpn
        invariant |fs| == vpn - startVpn
        invariant m.Valid() && FramedSoFar(a, S(m), segment, r, fs, [])
        decreases r == Done, endVpn - vpn
      {
        FramingFacts(a, S(m), segment, r, fs, []);
        ghost var b := S(m);
        var page;
        r, page := MapFrame(m, vpn, segment.flags, a, startVpn, fs, []);
        NextTurn(a, b, S(m), segment, fs, [], r, page);
        if r == Done {
          NoData(|fs|);
          assert m.mem[page / PAGE_SIZE := ZeroPage()] == m.mem;
          fs := fs + [page / PAGE_SIZE];
          vpn := vpn + 1;
        }
      }
      FramingFacts(a, S(m), segment, r, fs, []);
      EndFramedLoop(a, S(m), segment, r, fs, []);
    }

    /** mapFramedAndCopy; the frames fs were mapped and filled before it ended. */
    method MapFramedAndCopy(m: Machine, segment: Segment, data: seq<byte>) returns (r: Outcome, ghost fs: seq<nat>)
      requires Valid(m) && segment.flags < 1024 && segment.startVaddr >= 0
      modifies this`tables, m`mem, m`free, m.frames.node
      ensures Valid(m) && Grows(old(S(m)), S(m))
      ensures Framing(old(S(m)), S(m), FirstVpn(segment), fs, segment.flags, data)
      ensures EndsAfter(old(S(m)), segment, r, |fs|) && Billed(old(S(m)), S(m), FirstVpn(segment), true, r, |fs|)
      ensures r == Depleted <==> TooFew(old(S(m)), segment, true)
      ensures r == Done && Nonempty(segment) ==> MapsItsAddresses(old(S(m)), S(m), segment)
    {
      hide Framing, Ok, Grows, Lookup, PageOf, PageFrom, Turn, FramedSoFar, Billed, TooFew, EndsAfter;
      hide MapsItsAddresses;
      ghost var a := S(m);
      var s, l := 0, |data|;
      var startVpn, endVpn := FirstVpn(segment), EndVpn(segment);
      var vpn := startVpn;
      r, fs := Done, [];
      StartFraming(a, segment, data);
      while r == Done && vpn < endVpn
        invariant |fs| == vpn - startVpn
        invariant s == PAGE_SIZE * |fs| && l == if s < |data| then |data| - s else 0
        invariant m.Valid() && FramedSoFar(a, S(m), segment, r, fs, data)
        decreases r == Done, endVpn - vpn
      {
        FramingFacts(a, S(m), segment, r, fs, data);
        ghost var b := S(m);
        var page;
        r, page := MapFrame(m, vpn, segment.flags, a, startVpn, fs, data);
        NextTurn(a, b, S(m), segment, fs, data, r, page);
        if r == Done {
          NextPage(data, |fs|, s, l);
          m.FillPage(page / PAGE_SIZE, data, s, l);
          fs := fs + [page / PAGE_SIZE];
          s := s + PAGE_SIZE;
          l := if l >= PAGE_SIZE then l - PAGE_SIZE else 0;
          vpn := vpn + 1;
        }
      }
      FramingFacts(a, S(m), segment, r, fs, data);
      EndFramedLoop(a, S(m), segment, r, fs, data);
    }
  }

  lemma NextPage(data: seq<byte>, j: nat, s: int, l: int)
    requires s == PAGE_SIZE * j && l == if s < |data| then |data| - s else 0
    ensures PageFrom(data, s, l) == PageOf(data, j)
  {
  }

  /** What the loops of mapFramedSegment and mapFramedAndCopy keep. */
  ghost predicate Framing(a: State, b: State, start: int, fs: seq<nat>, flags: nat, data: seq<byte>) {
    && flags < 1024
    && Laid(a, b, start, FramePtes(fs, flags))
    && Held(a, b, fs, PagesOf(data, |fs|))
  }

  /** The segment's pages, and nothing else, were mapped to fresh frames that hold data padded with zeros. */
  ghost predicate Framed(a: State, b: State, g: Segment, fs: seq<nat>, data: seq<byte>) {
    |fs| == Count(g) && Framing(a, b, FirstVpn(g), fs, g.flags, data)
  }

  /** Finding an entry maps nothing. */
  lemma LaidKept(a: State, b: State, b1: State, start: int, ptes: seq<nat>)
    requires Laid(a, b, start, ptes) && Ok(b1) && Grows(b, b1) && SameLookup(b, b1)
    ensures Laid(a, b1, start, ptes) && Grows(a, b1)
  {
    hide Ok, Grows, Lookup;
    GrowsTrans(a, b, b1);
    forall w | IsVpn(w)
      ensures LaidAt(a, b1, start, ptes, w)
    {
      assert LaidAt(a, b, start, ptes, w);
    }
  }

  lemma FramingKept(a: State, b: State, b1: State, start: int, fs: seq<nat>, flags: nat, data: seq<byte>)
    requires Framing(a, b, start, fs, flags, data) && Ok(b1) && Grows(b, b1) && SameLookup(b, b1)
    ensures Framing(a, b1, start, fs, flags, data) && Grows(a, b1)
  {
    LaidKept(a, b, b1, start, FramePtes(fs, flags));
    HeldGrows(a, b, b1, fs, PagesOf(data, |fs|));
  }

  lemma NoData(j: nat)
    ensures PageOf([], j) == ZeroPage()
  {
  }

  /** How one turn of the framed loops ends, from state b on. */
  ghost predicate Turn(a: State, b: State, c: State, start: int, fs: seq<nat>, flags: nat, data: seq<byte>,
                       r: Outcome, page: nat) {
    var v, f := (start + |fs|) % VPNS, page / PAGE_SIZE;
    match r
    case Done =>
      && f in c.mem && c.mem[f] == ZeroPage() && Charged(b, c, TableKeys(v, 2), 1)
      && Framing(a, State(c.mem[f := PageOf(data, |fs|)], c.free, c.tables), start, fs + [f], flags, data)
    case AlreadyMapped(vpn) =>
      && Framing(a, c, start, fs, flags, data)
      && vpn == start + |fs| && (Lookup(a, v) != 0 || |fs| == VPNS)
    case Depleted =>
      && Framing(a, c, start, fs, flags, data)
      && c.free == {} && Lookup(a, v) == 0 && |fs| < VPNS && Short(b, TableKeys(v, 2), 1)
  }

  lemma FramingFree(a: State, b: State, start: int, fs: seq<nat>, flags: nat, data: seq<byte>)
    requires Framing(a, b, start, fs, flags, data) && Lookup(b, (start + |fs|) % VPNS) == 0
    ensures Lookup(a, (start + |fs|) % VPNS) == 0 && |fs| < VPNS
  {
    FreeBefore(a, b, start, FramePtes(fs, flags));
  }

  lemma TurnStuck(a: State, b: State, b1: State, start: int, fs: seq<nat>, flags: nat, data: seq<byte>)
    requires Framing(a, b, start, fs, flags, data) && Located(b, b1, (start + |fs|) % VPNS, None)
    ensures Turn(a, b, b1, start, fs, flags, data, Depleted, 0)
  {
    hide Ok, Grows, SameLookup, TableKeys, Short, Lookup, Framing;
    FramingKept(a, b, b1, start, fs, flags, data);
    FramingFree(a, b, start, fs, flags, data);
    ShortForMore(b, TableKeys((start + |fs|) % VPNS, 2), TableKeys((start + |fs|) % VPNS, 2), 0, 1);
  }

  /** After findEntry: its entry is the one of the next page, and a nonempty one means the panic. */
  lemma FramingEntry(a: State, b: State, b1: State, start: int, fs: seq<nat>, flags: nat, data: seq<byte>,
                     table: int, index: int)
    requires Framing(a, b, start, fs, flags, data) && Located(b, b1, (start + |fs|) % VPNS, Some((table, index)))
    ensures Ok(b1) && table in b1.mem && |b1.mem[table]| == PAGE_SIZE && 0 <= index < 512
    ensures Entry(b1.mem, table, index) != 0 ==>
              Turn(a, b, b1, start, fs, flags, data, AlreadyMapped(start + |fs|), 0)
  {
    hide Ok, Grows, TableKeys, Charged, Held;
    FramingKept(a, b, b1, start, fs, flags, data);
    var v := (start + |fs|) % VPNS;
    TableFacts(b1, PathKey(v, 2));
    if Lookup(b1, v) != 0 {
      MappedBefore(a, b, start, FramePtes(fs, flags), b1);
    }
  }

  lemma TurnShort(a: State, b: State, b1: State, start: int, fs: seq<nat>, flags: nat, data: seq<byte>,
                  table: int, index: int)
    requires Framing(a, b, start, fs, flags, data) && Located(b, b1, (start + |fs|) % VPNS, Some((table, index)))
    requires Entry(b1.mem, table, index) == 0 && b1.free == {}
    ensures Turn(a, b, b1, start, fs, flags, data, Depleted, 0)
  {
    var v := (start + |fs|) % VPNS;
    assert Lookup(b1, v) == Lookup(b, v) == 0;
    hide Ok, Grows, SameLookup, TableKeys, Charged, Short, Lookup, Entry, PathKey, PathIndex, Framing;
    FramingKept(a, b, b1, start, fs, flags, data);
    FramingFree(a, b, start, fs, flags, data);
    ShortBesides(b, b1, TableKeys(v, 2));
  }

  /** Taking frame f for the next page, mapping it and filling it with that page's part of data. */
  lemma FramingStep(a: State, b: State, b1: State, start: int, fs: seq<nat>, flags: nat, data: seq<byte>,
                    f: nat, addr: int, table: int, index: int)
    requires Framing(a, b, start, fs, flags, data) && Located(b, b1, (start + |fs|) % VPNS, Some((table, index)))
    requires f in b1.free && addr == f * PAGE_SIZE && Entry(b1.mem, table, index) == 0
    ensures var zeroed := b1.mem[f := ZeroPage()];
            && table in zeroed && |zeroed[table]| == PAGE_SIZE && 0 <= index < 512
            && Turn(a, b, State(SetEntry(zeroed, table, index, Or(Or(addr / 4, flags), 1)), b1.free - {f}, b1.tables),
                    start, fs, flags, data, Done, addr)
  {
    var v := (start + |fs|) % VPNS;
    LocatedEmpty(b, b1, v, table, index);
    hide Framing, Ok, Grows, SameLookup, Lookup, TableKeys, Charged, PathKey, PathIndex, PageOf, SetEntry, Entry;
    FramingNext(a, b, b1, start, fs, flags, data, f, addr);
    var linked := SetEntry(b1.mem[f := ZeroPage()], table, index, Or(Or(addr / 4, flags), 1));
    ChargeBesides(b, b1, State(linked, b1.free - {f}, b1.tables), TableKeys(v, 2), f);
  }

  lemma LocatedEmpty(b: State, b1: State, v: int, table: int, index: int)
    requires Located(b, b1, v, Some((table, index))) && Entry(b1.mem, table, index) == 0
    ensures Ok(b1) && Grows(b, b1) && SameLookup(b, b1) && Lookup(b1, v) == 0 && Charged(b, b1, TableKeys(v, 2), 0)
    ensures PathKey(v, 2) in b1.tables && table == b1.tables[PathKey(v, 2)] && index == PathIndex(v, 2)
  {
  }

  lemma FramingNext(a: State, b: State, b1: State, start: int, fs: seq<nat>, flags: nat, data: seq<byte>,
                    f: nat, addr: int)
    requires Framing(a, b, start, fs, flags, data)
    requires Ok(b1) && Grows(b, b1) && SameLookup(b, b1) && f in b1.free && addr == f * PAGE_SIZE
    requires var v := (start + |fs|) % VPNS; Lookup(b1, v) == 0 && PathKey(v, 2) in b1.tables
    ensures var v := (start + |fs|) % VPNS; var t, i := b1.tables[PathKey(v, 2)], PathIndex(v, 2);
            var zeroed := b1.mem[f := ZeroPage()];
            && t in zeroed && |zeroed[t]| == PAGE_SIZE && 0 <= i < 512 && t != f
            && var linked := SetEntry(zeroed, t, i, Or(Or(addr / 4, flags), 1));
            && linked[f] == ZeroPage()
            && Framing(a, State(linked[f := PageOf(data, |fs|)], b1.free - {f}, b1.tables),
                       start, fs + [f], flags, data)
  {
    var v, page := (start + |fs|) % VPNS, PageOf(data, |fs|);
    TableFacts(b1, PathKey(v, 2));
    HoldNext(a, b, b1, start, fs, flags, PagesOf(data, |fs|), f, page);
    FillCommutes(b1, f, page, v, FramePte(f, flags));
    assert PagesOf(data, |fs|) + [page] == PagesOf(data, |fs| + 1);
  }

  /** What the framed loops keep, while r is Done, and what they leave. */
  ghost predicate FramedSoFar(a: State, b: State, g: Segment, r: Outcome, fs: seq<nat>, data: seq<byte>) {
    && Framing(a, b, FirstVpn(g), fs, g.flags, data)
    && (if r == Done then |fs| <= Count(g) else EndsAfter(a, g, r, |fs|))
    && Billed(a, b, FirstVpn(g), true, r, |fs|)
  }

  lemma StartFraming(a: State, g: Segment, data: seq<byte>)
    requires Ok(a) && g.flags < 1024
    ensures FramedSoFar(a, a, g, Done, [], data)
  {
    StartLaying(a, FirstVpn(g));
    ChargeNothing(a);
  }

  lemma FramingFacts(a: State, b: State, g: Segment, r: Outcome, fs: seq<nat>, data: seq<byte>)
    requires FramedSoFar(a, b, g, r, fs, data)
    ensures Framing(a, b, FirstVpn(g), fs, g.flags, data)
    ensures Ok(a) && Ok(b) && Grows(a, b) && 1 in a.tables && 1 in b.tables && b.tables[1] == a.tables[1]
  {
    LaidFacts(a, b, FirstVpn(g), FramePtes(fs, g.flags));
  }

  lemma NextTurn(a: State, b: State, c: State, g: Segment, fs: seq<nat>, data: seq<byte>, r: Outcome, page: nat)
    requires FramedSoFar(a, b, g, Done, fs, data) && |fs| < Count(g)
    requires Turn(a, b, c, FirstVpn(g), fs, g.flags, data, r, page)
    ensures if r == Done then
              FramedSoFar(a, State(c.mem[page / PAGE_SIZE := PageOf(data, |fs|)], c.free, c.tables), g, r,
                          fs + [page / PAGE_SIZE], data)
            else FramedSoFar(a, c, g, r, fs, data)
    ensures r == Done ==>
              page / PAGE_SIZE in c.mem && c.mem[page / PAGE_SIZE] == ZeroPage()
  {
    hide Framing, Lookup, TableKeys, Charged, Short, PageOf, FirstVpn, Count, Occupied, Billed, OccupiedAt;
    var start, n, d := FirstVpn(g), |fs|, State(c.mem[page / PAGE_SIZE := PageOf(data, |fs|)], c.free, c.tables);
    OccupiedIs(a, g, n);
    match r
    case Done =>
      ChargeKept(b, c, d, TableKeys((start + n) % VPNS, 2), 1);
      BillNext(a, b, d, start, true, n);
    case AlreadyMapped(vpn) => BillStopped(a, b, c, start, true, n, vpn);
    case Depleted => BillShort(a, b, c, start, true, n);
  }

  lemma EndFramedLoop(a: State, b: State, g: Segment, r: Outcome, fs: seq<nat>, data: seq<byte>)
    requires FramedSoFar(a, b, g, r, fs, data) && (r == Done ==> |fs| >= Count(g))
    ensures EndsAfter(a, g, r, |fs|) && Billed(a, b, FirstVpn(g), true, r, |fs|)
    ensures r == Depleted <==> TooFew(a, g, true)
    ensures r == Done && Nonempty(g) ==> MapsItsAddresses(a, b, g)
  {
    DepletedIff(a, b, g, true, r, FramePtes(fs, g.flags));
    if r == Done && Nonempty(g) {
      LaidIsItsAddresses(a, b, g, FramePtes(fs, g.flags));
    }
  }

  /** The number of pages of a segment. */
  function Count(g: Segment): nat {
    if EndVpn(g) < FirstVpn(g) then 0 else EndVpn(g) - FirstVpn(g)
  }

  /** Why a call panics at vpn: it was mapped before the call, or the segment covers it twice. */
  ghost predicate Occupied(a: State, g: Segment, vpn: int) {
    && FirstVpn(g) <= vpn < EndVpn(g)
    && (Lookup(a, vpn % VPNS) != 0 || vpn - FirstVpn(g) == VPNS)
  }

  /** How a call that mapped n pages ends: after all of them, in front of an occupied one, or for want of frames. */
  ghost predicate EndsAfter(a: State, g: Segment, r: Outcome, n: nat) {
    match r
    case Done => n == Count(g)
    case AlreadyMapped(vpn) => vpn == FirstVpn(g) + n && Occupied(a, g, vpn)
    case Depleted => n < Count(g) && !Occupied(a, g, FirstVpn(g) + n)
  }

  lemma EndFraming(a: State, b: State, g: Segment, r: Outcome, fs: seq<nat>, data: seq<byte>)
    requires Framing(a, b, FirstVpn(g), fs, g.flags, data) && EndsAfter(a, g, r, |fs|)
    ensures r == Done ==> Framed(a, b, g, fs, data)
    ensures r.AlreadyMapped? ==> Occupied(a, g, r.vpn)
  {
  }

  ghost predicate OccupiedAt(a: State, g: Segment, j: nat) {
    Occupied(a, g, FirstVpn(g) + j)
  }

  lemma OccupiedIs(a: State, g: Segment, j: nat)
    requires j < Count(g)
    ensures OccupiedAt(a, g, j) == Occupied(a, g, FirstVpn(g) + j)
    ensures OccupiedAt(a, g, j) <==> Lookup(a, (FirstVpn(g) + j) % VPNS) != 0 || j == VPNS
  {
  }

  // ----- which addresses a call maps

  /** Some address of the segment lies in page number x; the end may be given as 0 for 2^64. */
  ghost predicate Covers(g: Segment, x: int) {
    exists a :: InPage(g, a, x)
  }

  predicate InPage(g: Segment, a: int, x: int) {
    g.startVaddr <= a < (if g.endVaddr == 0 then WORD else g.endVaddr) && a / PAGE_SIZE == x
  }

  predicate Nonempty(g: Segment) {
    0 <= g.startVaddr < (if g.endVaddr == 0 then WORD else g.endVaddr) <= WORD
  }

  /** The page numbers between a segment's bounds are those of its addresses. */
  lemma CoversIff(g: Segment, x: int)
    requires Nonempty(g)
    ensures FirstVpn(g) <= x < EndVpn(g) <==> Covers(g, x)
    ensures Count(g) == EndVpn(g) - FirstVpn(g)
  {
    var end := if g.endVaddr == 0 then WORD else g.endVaddr;
    if FirstVpn(g) <= x < EndVpn(g) {
      var a := if x == FirstVpn(g) then g.startVaddr else x * PAGE_SIZE;
      assert InPage(g, a, x);
    }
    if a :| InPage(g, a, x) {
      assert FirstVpn(g) <= x < EndVpn(g);
    }
  }

  /** A segment without addresses takes no page if it starts on one, and the page it starts in if it does not. */
  lemma EmptySegment(g: Segment)
    requires 0 <= g.startVaddr == g.endVaddr < WORD && g.startVaddr > 0
    ensures Count(g) == if g.startVaddr % PAGE_SIZE == 0 then 0 else 1
  {
  }

  /** Some address of the segment lies in the page with the 27-bit number w. */
  ghost predicate CoversVpn(g: Segment, w: int) {
    exists x :: Covers(g, x) && x % VPNS == w
  }

  /** From a to b exactly the pages of the segment's addresses were mapped, and they were not before. */
  ghost predicate MapsItsAddresses(a: State, b: State, g: Segment) {
    forall w | IsVpn(w) ::
      if CoversVpn(g, w) then Lookup(a, w) == 0 && Lookup(b, w) != 0 else Lookup(b, w) == Lookup(a, w)
  }

  lemma LaidIsItsAddresses(a: State, b: State, g: Segment, ptes: seq<nat>)
    requires Laid(a, b, FirstVpn(g), ptes) && |ptes| == Count(g) && Nonempty(g)
    ensures MapsItsAddresses(a, b, g)
  {
    forall w | IsVpn(w)
      ensures CoversVpn(g, w) <==> Rel(w, FirstVpn(g)) < |ptes|
      ensures LaidAt(a, b, FirstVpn(g), ptes, w)
    {
      CoveredIsRel(g, w);
    }
  }

  lemma CoveredIsRel(g: Segment, w: int)
    requires IsVpn(w) && Nonempty(g)
    ensures CoversVpn(g, w) <==> Rel(w, FirstVpn(g)) < Count(g)
  {
    hide Covers, Nonempty, Count, EndVpn, FirstVpn;
    var start, r := FirstVpn(g), Rel(w, FirstVpn(g));
    CoversIff(g, start + r);
    RelOf(start, start, w);
    if r < Count(g) {
      RelOf(start + r, start, w);
      assert Covers(g, start + r) && (start + r) % VPNS == w;
    }
    if x :| Covers(g, x) && x % VPNS == w {
      CoversIff(g, x);
      if x < start + VPNS {
        RelOf(x, start, w);
      }
    }
  }

  // ----- how many frames a call takes

  function DataFrames(framed: bool, n: nat): nat { if framed then n else 0 }

  /** What a call that mapped n pages has taken, or needed and did not find. */
  ghost predicate Billed(a: State, b: State, start: int, framed: bool, r: Outcome, n: nat) {
    match r
    case Done => Charged(a, b, KeysOf(start, n), DataFrames(framed, n))
    case AlreadyMapped(_) => !Short(a, KeysOf(start, n), DataFrames(framed, n))
    case Depleted => b.free == {} && Short(a, KeysOf(start, n + 1), DataFrames(framed, n + 1))
  }

  /** The number of pages from the n-th on that are in front of the first occupied one. */
  ghost function ReachFrom(a: State, g: Segment, n: nat): nat
    decreases Count(g) - n
  {
    if n >= Count(g) || OccupiedAt(a, g, n) then n else ReachFrom(a, g, n + 1)
  }

  /** There are not enough free frames for the tables and pages of the segment up to its first occupied page. */
  ghost predicate TooFew(a: State, g: Segment, framed: bool) {
    var n := ReachFrom(a, g, 0);
    Short(a, KeysOf(FirstVpn(g), n), DataFrames(framed, n))
  }

  lemma {:induction false} ReachOver(a: State, g: Segment, n: nat, k: nat)
    requires n <= k <= Count(g) && forall j | n <= j < k :: !OccupiedAt(a, g, j)
    ensures ReachFrom(a, g, n) == ReachFrom(a, g, k) >= k
    decreases k - n
  {
    if n < k {
      ReachOver(a, g, n + 1, k);
    } else {
      ReachIsLater(a, g, k);
    }
  }

  lemma {:induction false} ReachIsLater(a: State, g: Segment, n: nat)
    ensures ReachFrom(a, g, n) >= n
    decreases Count(g) - n
  {
    if n < Count(g) && !OccupiedAt(a, g, n) {
      ReachIsLater(a, g, n + 1);
    }
  }

  /** Nothing was mapped where entries were laid. */
  lemma WereFree(a: State, b: State, g: Segment, ptes: seq<nat>, j: nat)
    requires Laid(a, b, FirstVpn(g), ptes) && j < |ptes|
    ensures !OccupiedAt(a, g, j)
  {
    var w := (FirstVpn(g) + j) % VPNS;
    RelOf(FirstVpn(g) + j, FirstVpn(g), w);
    assert LaidAt(a, b, FirstVpn(g), ptes, w);
  }

  lemma FreeBefore(a: State, b: State, start: int, ptes: seq<nat>)
    requires Laid(a, b, start, ptes) && Lookup(b, (start + |ptes|) % VPNS) == 0
    ensures Lookup(a, (start + |ptes|) % VPNS) == 0 && |ptes| < VPNS
  {
    var v := (start + |ptes|) % VPNS;
    assert LaidAt(a, b, start, ptes, v);
    RelOf(start + |ptes|, start, v);
  }

  /** The call stopped in front of the first occupied page, or earlier for want of frames. */
  lemma ReachIs(a: State, b: State, g: Segment, r: Outcome, ptes: seq<nat>)
    requires Laid(a, b, FirstVpn(g), ptes) && EndsAfter(a, g, r, |ptes|)
    ensures if r == Depleted then ReachFrom(a, g, 0) > |ptes| else ReachFrom(a, g, 0) == |ptes|
  {
    assert |ptes| <= Count(g);
    hide Laid, Lookup, Occupied, FirstVpn, EndVpn;
    forall j: nat | 0 <= j < |ptes|
      ensures !OccupiedAt(a, g, j)
    {
      WereFree(a, b, g, ptes, j);
    }
    ReachOver(a, g, 0, if r == Depleted then |ptes| + 1 else |ptes|);
  }

  /** A call runs out of frames exactly if its tables and pages are more than the free ones. */
  lemma DepletedIff(a: State, b: State, g: Segment, framed: bool, r: Outcome, ptes: seq<nat>)
    requires Laid(a, b, FirstVpn(g), ptes)
    requires EndsAfter(a, g, r, |ptes|) && Billed(a, b, FirstVpn(g), framed, r, |ptes|)
    ensures r == Depleted <==> TooFew(a, g, framed)
  {
    hide Laid, EndsAfter, Charged, Short, KeysOf, FirstVpn, ReachFrom, DataFrames;
    ReachIs(a, b, g, r, ptes);
    if r == Depleted {
      ShortOnTheRun(a, FirstVpn(g), framed, |ptes| + 1, ReachFrom(a, g, 0));
    } else {
      BilledIsNotShort(a, b, FirstVpn(g), framed, r, |ptes|);
    }
  }

  lemma ShortOnTheRun(a: State, start: int, framed: bool, n: nat, k: nat)
    requires n <= k && Short(a, KeysOf(start, n), DataFrames(framed, n))
    ensures Short(a, KeysOf(start, k), DataFrames(framed, k))
  {
    hide KeysOf, Short;
    FewerKeys(start, n, k);
    ShortForMore(a, KeysOf(start, n), KeysOf(start, k), DataFrames(framed, n), DataFrames(framed, k));
  }

  lemma BilledIsNotShort(a: State, b: State, start: int, framed: bool, r: Outcome, n: nat)
    requires Billed(a, b, start, framed, r, n) && r != Depleted
    ensures !Short(a, KeysOf(start, n), DataFrames(framed, n))
  {
    hide KeysOf, Short, Charged;
    if r == Done {
      ChargedIsNotShort(a, b, KeysOf(start, n), DataFrames(framed, n));
    }
  }

  /** The bill after one more page, or the attempt to map one. */
  lemma BillNext(a: State, b: State, c: State, start: int, framed: bool, n: nat)
    requires Billed(a, b, start, framed, Done, n)
    requires Charged(b, c, TableKeys((start + n) % VPNS, 2), DataFrames(framed, 1))
    ensures Billed(a, c, start, framed, Done, n + 1)
  {
    hide KeysOf, Charged, TableKeys;
    NextKeys(start, n);
    ChargeBoth(a, b, c, KeysOf(start, n), TableKeys((start + n) % VPNS, 2),
               DataFrames(framed, n), DataFrames(framed, 1));
  }

  lemma BillShort(a: State, b: State, c: State, start: int, framed: bool, n: nat)
    requires Billed(a, b, start, framed, Done, n) && c.free == {}
    requires Short(b, TableKeys((start + n) % VPNS, 2), DataFrames(framed, 1))
    ensures Billed(a, c, start, framed, Depleted, n)
  {
    hide KeysOf, Charged, TableKeys, Short;
    NextKeys(start, n);
    ShortAfter(a, b, KeysOf(start, n), TableKeys((start + n) % VPNS, 2), DataFrames(framed, n), DataFrames(framed, 1));
  }

  lemma BillStopped(a: State, b: State, c: State, start: int, framed: bool, n: nat, vpn: int)
    requires Billed(a, b, start, framed, Done, n)
    ensures Billed(a, c, start, framed, AlreadyMapped(vpn), n)
  {
    BilledIsNotShort(a, b, start, framed, Done, n);
  }

  /** What mapLinearSegment's loop keeps, while r is Done, and what it leaves. */
  ghost predicate LinearSoFar(a: State, b: State, g: Segment, r: Outcome, n: nat) {
    && g.flags < 1024
    && Laid(a, b, FirstVpn(g), LinearPtes(FirstVpn(g), n, g.flags))
    && (if r == Done then n <= Count(g) else EndsAfter(a, g, r, n))
    && Billed(a, b, FirstVpn(g), false, r, n)
  }

  lemma StartLinear(a: State, g: Segment)
    requires Ok(a) && g.flags < 1024
    ensures LinearSoFar(a, a, g, Done, 0)
  {
    StartLaying(a, FirstVpn(g));
    NoPtes(FirstVpn(g), g.flags);
    ChargeNothing(a);
  }

  lemma LinearFacts(a: State, b: State, g: Segment, r: Outcome, n: nat)
    requires LinearSoFar(a, b, g, r, n)
    ensures Laid(a, b, FirstVpn(g), LinearPtes(FirstVpn(g), n, g.flags))
    ensures Ok(a) && Ok(b) && Grows(a, b) && 1 in a.tables && 1 in b.tables && b.tables[1] == a.tables[1]
  {
    LaidFacts(a, b, FirstVpn(g), LinearPtes(FirstVpn(g), n, g.flags));
  }

  lemma LinearStuck(a: State, b: State, b1: State, g: Segment, n: nat)
    requires LinearSoFar(a, b, g, Done, n) && n < Count(g) && Located(b, b1, (FirstVpn(g) + n) % VPNS, None)
    ensures LinearSoFar(a, b1, g, Depleted, n)
  {
    var start, ptes := FirstVpn(g), LinearPtes(FirstVpn(g), n, g.flags);
    assert |ptes| == n;
    hide Laid, Ok, Grows, SameLookup, TableKeys, Charged, Short, Lookup, LinearPtes, FirstVpn, Count, Occupied, Billed;
    hide OccupiedAt;
    LaidKept(a, b, b1, start, ptes);
    FreeBefore(a, b, start, ptes);
    OccupiedIs(a, g, n);
    BillShort(a, b, b1, start, false, n);
  }

  lemma EndLinear(a: State, b: State, g: Segment, r: Outcome, n: nat)
    requires LinearSoFar(a, b, g, r, n) && (r == Done ==> n >= Count(g))
    ensures EndsAfter(a, g, r, n) && Billed(a, b, FirstVpn(g), false, r, n)
    ensures r == Depleted <==> TooFew(a, g, false)
    ensures r == Done && Nonempty(g) ==> MapsItsAddresses(a, b, g)
  {
    assert |LinearPtes(FirstVpn(g), n, g.flags)| == n;
    DepletedIff(a, b, g, false, r, LinearPtes(FirstVpn(g), n, g.flags));
    if r == Done && Nonempty(g) {
      LaidIsItsAddresses(a, b, g, LinearPtes(FirstVpn(g), n, g.flags));
    }
  }

  lemma NoPtes(start: int, flags: nat)
    ensures LinearPtes(start, 0, flags) == []
  {
  }

  lemma NextPte(start: int, n: nat, flags: nat)
    ensures LinearPtes(start, n, flags) + [LinearPte(start + n, flags)] == LinearPtes(start, n + 1, flags)
  {
  }

  /** One turn of mapLinearSegment's loop, from state b over findEntry to b1. */
  lemma LinearStep(a: State, b: State, b1: State, g: Segment, n: nat, table: int, index: int)
    requires LinearSoFar(a, b, g, Done, n) && n < Count(g)
    requires Located(b, b1, (FirstVpn(g) + n) % VPNS, Some((table, index)))
    ensures table in b1.mem && |b1.mem[table]| == PAGE_SIZE && 0 <= index < 512
    ensures if Entry(b1.mem, table, index) != 0 then LinearSoFar(a, b1, g, AlreadyMapped(FirstVpn(g) + n), n)
            else LinearSoFar(a, b1.(mem := SetEntry(b1.mem, table, index, LinearPte(FirstVpn(g) + n, g.flags))),
                             g, Done, n + 1)
  {
    var start, v, ptes := FirstVpn(g), (FirstVpn(g) + n) % VPNS, LinearPtes(FirstVpn(g), n, g.flags);
    assert |ptes| == n;
    hide Ok, Grows, SameLookup, Laid, LinearPte, LinearPtes, SetEntry, Charged, TableKeys, FirstVpn, Count, Billed;
    hide Occupied, OccupiedAt;
    TableFacts(b1, PathKey(v, 2));
    OccupiedIs(a, g, n);
    if Lookup(b1, v) != 0 {
      LaidKept(a, b, b1, start, ptes);
      MappedBefore(a, b, start, ptes, b1);
      BillStopped(a, b, b1, start, false, n, start + n);
    } else {
      LinearNext(a, b, b1, g, n);
    }
  }

  lemma LinearNext(a: State, b: State, b1: State, g: Segment, n: nat)
    requires LinearSoFar(a, b, g, Done, n) && n < Count(g)
    requires Ok(b1) && Grows(b, b1) && SameLookup(b, b1)
    requires var v := (FirstVpn(g) + n) % VPNS;
             Lookup(b1, v) == 0 && PathKey(v, 2) in b1.tables && Charged(b, b1, TableKeys(v, 2), 0)
    ensures var v := (FirstVpn(g) + n) % VPNS; var t := b1.tables[PathKey(v, 2)];
            && IsVpn(v) && t in b1.mem && |b1.mem[t]| == PAGE_SIZE
            && LinearSoFar(a, MapPage(b1, v, LinearPte(FirstVpn(g) + n, g.flags)), g, Done, n + 1)
  {
    var start, ptes := FirstVpn(g), LinearPtes(FirstVpn(g), n, g.flags);
    var v, pte := (start + n) % VPNS, LinearPte(start + n, g.flags);
    assert |ptes| == n;
    hide Ok, Grows, SameLookup, Lookup, Laid, LinearPte, LinearPtes, SetEntry, Charged, TableKeys, FirstVpn, Count;
    hide Billed, PathKey, PathIndex;
    LinearPteBounds(start + n, g.flags);
    LayNext(a, b, b1, start, ptes, pte);
    NextPte(start, n, g.flags);
    ChargeKept(b, b1, MapPage(b1, v, pte), TableKeys(v, 2), 0);
    BillNext(a, b, MapPage(b1, v, pte), start, false, n);
  }

  lemma WalkEnds(before: State, s: State, v: int, table: int, index: int)
    requires Walked(before, s, v, 2, table, index)
    ensures Located(before, s, v, Some((table, index))) && Ok(s)
    ensures 1 in before.tables && 1 in s.tables && s.tables[1] == before.tables[1]
  {
    hide Charged, TableKeys, Lookup;
    WalkFacts(before, s, v, 2, table, index);
  }

  // ----- several address spaces in one memory

  /** Mapping in one address space leaves the tables and translations of every other one alone. */
  lemma OtherSpaceKept(a: State, b: State, other: map<int, int>)
    requires Ok(b) && Grows(a, b)
    requires Ok(State(a.mem, a.free, other))
    requires forall k | k in other :: NotTable(a, other[k])
    ensures Ok(State(b.mem, b.free, other))
    ensures SameLookup(State(a.mem, a.free, other), State(b.mem, b.free, other))
    ensures forall k | k in other :: NotTable(b, other[k])
  {
    var x, y := State(a.mem, a.free, other), State(b.mem, b.free, other);
    forall k | k in other
      ensures other[k] in a.mem && other[k] in b.mem && b.mem[other[k]] == a.mem[other[k]]
      ensures NotTable(b, other[k])
    {
      assert TableOk(x, k) && BytesKept(a, b, other[k]);
      forall l | l in b.tables
        ensures b.tables[l] != other[k]
      {
        assert TableKept(a, b, l);
      }
    }
    forall k
      ensures TableOk(y, k)
    {
      assert TableOk(x, k);
    }
    forall k, l
      ensures TablesApart(y, k, l)
    {
      assert TablesApart(x, k, l);
    }
    forall k, i
      ensures LinkOk(y, k, i)
    {
      assert LinkOk(x, k, i);
    }
    forall f
      ensures FrameOk(y, f)
    {
      assert FrameOk(b, f);
    }
  }
}
