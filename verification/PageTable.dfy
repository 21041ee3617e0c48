/**
 What a three-level Sv39 page table in physical memory means (RISC-V Privileged
 Architecture, version 20211203, sections 4.3.2 and 4.4), and the writes the
 kernel makes to one. A table is named by its key: the root has key 1 and the
 table behind entry i of table k has key 512k + i, so that the last-level table
 of a 27-bit page number v has key 2^18 + v / 512.
 */
module PageTable {
  import opened Bits
  import opened Bytes

  type Mem = map<int, seq<byte>>

  const PAGE_SIZE := 4096
  const MAX_PPN := 0x1000_0000_0000
  const VPNS := 0x800_0000
  const PDE_MASK := 0x003f_ffff_ffff_fc00
  const WORD := 0x1_0000_0000_0000_0000
  const KERNEL_PAGE_OFFSET := 0xf_ffff_fff0_0000

  /** Memory, free frames and the tables of one address space. */
  datatype State = State(mem: Mem, free: set<int>, tables: map<int, int>)

  // ----- entries

  function Entry(mem: Mem, f: int, i: int): nat {
    if f in mem && |mem[f]| == PAGE_SIZE && 0 <= i < 512 then WordAt(mem[f], 8 * i, 8) else 0
  }

  function SetEntry(mem: Mem, f: int, i: int, w: nat): Mem
    requires f in mem && |mem[f]| == PAGE_SIZE && 0 <= i < 512
  {
    mem[f := PutWord(mem[f], 8 * i, 8, w)]
  }

  function ZeroPage(): (p: seq<byte>)
    ensures |p| == PAGE_SIZE && forall i | 0 <= i < |p| :: p[i] == 0
  {
    seq(PAGE_SIZE, _ => 0)
  }

  /** (newPpn << 10) | VALID */
  function TablePte(f: nat): nat { Or(f * 1024, 1) }

  /** ((entry & PDE_MASK) << 2), as a frame number */
  function NextFrame(e: nat): nat { And(e, PDE_MASK) * 4 / PAGE_SIZE }

  /** (pAddr >> 2) | flags | VALID, for the page at frame f */
  function FramePte(f: nat, flags: nat): nat { Or(Or(f * PAGE_SIZE / 4, flags), 1) }

  /** The frame a linear segment gives page number vpn, in 64-bit arithmetic. */
  function LinearFrame(vpn: int): nat { (vpn - KERNEL_PAGE_OFFSET) % WORD * 1024 % WORD / 1024 }

  /** ((vpn - KERNEL_PAGE_OFFSET) << 10) | flags | VALID */
  function LinearPte(vpn: int, flags: nat): nat {
    Or(Or((vpn - KERNEL_PAGE_OFFSET) % WORD * 1024 % WORD, flags), 1)
  }

  lemma Pow2Of10()
    ensures Pow2(10) == 1024 && Pow2(9) == 512
  {
  }

  lemma OrLow(f: nat, flags: nat)
    requires flags < 1024
    ensures Or(f * 1024, flags) == f * 1024 + flags
  {
    Pow2Of10();
    OrDisjoint(f, flags, 10);
  }

  lemma FlagsWithValid(flags: nat)
    requires flags < 1024
    ensures Or(flags, 1) < 1024 && Or(flags, 1) == flags / 2 * 2 + 1
  {
    OrStep(flags, 1);
    assert Or(flags / 2, 0) == flags / 2;
  }

  lemma {:induction false} PteFields(f: nat, flags: nat)
    requires flags < 1024
    ensures Or(Or(f * 1024, flags), 1) == f * 1024 + Or(flags, 1)
    ensures FramePte(f, flags) == f * 1024 + Or(flags, 1)
    ensures TablePte(f) == f * 1024 + 1
  {
    OrLow(f, flags);
    OrLow(f, 1);
    FlagsWithValid(flags);
    var x := f * 1024 + flags;
    OrStep(x, 1);
    assert Or(x / 2, 0) == x / 2;
  }

  lemma LinearPteFields(vpn: int, flags: nat)
    requires flags < 1024
    ensures LinearPte(vpn, flags) == LinearFrame(vpn) * 1024 + Or(flags, 1)
    ensures LinearFrame(vpn) * 1024 <= WORD - 1024
  {
    ShiftedOut((vpn - KERNEL_PAGE_OFFSET) % WORD);
    PteFields(LinearFrame(vpn), flags);
  }

  /** y << 10 in 64 bits is a multiple of 1024. */
  lemma ShiftedOut(y: int)
    requires y >= 0
    ensures (y * 1024 % WORD) / 1024 * 1024 == y * 1024 % WORD <= WORD - 1024
  {
    var q, r := y / 0x40_0000_0000_0000, y % 0x40_0000_0000_0000;
    DivUnique(y * 1024, WORD, q, r * 1024);
  }

  lemma NextOfTablePte(f: nat)
    requires f < MAX_PPN
    ensures NextFrame(f * 1024 + 1) == f
  {
    var e := f * 1024 + 1;
    Pow2Of10();
    Pow2Of44();
    AndMidMask(e, 10, 44);
    DivUnique(e, 1024, f, 1);
    assert e / Pow2(10) % Pow2(44) == f;
  }

  lemma Pow2Of44()
    ensures Pow2(44) == MAX_PPN
  {
    assert Pow2(8) == 256;
    assert Pow2(16) == 0x1_0000;
    assert Pow2(24) == 0x100_0000;
    assert Pow2(32) == 0x1_0000_0000;
    assert Pow2(36) == 0x10_0000_0000;
    assert Pow2(40) == 0x100_0000_0000;
  }

  lemma Base8()
    ensures Base(8) == WORD && Base(4) == 0x1_0000_0000
  {
    assert Base(4) == 0x1_0000_0000;
  }

  lemma EntryAfterSet(mem: Mem, f: int, i: int, w: nat, g: int, j: int)
    requires f in mem && |mem[f]| == PAGE_SIZE && 0 <= i < 512 && 0 <= j < 512 && w < WORD
    ensures Entry(SetEntry(mem, f, i, w), g, j) == if g == f && j == i then w else Entry(mem, g, j)
  {
    Base8();
    if g == f {
      if j == i {
        WordAtPut(mem[f], 8 * i, 8, w);
      } else {
        OtherWordKept(mem[f], 8 * i, 8, w, 8 * j, 8);
      }
    }
  }

  // ----- well-formed tables

  predicate Inner(k: int) { k == 1 || 512 <= k < 1024 }

  predicate Key(k: int) { Inner(k) || 0x4_0000 <= k < 0x8_0000 }

  function Link(tables: map<int, int>, k: int, i: int): int {
    if 512 * k + i in tables then tables[512 * k + i] * 1024 + 1 else 0
  }

  ghost predicate TableOk(s: State, k: int) {
    k in s.tables ==>
      && Key(k)
      && (k > 1 ==> k / 512 in s.tables)
      && s.tables[k] in s.mem
      && 0 <= s.tables[k] < MAX_PPN
      && s.tables[k] !in s.free
  }

  ghost predicate TablesApart(s: State, k: int, l: int) {
    k in s.tables && l in s.tables && k != l ==> s.tables[k] != s.tables[l]
  }

  ghost predicate LinkOk(s: State, k: int, i: int) {
    k in s.tables && Inner(k) && 0 <= i < 512 ==> Entry(s.mem, s.tables[k], i) == Link(s.tables, k, i)
  }

  ghost predicate FrameOk(s: State, f: int) {
    && (f in s.free ==> f in s.mem && 0 <= f < MAX_PPN)
    && (f in s.mem ==> |s.mem[f]| == PAGE_SIZE)
  }

  /** The tables form a tree of pairwise distinct frames, none of them free. */
  ghost predicate Ok(s: State) {
    && 1 in s.tables
    && (forall k :: TableOk(s, k))
    && (forall k, l :: TablesApart(s, k, l))
    && (forall k, i :: LinkOk(s, k, i))
    && (forall f :: FrameOk(s, f))
  }

  predicate IsVpn(v: int) { 0 <= v < VPNS }

  /** The key of the table at depth d on the way to v, and the index used in it. */
  function PathKey(v: int, d: int): int {
    if d == 0 then 1 else if d == 1 then 512 + v / 0x4_0000 else 0x4_0000 + v / 512
  }

  function PathIndex(v: int, d: int): int {
    if d == 0 then v / 0x4_0000 else if d == 1 then v / 512 % 512 else v % 512
  }

  lemma PathStep(v: int, d: int)
    requires IsVpn(v) && 0 <= d < 2
    ensures PathKey(v, d + 1) == 512 * PathKey(v, d) + PathIndex(v, d)
    ensures Inner(PathKey(v, d)) && 0 <= PathIndex(v, d) < 512
  {
  }

  /** The map from page numbers to last-level entries that the tables stand for; 0 is "not mapped". */
  ghost function Lookup(s: State, v: int): nat {
    if PathKey(v, 2) in s.tables then Entry(s.mem, s.tables[PathKey(v, 2)], PathIndex(v, 2)) else 0
  }

  /** A set of frames that a data page may use without touching the tables. */
  ghost predicate NotTable(s: State, f: int) {
    forall k | k in s.tables :: s.tables[k] != f
  }

  // ----- growth: what every mapping operation keeps

  /** Tables only grow, out of formerly free frames; mapped pages keep their entries; frames that were
      in use and are not tables keep their bytes. */
  ghost predicate Grows(a: State, b: State) {
    && b.free <= a.free
    && b.mem.Keys == a.mem.Keys
    && (forall k :: TableKept(a, b, k))
    && (forall f :: BytesKept(a, b, f))
    && (forall v :: MappingKept(a, b, v))
  }

  ghost predicate TableKept(a: State, b: State, k: int) {
    && (k in a.tables ==> k in b.tables && b.tables[k] == a.tables[k])
    && (k in b.tables && k !in a.tables ==> b.tables[k] in a.free && b.tables[k] !in b.free)
  }

  ghost predicate BytesKept(a: State, b: State, f: int) {
    f in a.mem && f in b.mem && f !in a.free && NotTable(a, f) ==> b.mem[f] == a.mem[f]
  }

  ghost predicate MappingKept(a: State, b: State, v: int) {
    IsVpn(v) && Lookup(a, v) != 0 ==> Lookup(b, v) == Lookup(a, v)
  }

  lemma GrowsRefl(a: State)
    ensures Grows(a, a)
  {
  }

  lemma GrowsTrans(a: State, b: State, c: State)
    requires Grows(a, b) && Grows(b, c)
    ensures Grows(a, c)
  {
    forall k
      ensures TableKept(a, c, k)
    {
      assert TableKept(a, b, k) && TableKept(b, c, k);
    }
    forall f
      ensures BytesKept(a, c, f)
    {
      assert BytesKept(a, b, f) && BytesKept(b, c, f);
      if f in a.mem && f in c.mem && f !in a.free && NotTable(a, f) {
        forall k | k in b.tables
          ensures b.tables[k] != f
        {
          assert TableKept(a, b, k);
        }
        assert NotTable(b, f);
      }
    }
    forall v
      ensures MappingKept(a, c, v)
    {
      assert MappingKept(a, b, v) && MappingKept(b, c, v);
    }
  }

  // ----- the three writes

  /** Hang a new zeroed table, in free frame f, behind the empty entry i of table k. */
  ghost function AddTable(s: State, k: int, i: int, f: int): State
    requires k in s.tables && s.tables[k] in s.mem && |s.mem[s.tables[k]]| == PAGE_SIZE && 0 <= i < 512
    requires f != s.tables[k] && f >= 0
  {
    State(SetEntry(s.mem[f := ZeroPage()], s.tables[k], i, TablePte(f)), s.free - {f}, s.tables[512 * k + i := f])
  }

  /** Write the last-level entry of v. */
  ghost function MapPage(s: State, v: int, w: nat): State
    requires IsVpn(v) && PathKey(v, 2) in s.tables
    requires s.tables[PathKey(v, 2)] in s.mem && |s.mem[s.tables[PathKey(v, 2)]]| == PAGE_SIZE
  {
    s.(mem := SetEntry(s.mem, s.tables[PathKey(v, 2)], PathIndex(v, 2), w))
  }

  /** Take a free frame and give it new contents. */
  function TakePage(s: State, f: int, page: seq<byte>): State {
    s.(mem := s.mem[f := page], free := s.free - {f})
  }

  lemma TableFacts(s: State, k: int)
    requires Ok(s) && k in s.tables
    ensures Key(k) && s.tables[k] in s.mem && |s.mem[s.tables[k]]| == PAGE_SIZE
    ensures 0 <= s.tables[k] < MAX_PPN && s.tables[k] !in s.free
  {
    assert TableOk(s, k) && FrameOk(s, s.tables[k]);
  }

  lemma ZeroEntry(mem: Mem, f: int, i: int)
    ensures Entry(mem[f := ZeroPage()], f, i) == 0
    ensures forall g | g != f :: Entry(mem[f := ZeroPage()], g, i) == Entry(mem, g, i)
  {
    if 0 <= i < 512 {
      ZeroWord(ZeroPage(), 8 * i, 8);
    }
  }

  lemma AddTableKeepsOk(s: State, k: int, i: int, f: int)
    requires Ok(s) && k in s.tables && Inner(k) && 0 <= i < 512
    requires 512 * k + i !in s.tables && f in s.free
    ensures s.tables[k] in s.mem && |s.mem[s.tables[k]]| == PAGE_SIZE && f != s.tables[k] && f >= 0
    ensures Ok(AddTable(s, k, i, f))
  {
    TableFacts(s, k);
    assert FrameOk(s, f);
    var c, b := 512 * k + i, AddTable(s, k, i, f);
    forall l
      ensures TableOk(b, l)
    {
      assert TableOk(s, l);
    }
    forall l, m
      ensures TablesApart(b, l, m)
    {
      assert TablesApart(s, l, m) && TableOk(s, l) && TableOk(s, m);
    }
    forall l, j
      ensures LinkOk(b, l, j)
    {
      AddTableLink(s, k, i, f, l, j);
    }
    forall g
      ensures FrameOk(b, g)
    {
      assert FrameOk(s, g);
    }
  }

  lemma AddTableEntries(s: State, k: int, i: int, f: int, g: int, j: int)
    requires Ok(s) && k in s.tables && 0 <= i < 512 && f in s.free && 0 <= j < 512
    ensures s.tables[k] in s.mem && |s.mem[s.tables[k]]| == PAGE_SIZE && f != s.tables[k] && f >= 0
    ensures Entry(AddTable(s, k, i, f).mem, g, j)
         == if g == f then 0
            else if g == s.tables[k] && j == i then f * 1024 + 1
            else Entry(s.mem, g, j)
  {
    TableFacts(s, k);
    assert FrameOk(s, f);
    ZeroEntry(s.mem, f, j);
    PteFields(f, 0);
    EntryAfterSet(s.mem[f := ZeroPage()], s.tables[k], i, TablePte(f), g, j);
  }

  lemma AddTableLink(s: State, k: int, i: int, f: int, l: int, j: int)
    requires Ok(s) && k in s.tables && Inner(k) && 0 <= i < 512
    requires 512 * k + i !in s.tables && f in s.free
    ensures s.tables[k] in s.mem && |s.mem[s.tables[k]]| == PAGE_SIZE && f != s.tables[k] && f >= 0
    ensures LinkOk(AddTable(s, k, i, f), l, j)
  {
    TableFacts(s, k);
    assert FrameOk(s, f);
    if l in AddTable(s, k, i, f).tables && Inner(l) && 0 <= j < 512 {
      if l == 512 * k + i {
        NewTableLink(s, k, i, f, j);
      } else {
        OldTableLink(s, k, i, f, l, j);
      }
    }
  }

  /** The new table is empty, and no table hangs below it. */
  lemma NewTableLink(s: State, k: int, i: int, f: int, j: int)
    requires Ok(s) && k in s.tables && Inner(k) && 0 <= i < 512 && 0 <= j < 512
    requires 512 * k + i !in s.tables && f in s.free
    requires s.tables[k] in s.mem && |s.mem[s.tables[k]]| == PAGE_SIZE && f != s.tables[k] && f >= 0
    ensures Entry(AddTable(s, k, i, f).mem, f, j) == 0 == Link(AddTable(s, k, i, f).tables, 512 * k + i, j)
  {
    assert TableOk(s, 512 * (512 * k + i) + j);
    Child(512 * k + i, j);
    hide Ok, Entry;
    AddTableEntries(s, k, i, f, f, j);
  }

  lemma OldTableLink(s: State, k: int, i: int, f: int, l: int, j: int)
    requires Ok(s) && k in s.tables && Inner(k) && 0 <= i < 512 && 0 <= j < 512
    requires l in s.tables && Inner(l) && l != 512 * k + i
    requires 512 * k + i !in s.tables && f in s.free
    requires s.tables[k] in s.mem && |s.mem[s.tables[k]]| == PAGE_SIZE && f != s.tables[k] && f >= 0
    ensures Entry(AddTable(s, k, i, f).mem, s.tables[l], j) == Link(AddTable(s, k, i, f).tables, l, j)
  {
    hide Entry;
    AddTableEntries(s, k, i, f, s.tables[l], j);
    assert TableOk(s, l) && TablesApart(s, k, l) && LinkOk(s, l, j);
    SameChild(k, i, l, j);
  }

  lemma Child(c: int, j: int)
    requires c >= 1 && 0 <= j < 512
    ensures (512 * c + j) / 512 == c && 512 * c + j != c && 512 * c + j > 1
  {
  }

  lemma SameChild(k: int, i: int, l: int, j: int)
    requires 0 <= i < 512 && 0 <= j < 512
    ensures 512 * l + j == 512 * k + i <==> l == k && j == i
  {
  }

  /** Creating an intermediate table changes no translation. */
  lemma AddTableKeepsLookup(s: State, k: int, i: int, f: int, v: int)
    requires Ok(s) && k in s.tables && Inner(k) && 0 <= i < 512 && IsVpn(v)
    requires 512 * k + i !in s.tables && f in s.free
    ensures s.tables[k] in s.mem && |s.mem[s.tables[k]]| == PAGE_SIZE && f != s.tables[k] && f >= 0
    ensures Lookup(AddTable(s, k, i, f), v) == Lookup(s, v)
  {
    TableFacts(s, k);
    assert FrameOk(s, f);
    var b, l := AddTable(s, k, i, f), PathKey(v, 2);
    if l in b.tables {
      AddTableEntries(s, k, i, f, b.tables[l], PathIndex(v, 2));
      assert TableOk(s, l) && TablesApart(s, k, l);
    }
  }

  lemma AddTableGrows(s: State, k: int, i: int, f: int)
    requires Ok(s) && k in s.tables && Inner(k) && 0 <= i < 512
    requires 512 * k + i !in s.tables && f in s.free
    ensures s.tables[k] in s.mem && |s.mem[s.tables[k]]| == PAGE_SIZE && f != s.tables[k] && f >= 0
    ensures Grows(s, AddTable(s, k, i, f))
  {
    TableFacts(s, k);
    assert FrameOk(s, f);
    var b := AddTable(s, k, i, f);
    forall v
      ensures MappingKept(s, b, v)
    {
      if IsVpn(v) {
        AddTableKeepsLookup(s, k, i, f, v);
      }
    }
    forall g
      ensures BytesKept(s, b, g)
    {
      assert NotTable(s, g) ==> s.tables[k] != g;
    }
  }

  lemma MapPageKeepsOk(s: State, v: int, w: nat)
    requires Ok(s) && IsVpn(v) && PathKey(v, 2) in s.tables && w < WORD
    ensures s.tables[PathKey(v, 2)] in s.mem && |s.mem[s.tables[PathKey(v, 2)]]| == PAGE_SIZE
    ensures Ok(MapPage(s, v, w))
  {
    var l := PathKey(v, 2);
    TableFacts(s, l);
    var b := MapPage(s, v, w);
    forall k
      ensures TableOk(b, k)
    {
      assert TableOk(s, k);
    }
    forall k, m
      ensures TablesApart(b, k, m)
    {
      assert TablesApart(s, k, m);
    }
    forall k, i
      ensures LinkOk(b, k, i)
    {
      assert LinkOk(s, k, i) && TablesApart(s, k, l);
      if k in s.tables && 0 <= i < 512 {
        EntryAfterSet(s.mem, s.tables[l], PathIndex(v, 2), w, s.tables[k], i);
      }
    }
    forall f
      ensures FrameOk(b, f)
    {
      assert FrameOk(s, f);
    }
  }

  /** Writing a last-level entry changes the translation of its page number only. */
  lemma MapPageLookup(s: State, v: int, w: nat, u: int)
    requires Ok(s) && IsVpn(v) && IsVpn(u) && PathKey(v, 2) in s.tables && w < WORD
    ensures s.tables[PathKey(v, 2)] in s.mem && |s.mem[s.tables[PathKey(v, 2)]]| == PAGE_SIZE
    ensures Lookup(MapPage(s, v, w), u) == if u == v then w else Lookup(s, u)
  {
    var l, m := PathKey(v, 2), PathKey(u, 2);
    TableFacts(s, l);
    assert TablesApart(s, l, m);
    if m in s.tables {
      EntryAfterSet(s.mem, s.tables[l], PathIndex(v, 2), w, s.tables[m], PathIndex(u, 2));
    }
  }

  lemma MapPageGrows(s: State, v: int, w: nat)
    requires Ok(s) && IsVpn(v) && PathKey(v, 2) in s.tables && w < WORD && Lookup(s, v) == 0
    ensures s.tables[PathKey(v, 2)] in s.mem && |s.mem[s.tables[PathKey(v, 2)]]| == PAGE_SIZE
    ensures Grows(s, MapPage(s, v, w))
  {
    TableFacts(s, PathKey(v, 2));
    var b := MapPage(s, v, w);
    forall u
      ensures MappingKept(s, b, u)
    {
      if IsVpn(u) {
        MapPageLookup(s, v, w, u);
      }
    }
    forall f
      ensures BytesKept(s, b, f)
    {
      assert NotTable(s, f) ==> s.tables[PathKey(v, 2)] != f;
    }
  }

  /** Taking a page for data changes no table. */
  lemma TakePageKeeps(s: State, f: int, page: seq<byte>)
    requires Ok(s) && f in s.free && |page| == PAGE_SIZE
    ensures Ok(TakePage(s, f, page)) && Grows(s, TakePage(s, f, page))
    ensures forall v | IsVpn(v) :: Lookup(TakePage(s, f, page), v) == Lookup(s, v)
    ensures NotTable(TakePage(s, f, page), f)
  {
    var b := TakePage(s, f, page);
    assert FrameOk(s, f);
    forall k
      ensures TableOk(b, k)
      ensures k in s.tables ==> s.tables[k] != f
    {
      assert TableOk(s, k);
    }
    forall k, l
      ensures TablesApart(b, k, l)
    {
      assert TablesApart(s, k, l);
    }
    forall k, i
      ensures LinkOk(b, k, i)
    {
      assert LinkOk(s, k, i);
    }
    forall g
      ensures FrameOk(b, g)
    {
      assert FrameOk(s, g);
    }
  }

  // ----- the hardware's translation

  datatype Walk = PageFault | Leaf(pte: nat, level: nat)

  function Valid(pte: nat): bool { pte % 2 == 1 }
  function Readable(pte: nat): bool { pte / 2 % 2 == 1 }
  function Writable(pte: nat): bool { pte / 4 % 2 == 1 }
  function Executable(pte: nat): bool { pte / 8 % 2 == 1 }
  function User(pte: nat): bool { pte / 16 % 2 == 1 }
  function PpnField(pte: nat): nat { pte / 1024 % MAX_PPN }

  /** Bits 54 to 63, which have no meaning without further extensions. */
  function Reserved(pte: nat): bool { pte >= MAX_PPN * 1024 }

  /** Bits that a pointer to a table must leave clear: user, accessed and dirty. */
  function LeafBits(pte: nat): bool { pte / 16 % 2 != 0 || pte / 64 % 4 != 0 }

  /** Steps 2 to 6 of the address translation algorithm of section 4.3.2, from level i of the table at frame a. */
  function HardwareWalk(mem: Mem, a: int, v: int, level: nat): Walk
    requires level <= 2
    decreases level
  {
    var pte := Entry(mem, a, PathIndex(v, 2 - level));
    if !Valid(pte) || (!Readable(pte) && Writable(pte)) || Reserved(pte) then PageFault
    else if Readable(pte) || Executable(pte) then
      if level > 0 && PpnField(pte) % (if level == 1 then 512 else 0x4_0000) != 0 then PageFault
      else Leaf(pte, level)
    else if level == 0 || LeafBits(pte) then PageFault
    else HardwareWalk(mem, PpnField(pte), v, level - 1)
  }

  /** Bits 39 to 63 of a 64-bit address equal bit 38 (section 4.4.1). */
  predicate Canonical(va: int) {
    0 <= va < 0x40_0000_0000 || WORD - 0x40_0000_0000 <= va < WORD
  }

  /** In other words, sign extension of the low 39 bits gives the address back. */
  lemma CanonicalIsSignExtended(va: int)
    requires 0 <= va < WORD
    ensures var low := va % 0x80_0000_0000;
            Canonical(va) <==> va == if low < 0x40_0000_0000 then low else low + WORD - 0x80_0000_0000
  {
  }

  /** What the hardware makes of a virtual address, the root table being at frame a. */
  function Translate(mem: Mem, a: int, va: int): Walk {
    if Canonical(va) then HardwareWalk(mem, a, va / PAGE_SIZE % VPNS, 2) else PageFault
  }

  /** The leaf that the hardware accepts: valid, readable or executable, not write-only, nothing reserved set. */
  function Accepted(pte: nat): Walk {
    if Valid(pte) && (Readable(pte) || Executable(pte)) && (Readable(pte) || !Writable(pte)) && !Reserved(pte)
    then Leaf(pte, 0) else PageFault
  }

  datatype Access = Fetch | Load | Store

  /**
   Step 5 of that algorithm for a program in user mode, without the status bit that lets loads read
   executable pages: the page is a user page, and has the permission for this access.
   */
  predicate Permits(r: Walk, x: Access) {
    && r.Leaf? && User(r.pte)
    && match x
       case Fetch => Executable(r.pte)
       case Load => Readable(r.pte)
       case Store => Writable(r.pte)
  }

  /** On well-formed tables the hardware finds exactly the entry that Lookup names. */
  lemma HardwareAgrees(s: State, v: int)
    requires Ok(s) && IsVpn(v)
    ensures HardwareWalk(s.mem, s.tables[1], v, 2) == Accepted(Lookup(s, v))
  {
    WalkLevel(s, v, 0);
    if PathKey(v, 1) in s.tables {
      WalkLevel(s, v, 1);
    }
  }

  /** A page is reached through canonical addresses only, and then through its entry. */
  lemma TranslationOf(s: State, va: int)
    requires Ok(s) && va >= 0
    ensures Translate(s.mem, s.tables[1], va)
         == if Canonical(va) then Accepted(Lookup(s, va / PAGE_SIZE % VPNS)) else PageFault
  {
    HardwareAgrees(s, va / PAGE_SIZE % VPNS);
  }

  lemma WalkLevel(s: State, v: int, d: int)
    requires Ok(s) && IsVpn(v) && 0 <= d < 2 && PathKey(v, d) in s.tables
    ensures PathKey(v, d + 1) in s.tables ==>
              HardwareWalk(s.mem, s.tables[PathKey(v, d)], v, 2 - d)
              == HardwareWalk(s.mem, s.tables[PathKey(v, d + 1)], v, 1 - d)
    ensures PathKey(v, d + 1) !in s.tables ==>
              HardwareWalk(s.mem, s.tables[PathKey(v, d)], v, 2 - d) == PageFault
              && Lookup(s, v) == 0
  {
    PathStep(v, d);
    var k, i := PathKey(v, d), PathIndex(v, d);
    assert LinkOk(s, k, i);
    if PathKey(v, d + 1) in s.tables {
      assert TableOk(s, PathKey(v, d + 1));
      PointerFields(s.tables[PathKey(v, d + 1)]);
    } else if d == 0 {
      PathStep(v, 1);
      assert TableOk(s, PathKey(v, 2));
    }
  }

  lemma FieldsOf(f: nat, ma: nat)
    requires f < MAX_PPN && ma < 1024
    ensures var pte := f * 1024 + ma;
            && PpnField(pte) == f
            && Valid(pte) == Valid(ma) && User(pte) == User(ma)
            && Readable(pte) == Readable(ma) && Writable(pte) == Writable(ma) && Executable(pte) == Executable(ma)
            && !Reserved(pte)
  {
    var pte := f * 1024 + ma;
    DivUnique(pte, 1024, f, ma);
    DivUnique(pte, 2, f * 512 + ma / 2, ma % 2);
    DivUnique(pte, 4, f * 256 + ma / 4, ma % 4);
    DivUnique(pte, 8, f * 128 + ma / 8, ma % 8);
    DivUnique(pte, 16, f * 64 + ma / 16, ma % 16);
    EvenMore(f * 256, ma / 2);
    EvenMore(f * 128, ma / 4);
    EvenMore(f * 64, ma / 8);
    EvenMore(f * 32, ma / 16);
  }

  lemma EvenMore(x: int, y: int)
    ensures (2 * x + y) % 2 == y % 2
  {
  }

  lemma PointerFields(f: nat)
    requires f < MAX_PPN
    ensures var pte := f * 1024 + 1;
            && Valid(pte) && !Readable(pte) && !Writable(pte) && !Executable(pte) && PpnField(pte) == f
            && !Reserved(pte) && !LeafBits(pte)
  {
    FieldsOf(f, 1);
    DivUnique(f * 1024 + 1, 16, f * 64, 1);
    DivUnique(f * 1024 + 1, 64, f * 16, 1);
  }
}
