/**
 The ELF loader of kernel/elf.c and the memory part of newUserThread
 (kernel/thread.c). File offsets follow the System V gABI (chapters 4 and 5).
 */
module Loader {
  import opened Bits
  import opened Bytes
  import opened PageTable
  import opened Mapping
  import opened KernelSpace
  import opened FrameCount

  const ELF_MAGIC := 0x464C_457F
  const ELF_PROG_LOAD := 1
  const EXEC := 1
  const WRITE := 2
  const READ := 4
  const USER_STACK_OFFSET := 0xffff_ffff_0000_0000
  const USER_STACK_SIZE := 0x8_0000
  const PROG_HEADER_SIZE := 56

  datatype ProgHeader = ProgHeader(kind: nat, flags: nat, off: nat, vaddr: nat, filesz: nat, memsz: nat)

  // ----- the file

  function PhOff(elf: seq<byte>): nat
    requires |elf| >= 64
  {
    WordAt(elf, 32, 8)
  }

  function PhNum(elf: seq<byte>): nat
    requires |elf| >= 64
  {
    WordAt(elf, 56, 2)
  }

  function HeaderAt(elf: seq<byte>, o: nat): ProgHeader
    requires o + PROG_HEADER_SIZE <= |elf|
  {
    ProgHeader(WordAt(elf, o, 4), WordAt(elf, o + 4, 4), WordAt(elf, o + 8, 8),
               WordAt(elf, o + 16, 8), WordAt(elf, o + 32, 8), WordAt(elf, o + 40, 8))
  }

  function Header(elf: seq<byte>, i: nat): ProgHeader
    requires HeadersInFile(elf) && i < PhNum(elf)
  {
    HeaderAt(elf, PhOff(elf) + PROG_HEADER_SIZE * i)
  }

  predicate HeadersInFile(elf: seq<byte>) {
    |elf| >= 64 && PhOff(elf) + PROG_HEADER_SIZE * PhNum(elf) <= |elf|
  }

  predicate IsLoad(elf: seq<byte>, i: nat)
    requires HeadersInFile(elf) && i < PhNum(elf)
  {
    Header(elf, i).kind == ELF_PROG_LOAD
  }

  /** Everything the loader reads lies inside the file. */
  predicate InFile(elf: seq<byte>) {
    && HeadersInFile(elf)
    && forall i | 0 <= i < PhNum(elf) && IsLoad(elf, i) :: Header(elf, i).off + Header(elf, i).filesz <= |elf|
  }

  /** The bytes of the file that belong to header h. */
  function FilePart(elf: seq<byte>, h: ProgHeader): seq<byte>
    requires h.off + h.filesz <= |elf|
  {
    elf[h.off..h.off + h.filesz]
  }

  // ----- permissions

  /** convertElfFlags */
  function ConvertElfFlags(flags: nat): nat {
    var ma := Or(1, 16);
    var ma := if And(flags, EXEC) != 0 then Or(ma, 8) else ma;
    var ma := if And(flags, WRITE) != 0 then Or(ma, 4) else ma;
    var ma := if And(flags, READ) != 0 then Or(ma, 2) else ma;
    ma
  }

  lemma ElfBits(flags: nat)
    ensures And(flags, EXEC) != 0 <==> flags % 2 == 1
    ensures And(flags, WRITE) != 0 <==> flags / 2 % 2 == 1
    ensures And(flags, READ) != 0 <==> flags / 4 % 2 == 1
  {
    AndStep(flags, 1);
    AndStep(flags, 2);
    AndStep(flags / 2, 1);
    AndStep(flags, 4);
    AndStep(flags / 2, 2);
    AndStep(flags / 4, 1);
  }

  /** The page permissions are the segment's, plus user access. */
  lemma ConvertedFlags(flags: nat)
    ensures var ma := ConvertElfFlags(flags);
            && ma < 1024 && Or(ma, 1) == ma
            && Valid(ma) && User(ma)
            && (Executable(ma) <==> flags % 2 == 1)
            && (Writable(ma) <==> flags / 2 % 2 == 1)
            && (Readable(ma) <==> flags / 4 % 2 == 1)
  {
    hide Or, And;
    ElfBits(flags);
    FlagUnions();
    FlagsWithValid(ConvertElfFlags(flags));
  }

  lemma FlagUnions()
    ensures Or(1, 16) == 17 && Or(17, 8) == 25
    ensures Or(17, 4) == 21 && Or(25, 4) == 29
    ensures Or(17, 2) == 19 && Or(25, 2) == 27 && Or(21, 2) == 23 && Or(29, 2) == 31
  {
  }

  function ElfSegment(h: ProgHeader): Segment {
    Segment(h.vaddr, (h.vaddr + h.memsz) % WORD, ConvertElfFlags(h.flags))
  }

  // ----- loaded pages

  /** Page number v is mapped with these flags to a data frame f that holds the page. */
  ghost predicate PageLoaded(s: State, v: int, f: nat, flags: nat, page: seq<byte>) {
    && IsVpn(v) && flags < 1024 && f < MAX_PPN
    && Lookup(s, v) == FramePte(f, flags)
    && f in s.mem && s.mem[f] == page
    && f !in s.free && NotTable(s, f)
  }

  lemma PageLoadedGrows(a: State, b: State, v: int, f: nat, flags: nat, page: seq<byte>)
    requires PageLoaded(a, v, f, flags, page) && Grows(a, b)
    ensures PageLoaded(b, v, f, flags, page)
  {
    FramePteBounds(f, flags);
    assert MappingKept(a, b, v) && BytesKept(a, b, f);
    forall k | k in b.tables
      ensures b.tables[k] != f
    {
      assert TableKept(a, b, k);
    }
  }

  /** Every page of segment g is loaded with data, padded with zeros. */
  ghost predicate SegmentLoaded(s: State, g: Segment, fs: seq<nat>, data: seq<byte>) {
    && |fs| == Count(g)
    && forall j | 0 <= j < |fs| :: PageLoaded(s, (FirstVpn(g) + j) % VPNS, fs[j], g.flags, PageOf(data, j))
  }

  lemma SegmentLoadedGrows(a: State, b: State, g: Segment, fs: seq<nat>, data: seq<byte>)
    requires SegmentLoaded(a, g, fs, data) && Grows(a, b)
    ensures SegmentLoaded(b, g, fs, data)
  {
    forall j | 0 <= j < |fs|
      ensures PageLoaded(b, (FirstVpn(g) + j) % VPNS, fs[j], g.flags, PageOf(data, j))
    {
      PageLoadedGrows(a, b, (FirstVpn(g) + j) % VPNS, fs[j], g.flags, PageOf(data, j));
    }
  }

  lemma FramedIsLoaded(a: State, b: State, g: Segment, fs: seq<nat>, data: seq<byte>)
    requires Framed(a, b, g, fs, data) && g.flags < 1024
    ensures SegmentLoaded(b, g, fs, data)
  {
    forall j | 0 <= j < |fs|
      ensures PageLoaded(b, (FirstVpn(g) + j) % VPNS, fs[j], g.flags, PageOf(data, j))
    {
      var v := (FirstVpn(g) + j) % VPNS;
      RelOf(FirstVpn(g) + j, FirstVpn(g), v);
      assert LaidAt(a, b, FirstVpn(g), FramePtes(fs, g.flags), v);
      assert HeldAt(a, b, fs[j], PagesOf(data, |fs|)[j]);
      assert FrameOk(a, fs[j]);
    }
  }

  /** All LOAD headers before i are loaded. */
  ghost predicate LoadedBefore(s: State, elf: seq<byte>, fss: seq<seq<nat>>, i: nat) {
    && InFile(elf) && i <= PhNum(elf) && |fss| == i
    && forall k | 0 <= k < i && IsLoad(elf, k) ::
         SegmentLoaded(s, ElfSegment(Header(elf, k)), fss[k], FilePart(elf, Header(elf, k)))
  }

  lemma LoadedBeforeGrows(a: State, b: State, elf: seq<byte>, fss: seq<seq<nat>>, i: nat)
    requires LoadedBefore(a, elf, fss, i) && Grows(a, b)
    ensures LoadedBefore(b, elf, fss, i)
  {
    forall k | 0 <= k < i && IsLoad(elf, k)
      ensures SegmentLoaded(b, ElfSegment(Header(elf, k)), fss[k], FilePart(elf, Header(elf, k)))
    {
      SegmentLoadedGrows(a, b, ElfSegment(Header(elf, k)), fss[k], FilePart(elf, Header(elf, k)));
    }
  }

  lemma LoadNext(a: State, b: State, elf: seq<byte>, fss: seq<seq<nat>>, i: nat, fs: seq<nat>)
    requires LoadedBefore(a, elf, fss, i) && Grows(a, b) && i < PhNum(elf) && IsLoad(elf, i)
    requires Framed(a, b, ElfSegment(Header(elf, i)), fs, FilePart(elf, Header(elf, i)))
    ensures LoadedBefore(b, elf, fss + [fs], i + 1)
  {
    LoadedBeforeGrows(a, b, elf, fss, i);
    ConvertedFlags(Header(elf, i).flags);
    FramedIsLoaded(a, b, ElfSegment(Header(elf, i)), fs, FilePart(elf, Header(elf, i)));
  }

  /** The kernel's own mappings are still in place. */
  ghost predicate KernelKept(s: State, l: Layout) {
    forall w | IsVpn(w) && KernelEntry(l, Full(w)) != 0 :: Lookup(s, w) == KernelEntry(l, Full(w))
  }

  lemma KernelKeptGrows(a: State, b: State, l: Layout)
    requires KernelKept(a, l) && Grows(a, b)
    ensures KernelKept(b, l)
  {
    forall w | IsVpn(w) && KernelEntry(l, Full(w)) != 0
      ensures Lookup(b, w) == KernelEntry(l, Full(w))
    {
      assert MappingKept(a, b, w);
    }
  }

  lemma KernelStarts(s: State, l: Layout)
    requires LayoutOk(l) && MappedUpTo(s, l, MEMORY_END_VADDR)
    ensures KernelKept(s, l)
  {
  }

  /** So kernel addresses translate in a program's address space as they do in the kernel's own. */
  lemma KeptTranslation(s: State, l: Layout, va: int)
    requires Ok(s) && LayoutOk(l) && KernelKept(s, l) && l.text <= va < MEMORY_END_VADDR
    ensures LinearAt(s, l, va)
  {
    KernelPage(va);
    LinearPteBounds(va / PAGE_SIZE, KernelFlags(l, va / PAGE_SIZE));
    KernelPageTranslation(s, l, va);
  }

  /** And they are closed to the program there. */
  lemma KernelStaysClosed(s: State, l: Layout, va: int)
    requires Ok(s) && LayoutOk(l) && KernelKept(s, l) && l.text <= va < MEMORY_END_VADDR
    ensures Closed(s, va)
  {
    KeptTranslation(s, l, va);
  }

  /** The idle thread's address space, with the device pages, has the kernel too. */
  lemma DevicesKeepKernel(s: State, l: Layout, n: nat)
    requires LayoutOk(l) && n <= 4 && MappedWithDevices(s, l, n)
    ensures KernelKept(s, l)
  {
    hide LinearPte;
  }

  /** Page number w lies in the k-th header's LOAD segment, which comes before header i. */
  ghost predicate InSegment(elf: seq<byte>, k: int, i: int, w: int) {
    && HeadersInFile(elf) && 0 <= k < i <= PhNum(elf) && IsLoad(elf, k)
    && var g := ElfSegment(Header(elf, k)); Rel(w, FirstVpn(g)) < Count(g)
  }

  /** Page number w lies in a LOAD segment before header i. */
  ghost predicate InEarlier(elf: seq<byte>, i: int, w: int) {
    exists k :: InSegment(elf, k, i, w)
  }

  /** Nothing is mapped but the kernel and the LOAD segments before header i. */
  ghost predicate OnlyLoaded(s: State, l: Layout, elf: seq<byte>, i: nat) {
    forall w | IsVpn(w) && Lookup(s, w) != 0 ::
      KernelEntry(l, Full(w)) != 0 || InEarlier(elf, i, w)
  }

  /**
   Why header i cannot be loaded: its page vpn is the kernel's or an earlier segment's, or it goes round
   the address space.
   */
  ghost predicate Clash(l: Layout, elf: seq<byte>, i: nat, vpn: int) {
    && HeadersInFile(elf) && i < PhNum(elf) && IsLoad(elf, i)
    && var g := ElfSegment(Header(elf, i));
    && FirstVpn(g) <= vpn < EndVpn(g)
    && (|| KernelEntry(l, Full(vpn % VPNS)) != 0
        || InEarlier(elf, i, vpn % VPNS)
        || vpn - FirstVpn(g) == VPNS)
  }

  lemma KernelOnly(s: State, l: Layout, elf: seq<byte>)
    requires LayoutOk(l) && MappedUpTo(s, l, MEMORY_END_VADDR)
    ensures OnlyLoaded(s, l, elf, 0)
  {
  }

  /** A loaded segment adds its own pages and no others. */
  lemma OnlyNext(a: State, b: State, l: Layout, elf: seq<byte>, i: nat, fs: seq<nat>)
    requires OnlyLoaded(a, l, elf, i) && InFile(elf) && i < PhNum(elf) && IsLoad(elf, i)
    requires Framed(a, b, ElfSegment(Header(elf, i)), fs, FilePart(elf, Header(elf, i)))
    ensures OnlyLoaded(b, l, elf, i + 1)
  {
    var g := ElfSegment(Header(elf, i));
    forall w | IsVpn(w) && Lookup(b, w) != 0
      ensures KernelEntry(l, Full(w)) != 0 || InEarlier(elf, i + 1, w)
    {
      assert LaidAt(a, b, FirstVpn(g), FramePtes(fs, g.flags), w);
      if Rel(w, FirstVpn(g)) < |fs| {
        assert InSegment(elf, i, i + 1, w);
      } else if k :| InSegment(elf, k, i, w) {
        assert InSegment(elf, k, i + 1, w);
      }
    }
  }

  lemma OnlySkip(s: State, l: Layout, elf: seq<byte>, i: nat)
    requires OnlyLoaded(s, l, elf, i) && InFile(elf) && i < PhNum(elf)
    ensures OnlyLoaded(s, l, elf, i + 1)
  {
    forall w | IsVpn(w) && Lookup(s, w) != 0
      ensures KernelEntry(l, Full(w)) != 0 || InEarlier(elf, i + 1, w)
    {
      if k :| InSegment(elf, k, i, w) {
        assert InSegment(elf, k, i + 1, w);
      }
    }
  }

  lemma OccupiedIsClash(a: State, l: Layout, elf: seq<byte>, i: nat, vpn: int)
    requires OnlyLoaded(a, l, elf, i) && InFile(elf) && i < PhNum(elf) && IsLoad(elf, i)
    requires Occupied(a, ElfSegment(Header(elf, i)), vpn)
    ensures Clash(l, elf, i, vpn)
  {
  }

  /** Unknown file type and the two panics. */
  datatype LoadResult = Loaded | UnknownFileType | AlreadyMapped(header: nat, vpn: int) | Depleted

  // ----- how many frames a program takes

  /** The tables for the LOAD segments of the headers before i, and the number of their pages. */
  function ElfKeys(elf: seq<byte>, i: nat): set<int>
    requires HeadersInFile(elf) && i <= PhNum(elf)
  {
    if i == 0 then {}
    else ElfKeys(elf, i - 1) + (if IsLoad(elf, i - 1) then SegmentKeys(ElfSegment(Header(elf, i - 1))) else {})
  }

  function SegmentKeys(g: Segment): set<int> {
    KeysOf(FirstVpn(g), Count(g))
  }

  function ElfPages(elf: seq<byte>, i: nat): nat
    requires HeadersInFile(elf) && i <= PhNum(elf)
  {
    if i == 0 then 0
    else ElfPages(elf, i - 1) + (if IsLoad(elf, i - 1) then Count(ElfSegment(Header(elf, i - 1))) else 0)
  }

  /** The tables for the kernel and the headers before i. */
  function ImageKeys(l: Layout, elf: seq<byte>, i: nat): set<int>
    requires LayoutOk(l) && HeadersInFile(elf) && i <= PhNum(elf)
  {
    KernelKeys(l) + ElfKeys(elf, i)
  }

  lemma NextKeysOfImage(l: Layout, elf: seq<byte>, i: nat)
    requires LayoutOk(l) && HeadersInFile(elf) && i < PhNum(elf)
    ensures ImageKeys(l, elf, i + 1)
         == if IsLoad(elf, i) then ImageKeys(l, elf, i) + SegmentKeys(ElfSegment(Header(elf, i)))
            else ImageKeys(l, elf, i)
    ensures ElfPages(elf, i + 1) == ElfPages(elf, i) + if IsLoad(elf, i) then Count(ElfSegment(Header(elf, i))) else 0
  {
    hide KernelKeys, SegmentKeys, ElfSegment, Count;
    if IsLoad(elf, i) {
      Regroup(KernelKeys(l), ElfKeys(elf, i), SegmentKeys(ElfSegment(Header(elf, i))));
    }
  }

  lemma {:induction false} MoreImage(l: Layout, elf: seq<byte>, i: nat, j: nat)
    requires LayoutOk(l) && HeadersInFile(elf) && i <= j <= PhNum(elf)
    ensures ImageKeys(l, elf, i) <= ImageKeys(l, elf, j) && ElfPages(elf, i) <= ElfPages(elf, j)
    decreases j
  {
    hide ImageKeys, ElfPages, SegmentKeys, ElfSegment, Count, IsLoad;
    if i < j {
      MoreImage(l, elf, i, j - 1);
      NextKeysOfImage(l, elf, j - 1);
    }
  }

  /** The frames for tables and pages have run out, or would for the program as a whole. */
  ghost predicate ImageShort(o: State, l: Layout, elf: seq<byte>)
    requires LayoutOk(l) && HeadersInFile(elf)
  {
    Short(o, ImageKeys(l, elf, PhNum(elf)), ElfPages(elf, PhNum(elf)))
  }

  lemma KernelShort(o: State, l: Layout, elf: seq<byte>)
    requires LayoutOk(l) && HeadersInFile(elf) && Short(o, KernelKeys(l), 0)
    ensures ImageShort(o, l, elf)
  {
    hide KernelKeys, ElfKeys, ElfPages, Short;
    ShortForMore(o, KernelKeys(l), ImageKeys(l, elf, PhNum(elf)), 0, ElfPages(elf, PhNum(elf)));
  }

  lemma StartBill(o: State, a: State, l: Layout, elf: seq<byte>)
    requires LayoutOk(l) && HeadersInFile(elf) && Charged(o, a, KernelKeys(l), 0)
    ensures Charged(o, a, ImageKeys(l, elf, 0), ElfPages(elf, 0))
  {
    hide KernelKeys, Charged;
    assert KernelKeys(l) + {} == KernelKeys(l);
  }

  /** The bill after one more segment, on top of what was paid before, or the lack of frames for it. */
  lemma RunBill(o: State, a: State, b: State, paid: set<int>, pages: nat, g: Segment, r: Outcome, n: nat)
    requires Charged(o, a, paid, pages)
    requires EndsAfter(a, g, r, n) && Billed(a, b, FirstVpn(g), true, r, n)
    ensures r == Done ==> Charged(o, b, paid + SegmentKeys(g), pages + Count(g))
    ensures r == Outcome.Depleted ==> b.free == {} && Short(o, paid + SegmentKeys(g), pages + Count(g))
  {
    hide Charged, Short, KeysOf, FirstVpn, Count, Occupied;
    if r == Done {
      ChargeBoth(o, a, b, paid, SegmentKeys(g), pages, n);
    } else if r == Outcome.Depleted {
      RunShort(o, a, paid, pages, g, n);
    }
  }

  lemma RunShort(o: State, a: State, paid: set<int>, pages: nat, g: Segment, n: nat)
    requires Charged(o, a, paid, pages)
    requires n < Count(g) && Short(a, KeysOf(FirstVpn(g), n + 1), n + 1)
    ensures Short(o, paid + SegmentKeys(g), pages + Count(g))
  {
    hide Charged, Short, KeysOf, FirstVpn, Count;
    ShortOnTheRun(a, FirstVpn(g), true, n + 1, Count(g));
    ShortAfter(o, a, paid, SegmentKeys(g), pages, Count(g));
  }

  /** The same for header i of a program. */
  lemma SegmentBill(o: State, a: State, b: State, l: Layout, elf: seq<byte>, i: nat, r: Outcome, n: nat)
    requires LayoutOk(l) && HeadersInFile(elf) && i < PhNum(elf) && IsLoad(elf, i)
    requires Charged(o, a, ImageKeys(l, elf, i), ElfPages(elf, i))
    requires var g := ElfSegment(Header(elf, i));
             EndsAfter(a, g, r, n) && Billed(a, b, FirstVpn(g), true, r, n)
    ensures r == Done ==> Charged(o, b, ImageKeys(l, elf, i + 1), ElfPages(elf, i + 1))
    ensures r == Outcome.Depleted ==> b.free == {} && ImageShort(o, l, elf)
  {
    hide Charged, Short, ImageKeys, ElfPages, SegmentKeys, FirstVpn, Count, ElfSegment, IsLoad, EndsAfter, Billed;
    var g := ElfSegment(Header(elf, i));
    RunBill(o, a, b, ImageKeys(l, elf, i), ElfPages(elf, i), g, r, n);
    NextKeysOfImage(l, elf, i);
    if r == Outcome.Depleted {
      ImageIsShort(o, l, elf, i + 1);
    }
  }

  lemma ImageIsShort(o: State, l: Layout, elf: seq<byte>, i: nat)
    requires LayoutOk(l) && HeadersInFile(elf) && i <= PhNum(elf)
    requires Short(o, ImageKeys(l, elf, i), ElfPages(elf, i))
    ensures ImageShort(o, l, elf)
  {
    hide Short, ImageKeys, ElfPages;
    MoreImage(l, elf, i, PhNum(elf));
    ShortForMore(o, ImageKeys(l, elf, i), ImageKeys(l, elf, PhNum(elf)), ElfPages(elf, i), ElfPages(elf, PhNum(elf)));
  }

  /** newUserMapping: on success every LOAD segment is in place, beside the kernel and nothing else. */
  method NewUserMapping(m: Machine, l: Layout, elf: seq<byte>)
    returns (r: LoadResult, space: AddressSpace?, ghost fss: seq<seq<nat>>)
    requires m.Valid() && MemoryOk(m) && LayoutOk(l) && InFile(elf)
    modifies m`mem, m`free, m.frames.node
    ensures r == Loaded ==>
      && space != null && fresh(space) && space.Valid(m)
      && LoadedBefore(space.S(m), elf, fss, PhNum(elf))
      && KernelKept(space.S(m), l) && OnlyLoaded(space.S(m), l, elf, PhNum(elf))
      && Grows(old(Purse(m)), space.S(m))
      && Charged(old(Purse(m)), space.S(m), ImageKeys(l, elf, PhNum(elf)), ElfPages(elf, PhNum(elf)))
    ensures r == UnknownFileType || r == LoadResult.Depleted || WordAt(elf, 0, 4) == ELF_MAGIC
    ensures r == UnknownFileType ==> WordAt(elf, 0, 4) != ELF_MAGIC
    ensures r.AlreadyMapped? ==> r.header < PhNum(elf) && Clash(l, elf, r.header, r.vpn)
    ensures r == LoadResult.Depleted ==> m.free == {} && ImageShort(old(Purse(m)), l, elf)
  {
    hide LoadedBefore, KernelKept, OnlyLoaded, Clash, Occupied, Ok, Grows, MappedUpTo, Framing, EndsAfter, Framed;
    hide Lookup, ConvertElfFlags, InFile, Billed, TooFew, Charged, Short, KernelKeys, ImageKeys, ElfPages, ImageShort;
    FileFacts(elf);
    fss := [];
    ghost var o := Purse(m);
    space := NewKernelMapping(m, l);
    if space == null {
      KernelShort(o, l, elf);
      return LoadResult.Depleted, space, fss;
    }
    KernelStarts(space.S(m), l);
    KernelOnly(space.S(m), l, elf);
    if WordAt(elf, 0, 4) != ELF_MAGIC {
      return UnknownFileType, space, fss;
    }
    NothingLoaded(space.S(m), elf);
    StartBill(o, space.S(m), l, elf);
    var phnum := PhNum(elf);
    var offset := PhOff(elf);
    var i := 0;
    while i < phnum
      invariant 0 <= i <= phnum && offset == PhOff(elf) + PROG_HEADER_SIZE * i
      invariant space.Valid(m) && Grows(o, space.S(m))
      invariant LoadedBefore(space.S(m), elf, fss, i) && KernelKept(space.S(m), l) && OnlyLoaded(space.S(m), l, elf, i)
      invariant Charged(o, space.S(m), ImageKeys(l, elf, i), ElfPages(elf, i))
    {
      HeaderFacts(elf, i);
      var pHeader := HeaderAt(elf, offset);
      ghost var a := space.S(m);
      if pHeader.kind == ELF_PROG_LOAD {
        ConvertedFlags(pHeader.flags);
        var outcome, fs := space.MapFramedAndCopy(m, ElfSegment(pHeader), FilePart(elf, pHeader));
        EndFraming(a, space.S(m), ElfSegment(pHeader), outcome, fs, FilePart(elf, pHeader));
        SegmentBill(o, a, space.S(m), l, elf, i, outcome, |fs|);
        GrowsTrans(o, a, space.S(m));
        if outcome.AlreadyMapped? {
          OccupiedIsClash(a, l, elf, i, outcome.vpn);
          return LoadResult.AlreadyMapped(i, outcome.vpn), space, fss;
        }
        if outcome == Outcome.Depleted {
          return LoadResult.Depleted, space, fss;
        }
        LoadNext(a, space.S(m), elf, fss, i, fs);
        OnlyNext(a, space.S(m), l, elf, i, fs);
        KernelKeptGrows(a, space.S(m), l);
        fss := fss + [fs];
      } else {
        SkipHeader(a, elf, fss, i);
        NextKeysOfImage(l, elf, i);
        OnlySkip(a, l, elf, i);
        fss := fss + [[]];
      }
      i := i + 1;
      offset := offset + PROG_HEADER_SIZE;
    }
    r := Loaded;
  }

  lemma NothingLoaded(s: State, elf: seq<byte>)
    requires InFile(elf)
    ensures LoadedBefore(s, elf, [], 0)
  {
  }

  lemma SkipHeader(s: State, elf: seq<byte>, fss: seq<seq<nat>>, i: nat)
    requires LoadedBefore(s, elf, fss, i) && i < PhNum(elf) && !IsLoad(elf, i)
    ensures LoadedBefore(s, elf, fss + [[]], i + 1)
  {
  }

  lemma FileFacts(elf: seq<byte>)
    requires InFile(elf)
    ensures HeadersInFile(elf)
  {
  }

  lemma HeaderFacts(elf: seq<byte>, i: nat)
    requires InFile(elf) && i < PhNum(elf)
    ensures HeadersInFile(elf) && PhOff(elf) + PROG_HEADER_SIZE * i + PROG_HEADER_SIZE <= |elf|
    ensures IsLoad(elf, i) ==> Header(elf, i).off + Header(elf, i).filesz <= |elf|
  {
  }

  const STACK_FLAGS := 23  // VALID | USER | READABLE | WRITABLE

  function UserStack(): Segment {
    Segment(USER_STACK_OFFSET, USER_STACK_OFFSET + USER_STACK_SIZE, STACK_FLAGS)
  }

  lemma StackPages(vpn: int)
    requires FirstVpn(UserStack()) <= vpn < EndVpn(UserStack())
    ensures vpn % VPNS == vpn - TOP && IsVpn(vpn - TOP) && Full(vpn - TOP) == vpn && vpn - FirstVpn(UserStack()) < VPNS
    ensures vpn < KERNEL_BEGIN_VADDR / PAGE_SIZE
  {
    assert FirstVpn(UserStack()) == 0xf_ffff_fff0_0000 && EndVpn(UserStack()) == 0xf_ffff_fff0_0080;
  }

  /** Page number w belongs to the user stack. */
  predicate InStack(w: int) {
    Rel(w, FirstVpn(UserStack())) < Count(UserStack())
  }

  /** Only a LOAD segment can be in the way of the user stack: the kernel lies elsewhere. */
  lemma StackClash(a: State, l: Layout, elf: seq<byte>, vpn: int)
    requires InFile(elf) && OnlyLoaded(a, l, elf, PhNum(elf)) && LayoutOk(l) && Occupied(a, UserStack(), vpn)
    ensures InEarlier(elf, PhNum(elf), vpn % VPNS) && InStack(vpn % VPNS)
  {
    StackPages(vpn);
    RelOf(vpn, FirstVpn(UserStack()), vpn % VPNS);
    assert l.text / PAGE_SIZE >= KERNEL_BEGIN_VADDR / PAGE_SIZE;
    assert KernelEntry(l, vpn) == 0;
    hide Lookup, InEarlier, UserStack, FirstVpn, EndVpn, KernelEntry;
  }

  /** Nothing is mapped but the kernel, the program's LOAD segments and the user stack. */
  ghost predicate OnlyProgram(s: State, l: Layout, elf: seq<byte>) {
    |elf| >= 64 && forall w | IsVpn(w) && Lookup(s, w) != 0 ::
      KernelEntry(l, Full(w)) != 0 || InEarlier(elf, PhNum(elf), w) || InStack(w)
  }

  lemma OnlyStack(a: State, b: State, l: Layout, elf: seq<byte>, stack: seq<nat>)
    requires InFile(elf) && OnlyLoaded(a, l, elf, PhNum(elf)) && Framed(a, b, UserStack(), stack, [])
    ensures OnlyProgram(b, l, elf)
  {
    hide UserStack, KernelEntry, InEarlier, Count;
    forall w | IsVpn(w) && Lookup(b, w) != 0
      ensures KernelEntry(l, Full(w)) != 0 || InEarlier(elf, PhNum(elf), w) || InStack(w)
    {
      assert LaidAt(a, b, FirstVpn(UserStack()), FramePtes(stack, UserStack().flags), w);
    }
  }

  /** The tables and pages of a program with its user stack. */
  function SpaceKeys(l: Layout, elf: seq<byte>): set<int>
    requires LayoutOk(l) && HeadersInFile(elf)
  {
    ImageKeys(l, elf, PhNum(elf)) + SegmentKeys(UserStack())
  }

  function SpacePages(elf: seq<byte>): nat
    requires HeadersInFile(elf)
  {
    ElfPages(elf, PhNum(elf)) + Count(UserStack())
  }

  lemma SpaceIsShort(o: State, l: Layout, elf: seq<byte>)
    requires LayoutOk(l) && HeadersInFile(elf) && ImageShort(o, l, elf)
    ensures Short(o, SpaceKeys(l, elf), SpacePages(elf))
  {
    hide ImageKeys, ElfPages, SegmentKeys, Count, UserStack, Short;
    ShortForMore(o, ImageKeys(l, elf, PhNum(elf)), SpaceKeys(l, elf), ElfPages(elf, PhNum(elf)), SpacePages(elf));
  }

  lemma StackBill(o: State, a: State, b: State, l: Layout, elf: seq<byte>, r: Outcome, n: nat)
    requires LayoutOk(l) && HeadersInFile(elf)
    requires Charged(o, a, ImageKeys(l, elf, PhNum(elf)), ElfPages(elf, PhNum(elf)))
    requires EndsAfter(a, UserStack(), r, n) && Billed(a, b, FirstVpn(UserStack()), true, r, n)
    ensures r == Done ==> Charged(o, b, SpaceKeys(l, elf), SpacePages(elf))
    ensures r == Outcome.Depleted ==> b.free == {} && Short(o, SpaceKeys(l, elf), SpacePages(elf))
  {
    hide Charged, Short, ImageKeys, ElfPages, SegmentKeys, FirstVpn, Count, UserStack, EndsAfter, Billed;
    RunBill(o, a, b, ImageKeys(l, elf, PhNum(elf)), ElfPages(elf, PhNum(elf)), UserStack(), r, n);
  }

  lemma TakenFrames(o: State, a: State, b: State, g: Segment, fs: seq<nat>, data: seq<byte>)
    requires Framed(a, b, g, fs, data) && Grows(o, a)
    ensures forall j | 0 <= j < |fs| :: fs[j] in o.free
  {
    forall j | 0 <= j < |fs|
      ensures fs[j] in o.free
    {
      assert HeldAt(a, b, fs[j], PagesOf(data, |fs|)[j]);
    }
  }

  /** The memory part of newUserThread: the program image, then a zeroed user stack. */
  method NewUserSpace(m: Machine, l: Layout, elf: seq<byte>)
    returns (r: LoadResult, space: AddressSpace?, ghost fss: seq<seq<nat>>, ghost stack: seq<nat>)
    requires m.Valid() && MemoryOk(m) && LayoutOk(l) && InFile(elf)
    modifies m`mem, m`free, m.frames.node
    ensures r == Loaded ==>
      && space != null && fresh(space) && space.Valid(m)
      && LoadedBefore(space.S(m), elf, fss, PhNum(elf))
      && KernelKept(space.S(m), l) && OnlyProgram(space.S(m), l, elf)
      && SegmentLoaded(space.S(m), UserStack(), stack, [])
      && Grows(old(Purse(m)), space.S(m)) && (forall j | 0 <= j < |stack| :: stack[j] in old(m.free))
      && Charged(old(Purse(m)), space.S(m), SpaceKeys(l, elf), SpacePages(elf))
    ensures r == UnknownFileType ==> WordAt(elf, 0, 4) != ELF_MAGIC
    ensures r.AlreadyMapped? ==>
      if r.header < PhNum(elf) then Clash(l, elf, r.header, r.vpn)
      else InEarlier(elf, PhNum(elf), r.vpn % VPNS) && InStack(r.vpn % VPNS)
    ensures r == LoadResult.Depleted ==> m.free == {} && Short(old(Purse(m)), SpaceKeys(l, elf), SpacePages(elf))
  {
    hide LoadedBefore, KernelKept, OnlyLoaded, Clash, Occupied, SegmentLoaded, Ok, Grows, Framing, EndsAfter;
    hide Framed, InFile, OnlyProgram, Billed, TooFew, Charged, Short, ImageKeys, ElfPages, ImageShort;
    hide SpaceKeys, SpacePages;
    FileFacts(elf);
    ghost var o := Purse(m);
    stack := [];
    r, space, fss := NewUserMapping(m, l, elf);
    if r == LoadResult.Depleted {
      SpaceIsShort(o, l, elf);
    }
    if r == Loaded {
      ghost var a := space.S(m);
      var outcome;
      outcome, stack := space.MapFramedSegment(m, UserStack());
      EndFraming(a, space.S(m), UserStack(), outcome, stack, []);
      StackBill(o, a, space.S(m), l, elf, outcome, |stack|);
      if outcome.AlreadyMapped? {
        StackClash(a, l, elf, outcome.vpn);
        return LoadResult.AlreadyMapped(PhNum(elf), outcome.vpn), space, fss, stack;
      }
      if outcome == Outcome.Depleted {
        return LoadResult.Depleted, space, fss, stack;
      }
      FramedIsLoaded(a, space.S(m), UserStack(), stack, []);
      LoadedBeforeGrows(a, space.S(m), elf, fss, PhNum(elf));
      KernelKeptGrows(a, space.S(m), l);
      OnlyStack(a, space.S(m), l, elf, stack);
      GrowsTrans(o, a, space.S(m));
      TakenFrames(o, a, space.S(m), UserStack(), stack, []);
    }
  }

  // ----- what the program finds

  /** A segment that the hardware can enforce: readable, or executable and not writable. */
  predicate Enforceable(flags: nat) {
    flags / 4 % 2 == 1 || (flags % 2 == 1 && flags / 2 % 2 == 0)
  }

  /** The accesses that a segment's flags come to: its own permissions, if the hardware can enforce them. */
  predicate Granted(flags: nat, x: Access) {
    match x
    case Fetch => flags % 2 == 1 && (flags / 4 % 2 == 1 || flags / 2 % 2 == 0)
    case Load => flags / 4 % 2 == 1
    case Store => flags / 4 % 2 == 1 && flags / 2 % 2 == 1
  }

  /** The byte that the loader leaves at offset o from the start of the segment's first page. */
  function LoadedByte(elf: seq<byte>, h: ProgHeader, o: nat): byte
    requires h.off + h.filesz <= |elf|
  {
    if o < h.filesz then elf[h.off + o] else 0
  }

  /** The hardware finds page frame f, open to user programs with exactly the segment's permissions. */
  ghost predicate Seen(s: State, r: Walk, flags: nat, f: nat) {
    && r.Leaf? && r.level == 0 && PpnField(r.pte) == f && User(r.pte)
    && (Executable(r.pte) <==> flags % 2 == 1)
    && (Writable(r.pte) <==> flags / 2 % 2 == 1)
    && (Readable(r.pte) <==> flags / 4 % 2 == 1)
    && f in s.mem && |s.mem[f]| == PAGE_SIZE
  }

  /**
   Any address of the pages of any LOAD segment: the program can fetch, load or store there exactly if the
   address is canonical and the flags grant that access, and takes a page fault otherwise; the walk ends
   at a page exactly if the address is canonical and the flags are enforceable. The byte there is the
   loaded one.
   */
  lemma ReadThroughTables(s: State, elf: seq<byte>, fss: seq<seq<nat>>, i: nat, va: int)
    requires Ok(s) && InFile(elf) && LoadedBefore(s, elf, fss, PhNum(elf)) && i < PhNum(elf) && IsLoad(elf, i)
    requires var g := ElfSegment(Header(elf, i)); FirstVpn(g) * PAGE_SIZE <= va < EndVpn(g) * PAGE_SIZE
    ensures var h := Header(elf, i); var r := Translate(s.mem, s.tables[1], va);
            && h.off + h.filesz <= |elf|
            && (r.Leaf? <==> Canonical(va) && Enforceable(h.flags))
            && (forall x :: Permits(r, x) <==> Canonical(va) && Granted(h.flags, x))
            && (r.Leaf? ==>
                  && Seen(s, r, h.flags, PpnField(r.pte))
                  && s.mem[PpnField(r.pte)][va % PAGE_SIZE]
                     == LoadedByte(elf, h, va - FirstVpn(ElfSegment(h)) * PAGE_SIZE))
  {
    var h := Header(elf, i);
    var g, fs := ElfSegment(h), fss[i];
    assert SegmentLoaded(s, g, fs, FilePart(elf, h));
    var j := va / PAGE_SIZE - FirstVpn(g);
    assert 0 <= j < |fs|;
    hide Permits, Granted, Enforceable, Ok, LoadedBefore, Accepted;
    PageSeen(s, (FirstVpn(g) + j) % VPNS, fs[j], h.flags, PageOf(FilePart(elf, h), j));
    TranslationOf(s, va);
    assert va - FirstVpn(g) * PAGE_SIZE == PAGE_SIZE * j + va % PAGE_SIZE;
  }

  lemma PageSeen(s: State, v: int, f: nat, flags: nat, page: seq<byte>)
    requires Ok(s) && PageLoaded(s, v, f, ConvertElfFlags(flags), page) && |page| == PAGE_SIZE
    ensures var r := Accepted(Lookup(s, v));
            && (r.Leaf? <==> Enforceable(flags))
            && (forall x :: Permits(r, x) <==> Granted(flags, x))
            && (r.Leaf? ==> Seen(s, r, flags, f) && f in s.mem && s.mem[f] == page)
  {
    hide ConvertElfFlags, Lookup, Ok;
    ConvertedFlags(flags);
    PteFields(f, ConvertElfFlags(flags));
    FieldsOf(f, ConvertElfFlags(flags));
  }

  /** The gABI's promise for an aligned segment: byte j of the segment is byte j of its file part, then zeros. */
  lemma AlignedSegment(s: State, elf: seq<byte>, fss: seq<seq<nat>>, i: nat, j: nat)
    requires Ok(s) && InFile(elf) && LoadedBefore(s, elf, fss, PhNum(elf)) && i < PhNum(elf) && IsLoad(elf, i)
    requires var h := Header(elf, i); h.vaddr % PAGE_SIZE == 0 && j < h.memsz && h.vaddr + h.memsz <= WORD
    ensures var h := Header(elf, i); var r := Translate(s.mem, s.tables[1], h.vaddr + j);
            && h.off + h.filesz <= |elf|
            && (r.Leaf? <==> Canonical(h.vaddr + j) && Enforceable(h.flags))
            && (forall x :: Permits(r, x) <==> Canonical(h.vaddr + j) && Granted(h.flags, x))
            && (r.Leaf? ==>
                  && PpnField(r.pte) in s.mem && |s.mem[PpnField(r.pte)]| == PAGE_SIZE
                  && s.mem[PpnField(r.pte)][(h.vaddr + j) % PAGE_SIZE] == if j < h.filesz then elf[h.off + j] else 0)
  {
    ReadThroughTables(s, elf, fss, i, Header(elf, i).vaddr + j);
  }

  /** All of its pages are mapped, whether the hardware accepts their permissions or not. */
  lemma AlignedIsMapped(s: State, elf: seq<byte>, fss: seq<seq<nat>>, i: nat, j: nat)
    requires Ok(s) && InFile(elf) && LoadedBefore(s, elf, fss, PhNum(elf)) && i < PhNum(elf) && IsLoad(elf, i)
    requires var h := Header(elf, i); h.vaddr % PAGE_SIZE == 0 && j < h.memsz && h.vaddr + h.memsz <= WORD
    ensures Lookup(s, (Header(elf, i).vaddr + j) / PAGE_SIZE % VPNS) != 0
  {
    var h := Header(elf, i);
    var g, fs := ElfSegment(h), fss[i];
    assert SegmentLoaded(s, g, fs, FilePart(elf, h));
    var k := (h.vaddr + j) / PAGE_SIZE - FirstVpn(g);
    assert 0 <= k < |fs|;
    hide Ok, LoadedBefore, Lookup, ConvertElfFlags, InFile, WordAt, EndVpn, Count;
    ConvertedFlags(h.flags);
    assert PageLoaded(s, (FirstVpn(g) + k) % VPNS, fs[k], g.flags, PageOf(FilePart(elf, h), k));
    FramePteBounds(fs[k], g.flags);
  }

  // ----- segments that do not start on a page boundary

  /** The byte found at vaddr + j after loading data: the first page is filled from its start. */
  function FoundAt(vaddr: nat, data: seq<byte>, j: nat): byte {
    var o := vaddr % PAGE_SIZE + j;
    if o < |data| then data[o] else 0
  }

  lemma FoundIsLoaded(elf: seq<byte>, h: ProgHeader, j: nat)
    requires h.off + h.filesz <= |elf|
    ensures FoundAt(h.vaddr, FilePart(elf, h), j)
         == LoadedByte(elf, h, h.vaddr + j - FirstVpn(ElfSegment(h)) * PAGE_SIZE)
  {
  }

  /** Every file part of n bytes ends up where its header says exactly when the segment starts on a page. */
  lemma PlacedRightIffAligned(vaddr: nat, n: nat)
    ensures (forall data: seq<byte>, j: nat | |data| == n && j < n :: FoundAt(vaddr, data, j) == data[j])
            <==> vaddr % PAGE_SIZE == 0 || n == 0
  {
    if vaddr % PAGE_SIZE != 0 && n > 0 {
      var data: seq<byte> := seq(n, i => if i == 0 then 1 else 0);
      assert |data| == n && FoundAt(vaddr, data, 0) != data[0];
    }
  }
}
