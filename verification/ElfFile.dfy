/**
 ELF files as the System V gABI writes them down (chapters 4 and 5, ELFCLASS64,
 least significant byte first), and what the loader makes of one in these terms.
 */
module ElfFile {
  import Bits
  import opened Bytes
  import opened PageTable
  import opened Mapping
  import opened KernelSpace
  import opened Loader

  /** The fields of an Elf64_Phdr, in the order in which they are stored. */
  datatype Phdr = Phdr(kind: nat, flags: nat, off: nat, vaddr: nat, paddr: nat, filesz: nat, memsz: nat, align: nat)

  predicate Fits(p: Phdr) {
    && p.kind < 0x1_0000_0000 && p.flags < 0x1_0000_0000
    && p.off < WORD && p.vaddr < WORD && p.paddr < WORD && p.filesz < WORD && p.memsz < WORD && p.align < WORD
  }

  function PhdrBytes(p: Phdr): (s: seq<byte>)
    ensures |s| == 56
  {
    ToBytes(p.kind, 4) + ToBytes(p.flags, 4) + ToBytes(p.off, 8) + ToBytes(p.vaddr, 8)
    + ToBytes(p.paddr, 8) + ToBytes(p.filesz, 8) + ToBytes(p.memsz, 8) + ToBytes(p.align, 8)
  }

  predicate Holds(elf: seq<byte>, o: nat, s: seq<byte>) {
    o + |s| <= |elf| && elf[o..o + |s|] == s
  }

  predicate PhdrAt(elf: seq<byte>, o: nat, p: Phdr) {
    Fits(p) && Holds(elf, o, PhdrBytes(p))
  }

  /** A file with these program headers at phoff, whose loadable segments lie inside it. */
  predicate IsElf(elf: seq<byte>, phoff: nat, ps: seq<Phdr>) {
    && |elf| >= 64 && phoff < WORD && |ps| < 0x1_0000
    && Holds(elf, 0, [0x7f, 0x45, 0x4c, 0x46])
    && Holds(elf, 32, ToBytes(phoff, 8)) && Holds(elf, 56, ToBytes(|ps|, 2))
    && phoff + 56 * |ps| <= |elf|
    && (forall i | 0 <= i < |ps| :: PhdrAt(elf, phoff + 56 * i, ps[i]))
    && (forall i | 0 <= i < |ps| :: ps[i].kind == 1 ==> ps[i].off + ps[i].filesz <= |elf|)
  }

  // ----- what the loader reads

  lemma Inner(elf: seq<byte>, o: nat, s: seq<byte>, k: nat, n: nat)
    requires Holds(elf, o, s) && k + n <= |s|
    ensures o + k + n <= |elf| && elf[o + k..o + k + n] == s[k..k + n]
  {
    var part, whole := elf[o + k..o + k + n], elf[o..o + |s|];
    forall j | 0 <= j < n
      ensures part[j] == s[k..k + n][j]
    {
      assert whole[k + j] == s[k + j];
    }
  }

  lemma EightParts(a: seq<byte>, b: seq<byte>, c: seq<byte>, d: seq<byte>, e: seq<byte>, f: seq<byte>, g: seq<byte>,
                   h: seq<byte>)
    requires |a| == |b| == 4 && |c| == |d| == |e| == |f| == |g| == |h| == 8
    ensures var s := a + b + c + d + e + f + g + h;
            && s[0..4] == a && s[4..8] == b && s[8..16] == c && s[16..24] == d && s[32..40] == f && s[40..48] == g
  {
  }

  lemma WordIs(elf: seq<byte>, o: nat, n: nat, w: nat)
    requires o + n <= |elf| && elf[o..o + n] == ToBytes(w, n) && w < Base(n)
    ensures WordAt(elf, o, n) == w
  {
    FromTo(w, n);
  }

  lemma Sizes()
    ensures Base(2) == 0x1_0000 && Base(4) == 0x1_0000_0000 && Base(8) == WORD
  {
    assert Base(2) == 0x1_0000;
    Base8();
  }

  lemma HeaderIs(elf: seq<byte>, o: nat, p: Phdr)
    requires PhdrAt(elf, o, p)
    ensures o + 56 <= |elf|
    ensures HeaderAt(elf, o) == ProgHeader(p.kind, p.flags, p.off, p.vaddr, p.filesz, p.memsz)
  {
    Sizes();
    var s := PhdrBytes(p);
    EightParts(ToBytes(p.kind, 4), ToBytes(p.flags, 4), ToBytes(p.off, 8), ToBytes(p.vaddr, 8),
               ToBytes(p.paddr, 8), ToBytes(p.filesz, 8), ToBytes(p.memsz, 8), ToBytes(p.align, 8));
    hide PhdrBytes, Base, ToBytes, FromBytes;
    Inner(elf, o, s, 0, 4);
    Inner(elf, o, s, 4, 4);
    Inner(elf, o, s, 8, 8);
    Inner(elf, o, s, 16, 8);
    Inner(elf, o, s, 32, 8);
    Inner(elf, o, s, 40, 8);
    WordIs(elf, o, 4, p.kind);
    WordIs(elf, o + 4, 4, p.flags);
    WordIs(elf, o + 8, 8, p.off);
    WordIs(elf, o + 16, 8, p.vaddr);
    WordIs(elf, o + 32, 8, p.filesz);
    WordIs(elf, o + 40, 8, p.memsz);
  }

  lemma MagicBytes()
    ensures ToBytes(ELF_MAGIC, 4) == [0x7f, 0x45, 0x4c, 0x46]
  {
    assert ToBytes(0x464c, 2) == [0x4c, 0x46];
  }

  lemma FileHeaderIs(elf: seq<byte>, phoff: nat, ps: seq<Phdr>)
    requires IsElf(elf, phoff, ps)
    ensures PhOff(elf) == phoff && PhNum(elf) == |ps| && WordAt(elf, 0, 4) == ELF_MAGIC && HeadersInFile(elf)
  {
    hide Base, ToBytes, FromBytes, PhdrAt;
    Sizes();
    MagicBytes();
    WordIs(elf, 32, 8, phoff);
    WordIs(elf, 56, 2, |ps|);
    WordIs(elf, 0, 4, ELF_MAGIC);
  }

  /** Header i, as the loader sees it, is the one that was written. */
  ghost predicate Agrees(elf: seq<byte>, ps: seq<Phdr>, i: nat) {
    && HeadersInFile(elf) && i < |ps| == PhNum(elf)
    && Header(elf, i) == ProgHeader(ps[i].kind, ps[i].flags, ps[i].off, ps[i].vaddr, ps[i].filesz, ps[i].memsz)
  }

  /** The loader finds the headers that were written, and everything it reads lies inside the file. */
  lemma HeadersAre(elf: seq<byte>, phoff: nat, ps: seq<Phdr>)
    requires IsElf(elf, phoff, ps)
    ensures InFile(elf) && PhNum(elf) == |ps| && WordAt(elf, 0, 4) == ELF_MAGIC
    ensures forall i | 0 <= i < |ps| :: Agrees(elf, ps, i)
  {
    FileHeaderIs(elf, phoff, ps);
    hide PhdrAt, HeaderAt, Fits, WordAt, PhOff, PhNum;
    forall i | 0 <= i < |ps|
      ensures Agrees(elf, ps, i)
    {
      assert PhdrAt(elf, phoff + 56 * i, ps[i]);
      HeaderIs(elf, phoff + 56 * i, ps[i]);
    }
    forall i | 0 <= i < PhNum(elf) && IsLoad(elf, i)
      ensures Header(elf, i).off + Header(elf, i).filesz <= |elf|
    {
      assert Agrees(elf, ps, i);
    }
  }

  // ----- what a program finds

  /** Address va lies in the part of memory that p asks for. */
  predicate Within(p: Phdr, va: int) { p.vaddr <= va < p.vaddr + p.memsz }

  /** What a segment's flags allow: PF_X is 1, PF_W 2 and PF_R 4; the hardware has no pages to write only. */
  predicate Allows(flags: nat, x: Access) {
    var r, w, e := flags / 4 % 2 == 1, flags / 2 % 2 == 1, flags % 2 == 1;
    match x
    case Load => r
    case Store => r && w
    case Fetch => e && (r || !w)
  }

  /**
   What the gABI promises of a loadable segment: every byte of its memory is mapped and open to the accesses
   that its flags allow, and to no others; it holds the file's bytes, and zeros behind them.
   */
  ghost predicate InPlace(s: State, elf: seq<byte>, p: Phdr, va: int)
    requires 1 in s.tables && p.off + p.filesz <= |elf| && Within(p, va)
  {
    var r := Translate(s.mem, s.tables[1], va);
    && Lookup(s, va / PAGE_SIZE % VPNS) != 0
    && (forall x :: Permits(r, x) <==> Canonical(va) && Allows(p.flags, x))
    && (r.Leaf? ==>
          && PpnField(r.pte) in s.mem && |s.mem[PpnField(r.pte)]| == PAGE_SIZE
          && s.mem[PpnField(r.pte)][va % PAGE_SIZE]
             == if va - p.vaddr < p.filesz then elf[p.off + (va - p.vaddr)] else 0)
  }

  lemma AllowsIsGranted(flags: nat, x: Access)
    ensures Granted(flags, x) == Allows(flags, x)
  {
  }

  lemma HeaderInPlace(s: State, elf: seq<byte>, fss: seq<seq<nat>>, i: nat, p: Phdr, va: int)
    requires Ok(s) && InFile(elf) && LoadedBefore(s, elf, fss, PhNum(elf)) && i < PhNum(elf)
    requires Header(elf, i) == ProgHeader(p.kind, p.flags, p.off, p.vaddr, p.filesz, p.memsz)
    requires p.kind == 1 && p.vaddr % PAGE_SIZE == 0 && p.vaddr + p.memsz <= WORD && Within(p, va)
    ensures p.off + p.filesz <= |elf| && InPlace(s, elf, p, va)
  {
    hide Header, WordAt, InFile, Translate, Ok, LoadedBefore, Lookup, Permits, Enforceable, Granted, Allows, PpnField;
    hide Canonical, PhNum;
    forall x
      ensures Granted(p.flags, x) == Allows(p.flags, x)
    {
      AllowsIsGranted(p.flags, x);
    }
    AlignedSegment(s, elf, fss, i, va - p.vaddr);
    AlignedIsMapped(s, elf, fss, i, va - p.vaddr);
  }

  lemma SegmentInPlace(s: State, elf: seq<byte>, fss: seq<seq<nat>>, phoff: nat, ps: seq<Phdr>, i: nat, va: int)
    requires Ok(s) && IsElf(elf, phoff, ps) && InFile(elf) && LoadedBefore(s, elf, fss, PhNum(elf))
    requires i < |ps| && ps[i].kind == 1 && ps[i].vaddr % PAGE_SIZE == 0 && ps[i].vaddr + ps[i].memsz <= WORD
    requires Within(ps[i], va)
    ensures ps[i].off + ps[i].filesz <= |elf| && InPlace(s, elf, ps[i], va)
  {
    hide InPlace, Within, InFile, LoadedBefore, Ok, IsElf, Header;
    HeadersAre(elf, phoff, ps);
    assert Agrees(elf, ps, i);
    HeaderInPlace(s, elf, fss, i, ps[i], va);
  }

  // ----- which pages a program takes

  /** The page with the 27-bit number w has an address between from and to. */
  ghost predicate HasAddress(from: int, to: int, w: int) {
    exists va :: IsAddress(from, to, w, va)
  }

  predicate IsAddress(from: int, to: int, w: int, va: int) {
    from <= va < to && va / PAGE_SIZE % VPNS == w
  }

  ghost predicate Takes(p: Phdr, w: int) { HasAddress(p.vaddr, p.vaddr + p.memsz, w) }

  /** A segment with some memory, that does not go round the address space. */
  predicate Sound(p: Phdr) { p.memsz > 0 && p.vaddr + p.memsz <= WORD }

  lemma SegmentTakes(g: Segment, from: int, to: int, w: int)
    requires Nonempty(g) && IsVpn(w) && g.startVaddr == from && to == (if g.endVaddr == 0 then WORD else g.endVaddr)
    ensures HasAddress(from, to, w) <==> Rel(w, FirstVpn(g)) < Count(g)
  {
    CoveredIsRel(g, w);
    hide Count, FirstVpn;
    if x :| Covers(g, x) && x % VPNS == w {
      var a :| InPage(g, a, x);
      assert IsAddress(from, to, w, a);
    }
    if va :| IsAddress(from, to, w, va) {
      assert InPage(g, va, va / PAGE_SIZE);
      assert Covers(g, va / PAGE_SIZE);
    }
  }

  lemma ElfSegmentTakes(h: ProgHeader, p: Phdr, w: int)
    requires h == ProgHeader(p.kind, p.flags, p.off, p.vaddr, p.filesz, p.memsz) && Sound(p) && IsVpn(w)
    ensures Rel(w, FirstVpn(ElfSegment(h))) < Count(ElfSegment(h)) <==> Takes(p, w)
  {
    hide HasAddress, Count, FirstVpn, ConvertElfFlags;
    SegmentTakes(ElfSegment(h), p.vaddr, p.vaddr + p.memsz, w);
  }

  /** The pages that the loader counts as segment k's are those of its addresses. */
  lemma TakesIff(elf: seq<byte>, phoff: nat, ps: seq<Phdr>, k: int, i: nat, w: int)
    requires IsElf(elf, phoff, ps) && 0 <= k < i <= |ps| && IsVpn(w) && Sound(ps[k])
    ensures InSegment(elf, k, i, w) <==> ps[k].kind == 1 && Takes(ps[k], w)
  {
    hide IsElf, Takes, Count, FirstVpn, ElfSegment, HeaderAt, InFile;
    HeadersAre(elf, phoff, ps);
    assert Agrees(elf, ps, k);
    ElfSegmentTakes(Header(elf, k), ps[k], w);
  }

  predicate AllSound(ps: seq<Phdr>) {
    forall i | 0 <= i < |ps| && ps[i].kind == 1 :: Sound(ps[i])
  }

  /** A loadable segment before the i-th one has an address in page w. */
  ghost predicate TakenBefore(ps: seq<Phdr>, i: int, w: int) {
    exists k :: 0 <= k < i <= |ps| && ps[k].kind == 1 && Takes(ps[k], w)
  }

  ghost predicate OfKernel(l: Layout, w: int) { HasAddress(l.text, 0xffff_ffff_8800_0000, w) }

  ghost predicate OfStack(w: int) { HasAddress(0xffff_ffff_0000_0000, 0xffff_ffff_0008_0000, w) }

  /** Two addresses of p are 2^27 pages apart, and so in pages with the same number. */
  ghost predicate GoesRound(p: Phdr) {
    exists a, b :: Within(p, a) && Within(p, b) && b / PAGE_SIZE - a / PAGE_SIZE == VPNS
  }

  /** Segment i cannot be mapped: one of its addresses is in a page that is taken, or it is too long. */
  ghost predicate Collides(l: Layout, ps: seq<Phdr>, i: int, w: int) {
    && 0 <= i < |ps| && ps[i].kind == 1 && Takes(ps[i], w)
    && (OfKernel(l, w) || TakenBefore(ps, i, w) || GoesRound(ps[i]))
  }

  lemma EarlierIff(elf: seq<byte>, phoff: nat, ps: seq<Phdr>, i: nat, w: int)
    requires IsElf(elf, phoff, ps) && i <= |ps| && IsVpn(w) && AllSound(ps)
    ensures InEarlier(elf, i, w) <==> TakenBefore(ps, i, w)
  {
    hide IsElf, Takes, Sound, IsLoad, InFile;
    HeadersAre(elf, phoff, ps);
    if k :| InSegment(elf, k, i, w) {
      assert Agrees(elf, ps, k);
      KindIsLoad(elf, ps, k);
      TakesIff(elf, phoff, ps, k, i, w);
      assert 0 <= k < i <= |ps| && ps[k].kind == 1 && Takes(ps[k], w);
    }
    if k :| 0 <= k < i <= |ps| && ps[k].kind == 1 && Takes(ps[k], w) {
      TakesIff(elf, phoff, ps, k, i, w);
      assert InSegment(elf, k, i, w);
    }
  }

  lemma KindIsLoad(elf: seq<byte>, ps: seq<Phdr>, k: nat)
    requires Agrees(elf, ps, k)
    ensures IsLoad(elf, k) <==> ps[k].kind == 1
  {
  }

  lemma KernelPagesIff(l: Layout, w: int)
    requires LayoutOk(l) && IsVpn(w)
    ensures KernelEntry(l, Full(w)) != 0 <==> OfKernel(l, w)
  {
    if KernelEntry(l, Full(w)) != 0 {
      assert (TOP + w) * PAGE_SIZE / PAGE_SIZE % VPNS == w by {
        assert TOP == 0x1ff_ffff * VPNS;
        Bits.DivUnique(TOP + w, VPNS, 0x1ff_ffff, w);
      }
      assert IsAddress(l.text, MEMORY_END_VADDR, w, Full(w) * PAGE_SIZE);
    }
    if va :| IsAddress(l.text, MEMORY_END_VADDR, w, va) {
      KernelPage(va);
      LinearPteBounds(va / PAGE_SIZE, KernelFlags(l, va / PAGE_SIZE));
    }
  }

  lemma StackPagesIff(w: int)
    requires IsVpn(w)
    ensures InStack(w) <==> OfStack(w)
  {
    assert FirstVpn(UserStack()) * PAGE_SIZE == USER_STACK_OFFSET;
    hide Count, FirstVpn;
    SegmentTakes(UserStack(), USER_STACK_OFFSET, USER_STACK_OFFSET + USER_STACK_SIZE, w);
  }

  /** The page that the loader panics at is one of the segment's, and taken. */
  lemma ClashCollides(elf: seq<byte>, phoff: nat, l: Layout, ps: seq<Phdr>, i: nat, vpn: int)
    requires IsElf(elf, phoff, ps) && LayoutOk(l) && AllSound(ps) && i < |ps| && Clash(l, elf, i, vpn)
    ensures Collides(l, ps, i, vpn % VPNS)
  {
    HeadersAre(elf, phoff, ps);
    assert Agrees(elf, ps, i);
    KindIsLoad(elf, ps, i);
    hide IsElf, InFile, IsLoad, InEarlier, OfKernel, TakenBefore, KernelEntry, Header;
    EarlierIff(elf, phoff, ps, i, vpn % VPNS);
    KernelPagesIff(l, vpn % VPNS);
    PageOfSegment(Header(elf, i), ps[i], vpn);
  }

  lemma PageOfSegment(h: ProgHeader, p: Phdr, vpn: int)
    requires h == ProgHeader(p.kind, p.flags, p.off, p.vaddr, p.filesz, p.memsz) && Sound(p)
    requires FirstVpn(ElfSegment(h)) <= vpn < EndVpn(ElfSegment(h))
    ensures Takes(p, vpn % VPNS)
    ensures vpn - FirstVpn(ElfSegment(h)) == VPNS ==> GoesRound(p)
  {
    var g := ElfSegment(h);
    hide ConvertElfFlags;
    CoversIff(g, vpn);
    var va :| InPage(g, va, vpn);
    assert IsAddress(p.vaddr, p.vaddr + p.memsz, vpn % VPNS, va);
    if vpn - FirstVpn(g) == VPNS {
      assert Within(p, p.vaddr) && Within(p, va) && va / PAGE_SIZE - p.vaddr / PAGE_SIZE == VPNS;
    }
  }

  /** What is mapped once a program is in place: the kernel, the program and its stack. */
  ghost predicate Expected(l: Layout, ps: seq<Phdr>, w: int) {
    OfKernel(l, w) || TakenBefore(ps, |ps|, w) || OfStack(w)
  }

  ghost predicate OnlyExpected(s: State, l: Layout, ps: seq<Phdr>) {
    forall w | IsVpn(w) && Lookup(s, w) != 0 :: Expected(l, ps, w)
  }

  lemma OnlyTheProgram(s: State, l: Layout, elf: seq<byte>, phoff: nat, ps: seq<Phdr>)
    requires IsElf(elf, phoff, ps) && LayoutOk(l) && AllSound(ps) && OnlyProgram(s, l, elf)
    ensures OnlyExpected(s, l, ps)
  {
    HeadersAre(elf, phoff, ps);
    hide IsElf, InFile, Lookup, KernelEntry, InEarlier, InStack, OfKernel, TakenBefore, OfStack, AllSound;
    forall w | IsVpn(w) && Lookup(s, w) != 0
      ensures Expected(l, ps, w)
    {
      KernelPagesIff(l, w);
      EarlierIff(elf, phoff, ps, |ps|, w);
      StackPagesIff(w);
    }
  }

  /** The loadable segments that start on a page, byte by byte. */
  ghost predicate AllInPlace(s: State, elf: seq<byte>, ps: seq<Phdr>)
    requires 1 in s.tables
  {
    forall i, va | 0 <= i < |ps| && ps[i].kind == 1 && ps[i].vaddr % PAGE_SIZE == 0 && ps[i].vaddr + ps[i].memsz <= WORD
                   && Within(ps[i], va) ::
      ps[i].off + ps[i].filesz <= |elf| && InPlace(s, elf, ps[i], va)
  }

  lemma ProgramInPlace(s: State, elf: seq<byte>, fss: seq<seq<nat>>, phoff: nat, ps: seq<Phdr>)
    requires Ok(s) && IsElf(elf, phoff, ps) && InFile(elf) && LoadedBefore(s, elf, fss, PhNum(elf))
    ensures AllInPlace(s, elf, ps)
  {
    RootIsThere(s);
    hide IsElf, InFile, LoadedBefore, Ok, InPlace;
    forall i, va | 0 <= i < |ps| && ps[i].kind == 1 && ps[i].vaddr % PAGE_SIZE == 0 && ps[i].vaddr + ps[i].memsz <= WORD
                   && Within(ps[i], va)
      ensures ps[i].off + ps[i].filesz <= |elf| && InPlace(s, elf, ps[i], va)
    {
      SegmentInPlace(s, elf, fss, phoff, ps, i, va);
    }
  }

  /** A byte of the user stack: zero at first, to be loaded and stored, not to be executed. */
  ghost predicate StackByte(s: State, va: int)
    requires 1 in s.tables
  {
    var r := Translate(s.mem, s.tables[1], va);
    && Permits(r, Load) && Permits(r, Store) && !Permits(r, Fetch)
    && PpnField(r.pte) in s.mem && |s.mem[PpnField(r.pte)]| == PAGE_SIZE && s.mem[PpnField(r.pte)][va % PAGE_SIZE] == 0
  }

  lemma StackInPlace(s: State, stack: seq<nat>, va: int)
    requires Ok(s) && SegmentLoaded(s, UserStack(), stack, [])
    requires 0xffff_ffff_0000_0000 <= va < 0xffff_ffff_0008_0000
    ensures 1 in s.tables && StackByte(s, va)
  {
    var x := va / PAGE_SIZE;
    var j := x - FirstVpn(UserStack());
    StackPages(x);
    FlagUnions();
    assert ConvertElfFlags(6) == STACK_FLAGS;
    assert PageLoaded(s, (FirstVpn(UserStack()) + j) % VPNS, stack[j], STACK_FLAGS, PageOf([], j));
    NoData(j);
    hide ConvertElfFlags, Lookup;
    PageSeen(s, x % VPNS, stack[j], 6, ZeroPage());
    TranslationOf(s, va);
  }

  /** The memory part of newUserThread for a file that was written like this. */
  method LoadElf(m: Machine, l: Layout, elf: seq<byte>, ghost phoff: nat, ghost ps: seq<Phdr>)
    returns (r: LoadResult, space: AddressSpace?)
    requires m.Valid() && MemoryOk(m) && LayoutOk(l) && IsElf(elf, phoff, ps)
    modifies m`mem, m`free, m.frames.node
    ensures r != UnknownFileType
    ensures r == Loaded ==>
      && space != null && fresh(space) && space.Valid(m) && 1 in space.tables
      && AllInPlace(space.S(m), elf, ps)
      && (forall va | l.text <= va < 0xffff_ffff_8800_0000 :: Closed(space.S(m), va))
      && (forall va | 0xffff_ffff_0000_0000 <= va < 0xffff_ffff_0008_0000 :: StackByte(space.S(m), va))
      && (AllSound(ps) ==> OnlyExpected(space.S(m), l, ps))
    ensures r.AlreadyMapped? && AllSound(ps) ==>
      var w := r.vpn % VPNS;
      if r.header < |ps| then Collides(l, ps, r.header, w) else OfStack(w) && TakenBefore(ps, |ps|, w)
    ensures r == LoadResult.Depleted ==> m.free == {}
  {
    hide IsElf, InFile, AllInPlace, OnlyExpected, AllSound, Collides, Clash, Ok, LoadedBefore, KernelKept, OnlyProgram;
    hide SegmentLoaded, StackByte, Closed, Grows, FrameCount.Charged, FrameCount.Short;
    hide OfStack, TakenBefore, InEarlier, InStack;
    HeadersAre(elf, phoff, ps);
    ghost var fss, stack;
    r, space, fss, stack := NewUserSpace(m, l, elf);
    if r == Loaded {
      ghost var s := space.S(m);
      RootIsThere(s);
      ProgramInPlace(s, elf, fss, phoff, ps);
      forall va | l.text <= va < 0xffff_ffff_8800_0000
        ensures Closed(s, va)
      {
        KernelStaysClosed(s, l, va);
      }
      forall va | 0xffff_ffff_0000_0000 <= va < 0xffff_ffff_0008_0000
        ensures StackByte(s, va)
      {
        StackInPlace(s, stack, va);
      }
      if AllSound(ps) {
        OnlyTheProgram(s, l, elf, phoff, ps);
      }
    } else if r.AlreadyMapped? && AllSound(ps) {
      if r.header < |ps| {
        ClashCollides(elf, phoff, l, ps, r.header, r.vpn);
      } else {
        EarlierIff(elf, phoff, ps, |ps|, r.vpn % VPNS);
        StackPagesIff(r.vpn % VPNS);
      }
    }
  }

  lemma RootIsThere(s: State)
    requires Ok(s)
    ensures 1 in s.tables
  {
  }
}
