/**
 A run in which the idle thread comes to dispatch a context that lies on a user
 stack, and cannot see it: the first user program's second dispatch.
 */
module UserStacks {
  import opened Scheduler
  import opened Context
  import opened ContextRuns
  import opened KernelSpace
  import Bytes
  import FrameCount
  import PageTable
  import Mapping
  import Loader

  const PAGE := PageTable.PAGE_SIZE
  const USER := Loader.USER_STACK_OFFSET

  /** The idle thread's and a program's address space in one memory; f is the first frame of the user stack. */
  datatype Case = Case(u: Tables, s: PageTable.State, t: PageTable.State, l: Layout, idle: int, user: int, f: nat)

  ghost predicate Fits(c: Case) {
    && SpaceOf(c.u, c.idle, c.s) && SpaceOf(c.u, c.user, c.t)
    && LayoutOk(c.l) && c.l.data + PAGE <= MEMORY_END_VADDR
    && MappedWithDevices(c.s, c.l, 4) && Loader.KernelKept(c.s, c.l) && Loader.KernelKept(c.t, c.l)
    && Loader.PageLoaded(c.t, (USER / PAGE) % PageTable.VPNS, c.f, Loader.STACK_FLAGS, PageTable.ZeroPage())
    && c.f != Base(c) / PAGE
  }

  /** The physical address of the kernel's first data page. */
  function Base(c: Case): int { c.l.data - KERNEL_MAP_OFFSET }

  /** Contexts on three kernel stacks: the boot code's, the idle thread's and the program's. */
  function At(c: Case, i: nat): int { c.l.data + 0x400 * i }

  function WordAt(p: int, k: int): int { p + 8 * k }

  /** The words of a context whose first word is at p. */
  ghost function Cells(p: int): set<int> {
    set k | 0 <= k < 14 :: WordAt(p, k)
  }

  ghost function KernelCells(c: Case, i: nat): set<int> { Cells(Base(c) + 0x400 * i) }

  ghost function UserCells(c: Case): set<int> { Cells(c.f * PAGE) }

  ghost function AllCells(c: Case): set<int> {
    KernelCells(c, 0) + KernelCells(c, 1) + KernelCells(c, 2) + UserCells(c)
  }

  lemma CellsApart(c: Case)
    requires LayoutOk(c.l) && c.f != Base(c) / PAGE
    ensures KernelCells(c, 0) !! KernelCells(c, 1) && KernelCells(c, 0) !! KernelCells(c, 2)
    ensures KernelCells(c, 1) !! KernelCells(c, 2)
    ensures forall i: nat | i < 3 :: KernelCells(c, i) !! UserCells(c)
    ensures -1 !in AllCells(c)
  {
    var b := Base(c);
    assert b % PAGE == 0 && b >= 0;
    forall i: nat, x | i < 3 && x in KernelCells(c, i)
      ensures x !in UserCells(c)
    {
      assert x / PAGE == b / PAGE;
    }
  }

  // ----- where the words are

  lemma KernelWord(c: Case, satp: int, i: nat, k: int)
    requires Fits(c) && (satp == c.idle || satp == c.user) && i < 3 && 0 <= k < 14
    ensures Place(c.u, satp, At(c, i), k) == WordAt(Base(c) + 0x400 * i, k)
  {
    var p := At(c, i);
    if satp == c.idle {
      KernelStackIsVisible(c.u, satp, c.s, satp, c.s, c.l, p, k);
    } else {
      KernelStackIsVisible(c.u, satp, c.t, satp, c.t, c.l, p, k);
    }
  }

  lemma UserWord(c: Case, k: int)
    requires Fits(c) && 0 <= k < 14
    ensures Place(c.u, c.user, USER, k) == WordAt(c.f * PAGE, k)
  {
    var a := USER + 8 * k;
    assert a / PAGE == USER / PAGE && a % PAGE == 8 * k;
    Loader.StackPages(USER / PAGE);
    PageTable.TranslationOf(c.t, a);
    Loader.FlagUnions();
    assert Loader.ConvertElfFlags(6) == Loader.STACK_FLAGS;
    Loader.PageSeen(c.t, (USER / PAGE) % PageTable.VPNS, c.f, 6, PageTable.ZeroPage());
  }

  lemma KernelRoom(c: Case, satp: int, i: nat, mem: map<int, int>)
    requires Fits(c) && (satp == c.idle || satp == c.user) && i < 3 && mem.Keys == AllCells(c)
    ensures Room(c.u, mem, satp, At(c, i)) && Inside(c.u, satp, At(c, i), KernelCells(c, i))
  {
    hide Fits, Phys, Place;
    forall k | 0 <= k < 14
      ensures Place(c.u, satp, At(c, i), k) == WordAt(Base(c) + 0x400 * i, k)
    {
      KernelWord(c, satp, i, k);
    }
  }

  lemma UserRoom(c: Case, mem: map<int, int>)
    requires Fits(c) && mem.Keys == AllCells(c)
    ensures Room(c.u, mem, c.user, USER) && Inside(c.u, c.user, USER, UserCells(c))
  {
    hide Fits, Phys, Place;
    forall k | 0 <= k < 14
      ensures Place(c.u, c.user, USER, k) == WordAt(c.f * PAGE, k)
    {
      UserWord(c, k);
    }
  }

  // ----- the run, event by event

  function Zeros(): seq<int> { seq(12, _ => 0) }

  function Top(c: Case, i: nat): int { At(c, i) + FRAME + TRAP_FRAME }

  /** The boot code on the first kernel stack. */
  ghost function Start0(c: Case): World {
    World(c.u, Machine(map a | a in AllCells(c) :: 0, [0, 0, 0], Regs(At(c, 0) + FRAME, 0, c.idle, Zeros())),
          seq(MAX_THREAD, _ => 0), map[BOOT_OWNER := KernelCells(c, 0)], BOOT_OWNER, [])
  }

  ghost function IdleMade(c: Case): Event {
    Create(IDLE_OWNER, Top(c, 1), 0, c.idle, Zeros(), KernelCells(c, 1), map[])
  }

  ghost function ProgramMade(c: Case): Event {
    Create(0, Top(c, 2), 0, c.user, Zeros(), KernelCells(c, 2) + UserCells(c), map[])
  }

  /** The program on its own stack. */
  ghost function OnItsStack(c: Case, mem: map<int, int>): Event {
    Work(Regs(USER + FRAME, 0, c.user, Zeros()), mem)
  }

  /** What does not change along the run, and who runs where. */
  ghost predicate Point(c: Case, w: World, running: int, sp: int, satp: int) {
    && Ok(w) && w.u == c.u && w.m.mem.Keys == AllCells(c)
    && w.running == running && w.m.r.sp == sp && w.m.r.satp == satp
  }

  ghost predicate Areas(c: Case, w: World, made: bool) {
    if made then
      w.areas == map[BOOT_OWNER := KernelCells(c, 0), IDLE_OWNER := KernelCells(c, 1),
                     0 := KernelCells(c, 2) + UserCells(c)]
    else w.areas == map[BOOT_OWNER := KernelCells(c, 0), IDLE_OWNER := KernelCells(c, 1)]
  }

  /** Owner o has a context at p, which belongs to satp. */
  ghost predicate Saved(w: World, o: int, p: int, satp: int) {
    var h := Scan(w.log, o);
    Sized(w) && h.Holds? && h.at == p && h.r.satp == satp && h.r.sp == p + FRAME && Where(w, o) == p
  }

  lemma FirstIsInitial(c: Case)
    requires Fits(c)
    ensures Initial(Start0(c)) && Point(c, Start0(c), BOOT_OWNER, At(c, 0) + FRAME, c.idle)
  {
    CellsApart(c);
    hide Fits, Cells;
    InitialIsOk(Start0(c));
  }

  lemma IdleIsMade(c: Case, w: World)
    requires Fits(c) && Point(c, w, BOOT_OWNER, At(c, 0) + FRAME, c.idle)
    requires w.areas == map[BOOT_OWNER := KernelCells(c, 0)]
    ensures Possible(w, IdleMade(c))
    ensures var v := Step(w, IdleMade(c));
            && Point(c, v, BOOT_OWNER, At(c, 0) + FRAME, c.idle) && Areas(c, v, false)
            && Saved(v, IDLE_OWNER, At(c, 1), c.idle)
  {
    CellsApart(c);
    KernelRoom(c, c.idle, 1, w.m.mem);
    hide Fits, Cells, Room, Inside, Frame, Phys, Place;
    StepKeepsOk(w, IdleMade(c));
    CreateKeys(w, IdleMade(c));
    ScanAppend(w.log, Save(IDLE_OWNER, At(c, 1), Fresh(Top(c, 1), 0, c.idle, Zeros())), IDLE_OWNER);
    assert OwnerOk(w, IDLE_OWNER);
  }

  lemma ProgramIsReady(c: Case, w: World)
    requires Fits(c) && Point(c, w, BOOT_OWNER, At(c, 0) + FRAME, c.idle) && Areas(c, w, false)
    ensures Enabled(w, ProgramMade(c))
  {
    CellsApart(c);
    KernelRoom(c, c.user, 2, w.m.mem);
    hide Fits, Cells, Room, Frame, Phys, Place, Ok;
    forall o | o in w.areas
      ensures w.areas[o] !! KernelCells(c, 2) + UserCells(c)
    {
    }
  }

  lemma ProgramIsMade(c: Case, w: World)
    requires Fits(c) && Point(c, w, BOOT_OWNER, At(c, 0) + FRAME, c.idle) && Areas(c, w, false)
    requires Saved(w, IDLE_OWNER, At(c, 1), c.idle)
    ensures Possible(w, ProgramMade(c))
    ensures var v := Step(w, ProgramMade(c));
            && Point(c, v, BOOT_OWNER, At(c, 0) + FRAME, c.idle) && Areas(c, v, true)
            && Saved(v, IDLE_OWNER, At(c, 1), c.idle) && Saved(v, 0, At(c, 2), c.user)
  {
    ProgramIsReady(c, w);
    assert Sized(w);
    assert OwnerOk(w, 0);
    hide Fits, Cells, KernelCells, UserCells, AllCells, Room, Inside, Frame, Phys, Place, Enabled, Ok, OwnerOk;
    StepKeepsOk(w, ProgramMade(c));
    CreateKeys(w, ProgramMade(c));
    var e := Save(0, At(c, 2), Fresh(Top(c, 2), 0, c.user, Zeros()));
    ScanAppend(w.log, e, 0);
    ScanAppend(w.log, e, IDLE_OWNER);
  }

  /** What the log says after a switch of the running owner to o. */
  lemma ScanAfterSwitch(w: World, o: int, self: int, target: int, q: int)
    requires CanSwitch(w.u, w.m, self, target) && o != w.running
    requires Scan(w.log, w.running).Nothing?
    requires Scan(w.log, o) == Holds(w.m.slots[target], Switched(w.u, w.m, self, target).r)
    ensures Scan(SwitchTo(w, o, self, target).log, q)
         == if q == o then Nothing
            else if q == w.running then Holds(w.m.r.sp - FRAME, w.m.r)
            else Scan(w.log, q)
  {
    var m := Switched(w.u, w.m, self, target);
    var e, f := Save(w.running, m.slots[self], w.m.r), Load(o, w.m.slots[target], m.r);
    hide Frame, Phys, Place, Readable, Room, Loaded;
    ScanAppend(w.log, e, q);
    ScanAppend(w.log + [e], f, q);
    assert SwitchTo(w, o, self, target).log == w.log + [e] + [f];
  }

  /** Contexts on the kernel stacks are seen from both address spaces. */
  lemma SeenFromBoth(c: Case, w: World, o: int, i: nat, satp: int)
    requires Fits(c) && Ok(w) && Roomy(w) && w.u == c.u && (w.m.r.satp == c.idle || w.m.r.satp == c.user)
    requires o in w.areas && o != w.running && i < 3 && Saved(w, o, At(c, i), satp)
    requires satp == c.idle || satp == c.user
    ensures Visible(w, o)
  {
    hide Frame, Phys, Place, Roomy, Ok, MappedWithDevices, Loader.PageLoaded, Loader.KernelKept;
    KernelStackIsSeen(w, o, if w.m.r.satp == c.idle then c.s else c.t, if satp == c.idle then c.s else c.t, c.l);
  }

  lemma RoomyIn(c: Case, w: World, i: nat)
    requires Fits(c) && i < 3 && Point(c, w, w.running, At(c, i) + FRAME, w.m.r.satp)
    requires (w.m.r.satp == c.idle || w.m.r.satp == c.user)
    requires w.running in w.areas && KernelCells(c, i) <= w.areas[w.running]
    ensures Roomy(w)
  {
    hide Fits, Phys, Place, Ok, Room;
    KernelRoom(c, w.m.r.satp, i, w.m.mem);
  }

  lemma BootStarts(c: Case, w: World)
    requires Fits(c) && Point(c, w, BOOT_OWNER, At(c, 0) + FRAME, c.idle) && Areas(c, w, true)
    requires Saved(w, IDLE_OWNER, At(c, 1), c.idle) && Saved(w, 0, At(c, 2), c.user)
    ensures Possible(w, Start)
    ensures var v := Step(w, Start);
            && Point(c, v, IDLE_OWNER, At(c, 1) + FRAME, c.idle) && Areas(c, v, true)
            && Saved(v, 0, At(c, 2), c.user)
  {
    RoomyIn(c, w, 0);
    SeenFromBoth(c, w, IDLE_OWNER, 1, c.idle);
    assert OwnerOk(w, IDLE_OWNER) && OwnerOk(w, BOOT_OWNER);
    hide Fits, Cells, Room, Inside, Frame, Phys, Place, Visible, Roomy, Readable, Loaded, Stored;
    StepKeepsOk(w, Start);
    LoadsWhatWasSaved(w, IDLE_OWNER, BOOT, IDLE);
    ScanAfterSwitch(w, IDLE_OWNER, BOOT, IDLE, 0);
    SwitchKeeps(w, IDLE_OWNER, BOOT, IDLE, 0);
  }

  lemma ProgramIsSeen(c: Case, w: World)
    requires Fits(c) && Point(c, w, IDLE_OWNER, At(c, 1) + FRAME, c.idle) && Areas(c, w, true)
    requires Saved(w, 0, At(c, 2), c.user)
    ensures Enabled(w, Dispatch(0)) && Roomy(w) && Visible(w, 0)
  {
    RoomyIn(c, w, 1);
    SeenFromBoth(c, w, 0, 2, c.user);
  }

  /** What a dispatch does to the registers, the log and the slots. */
  lemma DispatchEffect(w: World, d: World, o: int) returns (v: World)
    requires Sized(w) && AreasOk(w) && w.running == IDLE_OWNER && IsTid(o) && o in w.areas && d == Copied(w, o)
    requires OwnerOk(w, IDLE_OWNER) && OwnerOk(w, o) && Roomy(w) && Visible(w, o)
    ensures CanSwitch(d.u, d.m, IDLE, CURRENT) && v == SwitchTo(d, o, IDLE, CURRENT) && Sized(v)
    ensures v.m.r == Scan(w.log, o).r && v.m.slots[IDLE] == w.m.r.sp - FRAME && v.m.mem.Keys == w.m.mem.Keys
    ensures Scan(v.log, IDLE_OWNER) == Holds(w.m.r.sp - FRAME, w.m.r)
    ensures v.u == w.u && v.areas == w.areas && v.running == o
  {
    assert OwnerOk(d, IDLE_OWNER) && OwnerOk(d, o) && AreasOk(d) && Roomy(d) && Visible(d, o);
    hide AreasOk, Room, Inside, Frame, Phys, Place, Visible, Roomy, Readable, Loaded, Stored;
    SwitchKeeps(d, o, IDLE, CURRENT, IDLE_OWNER);
    LoadsWhatWasSaved(d, o, IDLE, CURRENT);
    ScanAfterSwitch(d, o, IDLE, CURRENT, IDLE_OWNER);
    v := SwitchTo(d, o, IDLE, CURRENT);
  }

  lemma ProgramStarts(c: Case, w: World)
    requires Fits(c) && Point(c, w, IDLE_OWNER, At(c, 1) + FRAME, c.idle) && Areas(c, w, true)
    requires Saved(w, 0, At(c, 2), c.user)
    ensures Possible(w, Dispatch(0))
    ensures var v := Step(w, Dispatch(0));
            && Point(c, v, 0, At(c, 2) + FRAME, c.user) && Areas(c, v, true)
            && Saved(v, IDLE_OWNER, At(c, 1), c.idle)
  {
    ProgramIsSeen(c, w);
    DispatchIsStep(w, 0);
    assert OwnerOk(w, IDLE_OWNER) && OwnerOk(w, 0) && AreasOk(w);
    hide Fits, Areas, Visible, Roomy, Ok, OwnerOk, AreasOk, Possible, Enabled, Point, Saved, Step, SwitchTo, Copied;
    var v := DispatchEffect(w, Copied(w, 0), 0);
    HasStarted(c, w, v);
  }

  lemma HasStarted(c: Case, w: World, v: World)
    requires Point(c, w, IDLE_OWNER, At(c, 1) + FRAME, c.idle) && Areas(c, w, true) && Saved(w, 0, At(c, 2), c.user)
    requires Ok(v) && v.u == w.u && v.areas == w.areas && v.running == 0 && v.m.mem.Keys == w.m.mem.Keys
    requires v.m.r == Scan(w.log, 0).r && v.m.slots[IDLE] == w.m.r.sp - FRAME
    requires Scan(v.log, IDLE_OWNER) == Holds(w.m.r.sp - FRAME, w.m.r)
    ensures Point(c, v, 0, At(c, 2) + FRAME, c.user) && Areas(c, v, true) && Saved(v, IDLE_OWNER, At(c, 1), c.idle)
  {
    hide KernelCells, UserCells, AllCells, OwnerOk, AreasOk;
  }

  lemma DispatchIsStep(w: World, o: int)
    requires Ok(w) && Enabled(w, Dispatch(o))
    ensures Possible(w, Dispatch(o)) && Ok(Step(w, Dispatch(o)))
    ensures Sized(w) && CanSwitch(w.u, Copied(w, o).m, IDLE, CURRENT)
    ensures Step(w, Dispatch(o)) == SwitchTo(Copied(w, o), o, IDLE, CURRENT)
  {
    StepKeepsOk(w, Dispatch(o));
  }

  /** The program uses its own stack when a trap takes it to the kernel, which does not change stacks. */
  lemma ProgramWorks(c: Case, w: World)
    requires Fits(c) && Point(c, w, 0, At(c, 2) + FRAME, c.user) && Areas(c, w, true)
    requires Saved(w, IDLE_OWNER, At(c, 1), c.idle)
    ensures Possible(w, OnItsStack(c, w.m.mem))
    ensures var v := Step(w, OnItsStack(c, w.m.mem));
            && Point(c, v, 0, USER + FRAME, c.user) && Areas(c, v, true)
            && Saved(v, IDLE_OWNER, At(c, 1), c.idle)
  {
    hide Fits, Cells, KernelCells, UserCells, AllCells, Room, Inside, Frame, Phys, Place, Visible, Roomy;
    hide Readable, Loaded, Stored;
    StepKeepsOk(w, OnItsStack(c, w.m.mem));
  }

  lemma ProgramLeaves(c: Case, w: World)
    requires Fits(c) && Point(c, w, 0, USER + FRAME, c.user) && Areas(c, w, true)
    requires Saved(w, IDLE_OWNER, At(c, 1), c.idle)
    ensures Possible(w, Leave)
    ensures var v := Step(w, Leave);
            Point(c, v, IDLE_OWNER, At(c, 1) + FRAME, c.idle) && Areas(c, v, true) && v.pool[0] == USER
  {
    UserRoom(c, w.m.mem);
    assert Roomy(w);
    SeenFromBoth(c, w, IDLE_OWNER, 1, c.idle);
    assert OwnerOk(w, IDLE_OWNER) && OwnerOk(w, 0);
    hide Fits, Cells, KernelCells, UserCells, AllCells, Room, Inside, Frame, Phys, Place, Visible, Roomy;
    hide Readable, Loaded, Stored;
    StepKeepsOk(w, Leave);
    LoadsWhatWasSaved(w, IDLE_OWNER, CURRENT, IDLE);
    SwitchKeeps(w, IDLE_OWNER, CURRENT, IDLE, IDLE_OWNER);
  }

  lemma NotSeenAgain(c: Case, w: World)
    requires Fits(c) && Point(c, w, IDLE_OWNER, At(c, 1) + FRAME, c.idle) && Areas(c, w, true) && w.pool[0] == USER
    ensures Ready(w, Dispatch(0)) && !Visible(w, 0)
  {
    RoomyIn(c, w, 1);
    hide Frame, Phys, Place, Roomy, Visible, Ok, MappedWithDevices, Loader.PageLoaded, Loader.KernelKept;
    UserStackIsNotSeen(w, 0, c.s, c.l);
  }

  ghost function TheRun(c: Case, mem: map<int, int>): seq<Event> {
    [IdleMade(c), ProgramMade(c), Start] + [Dispatch(0), OnItsStack(c, mem), Leave]
  }

  /** The first program runs, is interrupted on its own stack, and cannot be resumed by its next dispatch. */
  lemma SecondDispatchIsBlind(c: Case) returns (mem: map<int, int>, v: World)
    requires Fits(c)
    ensures Initial(Start0(c)) && Reaches(Start0(c), TheRun(c, mem), v)
    ensures Ready(v, Dispatch(0)) && !Visible(v, 0)
  {
    hide Fits, Point, Areas, Saved, Possible, Step, Initial, Ready, Visible, Reaches, Sized;
    FirstIsInitial(c);
    var w0 := Start0(c);
    assert w0.areas == map[BOOT_OWNER := KernelCells(c, 0)];
    hide Start0, IdleMade, ProgramMade, OnItsStack;
    IdleIsMade(c, w0);
    var w1 := Step(w0, IdleMade(c));
    ProgramIsMade(c, w1);
    var w2 := Step(w1, ProgramMade(c));
    BootStarts(c, w2);
    var w3 := Step(w2, Start);
    mem, v := LeavesItsStack(c, w3);
    ThreeSteps(w0, IdleMade(c), ProgramMade(c), Start, [Dispatch(0), OnItsStack(c, mem), Leave], v);
  }

  lemma LeavesItsStack(c: Case, w: World) returns (mem: map<int, int>, v: World)
    requires Fits(c) && Point(c, w, IDLE_OWNER, At(c, 1) + FRAME, c.idle) && Areas(c, w, true)
    requires Saved(w, 0, At(c, 2), c.user)
    ensures Reaches(w, [Dispatch(0), OnItsStack(c, mem), Leave], v)
    ensures Ready(v, Dispatch(0)) && !Visible(v, 0)
  {
    hide Fits, Point, Areas, Saved, Possible, Step, Ready, Visible, OnItsStack, Sized;
    ProgramStarts(c, w);
    var w1 := Step(w, Dispatch(0));
    mem := w1.m.mem;
    ProgramWorks(c, w1);
    var w2 := Step(w1, OnItsStack(c, mem));
    ProgramLeaves(c, w2);
    v := Step(w2, Leave);
    NotSeenAgain(c, v);
    assert Reaches(v, [], v);
    hide Reaches;
    ThreeSteps(w, Dispatch(0), OnItsStack(c, mem), Leave, [], v);
    assert [Dispatch(0), OnItsStack(c, mem), Leave] + [] == [Dispatch(0), OnItsStack(c, mem), Leave];
  }

  lemma ThreeSteps(w: World, e1: Event, e2: Event, e3: Event, rest: seq<Event>, v: World)
    requires Possible(w, e1) && Possible(Step(w, e1), e2) && Possible(Step(Step(w, e1), e2), e3)
    requires Reaches(Step(Step(Step(w, e1), e2), e3), rest, v)
    ensures Reaches(w, [e1, e2, e3] + rest, v)
  {
    hide Possible, Step;
    assert ([e1, e2, e3] + rest)[1..] == [e2, e3] + rest;
    assert ([e2, e3] + rest)[1..] == [e3] + rest;
    assert ([e3] + rest)[1..] == rest;
    var w2 := Step(Step(w, e1), e2);
    assert Reaches(w2, [e3] + rest, v);
    assert Reaches(Step(w, e1), [e2, e3] + rest, v);
  }

  // ----- on the address spaces that the kernel builds

  /** The value of satp for a root table, in Sv39 mode. */
  function Satp(root: int): int { root + 8 * 0x1000_0000_0000_0000 }

  lemma SatpIsRoot(s: PageTable.State)
    requires PageTable.Ok(s)
    ensures SpaceOf(s.mem, Satp(s.tables[1]), s)
  {
    PageTable.TableFacts(s, 1);
    assert Root(Satp(s.tables[1])) == s.tables[1];
  }

  /** The idle thread's address space a is untouched by what is built from the frames that are free then. */
  lemma IdleStays(a: PageTable.State, b: PageTable.State, t: PageTable.State, l: Layout)
    requires PageTable.Ok(a) && MappedWithDevices(a, l, 4) && LayoutOk(l)
    requires PageTable.Ok(t) && PageTable.Grows(PageTable.State(a.mem, a.free, map[]), t)
    requires b == PageTable.State(t.mem, t.free, a.tables)
    ensures PageTable.Ok(b) && MappedWithDevices(b, l, 4) && Loader.KernelKept(b, l)
  {
    assert PageTable.State(a.mem, a.free, a.tables) == a;
    Mapping.OtherSpaceKept(PageTable.State(a.mem, a.free, map[]), t, a.tables);
    hide PageTable.Lookup;
    Loader.DevicesKeepKernel(b, l, 4);
  }

  lemma FewerFree(o: PageTable.State, a: PageTable.State, f: int)
    requires PageTable.Grows(o, a) && f in a.free
    ensures f in o.free
  {
  }

  lemma StackIsThere(t: PageTable.State, stack: seq<nat>)
    requires Loader.SegmentLoaded(t, Loader.UserStack(), stack, [])
    ensures stack != []
    ensures Loader.PageLoaded(t, (USER / PAGE) % PageTable.VPNS, stack[0], Loader.STACK_FLAGS, PageTable.ZeroPage())
  {
    Mapping.NoData(0);
  }

  lemma CaseFits(c: Case)
    requires c.u == c.s.mem == c.t.mem && PageTable.Ok(c.s) && PageTable.Ok(c.t)
    requires c.idle == Satp(c.s.tables[1]) && c.user == Satp(c.t.tables[1])
    requires LayoutOk(c.l) && c.l.data + PAGE <= c.l.end && c.f * PAGE >= c.l.end - KERNEL_MAP_OFFSET
    requires MappedWithDevices(c.s, c.l, 4) && Loader.KernelKept(c.s, c.l) && Loader.KernelKept(c.t, c.l)
    requires Loader.PageLoaded(c.t, (USER / PAGE) % PageTable.VPNS, c.f, Loader.STACK_FLAGS, PageTable.ZeroPage())
    ensures Fits(c)
  {
    hide PageTable.Ok, MappedWithDevices, Loader.KernelKept, Loader.PageLoaded;
    SatpIsRoot(c.s);
    SatpIsRoot(c.t);
  }

  /**
   mapKernel and initThread, as far as memory goes: the idle thread's address space and the first program's
   make such a case, if the kernel has a page of data and the free frames lie behind it.
   */
  method FirstProgram(m: Mapping.Machine, l: Layout, elf: seq<Bytes.byte>)
    returns (r: Loader.LoadResult, ghost c: Case, idle: Mapping.AddressSpace?, program: Mapping.AddressSpace?)
    requires m.Valid() && MemoryOk(m) && LayoutOk(l) && l.data + PAGE <= l.end && Loader.InFile(elf)
    requires forall f | f in m.free :: f * PAGE >= l.end - KERNEL_MAP_OFFSET
    modifies m`mem, m`free, m.frames.node
    ensures r == Loader.Loaded ==>
      && idle != null && program != null && Fits(c) && c.l == l
      && c.s == idle.S(m) && c.idle == Satp(idle.rootPpn)
      && c.t == program.S(m) && c.user == Satp(program.rootPpn)
  {
    hide PageTable.Ok, PageTable.Grows, MappedUpTo, MappedWithDevices, Loader.KernelKept, Loader.OnlyProgram;
    hide Loader.LoadedBefore, FrameCount.Charged, FrameCount.Short, Loader.SegmentLoaded, Fits;
    c := Case(m.mem, PageTable.State(m.mem, {}, map[]), PageTable.State(m.mem, {}, map[]), l, 0, 0, 0);
    program := null;
    r := Loader.LoadResult.Depleted;
    ghost var o := Purse(m);
    idle := NewKernelMapping(m, l);
    if idle != null {
      ghost var k := idle.S(m);
      var ok := MapExtInterruptArea(m, idle, l);
      if ok {
        ghost var a := idle.S(m);
        PageTable.GrowsTrans(o, k, a);
        MemoryStaysOk(m, a);
        ghost var fss, stack;
        r, program, fss, stack := Loader.NewUserSpace(m, l, elf);
        if r == Loader.Loaded {
          ghost var t := program.S(m);
          IdleStays(a, idle.S(m), t, l);
          StackIsThere(t, stack);
          FewerFree(o, a, stack[0]);
          c := Case(m.mem, idle.S(m), t, l, Satp(idle.rootPpn), Satp(program.rootPpn), stack[0]);
          CaseFits(c);
        }
      }
    }
  }

  lemma MemoryStaysOk(m: Mapping.Machine, a: PageTable.State)
    requires PageTable.Ok(a) && a.mem == m.mem && a.free == m.free
    ensures MemoryOk(m)
  {
    forall f
      ensures PageTable.FrameOk(PageTable.State(m.mem, m.free, map[]), f)
    {
      assert PageTable.FrameOk(a, f);
    }
  }
}
