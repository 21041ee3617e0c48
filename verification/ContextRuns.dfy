/**
 Context switches over whole runs: any number of threads that come and go, each
 doing as it likes with its registers and its own stack between switches.
 */
module ContextRuns {
  import opened Scheduler
  import opened Context
  import KernelSpace
  import Loader
  import PageTable

  /** Whoever can own a context: a thread id, the idle thread or the boot code. */
  const IDLE_OWNER := MAX_THREAD
  const BOOT_OWNER := MAX_THREAD + 1

  /** A context was saved, was loaded, or its owner exited; at is its address, r the registers. */
  datatype Entry = Save(owner: int, at: int, r: Regs) | Load(owner: int, at: int, r: Regs) | Gone(owner: int)

  /** u: the page tables; areas: the physical words of each owner's stack. */
  datatype World = World(u: Tables, m: Machine, pool: seq<int>, areas: map<int, set<int>>, running: int,
                         log: seq<Entry>)

  /** What a log leaves an owner with; Broken once something was loaded that was not the last thing saved. */
  datatype Pending = Nothing | Holds(at: int, r: Regs) | Broken

  function After(p: Pending, o: int, e: Entry): Pending {
    if e.owner != o then p
    else match e
      case Save(_, at, r) => if p.Nothing? then Holds(at, r) else Broken
      case Load(_, at, r) => if p == Holds(at, r) then Nothing else Broken
      case Gone(_) => if p.Broken? then Broken else Nothing
  }

  function Scan(log: seq<Entry>, o: int): Pending {
    if log == [] then Nothing else After(Scan(log[..|log| - 1], o), o, log[|log| - 1])
  }

  datatype Event =
    | Create(o: int, top: int, entry: int, satp: int, s: seq<int>, area: set<int>, fill: map<int, int>)
    | Work(r: Regs, mem: map<int, int>)   // the running code up to its next switch
    | NewTables(u: Tables)                // mapping calls, which keep what is mapped
    | Start                               // runCPU
    | Dispatch(t: int)                    // acquireFromPool and the switch to the thread
    | Leave                               // the switch back to the idle thread, and retrieveToPool
    | Exit                                // the same for a thread that has exited

  const TRAP_FRAME := 34 * 8

  /** What pushContextToStack makes a new thread start with: the trap frame lies above the context. */
  function Fresh(top: int, restore: int, satp: int, s: seq<int>): Regs {
    Regs(top - TRAP_FRAME, restore, satp, s)
  }

  function Where(w: World, o: int): int
    requires |w.m.slots| == 3 && |w.pool| == MAX_THREAD
  {
    if IsTid(o) then w.pool[o] else if o == IDLE_OWNER then w.m.slots[IDLE] else w.m.slots[BOOT]
  }

  ghost predicate Inside(u: Tables, satp: int, p: int, area: set<int>) {
    Words(u, satp, p) <= area
  }

  /** A switch from the running owner has its words in its own stack. */
  ghost predicate Roomy(w: World) {
    && w.running in w.areas && Room(w.u, w.m.mem, w.m.r.satp, w.m.r.sp - FRAME)
    && Inside(w.u, w.m.r.satp, w.m.r.sp - FRAME, w.areas[w.running])
  }

  /** After the running owner's save, its page tables show the satp word of o's context as it was saved. */
  ghost predicate Visible(w: World, o: int) {
    |w.m.r.s| == 12 &&
    var p := Scan(w.log, o);
    var mem := Frame(w.u, w.m.mem, w.m.r.sp - FRAME, w.m.r, 14);
    p.Holds? ==> Place(w.u, w.m.r.satp, p.at, 1) in mem && mem[Place(w.u, w.m.r.satp, p.at, 1)] == p.r.satp
  }

  /** The address space of the running owner, or one that a saved context belongs to. */
  ghost predicate InUse(w: World, satp: int) {
    satp == w.m.r.satp || exists o :: Scan(w.log, o).Holds? && Scan(w.log, o).r.satp == satp
  }

  /** In the address spaces in use, mapped words stay where they are. */
  ghost predicate MappingsKept(w: World, u2: Tables) {
    forall satp, a :: InUse(w, satp) && Phys(w.u, satp, a) != -1 ==> Phys(u2, satp, a) == Phys(w.u, satp, a)
  }

  /** When an event can happen, except for what a switch needs to see. */
  ghost predicate Ready(w: World, e: Event) {
    match e
    case Create(o, top, entry, satp, s, area, fill) =>
      && (IsTid(o) || (o == IDLE_OWNER && w.running == BOOT_OWNER)) && o !in w.areas && |s| == 12
      && area <= w.m.mem.Keys && fill.Keys <= area && (forall q | q in w.areas :: w.areas[q] !! area)
      && Room(w.u, w.m.mem, satp, top - TRAP_FRAME - FRAME) && Inside(w.u, satp, top - TRAP_FRAME - FRAME, area)
    case Work(r, mem) =>
      && |r.s| == 12 && r.satp == w.m.r.satp && mem.Keys == w.m.mem.Keys && w.running in w.areas
      && forall o, a | o in w.areas && o != w.running && a in w.areas[o] && a in mem :: mem[a] == w.m.mem[a]
    case NewTables(u2) => MappingsKept(w, u2)
    case Start => w.running == BOOT_OWNER && IDLE_OWNER in w.areas && Roomy(w)
    case Dispatch(t) => w.running == IDLE_OWNER && IsTid(t) && t in w.areas && Roomy(w)
    case Leave => IsTid(w.running) && Roomy(w)
    case Exit => IsTid(w.running) && Roomy(w)
  }

  /** Whose context the event's switch loads; the idle thread's for events without a switch to a thread. */
  function Target(e: Event): int {
    if e.Dispatch? then e.t else IDLE_OWNER
  }

  predicate Switches(e: Event) { e.Start? || e.Dispatch? || e.Leave? || e.Exit? }

  ghost predicate Enabled(w: World, e: Event) {
    Ready(w, e) && (Switches(e) ==> Visible(w, Target(e)))
  }

  /** The switch of w's running owner to another one, recorded with the registers it really saved and loaded. */
  ghost function SwitchTo(w: World, o: int, self: int, target: int): World
    requires CanSwitch(w.u, w.m, self, target)
  {
    var m := Switched(w.u, w.m, self, target);
    w.(m := m, running := o,
       log := w.log + [Save(w.running, m.slots[self], w.m.r), Load(o, w.m.slots[target], m.r)])
  }

  ghost predicate Sized(w: World) {
    |w.m.slots| == 3 && |w.pool| == MAX_THREAD && |w.m.r.s| == 12
  }

  /** CPU.current.thread is a copy of the pool's record. */
  function Copied(w: World, t: int): World
    requires Sized(w) && IsTid(t)
  {
    w.(m := w.m.(slots := w.m.slots[CURRENT := w.pool[t]]))
  }

  ghost predicate Possible(w: World, e: Event) {
    && Sized(w) && Enabled(w, e)
    && (e.Start? ==> CanSwitch(w.u, w.m, BOOT, IDLE))
    && (e.Dispatch? ==> CanSwitch(w.u, Copied(w, e.t).m, IDLE, CURRENT))
    && (e.Leave? || e.Exit? ==> CanSwitch(w.u, w.m, CURRENT, IDLE))
  }

  ghost function Step(w: World, e: Event): World
    requires Possible(w, e)
  {
    match e
    case Create(o, top, entry, satp, s, area, fill) =>
      var r := Fresh(top, entry, satp, s);
      var at := r.sp - FRAME;
      w.(m := w.m.(mem := Frame(w.u, w.m.mem + fill, at, r, 14),
                   slots := if o == IDLE_OWNER then w.m.slots[IDLE := at] else w.m.slots),
         pool := if IsTid(o) then w.pool[o := at] else w.pool,
         areas := w.areas[o := area],
         log := w.log + [Save(o, at, r)])
    case Work(r, mem) => w.(m := w.m.(r := r, mem := mem))
    case NewTables(u2) => w.(u := u2)
    case Start => SwitchTo(w, IDLE_OWNER, BOOT, IDLE)
    case Dispatch(t) => SwitchTo(Copied(w, t), t, IDLE, CURRENT)
    case Leave =>
      var v := SwitchTo(w, IDLE_OWNER, CURRENT, IDLE);
      v.(pool := w.pool[w.running := v.m.slots[CURRENT]])
    case Exit =>
      var v := SwitchTo(w, IDLE_OWNER, CURRENT, IDLE);
      v.(areas := w.areas - {w.running}, log := v.log + [Gone(w.running)])
  }

  // ----- the invariant

  /** What the log says about an owner is what memory holds. */
  ghost predicate OwnerOk(w: World, o: int)
    requires Sized(w)
  {
    var p := Scan(w.log, o);
    if o !in w.areas || o == w.running then p.Nothing?
    else p.Holds? && p.at == Where(w, o) && Stored(w.u, w.m.mem, p.at, p.r) && Inside(w.u, p.r.satp, p.at, w.areas[o])
  }

  ghost predicate AreasOk(w: World) {
    && w.running in w.areas && (IsTid(w.running) ==> IDLE_OWNER in w.areas)
    && (forall o | o in w.areas :: w.areas[o] <= w.m.mem.Keys)
    && (forall o, q | o in w.areas && q in w.areas && o != q :: w.areas[o] !! w.areas[q])
    && (forall o | o in w.areas :: IsTid(o) || o == IDLE_OWNER || o == BOOT_OWNER)
  }

  ghost predicate Ok(w: World) {
    Sized(w) && AreasOk(w) && -1 !in w.m.mem && forall o :: OwnerOk(w, o)
  }

  lemma ScanAppend(log: seq<Entry>, e: Entry, o: int)
    ensures Scan(log + [e], o) == After(Scan(log, o), o, e)
  {
    assert (log + [e])[..|log|] == log;
  }

  lemma FrameKeeps(u: Tables, mem: map<int, int>, r: Regs, q: int, r2: Regs)
    requires |r.s| == 12 && Room(u, mem, r.satp, r.sp - FRAME) && Stored(u, mem, q, r2)
    requires Words(u, r.satp, r.sp - FRAME) !! Words(u, r2.satp, q)
    ensures Stored(u, Frame(u, mem, r.sp - FRAME, r, 14), q, r2)
  {
    FrameHolds(u, mem, r);
    forall k | 0 <= k < 14
      ensures Place(u, r2.satp, q, k) !in Words(u, r.satp, r.sp - FRAME)
    {
      assert Place(u, r2.satp, q, k) in Words(u, r2.satp, q);
    }
  }

  /** A context in another owner's stack survives a save by the running owner. */
  lemma SaveKeeps(w: World, q: int)
    requires Sized(w) && AreasOk(w) && Roomy(w) && q in w.areas && q != w.running
    requires var p := Scan(w.log, q);
             p.Holds? && Stored(w.u, w.m.mem, p.at, p.r) && Inside(w.u, p.r.satp, p.at, w.areas[q])
    ensures var p := Scan(w.log, q); Stored(w.u, Frame(w.u, w.m.mem, w.m.r.sp - FRAME, w.m.r, 14), p.at, p.r)
  {
    assert w.areas[q] !! w.areas[w.running];
    FrameKeeps(w.u, w.m.mem, w.m.r, Scan(w.log, q).at, Scan(w.log, q).r);
  }

  /** The context a switch loads is exactly the one that was saved. */
  lemma LoadsWhatWasSaved(w: World, o: int, self: int, target: int)
    requires Sized(w) && AreasOk(w) && OwnerOk(w, o) && Roomy(w) && Visible(w, o)
    requires o in w.areas && o != w.running && 0 <= self < 3 && 0 <= target < 3 && self != target
    requires w.m.slots[target] == Scan(w.log, o).at
    ensures CanSwitch(w.u, w.m, self, target) && Switched(w.u, w.m, self, target).r == Scan(w.log, o).r
  {
    var p := Scan(w.log, o);
    var mem := Frame(w.u, w.m.mem, w.m.r.sp - FRAME, w.m.r, 14);
    SaveKeeps(w, o);
    ResumesIff(w.u, mem, w.m.r.satp, p.at, p.r);
  }

  /** A switch that can be tried restores what its target saved exactly if the satp word is visible. */
  lemma ResumesIfVisible(w: World, e: Event)
    requires Ok(w) && Ready(w, e) && Switches(e)
    ensures var p := Scan(w.log, Target(e));
            var mem := Frame(w.u, w.m.mem, w.m.r.sp - FRAME, w.m.r, 14);
            p.Holds? && (Resumes(w.u, mem, w.m.r.satp, p.at, p.r) <==> Visible(w, Target(e)))
  {
    hide Frame, Resumes, Phys;
    var o := Target(e);
    assert OwnerOk(w, o);
    var p := Scan(w.log, o);
    SaveKeeps(w, o);
    ResumesIff(w.u, Frame(w.u, w.m.mem, w.m.r.sp - FRAME, w.m.r, 14), w.m.r.satp, p.at, p.r);
  }

  /** Contexts on kernel stacks are visible from every address space that has the kernel. */
  lemma KernelStackIsSeen(w: World, o: int, s: PageTable.State, t: PageTable.State, l: KernelSpace.Layout)
    requires Ok(w) && Roomy(w) && o in w.areas && o != w.running
    requires var p := Scan(w.log, o); p.Holds? ==>
             && SpaceOf(w.u, w.m.r.satp, s) && SpaceOf(w.u, p.r.satp, t)
             && KernelSpace.LayoutOk(l) && Loader.KernelKept(s, l) && Loader.KernelKept(t, l)
             && l.data <= p.at && p.at + FRAME <= KernelSpace.MEMORY_END_VADDR
    ensures Visible(w, o)
  {
    assert OwnerOk(w, o);
    var p := Scan(w.log, o);
    KernelStackIsVisible(w.u, w.m.r.satp, s, p.r.satp, t, l, p.at, 1);
    hide Frame, Phys, Place;
    SaveKeeps(w, o);
    assert Image(p.r, 1) == p.r.satp;
  }

  /**
   Contexts on user stacks are not visible from the idle thread, so the switch to them does not resume
   their threads.
   */
  lemma UserStackIsNotSeen(w: World, t: int, s: PageTable.State, l: KernelSpace.Layout)
    requires Ok(w) && Ready(w, Dispatch(t)) && SpaceOf(w.u, w.m.r.satp, s)
    requires KernelSpace.LayoutOk(l) && KernelSpace.MappedWithDevices(s, l, 4)
    requires var q := w.pool[t];
             Loader.USER_STACK_OFFSET <= q && q + FRAME <= Loader.USER_STACK_OFFSET + Loader.USER_STACK_SIZE
    ensures !Visible(w, t)
  {
    assert OwnerOk(w, t);
    UserStackIsHidden(w.u, w.m.r.satp, s, l, w.pool[t] + 8);
    hide Frame, Phys, Words;
    FrameHolds(w.u, w.m.mem, w.m.r);
  }

  /** What any switch does to the contexts of all owners. */
  lemma SwitchKeeps(w: World, o: int, self: int, target: int, q: int)
    requires Sized(w) && AreasOk(w) && Roomy(w) && OwnerOk(w, w.running) && OwnerOk(w, o) && OwnerOk(w, q)
    requires Visible(w, o)
    requires o in w.areas && o != w.running && 0 <= self < 3 && 0 <= target < 3 && self != target
    requires w.m.slots[target] == Scan(w.log, o).at
    ensures CanSwitch(w.u, w.m, self, target)
    ensures var v := SwitchTo(w, o, self, target);
            var p := Scan(v.log, q);
            && v.m.mem.Keys == w.m.mem.Keys
            && if q !in w.areas || q == o then p.Nothing?
               else
                 && p.Holds? && Stored(w.u, v.m.mem, p.at, p.r) && Inside(w.u, p.r.satp, p.at, w.areas[q])
                 && p.at == if q == w.running then v.m.slots[self] else Where(w, q)
  {
    hide Phys, Place, Words;
    LoadsWhatWasSaved(w, o, self, target);
    var v := SwitchTo(w, o, self, target);
    var e := Save(w.running, v.m.slots[self], w.m.r);
    ScanAppend(w.log, e, q);
    ScanAppend(w.log + [e], Load(o, w.m.slots[target], v.m.r), q);
    assert v.log == w.log + [e] + [Load(o, w.m.slots[target], v.m.r)];
    FrameHolds(w.u, w.m.mem, w.m.r);
    if q in w.areas && q != o && q != w.running {
      SaveKeeps(w, q);
    }
  }

  /** Memory may change anywhere outside the words of a context. */
  lemma StaysStored(u: Tables, mem: map<int, int>, mem2: map<int, int>, p: int, r: Regs)
    requires Stored(u, mem, p, r) && mem2.Keys == mem.Keys
    requires forall a | a in mem && mem2[a] != mem[a] :: a !in Words(u, r.satp, p)
    ensures Stored(u, mem2, p, r)
  {
    forall k | 0 <= k < 14
      ensures mem2[Place(u, r.satp, p, k)] == Image(r, k)
    {
      assert Place(u, r.satp, p, k) in Words(u, r.satp, p);
    }
  }

  lemma CreateKeys(w: World, e: Event)
    requires Sized(w) && e.Create? && Enabled(w, e)
    ensures Step(w, e).m.mem.Keys == w.m.mem.Keys
  {
    FrameHolds(w.u, w.m.mem + e.fill, Fresh(e.top, e.entry, e.satp, e.s));
  }

  /** Creating a thread leaves the contexts of the others in place. */
  lemma OthersStay(w: World, e: Event, q: int)
    requires Ok(w) && e.Create? && Enabled(w, e) && q in w.areas && q != w.running
    ensures var p := Scan(w.log, q); p.Holds? && Stored(w.u, Step(w, e).m.mem, p.at, p.r)
  {
    hide Frame, Phys, Place, Words;
    var r, mem, p := Fresh(e.top, e.entry, e.satp, e.s), w.m.mem + e.fill, Scan(w.log, q);
    assert OwnerOk(w, q) && w.areas[q] !! e.area;
    StaysStored(w.u, w.m.mem, mem, p.at, p.r);
    FrameKeeps(w.u, mem, r, p.at, p.r);
  }

  lemma CreateKeeps(w: World, e: Event, q: int)
    requires Ok(w) && e.Create? && Enabled(w, e)
    ensures OwnerOk(Step(w, e), q)
  {
    var r := Fresh(e.top, e.entry, e.satp, e.s);
    hide Frame, Phys, Place, Words;
    ScanAppend(w.log, Save(e.o, r.sp - FRAME, r), q);
    assert OwnerOk(w, q);
    FrameHolds(w.u, w.m.mem + e.fill, r);
    if q in w.areas && q != w.running {
      OthersStay(w, e, q);
    }
  }

  lemma WorkKeeps(w: World, e: Event, q: int)
    requires Ok(w) && e.Work? && Enabled(w, e)
    ensures OwnerOk(Step(w, e), q)
  {
    assert OwnerOk(w, q);
    if q in w.areas && q != w.running {
      var p := Scan(w.log, q);
      assert w.areas[q] !! w.areas[w.running];
      StaysStored(w.u, w.m.mem, e.mem, p.at, p.r);
    }
  }

  /** New tables leave the words of saved contexts where they are. */
  lemma TablesKeep(w: World, e: Event, q: int)
    requires Ok(w) && e.NewTables? && Enabled(w, e)
    ensures OwnerOk(Step(w, e), q)
  {
    assert OwnerOk(w, q);
    if q in w.areas && q != w.running {
      var p := Scan(w.log, q);
      forall k | 0 <= k < 14
        ensures Place(e.u, p.r.satp, p.at, k) == Place(w.u, p.r.satp, p.at, k)
      {
        assert InUse(w, p.r.satp) && Place(w.u, p.r.satp, p.at, k) in w.m.mem;
      }
    }
  }

  /** satp names s's own tables, or those of another address space that shares no frame with them. */
  ghost predicate KnownSpace(s: PageTable.State, satp: int) {
    SpaceOf(s.mem, satp, s) || exists other :: OtherSpace(s, satp, other)
  }

  ghost predicate OtherSpace(s: PageTable.State, satp: int, other: map<int, int>) {
    && SpaceOf(s.mem, satp, PageTable.State(s.mem, s.free, other))
    && forall k | k in other :: PageTable.NotTable(s, other[k])
  }

  /** What a mapping call makes of the tables can happen between switches, whichever address spaces are in use. */
  lemma MappingCallIsReady(w: World, s: PageTable.State, t: PageTable.State)
    requires w.u == s.mem && PageTable.Ok(s) && PageTable.Ok(t) && PageTable.Grows(s, t)
    requires forall satp | InUse(w, satp) :: KnownSpace(s, satp)
    ensures Ready(w, NewTables(t.mem))
  {
    forall satp, a | InUse(w, satp) && Phys(w.u, satp, a) != -1
      ensures Phys(t.mem, satp, a) == Phys(w.u, satp, a)
    {
      assert KnownSpace(s, satp);
      hide Phys, InUse, PageTable.Ok;
      if SpaceOf(s.mem, satp, s) {
        assert PageTable.TableKept(s, t, 1);
        MappingCallKeeps(satp, s, t, a);
      } else {
        var other :| OtherSpace(s, satp, other);
        MappingCallKeepsOthers(s, t, satp, other, a);
      }
    }
  }

  /** Every enabled step can be taken and keeps the invariant; in particular its loads find memory. */
  lemma StepKeepsOk(w: World, e: Event)
    requires Ok(w) && Enabled(w, e)
    ensures Possible(w, e) && Ok(Step(w, e))
  {
    hide Frame, Phys, Place, Stored, Room, Inside;
    assert forall o :: OwnerOk(w, o);
    match e
    case Create(_, top, entry, satp, s, area, fill) =>
      forall q
        ensures OwnerOk(Step(w, e), q)
      {
        CreateKeeps(w, e, q);
      }
      CreateKeys(w, e);
    case Work(r, mem) =>
      forall q
        ensures OwnerOk(Step(w, e), q)
      {
        WorkKeeps(w, e, q);
      }
    case NewTables(u2) =>
      forall q
        ensures OwnerOk(Step(w, e), q)
      {
        TablesKeep(w, e, q);
      }
    case Start =>
      SwitchKeeps(w, IDLE_OWNER, BOOT, IDLE, IDLE_OWNER);
      forall q
        ensures OwnerOk(Step(w, e), q)
      {
        SwitchKeeps(w, IDLE_OWNER, BOOT, IDLE, q);
      }
    case Dispatch(t) => DispatchKeeps(w, t);
    case Leave => LeaveKeeps(w, e);
    case Exit => LeaveKeeps(w, e);
  }

  lemma DispatchKeeps(w: World, t: int)
    requires Ok(w) && Enabled(w, Dispatch(t))
    ensures Possible(w, Dispatch(t)) && Ok(Step(w, Dispatch(t)))
  {
    hide Frame, Phys, Place, Stored, Room, Inside, Readable;
    var c := Copied(w, t);
    assert forall o :: OwnerOk(w, o) ==> OwnerOk(c, o);
    SwitchKeeps(c, t, IDLE, CURRENT, t);
    forall q
      ensures OwnerOk(Step(w, Dispatch(t)), q)
    {
      SwitchKeeps(c, t, IDLE, CURRENT, q);
    }
  }

  lemma LeaveKeeps(w: World, e: Event)
    requires Ok(w) && (e.Leave? || e.Exit?) && Enabled(w, e)
    ensures Possible(w, e) && Ok(Step(w, e))
  {
    hide Frame, Phys, Place, Stored, Room, Inside, Readable, Scan;
    LeaveOwner(w, e, IDLE_OWNER);
    var v := Step(w, e);
    forall q
      ensures OwnerOk(v, q)
    {
      LeaveOwner(w, e, q);
    }
    assert AreasOk(v) by {
      hide OwnerOk;
    }
  }

  lemma LeaveOwner(w: World, e: Event, q: int)
    requires Ok(w) && (e.Leave? || e.Exit?) && Enabled(w, e)
    ensures Possible(w, e) && OwnerOk(Step(w, e), q) && Step(w, e).m.mem.Keys == w.m.mem.Keys
  {
    hide Frame, Phys, Place, Stored, Room, Inside, Readable;
    assert OwnerOk(w, w.running) && OwnerOk(w, IDLE_OWNER) && OwnerOk(w, q);
    SwitchKeeps(w, IDLE_OWNER, CURRENT, IDLE, q);
    var v := SwitchTo(w, IDLE_OWNER, CURRENT, IDLE);
    ScanAppend(v.log, Gone(w.running), q);
  }

  // ----- runs

  /** The boot code runs; nothing has been saved yet. */
  ghost predicate Initial(w: World) {
    Sized(w) && w.running == BOOT_OWNER && AreasOk(w) && -1 !in w.m.mem && w.areas.Keys == {BOOT_OWNER} && w.log == []
  }

  /** es leads from w to v. */
  ghost predicate Reaches(w: World, es: seq<Event>, v: World)
    decreases |es|
  {
    if es == [] then v == w
    else Possible(w, es[0]) && Reaches(Step(w, es[0]), es[1..], v)
  }

  lemma InitialIsOk(w: World)
    requires Initial(w)
    ensures Ok(w)
  {
  }

  lemma {:induction false} RunKeepsOk(w: World, es: seq<Event>, v: World)
    requires Ok(w) && Reaches(w, es, v)
    ensures Ok(v)
    decreases |es|
  {
    if es != [] {
      StepKeepsOk(w, es[0]);
      RunKeepsOk(Step(w, es[0]), es[1..], v);
    }
  }

  // ----- what a log that is nowhere broken says

  lemma {:induction false} StaysBroken(log: seq<Entry>, n: nat, o: int)
    requires n <= |log| && Scan(log[..n], o).Broken?
    ensures Scan(log, o).Broken?
    decreases |log| - n
  {
    if n < |log| {
      assert log[..n + 1] == log[..n] + [log[n]];
      ScanAppend(log[..n], log[n], o);
      StaysBroken(log, n + 1, o);
    } else {
      assert log[..n] == log;
    }
  }

  /** What an owner holds is its last entry, a save. */
  lemma {:induction false} HeldIsLastSave(log: seq<Entry>, o: int) returns (i: nat)
    requires Scan(log, o).Holds?
    ensures i < |log| && log[i] == Save(o, Scan(log, o).at, Scan(log, o).r)
    ensures forall k | i < k < |log| :: log[k].owner != o
  {
    var rest := log[..|log| - 1];
    if log[|log| - 1].owner == o {
      i := |log| - 1;
    } else {
      i := HeldIsLastSave(rest, o);
      assert forall k | i < k < |rest| :: log[k] == rest[k];
    }
  }

  /** Entry j is a load of what entry i saved, with no other save or load of that owner in between. */
  ghost predicate Undoes(log: seq<Entry>, i: int, j: int) {
    && 0 <= i < j < |log| && log[j].Load?
    && log[i] == Save(log[j].owner, log[j].at, log[j].r)
    && forall k | i < k < j :: log[k].owner != log[j].owner
  }

  /** In every run each load of a context gives back exactly what that owner's last save put there. */
  lemma EveryLoadUndoesASave(w: World, es: seq<Event>, v: World, j: nat)
    requires Initial(w) && Reaches(w, es, v) && j < |v.log| && v.log[j].Load?
    ensures exists i :: Undoes(v.log, i, j)
  {
    var o := v.log[j].owner;
    InitialIsOk(w);
    RunKeepsOk(w, es, v);
    assert OwnerOk(v, o);
    if Scan(v.log[..j + 1], o).Broken? {
      StaysBroken(v.log, j + 1, o);
    }
    assert v.log[..j + 1] == v.log[..j] + [v.log[j]];
    ScanAppend(v.log[..j], v.log[j], o);
    var i := HeldIsLastSave(v.log[..j], o);
    assert Undoes(v.log, i, j);
  }

  /** So a thread that is dispatched goes on with the registers it had when it left, or was created with. */
  lemma DispatchResumes(w: World, es: seq<Event>, v: World, t: int)
    requires Initial(w) && Reaches(w, es, v) && Enabled(v, Dispatch(t))
    ensures Possible(v, Dispatch(t)) && Scan(v.log, t).Holds?
    ensures Step(v, Dispatch(t)).m.r == Scan(v.log, t).r
  {
    InitialIsOk(w);
    RunKeepsOk(w, es, v);
    DispatchLoads(v, t);
  }

  /** A context that is not loaded stays the last thing known of its thread. */
  lemma HeldOnStep(w: World, e: Event, o: int)
    requires Ok(w) && Possible(w, e) && IsTid(o) && o in w.areas && o != w.running && e != Dispatch(o)
    ensures var v := Step(w, e); Scan(v.log, o) == Scan(w.log, o) && o in v.areas && o != v.running
  {
    hide Frame, Phys, Place, Stored, Room, Inside, Readable, Loaded, OwnerOk;
    match e
    case Create(q, top, entry, satp, s, area, fill) =>
      ScanAppend(w.log, Save(q, Fresh(top, entry, satp, s).sp - FRAME, Fresh(top, entry, satp, s)), o);
    case Work(r, mem) =>
    case NewTables(u2) =>
    case Start => HeldOnSwitch(w, IDLE_OWNER, BOOT, IDLE, o);
    case Dispatch(t) => HeldOnSwitch(Copied(w, t), t, IDLE, CURRENT, o);
    case Leave => HeldOnSwitch(w, IDLE_OWNER, CURRENT, IDLE, o);
    case Exit =>
      HeldOnSwitch(w, IDLE_OWNER, CURRENT, IDLE, o);
      ScanAppend(SwitchTo(w, IDLE_OWNER, CURRENT, IDLE).log, Gone(w.running), o);
  }

  lemma HeldOnSwitch(w: World, q: int, self: int, target: int, o: int)
    requires CanSwitch(w.u, w.m, self, target) && o != w.running && o != q
    ensures Scan(SwitchTo(w, q, self, target).log, o) == Scan(w.log, o)
  {
    hide Frame, Phys, Place, Readable, Room, Loaded;
    var m := Switched(w.u, w.m, self, target);
    var e, f := Save(w.running, m.slots[self], w.m.r), Load(q, w.m.slots[target], m.r);
    ScanAppend(w.log, e, o);
    ScanAppend(w.log + [e], f, o);
    assert SwitchTo(w, q, self, target).log == w.log + [e] + [f];
  }

  lemma {:induction false} HeldOnRun(w: World, es: seq<Event>, v: World, o: int)
    requires Ok(w) && Reaches(w, es, v) && IsTid(o) && o in w.areas && o != w.running && Dispatch(o) !in es
    ensures Scan(v.log, o) == Scan(w.log, o) && Ok(v)
    decreases |es|
  {
    hide Ok, Possible, Step;
    if es != [] {
      EnabledIfPossible(w, es[0]);
      StepKeepsOk(w, es[0]);
      HeldOnStep(w, es[0], o);
      HeldOnRun(Step(w, es[0]), es[1..], v, o);
    }
  }

  lemma EnabledIfPossible(w: World, e: Event)
    requires Possible(w, e)
    ensures Enabled(w, e)
  {
  }

  /**
   The first dispatch of a thread, whatever happened since it was made, goes to the entry that it was made
   with (which is where traps return), with sp at its trap frame of 34 words, and in its address space.
   */
  lemma FirstDispatch(w: World, e: Event, es: seq<Event>, v: World)
    requires Ok(w) && e.Create? && IsTid(e.o) && Possible(w, e) && Reaches(Step(w, e), es, v) && Dispatch(e.o) !in es
    requires Enabled(v, Dispatch(e.o))
    ensures Possible(v, Dispatch(e.o))
    ensures Step(v, Dispatch(e.o)).m.r == Regs(e.top - 34 * 8, e.entry, e.satp, e.s)
  {
    hide Frame, Phys, Place, Stored, Room, Inside, Readable, Loaded, Visible;
    StepKeepsOk(w, e);
    assert OwnerOk(w, e.o);
    ScanAppend(w.log, Save(e.o, e.top - TRAP_FRAME - FRAME, Fresh(e.top, e.entry, e.satp, e.s)), e.o);
    hide Ok;
    HeldOnRun(Step(w, e), es, v, e.o);
    DispatchLoads(v, e.o);
  }

  lemma DispatchLoads(v: World, t: int)
    requires Ok(v) && Enabled(v, Dispatch(t))
    ensures Possible(v, Dispatch(t)) && Scan(v.log, t).Holds?
    ensures Step(v, Dispatch(t)).m.r == Scan(v.log, t).r
  {
    hide Frame, Phys, Place, Stored, Room, Inside, Readable;
    assert OwnerOk(v, t) && OwnerOk(v, v.running);
    var c := Copied(v, t);
    assert OwnerOk(c, t);
    LoadsWhatWasSaved(c, t, IDLE, CURRENT);
  }

  /**
   The address left behind in the pool while its thread runs is never loaded, and is replaced when the
   thread leaves.
   */
  lemma StaleAddressIsNotLoaded(w: World, e: Event, x: int)
    requires Possible(w, e) && IsTid(w.running)
    ensures var v := w.(pool := w.pool[w.running := x]);
            && Possible(v, e) && Step(v, e).log == Step(w, e).log && Step(v, e).m == Step(w, e).m
            && (e.Leave? ==> Step(v, e) == Step(w, e))
  {
    if e.Leave? {
      var y := Step(w, e).m.slots[CURRENT];
      assert w.pool[w.running := x][w.running := y] == w.pool[w.running := y];
    }
  }
}
