/**
 The kernel as its programs see it: who runs, who is ready, who waits for input and
 who for a program, without statuses, thread records on the CPU or lists of slots.
 Every step of the kernel is a step of this machine.
 */
module Programs {
  import opened Scheduler
  import opened Kernel
  import opened Places
  import opened Lifecycle
  import opened Runs

  const NONE := -1

  datatype Machine = Machine(
    threads: map<int, Thread>,   // by slot
    cpu: int,                    // the slot of the running thread, or NONE
    ready: seq<int>,             // in the order in which they will run
    reading: seq<int>,           // wait for input, in the order in which they will be woken
    woken: set<int>,             // ready ones that were woken from a read
    hosts: set<int>,             // wait for the program they started
    left: seq<int>,              // ticks left, by slot
    slice: int,
    input: seq<int>,             // characters that arrived and were not read
    got: seq<int>)               // characters that were read

  /** The lowest slot from i on without a thread, or NONE. */
  function Vacancy(p: Machine, i: nat): int
    decreases MAX_THREAD - i
  {
    if i >= MAX_THREAD then NONE else if i !in p.threads then i else Vacancy(p, i + 1)
  }

  /** Thread t joins the ready ones, with a full slice if it has used up its own. */
  function Queued(p: Machine, t: int): Machine {
    p.(ready := p.ready + [t],
       left := if 0 <= t < |p.left| && p.left[t] == 0 then p.left[t := p.slice] else p.left)
  }

  /** A new thread in the lowest free slot; nothing if there is none, which is a panic. */
  function Started(p: Machine, th: Thread): Machine {
    var x := Vacancy(p, 0);
    if x == NONE then p else Queued(p.(threads := p.threads[x := th]), x)
  }

  /** The running thread takes the oldest character, or waits for one. */
  function Reads(p: Machine): Machine {
    if p.input != [] then p.(input := p.input[1..], got := p.got + [p.input[0]])
    else p.(reading := p.reading + [p.cpu], cpu := NONE)
  }

  function Next(p: Machine, e: Event): Machine {
    match e
    case Dispatch =>
      if p.ready == [] then p
      else
        var t := p.ready[0];
        var q := p.(cpu := t, ready := p.ready[1..], woken := p.woken - {t});
        if t in p.woken then Reads(q) else q
    case Timer =>
      if !(0 <= p.cpu < |p.left|) then p
      else
        var q := p.(left := p.left[p.cpu := p.left[p.cpu] - 1]);
        if q.left[p.cpu] == 0 then Queued(q.(cpu := NONE), p.cpu) else q
    case CharArrives(c) =>
      var q := p.(input := p.input + [c]);
      if p.reading == [] then q
      else Queued(q.(reading := p.reading[1..], woken := p.woken + {p.reading[0]}), p.reading[0])
    case Spawn(th) => Started(p, th)
    case SysRead => Reads(p)
    case SysExec(found, stack) =>
      if found then Started(p.(hosts := p.hosts + {p.cpu}, cpu := NONE), Thread(stack, p.cpu)) else p
    case SysExit =>
      if p.cpu !in p.threads then p
      else
        var w := p.threads[p.cpu].wait;
        var q := p.(threads := p.threads - {p.cpu}, cpu := NONE);
        if w == -1 then q else Queued(q.(hosts := p.hosts - {w}), w)
  }

  // ----- what a state of the kernel stands for

  ghost predicate Woken(k: State, t: int)
    requires Sized(k)
  {
    IsTid(t) && t in k.sched.ring && k.life[t].resume == InRead
  }

  ghost function ThreadsOf(k: State): map<int, Thread>
    requires Sized(k)
  {
    map t | 0 <= t < MAX_THREAD && k.pool[t].occupied :: k.pool[t].thread
  }

  ghost function WokenOf(k: State): set<int>
    requires Sized(k)
  {
    set t: int | 0 <= t < MAX_THREAD && Woken(k, t)
  }

  ghost function HostsOf(k: State): set<int>
    requires Sized(k)
  {
    set t: int | 0 <= t < MAX_THREAD && Hosting(k, t)
  }

  ghost function Meaning(k: State): Machine
    requires Sized(k)
  {
    Machine(ThreadsOf(k), if k.busy then k.currentTid else NONE, k.sched.ring, k.waiting,
            WokenOf(k), HostsOf(k), k.sched.time, k.sched.maxTime, k.buf, k.delivered)
  }

  lemma {:induction false} VacancyIs(k: State, i: nat)
    requires Sized(k) && i <= MAX_THREAD
    ensures Vacancy(Meaning(k), i) == FirstFree(k.pool, i)
    decreases MAX_THREAD - i
  {
    if i < MAX_THREAD {
      VacancyIs(k, i + 1);
    }
  }

  /** States that agree slot by slot stand for the same threads, woken readers and hosts. */
  ghost predicate Same(a: State, b: State, t: int) {
    Sized(a) && Sized(b) && IsTid(t) ==>
      && a.pool[t].occupied == b.pool[t].occupied
      && (a.pool[t].occupied ==> a.pool[t].thread == b.pool[t].thread)
      && (Woken(a, t) <==> Woken(b, t)) && (Hosting(a, t) <==> Hosting(b, t))
  }

  lemma SlotBySlot(a: State, b: State)
    requires Sized(a) && Sized(b) && forall t :: Same(a, b, t)
    ensures ThreadsOf(a) == ThreadsOf(b) && WokenOf(a) == WokenOf(b) && HostsOf(a) == HostsOf(b)
  {
    forall t | 0 <= t < MAX_THREAD
      ensures t in ThreadsOf(a) <==> t in ThreadsOf(b)
      ensures t in ThreadsOf(a) ==> ThreadsOf(a)[t] == ThreadsOf(b)[t]
      ensures t in WokenOf(a) <==> t in WokenOf(b)
      ensures t in HostsOf(a) <==> t in HostsOf(b)
    {
      assert Same(a, b, t);
    }
  }

  // ----- one lemma per event

  lemma CharIsNext(k: State, c: int)
    requires Inv(k) && InRange(k) && Enabled(k, CharArrives(c))
    ensures Sized(Step(k, CharArrives(c))) && Meaning(Step(k, CharArrives(c))) == Next(Meaning(k), CharArrives(c))
  {
    var b := Step(k, CharArrives(c));
    if k.waiting != [] {
      var x := k.waiting[0];
      assert SlotOk(k, x);
      forall t: int | 0 <= t < MAX_THREAD
        ensures (t in WokenOf(b) <==> t in WokenOf(k) || t == x) && (t in HostsOf(b) <==> t in HostsOf(k))
      {
        assert SlotOk(k, t);
      }
    }
    assert ThreadsOf(b) == ThreadsOf(k);
    assert HostsOf(b) == HostsOf(k);
  }

  lemma ReadIsReads(k: State)
    requires PlacesOk(k) && k.busy
    ensures Sized(PopChar(k))
    ensures Meaning(PopChar(k)) == Reads(Meaning(k))
  {
    var b, x := PopChar(k), k.currentTid;
    forall t
      ensures Same(k, b, t)
    {
      assert SlotOk(k, t) && SlotOk(k, x);
    }
    SlotBySlot(k, b);
  }

  lemma TimerIsNext(k: State)
    requires Inv(k) && InRange(k) && Enabled(k, Timer)
    ensures Sized(Step(k, Timer)) && Meaning(Step(k, Timer)) == Next(Meaning(k), Timer)
  {
    var b, x := Step(k, Timer), k.currentTid;
    assert SlotOk(k, x) && SliceOk(k, x);
    forall t
      ensures Same(k, b, t)
    {
      assert SlotOk(k, t);
    }
    SlotBySlot(k, b);
  }

  lemma AddIsStarted(k: State, th: Thread, child: bool)
    requires PlacesOk(k)
    ensures var b := AddToPool(k, th, child);
            && (b.panicked <==> k.panicked || Vacancy(Meaning(k), 0) == NONE)
            && (Vacancy(Meaning(k), 0) != NONE ==> Sized(b) && Meaning(b) == Started(Meaning(k), th))
  {
    var b, x := AddToPool(k, th, child), FirstFree(k.pool, 0);
    VacancyIs(k, 0);
    if x != -1 {
      assert SlotOk(k, x);
      assert ThreadsOf(b) == ThreadsOf(k)[x := th];
      forall t: int | 0 <= t < MAX_THREAD
        ensures (t in WokenOf(b) <==> t in WokenOf(k)) && (t in HostsOf(b) <==> t in HostsOf(k))
      {
        assert SlotOk(k, t);
      }
      assert WokenOf(b) == WokenOf(k) && HostsOf(b) == HostsOf(k);
    }
  }

  lemma YieldIsHosting(k: State)
    requires PlacesOk(k) && k.busy
    ensures var b, p := Yield(k, InExec), Meaning(k);
            Sized(b) && Meaning(b) == p.(cpu := NONE, hosts := p.hosts + {p.cpu})
  {
    var b, x := Yield(k, InExec), k.currentTid;
    assert SlotOk(k, x);
    forall t: int | 0 <= t < MAX_THREAD
      ensures (t in WokenOf(b) <==> t in WokenOf(k)) && (t in HostsOf(b) <==> t in HostsOf(k) || t == x)
    {
      assert SlotOk(k, t);
    }
    assert ThreadsOf(b) == ThreadsOf(k);
    assert WokenOf(b) == WokenOf(k) && HostsOf(b) == HostsOf(k) + {x};
  }

  lemma ExecIsNext(k: State, s: int)
    requires Inv(k) && InRange(k) && Enabled(k, SysExec(true, s))
    ensures var b := Step(k, SysExec(true, s));
            && (b.panicked <==> Vacancy(Meaning(k), 0) == NONE)
            && (!b.panicked ==> Sized(b) && Meaning(b) == Next(Meaning(k), SysExec(true, s)))
  {
    var k0 := k.(stacks := k.stacks + {s});
    StacksArePassive(k, k.stacks + {s});
    var th := Thread(s, k.currentTid);
    AddIsStarted(k0, th, true);
    assert Meaning(k0) == Meaning(k) by {
      assert ThreadsOf(k0) == ThreadsOf(k) && WokenOf(k0) == WokenOf(k) && HostsOf(k0) == HostsOf(k);
    }
    var k1 := AddToPool(k0, th, true);
    if !k1.panicked {
      AddPlaces(k0, th, true);
      YieldIsHosting(k1);
      var p := Meaning(k);
      VacancyOf(p, p.(hosts := p.hosts + {p.cpu}, cpu := NONE), 0);
    }
  }

  lemma {:induction false} VacancyOf(p: Machine, q: Machine, i: nat)
    requires p.threads == q.threads
    ensures Vacancy(p, i) == Vacancy(q, i)
    decreases MAX_THREAD - i
  {
    if i < MAX_THREAD {
      VacancyOf(p, q, i + 1);
    }
  }

  lemma ExitSlots(k: State)
    requires Inv(k) && InRange(k) && Enabled(k, SysExit) && ExitSafe(k)
    ensures var b, x, w := ExitThread(k), k.currentTid, k.current.wait;
            && Sized(b) && ThreadsOf(b) == ThreadsOf(k) - {x} && WokenOf(b) == WokenOf(k)
            && HostsOf(b) == if w == -1 then HostsOf(k) else HostsOf(k) - {w}
  {
    var b, x, w := ExitThread(k), k.currentTid, k.current.wait;
    ExitWakes(k);
    ExitFrees(k);
    assert SlotOk(k, x) && SlotOk(k, w) && LinkOk(k, x);
    forall t: int | 0 <= t < MAX_THREAD
      ensures (t in WokenOf(b) <==> t in WokenOf(k)) && (t in HostsOf(b) <==> t in HostsOf(k) && t != w)
    {
      assert SlotOk(k, t);
    }
  }

  lemma ExitIsNext(k: State)
    requires Inv(k) && InRange(k) && Enabled(k, SysExit) && ExitSafe(k)
    ensures Sized(Step(k, SysExit)) && Meaning(Step(k, SysExit)) == Next(Meaning(k), SysExit)
  {
    ExitWakes(k);
    assert SlotOk(k, k.currentTid);
    hide Inv, WokenOf, HostsOf;
    ExitSlots(k);
  }

  lemma DispatchIsNext(k: State)
    requires Inv(k) && InRange(k) && Enabled(k, Dispatch)
    ensures Sized(Step(k, Dispatch)) && Meaning(Step(k, Dispatch)) == Next(Meaning(k), Dispatch)
  {
    if k.sched.ring != [] {
      var a, x := Acquire(k), k.sched.ring[0];
      AcquirePlaces(k);
      assert SlotOk(k, x) && SlotOk(a, x);
      forall t: int | 0 <= t < MAX_THREAD
        ensures (t in WokenOf(a) <==> t in WokenOf(k) && t != x) && (t in HostsOf(a) <==> t in HostsOf(k))
      {
        assert SlotOk(k, t) && SlotOk(a, t);
      }
      assert ThreadsOf(a) == ThreadsOf(k);
      assert WokenOf(a) == WokenOf(k) - {x} && HostsOf(a) == HostsOf(k);
      ContinueIsNext(k, a, x);
    }
  }

  lemma ContinueIsNext(k: State, a: State, x: int)
    requires PlacesOk(a) && a.busy && x == a.currentTid
    requires Sized(k) && (x in WokenOf(k) <==> a.life[x].resume == InRead)
    ensures Sized(Continue(a))
    ensures Meaning(Continue(a)) == if x in WokenOf(k) then Reads(Meaning(a)) else Meaning(a)
  {
    assert SlotOk(a, x);
    if x in WokenOf(k) {
      ReadIsReads(a);
    } else {
      forall t
        ensures Same(a, Continue(a), t)
      {
        assert SlotOk(a, t);
      }
      SlotBySlot(a, Continue(a));
    }
  }

  // ----- steps and runs

  /**
   Every safe step of the kernel is the step that its programs see; starting a thread panics exactly when
   all 64 slots are taken.
   */
  lemma StepIsNext(k: State, e: Event)
    requires Inv(k) && InRange(k) && Enabled(k, e) && SafeEvent(k, e)
    ensures Step(k, e).panicked <==>
              (e.Spawn? || (e.SysExec? && e.found)) && forall t | 0 <= t < 64 :: t in Meaning(k).threads
    ensures !Step(k, e).panicked ==> Sized(Step(k, e)) && Meaning(Step(k, e)) == Next(Meaning(k), e)
  {
    InvIsSized(k);
    NoVacancy(Meaning(k), 0);
    OnlyStartsPanic(k, e);
    hide Inv, InRange, Meaning, Next, Step, Vacancy, ExitSafe;
    match e
    case Dispatch => DispatchIsNext(k);
    case Timer => TimerIsNext(k);
    case CharArrives(c) => CharIsNext(k, c);
    case Spawn(th) => SpawnIsNext(k, th);
    case SysRead => ReadIsNext(k);
    case SysExec(found, s) =>
      if found {
        ExecIsNext(k, s);
      } else {
        NotFoundIsNext(k, s);
      }
    case SysExit => ExitIsNext(k);
  }

  lemma OnlyStartsPanic(k: State, e: Event)
    requires Inv(k) && InRange(k) && Enabled(k, e) && SafeEvent(k, e)
    ensures e.Spawn? || (e.SysExec? && e.found) || !Step(k, e).panicked
  {
    assert SlotOk(k, k.currentTid);
    if e == Dispatch && k.sched.ring != [] {
      AcquirePlaces(k);
      assert SlotOk(Acquire(k), Acquire(k).currentTid);
    }
  }

  lemma ReadIsNext(k: State)
    requires Inv(k) && InRange(k) && Enabled(k, SysRead)
    ensures Sized(Step(k, SysRead)) && Meaning(Step(k, SysRead)) == Next(Meaning(k), SysRead)
  {
    ReadIsReads(k);
  }

  lemma NotFoundIsNext(k: State, s: int)
    requires Inv(k) && InRange(k) && Enabled(k, SysExec(false, s))
    ensures var e := SysExec(false, s); Sized(Step(k, e)) && Meaning(Step(k, e)) == Next(Meaning(k), e)
  {
  }

  lemma {:induction false} NoVacancy(p: Machine, i: nat)
    requires i <= 64
    ensures Vacancy(p, i) == NONE <==> forall t | i <= t < 64 :: t in p.threads
    decreases 64 - i
  {
    if i < 64 {
      NoVacancy(p, i + 1);
    }
  }

  lemma SpawnIsNext(k: State, th: Thread)
    requires Inv(k) && InRange(k) && Enabled(k, Spawn(th))
    ensures var b := Step(k, Spawn(th));
            && (b.panicked <==> Vacancy(Meaning(k), 0) == NONE)
            && (!b.panicked ==> Sized(b) && Meaning(b) == Next(Meaning(k), Spawn(th)))
  {
    var k0 := k.(stacks := k.stacks + {th.kstack});
    StacksArePassive(k, k.stacks + {th.kstack});
    AddIsStarted(k0, th, false);
    assert ThreadsOf(k0) == ThreadsOf(k) && WokenOf(k0) == WokenOf(k) && HostsOf(k0) == HostsOf(k);
  }

  function NextAll(p: Machine, es: seq<Event>): Machine
    decreases |es|
  {
    if es == [] then p else NextAll(Next(p, es[0]), es[1..])
  }

  /** So is every run. */
  lemma {:induction false} RunIsNext(k: State, es: seq<Event>)
    requires Inv(k) && InRange(k) && Runnable(k, es) && !After(k, es).panicked
    ensures Sized(After(k, es)) && Meaning(After(k, es)) == NextAll(Meaning(k), es)
    decreases |es|
  {
    hide Inv, InRange, Enabled, SafeEvent, Meaning, Next;
    if es != [] {
      StepIsNext(k, es[0]);
      StepKeepsInv(k, es[0]);
      PanicIsFinal(Step(k, es[0]), es[1..]);
      RunIsNext(Step(k, es[0]), es[1..]);
    } else {
      InvIsSized(k);
    }
  }

  lemma InvIsSized(k: State)
    requires Inv(k)
    ensures Sized(k)
  {
  }

  // ----- what single events are for

  /** A program that is found is started in a formerly free slot, on its stack, and its caller sleeps until it exits. */
  lemma ExecStarts(k: State, s: int)
    requires Inv(k) && InRange(k) && Enabled(k, SysExec(true, s))
    ensures var b := Step(k, SysExec(true, s));
            && (b.panicked <==> forall t | IsTid(t) :: k.pool[t].occupied)
            && (!b.panicked ==>
                  && Sized(b) && !b.busy && Hosting(b, k.currentTid)
                  && exists x :: NewThread(k, b, x, Thread(s, k.currentTid)) && ChildOf(b, x, k.currentTid))
  {
    var b, x := Step(k, SysExec(true, s)), FirstFree(k.pool, 0);
    if x != -1 {
      assert !k.pool[x].occupied;
      ExecIsNext(k, s);
      VacancyIs(k, 0);
      ExecRing(k, s);
      hide Exec;
      ExecEffect(k, s);
      assert NewThread(k, b, x, Thread(s, k.currentTid)) && ChildOf(b, x, k.currentTid);
    }
  }

  lemma ExecRing(k: State, s: int)
    requires PlacesOk(k) && k.busy && !k.panicked && FirstFree(k.pool, 0) != -1
    ensures var b := Exec(k, s);
            && Sized(b) && b.sched.ring == k.sched.ring + [FirstFree(k.pool, 0)]
            && b.stacks == k.stacks + {s} && !b.busy
  {
    assert SlotOk(k, k.currentTid) && FirstFree(k.pool, 0) != k.currentTid;
  }

  /** Slot x was free in a and is the only one to have got a thread, th, which is ready behind all others. */
  ghost predicate NewThread(a: State, b: State, x: int, th: Thread) {
    && Sized(a) && Sized(b) && IsTid(x) && !a.pool[x].occupied
    && b.pool[x].occupied && b.pool[x].status == Ready && b.pool[x].thread == th && b.life[x].resume == InUser
    && b.sched.ring == a.sched.ring + [x] && b.stacks == a.stacks + {th.kstack}
    && forall t | IsTid(t) && t != x :: b.pool[t].occupied == a.pool[t].occupied && b.pool[t].thread == a.pool[t].thread
  }

  /** A program that is not found changes nothing. */
  lemma ExecOfNothing(k: State, s: int)
    requires Inv(k) && InRange(k) && Enabled(k, SysExec(false, s))
    ensures Step(k, SysExec(false, s)) == k
  {
  }

  /** So is a thread that the kernel starts by itself, and nobody waits for it. */
  lemma SpawnStarts(k: State, th: Thread)
    requires Inv(k) && InRange(k) && Enabled(k, Spawn(th))
    ensures var b := Step(k, Spawn(th));
            && (b.panicked <==> forall t | IsTid(t) :: k.pool[t].occupied)
            && (!b.panicked ==>
                  && Sized(b) && !b.busy && (forall h :: Hosting(b, h) <==> Hosting(k, h))
                  && exists x :: NewThread(k, b, x, th) && !IsChild(b, x))
  {
    if FirstFree(k.pool, 0) != -1 {
      var b := Step(k, Spawn(th));
      assert !k.pool[FirstFree(k.pool, 0)].occupied && SlotOk(k, FirstFree(k.pool, 0));
      assert NewThread(k, b, FirstFree(k.pool, 0), th) && !IsChild(b, FirstFree(k.pool, 0));
    }
  }
}
