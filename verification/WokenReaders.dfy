/**
 When a woken reader finds a character. The comment in kernel/stdin.c says always;
 it is right as long as one thread at a time is not asleep in exec, which is how
 the kernel boots, and wrong from every state with two such threads, also after
 one of them has exited.
 */
module WokenReaders {
  import opened Scheduler
  import opened Kernel
  import opened Places
  import opened Lifecycle
  import opened Runs

  /** Slot t's thread is not waiting for a program it started. */
  ghost predicate Awake(k: State, t: int) {
    Sized(k) && IsTid(t) && k.pool[t].occupied && !Hosting(k, t)
  }

  ghost predicate OneAwake(k: State) {
    forall s, t :: Awake(k, s) && Awake(k, t) ==> s == t
  }

  ghost predicate TwoAwake(k: State) {
    exists s, t :: Awake(k, s) && Awake(k, t) && s != t
  }

  /** If slot t's thread was woken from a read, a character is there. */
  ghost predicate Fed(k: State, t: int) {
    Sized(k) && IsTid(t) && t in k.sched.ring && k.life[t].resume == InRead ==> k.buf != []
  }

  ghost predicate AllFed(k: State) {
    forall t :: Fed(k, t)
  }

  /** The thread to be dispatched next was woken from a read, and nothing is there to read. */
  predicate Misses(k: State) {
    !k.panicked && !k.busy && InRange(k) && k.sched.ring != [] && k.life[k.sched.ring[0]].resume == InRead
    && k.buf == []
  }

  predicate NoSpawn(es: seq<Event>) {
    forall e | e in es :: !e.Spawn?
  }

  /** The threads on the CPU, in the ring and in the input queue are all awake. */
  lemma InAQueueIsAwake(k: State, t: int)
    requires PlacesOk(k) && IsTid(t)
    ensures Awake(k, t) <==> (k.busy && k.currentTid == t) || t in k.sched.ring || t in k.waiting
  {
    assert SlotOk(k, t);
  }

  // ----- one thread awake

  lemma QuietAwake(k: State, e: Event, t: int)
    requires PlacesOk(k) && InRange(k) && Enabled(k, e) && !e.Spawn? && !e.SysExec? && !e.SysExit?
    ensures Awake(Step(k, e), t) <==> Awake(k, t)
  {
    QuietEvents(k, e, t);
  }

  lemma KeepsOneAwake(k: State, e: Event)
    requires Inv(k) && InRange(k) && Enabled(k, e) && SafeEvent(k, e) && !e.Spawn? && !Step(k, e).panicked
             && OneAwake(k)
    ensures OneAwake(Step(k, e))
  {
    var b := Step(k, e);
    forall s, t | Awake(b, s) && Awake(b, t)
      ensures s == t
    {
      match e
      case SysExec(found, st) =>
        if found {
          InAQueueIsAwake(k, k.currentTid);
          ExecEffect(k, st);
          assert Awake(k, s) || s == FirstFree(k.pool, 0) || s == k.currentTid;
          assert Awake(k, t) || t == FirstFree(k.pool, 0) || t == k.currentTid;
        } else {
          assert Awake(k, s) && Awake(k, t);
        }
      case SysExit => ExitAwake(k, s); ExitAwake(k, t);
      case _ =>
        QuietAwake(k, e, s);
        QuietAwake(k, e, t);
    }
  }

  /** After the exit of the only thread awake, only the host that it wakes can be. */
  lemma ExitAwake(k: State, t: int)
    requires Inv(k) && InRange(k) && k.busy && ExitSafe(k) && OneAwake(k) && Awake(ExitThread(k), t)
    ensures t == k.current.wait
  {
    InAQueueIsAwake(k, k.currentTid);
    ExitFrees(k);
    ExitWakes(k);
    assert t != k.currentTid && !Awake(k, t);
    assert Hosting(k, t) && SlotOk(k, t);
  }

  /** With one thread awake, the queue that holds it is the only one that is not empty. */
  lemma KeepsAllFed(k: State, e: Event)
    requires Inv(k) && InRange(k) && Enabled(k, e) && SafeEvent(k, e) && !e.Spawn? && !Step(k, e).panicked
    requires OneAwake(k) && AllFed(k)
    ensures AllFed(Step(k, e))
  {
    var b := Step(k, e);
    StepKeepsInv(k, e);
    KeepsOneAwake(k, e);
    forall t
      ensures Fed(b, t)
    {
      if IsTid(t) && t in b.sched.ring && b.life[t].resume == InRead {
        InAQueueIsAwake(b, t);
        WokenByCharacter(k, e, t);
      }
    }
  }

  /** A woken reader in the ring has been there, or a character has just arrived. */
  lemma WokenByCharacter(k: State, e: Event, t: int)
    requires Inv(k) && InRange(k) && Enabled(k, e) && SafeEvent(k, e) && !e.Spawn? && !Step(k, e).panicked
    requires OneAwake(k) && AllFed(k) && IsTid(t)
    requires t in Step(k, e).sched.ring && Step(k, e).life[t].resume == InRead
    ensures Step(k, e).buf != []
  {
    assert Fed(k, t) && SlotOk(k, t) && SlotOk(k, k.currentTid);
    InAQueueIsAwake(k, t);
    InAQueueIsAwake(k, k.currentTid);
    match e
    case Dispatch => if k.sched.ring != [] { NoSecondReader(k, t); }
    case SysExec(found, st) => if found { ExecEffect(k, st); }
    case SysExit => ExitWakes(k);
    case _ =>
  }

  /** With one thread awake, its dispatch leaves the ring empty. */
  lemma NoSecondReader(k: State, t: int)
    requires Inv(k) && InRange(k) && Enabled(k, Dispatch) && k.sched.ring != [] && OneAwake(k) && IsTid(t)
    ensures t !in Step(k, Dispatch).sched.ring
  {
    var a := Acquire(k);
    AcquirePlaces(k);
    assert SlotOk(a, t) && SlotOk(a, a.currentTid);
    assert a.currentTid == k.sched.ring[0];
    InAQueueIsAwake(k, a.currentTid);
    InAQueueIsAwake(k, t);
  }

  /** So along every run a woken reader that comes to run finds a character. */
  lemma {:induction false} OneReaderNeverMisses(k: State, es: seq<Event>)
    requires Inv(k) && InRange(k) && OneAwake(k) && AllFed(k) && Runnable(k, es) && NoSpawn(es)
             && !After(k, es).panicked
    ensures OneAwake(After(k, es)) && AllFed(After(k, es)) && !Misses(After(k, es))
    decreases |es|
  {
    if es == [] {
      if k.sched.ring != [] {
        assert Fed(k, k.sched.ring[0]);
        assert k.sched.ring[0] in k.sched.ring;
      }
    } else {
      var k1 := Step(k, es[0]);
      StepKeepsInv(k, es[0]);
      PanicIsFinal(k1, es[1..]);
      if !k1.panicked {
        KeepsOneAwake(k, es[0]);
        KeepsAllFed(k, es[0]);
        OneReaderNeverMisses(k1, es[1..]);
      }
    }
  }

  /** The kernel as it boots: one thread is spawned, and everything else comes from exec. */
  lemma BootedReaderFindsACharacter(th: Thread, es: seq<Event>)
    requires Runnable(Boot(), [Spawn(th)] + es) && NoSpawn(es) && !After(Boot(), [Spawn(th)] + es).panicked
    ensures !Misses(After(Boot(), [Spawn(th)] + es))
  {
    var k := Step(Boot(), Spawn(th));
    assert ([Spawn(th)] + es)[1..] == es;
    BootInv();
    StepKeepsInv(Boot(), Spawn(th));
    assert FirstFree(Boot().pool, 0) == 0;
    assert OneAwake(k) && AllFed(k);
    OneReaderNeverMisses(k, es);
  }

  // ----- two threads awake

  /** Takes one step towards a state in which every thread awake waits for input. */
  function Towards(k: State): Event {
    if k.busy then SysRead else Dispatch
  }

  function Distance(k: State): nat {
    2 * |k.sched.ring| + One(k.busy) + |k.buf|
  }

  lemma CloserToRest(k: State)
    requires Inv(k) && InRange(k) && !k.panicked && (k.busy || k.sched.ring != [])
    ensures Enabled(k, Towards(k)) && SafeEvent(k, Towards(k)) && !Step(k, Towards(k)).panicked
    ensures Distance(Step(k, Towards(k))) < Distance(k)
  {
    assert SlotOk(k, k.currentTid);
    if !k.busy {
      AcquirePlaces(k);
      assert SlotOk(k, k.sched.ring[0]) && SlotOk(Acquire(k), Acquire(k).currentTid);
    }
  }

  /** From every state, dispatching and reading leads to one in which every thread awake waits for input. */
  lemma {:induction false} ComesToRest(k: State) returns (es: seq<Event>)
    requires Inv(k) && InRange(k) && !k.panicked
    ensures NoSpawn(es) && Runnable(k, es)
    ensures var b := After(k, es);
            && Inv(b) && InRange(b) && !b.panicked && !b.busy && b.sched.ring == []
            && (forall t :: Awake(b, t) <==> Awake(k, t))
    decreases Distance(k)
  {
    if !k.busy && k.sched.ring == [] {
      es := [];
    } else {
      var e := Towards(k);
      CloserToRest(k);
      StepKeepsInv(k, e);
      var rest := ComesToRest(Step(k, e));
      es := [e] + rest;
      assert es[1..] == rest;
      forall t
        ensures Awake(After(k, es), t) <==> Awake(k, t)
      {
        QuietAwake(k, e, t);
      }
    }
  }

  /** At rest the threads awake are the waiting ones, and no character is left. */
  lemma AtRest(k: State, s: int, t: int)
    requires Inv(k) && !k.busy && k.sched.ring == [] && Awake(k, s) && Awake(k, t) && s != t
    ensures |k.waiting| >= 2 && k.buf == []
  {
    InAQueueIsAwake(k, s);
    InAQueueIsAwake(k, t);
  }

  lemma InARow(k: State, e: Event, f: Event)
    requires InRange(k) && Enabled(k, e) && SafeEvent(k, e)
    requires var k1 := Step(k, e); InRange(k1) && Enabled(k1, f) && SafeEvent(k1, f)
    ensures Runnable(k, [e, f]) && After(k, [e, f]) == Step(Step(k, e), f)
  {
    hide Step, InRange, Enabled, SafeEvent;
    var k1 := Step(k, e);
    assert [e, f][1..] == [f] && [f][1..] == [];
    assert Runnable(Step(k1, f), []) && After(Step(k1, f), []) == Step(k1, f);
    assert Runnable(k1, [f]) && After(k1, [f]) == After(Step(k1, f), [f][1..]);
  }

  /** Two readers have been woken, x before y, and two characters are there. */
  ghost predicate TwoWoken(k: State, x: int, y: int, c: int) {
    && Inv(k) && InRange(k) && !k.panicked && !k.busy && k.sched.ring == [x, y] && k.buf == [c, c]
    && IsTid(x) && IsTid(y) && x != y && k.life[x].resume == InRead && k.life[y].resume == InRead
  }

  /** Two characters wake two readers. */
  lemma BothWoken(k: State, c: int)
    requires Inv(k) && InRange(k) && !k.panicked && !k.busy && k.sched.ring == [] && |k.waiting| >= 2 && k.buf == []
    ensures var es := [CharArrives(c), CharArrives(c)];
            Runnable(k, es) && TwoWoken(After(k, es), k.waiting[0], k.waiting[1], c)
  {
    var x, y := k.waiting[0], k.waiting[1];
    assert SlotOk(k, x) && SlotOk(k, y);
    StepKeepsInv(k, CharArrives(c));
    var k1 := Step(k, CharArrives(c));
    assert k1.waiting[0] == y;
    StepKeepsInv(k1, CharArrives(c));
    assert TwoWoken(Step(k1, CharArrives(c)), x, y, c);
    InARow(k, CharArrives(c), CharArrives(c));
  }

  /** A thread runs, buf is what is left to read, and y, woken from a read, is next. */
  ghost predicate OneAhead(k: State, y: int, buf: seq<int>) {
    && Inv(k) && InRange(k) && !k.panicked && k.busy && k.sched.ring == [y] && k.buf == buf
    && IsTid(y) && k.life[y].resume == InRead
  }

  lemma FirstRuns(k: State, x: int, y: int, c: int)
    requires TwoWoken(k, x, y, c)
    ensures Enabled(k, Dispatch) && SafeEvent(k, Dispatch) && OneAhead(Step(k, Dispatch), y, [c])
  {
    assert SlotOk(k, x) && SlotOk(k, y);
    assert k.sched.ring[1..] == [y] && k.buf[1..] == [c];
    StepKeepsInv(k, Dispatch);
    hide Inv;
    assert Step(k, Dispatch).busy;
  }

  lemma ReadsOne(k: State, y: int, c: int)
    requires OneAhead(k, y, [c])
    ensures Enabled(k, SysRead) && SafeEvent(k, SysRead) && OneAhead(Step(k, SysRead), y, [])
  {
    assert SlotOk(k, y) && SlotOk(k, k.currentTid);
    assert k.buf[1..] == [];
    StepKeepsInv(k, SysRead);
  }

  lemma ReadsNothing(k: State, y: int)
    requires OneAhead(k, y, [])
    ensures Enabled(k, SysRead) && SafeEvent(k, SysRead)
    ensures Misses(Step(k, SysRead)) && Step(k, SysRead).sched.ring == [y]
  {
    assert SlotOk(k, y) && SlotOk(k, k.currentTid);
    StepKeepsInv(k, SysRead);
  }

  /** The first one reads both. */
  lemma FirstReadsBoth(k: State, x: int, y: int, c: int)
    requires TwoWoken(k, x, y, c)
    ensures Runnable(k, [Dispatch, SysRead, SysRead]) && Misses(After(k, [Dispatch, SysRead, SysRead]))
    ensures After(k, [Dispatch, SysRead, SysRead]).sched.ring == [y]
  {
    FirstRuns(k, x, y, c);
    var k1 := Step(k, Dispatch);
    ReadsOne(k1, y, c);
    ReadsNothing(Step(k1, SysRead), y);
    assert InRange(k) && InRange(k1) && InRange(Step(k1, SysRead));
    hide Step, InRange, Enabled, SafeEvent, Misses, Inv;
    InARow(k1, SysRead, SysRead);
    assert [Dispatch, SysRead, SysRead][1..] == [SysRead, SysRead];
  }

  lemma RaceMisses(k: State, c: int)
    requires Inv(k) && InRange(k) && !k.panicked && !k.busy && k.sched.ring == [] && |k.waiting| >= 2 && k.buf == []
    ensures var es := [CharArrives(c), CharArrives(c)] + [Dispatch, SysRead, SysRead];
            NoSpawn(es) && Runnable(k, es) && Misses(After(k, es))
  {
    hide Inv, InRange, Misses, After, Runnable, TwoWoken;
    BothWoken(k, c);
    var es := [CharArrives(c), CharArrives(c)];
    FirstReadsBoth(After(k, es), k.waiting[0], k.waiting[1], c);
    OneAfterAnother(k, es, [Dispatch, SysRead, SysRead]);
  }

  /** From every state with two threads awake a run leads to a woken reader that finds nothing. */
  lemma TwoAwakeCanMiss(k: State) returns (es: seq<Event>)
    requires Inv(k) && InRange(k) && !k.panicked && TwoAwake(k)
    ensures NoSpawn(es) && Runnable(k, es) && Misses(After(k, es))
  {
    var s, t :| Awake(k, s) && Awake(k, t) && s != t;
    var rest := ComesToRest(k);
    var b := After(k, rest);
    assert Awake(b, s) && Awake(b, t);
    AtRest(b, s, t);
    RaceMisses(b, 0);
    var race := [CharArrives(0), CharArrives(0)] + [Dispatch, SysRead, SysRead];
    OneAfterAnother(k, rest, race);
    es := rest + race;
  }

  ghost predicate CanMiss(k: State) {
    exists es :: Leads(k, es)
  }

  ghost predicate Leads(k: State, es: seq<Event>) {
    NoSpawn(es) && Runnable(k, es) && Misses(After(k, es))
  }

  /** A reader can be missed exactly if two threads are awake, or one that has been woken has nothing to read. */
  lemma MissIff(k: State)
    requires Inv(k) && InRange(k) && !k.panicked
    ensures CanMiss(k) <==> TwoAwake(k) || !AllFed(k)
  {
    if TwoAwake(k) {
      var es := TwoAwakeCanMiss(k);
      assert Leads(k, es);
    } else if !AllFed(k) {
      UnfedIsMissed(k);
      assert Leads(k, []);
    } else if es :| Leads(k, es) {
      assert OneAwake(k);
      OneReaderNeverMisses(k, es);
      assert false;
    }
  }

  /** With one thread awake, a woken reader with nothing to read is the one to be dispatched next. */
  lemma UnfedIsMissed(k: State)
    requires Inv(k) && InRange(k) && !k.panicked && OneAwake(k) && !AllFed(k)
    ensures Misses(k)
  {
    var t :| !Fed(k, t);
    assert SlotOk(k, t) && SlotOk(k, k.currentTid);
    InAQueueIsAwake(k, t);
    InAQueueIsAwake(k, k.currentTid);
    InAQueueIsAwake(k, k.sched.ring[0]);
  }

  /** A reader that finds nothing waits again, behind the others: that is what the loop in popChar is for. */
  lemma MissedReaderWaitsAgain(k: State)
    requires Inv(k) && Misses(k)
    ensures var b := Step(k, Dispatch);
            b.waiting == k.waiting + [k.sched.ring[0]] && b.delivered == k.delivered && !b.busy
  {
    AcquirePlaces(k);
    assert SlotOk(k, k.sched.ring[0]);
  }

  /** The running thread reads what the waiting one was woken for, and exits. */
  lemma ReadsAndExits(k: State, x: int, c: int)
    requires Inv(k) && InRange(k) && !k.panicked && k.busy && k.sched.ring == [] && k.waiting == [x] && k.buf == []
    requires k.current.wait == -1
    ensures var es := [CharArrives(c), SysRead, SysExit];
            && Runnable(k, es) && Misses(After(k, es)) && Inv(After(k, es))
            && forall t :: Awake(After(k, es), t) <==> Awake(k, t) && t != k.currentTid
  {
    assert SlotOk(k, x) && SlotOk(k, k.currentTid);
    var k1 := Step(k, CharArrives(c));
    StepKeepsInv(k, CharArrives(c));
    assert k1.busy && k1.sched.ring == [x] && k1.buf == [c] && k1.life[x].resume == InRead && k1.current.wait == -1;
    ReadsTheOnlyOne(k1, x, c);
    var k2 := Step(k1, SysRead);
    ExitsAhead(k2, x);
    forall t
      ensures Awake(Step(k2, SysExit), t) <==> Awake(k, t) && t != k.currentTid
    {
      QuietAwake(k, CharArrives(c), t);
      QuietAwake(k1, SysRead, t);
    }
    InARow(k1, SysRead, SysExit);
    assert [CharArrives(c), SysRead, SysExit][1..] == [SysRead, SysExit];
  }

  lemma ReadsTheOnlyOne(k: State, x: int, c: int)
    requires OneAhead(k, x, [c]) && k.current.wait == -1
    ensures Enabled(k, SysRead) && SafeEvent(k, SysRead)
    ensures var b := Step(k, SysRead); OneAhead(b, x, []) && b.current.wait == -1 && b.currentTid == k.currentTid
  {
    ReadsOne(k, x, c);
  }

  lemma ExitsAhead(k: State, x: int)
    requires OneAhead(k, x, []) && k.current.wait == -1
    ensures Enabled(k, SysExit) && SafeEvent(k, SysExit)
    ensures Misses(Step(k, SysExit)) && Inv(Step(k, SysExit))
    ensures forall t :: Awake(Step(k, SysExit), t) <==> Awake(k, t) && t != k.currentTid
  {
    assert SlotOk(k, x) && SlotOk(k, k.currentTid);
    StepKeepsInv(k, SysExit);
  }

  /** The state with two threads, in slots 0 and 1, of which those in ring are ready and those in waiting wait. */
  ghost predicate Two(k: State, busy: bool, ring: seq<int>, waiting: seq<int>) {
    && Inv(k) && InRange(k) && !k.panicked && k.buf == []
    && k.busy == busy && k.sched.ring == ring && k.waiting == waiting
    && (forall t | t in ring :: IsTid(t) && k.life[t].resume == InUser)
    && k.pool[0].thread.wait == -1 && k.pool[1].thread.wait == -1
    && (forall t :: Awake(k, t) <==> t == 0 || t == 1)
  }

  /** The state with one thread, in slot 0 and ready. */
  ghost predicate OneReady(k: State) {
    && Inv(k) && InRange(k) && !k.panicked && !k.busy && k.buf == [] && k.waiting == []
    && k.sched.ring == [0] && k.life[0].resume == InUser && k.pool[0].thread.wait == -1
    && k.stacks == {1} && FirstFree(k.pool, 0) == 1 && forall t :: Awake(k, t) <==> t == 0
  }

  lemma FirstSpawned()
    ensures OneReady(Step(Boot(), Spawn(Thread(1, -1))))
  {
    BootInv();
    assert FirstFree(Boot().pool, 0) == 0;
    StepKeepsInv(Boot(), Spawn(Thread(1, -1)));
  }

  lemma SecondSpawned(k: State)
    requires OneReady(k)
    ensures var e := Spawn(Thread(2, -1));
            Enabled(k, e) && SafeEvent(k, e) && Two(Step(k, e), false, [0, 1], [])
  {
    StepKeepsInv(k, Spawn(Thread(2, -1)));
    forall t
      ensures Awake(Step(k, Spawn(Thread(2, -1))), t) <==> t == 0 || t == 1
    {
      assert Awake(k, t) <==> t == 0;
    }
  }

  lemma TwoSpawned()
    ensures var es := [Spawn(Thread(1, -1)), Spawn(Thread(2, -1))];
            Runnable(Boot(), es) && Two(After(Boot(), es), false, [0, 1], [])
  {
    FirstSpawned();
    SecondSpawned(Step(Boot(), Spawn(Thread(1, -1))));
    hide Two;
    InARow(Boot(), Spawn(Thread(1, -1)), Spawn(Thread(2, -1)));
  }

  /**
   The input against which the comment fails: two threads spawned without a parent, which the kernel does
   not do by itself.
   */
  lemma WokenReaderSleepsAgain() returns (es: seq<Event>)
    ensures var start := [Spawn(Thread(1, -1)), Spawn(Thread(2, -1))];
            && Runnable(Boot(), start + es) && NoSpawn(es) && Misses(After(Boot(), start + es))
  {
    var start := [Spawn(Thread(1, -1)), Spawn(Thread(2, -1))];
    TwoSpawned();
    assert Awake(After(Boot(), start), 0) && Awake(After(Boot(), start), 1);
    hide Step, Inv, InRange, Misses, After, Runnable, Awake;
    es := TwoAwakeCanMiss(After(Boot(), start));
    OneAfterAnother(Boot(), start, es);
  }

  /** The dispatch of thread t, the next of the two. */
  lemma NextOfTwo(k: State, t: int, ring: seq<int>, waiting: seq<int>)
    requires Two(k, false, [t] + ring, waiting) && (t == 0 || t == 1)
    ensures Enabled(k, Dispatch) && SafeEvent(k, Dispatch)
    ensures var b := Step(k, Dispatch); Two(b, true, ring, waiting) && b.currentTid == t && b.current.wait == -1
  {
    assert SlotOk(k, 0) && SlotOk(k, 1) && k.sched.ring[0] == t;
    assert ([t] + ring)[1..] == ring;
    StepKeepsInv(k, Dispatch);
    forall u
      ensures Awake(Step(k, Dispatch), u) <==> u == 0 || u == 1
    {
      QuietAwake(k, Dispatch, u);
    }
  }

  lemma FirstWaits(k: State)
    requires Two(k, true, [1], []) && k.currentTid == 0
    ensures Enabled(k, SysRead) && SafeEvent(k, SysRead) && Two(Step(k, SysRead), false, [1], [0])
  {
    assert SlotOk(k, 0) && SlotOk(k, 1);
    StepKeepsInv(k, SysRead);
    assert Step(k, SysRead).waiting == [0];
    forall u
      ensures Awake(Step(k, SysRead), u) <==> u == 0 || u == 1
    {
      QuietAwake(k, SysRead, u);
    }
  }

  lemma OneWaitsOneRuns(k: State)
    requires Two(k, false, [0, 1], [])
    ensures var es := [Dispatch, SysRead, Dispatch];
            && Runnable(k, es)
            && var b := After(k, es); Two(b, true, [], [0]) && b.currentTid == 1 && b.current.wait == -1
  {
    assert [0] + [1] == [0, 1] && [1] + [] == [1];
    NextOfTwo(k, 0, [1], []);
    var k1 := Step(k, Dispatch);
    FirstWaits(k1);
    var k2 := Step(k1, SysRead);
    NextOfTwo(k2, 1, [], [0]);
    InARow(k1, SysRead, Dispatch);
    assert [Dispatch, SysRead, Dispatch][1..] == [SysRead, Dispatch];
  }

  /**
   Two threads awake are not needed at the end: the second one can read what the first was woken for, and
   exit. Then one thread is awake, and it finds nothing.
   */
  lemma LastReaderIsMissed()
    ensures var es := [Spawn(Thread(1, -1)), Spawn(Thread(2, -1))] + [Dispatch, SysRead, Dispatch]
                      + [CharArrives(7), SysRead, SysExit];
            && Runnable(Boot(), es)
            && var k := After(Boot(), es); Inv(k) && Misses(k) && OneAwake(k) && !AllFed(k)
  {
    var spawns, first := [Spawn(Thread(1, -1)), Spawn(Thread(2, -1))], [Dispatch, SysRead, Dispatch];
    var race := [CharArrives(7), SysRead, SysExit];
    TwoSpawned();
    var k1 := After(Boot(), spawns);
    OneWaitsOneRuns(k1);
    var k2 := After(k1, first);
    ReadsAndExits(k2, 0, 7);
    MissedIsUnfed(After(k2, race));
    hide Step, Inv, InRange, Enabled, SafeEvent, After, Runnable, Misses, AllFed;
    OneAfterAnother(Boot(), spawns, first);
    OneAfterAnother(Boot(), spawns + first, race);
  }

  lemma MissedIsUnfed(k: State)
    requires Inv(k) && Misses(k)
    ensures !AllFed(k)
  {
    assert !Fed(k, k.sched.ring[0]);
  }
}
