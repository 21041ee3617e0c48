/**
 Whole runs of the kernel: safety in every reachable state, the forest of waiting
 programs, bounded waiting, and the run in which the first thread exits.
 */
module Runs {
  import opened Scheduler
  import opened Kernel
  import opened Places
  import opened Lifecycle

  /** Events es can happen in a row from k, no exit among them being unsafe. */
  ghost predicate Runnable(k: State, es: seq<Event>)
    decreases |es|
  {
    es == [] || (InRange(k) && Enabled(k, es[0]) && SafeEvent(k, es[0]) && Runnable(Step(k, es[0]), es[1..]))
  }

  ghost function After(k: State, es: seq<Event>): State
    requires Runnable(k, es)
    decreases |es|
  {
    if es == [] then k else After(Step(k, es[0]), es[1..])
  }

  /** Nothing happens after a panic. */
  lemma PanicIsFinal(k: State, es: seq<Event>)
    requires Runnable(k, es)
    ensures k.panicked ==> es == []
  {
  }

  /** Safety over whole runs. */
  lemma {:induction false} RunKeepsInv(k: State, es: seq<Event>)
    requires Inv(k) && InRange(k) && Runnable(k, es)
    ensures After(k, es).panicked || (Inv(After(k, es)) && InRange(After(k, es)))
    decreases |es|
  {
    if es != [] {
      StepKeepsInv(k, es[0]);
      PanicIsFinal(Step(k, es[0]), es[1..]);
      if !Step(k, es[0]).panicked {
        RunKeepsInv(Step(k, es[0]), es[1..]);
      }
    }
  }

  /** The characters that arrive in a run, as the events say. */
  function Arriving(es: seq<Event>): seq<int> {
    if es == [] then []
    else (if es[0].CharArrives? then [es[0].c] else []) + Arriving(es[1..])
  }

  lemma PushedOfStep(k: State, e: Event)
    requires Inv(k) && InRange(k) && Enabled(k, e) && SafeEvent(k, e)
    ensures Step(k, e).pushed == k.pushed + if e.CharArrives? then [e.c] else []
  {
    assert SlotOk(k, k.currentTid);
    if e == Dispatch && k.sched.ring != [] {
      AcquirePlaces(k);
      assert SlotOk(Acquire(k), Acquire(k).currentTid);
    }
  }

  /** Every character that arrives is recorded, in order. */
  lemma {:induction false} AllArePushed(k: State, es: seq<Event>)
    requires Inv(k) && InRange(k) && Runnable(k, es) && !After(k, es).panicked
    ensures After(k, es).pushed == k.pushed + Arriving(es)
    decreases |es|
  {
    hide Inv, InRange, Enabled, SafeEvent, Step;
    if es != [] {
      StepKeepsInv(k, es[0]);
      PanicIsFinal(Step(k, es[0]), es[1..]);
      PushedOfStep(k, es[0]);
      AllArePushed(Step(k, es[0]), es[1..]);
      Regroup(k.pushed, if es[0].CharArrives? then [es[0].c] else [], Arriving(es[1..]));
    }
  }

  lemma Regroup(a: seq<int>, b: seq<int>, c: seq<int>)
    ensures a + b + c == a + (b + c)
  {
  }

  /**
   In every state reachable from boot each thread is in exactly one place and owns its stack, and the
   characters read and those buffered are the ones that arrived, in order.
   */
  lemma ReachableStates(es: seq<Event>, t: int)
    requires Runnable(Boot(), es) && !After(Boot(), es).panicked && IsTid(t)
    ensures var k := After(Boot(), es);
            && Inv(k)
            && PlaceCount(k, t) == One(k.pool[t].occupied)
            && (k.pool[t].occupied ==> k.pool[t].thread.kstack in k.stacks)
            && k.delivered + k.buf == k.pushed == Arriving(es)
  {
    BootInv();
    RunKeepsInv(Boot(), es);
    AllArePushed(Boot(), es);
    ExactlyOnePlace(After(Boot(), es), t);
    assert StackOk(After(Boot(), es), t);
  }

  /** If readers sleep while characters are buffered, a woken reader is on its way. */
  lemma {:induction false} NoLostWakeup(k: State) returns (t: int)
    requires Inv(k) && k.waiting != [] && k.buf != []
    ensures t in k.sched.ring && k.life[t].resume == InRead
  {
    t := SomeReader(k.sched.ring, k.life);
  }

  lemma {:induction false} SomeReader(ring: seq<int>, life: seq<Life>) returns (t: int)
    requires Readers(ring, life) > 0
    ensures t in ring && 0 <= t < |life| && life[t].resume == InRead
    decreases |ring|
  {
    if 0 <= ring[0] < |life| && life[ring[0]].resume == InRead {
      t := ring[0];
    } else {
      t := SomeReader(ring[1..], life);
    }
  }

  // ----- kernel stacks

  /** A stack is given back only when its own thread exits, and after the CPU has left it. */
  lemma FreedOnlyByExit(k: State, e: Event, s: int)
    requires Inv(k) && InRange(k) && Enabled(k, e) && s in k.stacks && s !in Step(k, e).stacks
    ensures e == SysExit && s == k.pool[k.currentTid].thread.kstack && !Step(k, e).pool[k.currentTid].occupied
    ensures !Step(k, e).busy
  {
    match e
    case SysExit => ExitFrees(k);
    case SysExec(found, st) =>
      if found && FirstFree(k.pool, 0) != -1 {
        StacksArePassive(k, k.stacks + {st});
        AddPlaces(k.(stacks := k.stacks + {st}), Thread(st, k.currentTid), true);
        YieldThread(AddToPool(k.(stacks := k.stacks + {st}), Thread(st, k.currentTid), true), 0);
      }
    case Spawn(t) =>
    case _ => QuietEvents(k, e, 0);
  }

  // ----- the forest of waiting programs

  /** The thread reached from c by following wait n times, as long as each one was made by exec. */
  ghost predicate WaitsFor(k: State, c: int, h: int, n: nat)
    decreases n
  {
    if n == 0 then h == c else IsChild(k, c) && WaitsFor(k, k.pool[c].thread.wait, h, n - 1)
  }

  lemma {:induction false} HostsAreOlder(k: State, c: int, h: int, n: nat)
    requires Sized(k) && LinksOk(k) && n > 0 && WaitsFor(k, c, h, n)
    ensures IsTid(c) && Hosting(k, h) && k.life[h].born < k.life[c].born
    decreases n
  {
    assert LinkOk(k, c);
    if n > 1 {
      HostsAreOlder(k, k.pool[c].thread.wait, h, n - 1);
    }
  }

  /** No program waits, however indirectly, for itself. */
  lemma WaitingIsAcyclic(k: State, c: int, n: nat)
    requires Inv(k) && n > 0
    ensures !WaitsFor(k, c, c, n)
  {
    if WaitsFor(k, c, c, n) {
      HostsAreOlder(k, c, c, n);
    }
  }

  /** A host sleeps on through every event until its own program exits, and is ready right after. */
  lemma WokenByItsChildOnly(k: State, e: Event, c: int, h: int)
    requires Inv(k) && InRange(k) && Enabled(k, e) && SafeEvent(k, e) && !Step(k, e).panicked
    requires ChildOf(k, c, h)
    ensures IsTid(h) && Hosting(k, h)
    ensures if e == SysExit && k.currentTid == c
            then Step(k, e).pool[h].status == Ready && h in Step(k, e).sched.ring && !Hosting(Step(k, e), h)
            else ChildOf(Step(k, e), c, h) && Hosting(Step(k, e), h)
  {
    assert LinkOk(k, c);
    match e
    case SysExit => HostAfterExit(k, c, h);
    case SysExec(found, s) =>
      assert SlotOk(k, k.currentTid);
      if found {
        ExecEffect(k, s);
      }
    case Spawn(t) =>
    case _ =>
      QuietEvents(k, e, c);
      QuietEvents(k, e, h);
  }

  lemma HostAfterExit(k: State, c: int, h: int)
    requires Inv(k) && InRange(k) && Enabled(k, SysExit) && SafeEvent(k, SysExit) && ChildOf(k, c, h)
    ensures IsTid(h) && Sized(Step(k, SysExit))
    ensures var b := Step(k, SysExit);
            if k.currentTid == c then b.pool[h].status == Ready && h in b.sched.ring && !Hosting(b, h)
            else ChildOf(b, c, h) && Hosting(b, h)
  {
    assert LinkOk(k, c);
    ExitFrees(k);
    ExitWakes(k);
    assert SlotOk(k, k.currentTid) && LinkOk(k, k.currentTid) && LinkApart(k, c, k.currentTid);
  }

  /**
   Along es: host h sleeps in exec for its program c up to the event with which c exits, and that event makes it
   ready; or c does not exit in es, and h sleeps to the end.
   */
  ghost predicate SleepsUntilExit(k: State, es: seq<Event>, c: int, h: int)
    requires Runnable(k, es)
    decreases |es|
  {
    && IsTid(h) && ChildOf(k, c, h) && Hosting(k, h)
    && (es == [] ||
        if es[0] == SysExit && k.currentTid == c then
          var b := Step(k, SysExit); b.pool[h].status == Ready && h in b.sched.ring && !Hosting(b, h)
        else SleepsUntilExit(Step(k, es[0]), es[1..], c, h))
  }

  /** In every run a host is woken by the exit of its own program, and by nothing before that. */
  lemma {:induction false} HostSleepsUntilExit(k: State, es: seq<Event>, c: int, h: int)
    requires Inv(k) && InRange(k) && Runnable(k, es) && !After(k, es).panicked && ChildOf(k, c, h)
    ensures SleepsUntilExit(k, es, c, h)
    decreases |es|
  {
    assert LinkOk(k, c);
    if es != [] {
      var k1 := Step(k, es[0]);
      PanicIsFinal(k1, es[1..]);
      WokenByItsChildOnly(k, es[0], c, h);
      if es[0] != SysExit || k.currentTid != c {
        StepKeepsInv(k, es[0]);
        HostSleepsUntilExit(k1, es[1..], c, h);
      }
    }
  }

  // ----- bounded waiting

  /** The number of dispatches among the events. */
  function Dispatches(es: seq<Event>): nat {
    if es == [] then 0 else One(es[0] == Dispatch) + Dispatches(es[1..])
  }

  lemma RingAfter(k: State, e: Event)
    requires Inv(k) && InRange(k) && Enabled(k, e)
    ensures e == Dispatch && k.sched.ring != [] ==> Step(k, e).sched.ring == k.sched.ring[1..]
    ensures e != Dispatch ==> k.sched.ring <= Step(k, e).sched.ring
    ensures Step(k, e).sched.maxTime == k.sched.maxTime
  {
    assert SlotOk(k, k.currentTid);
    if e == Dispatch && k.sched.ring != [] {
      AcquirePlaces(k);
      assert SlotOk(Acquire(k), Acquire(k).currentTid);
    }
  }

  /** After d further dispatches a ready thread has moved up by d places, whatever was pushed meanwhile. */
  lemma {:induction false} MovesUp(k: State, es: seq<Event>, p: nat)
    requires Inv(k) && InRange(k) && Runnable(k, es) && !After(k, es).panicked
    requires p < |k.sched.ring| && Dispatches(es) <= p
    ensures var b := After(k, es);
            p - Dispatches(es) < |b.sched.ring| && b.sched.ring[p - Dispatches(es)] == k.sched.ring[p]
    decreases |es|
  {
    hide Inv, InRange, Step, Enabled, SafeEvent;
    if es != [] {
      var k1 := Step(k, es[0]);
      StepKeepsInv(k, es[0]);
      PanicIsFinal(k1, es[1..]);
      if !k1.panicked {
        RingAfter(k, es[0]);
        MovesUp(k1, es[1..], if es[0] == Dispatch then p - 1 else p);
      }
    }
  }

  /** The thread in place p (fewer than MAX_THREAD are ever ahead of it) runs after exactly p other dispatches. */
  lemma RunsAfterItsTurn(k: State, es: seq<Event>, p: nat)
    requires Inv(k) && InRange(k) && Runnable(k, es) && !After(k, es).panicked && !After(k, es).busy
    requires p < |k.sched.ring| && Dispatches(es) == p
    ensures p < MAX_THREAD
    ensures var b := After(k, es);
            InRange(b) && Enabled(b, Dispatch) && Step(b, Dispatch).currentTid == k.sched.ring[p]
  {
    RingFits(k.sched.ring, MAX_THREAD);
    MovesUp(k, es, p);
    RunKeepsInv(k, es);
    var b := After(k, es);
    AcquirePlaces(b);
    CurrentKept(Acquire(b));
  }

  lemma CurrentKept(a: State)
    requires PlacesOk(a)
    ensures Continue(a).currentTid == a.currentTid
  {
    assert SlotOk(a, a.currentTid);
  }

  /** How many of the events are timer interrupts that hit a running thread. */
  function Ticks(k: State, es: seq<Event>): nat
    decreases |es|
  {
    if es == [] || !InRange(k) || !Enabled(k, es[0]) then 0
    else One(es[0] == Timer && k.busy) + Ticks(Step(k, es[0]), es[1..])
  }

  function SliceLeft(k: State): int {
    if k.busy && IsTid(k.currentTid) && Sized(k) then k.sched.time[k.currentTid] else 0
  }

  /** A tick uses up one unit of the running thread's slice; only a dispatch starts a new one. */
  lemma SliceAfter(k: State, e: Event)
    requires Inv(k) && InRange(k) && Enabled(k, e) && SafeEvent(k, e) && !Step(k, e).panicked
    ensures 0 <= SliceLeft(k) <= k.sched.maxTime && 0 <= SliceLeft(Step(k, e)) <= k.sched.maxTime
    ensures e != Dispatch ==> SliceLeft(Step(k, e)) + One(e == Timer && k.busy) <= SliceLeft(k)
  {
    StepKeepsInv(k, e);
    RingAfter(k, e);
    var b := Step(k, e);
    assert SlotOk(k, k.currentTid) && SliceOk(k, k.currentTid);
    assert SliceOk(b, b.currentTid);
    if e.CharArrives? && k.waiting != [] {
      assert SlotOk(k, k.waiting[0]);
    }
  }

  /** Each dispatch is followed by at most maxTime ticks before the next one. */
  lemma {:induction false} TicksPerDispatch(k: State, es: seq<Event>)
    requires Inv(k) && InRange(k) && Runnable(k, es) && !After(k, es).panicked
    ensures Ticks(k, es) <= SliceLeft(k) + Dispatches(es) * k.sched.maxTime
    decreases |es|
  {
    if es != [] {
      var k1 := Step(k, es[0]);
      StepKeepsInv(k, es[0]);
      PanicIsFinal(k1, es[1..]);
      if !k1.panicked {
        SliceAfter(k, es[0]);
        RingAfter(k, es[0]);
        TicksPerDispatch(k1, es[1..]);
        assert (Dispatches(es[1..]) + 1) * k.sched.maxTime == Dispatches(es[1..]) * k.sched.maxTime + k.sched.maxTime;
      }
    } else {
      assert SliceOk(k, k.currentTid);
    }
  }

  // ----- the first thread exits

  /** Every thread that exec did not make is in slot 0. */
  ghost predicate OneRoot(k: State) {
    forall t :: RootOrChild(k, t)
  }

  ghost predicate RootOrChild(k: State, t: int) {
    Sized(k) && IsTid(t) && k.pool[t].occupied ==> t == 0 || k.life[t].child
  }

  lemma StepKeepsOneRoot(k: State, e: Event)
    requires Inv(k) && InRange(k) && Enabled(k, e) && OneRoot(k) && !Step(k, e).panicked
    requires e.Spawn? ==> forall t | IsTid(t) :: !k.pool[t].occupied
    ensures OneRoot(Step(k, e))
  {
    forall t
      ensures RootOrChild(Step(k, e), t)
    {
      assert RootOrChild(k, t);
      match e
      case SysExit => ExitFrees(k);
      case SysExec(found, s) => if found { ExecEffect(k, s); }
      case Spawn(th) =>
      case _ => QuietEvents(k, e, t);
    }
  }

  /** As the kernel is booted, with one thread spawned before anything runs, only the exit of slot 0 can be unsafe. */
  lemma {:induction false} OnlyFirstThreadIsUnsafe(k: State, es: seq<Event>)
    requires Inv(k) && InRange(k) && OneRoot(k) && Runnable(k, es) && !After(k, es).panicked
    requires forall e | e in es :: !e.Spawn?
    ensures var b := After(k, es); Sized(b) && IsTid(b.currentTid) && OneRoot(b)
                                   && (b.busy && !ExitSafe(b) ==> b.currentTid == 0)
    decreases |es|
  {
    if es == [] {
      assert SlotOk(k, k.currentTid) && RootOrChild(k, k.currentTid);
    } else {
      var k1 := Step(k, es[0]);
      StepKeepsInv(k, es[0]);
      PanicIsFinal(k1, es[1..]);
      if !k1.panicked {
        StepKeepsOneRoot(k, es[0]);
        OnlyFirstThreadIsUnsafe(k1, es[1..]);
      }
    }
  }

  /**
   The kernel as it is: one thread with the default wait field is spawned, dispatched and exits. Its exit wakes
   slot 0, which is its own and free by now; the next dispatch runs on a freed stack.
   */
  lemma DeadThreadRuns(stack: int)
    ensures var k0 := Boot(); InRange(k0) && Enabled(k0, Spawn(Thread(stack, DEFAULT_WAIT)))
    ensures var k1 := Step(Boot(), Spawn(Thread(stack, DEFAULT_WAIT))); InRange(k1) && Enabled(k1, Dispatch)
    ensures var k2 := Step(Step(Boot(), Spawn(Thread(stack, DEFAULT_WAIT))), Dispatch);
            InRange(k2) && Enabled(k2, SysExit) && !SafeEvent(k2, SysExit)
    ensures var k3 := Step(Step(Step(Boot(), Spawn(Thread(stack, DEFAULT_WAIT))), Dispatch), SysExit);
            && k3.sched.ring == [0] && !k3.pool[0].occupied && k3.stacks == {}
            && InRange(k3) && Enabled(k3, Dispatch)
            && Step(k3, Dispatch).busy && Step(k3, Dispatch).currentTid == 0
            && Step(k3, Dispatch).current.kstack == stack && stack !in Step(k3, Dispatch).stacks
  {
    var k1 := Step(Boot(), Spawn(Thread(stack, DEFAULT_WAIT)));
    assert FirstFree(Boot().pool, 0) == 0;
    assert k1.sched.ring == [0];
    var k2 := Step(k1, Dispatch);
    assert k2.busy && k2.currentTid == 0 && k2.sched.ring == [];
    var k3 := Step(k2, SysExit);
    assert k3.sched.ring == [0];
  }

  lemma {:induction false} OneAfterAnother(k: State, es: seq<Event>, fs: seq<Event>)
    requires Runnable(k, es) && Runnable(After(k, es), fs)
    ensures Runnable(k, es + fs) && After(k, es + fs) == After(After(k, es), fs)
    decreases |es|
  {
    if es == [] {
      assert es + fs == fs;
    } else {
      OneAfterAnother(Step(k, es[0]), es[1..], fs);
      assert (es + fs)[1..] == es[1..] + fs;
    }
  }
}
