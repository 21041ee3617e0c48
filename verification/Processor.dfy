/**
 The kernel's own data structures (the pool array, the scheduler's ring, the two
 linked queues) and the code that updates them, proved against the step system
 of module Kernel. A call of switchThread ends the method: what the other side
 does next is the next method.
 */
module Processor {
  import opened Scheduler
  import opened Kernel
  import opened Places
  import opened Lifecycle
  import opened Runs
  import Programs
  import Queue

  class Cpu {
    const pool: array<ThreadInfo>
    const rr: RoundRobin
    var currentTid: int
    var current: Thread
    var busy: bool
    const buf: Queue.Queue
    const waiting: Queue.Queue
    ghost var stacks: set<int>
    var panicked: bool
    var life: seq<Life>
    var clock: nat
    ghost var pushed: seq<int>
    ghost var delivered: seq<int>

    ghost predicate Valid()
      reads this, pool, rr, rr.threads, buf, buf.spine, waiting, waiting.spine
    {
      && pool.Length == MAX_THREAD && |life| == MAX_THREAD
      && pool as object != rr.threads
      && rr.Valid() && buf.Valid() && waiting.Valid()
      && buf != waiting
      && buf.spine !! waiting.spine
    }

    /** The state that the fields represent. */
    ghost function A(): State
      requires Valid()
      reads this, pool, rr, rr.threads, buf, buf.spine, waiting, waiting.spine
    {
      State(pool[..], rr.A(), currentTid, current, busy, buf.Items(), waiting.Items(),
            stacks, panicked, life, clock, pushed, delivered)
    }

    /** initCPU, over an initialised scheduler and zeroed memory. */
    constructor ()
      ensures Valid() && A() == Boot()
      ensures fresh(pool) && fresh(rr) && fresh(rr.threads) && fresh(buf) && fresh(waiting)
      ensures fresh(buf.spine) && fresh(waiting.spine)
    {
      pool := new ThreadInfo[MAX_THREAD](_ => ThreadInfo(Ready, 0, false, Thread(0, -1)));
      rr := new RoundRobin();
      currentTid := 0;
      current := Thread(0, -1);
      busy := false;
      buf := new Queue.Queue();
      waiting := new Queue.Queue();
      stacks := {};
      panicked := false;
      life := seq(MAX_THREAD, _ => Life(InUser, false, 0));
      clock := 0;
      pushed := [];
      delivered := [];
      new;
      assert pool[..] == Boot().pool;
    }

    // ----- kernel/thread.c

    /** allocTid */
    method AllocTid() returns (r: int)
      requires Valid()
      ensures r == FirstFree(pool[..], 0)
    {
      for i := 0 to MAX_THREAD
        invariant FirstFree(pool[..], 0) == FirstFree(pool[..], i)
      {
        if !pool[i].occupied {
          return i;
        }
      }
      return -1;
    }

    /** pool->threads[tid] = info */
    method SetSlot(tid: int, info: ThreadInfo)
      requires Valid() && IsTid(tid)
      modifies pool
      ensures Valid() && A() == old(A()).(pool := old(pool[..])[tid := info])
    {
      hide Linked, Times, RoundRobin.Valid, RoundRobin.A, Queue.Queue.Valid, Queue.Queue.Items;
      pool[tid] := info;
    }

    /** pool->scheduler.push(tid) */
    method PushReady(tid: int)
      requires Valid() && IsTid(tid) && tid !in rr.ring
      modifies rr, rr.threads
      ensures Valid() && A() == old(A()).(sched := Pushed(old(A()).sched, tid))
    {
      hide Linked, Times, RoundRobin.Valid, RoundRobin.A, Queue.Queue.Valid, Queue.Queue.Items;
      var ok := rr.Push(tid);
    }

    /** addToPool; false stands for allocTid's panic. */
    method AddToPool(t: Thread, child: bool) returns (ok: bool)
      requires Valid() && FirstFree(pool[..], 0) !in rr.ring
      modifies this, pool, rr, rr.threads
      ensures Valid() && A() == Kernel.AddToPool(old(A()), t, child)
      ensures ok <==> FirstFree(old(pool[..]), 0) != -1
    {
      hide Linked, Times, RoundRobin.Valid, RoundRobin.A, Queue.Queue.Valid, Queue.Queue.Items;
      var tid := AllocTid();
      if tid == -1 {
        panicked := true;
        return false;
      }
      SetSlot(tid, ThreadInfo(Ready, pool[tid].tid, true, t));
      PushReady(tid);
      ok := true;
      life := life[tid := Life(InUser, child, clock)];
      clock := clock + 1;
    }

    /** pool->scheduler.pop() */
    method PopReady() returns (tid: int)
      requires Valid()
      modifies rr, rr.threads
      ensures Valid() && A() == old(A()).(sched := Popped(old(A()).sched).0)
      ensures tid == Popped(old(A()).sched).1 && (tid == -1 || IsTid(tid))
      ensures tid == -1 <==> old(A()).sched.ring == []
    {
      assert rr.ring == A().sched.ring && (rr.ring == [] || IsTid(rr.ring[0]));
      hide Linked, Times, RoundRobin.Valid, RoundRobin.A, Queue.Queue.Valid, Queue.Queue.Items;
      tid := rr.Pop();
    }

    /** CPU.current = ...; CPU.occupied = 1 */
    method SetCurrent(tid: int, t: Thread)
      requires Valid()
      modifies this
      ensures Valid() && A() == old(A()).(currentTid := tid, current := t, busy := true)
    {
      hide Linked, Times, RoundRobin.Valid, RoundRobin.A, Queue.Queue.Valid, Queue.Queue.Items;
      currentTid := tid;
      current := t;
      busy := true;
    }

    /** acquireFromPool, and the first half of idleMain's loop: -1 if no thread is ready. */
    method Acquire() returns (tid: int)
      requires Valid()
      modifies this, pool, rr, rr.threads
      ensures Valid() && A() == Kernel.Acquire(old(A()))
      ensures tid == -1 <==> old(A()).sched.ring == []
      ensures IsTid(old(currentTid)) ==> IsTid(currentTid)
    {
      assert Sized(A());
      hide Linked, Times, RoundRobin.Valid, RoundRobin.A, Queue.Queue.Valid, Queue.Queue.Items;
      tid := PopReady();
      if tid != -1 {
        SetSlot(tid, pool[tid].(status := Running, tid := tid));
        SetCurrent(tid, pool[tid].thread);
      }
    }

    /** idleMain after the switch back to it, with retrieveToPool. */
    method BackToIdle()
      requires Valid() && IsTid(currentTid)
      requires pool[currentTid].occupied && pool[currentTid].status == Running ==> currentTid !in rr.ring
      modifies this, pool, rr, rr.threads
      ensures Valid() && A() == Kernel.BackToIdle(old(A()))
    {
      hide Linked, Times, RoundRobin.Valid, RoundRobin.A, Queue.Queue.Valid, Queue.Queue.Items;
      busy := false;
      var tid := currentTid;
      if !pool[tid].occupied {
        stacks := stacks - {pool[tid].thread.kstack};
        return;
      }
      SetSlot(tid, pool[tid].(thread := current));
      if pool[tid].status == Running {
        SetSlot(tid, pool[tid].(status := Ready));
        PushReady(tid);
      }
    }

    // ----- kernel/processor.c

    /** wakeupCPU */
    method Wakeup(tid: int)
      requires Valid() && IsTid(tid) && tid !in rr.ring
      modifies pool, rr, rr.threads
      ensures Valid() && A() == Kernel.Wakeup(old(A()), tid)
    {
      hide Linked, Times, RoundRobin.Valid, RoundRobin.A, Queue.Queue.Valid, Queue.Queue.Items;
      SetSlot(tid, pool[tid].(status := Ready));
      PushReady(tid);
    }

    /** yieldCPU up to the switch, and what idleMain does then. */
    method Yield(r: Resume)
      requires Valid() && IsTid(currentTid)
      modifies this, pool, rr, rr.threads
      ensures Valid() && A() == Kernel.Yield(old(A()), r)
    {
      hide Linked, Times, RoundRobin.Valid, RoundRobin.A, Queue.Queue.Valid, Queue.Queue.Items;
      if busy {
        var tid := currentTid;
        SetSlot(tid, pool[tid].(status := Sleeping));
        life := life[tid := life[tid].(resume := r)];
        BackToIdle();
      }
    }

    /** tickCPU */
    method TimerTick()
      requires Valid() && IsTid(currentTid) && (busy ==> currentTid !in rr.ring)
      modifies this, pool, rr, rr.threads
      ensures Valid() && A() == TimerStep(old(A()))
    {
      hide Linked, Times, RoundRobin.Valid, RoundRobin.A, Queue.Queue.Valid, Queue.Queue.Items;
      if busy {
        var over := rr.Tick();
        if over == 1 {
          BackToIdle();
        }
      }
    }

    /** exitFromCPU */
    method ExitFromCpu()
      requires Valid() && IsTid(currentTid)
      requires current.wait == -1 || (IsTid(current.wait) && current.wait !in rr.ring)
      modifies this, pool, rr, rr.threads
      ensures Valid() && A() == ExitThread(old(A()))
    {
      hide Linked, Times, RoundRobin.Valid, RoundRobin.A, Queue.Queue.Valid, Queue.Queue.Items;
      var tid := currentTid;
      SetSlot(tid, pool[tid].(occupied := false));
      rr.Exit(tid);
      if current.wait != -1 {
        Wakeup(current.wait);
      }
      BackToIdle();
    }

    /** executeCPU once lookup found the file, and sysExec's yieldCPU. */
    method ExecuteCpu(kstack: int)
      requires Valid() && IsTid(currentTid) && FirstFree(pool[..], 0) !in rr.ring && !panicked
      modifies this, pool, rr, rr.threads
      ensures Valid() && A() == Exec(old(A()), kstack)
    {
      hide Linked, Times, RoundRobin.Valid, RoundRobin.A, Queue.Queue.Valid, Queue.Queue.Items;
      var t := Thread(kstack, currentTid);
      stacks := stacks + {kstack};
      var ok := AddToPool(t, true);
      if ok {
        Yield(InExec);
      }
    }

    // ----- kernel/condition.c and kernel/stdin.c

    /** waitCondition on STDIN.pushed */
    method WaitCondition()
      requires Valid() && IsTid(currentTid)
      modifies this, pool, rr, rr.threads, waiting, waiting.spine
      ensures Valid() && A() == WaitForInput(old(A()))
      ensures fresh(waiting.spine - old(waiting.spine))
    {
      hide Linked, Times, RoundRobin.Valid, RoundRobin.A, Queue.Queue.Valid, Queue.Queue.Items;
      waiting.PushBack(currentTid);
      Yield(InRead);
    }

    /** notifyCondition on STDIN.pushed */
    method NotifyCondition()
      requires Valid() && (waiting.Items() != [] ==> IsTid(waiting.Items()[0]) && waiting.Items()[0] !in rr.ring)
      modifies this, pool, rr, rr.threads, waiting
      ensures Valid() && A() == Notify(old(A()))
      ensures waiting.spine == old(waiting.spine)
    {
      hide Linked, Times, RoundRobin.Valid, RoundRobin.A, Queue.Queue.Valid, Queue.Queue.Items;
      var empty := waiting.IsEmpty();
      if empty == 0 {
        var tid := waiting.PopFront();
        Wakeup(tid);
      }
    }

    /** pushChar */
    method PushChar(ch: int)
      requires Valid() && (waiting.Items() != [] ==> IsTid(waiting.Items()[0]) && waiting.Items()[0] !in rr.ring)
      modifies this, pool, rr, rr.threads, waiting, buf, buf.spine
      ensures Valid() && A() == Kernel.PushChar(old(A()), ch)
      ensures fresh(buf.spine - old(buf.spine)) && waiting.spine == old(waiting.spine)
    {
      hide Linked, Times, RoundRobin.Valid, RoundRobin.A, Queue.Queue.Valid, Queue.Queue.Items;
      buf.PushBack(ch);
      pushed := pushed + [ch];
      NotifyCondition();
    }

    /** One turn of popChar's loop; ret is the character, or -1 if the thread went to sleep. */
    method PopChar() returns (ret: int)
      requires Valid() && IsTid(currentTid)
      modifies this, pool, rr, rr.threads, waiting, waiting.spine, buf
      ensures Valid() && A() == Kernel.PopChar(old(A()))
      ensures fresh(waiting.spine - old(waiting.spine)) && buf.spine == old(buf.spine)
      ensures old(A()).buf != [] ==> ret == old(A()).buf[0]
    {
      hide Linked, Times, RoundRobin.Valid, RoundRobin.A, Queue.Queue.Valid, Queue.Queue.Items;
      var empty := buf.IsEmpty();
      if empty == 0 {
        ret := buf.PopFront();
        delivered := delivered + [ret];
        life := life[currentTid := life[currentTid].(resume := InUser)];
      } else {
        WaitCondition();
        ret := -1;
      }
    }

    // ----- whole steps

    /** Where the thread that was switched to goes on: what lies on its kernel stack. */
    method Continue()
      requires Valid() && IsTid(currentTid)
      modifies this, pool, rr, rr.threads, waiting, waiting.spine, buf
      ensures Valid() && A() == Kernel.Continue(old(A()))
      ensures fresh(waiting.spine - old(waiting.spine)) && buf.spine == old(buf.spine)
    {
      hide Linked, Times, RoundRobin.Valid, RoundRobin.A, Queue.Queue.Valid, Queue.Queue.Items;
      if busy {
        match life[currentTid].resume
        case InUser =>
        case InRead =>
          var c := PopChar();
        case InExec =>
          life := life[currentTid := life[currentTid].(resume := InUser)];
      }
    }

    /** One turn of idleMain's loop, up to the thread's next return to user mode or to the loop. */
    method RunNext()
      requires Valid() && IsTid(currentTid)
      modifies this, pool, rr, rr.threads, waiting, waiting.spine, buf
      ensures Valid() && A() == Kernel.Continue(Kernel.Acquire(old(A())))
      ensures fresh(waiting.spine - old(waiting.spine)) && buf.spine == old(buf.spine)
    {
      hide Linked, Times, RoundRobin.Valid, RoundRobin.A, Queue.Queue.Valid, Queue.Queue.Items;
      var tid := Acquire();
      Continue();
    }

    /** addToCPU for a thread that the kernel itself makes. */
    method SpawnThread(t: Thread)
      requires Valid() && FirstFree(pool[..], 0) !in rr.ring
      modifies this, pool, rr, rr.threads
      ensures Valid()
      ensures A() == Kernel.AddToPool(old(A()).(stacks := old(stacks) + {t.kstack}), t, false)
    {
      hide Linked, Times, RoundRobin.Valid, RoundRobin.A, Queue.Queue.Valid, Queue.Queue.Items;
      stacks := stacks + {t.kstack};
      var ok := AddToPool(t, false);
    }

    /** Whatever happens next. */
    method Perform(e: Event)
      requires Valid() && PlacesOk(A()) && InRange(A()) && Enabled(A(), e)
      requires e == SysExit ==> current.wait == -1 || Wakeable(A(), current.wait)
      modifies this, pool, rr, rr.threads, waiting, waiting.spine, buf, buf.spine
      ensures Valid() && A() == Step(old(A()), e)
      ensures fresh(waiting.spine - old(waiting.spine)) && fresh(buf.spine - old(buf.spine))
    {
      PlacesSuffice(A());
      match e
      case Dispatch => RunNext();
      case Timer => TimerTick();
      case CharArrives(c) => PushChar(c);
      case Spawn(t) => SpawnThread(t);
      case SysRead =>
        var c := PopChar();
      case SysExec(found, kstack) =>
        if found {
          ExecuteCpu(kstack);
        }
      case SysExit => ExitFromCpu();
    }

    /** A whole run: the data structures end up in the state that the step system's run ends in. */
    method PerformAll(es: seq<Event>)
      requires Valid() && Inv(A()) && InRange(A()) && Runnable(A(), es)
      modifies this, pool, rr, rr.threads, waiting, waiting.spine, buf, buf.spine
      ensures Valid() && A() == After(old(A()), es)
    {
      hide Inv, InRange, PlacesOk, Step, Enabled, SafeEvent, ExitSafe, Wakeable, RoundRobin.Valid, RoundRobin.A;
      hide Queue.Queue.Valid, Queue.Queue.Items;
      ghost var k := A();
      for i := 0 to |es|
        invariant Valid() && (A().panicked || (Inv(A()) && InRange(A())))
        invariant Runnable(A(), es[i..]) && After(A(), es[i..]) == After(k, es)
        invariant fresh(waiting.spine - old(waiting.spine)) && fresh(buf.spine - old(buf.spine))
      {
        PanicIsFinal(A(), es[i..]);
        assert es[i..][1..] == es[i + 1..] && es[i..][0] == es[i];
        StepKeepsInv(A(), es[i]);
        SafeEventsFit(A(), es[i]);
        Perform(es[i]);
      }
    }
  }

  /** The machine that programs see when nothing has been started. */
  function NoPrograms(): Programs.Machine {
    Programs.Machine(map[], Programs.NONE, [], [], {}, {}, seq(MAX_THREAD, _ => 0), 1, [], [])
  }

  lemma BootMeans()
    ensures Programs.Meaning(Boot()) == NoPrograms()
  {
    assert Programs.ThreadsOf(Boot()) == map[];
    assert Programs.WokenOf(Boot()) == {} && Programs.HostsOf(Boot()) == {};
  }

  /** From the boot on, the data structures stand for what the programs see. */
  method RunFromBoot(es: seq<Event>) returns (cpu: Cpu)
    requires Runnable(Boot(), es)
    ensures cpu.Valid() && cpu.A() == After(Boot(), es)
    ensures !cpu.A().panicked ==>
      Sized(cpu.A()) && Programs.Meaning(cpu.A()) == Programs.NextAll(NoPrograms(), es)
  {
    cpu := new Cpu();
    BootInv();
    BootMeans();
    hide Inv, Programs.Meaning, Programs.Next, Boot;
    cpu.PerformAll(es);
    if !cpu.A().panicked {
      Programs.RunIsNext(Boot(), es);
    }
  }

  /** What the methods ask of their callers holds in every state whose places are right. */
  lemma PlacesSuffice(k: State)
    requires PlacesOk(k)
    ensures FirstFree(k.pool, 0) !in k.sched.ring
    ensures k.busy ==> k.currentTid !in k.sched.ring
    ensures k.waiting != [] ==> IsTid(k.waiting[0]) && k.waiting[0] !in k.sched.ring
    ensures k.current.wait != -1 && Wakeable(k, k.current.wait) ==> k.current.wait !in k.sched.ring
  {
    assert SlotOk(k, FirstFree(k.pool, 0)) && SlotOk(k, k.currentTid) && SlotOk(k, k.current.wait);
    if k.waiting != [] {
      assert SlotOk(k, k.waiting[0]);
    }
  }

  /** What a safe event finds in a state that meets the invariant. */
  lemma SafeEventsFit(k: State, e: Event)
    requires Inv(k) && InRange(k) && Enabled(k, e) && SafeEvent(k, e)
    ensures PlacesOk(k) && (e == SysExit ==> k.current.wait == -1 || Wakeable(k, k.current.wait))
  {
    if e == SysExit {
      ExitWakes(k);
    }
  }
}
