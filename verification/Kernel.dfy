/**
 The thread life cycle of kernel/processor.c, kernel/thread.c, kernel/condition.c,
 kernel/stdin.c and kernel/syscall.c as a step system. Trap handlers run with
 interrupts off, so a step is everything up to the next return to user mode or to
 the idle loop's wait for an interrupt.
 */
module Kernel {
  import opened Scheduler

  datatype Status = Ready | Running | Sleeping | Exited

  /** The fields of Thread that scheduling uses; wait is -1 or the tid to wake on exit. */
  datatype Thread = Thread(kstack: int, wait: int)

  datatype ThreadInfo = ThreadInfo(status: Status, tid: int, occupied: bool, thread: Thread)

  /** Where a thread's kernel stack goes on when it is switched to again. */
  datatype Resume = InUser | InRead | InExec

  /**
   What each slot's thread is besides the kernel's own record: where it resumes, whether exec made it,
   when it was born.
   */
  datatype Life = Life(resume: Resume, child: bool, born: nat)

  datatype State = State(
    pool: seq<ThreadInfo>,       // CPU.pool.threads
    sched: Sched,                // rrScheduler
    currentTid: int,             // CPU.current.tid
    current: Thread,             // CPU.current.thread
    busy: bool,                  // CPU.occupied
    buf: seq<int>,               // STDIN.buf
    waiting: seq<int>,           // STDIN.pushed.waitQueue
    stacks: set<int>,            // kernel stacks allocated and not yet freed
    panicked: bool,
    life: seq<Life>,
    clock: nat,
    pushed: seq<int>,            // every character that arrived
    delivered: seq<int>)         // every character that a read returned

  /** The value that partial initialisation leaves in Thread.wait (kernel/thread.c, newUserThread). */
  const DEFAULT_WAIT := 0

  predicate Sized(k: State) {
    |k.pool| == MAX_THREAD && |k.life| == MAX_THREAD && |k.sched.time| == MAX_THREAD
  }

  // ----- kernel/thread.c

  /** allocTid: the first free slot from i on, or -1. */
  function FirstFree(pool: seq<ThreadInfo>, i: nat): (r: int)
    requires i <= |pool|
    ensures r == -1 || i <= r < |pool|
    ensures r != -1 ==> !pool[r].occupied && forall j | i <= j < r :: pool[j].occupied
    ensures r == -1 ==> forall j | i <= j < |pool| :: pool[j].occupied
    decreases |pool| - i
  {
    if i == |pool| then -1
    else if !pool[i].occupied then i
    else FirstFree(pool, i + 1)
  }

  /** addToPool */
  function AddToPool(k: State, t: Thread, child: bool): State
    requires Sized(k)
  {
    var tid := FirstFree(k.pool, 0);
    if tid == -1 then k.(panicked := true)
    else k.(pool := k.pool[tid := ThreadInfo(Ready, k.pool[tid].tid, true, t)],
            sched := Pushed(k.sched, tid),
            life := k.life[tid := Life(InUser, child, k.clock)],
            clock := k.clock + 1)
  }

  /** acquireFromPool and the assignments of idleMain up to its switch. */
  function Acquire(k: State): State
    requires Sized(k) && (k.sched.ring != [] ==> IsTid(k.sched.ring[0]))
  {
    var (sched, tid) := Popped(k.sched);
    if tid == -1 then k
    else k.(sched := sched, pool := k.pool[tid := k.pool[tid].(status := Running, tid := tid)],
            currentTid := tid, current := k.pool[tid].thread, busy := true)
  }

  /** retrieveToPool, after a switch back to the idle thread. */
  function Retrieve(k: State): State
    requires Sized(k) && IsTid(k.currentTid)
  {
    var ti := k.pool[k.currentTid];
    if !ti.occupied then k.(stacks := k.stacks - {ti.thread.kstack})
    else if ti.status == Running then
      k.(pool := k.pool[k.currentTid := ti.(thread := k.current, status := Ready)],
         sched := Pushed(k.sched, k.currentTid))
    else k.(pool := k.pool[k.currentTid := ti.(thread := k.current)])
  }

  /** The switch to the idle thread and what idleMain does next. */
  function BackToIdle(k: State): State
    requires Sized(k) && IsTid(k.currentTid)
  {
    Retrieve(k.(busy := false))
  }

  // ----- kernel/processor.c

  /** wakeupCPU */
  function Wakeup(k: State, tid: int): State
    requires Sized(k) && IsTid(tid)
  {
    k.(pool := k.pool[tid := k.pool[tid].(status := Ready)], sched := Pushed(k.sched, tid))
  }

  /** yieldCPU; r is where the thread will go on. */
  function Yield(k: State, r: Resume): State
    requires Sized(k) && IsTid(k.currentTid)
  {
    if k.busy then
      var t := k.currentTid;
      BackToIdle(k.(pool := k.pool[t := k.pool[t].(status := Sleeping)], life := k.life[t := k.life[t].(resume := r)]))
    else k
  }

  // ----- kernel/condition.c and kernel/stdin.c

  function WaitForInput(k: State): State
    requires Sized(k) && IsTid(k.currentTid)
  {
    Yield(k.(waiting := k.waiting + [k.currentTid]), InRead)
  }

  function Notify(k: State): State
    requires Sized(k) && (k.waiting != [] ==> IsTid(k.waiting[0]))
  {
    if k.waiting == [] then k else Wakeup(k.(waiting := k.waiting[1..]), k.waiting[0])
  }

  function PushChar(k: State, c: int): State
    requires Sized(k) && (k.waiting != [] ==> IsTid(k.waiting[0]))
  {
    Notify(k.(buf := k.buf + [c], pushed := k.pushed + [c]))
  }

  /** One turn of popChar's loop for the current thread. */
  function PopChar(k: State): State
    requires Sized(k) && IsTid(k.currentTid)
  {
    if k.buf != [] then
      var t := k.currentTid;
      k.(buf := k.buf[1..], delivered := k.delivered + [k.buf[0]], life := k.life[t := k.life[t].(resume := InUser)])
    else WaitForInput(k)
  }

  // ----- the steps

  datatype Event =
    | Dispatch                          // the idle loop looks for a ready thread
    | Timer                             // a timer interrupt
    | CharArrives(c: int)               // an external interrupt with a character
    | Spawn(t: Thread)                  // addToCPU called by the kernel itself
    | SysRead
    | SysExec(found: bool, kstack: int) // whether lookup found the file; the new thread's stack
    | SysExit

  /** A newly switched-to thread goes on where its kernel stack left off. */
  function Continue(k: State): State
    requires Sized(k) && IsTid(k.currentTid)
  {
    if !k.busy then k
    else match k.life[k.currentTid].resume
      case InUser => k
      case InRead => PopChar(k)
      case InExec => k.(life := k.life[k.currentTid := k.life[k.currentTid].(resume := InUser)])
  }

  /** tickCPU */
  function TimerStep(k: State): State
    requires Sized(k) && IsTid(k.currentTid) && 0 <= k.sched.current <= MAX_THREAD
  {
    if !k.busy then k
    else
      var (sched, over) := Ticked(k.sched);
      if over then BackToIdle(k.(sched := sched)) else k.(sched := sched)
  }

  /** executeCPU followed, if it succeeded, by sysExec's yieldCPU. */
  function Exec(k: State, kstack: int): State
    requires Sized(k) && IsTid(k.currentTid)
  {
    var k1 := AddToPool(k.(stacks := k.stacks + {kstack}), Thread(kstack, k.currentTid), true);
    if k1.panicked then k1 else Yield(k1, InExec)
  }

  /** exitFromCPU */
  function ExitThread(k: State): State
    requires Sized(k) && IsTid(k.currentTid) && (k.current.wait == -1 || IsTid(k.current.wait))
  {
    var t := k.currentTid;
    var k1 := k.(pool := k.pool[t := k.pool[t].(occupied := false)], sched := AfterExit(k.sched, t));
    BackToIdle(if k.current.wait != -1 then Wakeup(k1, k.current.wait) else k1)
  }

  /** When an event can happen: system calls come from the running thread, allocation returns a fresh stack. */
  predicate Enabled(k: State, e: Event) {
    && !k.panicked
    && match e
       case Dispatch => !k.busy
       case Timer => true
       case CharArrives(_) => true
       case Spawn(t) => !k.busy && t.kstack !in k.stacks && (t.wait == -1 || IsTid(t.wait))
       case SysRead => k.busy
       case SysExec(_, s) => k.busy && s !in k.stacks
       case SysExit => k.busy
  }

  /** The parts of the state that the steps index with are in range. */
  predicate InRange(k: State) {
    && Sized(k)
    && IsTid(k.currentTid)
    && 0 <= k.sched.current <= MAX_THREAD
    && (k.current.wait == -1 || IsTid(k.current.wait))
    && (k.sched.ring != [] ==> IsTid(k.sched.ring[0]))
    && (k.waiting != [] ==> IsTid(k.waiting[0]))
  }

  function Step(k: State, e: Event): State
    requires InRange(k) && Enabled(k, e)
  {
    match e
    case Dispatch => Continue(Acquire(k))
    case Timer => TimerStep(k)
    case CharArrives(c) => PushChar(k, c)
    case Spawn(t) => AddToPool(k.(stacks := k.stacks + {t.kstack}), t, false)
    case SysRead => PopChar(k)
    case SysExec(found, s) => if found then Exec(k, s) else k
    case SysExit => ExitThread(k)
  }

  /** The state after initThread's set-up of the scheduler and the CPU. */
  function Boot(): State {
    State(seq(MAX_THREAD, _ => ThreadInfo(Ready, 0, false, Thread(0, -1))),
          Sched([], seq(MAX_THREAD, _ => 0), 1, 0),
          0, Thread(0, -1), false, [], [], {}, false,
          seq(MAX_THREAD, _ => Life(InUser, false, 0)), 0, [], [])
  }
}
