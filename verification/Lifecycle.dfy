/**
 What every run of the kernel keeps: kernel stacks, the forest of programs waiting
 for programs, and input characters; and what goes wrong when the first thread exits.
 */
module Lifecycle {
  import opened Scheduler
  import opened Kernel
  import opened Places

  // ----- kernel stacks

  ghost predicate StackOk(k: State, t: int) {
    Sized(k) && IsTid(t) && k.pool[t].occupied ==> k.pool[t].thread.kstack in k.stacks
  }

  ghost predicate StackApart(k: State, t: int, u: int) {
    Sized(k) && IsTid(t) && IsTid(u) && t != u && k.pool[t].occupied && k.pool[u].occupied ==>
      k.pool[t].thread.kstack != k.pool[u].thread.kstack
  }

  ghost predicate Owns(k: State, t: int, s: int) {
    Sized(k) && IsTid(t) && k.pool[t].occupied && k.pool[t].thread.kstack == s
  }

  ghost predicate Owned(k: State, s: int) {
    s in k.stacks ==> exists t :: Owns(k, t, s)
  }

  /** The allocated stacks are those of the occupied slots, one each. */
  ghost predicate StacksOk(k: State) {
    && (forall t :: StackOk(k, t))
    && (forall t, u :: StackApart(k, t, u))
    && (forall s :: Owned(k, s))
  }

  /** Slot t is occupied in both states or neither, with the same thread. */
  ghost predicate SameThread(a: State, b: State, t: int) {
    Sized(a) && Sized(b) && IsTid(t) ==>
      && b.pool[t].occupied == a.pool[t].occupied
      && b.pool[t].thread == a.pool[t].thread
      && b.life[t].child == a.life[t].child
      && b.life[t].born == a.life[t].born
  }

  lemma SameStacks(a: State, b: State)
    requires Sized(a) && Sized(b) && StacksOk(a) && b.stacks == a.stacks && forall t :: SameThread(a, b, t)
    ensures StacksOk(b)
  {
    forall t
      ensures StackOk(b, t)
    {
      assert StackOk(a, t) && SameThread(a, b, t);
    }
    forall t, u
      ensures StackApart(b, t, u)
    {
      assert StackApart(a, t, u) && SameThread(a, b, t) && SameThread(a, b, u);
    }
    forall s
      ensures Owned(b, s)
    {
      assert Owned(a, s);
      if s in a.stacks {
        var t :| Owns(a, t, s);
        assert SameThread(a, b, t) && Owns(b, t, s);
      }
    }
  }

  lemma AddStacks(k: State, th: Thread, child: bool)
    requires PlacesOk(k) && StacksOk(k) && th.kstack !in k.stacks
    ensures var b := AddToPool(k.(stacks := k.stacks + {th.kstack}), th, child); b.panicked || StacksOk(b)
  {
    var b, x := AddToPool(k.(stacks := k.stacks + {th.kstack}), th, child), FirstFree(k.pool, 0);
    if x != -1 {
      forall t
        ensures StackOk(b, t)
      {
        assert StackOk(k, t);
      }
      forall t, u
        ensures StackApart(b, t, u)
      {
        assert StackApart(k, t, u) && StackOk(k, t) && StackOk(k, u);
      }
      forall s
        ensures Owned(b, s)
      {
        assert Owned(k, s);
        if s == th.kstack {
          assert Owns(b, x, s);
        } else if s in k.stacks {
          var t :| Owns(k, t, s);
          assert Owns(b, t, s);
        }
      }
    }
  }

  lemma YieldThread(k: State, t: int)
    requires PlacesOk(k) && k.busy
    ensures SameThread(k, Yield(k, InExec), t) && Yield(k, InExec).stacks == k.stacks
  {
    assert SlotOk(k, k.currentTid);
  }

  lemma ExecStacks(k: State, s: int)
    requires PlacesOk(k) && StacksOk(k) && k.busy && s !in k.stacks
    ensures Exec(k, s).panicked || StacksOk(Exec(k, s))
  {
    var th := Thread(s, k.currentTid);
    AddStacks(k, th, true);
    StacksArePassive(k, k.stacks + {s});
    AddPlaces(k.(stacks := k.stacks + {s}), th, true);
    var k1 := AddToPool(k.(stacks := k.stacks + {s}), th, true);
    if !k1.panicked {
      forall t
        ensures SameThread(k1, Exec(k, s), t)
      {
        YieldThread(k1, t);
      }
      YieldThread(k1, 0);
      SameStacks(k1, Exec(k, s));
    }
  }

  /** An exit frees the stack of the exiting thread, and that one only. */
  lemma ExitFrees(k: State)
    requires PlacesOk(k) && k.busy && (k.current.wait == -1 || IsTid(k.current.wait))
    ensures ExitThread(k).stacks == k.stacks - {k.pool[k.currentTid].thread.kstack}
    ensures forall t | IsTid(t) && t != k.currentTid ::
              && ExitThread(k).pool[t].occupied == k.pool[t].occupied
              && ExitThread(k).pool[t].thread == k.pool[t].thread
              && ExitThread(k).life[t] == k.life[t]
    ensures !ExitThread(k).pool[k.currentTid].occupied
  {
  }

  lemma ExitStacks(k: State)
    requires PlacesOk(k) && StacksOk(k) && k.busy && (k.current.wait == -1 || IsTid(k.current.wait))
    ensures k.pool[k.currentTid].thread.kstack in k.stacks
    ensures StacksOk(ExitThread(k))
  {
    var b, x := ExitThread(k), k.currentTid;
    ExitFrees(k);
    assert SlotOk(k, x) && StackOk(k, x);
    forall t
      ensures StackOk(b, t)
    {
      assert StackOk(k, t) && StackApart(k, t, x);
    }
    forall t, u
      ensures StackApart(b, t, u)
    {
      assert StackApart(k, t, u);
    }
    forall s
      ensures Owned(b, s)
    {
      assert Owned(k, s);
      if s in b.stacks {
        var t :| Owns(k, t, s);
        assert Owns(b, t, s);
      }
    }
  }

  // ----- programs that wait for programs

  /** Slot h's thread sleeps in the exec system call. */
  ghost predicate Hosting(k: State, h: int) {
    Sized(k) && IsTid(h) && k.pool[h].occupied && k.pool[h].status == Sleeping && k.life[h].resume == InExec
  }

  /** Slot c holds a thread that exec made. */
  ghost predicate IsChild(k: State, c: int) {
    Sized(k) && IsTid(c) && k.pool[c].occupied && k.life[c].child
  }

  /** A program's wait field names its host: an older thread asleep in exec. */
  ghost predicate LinkOk(k: State, c: int) {
    Sized(k) && IsTid(c) && k.pool[c].occupied ==>
      var w := k.pool[c].thread.wait;
      && (w == -1 || IsTid(w))
      && k.life[c].born < k.clock
      && (k.life[c].child ==> w != -1 && w != c && Hosting(k, w) && k.life[w].born < k.life[c].born)
  }

  ghost predicate LinkApart(k: State, c: int, d: int) {
    IsChild(k, c) && IsChild(k, d) && c != d ==> k.pool[c].thread.wait != k.pool[d].thread.wait
  }

  ghost predicate ChildOf(k: State, c: int, h: int) {
    IsChild(k, c) && k.pool[c].thread.wait == h
  }

  ghost predicate Hosted(k: State, h: int) {
    Hosting(k, h) ==> exists c :: ChildOf(k, c, h)
  }

  /** Hosts and programs are paired off one to one, hosts being older. */
  ghost predicate LinksOk(k: State) {
    && (forall c :: LinkOk(k, c))
    && (forall c, d :: LinkApart(k, c, d))
    && (forall h :: Hosted(k, h))
  }

  lemma SameLinks(a: State, b: State)
    requires Sized(a) && Sized(b) && LinksOk(a) && b.clock == a.clock
    requires forall t :: SameThread(a, b, t)
    requires forall t :: Hosting(b, t) <==> Hosting(a, t)
    ensures LinksOk(b)
  {
    forall c
      ensures LinkOk(b, c)
    {
      assert LinkOk(a, c) && SameThread(a, b, c);
      if IsTid(c) {
        assert SameThread(a, b, a.pool[c].thread.wait);
      }
    }
    forall c, d
      ensures LinkApart(b, c, d)
    {
      assert LinkApart(a, c, d) && SameThread(a, b, c) && SameThread(a, b, d);
    }
    forall h
      ensures Hosted(b, h)
    {
      assert Hosted(a, h);
      if Hosting(a, h) {
        var c :| ChildOf(a, c, h);
        assert SameThread(a, b, c) && ChildOf(b, c, h);
      }
    }
  }

  /** State b has the same threads, stacks and hosts as a, as far as slot t is concerned. */
  ghost predicate Quiet(a: State, b: State, t: int) {
    SameThread(a, b, t) && (Hosting(b, t) <==> Hosting(a, t)) && b.stacks == a.stacks && b.clock == a.clock
  }

  lemma PopCharQuiet(k: State, t: int)
    requires PlacesOk(k) && k.busy
    ensures Quiet(k, PopChar(k), t)
  {
    assert SlotOk(k, k.currentTid) && SlotOk(k, t);
  }

  lemma DispatchQuiet(k: State, t: int)
    requires PlacesOk(k) && InRange(k) && !k.busy
    ensures Quiet(k, Continue(Acquire(k)), t)
  {
    assert SlotOk(k, t);
    if k.sched.ring != [] {
      var a := Acquire(k);
      assert SlotOk(k, k.sched.ring[0]);
      AcquirePlaces(k);
      if a.life[a.currentTid].resume == InRead {
        PopCharQuiet(a, t);
      }
    }
  }

  lemma TimerQuiet(k: State, t: int)
    requires PlacesOk(k)
    ensures Quiet(k, TimerStep(k), t)
  {
    assert SlotOk(k, k.currentTid) && SlotOk(k, t);
  }

  lemma PushCharQuiet(k: State, c: int, t: int)
    requires PlacesOk(k) && InRange(k)
    ensures Quiet(k, PushChar(k, c), t)
  {
    assert SlotOk(k, t);
    if k.waiting != [] {
      assert SlotOk(k, k.waiting[0]);
    }
  }

  /** Dispatching, timer ticks, characters and reads change no slot's thread and no host. */
  lemma QuietEvents(k: State, e: Event, t: int)
    requires PlacesOk(k) && InRange(k) && Enabled(k, e) && !e.Spawn? && !e.SysExec? && !e.SysExit?
    ensures Quiet(k, Step(k, e), t)
  {
    match e
    case Dispatch => DispatchQuiet(k, t);
    case Timer => TimerQuiet(k, t);
    case CharArrives(c) => PushCharQuiet(k, c, t);
    case SysRead => PopCharQuiet(k, t);
  }

  lemma AddLinks(k: State, th: Thread)
    requires PlacesOk(k) && LinksOk(k) && (th.wait == -1 || IsTid(th.wait))
    ensures AddToPool(k, th, false).panicked || LinksOk(AddToPool(k, th, false))
  {
    var b, x := AddToPool(k, th, false), FirstFree(k.pool, 0);
    if x != -1 {
      forall c
        ensures LinkOk(b, c)
      {
        assert LinkOk(k, c);
      }
      forall c, d
        ensures LinkApart(b, c, d)
      {
        assert LinkApart(k, c, d);
      }
      forall h
        ensures Hosted(b, h)
      {
        assert Hosted(k, h);
        if Hosting(b, h) {
          assert Hosting(k, h);
          var c :| ChildOf(k, c, h);
          assert ChildOf(b, c, h);
        }
      }
    }
  }

  /** A successful exec puts the caller to sleep and starts one new thread that will wake it. */
  lemma ExecEffect(k: State, s: int)
    requires PlacesOk(k) && k.busy && !Exec(k, s).panicked
    ensures var b, x := Exec(k, s), FirstFree(k.pool, 0);
            && IsTid(x) && !k.pool[x].occupied && x != k.currentTid
            && b.pool[x].occupied && b.pool[x].thread == Thread(s, k.currentTid)
            && b.pool[x].status == Ready && b.life[x] == Life(InUser, true, k.clock)
            && Hosting(b, k.currentTid) && b.clock == k.clock + 1
            && b.life[k.currentTid] == k.life[k.currentTid].(resume := InExec)
            && (forall t | IsTid(t) && t != x ::
                  b.pool[t].occupied == k.pool[t].occupied && b.pool[t].thread == k.pool[t].thread)
            && (forall t | IsTid(t) && t != x && t != k.currentTid :: b.pool[t] == k.pool[t] && b.life[t] == k.life[t])
  {
    assert SlotOk(k, k.currentTid);
  }

  lemma ExecLinks(k: State, s: int)
    requires PlacesOk(k) && LinksOk(k) && k.busy
    ensures Exec(k, s).panicked || LinksOk(Exec(k, s))
  {
    if !Exec(k, s).panicked {
      var b, x, h := Exec(k, s), FirstFree(k.pool, 0), k.currentTid;
      ExecEffect(k, s);
      assert SlotOk(k, h) && LinkOk(k, h);
      hide Exec, AddToPool, FirstFree;
      forall c
        ensures LinkOk(b, c)
      {
        assert LinkOk(k, c);
      }
      forall c, d
        ensures LinkApart(b, c, d)
      {
        assert LinkApart(k, c, d) && LinkOk(k, c) && LinkOk(k, d);
      }
      forall g
        ensures Hosted(b, g)
      {
        assert Hosted(k, g);
        if g == h {
          assert ChildOf(b, x, g);
        } else if Hosting(b, g) {
          assert Hosting(k, g);
          var c :| ChildOf(k, c, g);
          assert ChildOf(b, c, g);
        }
      }
    }
  }

  /** The exiting thread waits for nobody, or was made by exec. */
  predicate ExitSafe(k: State)
    requires Sized(k) && IsTid(k.currentTid)
  {
    k.current.wait == -1 || k.life[k.currentTid].child
  }

  lemma ExitWakes(k: State)
    requires PlacesOk(k) && LinksOk(k) && k.busy && ExitSafe(k)
    ensures k.current.wait == -1 || Wakeable(k, k.current.wait)
  {
    assert SlotOk(k, k.currentTid) && LinkOk(k, k.currentTid);
  }

  lemma ExitLinks(k: State)
    requires PlacesOk(k) && LinksOk(k) && k.busy && ExitSafe(k)
    requires k.current.wait == -1 || IsTid(k.current.wait)
    ensures LinksOk(ExitThread(k))
  {
    var b, x, w := ExitThread(k), k.currentTid, k.current.wait;
    ExitWakes(k);
    ExitFrees(k);
    assert SlotOk(k, x) && LinkOk(k, x);
    forall c
      ensures LinkOk(b, c)
    {
      assert LinkOk(k, c) && LinkApart(k, c, x);
    }
    forall c, d
      ensures LinkApart(b, c, d)
    {
      assert LinkApart(k, c, d);
    }
    forall h
      ensures Hosted(b, h)
    {
      assert Hosted(k, h);
      if Hosting(b, h) {
        assert Hosting(k, h) && h != w;
        var c :| ChildOf(k, c, h);
        assert ChildOf(b, c, h);
      }
    }
  }

  // ----- input

  /** How many threads of the list will look for a character when they run. */
  function Readers(ring: seq<int>, life: seq<Life>): nat {
    if ring == [] then 0
    else (if 0 <= ring[0] < |life| && life[ring[0]].resume == InRead then 1 else 0) + Readers(ring[1..], life)
  }

  /** Characters come out in the order they went in, and none waits while all readers sleep. */
  ghost predicate InputOk(k: State) {
    && k.delivered + k.buf == k.pushed
    && (k.waiting != [] ==> |k.buf| <= Readers(k.sched.ring, k.life))
  }

  lemma {:induction false} ReadersSnoc(ring: seq<int>, x: int, life: seq<Life>)
    ensures Readers(ring + [x], life) == Readers(ring, life) + Readers([x], life)
  {
    if ring == [] {
      assert ring + [x] == [x];
    } else {
      assert (ring + [x])[1..] == ring[1..] + [x];
      ReadersSnoc(ring[1..], x, life);
    }
  }

  lemma {:induction false} ReadersElsewhere(ring: seq<int>, life: seq<Life>, t: int, l: Life)
    requires 0 <= t < |life| && t !in ring
    ensures Readers(ring, life[t := l]) == Readers(ring, life)
  {
    if ring != [] {
      ReadersElsewhere(ring[1..], life, t, l);
    }
  }

  lemma PopCharInput(k: State, woken: bool)
    requires PlacesOk(k) && k.busy
    requires k.delivered + k.buf == k.pushed
    requires k.waiting != [] ==> |k.buf| <= Readers(k.sched.ring, k.life) + One(woken)
    requires woken ==> k.life[k.currentTid].resume == InRead
    ensures InputOk(PopChar(k))
  {
    var t := k.currentTid;
    assert SlotOk(k, t);
    if k.buf != [] {
      assert k.delivered + [k.buf[0]] + k.buf[1..] == k.delivered + k.buf;
      ReadersElsewhere(k.sched.ring, k.life, t, k.life[t].(resume := InUser));
    }
  }

  lemma DispatchInput(k: State)
    requires PlacesOk(k) && InRange(k) && !k.busy && InputOk(k)
    ensures InputOk(Continue(Acquire(k)))
  {
    if k.sched.ring != [] {
      var a := Acquire(k);
      AcquirePlaces(k);
      assert Readers(k.sched.ring, k.life) == Readers([k.sched.ring[0]], k.life) + Readers(k.sched.ring[1..], k.life);
      var t := a.currentTid;
      if k.life[t].resume == InRead {
        PopCharInput(a, true);
      } else {
        assert SlotOk(a, t);
        ReadersElsewhere(a.sched.ring, a.life, t, a.life[t].(resume := InUser));
      }
    }
  }

  lemma PushCharInput(k: State, c: int)
    requires PlacesOk(k) && InRange(k) && InputOk(k)
    ensures InputOk(PushChar(k, c))
  {
    assert k.delivered + (k.buf + [c]) == k.delivered + k.buf + [c];
    if k.waiting != [] {
      assert SlotOk(k, k.waiting[0]);
      ReadersSnoc(k.sched.ring, k.waiting[0], k.life);
    }
  }

  lemma TimerInput(k: State)
    requires PlacesOk(k) && InputOk(k)
    ensures InputOk(TimerStep(k))
  {
    if k.busy {
      ReadersSnoc(k.sched.ring, k.currentTid, k.life);
    }
  }

  lemma AddInput(k: State, th: Thread, child: bool)
    requires PlacesOk(k) && InputOk(k)
    ensures InputOk(AddToPool(k, th, child))
  {
    var x := FirstFree(k.pool, 0);
    if x != -1 {
      assert SlotOk(k, x);
      ReadersElsewhere(k.sched.ring, k.life, x, Life(InUser, child, k.clock));
      ReadersSnoc(k.sched.ring, x, k.life[x := Life(InUser, child, k.clock)]);
    }
  }

  lemma ExecInput(k: State, s: int)
    requires PlacesOk(k) && InputOk(k) && k.busy
    ensures InputOk(Exec(k, s))
  {
    StacksArePassive(k, k.stacks + {s});
    var k0 := k.(stacks := k.stacks + {s});
    AddInput(k0, Thread(s, k.currentTid), true);
    AddPlaces(k0, Thread(s, k.currentTid), true);
    var k1 := AddToPool(k0, Thread(s, k.currentTid), true);
    if !k1.panicked {
      assert SlotOk(k1, k1.currentTid);
      ReadersElsewhere(k1.sched.ring, k1.life, k1.currentTid, k1.life[k1.currentTid].(resume := InExec));
    }
  }

  lemma ExitInput(k: State)
    requires PlacesOk(k) && InputOk(k) && k.busy && (k.current.wait == -1 || IsTid(k.current.wait))
    ensures InputOk(ExitThread(k))
  {
    if k.current.wait != -1 {
      ReadersSnoc(k.sched.ring, k.current.wait, k.life);
    }
  }

  // ----- every run

  /** The running thread's record is as a user program's is. */
  ghost predicate CpuOk(k: State) {
    (k.busy && Sized(k) && IsTid(k.currentTid) ==> k.life[k.currentTid].resume == InUser)
    && (k.current.wait == -1 || IsTid(k.current.wait))
  }

  ghost predicate Inv(k: State) {
    PlacesOk(k) && StacksOk(k) && LinksOk(k) && InputOk(k) && CpuOk(k)
  }

  lemma BootInv()
    ensures Inv(Boot())
  {
    var k := Boot();
    assert forall t :: SlotOk(k, t) && SliceOk(k, t);
  }

  /** Whether an exit, if e is one, is safe in k. */
  predicate SafeEvent(k: State, e: Event)
    requires Sized(k) && IsTid(k.currentTid)
  {
    e == SysExit ==> ExitSafe(k)
  }

  lemma CpuAfter(k: State, e: Event)
    requires Inv(k) && InRange(k) && Enabled(k, e)
    ensures CpuOk(Step(k, e)) || Step(k, e).panicked
  {
    assert SlotOk(k, k.currentTid);
    if e == Dispatch && k.sched.ring != [] {
      assert LinkOk(k, k.sched.ring[0]) && SlotOk(k, k.sched.ring[0]);
    }
  }

  lemma PlacesAfter(k: State, e: Event)
    requires Inv(k) && InRange(k) && Enabled(k, e) && SafeEvent(k, e)
    ensures PlacesOk(Step(k, e))
  {
    match e
    case Dispatch => AcquirePlaces(k); ContinuePlaces(Acquire(k));
    case Timer => TimerPlaces(k);
    case CharArrives(c) => PushCharPlaces(k, c);
    case Spawn(t) =>
      StacksArePassive(k, k.stacks + {t.kstack});
      AddPlaces(k.(stacks := k.stacks + {t.kstack}), t, false);
    case SysRead => PopCharPlaces(k);
    case SysExec(found, s) => if found { ExecPlaces(k, s); }
    case SysExit => ExitWakes(k); ExitPlaces(k);
  }

  lemma InputAfter(k: State, e: Event)
    requires Inv(k) && InRange(k) && Enabled(k, e)
    ensures InputOk(Step(k, e))
  {
    match e
    case Dispatch => DispatchInput(k);
    case Timer => TimerInput(k);
    case CharArrives(c) => PushCharInput(k, c);
    case Spawn(t) =>
      StacksArePassive(k, k.stacks + {t.kstack});
      AddInput(k.(stacks := k.stacks + {t.kstack}), t, false);
    case SysRead => PopCharInput(k, false);
    case SysExec(found, s) => if found { ExecInput(k, s); }
    case SysExit => ExitInput(k);
  }

  lemma QuietAfter(k: State, e: Event)
    requires Inv(k) && InRange(k) && Enabled(k, e) && !e.Spawn? && !e.SysExec? && !e.SysExit?
    requires PlacesOk(Step(k, e))
    ensures StacksOk(Step(k, e)) && LinksOk(Step(k, e))
  {
    var b := Step(k, e);
    hide Step;
    QuietEvents(k, e, 0);
    forall t
      ensures SameThread(k, b, t)
      ensures Hosting(b, t) <==> Hosting(k, t)
    {
      QuietEvents(k, e, t);
    }
    SameStacks(k, b);
    SameLinks(k, b);
  }

  lemma StacksAndLinksAfter(k: State, e: Event)
    requires Inv(k) && InRange(k) && Enabled(k, e) && SafeEvent(k, e) && !Step(k, e).panicked
    ensures StacksOk(Step(k, e)) && LinksOk(Step(k, e))
  {
    match e
    case Spawn(t) =>
      AddStacks(k, t, false);
      SpawnLinks(k, t);
    case SysExec(found, s) =>
      if found {
        ExecStacks(k, s);
        ExecLinks(k, s);
      }
    case SysExit =>
      ExitStacks(k);
      ExitLinks(k);
    case _ =>
      PlacesAfter(k, e);
      QuietAfter(k, e);
  }

  lemma SpawnLinks(k: State, t: Thread)
    requires PlacesOk(k) && LinksOk(k) && (t.wait == -1 || IsTid(t.wait))
    ensures var b := AddToPool(k.(stacks := k.stacks + {t.kstack}), t, false); b.panicked || LinksOk(b)
  {
    var k0 := k.(stacks := k.stacks + {t.kstack});
    StacksArePassive(k, k0.stacks);
    SameLinks(k, k0);
    AddLinks(k0, t);
  }

  /** Every event keeps the invariant, except for the exit of a parentless thread that names a waiter. */
  lemma StepKeepsInv(k: State, e: Event)
    requires Inv(k) && InRange(k) && Enabled(k, e) && SafeEvent(k, e)
    ensures Step(k, e).panicked || (Inv(Step(k, e)) && InRange(Step(k, e)))
  {
    if !Step(k, e).panicked {
      PlacesAfter(k, e);
      InputAfter(k, e);
      StacksAndLinksAfter(k, e);
      CpuAfter(k, e);
      InRangeOfPlaces(Step(k, e));
    }
  }

  /** That exit breaks the invariant: for every such state, whatever the slot it names holds. */
  lemma UnsafeExitBreaks(k: State)
    requires Inv(k) && InRange(k) && k.busy && !ExitSafe(k)
    ensures !Inv(ExitThread(k))
  {
    var b, x, w := ExitThread(k), k.currentTid, k.current.wait;
    assert SlotOk(k, x) && SlotOk(k, w);
    assert w in b.sched.ring;
    if w == x || !k.pool[w].occupied {
      assert !SlotOk(b, w);
    } else if w in k.sched.ring {
      var i :| 0 <= i < |k.sched.ring| && k.sched.ring[i] == w;
      assert b.sched.ring[i] == b.sched.ring[|k.sched.ring|] == w;
      assert !Distinct(b.sched.ring);
    } else if w in k.waiting {
      assert w in b.waiting && !SlotOk(b, w);
    } else {
      assert Hosting(k, w) && Hosted(k, w);
      var c :| ChildOf(k, c, w);
      ExitFrees(k);
      assert IsChild(b, c) && !Hosting(b, w);
      assert !LinkOk(b, c);
    }
  }

  /** So an exit keeps the invariant exactly when the thread names no waiter or was made by exec. */
  lemma ExitSafeIff(k: State)
    requires Inv(k) && InRange(k) && Enabled(k, SysExit)
    ensures Inv(Step(k, SysExit)) <==> ExitSafe(k)
  {
    if ExitSafe(k) {
      StepKeepsInv(k, SysExit);
    } else {
      UnsafeExitBreaks(k);
    }
  }
}
