/**
 Where threads are: in every reachable state each occupied slot is in exactly one
 place, and its status says which.
 */
module Places {
  import opened Scheduler
  import opened Kernel

  /** The status of slot t agrees with the queue, or the CPU, that holds it. */
  ghost predicate SlotOk(k: State, t: int) {
    Sized(k) && IsTid(t) ==>
      var i, l := k.pool[t], k.life[t];
      && (t in k.sched.ring <==> i.occupied && i.status == Ready)
      && (t in k.waiting <==> i.occupied && i.status == Sleeping && l.resume == InRead)
      && (k.busy && t == k.currentTid <==> i.occupied && i.status == Running)
      && (i.occupied ==> i.status != Exited)
      && (i.occupied && i.status == Sleeping ==> l.resume != InUser)
  }

  /** Slices: a thread that is ready or running has between 1 and maxTime ticks left. */
  ghost predicate SliceOk(k: State, t: int) {
    Sized(k) && IsTid(t) ==>
      && 0 <= k.sched.time[t] <= k.sched.maxTime
      && (t in k.sched.ring || (k.busy && t == k.currentTid) ==> k.sched.time[t] >= 1)
  }

  ghost predicate AllTids(s: seq<int>) {
    forall i | 0 <= i < |s| :: IsTid(s[i])
  }

  ghost predicate PlacesOk(k: State) {
    && Sized(k)
    && IsTid(k.currentTid)
    && 0 <= k.sched.current <= MAX_THREAD
    && 1 <= k.sched.maxTime < WORD
    && (k.busy ==> k.sched.current == k.currentTid + 1 && k.current == k.pool[k.currentTid].thread)
    && AllTids(k.sched.ring) && Distinct(k.sched.ring)
    && AllTids(k.waiting) && Distinct(k.waiting)
    && (forall t :: SlotOk(k, t))
    && (forall t :: SliceOk(k, t))
  }

  // ----- the four places, counted

  function One(b: bool): int { if b then 1 else 0 }

  /** In how many places slot t is: running, ready, waiting for input, or asleep until a program it started exits. */
  function PlaceCount(k: State, t: int): int
    requires Sized(k) && IsTid(t)
  {
    One(k.busy && k.currentTid == t) + One(t in k.sched.ring) + One(t in k.waiting)
    + One(k.pool[t].occupied && k.pool[t].status == Sleeping && k.life[t].resume == InExec)
  }

  /** Each occupied slot is in exactly one place, and a free slot in none. */
  lemma ExactlyOnePlace(k: State, t: int)
    requires PlacesOk(k) && IsTid(t)
    ensures PlaceCount(k, t) == One(k.pool[t].occupied)
  {
    assert SlotOk(k, t);
  }

  // ----- queues

  lemma Tail(s: seq<int>, t: int)
    requires Distinct(s) && AllTids(s) && s != []
    ensures Distinct(s[1..]) && AllTids(s[1..])
    ensures t in s[1..] <==> t in s && t != s[0]
  {
    if t in s && t != s[0] {
      var i :| 0 <= i < |s| && s[i] == t;
      assert s[1..][i - 1] == t;
    }
  }

  lemma Snoc(s: seq<int>, x: int)
    requires Distinct(s) && AllTids(s) && IsTid(x) && x !in s
    ensures Distinct(s + [x]) && AllTids(s + [x])
  {
  }

  lemma InRangeOfPlaces(k: State)
    requires PlacesOk(k) && (k.current.wait == -1 || IsTid(k.current.wait))
    ensures InRange(k)
  {
  }

  // ----- the steps

  lemma AcquirePlaces(k: State)
    requires PlacesOk(k) && !k.busy
    ensures PlacesOk(Acquire(k))
  {
    if k.sched.ring != [] {
      var b, x := Acquire(k), k.sched.ring[0];
      forall t
        ensures SlotOk(b, t) && SliceOk(b, t)
      {
        assert SlotOk(k, t) && SliceOk(k, t);
        Tail(k.sched.ring, t);
      }
    }
  }

  lemma DeliverPlaces(k: State)
    requires PlacesOk(k) && k.busy && k.buf != []
    ensures PlacesOk(PopChar(k))
  {
    var b := PopChar(k);
    forall t
      ensures SlotOk(b, t) && SliceOk(b, t)
    {
      assert SlotOk(k, t) && SliceOk(k, t);
    }
  }

  lemma WaitPlaces(k: State)
    requires PlacesOk(k) && k.busy
    ensures PlacesOk(WaitForInput(k))
  {
    var b, x := WaitForInput(k), k.currentTid;
    assert SlotOk(k, x);
    Snoc(k.waiting, x);
    forall t
      ensures SlotOk(b, t) && SliceOk(b, t)
    {
      assert SlotOk(k, t) && SliceOk(k, t);
    }
  }

  lemma PopCharPlaces(k: State)
    requires PlacesOk(k) && k.busy
    ensures PlacesOk(PopChar(k))
  {
    if k.buf != [] {
      DeliverPlaces(k);
    } else {
      WaitPlaces(k);
    }
  }

  lemma ContinuePlaces(k: State)
    requires PlacesOk(k)
    ensures PlacesOk(Continue(k))
  {
    if k.busy {
      if k.life[k.currentTid].resume == InRead {
        PopCharPlaces(k);
      } else {
        var b := Continue(k);
        assert SlotOk(k, k.currentTid);
        forall t
          ensures SlotOk(b, t) && SliceOk(b, t)
        {
          assert SlotOk(k, t) && SliceOk(k, t);
        }
      }
    }
  }

  lemma PushCharPlaces(k: State, c: int)
    requires PlacesOk(k)
    ensures PlacesOk(PushChar(k, c))
  {
    var b := PushChar(k, c);
    if k.waiting != [] {
      var x := k.waiting[0];
      assert SlotOk(k, x) && SliceOk(k, x);
      Snoc(k.sched.ring, x);
      forall t
        ensures SlotOk(b, t) && SliceOk(b, t)
      {
        assert SlotOk(k, t) && SliceOk(k, t);
        Tail(k.waiting, t);
      }
    } else {
      forall t
        ensures SlotOk(b, t) && SliceOk(b, t)
      {
        assert SlotOk(k, t) && SliceOk(k, t);
      }
    }
  }

  lemma AddPlaces(k: State, th: Thread, child: bool)
    requires PlacesOk(k)
    ensures PlacesOk(AddToPool(k, th, child))
  {
    var b, x := AddToPool(k, th, child), FirstFree(k.pool, 0);
    if x != -1 {
      assert SlotOk(k, x) && SliceOk(k, x);
      Snoc(k.sched.ring, x);
    }
    forall t
      ensures SlotOk(b, t) && SliceOk(b, t)
    {
      assert SlotOk(k, t) && SliceOk(k, t);
    }
  }

  lemma StacksArePassive(k: State, s: set<int>)
    requires PlacesOk(k)
    ensures PlacesOk(k.(stacks := s))
  {
    var b := k.(stacks := s);
    forall t
      ensures SlotOk(b, t) && SliceOk(b, t)
    {
      assert SlotOk(k, t) && SliceOk(k, t);
    }
  }

  lemma TimerPlaces(k: State)
    requires PlacesOk(k)
    ensures PlacesOk(TimerStep(k))
  {
    if k.busy {
      var b, x := TimerStep(k), k.currentTid;
      assert SlotOk(k, x) && SliceOk(k, x);
      Snoc(k.sched.ring, x);
      forall t
        ensures SlotOk(b, t) && SliceOk(b, t)
      {
        assert SlotOk(k, t) && SliceOk(k, t);
      }
    }
  }

  lemma YieldPlaces(k: State)
    requires PlacesOk(k) && k.busy
    ensures PlacesOk(Yield(k, InExec))
  {
    var b, x := Yield(k, InExec), k.currentTid;
    assert SlotOk(k, x);
    forall t
      ensures SlotOk(b, t) && SliceOk(b, t)
    {
      assert SlotOk(k, t) && SliceOk(k, t);
    }
  }

  lemma ExecPlaces(k: State, s: int)
    requires PlacesOk(k) && k.busy
    ensures PlacesOk(Exec(k, s))
  {
    StacksArePassive(k, k.stacks + {s});
    var k0 := k.(stacks := k.stacks + {s});
    AddPlaces(k0, Thread(s, k.currentTid), true);
    var k1 := AddToPool(k0, Thread(s, k.currentTid), true);
    if !k1.panicked {
      YieldPlaces(k1);
    }
  }

  /** The thread that an exiting thread wakes is in no queue and is not itself. */
  ghost predicate Wakeable(k: State, w: int) {
    Sized(k) && IsTid(w) && w != k.currentTid
    && k.pool[w].occupied && k.pool[w].status == Sleeping && k.life[w].resume == InExec
  }

  lemma ExitPlaces(k: State)
    requires PlacesOk(k) && k.busy
    requires k.current.wait == -1 || Wakeable(k, k.current.wait)
    ensures PlacesOk(ExitThread(k))
  {
    var b, x, w := ExitThread(k), k.currentTid, k.current.wait;
    assert SlotOk(k, x);
    if w != -1 {
      assert SlotOk(k, w) && SliceOk(k, w);
      Snoc(k.sched.ring, w);
    }
    forall t
      ensures SlotOk(b, t) && SliceOk(b, t)
    {
      assert SlotOk(k, t) && SliceOk(k, t);
    }
  }
}
