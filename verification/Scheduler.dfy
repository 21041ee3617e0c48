/**
 The round-robin scheduler of kernel/rrscheduler.c: a circular doubly linked
 list kept in an array, with a dummy head at index 0 and thread tid at index tid+1.
 */
module Scheduler {

  const MAX_THREAD := 64
  const WORD := 0x1_0000_0000_0000_0000

  /** One element of rrScheduler.threads. */
  datatype RRInfo = RRInfo(valid: bool, time: int, prev: int, next: int)

  /**
   What the scheduler holds: the ready threads in order, the time left per slot, and the last one popped
   (0 for none).
   */
  datatype Sched = Sched(ring: seq<int>, time: seq<int>, maxTime: int, current: int)

  predicate IsTid(t: int) { 0 <= t < MAX_THREAD }

  ghost predicate Distinct(s: seq<int>) {
    forall i, j | 0 <= i < j < |s| :: s[i] != s[j]
  }

  // ----- the operations on the abstract state

  function Pushed(s: Sched, tid: int): Sched
    requires IsTid(tid) && |s.time| == MAX_THREAD
  {
    s.(ring := s.ring + [tid], time := if s.time[tid] == 0 then s.time[tid := s.maxTime] else s.time)
  }

  function Popped(s: Sched): (Sched, int) {
    if s.ring == [] then (s, -1) else (s.(ring := s.ring[1..], current := s.ring[0] + 1), s.ring[0])
  }

  /** Also tells whether the running thread's slice is used up. */
  function Ticked(s: Sched): (Sched, bool)
    requires 0 <= s.current <= MAX_THREAD && |s.time| == MAX_THREAD
  {
    if s.current != 0 then
      var left := (s.time[s.current - 1] - 1) % WORD;
      (s.(time := s.time[s.current - 1 := left]), left == 0)
    else (s, true)
  }

  function AfterExit(s: Sched, tid: int): Sched {
    if s.current == tid + 1 then s.(current := 0) else s
  }

  // ----- the linked list

  /** The array index of the i-th element of the ring; both ends are the dummy head. */
  function NodeAt(ring: seq<int>, i: int): int {
    if 1 <= i <= |ring| then ring[i - 1] + 1 else 0
  }

  ghost predicate LinkAt(a: seq<RRInfo>, ring: seq<int>, i: int) {
    var n, m := NodeAt(ring, i), NodeAt(ring, i + 1);
    && 0 <= n < |a| && 0 <= m < |a|
    && a[n].next == m && a[m].prev == n
  }

  /** The links of the array spell out the ring, forwards and backwards. */
  ghost predicate Linked(a: seq<RRInfo>, ring: seq<int>) {
    && |a| == MAX_THREAD + 1
    && (forall i | 0 <= i < |ring| :: IsTid(ring[i]))
    && Distinct(ring)
    && (forall i | 0 <= i <= |ring| :: LinkAt(a, ring, i))
  }

  /** next and prev are mutual inverses on the ring and the dummy head. */
  lemma LinksAreInverse(a: seq<RRInfo>, ring: seq<int>, i: int)
    requires Linked(a, ring) && 0 <= i <= |ring|
    ensures var n := NodeAt(ring, i);
            && 0 <= n < |a| && 0 <= a[n].next < |a| && a[a[n].next].prev == n
            && 0 <= a[n].prev < |a| && a[a[n].prev].next == n
  {
    assert LinkAt(a, ring, i);
    assert LinkAt(a, ring, if i == 0 then |ring| else i - 1);
  }

  /** At most MAX_THREAD threads fit. */
  lemma {:induction false} RingFits(ring: seq<int>, n: nat)
    requires Distinct(ring) && forall i | 0 <= i < |ring| :: 0 <= ring[i] < n
    ensures |ring| <= n
  {
    if n == 0 {
      var first := NodeAt(ring, 1);
      assert |ring| == 0 || 1 <= first < n + 1;
    } else if k :| 0 <= k < |ring| && ring[k] == n - 1 {
      var rest := ring[..k] + ring[k + 1..];
      assert |rest| == |ring| - 1;
      RingFits(rest, n - 1);
    } else {
      RingFits(ring, n - 1);
    }
  }

  lemma PushLinks(a: seq<RRInfo>, b: seq<RRInfo>, ring: seq<int>, tid: int)
    requires Linked(a, ring) && IsTid(tid) && tid !in ring
    requires |b| == |a| && 0 <= a[0].prev < |a|
    requires forall n | 0 <= n < |a| ::
               b[n].next == if n == tid + 1 then 0 else if n == a[0].prev then tid + 1 else a[n].next
    requires forall n | 0 <= n < |a| ::
               b[n].prev == if n == 0 then tid + 1 else if n == tid + 1 then a[0].prev else a[n].prev
    ensures Linked(b, ring + [tid])
  {
    var r := ring + [tid];
    assert LinkAt(a, ring, |ring|);
    forall i | 0 <= i <= |r|
      ensures LinkAt(b, r, i)
    {
      if i < |ring| {
        assert LinkAt(a, ring, i);
        assert NodeAt(r, i) == NodeAt(ring, i) && NodeAt(r, i + 1) == NodeAt(ring, i + 1);
        NodesDiffer(ring, i, |ring|);
      }
    }
  }

  /** Different places of the ring are different array elements. */
  lemma NodesDiffer(ring: seq<int>, i: int, j: int)
    requires Distinct(ring) && (forall k | 0 <= k < |ring| :: IsTid(ring[k])) && 0 <= i < j <= |ring|
    ensures NodeAt(ring, i) != NodeAt(ring, j)
  {
  }

  lemma PopLinks(a: seq<RRInfo>, b: seq<RRInfo>, ring: seq<int>)
    requires Linked(a, ring) && ring != [] && |b| == |a|
    requires var ret := a[0].next; 0 <= ret < |a| && 0 <= a[ret].next < |a| && a[ret].prev == 0
    requires var ret := a[0].next; var next := a[ret].next;
             forall n | 0 <= n < |a| :: b[n].next == if n == ret then 0 else if n == 0 then next else a[n].next
    requires var ret := a[0].next; var next := a[ret].next;
             forall n | 0 <= n < |a| :: b[n].prev == if n == ret then 0 else if n == next then 0 else a[n].prev
    ensures Linked(b, ring[1..])
  {
    var r := ring[1..];
    assert LinkAt(a, ring, 0) && LinkAt(a, ring, 1);
    forall i | 0 <= i <= |r|
      ensures LinkAt(b, r, i)
    {
      assert LinkAt(a, ring, i + 1);
      assert NodeAt(r, i + 1) == NodeAt(ring, i + 2);
      if i > 0 {
        assert NodeAt(r, i) == NodeAt(ring, i + 1);
        NodesDiffer(ring, 1, i + 1);
        NodesDiffer(ring, 0, i + 1);
        if i + 2 <= |ring| {
          NodesDiffer(ring, 1, i + 2);
        }
      }
    }
  }

  class RoundRobin {
    const threads: array<RRInfo>
    var maxTime: int
    var current: int
    ghost var ring: seq<int>

    ghost predicate Valid()
      reads this, threads
    {
      && Linked(threads[..], ring)
      && 0 <= current <= MAX_THREAD
      && 1 <= maxTime < WORD
      && (forall n | 0 <= n <= MAX_THREAD :: 0 <= threads[n].time < WORD)
    }

    /** The state as the rest of the kernel sees it. */
    ghost function A(): Sched
      requires threads.Length == MAX_THREAD + 1
      reads this, threads
    {
      Sched(ring, Times(threads[..]), maxTime, current)
    }

    /** schedulerInit, on zeroed memory. */
    constructor ()
      ensures Valid() && fresh(threads)
      ensures A() == Sched([], seq(MAX_THREAD, _ => 0), 1, 0)
    {
      maxTime := 1;
      current := 0;
      ring := [];
      threads := new RRInfo[MAX_THREAD + 1](_ => RRInfo(false, 0, 0, 0));
      new;
      threads[0] := RRInfo(false, 0, 0, 0);
    }

    /** The last lines of schedulerPush: put element tid between the last one and the dummy head. */
    method LinkLast(tid: int)
      requires threads.Length == MAX_THREAD + 1 && 1 <= tid <= MAX_THREAD
      requires 0 <= threads[0].prev <= MAX_THREAD && threads[0].prev != tid
      modifies threads
      ensures forall n | 0 <= n <= MAX_THREAD ::
                threads[n].next == if n == tid then 0 else if n == old(threads[0].prev) then tid
                else old(threads[n].next)
      ensures forall n | 0 <= n <= MAX_THREAD ::
                threads[n].prev == if n == 0 then tid else if n == tid then old(threads[0].prev)
                else old(threads[n].prev)
      ensures forall n | 0 <= n <= MAX_THREAD :: threads[n].time == old(threads[n].time)
    {
      var prev := threads[0].prev;
      threads[tid] := threads[tid].(valid := true);
      threads[prev] := threads[prev].(next := tid);
      threads[tid] := threads[tid].(prev := prev);
      threads[0] := threads[0].(prev := tid);
      threads[tid] := threads[tid].(next := 0);
    }

    /** schedulerPush; false stands for its panic on a tid out of range. */
    method Push(t: int) returns (ok: bool)
      requires Valid() && t >= 0 && t !in ring
      modifies this`ring, threads
      ensures Valid()
      ensures ok <==> IsTid(t)
      ensures A() == if ok then Pushed(old(A()), t) else old(A())
    {
      var tid := t + 1;
      if tid + 1 > MAX_THREAD + 1 {
        return false;
      }
      ghost var a := threads[..];
      hide Linked;
      HeadFacts(a, ring);
      if threads[tid].time == 0 {
        threads[tid] := threads[tid].(time := maxTime);
      }
      LinkLast(tid);
      PushLinks(a, threads[..], ring, t);
      ring := ring + [t];
      TimesAfterPush(a, threads[..], t, maxTime);
      ok := true;
    }

    /** schedulerPop */
    method Pop() returns (r: int)
      requires Valid()
      modifies this`ring, this`current, threads
      ensures Valid()
      ensures (A(), r) == Popped(old(A())) && (r == -1 || IsTid(r))
    {
      ghost var a := threads[..];
      HeadFacts(a, ring);
      hide Linked;
      var ret := threads[0].next;
      if ret != 0 {
        var next := threads[ret].next;
        var prev := threads[ret].prev;
        threads[next] := threads[next].(prev := prev);
        threads[prev] := threads[prev].(next := next);
        threads[ret] := threads[ret].(prev := 0);
        threads[ret] := threads[ret].(next := 0);
        threads[ret] := threads[ret].(valid := false);
        current := ret;
        PopLinks(a, threads[..], ring);
        ring := ring[1..];
        SameTimes(a, threads[..]);
      }
      r := ret - 1;
    }

    /** schedulerTick */
    method Tick() returns (r: int)
      requires Valid()
      modifies threads
      ensures Valid()
      ensures (A(), r == 1) == Ticked(old(A())) && (r == 0 || r == 1)
    {
      ghost var a := threads[..];
      hide Linked;
      HeadFacts(a, ring);
      var tid := current;
      if tid != 0 {
        threads[tid] := threads[tid].(time := (threads[tid].time - 1) % WORD);
        SameLinks(a, threads[..], ring);
        TimesAt(a, threads[..], tid);
        if threads[tid].time == 0 {
          return 1;
        } else {
          return 0;
        }
      }
      return 1;
    }

    /** schedulerExit */
    method Exit(t: int)
      requires Valid()
      modifies this`current
      ensures Valid() && A() == AfterExit(old(A()), t)
    {
      var tid := t + 1;
      if current == tid {
        current := 0;
      }
    }
  }

  /** The time left per tid. */
  function Times(a: seq<RRInfo>): seq<int>
    requires |a| == MAX_THREAD + 1
  {
    seq(MAX_THREAD, t requires 0 <= t < MAX_THREAD => a[t + 1].time)
  }

  lemma SameTimes(a: seq<RRInfo>, b: seq<RRInfo>)
    requires |a| == |b| == MAX_THREAD + 1 && forall n | 0 <= n < |a| :: b[n].time == a[n].time
    ensures Times(b) == Times(a)
  {
  }

  lemma TimesAt(a: seq<RRInfo>, b: seq<RRInfo>, n: int)
    requires |a| == |b| == MAX_THREAD + 1 && 1 <= n <= MAX_THREAD
    requires forall k | 0 <= k < |a| && k != n :: b[k].time == a[k].time
    ensures Times(b) == Times(a)[n - 1 := b[n].time]
  {
  }

  lemma TimesAfterPush(a: seq<RRInfo>, b: seq<RRInfo>, t: int, maxTime: int)
    requires |a| == |b| == MAX_THREAD + 1 && IsTid(t)
    requires forall n | 0 <= n < |a| :: b[n].time == if n == t + 1 && a[n].time == 0 then maxTime else a[n].time
    ensures Times(b) == if Times(a)[t] == 0 then Times(a)[t := maxTime] else Times(a)
  {
  }

  lemma SameLinks(a: seq<RRInfo>, b: seq<RRInfo>, ring: seq<int>)
    requires Linked(a, ring) && |b| == |a|
    requires forall n | 0 <= n < |a| :: b[n].next == a[n].next && b[n].prev == a[n].prev
    ensures Linked(b, ring)
  {
    forall i | 0 <= i <= |ring|
      ensures LinkAt(b, ring, i)
    {
      assert LinkAt(a, ring, i);
    }
  }

  /** The dummy head leads to both ends of the ring. */
  lemma HeadFacts(a: seq<RRInfo>, ring: seq<int>)
    requires Linked(a, ring)
    ensures |a| == MAX_THREAD + 1 && 0 <= a[0].prev < |a| && 0 <= a[0].next < |a|
    ensures a[0].next == 0 <==> ring == []
    ensures a[0].prev == 0 <==> ring == []
    ensures ring != [] ==>
      && a[0].next == ring[0] + 1 && a[0].prev == ring[|ring| - 1] + 1
      && 0 <= a[a[0].next].next < |a| && a[a[0].next].prev == 0
      && a[a[0].next].next != a[0].next
    ensures forall t | IsTid(t) && t !in ring :: a[0].prev != t + 1
  {
    assert LinkAt(a, ring, 0) && LinkAt(a, ring, |ring|);
    if ring != [] {
      assert LinkAt(a, ring, 1);
      if |ring| > 1 {
        NodesDiffer(ring, 1, 2);
      }
    }
  }
}
