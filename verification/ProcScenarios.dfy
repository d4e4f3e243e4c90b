/**
 Short runs of the process manager, from boot, that reach the states in which a promise fails.
 */
module ProcScenarios {
  import opened Lists
  import opened ProcTable
  import opened ProcTree
  import opened WaitQueues
  import opened Scheduler
  import opened ProcManager

  // Only slots below n are in use.
  ghost predicate Below(t: seq<Proc>, n: int) { forall i :: Live(t, i) ==> i < n }

  // What scheduling leaves of a process that is not a zombie.
  lemma AfterDispatch(t: seq<Proc>, mid: seq<Proc>, from: nat, to: nat, n: int, p: nat)
    requires Reaped(t, mid, from, |t|) && from < |t| && to < |t| && p < |t| && Below(t, n)
    requires !t[p].state.Zombie? && Live(t, p) && Live(t, to) && !t[to].state.Zombie?
    ensures var r := Dispatched(mid, from, to);
            && |r| == |t| && Below(r, n) && Live(r, p) && r[p].waitingOn == t[p].waitingOn && r[p].pid == t[p].pid
            && r[p].state == (if p == to && to != from then Running
                              else if p == from && to != from && t[p].state.Running? then Runnable else t[p].state)
  {
    assert !Reapable(t, from, p) && !Reapable(t, from, to);
    var r := Dispatched(mid, from, to);
    forall i | Live(r, i) ensures Live(t, i) {}
  }

  lemma OneSleeps(t: seq<Proc>, asleep: Proc)
    requires 0 < |t| && asleep.state.Sleeping? && forall i :: Live(t, i) <==> i == 0
    ensures var t1 := t[0 := asleep]; Below(t1, 1) && !AnyRunnable(t1) && Live(t1, 0)
  {
    var t1 := t[0 := asleep];
    forall i | Live(t1, i) ensures i == 0 { assert i != 0 ==> Live(t, i); }
    forall i ensures !IsRunnable(t1, i) { assert IsRunnable(t1, i) ==> Live(t1, i); }
  }

  // The kernel goes to sleep with nothing to run and stays current, asleep.
  method KernelBlocks(now: nat, ticks: nat) returns (m: Processes)
    ensures fresh(m) && m.Valid() && m.current == 0 && m.table[0].state.Sleeping?
  {
    m := new Processes(0);
    ghost var t := m.table[..];
    ghost var asleep := t[0].(state := Sleeping, wakeupTick := (now + ticks) % 0x1_0000_0000);
    OneSleeps(t, asleep);
    assert !t[0].state.Zombie? && |t| == MAX_PROCESSES;
    hide AllOk, Reaped, Dispatched, Below, AnyRunnable;
    ghost var mid := m.Sleep(now, ticks);
    AfterDispatch(t[0 := asleep], mid, 0, 0, 1, 0);
  }

  // Slot 0 runs and slot 1, its only companion, is runnable and on no queue.
  ghost predicate Two(t: seq<Proc>) {
    && |t| == MAX_PROCESSES && Below(t, 2) && t[0].state.Running? && t[0].pid == 0
    && t[1].state.Runnable? && t[1].waitingOn == NULL && t[1].pid != 0
  }

  lemma FirstBorn(t0: seq<Proc>, t: seq<Proc>)
    requires |t0| == MAX_PROCESSES && Reaped(t0, t, 0, |t0|) && (forall i :: Live(t0, i) <==> i == 0)
    requires t0[0].state.Running? && t0[0].pid == 0
    ensures |t| == MAX_PROCESSES && (forall i :: Live(t, i) <==> i == 0)
    ensures LeastFreePid(t[1 := BLANK], 1) >= 1 && Two(WithBorn(t, 0, 1, true))
  {
    forall i ensures Live(t, i) <==> i == 0 { assert Live(t, i) ==> Live(t0, i); }
    var r := WithBorn(t, 0, 1, true);
    forall i | Live(r, i) ensures i < 2 { assert i >= 2 ==> Live(t, i); }
  }

  // From boot, the kernel creates a process.
  method BootWithOne(queues: nat) returns (m: Processes)
    ensures fresh(m) && fresh(m.table) && fresh(m.heads) && m.Valid() && m.current == 0 && m.heads.Length == queues
            && Two(m.table[..])
    ensures |m.kids| == MAX_PROCESSES && m.kids[0] == [1] && m.kids[1] == []
  {
    m := new Processes(queues);
    ghost var t0 := m.table[..];
    assert t0[0].pid == 0 && m.kids[0] == [] by { NoKids(m.table[..], m.kids); }
    var slot;
    ghost var t;
    slot, t := m.Create(true, true);
    FirstBorn(t0, t);
    assert !Live(t, 1);
  }

  lemma NoKids(t: seq<Proc>, kids: seq<seq<int>>)
    requires PidsOk(t) && TreeOk(t, kids) && forall i :: Live(t, i) <==> i == 0
    requires ReapOk(t, kids)
    ensures kids[0] == []
  {
    hide Linked;
    if kids[0] != [] {
      var c := kids[0][0];
      assert Listed(kids, NULL, [], 0, c) <==> IsChildOf(t, 0, c);
      KernelIsNoChild(t, kids, 0);
    }
  }

  // Of two processes, one that is runnable while the other is not is the one chosen.
  lemma OnlyOne(t: seq<Proc>, p: nat, next: int)
    requires Below(t, 2) && p < 2 <= |t| && t[p].state.Runnable? && !t[1 - p].state.Runnable?
    ensures AnyRunnable(t) && (IsBest(t, next) ==> next == p)
  {
    assert IsRunnable(t, p);
    assert IsRunnable(t, next) ==> Live(t, next);
  }

  // The process created at boot gets the processor.
  ghost predicate OneRuns(t: seq<Proc>) {
    && |t| == MAX_PROCESSES && Below(t, 2) && t[0].state.Runnable? && t[0].pid == 0
    && t[1].state.Running? && t[1].waitingOn == NULL && t[1].pid != 0
  }

  method BootAndRun(queues: nat) returns (m: Processes)
    ensures fresh(m) && fresh(m.table) && fresh(m.heads) && m.Valid() && m.current == 1 && m.heads.Length == queues
            && OneRuns(m.table[..])
    ensures |m.kids| == MAX_PROCESSES && m.kids[0] == [1] && m.kids[1] == []
  {
    m := BootWithOne(queues);
    ghost var t := m.table[..];
    ghost var mid := m.Schedule();
    OnlyOne(t, 1, m.current);
    hide AllOk, Reaped, Dispatched;
    AfterDispatch(t, mid, 0, 1, 2, 0);
    AfterDispatch(t, mid, 0, 1, 2, 1);
  }

  // A process waits on a queue, a signal wakes it without taking it off the queue, and it runs
  // again: from then on waiting once more would break the queues.
  method WokenStillQueued() returns (m: Processes)
    ensures fresh(m) && m.Valid() && m.heads.Length == 1 && m.current == 1 && m.table[1].waitingOn == 0
    ensures forall qs' :: var r := Enqueue(m.table[..], m.heads[..], m.current, 0); !QueuesOk(r.0, r.1, qs')
  {
    hide TreeOk, PidsOk, SchedOk, ReapOk, QueuesOk, Reaped, Dispatched;
    m := BootAndRun(1);
    ghost var t, h := m.table[..], m.heads[..];
    ghost var mid := m.WaitOn(0);
    ghost var t1 := Enqueue(t, h, 1, 0).0;
    WaitingOne(t, h);
    OnlyOne(t1, 0, m.current);
    AfterDispatch(t1, mid, 1, 0, 2, 0);
    AfterDispatch(t1, mid, 1, 0, 2, 1);
    ghost var t2 := m.table[..];
    m.Wake(1);
    ghost var t3 := m.table[..];
    assert t3 == t2[1 := Ready(t2[1])];
    assert Below(t3, 2) by { forall i | Live(t3, i) ensures i < 2 { assert i != 1 ==> Live(t2, i); } }
    OnlyOne(t3, 1, 1);
    mid := m.Schedule();
    OnlyOne(t3, 1, m.current);
    AfterDispatch(t3, mid, 0, 1, 2, 1);
    forall qs' ensures var r := Enqueue(m.table[..], m.heads[..], 1, 0); !QueuesOk(r.0, r.1, qs') {
      RequeueBreaks(m.table[..], m.heads[..], m.qs, 1, 0, qs');
    }
  }

  lemma WaitingOne(t: seq<Proc>, h: seq<int>)
    requires OneRuns(t) && |h| == 1
    ensures var t1 := Enqueue(t, h, 1, 0).0;
            && |t1| == |t| && Below(t1, 2) && t1[0] == t[0] && t1[1].state.Sleeping? && t1[1].waitingOn == 0
  {
    var t1 := Enqueue(t, h, 1, 0).0;
    forall i | Live(t1, i) ensures i < 2 { assert i != 1 ==> Live(t, i); }
  }

  // A process that has created another: destroying it leaves no consistent tree.
  method ParentOfOne() returns (m: Processes)
    ensures fresh(m) && m.Valid() && Live(m.table[..], 1) && m.table[1].parent == 0 && |m.kids| == MAX_PROCESSES
            && m.kids[1] == [2]
    ensures forall kids' :: !TreeOk(Remove(m.table[..], 1, NULL), kids')
  {
    m := BootAndRun(0);
    ghost var t0, kids0 := m.table[..], m.kids;
    var slot;
    ghost var t;
    slot, t := m.Create(true, true);
    SecondSlot(t0, t);
    SecondBorn(t);
    hide Linked;
    assert m.kids[0] == [1] && m.kids[1] == [2];
    assert Listed(m.kids, NULL, [], 0, 1) <==> IsChildOf(m.table[..], 0, 1);
    ghost var k, pred := OnParentsList(m.table[..], m.kids, 1);
    DestroyNeedsChildless(m.table[..], m.kids, 1, k, pred);
    assert 2 in m.kids[1];
  }

  lemma SecondSlot(t0: seq<Proc>, t: seq<Proc>)
    requires OneRuns(t0) && Reaped(t0, t, 1, |t0|)
    ensures |t| == MAX_PROCESSES && Live(t, 0) && Live(t, 1) && Below(t, 2) && !Live(t, 2)
  {
    forall i | Live(t, i) ensures i < 2 { assert Live(t0, i); }
  }

  lemma SecondBorn(t: seq<Proc>)
    requires |t| == MAX_PROCESSES && Live(t, 1)
    ensures Live(WithBorn(t, 1, 2, true), 1) && Live(WithBorn(t, 1, 2, true), 0) == Live(t, 0)
  {}
}
