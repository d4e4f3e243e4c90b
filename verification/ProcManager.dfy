/**
 The process manager: creating, exiting, destroying, sleeping, waking and scheduling processes
 on one table, with everything that holds between any two of these operations.
 */
module ProcManager {
  import opened Lists
  import opened ProcTable
  import opened ProcTree
  import opened WaitQueues
  import opened Scheduler

  // ----- what always holds -----

  ghost predicate SchedOk(t: seq<Proc>, current: int) {
    && Live(t, current)
    && forall i :: Live(t, i) ==>
         && 0 <= t[i].aging <= AGING_MAX && t[i].timeSlice <= TIMESLICE && t[i].basePriority <= PRIORITY_MAX
         && (t[i].state.Running? ==> i == current)
  }

  // Why automatic reaping never takes a process that still has children: the kernel does not
  // exit, only init can be a zombie with children, and init always has a parent.
  ghost predicate ReapOk(t: seq<Proc>, kids: seq<seq<int>>) {
    && |kids| == |t| && Live(t, 0) && !t[0].state.Zombie? && t[0].parent == NULL
    && (forall z :: Live(t, z) && t[z].state.Zombie? && t[z].pid != INIT_PID ==> kids[z] == [])
    && (forall p :: Live(t, p) && t[p].pid == INIT_PID ==> t[p].parent != NULL)
  }

  ghost predicate AllOk(t: seq<Proc>, heads: seq<int>, kids: seq<seq<int>>, qs: seq<seq<int>>, current: int) {
    PidsOk(t) && TreeOk(t, kids) && QueuesOk(t, heads, qs) && SchedOk(t, current) && ReapOk(t, kids)
  }

  // ----- edits that touch one aspect only -----

  ghost predicate OnlyWaitsChange(t: seq<Proc>, t': seq<Proc>) {
    && |t'| == |t|
    && forall i :: 0 <= i < |t| ==> t'[i] == t[i].(waitNext := t'[i].waitNext, waitingOn := t'[i].waitingOn)
  }

  lemma WaitsFrame(t: seq<Proc>, t': seq<Proc>, kids: seq<seq<int>>, current: int)
    requires OnlyWaitsChange(t, t') && PidsOk(t) && TreeOk(t, kids) && SchedOk(t, current) && ReapOk(t, kids)
    ensures PidsOk(t') && TreeOk(t', kids) && SchedOk(t', current) && ReapOk(t', kids)
  {
    hide TreeOk;
    forall i ensures Live(t', i) == Live(t, i) {}
    TreeFrame(t, t', kids);
  }

  ghost predicate OnlyTreeChanges(t: seq<Proc>, t': seq<Proc>) {
    && |t'| == |t|
    && forall i :: 0 <= i < |t| ==>
         t'[i] == t[i].(parent := t'[i].parent, ppid := t'[i].ppid, children := t'[i].children, sibling := t'[i].sibling)
  }

  lemma TreeChangeFrame(t: seq<Proc>, t': seq<Proc>, heads: seq<int>, qs: seq<seq<int>>, current: int)
    requires OnlyTreeChanges(t, t') && PidsOk(t) && QueuesOk(t, heads, qs) && SchedOk(t, current)
    ensures PidsOk(t') && QueuesOk(t', heads, qs) && SchedOk(t', current)
  {
    hide QueuesOk;
    forall i ensures Live(t', i) == Live(t, i) {}
    QueuesFrame(t, t', heads, qs);
  }

  // States, slices and aging change, but no slot is taken or freed and no process becomes or
  // stops being a zombie.
  ghost predicate OnlyRunStateChanges(t: seq<Proc>, t': seq<Proc>) {
    && |t'| == |t|
    && forall i :: 0 <= i < |t| ==>
         && t'[i] == t[i].(state := t'[i].state, aging := t'[i].aging, timeSlice := t'[i].timeSlice, wakeupTick := t'[i].wakeupTick)
         && (t'[i].state.Unused? <==> t[i].state.Unused?) && (t'[i].state.Zombie? <==> t[i].state.Zombie?)
  }

  lemma RunStateFrame(t: seq<Proc>, t': seq<Proc>, heads: seq<int>, kids: seq<seq<int>>, qs: seq<seq<int>>)
    requires OnlyRunStateChanges(t, t') && PidsOk(t) && TreeOk(t, kids) && QueuesOk(t, heads, qs) && ReapOk(t, kids)
    ensures PidsOk(t') && TreeOk(t', kids) && QueuesOk(t', heads, qs) && ReapOk(t', kids)
  {
    hide TreeOk, QueuesOk;
    forall i ensures Live(t', i) == Live(t, i) {}
    TreeFrame(t, t', kids);
    QueuesFrame(t, t', heads, qs);
  }

  // ----- creating -----

  ghost function KidsAfterAdd(kids: seq<seq<int>>, p: nat, c: nat): seq<seq<int>>
    requires p < |kids| && c < |kids|
  {
    kids[p := [c] + kids[p]][c := []]
  }

  // What a slot that was unused holds does not matter to the queues unless it waits.
  lemma SlotKeepsQueues(t: seq<Proc>, t': seq<Proc>, heads: seq<int>, qs: seq<seq<int>>, c: int)
    requires QueuesOk(t, heads, qs) && 0 <= c < |t| == |t'| && !Live(t, c) && (Live(t', c) ==> t'[c].waitingOn == NULL)
    requires forall i :: 0 <= i < |t| && i != c ==>
               (Live(t', i) <==> Live(t, i)) && t'[i].waitNext == t[i].waitNext && t'[i].waitingOn == t[i].waitingOn
    ensures QueuesOk(t', heads, qs)
  {
    hide Linked;
    forall q | 0 <= q < |heads| ensures Linked(WaitLinks(t'), heads[q], qs[q]) {
      assert !Waits(t, q, c) && (c in qs[q] <==> Waits(t, q, c));
      LinkedFrame(WaitLinks(t), WaitLinks(t'), heads[q], qs[q]);
    }
    forall q, p | 0 <= q < |heads| ensures p in qs[q] <==> Waits(t', q, p) {
      assert p in qs[q] <==> Waits(t, q, p);
    }
  }

  // A new process under this pid.
  function Born(userMode: bool, pid: nat): Proc {
    WithPriority(BLANK.(state := Runnable, pid := pid, timeSlice := TIMESLICE),
                 if userMode then PRIORITY_DEFAULT else PRIORITY_KERNEL)
  }

  // The table with a new child of process `p` in slot c, under the least free pid.
  function WithBorn(t: seq<Proc>, p: nat, c: nat, userMode: bool): seq<Proc>
    requires p < |t| && c < |t| && p != c
  {
    var blank := t[c := BLANK];
    AddChild(blank, p, c, Born(userMode, LeastFreePid(blank, 1)))
  }

  // What a new process starts with.
  ghost predicate NewProcess(p: Proc, creator: Proc, slot: nat, userMode: bool) {
    && p.timeSlice == 10 && p.aging == 0 && p.wakeupTick == 0 && p.waitingOn == NULL
    && p.basePriority == (if userMode then 3 else 0) && p.weight == (if userMode then 160 else 256)
    && p.parent == slot && p.ppid == creator.pid
  }

  lemma BornIs(t: seq<Proc>, p: nat, c: nat, userMode: bool, pid: nat)
    requires p < |t| && c < |t| && p != c
    ensures var t' := AddChild(t, p, c, Born(userMode, pid)); NewProcess(t'[c], t'[p], p, userMode)
  {}

  lemma CreateKeeps(t: seq<Proc>, heads: seq<int>, kids: seq<seq<int>>, qs: seq<seq<int>>, current: nat, c: nat,
                    born: Proc)
    requires AllOk(t, heads, kids, qs, current) && c < |t| && !Live(t, c)
    requires t[current].state.Zombie? ==> t[current].pid == INIT_PID
    requires born.state.Runnable? && born.pid < MAX_PROCESSES && !InUse(t, born.pid)
    requires born.waitingOn == NULL && born.aging == 0 && born.timeSlice == TIMESLICE
             && born.basePriority <= PRIORITY_MAX
    ensures AllOk(AddChild(t, current, c, born), heads, KidsAfterAdd(kids, current, c), qs, current)
  {
    hide TreeOk, QueuesOk;
    var t', kids' := AddChild(t, current, c, born), KidsAfterAdd(kids, current, c);
    assert |kids| == |t|;
    AddChildKeeps(t, kids, current, c, born);
    forall i ensures Live(t', i) <==> Live(t, i) || i == c {}
    SlotKeepsQueues(t, t', heads, qs, c);
    assert PidsOk(t') by {
      forall i | Live(t, i) ensures t[i].pid != born.pid { assert !InUse(t, born.pid); }
    }
  }

  // ----- destroying -----

  // What removing p changes outside the tree links: only slot p.
  ghost predicate Dropped(t: seq<Proc>, t': seq<Proc>, p: int) {
    && |t'| == |t| && 0 <= p < |t| && t'[p] == BLANK
    && forall i :: 0 <= i < |t| && i != p ==> t'[i] == t[i].(children := t'[i].children, sibling := t'[i].sibling)
  }

  lemma RemoveDrops(t: seq<Proc>, p: nat, pred: int)
    requires p < |t| && (t[p].parent == NULL || 0 <= t[p].parent < |t|) && (pred == NULL || 0 <= pred < |t|)
    ensures Dropped(t, Remove(t, p, pred), p)
    ensures t[p].parent == NULL ==> Remove(t, p, pred) == t[p := BLANK]
  {}

  lemma DropKeepsQueues(t: seq<Proc>, t': seq<Proc>, heads: seq<int>, qs: seq<seq<int>>, p: int)
    requires QueuesOk(t, heads, qs) && Dropped(t, t', p) && Live(t, p) && t[p].waitingOn == NULL
    ensures QueuesOk(t', heads, qs)
  {
    hide Linked;
    forall i ensures Live(t', i) <==> Live(t, i) && i != p {}
    forall q | 0 <= q < |heads| ensures Linked(WaitLinks(t'), heads[q], qs[q]) {
      assert !Waits(t, q, p) && (p in qs[q] <==> Waits(t, q, p));
      LinkedFrame(WaitLinks(t), WaitLinks(t'), heads[q], qs[q]);
    }
    forall q, d | 0 <= q < |heads| ensures d in qs[q] <==> Waits(t', q, d) {
      assert d in qs[q] <==> Waits(t, q, d);
    }
  }

  lemma DropKeepsRest(t: seq<Proc>, t': seq<Proc>, kids: seq<seq<int>>, kids': seq<seq<int>>, current: int, p: int)
    requires PidsOk(t) && SchedOk(t, current) && ReapOk(t, kids) && Dropped(t, t', p) && p != current && p != 0
    requires |kids'| == |kids| && forall i :: 0 <= i < |kids| && kids[i] == [] ==> kids'[i] == []
    ensures PidsOk(t') && SchedOk(t', current) && ReapOk(t', kids')
  {
    forall i ensures Live(t', i) <==> Live(t, i) && i != p {}
  }

  lemma RemoveKeepsAll(t: seq<Proc>, heads: seq<int>, kids: seq<seq<int>>, qs: seq<seq<int>>, current: nat, p: nat,
                       k: nat, pred: int)
    requires AllOk(t, heads, kids, qs, current) && Live(t, p) && p != current && p != 0 && Childless(kids, p)
    requires t[p].waitingOn == NULL
    requires if t[p].parent == NULL then pred == NULL else At(t, kids, p, k, pred)
    ensures pred == NULL || 0 <= pred < |t|
    ensures AllOk(Remove(t, p, pred), heads, Removed(t, kids, p, k, pred), qs, current)
  {
    ParentInRange(t, kids, p);
    RemoveKeeps(t, kids, p, k, pred);
    RemoveDrops(t, p, pred);
    hide TreeOk, QueuesOk, PidsOk, SchedOk, Dropped, Remove;
    DropKeepsQueues(t, Remove(t, p, pred), heads, qs, p);
    DropKeepsRest(t, Remove(t, p, pred), kids, Removed(t, kids, p, k, pred), current, p);
  }

  lemma ParentInRange(t: seq<Proc>, kids: seq<seq<int>>, p: int)
    requires TreeOk(t, kids) && Live(t, p)
    ensures t[p].parent == NULL || Live(t, t[p].parent)
  {}

  // A live process with a parent is somewhere on that parent's list.
  lemma OnParentsList(t: seq<Proc>, kids: seq<seq<int>>, p: int) returns (k: nat, pred: int)
    requires TreeOk(t, kids) && Live(t, p) && t[p].parent != NULL
    ensures At(t, kids, p, k, pred)
  {
    var par := t[p].parent;
    assert Listed(kids, NULL, [], par, p) <==> IsChildOf(t, par, p);
    k :| 0 <= k < |kids[par]| && kids[par][k] == p;
    pred := if k == 0 then NULL else kids[par][k - 1];
  }

  // Which processes process_reap_zombies destroys: orphaned zombies. (It also tests for a
  // parent slot that is unused, which never happens.)
  ghost predicate Reapable(t: seq<Proc>, current: int, i: int) {
    0 <= i < |t| && t[i].state.Zombie? && i != current && t[i].parent == NULL
  }

  // Slot p is cleared; elsewhere only links change, and no tree links if p had no parent.
  ghost predicate Destroyed(t: seq<Proc>, t': seq<Proc>, p: int) {
    && |t'| == |t| && 0 <= p < |t| && t'[p] == BLANK
    && forall i :: 0 <= i < |t| && i != p ==>
         && t'[i] == t[i].(waitNext := t'[i].waitNext, children := t'[i].children, sibling := t'[i].sibling)
         && (t[p].parent == NULL ==> t'[i].children == t[i].children && t'[i].sibling == t[i].sibling)
         && (t[i].state.Unused? ==> t'[i] == t[i])
  }

  lemma DestroyedAfterWait(t: seq<Proc>, t1: seq<Proc>, t2: seq<Proc>, p: int)
    requires OnlyWaitsChange(t, t1) && Destroyed(t1, t2, p)
    requires forall i :: 0 <= i < |t| && i != p ==>
               t1[i].waitingOn == t[i].waitingOn && (t[i].state.Unused? ==> t1[i] == t[i])
    ensures Destroyed(t, t2, p)
  {}

  // p leaves its parent's children, and the others keep their order.
  ghost predicate LeftParent(t: seq<Proc>, kids: seq<seq<int>>, kids': seq<seq<int>>, p: int)
    requires 0 <= p < |t|
  {
    var par := t[p].parent;
    if par == NULL then kids' == kids
    else
      && 0 <= par < |kids|
      && exists k :: 0 <= k < |kids[par]| && kids[par][k] == p && kids' == kids[par := Without(kids[par], k)]
  }

  // After reaping the first n slots.
  ghost predicate Reaped(t: seq<Proc>, t': seq<Proc>, current: int, n: nat) {
    && |t'| == |t|
    && forall i :: 0 <= i < |t| ==>
         if i < n && Reapable(t, current, i) then t'[i] == BLANK else t'[i] == t[i].(waitNext := t'[i].waitNext)
  }

  // ----- running, sleeping, waking -----

  // scheduler_make_runnable
  function Ready(p: Proc): Proc {
    p.(state := if p.state.Runnable? || p.state.Running? then p.state else Runnable,
       timeSlice := if p.timeSlice == 0 || p.timeSlice > TIMESLICE then TIMESLICE else p.timeSlice,
       aging := if p.aging < 0 then 0 else p.aging)
  }

  // A process taken off a wait queue.
  function Woken(p: Proc): Proc {
    var off := p.(waitNext := NULL, waitingOn := NULL);
    if p.state.Sleeping? then Ready(off) else off
  }

  // A woken process is on no queue, and it can run if it was asleep.
  ghost predicate WokenFields(was: Proc, after: Proc) {
    && after.waitNext == NULL && after.waitingOn == NULL
    && after.state == (if was.state.Sleeping? then Runnable else was.state)
    && after.pid == was.pid && after.wakeupTick == was.wakeupTick
  }

  lemma WokenIs(p: Proc)
    ensures WokenFields(p, Woken(p))
  {}

  lemma ReadyKeeps(t: seq<Proc>, heads: seq<int>, kids: seq<seq<int>>, qs: seq<seq<int>>, current: int, p: int)
    requires AllOk(t, heads, kids, qs, current) && Live(t, p) && !t[p].state.Zombie?
    ensures AllOk(t[p := Ready(t[p])], heads, kids, qs, current)
  {
    hide TreeOk, QueuesOk, PidsOk, ReapOk;
    var t' := t[p := Ready(t[p])];
    RunStateFrame(t, t', heads, kids, qs);
    forall i ensures Live(t', i) == Live(t, i) {}
  }

  lemma JoinKeeps(t: seq<Proc>, heads: seq<int>, kids: seq<seq<int>>, qs: seq<seq<int>>, current: nat, q: nat)
    requires AllOk(t, heads, kids, qs, current) && q < |heads| && t[current].waitingOn == NULL
             && !t[current].state.Zombie?
    ensures var r := Enqueue(t, heads, current, q); AllOk(r.0, r.1, kids, qs[q := [current] + qs[q]], current)
  {
    EnqueueKeeps(t, heads, qs, current, q);
    var t' := Enqueue(t, heads, current, q).0;
    forall i ensures Live(t', i) == Live(t, i) {}
    hide QueuesOk, TreeOk;
    TreeFrame(t, t', kids);
  }

  // ----- heads, reaping and waking -----

  lemma QueueHead(t: seq<Proc>, heads: seq<int>, qs: seq<seq<int>>, q: nat)
    requires QueuesOk(t, heads, qs) && q < |qs|
    ensures heads[q] == if qs[q] == [] then NULL else qs[q][0]
  {}

  lemma ChildrenHead(t: seq<Proc>, kids: seq<seq<int>>, p: int)
    requires TreeOk(t, kids) && Live(t, p)
    ensures t[p].children == if kids[p] == [] then NULL else kids[p][0]
  {}

  lemma OrphanIsChildless(t: seq<Proc>, kids: seq<seq<int>>, i: int)
    requires TreeOk(t, kids) && ReapOk(t, kids) && Live(t, i) && t[i].state.Zombie?
    ensures t[i].parent == NULL || Live(t, t[i].parent)
    ensures i != 0 && (t[i].parent == NULL ==> Childless(kids, i))
  {}

  lemma ReapOne(t: seq<Proc>, t1: seq<Proc>, t2: seq<Proc>, current: int, i: nat)
    requires Reaped(t, t1, current, i) && Reapable(t1, current, i) && Destroyed(t1, t2, i)
    ensures Reaped(t, t2, current, i + 1)
  {}

  lemma PredIsLive(t: seq<Proc>, kids: seq<seq<int>>, p: int, k: nat, pred: int)
    requires TreeOk(t, kids) && Live(t, p) && At(t, kids, p, k, pred)
    ensures pred == NULL || Live(t, pred)
  {
    var par := t[p].parent;
    if pred != NULL {
      assert pred in kids[par];
      assert Listed(kids, NULL, [], par, pred) <==> IsChildOf(t, par, pred);
    }
  }

  // What an unused slot holds does not matter.
  lemma BlankKeeps(t: seq<Proc>, heads: seq<int>, kids: seq<seq<int>>, qs: seq<seq<int>>, current: int, c: int, x: Proc)
    requires AllOk(t, heads, kids, qs, current) && 0 <= c < |t| && !Live(t, c) && x.state.Unused?
    ensures AllOk(t[c := x], heads, kids, qs, current)
  {
    hide TreeOk, QueuesOk;
    var t' := t[c := x];
    forall i ensures Live(t', i) == Live(t, i) {}
    BlankKeepsTree(t, kids, c, x);
    SlotKeepsQueues(t, t', heads, qs, c);
  }

  lemma BlankKeepsTree(t: seq<Proc>, kids: seq<seq<int>>, c: int, x: Proc)
    requires TreeOk(t, kids) && 0 <= c < |t| && !Live(t, c) && x.state.Unused?
    ensures TreeOk(t[c := x], kids)
  {
    hide Linked;
    var t' := t[c := x];
    forall i ensures Live(t', i) == Live(t, i) {}
    forall p | Live(t, p) ensures Linked(Siblings(t'), t'[p].children, kids[p]) {
      assert !IsChildOf(t, p, c) && (Listed(kids, NULL, [], p, c) <==> IsChildOf(t, p, c));
      LinkedFrame(Siblings(t), Siblings(t'), t[p].children, kids[p]);
    }
    forall p, d | Live(t', p) ensures Listed(kids, NULL, [], p, d) <==> IsChildOf(t', p, d) {
      assert Listed(kids, NULL, [], p, d) <==> IsChildOf(t, p, d);
    }
  }

  lemma OthersHaveOtherPids(t: seq<Proc>, slot: int)
    requires PidsOk(t) && Live(t, slot)
    ensures forall i :: Live(t, i) && i != slot ==> t[i].pid != t[slot].pid
  {}

  lemma ReapedZombie(t: seq<Proc>, t': seq<Proc>, current: int)
    requires Reaped(t, t', current, |t|) && 0 <= current < |t|
    ensures t'[current].state == t[current].state
  {}

  lemma WakeStart(t: seq<Proc>, heads: seq<int>, qs: seq<seq<int>>, q: nat)
    requires QueuesOk(t, heads, qs) && q < |heads|
    ensures QueuesWith(t, heads[q := NULL], qs[q := []], q, heads[q], qs[q])
    ensures heads[q] == if qs[q] == [] then NULL else qs[q][0]
    ensures forall i :: 0 <= i < |qs[q]| ==> 0 <= qs[q][i] < |t|
    ensures forall i, j :: 0 <= i < j < |qs[q]| ==> qs[q][i] != qs[q][j]
  {
    DetachAll(t, heads, qs, q);
    LinkedDistinct(WaitLinks(t), heads[q], qs[q]);
    LinkedInRange(WaitLinks(t), heads[q], qs[q]);
    assert forall i :: 0 <= i < |qs[q]| ==> qs[q][i] in qs[q];
  }

  lemma LooseFirst(t: seq<Proc>, heads: seq<int>, qs: seq<seq<int>>, q: nat, all: seq<int>, k: nat)
    requires k < |all| && q < |heads| && QueuesWith(t, heads, qs, q, all[k], all[k..])
    ensures Live(t, all[k]) && t[all[k]].waitingOn == q
    ensures t[all[k]].waitNext == if k + 1 < |all| then all[k + 1] else NULL
  {
    assert all[k..][0] == all[k] && all[k] in all[k..];
    assert Queued(qs, q, all[k..], q, all[k]) <==> Waits(t, q, all[k]);
    LinkedNext(WaitLinks(t), all[k], all[k..], 0);
  }

  lemma WokenKeeps(t: seq<Proc>, kids: seq<seq<int>>, current: int, p: int)
    requires PidsOk(t) && TreeOk(t, kids) && SchedOk(t, current) && ReapOk(t, kids) && Live(t, p)
    ensures var t' := t[p := Woken(t[p])];
            PidsOk(t') && TreeOk(t', kids) && SchedOk(t', current) && ReapOk(t', kids)
  {
    hide TreeOk;
    var t' := t[p := Woken(t[p])];
    forall i ensures Live(t', i) == Live(t, i) {}
    TreeFrame(t, t', kids);
  }

  function Reversed(xs: seq<int>): seq<int> {
    if xs == [] then [] else Reversed(xs[1..]) + [xs[0]]
  }

  lemma {:induction false} ReversedAppend(xs: seq<int>, y: int)
    ensures Reversed(xs + [y]) == [y] + Reversed(xs)
  {
    if xs == [] {
      assert xs + [y] == [y];
    } else {
      ReversedAppend(xs[1..], y);
      assert (xs + [y])[1..] == xs[1..] + [y];
    }
  }

  lemma ReversedSnoc(all: seq<int>, k: nat)
    requires k < |all|
    ensures Reversed(all[..k + 1]) == [all[k]] + Reversed(all[..k])
  {
    assert all[..k + 1] == all[..k] + [all[k]];
    ReversedAppend(all[..k], all[k]);
  }

  lemma LooseInRange(t: seq<Proc>, kids: seq<seq<int>>, from: int, all: seq<int>, k: nat, at: int)
    requires at != NULL && k <= |all| && at == (if k < |all| then all[k] else NULL)
             && TreeWith(t, kids, from, at, all[k..])
    ensures k < |all| && 0 <= at < |t|
  {
    assert all[k..][0] == all[k];
  }

  lemma LooseChild(t: seq<Proc>, kids: seq<seq<int>>, from: int, all: seq<int>, k: nat)
    requires k < |all| && TreeWith(t, kids, from, all[k], all[k..])
    ensures 0 <= all[k] < |t| && all[k..][0] == all[k]
    ensures t[all[k]].sibling == if k + 1 < |all| then all[k + 1] else NULL
  {
    assert all[k..][0] == all[k];
    LinkedNext(Siblings(t), all[k], all[k..], 0);
  }

  lemma LooseDone(t: seq<Proc>, kids: seq<seq<int>>, from: int, all: seq<int>, k: nat, at: int)
    requires at == NULL && k <= |all| && at == (if k < |all| then all[k] else NULL)
             && TreeWith(t, kids, from, at, all[k..])
    ensures k == |all| && all[k..] == []
  {}

  // ----- exiting -----

  // The children lists after all children of `from` moved, one by one, to the front of init's.
  ghost function Orphaned(kids: seq<seq<int>>, from: nat, init: int): seq<seq<int>>
    requires from < |kids| && (init == NULL || 0 <= init < |kids|)
  {
    var rest := kids[from := []];
    if init == NULL then rest else rest[init := Reversed(kids[from]) + rest[init]]
  }

  // Process c becomes a zombie and its parent is woken if it sleeps.
  function Died(t: seq<Proc>, c: nat): seq<Proc>
    requires c < |t|
  {
    ParentWoken(t[c := t[c].(state := Zombie)], c)
  }

  function ParentWoken(t: seq<Proc>, c: nat): seq<Proc>
    requires c < |t|
  {
    var par := t[c].parent;
    if 0 <= par < |t| && t[par].state.Sleeping? then t[par := Ready(t[par])] else t
  }

  // The exiting process, its children handed over, becomes a zombie.
  lemma ExitKeeps(t0: seq<Proc>, t: seq<Proc>, heads: seq<int>, kids0: seq<seq<int>>, kids: seq<seq<int>>,
                  qs: seq<seq<int>>, current: nat, init: int)
    requires PidsOk(t0) && ReapOk(t0, kids0) && OnlyTreeChanges(t0, t) && Live(t0, current) && t0[current].pid != 0
    requires PidsOk(t) && TreeOk(t, kids) && QueuesOk(t, heads, qs) && SchedOk(t, current)
    requires init == FindPid(t0, INIT_PID, 0) && |kids0| == |t0| && (init == NULL || Live(t0, init))
    requires current < |kids0| && kids == Orphaned(kids0, current, init)
    requires ReparentedTo(t0, t, kids0[current], init) && TreeOk(t0, kids0)
    ensures AllOk(t[current := t[current].(state := Zombie)], heads, kids, qs, current)
  {
    hide TreeOk, QueuesOk, ReapOk, OnlyTreeChanges, ReparentedTo, Orphaned, FindPid;
    var t' := t[current := t[current].(state := Zombie)];
    ExitReap(t0, t, kids0, kids, current, init);
    TreeFrame(t, t', kids);
    QueuesFrame(t, t', heads, qs);
    forall i ensures Live(t', i) == Live(t, i) {}
  }

  lemma ExitReap(t0: seq<Proc>, t: seq<Proc>, kids0: seq<seq<int>>, kids: seq<seq<int>>, current: nat, init: int)
    requires PidsOk(t0) && TreeOk(t0, kids0) && ReapOk(t0, kids0) && OnlyTreeChanges(t0, t) && Live(t0, current)
             && t0[current].pid != 0
    requires init == FindPid(t0, INIT_PID, 0) && |kids0| == |t0| && (init == NULL || Live(t0, init))
    requires current < |kids0| && kids == Orphaned(kids0, current, init)
    requires ReparentedTo(t0, t, kids0[current], init)
    ensures ReapOk(t[current := t[current].(state := Zombie)], kids)
  {
    var t' := t[current := t[current].(state := Zombie)];
    KernelIsNoChild(t0, kids0, current);
    hide TreeOk, FindPid, Reversed;
    assert forall i :: Live(t', i) <==> Live(t0, i);
    forall z | Live(t', z) && t'[z].state.Zombie? && t'[z].pid != INIT_PID ensures kids[z] == [] {
      assert t0[z].pid == t'[z].pid;
    }
    forall p | Live(t', p) && t'[p].pid == INIT_PID ensures t'[p].parent != NULL {
      assert t0[p].pid == t'[p].pid;
    }
  }

  lemma KernelIsNoChild(t: seq<Proc>, kids: seq<seq<int>>, p: int)
    requires TreeOk(t, kids) && ReapOk(t, kids) && Live(t, p)
    ensures 0 !in kids[p]
  {
    assert Listed(kids, NULL, [], p, 0) <==> IsChildOf(t, p, 0);
  }

  lemma ParentOfCurrent(t: seq<Proc>, heads: seq<int>, kids: seq<seq<int>>, qs: seq<seq<int>>, current: int)
    requires AllOk(t, heads, kids, qs, current)
    ensures |t| == MAX_PROCESSES && Live(t, current) && (t[current].parent == NULL || 0 <= t[current].parent < |t|)
  {}

  // Only processes of `all` change parent, and then to `init`.
  ghost predicate ReparentedTo(t: seq<Proc>, t': seq<Proc>, all: seq<int>, init: int) {
    && |t'| == |t|
    && forall i :: 0 <= i < |t| ==> t'[i].parent == t[i].parent || (i in all && t'[i].parent == init)
  }

  // What an exit does, before the scheduler runs: the process is a zombie, its children and no
  // others are given to init, and its parent can run if it was asleep.
  ghost predicate ExitFields(t0: seq<Proc>, t: seq<Proc>, from: nat, init: int) {
    && |t| == |t0| && from < |t0| && t[from].state.Zombie?
    && (forall i :: Live(t0, i) ==> t[i].parent == if t0[i].parent == from then init else t0[i].parent)
    && forall i :: 0 <= i < |t0| && i != from ==>
         t[i].state == if i == t[from].parent && t0[i].state.Sleeping? then Runnable else t0[i].state
  }

  lemma ChildOfExiting(t0: seq<Proc>, t: seq<Proc>, kids0: seq<seq<int>>, kids: seq<seq<int>>, from: nat, init: int, i: nat)
    requires TreeOk(t0, kids0) && TreeOk(t, kids) && OnlyTreeChanges(t0, t) && Live(t0, from) && Live(t0, i)
    requires init == NULL || Live(t0, init)
    requires from < |kids0| && kids == Orphaned(kids0, from, init) && ReparentedTo(t0, t, kids0[from], init)
    ensures t[i].parent == if t0[i].parent == from then init else t0[i].parent
  {
    hide Linked, Reversed;
    assert i in kids0[from] <==> t0[i].parent == from by {
      assert Listed(kids0, NULL, [], from, i) <==> IsChildOf(t0, from, i);
    }
    assert Listed(kids, NULL, [], from, i) <==> IsChildOf(t, from, i);
  }

  lemma ExitIs(t0: seq<Proc>, t: seq<Proc>, kids0: seq<seq<int>>, kids: seq<seq<int>>, from: nat, init: int)
    requires TreeOk(t0, kids0) && TreeOk(t, kids) && OnlyTreeChanges(t0, t) && Live(t0, from)
    requires init == NULL || Live(t0, init)
    requires from < |kids0| && kids == Orphaned(kids0, from, init) && ReparentedTo(t0, t, kids0[from], init)
    ensures ExitFields(t0, Died(t, from), from, init)
  {
    hide TreeOk, Orphaned, ReparentedTo;
    forall i | Live(t0, i) ensures t[i].parent == if t0[i].parent == from then init else t0[i].parent {
      ChildOfExiting(t0, t, kids0, kids, from, init, i);
    }
  }

  lemma AdoptedLists(kids: seq<seq<int>>, lists: seq<seq<int>>, init: int, all: seq<int>, k: nat)
    requires k < |all| && (init == NULL || 0 <= init < |lists|) && all[k] >= 0
    requires kids == if init == NULL then lists else lists[init := Reversed(all[..k]) + lists[init]]
    ensures Adopted(kids, all[k], init) == if init == NULL then lists
            else lists[init := Reversed(all[..k + 1]) + lists[init]]
  {
    ReversedSnoc(all, k);
    if init != NULL {
      assert [all[k]] + (Reversed(all[..k]) + lists[init]) == Reversed(all[..k + 1]) + lists[init];
    }
  }

  lemma AdoptFrame(t: seq<Proc>, t1: seq<Proc>, all: seq<int>, k: nat, init: int)
    requires k < |all| && 0 <= all[k] < |t| && (init == NULL || 0 <= init < |t|)
    requires OnlyTreeChanges(t, t1) && ReparentedTo(t, t1, all, init)
    ensures OnlyTreeChanges(t, Adopt(t1, all[k], init)) && ReparentedTo(t, Adopt(t1, all[k], init), all, init)
  {}

  // ----- switching -----

  // Who runs after a process has blocked: the best runnable one, else the kernel.
  ghost predicate Chosen(t: seq<Proc>, next: int) {
    if AnyRunnable(t) then IsBest(t, next) else next == 0
  }

  // The table after `to` was chosen while `from` was current.
  ghost function Dispatched(t: seq<Proc>, from: nat, to: nat): seq<Proc>
    requires from < |t| && to < |t|
  {
    if to != from then Switched(t, from, to)
    else if t[from].state.Running? && !AnyRunnable(t) then t[from := t[from].(timeSlice := TIMESLICE)]
    else t
  }

  ghost predicate AnyRunnable(t: seq<Proc>) { exists i :: IsRunnable(t, i) }

  // The table after the processor moves from slot `from` to slot `to`.
  function Switched(t: seq<Proc>, from: nat, to: nat): seq<Proc>
    requires from < |t| && to < |t|
  {
    var was := t[from];
    var t1 := if was.state.Running?
              then t[from := was.(state := Runnable, aging := if was.aging < AGING_MAX then was.aging + 1 else was.aging)]
              else t;
    t1[to := t1[to].(state := Running, timeSlice := TIMESLICE, aging := 0)]
  }

  // What dispatching does to each slot, from the table before reaping to the one after switching.
  ghost predicate DispatchFields(t0: seq<Proc>, t': seq<Proc>, from: nat, to: nat) {
    && |t'| == |t0| && from < |t0| && to < |t0|
    && (forall i :: 0 <= i < |t0| && i != from && i != to ==>
          t'[i] == if Reapable(t0, from, i) then BLANK else t0[i].(waitNext := t'[i].waitNext))
    && (to != from ==>
          && t'[to] == t0[to].(state := Running, timeSlice := 10, aging := 0, waitNext := t'[to].waitNext)
          && var was := t0[from].(waitNext := t'[from].waitNext);
             t'[from] == if was.state.Running?
                         then was.(state := Runnable, aging := if was.aging < 32 then was.aging + 1 else was.aging)
                         else was)
    && (to == from ==>
          && t'[to] == t0[to].(waitNext := t'[to].waitNext, timeSlice := t'[to].timeSlice)
          && (t'[to].timeSlice == t0[to].timeSlice || (t0[to].state.Running? && t'[to].timeSlice == 10)))
  }

  lemma DispatchIs(t0: seq<Proc>, t: seq<Proc>, from: nat, to: nat)
    requires Reaped(t0, t, from, |t0|) && from < |t0| && to < |t0| && (to != from ==> !t0[to].state.Zombie?)
    ensures DispatchFields(t0, Dispatched(t, from, to), from, to)
  {}

  lemma DispatchAny(t0: seq<Proc>, t: seq<Proc>, from: nat)
    requires |t| == |t0| && Reaped(t0, t, from, |t0|) && from < |t0|
    ensures forall to: nat :: to < |t0| && (to != from ==> !t0[to].state.Zombie?) ==>
              DispatchFields(t0, Dispatched(t, from, to), from, to)
  {
    hide Reaped, DispatchFields, Dispatched;
    forall to: nat | to < |t0| && (to != from ==> !t0[to].state.Zombie?)
      ensures DispatchFields(t0, Dispatched(t, from, to), from, to)
    {
      DispatchIs(t0, t, from, to);
    }
  }

  // A process that sleeps while another is dispatched sleeps on.
  lemma StillAsleep(t0: seq<Proc>, t: seq<Proc>, from: nat, to: nat, p: nat)
    requires Reaped(t0, t, from, |t0|) && from < |t0| && to < |t0| && p < |t0| && t0[p].state.Sleeping?
    requires to == p ==> to == from
    ensures var r := Dispatched(t, from, to); r[p] == t0[p].(waitNext := r[p].waitNext)
  {}

  lemma SwitchKeeps(t: seq<Proc>, heads: seq<int>, kids: seq<seq<int>>, qs: seq<seq<int>>, from: nat, to: nat)
    requires AllOk(t, heads, kids, qs, from) && Live(t, to) && !t[to].state.Zombie? && to != from
    ensures AllOk(Switched(t, from, to), heads, kids, qs, to)
  {
    hide TreeOk, QueuesOk, PidsOk, ReapOk;
    var t' := Switched(t, from, to);
    RunStateFrame(t, t', heads, kids, qs);
    forall i ensures Live(t', i) == Live(t, i) {}
  }

  lemma SliceKeeps(t: seq<Proc>, heads: seq<int>, kids: seq<seq<int>>, qs: seq<seq<int>>, current: nat)
    requires AllOk(t, heads, kids, qs, current)
    ensures AllOk(t[current := t[current].(timeSlice := TIMESLICE)], heads, kids, qs, current)
  {
    hide TreeOk, QueuesOk, PidsOk, ReapOk;
    var t' := t[current := t[current].(timeSlice := TIMESLICE)];
    RunStateFrame(t, t', heads, kids, qs);
    forall i ensures Live(t', i) == Live(t, i) {}
  }

  lemma SleepKeeps(t: seq<Proc>, heads: seq<int>, kids: seq<seq<int>>, qs: seq<seq<int>>, current: nat, wakeup: nat)
    requires AllOk(t, heads, kids, qs, current) && !t[current].state.Zombie?
    ensures AllOk(t[current := t[current].(state := Sleeping, wakeupTick := wakeup)], heads, kids, qs, current)
  {
    hide TreeOk, QueuesOk, PidsOk, ReapOk;
    var t' := t[current := t[current].(state := Sleeping, wakeupTick := wakeup)];
    RunStateFrame(t, t', heads, kids, qs);
    forall i ensures Live(t', i) == Live(t, i) {}
  }

  lemma SleepsOnItsQueue(t: seq<Proc>, heads: seq<int>, kids: seq<seq<int>>, qs: seq<seq<int>>, current: int, p: nat)
    requires AllOk(t, heads, kids, qs, current) && p < |t| && t[p].state.Sleeping? && t[p].waitingOn != NULL
    ensures 0 <= t[p].waitingOn < |qs| && p in qs[t[p].waitingOn]
  {
    hide TreeOk, PidsOk, SchedOk, ReapOk, QueuesOk;
    OnItsQueue(t, heads, qs, p);
  }

  lemma AgingBound(t: seq<Proc>, heads: seq<int>, kids: seq<seq<int>>, qs: seq<seq<int>>, current: int)
    requires AllOk(t, heads, kids, qs, current)
    ensures Live(t, current) && t[current].aging <= 32
  {}

  lemma KernelIsReady(t: seq<Proc>, heads: seq<int>, kids: seq<seq<int>>, qs: seq<seq<int>>, current: int)
    requires AllOk(t, heads, kids, qs, current)
    ensures |t| == MAX_PROCESSES == |kids| && |heads| == |qs| && Live(t, current) && Live(t, 0) && !t[0].state.Zombie?
    ensures forall i :: Live(t, i) && t[i].state.Running? ==> i == current
  {}

  // Reaping changes nothing the scan looks at.
  lemma ReapedSame(t: seq<Proc>, t': seq<Proc>, current: int)
    requires Reaped(t, t', current, |t|) && 0 <= current < |t|
    ensures |t'| == |t| && t'[current].state == t[current].state
    ensures forall i :: IsRunnable(t', i) <==> IsRunnable(t, i)
    ensures AnyRunnable(t') <==> AnyRunnable(t)
    ensures 0 < |t| && !t[0].state.Zombie? ==> t'[0].state == t[0].state
  {
    forall i ensures IsRunnable(t', i) <==> IsRunnable(t, i) {
      if 0 <= i < |t| && Reapable(t, current, i) { assert t'[i] == BLANK; }
    }
  }

  lemma ReapedBest(t: seq<Proc>, t': seq<Proc>, current: int, i: int)
    requires Reaped(t, t', current, |t|) && IsBest(t', i)
    ensures IsBest(t, i)
  {
    forall j | 0 <= j < |t| && IsRunnable(t, j)
      ensures IsRunnable(t', j) && t'[j] == t[j].(waitNext := t'[j].waitNext)
    {}
  }

  // ----- the timer -----

  // One slot at a tick: due sleepers wake, other waiting processes age.
  function Ticked(p: Proc, isCurrent: bool, now: nat): Proc {
    if p.state.Sleeping? && p.wakeupTick != 0 && now % 0x1_0000_0000 >= p.wakeupTick then Ready(p.(wakeupTick := 0))
    else if p.state.Runnable? && !isCurrent && p.aging < AGING_MAX then p.(aging := p.aging + 1)
    else p
  }

  // The same field by field: `after` is a slot after the walk of a tick, `was` before.
  ghost predicate TickFields(was: Proc, after: Proc, isCurrent: bool, now: nat) {
    if was.state.Sleeping? then
      if was.wakeupTick == 0 || now % 0x1_0000_0000 < was.wakeupTick then after == was
      else after == was.(state := Runnable, wakeupTick := 0, timeSlice := if was.timeSlice == 0 then 10 else was.timeSlice)
    else if was.state.Runnable? && !isCurrent then after == was.(aging := if was.aging < 32 then was.aging + 1 else 32)
    else after == was
  }

  lemma TickedFields(t: seq<Proc>, heads: seq<int>, kids: seq<seq<int>>, qs: seq<seq<int>>, current: int, i: int, now: nat)
    requires AllOk(t, heads, kids, qs, current) && 0 <= i < |t|
    ensures TickFields(t[i], Ticked(t[i], i == current, now), i == current, now)
  {
    hide TreeOk, QueuesOk, PidsOk, ReapOk;
    assert t[i].state.Unused? || Live(t, i);
  }

  // The running process uses up a tick; at the end of its slice it gets a new one, and gives
  // way if another process is runnable.
  function SliceUsed(p: Proc, preempt: bool): Proc {
    if !p.state.Running? then p
    else if p.timeSlice > 1 then p.(timeSlice := p.timeSlice - 1)
    else p.(timeSlice := TIMESLICE, state := if preempt then Runnable else Running)
  }

  lemma TickKeeps(t: seq<Proc>, t': seq<Proc>, heads: seq<int>, kids: seq<seq<int>>, qs: seq<seq<int>>, current: int,
                  now: nat)
    requires AllOk(t, heads, kids, qs, current) && |t'| == |t|
    requires forall i :: 0 <= i < |t| ==> t'[i] == Ticked(t[i], i == current, now)
    ensures AllOk(t', heads, kids, qs, current)
  {
    hide TreeOk, QueuesOk, PidsOk, ReapOk;
    RunStateFrame(t, t', heads, kids, qs);
    forall i ensures Live(t', i) == Live(t, i) {}
  }

  lemma SliceUsedKeeps(t: seq<Proc>, heads: seq<int>, kids: seq<seq<int>>, qs: seq<seq<int>>, current: int,
                       preempt: bool)
    requires AllOk(t, heads, kids, qs, current)
    ensures AllOk(t[current := SliceUsed(t[current], preempt)], heads, kids, qs, current)
  {
    hide TreeOk, QueuesOk, PidsOk, ReapOk;
    var t' := t[current := SliceUsed(t[current], preempt)];
    RunStateFrame(t, t', heads, kids, qs);
    forall i ensures Live(t', i) == Live(t, i) {}
  }

  lemma UnqueueFrame(t: seq<Proc>, heads: seq<int>, p: nat, q: nat, pred: int)
    requires Live(t, p) && q < |heads| && (pred == NULL || Live(t, pred))
    ensures var t' := Unqueue(t, heads, p, q, pred).0;
            && OnlyWaitsChange(t, t') && t'[p].waitingOn == NULL
            && (forall i :: 0 <= i < |t| && i != p ==> t'[i].waitingOn == t[i].waitingOn)
            && (forall i :: 0 <= i < |t| && t[i].state.Unused? ==> t'[i] == t[i])
            && (pred == NULL ==> t' == t[p := t[p].(waitNext := NULL, waitingOn := NULL)])
  {}

  lemma OnItsQueue(t: seq<Proc>, heads: seq<int>, qs: seq<seq<int>>, p: nat)
    requires QueuesOk(t, heads, qs) && Live(t, p) && t[p].waitingOn != NULL
    ensures |qs| == |heads| && 0 <= t[p].waitingOn < |qs| && p in qs[t[p].waitingOn]
  {
    hide Linked;
    assert Waits(t, t[p].waitingOn, p);
  }

  lemma QueuedIsLive(t: seq<Proc>, heads: seq<int>, qs: seq<seq<int>>, q: nat, k: nat)
    requires QueuesOk(t, heads, qs) && q < |qs| && k < |qs[q]|
    ensures Live(t, qs[q][k])
  {
    hide Linked;
    assert qs[q][k] in qs[q] && Waits(t, q, qs[q][k]);
  }

  // ----- the table in memory -----

  class Processes {
    const table: array<Proc>
    const heads: array<int>
    var current: nat
    var nextPid: nat
    // The children lists and the wait queues, as sequences.
    ghost var kids: seq<seq<int>>
    ghost var qs: seq<seq<int>>

    ghost predicate Valid()
      reads this, table, heads
    {
      AllOk(table[..], heads[..], kids, qs, current)
    }

    // process_init, with a given number of wait queues
    constructor (queues: nat)
      ensures Valid() && fresh(table) && fresh(heads) && heads.Length == queues && current == 0
      // the kernel process runs and there is no other
      ensures table[0].state.Running? && table[0].waitingOn == NULL && forall i :: Live(table[..], i) <==> i == 0
    {
      var kernel := WithPriority(BLANK.(state := Running, timeSlice := TIMESLICE), PRIORITY_KERNEL);
      table := new Proc[MAX_PROCESSES](i => if i == 0 then kernel else BLANK);
      heads := new int[queues](_ => NULL);
      current, nextPid := 0, 1;
      kids, qs := seq(MAX_PROCESSES, _ => []), seq(queues, _ => []);
      new;
      assert forall i :: Live(table[..], i) <==> i == 0;
    }

    // ----- lookups -----

    // Falls back to the counter only when every pid from 1 to 63 is in use.
    method GetNextPid() returns (pid: nat)
      requires table.Length == MAX_PROCESSES
      modifies this`nextPid
      ensures var least := LeastFreePid(table[..], 1);
              pid == if least < MAX_PROCESSES then least else old(nextPid)
      ensures nextPid == if pid + 1 >= MAX_PROCESSES then 1 else pid + 1
    {
      pid := 1;
      while pid < MAX_PROCESSES
        invariant 1 <= pid <= MAX_PROCESSES
        invariant LeastFreePid(table[..], 1) == LeastFreePid(table[..], pid)
        invariant nextPid == old(nextPid)
      {
        var inUse := PidInUse(pid);
        if !inUse {
          nextPid := pid + 1;
          if nextPid >= MAX_PROCESSES { nextPid := 1; }
          return;
        }
        pid := pid + 1;
      }
      pid := nextPid;
      nextPid := nextPid + 1;
      if nextPid >= MAX_PROCESSES { nextPid := 1; }
    }

    method PidInUse(pid: nat) returns (inUse: bool)
      requires table.Length == MAX_PROCESSES
      ensures inUse == InUse(table[..], pid)
    {
      for i := 0 to MAX_PROCESSES
        invariant forall j :: 0 <= j < i ==> table[j].state.Unused? || table[j].pid != pid
      {
        if !table[i].state.Unused? && table[i].pid == pid {
          assert table[..][i].pid == pid;
          return true;
        }
      }
      inUse := false;
    }

    method GetByPid(pid: nat) returns (slot: int)
      requires table.Length == MAX_PROCESSES
      ensures slot == if pid >= MAX_PROCESSES then NULL else FindPid(table[..], pid, 0)
      // the only match, when pids are distinct
      ensures PidsOk(table[..]) && slot != NULL ==>
                forall i :: Live(table[..], i) && table[i].pid == pid ==> i == slot
    {
      if pid >= MAX_PROCESSES { return NULL; }
      for i := 0 to MAX_PROCESSES
        invariant FindPid(table[..], pid, 0) == FindPid(table[..], pid, i)
      {
        if !table[i].state.Unused? && table[i].pid == pid {
          return i;
        }
      }
      slot := NULL;
    }

    // ----- leaving lists -----

    // Takes a process off the wait queue it is on, wherever it stands.
    method LeaveQueue(p: nat) returns (ghost k: nat)
      requires Valid() && Live(table[..], p)
      modifies this`qs, table, heads
      ensures Valid() && OnlyWaitsChange(old(table[..]), table[..]) && table[p].waitingOn == NULL
      ensures forall i :: 0 <= i < table.Length && i != p ==> table[i].waitingOn == old(table[i]).waitingOn
      ensures forall i :: 0 <= i < table.Length && old(table[i]).state.Unused? ==> table[i] == old(table[i])
      ensures var q := old(table[p]).waitingOn;
              if q == NULL then qs == old(qs) && table[..] == old(table[..])
              else 0 <= q < |old(qs)| && k < |old(qs)[q]| && old(qs)[q][k] == p
                   && qs == old(qs)[q := Without(old(qs)[q], k)]
    {
      hide PidsOk, TreeOk, SchedOk, ReapOk, QueuesOk, Unqueue, Without;
      k := 0;
      var q := table[p].waitingOn;
      if q == NULL { return; }
      ghost var t, h := table[..], heads[..];
      OnItsQueue(t, h, qs, p);
      var pred;
      pred, k := FindInQueue(q, p);
      UnqueueKeeps(t, h, qs, q, k);
      if pred != NULL { QueuedIsLive(t, h, qs, q, k - 1); }
      UnqueueFrame(t, h, p, q, pred);
      Unlink(p, q, pred);
      qs := qs[q := Without(qs[q], k)];
      WaitsFrame(t, table[..], kids, current);
    }

    method Unlink(p: nat, q: nat, pred: int)
      requires p < table.Length && q < heads.Length && (pred == NULL || 0 <= pred < table.Length)
      modifies table, heads
      ensures (table[..], heads[..]) == Unqueue(old(table[..]), old(heads[..]), p, q, pred)
    {
      if pred == NULL {
        heads[q] := table[p].waitNext;
      } else {
        table[pred] := table[pred].(waitNext := table[p].waitNext);
      }
      table[p] := table[p].(waitNext := NULL, waitingOn := NULL);
    }

    // Walks queue q to p; `pred` is the entry before it.
    method FindInQueue(q: nat, p: nat) returns (pred: int, ghost k: nat)
      requires QueuesOk(table[..], heads[..], qs) && q < |qs| && p in qs[q]
      ensures k < |qs[q]| && qs[q][k] == p && pred == if k == 0 then NULL else qs[q][k - 1]
    {
      ghost var t, h, xs := table[..], heads[..], qs[q];
      QueueHead(t, h, qs, q);
      hide Linked;
      var at := heads[q];
      pred, k := NULL, 0;
      while at != p
        invariant k <= |xs| && at == (if k < |xs| then xs[k] else NULL) && pred == (if k == 0 then NULL else xs[k - 1])
        invariant p !in xs[..k]
        decreases |xs| - k
      {
        LinkedNext(WaitLinks(t), h[q], xs, k);
        pred, at := at, table[at].waitNext;
        k := k + 1;
      }
    }

    // Walks the children of p's parent to p; `pred` is the sibling before it.
    method FindPred(p: nat) returns (pred: int, ghost k: nat)
      requires TreeOk(table[..], kids) && Live(table[..], p) && table[p].parent != NULL
      ensures At(table[..], kids, p, k, pred)
    {
      ghost var t := table[..];
      ghost var k0, pred0 := OnParentsList(t, kids, p);
      var par := table[p].parent;
      ghost var xs := kids[par];
      ChildrenHead(t, kids, par);
      LinkedDistinct(Siblings(t), t[par].children, xs);
      pred, k := NULL, 0;
      if table[par].children == p { return; }
      hide Linked;
      var child := table[par].children;
      LinkedNext(Siblings(t), t[par].children, xs, k);
      while table[child].sibling != p
        invariant k < k0 && child == xs[k] && 0 <= child < |t|
        invariant table[child].sibling == xs[k + 1]
        decreases |xs| - k
      {
        child := table[child].sibling;
        k := k + 1;
        LinkedNext(Siblings(t), t[par].children, xs, k);
      }
      pred, k := child, k + 1;
    }

    // Unlinks a process that waits for nothing from its parent and clears its slot.
    method ClearSlot(p: nat)
      requires Valid() && Live(table[..], p) && table[p].waitingOn == NULL && p != current && p != 0
               && Childless(kids, p)
      modifies this`kids, table
      ensures Valid() && Destroyed(old(table[..]), table[..], p) && LeftParent(old(table[..]), old(kids), kids, p)
    {
      hide TreeOk, QueuesOk, PidsOk, SchedOk, ReapOk;
      ghost var t := table[..];
      ParentInRange(t, kids, p);
      var pred, par := NULL, table[p].parent;
      ghost var k: nat := 0;
      if par != NULL {
        pred, k := FindPred(p);
        PredIsLive(t, kids, p, k, pred);
      }
      RemoveKeepsAll(t, heads[..], kids, qs, current, p, k, pred);
      RemoveDrops(t, p, pred);
      if par != NULL {
        if pred == NULL {
          table[par] := table[par].(children := table[p].sibling);
        } else {
          table[pred] := table[pred].(sibling := table[p].sibling);
        }
      }
      table[p] := BLANK;
      kids := Removed(t, kids, p, k, pred);
      assert table[..] == Remove(t, p, pred);
    }

    // Frees the slot of a process no other process has as parent.
    method Destroy(p: nat) returns (ghost k: nat)
      requires Valid() && p < MAX_PROCESSES && p != current && p != 0
      requires Live(table[..], p) ==> Childless(kids, p)
      modifies this`kids, this`qs, table, heads
      ensures Valid()
      ensures if old(Live(table[..], p))
              then Destroyed(old(table[..]), table[..], p) && LeftParent(old(table[..]), old(kids), kids, p)
              else table[..] == old(table[..]) && kids == old(kids) && qs == old(qs)
      // it leaves the queue it waits on, and the rest of the queue keeps its order
      ensures var q := old(table[p]).waitingOn;
              if !old(Live(table[..], p)) || q == NULL then qs == old(qs)
              else 0 <= q < |old(qs)| && k < |old(qs)[q]| && old(qs)[q][k] == p
                   && qs == old(qs)[q := Without(old(qs)[q], k)]
    {
      hide TreeOk, QueuesOk, PidsOk, SchedOk, ReapOk;
      KernelIsReady(table[..], heads[..], kids, qs, current);
      if table[p].state.Unused? { return 0; }
      k := LeaveQueue(p);
      ghost var t := table[..];
      ClearSlot(p);
      DestroyedAfterWait(old(table[..]), t, table[..], p);
    }

    // Destroys every orphaned zombie but the current process.
    method ReapZombies()
      requires Valid()
      modifies this`kids, this`qs, table, heads
      ensures Valid() && kids == old(kids) && Reaped(old(table[..]), table[..], current, MAX_PROCESSES)
    {
      hide TreeOk, QueuesOk, PidsOk, SchedOk, ReapOk;
      ghost var t := table[..];
      KernelIsReady(t, heads[..], kids, qs, current);
      for i := 0 to MAX_PROCESSES
        invariant Valid() && kids == old(kids) && Reaped(t, table[..], current, i)
      {
        if table[i].state.Zombie? && i != current {
          ghost var t1 := table[..];
          OrphanIsChildless(t1, kids, i);
          if table[i].parent == NULL || table[table[i].parent].state.Unused? {
            ghost var _ := Destroy(i);
            ReapOne(t, t1, table[..], current, i);
          }
        }
      }
    }

    // ----- creating -----

    // The new slot, or NULL when the table is full or memory runs out. `memory` stands for the
    // page directory, kernel stack and user stack being available.
    // `t` is the table after reaping.
    method Create(userMode: bool, memory: bool) returns (slot: int, ghost t: seq<Proc>)
      requires Valid() && !table[current].state.Zombie?
      modifies this`kids, this`qs, this`nextPid, table, heads
      ensures Valid() && Reaped(old(table[..]), t, current, MAX_PROCESSES)
      ensures slot == NULL <==> !memory || forall i :: 1 <= i < 64 ==> Live(t, i)
      ensures slot == NULL ==> kids == old(kids) && forall i :: Live(t, i) ==> table[i] == t[i]
      // the lowest free slot, the least free pid, and the first place among its creator's children
      ensures slot != NULL ==>
                && 1 <= slot < MAX_PROCESSES && !Live(t, slot) && (forall i :: 1 <= i < slot ==> Live(t, i))
                && table[..] == WithBorn(t, current, slot, userMode)
                && kids == KidsAfterAdd(old(kids), current, slot)
      ensures slot != NULL ==>
                && 1 <= table[slot].pid < MAX_PROCESSES && table[slot].state.Runnable?
                && forall i :: Live(table[..], i) && i != slot ==> table[i].pid != table[slot].pid
      // a full slice, the level and weight of its kind, and the current process as parent
      ensures slot != NULL ==>
                && table[slot].timeSlice == 10 && table[slot].aging == 0 && table[slot].wakeupTick == 0
                && table[slot].basePriority == (if userMode then 3 else 0)
                && table[slot].weight == (if userMode then 160 else 256) && table[slot].waitingOn == NULL
                && table[slot].parent == current && table[slot].ppid == table[current].pid
    {
      hide TreeOk, QueuesOk, PidsOk, SchedOk, ReapOk, Reaped, WithBorn, Born, AddChild;
      KernelIsReady(table[..], heads[..], kids, qs, current);
      ReapZombies();
      t := table[..];
      ReapedZombie(old(table[..]), t, current);
      slot := FindFreeSlot();
      if slot == NULL { return; }
      var made := Populate(slot, userMode, memory);
      if !made { slot := NULL; }
    }

    // Slot 0 is the kernel's.
    method FindFreeSlot() returns (slot: int)
      requires table.Length == MAX_PROCESSES
      ensures if slot == NULL then forall i :: 1 <= i < MAX_PROCESSES ==> Live(table[..], i)
              else 1 <= slot < MAX_PROCESSES && !Live(table[..], slot) && forall i :: 1 <= i < slot ==> Live(table[..], i)
    {
      for i := 1 to MAX_PROCESSES
        invariant forall j :: 1 <= j < i ==> Live(table[..], j)
      {
        if table[i].state.Unused? { return i; }
      }
      slot := NULL;
    }

    // Fills a free slot with a new child of the current process.
    method Populate(slot: nat, userMode: bool, memory: bool) returns (made: bool)
      requires Valid() && !table[current].state.Zombie? && slot < MAX_PROCESSES && !Live(table[..], slot)
      modifies this`kids, this`nextPid, table
      ensures Valid() && made == memory && slot != current
      ensures !made ==> kids == old(kids) && table[slot].state.Unused?
      ensures !made ==> forall i :: 0 <= i < MAX_PROCESSES && i != slot ==> table[i] == old(table[i])
      ensures made ==>
                table[..] == WithBorn(old(table[..]), current, slot, userMode) && kids == KidsAfterAdd(old(kids), current, slot)
      ensures made ==>
                && table[slot].state.Runnable? && 1 <= table[slot].pid < MAX_PROCESSES
                && (forall i :: Live(table[..], i) && i != slot ==> table[i].pid != table[slot].pid)
      ensures made ==> NewProcess(table[slot], table[current], current, userMode)
    {
      hide TreeOk, QueuesOk, SchedOk, ReapOk, AddChild, InUse, LeastFreePid;
      KernelIsReady(table[..], heads[..], kids, qs, current);
      ghost var t0 := table[..];
      BlankKeeps(t0, heads[..], kids, qs, current, slot, BLANK);
      table[slot] := BLANK;
      ghost var t := t0[slot := BLANK];
      assert table[..] == t;
      LeastFreePidFound(t, slot);
      var pid := GetNextPid();
      var born := Born(userMode, pid);
      if !memory {
        var failed := born.(state := Unused, ppid := table[current].pid);
        BlankKeeps(t, heads[..], kids, qs, current, slot, failed);
        table[slot] := failed;
        assert table[..] == t[slot := failed];
        return false;
      }
      CreateKeeps(t, heads[..], kids, qs, current, slot, born);
      LinkNewChild(slot, born);
      kids := KidsAfterAdd(kids, current, slot);
      OthersHaveOtherPids(table[..], slot);
      BornIs(t, current, slot, userMode, pid);
      made := true;
    }

    method LinkNewChild(slot: nat, born: Proc)
      requires table.Length == MAX_PROCESSES && slot < MAX_PROCESSES && current < MAX_PROCESSES && slot != current
      modifies table
      ensures table[..] == AddChild(old(table[..]), current, slot, born)
      ensures table[slot].state == born.state && table[slot].pid == born.pid
    {
      table[slot] := born.(ppid := table[current].pid, parent := current, sibling := table[current].children, children := NULL);
      table[current] := table[current].(children := slot);
    }

    // ----- waking and waiting -----

    method MakeRunnable(p: nat)
      requires Valid() && Live(table[..], p) && !table[p].state.Zombie?
      modifies table
      ensures Valid() && table[..] == old(table[..])[p := Ready(old(table[p]))]
      // it can run, with a slice
      ensures var was := old(table[p]);
              table[p] == was.(state := if was.state.Running? then Running else Runnable,
                               timeSlice := if was.timeSlice == 0 then 10 else was.timeSlice)
    {
      ghost var t := table[..];
      table[p] := Ready(table[p]);
      assert table[..] == t[p := Ready(t[p])];
      ReadyKeeps(t, heads[..], kids, qs, current, p);
    }

    // Does not take the process off a wait queue.
    method Wake(p: nat)
      requires Valid() && p < MAX_PROCESSES
      modifies table
      ensures Valid()
      ensures table[..] == if old(table[p]).state.Sleeping? then old(table[..])[p := Ready(old(table[p]))]
              else old(table[..])
      ensures old(table[p]).state.Sleeping? ==>
                var was := old(table[p]);
                table[p] == was.(state := Runnable, timeSlice := if was.timeSlice == 0 then 10 else was.timeSlice)
    {
      if table[p].state.Sleeping? {
        MakeRunnable(p);
      }
    }

    // Puts the current process to sleep at the front of a queue; it must not be on one already.
    method JoinQueue(q: nat)
      requires Valid() && q < heads.Length && table[current].waitingOn == NULL && !table[current].state.Zombie?
      modifies this`qs, table, heads
      ensures Valid() && qs == old(qs)[q := [current] + old(qs)[q]]
      ensures (table[..], heads[..]) == Enqueue(old(table[..]), old(heads[..]), current, q)
      // the process sleeps in front of those that wait there already
      ensures table[current] == old(table[current]).(waitNext := old(heads[q]), waitingOn := q, state := Sleeping)
              && heads[q] == current
      ensures forall i :: 0 <= i < table.Length && i != current ==> table[i] == old(table[i])
    {
      ghost var t, h := table[..], heads[..];
      JoinKeeps(t, h, kids, qs, current, q);
      table[current] := table[current].(waitNext := heads[q], waitingOn := q, state := Sleeping);
      heads[q] := current;
      qs := qs[q := [current] + qs[q]];
      assert (table[..], heads[..]) == Enqueue(t, h, current, q);
    }

    // Takes the front process off a queue and makes it runnable if it sleeps.
    method WakeOne(q: nat)
      requires Valid() && q < heads.Length
      modifies this`qs, table, heads
      ensures Valid()
      ensures if old(qs)[q] == [] then qs == old(qs) && table[..] == old(table[..])
              else
                var p := old(qs)[q][0];
                && qs == old(qs)[q := old(qs)[q][1..]] && 0 <= p < MAX_PROCESSES
                && table[..] == old(table[..])[p := Woken(old(table[p]))]
                && table[p].waitNext == NULL && table[p].waitingOn == NULL
                && table[p].state == (if old(table[p]).state.Sleeping? then Runnable else old(table[p]).state)
    {
      hide QueuesOk, TreeOk, PidsOk, SchedOk, ReapOk, Unqueue;
      ghost var t, h := table[..], heads[..];
      KernelIsReady(t, h, kids, qs, current);
      QueueHead(t, h, qs, q);
      var p := heads[q];
      if qs[q] != [] { QueuedIsLive(t, h, qs, q, 0); }
      if p == NULL { return; }
      UnqueueKeeps(t, h, qs, q, 0);
      UnqueueFrame(t, h, p, q, NULL);
      Unlink(p, q, NULL);
      assert Without(qs[q], 0) == qs[q][1..];
      qs := qs[q := qs[q][1..]];
      WaitsFrame(t, table[..], kids, current);
      if table[p].state.Sleeping? {
        MakeRunnable(p);
      }
    }

    // Halfway through waking queue q: of its former members `all`, the first k are done and
    // the rest hang from `at`. `t` is the table before.
    ghost predicate Waking(t: seq<Proc>, q: nat, all: seq<int>, k: nat, at: int)
      reads this, table, heads
    {
      && q < heads.Length && k <= |all| && |t| == table.Length
      && at == (if k < |all| then all[k] else NULL)
      && (forall i :: 0 <= i < |all| ==> 0 <= all[i] < |t|)
      && (forall i, j :: 0 <= i < j < |all| ==> all[i] != all[j])
      && PidsOk(table[..]) && TreeOk(table[..], kids) && SchedOk(table[..], current) && ReapOk(table[..], kids)
      && QueuesWith(table[..], heads[..], qs, q, at, all[k..])
      && forall i :: 0 <= i < |t| ==> table[i] == if i in all[..k] then Woken(t[i]) else t[i]
    }

    method WakeNext(p: nat, ghost t: seq<Proc>, ghost q: nat, ghost all: seq<int>, ghost k: nat) returns (next: int)
      requires Waking(t, q, all, k, p)
      modifies table
      ensures Waking(t, q, all, k + 1, next)
    {
      hide TreeOk, PidsOk, ReapOk, SchedOk, Linked, Queued;
      ghost var t1 := table[..];
      LooseFirst(t1, heads[..], qs, q, all, k);
      hide QueuesWith;
      next := table[p].waitNext;
      WokenKeeps(t1, kids, current, p);
      table[p] := table[p].(waitNext := NULL, waitingOn := NULL);
      if table[p].state.Sleeping? {
        table[p] := Ready(table[p]);
      }
      assert table[..] == t1[p := Woken(t1[p])];
      WakeLoose(t1, table[..], heads[..], qs, q, all[k..]);
      assert all[k..][1..] == all[k + 1..] && all[..k + 1] == all[..k] + [p];
    }

    // Empties a queue and makes its sleepers runnable.
    method WakeAll(q: nat)
      requires Valid() && q < heads.Length
      modifies this`qs, table, heads
      ensures Valid() && qs == old(qs)[q := []]
      ensures forall i :: 0 <= i < MAX_PROCESSES ==>
                table[i] == if i in old(qs)[q] then Woken(old(table[i])) else old(table[i])
      ensures forall i :: 0 <= i < MAX_PROCESSES && i in old(qs)[q] ==>
                && table[i].waitNext == NULL && table[i].waitingOn == NULL
                && table[i].state == if old(table[i]).state.Sleeping? then Runnable else old(table[i]).state
    {
      hide TreeOk, ReapOk, SchedOk, PidsOk, QueuesWith, QueuesOk, Woken;
      ghost var t := table[..];
      KernelIsReady(t, heads[..], kids, qs, current);
      ghost var all := qs[q];
      WakeStart(t, heads[..], qs, q);
      var p := heads[q];
      heads[q] := NULL;
      qs := qs[q := []];
      ghost var k: nat := 0;
      assert all[0..] == all;
      while p != NULL
        invariant qs == old(qs)[q := []] && Waking(t, q, all, k, p)
        decreases |all| - k
      {
        p := WakeNext(p, t, q, all, k);
        k := k + 1;
      }
      assert all[k..] == [] && all[..k] == all;
      AllWoken(table[..], heads[..], qs, q, p);
      forall i | 0 <= i < MAX_PROCESSES ensures WokenFields(t[i], Woken(t[i])) { WokenIs(t[i]); }
    }

    // ----- exiting -----

    // Halfway through handing the children `all` of `from` to `init`: the first k are done and
    // the rest hang from `at`. `t` and `lists` are the table and the lists before.
    ghost predicate Reparenting(t: seq<Proc>, lists: seq<seq<int>>, from: nat, init: int, all: seq<int>, k: nat,
                                at: int)
      reads this, table
    {
      && |lists| == |t| && k <= |all| && at == (if k < |all| then all[k] else NULL)
      && OnlyTreeChanges(t, table[..]) && Live(t, from) && (init == NULL || Live(t, init))
      && TreeWith(table[..], kids, from, at, all[k..])
      && ReparentedTo(t, table[..], all, init)
      && kids == (if init == NULL then lists else lists[init := Reversed(all[..k]) + lists[init]])
    }

    method AdoptNext(c: nat, ghost t: seq<Proc>, ghost lists: seq<seq<int>>, from: nat, init: int, ghost all: seq<int>,
                     ghost k: nat)
      returns (next: int)
      requires Reparenting(t, lists, from, init, all, k, c)
      modifies this`kids, table
      ensures Reparenting(t, lists, from, init, all, k + 1, next)
    {
      ghost var t1 := table[..];
      LooseChild(t1, kids, from, all, k);
      AdoptKeeps(t1, kids, from, all[k..], init);
      hide TreeWith;
      next := table[c].sibling;
      if init != NULL {
        table[c] := table[c].(parent := init, ppid := table[init].pid, sibling := table[init].children);
        table[init] := table[init].(children := c);
      } else {
        table[c] := table[c].(parent := NULL, ppid := 0, sibling := NULL);
      }
      AdoptedLists(kids, lists, init, all, k);
      AdoptFrame(t, t1, all, k, init);
      kids := Adopted(kids, c, init);
      assert table[..] == Adopt(t1, c, init);
      assert all[k..][1..] == all[k + 1..];
    }

    // Takes the children off the current process.
    method LetChildrenGo(init: int) returns (child: int)
      requires Valid() && (init == NULL || Live(table[..], init))
      modifies this`kids, table
      ensures Reparenting(old(table[..]), old(kids)[current := []], current, init, old(kids)[current], 0, child)
    {
      hide ReapOk, SchedOk, QueuesOk, PidsOk, TreeOk, TreeWith;
      ghost var t := table[..];
      KernelIsReady(t, heads[..], kids, qs, current);
      ghost var lists, all := kids[current := []], kids[current];
      LetGo(t, kids, current);
      ChildrenHead(t, kids, current);
      assert all[0..] == all && all[..0] == [];
      if init != NULL { assert Reversed(all[..0]) + lists[init] == lists[init]; }
      child := table[current].children;
      table[current] := table[current].(children := NULL);
      kids := lists;
      assert table[..] == t[current := t[current].(children := NULL)];
    }

    method AdoptAll(first: int, ghost t: seq<Proc>, ghost lists: seq<seq<int>>, from: nat, init: int,
                    ghost all: seq<int>)
      requires Reparenting(t, lists, from, init, all, 0, first)
      modifies this`kids, table
      ensures Reparenting(t, lists, from, init, all, |all|, NULL)
    {
      hide TreeWith, OnlyTreeChanges, ReparentedTo, Reversed;
      var child := first;
      ghost var k: nat := 0;
      while child != NULL
        invariant Reparenting(t, lists, from, init, all, k, child)
        decreases |all| - k
      {
        LooseInRange(table[..], kids, from, all, k, child);
        child := AdoptNext(child, t, lists, from, init, all, k);
        k := k + 1;
      }
      LooseDone(table[..], kids, from, all, k, child);
    }

    // Hands all children of the current process to init, if there is one.
    method ReparentChildren(init: int)
      requires Valid() && (init == NULL || Live(table[..], init))
      modifies this`kids, table
      ensures PidsOk(table[..]) && TreeOk(table[..], kids) && QueuesOk(table[..], heads[..], qs)
              && SchedOk(table[..], current)
      ensures OnlyTreeChanges(old(table[..]), table[..])
      ensures ReparentedTo(old(table[..]), table[..], old(kids)[current], init)
      ensures kids == Orphaned(old(kids), current, init)
    {
      hide TreeOk, TreeWith, OnlyTreeChanges, ReparentedTo, Reversed, SchedOk, ReapOk, QueuesOk, PidsOk;
      ghost var t := table[..];
      KernelIsReady(t, heads[..], kids, qs, current);
      ghost var all := kids[current];
      var child := LetChildrenGo(init);
      AdoptAll(child, t, old(kids)[current := []], current, init, all);
      assert all[..|all|] == all && all[|all|..] == [];
      AllAdopted(table[..], kids, current, NULL);
      TreeChangeFrame(t, table[..], heads[..], qs, current);
    }

    // process_exit up to the final call of the scheduler. The kernel does not exit.
    method BeginExit() returns (ghost t: seq<Proc>)
      requires Valid() && table[current].pid != 0
      modifies this`kids, table
      ensures Valid()
      // `t` is the table after reparenting; then the process dies and its parent is woken
      ensures var init := FindPid(old(table[..]), INIT_PID, 0);
              && ReparentedTo(old(table[..]), t, old(kids)[current], init) && OnlyTreeChanges(old(table[..]), t)
              && kids == Orphaned(old(kids), current, init)
              && table[..] == Died(t, current) && table[current].state.Zombie?
      ensures ExitFields(old(table[..]), table[..], current, FindPid(old(table[..]), 1, 0))
    {
      hide TreeOk, QueuesOk, PidsOk, ReapOk, SchedOk, OnlyTreeChanges, ReparentedTo, ExitFields, Orphaned;
      ghost var t0 := table[..];
      KernelIsReady(t0, heads[..], kids, qs, current);
      var init := GetByPid(INIT_PID);
      ReparentChildren(init);
      t := table[..];
      ExitKeeps(t0, t, heads[..], old(kids), kids, qs, current, init);
      ExitIs(t0, t, old(kids), kids, current, init);
      table[current] := table[current].(state := Zombie);
      assert table[..] == t[current := t[current].(state := Zombie)];
      WakeParent();
    }

    // Wakes the parent of the current process, if it has one that sleeps.
    method WakeParent()
      requires Valid()
      modifies table
      ensures Valid() && table.Length == MAX_PROCESSES && current < MAX_PROCESSES
      ensures table[..] == ParentWoken(old(table[..]), current)
      ensures old(table[current]).state.Zombie? ==> table[current].state.Zombie?
    {
      hide AllOk;
      ParentOfCurrent(table[..], heads[..], kids, qs, current);
      if table[current].parent != NULL {
        Wake(table[current].parent);
      }
    }

    // ----- scheduling -----

    // Gives the processor to slot `next`.
    method SwitchTo(next: nat)
      requires Valid() && Live(table[..], next) && !table[next].state.Zombie? && next != current
      modifies this`current, table
      ensures Valid() && current == next
      ensures table[..] == Switched(old(table[..]), old(current), next)
      ensures table[next] == old(table[next]).(state := Running, timeSlice := 10, aging := 0)
      ensures var was := old(table[current]);
              table[old(current)] == if was.state.Running?
                                     then was.(state := Runnable, aging := if was.aging < 32 then was.aging + 1 else 32)
                                     else was
      ensures forall i :: 0 <= i < table.Length && i != next && i != old(current) ==> table[i] == old(table[i])
    {
      hide AllOk;
      ghost var t := table[..];
      SwitchKeeps(t, heads[..], kids, qs, current, next);
      KernelIsReady(t, heads[..], kids, qs, current);
      AgingBound(t, heads[..], kids, qs, current);
      if table[current].state.Running? {
        var aging := table[current].aging;
        table[current] := table[current].(state := Runnable, aging := if aging < AGING_MAX then aging + 1 else aging);
      }
      table[next] := table[next].(state := Running, timeSlice := TIMESLICE, aging := 0);
      assert table[..] == Switched(t, current, next);
      current := next;
    }

    // `t` is the table after reaping, from which the choice is made.
    method Schedule() returns (ghost t: seq<Proc>)
      requires Valid()
      modifies this`kids, this`qs, this`current, table, heads
      ensures Valid() && kids == old(kids)
      ensures Reaped(old(table[..]), t, old(current), MAX_PROCESSES)
              && table[..] == Dispatched(t, old(current), current)
      // orphaned zombies are gone, the process switched to runs, the one switched from can run if
      // it was running, and no other changes
      ensures DispatchFields(old(table[..]), table[..], old(current), current)
      // the best runnable process, else whoever was running, else the kernel
      ensures AnyRunnable(old(table[..])) ==> IsBest(old(table[..]), current)
      ensures !AnyRunnable(old(table[..])) ==>
                current == if old(table[current]).state.Running? then old(current) else 0
      ensures current != old(current) ==>
                table[current].state.Running? && table[current].timeSlice == TIMESLICE && table[current].aging == 0
      ensures current == old(current) ==> table[current].state == old(table[current]).state
      // a blocked process stays current only if the kernel itself blocks with nothing to run
      ensures table[current].state.Running? || table[current].state.Runnable? <==>
              !(old(current) == 0 && !old(table[0]).state.Running? && !AnyRunnable(old(table[..])))
    {
      hide AllOk, Reaped, DispatchFields;
      KernelIsReady(table[..], heads[..], kids, qs, current);
      ReapZombies();
      t := table[..];
      DispatchAny(old(table[..]), t, current);
      ReapedSame(old(table[..]), t, current);
      KernelIsReady(t, heads[..], kids, qs, current);
      var next := PickNext(table, (current + 1) % MAX_PROCESSES);
      assert next == NULL <==> !AnyRunnable(t);
      if next == NULL {
        if table[current].state.Running? {
          SliceKeeps(t, heads[..], kids, qs, current);
          table[current] := table[current].(timeSlice := TIMESLICE);
          assert table[..] == t[current := t[current].(timeSlice := TIMESLICE)];
          return;
        }
        next := 0;
      } else {
        ReapedBest(old(table[..]), t, current, next);
      }
      if next != current {
        SwitchTo(next);
      } else if AnyRunnable(t) {
        assert table[current].state.Runnable?;
      } else {
        assert !IsRunnable(t, 0) && old(table[0]).state == t[0].state == table[0].state;
      }
    }

    // process_wait_on
    method WaitOn(q: nat) returns (ghost t: seq<Proc>)
      requires Valid() && q < heads.Length && table[current].waitingOn == NULL && !table[current].state.Zombie?
      modifies this`kids, this`qs, this`current, table, heads
      ensures Valid() && kids == old(kids)
      // the caller sleeps at the head of the queue, and another process runs if any can
      ensures Reaped(Enqueue(old(table[..]), old(heads[..]), old(current), q).0, t, old(current), MAX_PROCESSES)
      ensures table[..] == Dispatched(t, old(current), current)
      ensures Chosen(Enqueue(old(table[..]), old(heads[..]), old(current), q).0, current)
      ensures old(current) in qs[q]
              && (old(current) != 0 ==> current != old(current) && table[old(current)].state.Sleeping?)
    {
      hide AllOk, DispatchFields, Dispatched, Reaped;
      KernelIsReady(table[..], heads[..], kids, qs, current);
      JoinQueue(q);
      ghost var was, p := table[..], current;
      t := Schedule();
      StillAsleep(was, t, p, current, p);
      SleepsOnItsQueue(table[..], heads[..], kids, qs, current, p);
    }

    // process_exit
    // `t` is the table after reparenting and `u` the one the scheduler chooses from.
    method Exit() returns (ghost t: seq<Proc>, ghost u: seq<Proc>)
      requires Valid()
      modifies this`kids, this`qs, this`current, table, heads
      ensures Valid()
      ensures old(table[current]).pid == 0 ==>
                table[..] == old(table[..]) && kids == old(kids) && current == old(current)
      // a zombie with no children is left behind, and the children have gone to init
      ensures old(table[current]).pid != 0 ==>
                && current != old(current) && table[old(current)].state.Zombie?
                && kids == Orphaned(old(kids), old(current), FindPid(old(table[..]), INIT_PID, 0))
      // its parent is woken, orphaned zombies are reaped and the next process runs
      ensures old(table[current]).pid != 0 ==>
                && ReparentedTo(old(table[..]), t, old(kids)[old(current)], FindPid(old(table[..]), INIT_PID, 0))
                && OnlyTreeChanges(old(table[..]), t)
                && Reaped(Died(t, old(current)), u, old(current), MAX_PROCESSES)
                && table[..] == Dispatched(u, old(current), current)
      ensures old(table[current]).pid != 0 ==>
                && ExitFields(old(table[..]), Died(t, old(current)), old(current), FindPid(old(table[..]), 1, 0))
                && Chosen(Died(t, old(current)), current)
                && DispatchFields(Died(t, old(current)), table[..], old(current), current)
    {
      hide AllOk, OnlyTreeChanges, ReparentedTo, Orphaned, Died, FindPid, DispatchFields, ExitFields, AnyRunnable, IsBest;
      t, u := table[..], table[..];
      KernelIsReady(t, heads[..], kids, qs, current);
      if table[current].pid == 0 { return; }
      t := BeginExit();
      KernelIsReady(table[..], heads[..], kids, qs, current);
      u := Schedule();
    }

    // process_sleep at tick `now`; `t` is the table the scheduler chooses from.
    method Sleep(now: nat, ticks: nat) returns (ghost t: seq<Proc>)
      requires Valid() && !table[current].state.Zombie?
      modifies this`kids, this`qs, this`current, table, heads
      ensures Valid() && kids == old(kids)
      ensures var asleep := old(table[current]).(state := Sleeping, wakeupTick := (now + ticks) % 0x1_0000_0000);
              && Reaped(old(table[..])[old(current) := asleep], t, old(current), MAX_PROCESSES)
              && Chosen(old(table[..])[old(current) := asleep], current)
              && DispatchFields(old(table[..])[old(current) := asleep], table[..], old(current), current)
      ensures table[..] == Dispatched(t, old(current), current) && (old(current) != 0 ==> current != old(current))
      ensures table[old(current)].state.Sleeping? && table[old(current)].wakeupTick == (now + ticks) % 0x1_0000_0000
    {
      hide DispatchFields, Dispatched;
      ghost var was, p := table[..], current;
      var wakeup := (now + ticks) % 0x1_0000_0000;
      SleepKeeps(was, heads[..], kids, qs, current, wakeup);
      table[current] := table[current].(state := Sleeping, wakeupTick := wakeup);
      ghost var was' := was[current := was[current].(state := Sleeping, wakeupTick := wakeup)];
      assert table[..] == was';
      t := Schedule();
      StillAsleep(was', t, p, current, p);
    }

    // The timer interrupt at tick `now`; says whether the current process should be preempted.
    method Tick(now: nat) returns (preempt: bool)
      requires Valid()
      modifies table
      ensures Valid()
      // a sleeper without a deadline, or before it, sleeps on
      ensures forall i :: 0 <= i < MAX_PROCESSES ==>
                var was := old(table[i]);
                was.state.Sleeping? && (was.wakeupTick == 0 || now % 0x1_0000_0000 < was.wakeupTick) ==> table[i] == was
      // one that is due can run, with a slice, and has no deadline any more
      ensures forall i :: 0 <= i < MAX_PROCESSES ==>
                var was := old(table[i]);
                was.state.Sleeping? && 0 < was.wakeupTick <= now % 0x1_0000_0000 ==>
                  table[i] == was.(state := Runnable, wakeupTick := 0,
                                   timeSlice := if was.timeSlice == 0 then 10 else was.timeSlice)
      // a process that waits for the processor ages by one, up to 32
      ensures forall i :: 0 <= i < MAX_PROCESSES && i != current ==>
                var was := old(table[i]);
                was.state.Runnable? ==> table[i] == was.(aging := if was.aging < 32 then was.aging + 1 else 32)
      // the running process uses up its slice, then gets a new one and gives way if another can run
      ensures var was := old(table[current]);
              was.state.Running? ==>
                if was.timeSlice > 1 then !preempt && table[current] == was.(timeSlice := was.timeSlice - 1)
                else
                  && preempt == (exists i :: i != current && IsRunnable(table[..], i))
                  && table[current] == was.(timeSlice := 10, state := if preempt then Runnable else Running)
      ensures !old(table[current]).state.Running? ==> !preempt
      // and nothing else changes
      ensures forall i :: 0 <= i < MAX_PROCESSES ==>
                var was := old(table[i]);
                !was.state.Sleeping? && !was.state.Running? && (i == current || !was.state.Runnable?) ==> table[i] == was
    {
      hide AllOk, Ticked;
      ghost var t := table[..];
      KernelIsReady(t, heads[..], kids, qs, current);
      WakeAndAge(now);
      ghost var t1 := table[..];
      TickKeeps(t, t1, heads[..], kids, qs, current, now);
      preempt := false;
      if table[current].state.Running? {
        var slice := if table[current].timeSlice > 0 then table[current].timeSlice - 1 else 0;
        if slice == 0 {
          preempt := OtherRunnable();
        }
      }
      SliceUsedKeeps(t1, heads[..], kids, qs, current, preempt);
      table[current] := SliceUsed(table[current], preempt);
      assert table[..] == t1[current := SliceUsed(t1[current], preempt)];
      assert forall i :: i != current ==> (IsRunnable(table[..], i) <==> IsRunnable(t1, i));
      forall i | 0 <= i < MAX_PROCESSES ensures TickFields(t[i], t1[i], i == current, now) {
        TickedFields(t, heads[..], kids, qs, current, i, now);
      }
    }

    // The walk over the table at a tick.
    method WakeAndAge(now: nat)
      requires table.Length == MAX_PROCESSES
      modifies table
      ensures forall i :: 0 <= i < MAX_PROCESSES ==> table[i] == Ticked(old(table[i]), i == current, now)
      ensures forall i :: 0 <= i < MAX_PROCESSES ==>
                var was := old(table[i]);
                if was.state.Sleeping? && 0 < was.wakeupTick <= now % 0x1_0000_0000
                then table[i].state.Runnable? && table[i].wakeupTick == 0
                else if was.state.Runnable? && i != current && was.aging < 32 then table[i] == was.(aging := was.aging + 1)
                else table[i] == was
    {
      ghost var t := table[..];
      for i := 0 to MAX_PROCESSES
        invariant forall j :: 0 <= j < MAX_PROCESSES ==> table[j] == if j < i then Ticked(t[j], j == current, now)
                  else t[j]
      {
        var proc := table[i];
        if proc.state.Sleeping? && proc.wakeupTick != 0 && now % 0x1_0000_0000 >= proc.wakeupTick {
          table[i] := Ready(proc.(wakeupTick := 0));
        } else if proc.state.Runnable? && i != current {
          if proc.aging < AGING_MAX {
            table[i] := proc.(aging := proc.aging + 1);
          }
        }
      }
    }

    method OtherRunnable() returns (found: bool)
      requires table.Length == MAX_PROCESSES
      ensures found <==> exists i :: i != current && IsRunnable(table[..], i)
    {
      for i := 0 to MAX_PROCESSES
        invariant forall j :: 0 <= j < i && j != current ==> !IsRunnable(table[..], j)
      {
        if i != current && table[i].state.Runnable? {
          assert IsRunnable(table[..], i);
          return true;
        }
      }
      found := false;
    }
  }
}
