/**
 Sleeping for a number of ticks: the process table over a whole run of timer interrupts.

 A deadline is a 32-bit tick number and is compared without regard to the counter wrapping
 around, so a sleep lasts as long as asked only if it does not run across the wrap.
 */
module ProcSleep {
  import opened ProcTable
  import opened ProcTree
  import opened WaitQueues
  import opened Scheduler
  import opened ProcManager

  // A sleeper with deadline d, from tick `now` on, is still asleep after m ticks: each of them
  // was before the deadline, or there is none.
  ghost predicate SleepsOn(d: nat, now: nat, m: nat) {
    m == 0 || (SleepsOn(d, now, m - 1) && (d == 0 || (now + m) % 0x1_0000_0000 < d))
  }

  // A sleeper with deadline d is asleep after each of fewer than `last` ticks and after no more.
  ghost predicate Lasts(d: nat, now: nat, last: nat) {
    forall m: nat :: SleepsOn(d, now, m) <==> m < last
  }

  // The sleep lasts as many ticks as asked, and at least one.
  ghost predicate LastsAsAsked(now: nat, ticks: nat) {
    Lasts((now + ticks) % 0x1_0000_0000, now, if ticks == 0 then 1 else ticks)
  }

  // The counter does not wrap between the first tick that is waited for and the deadline.
  predicate NoWrap(now: nat, ticks: nat) {
    var n := now % 0x1_0000_0000;
    if ticks == 0 then 0 < n < 0xFFFF_FFFF
    else n + ticks < 0x1_0000_0000 || (n == 0xFFFF_FFFF && ticks >= 2)
  }

  lemma Wrapped(now: nat, m: nat)
    requires m <= 0x1_0000_0000
    ensures var n := now % 0x1_0000_0000;
            (now + m) % 0x1_0000_0000 == if n + m < 0x1_0000_0000 then n + m
                                         else if n + m < 0x2_0000_0000 then n + m - 0x1_0000_0000 else 0
  {
    var n, q := now % 0x1_0000_0000, now / 0x1_0000_0000;
    assert now + m == q * 0x1_0000_0000 + (n + m);
  }

  // Every tick before the deadline: the sleeper sleeps on.
  lemma {:induction false} SleepsUntil(now: nat, ticks: nat, m: nat)
    requires ticks < 0x1_0000_0000 && NoWrap(now, ticks) && m < if ticks == 0 then 1 else ticks
    ensures SleepsOn((now + ticks) % 0x1_0000_0000, now, m)
  {
    if m > 0 {
      SleepsUntil(now, ticks, m - 1);
      Wrapped(now, m);
      Wrapped(now, ticks);
    }
  }

  // Once awake, awake at every later tick.
  lemma {:induction false} AwakeAfter(d: nat, now: nat, m: nat, m': nat)
    requires m <= m' && !SleepsOn(d, now, m)
    ensures !SleepsOn(d, now, m')
  {
    if m < m' {
      AwakeAfter(d, now, m, m' - 1);
    }
  }

  lemma {:induction false} NoDeadline(now: nat, m: nat)
    ensures SleepsOn(0, now, m)
  {
    if m > 0 {
      NoDeadline(now, m - 1);
    }
  }

  lemma LastsIfNoWrap(now: nat, ticks: nat)
    requires ticks < 0x1_0000_0000 && NoWrap(now, ticks)
    ensures LastsAsAsked(now, ticks)
  {
    var last, d := if ticks == 0 then 1 else ticks, (now + ticks) % 0x1_0000_0000;
    forall m: nat ensures SleepsOn(d, now, m) <==> m < last {
      if m < last {
        SleepsUntil(now, ticks, m);
      } else {
        Wrapped(now, ticks);
        Wrapped(now, last);
        AwakeAfter(d, now, last, m);
      }
    }
  }

  lemma WrapsTooSoon(now: nat, ticks: nat)
    requires ticks < 0x1_0000_0000 && !NoWrap(now, ticks)
    ensures !LastsAsAsked(now, ticks)
  {
    var last, d := if ticks == 0 then 1 else ticks, (now + ticks) % 0x1_0000_0000;
    if d == 0 {
      NoDeadline(now, last);
      assert SleepsOn(d, now, last);
    } else {
      Wrapped(now, ticks);
      Wrapped(now, 1);
      assert SleepsOn(d, now, 0);
      assert SleepsOn(d, now, 1) <==> ticks == 0;
    }
  }

  // A sleep of k ticks that starts at tick n ends at tick n + k and not before, exactly when the
  // 32-bit counter does not wrap on the way.
  lemma SleepsExactly(now: nat, ticks: nat)
    requires ticks < 0x1_0000_0000
    ensures LastsAsAsked(now, ticks) <==> NoWrap(now, ticks)
  {
    if NoWrap(now, ticks) {
      LastsIfNoWrap(now, ticks);
    } else {
      WrapsTooSoon(now, ticks);
    }
  }

  // A sleep that would end as the counter reaches zero never ends, and one that runs across
  // the wrap ends at the first tick.
  lemma SleepsForever(now: nat, ticks: nat, m: nat)
    ensures (now + ticks) % 0x1_0000_0000 == 0 ==> SleepsOn((now + ticks) % 0x1_0000_0000, now, m)
    ensures SleepsOn((0xFFFF_FFF0 + 16) % 0x1_0000_0000, 0xFFFF_FFF0, m)
    ensures !SleepsOn((0xFFFF_FFF0 + 100) % 0x1_0000_0000, 0xFFFF_FFF0, 1)
  {
    NoDeadline(now, m);
    NoDeadline(0xFFFF_FFF0, m);
    assert SleepsOn(84, 0xFFFF_FFF0, 0);
  }

  predicate Awake(p: Proc) { p.state.Runnable? || p.state.Running? }

  // Slot p, asleep until d at tick `now`, as it is m ticks later.
  ghost predicate SleptTo(p: Proc, d: nat, now: nat, m: nat) {
    if SleepsOn(d, now, m) then p.state.Sleeping? && p.wakeupTick == d else Awake(p) && p.wakeupTick == 0
  }

  // What a tick, and the scheduler after it, do to a process that is asleep or awake.
  ghost predicate TickedAt(was: Proc, after: Proc, now: nat) {
    if was.state.Sleeping? && (was.wakeupTick == 0 || now % 0x1_0000_0000 < was.wakeupTick)
    then after.state.Sleeping? && after.wakeupTick == was.wakeupTick
    else if was.state.Sleeping? then after.state.Runnable? && after.wakeupTick == 0
    else Awake(was) ==> Awake(after) && after.wakeupTick == was.wakeupTick
  }

  // Asleep as before, or awake as before.
  ghost predicate AsBefore(was: Proc, after: Proc) {
    after.state.Sleeping? == was.state.Sleeping? && Awake(after) == Awake(was) && after.wakeupTick == was.wakeupTick
  }

  // The scheduler wakes no process other than the kernel, and puts none to sleep.
  lemma DispatchSleepers(t0: seq<Proc>, t': seq<Proc>, from: nat, to: nat, p: nat)
    requires DispatchFields(t0, t', from, to) && 0 < p < |t0| && (t0[p].state.Sleeping? || Awake(t0[p]))
    requires IsRunnable(t0, to) || to == from || to == 0
    ensures AsBefore(t0[p], t'[p])
  {}

  lemma SleptStart(p: Proc, now: nat)
    requires p.state.Sleeping?
    ensures SleptTo(p, p.wakeupTick, now, 0)
  {}

  lemma SleptStep(was: Proc, after: Proc, d: nat, now: nat, k: nat)
    requires SleptTo(was, d, now, k) && TickedAt(was, after, now + k + 1)
    ensures SleptTo(after, d, now, k + 1)
    ensures SleepsOn(d, now, k) && !SleepsOn(d, now, k + 1) ==> after.state.Runnable?
  {}

  // The timer interrupt, seen from slot p.
  method TickAt(m: Processes, now: nat, ghost p: nat) returns (preempt: bool)
    requires m.Valid() && p < MAX_PROCESSES == m.table.Length
    modifies m.table
    ensures m.Valid() && TickedAt(old(m.table[p]), m.table[p], now)
  {
    hide AllOk, IsRunnable;
    InTable(m);
    RunningIsCurrent(m, p);
    preempt := m.Tick(now);
  }

  // The scheduler, seen from slot p.
  method ScheduleAt(m: Processes, ghost p: nat)
    requires m.Valid() && 0 < p < MAX_PROCESSES == m.table.Length
    requires m.table[p].state.Sleeping? || Awake(m.table[p])
    modifies m`kids, m`qs, m`current, m.table, m.heads
    ensures m.Valid() && m.table.Length == MAX_PROCESSES && AsBefore(old(m.table[p]), m.table[p])
  {
    hide AllOk, DispatchFields, Reaped, Dispatched;
    InTable(m);
    ghost var t, from := m.table[..], m.current;
    ghost var _ := m.Schedule();
    InTable(m);
    DispatchSleepers(t, m.table[..], from, m.current, p);
  }

  // The timer interrupts after tick `now`, one for each element of `gives`. The scheduler runs
  // when a tick asks for it, and when the element says that the running process gives way.
  // `seen` is slot p as each interrupt leaves it, before the scheduler runs.
  method RunTimer(m: Processes, now: nat, gives: seq<bool>, ghost p: nat) returns (ghost seen: seq<Proc>)
    requires m.Valid() && 0 < p < MAX_PROCESSES && m.table[p].state.Sleeping?
    modifies m`kids, m`qs, m`current, m.table, m.heads
    ensures m.Valid() && m.table.Length == MAX_PROCESSES && |seen| == |gives|
    ensures var d := old(m.table[p].wakeupTick); SleptThrough(seen, d, now) && SleptTo(m.table[p], d, now, |gives|)
  {
    hide AllOk, SleepsOn, TickedAt;
    InTable(m);
    ghost var d := m.table[p].wakeupTick;
    SleptStart(m.table[p], now);
    seen := [];
    for k := 0 to |gives|
      invariant m.Valid() && m.table.Length == MAX_PROCESSES && |seen| == k
      invariant SleptTo(m.table[p], d, now, k) && SleptThrough(seen, d, now)
    {
      ghost var was := m.table[p];
      var preempt := TickAt(m, now + k + 1, p);
      SleptStep(was, m.table[p], d, now, k);
      seen := seen + [m.table[p]];
      if preempt || gives[k] {
        ScheduleAt(m, p);
      }
    }
  }

  // A sleeper after each of the ticks that follow `now`: at the one that is due it becomes runnable.
  ghost predicate SleptThrough(seen: seq<Proc>, d: nat, now: nat) {
    forall i :: 0 <= i < |seen| ==>
      SleptTo(seen[i], d, now, i + 1) && (SleepsOn(d, now, i) && !SleepsOn(d, now, i + 1) ==> seen[i].state.Runnable?)
  }

  // How a process is after k ticks of a sleep that lasts as asked.
  predicate AsAsked(p: Proc, k: nat, ticks: nat) {
    (k < ticks ==> p.state.Sleeping?) && (k == ticks ==> p.state.Runnable?) && (k > ticks ==> Awake(p))
  }

  lemma ThroughAsAsked(seen: seq<Proc>, now: nat, ticks: nat)
    requires ticks < 0x1_0000_0000 && NoWrap(now, ticks) && SleptThrough(seen, (now + ticks) % 0x1_0000_0000, now)
    ensures forall i :: 0 <= i < |seen| ==> AsAsked(seen[i], i + 1, if ticks == 0 then 1 else ticks)
  {
    hide SleepsOn, NoWrap;
    LastsIfNoWrap(now, ticks);
  }

  // A process other than the kernel that sleeps for a number of ticks is asleep after every tick
  // before the last of them and runnable after that one, if the counter does not wrap on the way.
  method SleepFor(m: Processes, now: nat, ticks: nat, gives: seq<bool>) returns (ghost seen: seq<Proc>)
    requires m.Valid() && m.current != 0 && m.table[m.current].state.Running? && ticks < 0x1_0000_0000
    modifies m`kids, m`qs, m`current, m.table, m.heads
    ensures m.Valid() && |seen| == |gives|
    ensures SleptThrough(seen, (now + ticks) % 0x1_0000_0000, now)
    ensures NoWrap(now, ticks) ==> forall i :: 0 <= i < |gives| ==> AsAsked(seen[i], i + 1, if ticks == 0 then 1 else ticks)
  {
    hide AllOk, DispatchFields, Reaped, Dispatched, Chosen, SleptThrough, SleptTo, AsAsked, NoWrap;
    InTable(m);
    ghost var p := m.current;
    ghost var _ := m.Sleep(now, ticks);
    seen := RunTimer(m, now, gives, p);
    if NoWrap(now, ticks) {
      ThroughAsAsked(seen, now, ticks);
    }
  }

  lemma InTable(m: Processes)
    requires m.Valid()
    ensures 0 <= m.current < MAX_PROCESSES == m.table.Length
  {}

  lemma RunningIsCurrent(m: Processes, p: nat)
    requires m.Valid() && p < m.table.Length
    ensures m.table[p].state.Running? ==> p == m.current
  {
    hide TreeOk, QueuesOk, PidsOk, ReapOk;
    assert m.table[p].state.Running? ==> Live(m.table[..], p);
  }
}
