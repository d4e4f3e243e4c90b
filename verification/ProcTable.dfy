/**
 The process table: what a slot holds, which slots are live, and how pids are given out.
 */
module ProcTable {
  import opened Lists

  const MAX_PROCESSES: nat := 64
  const INIT_PID: nat := 1

  datatype ProcState = Unused | Embryo | Runnable | Running | Sleeping | Zombie

  // Links hold slot numbers (wait-queue numbers for waitingOn), or NULL.
  datatype Proc = Proc(
    state: ProcState, pid: nat, ppid: nat,
    parent: int, children: int, sibling: int,
    waitNext: int, waitingOn: int,
    basePriority: nat, weight: nat, aging: int, timeSlice: nat, wakeupTick: nat)

  // A slot after memset
  const BLANK: Proc := Proc(Unused, 0, 0, NULL, NULL, NULL, NULL, NULL, 0, 0, 0, 0, 0)

  predicate Live(t: seq<Proc>, i: int) { 0 <= i < |t| && !t[i].state.Unused? }

  function Siblings(t: seq<Proc>): (s: seq<int>)
    ensures |s| == |t| && forall i :: 0 <= i < |t| ==> s[i] == t[i].sibling
  {
    seq(|t|, i requires 0 <= i < |t| => t[i].sibling)
  }

  function WaitLinks(t: seq<Proc>): (s: seq<int>)
    ensures |s| == |t| && forall i :: 0 <= i < |t| ==> s[i] == t[i].waitNext
  {
    seq(|t|, i requires 0 <= i < |t| => t[i].waitNext)
  }

  // ----- pids -----

  // Live pids are distinct and small; slot 0 is the kernel.
  ghost predicate PidsOk(t: seq<Proc>) {
    && |t| == MAX_PROCESSES
    && Live(t, 0) && t[0].pid == 0
    && (forall i :: Live(t, i) ==> t[i].pid < MAX_PROCESSES)
    && (forall i, j :: Live(t, i) && Live(t, j) && t[i].pid == t[j].pid ==> i == j)
  }

  predicate InUse(t: seq<Proc>, pid: nat) { exists i :: 0 <= i < |t| && !t[i].state.Unused? && t[i].pid == pid }

  // The slot of a pid, or NULL.
  function FindPid(t: seq<Proc>, pid: nat, i: nat): (r: int)
    requires i <= |t|
    ensures r == NULL || (Live(t, r) && t[r].pid == pid)
    ensures r == NULL ==> forall j :: i <= j < |t| && Live(t, j) ==> t[j].pid != pid
    decreases |t| - i
  {
    if i == |t| then NULL else if !t[i].state.Unused? && t[i].pid == pid then i else FindPid(t, pid, i + 1)
  }

  // The pids below n held by live slots below k.
  ghost function PidsOf(t: seq<Proc>, k: nat): (s: set<nat>)
    requires k <= |t|
  {
    set i | 0 <= i < k && Live(t, i) :: t[i].pid
  }

  lemma {:induction false} PidsOfSize(t: seq<Proc>, k: nat, free: int)
    requires k <= |t|
    ensures |PidsOf(t, k)| <= k
    ensures 0 <= free < k && !Live(t, free) ==> |PidsOf(t, k)| < k
  {
    if k == 0 {
      assert PidsOf(t, 0) == {};
    } else {
      PidsOfSize(t, k - 1, free);
      if Live(t, k - 1) {
        assert PidsOf(t, k) == PidsOf(t, k - 1) + {t[k - 1].pid};
      } else {
        assert PidsOf(t, k) == PidsOf(t, k - 1);
      }
    }
  }

  ghost function UpTo(n: nat): (s: set<nat>)
    ensures |s| == n && forall x: nat :: x in s <==> x < n
  {
    if n == 0 then {} else UpTo(n - 1) + {n - 1}
  }

  lemma SubsetSize<T>(a: set<T>, b: set<T>)
    requires a <= b
    ensures |a| <= |b|
  {
    assert b == a + (b - a);
  }

  lemma InUseIsPid(t: seq<Proc>, pid: nat)
    ensures InUse(t, pid) ==> pid in PidsOf(t, |t|)
    ensures Live(t, 0) && t[0].pid == 0 ==> 0 in PidsOf(t, |t|)
  {
    if InUse(t, pid) {
      var i :| 0 <= i < |t| && !t[i].state.Unused? && t[i].pid == pid;
      assert Live(t, i);
    }
  }

  // By pigeonhole: with a free slot, some pid in 1..63 is free.
  lemma FreePidExists(t: seq<Proc>, free: int)
    requires PidsOk(t) && 0 <= free < |t| && !Live(t, free)
    ensures exists pid :: 1 <= pid < MAX_PROCESSES && !InUse(t, pid)
  {
    if forall pid :: 1 <= pid < MAX_PROCESSES ==> InUse(t, pid) {
      PidsOfSize(t, |t|, free);
      hide InUse, PidsOf;
      forall x | x in UpTo(MAX_PROCESSES) ensures x in PidsOf(t, |t|) {
        InUseIsPid(t, 0);
        InUseIsPid(t, x);
      }
      SubsetSize(UpTo(MAX_PROCESSES), PidsOf(t, |t|));
    }
  }

  // The least free pid from `from` on, or MAX_PROCESSES.
  function LeastFreePid(t: seq<Proc>, from: nat): (pid: nat)
    requires from <= MAX_PROCESSES
    ensures from <= pid <= MAX_PROCESSES
    ensures pid < MAX_PROCESSES ==> !InUse(t, pid)
    ensures forall q :: from <= q < pid ==> InUse(t, q)
    decreases MAX_PROCESSES - from
  {
    if from == MAX_PROCESSES || !InUse(t, from) then from else LeastFreePid(t, from + 1)
  }

  // Whenever a slot is free the search for a pid succeeds.
  lemma LeastFreePidFound(t: seq<Proc>, free: int)
    requires PidsOk(t) && 0 <= free < |t| && !Live(t, free)
    ensures 1 <= LeastFreePid(t, 1) < MAX_PROCESSES
  {
    FreePidExists(t, free);
  }
}
