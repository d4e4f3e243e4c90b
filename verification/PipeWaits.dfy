/**
 Readers and writers that wait on a pipe. A system call can be preempted, so what sys_read and
 sys_write do in a loop are separate steps: checking the pipe, going to sleep on its queue, and
 moving bytes, which wakes one process of the other side. What every interleaving of such steps
 by any number of processes leads to.
 */
module PipeWaits {
  import opened Basics
  import opened Lists
  import opened PipeRing
  import opened ProcTable
  import opened ProcManager

  // The processes in a system call on one end: asleep on its queue, newest first; taken off it
  // and not yet back at the check; past a check that let them go on; past one that did not.
  datatype Side = Side(asleep: seq<int>, woken: set<int>, ready: set<int>, drowsy: set<int>)

  datatype Waiting = Waiting(data: seq<byte>, readOpen: bool, writeOpen: bool, readers: Side, writers: Side)

  const QUIET := Side([], {}, {}, {})

  const FRESH := Waiting([], true, true, QUIET, QUIET)

  predicate CanRead(s: Waiting) { s.data != [] || !s.writeOpen }

  predicate CanWrite(s: Waiting) { s.readOpen && |s.data| < PIPE_BUF_SIZE }

  // ----- one side -----

  function Checked(x: Side, p: int, can: bool): Side {
    if can then x.(woken := x.woken - {p}, ready := x.ready + {p})
    else x.(woken := x.woken - {p}, drowsy := x.drowsy + {p})
  }

  function Slept(x: Side, p: int): Side { x.(drowsy := x.drowsy - {p}, asleep := [p] + x.asleep) }

  function Done(x: Side, p: int): Side { x.(ready := x.ready - {p}) }

  function OneWoken(x: Side): Side {
    if x.asleep == [] then x else x.(asleep := x.asleep[1..], woken := x.woken + {x.asleep[0]})
  }

  function AllWoken(x: Side): Side { x.(asleep := [], woken := x.woken + set p | p in x.asleep) }

  function Except(xs: seq<int>, p: int): (r: seq<int>)
    ensures forall x :: x in r <==> x in xs && x != p
    ensures p !in xs ==> r == xs
  {
    if xs == [] then [] else (if xs[0] == p then [] else [xs[0]]) + Except(xs[1..], p)
  }

  function Without(x: Side, p: int): Side {
    Side(Except(x.asleep, p), x.woken - {p}, x.ready - {p}, x.drowsy - {p})
  }

  // Those who will look at the pipe, or use it, without being woken first.
  function Coming(x: Side): set<int> { x.woken + x.ready }

  predicate Busy(x: Side, p: int) { p in x.asleep || p in x.ready || p in x.drowsy }

  ghost predicate Apart(xs: seq<int>) { forall i, j :: 0 <= i < j < |xs| ==> xs[i] != xs[j] }

  ghost predicate SideOk(x: Side) {
    && Apart(x.asleep)
    && (forall p :: p in x.asleep ==> p !in x.woken && p !in x.ready && p !in x.drowsy)
    && x.woken !! x.ready !! x.drowsy
  }

  // ----- steps -----

  // How many bytes a read of n, or a write of n, moves.
  function Taken(s: Waiting, n: nat): nat { if n < |s.data| then n else |s.data| }

  function Stored(s: Waiting, n: nat): nat
    requires |s.data| <= PIPE_BUF_SIZE
  {
    if !s.readOpen then 0 else if n < PIPE_BUF_SIZE - |s.data| then n else PIPE_BUF_SIZE - |s.data|
  }

  datatype Op =
    | CheckRead(p: int) | SleepRead(p: int) | Take(p: int, n: nat)
    | CheckWrite(p: int) | SleepWrite(p: int) | Put(p: int, bytes: seq<byte>)
    | CloseReader | CloseWriter | Gone(p: int)

  // An end stays open while a process is in a call on it. A process is in one call at a time.
  predicate Enabled(s: Waiting, op: Op) {
    match op
    case CheckRead(p) => s.readOpen && !Busy(s.readers, p) && !Busy(s.writers, p) && p !in s.writers.woken
    case SleepRead(p) => p in s.readers.drowsy
    case Take(p, _) => p in s.readers.ready
    case CheckWrite(p) => s.writeOpen && !Busy(s.writers, p) && !Busy(s.readers, p) && p !in s.readers.woken
    case SleepWrite(p) => p in s.writers.drowsy
    case Put(p, _) => p in s.writers.ready
    case CloseReader => s.readOpen && s.readers == QUIET
    case CloseWriter => s.writeOpen && s.writers == QUIET
    case Gone(_) => true
  }

  function Step(s: Waiting, op: Op): Waiting
    requires |s.data| <= PIPE_BUF_SIZE
  {
    match op
    case CheckRead(p) => s.(readers := Checked(s.readers, p, CanRead(s)))
    case SleepRead(p) => s.(readers := Slept(s.readers, p))
    case Take(p, n) =>
      s.(data := s.data[Taken(s, n)..], readers := Done(s.readers, p),
         writers := if Taken(s, n) > 0 then OneWoken(s.writers) else s.writers)
    case CheckWrite(p) => s.(writers := Checked(s.writers, p, CanWrite(s)))
    case SleepWrite(p) => s.(writers := Slept(s.writers, p))
    case Put(p, bytes) =>
      s.(data := s.data + bytes[..Stored(s, |bytes|)], writers := Done(s.writers, p),
         readers := if Stored(s, |bytes|) > 0 then OneWoken(s.readers) else s.readers)
    case CloseReader => s.(readOpen := false, writers := AllWoken(s.writers))
    case CloseWriter => s.(writeOpen := false, readers := AllWoken(s.readers))
    case Gone(p) => s.(readers := Without(s.readers, p), writers := Without(s.writers, p))
  }

  // ----- what every step keeps -----

  ghost predicate Inv(s: Waiting) {
    && |s.data| <= PIPE_BUF_SIZE && SideOk(s.readers) && SideOk(s.writers)
    && (!s.readOpen ==> s.readers == QUIET) && (!s.writeOpen ==> s.writers == QUIET)
  }

  lemma {:induction false} ExceptApart(xs: seq<int>, p: int)
    requires Apart(xs)
    ensures Apart(Except(xs, p))
  {
    if xs != [] {
      ExceptApart(xs[1..], p);
      ApartCons(xs[0], Except(xs[1..], p));
    }
  }

  lemma ApartCons(x: int, xs: seq<int>)
    requires Apart(xs) && x !in xs
    ensures Apart([x] + xs)
  {}

  lemma CheckedOk(x: Side, p: int, can: bool)
    requires SideOk(x) && !Busy(x, p)
    ensures SideOk(Checked(x, p, can))
  {}

  lemma SleptOk(x: Side, p: int)
    requires SideOk(x) && p in x.drowsy
    ensures SideOk(Slept(x, p))
  {
    ApartCons(p, x.asleep);
  }

  lemma WokenOk(x: Side)
    requires SideOk(x)
    ensures SideOk(OneWoken(x)) && SideOk(AllWoken(x))
  {
    var all, one := AllWoken(x), OneWoken(x);
    forall p | p in all.woken ensures p !in all.ready && p !in all.drowsy {}
    forall p | p in one.woken ensures p !in one.ready && p !in one.drowsy {}
    if x.asleep != [] {
      assert x.asleep[0] !in x.asleep[1..];
      forall p | p in one.asleep ensures p in x.asleep && p != x.asleep[0] {}
    }
  }

  lemma WithoutOk(x: Side, p: int)
    requires SideOk(x)
    ensures SideOk(Without(x, p)) && (x == QUIET ==> Without(x, p) == QUIET)
  {
    ExceptApart(x.asleep, p);
  }

  lemma StepKeeps(s: Waiting, op: Op)
    requires Inv(s) && Enabled(s, op)
    ensures Inv(Step(s, op))
  {
    hide SideOk, Checked, Slept, OneWoken, AllWoken, Without;
    match op
    case CheckRead(p) => CheckedOk(s.readers, p, CanRead(s));
    case SleepRead(p) => SleptOk(s.readers, p);
    case Take(p, n) => WokenOk(s.writers); DoneOk(s.readers, p); QuietWoken(s.writers);
    case CheckWrite(p) => CheckedOk(s.writers, p, CanWrite(s));
    case SleepWrite(p) => SleptOk(s.writers, p);
    case Put(p, _) => WokenOk(s.readers); DoneOk(s.writers, p); QuietWoken(s.readers);
    case CloseReader => WokenOk(s.writers); QuietWoken(s.writers);
    case CloseWriter => WokenOk(s.readers); QuietWoken(s.readers);
    case Gone(p) => WithoutOk(s.readers, p); WithoutOk(s.writers, p);
  }

  lemma DoneOk(x: Side, p: int)
    requires SideOk(x)
    ensures SideOk(Done(x, p))
  {}

  lemma QuietWoken(x: Side)
    ensures x == QUIET ==> OneWoken(x) == QUIET && AllWoken(x) == QUIET
  {}

  // ----- who sleeps although it need not -----

  // Somebody sleeps, there is something to do, and nobody is on the way to do it.
  ghost predicate Stuck(x: Side, can: bool) { can && x.asleep != [] && Coming(x) == {} }

  ghost predicate ReaderStuck(s: Waiting) { Stuck(s.readers, CanRead(s)) }

  ghost predicate WriterStuck(s: Waiting) { Stuck(s.writers, CanWrite(s)) }

  // Falling asleep after the wake-up has gone by; or being the only one on the way and leaving
  // some of it behind, or vanishing.
  ghost predicate StrandsReader(s: Waiting, op: Op) {
    match op
    case SleepRead(p) => CanRead(s) && Coming(s.readers) == {}
    case Take(p, n) => Coming(s.readers) == {p} && s.readers.asleep != [] && (n < |s.data| || !s.writeOpen)
    case Gone(p) => Coming(s.readers) == {p} && s.readers.asleep != [] && CanRead(s)
    case _ => false
  }

  ghost predicate StrandsWriter(s: Waiting, op: Op) {
    match op
    case SleepWrite(p) => CanWrite(s) && Coming(s.writers) == {}
    case Put(p, bytes) =>
      Coming(s.writers) == {p} && s.writers.asleep != [] && s.readOpen && |bytes| < PIPE_BUF_SIZE - |s.data|
    case Gone(p) => Coming(s.writers) == {p} && s.writers.asleep != [] && CanWrite(s)
    case _ => false
  }

  lemma OneLess(xs: set<int>, p: int)
    ensures xs - {p} == {} <==> xs == {} || xs == {p}
  {
    if xs - {p} == {} && xs != {} {
      forall x | x in xs ensures x == p { assert x != p ==> x in xs - {p}; }
      var x :| x in xs;
      assert xs == {p};
    }
  }

  lemma CheckedFree(x: Side, p: int, can: bool)
    ensures !Stuck(Checked(x, p, can), can)
  {
    if can { assert p in Coming(Checked(x, p, can)); }
  }

  lemma DoneStuck(x: Side, p: int, can: bool)
    requires SideOk(x) && p in x.ready
    ensures Stuck(Done(x, p), can) <==> can && x.asleep != [] && Coming(x) == {p}
  {
    assert Coming(Done(x, p)) == Coming(x) - {p};
    OneLess(Coming(x), p);
  }

  lemma WithoutStuck(x: Side, p: int, can: bool)
    requires SideOk(x) && !Stuck(x, can)
    ensures Stuck(Without(x, p), can) <==> can && x.asleep != [] && Coming(x) == {p}
  {
    assert Coming(Without(x, p)) == Coming(x) - {p};
    OneLess(Coming(x), p);
    if Coming(x) == {p} { assert p in Coming(x); }
  }

  lemma OneWokenStuck(x: Side, can: bool)
    ensures !Stuck(OneWoken(x), can)
  {
    if x.asleep != [] { assert x.asleep[0] in Coming(OneWoken(x)); }
  }

  lemma SleptStuck(x: Side, p: int, can: bool)
    ensures Stuck(Slept(x, p), can) <==> can && Coming(x) == {}
  {}

  // Exactly these steps strand a reader.
  lemma StepStrandsReader(s: Waiting, op: Op)
    requires Inv(s) && Enabled(s, op) && !ReaderStuck(s)
    ensures ReaderStuck(Step(s, op)) <==> StrandsReader(s, op)
  {
    hide Stuck, Checked, Slept, Done, OneWoken, Without, Coming, SideOk;
    match op
    case CheckRead(p) => CheckedFree(s.readers, p, CanRead(s));
    case SleepRead(p) => SleptStuck(s.readers, p, CanRead(s));
    case Take(p, n) => DoneStuck(s.readers, p, CanRead(Step(s, op)));
    case Put(p, bytes) => OneWokenStuck(s.readers, CanRead(Step(s, op)));
    case CloseWriter => NoneAsleep(AllWoken(s.readers), CanRead(Step(s, op)));
    case Gone(p) => WithoutStuck(s.readers, p, CanRead(s));
    case _ =>
  }

  // Exactly these steps strand a writer.
  lemma StepStrandsWriter(s: Waiting, op: Op)
    requires Inv(s) && Enabled(s, op) && !WriterStuck(s)
    ensures WriterStuck(Step(s, op)) <==> StrandsWriter(s, op)
  {
    hide Stuck, Checked, Slept, Done, OneWoken, Without, Coming, SideOk;
    match op
    case CheckWrite(p) => CheckedFree(s.writers, p, CanWrite(s));
    case SleepWrite(p) => SleptStuck(s.writers, p, CanWrite(s));
    case Put(p, bytes) => DoneStuck(s.writers, p, CanWrite(Step(s, op)));
    case Take(p, n) => OneWokenStuck(s.writers, CanWrite(Step(s, op)));
    case CloseReader => NoneAsleep(AllWoken(s.writers), CanWrite(Step(s, op)));
    case Gone(p) => WithoutStuck(s.writers, p, CanWrite(s));
    case _ =>
  }

  lemma NoneAsleep(x: Side, can: bool)
    requires x.asleep == []
    ensures !Stuck(x, can)
  {}

  // ----- runs -----

  ghost predicate IsRun(states: seq<Waiting>, ops: seq<Op>) {
    && |states| == |ops| + 1 && states[0] == FRESH
    && forall i :: 0 <= i < |ops| ==>
         |states[i].data| <= PIPE_BUF_SIZE && Enabled(states[i], ops[i]) && states[i + 1] == Step(states[i], ops[i])
  }

  lemma {:induction false} RunKeeps(states: seq<Waiting>, ops: seq<Op>, i: nat)
    requires IsRun(states, ops) && i < |states|
    ensures Inv(states[i])
  {
    hide Step, Enabled;
    if i == 0 {
      FreshOk();
    } else {
      RunKeeps(states, ops, i - 1);
      StepKeeps(states[i - 1], ops[i - 1]);
    }
  }

  lemma FreshOk()
    ensures Inv(FRESH) && !ReaderStuck(FRESH) && !WriterStuck(FRESH)
  {}

  // In every run, a stranded reader comes up exactly if some step strands one.
  lemma ReaderStrandedIff(states: seq<Waiting>, ops: seq<Op>)
    requires IsRun(states, ops)
    ensures (exists i :: 0 <= i < |states| && ReaderStuck(states[i])) <==>
            (exists i :: 0 <= i < |ops| && !ReaderStuck(states[i]) && StrandsReader(states[i], ops[i]))
  {
    hide Step, Enabled, StrandsReader, ReaderStuck, Inv;
    if i :| 0 <= i < |states| && ReaderStuck(states[i]) {
      FirstStrandsReader(states, ops, i);
    }
    if i :| 0 <= i < |ops| && !ReaderStuck(states[i]) && StrandsReader(states[i], ops[i]) {
      RunKeeps(states, ops, i);
      StepStrandsReader(states[i], ops[i]);
      assert ReaderStuck(states[i + 1]);
    }
  }

  lemma {:induction false} FirstStrandsReader(states: seq<Waiting>, ops: seq<Op>, i: nat)
    requires IsRun(states, ops) && i < |states| && ReaderStuck(states[i])
    ensures exists k :: 0 <= k < |ops| && !ReaderStuck(states[k]) && StrandsReader(states[k], ops[k])
  {
    hide Step, Enabled, StrandsReader, ReaderStuck, Inv;
    FreshOk();
    if ReaderStuck(states[i - 1]) {
      FirstStrandsReader(states, ops, i - 1);
    } else {
      RunKeeps(states, ops, i - 1);
      StepStrandsReader(states[i - 1], ops[i - 1]);
    }
  }

  // And a stranded writer exactly if some step strands one.
  lemma WriterStrandedIff(states: seq<Waiting>, ops: seq<Op>)
    requires IsRun(states, ops)
    ensures (exists i :: 0 <= i < |states| && WriterStuck(states[i])) <==>
            (exists i :: 0 <= i < |ops| && !WriterStuck(states[i]) && StrandsWriter(states[i], ops[i]))
  {
    hide Step, Enabled, StrandsWriter, WriterStuck, Inv;
    if i :| 0 <= i < |states| && WriterStuck(states[i]) {
      FirstStrandsWriter(states, ops, i);
    }
    if i :| 0 <= i < |ops| && !WriterStuck(states[i]) && StrandsWriter(states[i], ops[i]) {
      RunKeeps(states, ops, i);
      StepStrandsWriter(states[i], ops[i]);
      assert WriterStuck(states[i + 1]);
    }
  }

  lemma {:induction false} FirstStrandsWriter(states: seq<Waiting>, ops: seq<Op>, i: nat)
    requires IsRun(states, ops) && i < |states| && WriterStuck(states[i])
    ensures exists k :: 0 <= k < |ops| && !WriterStuck(states[k]) && StrandsWriter(states[k], ops[k])
  {
    hide Step, Enabled, StrandsWriter, WriterStuck, Inv;
    FreshOk();
    if WriterStuck(states[i - 1]) {
      FirstStrandsWriter(states, ops, i - 1);
    } else {
      RunKeeps(states, ops, i - 1);
      StepStrandsWriter(states[i - 1], ops[i - 1]);
    }
  }

  // Unless one is stranded, readers and writers never all sleep on an open pipe.
  lemma SomebodyComes(states: seq<Waiting>, ops: seq<Op>, i: nat)
    requires IsRun(states, ops) && i < |states| && !ReaderStuck(states[i]) && !WriterStuck(states[i])
    ensures var s := states[i];
            s.readers.asleep != [] && s.writers.asleep != [] ==> Coming(s.readers) != {} || Coming(s.writers) != {}
  {
    hide Step, Enabled, SideOk;
    RunKeeps(states, ops, i);
  }

  ghost predicate Reachable(s: Waiting) {
    exists states, ops :: IsRun(states, ops) && states[|ops|] == s
  }

  lemma ReachableFirst()
    ensures Reachable(FRESH)
  {
    assert IsRun([FRESH], []);
  }

  lemma ReachableNext(s: Waiting, op: Op)
    requires Reachable(s) && |s.data| <= PIPE_BUF_SIZE && Enabled(s, op)
    ensures Reachable(Step(s, op))
  {
    hide Step, Enabled;
    var states, ops :| IsRun(states, ops) && states[|ops|] == s;
    assert IsRun(states + [Step(s, op)], ops + [op]);
  }

  function Empty(readers: Side, writers: Side): Waiting { Waiting([], true, true, readers, writers) }

  lemma TwoAsleep()
    ensures Reachable(Empty(Side([2, 1], {}, {}, {}), QUIET))
  {
    hide Reachable;
    var s1, s2 := Empty(Side([], {}, {}, {1}), QUIET), Empty(Side([1], {}, {}, {}), QUIET);
    var s3, s4 := Empty(Side([1], {}, {}, {2}), QUIET), Empty(Side([2, 1], {}, {}, {}), QUIET);
    ReachableFirst();
    ReachableNext(FRESH, CheckRead(1));
    assert Step(FRESH, CheckRead(1)) == s1;
    ReachableNext(s1, SleepRead(1));
    assert Step(s1, SleepRead(1)) == s2;
    ReachableNext(s2, CheckRead(2));
    assert Step(s2, CheckRead(2)) == s3;
    ReachableNext(s3, SleepRead(2));
    assert Step(s3, SleepRead(2)) == s4;
  }

  // Two readers sleep; a write of two bytes wakes one, which takes one byte and leaves.
  lemma SecondReaderStranded(a: byte, b: byte)
    ensures var s := Waiting([b], true, true, Side([1], {}, {}, {}), QUIET); Reachable(s) && ReaderStuck(s)
  {
    hide Reachable;
    var s4, s5 := Empty(Side([2, 1], {}, {}, {}), QUIET), Empty(Side([2, 1], {}, {}, {}), Side([], {}, {3}, {}));
    var s6 := Waiting([a, b], true, true, Side([1], {2}, {}, {}), QUIET);
    var s7 := s6.(readers := Side([1], {}, {2}, {}));
    var s8 := Waiting([b], true, true, Side([1], {}, {}, {}), QUIET);
    TwoAsleep();
    ReachableNext(s4, CheckWrite(3));
    assert Step(s4, CheckWrite(3)) == s5;
    ReachableNext(s5, Put(3, [a, b]));
    assert [a, b][..2] == [a, b];
    assert Step(s5, Put(3, [a, b])) == s6;
    ReachableNext(s6, CheckRead(2));
    assert Step(s6, CheckRead(2)) == s7;
    ReachableNext(s7, Take(2, 1));
    assert Step(s7, Take(2, 1)) == s8;
  }

  // A reader finds the pipe empty, the bytes come, and then it goes to sleep.
  lemma WakeUpMissed(a: byte)
    ensures var s := Waiting([a], true, true, Side([1], {}, {}, {}), QUIET); Reachable(s) && ReaderStuck(s)
  {
    hide Reachable;
    var s1 := Empty(Side([], {}, {}, {1}), QUIET);
    var s2, s3 := s1.(writers := Side([], {}, {2}, {})), s1.(data := [a]);
    ReachableFirst();
    ReachableNext(FRESH, CheckRead(1));
    assert Step(FRESH, CheckRead(1)) == s1;
    ReachableNext(s1, CheckWrite(2));
    assert Step(s1, CheckWrite(2)) == s2;
    ReachableNext(s2, Put(2, [a]));
    assert [a][..1] == [a];
    assert Step(s2, Put(2, [a])) == s3;
    ReachableNext(s3, SleepRead(1));
    assert Step(s3, SleepRead(1)) == s3.(readers := Side([1], {}, {}, {}));
  }

  // ----- reads that come back with nothing -----

  // Whoever has passed the check finds something to read, or the end of the file.
  ghost predicate KeepsWord(s: Waiting) { s.readers.ready != {} ==> CanRead(s) }

  // A read that empties the pipe while another one is past its check.
  ghost predicate Drains(s: Waiting, op: Op) {
    op.Take? && s.writeOpen && |s.data| <= op.n && s.readers.ready != {op.p}
  }

  lemma StepKeepsWord(s: Waiting, op: Op)
    requires Inv(s) && Enabled(s, op) && KeepsWord(s)
    ensures !KeepsWord(Step(s, op)) <==> Drains(s, op)
  {
    match op
    case Take(p, n) => OneLess(s.readers.ready, p);
    case Gone(p) => assert s.readers.ready == {} ==> s.readers.ready - {p} == {};
    case _ =>
  }

  // In every run, the word is broken exactly if some read drains the pipe under another.
  lemma WordBrokenIff(states: seq<Waiting>, ops: seq<Op>)
    requires IsRun(states, ops)
    ensures (exists i :: 0 <= i < |states| && !KeepsWord(states[i])) <==>
            (exists i :: 0 <= i < |ops| && KeepsWord(states[i]) && Drains(states[i], ops[i]))
  {
    hide Step, Enabled, KeepsWord, Drains, Inv;
    if i :| 0 <= i < |states| && !KeepsWord(states[i]) {
      FirstDrains(states, ops, i);
    }
    if i :| 0 <= i < |ops| && KeepsWord(states[i]) && Drains(states[i], ops[i]) {
      RunKeeps(states, ops, i);
      StepKeepsWord(states[i], ops[i]);
      assert !KeepsWord(states[i + 1]);
    }
  }

  lemma {:induction false} FirstDrains(states: seq<Waiting>, ops: seq<Op>, i: nat)
    requires IsRun(states, ops) && i < |states| && !KeepsWord(states[i])
    ensures exists k :: 0 <= k < |ops| && KeepsWord(states[k]) && Drains(states[k], ops[k])
  {
    hide Step, Enabled, Drains, Inv;
    if !KeepsWord(states[i - 1]) {
      FirstDrains(states, ops, i - 1);
    } else {
      RunKeeps(states, ops, i - 1);
      StepKeepsWord(states[i - 1], ops[i - 1]);
    }
  }

  // Two readers have seen the one byte there is. After one has taken it, the read of the other
  // will return 0 as at the end of the file, though a writer is there.
  lemma FalseEnd(a: byte)
    ensures var s := Empty(Side([], {}, {1}, {}), QUIET); Reachable(s) && Taken(s, 1) == 0 && !KeepsWord(s)
  {
    hide Reachable;
    var s1, s2 := Empty(QUIET, Side([], {}, {3}, {})), FRESH.(data := [a]);
    var s3, s4 := s2.(readers := Side([], {}, {1}, {})), s2.(readers := Side([], {}, {1, 2}, {}));
    ReachableFirst();
    ReachableNext(FRESH, CheckWrite(3));
    assert Step(FRESH, CheckWrite(3)) == s1;
    ReachableNext(s1, Put(3, [a]));
    assert [a][..1] == [a];
    assert Step(s1, Put(3, [a])) == s2;
    ReachableNext(s2, CheckRead(1));
    assert Step(s2, CheckRead(1)) == s3;
    ReachableNext(s3, CheckRead(2));
    assert Step(s3, CheckRead(2)) == s4;
    ReachableNext(s4, Take(2, 1));
    assert Step(s4, Take(2, 1)) == Empty(Side([], {}, {1}, {}), QUIET);
  }

  // ----- writing with nobody to read -----

  // The process has found that it cannot write and is not coming back.
  predicate Shut(s: Waiting, p: int) { p in s.writers.drowsy || p in s.writers.asleep }

  lemma ShutStays(s: Waiting, op: Op, p: int)
    requires Inv(s) && Enabled(s, op) && !s.readOpen && Shut(s, p) && op != Gone(p)
    ensures !Step(s, op).readOpen && Shut(Step(s, op), p)
  {
    assert s.readers == QUIET;
  }

  // A write that starts after the read end was closed never returns, unless its process is
  // destroyed: it sleeps, and nothing wakes it.
  lemma {:induction false} ClosedReaderBlocks(states: seq<Waiting>, ops: seq<Op>, i: nat, j: nat, p: int)
    requires IsRun(states, ops) && i < j < |states| && !states[i].readOpen && ops[i] == CheckWrite(p)
    requires forall k :: i <= k < j ==> ops[k] != Gone(p)
    ensures !states[j].readOpen && Shut(states[j], p)
  {
    if j > i + 1 {
      ClosedReaderBlocks(states, ops, i, j - 1, p);
      RunKeeps(states, ops, j - 1);
      ShutStays(states[j - 1], ops[j - 1], p);
    }
  }

  // ----- the steps in memory -----

  // Queues rq and wq of the process table are the pipe's, and s is what they and the ring show.
  ghost predicate Shows(m: Processes, pipe: Pipe, rq: nat, wq: nat, s: Waiting)
    reads m, m.table, m.heads, pipe, pipe.buffer
  {
    && m.Valid() && pipe.Valid() && rq < m.heads.Length == |m.qs| && wq < m.heads.Length && rq != wq
    && s.data == pipe.Contents() && s.readOpen == pipe.readEndOpen && s.writeOpen == pipe.writeEndOpen
    && s.readers.asleep == m.qs[rq] && s.writers.asleep == m.qs[wq]
  }

  lemma TakeShows(s: Waiting, p: int, n: nat)
    requires |s.data| <= PIPE_BUF_SIZE
    ensures var r := Step(s, Take(p, n));
            && r.data == s.data[Taken(s, n)..] && r.readOpen == s.readOpen && r.writeOpen == s.writeOpen
            && r.readers.asleep == s.readers.asleep
            && r.writers.asleep == if Taken(s, n) > 0 && s.writers.asleep != [] then s.writers.asleep[1..] else s.writers.asleep
  {}

  lemma PutShows(s: Waiting, p: int, bytes: seq<byte>)
    requires |s.data| <= PIPE_BUF_SIZE
    ensures var r := Step(s, Put(p, bytes));
            && r.data == s.data + bytes[..Stored(s, |bytes|)] && r.readOpen == s.readOpen && r.writeOpen == s.writeOpen
            && r.writers.asleep == s.writers.asleep
            && r.readers.asleep == (if Stored(s, |bytes|) > 0 && s.readers.asleep != []
                                    then s.readers.asleep[1..] else s.readers.asleep)
  {}

  // fd_pipe_wait_readable up to the call of the scheduler.
  method SleepReader(m: Processes, pipe: Pipe, rq: nat, wq: nat, ghost s: Waiting)
    requires Shows(m, pipe, rq, wq, s) && m.table[m.current].waitingOn == NULL && !m.table[m.current].state.Zombie?
    modifies m`qs, m.table, m.heads
    ensures |s.data| <= PIPE_BUF_SIZE && Shows(m, pipe, rq, wq, Step(s, SleepRead(m.current)))
  {
    hide Window, AllOk;
    m.JoinQueue(rq);
  }

  method SleepWriter(m: Processes, pipe: Pipe, rq: nat, wq: nat, ghost s: Waiting)
    requires Shows(m, pipe, rq, wq, s) && m.table[m.current].waitingOn == NULL && !m.table[m.current].state.Zombie?
    modifies m`qs, m.table, m.heads
    ensures |s.data| <= PIPE_BUF_SIZE && Shows(m, pipe, rq, wq, Step(s, SleepWrite(m.current)))
  {
    hide Window, AllOk;
    m.JoinQueue(wq);
  }

  // pipe_read with its wake-up.
  method ReadAndWake(m: Processes, pipe: Pipe, rq: nat, wq: nat, size: nat, ghost s: Waiting) returns (out: seq<byte>)
    requires Shows(m, pipe, rq, wq, s)
    modifies m`qs, m.table, m.heads, pipe`readPos, pipe`count, pipe`delivered
    ensures |s.data| <= PIPE_BUF_SIZE && Shows(m, pipe, rq, wq, Step(s, Take(m.current, size)))
    ensures out == s.data[..Taken(s, size)]
  {
    hide Window, AllOk, Step;
    TakeShows(s, m.current, size);
    out := pipe.Read(size);
    if |out| > 0 { m.WakeOne(wq); }
  }

  // pipe_write with its wake-up.
  method WriteAndWake(m: Processes, pipe: Pipe, rq: nat, wq: nat, bytes: seq<byte>, ghost s: Waiting) returns (r: int)
    requires Shows(m, pipe, rq, wq, s)
    modifies m`qs, m.table, m.heads, pipe`writePos, pipe`count, pipe`accepted, pipe.buffer
    ensures |s.data| <= PIPE_BUF_SIZE && Shows(m, pipe, rq, wq, Step(s, Put(m.current, bytes)))
    ensures r == if bytes != [] && !s.readOpen then -1 else Stored(s, |bytes|)
  {
    hide Window, AllOk, Step;
    PutShows(s, m.current, bytes);
    r := pipe.Write(bytes);
    if r > 0 { m.WakeOne(rq); }
  }

  // pipe_close with its wake-ups.
  method CloseEnd(m: Processes, pipe: Pipe, rq: nat, wq: nat, reader: bool, ghost s: Waiting) returns (released: bool)
    requires Shows(m, pipe, rq, wq, s)
    modifies m`qs, m.table, m.heads, pipe`readEndOpen, pipe`writeEndOpen, pipe`freed
    ensures |s.data| <= PIPE_BUF_SIZE && Shows(m, pipe, rq, wq, Step(s, if reader then CloseReader else CloseWriter))
    ensures released == (!pipe.readEndOpen && !pipe.writeEndOpen)
  {
    hide Window, AllOk;
    released := pipe.Close(reader);
    if reader { m.WakeAll(wq); } else { m.WakeAll(rq); }
  }
}
