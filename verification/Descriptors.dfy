/**
 Per-process descriptor tables over the global, reference-counted open-file table, and the
 open/closed state of pipe ends that hangs off those counts.
 */
module Descriptors {

  const MAX_OPEN_FILES: nat := 256
  const MAX_FDS: nat := 16
  // fd 0, 1 and 2 are reserved for stdio
  const FIRST_FD: nat := 3

  // What an open file refers to. A pipe has one node per end.
  datatype Node = Tty | File(id: nat) | PipeRead(pipe: nat) | PipeWrite(pipe: nat)

  datatype Slot = Free | Open(node: Node, refs: nat)

  // A process slot; `fds` holds open-file indices, -1 when closed.
  datatype Process = Process(live: bool, fds: seq<int>)

  // `freed` counts how often the ring buffer has been released.
  datatype Pipe = Pipe(readOpen: bool, writeOpen: bool, freed: nat)

  datatype State = State(files: seq<Slot>, procs: seq<Process>, pipes: seq<Pipe>)

  // ----- counting descriptors -----

  function CountFds(fds: seq<int>, s: int): nat {
    if fds == [] then 0 else (if fds[0] == s then 1 else 0) + CountFds(fds[1..], s)
  }

  function Held(p: Process, s: int): nat { if p.live then CountFds(p.fds, s) else 0 }

  // How many descriptors of live processes name open file s.
  function Holders(procs: seq<Process>, s: int): nat {
    if procs == [] then 0 else Held(procs[0], s) + Holders(procs[1..], s)
  }

  lemma {:induction false} CountFdsUpdate(fds: seq<int>, i: nat, v: int, s: int)
    requires i < |fds|
    ensures CountFds(fds[i := v], s) == CountFds(fds, s) - (if fds[i] == s then 1 else 0) + (if v == s then 1 else 0)
  {
    if i > 0 {
      CountFdsUpdate(fds[1..], i - 1, v, s);
      assert fds[i := v][1..] == fds[1..][i - 1 := v];
    } else {
      assert fds[i := v][1..] == fds[1..];
    }
  }

  lemma {:induction false} CountFdsPositive(fds: seq<int>, s: int)
    ensures CountFds(fds, s) > 0 <==> exists i :: 0 <= i < |fds| && fds[i] == s
  {
    if fds != [] {
      CountFdsPositive(fds[1..], s);
      if i :| 0 <= i < |fds[1..]| && fds[1..][i] == s {
        assert fds[i + 1] == s;
      }
      if i :| 0 <= i < |fds| && fds[i] == s && i > 0 {
        assert fds[1..][i - 1] == s;
      }
    }
  }

  lemma {:induction false} HoldersUpdate(procs: seq<Process>, p: nat, q: Process, s: int)
    requires p < |procs|
    ensures Holders(procs[p := q], s) == Holders(procs, s) - Held(procs[p], s) + Held(q, s)
  {
    if p > 0 {
      HoldersUpdate(procs[1..], p - 1, q, s);
      assert procs[p := q][1..] == procs[1..][p - 1 := q];
    } else {
      assert procs[p := q][1..] == procs[1..];
    }
  }

  ghost predicate Names(procs: seq<Process>, p: int, i: int, s: int) {
    0 <= p < |procs| && procs[p].live && 0 <= i < |procs[p].fds| && procs[p].fds[i] == s
  }

  lemma {:induction false} NamedIsHeld(procs: seq<Process>, p: int, i: int, s: int)
    requires Names(procs, p, i, s)
    ensures Holders(procs, s) > 0
  {
    if p == 0 {
      CountFdsPositive(procs[0].fds, s);
    } else {
      NamedIsHeld(procs[1..], p - 1, i, s);
    }
  }

  lemma {:induction false} HeldIsNamed(procs: seq<Process>, s: int) returns (p: int, i: int)
    requires Holders(procs, s) > 0
    ensures Names(procs, p, i, s)
  {
    if Held(procs[0], s) > 0 {
      CountFdsPositive(procs[0].fds, s);
      i :| 0 <= i < |procs[0].fds| && procs[0].fds[i] == s;
      p := 0;
    } else {
      p, i := HeldIsNamed(procs[1..], s);
      p := p + 1;
    }
  }

  // ----- the operations -----

  // The least free slot from i on, or MAX_OPEN_FILES.
  function FreeSlot(files: seq<Slot>, i: nat): (r: nat)
    requires i <= |files|
    ensures i <= r <= |files|
    ensures r < |files| ==> files[r].Free?
    ensures forall s :: i <= s < r ==> files[s].Open?
    decreases |files| - i
  {
    if i == |files| || files[i].Free? then i else FreeSlot(files, i + 1)
  }

  // The least closed descriptor from i on, or the table size.
  function FreeFd(fds: seq<int>, i: nat): (r: nat)
    requires i <= |fds|
    ensures i <= r <= |fds|
    ensures r < |fds| ==> fds[r] < 0
    ensures forall k :: i <= k < r ==> fds[k] >= 0
    decreases |fds| - i
  {
    if i == |fds| || fds[i] < 0 then i else FreeFd(fds, i + 1)
  }

  // Closing a node: a pipe end is marked closed and the last end releases the buffer.
  function CloseNode(pipes: seq<Pipe>, node: Node): (r: seq<Pipe>) {
    match node
    case PipeRead(q) =>
      if q < |pipes| then
        var p := pipes[q].(readOpen := false);
        pipes[q := if p.writeOpen then p else p.(freed := p.freed + 1)]
      else pipes
    case PipeWrite(q) =>
      if q < |pipes| then
        var p := pipes[q].(writeOpen := false);
        pipes[q := if p.readOpen then p else p.(freed := p.freed + 1)]
      else pipes
    case _ => pipes
  }

  // of_drop
  function Drop(st: State, s: int): State {
    if !(0 <= s < |st.files|) || st.files[s].Free? || st.files[s].refs == 0 then st
    else if st.files[s].refs > 1 then st.(files := st.files[s := st.files[s].(refs := st.files[s].refs - 1)])
    else st.(files := st.files[s := Free], pipes := CloseNode(st.pipes, st.files[s].node))
  }

  function SetFd(procs: seq<Process>, p: nat, fd: nat, v: int): seq<Process>
    requires p < |procs| && fd < |procs[p].fds|
  {
    procs[p := procs[p].(fds := procs[p].fds[fd := v])]
  }

  // fd_close on a valid descriptor number
  function Close(st: State, p: nat, fd: nat): State
    requires p < |st.procs| && fd < |st.procs[p].fds|
  {
    var s := st.procs[p].fds[fd];
    if s >= 0 then Drop(st.(procs := SetFd(st.procs, p, fd, -1)), s) else st
  }

  // Points a descriptor at an open file and counts it.
  function Bind(st: State, p: nat, fd: nat, s: int): State
    requires p < |st.procs| && fd < |st.procs[p].fds|
  {
    var st' := st.(procs := SetFd(st.procs, p, fd, s));
    if 0 <= s < |st.files| && st.files[s].Open?
    then st'.(files := st.files[s := st.files[s].(refs := st.files[s].refs + 1)])
    else st'
  }

  datatype Result = Result(st: State, fd: int)

  // fd_alloc: a new open file with one reference, or the node closed and -1.
  function Alloc(st: State, p: nat, node: Node): Result
    requires p < |st.procs| && |st.procs[p].fds| == MAX_FDS
  {
    var s := FreeSlot(st.files, 0);
    var fd := FreeFd(st.procs[p].fds, FIRST_FD);
    if s == |st.files| || fd == MAX_FDS then Result(st.(pipes := CloseNode(st.pipes, node)), -1)
    else Result(st.(files := st.files[s := Open(node, 1)], procs := SetFd(st.procs, p, fd, s)), fd)
  }

  // fd_dup on a valid descriptor number
  function Dup(st: State, p: nat, from: nat): Result
    requires p < |st.procs| && |st.procs[p].fds| == MAX_FDS && from < MAX_FDS
  {
    var s := st.procs[p].fds[from];
    var fd := FreeFd(st.procs[p].fds, FIRST_FD);
    if s < 0 || fd == MAX_FDS then Result(st, -1) else Result(Bind(st, p, fd, s), fd)
  }

  // fd_dup2 on valid descriptor numbers
  function Dup2(st: State, p: nat, from: nat, fd: nat): Result
    requires p < |st.procs| && |st.procs[p].fds| == MAX_FDS && from < MAX_FDS && fd < MAX_FDS
  {
    var s := st.procs[p].fds[from];
    if s < 0 then Result(st, -1)
    else if from == fd then Result(st, fd)
    else Result(Bind(Close(st, p, fd), p, fd, s), fd)
  }

  // process_create: an empty table, with 0, 1 and 2 sharing one terminal file when it is
  // available (a user process, /dev/tty0 opens and an open-file slot is left).
  function Spawn(st: State, p: nat, tty: bool): State
    requires p < |st.procs|
  {
    var s := FreeSlot(st.files, 0);
    if tty && s < |st.files| then
      st.(files := st.files[s := Open(Tty, 3)],
          procs := st.procs[p := Process(true, seq(MAX_FDS, i => if i < FIRST_FD then s else -1))])
    else st.(procs := st.procs[p := Process(true, seq(MAX_FDS, i => -1))])
  }

  // fd_copy_on_fork from descriptor i on
  function CopyFrom(st: State, parent: nat, child: nat, i: nat): State
    requires parent < |st.procs| && child < |st.procs| && parent != child
    requires |st.procs[parent].fds| == MAX_FDS && |st.procs[child].fds| == MAX_FDS && i <= MAX_FDS
    decreases MAX_FDS - i
  {
    if i == MAX_FDS then st
    else CopyFrom(Bind(st, child, i, st.procs[parent].fds[i]), parent, child, i + 1)
  }

  // sys_fork: the child is created with a terminal file of its own, then gets the parent's table.
  function Fork(st: State, parent: nat, child: nat, tty: bool): State
    requires parent < |st.procs| && child < |st.procs| && parent != child
    requires |st.procs[parent].fds| == MAX_FDS
  {
    CopyFrom(Spawn(st, child, tty), parent, child, 0)
  }

  // fd_close_all_for from descriptor i on
  function CloseFrom(st: State, p: nat, i: nat): (r: State)
    requires p < |st.procs| && |st.procs[p].fds| == MAX_FDS && i <= MAX_FDS
    ensures |r.procs| == |st.procs|
    decreases MAX_FDS - i
  {
    if i == MAX_FDS then st else CloseFrom(Close(st, p, i), p, i + 1)
  }

  // process_destroy: close everything, then the slot is zeroed.
  function Teardown(st: State, p: nat): State
    requires p < |st.procs| && |st.procs[p].fds| == MAX_FDS
  {
    var st' := CloseFrom(st, p, 0);
    st'.(procs := st'.procs[p := Zeroed(false)])
  }

  // fd_pipe: fd is -1 unless both descriptors can be had.
  function OpenPipe(st: State, p: nat): Result
    requires p < |st.procs| && |st.procs[p].fds| == MAX_FDS
  {
    var q := |st.pipes|;
    var r := Alloc(st.(pipes := st.pipes + [Pipe(true, true, 0)]), p, PipeRead(q));
    if r.fd < 0 then r else Alloc(r.st, p, PipeWrite(q))
  }

  // ----- invariant -----

  ghost predicate EndAt(files: seq<Slot>, s: int, node: Node) {
    0 <= s < |files| && files[s].Open? && files[s].node == node
  }

  predicate IsPipeEnd(node: Node) { node.PipeRead? || node.PipeWrite? }

  ghost predicate Shaped(st: State) {
    |st.files| == MAX_OPEN_FILES && forall p :: 0 <= p < |st.procs| ==> |st.procs[p].fds| == MAX_FDS
  }

  // A live process's descriptors are closed or name an open file.
  ghost predicate NamesOpen(st: State) {
    forall p, i :: 0 <= p < |st.procs| && st.procs[p].live && 0 <= i < |st.procs[p].fds| ==>
      var s := st.procs[p].fds[i]; s == -1 || (0 <= s < |st.files| && st.files[s].Open?)
  }

  // The count of an open file is the number of descriptors that name it.
  ghost predicate Exact(st: State, s: int) {
    0 <= s < |st.files| && st.files[s].Open? && st.files[s].refs == Holders(st.procs, s)
  }

  // The terminal file a forked child was first given: counted three times, named by nobody.
  ghost predicate Leaked(st: State, s: int) {
    0 <= s < |st.files| && st.files[s] == Open(Tty, 3) && Holders(st.procs, s) == 0
  }

  // Reference counts are exact except for leaked terminal files.
  ghost predicate Counted(st: State) {
    forall s :: 0 <= s < |st.files| && st.files[s].Open? ==> st.files[s].refs >= 1 && (Exact(st, s) || Leaked(st, s))
  }

  // Pipe ends are open files exactly while open; a buffer is released once, with its last end.
  ghost predicate PipesOk(files: seq<Slot>, pipes: seq<Pipe>) {
    && (forall s :: 0 <= s < |files| && files[s].Open? && IsPipeEnd(files[s].node) ==> files[s].node.pipe < |pipes|)
    && (forall s, t, q :: EndAt(files, s, PipeRead(q)) && EndAt(files, t, PipeRead(q)) ==> s == t)
    && (forall s, t, q :: EndAt(files, s, PipeWrite(q)) && EndAt(files, t, PipeWrite(q)) ==> s == t)
    && (forall q :: 0 <= q < |pipes| ==>
          && (pipes[q].readOpen <==> exists s :: EndAt(files, s, PipeRead(q)))
          && (pipes[q].writeOpen <==> exists s :: EndAt(files, s, PipeWrite(q)))
          && pipes[q].freed == if pipes[q].readOpen || pipes[q].writeOpen then 0 else 1)
  }

  ghost predicate Inv(st: State) {
    Shaped(st) && NamesOpen(st) && Counted(st) && PipesOk(st.files, st.pipes)
  }

  // ----- preservation -----

  // Pipe bookkeeping only looks at which nodes are open.
  lemma SameNodes(files: seq<Slot>, files': seq<Slot>, pipes: seq<Pipe>)
    requires PipesOk(files, pipes) && |files'| == |files|
    requires forall s :: 0 <= s < |files| ==> files'[s].Open? == files[s].Open?
    requires forall s :: 0 <= s < |files| && files[s].Open? ==> files'[s].node == files[s].node
    ensures PipesOk(files', pipes)
  {
    forall s, n | EndAt(files, s, n) || EndAt(files', s, n) ensures EndAt(files, s, n) && EndAt(files', s, n) {}
    forall q | 0 <= q < |pipes|
      ensures (exists s :: EndAt(files', s, PipeRead(q))) == (exists s :: EndAt(files, s, PipeRead(q)))
      ensures (exists s :: EndAt(files', s, PipeWrite(q))) == (exists s :: EndAt(files, s, PipeWrite(q)))
    {
      if s :| EndAt(files, s, PipeRead(q)) { assert EndAt(files', s, PipeRead(q)); }
      if s :| EndAt(files, s, PipeWrite(q)) { assert EndAt(files', s, PipeWrite(q)); }
    }
  }

  // Removing an open file closes its node's pipe end.
  lemma RemoveNode(files: seq<Slot>, pipes: seq<Pipe>, s: nat)
    requires PipesOk(files, pipes) && s < |files| && files[s].Open?
    ensures PipesOk(files[s := Free], CloseNode(pipes, files[s].node))
  {
    var files', pipes', node := files[s := Free], CloseNode(pipes, files[s].node), files[s].node;
    assert EndAt(files, s, node);
    forall t, n | EndAt(files', t, n) ensures EndAt(files, t, n) && t != s {}
    forall q | 0 <= q < |pipes'|
      ensures pipes'[q].readOpen <==> exists t :: EndAt(files', t, PipeRead(q))
      ensures pipes'[q].writeOpen <==> exists t :: EndAt(files', t, PipeWrite(q))
    {
      if t :| EndAt(files, t, PipeRead(q)) && t != s { assert EndAt(files', t, PipeRead(q)); }
      if t :| EndAt(files, t, PipeWrite(q)) && t != s { assert EndAt(files', t, PipeWrite(q)); }
    }
  }

  lemma SetFdHolders(procs: seq<Process>, p: nat, fd: nat, v: int, t: int)
    requires p < |procs| && procs[p].live && fd < |procs[p].fds|
    ensures Holders(SetFd(procs, p, fd, v), t) ==
            Holders(procs, t) - (if procs[p].fds[fd] == t then 1 else 0) + (if v == t then 1 else 0)
  {
    hide Holders, CountFds;
    CountFdsUpdate(procs[p].fds, fd, v, t);
    HoldersUpdate(procs, p, procs[p].(fds := procs[p].fds[fd := v]), t);
  }

  lemma CloseKeeps(st: State, p: nat, fd: nat)
    requires Inv(st) && p < |st.procs| && st.procs[p].live && fd < MAX_FDS
    ensures Inv(Close(st, p, fd))
  {
    hide Holders, PipesOk, CloseNode;
    var s := st.procs[p].fds[fd];
    if s >= 0 {
      var st', procs := Close(st, p, fd), SetFd(st.procs, p, fd, -1);
      assert Names(st.procs, p, fd, s);
      NamedIsHeld(st.procs, p, fd, s);
      forall t | 0 <= t < |st.files| ensures Holders(procs, t) == Holders(st.procs, t) - if t == s then 1 else 0 {
        SetFdHolders(st.procs, p, fd, -1, t);
      }
      if st.files[s].refs > 1 {
        SameNodes(st.files, st'.files, st.pipes);
      } else {
        forall q, i | Names(procs, q, i, s) ensures false {
          NamedIsHeld(procs, q, i, s);
        }
        NobodyNames(procs, st.files, s);
        RemoveNode(st.files, st.pipes, s);
      }
    }
  }

  lemma NobodyNames(procs: seq<Process>, files: seq<Slot>, s: nat)
    requires s < |files| && forall q, i :: !Names(procs, q, i, s)
    requires NamesOpen(State(files, procs, []))
    ensures NamesOpen(State(files[s := Free], procs, []))
  {
    forall q, i | 0 <= q < |procs| && procs[q].live && 0 <= i < |procs[q].fds|
      ensures procs[q].fds[i] != s
    {
      assert !Names(procs, q, i, s);
    }
  }

  // A closed descriptor may be pointed at a file that another one names.
  lemma BindKeeps(st: State, p: nat, fd: nat, from: nat)
    requires Inv(st) && p < |st.procs| && st.procs[p].live && fd < MAX_FDS && from < MAX_FDS
    requires st.procs[p].fds[fd] == -1 && st.procs[p].fds[from] >= 0
    ensures Inv(Bind(st, p, fd, st.procs[p].fds[from]))
  {
    hide Holders, PipesOk;
    var s := st.procs[p].fds[from];
    var st' := Bind(st, p, fd, s);
    assert Names(st.procs, p, from, s);
    NamedIsHeld(st.procs, p, from, s);
    forall t | 0 <= t < |st.files|
      ensures Holders(st'.procs, t) == Holders(st.procs, t) + (if s == t then 1 else 0)
    {
      SetFdHolders(st.procs, p, fd, s, t);
    }
    SameNodes(st.files, st'.files, st.pipes);
  }

  lemma AddNode(files: seq<Slot>, pipes: seq<Pipe>, s: nat, node: Node, refs: nat)
    requires PipesOk(files, pipes) && s < |files| && files[s].Free? && !IsPipeEnd(node)
    ensures PipesOk(files[s := Open(node, refs)], pipes)
  {
    var files' := files[s := Open(node, refs)];
    forall t, n | IsPipeEnd(n) && (EndAt(files, t, n) || EndAt(files', t, n)) ensures EndAt(files, t, n) && EndAt(files', t, n) {}
    forall q | 0 <= q < |pipes|
      ensures (exists t :: EndAt(files', t, PipeRead(q))) == (exists t :: EndAt(files, t, PipeRead(q)))
      ensures (exists t :: EndAt(files', t, PipeWrite(q))) == (exists t :: EndAt(files, t, PipeWrite(q)))
    {
      if t :| EndAt(files, t, PipeRead(q)) { assert EndAt(files', t, PipeRead(q)); }
      if t :| EndAt(files, t, PipeWrite(q)) { assert EndAt(files', t, PipeWrite(q)); }
    }
  }

  // Nothing names a free slot.
  lemma FreeIsUnheld(st: State, s: nat)
    requires NamesOpen(st) && s < |st.files| && st.files[s].Free?
    ensures Holders(st.procs, s) == 0
  {
    hide Holders;
    if Holders(st.procs, s) > 0 {
      var p, i := HeldIsNamed(st.procs, s);
    }
  }

  lemma AllocTables(st: State, p: nat, node: Node)
    requires Shaped(st) && NamesOpen(st) && Counted(st) && p < |st.procs| && st.procs[p].live
    ensures var r := Alloc(st, p, node); Shaped(r.st) && NamesOpen(r.st) && Counted(r.st) && r.st.procs[p].live
  {
    hide Holders, CloseNode;
    var r := Alloc(st, p, node);
    if r.fd >= 0 {
      var s := FreeSlot(st.files, 0);
      FreeIsUnheld(st, s);
      forall t | 0 <= t < |st.files|
        ensures Holders(r.st.procs, t) == Holders(st.procs, t) + if t == s then 1 else 0
      {
        SetFdHolders(st.procs, p, r.fd, s, t);
      }
    }
  }

  lemma AllocKeeps(st: State, p: nat, node: Node)
    requires Inv(st) && p < |st.procs| && st.procs[p].live && !IsPipeEnd(node)
    ensures Inv(Alloc(st, p, node).st)
  {
    hide Holders, PipesOk, Counted, NamesOpen;
    AllocTables(st, p, node);
    if Alloc(st, p, node).fd >= 0 {
      AddNode(st.files, st.pipes, FreeSlot(st.files, 0), node, 1);
    }
  }

  lemma DupKeeps(st: State, p: nat, from: nat)
    requires Inv(st) && p < |st.procs| && st.procs[p].live && from < MAX_FDS
    ensures Inv(Dup(st, p, from).st)
  {
    hide Holders, PipesOk, Counted;
    var r := Dup(st, p, from);
    if r.fd >= 0 {
      BindKeeps(st, p, r.fd, from);
    }
  }

  lemma Dup2Keeps(st: State, p: nat, from: nat, fd: nat)
    requires Inv(st) && p < |st.procs| && st.procs[p].live && from < MAX_FDS && fd < MAX_FDS
    ensures Inv(Dup2(st, p, from, fd).st)
  {
    hide Holders, PipesOk, Counted, CloseNode;
    if st.procs[p].fds[from] >= 0 && from != fd {
      CloseKeeps(st, p, fd);
      var st1 := Close(st, p, fd);
      assert st1.procs[p].fds[from] == st.procs[p].fds[from];
      BindKeeps(st1, p, fd, from);
    }
  }

  lemma {:induction false} CountFdsConst(fds: seq<int>, v: int, s: int)
    requires forall i :: 0 <= i < |fds| ==> fds[i] == v
    ensures CountFds(fds, s) == if s == v then |fds| else 0
  {
    if fds != [] { CountFdsConst(fds[1..], v, s); }
  }

  lemma SpawnHeld(s: nat, t: int)
    requires t >= 0
    ensures CountFds(seq(MAX_FDS, i => if i < FIRST_FD then s else -1), t) == if t == s then 3 else 0
  {
    var fds := seq(MAX_FDS, i => if i < FIRST_FD then s else -1);
    var one := if t == s then 1 else 0;
    assert CountFds(fds, t) == one + CountFds(fds[1..], t);
    assert CountFds(fds[1..], t) == one + CountFds(fds[2..], t) by { assert fds[1..][1..] == fds[2..]; }
    assert CountFds(fds[2..], t) == one + CountFds(fds[3..], t) by { assert fds[2..][1..] == fds[3..]; }
    CountFdsConst(fds[3..], -1, t);
  }

  lemma SpawnKeeps(st: State, p: nat, tty: bool)
    requires Inv(st) && p < |st.procs| && !st.procs[p].live
    ensures Inv(Spawn(st, p, tty))
  {
    hide Holders, PipesOk, CountFds;
    var st', s := Spawn(st, p, tty), FreeSlot(st.files, 0);
    var bound := tty && s < |st.files|;
    forall t | 0 <= t < |st.files|
      ensures Holders(st'.procs, t) == Holders(st.procs, t) + if bound && t == s then 3 else 0
    {
      HoldersUpdate(st.procs, p, st'.procs[p], t);
      if bound { SpawnHeld(s, t); } else { CountFdsConst(st'.procs[p].fds, -1, t); }
    }
    if bound {
      FreeIsUnheld(st, s);
      AddNode(st.files, st.pipes, s, Tty, 3);
    }
  }

  // Every open file gains as many references as `fds` names it.
  ghost predicate Gained(files: seq<Slot>, files': seq<Slot>, fds: seq<int>) {
    && |files'| == |files|
    && forall s :: 0 <= s < |files| ==>
         files'[s] == if files[s].Open? then Open(files[s].node, files[s].refs + CountFds(fds, s)) else Free
  }

  lemma GainedNothing(files: seq<Slot>, fds: seq<int>)
    requires fds == []
    ensures Gained(files, files, fds)
  {}

  lemma GainedNext(files: seq<Slot>, fds: seq<int>, i: nat, files': seq<Slot>)
    requires i < |fds|
    requires var s := fds[i];
             Gained(if 0 <= s < |files| && files[s].Open? then files[s := Open(files[s].node, files[s].refs + 1)] else files,
                    files', fds[i + 1..])
    ensures Gained(files, files', fds[i..])
  {
    assert fds[i..][1..] == fds[i + 1..];
  }

  lemma BindIs(st: State, p: nat, fd: nat, s: int)
    requires Shaped(st) && p < |st.procs| && fd < MAX_FDS
    ensures var r := Bind(st, p, fd, s);
            && Shaped(r) && r.pipes == st.pipes
            && r.procs == st.procs[p := st.procs[p].(fds := st.procs[p].fds[fd := s])]
            && r.files == (if 0 <= s < |st.files| && st.files[s].Open?
                           then st.files[s := Open(st.files[s].node, st.files[s].refs + 1)] else st.files)
  {}

  lemma TableNext(mine: seq<int>, fds: seq<int>, i: nat)
    requires i < |fds| == |mine|
    ensures mine[i := fds[i]][..i + 1] + fds[i + 1..] == mine[..i] + fds[i..]
  {}

  lemma {:induction false} CopyFromIs(st: State, parent: nat, child: nat, i: nat)
    requires Shaped(st) && parent < |st.procs| && child < |st.procs| && parent != child && i <= MAX_FDS
    ensures var r, fds := CopyFrom(st, parent, child, i), st.procs[parent].fds;
            && r.pipes == st.pipes && Gained(st.files, r.files, fds[i..])
            && r.procs == st.procs[child := st.procs[child].(fds := st.procs[child].fds[..i] + fds[i..])]
    decreases MAX_FDS - i
  {
    hide Bind, Gained;
    var fds := st.procs[parent].fds;
    if i == MAX_FDS {
      GainedNothing(st.files, fds[i..]);
      assert st.procs[child].fds[..i] + fds[i..] == st.procs[child].fds;
    } else {
      var st1 := Bind(st, child, i, fds[i]);
      BindIs(st, child, i, fds[i]);
      CopyFromIs(st1, parent, child, i + 1);
      TableNext(st.procs[child].fds, fds, i);
      GainedNext(st.files, fds, i, CopyFrom(st, parent, child, i).files);
    }
  }

  // A fork in one step: the child has the parent's table, whose files gain a reference per
  // descriptor, and the file it was first given keeps its three references.
  lemma ForkIs(st: State, parent: nat, child: nat, tty: bool)
    requires Shaped(st) && parent < |st.procs| && child < |st.procs| && parent != child
    ensures var r, s := Fork(st, parent, child, tty), FreeSlot(st.files, 0);
            && r.pipes == st.pipes
            && r.procs == st.procs[child := Process(true, st.procs[parent].fds)]
            && Gained(if tty && s < |st.files| then st.files[s := Open(Tty, 3)] else st.files, r.files, st.procs[parent].fds)
  {
    var st1, fds := Spawn(st, child, tty), st.procs[parent].fds;
    SpawnIs(st, child, tty);
    hide *;
    CopyFromIs(st1, parent, child, 0);
    WholeTable(st1.procs[child].fds, fds);
    ReplaceTwice(st.procs, child, st1.procs[child], Process(true, fds));
  }

  lemma WholeTable(mine: seq<int>, fds: seq<int>)
    ensures mine[..0] + fds[0..] == fds && fds[0..] == fds
  {}

  lemma ReplaceTwice(procs: seq<Process>, p: nat, a: Process, b: Process)
    requires p < |procs|
    ensures procs[p := a][p := b] == procs[p := b]
  {}

  lemma SpawnIs(st: State, p: nat, tty: bool)
    requires Shaped(st) && p < |st.procs|
    ensures var r, s := Spawn(st, p, tty), FreeSlot(st.files, 0);
            && Shaped(r) && r.pipes == st.pipes
            && r.files == (if tty && s < |st.files| then st.files[s := Open(Tty, 3)] else st.files)
            && r.procs[p].live && r.procs == st.procs[p := r.procs[p]]
  {}

  lemma ForkHolders(st: State, parent: nat, child: nat, tty: bool, t: int)
    requires Shaped(st) && parent < |st.procs| && child < |st.procs| && parent != child && !st.procs[child].live
    ensures Holders(Fork(st, parent, child, tty).procs, t) == Holders(st.procs, t) + CountFds(st.procs[parent].fds, t)
  {
    hide Holders, Fork, CountFds;
    ForkIs(st, parent, child, tty);
    HoldersUpdate(st.procs, child, Process(true, st.procs[parent].fds), t);
  }

  // No descriptor of a live process names a free slot.
  lemma FreeIsUnnamed(st: State, p: nat, s: nat)
    requires Shaped(st) && NamesOpen(st) && p < |st.procs| && st.procs[p].live && s < |st.files| && st.files[s].Free?
    ensures CountFds(st.procs[p].fds, s) == 0
  {
    CountFdsPositive(st.procs[p].fds, s);
  }

  lemma ForkKeeps(st: State, parent: nat, child: nat, tty: bool)
    requires Inv(st) && parent < |st.procs| && child < |st.procs|
    requires st.procs[parent].live && !st.procs[child].live
    ensures Inv(Fork(st, parent, child, tty))
  {
    hide Holders, PipesOk, Fork, CountFds;
    var r, s := Fork(st, parent, child, tty), FreeSlot(st.files, 0);
    ForkIs(st, parent, child, tty);
    forall t | 0 <= t < |st.files|
      ensures Holders(r.procs, t) == Holders(st.procs, t) + CountFds(st.procs[parent].fds, t)
    {
      ForkHolders(st, parent, child, tty, t);
    }
    forall t | 0 <= t < |st.files| && Leaked(st, t) ensures CountFds(st.procs[parent].fds, t) == 0 {
      LeakedUnnamed(st, parent, t);
    }
    var given := if tty && s < |st.files| then st.files[s := Open(Tty, 3)] else st.files;
    if tty && s < |st.files| {
      AddNode(st.files, st.pipes, s, Tty, 3);
      FreeIsUnheld(st, s);
      FreeIsUnnamed(st, parent, s);
    }
    SameNodes(given, r.files, st.pipes);
  }

  lemma LeakedUnnamed(st: State, p: nat, s: int)
    requires Leaked(st, s) && p < |st.procs| && st.procs[p].live
    ensures CountFds(st.procs[p].fds, s) == 0
  {
    hide Holders;
    CountFdsPositive(st.procs[p].fds, s);
    if CountFds(st.procs[p].fds, s) > 0 {
      var i :| 0 <= i < |st.procs[p].fds| && st.procs[p].fds[i] == s;
      assert Names(st.procs, p, i, s);
      NamedIsHeld(st.procs, p, i, s);
    }
  }

  // After every fork that could open the terminal, the slot opened for the child is leaked.
  lemma ForkLeaksTerminal(st: State, parent: nat, child: nat)
    requires Inv(st) && parent < |st.procs| && child < |st.procs|
    requires st.procs[parent].live && !st.procs[child].live
    requires FreeSlot(st.files, 0) < |st.files|
    ensures Leaked(Fork(st, parent, child, true), FreeSlot(st.files, 0))
  {
    hide Holders, PipesOk, Counted, Fork, CountFds;
    var s := FreeSlot(st.files, 0);
    ForkIs(st, parent, child, true);
    ForkHolders(st, parent, child, true, s);
    FreeIsUnheld(st, s);
    FreeIsUnnamed(st, parent, s);
  }

  ghost predicate AllExact(st: State) {
    forall s :: 0 <= s < |st.files| && st.files[s].Open? ==> Exact(st, s)
  }

  // A fork keeps exact counts exact precisely when it cannot open the terminal for the child.
  lemma ForkExactIff(st: State, parent: nat, child: nat, tty: bool)
    requires Inv(st) && AllExact(st) && parent < |st.procs| && child < |st.procs|
    requires st.procs[parent].live && !st.procs[child].live
    ensures AllExact(Fork(st, parent, child, tty)) <==> !(tty && FreeSlot(st.files, 0) < |st.files|)
  {
    hide Holders, PipesOk, Fork, CountFds;
    var r, s := Fork(st, parent, child, tty), FreeSlot(st.files, 0);
    ForkIs(st, parent, child, tty);
    forall t | 0 <= t < |st.files|
      ensures Holders(r.procs, t) == Holders(st.procs, t) + CountFds(st.procs[parent].fds, t)
    {
      ForkHolders(st, parent, child, tty, t);
    }
    if tty && s < |st.files| {
      FreeIsUnheld(st, s);
      FreeIsUnnamed(st, parent, s);
      assert !Exact(r, s);
    } else {
      forall t | 0 <= t < |r.files| && r.files[t].Open? ensures Exact(r, t) {
        assert Exact(st, t);
      }
    }
  }

  lemma {:induction false} CloseFromKeeps(st: State, p: nat, i: nat)
    requires Inv(st) && p < |st.procs| && st.procs[p].live && i <= MAX_FDS
    requires forall j :: 0 <= j < i ==> st.procs[p].fds[j] == -1
    ensures var r := CloseFrom(st, p, i);
            Inv(r) && r.procs[p].live && forall j :: 0 <= j < MAX_FDS ==> r.procs[p].fds[j] == -1
    decreases MAX_FDS - i
  {
    hide Holders, PipesOk, Counted, CloseNode;
    if i < MAX_FDS {
      CloseKeeps(st, p, i);
      CloseFromKeeps(Close(st, p, i), p, i + 1);
    }
  }

  lemma TeardownKeeps(st: State, p: nat)
    requires Inv(st) && p < |st.procs| && st.procs[p].live
    ensures Inv(Teardown(st, p))
  {
    hide Holders, PipesOk, CloseFrom, CountFds;
    CloseFromKeeps(st, p, 0);
    var st1, st' := CloseFrom(st, p, 0), Teardown(st, p);
    forall t | 0 <= t < |st1.files| ensures Holders(st'.procs, t) == Holders(st1.procs, t) {
      HoldersUpdate(st1.procs, p, st'.procs[p], t);
      CountFdsConst(st1.procs[p].fds, -1, t);
    }
  }

  lemma AddPipe(files: seq<Slot>, pipes: seq<Pipe>, r: nat, w: nat)
    requires PipesOk(files, pipes) && r < |files| && w < |files| && r != w && files[r].Free? && files[w].Free?
    ensures var q := |pipes|;
            PipesOk(files[r := Open(PipeRead(q), 1)][w := Open(PipeWrite(q), 1)], pipes + [Pipe(true, true, 0)])
  {
    var q := |pipes|;
    var files', pipes' := files[r := Open(PipeRead(q), 1)][w := Open(PipeWrite(q), 1)], pipes + [Pipe(true, true, 0)];
    assert EndAt(files', r, PipeRead(q)) && EndAt(files', w, PipeWrite(q));
    forall t, n | IsPipeEnd(n) && n.pipe < q ensures EndAt(files, t, n) == EndAt(files', t, n) {}
    forall t, n | IsPipeEnd(n) && n.pipe >= q && EndAt(files', t, n)
      ensures (n == PipeRead(q) && t == r) || (n == PipeWrite(q) && t == w)
    {
      assert t == r || t == w || EndAt(files, t, n);
    }
    forall k | 0 <= k < q
      ensures (exists t :: EndAt(files', t, PipeRead(k))) == (exists t :: EndAt(files, t, PipeRead(k)))
      ensures (exists t :: EndAt(files', t, PipeWrite(k))) == (exists t :: EndAt(files, t, PipeWrite(k)))
    {
      if t :| EndAt(files, t, PipeRead(k)) { assert EndAt(files', t, PipeRead(k)); }
      if t :| EndAt(files, t, PipeWrite(k)) { assert EndAt(files', t, PipeWrite(k)); }
    }
  }

  lemma OpenPipeKeeps(st: State, p: nat)
    requires Inv(st) && p < |st.procs| && st.procs[p].live && OpenPipe(st, p).fd >= 0
    ensures Inv(OpenPipe(st, p).st)
  {
    hide Holders, PipesOk, Counted, NamesOpen;
    var q := |st.pipes|;
    var st1 := st.(pipes := st.pipes + [Pipe(true, true, 0)]);
    assert Counted(st1) && NamesOpen(st1) by { SameTables(st, st1); }
    AllocTables(st1, p, PipeRead(q));
    var st2 := Alloc(st1, p, PipeRead(q)).st;
    AllocTables(st2, p, PipeWrite(q));
    AddPipe(st.files, st.pipes, FreeSlot(st.files, 0), FreeSlot(st2.files, 0));
  }

  lemma SameTables(st: State, st': State)
    requires NamesOpen(st) && Counted(st) && st'.files == st.files && st'.procs == st.procs
    ensures NamesOpen(st') && Counted(st')
  {}

  // ----- whole runs -----

  datatype Op =
    | OpAlloc(p: nat, node: Node)
    | OpClose(p: nat, fd: nat)
    | OpDup(p: nat, from: nat)
    | OpDup2(p: nat, from: nat, to: nat)
    | OpPipe(p: nat)
    | OpSpawn(p: nat, tty: bool)
    | OpFork(p: nat, child: nat, tty: bool)
    | OpTeardown(p: nat)

  // The caller is live, descriptor numbers are in range (others are refused without effect),
  // a new process gets an unused slot, and fd_pipe is only run where it succeeds. The kernel
  // process in slot 0 makes no system calls and is never destroyed.
  ghost predicate Enabled(st: State, op: Op)
    requires Shaped(st)
  {
    && 0 < op.p < |st.procs|
    && (op.OpSpawn? <==> !st.procs[op.p].live)
    && match op
       case OpAlloc(_, node) => !IsPipeEnd(node)
       case OpClose(_, fd) => fd < MAX_FDS
       case OpDup(_, from) => from < MAX_FDS
       case OpDup2(_, from, to) => from < MAX_FDS && to < MAX_FDS
       case OpPipe(p) => OpenPipe(st, p).fd >= 0
       case OpFork(_, child, _) => 0 < child < |st.procs| && !st.procs[child].live
       case _ => true
  }

  ghost function Step(st: State, op: Op): State
    requires Shaped(st) && Enabled(st, op)
  {
    match op
    case OpAlloc(p, node) => Alloc(st, p, node).st
    case OpClose(p, fd) => Close(st, p, fd)
    case OpDup(p, from) => Dup(st, p, from).st
    case OpDup2(p, from, to) => Dup2(st, p, from, to).st
    case OpPipe(p) => OpenPipe(st, p).st
    case OpSpawn(p, tty) => Spawn(st, p, tty)
    case OpFork(p, child, tty) => Fork(st, p, child, tty)
    case OpTeardown(p) => Teardown(st, p)
  }

  lemma StepKeeps(st: State, op: Op)
    requires Inv(st) && Enabled(st, op)
    ensures Inv(Step(st, op))
  {
    hide PipesOk, Counted, NamesOpen, Alloc, Close, Dup, Dup2, OpenPipe, Spawn, Fork, Teardown;
    match op
    case OpAlloc(p, node) => AllocKeeps(st, p, node);
    case OpClose(p, fd) => CloseKeeps(st, p, fd);
    case OpDup(p, from) => DupKeeps(st, p, from);
    case OpDup2(p, from, to) => Dup2Keeps(st, p, from, to);
    case OpPipe(p) => OpenPipeKeeps(st, p);
    case OpSpawn(p, tty) => SpawnKeeps(st, p, tty);
    case OpFork(p, child, tty) => ForkKeeps(st, p, child, tty);
    case OpTeardown(p) => TeardownKeeps(st, p);
  }

  // ----- the kernel process -----

  // A process slot as zeroing it leaves it: sixteen descriptors that name open file 0.
  function Zeroed(live: bool): (r: Process)
    ensures r.live == live && |r.fds| == MAX_FDS && forall i :: 0 <= i < MAX_FDS ==> r.fds[i] == 0
  {
    Process(live, seq(MAX_FDS, i => 0))
  }

  // After fd_init and process_init: nothing is open, and the kernel process is live but its
  // descriptors were never closed.
  function Boot(n: nat): State
    requires n > 0
  {
    State(seq(MAX_OPEN_FILES, i => Free), seq(n, p => Zeroed(p == 0)), [])
  }

  // The state as it would be without the kernel process.
  function Users(st: State): State
    requires st.procs != []
  {
    st.(procs := st.procs[0 := Zeroed(false)])
  }

  ghost predicate SysInv(st: State) { st.procs != [] && st.procs[0] == Zeroed(true) && Inv(Users(st)) }

  lemma BootInv(n: nat)
    requires n > 0
    ensures SysInv(Boot(n))
  {
    hide Holders;
    assert forall p :: 0 <= p < n ==> !Users(Boot(n)).procs[p].live;
  }

  // The kernel's zeros count towards open file 0 and no other.
  lemma KernelHolds(st: State, s: int)
    requires st.procs != [] && st.procs[0] == Zeroed(true)
    ensures Holders(st.procs, s) == Holders(Users(st).procs, s) + if s == 0 then MAX_FDS else 0
  {
    hide Holders;
    HoldersUpdate(st.procs, 0, Zeroed(false), s);
    CountFdsConst(st.procs[0].fds, 0, s);
  }

  // From boot on the counts do not cover the kernel's descriptors: they name a free slot, and
  // once the first process has opened the terminal, nineteen descriptors share three references.
  lemma BootUncounted(n: nat)
    requires n > 1
    ensures !Inv(Boot(n))
    ensures var st := Spawn(Boot(n), 1, true);
            st.files[0] == Open(Tty, 3) && Holders(st.procs, 0) == MAX_FDS + 3
  {
    hide Holders, PipesOk, CountFds;
    var boot := Boot(n);
    assert boot.procs[0] == Zeroed(true);
    assert boot.procs[0].live && boot.procs[0].fds[0] == 0 && boot.files[0].Free?;
    assert !NamesOpen(boot);
    var st := Spawn(boot, 1, true);
    BootInv(n);
    FreeIsUnheld(Users(boot), 0);
    KernelHolds(boot, 0);
    HoldersUpdate(boot.procs, 1, st.procs[1], 0);
    SpawnHeld(0, 0);
  }

  lemma {:induction false} CloseFromUsers(st: State, p: nat, i: nat)
    requires Shaped(st) && 0 < p < |st.procs| && i <= MAX_FDS
    ensures var r := CloseFrom(st, p, i);
            |r.procs| == |st.procs| && r.procs[0] == st.procs[0] && Shaped(r) && Users(r) == CloseFrom(Users(st), p, i)
    decreases MAX_FDS - i
  {
    hide CloseNode;
    if i < MAX_FDS {
      assert Users(Close(st, p, i)) == Close(Users(st), p, i);
      CloseFromUsers(Close(st, p, i), p, i + 1);
    }
  }

  lemma ForkUsers(st: State, parent: nat, child: nat, tty: bool)
    requires Shaped(st) && 0 < parent < |st.procs| && 0 < child < |st.procs| && parent != child
    ensures var r := Fork(st, parent, child, tty);
            |r.procs| == |st.procs| && r.procs[0] == st.procs[0] && Users(r) == Fork(Users(st), parent, child, tty)
  {
    hide Fork;
    ForkIs(st, parent, child, tty);
    ForkIs(Users(st), parent, child, tty);
    assert Users(Fork(st, parent, child, tty)).files == Fork(Users(st), parent, child, tty).files;
  }

  // r is what the operation that gave r' without the kernel process gives with it.
  ghost predicate SameForUsers(st: State, r: State, r': State) {
    st.procs != [] && |r.procs| == |st.procs| && r.procs[0] == st.procs[0] && Users(r) == r'
  }

  lemma AllocUsers(st: State, p: nat, node: Node)
    requires Shaped(st) && 0 < p < |st.procs|
    ensures SameForUsers(st, Alloc(st, p, node).st, Alloc(Users(st), p, node).st)
    ensures Alloc(st, p, node).fd == Alloc(Users(st), p, node).fd
    ensures Shaped(Alloc(st, p, node).st)
  {
    hide CloseNode;
    var r, r' := Alloc(st, p, node).st, Alloc(Users(st), p, node).st;
    assert Users(r).procs == r'.procs;
  }

  lemma BindUsers(st: State, p: nat, fd: nat, s: int)
    requires Shaped(st) && 0 < p < |st.procs| && fd < MAX_FDS
    ensures SameForUsers(st, Bind(st, p, fd, s), Bind(Users(st), p, fd, s))
  {
    assert Users(Bind(st, p, fd, s)).procs == Bind(Users(st), p, fd, s).procs;
  }

  lemma CloseUsers(st: State, p: nat, fd: nat)
    requires Shaped(st) && 0 < p < |st.procs| && fd < MAX_FDS
    ensures SameForUsers(st, Close(st, p, fd), Close(Users(st), p, fd)) && Shaped(Close(st, p, fd))
    ensures forall i :: 0 <= i < MAX_FDS && i != fd ==> Close(st, p, fd).procs[p].fds[i] == st.procs[p].fds[i]
  {
    hide CloseNode;
    assert Users(Close(st, p, fd)).procs == Close(Users(st), p, fd).procs;
  }

  lemma SpawnUsers(st: State, p: nat, tty: bool)
    requires Shaped(st) && 0 < p < |st.procs|
    ensures SameForUsers(st, Spawn(st, p, tty), Spawn(Users(st), p, tty))
  {
    assert Users(Spawn(st, p, tty)).procs == Spawn(Users(st), p, tty).procs;
  }

  lemma PipeUsers(st: State, p: nat)
    requires Shaped(st) && 0 < p < |st.procs|
    ensures SameForUsers(st, OpenPipe(st, p).st, OpenPipe(Users(st), p).st)
    ensures OpenPipe(st, p).fd == OpenPipe(Users(st), p).fd
  {
    hide Alloc;
    var q := |st.pipes|;
    var st1 := st.(pipes := st.pipes + [Pipe(true, true, 0)]);
    AllocUsers(st1, p, PipeRead(q));
    AllocUsers(Alloc(st1, p, PipeRead(q)).st, p, PipeWrite(q));
  }

  lemma TeardownUsers(st: State, p: nat)
    requires Shaped(st) && 0 < p < |st.procs|
    ensures SameForUsers(st, Teardown(st, p), Teardown(Users(st), p))
  {
    hide CloseFrom;
    CloseFromUsers(st, p, 0);
    assert Users(Teardown(st, p)).procs == Teardown(Users(st), p).procs;
  }

  // What user processes do does not depend on the kernel process and leaves it alone.
  lemma StepUsers(st: State, op: Op)
    requires Shaped(st) && Enabled(st, op)
    ensures Enabled(Users(st), op) && SameForUsers(st, Step(st, op), Step(Users(st), op))
  {
    hide Alloc, Bind, Close, Spawn, OpenPipe, Fork, Teardown;
    match op
    case OpAlloc(p, node) => AllocUsers(st, p, node);
    case OpClose(p, fd) => CloseUsers(st, p, fd);
    case OpDup(p, from) => BindUsers(st, p, FreeFd(st.procs[p].fds, FIRST_FD) % MAX_FDS, st.procs[p].fds[from]);
    case OpDup2(p, from, to) =>
      CloseUsers(st, p, to);
      BindUsers(Close(st, p, to), p, to, st.procs[p].fds[from]);
    case OpPipe(p) => PipeUsers(st, p);
    case OpSpawn(p, tty) => SpawnUsers(st, p, tty);
    case OpFork(p, child, tty) => ForkUsers(st, p, child, tty);
    case OpTeardown(p) => TeardownUsers(st, p);
  }

  // States reached by some run: boot, then each further state by an enabled step.
  ghost predicate IsRun(states: seq<State>, ops: seq<Op>) {
    && |states| == |ops| + 1 && (exists n: nat :: n > 0 && states[0] == Boot(n))
    && forall i :: 0 <= i < |ops| ==> Shaped(states[i]) && Enabled(states[i], ops[i]) && states[i + 1] == Step(states[i], ops[i])
  }

  lemma {:induction false} RunKeeps(states: seq<State>, ops: seq<Op>, i: nat)
    requires IsRun(states, ops) && i < |states|
    ensures SysInv(states[i])
  {
    hide Inv, Step, Enabled;
    if i == 0 {
      var n: nat :| n > 0 && states[0] == Boot(n);
      BootInv(n);
    } else {
      RunKeeps(states, ops, i - 1);
      StepUsers(states[i - 1], ops[i - 1]);
      StepKeeps(Users(states[i - 1]), ops[i - 1]);
    }
  }

  // In every run the counts cover the descriptors of all user processes, exactly so but for
  // leaked terminals; counting the kernel's as well, they fall short for open file 0 alone.
  lemma CountsInEveryRun(states: seq<State>, ops: seq<Op>, i: nat, s: nat)
    requires IsRun(states, ops) && i < |states| && s < |states[i].files| && states[i].files[s].Open?
    ensures var st := states[i];
            && st.procs != [] && (Exact(Users(st), s) || Leaked(Users(st), s))
            && st.files[s].refs >= Holders(Users(st).procs, s)
            && (st.files[s].refs >= Holders(st.procs, s) <==> s != 0)
  {
    hide Holders, PipesOk;
    RunKeeps(states, ops, i);
    KernelHolds(states[i], s);
  }

  // A process that has not been destroyed, a zombie included, holds a descriptor on this end.
  ghost predicate HoldsEnd(st: State, node: Node) {
    exists p, i, s :: Names(st.procs, p, i, s) && EndAt(st.files, s, node)
  }

  lemma EndHeld(st: State, node: Node)
    requires Inv(st) && IsPipeEnd(node)
    ensures HoldsEnd(st, node) <==> exists s :: EndAt(st.files, s, node)
  {
    hide Holders, PipesOk;
    if s :| EndAt(st.files, s, node) {
      assert Exact(st, s);
      var p, i := HeldIsNamed(st.procs, s);
      assert Names(st.procs, p, i, s) && EndAt(st.files, s, node);
    }
  }

  // The kernel's zeros add no holder: an end they name is open and so has a user.
  lemma EndHeldByUser(st: State, node: Node)
    requires SysInv(st) && IsPipeEnd(node)
    ensures HoldsEnd(st, node) <==> HoldsEnd(Users(st), node)
  {
    hide Holders, PipesOk, Counted, NamesOpen;
    EndHeld(Users(st), node);
    if HoldsEnd(st, node) {
      var p, i, s :| Names(st.procs, p, i, s) && EndAt(st.files, s, node);
      assert EndAt(Users(st).files, s, node);
    }
    if HoldsEnd(Users(st), node) {
      var p, i, s :| Names(Users(st).procs, p, i, s) && EndAt(st.files, s, node);
      assert Names(st.procs, p, i, s);
    }
  }

  // In every state of every run a pipe's write end is open, so that readers of the empty pipe
  // block instead of seeing end of file, exactly while some process holds a descriptor for it;
  // likewise for the read end; and the buffer is released once, when neither is held.
  lemma PipeEndsInEveryRun(states: seq<State>, ops: seq<Op>, i: nat, q: nat)
    requires IsRun(states, ops) && i < |states| && q < |states[i].pipes|
    ensures var st := states[i]; var p := st.pipes[q];
            && (p.writeOpen <==> HoldsEnd(st, PipeWrite(q)))
            && (p.readOpen <==> HoldsEnd(st, PipeRead(q)))
            && p.freed == if HoldsEnd(st, PipeRead(q)) || HoldsEnd(st, PipeWrite(q)) then 0 else 1
  {
    hide HoldsEnd, Counted, NamesOpen;
    RunKeeps(states, ops, i);
    var st := states[i];
    EndHeldByUser(st, PipeWrite(q));
    EndHeldByUser(st, PipeRead(q));
    EndHeld(Users(st), PipeWrite(q));
    EndHeld(Users(st), PipeRead(q));
  }

  // ----- what a call changes -----

  // Of all descriptors of all processes, only this one may differ.
  ghost predicate OnlyFd(procs: seq<Process>, procs': seq<Process>, p: nat, fd: int) {
    && |procs'| == |procs| && p < |procs|
    && (forall r :: 0 <= r < |procs| && r != p ==> procs'[r] == procs[r])
    && procs'[p].live == procs[p].live && |procs'[p].fds| == |procs[p].fds|
    && forall i :: 0 <= i < |procs[p].fds| && i != fd ==> procs'[p].fds[i] == procs[p].fds[i]
  }

  // Of all open files, only this one may differ.
  ghost predicate OnlyFile(files: seq<Slot>, files': seq<Slot>, s: int) {
    |files'| == |files| && forall t :: 0 <= t < |files| && t != s ==> files'[t] == files[t]
  }

  // fd is the lowest descriptor from 3 on that is closed.
  ghost predicate LowestClosed(fds: seq<int>, fd: int) {
    3 <= fd < |fds| && fds[fd] < 0 && forall i :: 3 <= i < fd ==> fds[i] >= 0
  }

  // Slot s was the lowest free one and now holds the node, with one reference.
  ghost predicate Opened(files: seq<Slot>, files': seq<Slot>, s: int, node: Node) {
    && OnlyFile(files, files', s) && 0 <= s < |files| && files[s].Free? && files'[s] == Open(node, 1)
    && forall t :: 0 <= t < s ==> files[t].Open?
  }

  lemma AllocOpens(st: State, p: nat, node: Node)
    requires Shaped(st) && p < |st.procs|
    ensures var r := Alloc(st, p, node);
            if r.fd >= 0 then
              && LowestClosed(st.procs[p].fds, r.fd) && OnlyFd(st.procs, r.st.procs, p, r.fd) && r.st.pipes == st.pipes
              && Opened(st.files, r.st.files, r.st.procs[p].fds[r.fd], node)
            else
              && r.fd == -1 && r.st.files == st.files && r.st.procs == st.procs
              && ((forall s :: 0 <= s < |st.files| ==> st.files[s].Open?)
                  || forall i :: 3 <= i < 16 ==> st.procs[p].fds[i] >= 0)
  {}

  // Opening fails exactly when all 256 open files are in use or all descriptors from 3 to 15 are.
  lemma AllocFailsIff(st: State, p: nat, node: Node)
    requires Shaped(st) && p < |st.procs|
    ensures Alloc(st, p, node).fd < 0 <==>
            || (forall s :: 0 <= s < 256 ==> st.files[s].Open?)
            || (forall i :: 3 <= i < 16 ==> st.procs[p].fds[i] >= 0)
  {}

  // A pipe can be had exactly when two open files and two descriptors are free.
  lemma PipeSucceedsIff(st: State, p: nat)
    requires Shaped(st) && p < |st.procs|
    ensures OpenPipe(st, p).fd >= 0 <==>
            && (exists a, b :: 0 <= a < b < 256 && st.files[a].Free? && st.files[b].Free?)
            && (exists i, j :: 3 <= i < j < 16 && st.procs[p].fds[i] < 0 && st.procs[p].fds[j] < 0)
  {
    hide FreeSlot, FreeFd;
    var files, fds, node := st.files, st.procs[p].fds, PipeRead(|st.pipes|);
    var s, fd := FreeSlot(files, 0), FreeFd(fds, 3);
    var r := Alloc(st.(pipes := st.pipes + [Pipe(true, true, 0)]), p, node);
    if r.fd >= 0 {
      AllocFailsIff(r.st, p, PipeWrite(|st.pipes|));
      var files', fds' := r.st.files, r.st.procs[p].fds;
      assert files' == files[s := Open(node, 1)] && fds' == fds[fd := s];
      assert forall b :: 0 <= b < 256 && files'[b].Free? ==> s < b && files[b].Free?;
      assert forall j :: 3 <= j < 16 && fds'[j] < 0 ==> fd < j && fds[j] < 0;
      assert forall a, b :: 0 <= a < b < 256 && files[a].Free? && files[b].Free? ==> files'[b].Free?;
      assert forall i, j :: 3 <= i < j < 16 && fds[i] < 0 && fds[j] < 0 ==> fds'[j] < 0;
    }
  }

  // The descriptors a pipe call returns name the two ends of a new pipe.
  lemma PipeOpens(st: State, p: nat)
    requires Shaped(st) && p < |st.procs| && OpenPipe(st, p).fd >= 0
    ensures var q, r := |st.pipes|, OpenPipe(st, p);
            var a := FreeFd(st.procs[p].fds, FIRST_FD);
            && LowestClosed(st.procs[p].fds, a) && a < r.fd < MAX_FDS && st.procs[p].fds[r.fd] < 0
            && (forall i :: 3 <= i < r.fd && i != a ==> st.procs[p].fds[i] >= 0)
            && r.st.pipes == st.pipes + [Pipe(true, true, 0)]
            && EndAt(r.st.files, r.st.procs[p].fds[a], PipeRead(q)) && EndAt(r.st.files, r.st.procs[p].fds[r.fd], PipeWrite(q))
            && (forall o :: 0 <= o < |st.procs| && o != p ==> r.st.procs[o] == st.procs[o])
            && (forall i :: 0 <= i < MAX_FDS && i != a && i != r.fd ==> r.st.procs[p].fds[i] == st.procs[p].fds[i])
            && (forall s :: 0 <= s < |st.files| && st.files[s].Open? ==> r.st.files[s] == st.files[s])
  {
    var q := |st.pipes|;
    var st1 := st.(pipes := st.pipes + [Pipe(true, true, 0)]);
    AllocOpens(st1, p, PipeRead(q));
    AllocOpens(Alloc(st1, p, PipeRead(q)).st, p, PipeWrite(q));
  }

  // ----- the tables in memory -----

  class FdTables {
    const openFiles: array<Slot>
    const procs: array<Process>
    var pipes: seq<Pipe>

    // fd_init, with the process table as process_init leaves it
    constructor (processes: nat)
      requires processes > 0
      ensures Valid() && fresh(openFiles) && fresh(procs) && procs.Length == processes
      ensures View() == Boot(processes)
    {
      openFiles := new Slot[MAX_OPEN_FILES](_ => Free);
      procs := new Process[processes](p => Zeroed(p == 0));
      pipes := [];
      new;
      assert forall p :: 0 <= p < processes ==> procs[p] == Zeroed(p == 0);
      assert procs[..] == Boot(processes).procs;
    }

    ghost predicate Valid()
      reads this, procs
    {
      && openFiles.Length == MAX_OPEN_FILES
      && forall p :: 0 <= p < procs.Length ==> |procs[p].fds| == MAX_FDS
    }

    ghost function View(): State
      reads this, openFiles, procs
    {
      State(openFiles[..], procs[..], pipes)
    }

    // Returns -1 when the table is full.
    method OfAlloc(node: Node) returns (idx: int)
      requires Valid()
      modifies openFiles
      ensures Valid()
      ensures var s := FreeSlot(old(View()).files, 0);
              if s < MAX_OPEN_FILES then idx == s && View() == old(View()).(files := old(View()).files[s := Open(node, 1)])
              else idx == -1 && View() == old(View())
    {
      for i := 0 to MAX_OPEN_FILES
        invariant FreeSlot(openFiles[..], 0) == FreeSlot(openFiles[..], i)
        invariant View() == old(View())
      {
        if openFiles[i].Free? {
          openFiles[i] := Open(node, 1);
          return i;
        }
      }
      idx := -1;
    }

    method OfDrop(idx: int)
      requires Valid()
      modifies this`pipes, openFiles
      ensures Valid() && View() == Drop(old(View()), idx)
    {
      if idx < 0 || idx >= MAX_OPEN_FILES { return; }
      if openFiles[idx].Free? { return; }
      if openFiles[idx].refs > 0 {
        openFiles[idx] := openFiles[idx].(refs := openFiles[idx].refs - 1);
        if openFiles[idx].refs == 0 {
          pipes := CloseNode(pipes, openFiles[idx].node);
          openFiles[idx] := Free;
        }
      }
    }

    // Returns -1 when every descriptor from 3 on is taken.
    method FindFreeFdSlot(p: nat) returns (fd: int)
      requires Valid() && p < procs.Length
      ensures var f := FreeFd(procs[p].fds, FIRST_FD); fd == if f < MAX_FDS then f else -1
    {
      for i := FIRST_FD to MAX_FDS
        invariant FreeFd(procs[p].fds, FIRST_FD) == FreeFd(procs[p].fds, i)
      {
        if procs[p].fds[i] < 0 {
          return i;
        }
      }
      fd := -1;
    }

    method FdAlloc(p: nat, node: Node) returns (fd: int)
      requires Valid() && p < procs.Length
      modifies this`pipes, openFiles, procs
      ensures Valid()
      ensures var r := Alloc(old(View()), p, node); View() == r.st && fd == r.fd
      // the lowest closed descriptor names the lowest free slot, which holds the node
      ensures fd >= 0 ==>
                && LowestClosed(old(procs[p].fds), fd) && OnlyFd(old(procs[..]), procs[..], p, fd) && pipes == old(pipes)
                && Opened(old(openFiles[..]), openFiles[..], procs[p].fds[fd], node)
      ensures fd < 0 ==> fd == -1 && openFiles[..] == old(openFiles[..]) && procs[..] == old(procs[..])
    {
      hide OnlyFd, Opened, LowestClosed;
      AllocOpens(View(), p, node);
      var idx := OfAlloc(node);
      if idx < 0 {
        pipes := CloseNode(pipes, node);
        return -1;
      }
      fd := FindFreeFdSlot(p);
      if fd < 0 {
        OfDrop(idx);
        assert openFiles[..] == old(openFiles[..]);
        return -1;
      }
      procs[p] := procs[p].(fds := procs[p].fds[fd := idx]);
    }

    method FdClose(p: nat, fd: int)
      requires Valid() && p < procs.Length
      modifies this`pipes, openFiles, procs
      ensures Valid()
      ensures View() == if 0 <= fd < MAX_FDS then Close(old(View()), p, fd) else old(View())
      // the descriptor is closed, and only the file it named may change
      ensures 0 <= fd < MAX_FDS ==>
                && OnlyFd(old(procs[..]), procs[..], p, fd) && procs[p].fds[fd] < 0
                && OnlyFile(old(openFiles[..]), openFiles[..], old(procs[p].fds[fd]))
    {
      if fd < 0 || fd >= MAX_FDS { return; }
      var idx := procs[p].fds[fd];
      if idx >= 0 {
        procs[p] := procs[p].(fds := procs[p].fds[fd := -1]);
        OfDrop(idx);
      }
    }

    // Points a descriptor at an open file and counts the new reference.
    method BindFd(p: nat, fd: nat, idx: int)
      requires Valid() && p < procs.Length && fd < MAX_FDS
      modifies openFiles, procs
      ensures Valid() && View() == Bind(old(View()), p, fd, idx)
      ensures OnlyFd(old(procs[..]), procs[..], p, fd) && procs[p].fds[fd] == idx
      ensures OnlyFile(old(openFiles[..]), openFiles[..], idx)
    {
      procs[p] := procs[p].(fds := procs[p].fds[fd := idx]);
      if 0 <= idx < MAX_OPEN_FILES && openFiles[idx].Open? {
        openFiles[idx] := openFiles[idx].(refs := openFiles[idx].refs + 1);
      }
    }

    method FdDup(p: nat, oldFd: int) returns (fd: int)
      requires Valid() && p < procs.Length
      modifies openFiles, procs
      ensures Valid()
      ensures if 0 <= oldFd < MAX_FDS
              then var r := Dup(old(View()), p, oldFd); View() == r.st && fd == r.fd
              else View() == old(View()) && fd == -1
      // the lowest closed descriptor names the same file
      ensures fd >= 0 ==>
                && 0 <= oldFd < MAX_FDS && LowestClosed(old(procs[p].fds), fd) && OnlyFd(old(procs[..]), procs[..], p, fd)
                && procs[p].fds[fd] == procs[p].fds[oldFd] && OnlyFile(old(openFiles[..]), openFiles[..], procs[p].fds[fd])
      ensures fd < 0 ==> fd == -1 && View() == old(View())
    {
      if oldFd < 0 || oldFd >= MAX_FDS { return -1; }
      var idx := procs[p].fds[oldFd];
      if idx < 0 { return -1; }
      fd := FindFreeFdSlot(p);
      if fd < 0 { return -1; }
      BindFd(p, fd, idx);
    }

    method FdDup2(p: nat, oldFd: int, newFd: int) returns (fd: int)
      requires Valid() && p < procs.Length
      modifies this`pipes, openFiles, procs
      ensures Valid()
      ensures if 0 <= oldFd < MAX_FDS && 0 <= newFd < MAX_FDS
              then var r := Dup2(old(View()), p, oldFd, newFd); View() == r.st && fd == r.fd
              else View() == old(View()) && fd == -1
      // the target names the same file as the source, whatever it named before
      ensures fd >= 0 ==>
                && fd == newFd && 0 <= oldFd < MAX_FDS && 0 <= newFd < MAX_FDS
                && OnlyFd(old(procs[..]), procs[..], p, newFd) && procs[p].fds[newFd] == old(procs[p].fds[oldFd]) >= 0
      ensures fd < 0 ==> fd == -1 && View() == old(View())
    {
      if oldFd < 0 || oldFd >= MAX_FDS || newFd < 0 || newFd >= MAX_FDS { return -1; }
      var idx := procs[p].fds[oldFd];
      if idx < 0 { return -1; }
      if oldFd == newFd { return newFd; }
      if procs[p].fds[newFd] >= 0 {
        FdClose(p, newFd);
      }
      BindFd(p, newFd, idx);
      fd := newFd;
    }

    method FdCopyOnFork(parent: nat, child: nat)
      requires Valid() && parent < procs.Length && child < procs.Length && parent != child
      modifies openFiles, procs
      ensures Valid() && View() == CopyFrom(old(View()), parent, child, 0)
      // the child has the parent's descriptors, whose files gain a reference each
      ensures procs[child] == old(procs[child]).(fds := old(procs[parent].fds)) && pipes == old(pipes)
      ensures forall r :: 0 <= r < procs.Length && r != child ==> procs[r] == old(procs[r])
      ensures Gained(old(openFiles[..]), openFiles[..], old(procs[parent].fds))
    {
      hide Gained, Bind;
      CopyFromIs(View(), parent, child, 0);
      WholeTable(procs[child].fds, procs[parent].fds);
      for i := 0 to MAX_FDS
        invariant Valid() && pipes == old(pipes)
        invariant CopyFrom(View(), parent, child, i) == CopyFrom(old(View()), parent, child, 0)
      {
        BindFd(child, i, procs[parent].fds[i]);
      }
    }

    method FdCloseAllFor(p: nat)
      requires Valid() && p < procs.Length
      modifies this`pipes, openFiles, procs
      ensures Valid() && View() == CloseFrom(old(View()), p, 0)
      ensures forall i :: 0 <= i < MAX_FDS ==> procs[p].fds[i] < 0
      ensures forall r :: 0 <= r < procs.Length && r != p ==> procs[r] == old(procs[r])
    {
      for i := 0 to MAX_FDS
        invariant Valid() && forall j :: 0 <= j < i ==> procs[p].fds[j] < 0
        invariant forall r :: 0 <= r < procs.Length && r != p ==> procs[r] == old(procs[r])
        invariant CloseFrom(View(), p, i) == CloseFrom(old(View()), p, 0)
      {
        FdClose(p, i);
      }
    }

    // The descriptor part of process_create: `tty` says whether this is a user process for
    // which /dev/tty0 opens.
    method InitProcess(p: nat, tty: bool)
      requires Valid() && p < procs.Length
      modifies openFiles, procs
      ensures Valid() && View() == Spawn(old(View()), p, tty)
      // 0, 1 and 2 name one new terminal file, or nothing; all other descriptors are closed
      ensures procs[p].live && (forall i :: 3 <= i < MAX_FDS ==> procs[p].fds[i] == -1)
      ensures procs[p].fds[0] == procs[p].fds[1] == procs[p].fds[2]
      ensures var s := procs[p].fds[0];
              if s < 0 then s == -1 && openFiles[..] == old(openFiles[..])
              else OnlyFile(old(openFiles[..]), openFiles[..], s) && s < MAX_OPEN_FILES && old(openFiles[..])[s].Free?
                   && openFiles[s] == Open(Tty, 3)
      ensures forall r :: 0 <= r < procs.Length && r != p ==> procs[r] == old(procs[r])
    {
      procs[p] := Process(true, seq(MAX_FDS, _ => -1));
      if !tty { return; }
      var idx := OfAlloc(Tty);
      if idx < 0 { return; }
      openFiles[idx] := openFiles[idx].(refs := 3);
      procs[p] := procs[p].(fds := procs[p].fds[0 := idx][1 := idx][2 := idx]);
      assert procs[p].fds == seq(MAX_FDS, i => if i < FIRST_FD then idx else -1);
    }

    // fd_pipe where it succeeds.
    method FdPipe(p: nat) returns (readFd: int, writeFd: int)
      requires Valid() && p < procs.Length && OpenPipe(View(), p).fd >= 0
      modifies this`pipes, openFiles, procs
      ensures Valid() && View() == OpenPipe(old(View()), p).st
      ensures writeFd == OpenPipe(old(View()), p).fd
      // the two lowest closed descriptors name the two ends of a new pipe
      ensures LowestClosed(old(procs[p].fds), readFd) && readFd < writeFd < MAX_FDS && old(procs[p].fds[writeFd]) < 0
      ensures forall i :: 3 <= i < writeFd && i != readFd ==> old(procs[p].fds[i]) >= 0
      ensures pipes == old(pipes) + [Pipe(true, true, 0)]
      ensures EndAt(openFiles[..], procs[p].fds[readFd], PipeRead(|old(pipes)|))
      ensures EndAt(openFiles[..], procs[p].fds[writeFd], PipeWrite(|old(pipes)|))
      // nothing else changes
      ensures forall o :: 0 <= o < procs.Length && o != p ==> procs[o] == old(procs[o])
      ensures forall i :: 0 <= i < MAX_FDS && i != readFd && i != writeFd ==> procs[p].fds[i] == old(procs[p].fds[i])
      ensures forall s :: 0 <= s < MAX_OPEN_FILES && old(openFiles[s]).Open? ==> openFiles[s] == old(openFiles[s])
    {
      hide OnlyFd, Opened, LowestClosed;
      PipeOpens(View(), p);
      var q := |pipes|;
      pipes := pipes + [Pipe(true, true, 0)];
      readFd := FdAlloc(p, PipeRead(q));
      writeFd := FdAlloc(p, PipeWrite(q));
    }
  }
}
