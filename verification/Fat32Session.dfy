/**
 Any sequence of file writes and deletions on a mounted volume, made with the driver's own
 operations: what holds of the FAT on the device after all of them.
 */
module Fat32Session {
  import opened Basics
  import opened Fat32Disk
  import opened Fat32Chains
  import opened Fat32Files
  import opened Fat32Volume
  import opened Fat32Run
  import Fat32Unlink

  // A write to file i, or to a new file if there is no file i; or a deletion.
  datatype Call = Store(i: nat, offset: nat, buf: seq<byte>) | Erase(i: nat)

  // The clusters a write asks for.
  function Needed(offset: nat, buf: seq<byte>, n: nat): nat
    requires n > 0
  {
    if buf == [] then 0 else ClustersFor(offset + |buf|, n)
  }

  // What a call does to the chains of k files.
  function OpOf(c: Call, k: nat, n: nat): Op
    requires n > 0
  {
    match c
    case Store(i, offset, buf) => if i < k then Grow(i, Needed(offset, buf, n)) else Create(Needed(offset, buf, n))
    case Erase(i) => Delete(i)
  }

  // The directory entries hold the first clusters of the files.
  ghost predicate Starts(starts: seq<nat>, files: seq<seq<nat>>) {
    |starts| == |files| && forall i :: 0 <= i < |files| ==> files[i] != [] && starts[i] == files[i][0]
  }

  lemma FileOf(v: VolumeState, i: nat)
    requires Inv(v) && i < |v.files|
    ensures IsChain(v.s.fat, v.files[i]) && IsFile(v.s.fat, v.files[i]) && v.files[i] != []
    ensures 2 <= v.files[i][0] < |v.s.fat|
  {}

  lemma NothingToGrow(s: FatState, ch: seq<nat>)
    requires 2 <= |s.fat| && forall i :: 0 <= i < |ch| ==> 2 <= ch[i] < |s.fat|
    ensures GrowTo(s, ch, 0) == Growth(s, ch, true)
  {}

  // A write as one growth of the chain.
  method WriteTo(v: Volume, start: nat, offset: nat, buf: seq<byte>, ghost ch: seq<nat>) returns (start': nat,
                 ghost ch': seq<nat>)
    requires v.Valid() && IsFile(v.State().fat, ch) && start == if ch == [] then 0 else ch[0]
    modifies v, v.disk
    ensures v.Valid() && v.Intact(old(v.disk[..])) && v.g.ClusterBytes() > 0 && Sized(old(v.State()).fat)
    ensures forall i :: 0 <= i < |ch| ==> 2 <= ch[i] < |old(v.State()).fat|
    ensures var r := GrowTo(old(v.State()), ch, Needed(offset, buf, v.g.ClusterBytes()));
            v.State() == r.s && ch' == r.ch && start' == if ch' == [] then 0 else ch'[0]
  {
    ghost var s := v.State();
    LimitSmall(v.g, v.disk.Length);
    FileInRange(s.fat, ch);
    NothingToGrow(s, ch);
    hide Links, Clusters, TopBits, Mirrored, GrowTo, IsFile, ClustersFor, Written;
    var r;
    ghost var written;
    r, start', ch', written := v.WriteFileData(start, offset, buf, ch);
  }

  lemma GrowStep(was: VolumeState, i: nat, n: nat, starts: seq<nat>, start: nat, v: VolumeState, starts': seq<nat>)
    requires Inv(was) && Starts(starts, was.files) && i < |starts| && IsChain(was.s.fat, was.files[i])
    requires var r := GrowTo(was.s, was.files[i], n);
             v == VolumeState(r.s, was.files[i := r.ch]) && (r.ch != [] ==> start == r.ch[0]) && starts' == starts[i := start]
    ensures v == Step(was, Grow(i, n)) && Starts(starts', v.files)
  {
    GrowToKeeps(was.s, was.files[i], n);
    hide GrowTo, IsChain, Inv;
  }

  lemma CreateStep(was: VolumeState, n: nat, starts: seq<nat>, start: nat, v: VolumeState, starts': seq<nat>)
    requires Inv(was) && Starts(starts, was.files)
    requires var r := GrowTo(was.s, [], n);
             && start == (if r.ch == [] then 0 else r.ch[0])
             && v == VolumeState(r.s, if start == 0 then was.files else was.files + [r.ch])
             && starts' == if start == 0 then starts else starts + [start]
    ensures v == Step(was, Create(n)) && Starts(starts', v.files)
  {
    hide GrowTo, IsChain, Inv;
  }

  method StoreInto(v: Volume, i: nat, offset: nat, buf: seq<byte>, starts: seq<nat>, ghost files: seq<seq<nat>>)
    returns (starts': seq<nat>, ghost files': seq<seq<nat>>)
    requires v.Valid() && Inv(VolumeState(v.State(), files)) && Starts(starts, files) && i < |starts|
    modifies v, v.disk
    ensures v.Valid() && v.Intact(old(v.disk[..])) && Starts(starts', files') && v.g.ClusterBytes() > 0
    ensures VolumeState(v.State(), files') ==
            Step(VolumeState(old(v.State()), files), Grow(i, Needed(offset, buf, v.g.ClusterBytes())))
  {
    ghost var was := VolumeState(v.State(), files);
    FileOf(was, i);
    hide Links, Clusters, TopBits, Mirrored, GrowTo, IsChain, ClustersFor, Disjoint, Inv, Step;
    var start;
    ghost var ch;
    start, ch := WriteTo(v, starts[i], offset, buf, files[i]);
    starts', files' := starts[i := start], files[i := ch];
    GrowStep(was, i, Needed(offset, buf, v.g.ClusterBytes()), starts, start, VolumeState(v.State(), files'), starts');
  }

  method StoreNew(v: Volume, offset: nat, buf: seq<byte>, starts: seq<nat>, ghost files: seq<seq<nat>>)
    returns (starts': seq<nat>, ghost files': seq<seq<nat>>)
    requires v.Valid() && Inv(VolumeState(v.State(), files)) && Starts(starts, files)
    modifies v, v.disk
    ensures v.Valid() && v.Intact(old(v.disk[..])) && Starts(starts', files') && v.g.ClusterBytes() > 0
    ensures VolumeState(v.State(), files') ==
            Step(VolumeState(old(v.State()), files), Create(Needed(offset, buf, v.g.ClusterBytes())))
  {
    ghost var was := VolumeState(v.State(), files);
    hide Links, Clusters, TopBits, Mirrored, GrowTo, IsChain, ClustersFor, Disjoint, Inv, Step;
    var start;
    ghost var ch;
    start, ch := WriteTo(v, 0, offset, buf, []);
    starts' := if start == 0 then starts else starts + [start];
    files' := if start == 0 then files else files + [ch];
    CreateStep(was, Needed(offset, buf, v.g.ClusterBytes()), starts, start, VolumeState(v.State(), files'), starts');
  }

  method EraseAt(v: Volume, i: nat, starts: seq<nat>, ghost files: seq<seq<nat>>)
    returns (starts': seq<nat>, ghost files': seq<seq<nat>>)
    requires v.Valid() && Inv(VolumeState(v.State(), files)) && Starts(starts, files) && i < |starts|
    modifies v, v.disk
    ensures v.Valid() && v.Intact(old(v.disk[..])) && Starts(starts', files')
    ensures VolumeState(v.State(), files') == Step(VolumeState(old(v.State()), files), Delete(i))
  {
    ghost var was := VolumeState(v.State(), files);
    hide Links, Clusters, TopBits, Mirrored, AfterFree, Inv, Step;
    Fat32Unlink.FreeFile(v, starts[i]);
    starts', files' := starts[..i] + starts[i + 1..], files[..i] + files[i + 1..];
    DeleteStep(was, i, starts, VolumeState(v.State(), files'), starts');
  }

  lemma DeleteStep(was: VolumeState, i: nat, starts: seq<nat>, v: VolumeState, starts': seq<nat>)
    requires Inv(was) && Starts(starts, was.files) && i < |starts|
    requires v == VolumeState(AfterFree(was.s, starts[i]), was.files[..i] + was.files[i + 1..])
    requires starts' == starts[..i] + starts[i + 1..]
    ensures v == Step(was, Delete(i)) && Starts(starts', v.files)
  {
    hide AfterFree, Inv;
  }

  method PerformOne(v: Volume, c: Call, starts: seq<nat>, ghost files: seq<seq<nat>>)
    returns (starts': seq<nat>, ghost files': seq<seq<nat>>)
    requires v.Valid() && Inv(VolumeState(v.State(), files)) && Starts(starts, files)
    modifies v, v.disk
    ensures v.Valid() && v.Intact(old(v.disk[..])) && Starts(starts', files') && v.g.ClusterBytes() > 0
    ensures VolumeState(v.State(), files') == Step(VolumeState(old(v.State()), files), OpOf(c, |files|, v.g.ClusterBytes()))
  {
    LimitSmall(v.g, v.disk.Length);
    starts', files' := starts, files;
    match c
    case Store(i, offset, buf) =>
      hide Links, Clusters, TopBits, Mirrored, Inv;
      if i < |starts| {
        starts', files' := StoreInto(v, i, offset, buf, starts, files);
      } else {
        starts', files' := StoreNew(v, offset, buf, starts, files);
      }
    case Erase(i) =>
      hide Links, Clusters, TopBits, Mirrored, Inv;
      if i < |starts| {
        starts', files' := EraseAt(v, i, starts, files);
      }
  }

  // The steps of a sequence of calls.
  ghost function OpsOf(v: VolumeState, calls: seq<Call>, n: nat): (ops: seq<Op>)
    requires Inv(v) && n > 0
    ensures |ops| == |calls|
  {
    if calls == [] then []
    else
      var ops := OpsOf(v, calls[..|calls| - 1], n);
      RunKeeps(v, ops);
      ops + [OpOf(calls[|calls| - 1], |Run(v, ops).files|, n)]
  }

  lemma {:induction false} RunSnoc(v: VolumeState, ops: seq<Op>, op: Op)
    requires Inv(v)
    ensures Inv(Run(v, ops)) && Run(v, ops + [op]) == Step(Run(v, ops), op)
    decreases |ops|
  {
    hide Inv, Step;
    RunKeeps(v, ops);
    if ops == [] {
      assert ops + [op] == [op];
    } else {
      StepKeeps(v, ops[0]);
      RunSnoc(Step(v, ops[0]), ops[1..], op);
      assert (ops + [op])[1..] == ops[1..] + [op];
    }
  }

  // Over every sequence of calls on any volume: all chains stay in range, acyclic, end-marked and
  // disjoint; the copies of the FAT stay equal if they were and no reserved bit changes.
  method Perform(v: Volume, calls: seq<Call>, starts: seq<nat>, ghost files: seq<seq<nat>>)
    returns (starts': seq<nat>, ghost files': seq<seq<nat>>)
    requires v.Valid() && Inv(VolumeState(v.State(), files)) && Starts(starts, files)
    modifies v, v.disk
    ensures v.Valid() && Starts(starts', files') && v.g.ClusterBytes() > 0
    ensures TopBits(v.g, v.disk[..]) == TopBits(v.g, old(v.disk[..]))
    ensures Mirrored(v.g, old(v.disk[..])) ==> Mirrored(v.g, v.disk[..])
    ensures var was := VolumeState(old(v.State()), files);
            VolumeState(v.State(), files') == Run(was, OpsOf(was, calls, v.g.ClusterBytes()))
    ensures Inv(VolumeState(v.State(), files'))
            && Conserved(VolumeState(old(v.State()), files), VolumeState(v.State(), files'))
    ensures forall i :: 0 <= i < |files'| ==> Distinct(files'[i])
  {
    LimitSmall(v.g, v.disk.Length);
    ghost var was, n := VolumeState(v.State(), files), v.g.ClusterBytes();
    hide Links, Clusters, TopBits, Mirrored, Inv, Step, Conserved, Starts;
    starts', files' := starts, files;
    for k := 0 to |calls|
      invariant v.Valid() && v.Intact(old(v.disk[..])) && Starts(starts', files')
      invariant Inv(VolumeState(v.State(), files'))
      invariant VolumeState(v.State(), files') == Run(was, OpsOf(was, calls[..k], n))
    {
      ghost var ops := OpsOf(was, calls[..k], n);
      RunSnoc(was, ops, OpOf(calls[k], |files'|, n));
      assert calls[..k + 1][..k] == calls[..k] && calls[..k + 1][k] == calls[k];
      RunKeeps(was, ops + [OpOf(calls[k], |files'|, n)]);
      starts', files' := PerformOne(v, calls[k], starts', files');
    }
    assert calls[..|calls|] == calls;
    RunKeeps(was, OpsOf(was, calls, n));
  }
}
