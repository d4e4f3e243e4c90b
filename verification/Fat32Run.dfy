/**
 Whole histories of a FAT32 volume: files are created, grown and deleted in any order.
 */
module Fat32Run {
  import opened Fat32Disk
  import opened Fat32Chains
  import opened Fat32Files

  datatype VolumeState = VolumeState(s: FatState, files: seq<seq<nat>>)

  // A write growing a file to n clusters (a new file when it had none), or a delete. An index
  // that names no file does nothing.
  datatype Op = Create(n: nat) | Grow(i: nat, n: nat) | Delete(i: nat)

  ghost predicate Disjoint(files: seq<seq<nat>>) {
    forall i, j, c :: 0 <= i < |files| && 0 <= j < |files| && c in files[i] && c in files[j] ==> i == j
  }

  // Every file is a chain that ends, and no two share a cluster. What FSInfo says does not matter.
  ghost predicate Inv(v: VolumeState) {
    && Sized(v.s.fat)
    && (forall i :: 0 <= i < |v.files| ==> IsChain(v.s.fat, v.files[i]))
    && Disjoint(v.files)
  }

  // FSInfo counts exactly the free clusters, or says that it does not know.
  predicate Exact(v: VolumeState) { v.s.freeCount == FreeClusters(v.s.fat) }

  predicate Unknown(v: VolumeState) { v.s.freeCount == UNKNOWN }

  // What a step does besides keeping the chains: an exact count stays exact, an unknown one
  // unknown, and every cluster stays accounted for.
  ghost predicate Conserved(v: VolumeState, v': VolumeState) {
    (Exact(v) ==> Exact(v')) && (Unknown(v) ==> Unknown(v')) && Accounted(v') == Accounted(v)
  }

  function TotalLength(files: seq<seq<nat>>): nat {
    if files == [] then 0 else |files[0]| + TotalLength(files[1..])
  }

  // Clusters that are free or belong to a file.
  function Accounted(v: VolumeState): nat { FreeClusters(v.s.fat) + TotalLength(v.files) }

  ghost function Step(v: VolumeState, op: Op): VolumeState
    requires Inv(v)
  {
    match op
    case Create(n) =>
      var r := GrowTo(v.s, [], n);
      VolumeState(r.s, if r.ch == [] then v.files else v.files + [r.ch])
    case Grow(i, n) =>
      if i < |v.files| then
        var r := GrowTo(v.s, v.files[i], n);
        VolumeState(r.s, v.files[i := r.ch])
      else v
    case Delete(i) =>
      if i < |v.files| then
        VolumeState(AfterFree(v.s, v.files[i][0]), v.files[..i] + v.files[i + 1..])
      else v
  }

  ghost function Run(v: VolumeState, ops: seq<Op>): VolumeState
    requires Inv(v)
    decreases |ops|
  {
    if ops == [] then v else
      StepKeeps(v, ops[0]);
      Run(Step(v, ops[0]), ops[1..])
  }

  // Growing one file neither takes clusters from another nor changes its chain.
  lemma GrowKeepsOther(s: FatState, ch: seq<nat>, n: nat, other: seq<nat>)
    requires Sized(s.fat) && IsFile(s.fat, ch) && IsChain(s.fat, other)
    requires forall c :: c in other ==> c !in ch
    ensures var r := GrowTo(s, ch, n);
            IsChain(r.s.fat, other) && forall c :: c in other ==> c !in r.ch
  {
    hide GrowTo;
    GrowToKeeps(s, ch, n);
    NotFreeInChain(s.fat, other);
    var r := GrowTo(s, ch, n);
    forall i | 0 <= i < |r.ch| ensures r.ch[i] !in other {
      if i < |ch| { assert r.ch[i] in ch; }
    }
    forall i | 0 <= i < |other| ensures r.s.fat[other[i]] == s.fat[other[i]] {
      assert other[i] in other;
    }
    ChainFrame(s.fat, r.s.fat, other);
  }

  lemma {:induction false} TotalLengthAppend(a: seq<seq<nat>>, b: seq<seq<nat>>)
    ensures TotalLength(a + b) == TotalLength(a) + TotalLength(b)
  {
    if a == [] {
      assert a + b == b;
    } else {
      TotalLengthAppend(a[1..], b);
      assert (a + b)[1..] == a[1..] + b;
    }
  }

  lemma TotalLengthAt(files: seq<seq<nat>>, i: nat)
    requires i < |files|
    ensures TotalLength(files) == TotalLength(files[..i]) + |files[i]| + TotalLength(files[i + 1..])
  {
    assert files == files[..i] + ([files[i]] + files[i + 1..]);
    TotalLengthAppend(files[..i], [files[i]] + files[i + 1..]);
    assert ([files[i]] + files[i + 1..])[1..] == files[i + 1..];
  }

  lemma TotalLengthReplaced(files: seq<seq<nat>>, i: nat, ch: seq<nat>)
    requires i < |files|
    ensures TotalLength(files[i := ch]) == TotalLength(files) - |files[i]| + |ch|
  {
    var files' := files[i := ch];
    TotalLengthAt(files, i);
    TotalLengthAt(files', i);
    assert files'[..i] == files[..i] && files'[i + 1..] == files[i + 1..];
  }

  // How many clusters growing takes from the free ones.
  lemma {:induction false} GrowTakes(s: FatState, ch: seq<nat>, n: nat)
    requires Sized(s.fat) && IsFile(s.fat, ch)
    ensures var r := GrowTo(s, ch, n); FreeClusters(r.s.fat) + |r.ch| == FreeClusters(s.fat) + |ch|
  {
    hide Append, FreeBelow, IsFile;
    FileInRange(s.fat, ch);
    if n > |ch| {
      GrowTakes(s, ch, n - 1);
      GrowToKeeps(s, ch, n - 1);
      var q := GrowTo(s, ch, n - 1);
      if q.ok {
        AppendKeeps(q.s, q.ch);
        AppendCounts(q.s, q.ch);
      }
    }
  }

  lemma {:induction false} GrowUnknown(s: FatState, ch: seq<nat>, n: nat)
    requires Sized(s.fat) && IsFile(s.fat, ch) && s.freeCount == UNKNOWN
    ensures GrowTo(s, ch, n).s.freeCount == UNKNOWN
  {
    hide Pick, IsFile;
    FileInRange(s.fat, ch);
    if n > |ch| { GrowUnknown(s, ch, n - 1); }
  }

  lemma CreateKeeps(v: VolumeState, n: nat)
    requires Inv(v)
    ensures Inv(Step(v, Create(n))) && Conserved(v, Step(v, Create(n)))
  {
    hide GrowTo, FreeBelow, IsChain;
    var v' := Step(v, Create(n));
    var r := GrowTo(v.s, [], n);
    GrowToKeeps(v.s, [], n);
    GrowToSucceeds(v.s, [], n);
    GrowTakes(v.s, [], n);
    if Unknown(v) { GrowUnknown(v.s, [], n); }
    forall i | 0 <= i < |v.files|
      ensures IsChain(r.s.fat, v.files[i]) && forall c :: c in v.files[i] ==> c !in r.ch
    {
      GrowKeepsOther(v.s, [], n, v.files[i]);
    }
    TotalLengthAppend(v.files, [r.ch]);
  }

  lemma GrowKeeps(v: VolumeState, i: nat, n: nat)
    requires Inv(v)
    ensures Inv(Step(v, Grow(i, n))) && Conserved(v, Step(v, Grow(i, n)))
  {
    hide GrowTo, FreeBelow, IsChain, TotalLength;
    if i < |v.files| {
      ChainInRange(v.s.fat, v.files[i]);
      var v' := Step(v, Grow(i, n));
      var r := GrowTo(v.s, v.files[i], n);
      GrowToKeeps(v.s, v.files[i], n);
      GrowToSucceeds(v.s, v.files[i], n);
      GrowTakes(v.s, v.files[i], n);
      if Unknown(v) { GrowUnknown(v.s, v.files[i], n); }
      forall j | 0 <= j < |v.files| && j != i
        ensures IsChain(r.s.fat, v.files[j]) && forall c :: c in v.files[j] ==> c !in r.ch
      {
        GrowKeepsOther(v.s, v.files[i], n, v.files[j]);
      }
      TotalLengthReplaced(v.files, i, r.ch);
    }
  }

  // Freeing one file leaves every disjoint chain as it was.
  lemma FreeKeepsOther(fat: seq<nat>, ch: seq<nat>, other: seq<nat>)
    requires Sized(fat) && IsChain(fat, ch) && IsChain(fat, other)
    requires forall c :: c in other ==> c !in ch
    ensures IsChain(FreeWalk(fat, ch[0]).fat, other)
  {
    hide FreeWalk;
    FreeWalkChain(fat, ch);
    forall k | 0 <= k < |other| ensures other[k] in other {}
    ChainFrame(fat, FreeWalk(fat, ch[0]).fat, other);
  }

  lemma DisjointWithout(files: seq<seq<nat>>, i: nat)
    requires Disjoint(files) && i < |files|
    ensures Disjoint(files[..i] + files[i + 1..])
  {
    var rest := files[..i] + files[i + 1..];
    forall j, k, c | 0 <= j < |rest| && 0 <= k < |rest| && c in rest[j] && c in rest[k] ensures j == k {
      assert rest[j] == files[if j < i then j else j + 1];
      assert rest[k] == files[if k < i then k else k + 1];
    }
  }

  lemma DeleteKeeps(v: VolumeState, i: nat)
    requires Inv(v)
    ensures Inv(Step(v, Delete(i))) && Conserved(v, Step(v, Delete(i)))
  {
    hide FreeWalk, FreeBelow, IsChain, Disjoint;
    if i < |v.files| {
      ChainInRange(v.s.fat, v.files[i]);
      var v' := Step(v, Delete(i));
      FreeWalkChain(v.s.fat, v.files[i]);
      forall j | 0 <= j < |v.files| && j != i ensures IsChain(v'.s.fat, v.files[j]) {
        OthersDisjoint(v.files, i, j);
        FreeKeepsOther(v.s.fat, v.files[i], v.files[j]);
      }
      DisjointWithout(v.files, i);
      TotalLengthAt(v.files, i);
      TotalLengthAppend(v.files[..i], v.files[i + 1..]);
    }
  }

  lemma OthersDisjoint(files: seq<seq<nat>>, i: nat, j: nat)
    requires Disjoint(files) && i < |files| && j < |files| && i != j
    ensures forall c :: c in files[j] ==> c !in files[i]
  {}

  lemma StepKeeps(v: VolumeState, op: Op)
    requires Inv(v)
    ensures Inv(Step(v, op)) && Conserved(v, Step(v, op))
  {
    hide Inv, Step, Conserved;
    match op
    case Create(n) => CreateKeeps(v, n);
    case Grow(i, n) => GrowKeeps(v, i, n);
    case Delete(i) => DeleteKeeps(v, i);
  }

  // Over every run on any volume, chains stay in range, acyclic, end-marked and pairwise disjoint
  // and no cluster is lost or gained; FSInfo's count stays exact if it was, and unknown if it was.
  lemma {:induction false} RunKeeps(v: VolumeState, ops: seq<Op>)
    requires Inv(v)
    ensures Inv(Run(v, ops)) && Conserved(v, Run(v, ops))
    ensures forall i :: 0 <= i < |Run(v, ops).files| ==> Distinct(Run(v, ops).files[i])
    decreases |ops|
  {
    hide Accounted, Step, Exact, Unknown;
    if ops == [] {
      forall i | 0 <= i < |v.files| ensures Distinct(v.files[i]) {
        ChainAcyclic(v.s.fat, v.files[i]);
      }
    } else {
      StepKeeps(v, ops[0]);
      RunKeeps(Step(v, ops[0]), ops[1..]);
    }
  }
}
