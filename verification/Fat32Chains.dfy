/**
 The FAT as a table of links: cluster chains, the next-fit search for a free cluster, the walk
 that frees a chain, and what these do to every chain of a volume.
 */
module Fat32Chains {
  import opened Fat32Disk

  const UNKNOWN: nat := 0xFFFF_FFFF

  // The in-memory FAT together with the two FSInfo fields the allocator uses.
  datatype FatState = FatState(fat: seq<nat>, freeCount: nat, nextFree: nat)

  // ----- chains -----

  // Cluster numbers can be told apart from the markers.
  predicate Sized(fat: seq<nat>) { 2 <= |fat| <= BAD_CLUSTER }

  ghost predicate IsChain(fat: seq<nat>, ch: seq<nat>) {
    && ch != []
    && (forall i :: 0 <= i < |ch| ==> 2 <= ch[i] < |fat|)
    && (forall i {:trigger fat[ch[i]]} :: 0 <= i < |ch| - 1 ==> fat[ch[i]] == ch[i + 1])
    && fat[ch[|ch| - 1]] >= EOC_MIN
  }

  // Also admits the file that has no cluster yet.
  ghost predicate IsFile(fat: seq<nat>, ch: seq<nat>) { ch == [] || IsChain(fat, ch) }

  lemma ChainInRange(fat: seq<nat>, ch: seq<nat>)
    requires IsChain(fat, ch)
    ensures ch != [] && forall i :: 0 <= i < |ch| ==> 2 <= ch[i] < |fat|
  {}

  lemma FileInRange(fat: seq<nat>, ch: seq<nat>)
    requires IsFile(fat, ch)
    ensures forall i :: 0 <= i < |ch| ==> 2 <= ch[i] < |fat|
  {}

  lemma ChainTail(fat: seq<nat>, ch: seq<nat>)
    requires IsChain(fat, ch) && |ch| > 1
    ensures IsChain(fat, ch[1..])
  {
    forall i | 0 <= i < |ch[1..]| - 1 ensures fat[ch[1..][i]] == ch[1..][i + 1] {
      assert fat[ch[i + 1]] == ch[i + 1 + 1];
    }
  }

  lemma ChainSuffix(fat: seq<nat>, ch: seq<nat>, k: nat)
    requires IsChain(fat, ch) && k < |ch|
    ensures IsChain(fat, ch[k..])
  {
    if k > 0 {
      ChainSuffix(fat, ch, k - 1);
      ChainTail(fat, ch[k - 1..]);
      assert ch[k - 1..][1..] == ch[k..];
    }
  }

  // A first cluster determines its chain.
  lemma {:induction false} ChainUnique(fat: seq<nat>, a: seq<nat>, b: seq<nat>)
    requires Sized(fat) && IsChain(fat, a) && IsChain(fat, b) && a[0] == b[0]
    ensures a == b
  {
    if |a| > 1 { assert fat[a[0]] == a[0 + 1]; }
    if |b| > 1 { assert fat[b[0]] == b[0 + 1]; }
    if |a| > 1 && |b| > 1 {
      ChainTail(fat, a);
      ChainTail(fat, b);
      ChainUnique(fat, a[1..], b[1..]);
      assert a == [a[0]] + a[1..] && b == [b[0]] + b[1..];
    }
  }

  // A chain that reaches an end marker visits no cluster twice.
  lemma ChainAcyclic(fat: seq<nat>, ch: seq<nat>)
    requires Sized(fat) && IsFile(fat, ch)
    ensures forall i, j :: 0 <= i < j < |ch| ==> ch[i] != ch[j]
  {
    forall i, j | 0 <= i < j < |ch| ensures ch[i] != ch[j] {
      if ch[i] == ch[j] {
        ChainSuffix(fat, ch, i);
        ChainSuffix(fat, ch, j);
        ChainUnique(fat, ch[i..], ch[j..]);
      }
    }
  }

  lemma {:induction false} DistinctBound(ch: seq<nat>, lo: nat, hi: nat)
    requires lo <= hi && (forall i :: 0 <= i < |ch| ==> lo <= ch[i] < hi)
    requires forall i, j :: 0 <= i < j < |ch| ==> ch[i] != ch[j]
    ensures |ch| <= hi - lo
    decreases hi
  {
    if ch != [] {
      assert lo <= ch[0] < hi;
      if hi - 1 in ch {
        var k :| 0 <= k < |ch| && ch[k] == hi - 1;
        DistinctBound(ch[..k] + ch[k + 1..], lo, hi - 1);
      } else {
        DistinctBound(ch, lo, hi - 1);
      }
    }
  }

  // No chain is longer than the volume.
  lemma ChainBound(fat: seq<nat>, ch: seq<nat>)
    requires Sized(fat) && IsFile(fat, ch)
    ensures |ch| <= |fat| - 2
  {
    ChainAcyclic(fat, ch);
    FileInRange(fat, ch);
    DistinctBound(ch, 2, |fat|);
  }

  // A chain only depends on its own links.
  lemma ChainFrame(fat: seq<nat>, fat': seq<nat>, ch: seq<nat>)
    requires IsFile(fat, ch) && |fat'| == |fat|
    requires forall i :: 0 <= i < |ch| ==> fat'[ch[i]] == fat[ch[i]]
    ensures IsFile(fat', ch)
  {}

  // ----- counting free clusters -----

  function FreeBelow(fat: seq<nat>, n: nat): (k: nat)
    requires n <= |fat|
    ensures k <= n
  {
    if n <= 2 then 0 else FreeBelow(fat, n - 1) + if fat[n - 1] == FREE_CLUSTER then 1 else 0
  }

  function FreeClusters(fat: seq<nat>): nat { FreeBelow(fat, |fat|) }

  lemma {:induction false} FreeBelowUpdate(fat: seq<nat>, c: nat, v: nat, n: nat)
    requires 2 <= c < |fat| && n <= |fat|
    ensures FreeBelow(fat[c := v], n) == FreeBelow(fat, n)
            + (if c < n && v == FREE_CLUSTER then 1 else 0) - (if c < n && fat[c] == FREE_CLUSTER then 1 else 0)
  {
    if n > 2 {
      FreeBelowUpdate(fat, c, v, n - 1);
    }
  }

  lemma {:induction false} FreeBelowPositive(fat: seq<nat>, n: nat)
    requires n <= |fat|
    ensures FreeBelow(fat, n) > 0 <==> exists c :: 2 <= c < n && fat[c] == FREE_CLUSTER
  {
    if n > 2 {
      FreeBelowPositive(fat, n - 1);
    }
  }

  // ----- next-fit search -----

  // Where the search starts for a given FSInfo hint.
  function Start(hint: nat): nat { if hint != UNKNOWN && hint >= 2 then hint else 2 }

  // The least free cluster in lo..hi, or 0.
  function FirstFree(fat: seq<nat>, lo: nat, hi: nat): (r: nat)
    requires 2 <= lo && hi <= |fat|
    ensures r == 0 || (lo <= r < hi && fat[r] == FREE_CLUSTER)
    ensures forall c :: lo <= c < hi && (r == 0 || c < r) ==> fat[c] != FREE_CLUSTER
    decreases hi - lo
  {
    if lo >= hi then 0 else if fat[lo] == FREE_CLUSTER then lo else FirstFree(fat, lo + 1, hi)
  }

  // The cluster the allocator picks, or 0. A hint past the last cluster costs one probe, and
  // the last cluster is then never looked at.
  function Pick(fat: seq<nat>, hint: nat): (r: nat)
    requires 2 <= |fat|
    ensures r == 0 || (2 <= r < |fat| && fat[r] == FREE_CLUSTER)
  {
    var s := Start(hint);
    if s < |fat| then
      var r := FirstFree(fat, s, |fat|);
      if r != 0 then r else FirstFree(fat, 2, s)
    else FirstFree(fat, 2, |fat| - 1)
  }

  // The hint does not hide a free last cluster.
  predicate HintOk(fat: seq<nat>, hint: nat)
    requires 2 <= |fat|
  {
    Start(hint) < |fat| || fat[|fat| - 1] != FREE_CLUSTER
  }

  // Exactly when an allocation succeeds.
  lemma PickSucceeds(fat: seq<nat>, hint: nat)
    requires 2 <= |fat|
    ensures Pick(fat, hint) != 0 <==>
            FreeClusters(fat) > (if HintOk(fat, hint) then 0 else 1)
  {
    FreeBelowPositive(fat, |fat|);
    if |fat| > 2 { FreeBelowPositive(fat, |fat| - 1); }
    if Start(hint) < |fat| {
      assert FreeClusters(fat) > 0 ==> Pick(fat, hint) != 0;
    }
  }

  // A volume whose only free cluster is the last one, with the hint just past it, refuses.
  lemma HintHidesLastCluster()
    ensures var fat := [EOC, EOC, EOC, FREE_CLUSTER];
            FreeClusters(fat) == 1 && Pick(fat, 4) == 0 && Pick(fat, 2) == 3
  {
    var fat := [EOC, EOC, EOC, FREE_CLUSTER];
    assert FreeBelow(fat, 3) == 0 && FreeBelow(fat, 4) == 1;
    assert FirstFree(fat, 2, 3) == 0;
    assert FirstFree(fat, 2, 4) == FirstFree(fat, 3, 4) == 3;
  }

  // ----- allocating and growing -----

  function TakenCount(count: nat): nat { if count != UNKNOWN && count > 0 then count - 1 else count }

  // State after a successful allocation of cluster c.
  function Take(s: FatState, c: nat): (s': FatState)
    requires 2 <= c < |s.fat|
  {
    FatState(s.fat[c := EOC], TakenCount(s.freeCount), c + 1)
  }

  // The same field by field, in the numbers of the format.
  ghost predicate JustTaken(was: FatState, s: FatState, c: nat) {
    && 2 <= c < |was.fat| && was.fat[c] == 0 && s.fat == was.fat[c := 0x0FFF_FFFF] && s.nextFree == c + 1
    && s.freeCount == if was.freeCount == 0xFFFF_FFFF || was.freeCount == 0 then was.freeCount else was.freeCount - 1
  }

  // Result of making a chain at least n clusters long.
  datatype Growth = Growth(s: FatState, ch: seq<nat>, ok: bool)

  // Allocate one cluster and link it after the last one.
  function Append(s: FatState, ch: seq<nat>): (r: Growth)
    requires 2 <= |s.fat|
    requires ch != [] ==> 2 <= ch[|ch| - 1] < |s.fat|
  {
    var c := Pick(s.fat, s.nextFree);
    if c == 0 then Growth(s, ch, false)
    else
      var t := Take(s, c);
      Growth(if ch == [] then t else t.(fat := t.fat[ch[|ch| - 1] := c]), ch + [c], true)
  }

  lemma AppendKeeps(s: FatState, ch: seq<nat>)
    requires Sized(s.fat) && IsFile(s.fat, ch)
    ensures var r := Append(s, ch);
            && |r.s.fat| == |s.fat|
            && IsFile(r.s.fat, r.ch)
            && ch <= r.ch
            && (r.ok ==> |r.ch| == |ch| + 1 && s.fat[r.ch[|ch|]] == FREE_CLUSTER && r.ch[|ch|] !in ch)
            && (!r.ok ==> r == Growth(s, ch, false))
            && (forall c :: 0 <= c < |s.fat| && c !in r.ch ==> r.s.fat[c] == s.fat[c])
  {
    var c := Pick(s.fat, s.nextFree);
    if c != 0 {
      NotFreeInChain(s.fat, ch);
      ChainAcyclic(s.fat, ch);
      var r := Append(s, ch);
      forall k | 0 <= k < |s.fat| && k !in r.ch ensures r.s.fat[k] == s.fat[k] {
        assert c in r.ch;
        if ch != [] { assert ch[|ch| - 1] in r.ch; }
      }
      forall i | 0 <= i < |r.ch| - 1 ensures r.s.fat[r.ch[i]] == r.ch[i + 1] {
        if i < |ch| - 1 { assert s.fat[ch[i]] == ch[i + 1]; }
      }
    }
  }

  lemma NotFreeInChain(fat: seq<nat>, ch: seq<nat>)
    requires Sized(fat) && IsFile(fat, ch)
    ensures forall c :: c in ch ==> fat[c] != FREE_CLUSTER
  {
    forall c | c in ch ensures fat[c] != FREE_CLUSTER {
      var i :| 0 <= i < |ch| && ch[i] == c;
      if i < |ch| - 1 { assert fat[ch[i]] == ch[i + 1]; }
    }
  }

  function GrowTo(s: FatState, ch: seq<nat>, n: nat): (r: Growth)
    requires 2 <= |s.fat|
    requires forall i :: 0 <= i < |ch| ==> 2 <= ch[i] < |s.fat|
    ensures |r.s.fat| == |s.fat|
    ensures forall i :: 0 <= i < |r.ch| ==> 2 <= r.ch[i] < |s.fat|
    ensures |r.ch| == if r.ok then (if n <= |ch| then |ch| else n) else |r.ch|
  {
    if n <= |ch| then Growth(s, ch, true)
    else
      var r := GrowTo(s, ch, n - 1);
      if r.ok then Append(r.s, r.ch) else r
  }

  // (s', ch') is (s, ch) grown: the chain is continued by clusters that were free, and no other
  // link changed.
  ghost predicate Grown(s: FatState, ch: seq<nat>, s': FatState, ch': seq<nat>) {
    && IsFile(s'.fat, ch') && ch <= ch' && |s'.fat| == |s.fat|
    && (forall i :: 0 <= i < |ch'| ==> ch'[i] < |s.fat|)
    && (forall i :: |ch| <= i < |ch'| ==> s.fat[ch'[i]] == FREE_CLUSTER)
    && (forall c :: 0 <= c < |s.fat| && c !in ch' ==> s'.fat[c] == s.fat[c])
  }

  lemma GrownOnce(s: FatState, ch: seq<nat>, q: FatState, qch: seq<nat>)
    requires Sized(s.fat) && Grown(s, ch, q, qch) && (qch != [] ==> 2 <= qch[|qch| - 1])
    ensures var r := Append(q, qch); Grown(s, ch, r.s, r.ch)
  {
    AppendKeeps(q, qch);
    var r := Append(q, qch);
    FileInRange(r.s.fat, r.ch);
    hide IsFile, Append;
    if r.ok {
      forall i | |ch| <= i < |r.ch| ensures s.fat[r.ch[i]] == FREE_CLUSTER {
        if i < |qch| { assert r.ch[i] == qch[i]; }
      }
      forall i | 0 <= i < |qch| ensures qch[i] in r.ch { assert r.ch[i] == qch[i]; }
    }
  }

  // Growing keeps the chain a chain, extends it by clusters that were free, and touches no
  // other link.
  lemma {:induction false} GrowToKeeps(s: FatState, ch: seq<nat>, n: nat)
    requires Sized(s.fat) && IsFile(s.fat, ch)
    ensures var r := GrowTo(s, ch, n); Grown(s, ch, r.s, r.ch)
  {
    FileInRange(s.fat, ch);
    if n > |ch| {
      GrowToKeeps(s, ch, n - 1);
      var q := GrowTo(s, ch, n - 1);
      hide Grown, IsFile, Append;
      if q.ok { GrownOnce(s, ch, q.s, q.ch); }
    }
  }

  // Once the volume is full, asking for more changes nothing.
  lemma {:induction false} GrowToStuck(s: FatState, ch: seq<nat>, n: nat, m: nat)
    requires 2 <= |s.fat| && forall i :: 0 <= i < |ch| ==> 2 <= ch[i] < |s.fat|
    requires n <= m && !GrowTo(s, ch, n).ok
    ensures GrowTo(s, ch, m) == GrowTo(s, ch, n)
  {
    if n < m {
      GrowToStuck(s, ch, n, m - 1);
    }
  }

  // A volume that fills up while growing leaves the chain shorter than asked for.
  lemma {:induction false} GrowToShort(s: FatState, ch: seq<nat>, n: nat)
    requires 2 <= |s.fat| && forall i :: 0 <= i < |ch| ==> 2 <= ch[i] < |s.fat|
    requires !GrowTo(s, ch, n).ok
    ensures |ch| <= |GrowTo(s, ch, n).ch| < n
    ensures GrowTo(s, ch, n - 1).ok ==> |GrowTo(s, ch, n).ch| == n - 1
  {
    if !GrowTo(s, ch, n - 1).ok {
      GrowToShort(s, ch, n - 1);
    }
  }

  lemma FollowLink(fat: seq<nat>, ch: seq<nat>, k: nat)
    requires IsChain(fat, ch) && k < |ch|
    ensures if k + 1 < |ch| then fat[ch[k]] == ch[k + 1] else fat[ch[k]] >= EOC_MIN
  {}

  // One step along a chain that is being grown as it is walked.
  lemma GrowToNext(s: FatState, ch: seq<nat>, k: nat)
    requires Sized(s.fat) && IsFile(s.fat, ch) && GrowTo(s, ch, k + 1).ok
    ensures var q := GrowTo(s, ch, k + 1);
            var link := q.s.fat[q.ch[k]];
            if 2 <= link < EOC_MIN
            then k + 1 < |q.ch| && link == q.ch[k + 1] && GrowTo(s, ch, k + 2) == q
            else
              var c := Pick(q.s.fat, q.s.nextFree);
              if c == 0 then GrowTo(s, ch, k + 2) == Growth(q.s, q.ch, false)
              else GrowTo(s, ch, k + 2) == Growth(Take(q.s, c).(fat := Take(q.s, c).fat[q.ch[k] := c]), q.ch + [c], true)
                   && |q.ch| == k + 1
  {
    GrowToKeeps(s, ch, k + 1);
    FollowLink(GrowTo(s, ch, k + 1).s.fat, GrowTo(s, ch, k + 1).ch, k);
  }

  // The first cluster, found or allocated, stays the first.
  lemma {:induction false} GrowToFirst(s: FatState, ch: seq<nat>, n: nat)
    requires Sized(s.fat) && IsFile(s.fat, ch) && n > 0
    ensures var q := GrowTo(s, ch, n);
            if ch != [] then
              GrowTo(s, ch, 1) == Growth(s, ch, true) && q.ch != [] && q.ch[0] == ch[0]
            else
              var c := Pick(s.fat, s.nextFree);
              if c == 0 then q == Growth(s, ch, false)
              else GrowTo(s, ch, 1) == Growth(Take(s, c), [c], true) && q.ch != [] && q.ch[0] == c
  {
    hide Pick, IsFile;
    FileInRange(s.fat, ch);
    if n == 1 {
      assert GrowTo(s, ch, 0).ok;
    } else {
      hide Append;
      GrowToFirst(s, ch, n - 1);
      GrowToKeeps(s, ch, n - 1);
      AppendKeeps(GrowTo(s, ch, n - 1).s, GrowTo(s, ch, n - 1).ch);
    }
  }

  lemma AppendCounts(s: FatState, ch: seq<nat>)
    requires Sized(s.fat) && IsFile(s.fat, ch)
    ensures var r := Append(s, ch);
            && (r.ok <==> Pick(s.fat, s.nextFree) != 0)
            && (!r.ok ==> r.s == s)
            && (r.ok ==>
              && FreeClusters(r.s.fat) == FreeClusters(s.fat) - 1
              && HintOk(r.s.fat, r.s.nextFree)
              && (s.freeCount == FreeClusters(s.fat) ==> r.s.freeCount == FreeClusters(r.s.fat)))
  {
    var c := Pick(s.fat, s.nextFree);
    if c != 0 {
      FreeBelowUpdate(s.fat, c, EOC, |s.fat|);
      if ch != [] {
        NotFreeInChain(s.fat, ch);
        assert ch[|ch| - 1] in ch;
        FreeBelowUpdate(s.fat[c := EOC], ch[|ch| - 1], c, |s.fat|);
      }
    }
  }

  // Exactly when growing succeeds: enough free clusters, one more if the hint hides one.
  lemma {:induction false} GrowToSucceeds(s: FatState, ch: seq<nat>, n: nat)
    requires Sized(s.fat) && IsFile(s.fat, ch)
    ensures var r := GrowTo(s, ch, n);
            && (r.ok <==> n <= |ch| || (n - |ch| <= FreeClusters(s.fat)
                                        && (HintOk(s.fat, s.nextFree) || FreeClusters(s.fat) > 1)))
            && (n > |ch| && r.ok ==>
                  && FreeClusters(r.s.fat) == FreeClusters(s.fat) - (n - |ch|)
                  && HintOk(r.s.fat, r.s.nextFree))
            && (s.freeCount == FreeClusters(s.fat) ==> r.s.freeCount == FreeClusters(r.s.fat))
  {
    hide Append, Pick, IsFile, IsChain, FreeBelow, HintOk;
    if n > |ch| {
      GrowToSucceeds(s, ch, n - 1);
      GrowToKeeps(s, ch, n - 1);
      var q := GrowTo(s, ch, n - 1);
      if q.ok {
        PickSucceeds(q.s.fat, q.s.nextFree);
        AppendCounts(q.s, q.ch);
      }
    }
  }

  // ----- freeing -----

  datatype Freed = Freed(fat: seq<nat>, count: nat, ok: bool)

  ghost function Taken(fat: seq<nat>): nat { |fat| - FreeClusters(fat) }

  // The walk of fat32_free_cluster_chain over any table, however corrupt.
  function FreeWalk(fat: seq<nat>, c: nat): (r: Freed)
    ensures |r.fat| == |fat|
    decreases Taken(fat), 2 <= c < EOC_MIN
  {
    if !(2 <= c < EOC_MIN) then Freed(fat, 0, true)
    else if c >= |fat| then Freed(fat, 0, false)
    else
      FreeBelowUpdate(fat, c, FREE_CLUSTER, |fat|);
      var r := FreeWalk(fat[c := FREE_CLUSTER], fat[c]);
      r.(count := r.count + 1)
  }

  // Freeing a file that starts at cluster c, if it has one.
  function AfterFree(s: FatState, c: nat): FatState {
    if 2 <= c < EOC_MIN then
      var w := FreeWalk(s.fat, c);
      s.(fat := w.fat, freeCount := if w.ok && s.freeCount != UNKNOWN then (s.freeCount + w.count) % WORD_SPAN else s.freeCount)
    else s
  }

  lemma FreeWalkOut(fat: seq<nat>, c: nat)
    requires 2 <= c < EOC_MIN && c >= |fat|
    ensures !FreeWalk(fat, c).ok && FreeWalk(fat, c).fat == fat
  {}

  lemma FreeWalkStep(fat: seq<nat>, c: nat)
    requires 2 <= c < EOC_MIN && c < |fat|
    ensures var w, w' := FreeWalk(fat, c), FreeWalk(fat[c := FREE_CLUSTER], fat[c]);
            w == w'.(count := w'.count + 1)
    ensures if fat[c] == FREE_CLUSTER then fat[c := FREE_CLUSTER] == fat else Taken(fat[c := FREE_CLUSTER]) < Taken(fat)
  {
    FreeBelowUpdate(fat, c, FREE_CLUSTER, |fat|);
  }

  // Exactly the links of the chain are cleared.
  ghost predicate Cleared(fat: seq<nat>, fat': seq<nat>, ch: seq<nat>) {
    |fat'| == |fat| && forall c :: 0 <= c < |fat| ==> fat'[c] == if c in ch then FREE_CLUSTER else fat[c]
  }

  lemma ClearedMore(fat: seq<nat>, fat': seq<nat>, ch: seq<nat>)
    requires ch != [] && 2 <= ch[0] < |fat| && Cleared(fat[ch[0] := FREE_CLUSTER], fat', ch[1..])
    ensures Cleared(fat, fat', ch)
  {
    assert ch == [ch[0]] + ch[1..];
  }

  lemma TailAfterFree(fat: seq<nat>, ch: seq<nat>)
    requires Sized(fat) && IsChain(fat, ch) && |ch| > 1
    ensures fat[ch[0]] == ch[1] && IsChain(fat[ch[0] := FREE_CLUSTER], ch[1..])
  {
    ChainAcyclic(fat, ch);
    ChainTail(fat, ch);
    ChainFrame(fat, fat[ch[0] := FREE_CLUSTER], ch[1..]);
  }

  // On a proper chain the walk frees exactly that chain and counts it.
  lemma {:induction false} FreeWalkChain(fat: seq<nat>, ch: seq<nat>)
    requires Sized(fat) && IsChain(fat, ch)
    ensures var r := FreeWalk(fat, ch[0]);
            && r.ok && r.count == |ch| && Cleared(fat, r.fat, ch)
            && FreeClusters(r.fat) == FreeClusters(fat) + |ch|
    decreases |ch|
  {
    var fat1 := fat[ch[0] := FREE_CLUSTER];
    FreeBelowUpdate(fat, ch[0], FREE_CLUSTER, |fat|);
    NotFreeInChain(fat, ch);
    assert ch[0] in ch;
    ChainInRange(fat, ch);
    FreeWalkStep(fat, ch[0]);
    if |ch| == 1 {
      assert FreeWalk(fat1, fat[ch[0]]) == Freed(fat1, 0, true);
    } else {
      hide FreeWalk, FreeBelow, IsChain, Cleared;
      TailAfterFree(fat, ch);
      FreeWalkChain(fat1, ch[1..]);
      ClearedMore(fat, FreeWalk(fat, ch[0]).fat, ch);
    }
  }

  // Over any table at all the walk only ever clears links.
  lemma {:induction false} FreeWalkClears(fat: seq<nat>, c: nat)
    ensures forall k :: 0 <= k < |fat| ==> FreeWalk(fat, c).fat[k] in {fat[k], FREE_CLUSTER}
    decreases Taken(fat), 2 <= c < EOC_MIN
  {
    if 2 <= c < EOC_MIN && c < |fat| {
      FreeBelowUpdate(fat, c, FREE_CLUSTER, |fat|);
      FreeWalkClears(fat[c := FREE_CLUSTER], fat[c]);
    }
  }
}
