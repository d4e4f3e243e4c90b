/**
 Files by name in one directory: creating, writing and deleting them, and when every entry of the
 directory keeps a chain of clusters of its own.
 */
module Fat32Named {
  import opened Basics
  import opened Fat32Disk
  import opened Fat32Chains
  import opened Fat32Files
  import opened Fat32Names
  import opened Fat32Dir
  import opened Fat32Volume
  import opened Fat32Run
  import opened Fat32DirOps
  import opened Fat32Unlink

  // ----- ownership -----

  // The first cluster in the entry is that of chain f, or 0 if f is empty.
  predicate HeadOf(e: Slot, f: seq<nat>) { FirstCluster(e) == if f == [] then 0 else f[0] }

  ghost predicate Apart(a: seq<nat>, b: seq<nat>) { forall c :: c in a ==> c !in b }

  // Entry p of the directory `all` heads chain files[p], which is disjoint from the directory's
  // own chain and from those of the other entries.
  ghost predicate OwnedBy(fat: seq<nat>, ch: seq<nat>, all: seq<Slot>, files: seq<seq<nat>>, p: int)
    requires |files| == |all| && 0 <= p < |all|
  {
    && IsFile(fat, files[p]) && HeadOf(all[p], files[p]) && Apart(files[p], ch)
    && forall t :: 0 <= t < |all| && t != p && IsEntry(all[t]) ==> Apart(files[t], files[p])
  }

  ghost predicate Owned(fat: seq<nat>, ch: seq<nat>, all: seq<Slot>, files: seq<seq<nat>>) {
    && Sized(fat) && IsChain(fat, ch) && |files| == |all|
    && forall p :: 0 <= p < |all| && IsEntry(all[p]) ==> OwnedBy(fat, ch, all, files, p)
  }

  // ----- creating -----

  // The chains after an entry without clusters went to slot p of the directory, or to the first
  // of m slots added to it.
  function WithEmpty(files: seq<seq<nat>>, p: nat, m: nat): seq<seq<nat>> {
    if p < |files| then files[p := []] else files + seq(m, i => [])
  }

  lemma PutEmpty(fat: seq<nat>, ch: seq<nat>, all: seq<Slot>, files: seq<seq<nat>>, p: nat, e: Slot)
    requires Owned(fat, ch, all, files) && p < |all| && FirstCluster(e) == 0
    ensures Owned(fat, ch, all[p := e], files[p := []])
  {
    hide IsChain, FirstCluster, IsEntry;
    var all', files' := all[p := e], files[p := []];
    forall t | 0 <= t < |all| && IsEntry(all'[t]) ensures OwnedBy(fat, ch, all', files', t) {
      if t != p { assert OwnedBy(fat, ch, all, files, t); }
    }
  }

  // Slots that hold no entry can be added with any chains.
  lemma AddSlots(fat: seq<nat>, ch: seq<nat>, all: seq<Slot>, files: seq<seq<nat>>, m: nat)
    requires Owned(fat, ch, all, files)
    ensures Owned(fat, ch, all + Blank(m), files + seq(m, i => []))
  {
    hide IsChain, FirstCluster, Blank;
    var all', files' := all + Blank(m), files + seq(m, i => []);
    forall t | |all| <= t < |all'| ensures !IsEntry(all'[t]) { assert all'[t] == Blank(m)[t - |all|]; }
    forall t | 0 <= t < |all| && IsEntry(all[t]) ensures OwnedBy(fat, ch, all', files', t) {
      assert OwnedBy(fat, ch, all, files, t);
    }
  }

  // A cluster added to the directory is nobody's.
  lemma GrowDirectory(s: FatState, ch: seq<nat>, all: seq<Slot>, files: seq<seq<nat>>)
    requires Owned(s.fat, ch, all, files)
    ensures ch != [] && 2 <= ch[|ch| - 1] < |s.fat|
    ensures var r := Append(s, ch); Owned(r.s.fat, r.ch, all, files)
  {
    hide Append, FirstCluster, IsEntry, IsChain;
    ChainInRange(s.fat, ch);
    AppendKeeps(s, ch);
    var r := Append(s, ch);
    AppendNonEmpty(s, ch);
    forall t | 0 <= t < |all| && IsEntry(all[t]) ensures OwnedBy(r.s.fat, r.ch, all, files, t) {
      assert OwnedBy(s.fat, ch, all, files, t);
      AppendSparesFile(s, ch, files[t]);
    }
  }

  lemma AppendNonEmpty(s: FatState, ch: seq<nat>)
    requires 2 <= |s.fat| && ch != [] && 2 <= ch[|ch| - 1] < |s.fat|
    ensures Append(s, ch).ch != []
  {}

  lemma AppendSparesFile(s: FatState, ch: seq<nat>, f: seq<nat>)
    requires Sized(s.fat) && IsChain(s.fat, ch) && IsFile(s.fat, f) && Apart(f, ch)
    ensures var r := Append(s, ch); IsFile(r.s.fat, f) && Apart(f, r.ch)
  {
    hide Append, IsChain;
    ChainInRange(s.fat, ch);
    AppendKeeps(s, ch);
    NotFreeInChain(s.fat, f);
    FileInRange(s.fat, f);
    var r := Append(s, ch);
    forall i | 0 <= i < |r.ch| ensures r.ch[i] !in f {
      if i < |ch| { assert r.ch[i] == ch[i] && ch[i] in ch; }
    }
    forall i | 0 <= i < |f| ensures r.s.fat[f[i]] == s.fat[f[i]] { assert f[i] in f; }
    ChainFrame(s.fat, r.s.fat, f);
  }

  // Creating keeps every chain its entry's own; the new entry has none.
  lemma CreateOwned(s: FatState, data: seq<seq<byte>>, ch: seq<nat>, e: Slot, m: nat,
                    s': FatState, data': seq<seq<byte>>, ch': seq<nat>, ok: bool, files: seq<seq<nat>>)
    requires Created(s, data, ch, e, m, s', data', ch', ok) && FirstCluster(e) == 0
    requires Owned(s.fat, ch, Directory(data, ch), files)
    ensures Owned(s'.fat, ch', Directory(data', ch'),
                  if ok then WithEmpty(files, Fat32Dir.FirstFree(Directory(data, ch), 0), m) else files)
  {
    hide Directory, Append, FirstCluster, IsChain, Owned, Blank, Fat32Dir.FirstFree;
    var all := Directory(data, ch);
    OwnedSizes(s.fat, ch, all, files);
    var p := Fat32Dir.FirstFree(all, 0);
    if p < |all| {
      PutEmpty(s.fat, ch, all, files, p, e);
    } else {
      GrowDirectory(s, ch, all, files);
      AppendKeeps(s, ch);
      if ok {
        AddSlots(s'.fat, ch', all, files, m);
        var more, none := all + Blank(m), files + seq(m, i => []);
        PutEmpty(s'.fat, ch', more, none, |all|, e);
        assert more[|all| := e] == all + Blank(m)[0 := e];
        assert none[|all| := []] == none;
      }
    }
  }

  lemma OwnedSizes(fat: seq<nat>, ch: seq<nat>, all: seq<Slot>, files: seq<seq<nat>>)
    requires Owned(fat, ch, all, files)
    ensures |files| == |all| && Sized(fat) && IsChain(fat, ch)
  {}

  // ----- deleting -----

  // Freeing the chain of entry p leaves the other chains.
  lemma FreeOwned(s: FatState, ch: seq<nat>, all: seq<Slot>, files: seq<seq<nat>>, p: nat, t: nat)
    requires Owned(s.fat, ch, all, files) && p < |all| && IsEntry(all[p]) && t < |all| && t != p && IsEntry(all[t])
    ensures var s' := AfterFree(s, FirstCluster(all[p]));
            IsFile(s'.fat, files[t]) && |s'.fat| == |s.fat| && IsChain(s'.fat, ch)
  {
    hide FreeWalk, IsChain, IsEntry, FirstCluster, FreeBelow;
    assert OwnedBy(s.fat, ch, all, files, p) && OwnedBy(s.fat, ch, all, files, t);
    ChainInRange(s.fat, ch);
    if files[p] != [] {
      FileInRange(s.fat, files[p]);
      AfterFreeKeeps(s, files[p], files[t]);
      AfterFreeKeeps(s, files[p], ch);
    }
  }

  // What marking slots j..q leaves: the other entries, as they were.
  lemma MarkedEntries(all: seq<Slot>, j: nat, q: nat, t: nat)
    requires j <= q < |all| && t < |all|
    ensures IsEntry(MarkDeleted(all, j, q)[t]) <==> IsEntry(all[t]) && !(j <= t <= q)
    ensures !(j <= t <= q) ==> MarkDeleted(all, j, q)[t] == all[t]
  {}

  lemma MarkOwned(s: FatState, ch: seq<nat>, all: seq<Slot>, files: seq<seq<nat>>, j: nat, q: nat, p: nat)
    requires Owned(s.fat, ch, all, files) && j <= q < |all| && p < |all| && IsEntry(all[p])
    requires files[p] == [] || j <= p <= q
    ensures Owned(AfterFree(s, FirstCluster(all[p])).fat, ch, MarkDeleted(all, j, q), files)
  {
    hide AfterFree, IsChain, IsEntry, FirstCluster, MarkDeleted;
    var s', all' := AfterFree(s, FirstCluster(all[p])), MarkDeleted(all, j, q);
    assert OwnedBy(s.fat, ch, all, files, p);
    if files[p] == [] { FreeNothing(s); } else { FreeOwn(s, files[p], ch); }
    forall t | 0 <= t < |all| && IsEntry(all'[t]) ensures OwnedBy(s'.fat, ch, all', files, t) {
      MarkedEntries(all, j, q, t);
      assert OwnedBy(s.fat, ch, all, files, t);
      if files[p] != [] { FreeOwned(s, ch, all, files, p, t); }
      forall u | 0 <= u < |all| && u != t && IsEntry(all'[u]) ensures Apart(files[u], files[t]) {
        MarkedEntries(all, j, q, u);
      }
    }
  }

  lemma FreeNothing(s: FatState)
    ensures AfterFree(s, 0) == s
  {}

  lemma FreeOwn(s: FatState, f: seq<nat>, ch: seq<nat>)
    requires Sized(s.fat) && IsChain(s.fat, f) && IsChain(s.fat, ch) && Apart(f, ch)
    ensures var s' := AfterFree(s, f[0]); |s'.fat| == |s.fat| && IsChain(s'.fat, ch)
  {
    hide IsChain, FreeWalk, FreeBelow;
    ChainInRange(s.fat, ch);
    AfterFreeKeeps(s, f, ch);
  }

  // An entry whose clusters were freed heads no chain.
  lemma FreedHeadsNothing(s: FatState, f: seq<nat>, f': seq<nat>)
    requires Sized(s.fat) && IsChain(s.fat, f) && f' != [] && f'[0] == f[0]
    ensures !IsChain(AfterFree(s, f[0]).fat, f')
  {
    hide FreeWalk;
    ChainInRange(s.fat, f);
    FreeWalkChain(s.fat, f);
    assert f[0] in f;
  }

  // A delete by name leaves every entry a chain of its own exactly if the slot it marks is the
  // entry's, or the file has no clusters.
  lemma DeleteOwnedIff(s: FatState, data: seq<seq<byte>>, ch: seq<nat>, name: Name, m: nat,
                       s': FatState, data': seq<seq<byte>>, files: seq<seq<nat>>)
    requires Unlinked(s, data, ch, name, m, s', data', true) && Owned(s.fat, ch, Directory(data, ch), files)
    ensures var all := Directory(data, ch);
            var p := Lookup(all, name).value;
            && p < |files|
            && ((exists files' :: Owned(s'.fat, ch, Directory(data', ch), files')) <==>
                FirstMatch(all, 0, Short(all[p])) == p || files[p] == [])
  {
    hide Directory, Find, AfterFree, IsChain, FirstCluster, MarkDeleted, Short, FirstMatch, RunStart, ClusterStart;
    var all, all' := Directory(data, ch), Directory(data', ch);
    var p := Lookup(all, name).value;
    var q := FirstMatch(all, 0, Short(all[p]));
    var j := RunStart(all, ClusterStart(q, m), q);
    EntryMatches(all, p);
    if q == p || files[p] == [] {
      MarkOwned(s, ch, all, files, j, q, p);
    } else {
      assert OwnedBy(s.fat, ch, all, files, p);
      MarkedEntries(all, j, q, p);
      forall files' ensures !Owned(s'.fat, ch, all', files') {
        if Owned(s'.fat, ch, all', files') {
          assert OwnedBy(s'.fat, ch, all', files', p);
          FileInRange(s.fat, files[p]);
          FreedHeadsNothing(s, files[p], files'[p]);
        }
      }
    }
  }

  // An entry shares its short name with itself at least.
  lemma EntryMatches(all: seq<Slot>, p: nat)
    requires p < |all| && IsEntry(all[p])
    ensures FirstMatch(all, 0, Short(all[p])) <= p
  {
    assert Matches(all[p], Short(all[p]));
  }

  // ----- updating an entry -----

  function FileSize(s: Slot): nat { Le32(s, 28) }

  // An entry with another first cluster, size, attribute and write time.
  function Updated(s: Slot, attr: byte, first: nat, size: nat, date: nat, time: nat): (r: Slot)
    requires first < WORD_SPAN && size < WORD_SPAN && date < 0x1_0000 && time < 0x1_0000
  {
    s[..11] + [attr] + s[12..20] + Le16(first / 0x1_0000) + Le16(time) + Le16(date) + Le16(first % 0x1_0000)
    + PutLe32(Zeros(4), 0, size)
  }

  lemma UpdatedFields(s: Slot, attr: byte, first: nat, size: nat, date: nat, time: nat)
    requires first < WORD_SPAN && size < WORD_SPAN && date < 0x1_0000 && time < 0x1_0000
    ensures var r := Updated(s, attr, first, size, date, time);
            && Short(r) == Short(s) && Attr(r) == attr && FirstCluster(r) == first && FileSize(r) == size
            && r[0] == s[0] && IsFree(r) == IsFree(s)
  {
    var r, tail := Updated(s, attr, first, size, date, time), PutLe32(Zeros(4), 0, size);
    assert r[28..] == tail;
    hide PutLe32;
    assert Unit(r, 20) == first / 0x1_0000 && Unit(r, 26) == first % 0x1_0000;
    assert forall i :: 0 <= i < 4 ==> r[28 + i] == tail[i];
  }

  // Puts a slot in the place of the first one that shares the short name.
  method UpdateEntry(v: Volume, dir: nat, entry: Slot, first: nat, size: nat, date: nat, time: nat, ghost ch: seq<nat>,
                     ghost p: nat)
    requires v.Valid() && IsChain(v.State().fat, ch) && ch[0] == dir
    requires first < WORD_SPAN && size < WORD_SPAN && date < 0x1_0000 && time < 0x1_0000
    requires var all := Directory(v.Data(), ch);
             p < |all| && Matches(all[p], Short(entry)) && forall t :: 0 <= t <= p ==> !IsEnd(all[t])
    modifies v, v.disk
    ensures v.Valid() && v.Intact(old(v.disk[..])) && v.State() == old(v.State()) && |v.Data()| == |old(v.Data())|
    ensures forall i :: 0 <= i < |ch| ==> ch[i] < |v.Data()|
    ensures forall c :: 0 <= c < |v.Data()| && c !in ch ==> v.Data()[c] == old(v.Data())[c]
    ensures var all := old(Directory(v.Data(), ch));
            var q := FirstMatch(all, 0, Short(entry));
            q < |all| && Directory(v.Data(), ch) == all[q := Updated(all[q], Attr(entry), first, size, date, time)]
  {
    hide Links, Clusters, TopBits, Mirrored, IsChain, Bytes, Directory, SlotsOf, PerCluster, DirReady;
    hide Matches, FirstMatch, Updated, Short, Splice, IsEnd, Geometry.ClusterAddr, Geometry.FatBase;
    DirIsReady(v, ch);
    ChainInRange(v.State().fat, ch);
    StateSized(v);
    ChainAcyclic(v.State().fat, ch);
    ghost var data, m := v.Data(), PerCluster(v.g);
    ghost var k;
    var current, buf, i;
    current, buf, i, k := FindMatch(v, dir, Short(entry), ch, p);
    SlotAtHand(data, ch, m, k, i);
    var slot := SlotIn(buf, i);
    var slot' := Updated(slot, Attr(entry), first, size, date, time);
    SlotPut(data, ch, slot', m, k, i);
    assert current in ch;
    var _ := v.WriteCluster(current, Splice(buf, SLOT * i, slot'));
  }

  // Slot i of cluster number k, as a slot of the cluster and of the directory.
  lemma SlotAtHand(data: seq<seq<byte>>, ch: seq<nat>, m: nat, k: nat, i: nat)
    requires DirReady(data, ch, m) && k < |ch| && i < m
    ensures ch[k] < |data| && |data[ch[k]]| % SLOT == 0 && i < |data[ch[k]]| / SLOT == |SlotsOf(data[ch[k]])| == m
    ensures Bytes(k, m) + i < |Directory(data, ch)| && Directory(data, ch)[Bytes(k, m) + i] == SlotsOf(data[ch[k]])[i]
  {
    hide Bytes, Directory, SlotsOf, PartOf;
    DirectoryPart(data, ch, m, k);
    PartAt(Directory(data, ch), Bytes(k, m), SlotsOf(data[ch[k]]), i);
  }

  method SlotIn(buf: seq<byte>, i: nat) returns (slot: Slot)
    requires i < |buf| / SLOT
    ensures i < |SlotsOf(buf)| && slot == SlotsOf(buf)[i]
  {
    slot := buf[SLOT * i..SLOT * i + SLOT];
  }

  // ----- writing by name -----

  function Head(f: seq<nat>): nat { if f == [] then 0 else f[0] }

  // Whether the entry has to be updated after r bytes were written at `off`.
  predicate Changes(e: Slot, f': seq<nat>, off: nat, r: int) {
    r > 0 && (off + r > FileSize(e) || FirstCluster(e) != Head(f'))
  }

  function NewSize(e: Slot, off: nat, r: int): int { if off + r > FileSize(e) then off + r else FileSize(e) }

  // The chain of a file and the FAT after a write to it.
  ghost predicate Extended(s: FatState, f: seq<nat>, off: nat, buf: seq<byte>, n: nat, s': FatState, f': seq<nat>,
                           r: int) {
    && n > 0 && 2 <= |s.fat| && (forall i :: 0 <= i < |f| ==> 2 <= f[i] < |s.fat|)
    && if buf == [] then s' == s && f' == f && r == 0
       else
         var grown := GrowTo(s, f, ClustersFor(off + |buf|, n));
         s' == grown.s && f' == grown.ch && r == if grown.ok then |buf| else -1
  }

  // The directory after the write: the first slot with the short name is updated if need be.
  ghost predicate Entered(all: seq<Slot>, all': seq<Slot>, p: nat, f': seq<nat>, off: nat, r: int, date: nat, time: nat)
    requires p < |all| && date < 0x1_0000 && time < 0x1_0000
  {
    if Changes(all[p], f', off, r) then
      var q := FirstMatch(all, 0, Short(all[p]));
      && q < |all| && Head(f') < WORD_SPAN && NewSize(all[p], off, r) < WORD_SPAN
      && all' == all[q := Updated(all[q], Attr(all[p]), Head(f'), NewSize(all[p], off, r), date, time)]
    else all' == all
  }

  // A write by name to a file of the directory whose chain is f.
  ghost predicate NamedWritten(s: FatState, data: seq<seq<byte>>, ch: seq<nat>, name: Name, off: nat, buf: seq<byte>,
                               n: nat,
                               date: nat, time: nat, f: seq<nat>, s': FatState, data': seq<seq<byte>>, f': seq<nat>, r: int)
    requires date < 0x1_0000 && time < 0x1_0000
  {
    && |data'| == |data|
    && (forall i :: 0 <= i < |ch| ==> ch[i] < |data|) && (forall i :: 0 <= i < |f'| ==> f'[i] < |data|)
    && (forall c :: 0 <= c < |data| && c !in ch && c !in f' ==> data'[c] == data[c])
    && var all := Directory(data, ch);
       var look := Lookup(all, name);
       if look.None? || IsDirectory(all[look.value]) then r == -1 && s' == s && data' == data && f' == f
       else
         && Extended(s, f, off, buf, n, s', f', r)
         && Entered(all, Directory(data', ch), look.value, f', off, r, date, time)
         && (r > 0 ==> off + r <= |Flat(data', f')| && Flat(data', f')[off..off + r] == buf)
  }

  // f is the chain of the file that goes by the name, if there is one.
  ghost predicate Holds(s: FatState, data: seq<seq<byte>>, ch: seq<nat>, name: Name, f: seq<nat>)
    requires forall i :: 0 <= i < |ch| ==> ch[i] < |data|
  {
    var all := Directory(data, ch);
    var look := Lookup(all, name);
    IsFile(s.fat, f) && Apart(f, ch) && (look.Some? ==> HeadOf(all[look.value], f))
  }

  lemma FileBelowSpan(v: Volume, f: seq<nat>)
    requires v.Valid() && IsFile(v.State().fat, f)
    ensures Bytes(|f|, v.g.ClusterBytes()) < WORD_SPAN && Head(f) < WORD_SPAN
  {
    hide Links, IsChain, Bytes, Geometry.ClusterAddr, Geometry.FatBase, Geometry.ClusterBytes;
    StateSized(v);
    ChainBound(v.State().fat, f);
    FileInRange(v.State().fat, f);
    AddrCovers(v.g, v.g.Limit());
    BytesMono(|f|, v.g.clusters, v.g.ClusterBytes());
  }

  // The clusters before an address are below it.
  lemma {:induction false} AddrCovers(g: Geometry, c: nat)
    requires c >= 2
    ensures g.ClusterAddr(c) >= Bytes(c - 2, g.ClusterBytes())
  {
    hide Bytes;
    if c == 2 {
      BytesZero(g.ClusterBytes());
    } else {
      AddrCovers(g, c - 1);
      BytesNext(c - 3, g.ClusterBytes());
    }
  }

  // The data part of a write spares the directory.
  lemma WriteSparesDirectory(s: FatState, data: seq<seq<byte>>, ch: seq<nat>, f: seq<nat>, off: nat, buf: seq<byte>,
                             n: nat,
                             s': FatState, data': seq<seq<byte>>, f': seq<nat>, r: int, written: nat)
    requires Sized(s.fat) && IsChain(s.fat, ch) && IsFile(s.fat, f) && Apart(f, ch)
             && Extended(s, f, off, buf, n, s', f', r)
    requires written <= |buf| && Written(data, data', f', n, off, buf[..written])
    requires forall i :: 0 <= i < |ch| ==> ch[i] < |data|
    ensures IsChain(s'.fat, ch) && IsFile(s'.fat, f') && Apart(f', ch) && |s'.fat| == |s.fat|
    ensures |data'| == |data| && Directory(data', ch) == Directory(data, ch)
  {
    hide GrowTo, IsChain, SlotsOf, ClustersFor;
    var need := ClustersFor(off + |buf|, n);
    forall c | c in ch ensures c !in f {}
    GrowKeepsOther(s, f, need, ch);
    GrowToKeeps(s, f, need);
    forall c | c in f' ensures c !in ch {}
    forall i | 0 <= i < |ch| ensures data'[ch[i]] == data[ch[i]] { assert ch[i] in ch; }
    FlatFrame(data, data', ch);
  }

  // The data part of fat32_vfs_write.
  method WriteBytes(v: Volume, entry: Slot, off: nat, buf: seq<byte>, ghost ch: seq<nat>, ghost f: seq<nat>)
    returns (r: int, first: nat, ghost f': seq<nat>)
    requires v.Valid() && IsChain(v.State().fat, ch) && IsFile(v.State().fat, f) && Apart(f, ch) && HeadOf(entry, f)
    modifies v, v.disk
    ensures v.Valid() && v.Intact(old(v.disk[..])) && |v.Data()| == |old(v.Data())|
    ensures Extended(old(v.State()), f, off, buf, v.g.ClusterBytes(), v.State(), f', r)
    ensures IsChain(v.State().fat, ch) && IsFile(v.State().fat, f') && Apart(f', ch) && first == Head(f') < WORD_SPAN
    ensures (forall i :: 0 <= i < |ch| ==> ch[i] < |v.Data()|) && (forall i :: 0 <= i < |f'| ==> f'[i] < |v.Data()|)
    ensures Directory(v.Data(), ch) == old(Directory(v.Data(), ch))
    ensures forall c :: 0 <= c < |v.Data()| && c !in f' ==> v.Data()[c] == old(v.Data())[c]
    ensures r > 0 ==> off + r <= |Flat(v.Data(), f')| < WORD_SPAN && Flat(v.Data(), f')[off..off + r] == buf
  {
    hide Links, Clusters, TopBits, Mirrored, IsChain, Flat, Bytes, Directory, FirstCluster, GrowTo, ClustersFor,
         Written;
    StateSized(v);
    ghost var s, data, n := v.State(), v.Data(), v.g.ClusterBytes();
    ChainInRange(s.fat, ch);
    FileInRange(s.fat, f);
    ghost var written;
    r, first, f', written := v.WriteFileData(FirstCluster(entry), off, buf, f);
    WriteSparesDirectory(s, data, ch, f, off, buf, n, v.State(), v.Data(), f', r, written);
    FileInRange(v.State().fat, f');
    FileBelowSpan(v, f');
    WrittenFrame(data, v.Data(), f', n, off, buf[..written]);
    if r > 0 {
      assert buf[..written] == buf;
      WrittenReadsBack(data, v.Data(), f', n, off, buf);
    }
  }

  lemma WrittenFrame(data0: seq<seq<byte>>, data: seq<seq<byte>>, f: seq<nat>, n: nat, off: nat, done: seq<byte>)
    requires Written(data0, data, f, n, off, done)
    ensures forall i :: 0 <= i < |f| ==> f[i] < |data|
    ensures |data| == |data0| && forall c :: 0 <= c < |data| && c !in f ==> data[c] == data0[c]
    ensures |Flat(data, f)| == Bytes(|f|, n)
  {
    hide Flat, Bytes;
    FlatLength(data, f, n);
  }

  // Opening a file by name and writing to it: fat32_find_in_dir, then fat32_vfs_write. `f'` is
  // the chain of the file afterwards.
  method WriteNamed(v: Volume, dir: nat, name: Name, off: nat, buf: seq<byte>, date: nat, time: nat, ghost ch: seq<nat>,
                    ghost f: seq<nat>)
    returns (r: int, ghost f': seq<nat>)
    requires v.Valid() && dir >= 2 && IsChain(v.State().fat, ch) && ch[0] == dir && date < 0x1_0000 && time < 0x1_0000
    requires Holds(v.State(), v.Data(), ch, name, f)
    modifies v, v.disk
    ensures v.Valid() && v.Intact(old(v.disk[..]))
    ensures NamedWritten(old(v.State()), old(v.Data()), ch, name, off, buf, v.g.ClusterBytes(), date, time,
                         f, v.State(), v.Data(), f', r)
  {
    hide Links, Clusters, TopBits, Mirrored, IsChain, Flat, Bytes, Directory, FirstCluster, FileSize, Updated, Short,
         Attr, IsEntry;
    hide Extended, FirstMatch, Find, IsDirectory, IsEnd;
    ChainInRange(v.State().fat, ch);
    FileInRange(v.State().fat, f);
    DirIsReady(v, ch);
    ghost var data, all := v.Data(), Directory(v.Data(), ch);
    f' := f;
    var found, entry := FindInDir(v, dir, name, ch);
    if !found { return -1, f; }
    if IsDirectory(entry) { return -1, f; }
    ghost var p := Lookup(all, name).value;
    FindNoEnd(all, 0, NO_LFN, name);
    FoundMatches(all, name);
    var first;
    r, first, f' := WriteBytes(v, entry, off, buf, ch, f);
    ghost var mid := v.Data();
    if r > 0 && (off + r > FileSize(entry) || FirstCluster(entry) != first) {
      var size := if off + r > FileSize(entry) then off + r else FileSize(entry);
      UpdateEntry(v, dir, entry, first, size, date, time, ch, p);
      StillFlat(mid, v.Data(), ch, f');
    }
  }

  lemma FoundMatches(all: seq<Slot>, name: Name)
    requires Lookup(all, name).Some?
    ensures var p := Lookup(all, name).value;
            p < |all| && Matches(all[p], Short(all[p])) && FileSize(all[p]) < WORD_SPAN
  {}

  lemma StillFlat(mid: seq<seq<byte>>, data: seq<seq<byte>>, ch: seq<nat>, f: seq<nat>)
    requires |data| == |mid| && (forall c :: 0 <= c < |mid| && c !in ch ==> data[c] == mid[c]) && Apart(f, ch)
    requires forall i :: 0 <= i < |f| ==> f[i] < |mid|
    ensures Flat(data, f) == Flat(mid, f)
  {
    forall i | 0 <= i < |f| ensures data[f[i]] == mid[f[i]] { assert f[i] in f; }
    FlatFrame(mid, data, f);
  }

  // ----- what a write does to ownership -----

  // The chain the entry should head after a write. A write that fails on a file without clusters
  // does not enter those it may have allocated.
  function Kept(f: seq<nat>, f': seq<nat>, r: int): seq<nat> { if r > 0 || f != [] then f' else [] }

  lemma ExtendedKeeps(s: FatState, f: seq<nat>, off: nat, buf: seq<byte>, n: nat, s': FatState, f': seq<nat>, r: int)
    requires Sized(s.fat) && IsFile(s.fat, f) && Extended(s, f, off, buf, n, s', f', r)
    ensures |s'.fat| == |s.fat| && IsFile(s'.fat, f') && (f != [] ==> f' != [] && f'[0] == f[0]) && (r > 0 ==> f' != [])
  {
    hide GrowTo, IsChain, ClustersFor;
    if buf != [] {
      GrowToKeeps(s, f, ClustersFor(off + |buf|, n));
      WriteNeeds(off, |buf|, off / n, off % n, n);
    }
  }

  lemma ExtendedSpares(s: FatState, f: seq<nat>, off: nat, buf: seq<byte>, n: nat, s': FatState, f': seq<nat>, r: int,
                       g: seq<nat>)
    requires Sized(s.fat) && IsFile(s.fat, f) && Extended(s, f, off, buf, n, s', f', r) && IsFile(s.fat, g)
             && Apart(g, f)
    ensures IsFile(s'.fat, g) && Apart(g, f')
  {
    hide GrowTo, IsChain, ClustersFor;
    if g != [] { GrowKeepsOther(s, f, if buf == [] then 0 else ClustersFor(off + |buf|, n), g); }
  }

  // Entry p is right after the write, and all others are as before.
  lemma EnteredOwned(s: FatState, ch: seq<nat>, all: seq<Slot>, files: seq<seq<nat>>, p: nat, off: nat, buf: seq<byte>,
                     n: nat,
                     s': FatState, f': seq<nat>, r: int, all': seq<Slot>)
    requires Owned(s.fat, ch, all, files) && p < |all| && IsEntry(all[p])
             && Extended(s, files[p], off, buf, n, s', f', r)
    requires |all'| == |all| && (forall t :: 0 <= t < |all| && t != p ==> all'[t] == all[t])
             && HeadOf(all'[p], Kept(files[p], f', r))
    ensures Owned(s'.fat, ch, all', files[p := Kept(files[p], f', r)])
  {
    hide Extended, IsChain, FirstCluster, IsEntry;
    var files' := files[p := Kept(files[p], f', r)];
    assert OwnedBy(s.fat, ch, all, files, p);
    ChainInRange(s.fat, ch);
    ExtendedKeeps(s, files[p], off, buf, n, s', f', r);
    forall c | c in ch ensures c !in files[p] {}
    ExtendedSpares(s, files[p], off, buf, n, s', f', r, ch);
    forall t | 0 <= t < |all| && t != p && IsEntry(all[t]) ensures OwnedBy(s'.fat, ch, all', files', t) && Apart(files[t], f') {
      assert OwnedBy(s.fat, ch, all, files, t);
      ExtendedSpares(s, files[p], off, buf, n, s', f', r, files[t]);
      forall c | c in f' ensures c !in files[t] {}
    }
  }

  // No two entries name the same cluster.
  lemma OneHead(fat: seq<nat>, ch: seq<nat>, all: seq<Slot>, files: seq<seq<nat>>, p: nat, q: nat)
    requires |files| == |all| && p < |all| && q < |all| && p != q && IsEntry(all[p]) && IsEntry(all[q])
             && files[p] != []
    ensures Owned(fat, ch, all, files) ==> FirstCluster(all[q]) != Head(files[p])
  {
    hide FirstCluster, IsEntry, IsChain;
    if Owned(fat, ch, all, files) {
      assert OwnedBy(fat, ch, all, files, q);
      assert OwnedBy(fat, ch, all, files, p);
      FileInRange(fat, files[p]);
      assert files[p][0] !in files[q];
    }
  }

  // After a write by name, each entry heads the chain it should exactly if the entry needed no
  // update or the slot updated is its own.
  lemma WriteOwnedIff(s: FatState, data: seq<seq<byte>>, ch: seq<nat>, name: Name, off: nat, buf: seq<byte>, n: nat,
                      date: nat, time: nat, s': FatState, data': seq<seq<byte>>, f': seq<nat>, r: int,
                      files: seq<seq<nat>>, p: nat)
    requires date < 0x1_0000 && time < 0x1_0000 && forall i :: 0 <= i < |ch| ==> ch[i] < |data|
    requires Owned(s.fat, ch, Directory(data, ch), files)
    requires var all := Directory(data, ch); Lookup(all, name) == Some(p) && !IsDirectory(all[p])
    requires NamedWritten(s, data, ch, name, off, buf, n, date, time, files[p], s', data', f', r)
    ensures var all := Directory(data, ch);
            Owned(s'.fat, ch, Directory(data', ch), files[p := Kept(files[p], f', r)]) <==>
            !Changes(all[p], f', off, r) || FirstMatch(all, 0, Short(all[p])) == p
  {
    hide Directory, Find, Flat, Extended, IsChain, FirstCluster, IsEntry, Short, FirstMatch, Updated, Attr, FileSize,
         IsDirectory, Owned;
    var all, all' := Directory(data, ch), Directory(data', ch);
    var q := FirstMatch(all, 0, Short(all[p]));
    OwnedSizes(s.fat, ch, all, files);
    OwnedEntry(s.fat, ch, all, files, p);
    ExtendedKeeps(s, files[p], off, buf, n, s', f', r);
    EntryMatches(all, p);
    if !Changes(all[p], f', off, r) {
      EnteredOwned(s, ch, all, files, p, off, buf, n, s', f', r, all');
    } else {
      UpdatedEntry(all[q], all[p], Head(f'), NewSize(all[p], off, r), date, time);
      if q == p {
        EnteredOwned(s, ch, all, files, p, off, buf, n, s', f', r, all');
      } else {
        OneHead(s'.fat, ch, all', files[p := f'], p, q);
      }
    }
  }

  // In a directory [label, file] with the same 11 bytes, the first write to the file turns the
  // label into an entry with its clusters and leaves the file empty.
  lemma WriteEntersLabel(e: Slot, name: Name, c: nat, r: nat, date: nat, time: nat, all': seq<Slot>)
    requires IsEntry(e) && SameName(name, Display(Short(e))) && FirstCluster(e) == 0
    requires 2 <= c < WORD_SPAN && 0 < r < WORD_SPAN && date < 0x1_0000 && time < 0x1_0000
    requires Entered([e[11 := 0x08], e], all', 1, [c], 0, r, date, time)
    ensures Lookup([e[11 := 0x08], e], name) == Some(1)
    ensures |all'| == 2 && IsEntry(all'[0]) && FirstCluster(all'[0]) == c && all'[1] == e
  {
    hide Updated, Display, SameName, Short, FirstMatch, Find, FirstCluster, FileSize;
    var tag: Slot := e[11 := 0x08];
    DeleteTakesLabel(e, name);
    UpdatedFields(tag, Attr(e), c, NewSize(e, 0, r), date, time);
  }

  lemma OwnedEntry(fat: seq<nat>, ch: seq<nat>, all: seq<Slot>, files: seq<seq<nat>>, p: nat)
    requires Owned(fat, ch, all, files) && p < |all| && IsEntry(all[p])
    ensures IsFile(fat, files[p]) && HeadOf(all[p], files[p]) && Apart(files[p], ch)
  {
    assert OwnedBy(fat, ch, all, files, p);
  }

  // A slot in use that is updated from an entry is one itself.
  lemma UpdatedEntry(s: Slot, e: Slot, first: nat, size: nat, date: nat, time: nat)
    requires first < WORD_SPAN && size < WORD_SPAN && date < 0x1_0000 && time < 0x1_0000 && Matches(s, Short(e))
             && IsEntry(e)
    ensures var r := Updated(s, Attr(e), first, size, date, time);
            IsEntry(r) && FirstCluster(r) == first && Short(r) == Short(s)
  {
    UpdatedFields(s, Attr(e), first, size, date, time);
  }

  // ----- runs -----

  datatype DirState = DirState(s: FatState, data: seq<seq<byte>>, ch: seq<nat>)

  datatype DirOp = Make(e: Slot) | Put(name: Name, off: nat, buf: seq<byte>, date: nat, time: nat) | Remove(name: Name)

  ghost predicate InData(x: DirState) { forall i :: 0 <= i < |x.ch| ==> x.ch[i] < |x.data| }

  ghost function Slots(x: DirState): seq<Slot>
    requires InData(x)
  {
    Directory(x.data, x.ch)
  }

  ghost predicate PutStep(x: DirState, name: Name, off: nat, buf: seq<byte>, date: nat, time: nat, n: nat,
                          y: DirState, f: seq<nat>, f': seq<nat>, r: int)
    requires InData(x)
  {
    && date < 0x1_0000 && time < 0x1_0000 && y.ch == x.ch && Holds(x.s, x.data, x.ch, name, f)
    && NamedWritten(x.s, x.data, x.ch, name, off, buf, n, date, time, f, y.s, y.data, f', r)
  }

  // One call of the driver on the directory, on a volume with m slots or n bytes in a cluster.
  ghost predicate DirStep(x: DirState, op: DirOp, y: DirState, m: nat, n: nat)
    requires InData(x)
  {
    && InData(y)
    && match op
       case Make(e) => exists ok :: Created(x.s, x.data, x.ch, e, m, y.s, y.data, y.ch, ok)
       case Put(name, off, buf, date, time) => exists f, f', r :: PutStep(x, name, off, buf, date, time, n, y, f, f', r)
       case Remove(name) => y.ch == x.ch && exists ok :: Unlinked(x.s, x.data, x.ch, name, m, y.s, y.data, ok)
  }

  predicate Used(s: Slot) { !IsFree(s) && !IsLong(s) }

  // No two slots in use share their short name.
  ghost predicate NoTwins(all: seq<Slot>) {
    forall t, u :: 0 <= t < |all| && 0 <= u < |all| && Used(all[u]) && Matches(all[t], Short(all[u])) ==> t == u
  }

  // A created entry has no clusters, and its short name is new.
  ghost predicate NewName(all: seq<Slot>, op: DirOp) {
    op.Make? ==> FirstCluster(op.e) == 0 && forall t :: 0 <= t < |all| ==> !Matches(all[t], Short(op.e))
  }

  // The directory is in order: every entry has a chain of its own and a short name of its own.
  ghost predicate InOrder(x: DirState) {
    InData(x) && NoTwins(Slots(x)) && exists files :: Owned(x.s.fat, x.ch, Slots(x), files)
  }

  lemma OwnSlot(all: seq<Slot>, p: nat)
    requires NoTwins(all) && p < |all| && IsEntry(all[p])
    ensures FirstMatch(all, 0, Short(all[p])) == p
  {
    hide Short;
    EntryMatches(all, p);
  }

  lemma TwinsUpdate(all: seq<Slot>, p: nat, e: Slot)
    requires NoTwins(all) && p < |all| && forall t :: 0 <= t < |all| && t != p ==> !Matches(all[t], Short(e))
    ensures NoTwins(all[p := e])
  {
    hide Short, IsFree, IsLong;
  }

  lemma TwinsGrow(all: seq<Slot>, m: nat)
    requires NoTwins(all)
    ensures NoTwins(all + Blank(m))
  {
    hide Short, Blank;
    var all' := all + Blank(m);
    forall t | 0 <= t < |all'| ensures (t < |all| && all'[t] == all[t]) || IsFree(all'[t]) {
      if t >= |all| { assert all'[t] == Blank(m)[t - |all|]; }
    }
  }

  lemma TwinsMark(all: seq<Slot>, j: nat, q: nat)
    requires NoTwins(all) && j <= q < |all|
    ensures NoTwins(MarkDeleted(all, j, q))
  {
    hide Short;
    var all' := MarkDeleted(all, j, q);
    forall t | 0 <= t < |all| ensures all'[t] == all[t] || IsFree(all'[t]) {}
  }

  // The chain of the file that goes by a name is the one its entry owns.
  lemma SameChain(fat: seq<nat>, e: Slot, f: seq<nat>, g: seq<nat>)
    requires Sized(fat) && IsFile(fat, f) && IsFile(fat, g) && HeadOf(e, f) && HeadOf(e, g)
    ensures f == g
  {
    hide IsChain, FirstCluster;
    FileInRange(fat, f);
    FileInRange(fat, g);
    if f != [] && g != [] { ChainUnique(fat, f, g); }
  }

  lemma MakeKeeps(x: DirState, e: Slot, y: DirState, m: nat, ok: bool)
    requires InOrder(x) && InData(y) && Created(x.s, x.data, x.ch, e, m, y.s, y.data, y.ch, ok)
             && NewName(Slots(x), Make(e))
    ensures InOrder(y)
  {
    hide Directory, Append, FirstCluster, Owned, NoTwins, Blank, Fat32Dir.FirstFree, Matches, Short;
    var all := Slots(x);
    var files :| Owned(x.s.fat, x.ch, all, files);
    CreateOwned(x.s, x.data, x.ch, e, m, y.s, y.data, y.ch, ok, files);
    var p := Fat32Dir.FirstFree(all, 0);
    if p < |all| {
      TwinsUpdate(all, p, e);
    } else if ok {
      var more := all + Blank(m);
      TwinsGrow(all, m);
      BlankMatches(all, m, Short(e));
      TwinsUpdate(more, |all|, e);
      assert more[|all| := e] == all + Blank(m)[0 := e];
    } else {
      AppendFails(x.s, x.ch, all, files);
    }
  }

  lemma BlankMatches(all: seq<Slot>, m: nat, short: seq<byte>)
    requires forall t :: 0 <= t < |all| ==> !Matches(all[t], short)
    ensures forall t :: 0 <= t < |all + Blank(m)| ==> !Matches((all + Blank(m))[t], short)
  {
    hide Short, Blank;
    var all' := all + Blank(m);
    forall t | 0 <= t < |all'| ensures !Matches(all'[t], short) {
      if t >= |all| { assert all'[t] == Blank(m)[t - |all|]; }
    }
  }

  lemma AppendFails(s: FatState, ch: seq<nat>, all: seq<Slot>, files: seq<seq<nat>>)
    requires Owned(s.fat, ch, all, files)
    ensures ch != [] && 2 <= ch[|ch| - 1] < |s.fat| && (!Append(s, ch).ok ==> Append(s, ch).ch == ch)
  {
    ChainInRange(s.fat, ch);
  }

  lemma RemoveKeeps(x: DirState, name: Name, y: DirState, m: nat, ok: bool)
    requires InOrder(x) && InData(y) && y.ch == x.ch && Unlinked(x.s, x.data, x.ch, name, m, y.s, y.data, ok)
    ensures InOrder(y)
  {
    hide Directory, FirstCluster, Owned, NoTwins, Find, AfterFree, MarkDeleted, Short, FirstMatch, RunStart,
         ClusterStart, IsDirectory;
    var all := Slots(x);
    var files :| Owned(x.s.fat, x.ch, all, files);
    if ok {
      var p := Lookup(all, name).value;
      OwnSlot(all, p);
      DeleteOwnedIff(x.s, x.data, x.ch, name, m, y.s, y.data, files);
      TwinsMark(all, RunStart(all, ClusterStart(p, m), p), p);
    }
  }

  lemma PutKeeps(x: DirState, name: Name, off: nat, buf: seq<byte>, date: nat, time: nat, n: nat,
                 y: DirState, f: seq<nat>, f': seq<nat>, r: int)
    requires InOrder(x) && InData(y) && PutStep(x, name, off, buf, date, time, n, y, f, f', r)
    ensures InOrder(y)
  {
    hide Directory, FirstCluster, Owned, NoTwins, Find, Short, FirstMatch, Updated, Attr, FileSize, IsDirectory,
         Extended, Flat, IsChain, IsEntry;
    var all := Slots(x);
    var files :| Owned(x.s.fat, x.ch, all, files);
    var look := Lookup(all, name);
    if look.Some? && !IsDirectory(all[look.value]) {
      var p := look.value;
      OwnedSizes(x.s.fat, x.ch, all, files);
      OwnedEntry(x.s.fat, x.ch, all, files, p);
      SameChain(x.s.fat, all[p], f, files[p]);
      OwnSlot(all, p);
      WriteOwnedIff(x.s, x.data, x.ch, name, off, buf, n, date, time, y.s, y.data, f', r, files, p);
      if Changes(all[p], f', off, r) {
        EntryMatches(all, p);
        UpdatedEntry(all[p], all[p], Head(f'), NewSize(all[p], off, r), date, time);
        OthersDiffer(all, p);
        TwinsUpdate(all, p, Updated(all[p], Attr(all[p]), Head(f'), NewSize(all[p], off, r), date, time));
      }
    }
  }

  lemma OthersDiffer(all: seq<Slot>, p: nat)
    requires NoTwins(all) && p < |all| && IsEntry(all[p])
    ensures forall t :: 0 <= t < |all| && t != p ==> !Matches(all[t], Short(all[p]))
  {
    hide Short;
  }

  lemma StepKeepsOrder(x: DirState, op: DirOp, y: DirState, m: nat, n: nat)
    requires InData(x) && InOrder(x) && DirStep(x, op, y, m, n) && NewName(Slots(x), op)
    ensures InOrder(y)
  {
    hide InOrder, Created, Unlinked, PutStep, NewName;
    match op
    case Make(e) =>
      var ok :| Created(x.s, x.data, x.ch, e, m, y.s, y.data, y.ch, ok);
      MakeKeeps(x, e, y, m, ok);
    case Put(name, off, buf, date, time) =>
      var f, f', r :| PutStep(x, name, off, buf, date, time, n, y, f, f', r);
      PutKeeps(x, name, off, buf, date, time, n, y, f, f', r);
    case Remove(name) =>
      var ok :| Unlinked(x.s, x.data, x.ch, name, m, y.s, y.data, ok);
      RemoveKeeps(x, name, y, m, ok);
  }

  ghost predicate IsDirRun(states: seq<DirState>, ops: seq<DirOp>, m: nat, n: nat) {
    && |states| == |ops| + 1 && (forall i :: 0 <= i < |states| ==> InData(states[i]))
    && forall i :: 0 <= i < |ops| ==> DirStep(states[i], ops[i], states[i + 1], m, n)
  }

  // Over every run of creations, writes and deletions by name in which each new short name is
  // new, every entry keeps a chain and a short name of its own.
  lemma {:induction false} RunInOrder(states: seq<DirState>, ops: seq<DirOp>, m: nat, n: nat, i: nat)
    requires IsDirRun(states, ops, m, n) && i < |states| && InOrder(states[0])
    requires forall k :: 0 <= k < |ops| ==> NewName(Slots(states[k]), ops[k])
    ensures InOrder(states[i])
  {
    hide InOrder, DirStep, NewName;
    if i > 0 {
      RunInOrder(states, ops, m, n, i - 1);
      assert DirStep(states[i - 1], ops[i - 1], states[i - 1 + 1], m, n);
      StepKeepsOrder(states[i - 1], ops[i - 1], states[i], m, n);
    }
  }
}
