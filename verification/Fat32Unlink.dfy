/**
 Deleting a file: its directory slots are marked deleted in place and its clusters are freed.
 */
module Fat32Unlink {
  import opened Basics
  import opened Fat32Disk
  import opened Fat32Chains
  import opened Fat32Files
  import opened Fat32Names
  import opened Fat32Dir
  import opened Fat32Volume
  import opened Fat32DirOps

  // ----- finding the slot -----

  ghost predicate NoMatch(all: seq<Slot>, n: nat, short: seq<byte>) {
    n <= |all| && forall t :: 0 <= t < n ==> !Matches(all[t], short)
  }

  // Scans one cluster for a short name; stops at slot i, on a match or at the end marker.
  method MatchIn(buf: seq<byte>, short: seq<byte>) returns (hit: bool, i: nat)
    ensures i <= |SlotsOf(buf)| && NoMatch(SlotsOf(buf), i, short)
    ensures if hit then i < |SlotsOf(buf)| && Matches(SlotsOf(buf)[i], short)
            else i == |SlotsOf(buf)| || IsEnd(SlotsOf(buf)[i])
  {
    i := 0;
    while i < |buf| / SLOT
      invariant i <= |buf| / SLOT && NoMatch(SlotsOf(buf), i, short)
    {
      var slot: Slot := buf[SLOT * i..SLOT * i + SLOT];
      assert slot == SlotsOf(buf)[i];
      if IsEnd(slot) { return false, i; }
      if Matches(slot, short) { return true, i; }
      i := i + 1;
    }
    hit := false;
  }

  lemma MatchPart(all: seq<Slot>, base: nat, slots: seq<Slot>, short: seq<byte>, hit: bool, i: nat, p: nat)
    requires PartOf(all, base, slots) && NoMatch(all, base, short) && NoMatch(slots, i, short)
    requires if hit then i < |slots| && Matches(slots[i], short) else i == |slots| || IsEnd(slots[i])
    requires base <= p < |all| && Matches(all[p], short) && forall t :: 0 <= t <= p ==> !IsEnd(all[t])
    ensures if hit then FirstMatch(all, 0, short) == base + i
            else base + |slots| <= p && NoMatch(all, base + |slots|, short)
  {
    forall t | base <= t < base + i ensures !Matches(all[t], short) { PartAt(all, base, slots, t - base); }
    if i < |slots| { PartAt(all, base, slots, i); }
  }

  // The first slot with this short name, given that slot p is one and no end marker precedes it.
  method FindMatch(v: Volume, dir: nat, short: seq<byte>, ghost ch: seq<nat>, ghost p: nat)
    returns (current: nat, buf: seq<byte>, i: nat, ghost k: nat)
    requires v.Valid() && IsChain(v.State().fat, ch) && ch[0] == dir
    requires var all := Directory(v.Data(), ch);
             p < |all| && Matches(all[p], short) && forall t :: 0 <= t <= p ==> !IsEnd(all[t])
    ensures k < |ch| && current == ch[k] < |v.Data()| && buf == v.Data()[current] && i < PerCluster(v.g)
    ensures FirstMatch(Directory(v.Data(), ch), 0, short) == Bytes(k, PerCluster(v.g)) + i
  {
    DirIsReady(v, ch);
    ChainInRange(v.State().fat, ch);
    LimitSmall(v.g, v.disk.Length);
    ChainBound(v.State().fat, ch);
    hide Links, Clusters, IsChain, Flat, Bytes, Directory, DirReady, SlotsOf, PartOf, PerCluster, Matches;
    ghost var m: nat, data, all := PerCluster(v.g), v.Data(), Directory(v.Data(), ch);
    current, k := dir, 0;
    var _, b := v.ReadCluster(current);
    buf := b;
    BytesZero(m);
    while true
      invariant v.Valid() && v.Data() == data && IsChain(v.State().fat, ch)
      invariant k < |ch| && current == ch[k] && buf == data[current]
      invariant NoMatch(all, Bytes(k, m), short) && Bytes(k, m) <= p
      decreases |ch| - k
    {
      // the count of turns never passes the number of clusters
      assert k + 1 <= v.g.clusters;
      DirectoryPart(data, ch, m, k);
      var hit;
      hit, i := MatchIn(buf, short);
      MatchPart(all, Bytes(k, m), SlotsOf(buf), short, hit, i, p);
      if hit { return; }
      // the slot is still to come, so the chain goes on
      var next, b := LoadNext(v, current, ch, k);
      current, buf, k := next, b, k + 1;
    }
  }

  // ----- marking -----

  lemma MarkSlot(buf: seq<byte>, i: nat)
    requires |buf| % SLOT == 0 && i < |buf| / SLOT
    ensures SlotsOf(buf[SLOT * i := DELETED]) == SlotsOf(buf)[i := Deleted(SlotsOf(buf)[i])]
  {
    var l, r := SlotsOf(buf[SLOT * i := DELETED]), SlotsOf(buf)[i := Deleted(SlotsOf(buf)[i])];
    forall t | 0 <= t < |l| ensures l[t] == r[t] {
      forall x | 0 <= x < SLOT ensures l[t][x] == r[t][x] {}
    }
  }

  lemma MarkOne(slots: seq<Slot>, i: nat)
    requires i < |slots|
    ensures slots[i := Deleted(slots[i])] == MarkDeleted(slots, i, i)
  {}

  // The slot before the marked ones is as it was, and can be marked as well.
  lemma MarkMore(slots: seq<Slot>, at: nat, i: nat)
    requires 0 < at <= i < |slots|
    ensures var r := MarkDeleted(slots, at, i);
            r[at - 1] == slots[at - 1] && r[at - 1 := Deleted(r[at - 1])] == MarkDeleted(slots, at - 1, i)
  {}

  lemma RunGoesOn(slots: seq<Slot>, at: nat)
    requires at <= |slots|
    ensures RunStart(slots, 0, at) == if at > 0 && IsLong(slots[at - 1]) then RunStart(slots, 0, at - 1) else at
  {}

  // Marks slot i and the long slots right before it, within one cluster.
  method MarkRun(buf: seq<byte>, i: nat) returns (buf': seq<byte>, ghost j: nat)
    requires |buf| % SLOT == 0 && i < |buf| / SLOT
    ensures |buf'| == |buf| && j == RunStart(SlotsOf(buf), 0, i)
    ensures SlotsOf(buf') == MarkDeleted(SlotsOf(buf), j, i)
  {
    hide SlotsOf, MarkDeleted, RunStart;
    ghost var slots := SlotsOf(buf);
    MarkSlot(buf, i);
    MarkOne(slots, i);
    buf' := buf[SLOT * i := DELETED];
    var at: nat := i;
    while at > 0
      invariant at <= i && |buf'| == |buf|
      invariant RunStart(slots, 0, i) == RunStart(slots, 0, at)
      invariant SlotsOf(buf') == MarkDeleted(slots, at, i)
    {
      var slot: Slot := buf'[SLOT * (at - 1)..SLOT * (at - 1) + SLOT];
      SlotOf(buf', at - 1);
      MarkMore(slots, at, i);
      RunGoesOn(slots, at);
      if !IsLong(slot) { break; }
      at := at - 1;
      MarkSlot(buf', at);
      buf' := buf'[SLOT * at := DELETED];
    }
    RunGoesOn(slots, at);
    j := at;
  }

  lemma SlotOf(buf: seq<byte>, t: nat)
    requires t < |buf| / SLOT
    ensures SlotsOf(buf)[t] == buf[SLOT * t..SLOT * t + SLOT]
  {}

  lemma {:induction false} RunPart(all: seq<Slot>, base: nat, slots: seq<Slot>, i: nat)
    requires PartOf(all, base, slots) && i <= |slots|
    ensures RunStart(all, base, base + i) == base + RunStart(slots, 0, i)
  {
    if i > 0 {
      PartAt(all, base, slots, i - 1);
      if IsLong(slots[i - 1]) { RunPart(all, base, slots, i - 1); }
    }
  }

  lemma MarksReplaced(all: seq<Slot>, all': seq<Slot>, base: nat, slots: seq<Slot>, j: nat, i: nat)
    requires PartOf(all, base, slots) && j <= i < |slots| && Replaced(all, all', base, MarkDeleted(slots, j, i))
    ensures base + i < |all| && all' == MarkDeleted(all, base + j, base + i)
  {
    forall t | 0 <= t < |all| ensures all'[t] == MarkDeleted(all, base + j, base + i)[t] {
      if base <= t < base + |slots| {
        PartAt(all, base, slots, t - base);
        PartAt(all', base, MarkDeleted(slots, j, i), t - base);
      }
    }
  }

  // ----- deleting -----

  // The first slot of the cluster that holds slot q.
  function ClusterStart(q: nat, m: nat): (b: nat)
    requires m > 0
    ensures b <= q
  {
    if q < m then 0 else m + ClusterStart(q - m, m)
  }

  // The first slot with the short name is marked, and the long slots before it in its cluster.
  ghost predicate EntryMarked(all: seq<Slot>, all': seq<Slot>, m: nat, short: seq<byte>) {
    && m > 0
    && var q := FirstMatch(all, 0, short);
       q < |all| && all' == MarkDeleted(all, RunStart(all, ClusterStart(q, m), q), q)
  }

  // The directory `ch` in (s, data) after a delete by name: the first slot that shares the short
  // name of the entry found is marked, with the long slots before it in the same cluster, and the
  // clusters of the entry found are freed.
  ghost predicate Unlinked(s: FatState, data: seq<seq<byte>>, ch: seq<nat>, name: Name, m: nat,
                           s': FatState, data': seq<seq<byte>>, ok: bool) {
    && m > 0 && |data'| == |data|
    && (forall i :: 0 <= i < |ch| ==> ch[i] < |data|)
    && (forall c :: 0 <= c < |data| && c !in ch ==> data'[c] == data[c])
    && var all := Directory(data, ch);
       var r := Lookup(all, name);
       if r.None? || IsDirectory(all[r.value]) then !ok && s' == s && data' == data
       else
         && ok && s' == AfterFree(s, FirstCluster(all[r.value]))
         && EntryMarked(all, Directory(data', ch), m, Short(all[r.value]))
  }

  lemma MarkedInPlace(data: seq<seq<byte>>, ch: seq<nat>, m: nat, k: nat, j: nat, i: nat, buf: seq<byte>,
                      short: seq<byte>)
    requires DirReady(data, ch, m) && Distinct(ch) && k < |ch| && i < m && |buf| == SLOT * m
    requires ch[k] < |data| && |SlotsOf(data[ch[k]])| == m && j == RunStart(SlotsOf(data[ch[k]]), 0, i)
    requires SlotsOf(buf) == MarkDeleted(SlotsOf(data[ch[k]]), j, i)
    requires FirstMatch(Directory(data, ch), 0, short) == Bytes(k, m) + i
    ensures EntryMarked(Directory(data, ch), Directory(data[ch[k] := buf], ch), m, short)
  {
    hide Bytes, Directory, SlotsOf, RunStart, FirstMatch, MarkDeleted, PartOf, Replaced;
    DirectoryPart(data, ch, m, k);
    DirectoryUpdate(data, ch, m, k, buf);
    StartOf(k, m, i);
    hide DirReady, ClusterStart;
    var all := Directory(data, ch);
    RunPart(all, Bytes(k, m), SlotsOf(data[ch[k]]), i);
    MarksReplaced(all, Directory(data[ch[k] := buf], ch), Bytes(k, m), SlotsOf(data[ch[k]]), j, i);
  }

  lemma {:induction false} StartOf(k: nat, m: nat, i: nat)
    requires i < m
    ensures ClusterStart(Bytes(k, m) + i, m) == Bytes(k, m)
  {
    if k > 0 {
      StartOf(k - 1, m, i);
      BytesNext(k - 1, m);
    }
  }

  // Marks the slots of the entry with this short name.
  method MarkEntry(v: Volume, dir: nat, short: seq<byte>, ghost ch: seq<nat>, ghost p: nat)
    requires v.Valid() && IsChain(v.State().fat, ch) && ch[0] == dir
    requires var all := Directory(v.Data(), ch);
             p < |all| && Matches(all[p], short) && forall t :: 0 <= t <= p ==> !IsEnd(all[t])
    modifies v, v.disk
    ensures v.Valid() && v.Intact(old(v.disk[..])) && v.State() == old(v.State())
    ensures |v.Data()| == |old(v.Data())|
    ensures forall c :: 0 <= c < |v.Data()| && c !in ch ==> v.Data()[c] == old(v.Data())[c]
    ensures forall i :: 0 <= i < |ch| ==> ch[i] < |v.Data()|
    ensures EntryMarked(old(Directory(v.Data(), ch)), Directory(v.Data(), ch), PerCluster(v.g), short)
  {
    DirIsReady(v, ch);
    ChainInRange(v.State().fat, ch);
    LimitSmall(v.g, v.disk.Length);
    ChainAcyclic(v.State().fat, ch);
    hide Links, Clusters, TopBits, Mirrored, IsChain, Flat, Bytes, Directory, DirReady, SlotsOf, PerCluster;
    hide RunStart, MarkDeleted, Matches, FirstMatch, EntryMarked;
    ghost var data, m := v.Data(), PerCluster(v.g);
    ghost var j, k;
    var current, buf, i;
    current, buf, i, k := FindMatch(v, dir, short, ch, p);
    DirectoryPart(data, ch, m, k);
    buf, j := MarkRun(buf, i);
    MarkedInPlace(data, ch, m, k, j, i, buf, short);
    var _ := v.WriteCluster(current, buf);
    assert current in ch;
  }

  // Frees the clusters of a file that starts at `start`, if it has any.
  method FreeFile(v: Volume, start: nat)
    requires v.Valid()
    modifies v, v.disk
    ensures v.Valid() && v.Intact(old(v.disk[..])) && v.Data() == old(v.Data())
    ensures v.State() == AfterFree(old(v.State()), start)
  {
    hide Links, Clusters, TopBits, Mirrored, FreeWalk;
    if 2 <= start < EOC_MIN {
      var _ := v.FreeClusterChain(start);
    }
  }

  lemma MakeUnlinked(s: FatState, data: seq<seq<byte>>, ch: seq<nat>, name: Name, m: nat, p: nat, data': seq<seq<byte>>)
    requires |data'| == |data| && (forall i :: 0 <= i < |ch| ==> ch[i] < |data|)
    requires forall c :: 0 <= c < |data| && c !in ch ==> data'[c] == data[c]
    requires var all := Directory(data, ch);
             && Lookup(all, name) == Some(p) && !IsDirectory(all[p])
             && EntryMarked(all, Directory(data', ch), m, Short(all[p]))
    ensures var all := Directory(data, ch);
            Unlinked(s, data, ch, name, m, AfterFree(s, FirstCluster(all[p])), data', true)
  {}

  method DeleteFile(v: Volume, dir: nat, name: Name, ghost ch: seq<nat>) returns (ok: bool)
    requires v.Valid()
    requires dir >= 2 ==> IsChain(v.State().fat, ch) && ch[0] == dir
    modifies v, v.disk
    ensures v.Valid() && v.Intact(old(v.disk[..]))
    ensures dir < 2 ==> !ok && v.State() == old(v.State()) && v.Data() == old(v.Data())
    ensures dir >= 2 ==> Unlinked(old(v.State()), old(v.Data()), ch, name, PerCluster(v.g), v.State(), v.Data(), ok)
  {
    if dir < 2 { return false; }
    DirIsReady(v, ch);
    ChainInRange(v.State().fat, ch);
    hide Links, Clusters, TopBits, Mirrored, IsChain, Bytes, Directory, DirReady, Find, EntryMarked, PerCluster;
    hide IsDirectory, FirstCluster, AfterFree, Short;
    ghost var s, data, all := v.State(), v.Data(), Directory(v.Data(), ch);
    assert PerCluster(v.g) > 0 by { PerClusterPositive(v.g); }
    var found, entry := FindInDir(v, dir, name, ch);
    if !found { return false; }
    if IsDirectory(entry) { return false; }
    hide Unlinked;
    ghost var p := Lookup(all, name).value;
    FindNoEnd(all, 0, NO_LFN, name);
    MarkEntry(v, dir, Short(entry), ch, p);
    MakeUnlinked(s, data, ch, name, PerCluster(v.g), p, v.Data());
    FreeFile(v, FirstCluster(entry));
    ok := true;
  }

  lemma PerClusterPositive(g: Geometry)
    requires g.sectorsPerCluster > 0
    ensures PerCluster(g) > 0
  {}

  // Slot p is the only one the delete could take for its short name, and its long slots lie in
  // its cluster.
  ghost predicate Clean(all: seq<Slot>, m: nat, p: nat) {
    && m > 0 && p < |all| && FirstMatch(all, 0, Short(all[p])) == p
    && Fresh(all, RunStart(all, ClusterStart(p, m), p))
  }

  // Deleting a clean entry hides it and nothing else.
  lemma UnlinkedLookup(s: FatState, data: seq<seq<byte>>, ch: seq<nat>, name: Name, m: nat,
                       s': FatState, data': seq<seq<byte>>, other: Name)
    requires Unlinked(s, data, ch, name, m, s', data', true) && WellFormed(Directory(data, ch))
    requires Clean(Directory(data, ch), m, Lookup(Directory(data, ch), name).value)
    ensures var all, all' := Directory(data, ch), Directory(data', ch);
            var p, before := Lookup(all, name).value, Lookup(all, other);
            && WellFormed(all')
            && Lookup(all', other) == if before == Some(p) then Find(all, p + 1, NO_LFN, other) else before
  {
    hide Directory, Find, WellFormed, MarkDeleted;
    var all := Directory(data, ch);
    var p := Lookup(all, name).value;
    var j := RunStart(all, ClusterStart(p, m), p);
    DeleteKeeps(all, j, p);
    DeleteLookup(all, j, p, other);
  }

  lemma {:induction false} DeadBeforeLabel(all: seq<Slot>, q: nat, k: nat)
    requires NoOrphans(all) && k < q < |all| && !IsEntry(all[q]) && !LiveLong(all[q]) && NoEndUpTo(all, q)
    requires forall i :: k <= i < q ==> IsLong(all[i])
    ensures IsDeleted(all[k])
    decreases q - k
  {
    if k + 1 < q { DeadBeforeLabel(all, q, k + 1); }
  }

  // Marking an earlier slot that shares the short name leaves the entry findable, or orphans.
  lemma WrongSlot(all: seq<Slot>, j: nat, q: nat, p: nat, name: Name)
    requires WellFormed(all) && Lookup(all, name) == Some(p) && j <= q < p && !IsFree(all[q]) && !IsLong(all[q])
    requires forall k :: j <= k < q ==> IsLong(all[k])
    ensures WellFormed(MarkDeleted(all, j, q)) ==> Lookup(MarkDeleted(all, j, q), name) == Some(p)
  {
    hide Find, Hit, Next;
    if IsEntry(all[q]) {
      DeleteKeepsIff(all, j, q);
      if Fresh(all, j) { DeleteLookup(all, j, q, name); }
    } else {
      FindNoEnd(all, 0, NO_LFN, name);
      forall k | j <= k < q ensures IsDeleted(all[k]) { DeadBeforeLabel(all, q, k); }
      FindSkips(all, MarkDeleted(all, j, q), 0, NO_LFN, name);
    }
  }

  // A successful delete does what it should, hiding the entry and leaving the directory
  // well-formed, exactly when the entry is clean.
  lemma UnlinkedIff(s: FatState, data: seq<seq<byte>>, ch: seq<nat>, name: Name, m: nat, s': FatState,
                    data': seq<seq<byte>>)
    requires Unlinked(s, data, ch, name, m, s', data', true) && WellFormed(Directory(data, ch))
    ensures var all, all' := Directory(data, ch), Directory(data', ch);
            var p := Lookup(all, name).value;
            WellFormed(all') && Lookup(all', name) != Some(p) <==> Clean(all, m, p)
  {
    var all, all' := Directory(data, ch), Directory(data', ch);
    var p := Lookup(all, name).value;
    var q := FirstMatch(all, 0, Short(all[p]));
    var j := RunStart(all, ClusterStart(q, m), q);
    hide Directory, Find, WellFormed, MarkDeleted, RunStart, ClusterStart;
    if q < p {
      WrongSlot(all, j, q, p, name);
    } else {
      DeleteKeepsIff(all, j, p);
      if Fresh(all, j) { UnlinkedLookup(s, data, ch, name, m, s', data', name); }
    }
  }

  // The volume label of a directory [label, file] with the same 11 bytes is deleted in place of
  // the file, which is still found.
  lemma DeleteTakesLabel(e: Slot, name: Name)
    requires IsEntry(e) && SameName(name, Display(Short(e)))
    ensures var tag: Slot := e[11 := 0x08];
            var all := [tag, e];
            && WellFormed(all) && Lookup(all, name) == Some(1)
            && FirstMatch(all, 0, Short(e)) == 0
            && MarkDeleted(all, RunStart(all, 0, 0), 0) == [Deleted(tag), e]
            && Lookup([Deleted(tag), e], name) == Some(1)
  {
    var tag: Slot := e[11 := 0x08];
    assert Short(tag) == Short(e);
    assert EntryName(NO_LFN, e) == Display(Short(e));
    hide Display, Checksum, CString;
    var all, all' := [tag, e], [Deleted(tag), e];
    FindLabelled(all, name);
    FindLabelled(all', name);
    assert MarkDeleted(all, 0, 0) == all';
  }

  lemma FindLabelled(all: seq<Slot>, name: Name)
    requires |all| == 2 && Inert(all[0]) && IsEntry(all[1]) && Hit(NO_LFN, all[1], name)
    ensures Lookup(all, name) == Some(1)
  {
    hide Hit;
    assert Find(all, 1, NO_LFN, name) == Some(1);
  }

  // Such an entry, and a name it goes by.
  lemma LabelledFile(date: nat, time: nat)
    requires date < 0x1_0000 && time < 0x1_0000
    ensures var e := NewEntry(ShortName([0x41]), date, time); IsEntry(e) && SameName([0x41], Display(Short(e)))
  {
    NewEntryLive([0x41], date, time);
    NewEntryName([0x41], date, time);
  }

  // One entry with one long slot before it, and nothing else.
  ghost predicate Lonely(all: seq<Slot>, p: nat) {
    && 0 < p < |all| && IsEntry(all[p]) && LiveLong(all[p - 1]) && StartsLong(all[p - 1])
    && forall i :: 0 <= i < |all| && i != p && i != p - 1 ==> IsDeleted(all[i])
  }

  lemma OrphanLeft(all: seq<Slot>, p: nat)
    requires Lonely(all, p)
    ensures WellFormed(all) && FirstMatch(all, 0, Short(all[p])) == p && RunStart(all, p, p) == p
    ensures !WellFormed(MarkDeleted(all, p, p))
  {
    hide Short;
    assert Matches(all[p], Short(all[p]));
    DeleteKeepsIff(all, p, p);
  }

  // Two clusters of 16 slots: a long slot ends the first and its entry e begins the second.
  function Boundary(e: Slot): (all: seq<Slot>)
    ensures |all| == 32 && all[16] == e && all[15] == e[0 := 0x41][11 := 0x0F]
    ensures forall i :: 0 <= i < 32 && i != 15 && i != 16 ==> all[i] == Deleted(e)
  {
    var dead := seq<Slot>(15, i => Deleted(e));
    dead + [e[0 := 0x41][11 := 0x0F], e] + dead
  }

  // The name an entry goes by finds it if there is no other entry.
  lemma LonelyFound(all: seq<Slot>, p: nat)
    requires Lonely(all, p)
    ensures Lookup(all, EntryName(StateAt(all, p), all[p])) == Some(p)
  {
    hide EntryName, StateAt, Find;
    var name := EntryName(StateAt(all, p), all[p]);
    LookupFirst(all, name);
    assert GoesBy(all, p, name);
    forall k | k != p ensures !GoesBy(all, k, name) {
      assert 0 <= k < |all| ==> !IsEntry(all[k]);
    }
  }

  lemma BoundaryLonely(e: Slot)
    requires IsEntry(e)
    ensures Lonely(Boundary(e), 16)
  {
    hide Boundary;
    var gone, tag: Slot := Deleted(e), e[0 := 0x41][11 := 0x0F];
    assert IsDeleted(gone) && LiveLong(tag) && StartsLong(tag);
  }

  // Deleting that entry, which is found by its name, leaves the long slot as an orphan.
  lemma DeleteLeavesOrphan(e: Slot)
    requires IsEntry(e)
    ensures var all := Boundary(e);
            && WellFormed(all) && Lookup(all, EntryName(StateAt(all, 16), e)) == Some(16) && FirstMatch(all, 0, Short(e)) == 16
            && RunStart(all, ClusterStart(16, 16), 16) == 16
            && !WellFormed(MarkDeleted(all, 16, 16))
  {
    hide Boundary, EntryName, StateAt, Find, WellFormed, MarkDeleted, RunStart, FirstMatch, Lonely, Short;
    assert ClusterStart(16, 16) == 16;
    BoundaryLonely(e);
    OrphanLeft(Boundary(e), 16);
    LonelyFound(Boundary(e), 16);
  }

  // Freeing one file leaves the others' chains, and the free count stays exact.
  lemma AfterFreeKeeps(s: FatState, f: seq<nat>, ch: seq<nat>)
    requires Sized(s.fat) && IsChain(s.fat, f) && IsFile(s.fat, ch) && forall c :: c in f ==> c !in ch
    ensures var s' := AfterFree(s, f[0]);
            && |s'.fat| == |s.fat| && IsFile(s'.fat, ch)
            && FreeClusters(s'.fat) == FreeClusters(s.fat) + |f|
            && (s.freeCount == FreeClusters(s.fat) ==> s'.freeCount == FreeClusters(s'.fat))
  {
    FreeWalkChain(s.fat, f);
    hide FreeWalk;
    var s' := AfterFree(s, f[0]);
    assert FreeClusters(s'.fat) <= |s'.fat|;
    forall i | 0 <= i < |ch| ensures s'.fat[ch[i]] == s.fat[ch[i]] { assert ch[i] in ch; }
    ChainFrame(s.fat, s'.fat, ch);
  }

  // A delete in a directory of a consistent volume: f is the chain of the file, empty if it has none.
  ghost predicate Deletable(s: FatState, data: seq<seq<byte>>, ch: seq<nat>, name: Name, f: seq<nat>) {
    && |s.fat| <= |data| && IsChain(s.fat, ch) && IsFile(s.fat, f) && (forall c :: c in f ==> c !in ch)
    && var all := Directory(data, ch);
       var r := Lookup(all, name);
       && WellFormed(all)
       && (r.Some? ==> FirstCluster(all[r.value]) == if f == [] then 0 else f[0])
  }

  // What deleting entry p by name does to the name: the entry is hidden and the directory
  // well-formed exactly if it was clean, and then the name is gone exactly if no other entry goes
  // by it.
  ghost predicate Gone(all: seq<Slot>, all': seq<Slot>, m: nat, p: nat, name: Name) {
    && (WellFormed(all') && Lookup(all', name) != Some(p) <==> Clean(all, m, p))
    && (Clean(all, m, p) ==> (Lookup(all', name).None? <==> forall k :: GoesBy(all, k, name) ==> k == p))
  }

  lemma UnlinkedGone(s: FatState, data: seq<seq<byte>>, ch: seq<nat>, name: Name, m: nat, s': FatState,
                     data': seq<seq<byte>>)
    requires Unlinked(s, data, ch, name, m, s', data', true) && WellFormed(Directory(data, ch))
    ensures var all := Directory(data, ch); Gone(all, Directory(data', ch), m, Lookup(all, name).value, name)
  {
    hide Directory, Find, WellFormed, Clean, GoesBy, EntryMarked, AfterFree, FirstCluster, Short, IsDirectory;
    var all := Directory(data, ch);
    var p := Lookup(all, name).value;
    UnlinkedIff(s, data, ch, name, m, s', data');
    if Clean(all, m, p) {
      UnlinkedLookup(s, data, ch, name, m, s', data', name);
      FoundAfter(all, p, name);
    }
  }

  lemma UnlinkedOutcome(s: FatState, data: seq<seq<byte>>, ch: seq<nat>, name: Name, m: nat,
                        s': FatState, data': seq<seq<byte>>, ok: bool, f: seq<nat>)
    requires Unlinked(s, data, ch, name, m, s', data', ok)
    requires Sized(s.fat) && Deletable(s, data, ch, name, f)
    ensures IsChain(s'.fat, ch)
    ensures var all, all' := Directory(data, ch), Directory(data', ch);
            var r := Lookup(all, name);
            && ok == (r.Some? && !IsDirectory(all[r.value]))
            && (if ok then Gone(all, all', m, r.value, name) else all' == all)
  {
    assert AfterFree(s, 0) == s;
    if f != [] { AfterFreeKeeps(s, f, ch); }
    if ok { UnlinkedGone(s, data, ch, name, m, s', data'); }
    hide Directory, Find, WellFormed, Gone, EntryMarked, AfterFree, FirstCluster, FreeBelow;
  }

  lemma StateSized(v: Volume)
    requires v.Valid()
    ensures Sized(v.State().fat)
  {
    LimitSmall(v.g, v.disk.Length);
  }

  // Deletes a name from a directory of a consistent volume.
  method DeleteNamed(v: Volume, dir: nat, name: Name, ghost ch: seq<nat>, ghost f: seq<nat>) returns (ok: bool)
    requires v.Valid() && dir >= 2 && Deletable(v.State(), v.Data(), ch, name, f) && ch[0] == dir
    modifies v, v.disk
    ensures v.Valid() && v.Intact(old(v.disk[..])) && IsChain(v.State().fat, ch)
    ensures var all, all' := old(Directory(v.Data(), ch)), Directory(v.Data(), ch);
            var r := Lookup(all, name);
            && ok == (r.Some? && !IsDirectory(all[r.value]))
            && (if ok then Gone(all, all', PerCluster(v.g), r.value, name) else all' == all)
  {
    ghost var s, data := v.State(), v.Data();
    StateSized(v);
    assert IsChain(s.fat, ch);
    hide *;
    ok := DeleteFile(v, dir, name, ch);
    UnlinkedOutcome(s, data, ch, name, PerCluster(v.g), v.State(), v.Data(), ok, f);
  }

  // Deleting a name and looking it up again.
  method DeleteThenFind(v: Volume, dir: nat, name: Name, ghost ch: seq<nat>, ghost f: seq<nat>) returns (ok: bool,
                        found: bool)
    requires v.Valid() && dir >= 2 && Deletable(v.State(), v.Data(), ch, name, f) && ch[0] == dir
    modifies v, v.disk
    ensures v.Valid() && v.Intact(old(v.disk[..]))
    ensures var all := old(Directory(v.Data(), ch));
            var r := Lookup(all, name);
            && ok == (r.Some? && !IsDirectory(all[r.value]))
            && (!ok ==> found == r.Some?)
            && (ok && Clean(all, PerCluster(v.g), r.value) ==> (!found <==> forall k :: GoesBy(all, k, name) ==> k == r.value))
  {
    ok := DeleteNamed(v, dir, name, ch, f);
    hide *;
    var entry;
    found, entry := FindInDir(v, dir, name, ch);
  }
}
