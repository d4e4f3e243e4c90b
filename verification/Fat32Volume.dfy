/**
 A mounted FAT32 volume: reading and writing FAT entries and clusters on the device, allocating
 and freeing clusters, and reading and writing file data along a cluster chain.
 */
module Fat32Volume {
  import opened Basics
  import opened Fat32Disk
  import opened Fat32Chains
  import opened Fat32Files

  class Volume {
    const g: Geometry
    const disk: array<byte>
    // FSInfo, kept in memory while mounted
    var freeCount: nat
    var nextFree: nat

    constructor (g: Geometry, disk: array<byte>, freeCount: nat, nextFree: nat)
      requires g.Valid(disk.Length) && freeCount < WORD_SPAN && nextFree < WORD_SPAN
      ensures Valid() && this.g == g && this.disk == disk
      ensures State() == FatState(Links(g, disk[..]), freeCount, nextFree)
    {
      this.g, this.disk, this.freeCount, this.nextFree := g, disk, freeCount, nextFree;
    }

    ghost predicate Valid()
      reads this
    {
      g.Valid(disk.Length) && freeCount < WORD_SPAN && nextFree < WORD_SPAN
    }

    ghost function State(): FatState
      requires Valid()
      reads this, disk
    {
      FatState(Links(g, disk[..]), freeCount, nextFree)
    }

    ghost function Data(): seq<seq<byte>>
      requires Valid()
      reads this, disk
    {
      Clusters(g, disk[..])
    }

    // What no operation changes: the reserved bits, and the agreement of the FAT copies.
    ghost predicate Intact(was: seq<byte>)
      requires Valid() && |was| == disk.Length
      reads this, disk
    {
      TopBits(g, disk[..]) == TopBits(g, was) && (Mirrored(g, was) ==> Mirrored(g, disk[..]))
    }

    method DeviceRead(offset: nat, size: nat) returns (buf: seq<byte>)
      requires offset + size <= disk.Length
      ensures buf == disk[..][offset..offset + size]
    {
      buf := disk[offset..offset + size];
    }

    method DeviceWrite(offset: nat, buf: seq<byte>)
      requires offset + |buf| <= disk.Length
      modifies disk
      ensures disk[..] == Splice(old(disk[..]), offset, buf)
    {
      forall i | 0 <= i < |buf| {
        disk[offset + i] := buf[i];
      }
    }

    method GetFatEntry(cluster: nat) returns (entry: nat)
      requires Valid()
      ensures entry == if 2 <= cluster < g.Limit() then State().fat[cluster] else BAD_CLUSTER
    {
      if cluster < 2 || cluster >= g.Limit() {
        return BAD_CLUSTER;
      }
      hide Le32;
      EntryRead(g, disk[..], cluster);
      var fatOffset := cluster * 4;
      var fatSector := g.reserved + fatOffset / SECTOR;
      var sector := DeviceRead(fatSector * SECTOR, SECTOR);
      entry := Le32(sector, fatOffset % SECTOR) % LINK_SPAN;
    }

    method WriteToAllCopies(s: nat, sector: seq<byte>)
      requires Valid() && s < g.fatSectors && |sector| == SECTOR
      modifies disk
      ensures disk[..] == MirrorWrite(g, old(disk[..]), s, sector, g.numFats)
    {
      hide Splice;
      for i := 0 to g.numFats
        invariant disk[..] == MirrorWrite(g, old(disk[..]), s, sector, i)
      {
        CopyInTable(g, i);
        FatBaseIs(g, i);
        assert (g.reserved + i * g.fatSectors + s) * SECTOR == SectorAddr(g, i, s);
        DeviceWrite((g.reserved + i * g.fatSectors + s) * SECTOR, sector);
      }
    }

    method SetFatEntry(cluster: nat, value: nat) returns (ok: bool)
      requires Valid()
      modifies disk
      ensures ok == (2 <= cluster < g.Limit())
      ensures !ok ==> disk[..] == old(disk[..])
      ensures ok ==> State() == old(State()).(fat := old(State()).fat[cluster := value % LINK_SPAN])
      ensures Data() == old(Data()) && Intact(old(disk[..]))
    {
      if cluster < 2 || cluster >= g.Limit() {
        return false;
      }
      hide Links, TopBits, Clusters, Mirrored, SetEntry;
      SetEntryViews(g, disk[..], cluster, value % LINK_SPAN);
      WriteEntry(cluster, value % LINK_SPAN);
      ok := true;
    }

    method WriteEntry(cluster: nat, link: nat)
      requires Valid() && cluster < g.Limit() && link < LINK_SPAN
      modifies disk
      ensures disk[..] == SetEntry(g, old(disk[..]), cluster, link)
    {
      hide MirrorWrite, PatchedSector;
      EntrySector(g, cluster);
      var sector := PatchEntry(cluster, link);
      WriteToAllCopies(cluster * 4 / SECTOR, sector);
    }

    // The FAT sector of an entry with its link replaced and its top bits kept.
    method PatchEntry(cluster: nat, link: nat) returns (sector: seq<byte>)
      requires Valid() && cluster < g.Limit() && link < LINK_SPAN
      ensures sector == PatchedSector(g, disk[..], cluster, link)
    {
      hide Le32, PutLe32;
      EntryRead(g, disk[..], cluster);
      var fatOffset := cluster * 4;
      sector := DeviceRead((g.reserved + fatOffset / SECTOR) * SECTOR, SECTOR);
      sector := PutLe32(sector, fatOffset % SECTOR, Le32(sector, fatOffset % SECTOR) / LINK_SPAN * LINK_SPAN + link);
    }

    method ReadCluster(cluster: nat) returns (ok: bool, buf: seq<byte>)
      requires Valid() && cluster < g.Limit()
      ensures ok == (cluster >= 2)
      ensures ok ==> buf == Data()[cluster]
    {
      if cluster < 2 {
        return false, [];
      }
      ClusterAddrIs(g, cluster);
      ClusterInBounds(g, cluster);
      var lba := g.reserved + g.numFats * g.fatSectors + (cluster - 2) * g.sectorsPerCluster;
      buf := DeviceRead(lba * SECTOR, g.ClusterBytes());
      ok := true;
    }

    method WriteCluster(cluster: nat, buf: seq<byte>) returns (ok: bool)
      requires Valid() && cluster < g.Limit() && |buf| == g.ClusterBytes()
      modifies disk
      ensures ok == (cluster >= 2)
      ensures Data() == if ok then old(Data())[cluster := buf] else old(Data())
      ensures State() == old(State()) && Intact(old(disk[..]))
    {
      if cluster < 2 {
        return false;
      }
      hide Links, Clusters, TopBits, Mirrored, Splice;
      ClusterAddrIs(g, cluster);
      WriteClusterViews(g, disk[..], cluster, buf);
      var lba := g.reserved + g.numFats * g.fatSectors + (cluster - 2) * g.sectorsPerCluster;
      DeviceWrite(lba * SECTOR, buf);
      ok := true;
    }

    // Returns 0 when the search finds no free cluster.
    method AllocateCluster() returns (cluster: nat)
      requires Valid()
      modifies this, disk
      ensures Valid()
      ensures cluster == Pick(old(State()).fat, old(nextFree))
      ensures State() == if cluster == 0 then old(State()) else Take(old(State()), cluster)
      // the cluster ends a chain, the next search starts behind it, and the free count goes down
      ensures cluster != 0 ==> JustTaken(old(State()), State(), cluster)
      ensures Data() == old(Data()) && Intact(old(disk[..]))
    {
      ghost var fat := State().fat;
      cluster := SearchFree();
      if cluster == 0 {
        return;
      }
      var ok := SetFatEntry(cluster, EOC);
      assert ok;
      if freeCount != UNKNOWN && freeCount > 0 {
        freeCount := freeCount - 1;
      }
      LimitSmall(g, disk.Length);
      nextFree := cluster + 1;
    }

    // The probing loop of the allocator.
    method SearchFree() returns (cluster: nat)
      requires Valid()
      ensures cluster == Pick(State().fat, nextFree)
    {
      hide Links, Pick, NoneFree;
      ghost var fat := State().fat;
      var start := if nextFree != UNKNOWN && nextFree >= 2 then nextFree else 2;
      cluster := start;
      NothingProbed(fat, start);
      for i := 0 to g.clusters
        invariant cluster == ProbeAt(start, i, g.clusters) && NoneFree(fat, start, i)
      {
        var entry := GetFatEntry(cluster);
        if entry == FREE_CLUSTER {
          FoundFree(fat, nextFree, i);
          return;
        }
        ProbedOne(fat, start, i);
        cluster := cluster + 1;
        if cluster >= g.Limit() {
          cluster := 2;
        }
        if cluster == start {
          NothingFree(fat, nextFree);
          return 0;
        }
      }
      NothingFree(fat, nextFree);
      cluster := 0;
    }

    method FreeClusterChain(startCluster: nat) returns (ok: bool)
      requires Valid()
      modifies this, disk
      ensures Valid()
      ensures var w := FreeWalk(old(State()).fat, startCluster);
              && ok == (startCluster >= 2 && w.ok)
              && State().fat == (if startCluster >= 2 then w.fat else old(State()).fat)
              && freeCount == (if ok && old(freeCount) != UNKNOWN then (old(freeCount) + w.count) % WORD_SPAN else old(freeCount))
      ensures nextFree == old(nextFree)
      ensures Data() == old(Data()) && Intact(old(disk[..]))
    {
      if startCluster < 2 {
        return false;
      }
      hide Links, TopBits, Clusters, Mirrored, FreeWalk;
      var freed;
      ok, freed := ClearChain(startCluster);
      if ok && freeCount != UNKNOWN {
        freeCount := (freeCount + freed) % WORD_SPAN;
      }
    }

    // The loop that clears the links of a chain; `ok` is false if one leads out of the table.
    method ClearChain(startCluster: nat) returns (ok: bool, freed: nat)
      requires Valid()
      modifies disk
      ensures var w := FreeWalk(old(State()).fat, startCluster);
              && ok == w.ok && State() == old(State()).(fat := w.fat)
              && (ok ==> freed == w.count)
      ensures Data() == old(Data()) && Intact(old(disk[..]))
    {
      hide Links, TopBits, Clusters, Mirrored, Taken;
      var cluster: nat := startCluster;
      freed := 0;
      ghost var fat: seq<nat> := State().fat;
      ghost var all := FreeWalk(fat, cluster);
      while 2 <= cluster < EOC_MIN
        invariant State() == old(State()).(fat := fat)
        invariant Data() == old(Data()) && Intact(old(disk[..]))
        invariant var w := FreeWalk(fat, cluster);
                  all.fat == w.fat && all.ok == w.ok && all.count == freed + w.count
        decreases Taken(fat), 2 <= cluster < EOC_MIN
      {
        hide FreeWalk;
        var next := GetFatEntry(cluster);
        var cleared := SetFatEntry(cluster, FREE_CLUSTER);
        if !cleared {
          FreeWalkOut(fat, cluster);
          return false, freed;
        }
        FreeWalkStep(fat, cluster);
        fat := fat[cluster := FREE_CLUSTER];
        freed := freed + 1;
        cluster := next;
      }
      ok := true;
    }

    // Reads along the chain `ch` of the file that starts at `start`; -1 is the C error return.
    method ReadFileData(start: nat, offset: nat, size: nat, ghost ch: seq<nat>) returns (r: int, buf: seq<byte>)
      requires Valid()
      requires start >= 2 ==> IsChain(State().fat, ch) && ch[0] == start
      ensures start < 2 ==> r == -1
      ensures start >= 2 ==>
                var file := Flat(Data(), ch);
                && r == (if size == 0 then 0 else if offset >= |file| then -1
                         else if size < |file| - offset then size else |file| - offset)
                && (r > 0 ==> buf == file[offset..offset + r])
    {
      buf := [];
      if start < 2 { return -1, []; }
      if size == 0 { return 0, []; }
      hide Links, Clusters, Flat, IsChain, Bytes;
      var n: nat := g.ClusterBytes();
      LimitSmall(g, disk.Length);
      var skip, co := SplitOffset(offset, n);
      ChainInRange(State().fat, ch);
      FlatLength(Data(), ch, n);
      var current := Locate(start, skip, ch);
      if current == 0 {
        BytesMono(|ch|, skip, n);
        return -1, [];
      }
      buf := CopyOut(current, co, size, ch, skip);
      r := |buf|;
    }

    // Follows `skip` links; 0 when the chain ends first.
    method Locate(start: nat, skip: nat, ghost ch: seq<nat>) returns (current: nat)
      requires Valid() && IsChain(State().fat, ch) && ch[0] == start
      ensures current == if skip < |ch| then ch[skip] else 0
    {
      hide Links;
      LimitSmall(g, disk.Length);
      current := start;
      for i := 0 to skip
        invariant i < |ch| && current == ch[i]
      {
        FollowLink(State().fat, ch, i);
        current := GetFatEntry(current);
        if current < 2 || current >= EOC_MIN {
          return 0;
        }
      }
    }

    // Copies from byte `co0` of cluster number k0 of the file until `size` bytes or the end.
    method CopyOut(start: nat, co0: nat, size: nat, ghost ch: seq<nat>, ghost k0: nat) returns (buf: seq<byte>)
      requires Valid() && IsChain(State().fat, ch) && k0 < |ch| && ch[k0] == start
      requires co0 < g.ClusterBytes() && size > 0
      ensures var file, from := Flat(Data(), ch), Bytes(k0, g.ClusterBytes()) + co0;
              && from < |file|
              && |buf| == (if size < |file| - from then size else |file| - from)
              && buf == file[from..from + |buf|]
    {
      hide Links, Clusters, Flat, IsChain, Bytes, Geometry.FatBase, Geometry.ClusterAddr;
      var n: nat, co: nat, current: nat := g.ClusterBytes(), co0, start;
      LimitSmall(g, disk.Length);
      ChainInRange(State().fat, ch);
      ghost var fat, data, file := State().fat, Data(), Flat(Data(), ch);
      ghost var from: nat, k: nat := Bytes(k0, n) + co0, k0;
      FlatAt(data, ch, k, n);
      buf := [];
      while |buf| < size && 2 <= current < EOC_MIN
        invariant k <= |ch| && (if k < |ch| then current == ch[k] else current >= EOC_MIN)
        invariant co < n && |buf| <= size && from + |buf| <= |file|
        invariant buf == file[from..from + |buf|]
        invariant |buf| < size ==> from + |buf| == Bytes(k, n) + co
        invariant |buf| < size && k == |ch| ==> from + |buf| == |file|
        decreases size - |buf|
      {
        FlatAt(data, ch, k, n);
        FollowLink(fat, ch, k);
        var _, clusterBuf := ReadCluster(current);
        var toCopy := n - co;
        if toCopy > size - |buf| {
          toCopy := size - |buf|;
        }
        SliceExtends(file, from, |buf|, Bytes(k, n), n, co, toCopy);
        buf := buf + clusterBuf[co..co + toCopy];
        co := 0;
        if |buf| < size {
          current := GetFatEntry(current);
          k := k + 1;
        }
      }
    }

    // Growing the file (s, ch) has reached its cluster number k, which is `current`.
    ghost predicate Growing(s: FatState, ch: seq<nat>, k: nat, current: nat)
      requires Valid()
      reads this, disk
    {
      && Sized(s.fat) && IsFile(s.fat, ch)
      && var q := GrowTo(s, ch, k + 1);
         q.ok && State() == q.s && current == q.ch[k]
    }

    // Growing the file (s, ch) to n clusters filled the volume first.
    ghost predicate Full(s: FatState, ch: seq<nat>, n: nat)
      requires Valid()
      reads this, disk
    {
      && 2 <= |s.fat| && (forall i :: 0 <= i < |ch| ==> 2 <= ch[i] < |s.fat|)
      && !GrowTo(s, ch, n).ok && State() == GrowTo(s, ch, n).s
    }

    // Moves from cluster number k of the file to the next, allocating and linking one if the
    // chain ends; 0 when the volume is full.
    method NextOrAllocate(current: nat, ghost s: FatState, ghost ch: seq<nat>, ghost k: nat) returns (next: nat)
      requires Valid() && Growing(s, ch, k, current)
      modifies this, disk
      ensures Valid() && Data() == old(Data()) && Intact(old(disk[..]))
      ensures if next != 0 then Growing(s, ch, k + 1, next) else Full(s, ch, k + 2)
    {
      hide Links, Clusters, TopBits, Mirrored, GrowTo, Append, Pick, IsChain, JustTaken;
      FileInRange(s.fat, ch);
      GrowToNext(s, ch, k);
      LimitSmall(g, disk.Length);
      next := GetFatEntry(current);
      if next < 2 || next >= EOC_MIN {
        next := AllocateCluster();
        if next != 0 {
          var _ := SetFatEntry(current, next);
        }
      }
    }

    // Reaches cluster number `skip` of the file, allocating on the way.
    method WalkAllocating(start: nat, skip: nat, ghost s: FatState, ghost ch: seq<nat>) returns (start': nat,
                          current: nat)
      requires Valid() && s == State() && Sized(s.fat) && IsFile(s.fat, ch)
      requires start == if ch == [] then 0 else ch[0]
      modifies this, disk
      ensures Valid() && Data() == old(Data()) && Intact(old(disk[..]))
      ensures var q := GrowTo(s, ch, skip + 1);
              && State() == q.s
              && (if current != 0 then Growing(s, ch, skip, current) else Full(s, ch, skip + 1))
              && start' == if q.ch == [] then 0 else q.ch[0]
    {
      hide Links, Clusters, TopBits, Mirrored, GrowTo, Pick, IsChain, JustTaken;
      start' := start;
      FileInRange(s.fat, ch);
      GrowToFirst(s, ch, skip + 1);
      if start == 0 {
        start' := AllocateCluster();
        if start' == 0 {
          return start', 0;
        }
      }
      current := start';
      for i := 0 to skip
        invariant Valid() && Data() == old(Data()) && Intact(old(disk[..]))
        invariant Growing(s, ch, i, current)
      {
        current := NextOrAllocate(current, s, ch, i);
        if current == 0 {
          GrowToStuck(s, ch, i + 2, skip + 1);
          return;
        }
      }
    }

    // Writes `buf` at byte `offset` of the file with chain `ch` (empty, and start 0, for a file
    // that has no cluster yet), growing the chain as needed. `ch'` is the chain afterwards and
    // `written` how many bytes reached the device; -1 is the C error return.
    method WriteFileData(start: nat, offset: nat, buf: seq<byte>, ghost ch: seq<nat>)
      returns (r: int, start': nat, ghost ch': seq<nat>, ghost written: nat)
      requires Valid() && IsFile(State().fat, ch)
      requires start == if ch == [] then 0 else ch[0]
      modifies this, disk
      ensures Valid() && Intact(old(disk[..]))
      ensures buf == [] ==> r == 0 && State() == old(State()) && ch' == ch && written == 0
      ensures buf != [] ==>
                var n := g.ClusterBytes();
                var grown := GrowTo(old(State()), ch, ClustersFor(offset + |buf|, n));
                && State() == grown.s && ch' == grown.ch
                && r == (if grown.ok then |buf| else -1)
                && written == (if grown.ok then |buf| else if Bytes(|ch'|, n) <= offset then 0 else Bytes(|ch'|, n) - offset)
      ensures start' == if ch' == [] then 0 else ch'[0]
      ensures written <= |buf|
      ensures Written(old(Data()), Data(), ch', g.ClusterBytes(), offset, buf[..written])
    {
      hide Links, Clusters, TopBits, Mirrored, Flat, Bytes, IsChain, GrowTo, Pick, ClustersFor;
      hide Geometry.FatBase, Geometry.ClusterAddr;
      start', ch', r, written := start, ch, 0, 0;
      LimitSmall(g, disk.Length);
      ghost var s, data := State(), Data();
      FileInRange(s.fat, ch);
      if buf == [] {
        WrittenNothing(data, ch, g.ClusterBytes(), offset);
        return;
      }
      hide Written;
      var n := g.ClusterBytes();
      var skip, co := SplitOffset(offset, n);
      var current;
      start', current := WalkAllocating(start, skip, s, ch);
      ghost var need := ClustersFor(offset + |buf|, n);
      WriteNeeds(offset, |buf|, skip, co, n);
      GrowToFirst(s, ch, skip + 1);
      GrowToFirst(s, ch, need);
      if current == 0 {
        GrowToStuck(s, ch, skip + 1, need);
        GrowToShort(s, ch, skip + 1);
        BytesMono(|GrowTo(s, ch, need).ch|, skip, n);
        WrittenNothing(data, GrowTo(s, ch, need).ch, n, offset);
        r, ch' := -1, GrowTo(s, ch, need).ch;
        return;
      }
      var ok;
      ok, written := CopyIn(current, co, offset, buf, s, ch, skip, data);
      ch' := GrowTo(s, ch, need).ch;
      r := if ok then |buf| else -1;
    }

    // Writes `buf` from byte `co0` of cluster number k0 on.
    method CopyIn(start: nat, co0: nat, offset: nat, buf: seq<byte>,
                  ghost s: FatState, ghost ch: seq<nat>, ghost k0: nat, ghost data0: seq<seq<byte>>)
      returns (ok: bool, ghost written: nat)
      requires Valid() && Growing(s, ch, k0, start) && data0 == Data()
      requires buf != [] && co0 < g.ClusterBytes() && Bytes(k0, g.ClusterBytes()) + co0 == offset
      modifies this, disk
      ensures Valid() && Intact(old(disk[..]))
      ensures var n := g.ClusterBytes();
              var grown := GrowTo(s, ch, ClustersFor(offset + |buf|, n));
              && State() == grown.s && ok == grown.ok
              && written <= |buf|
              && (if ok then written == |buf| else offset + written == Bytes(|grown.ch|, n))
              && Written(data0, Data(), grown.ch, n, offset, buf[..written])
    {
      hide Links, Clusters, TopBits, Mirrored, Flat, Bytes, IsChain, GrowTo, Pick, ClustersFor, Written;
      hide Append, Uniform, Geometry.FatBase, Geometry.ClusterAddr;
      var n: nat, co: nat, current: nat, w: nat := g.ClusterBytes(), co0, start, 0;
      ghost var k: nat := k0;
      var clusterBuf: seq<byte> := seq(n, _ => 0);
      FileInRange(s.fat, ch);
      WrittenNothing(data0, GrowTo(s, ch, k + 1).ch, n, offset);
      assert buf[..0] == [];
      while w < |buf|
        invariant Valid() && Intact(old(disk[..])) && Growing(s, ch, k, current)
        invariant co < n && w <= |buf| && |clusterBuf| == n && (w > 0 ==> co == 0)
        invariant if w < |buf| then Bytes(k, n) + co == offset + w else Bytes(k, n) < offset + w <= Bytes(k, n) + n
        invariant Written(data0, Data(), GrowTo(s, ch, k + 1).ch, n, offset, buf[..w])
      {
        BytesNext(k, n);
        var toWrite;
        toWrite, clusterBuf := CopyCluster(current, co, offset, buf, w, clusterBuf, s, ch, k, data0);
        w, co := w + toWrite, 0;
        if w < |buf| {
          WrittenAlong(s, ch, k + 1, data0, Data(), n, offset, buf[..w]);
          WriteNeeds(offset + w, |buf| - w, k + 1, 0, n);
          current := NextOrAllocate(current, s, ch, k);
          if current == 0 {
            GrowToShort(s, ch, k + 2);
            GrowToStuck(s, ch, k + 2, ClustersFor(offset + |buf|, n));
            return false, w;
          }
          k := k + 1;
        }
      }
      ClustersForIs(offset + w, n, k);
      return true, w;
    }

    // One turn of the loop: replaces the bytes of `current`, cluster number k, from byte `co` on.
    // Bytes it does not replace are read first.
    method CopyCluster(current: nat, co: nat, offset: nat, buf: seq<byte>, w: nat, clusterBuf: seq<byte>,
                       ghost s: FatState, ghost ch: seq<nat>, ghost k: nat, ghost data0: seq<seq<byte>>)
      returns (toWrite: nat, clusterBuf': seq<byte>)
      requires Valid() && Growing(s, ch, k, current) && w < |buf| && co < g.ClusterBytes() == |clusterBuf|
      requires Bytes(k, g.ClusterBytes()) + co == offset + w && (w > 0 ==> co == 0)
      requires Written(data0, Data(), GrowTo(s, ch, k + 1).ch, g.ClusterBytes(), offset, buf[..w])
      modifies disk
      ensures State() == old(State()) && Intact(old(disk[..]))
      ensures toWrite == if g.ClusterBytes() - co > |buf| - w then |buf| - w else g.ClusterBytes() - co
      ensures |clusterBuf'| == g.ClusterBytes()
      ensures Written(data0, Data(), GrowTo(s, ch, k + 1).ch, g.ClusterBytes(), offset, buf[..w + toWrite])
    {
      hide Links, Clusters, TopBits, Mirrored, Flat, Bytes, IsChain, GrowTo, Pick, Written;
      var n := g.ClusterBytes();
      FileInRange(s.fat, ch);
      GrowToKeeps(s, ch, k + 1);
      FileInRange(State().fat, GrowTo(s, ch, k + 1).ch);
      clusterBuf' := clusterBuf;
      if co != 0 || |buf| - w < n {
        var _, b := ReadCluster(current);
        clusterBuf' := b;
      }
      toWrite := n - co;
      if toWrite > |buf| - w {
        toWrite := |buf| - w;
      }
      CopyStep(s, ch, k, data0, Data(), n, offset, buf, w, co, toWrite, clusterBuf');
      hide Splice;
      clusterBuf' := Splice(clusterBuf', co, buf[w..w + toWrite]);
      var _ := WriteCluster(current, clusterBuf');
    }

    // A write that reports all its bytes, then a read of the same range.
    method WriteThenRead(start: nat, offset: nat, buf: seq<byte>, ghost ch: seq<nat>) returns (r: int, back: seq<byte>)
      requires Valid() && IsFile(State().fat, ch)
      requires start == if ch == [] then 0 else ch[0]
      requires buf != []
      modifies this, disk
      ensures Valid() && Intact(old(disk[..]))
      ensures r == |buf| || r == -1
      ensures r == |buf| ==> back == buf
      // it succeeds exactly when the clusters it lacks are free, and one more than the hidden one
      ensures var need := ClustersFor(offset + |buf|, g.ClusterBytes()) - |ch|;
              r == |buf| <==>
                || need <= 0
                || (need <= FreeClusters(old(State()).fat)
                    && (HintOk(old(State()).fat, old(nextFree)) || FreeClusters(old(State()).fat) > 1))
    {
      hide Links, Clusters, TopBits, Mirrored, Flat, Bytes, IsChain, GrowTo, Pick, ClustersFor, Written, FreeBelow,
           HintOk;
      ghost var s, data, need := State(), Data(), ClustersFor(offset + |buf|, g.ClusterBytes());
      LimitSmall(g, disk.Length);
      FileInRange(s.fat, ch);
      GrowToSucceeds(s, ch, need);
      GrowToKeeps(s, ch, need);
      var start';
      ghost var ch', written;
      r, start', ch', written := WriteFileData(start, offset, buf, ch);
      back := [];
      if r >= 0 {
        assert buf[..written] == buf;
        WrittenReadsBack(data, Data(), ch', g.ClusterBytes(), offset, buf);
        NonEmptyFlat(Data(), ch');
        ChainInRange(State().fat, ch');
        r, back := ReadFileData(start', offset, |buf|, ch');
      }
    }
  }

  // The cluster number of probe i from `start`, and which clusters the probes before it looked at.
  function ProbeAt(start: nat, i: nat, clusters: nat): nat {
    if start >= clusters + 2 then if i == 0 then start else i + 1
    else if start + i < clusters + 2 then start + i
    else start + i - clusters
  }

  ghost predicate Probed(start: nat, i: nat, clusters: nat, c: nat) {
    if start < clusters + 2 then start <= c < start + i || c < start + i - clusters else c < i + 1
  }

  ghost predicate NoneFree(fat: seq<nat>, start: nat, i: nat)
    requires 2 <= |fat|
  {
    forall c :: 2 <= c < |fat| && Probed(start, i, |fat| - 2, c) ==> fat[c] != FREE_CLUSTER
  }

  lemma NothingProbed(fat: seq<nat>, start: nat)
    requires 2 <= |fat| && 2 <= start
    ensures NoneFree(fat, start, 0)
  {}

  lemma ProbedOne(fat: seq<nat>, start: nat, i: nat)
    requires 2 <= |fat| && 2 <= start && i < |fat| - 2 && NoneFree(fat, start, i)
    requires var p := ProbeAt(start, i, |fat| - 2); p < |fat| ==> fat[p] != FREE_CLUSTER
    ensures NoneFree(fat, start, i + 1)
  {}

  // Whatever is free and preceded by no free cluster in probing order is the pick.
  lemma FoundFree(fat: seq<nat>, hint: nat, i: nat)
    requires 2 <= |fat| && i < |fat| - 2 && NoneFree(fat, Start(hint), i)
    requires var p := ProbeAt(Start(hint), i, |fat| - 2); p < |fat| && fat[p] == FREE_CLUSTER
    ensures ProbeAt(Start(hint), i, |fat| - 2) == Pick(fat, hint)
  {
    forall c | 2 <= c < |fat| && Probed(Start(hint), i, |fat| - 2, c) ensures fat[c] != FREE_CLUSTER {}
  }

  lemma NothingFree(fat: seq<nat>, hint: nat)
    requires 2 <= |fat| && NoneFree(fat, Start(hint), |fat| - 2)
    ensures Pick(fat, hint) == 0
  {}
}
