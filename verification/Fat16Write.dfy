/**
 Writing a FAT16 file through its handle: the walk to the place, allocating and linking clusters
 on the way, and the loop that writes sector by sector, against the file as the bytes of its chain.
 */
module Fat16Write {
  import opened Basics
  import opened Fat32Disk
  import opened Fat32Chains
  import opened Fat32Files
  import opened Fat16Disk
  import opened Fat16Volume
  import opened Fat16Read

  // ----- first fit as next fit -----

  // Nothing is free below the hint: taking the lowest free cluster is taking the next one.
  ghost predicate FirstFit(s: FatState) {
    forall c :: 2 <= c < |s.fat| && c < Start(s.nextFree) ==> s.fat[c] != FREE_CLUSTER
  }

  lemma FirstFitPick(s: FatState)
    requires 2 <= |s.fat| && FirstFit(s)
    ensures Pick(s.fat, s.nextFree) == FirstFree(s.fat, 2, |s.fat|)
  {
    FirstFreeIs(s.fat, Pick(s.fat, s.nextFree));
  }

  lemma FirstFreeIs(fat: seq<nat>, r: nat)
    requires 2 <= |fat| && (r == 0 || (2 <= r < |fat| && fat[r] == FREE_CLUSTER))
    requires forall c :: 2 <= c < |fat| && (r == 0 || c < r) ==> fat[c] != FREE_CLUSTER
    ensures r == FirstFree(fat, 2, |fat|)
  {}

  // The FAT before a write, as the growth of a chain sees it.
  function Before(fat: seq<nat>): FatState { FatState(fat, UNKNOWN, 2) }

  lemma FirstFitAppend(s: FatState, ch: seq<nat>)
    requires Sized(s.fat) && IsFile(s.fat, ch) && FirstFit(s)
    ensures FirstFit(Append(s, ch).s)
  {
    FileInRange(s.fat, ch);
    var c := Pick(s.fat, s.nextFree);
    FirstFitPick(s);
    if c != 0 { assert c < BAD_CLUSTER; }
  }

  lemma {:induction false} FirstFitGrows(fat: seq<nat>, ch: seq<nat>, k: nat)
    requires Sized(fat) && IsFile(fat, ch)
    ensures FirstFit(GrowTo(Before(fat), ch, k).s)
  {
    hide Append, FirstFit, IsFile;
    FileInRange(fat, ch);
    if k <= |ch| {
      FirstFitBefore(fat);
    } else {
      FirstFitGrows(fat, ch, k - 1);
      GrowToKeeps(Before(fat), ch, k - 1);
      var q := GrowTo(Before(fat), ch, k - 1);
      if q.ok { FirstFitAppend(q.s, q.ch); }
    }
  }

  lemma FirstFitBefore(fat: seq<nat>)
    ensures FirstFit(Before(fat))
  {}

  // A growth that reaches n clusters has reached every number below.
  lemma GrowToBelow(s: FatState, ch: seq<nat>, m: nat, n: nat)
    requires 2 <= |s.fat| && (forall i :: 0 <= i < |ch| ==> 2 <= ch[i] < |s.fat|) && m <= n && GrowTo(s, ch, n).ok
    ensures GrowTo(s, ch, m).ok
  {
    if !GrowTo(s, ch, m).ok { GrowToStuck(s, ch, m, n); }
  }

  // ----- the walk -----

  // The search for free clusters can be relied on while the file grows to n clusters.
  ghost predicate Roomy(fs: Volume16, fat: seq<nat>, ch: seq<nat>, n: nat)
    requires fs.Valid() && 2 <= |fat| && forall i :: 0 <= i < |ch| ==> 2 <= ch[i] < |fat|
    reads fs.disk
  {
    SpareTaken(fs.g, fs.disk[..]) || GrowTo(Before(fat), ch, n).ok
  }

  // Growing the file (fat, ch) has reached its cluster number k, which is `current`.
  ghost predicate Growing16(fs: Volume16, fat: seq<nat>, ch: seq<nat>, k: nat, current: nat)
    requires fs.Valid()
    reads fs.disk
  {
    && Sized(fat) && |fat| == fs.g.Limit() && IsFile(fat, ch)
    && var q := GrowTo(Before(fat), ch, k + 1);
       q.ok && fs.Links() == q.s.fat && current == q.ch[k]
  }

  // Growing it to n clusters filled the volume first.
  ghost predicate Full16(fs: Volume16, fat: seq<nat>, ch: seq<nat>, n: nat)
    requires fs.Valid()
    reads fs.disk
  {
    && 2 <= |fat| && (forall i :: 0 <= i < |ch| ==> 2 <= ch[i] < |fat|)
    && !GrowTo(Before(fat), ch, n).ok && fs.Links() == GrowTo(Before(fat), ch, n).s.fat
  }

  // A free cluster, marked as the end of a chain; 0 if there is none.
  method Claim(fs: Volume16, ghost s: FatState) returns (c: nat)
    requires fs.Valid() && fs.Links() == s.fat && FirstFit(s)
    requires SpareTaken(fs.g, fs.disk[..]) || Pick(s.fat, s.nextFree) != 0
    ensures c == Pick(s.fat, s.nextFree)
  {
    hide Links16, SpareTaken, FirstUsable, FirstFree, Pick, Geometry16.Valid;
    LimitTwo(fs);
    SearchIsExact(fs.g, fs.disk[..]);
    FirstFitPick(s);
    c := fs.FindFreeCluster();
  }

  lemma LimitTwo(fs: Volume16)
    requires fs.Valid()
    ensures 2 <= fs.g.Limit() <= BAD_CLUSTER16 && 0 < fs.g.ClusterSize()
  {}

  // Moves from cluster number k of the file to the next, allocating and linking one if the chain
  // ends; 0 when the volume is full.
  method NextOrNew(fs: Volume16, current: nat, ghost fat: seq<nat>, ghost ch: seq<nat>, ghost k: nat, ghost n: nat)
    returns (next: nat)
    requires fs.Valid() && Growing16(fs, fat, ch, k, current) && k + 2 <= n
    requires FileInTable(fat, ch) && Roomy(fs, fat, ch, n)
    modifies fs.disk
    ensures fs.Data() == old(fs.Data()) && fs.Intact(old(fs.disk[..]))
    ensures if next != 0 then Growing16(fs, fat, ch, k + 1, next) else Full16(fs, fat, ch, k + 2)
  {
    hide Links16, Data16, Mirrored16, SpareTaken, GrowTo, Pick, IsFile, FirstFit, Geometry16.Valid;
    LimitTwo(fs);
    GrowsOn(fat, ch, k);
    if GrowTo(Before(fat), ch, n).ok { GrowToBelow(Before(fat), ch, k + 2, n); }
    next := fs.GetNextCluster(current);
    RawLink(next);
    if next >= END_OF_CHAIN {
      next := Claim(fs, GrowTo(Before(fat), ch, k + 1).s);
      if next == 0 { return; }
      fs.SetClusterValue(current, next);
      fs.SetClusterValue(next, EOC16);
    }
  }

  // The next cluster of the chain, or what linking a new one does.
  lemma GrowsOn(fat: seq<nat>, ch: seq<nat>, k: nat)
    requires Sized(fat) && IsFile(fat, ch) && FileInTable(fat, ch) && GrowTo(Before(fat), ch, k + 1).ok
    ensures var q, r := GrowTo(Before(fat), ch, k + 1), GrowTo(Before(fat), ch, k + 2);
            var link, c := q.s.fat[q.ch[k]], Pick(q.s.fat, q.s.nextFree);
            && FirstFit(q.s)
            && (if link < EOC_MIN then 2 <= link < |fat| && r == q && k + 1 < |q.ch| && link == q.ch[k + 1]
                else if c == 0 then r == Growth(q.s, q.ch, false)
                else r.ok && r.ch == q.ch + [c] && |q.ch| == k + 1 && r.s.fat == q.s.fat[q.ch[k] := c][c := EOC])
  {
    hide GrowTo, Append, Pick, IsChain, FirstFit;
    var q := GrowTo(Before(fat), ch, k + 1);
    GrowToNext(Before(fat), ch, k);
    GrowToKeeps(Before(fat), ch, k + 1);
    FollowLink(q.s.fat, q.ch, k);
    FirstFitGrows(fat, ch, k + 1);
    if Pick(q.s.fat, q.s.nextFree) != 0 { LinkOrder(q.s.fat, q.ch, k, Pick(q.s.fat, q.s.nextFree)); }
  }

  ghost predicate FileInTable(fat: seq<nat>, ch: seq<nat>) {
    2 <= |fat| && forall i :: 0 <= i < |ch| ==> 2 <= ch[i] < |fat|
  }

  lemma RawLink(l: nat)
    requires l < SHORT_SPAN
    ensures Wide(l) >= EOC_MIN <==> l >= END_OF_CHAIN
    ensures l < BAD_CLUSTER16 ==> Wide(l) == l
    ensures Wide(EOC16) == EOC
  {}

  // A cluster just claimed is not the last of the chain, so the two links can be set either way round.
  lemma LinkOrder(fat: seq<nat>, ch: seq<nat>, k: nat, c: nat)
    requires Sized(fat) && IsFile(fat, ch) && k < |ch| && 2 <= c < |fat| && fat[c] == FREE_CLUSTER
    ensures ch[k] < |fat| && fat[ch[k] := c][c := EOC] == fat[c := EOC][ch[k] := c]
  {
    FileInRange(fat, ch);
    NotFreeInChain(fat, ch);
    assert ch[k] in ch;
  }

  // A file without a cluster gets one.
  method FirstOrNew(f: File16, ghost ch: seq<nat>, ghost n: nat) returns (ok: bool)
    requires f.Sound(ch) && FileInTable(f.fs.Links(), ch) && n >= 1 && Roomy(f.fs, f.fs.Links(), ch, n)
    modifies f`firstCluster, f.fs.disk
    ensures f.fs.Data() == old(f.fs.Data()) && f.fs.Intact(old(f.fs.disk[..]))
    ensures if ok then Growing16(f.fs, old(f.fs.Links()), ch, 0, f.firstCluster)
            else Full16(f.fs, old(f.fs.Links()), ch, 1) && f.firstCluster == old(f.firstCluster)
  {
    hide Links16, Data16, Mirrored16, SpareTaken, GrowTo, Append, Pick, IsChain, FirstFit, Geometry16.Valid, Bytes;
    LimitTwo(f.fs);
    ghost var fat := f.fs.Links();
    FileInRange(fat, ch);
    GrowToFirst(Before(fat), ch, 1);
    FirstFitBefore(fat);
    if f.firstCluster < 2 {
      if GrowTo(Before(fat), ch, n).ok { GrowToBelow(Before(fat), ch, 1, n); }
      var c := Claim(f.fs, Before(fat));
      if c == 0 { return false; }
      RawLink(EOC16);
      f.fs.SetClusterValue(c, EOC16);
      f.firstCluster := c;
    }
    ok := true;
  }

  // Reaches cluster number `index` of the file, allocating on the way.
  method WalkTo(fs: Volume16, start: nat, index: nat, ghost fat: seq<nat>, ghost ch: seq<nat>, ghost n: nat)
    returns (cluster: nat)
    requires fs.Valid() && Growing16(fs, fat, ch, 0, start) && index + 1 <= n
    requires FileInTable(fat, ch) && Roomy(fs, fat, ch, n)
    modifies fs.disk
    ensures fs.Data() == old(fs.Data()) && fs.Intact(old(fs.disk[..]))
    ensures if cluster != 0 then Growing16(fs, fat, ch, index, cluster) else Full16(fs, fat, ch, index + 1)
  {
    hide Links16, Data16, Mirrored16, SpareTaken, GrowTo, IsChain, Geometry16.Valid;
    cluster := start;
    for i := 0 to index
      invariant fs.Data() == old(fs.Data()) && fs.Intact(old(fs.disk[..]))
      invariant Growing16(fs, fat, ch, i, cluster)
    {
      cluster := NextOrNew(fs, cluster, fat, ch, i, n);
      if cluster == 0 {
        GrowToStuck(Before(fat), ch, i + 2, index + 1);
        return;
      }
    }
    FileInRange(fat, ch);
    GrownInRange(fs, fat, ch, index, cluster);
  }

  lemma GrownInRange(fs: Volume16, fat: seq<nat>, ch: seq<nat>, k: nat, current: nat)
    requires fs.Valid() && Growing16(fs, fat, ch, k, current)
    ensures 2 <= current < fs.g.Limit()
  {}

  // Cluster number `index` of the file, which may have none yet; 0 when the volume filled up on
  // the way to cluster number k - 1.
  method Place(f: File16, index: nat, ghost ch: seq<nat>, ghost n: nat) returns (cluster: nat, ghost k: nat)
    requires f.Sound(ch) && FileInTable(f.fs.Links(), ch) && index + 1 <= n && Roomy(f.fs, f.fs.Links(), ch, n)
    modifies f`firstCluster, f.fs.disk
    ensures f.fs.Data() == old(f.fs.Data()) && f.fs.Intact(old(f.fs.disk[..]))
    ensures if cluster != 0 then Growing16(f.fs, old(f.fs.Links()), ch, index, cluster)
            else 1 <= k <= index + 1 && Full16(f.fs, old(f.fs.Links()), ch, k)
    ensures var ch' := GrowTo(Before(old(f.fs.Links())), ch, n).ch;
            if ch' == [] then f.firstCluster < 2 else f.firstCluster == ch'[0]
  {
    hide Links16, Data16, Mirrored16, SpareTaken, GrowTo, IsChain, Bytes, Geometry16.Valid, Geometry16.ClusterSize;
    LimitTwo(f.fs);
    ghost var fat := f.fs.Links();
    FirstStays(fat, ch, n);
    var ok := FirstOrNew(f, ch, n);
    if !ok { return 0, 1; }
    cluster := WalkTo(f.fs, f.firstCluster, index, fat, ch, n);
    k := index + 1;
  }

  // ----- the bytes -----

  // One turn of the loop: as many bytes as fit in the sector. The sector is read first.
  method PutPiece(fs: Volume16, cluster: nat, sector: nat, byteIn: nat, buf: seq<byte>, w: nat,
                  ghost fat: seq<nat>, ghost ch: seq<nat>, ghost k: nat, ghost off: nat, ghost data0: seq<seq<byte>>)
    returns (t: nat)
    requires fs.Valid() && Growing16(fs, fat, ch, k, cluster) && w < |buf|
    requires sector < fs.g.sectorsPerCluster && byteIn < SECTOR
    requires Bytes(k, fs.g.ClusterSize()) + fs.SectorAt(sector, byteIn) == off + w
    requires FileInTable(fat, ch)
             && Written(data0, fs.Data(), GrowTo(Before(fat), ch, k + 1).ch, fs.g.ClusterSize(), off, buf[..w])
    modifies fs.disk
    ensures fs.Links() == old(fs.Links()) && fs.Intact(old(fs.disk[..]))
    ensures t == if |buf| - w < SECTOR - byteIn then |buf| - w else SECTOR - byteIn
    ensures Written(data0, fs.Data(), GrowTo(Before(fat), ch, k + 1).ch, fs.g.ClusterSize(), off, buf[..w + t])
  {
    hide Links16, Data16, Mirrored16, SpareTaken, GrowTo, IsChain, Bytes, Written, Splice, Flat, Geometry16.Valid,
         Geometry16.ClusterSize;
    GrownInRange(fs, fat, ch, k, cluster);
    var remain := |buf| - w;
    var space := SECTOR - byteIn;
    t := if remain < space then remain else space;
    ghost var q, data := GrowTo(Before(fat), ch, k + 1), fs.Data();
    GrowToKeeps(Before(fat), ch, k + 1);
    ChainAcyclic(q.s.fat, q.ch);
    fs.SectorAddr16(cluster, sector, byteIn, t);
    WrittenStep(data0, data, q.ch, fs.g.ClusterSize(), off, buf[..w], k, fs.SectorAt(sector, byteIn), buf[w..w + t]);
    assert buf[..w] + buf[w..w + t] == buf[..w + t];
    fs.PutInSector(cluster, sector, byteIn, buf[w..w + t]);
  }

  // The size of a file after w bytes were written at `off`.
  function SizeAfter(size: nat, off: nat, w: nat): nat { if w > 0 && off + w > size then off + w else size }

  // One turn, with the position and the size kept up to date; `sector'` may be past the cluster.
  method PutTurn(f: File16, cluster: nat, sector: nat, byteIn: nat, buf: seq<byte>, i: nat, ghost fat: seq<nat>,
                 ghost ch: seq<nat>,
                 ghost k: nat, ghost off: nat, ghost size: nat, ghost data0: seq<seq<byte>>)
    returns (sector': nat, byteIn': nat, i': nat)
    requires f.fs.Valid() && Growing16(f.fs, fat, ch, k, cluster) && i < |buf|
    requires sector < f.fs.g.sectorsPerCluster && byteIn < SECTOR
    requires Bytes(k, f.fs.g.ClusterSize()) + f.fs.SectorAt(sector, byteIn) == off + i
    requires FileInTable(fat, ch)
             && Written(data0, f.fs.Data(), GrowTo(Before(fat), ch, k + 1).ch, f.fs.g.ClusterSize(), off, buf[..i])
    requires f.currentOffset == off + i && f.fileSize == SizeAfter(size, off, i)
    modifies f`currentOffset, f`fileSize, f.fs.disk
    ensures f.fs.Links() == old(f.fs.Links()) && f.fs.Intact(old(f.fs.disk[..])) && i < i' <= |buf|
    ensures sector' <= f.fs.g.sectorsPerCluster && byteIn' < SECTOR
            && (sector' == f.fs.g.sectorsPerCluster ==> byteIn' == 0)
    ensures Bytes(k, f.fs.g.ClusterSize()) + f.fs.SectorAt(sector', byteIn') == off + i'
    ensures Written(data0, f.fs.Data(), GrowTo(Before(fat), ch, k + 1).ch, f.fs.g.ClusterSize(), off, buf[..i'])
    ensures f.currentOffset == off + i' && f.fileSize == SizeAfter(size, off, i')
  {
    hide Links16, Data16, Mirrored16, SpareTaken, GrowTo, IsFile, Bytes, Written, Geometry16.Valid,
         Geometry16.ClusterSize;
    var t := PutPiece(f.fs, cluster, sector, byteIn, buf, i, fat, ch, k, off, data0);
    i' := i + t;
    f.currentOffset := f.currentOffset + t;
    if f.currentOffset > f.fileSize {
      f.fileSize := f.currentOffset;
    }
    sector', byteIn' := sector, byteIn + t;
    if byteIn' >= SECTOR {
      sector', byteIn' := sector' + 1, 0;
    }
  }

  lemma IndexAtLeast(k: nat, n: nat, x: nat)
    requires n > 0 && Bytes(k, n) <= x
    ensures k <= Index(x, n)
  {
    var i := Index(x, n);
    Positioned(x, n, i);
    if i < k { BytesMono(i + 1, k, n); }
  }

  // The loop, from the cluster and sector of the current offset on.
  method PutAll(f: File16, start: nat, buf: seq<byte>, ghost fat: seq<nat>, ghost ch: seq<nat>, ghost k0: nat,
                ghost data0: seq<seq<byte>>)
    returns (ok: bool, ghost w: nat)
    requires f.fs.Valid() && Growing16(f.fs, fat, ch, k0, start) && data0 == f.fs.Data() && FileInTable(fat, ch)
    requires f.fs.g.ClusterSize() > 0 && k0 == Index(f.currentOffset, f.fs.g.ClusterSize()) && buf != []
    requires Roomy(f.fs, fat, ch, Index(f.currentOffset + |buf|, f.fs.g.ClusterSize()) + 1)
    modifies f`currentOffset, f`fileSize, f.fs.disk
    ensures f.fs.Intact(old(f.fs.disk[..])) && w <= |buf|
    ensures f.currentOffset == old(f.currentOffset) + w
            && f.fileSize == SizeAfter(old(f.fileSize), old(f.currentOffset), w)
    ensures var n, off := f.fs.g.ClusterSize(), old(f.currentOffset);
            var grown := GrowTo(Before(fat), ch, Index(off + |buf|, n) + 1);
            && f.fs.Links() == grown.s.fat && ok == grown.ok
            && (if ok then w == |buf| else off + w == Bytes(|grown.ch|, n))
            && Written(data0, f.fs.Data(), grown.ch, n, off, buf[..w])
  {
    hide Links16, Data16, Mirrored16, SpareTaken, GrowTo, IsFile, Bytes, Written, Index, Geometry16.Valid,
         Geometry16.ClusterSize;
    var fs, cluster: nat := f.fs, start;
    var n := fs.g.ClusterSize();
    ghost var off, size, k: nat := f.currentOffset, f.fileSize, k0;
    ghost var need := Index(off + |buf|, n) + 1;
    ghost var s := Before(fat);
    var sector: nat, byteIn: nat;
    sector, byteIn := SectorPlace(fs.g, f.currentOffset, k);
    w := 0;
    StartWritten(fs, fat, ch, k, off, buf, start);
    var i: nat := 0;
    while i < |buf|
      invariant fs.Valid() && Growing16(fs, fat, ch, k, cluster) && fs.Intact(old(fs.disk[..])) && w == i <= |buf|
      invariant sector < fs.g.sectorsPerCluster && byteIn < SECTOR
                && Bytes(k, n) + fs.SectorAt(sector, byteIn) == off + i
      invariant Written(data0, fs.Data(), GrowTo(s, ch, k + 1).ch, n, off, buf[..i])
      invariant f.currentOffset == off + i && f.fileSize == SizeAfter(size, off, i)
    {
      sector, byteIn, i := PutTurn(f, cluster, sector, byteIn, buf, i, fat, ch, k, off, size, data0);
      w := i;
      if sector >= fs.g.sectorsPerCluster {
        NextCluster(fs.g, k, off + i);
        IndexAtLeast(k + 1, n, off + |buf|);
        StillWritten(fs, fat, ch, k, data0, fs.Data(), off, buf[..i]);
        cluster := NextOrNew(fs, cluster, fat, ch, k, need);
        if cluster == 0 {
          GrowToShort(s, ch, k + 2);
          GrowToStuck(s, ch, k + 2, need);
          return false, w;
        }
        sector, k := 0, k + 1;
      }
    }
    InThisCluster(fs.g, k, sector, byteIn, off + i);
    assert buf[..i] == buf[..w];
    ok := true;
  }

  // The sector and byte of an offset in cluster number k.
  method SectorPlace(g: Geometry16, off: nat, ghost k: nat) returns (sector: nat, byteIn: nat)
    requires g.ClusterSize() > 0 && k == Index(off, g.ClusterSize())
    ensures sector < g.sectorsPerCluster && byteIn < SECTOR
    ensures Bytes(k, g.ClusterSize()) + SECTOR * sector + byteIn == off
  {
    var co := off % g.ClusterSize();
    Positioned(off, g.ClusterSize(), k);
    DivModUnique(off, g.ClusterSize(), k, off - Bytes(k, g.ClusterSize()));
    sector, byteIn := co / SECTOR, co % SECTOR;
    assert SECTOR * sector + byteIn == co;
  }

  lemma NextCluster(g: Geometry16, k: nat, x: nat)
    requires Bytes(k, g.ClusterSize()) + SECTOR * g.sectorsPerCluster == x
    ensures Bytes(k + 1, g.ClusterSize()) == x
  {
    BytesNext(k, g.ClusterSize());
  }

  lemma InThisCluster(g: Geometry16, k: nat, sector: nat, byteIn: nat, x: nat)
    requires g.ClusterSize() > 0 && sector < g.sectorsPerCluster && byteIn < SECTOR
    requires Bytes(k, g.ClusterSize()) + SECTOR * sector + byteIn == x
    ensures Index(x, g.ClusterSize()) == k
  {
    IndexIs(x, g.ClusterSize(), k);
  }

  lemma StartWritten(fs: Volume16, fat: seq<nat>, ch: seq<nat>, k: nat, off: nat, buf: seq<byte>, current: nat)
    requires fs.Valid() && Growing16(fs, fat, ch, k, current) && FileInTable(fat, ch)
    ensures Written(fs.Data(), fs.Data(), GrowTo(Before(fat), ch, k + 1).ch, fs.g.ClusterSize(), off, buf[..0])
  {
    hide GrowTo, Flat;
    WrittenNothing(fs.Data(), GrowTo(Before(fat), ch, k + 1).ch, fs.g.ClusterSize(), off);
    assert buf[..0] == [];
  }

  lemma StillWritten(fs: Volume16, fat: seq<nat>, ch: seq<nat>, k: nat, data0: seq<seq<byte>>, data: seq<seq<byte>>,
                     off: nat, done: seq<byte>)
    requires fs.Valid() && Sized(fat) && IsFile(fat, ch) && FileInTable(fat, ch) && GrowTo(Before(fat), ch, k + 1).ok
    requires |data0| == |fat| && forall c :: 2 <= c < |data0| ==> |data0[c]| == fs.g.ClusterSize()
    requires Written(data0, data, GrowTo(Before(fat), ch, k + 1).ch, fs.g.ClusterSize(), off, done)
    ensures Written(data0, data, GrowTo(Before(fat), ch, k + 2).ch, fs.g.ClusterSize(), off, done)
  {
    hide Written, GrowTo, IsFile;
    WrittenAlong(Before(fat), ch, k + 1, data0, data, fs.g.ClusterSize(), off, done);
  }

  // ----- writing a file -----

  // How many clusters the file has after a write: the driver moves on to the next cluster, and
  // allocates it, as soon as one is full.
  function Needed(off: nat, size: nat, n: nat): nat
    requires n > 0
  {
    Index(off + size, n) + 1
  }

  // What a write of `buf` makes of the file with chain ch: `w` bytes of it are in place.
  ghost predicate Stored16(fat: seq<nat>, data: seq<seq<byte>>, ch: seq<nat>, off: nat, buf: seq<byte>, n: nat,
                           fat': seq<nat>, data': seq<seq<byte>>, ch': seq<nat>, r: int, w: nat)
  {
    && n > 0 && FileInTable(fat, ch) && w <= |buf|
    && var grown := GrowTo(Before(fat), ch, Needed(off, |buf|, n));
       && fat' == grown.s.fat && ch' == grown.ch && r == (if grown.ok then |buf| else -1)
       && w == (if grown.ok then |buf| else if Bytes(|ch'|, n) <= off then 0 else Bytes(|ch'|, n) - off)
       && Written(data, data', ch', n, off, buf[..w])
  }

  // The place is past what could be allocated.
  lemma NothingStored(fs: Volume16, fat: seq<nat>, ch: seq<nat>, off: nat, buf: seq<byte>, k: nat)
    requires fs.Valid() && fs.g.ClusterSize() > 0 && Sized(fat) && |fat| == fs.g.Limit() && IsFile(fat, ch)
             && Full16(fs, fat, ch, k)
    requires 1 <= k <= Index(off, fs.g.ClusterSize()) + 1
    ensures var n := fs.g.ClusterSize();
            Stored16(fat, fs.Data(), ch, off, buf, n, fs.Links(), fs.Data(),
                     GrowTo(Before(fat), ch, Needed(off, |buf|, n)).ch, -1, 0)
  {
    hide GrowTo, Bytes, Index, Flat, Links16, Data16, Geometry16.ClusterSize;
    var n := fs.g.ClusterSize();
    var need := Needed(off, |buf|, n);
    Positioned(off, n, Index(off, n));
    IndexAtLeast(Index(off, n), n, off + |buf|);
    GrowToStuck(Before(fat), ch, k, need);
    GrowToShort(Before(fat), ch, k);
    var ch' := GrowTo(Before(fat), ch, need).ch;
    BytesMono(|ch'|, Index(off, n), n);
    WrittenNothing(fs.Data(), ch', n, off);
    assert buf[..0] == [];
  }

  lemma AllStored(fat: seq<nat>, data: seq<seq<byte>>, ch: seq<nat>, off: nat, buf: seq<byte>, n: nat,
                  fat': seq<nat>, data': seq<seq<byte>>, ok: bool, w: nat)
    requires n > 0 && FileInTable(fat, ch) && w <= |buf| && buf != []
    requires var grown := GrowTo(Before(fat), ch, Needed(off, |buf|, n));
             && fat' == grown.s.fat && ok == grown.ok
             && (if ok then w == |buf| else off + w == Bytes(|grown.ch|, n))
             && Written(data, data', grown.ch, n, off, buf[..w])
    ensures Stored16(fat, data, ch, off, buf, n, fat', data', GrowTo(Before(fat), ch, Needed(off, |buf|, n)).ch,
                     if ok then |buf| else -1, w)
  {
    hide GrowTo, Bytes, Index, Written;
  }

  // fat16_write_file. `ch'` is the chain afterwards and w the number of bytes in place; -1 is the
  // C error return. The remembered place is not touched.
  method Write(f: File16, buf: seq<byte>, ghost ch: seq<nat>) returns (r: int, ghost ch': seq<nat>, ghost w: nat)
    requires f.Sound(ch) && f.fs.g.ClusterSize() > 0 && FileInTable(f.fs.Links(), ch)
    requires Roomy(f.fs, f.fs.Links(), ch, Needed(f.currentOffset, |buf|, f.fs.g.ClusterSize()))
    modifies f`firstCluster, f`currentOffset, f`fileSize, f.fs.disk
    ensures f.fs.Intact(old(f.fs.disk[..]))
    ensures buf == [] ==> r == -1 && w == 0 && ch' == ch && f.fs.disk[..] == old(f.fs.disk[..])
    ensures buf != [] ==> Stored16(old(f.fs.Links()), old(f.fs.Data()), ch, old(f.currentOffset), buf, f.fs.g.ClusterSize(),
                                   f.fs.Links(), f.fs.Data(), ch', r, w)
    ensures f.currentOffset == old(f.currentOffset) + w
            && f.fileSize == SizeAfter(old(f.fileSize), old(f.currentOffset), w)
    // the file is no shorter, covers the bytes in place, and no longer than that takes
    ensures f.fileSize >= old(f.fileSize) && (w > 0 ==> f.fileSize >= old(f.currentOffset) + w)
    ensures f.fileSize == old(f.fileSize) || (w > 0 && f.fileSize == old(f.currentOffset) + w)
    ensures f.Sound(ch')
    // the remembered place stays right exactly unless the file had no cluster to remember
    ensures old(f.Valid(ch)) ==> (f.Valid(ch') <==> ch != [] || ch' == [] || !f.cacheValid)
  {
    hide Links16, Data16, Mirrored16, SpareTaken, GrowTo, IsFile, Bytes, Written, Index, InCluster, Stored16,
         Geometry16.Valid, Geometry16.ClusterSize;
    r, ch', w := -1, ch, 0;
    if buf == [] { return; }
    LimitTwo(f.fs);
    ghost var fat, data, off, size := f.fs.Links(), f.fs.Data(), f.currentOffset, f.fileSize;
    var n := f.fs.g.ClusterSize();
    ghost var need := Needed(off, |buf|, n);
    ch' := GrowTo(Before(fat), ch, need).ch;
    IndexGrows(off, |buf|, n);
    if f.Valid(ch) { PlaceStays(f, fat, ch, need); }
    var cluster;
    ghost var k;
    cluster, k := Place(f, Index(f.currentOffset, n), ch, need);
    if cluster == 0 {
      NothingStored(f.fs, fat, ch, off, buf, k);
      StillSound(f, fat, data, ch, buf, r, ch', w, off, size);
      return;
    }
    var ok;
    ok, w := PutAll(f, cluster, buf, fat, ch, Index(off, n), data);
    r := if ok then |buf| else -1;
    AllStored(fat, data, ch, off, buf, n, f.fs.Links(), f.fs.Data(), ok, w);
    StillSound(f, fat, data, ch, buf, r, ch', w, off, size);
  }

  lemma FirstStays(fat: seq<nat>, ch: seq<nat>, n: nat)
    requires Sized(fat) && IsFile(fat, ch) && FileInTable(fat, ch) && n >= 1
    ensures var one, all := GrowTo(Before(fat), ch, 1), GrowTo(Before(fat), ch, n);
            if one.ok then one.ch != [] && all.ch != [] && all.ch[0] == one.ch[0] else ch == [] && all.ch == []
  {
    hide GrowTo, Pick, IsChain;
    GrowToFirst(Before(fat), ch, 1);
    GrowToFirst(Before(fat), ch, n);
  }

  lemma IndexGrows(off: nat, size: nat, n: nat)
    requires n > 0
    ensures Index(off, n) + 1 <= Needed(off, size, n)
  {
    Positioned(off, n, Index(off, n));
    IndexAtLeast(Index(off, n), n, off + size);
  }

  // The handle fits the grown chain.
  lemma StillSound(f: File16, fat: seq<nat>, data: seq<seq<byte>>, ch: seq<nat>, buf: seq<byte>, r: int, ch': seq<nat>,
                   w: nat, off: nat, size: nat)
    requires f.fs.Valid() && Sized(fat) && |fat| == f.fs.g.Limit() && IsFile(fat, ch)
    requires Stored16(fat, data, ch, off, buf, f.fs.g.ClusterSize(), f.fs.Links(), f.fs.Data(), ch', r, w)
    requires size <= Bytes(|ch|, f.fs.g.ClusterSize()) && size < WORD_SPAN && f.fileSize == SizeAfter(size, off, w)
    requires if ch' == [] then f.firstCluster < 2 else f.firstCluster == ch'[0]
    ensures f.Sound(ch')
  {
    hide GrowTo, Bytes, Index, Flat, Links16, Data16, IsChain, Geometry16.ClusterSize;
    var n := f.fs.g.ClusterSize();
    GrowToKeeps(Before(fat), ch, Needed(off, |buf|, n));
    FlatLength(f.fs.Data(), ch', n);
    FlatLength(data, ch', n);
    BytesMono(|ch|, |ch'|, n);
    ChainBound(f.fs.Links(), ch');
    ChainFits(f.fs, |ch'|);
  }

  lemma ChainFits(fs: Volume16, len: nat)
    requires fs.Valid() && len <= fs.g.Limit() - 2
    ensures Bytes(len, fs.g.ClusterSize()) < WORD_SPAN
  {
    hide Bytes;
    ClusterAddrIs16(fs.g, fs.g.Limit());
    BytesMono(len, fs.g.Limit() - 2, fs.g.ClusterSize());
  }

  // A remembered place is one of the grown chain exactly unless there was no chain.
  lemma PlaceStays(f: File16, fat: seq<nat>, ch: seq<nat>, n: nat)
    requires Sized(fat) && IsFile(fat, ch) && FileInTable(fat, ch)
    requires if ch == [] then f.cacheValid ==> f.cachedCluster < 2 else f.CacheOk(ch)
    ensures var ch' := GrowTo(Before(fat), ch, n).ch;
            if ch' == [] then ch == [] else f.CacheOk(ch') <==> ch != [] || !f.cacheValid
  {
    hide GrowTo, IsChain, Index, Geometry16.ClusterSize;
    GrowToKeeps(Before(fat), ch, n);
  }

  // A write succeeds exactly when the clusters it lacks are free, counting the one after a last
  // byte that fills its cluster.
  lemma StoredIff(fat: seq<nat>, data: seq<seq<byte>>, ch: seq<nat>, off: nat, buf: seq<byte>, n: nat,
                  fat': seq<nat>, data': seq<seq<byte>>, ch': seq<nat>, r: int, w: nat)
    requires Sized(fat) && IsFile(fat, ch) && Stored16(fat, data, ch, off, buf, n, fat', data', ch', r, w)
    ensures r == |buf| <==> Needed(off, |buf|, n) - |ch| <= FreeClusters(fat)
    ensures IsFile(fat', ch') && ch <= ch' && forall c :: 0 <= c < |fat| && c !in ch' ==> fat'[c] == fat[c]
  {
    hide GrowTo, IsChain, Index, Bytes, Written, FreeBelow;
    GrowToSucceeds(Before(fat), ch, Needed(off, |buf|, n));
    GrowToKeeps(Before(fat), ch, Needed(off, |buf|, n));
    if |fat| == 2 { NoClusters(fat); }
  }

  // On a full volume, writing exactly the one cluster of a file stores all bytes and fails.
  lemma FullClusterRefused(fat: seq<nat>, data: seq<seq<byte>>, ch: seq<nat>, buf: seq<byte>, n: nat,
                           fat': seq<nat>, data': seq<seq<byte>>, ch': seq<nat>, r: int, w: nat)
    requires Sized(fat) && IsFile(fat, ch) && |ch| == 1 && FreeClusters(fat) == 0 && |buf| == n
    requires Stored16(fat, data, ch, 0, buf, n, fat', data', ch', r, w)
    ensures r == -1 && w == |buf| && ch' == ch
  {
    hide GrowTo, IsChain, Written, FreeBelow, Pick;
    IndexIs(n, n, 1);
    var s := Before(fat);
    GrowToSucceeds(s, ch, 2);
    GrowToShort(s, ch, 2);
    GrowToKeeps(s, ch, 2);
    assert ch' == ch;
  }

  lemma NoClusters(fat: seq<nat>)
    requires |fat| == 2
    ensures FreeClusters(fat) == 0
  {}

  // A write that reports all its bytes, then a read of the same range through the same handle.
  method WriteThenRead(f: File16, buf: seq<byte>, ghost ch: seq<nat>) returns (r: int, back: seq<byte>)
    requires f.Valid(ch) && ch != [] && buf != [] && f.fs.g.ClusterSize() > 0 && FileInTable(f.fs.Links(), ch)
    requires Roomy(f.fs, f.fs.Links(), ch, Needed(f.currentOffset, |buf|, f.fs.g.ClusterSize()))
    modifies f, f.fs.disk
    ensures r == |buf| <==> Needed(old(f.currentOffset), |buf|, f.fs.g.ClusterSize()) - |ch| <= FreeClusters(old(f.fs.Links()))
    ensures r == |buf| ==> back == buf
  {
    hide Links16, Data16, Mirrored16, SpareTaken, GrowTo, IsChain, Bytes, Written, Index, Flat, FreeBelow,
         Geometry16.Valid, Geometry16.ClusterSize;
    LimitTwo(f.fs);
    var off := f.currentOffset;
    ghost var fat, data := f.fs.Links(), f.fs.Data();
    ghost var ch', w;
    r, ch', w := Write(f, buf, ch);
    StoredIff(fat, data, ch, off, buf, f.fs.g.ClusterSize(), f.fs.Links(), f.fs.Data(), ch', r, w);
    back := [];
    if r >= 0 {
      assert buf[..w] == buf;
      WrittenReadsBack(data, f.fs.Data(), ch', f.fs.g.ClusterSize(), off, buf);
      f.Seek(off, ch');
      back := f.Read(|buf|, ch');
    }
  }

  // A file that is opened empty: after a write, the handle remembers a cluster that is not the
  // file's.
  method WriteToEmpty(fs: Volume16, buf: seq<byte>) returns (f: File16, r: int, ghost ch': seq<nat>)
    requires fs.Valid() && fs.g.ClusterSize() > 0 && FileInTable(fs.Links(), []) && buf != []
    requires Roomy(fs, fs.Links(), [], Needed(0, |buf|, fs.g.ClusterSize()))
    modifies fs.disk
    ensures fresh(f) && f.fs == fs && f.Sound(ch')
    ensures r == |buf| ==> ch' != [] && f.cacheValid && f.cachedOffset == 0 && f.cachedCluster !in ch'
  {
    hide Links16, Data16, Mirrored16, SpareTaken, GrowTo, Bytes, Written, Index, Geometry16.Valid,
         Geometry16.ClusterSize;
    f := new File16(fs, 0, 0, []);
    ghost var fat, data, w := fs.Links(), fs.Data(), 0;
    LimitTwo(fs);
    r, ch', w := Write(f, buf, []);
    if r == |buf| { GrownByOne(fat, Needed(0, |buf|, fs.g.ClusterSize())); }
  }

  lemma GrownByOne(fat: seq<nat>, n: nat)
    requires FileInTable(fat, []) && n >= 1 && GrowTo(Before(fat), [], n).ok
    ensures GrowTo(Before(fat), [], n).ch != []
  {}
}
