/**
 A mounted FAT16 volume: reading and setting FAT entries, the search for a free cluster, and
 reading and writing parts of clusters.
 */
module Fat16Volume {
  import opened Basics
  import opened Fat32Disk
  import opened Fat32Chains
  import opened Fat32Files
  import opened Fat16Disk

  // ----- the search for a free cluster -----

  // What fat16_find_free_cluster returns when it has come to entry i of the FAT.
  ghost function FirstUsable(g: Geometry16, d: seq<byte>, i: nat): nat
    requires g.Valid(|d|)
    decreases g.TableSize() - i
  {
    if i >= g.TableSize() then 0
    else if Entry16(g, d, i) == 0 && i % SHORT_SPAN >= 2 then i % SHORT_SPAN
    else FirstUsable(g, d, i + 1)
  }

  lemma ClusterEntry(g: Geometry16, d: seq<byte>, i: nat)
    requires g.Valid(|d|) && i < g.Limit()
    ensures i < g.TableSize() && i % SHORT_SPAN == i && (Links16(g, d)[i] == FREE_CLUSTER <==> Entry16(g, d, i) == 0)
  {}

  lemma {:induction false} FirstUsableFrom(g: Geometry16, d: seq<byte>, i: nat)
    requires g.Valid(|d|) && 2 <= i <= g.Limit()
    ensures var r := FirstFree(Links16(g, d), i, g.Limit());
            FirstUsable(g, d, i) == if r != 0 then r else FirstUsable(g, d, g.Limit())
    decreases g.Limit() - i
  {
    hide Entry16, Links16, Geometry16.Valid;
    if i < g.Limit() {
      ClusterEntry(g, d, i);
      FirstUsableFrom(g, d, i + 1);
    }
  }

  lemma {:induction false} FirstUsableSpare(g: Geometry16, d: seq<byte>, i: nat)
    requires g.Valid(|d|) && g.Limit() <= i
    ensures FirstUsable(g, d, i) == 0 <==> forall k :: i <= k < g.TableSize() && k % SHORT_SPAN >= 2 ==>
            Entry16(g, d, k) != 0
    decreases g.TableSize() - i
  {
    hide Entry16;
    if i < g.TableSize() { FirstUsableSpare(g, d, i + 1); }
  }

  // The search gives the lowest free cluster, or 0 if there is none, exactly when one is free or
  // no spare entry of the FAT looks free.
  lemma SearchIsExact(g: Geometry16, d: seq<byte>)
    requires g.Valid(|d|)
    ensures var r := FirstFree(Links16(g, d), 2, g.Limit());
            && (r != 0 ==> FirstUsable(g, d, 0) == r)
            && (FirstUsable(g, d, 0) == r <==> r != 0 || SpareTaken(g, d))
  {
    hide Entry16;
    assert FirstUsable(g, d, 0) == FirstUsable(g, d, 2);
    FirstUsableFrom(g, d, 2);
    FirstUsableSpare(g, d, g.Limit());
  }

  // A volume whose one cluster is taken, with a FAT of 256 entries: the search returns 3.
  lemma SpareEntryFound()
    ensures var g := Geometry16(0, 1, 1, 1, 1, 1);
            var d := PutShort(seq(1024, i => 0), 4, EOC16);
            g.Valid(|d|) && FirstFree(Links16(g, d), 2, g.Limit()) == 0 && FirstUsable(g, d, 0) == g.Limit() == 3
  {
    var g := Geometry16(0, 1, 1, 1, 1, 1);
    var none: seq<byte> := seq(1024, i => 0);
    var d := PutShort(none, 4, EOC16);
    PutShortBeside(none, 4, EOC16, 6);
    assert g.Valid(|d|);
    assert Entry16(g, d, 2) == EOC16 && Entry16(g, d, 3) == 0;
    hide Entry16;
    ClusterEntry(g, d, 2);
    assert FirstUsable(g, d, 2) == FirstUsable(g, d, 3) == 3;
    assert FirstUsable(g, d, 0) == FirstUsable(g, d, 1) == FirstUsable(g, d, 2);
  }

  lemma SectorFits(g: Geometry16, len: nat, sector: nat)
    requires g.Valid(len) && sector < g.fatSectors
    ensures (g.fatStart + sector) * SECTOR + SECTOR <= len
  {
    DataFits(g, len);
  }

  lemma EntryInSector(g: Geometry16, d: seq<byte>, sector: nat, i: nat)
    requires g.Valid(|d|) && sector < g.fatSectors && i < ENTRIES16
    ensures var a := (g.fatStart + sector) * SECTOR;
            && a + SECTOR <= |d| && ENTRIES16 * sector + i < g.TableSize()
            && Short16(d[a..a + SECTOR], 2 * i) == Entry16(g, d, ENTRIES16 * sector + i)
  {
    hide Short16;
    SectorFits(g, |d|, sector);
    ShortSlice(d, (g.fatStart + sector) * SECTOR, SECTOR, 2 * i);
  }

  class Volume16 {
    const g: Geometry16
    const disk: array<byte>

    ghost predicate Valid() { g.Valid(disk.Length) }

    ghost function Links(): (fat: seq<nat>)
      requires Valid()
      reads disk
      ensures |fat| == g.Limit()
    {
      Links16(g, disk[..])
    }

    ghost function Data(): (data: seq<seq<byte>>)
      requires Valid()
      reads disk
      ensures |data| == g.Limit() && forall c :: 2 <= c < |data| ==> |data[c]| == g.ClusterSize()
    {
      Data16(g, disk[..])
    }

    method GetNextCluster(cluster: nat) returns (next: nat)
      requires Valid()
      ensures next < SHORT_SPAN
      ensures if cluster < g.Limit() then Wide(next) == Links()[cluster] else next == BAD_CLUSTER16
    {
      if cluster >= g.Limit() { return BAD_CLUSTER16; }
      EntryAt(g, cluster);
      EntryFits(g, disk.Length, cluster);
      var fatOffset := cluster * 2;
      var fatSector := g.fatStart + fatOffset / SECTOR;
      var buffer := disk[fatSector * SECTOR..fatSector * SECTOR + SECTOR];
      ShortSlice(disk[..], fatSector * SECTOR, SECTOR, fatOffset % SECTOR);
      next := Short16(buffer, fatOffset % SECTOR);
    }

    // ----- allocating -----

    // The lowest cluster number whose entry is free, or 0.
    method FindFreeCluster() returns (cluster: nat)
      requires Valid()
      ensures cluster == FirstUsable(g, disk[..], 0)
    {
      hide Geometry16.Valid, Entry16;
      ghost var d := disk[..];
      for sector := 0 to g.fatSectors
        invariant FirstUsable(g, d, 0) == FirstUsable(g, d, ENTRIES16 * sector)
      {
        SectorFits(g, disk.Length, sector);
        var offset := (g.fatStart + sector) * SECTOR;
        var buffer := disk[offset..offset + SECTOR];
        for i := 0 to ENTRIES16
          invariant FirstUsable(g, d, 0) == FirstUsable(g, d, ENTRIES16 * sector + i)
        {
          EntryInSector(g, d, sector, i);
          if Short16(buffer, 2 * i) == 0 {
            var clusterNum := (sector * ENTRIES16 + i) % SHORT_SPAN;
            if clusterNum >= 2 { return clusterNum; }
          }
        }
      }
      cluster := 0;
    }

    method SetClusterValue(cluster: nat, value: nat)
      requires Valid() && cluster < g.Limit() && value < SHORT_SPAN
      modifies disk
      ensures Links() == old(Links())[cluster := Wide(value)] && Data() == old(Data()) && Intact(old(disk[..]))
    {
      hide Links16, Data16, Mirrored16, SpareTaken, SetLink16;
      SetLinkViews(g, disk[..], cluster, value);
      WriteEntry16(cluster, value);
    }

    method WriteEntry16(cluster: nat, value: nat)
      requires Valid() && cluster < g.Limit() && value < SHORT_SPAN
      modifies disk
      ensures disk[..] == SetLink16(g, old(disk[..]), cluster, value)
    {
      hide PutShort, Splice, Bytes;
      EntryAt(g, cluster);
      EntryFits(g, disk.Length, cluster);
      var fatOffset := cluster * 2;
      var fatSector := g.fatStart + fatOffset / SECTOR;
      var buffer := disk[fatSector * SECTOR..fatSector * SECTOR + SECTOR];
      buffer := PutShort(buffer, fatOffset % SECTOR, value);
      WriteAt(fatSector * SECTOR, buffer);
      if g.numFats > 1 {
        WriteAt((fatSector + g.fatSectors) * SECTOR, buffer);
      }
    }

    method WriteAt(at: nat, buf: seq<byte>)
      requires at + |buf| <= disk.Length
      modifies disk
      ensures disk[..] == Splice(old(disk[..]), at, buf)
    {
      forall i | 0 <= i < |buf| { disk[at + i] := buf[i]; }
    }

    // Replaces bytes of one sector: it is read, changed and written back.
    method PutInSector(cluster: nat, sectorInCluster: nat, byteInSector: nat, piece: seq<byte>)
      requires Valid() && 2 <= cluster < g.Limit() && sectorInCluster < g.sectorsPerCluster
               && byteInSector + |piece| <= SECTOR
      modifies disk
      ensures SectorAt(sectorInCluster, byteInSector) + |piece| <= g.ClusterSize()
      ensures Data() == old(Data())[cluster := Splice(old(Data())[cluster], SectorAt(sectorInCluster, byteInSector), piece)]
      ensures Links() == old(Links()) && Intact(old(disk[..]))
    {
      hide Links16, Data16, Mirrored16, SpareTaken, Splice, Geometry16.Valid, Geometry16.SectorStart;
      SectorAddr16(cluster, sectorInCluster, byteInSector, |piece|);
      PutDataViews(g, disk[..], cluster, SectorAt(sectorInCluster, byteInSector), piece);
      var at := g.SectorStart(cluster, sectorInCluster);
      var sector := disk[at..at + SECTOR];
      SpliceNested(disk[..], at, SECTOR, byteInSector, piece);
      WriteAt(at, Splice(sector, byteInSector, piece));
    }

    function SectorAt(sectorInCluster: nat, byteInSector: nat): nat { SECTOR * sectorInCluster + byteInSector }

    lemma SectorAddr16(cluster: nat, sectorInCluster: nat, byteInSector: nat, n: nat)
      requires Valid() && 2 <= cluster < g.Limit() && sectorInCluster < g.sectorsPerCluster
               && byteInSector + n <= SECTOR
      ensures var at := g.SectorStart(cluster, sectorInCluster);
              && at + byteInSector == g.ClusterAddr(cluster) + SectorAt(sectorInCluster, byteInSector)
              && at + SECTOR <= disk.Length
      ensures SectorAt(sectorInCluster, byteInSector) + n <= g.ClusterSize()
    {
      ClusterFits(g, disk.Length, cluster);
      ClusterAddrIs16(g, cluster);
      assert (cluster - 2) * g.sectorsPerCluster * SECTOR == Bytes(cluster - 2, g.ClusterSize());
    }

    // What no operation changes: the agreement of the FAT copies and the spare entries.
    ghost predicate Intact(was: seq<byte>)
      requires Valid() && |was| == disk.Length
      reads disk
    {
      && (Mirrored16(g, was) ==> Mirrored16(g, disk[..]))
      && (SpareTaken(g, disk[..]) <==> SpareTaken(g, was))
    }

    // ----- reading -----

    // Where byte `co` of a cluster is, as sector and byte in sector.
    lemma ChunkAddr(cluster: nat, co: nat, sector: nat, rest: nat)
      requires Valid() && 2 <= cluster < g.Limit() && co < g.ClusterSize() && sector == co / SECTOR
               && rest == co % SECTOR
      ensures g.SectorStart(cluster, sector) + rest == g.ClusterAddr(cluster) + co && rest < SECTOR
      ensures sector < g.sectorsPerCluster
              && rest + (g.sectorsPerCluster - sector) * SECTOR == g.ClusterSize() - co + 2 * rest
      ensures g.SectorStart(cluster, sector) + (g.sectorsPerCluster - sector) * SECTOR <= disk.Length
      ensures g.ClusterAddr(cluster) + g.ClusterSize() <= disk.Length
      ensures Data()[cluster] == disk[..][g.ClusterAddr(cluster)..g.ClusterAddr(cluster) + g.ClusterSize()]
    {
      ClusterFits(g, disk.Length, cluster);
      ClusterAddrIs16(g, cluster);
      assert (cluster - 2) * g.sectorsPerCluster * SECTOR == Bytes(cluster - 2, g.ClusterSize());
    }

    // One device read of the copy loop: whole sectors where possible, else part of one.
    method ReadSectors(addr: nat, byteInSector: nat, sectorsLeft: nat, size: nat) returns (chunk: seq<byte>)
      requires sectorsLeft > 0 && byteInSector < SECTOR && size > 0 && addr + sectorsLeft * SECTOR <= disk.Length
      ensures 0 < |chunk| <= size && byteInSector + |chunk| <= sectorsLeft * SECTOR
      ensures chunk == disk[..][addr + byteInSector..addr + byteInSector + |chunk|]
    {
      if byteInSector == 0 && size >= SECTOR {
        var most := size / SECTOR;
        var contig := if sectorsLeft < most then sectorsLeft else most;
        chunk := disk[addr..addr + contig * SECTOR];
      } else {
        var sector := disk[addr..addr + SECTOR];
        var inSector := SECTOR - byteInSector;
        var toCopy := if inSector < size then inSector else size;
        chunk := sector[byteInSector..byteInSector + toCopy];
        SubSlice(disk[..], addr, SECTOR, byteInSector, toCopy);
      }
    }

    method ReadChunk(cluster: nat, co: nat, size: nat) returns (chunk: seq<byte>)
      requires Valid() && 2 <= cluster < g.Limit() && co < g.ClusterSize() && size > 0
      ensures 0 < |chunk| <= size && co + |chunk| <= g.ClusterSize()
      ensures chunk == Data()[cluster][co..co + |chunk|]
    {
      hide Valid, Data, Geometry16.ClusterAddr, Geometry16.ClusterSize, Geometry16.SectorStart;
      var sectorInCluster, byteInSector := co / SECTOR, co % SECTOR;
      var addr := g.SectorStart(cluster, sectorInCluster);
      ChunkAddr(cluster, co, sectorInCluster, byteInSector);
      chunk := ReadSectors(addr, byteInSector, g.sectorsPerCluster - sectorInCluster, size);
      SubSlice(disk[..], g.ClusterAddr(cluster), g.ClusterSize(), co, |chunk|);
    }
  }
}
