/**
 The FAT32 volume as bytes: where FAT entries and data clusters live on the device, and the
 two views every layer above works with, the table of links and the table of cluster contents.
 */
module Fat32Disk {
  import opened Basics

  // Sector buffers in the driver are 512 bytes, the smallest sector size FAT32 allows.
  const SECTOR: nat := 512
  const ENTRIES_PER_SECTOR: nat := 128
  // FAT32 links use 28 of the 32 bits of an entry.
  const LINK_SPAN: nat := 0x1000_0000
  const WORD_SPAN: nat := 0x1_0000_0000

  const FREE_CLUSTER: nat := 0
  const BAD_CLUSTER: nat := 0x0FFF_FFF7
  const EOC_MIN: nat := 0x0FFF_FFF8
  const EOC: nat := 0x0FFF_FFFF

  datatype Geometry = Geometry(
    reserved: nat, numFats: nat, fatSectors: nat, sectorsPerCluster: nat, clusters: nat)
  {
    function ClusterBytes(): nat { SECTOR * sectorsPerCluster }

    // One past the largest usable cluster number.
    function Limit(): nat { clusters + 2 }

    // Byte address of FAT copy i; the data region starts where copy numFats would.
    function FatBase(i: nat): nat {
      if i == 0 then reserved * SECTOR else FatBase(i - 1) + fatSectors * SECTOR
    }

    // Byte address of a data cluster; data starts at cluster 2.
    function ClusterAddr(c: nat): nat
      requires c >= 2
    {
      if c == 2 then FatBase(numFats) else ClusterAddr(c - 1) + ClusterBytes()
    }

    // What a mounted volume satisfies: the table is large enough for its clusters, the data
    // region fits the device, and every byte address fits in 32 bits.
    predicate Valid(deviceBytes: nat) {
      && 1 <= reserved && 1 <= numFats && 1 <= sectorsPerCluster
      && Limit() <= fatSectors * ENTRIES_PER_SECTOR
      && ClusterAddr(Limit()) <= deviceBytes < WORD_SPAN
    }
  }

  function Splice(d: seq<byte>, at: nat, s: seq<byte>): (r: seq<byte>)
    requires at + |s| <= |d|
    ensures |r| == |d|
  {
    d[..at] + s + d[at + |s|..]
  }

  lemma SpliceAt(d: seq<byte>, at: nat, s: seq<byte>, k: nat)
    requires at + |s| <= |d| && k < |d|
    ensures Splice(d, at, s)[k] == if at <= k < at + |s| then s[k - at] else d[k]
  {}

  // A stretch outside the spliced one is as it was.
  lemma SpliceBeside(d: seq<byte>, at: nat, s: seq<byte>, from: nat, n: nat)
    requires at + |s| <= |d| && from + n <= |d| && (from + n <= at || at + |s| <= from)
    ensures Splice(d, at, s)[from..from + n] == d[from..from + n]
  {}

  lemma SpliceInside(d: seq<byte>, at: nat, s: seq<byte>)
    requires at + |s| <= |d|
    ensures Splice(d, at, s)[at..at + |s|] == s
  {}

  // Little-endian 32-bit words.
  function Le32(s: seq<byte>, o: nat): (w: nat)
    requires o + 4 <= |s|
    ensures w < WORD_SPAN
  {
    var b0: int, b1: int, b2: int, b3: int := s[o], s[o + 1], s[o + 2], s[o + 3];
    b0 + 0x100 * b1 + 0x1_0000 * b2 + 0x100_0000 * b3
  }

  lemma LeBytes(w: nat)
    requires w < WORD_SPAN
    ensures w % 0x100 + 0x100 * (w / 0x100 % 0x100) + 0x1_0000 * (w / 0x1_0000 % 0x100) + 0x100_0000 * (w / 0x100_0000) == w
  {
    assert w / 0x1_0000 == w / 0x100 / 0x100 && w / 0x100_0000 == w / 0x1_0000 / 0x100;
  }

  function PutLe32(s: seq<byte>, o: nat, w: nat): (r: seq<byte>)
    requires o + 4 <= |s| && w < WORD_SPAN
    ensures |r| == |s|
    ensures Le32(r, o) == w
    ensures forall k :: 0 <= k < |s| && !(o <= k < o + 4) ==> r[k] == s[k]
  {
    LeBytes(w);
    s[o := w % 0x100][o + 1 := w / 0x100 % 0x100][o + 2 := w / 0x1_0000 % 0x100][o + 3 := w / 0x100_0000]
  }

  // ----- views -----

  function Raw(g: Geometry, d: seq<byte>, copy: nat, c: nat): (w: nat)
    requires g.Valid(|d|) && copy < g.numFats && c < g.Limit()
  {
    EntryInBounds(g, copy, c);
    Le32(d, g.FatBase(copy) + 4 * c)
  }

  // The links of the first FAT copy, indexed by cluster number.
  function Links(g: Geometry, d: seq<byte>): (fat: seq<nat>)
    requires g.Valid(|d|)
    ensures |fat| == g.Limit()
    ensures forall c :: 0 <= c < |fat| ==> fat[c] < LINK_SPAN
  {
    seq(g.Limit(), c requires 0 <= c < g.Limit() => Raw(g, d, 0, c) % LINK_SPAN)
  }

  // The four bits of each entry that are not part of the link.
  function TopBits(g: Geometry, d: seq<byte>): (top: seq<nat>)
    requires g.Valid(|d|)
    ensures |top| == g.Limit()
  {
    seq(g.Limit(), c requires 0 <= c < g.Limit() => Raw(g, d, 0, c) / LINK_SPAN)
  }

  function ClusterAt(g: Geometry, d: seq<byte>, c: nat): (s: seq<byte>)
    requires g.Valid(|d|) && c < g.Limit()
    ensures c >= 2 ==> |s| == g.ClusterBytes()
  {
    if c < 2 then []
    else
      ClusterInBounds(g, c);
      d[g.ClusterAddr(c)..g.ClusterAddr(c) + g.ClusterBytes()]
  }

  // The contents of each data cluster, indexed by cluster number (0 and 1 hold none).
  function Clusters(g: Geometry, d: seq<byte>): (data: seq<seq<byte>>)
    requires g.Valid(|d|)
    ensures |data| == g.Limit()
    ensures forall c :: 2 <= c < |data| ==> |data[c]| == g.ClusterBytes()
  {
    seq(g.Limit(), c requires 0 <= c < g.Limit() => ClusterAt(g, d, c))
  }

  // Every entry is the same in every FAT copy.
  ghost predicate Mirrored(g: Geometry, d: seq<byte>)
    requires g.Valid(|d|)
  {
    forall i, c :: 0 <= i < g.numFats && 0 <= c < g.Limit() ==> Raw(g, d, i, c) == Raw(g, d, 0, c)
  }

  // ----- address arithmetic -----

  // The sector numbers the driver computes.
  lemma {:induction false} FatBaseIs(g: Geometry, i: nat)
    ensures g.FatBase(i) == (g.reserved + i * g.fatSectors) * SECTOR
  {
    if i > 0 {
      FatBaseIs(g, i - 1);
      assert i * g.fatSectors == (i - 1) * g.fatSectors + g.fatSectors;
    }
  }

  lemma {:induction false} ClusterAddrIs(g: Geometry, c: nat)
    requires c >= 2
    ensures g.ClusterAddr(c) == (g.reserved + g.numFats * g.fatSectors + (c - 2) * g.sectorsPerCluster) * SECTOR
  {
    if c == 2 {
      FatBaseIs(g, g.numFats);
    } else {
      ClusterAddrIs(g, c - 1);
      assert (c - 2) * g.sectorsPerCluster == (c - 3) * g.sectorsPerCluster + g.sectorsPerCluster;
    }
  }

  lemma {:induction false} CopiesApart(g: Geometry, i: nat, j: nat)
    requires i < j
    ensures g.FatBase(i) + g.fatSectors * SECTOR <= g.FatBase(j)
  {
    if i < j - 1 {
      CopiesApart(g, i, j - 1);
    }
  }

  lemma {:induction false} ClustersApart(g: Geometry, b: nat, c: nat)
    requires 2 <= b < c
    ensures g.ClusterAddr(b) + g.ClusterBytes() <= g.ClusterAddr(c)
  {
    if b < c - 1 {
      ClustersApart(g, b, c - 1);
    }
  }

  lemma CopyInTable(g: Geometry, copy: nat)
    requires copy < g.numFats
    ensures g.FatBase(copy) + g.fatSectors * SECTOR <= g.ClusterAddr(2) <= g.ClusterAddr(g.Limit())
  {
    CopiesApart(g, copy, g.numFats);
    if g.clusters > 0 {
      ClustersApart(g, 2, g.Limit());
    }
  }

  lemma EntryInBounds(g: Geometry, copy: nat, c: nat)
    requires copy < g.numFats && c < g.Limit() <= g.fatSectors * ENTRIES_PER_SECTOR
    ensures g.FatBase(copy) + 4 * c + 4 <= g.FatBase(copy) + g.fatSectors * SECTOR <= g.ClusterAddr(g.Limit())
  {
    CopyInTable(g, copy);
  }

  lemma ClusterInBounds(g: Geometry, c: nat)
    requires 2 <= c < g.Limit()
    ensures g.ClusterAddr(2) <= g.ClusterAddr(c)
    ensures g.ClusterAddr(c) + g.ClusterBytes() <= g.ClusterAddr(g.Limit())
  {
    ClustersApart(g, c, g.Limit());
    if c > 2 {
      ClustersApart(g, 2, c);
    }
  }

  lemma {:induction false} AddrAtLeast(g: Geometry, c: nat)
    requires c >= 2 && g.sectorsPerCluster >= 1
    ensures g.ClusterAddr(c) >= (c - 2) * SECTOR
  {
    if c > 2 { AddrAtLeast(g, c - 1); }
  }

  // Addresses below 2^32 leave cluster numbers far below the markers.
  lemma LimitSmall(g: Geometry, len: nat)
    requires g.Valid(len)
    ensures g.Limit() <= 0x80_0001
  {
    AddrAtLeast(g, g.Limit());
  }

  // The sector a cluster's entry lies in, as the driver computes it.
  lemma EntrySector(g: Geometry, c: nat)
    requires c < g.Limit() <= g.fatSectors * ENTRIES_PER_SECTOR
    ensures 4 * c / SECTOR < g.fatSectors
    ensures 4 * c % SECTOR + 4 <= SECTOR
    ensures SECTOR * (4 * c / SECTOR) + 4 * c % SECTOR == 4 * c
  {}

  function SectorAddr(g: Geometry, copy: nat, s: nat): nat { g.FatBase(copy) + s * SECTOR }

  lemma Le32Slice(d: seq<byte>, from: nat, n: nat, p: nat)
    requires from + n <= |d| && p + 4 <= n
    ensures Le32(d[from..from + n], p) == Le32(d, from + p)
  {}

  // The sector the driver reads for a cluster's entry, and the word it takes from it.
  lemma EntryRead(g: Geometry, d: seq<byte>, c: nat)
    requires g.Valid(|d|) && c < g.Limit()
    ensures var a := (g.reserved + 4 * c / SECTOR) * SECTOR;
            && a == SectorAddr(g, 0, 4 * c / SECTOR) && a + SECTOR <= |d| && 4 * c % SECTOR + 4 <= SECTOR
            && Le32(d[a..a + SECTOR], 4 * c % SECTOR) == Raw(g, d, 0, c)
  {
    hide Le32;
    EntrySector(g, c);
    EntryInBounds(g, 0, c);
    var a := SectorAddr(g, 0, 4 * c / SECTOR);
    assert a + 4 * c % SECTOR == g.FatBase(0) + 4 * c;
    Le32Slice(d, a, SECTOR, 4 * c % SECTOR);
  }

  // ----- writing one entry to every copy -----

  // The device after the first n FAT copies have had sector s replaced.
  function MirrorWrite(g: Geometry, d: seq<byte>, s: nat, sector: seq<byte>, n: nat): (r: seq<byte>)
    requires g.Valid(|d|) && s < g.fatSectors && |sector| == SECTOR && n <= g.numFats
    ensures |r| == |d|
  {
    if n == 0 then d
    else
      CopyInTable(g, n - 1);
      Splice(MirrorWrite(g, d, s, sector, n - 1), SectorAddr(g, n - 1, s), sector)
  }

  lemma {:induction false} MirrorWriteInside(g: Geometry, d: seq<byte>, s: nat, sector: seq<byte>, n: nat, copy: nat,
                                             k: nat)
    requires g.Valid(|d|) && s < g.fatSectors && |sector| == SECTOR && n <= g.numFats
    requires copy < n && k < SECTOR
    ensures SectorAddr(g, copy, s) + k < |d|
    ensures MirrorWrite(g, d, s, sector, n)[SectorAddr(g, copy, s) + k] == sector[k]
  {
    hide Splice;
    CopyInTable(g, copy);
    CopyInTable(g, n - 1);
    SpliceAt(MirrorWrite(g, d, s, sector, n - 1), SectorAddr(g, n - 1, s), sector, SectorAddr(g, copy, s) + k);
    if copy < n - 1 {
      CopiesApart(g, copy, n - 1);
      MirrorWriteInside(g, d, s, sector, n - 1, copy, k);
    }
  }

  lemma {:induction false} MirrorWriteOutside(g: Geometry, d: seq<byte>, s: nat, sector: seq<byte>, n: nat, k: nat)
    requires g.Valid(|d|) && s < g.fatSectors && |sector| == SECTOR && n <= g.numFats
    requires k < |d|
    requires forall i :: 0 <= i < n ==> !(SectorAddr(g, i, s) <= k < SectorAddr(g, i, s) + SECTOR)
    ensures MirrorWrite(g, d, s, sector, n)[k] == d[k]
  {
    hide Splice;
    if n > 0 {
      CopyInTable(g, n - 1);
      SpliceAt(MirrorWrite(g, d, s, sector, n - 1), SectorAddr(g, n - 1, s), sector, k);
      MirrorWriteOutside(g, d, s, sector, n - 1, k);
    }
  }

  // The sector of cluster c's entry with a new link and the old top bits.
  function PatchedSector(g: Geometry, d: seq<byte>, c: nat, v: nat): (r: seq<byte>)
    requires g.Valid(|d|) && c < g.Limit() && v < LINK_SPAN
    ensures |r| == SECTOR
  {
    var s := 4 * c / SECTOR;
    EntrySector(g, c);
    CopyInTable(g, 0);
    var sector := d[SectorAddr(g, 0, s)..SectorAddr(g, 0, s) + SECTOR];
    PutLe32(sector, 4 * c % SECTOR, Le32(sector, 4 * c % SECTOR) / LINK_SPAN * LINK_SPAN + v)
  }

  function SetEntry(g: Geometry, d: seq<byte>, c: nat, v: nat): (r: seq<byte>)
    requires g.Valid(|d|) && c < g.Limit() && v < LINK_SPAN
    ensures |r| == |d|
  {
    EntrySector(g, c);
    MirrorWrite(g, d, 4 * c / SECTOR, PatchedSector(g, d, c, v), g.numFats)
  }

  // Byte k of an entry in any copy, after the write.
  lemma SetEntryByte(g: Geometry, d: seq<byte>, c: nat, v: nat, copy: nat, e: nat, k: nat)
    requires g.Valid(|d|) && c < g.Limit() && v < LINK_SPAN
    requires copy < g.numFats && e < g.Limit() && k < 4
    ensures g.FatBase(copy) + 4 * e + k < |d| && 4 * e % SECTOR + k < SECTOR
    ensures SetEntry(g, d, c, v)[g.FatBase(copy) + 4 * e + k] ==
            if 4 * e / SECTOR == 4 * c / SECTOR
            then PatchedSector(g, d, c, v)[4 * e % SECTOR + k]
            else d[g.FatBase(copy) + 4 * e + k]
  {
    hide PatchedSector, MirrorWrite;
    EntryInBounds(g, copy, e);
    EntrySector(g, c);
    EntrySector(g, e);
    var s, a := 4 * c / SECTOR, g.FatBase(copy) + 4 * e + k;
    if 4 * e / SECTOR == s {
      MirrorWriteInside(g, d, s, PatchedSector(g, d, c, v), g.numFats, copy, 4 * e % SECTOR + k);
    } else {
      forall i | 0 <= i < g.numFats
        ensures !(SectorAddr(g, i, s) <= a < SectorAddr(g, i, s) + SECTOR)
      {
        if i < copy { CopiesApart(g, i, copy); }
        if copy < i { CopiesApart(g, copy, i); }
      }
      MirrorWriteOutside(g, d, s, PatchedSector(g, d, c, v), g.numFats, a);
    }
  }

  lemma PutBeside(s: seq<byte>, o: nat, w: nat, p: nat)
    requires o + 4 <= |s| && w < WORD_SPAN && p + 4 <= |s| && (p + 4 <= o || o + 4 <= p)
    ensures Le32(PutLe32(s, o, w), p) == Le32(s, p)
  {}

  lemma EntriesApart(g: Geometry, c: nat, e: nat)
    requires c < g.Limit() && e < g.Limit() <= g.fatSectors * ENTRIES_PER_SECTOR
    requires 4 * e / SECTOR == 4 * c / SECTOR && e != c
    ensures 4 * e % SECTOR + 4 <= 4 * c % SECTOR || 4 * c % SECTOR + 4 <= 4 * e % SECTOR
  {
    EntrySector(g, c);
    EntrySector(g, e);
  }

  // The word of entry e inside the patched sector.
  lemma PatchedWord(g: Geometry, d: seq<byte>, c: nat, v: nat, e: nat)
    requires g.Valid(|d|) && c < g.Limit() && v < LINK_SPAN && e < g.Limit()
    requires 4 * e / SECTOR == 4 * c / SECTOR
    ensures 4 * e % SECTOR + 4 <= SECTOR
    ensures Le32(PatchedSector(g, d, c, v), 4 * e % SECTOR) ==
            if e == c then Raw(g, d, 0, c) / LINK_SPAN * LINK_SPAN + v else Raw(g, d, 0, e)
  {
    hide Le32, PutLe32;
    EntrySector(g, c);
    EntrySector(g, e);
    EntryInBounds(g, 0, e);
    CopyInTable(g, 0);
    var s, o, p := 4 * c / SECTOR, 4 * c % SECTOR, 4 * e % SECTOR;
    var sector := d[SectorAddr(g, 0, s)..SectorAddr(g, 0, s) + SECTOR];
    Le32Slice(d, SectorAddr(g, 0, s), SECTOR, p);
    var w := Le32(sector, o) / LINK_SPAN * LINK_SPAN + v;
    assert Raw(g, d, 0, e) == Le32(sector, p);
    if e != c {
      EntriesApart(g, c, e);
      PutBeside(sector, o, w, p);
    }
  }

  lemma SetEntryRaw(g: Geometry, d: seq<byte>, c: nat, v: nat, copy: nat, e: nat)
    requires g.Valid(|d|) && c < g.Limit() && v < LINK_SPAN
    requires copy < g.numFats && e < g.Limit()
    ensures Raw(g, SetEntry(g, d, c, v), copy, e) ==
            if e == c then Raw(g, d, 0, c) / LINK_SPAN * LINK_SPAN + v
            else if 4 * e / SECTOR == 4 * c / SECTOR then Raw(g, d, 0, e)
            else Raw(g, d, copy, e)
  {
    hide PatchedSector, SetEntry;
    SetEntryByte(g, d, c, v, copy, e, 0);
    SetEntryByte(g, d, c, v, copy, e, 1);
    SetEntryByte(g, d, c, v, copy, e, 2);
    SetEntryByte(g, d, c, v, copy, e, 3);
    if 4 * e / SECTOR == 4 * c / SECTOR {
      PatchedWord(g, d, c, v, e);
      assert Raw(g, SetEntry(g, d, c, v), copy, e) == Le32(PatchedSector(g, d, c, v), 4 * e % SECTOR);
    }
  }

  // Writing a link changes exactly that link, in every copy, and nothing else.
  lemma SetEntryViews(g: Geometry, d: seq<byte>, c: nat, v: nat)
    requires g.Valid(|d|) && c < g.Limit() && v < LINK_SPAN
    ensures Links(g, SetEntry(g, d, c, v)) == Links(g, d)[c := v]
    ensures TopBits(g, SetEntry(g, d, c, v)) == TopBits(g, d)
    ensures Mirrored(g, d) ==> Mirrored(g, SetEntry(g, d, c, v))
    ensures Clusters(g, SetEntry(g, d, c, v)) == Clusters(g, d)
  {
    hide SetEntry, Le32;
    forall e | 0 <= e < g.Limit()
      ensures Links(g, SetEntry(g, d, c, v))[e] == Links(g, d)[c := v][e]
      ensures TopBits(g, SetEntry(g, d, c, v))[e] == TopBits(g, d)[e]
      ensures Clusters(g, SetEntry(g, d, c, v))[e] == Clusters(g, d)[e]
    {
      SetEntryRaw(g, d, c, v, 0, e);
      SetEntryCluster(g, d, c, v, e);
    }
    if Mirrored(g, d) {
      SetEntryMirrored(g, d, c, v);
    }
  }

  lemma SetEntryMirrored(g: Geometry, d: seq<byte>, c: nat, v: nat)
    requires g.Valid(|d|) && c < g.Limit() && v < LINK_SPAN && Mirrored(g, d)
    ensures Mirrored(g, SetEntry(g, d, c, v))
  {
    var d' := SetEntry(g, d, c, v);
    forall i, e | 0 <= i < g.numFats && 0 <= e < g.Limit()
      ensures Raw(g, d', i, e) == Raw(g, d', 0, e)
    {
      SetEntryRaw(g, d, c, v, i, e);
      SetEntryRaw(g, d, c, v, 0, e);
      assert Raw(g, d, i, e) == Raw(g, d, 0, e);
    }
  }

  lemma SetEntryCluster(g: Geometry, d: seq<byte>, c: nat, v: nat, e: nat)
    requires g.Valid(|d|) && c < g.Limit() && v < LINK_SPAN && e < g.Limit()
    ensures ClusterAt(g, SetEntry(g, d, c, v), e) == ClusterAt(g, d, e)
  {
    if e >= 2 {
      ClusterInBounds(g, e);
      EntrySector(g, c);
      var d' := SetEntry(g, d, c, v);
      forall k | g.ClusterAddr(e) <= k < g.ClusterAddr(e) + g.ClusterBytes()
        ensures d'[k] == d[k]
      {
        forall i | 0 <= i < g.numFats
          ensures SectorAddr(g, i, 4 * c / SECTOR) + SECTOR <= k
        {
          CopyInTable(g, i);
        }
        MirrorWriteOutside(g, d, 4 * c / SECTOR, PatchedSector(g, d, c, v), g.numFats, k);
      }
    }
  }

  lemma WriteClusterAt(g: Geometry, d: seq<byte>, c: nat, buf: seq<byte>, e: nat)
    requires g.Valid(|d|) && 2 <= c < g.Limit() && |buf| == g.ClusterBytes() && e < g.Limit()
    ensures g.ClusterAddr(c) + |buf| <= |d|
    ensures ClusterAt(g, Splice(d, g.ClusterAddr(c), buf), e) == if e == c then buf else ClusterAt(g, d, e)
  {
    hide Splice;
    ClusterInBounds(g, c);
    if e == c {
      SpliceInside(d, g.ClusterAddr(c), buf);
    } else if e >= 2 {
      ClusterInBounds(g, e);
      if e < c { ClustersApart(g, e, c); } else { ClustersApart(g, c, e); }
      SpliceBeside(d, g.ClusterAddr(c), buf, g.ClusterAddr(e), g.ClusterBytes());
    }
  }

  lemma WriteClusterRaw(g: Geometry, d: seq<byte>, c: nat, buf: seq<byte>, copy: nat, e: nat)
    requires g.Valid(|d|) && 2 <= c < g.Limit() && |buf| == g.ClusterBytes() && copy < g.numFats && e < g.Limit()
    ensures g.ClusterAddr(c) + |buf| <= |d|
    ensures Raw(g, Splice(d, g.ClusterAddr(c), buf), copy, e) == Raw(g, d, copy, e)
  {
    ClusterInBounds(g, c);
    EntryInBounds(g, copy, e);
    CopyInTable(g, copy);
  }

  // Writing a cluster changes exactly that cluster.
  lemma WriteClusterViews(g: Geometry, d: seq<byte>, c: nat, buf: seq<byte>)
    requires g.Valid(|d|) && 2 <= c < g.Limit() && |buf| == g.ClusterBytes()
    ensures g.ClusterAddr(c) + |buf| <= |d|
    ensures var d' := Splice(d, g.ClusterAddr(c), buf);
            && Clusters(g, d') == Clusters(g, d)[c := buf]
            && Links(g, d') == Links(g, d)
            && TopBits(g, d') == TopBits(g, d)
            && (Mirrored(g, d) ==> Mirrored(g, d'))
  {
    hide Le32, ClusterAt, Raw, Splice;
    ClusterInBounds(g, c);
    var d' := Splice(d, g.ClusterAddr(c), buf);
    forall e | 0 <= e < g.Limit()
      ensures ClusterAt(g, d', e) == if e == c then buf else ClusterAt(g, d, e)
    {
      WriteClusterAt(g, d, c, buf, e);
    }
    forall i, e | 0 <= i < g.numFats && 0 <= e < g.Limit()
      ensures Raw(g, d', i, e) == Raw(g, d, i, e)
    {
      WriteClusterRaw(g, d, c, buf, i, e);
    }
  }
}
