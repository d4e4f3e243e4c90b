/**
 The FAT16 volume as bytes: where FAT entries and data clusters live on the device, the two views
 the driver works with, and what one write does to them.
 */
module Fat16Disk {
  import opened Basics
  import opened Fat32Disk
  import opened Fat32Chains
  import opened Fat32Files

  const END_OF_CHAIN: nat := 0xFFF8
  const BAD_CLUSTER16: nat := 0xFFF7
  const EOC16: nat := 0xFFFF
  const ENTRIES16: nat := 256
  const SHORT_SPAN: nat := 0x1_0000

  datatype Geometry16 = Geometry16(
    fatStart: nat, numFats: nat, fatSectors: nat, dataStart: nat, sectorsPerCluster: nat, clusters: nat)
  {
    // One past the largest usable cluster number.
    function Limit(): nat { clusters + 2 }

    function ClusterSize(): nat { sectorsPerCluster * SECTOR }

    // Entries in a FAT, which may be more than there are clusters.
    function TableSize(): nat { fatSectors * ENTRIES16 }

    function EntryAddr(i: nat): nat { fatStart * SECTOR + 2 * i }

    function ClusterAddr(c: nat): nat
      requires c >= 2
    {
      if c == 2 then dataStart * SECTOR else ClusterAddr(c - 1) + ClusterSize()
    }

    // Byte address of a sector of a cluster.
    function SectorStart(c: nat, sector: nat): nat
      requires c >= 2
    {
      (dataStart + (c - 2) * sectorsPerCluster + sector) * SECTOR
    }

    // The driver writes two copies of the FAT at most. The root directory lies between them and
    // the data. Byte addresses fit in 32 bits.
    predicate Valid(deviceBytes: nat) {
      && 1 <= sectorsPerCluster && Limit() <= BAD_CLUSTER16 && Limit() <= TableSize()
      && fatStart + (if numFats > 1 then 2 * fatSectors else fatSectors) <= dataStart
      && ClusterAddr(Limit()) <= deviceBytes < WORD_SPAN
    }
  }

  // ----- words -----

  function Short16(d: seq<byte>, o: nat): (w: nat)
    requires o + 2 <= |d|
    ensures w < SHORT_SPAN
  {
    var lo: int, hi: int := d[o], d[o + 1];
    lo + 0x100 * hi
  }

  function PutShort(d: seq<byte>, o: nat, w: nat): (r: seq<byte>)
    requires o + 2 <= |d| && w < SHORT_SPAN
    ensures |r| == |d| && Short16(r, o) == w
    ensures forall k :: 0 <= k < |d| && !(o <= k < o + 2) ==> r[k] == d[k]
  {
    d[o := w % 0x100][o + 1 := w / 0x100]
  }

  // ----- views -----

  lemma {:induction false} ClustersApart16(g: Geometry16, b: nat, c: nat)
    requires 2 <= b < c
    ensures g.ClusterAddr(b) + g.ClusterSize() <= g.ClusterAddr(c)
  {
    if b < c - 1 { ClustersApart16(g, b, c - 1); }
  }

  lemma DataFits(g: Geometry16, len: nat)
    requires g.Valid(len)
    ensures g.dataStart * SECTOR <= len
  {
    if g.clusters > 0 { ClustersApart16(g, 2, g.Limit()); }
  }

  lemma EntryFits(g: Geometry16, len: nat, i: nat)
    requires g.Valid(len) && i < g.TableSize()
    ensures g.EntryAddr(i) + 2 <= (g.fatStart + g.fatSectors) * SECTOR <= g.dataStart * SECTOR <= len
    ensures g.numFats > 1 ==> g.EntryAddr(i) + g.fatSectors * SECTOR + 2 <= g.dataStart * SECTOR
  {
    DataFits(g, len);
  }

  // The address the driver computes.
  lemma {:induction false} ClusterAddrIs16(g: Geometry16, c: nat)
    requires c >= 2
    ensures g.ClusterAddr(c) == g.dataStart * SECTOR + Bytes(c - 2, g.ClusterSize())
  {
    if c > 2 {
      ClusterAddrIs16(g, c - 1);
      BytesNext(c - 3, g.ClusterSize());
    }
  }

  lemma ClusterFits(g: Geometry16, len: nat, c: nat)
    requires g.Valid(len) && 2 <= c < g.Limit()
    ensures g.dataStart * SECTOR <= g.ClusterAddr(c) && g.ClusterAddr(c) + g.ClusterSize() <= len
  {
    ClustersApart16(g, c, g.Limit());
    if c > 2 { ClustersApart16(g, 2, c); }
  }

  function Entry16(g: Geometry16, d: seq<byte>, i: nat): (w: nat)
    requires g.Valid(|d|) && i < g.TableSize()
    ensures w < SHORT_SPAN
  {
    EntryFits(g, |d|, i);
    Short16(d, g.EntryAddr(i))
  }

  // A 16-bit link with its markers moved to where the markers of 28-bit links are.
  function Wide(l: nat): nat { if l >= BAD_CLUSTER16 then l + 0x0FFF_0000 else l }

  // The links of the first FAT copy, indexed by cluster number.
  function Links16(g: Geometry16, d: seq<byte>): (fat: seq<nat>)
    requires g.Valid(|d|)
    ensures |fat| == g.Limit()
  {
    seq(g.Limit(), c requires 0 <= c < g.Limit() => Wide(Entry16(g, d, c)))
  }

  function Cluster16(g: Geometry16, d: seq<byte>, c: nat): (s: seq<byte>)
    requires g.Valid(|d|) && c < g.Limit()
    ensures c >= 2 ==> |s| == g.ClusterSize()
  {
    if c < 2 then []
    else
      ClusterFits(g, |d|, c);
      d[g.ClusterAddr(c)..g.ClusterAddr(c) + g.ClusterSize()]
  }

  function Data16(g: Geometry16, d: seq<byte>): (data: seq<seq<byte>>)
    requires g.Valid(|d|)
    ensures |data| == g.Limit()
    ensures forall c :: 2 <= c < |data| ==> |data[c]| == g.ClusterSize()
  {
    seq(g.Limit(), c requires 0 <= c < g.Limit() => Cluster16(g, d, c))
  }

  function SecondAddr(g: Geometry16, i: nat): nat { g.EntryAddr(i) + g.fatSectors * SECTOR }

  ghost predicate SameInBoth(g: Geometry16, d: seq<byte>, i: nat)
    requires g.Valid(|d|) && i < g.TableSize() && g.numFats > 1
  {
    EntryFits(g, |d|, i);
    Short16(d, SecondAddr(g, i)) == Entry16(g, d, i)
  }

  // Both copies of the FAT agree, if there are two.
  ghost predicate Mirrored16(g: Geometry16, d: seq<byte>)
    requires g.Valid(|d|)
  {
    g.numFats > 1 ==> forall i :: 0 <= i < g.TableSize() ==> SameInBoth(g, d, i)
  }

  // No entry past the last cluster looks free.
  ghost predicate SpareTaken(g: Geometry16, d: seq<byte>)
    requires g.Valid(|d|)
  {
    forall i :: g.Limit() <= i < g.TableSize() && i % SHORT_SPAN >= 2 ==> Entry16(g, d, i) != 0
  }

  // ----- setting a link -----

  // The sector an entry lies in.
  lemma EntryAt(g: Geometry16, i: nat)
    requires i < g.TableSize()
    ensures 2 * i / SECTOR < g.fatSectors && 2 * i % SECTOR + 2 <= SECTOR
    ensures (g.fatStart + 2 * i / SECTOR) * SECTOR + 2 * i % SECTOR == g.EntryAddr(i)
  {
    assert 2 * i / SECTOR == i / ENTRIES16 && 2 * i % SECTOR == 2 * (i % ENTRIES16);
  }

  function SectorOf(g: Geometry16, d: seq<byte>, i: nat, w: nat): (r: seq<byte>)
    requires g.Valid(|d|) && i < g.TableSize() && w < SHORT_SPAN
    ensures |r| == SECTOR
  {
    EntryAt(g, i);
    EntryFits(g, |d|, i);
    var a := (g.fatStart + 2 * i / SECTOR) * SECTOR;
    PutShort(d[a..a + SECTOR], 2 * i % SECTOR, w)
  }

  // fat16_set_cluster_value: the patched sector goes to both copies.
  function SetLink16(g: Geometry16, d: seq<byte>, i: nat, w: nat): (r: seq<byte>)
    requires g.Valid(|d|) && i < g.TableSize() && w < SHORT_SPAN
    ensures |r| == |d|
  {
    EntryAt(g, i);
    EntryFits(g, |d|, i);
    var a, sector := (g.fatStart + 2 * i / SECTOR) * SECTOR, SectorOf(g, d, i, w);
    var d1 := Splice(d, a, sector);
    if g.numFats > 1 then Splice(d1, a + g.fatSectors * SECTOR, sector) else d1
  }

  lemma PatchInPlace(d: seq<byte>, a: nat, o: nat, w: nat)
    requires a + SECTOR <= |d| && o + 2 <= SECTOR && w < SHORT_SPAN
    ensures Splice(d, a, PutShort(d[a..a + SECTOR], o, w)) == PutShort(d, a + o, w)
  {
    var l, r := Splice(d, a, PutShort(d[a..a + SECTOR], o, w)), PutShort(d, a + o, w);
    forall k | 0 <= k < |d| ensures l[k] == r[k] {}
  }

  lemma ShortBeside(d: seq<byte>, at: nat, s: seq<byte>, o: nat)
    requires at + |s| <= |d| && o + 2 <= |d| && (o + 2 <= at || at + |s| <= o)
    ensures Short16(Splice(d, at, s), o) == Short16(d, o)
  {}

  lemma ShortInside(d: seq<byte>, at: nat, s: seq<byte>, o: nat)
    requires at + |s| <= |d| && o + 2 <= |s|
    ensures Short16(Splice(d, at, s), at + o) == Short16(s, o)
  {}

  lemma ShortSlice(d: seq<byte>, at: nat, n: nat, o: nat)
    requires at + n <= |d| && o + 2 <= n
    ensures Short16(d[at..at + n], o) == Short16(d, at + o)
  {}

  lemma PutShortBeside(d: seq<byte>, o: nat, w: nat, p: nat)
    requires o + 2 <= |d| && w < SHORT_SPAN && p + 2 <= |d| && (p + 2 <= o || o + 2 <= p)
    ensures Short16(PutShort(d, o, w), p) == Short16(d, p)
  {}

  lemma SetLinkEntry(g: Geometry16, d: seq<byte>, c: nat, w: nat, i: nat)
    requires g.Valid(|d|) && c < g.TableSize() && w < SHORT_SPAN && i < g.TableSize()
    ensures Entry16(g, SetLink16(g, d, c, w), i) == if i == c then w else Entry16(g, d, i)
  {
    hide Splice, PutShort, Short16, Geometry16.ClusterAddr;
    EntryAt(g, c);
    EntryFits(g, |d|, c);
    EntryFits(g, |d|, i);
    var a, sector := (g.fatStart + 2 * c / SECTOR) * SECTOR, SectorOf(g, d, c, w);
    var d1 := Splice(d, a, sector);
    PatchInPlace(d, a, 2 * c % SECTOR, w);
    if i != c { PutShortBeside(d, g.EntryAddr(c), w, g.EntryAddr(i)); }
    if g.numFats > 1 { ShortBeside(d1, a + g.fatSectors * SECTOR, sector, g.EntryAddr(i)); }
  }

  // The entries of a patched sector.
  lemma SectorEntry(g: Geometry16, d: seq<byte>, c: nat, w: nat, i: nat)
    requires g.Valid(|d|) && c < g.TableSize() && w < SHORT_SPAN && i < g.TableSize()
             && 2 * c / SECTOR == 2 * i / SECTOR
    ensures 2 * i % SECTOR + 2 <= SECTOR
    ensures Short16(SectorOf(g, d, c, w), 2 * i % SECTOR) == if i == c then w else Entry16(g, d, i)
  {
    hide PutShort, Short16, Geometry16.ClusterAddr;
    EntryAt(g, c);
    EntryAt(g, i);
    EntryFits(g, |d|, c);
    var a := (g.fatStart + 2 * c / SECTOR) * SECTOR;
    ShortSlice(d, a, SECTOR, 2 * i % SECTOR);
    if i != c { PutShortBeside(d[a..a + SECTOR], 2 * c % SECTOR, w, 2 * i % SECTOR); }
  }

  // The second copy after the write: the sector of c is that of the first copy.
  lemma SetLinkSecond(g: Geometry16, d: seq<byte>, c: nat, w: nat, i: nat)
    requires g.Valid(|d|) && c < g.TableSize() && w < SHORT_SPAN && i < g.TableSize() && g.numFats > 1
             && SameInBoth(g, d, i)
    ensures SameInBoth(g, SetLink16(g, d, c, w), i)
  {
    hide Splice, Short16, Geometry16.ClusterAddr, SectorOf;
    EntryAt(g, c);
    EntryAt(g, i);
    EntryFits(g, |d|, c);
    EntryFits(g, |d|, i);
    var s, t := 2 * c / SECTOR, 2 * i / SECTOR;
    var a, b, sector := (g.fatStart + s) * SECTOR, (g.fatStart + s + g.fatSectors) * SECTOR, SectorOf(g, d, c, w);
    var d1 := Splice(d, a, sector);
    SetLinkEntry(g, d, c, w, i);
    if s == t {
      ShortInside(d1, b, sector, 2 * i % SECTOR);
      SectorEntry(g, d, c, w, i);
    } else {
      SectorsApart(s, t, 2 * i % SECTOR);
      ShortBeside(d1, b, sector, SecondAddr(g, i));
      ShortBeside(d, a, sector, SecondAddr(g, i));
    }
  }

  lemma SectorsApart(s: nat, t: nat, o: nat)
    requires s != t && o + 2 <= SECTOR
    ensures t * SECTOR + o + 2 <= s * SECTOR || s * SECTOR + SECTOR <= t * SECTOR + o
  {}

  lemma SetLinkCluster(g: Geometry16, d: seq<byte>, c: nat, w: nat, e: nat)
    requires g.Valid(|d|) && c < g.TableSize() && w < SHORT_SPAN && e < g.Limit()
    ensures Cluster16(g, SetLink16(g, d, c, w), e) == Cluster16(g, d, e)
  {
    hide Splice, PutShort, Short16, Geometry16.ClusterAddr;
    if e >= 2 {
      EntryAt(g, c);
      EntryFits(g, |d|, c);
      ClusterFits(g, |d|, e);
      var a, sector := (g.fatStart + 2 * c / SECTOR) * SECTOR, SectorOf(g, d, c, w);
      SpliceBeside(d, a, sector, g.ClusterAddr(e), g.ClusterSize());
      if g.numFats > 1 {
        SpliceBeside(Splice(d, a, sector), a + g.fatSectors * SECTOR, sector, g.ClusterAddr(e), g.ClusterSize());
      }
    }
  }

  // Setting a link changes exactly that link, in both copies, and nothing else.
  lemma SetLinkViews(g: Geometry16, d: seq<byte>, c: nat, w: nat)
    requires g.Valid(|d|) && c < g.Limit() && w < SHORT_SPAN
    ensures var d' := SetLink16(g, d, c, w);
            && Links16(g, d') == Links16(g, d)[c := Wide(w)]
            && Data16(g, d') == Data16(g, d)
            && (Mirrored16(g, d) ==> Mirrored16(g, d'))
            && (SpareTaken(g, d') <==> SpareTaken(g, d))
  {
    hide SetLink16, Entry16, Cluster16, SameInBoth, Geometry16.ClusterAddr;
    var d' := SetLink16(g, d, c, w);
    forall i | 0 <= i < g.TableSize() ensures Entry16(g, d', i) == if i == c then w else Entry16(g, d, i) {
      SetLinkEntry(g, d, c, w, i);
    }
    forall e | 0 <= e < g.Limit() ensures Cluster16(g, d', e) == Cluster16(g, d, e) {
      SetLinkCluster(g, d, c, w, e);
    }
    if g.numFats > 1 && Mirrored16(g, d) {
      forall i | 0 <= i < g.TableSize() ensures SameInBoth(g, d', i) { SetLinkSecond(g, d, c, w, i); }
    }
  }

  // ----- writing data -----

  lemma SpliceNested(d: seq<byte>, a: nat, n: nat, b: nat, piece: seq<byte>)
    requires a + n <= |d| && b + |piece| <= n
    ensures Splice(d, a, Splice(d[a..a + n], b, piece)) == Splice(d, a + b, piece)
  {
    hide Splice;
    var inner := Splice(d[a..a + n], b, piece);
    var l, r := Splice(d, a, inner), Splice(d, a + b, piece);
    forall k | 0 <= k < |d| ensures l[k] == r[k] {
      SpliceAt(d, a, inner, k);
      SpliceAt(d, a + b, piece, k);
      if a <= k < a + n { SpliceAt(d[a..a + n], b, piece, k - a); }
    }
  }

  lemma SpliceThrough(d: seq<byte>, a: nat, n: nat, b: nat, piece: seq<byte>)
    requires a + n <= |d| && b + |piece| <= n
    ensures Splice(d, a + b, piece)[a..a + n] == Splice(d[a..a + n], b, piece)
  {
    hide Splice;
    var l, r := Splice(d, a + b, piece)[a..a + n], Splice(d[a..a + n], b, piece);
    forall k | 0 <= k < n ensures l[k] == r[k] {
      SpliceAt(d, a + b, piece, a + k);
      SpliceAt(d[a..a + n], b, piece, k);
    }
  }

  lemma PutDataCluster(g: Geometry16, d: seq<byte>, c: nat, co: nat, piece: seq<byte>, e: nat)
    requires g.Valid(|d|) && 2 <= c < g.Limit() && co + |piece| <= g.ClusterSize() && e < g.Limit()
    ensures g.ClusterAddr(c) + co + |piece| <= |d|
    ensures Cluster16(g, Splice(d, g.ClusterAddr(c) + co, piece), e) ==
            if e == c then Splice(Cluster16(g, d, c), co, piece) else Cluster16(g, d, e)
  {
    hide Splice, Geometry16.Valid, Geometry16.ClusterAddr, Geometry16.ClusterSize;
    ClusterFits(g, |d|, c);
    if e == c {
      SpliceThrough(d, g.ClusterAddr(c), g.ClusterSize(), co, piece);
    } else if e >= 2 {
      ClusterFits(g, |d|, e);
      if e < c { ClustersApart16(g, e, c); } else { ClustersApart16(g, c, e); }
      SpliceBeside(d, g.ClusterAddr(c) + co, piece, g.ClusterAddr(e), g.ClusterSize());
    }
  }

  // Writing part of a cluster changes exactly those bytes.
  lemma PutDataViews(g: Geometry16, d: seq<byte>, c: nat, co: nat, piece: seq<byte>)
    requires g.Valid(|d|) && 2 <= c < g.Limit() && co + |piece| <= g.ClusterSize()
    ensures g.ClusterAddr(c) + co + |piece| <= |d|
    ensures var d' := Splice(d, g.ClusterAddr(c) + co, piece);
            && Data16(g, d') == Data16(g, d)[c := Splice(Data16(g, d)[c], co, piece)]
            && Links16(g, d') == Links16(g, d)
            && (Mirrored16(g, d) ==> Mirrored16(g, d'))
            && (SpareTaken(g, d') <==> SpareTaken(g, d))
  {
    hide Splice, Short16, Cluster16, Geometry16.ClusterAddr;
    ClusterFits(g, |d|, c);
    var d' := Splice(d, g.ClusterAddr(c) + co, piece);
    forall e | 0 <= e < g.Limit()
      ensures Cluster16(g, d', e) == if e == c then Splice(Cluster16(g, d, c), co, piece) else Cluster16(g, d, e)
    {
      PutDataCluster(g, d, c, co, piece, e);
    }
    forall i | 0 <= i < g.TableSize()
      ensures Entry16(g, d', i) == Entry16(g, d, i)
      ensures g.numFats > 1 ==> SameInBoth(g, d', i) == SameInBoth(g, d, i)
    {
      EntryFits(g, |d|, i);
      ShortBeside(d, g.ClusterAddr(c) + co, piece, g.EntryAddr(i));
      if g.numFats > 1 { ShortBeside(d, g.ClusterAddr(c) + co, piece, SecondAddr(g, i)); }
    }
  }

  // ----- the format in bytes -----

  // The entry of cluster c is the word at byte 2 * c of the first FAT: a link below 0xFFF7, and
  // the end of a chain from 0xFFF8 on.
  lemma LinkBytes16(g: Geometry16, d: seq<byte>, c: nat)
    requires g.Valid(|d|) && 2 <= c < g.clusters + 2
    ensures var a := 512 * g.fatStart + 2 * c;
            && a + 2 <= |d|
            && var w := d[a] as int + 0x100 * d[a + 1] as int;
               && (w < 0xFFF7 ==> Links16(g, d)[c] == w)
               && (IsChain(Links16(g, d), [c]) <==> w >= 0xFFF8)
  {
    EntryFits(g, |d|, c);
  }

  lemma ClusterBytesAt16(g: Geometry16, d: seq<byte>, c: nat, a: nat)
    requires g.Valid(|d|) && 2 <= c < g.clusters + 2 && a == g.dataStart * 512 + (c - 2) * (g.sectorsPerCluster * 512)
    ensures a + g.sectorsPerCluster * 512 <= |d| && Data16(g, d)[c] == d[a..a + g.sectorsPerCluster * 512]
  {
    hide Geometry16.ClusterAddr;
    ClusterFits(g, |d|, c);
    ClusterAddrIs16(g, c);
  }
}
