/**
 Files by name, read back: what the directory entry says after a write, and what a read finds.
 */
module Fat32ReadBack {
  import opened Basics
  import opened Fat32Disk
  import opened Fat32Chains
  import opened Fat32Files
  import opened Fat32Names
  import opened Fat32Dir
  import opened Fat32Volume
  import opened Fat32DirOps
  import opened Fat32Unlink
  import opened Fat32Named

  // ----- the entry after a write -----

  // The entry covers the bytes just written at `off`, is no shorter than before and no longer
  // than it must be, and heads the chain of the file.
  ghost predicate Covers(e: Slot, e': Slot, f': seq<nat>, off: nat, r: nat) {
    && Short(e') == Short(e) && Attr(e') == Attr(e) && IsEntry(e') && HeadOf(e', f')
    && FileSize(e') >= off + r && FileSize(e') >= FileSize(e)
    && (FileSize(e') == off + r || FileSize(e') == FileSize(e))
  }

  // A write whose update goes to the slot of the entry itself changes that slot only.
  lemma WrittenEntry(all: seq<Slot>, all': seq<Slot>, p: nat, f': seq<nat>, off: nat, r: nat, date: nat, time: nat)
    requires p < |all| && IsEntry(all[p]) && FirstMatch(all, 0, Short(all[p])) == p && r > 0
    requires date < 0x1_0000 && time < 0x1_0000 && Entered(all, all', p, f', off, r, date, time)
    ensures |all'| == |all| && (forall t :: 0 <= t < |all| && t != p ==> all'[t] == all[t])
    ensures Covers(all[p], all'[p], f', off, r)
  {
    hide Updated, FirstMatch, Short, Attr, IsEntry, FirstCluster, FileSize;
    if Changes(all[p], f', off, r) {
      UpdatedKeeps(all[p], Head(f'), NewSize(all[p], off, r), date, time);
    }
  }

  lemma UpdatedKeeps(e: Slot, first: nat, size: nat, date: nat, time: nat)
    requires first < WORD_SPAN && size < WORD_SPAN && date < 0x1_0000 && time < 0x1_0000 && IsEntry(e)
    ensures var r := Updated(e, Attr(e), first, size, date, time);
            IsEntry(r) && Short(r) == Short(e) && Attr(r) == Attr(e) && FirstCluster(r) == first && FileSize(r) == size
  {
    hide Updated, FirstCluster, FileSize, Short;
    UpdatedFields(e, Attr(e), first, size, date, time);
  }

  // A lookup finds the entry again.
  lemma StillFound(all: seq<Slot>, all': seq<Slot>, p: nat, name: Name)
    requires Lookup(all, name) == Some(p) && |all'| == |all| && (forall t :: 0 <= t < |all| && t != p ==> all'[t] == all[t])
    requires IsEntry(all'[p]) && Short(all'[p]) == Short(all[p])
    ensures Lookup(all', name) == Some(p)
  {
    hide EntryName, SameName, Next;
    FindNoEnd(all, 0, NO_LFN, name);
    FindByScan(all, 0, NO_LFN, p, name);
    FindByScan(all', 0, NO_LFN, p, name);
    ScanFrame(all, all', 0, NO_LFN, p, name);
    SameEntryName(all[p], all'[p]);
  }

  // The name depends on the short name alone.
  lemma SameEntryName(e: Slot, e': Slot)
    requires Short(e') == Short(e)
    ensures forall l :: EntryName(l, e') == EntryName(l, e)
  {}

  // ----- reading by name -----

  // How many bytes a read of a file with this many bytes in its clusters returns.
  function ReadCount(stored: nat, off: nat, size: nat): int {
    if stored == 0 || size == 0 then 0
    else if off >= stored then -1
    else if size < stored - off then size else stored - off
  }

  // Opening a file by name and reading from it: fat32_find_in_dir, then fat32_vfs_read.
  method ReadNamed(v: Volume, dir: nat, name: Name, off: nat, size: nat, ghost ch: seq<nat>, ghost f: seq<nat>)
    returns (r: int, buf: seq<byte>)
    requires v.Valid() && dir >= 2 && IsChain(v.State().fat, ch) && ch[0] == dir
    requires (forall i :: 0 <= i < |ch| ==> ch[i] < |v.Data()|) && Holds(v.State(), v.Data(), ch, name, f)
    requires forall i :: 0 <= i < |f| ==> f[i] < |v.Data()|
    ensures var look := Lookup(Directory(v.Data(), ch), name);
            if look.None? || IsDirectory(Directory(v.Data(), ch)[look.value]) then r == -1
            else r == ReadCount(|Flat(v.Data(), f)|, off, size) && (r > 0 ==> buf == Flat(v.Data(), f)[off..off + r])
  {
    hide Links, Clusters, IsChain, Bytes, Directory, Find, FirstCluster, IsDirectory, Flat;
    buf := [];
    var found, entry := FindInDir(v, dir, name, ch);
    if !found { return -1, []; }
    if IsDirectory(entry) { return -1, []; }
    var start := FirstCluster(entry);
    FileFlat(v, f);
    if start == 0 { return 0, []; }
    r, buf := v.ReadFileData(start, off, size, f);
  }

  lemma FileFlat(v: Volume, f: seq<nat>)
    requires v.Valid() && IsFile(v.State().fat, f) && forall i :: 0 <= i < |f| ==> f[i] < |v.Data()|
    ensures |Flat(v.Data(), f)| == 0 <==> f == []
    ensures f != [] ==> f[0] >= 2
  {
    hide Links, Clusters, IsChain, Bytes, Flat;
    FileInRange(v.State().fat, f);
    StateSized(v);
    FlatLength(v.Data(), f, v.g.ClusterBytes());
    BytesZero(v.g.ClusterBytes());
    BytesNext(0, v.g.ClusterBytes());
    if f != [] { BytesMono(1, |f|, v.g.ClusterBytes()); }
  }

  // How many bytes of a file of this size a read should return.
  function Wanted(fileSize: nat, off: nat, size: nat): nat {
    if off >= fileSize then 0 else if size < fileSize - off then size else fileSize - off
  }

  // A read is not clipped to the size of the file, only to its clusters: it returns as many bytes
  // as the file has exactly when it does not ask for more, the file fills its last cluster, or it
  // has none.
  lemma ReadClippedIff(stored: nat, fileSize: nat, off: nat, size: nat)
    requires fileSize <= stored
    ensures ReadCount(stored, off, size) == Wanted(fileSize, off, size) <==>
            size == 0 || off + size <= fileSize || (off < fileSize && stored == fileSize) || stored == 0
  {}

  // Asked for 512 bytes of a file of 100 in one cluster, a read returns 512.
  lemma ReadsPastEnd()
    ensures ReadCount(512, 0, 512) == 512 && Wanted(100, 0, 512) == 100
  {}

  // ----- a write read back by name -----

  // The slot an update of the entry goes to is its own: no slot in use before it has its short name.
  ghost predicate OwnSlot(all: seq<Slot>, name: Name) {
    var look := Lookup(all, name); look.Some? ==> FirstMatch(all, 0, Short(all[look.value])) == look.value
  }

  // After a write by name, the name leads to the same slot, which covers the bytes and heads the
  // grown chain.
  lemma AfterWrite(s: FatState, data: seq<seq<byte>>, ch: seq<nat>, name: Name, off: nat, buf: seq<byte>, n: nat,
                   date: nat, time: nat, f: seq<nat>, s': FatState, data': seq<seq<byte>>, f': seq<nat>, r: int)
    requires date < 0x1_0000 && time < 0x1_0000 && (forall i :: 0 <= i < |ch| ==> ch[i] < |data|)
    requires Sized(s.fat) && IsChain(s.fat, ch) && Holds(s, data, ch, name, f) && OwnSlot(Directory(data, ch), name) && r > 0
    requires NamedWritten(s, data, ch, name, off, buf, n, date, time, f, s', data', f', r)
    ensures r == |buf| && IsChain(s'.fat, ch) && IsChain(s'.fat, f')
    ensures |data'| == |data| && (forall i :: 0 <= i < |f'| ==> f'[i] < |data'|) && Holds(s', data', ch, name, f')
    ensures off + r <= |Flat(data', f')| && Flat(data', f')[off..off + r] == buf
    ensures var all, all' := Directory(data, ch), Directory(data', ch);
            var look := Lookup(all, name);
            && look.Some? && Lookup(all', name) == look && Covers(all[look.value], all'[look.value], f', off, r)
            && !IsDirectory(all'[look.value])
  {
    hide Directory, Find, Flat, IsChain, FirstCluster, IsEntry, Short, FirstMatch, Attr, FileSize, GrowTo, ClustersFor,
         Entered;
    var all, all' := Directory(data, ch), Directory(data', ch);
    var p := Lookup(all, name).value;
    ChainInRange(s.fat, ch);
    ExtendedKeeps(s, f, off, buf, n, s', f', r);
    forall c | c in ch ensures c !in f {}
    ExtendedSpares(s, f, off, buf, n, s', f', r, ch);
    forall c | c in f' ensures c !in ch {}
    WrittenEntry(all, all', p, f', off, r, date, time);
    StillFound(all, all', p, name);
  }

  // Writes by name, finds the name again, and reads as many bytes from `off` on as the entry says
  // the file has there.
  method WriteAndReadBack(v: Volume, dir: nat, name: Name, off: nat, buf: seq<byte>, date: nat, time: nat,
                          ghost ch: seq<nat>, ghost f: seq<nat>)
    returns (r: int, size: nat, got: seq<byte>)
    requires v.Valid() && dir >= 2 && IsChain(v.State().fat, ch) && ch[0] == dir && date < 0x1_0000 && time < 0x1_0000
    requires Holds(v.State(), v.Data(), ch, name, f) && OwnSlot(Directory(v.Data(), ch), name)
    modifies v, v.disk
    ensures v.Valid()
    ensures var all := old(Directory(v.Data(), ch));
            var look := Lookup(all, name);
            r > 0 ==>
              && r == |buf| && look.Some? && size >= off + r && size >= FileSize(all[look.value])
              && (size == off + r || size == FileSize(all[look.value])) && buf <= got
  {
    hide Links, Clusters, TopBits, Mirrored, IsChain, Flat, Bytes, Directory, FirstCluster, FileSize, Short, Attr,
         IsEntry;
    hide Extended, Entered, FirstMatch, Find, IsDirectory, OwnSlot, Holds, NamedWritten;
    size, got := 0, [];
    StateSized(v);
    ChainInRange(v.State().fat, ch);
    ghost var s, data, n := v.State(), v.Data(), v.g.ClusterBytes();
    ghost var f';
    r, f' := WriteNamed(v, dir, name, off, buf, date, time, ch, f);
    if r <= 0 { return; }
    AfterWrite(s, data, ch, name, off, buf, n, date, time, f, v.State(), v.Data(), f', r);
    var found, entry := FindInDir(v, dir, name, ch);
    size := FileSize(entry);
    StateSized(v);
    ChainInRange(v.State().fat, f');
    ghost var file := Flat(v.Data(), f');
    var k;
    k, got := v.ReadFileData(FirstCluster(entry), off, size - off, f');
    PrefixOf(file, off, r, k);
  }

  lemma PrefixOf(file: seq<byte>, off: nat, r: nat, k: nat)
    requires r <= k && off + k <= |file|
    ensures file[off..off + r] <= file[off..off + k]
  {}
}
