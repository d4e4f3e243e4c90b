/**
 Reading a FAT16 file through a handle that remembers its last place in the cluster chain,
 against the plain meaning of the file as the bytes of its chain.
 */
module Fat16Read {
  import opened Basics
  import opened Fat32Disk
  import opened Fat32Chains
  import opened Fat32Files
  import opened Fat16Disk
  import opened Fat16Volume

  // A link as the driver reads it, on the way along a chain.
  lemma FollowRaw(fat: seq<nat>, ch: seq<nat>, k: nat, next: nat)
    requires IsChain(fat, ch) && |fat| <= BAD_CLUSTER16 && k < |ch| && next < SHORT_SPAN && Wide(next) == fat[ch[k]]
    ensures if k + 1 < |ch| then next == ch[k + 1] else next >= END_OF_CHAIN
  {
    FollowLink(fat, ch, k);
  }

  // ----- offsets -----

  // What the handle keeps of a size, computed in 32 bits.
  function Clip(offset: nat, size: nat, fileSize: nat): nat
    requires offset <= fileSize
  {
    if (offset + size) % WORD_SPAN > fileSize then fileSize - offset else size
  }

  // Requests are cut at the end of the file exactly when the end position does not wrap.
  lemma ClipIsExact(offset: nat, size: nat, fileSize: nat)
    requires offset < fileSize < WORD_SPAN && size < WORD_SPAN
    ensures Clip(offset, size, fileSize) == (if size < fileSize - offset then size else fileSize - offset)
            <==> offset + size < WORD_SPAN
  {}

  // Asked for almost 4 GiB at byte 10 of 100, nothing is cut.
  lemma ClipWraps()
    ensures Clip(10, 0xFFFF_FFFF, 100) == 0xFFFF_FFFF
  {}

  class File16 {
    const fs: Volume16
    var firstCluster: nat
    var fileSize: nat
    var currentOffset: nat
    var cachedOffset: nat
    var cachedCluster: nat
    var cacheValid: bool

    // `ch` is the file's chain, empty while it has no cluster, and covers its size.
    ghost predicate Sound(ch: seq<nat>)
      reads this, fs, fs.disk
    {
      && fs.Valid() && IsFile(fs.Links(), ch)
      && (if ch == [] then firstCluster < 2 else firstCluster == ch[0])
      && fileSize <= Bytes(|ch|, fs.g.ClusterSize()) && fileSize < WORD_SPAN
    }

    ghost predicate Valid(ch: seq<nat>)
      reads this, fs, fs.disk
    {
      Sound(ch) && if ch == [] then cacheValid ==> cachedCluster < 2 else CacheOk(ch)
    }

    // The remembered cluster is the one the remembered offset falls in.
    ghost predicate CacheOk(ch: seq<nat>)
      reads this
    {
      cacheValid ==> InCluster(ch, cachedOffset, cachedCluster, fs.g.ClusterSize())
    }

    // fat16_open_file
    constructor (fs: Volume16, firstCluster: nat, fileSize: nat, ghost ch: seq<nat>)
      requires fs.Valid() && IsFile(fs.Links(), ch) && (if ch == [] then firstCluster < 2 else ch[0] == firstCluster)
      requires fileSize <= Bytes(|ch|, fs.g.ClusterSize()) && fileSize < WORD_SPAN
      ensures Valid(ch) && this.fs == fs && this.fileSize == fileSize && currentOffset == 0
      ensures cacheValid && cachedOffset == 0 && cachedCluster == firstCluster
    {
      this.fs, this.firstCluster, this.fileSize := fs, firstCluster, fileSize;
      currentOffset, cachedOffset, cachedCluster, cacheValid := 0, 0, firstCluster, true;
    }

    // The VFS layer sets the position directly.
    method Seek(offset: nat, ghost ch: seq<nat>)
      requires Valid(ch)
      modifies this`currentOffset
      ensures Valid(ch) && currentOffset == offset
    {
      currentOffset := offset;
    }

    // The cluster of the current offset, walking from the remembered place when that is not
    // past it, else from the first cluster.
    method Locate(ghost ch: seq<nat>) returns (cluster: nat)
      requires Valid(ch) && Index(currentOffset, fs.g.ClusterSize()) < |ch|
      modifies this`cachedOffset, this`cachedCluster, this`cacheValid
      ensures Valid(ch) && cluster == ch[Index(currentOffset, fs.g.ClusterSize())]
    {
      var n := fs.g.ClusterSize();
      ghost var fat := fs.Links();
      var target := Index(currentOffset, n);
      hide IsChain, Bytes, Index;
      if cacheValid && cachedOffset == currentOffset {
        return cachedCluster;
      }
      var start := 0;
      cluster := firstCluster;
      if cacheValid {
        var cachedIndex := Index(cachedOffset, n);
        if cachedIndex <= target {
          start, cluster := cachedIndex, cachedCluster;
        }
      }
      for i := start to target
        invariant i < |ch| && cluster == ch[i]
      {
        cluster := fs.GetNextCluster(cluster);
        FollowRaw(fat, ch, i, cluster);
        if cluster >= END_OF_CHAIN { break; }
      }
      cachedOffset, cachedCluster, cacheValid := currentOffset, cluster, true;
    }

    // The bytes read; empty at the end of the file.
    method Read(size: nat, ghost ch: seq<nat>) returns (out: seq<byte>)
      requires Valid(ch) && size < WORD_SPAN
      modifies this`currentOffset, this`cachedOffset, this`cachedCluster, this`cacheValid
      ensures Valid(ch)
      ensures var file, from := Flat(fs.Data(), ch), old(currentOffset);
              if from >= fileSize then out == [] && currentOffset == from
              else
                var asked := Clip(from, size, fileSize);
                && fileSize <= |file|
                && |out| == (if asked < |file| - from then asked else |file| - from)
                && out == file[from..from + |out|]
                && currentOffset == from + |out|
    {
      hide Flat, Bytes, IsChain, Index, Volume16.Valid, Volume16.Data, Volume16.Links, Geometry16.ClusterSize;
      if currentOffset >= fileSize { return []; }
      var left := if (currentOffset + size) % WORD_SPAN > fileSize then fileSize - currentOffset else size;
      FileLength(ch);
      out := [];
      if left > 0 {
        IndexInFile(currentOffset, |ch|, fs.g.ClusterSize());
        var cluster := Locate(ch);
        out := CopyFrom(cluster, left, ch);
      }
    }

    lemma FileLength(ch: seq<nat>)
      requires Valid(ch)
      ensures fs.g.ClusterSize() > 0 && |fs.Links()| <= BAD_CLUSTER16
      ensures Uniform(fs.Data(), ch, fs.g.ClusterSize())
      ensures |Flat(fs.Data(), ch)| == Bytes(|ch|, fs.g.ClusterSize())
    {
      FlatLength(fs.Data(), ch, fs.g.ClusterSize());
    }

    // The walk stands at cluster number k, which holds the current offset, or has run off the
    // end of the chain with the offset at the end of its last cluster.
    ghost predicate Placed(ch: seq<nat>, k: nat, cluster: nat)
      reads this
    {
      var n := fs.g.ClusterSize();
      if k < |ch| then cluster == ch[k] && Bytes(k, n) <= currentOffset < Bytes(k, n) + n
      else k == |ch| && cluster >= END_OF_CHAIN && currentOffset == Bytes(|ch|, n)
    }

    // One turn of the copy loop.
    method CopyChunk(cluster: nat, size: nat, ghost ch: seq<nat>, ghost k: nat)
      returns (chunk: seq<byte>, next: nat, ghost k': nat)
      requires Valid(ch) && size > 0 && k < |ch| && Placed(ch, k, cluster)
      modifies this`currentOffset, this`cachedOffset, this`cachedCluster, this`cacheValid
      ensures Valid(ch) && Placed(ch, k', next)
      ensures 0 < |chunk| <= size && currentOffset == old(currentOffset) + |chunk|
      ensures var file := Flat(fs.Data(), ch);
              currentOffset <= |file| && chunk == file[old(currentOffset)..currentOffset]
    {
      hide Flat, Bytes, IsChain, Index, Uniform, Volume16.Valid, Volume16.Data, Volume16.Links, Geometry16.ClusterSize;
      var n := fs.g.ClusterSize();
      FileLength(ch);
      ghost var data, fat, file, from := fs.Data(), fs.Links(), Flat(fs.Data(), ch), currentOffset;
      ChainInRange(fat, ch);
      FlatAt(data, ch, k, n);
      BytesNext(k, n);
      var co := OffsetIn(currentOffset, n, k, from - Bytes(k, n));
      chunk := fs.ReadChunk(cluster, co, size);
      SubSlice(file, Bytes(k, n), n, co, |chunk|);
      currentOffset := currentOffset + |chunk|;
      k' := if co + |chunk| == n then k + 1 else k;
      next := StepOn(cluster, ch, k, k');
    }

    // Moves to the next cluster when the position has come to its end, and remembers the place.
    method StepOn(cluster: nat, ghost ch: seq<nat>, ghost k: nat, ghost k': nat) returns (next: nat)
      requires Valid(ch) && k < |ch| && cluster == ch[k] && fs.g.ClusterSize() > 0
      requires var n := fs.g.ClusterSize();
               if k' == k then Bytes(k, n) < currentOffset < Bytes(k, n) + n
               else k' == k + 1 && currentOffset == Bytes(k + 1, n)
      modifies this`cachedOffset, this`cachedCluster, this`cacheValid
      ensures Valid(ch) && Placed(ch, k', next)
    {
      hide Bytes, IsChain, Index, Volume16.Valid, Volume16.Data, Volume16.Links, Geometry16.ClusterSize;
      var n := fs.g.ClusterSize();
      FileLength(ch);
      ChainInRange(fs.Links(), ch);
      next := cluster;
      var rest := OffsetIn(currentOffset, n, k', currentOffset - Bytes(k', n));
      IndexIs(currentOffset, n, k');
      if rest == 0 {
        next := fs.GetNextCluster(cluster);
        FollowRaw(fs.Links(), ch, k, next);
        if next >= END_OF_CHAIN { return; }
      }
      cachedOffset, cachedCluster, cacheValid := currentOffset, next, true;
    }

    // The copy loop, from the cluster the current offset falls in.
    method CopyFrom(start: nat, size: nat, ghost ch: seq<nat>) returns (out: seq<byte>)
      requires Valid(ch) && size > 0 && InCluster(ch, currentOffset, start, fs.g.ClusterSize())
      modifies this`currentOffset, this`cachedOffset, this`cachedCluster, this`cacheValid
      ensures Valid(ch) && currentOffset == old(currentOffset) + |out|
      ensures var file, from := Flat(fs.Data(), ch), old(currentOffset);
              && from < |file|
              && |out| == (if size < |file| - from then size else |file| - from)
              && out == file[from..from + |out|]
    {
      hide Flat, Bytes, IsChain, Index, Uniform, Volume16.Valid, Volume16.Data, Volume16.Links, Geometry16.ClusterSize;
      var n := fs.g.ClusterSize();
      FileLength(ch);
      ghost var data, fat, file, from := fs.Data(), fs.Links(), Flat(fs.Data(), ch), currentOffset;
      ghost var k: nat := Index(from, n);
      Positioned(from, n, k);
      var cluster: nat := start;
      out := [];
      FlatAt(data, ch, k, n);
      while |out| < size && 2 <= cluster < END_OF_CHAIN
        invariant Valid(ch) && Placed(ch, k, cluster)
        invariant currentOffset == from + |out| <= |file| && |out| <= size
        invariant out == file[from..from + |out|]
        decreases size - |out|
      {
        ghost var at := currentOffset;
        var chunk;
        chunk, cluster, k := CopyChunk(cluster, size - |out|, ch, k);
        assert file[from..at] + file[at..currentOffset] == file[from..currentOffset];
        out := out + chunk;
      }
      ChainInRange(fat, ch);
    }
  }

  // Which cluster of a file an offset falls in.
  function Index(off: nat, n: nat): nat
    requires n > 0
  {
    off / n
  }

  // Cluster c is the chain's cluster for byte offset `off`.
  ghost predicate InCluster(ch: seq<nat>, off: nat, c: nat, n: nat) {
    n > 0 && Index(off, n) < |ch| && ch[Index(off, n)] == c
  }

  lemma Positioned(off: nat, n: nat, k: nat)
    requires n > 0 && k == Index(off, n)
    ensures Bytes(k, n) <= off < Bytes(k, n) + n
  {}

  lemma IndexInFile(off: nat, len: nat, n: nat)
    requires n > 0 && off < Bytes(len, n)
    ensures Index(off, n) < len
  {
    var k := Index(off, n);
    Positioned(off, n, k);
    if k >= len { BytesMono(len, k, n); }
  }

  method OffsetIn(off: nat, n: nat, ghost k: nat, ghost co: nat) returns (rest: nat)
    requires n > 0 && off == Bytes(k, n) + co && co < n
    ensures rest == co
  {
    DivModUnique(off, n, k, co);
    rest := off % n;
  }

  lemma IndexIs(off: nat, n: nat, k: nat)
    requires n > 0 && Bytes(k, n) <= off < Bytes(k, n) + n
    ensures Index(off, n) == k
  {
    DivModUnique(off, n, k, off - Bytes(k, n));
  }
}
