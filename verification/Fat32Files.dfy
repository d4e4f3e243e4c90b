/**
 File contents as the concatenation of the clusters of a chain, independent of any volume.
 */
module Fat32Files {
  import opened Basics
  import opened Fat32Disk
  import opened Fat32Chains

  // Bytes in k clusters of n bytes.
  function Bytes(k: nat, n: nat): nat { k * n }

  // All clusters named by the chain exist and hold n bytes.
  ghost predicate Uniform(data: seq<seq<byte>>, ch: seq<nat>, n: nat) {
    forall i :: 0 <= i < |ch| ==> ch[i] < |data| && |data[ch[i]]| == n
  }

  ghost predicate Distinct(ch: seq<nat>) {
    forall i, j :: 0 <= i < j < |ch| ==> ch[i] != ch[j]
  }

  ghost function Flat(data: seq<seq<byte>>, ch: seq<nat>): seq<byte>
    requires forall i :: 0 <= i < |ch| ==> ch[i] < |data|
  {
    if ch == [] then [] else data[ch[0]] + Flat(data, ch[1..])
  }

  lemma {:induction false} FlatLength(data: seq<seq<byte>>, ch: seq<nat>, n: nat)
    requires Uniform(data, ch, n)
    ensures |Flat(data, ch)| == Bytes(|ch|, n)
  {
    if ch != [] {
      FlatLength(data, ch[1..], n);
      assert |ch| * n == n + |ch[1..]| * n;
    }
  }

  lemma {:induction false} FlatAppend(data: seq<seq<byte>>, a: seq<nat>, b: seq<nat>)
    requires forall i :: 0 <= i < |a| ==> a[i] < |data|
    requires forall i :: 0 <= i < |b| ==> b[i] < |data|
    ensures Flat(data, a + b) == Flat(data, a) + Flat(data, b)
  {
    if a == [] {
      assert a + b == b;
    } else {
      FlatAppend(data, a[1..], b);
      assert (a + b)[1..] == a[1..] + b;
    }
  }

  lemma {:induction false} FlatFrame(data: seq<seq<byte>>, data': seq<seq<byte>>, ch: seq<nat>)
    requires |data'| == |data|
    requires forall i :: 0 <= i < |ch| ==> ch[i] < |data| && data'[ch[i]] == data[ch[i]]
    ensures Flat(data', ch) == Flat(data, ch)
  {
    if ch != [] {
      FlatFrame(data, data', ch[1..]);
    }
  }

  lemma {:induction false} FlatSplit(data: seq<seq<byte>>, ch: seq<nat>, k: nat)
    requires k < |ch| && forall i :: 0 <= i < |ch| ==> ch[i] < |data|
    ensures Flat(data, ch) == Flat(data, ch[..k]) + data[ch[k]] + Flat(data, ch[k + 1..])
  {
    if k == 0 {
      assert ch[..0] == [];
    } else {
      FlatSplit(data, ch[1..], k - 1);
      assert ch[1..][..k - 1] == ch[..k][1..];
      assert ch[1..][k..] == ch[k + 1..];
      assert Flat(data, ch[..k]) == data[ch[0]] + Flat(data, ch[..k][1..]);
    }
  }

  // Cluster k of the chain sits at byte k * n of the file.
  lemma FlatAt(data: seq<seq<byte>>, ch: seq<nat>, k: nat, n: nat)
    requires Uniform(data, ch, n) && k < |ch|
    ensures |Flat(data, ch)| == Bytes(|ch|, n)
    ensures Bytes(k, n) + n == Bytes(k + 1, n) <= Bytes(|ch|, n)
    ensures Flat(data, ch)[Bytes(k, n)..Bytes(k, n) + n] == data[ch[k]]
  {
    FlatLength(data, ch, n);
    FlatLength(data, ch[..k], n);
    FlatSplit(data, ch, k);
    FlatLength(data, ch[k + 1..], n);
    assert (|ch| - k - 1) * n == |ch| * n - k * n - n;
  }

  // Replacing cluster k of the chain replaces n bytes of the file.
  lemma FlatUpdate(data: seq<seq<byte>>, ch: seq<nat>, k: nat, buf: seq<byte>)
    requires Uniform(data, ch, |buf|) && Distinct(ch) && k < |ch|
    ensures Bytes(k, |buf|) + |buf| <= |Flat(data, ch)|
    ensures Flat(data[ch[k] := buf], ch) == Splice(Flat(data, ch), Bytes(k, |buf|), buf)
  {
    hide Bytes, Flat;
    var data' := data[ch[k] := buf];
    FlatAt(data, ch, k, |buf|);
    FlatSplit(data, ch, k);
    FlatSplit(data', ch, k);
    FlatFrame(data, data', ch[..k]);
    FlatFrame(data, data', ch[k + 1..]);
    FlatLength(data, ch[..k], |buf|);
  }

  // A write that continues, inside cluster content `was`, where the first w bytes stopped.
  lemma SpliceContinues(f: seq<byte>, off: nat, done: seq<byte>, base: nat, n: nat, co: nat, piece: seq<byte>)
    requires off + |done| + |piece| <= |f| && base + n <= |f|
    requires base + co == off + |done| && co + |piece| <= n
    ensures var g := Splice(f, off, done);
            Splice(g, base, Splice(g[base..base + n], co, piece)) == Splice(f, off, done + piece)
  {
    var g := Splice(f, off, done);
    var l := Splice(g, base, Splice(g[base..base + n], co, piece));
    var r := Splice(f, off, done + piece);
    var inner := Splice(g[base..base + n], co, piece);
    hide Splice;
    forall k | 0 <= k < |f| ensures l[k] == r[k] {
      SpliceAt(f, off, done, k);
      SpliceAt(f, off, done + piece, k);
      SpliceAt(g, base, inner, k);
      if base <= k < base + n { SpliceAt(g[base..base + n], co, piece, k - base); }
    }
  }

  // Whole clusters before a byte offset, and the offset in the cluster reached.
  method SplitOffset(off: nat, n: nat) returns (skip: nat, co: nat)
    requires n > 0
    ensures Bytes(skip, n) + co == off && co < n
  {
    skip, co := off / n, off % n;
  }

  lemma MulAtLeast(a: int, n: int)
    requires n > 0
    ensures a >= 1 ==> a * n >= n
    ensures a <= -1 ==> a * n <= -n
  {}

  lemma DivModUnique(pos: nat, n: nat, k: nat, co: nat)
    requires n > 0 && pos == Bytes(k, n) + co && co < n
    ensures pos / n == k && pos % n == co
  {
    var q, r := pos / n, pos % n;
    assert q * n + r == pos;
    assert (q - k) * n == co - r;
    MulAtLeast(q - k, n);
  }

  lemma SubSlice(d: seq<byte>, at: nat, n: nat, co: nat, t: nat)
    requires at + n <= |d| && co + t <= n
    ensures d[at..at + n][co..co + t] == d[at + co..at + co + t]
  {
    var l, r := d[at..at + n][co..co + t], d[at + co..at + co + t];
    forall i | 0 <= i < t ensures l[i] == r[i] {}
  }

  lemma SliceExtends(file: seq<byte>, from: nat, len: nat, base: nat, n: nat, co: nat, t: nat)
    requires base + n <= |file| && co + t <= n && from + len == base + co
    ensures file[from..from + len] + file[base..base + n][co..co + t] == file[from..from + len + t]
  {
    var piece := file[base..base + n][co..co + t];
    assert |piece| == t && forall i :: 0 <= i < t ==> piece[i] == file[base + co + i];
  }

  lemma BytesNext(k: nat, n: nat)
    ensures Bytes(k + 1, n) == Bytes(k, n) + n
  {}

  lemma BytesMono(a: nat, b: nat, n: nat)
    requires a <= b
    ensures Bytes(a, n) <= Bytes(b, n)
  {}

  // How many clusters of n bytes hold x bytes.
  function ClustersFor(x: nat, n: nat): nat
    requires n > 0
  {
    if x == 0 then 0 else if x <= n then 1 else 1 + ClustersFor(x - n, n)
  }

  lemma {:induction false} ClustersForIs(x: nat, n: nat, k: nat)
    requires n > 0 && Bytes(k, n) < x <= Bytes(k, n) + n
    ensures ClustersFor(x, n) == k + 1
  {
    if k > 0 {
      assert k * n == (k - 1) * n + n;
      ClustersForIs(x - n, n, k - 1);
    }
  }

  // Clusters `data` differ from `data0` only inside chain ch, and there exactly by `done`
  // having been put at byte `off`.
  ghost predicate Written(data0: seq<seq<byte>>, data: seq<seq<byte>>, ch: seq<nat>, n: nat, off: nat,
                          done: seq<byte>) {
    && |data| == |data0|
    && Uniform(data0, ch, n) && Uniform(data, ch, n)
    && (forall c :: 0 <= c < |data| && c !in ch ==> data[c] == data0[c])
    && (done == [] ==> data == data0)
    && (done != [] ==> off + |done| <= |Flat(data0, ch)|
                       && Flat(data, ch) == Splice(Flat(data0, ch), off, done))
  }

  lemma WrittenGrows(data0: seq<seq<byte>>, data: seq<seq<byte>>, ch: seq<nat>, n: nat, off: nat, done: seq<byte>,
                     c: nat)
    requires Written(data0, data, ch, n, off, done)
    requires c < |data0| && |data0[c]| == n && c !in ch
    ensures Written(data0, data, ch + [c], n, off, done)
  {
    FlatAppend(data, ch, [c]);
    FlatAppend(data0, ch, [c]);
    assert Flat(data, [c]) == data[c] == data0[c] == Flat(data0, [c]);
  }

  lemma WrittenStep(data0: seq<seq<byte>>, data: seq<seq<byte>>, ch: seq<nat>, n: nat, off: nat, done: seq<byte>,
                    k: nat, co: nat, piece: seq<byte>)
    requires Written(data0, data, ch, n, off, done) && Distinct(ch)
    requires k < |ch| && co + |piece| <= n && piece != []
    requires Bytes(k, n) + co == off + |done|
    ensures Written(data0, data[ch[k] := Splice(data[ch[k]], co, piece)], ch, n, off, done + piece)
  {
    hide Bytes, Flat;
    var f, g := Flat(data0, ch), Flat(data, ch);
    var buf := Splice(data[ch[k]], co, piece);
    FlatAt(data, ch, k, n);
    FlatAt(data0, ch, k, n);
    FlatUpdate(data, ch, k, buf);
    if done == [] {
      assert g == Splice(f, off, done);
    }
    hide Splice;
    SpliceContinues(f, off, done, Bytes(k, n), n, co, piece);
    assert ch[k] in ch;
  }

  // What has been written stays written while the chain grows by one cluster.
  lemma WrittenAlong(s: FatState, ch: seq<nat>, k: nat, data0: seq<seq<byte>>, data: seq<seq<byte>>, n: nat, off: nat,
                     done: seq<byte>)
    requires Sized(s.fat) && IsFile(s.fat, ch) && GrowTo(s, ch, k).ok
    requires |data0| == |s.fat| && forall c :: 2 <= c < |data0| ==> |data0[c]| == n
    requires Written(data0, data, GrowTo(s, ch, k).ch, n, off, done)
    ensures Written(data0, data, GrowTo(s, ch, k + 1).ch, n, off, done)
  {
    hide Written, Append, IsFile;
    FileInRange(s.fat, ch);
    var q := GrowTo(s, ch, k);
    GrowToKeeps(s, ch, k);
    AppendKeeps(q.s, q.ch);
    if k + 1 > |ch| && Append(q.s, q.ch).ok {
      var q' := Append(q.s, q.ch);
      FileInRange(q'.s.fat, q'.ch);
      assert q'.ch == q.ch + [q'.ch[|q.ch|]];
      WrittenGrows(data0, data, q.ch, n, off, done, q'.ch[|q.ch|]);
    }
  }

  // A write needs the cluster its first byte falls in.
  lemma WriteNeeds(off: nat, size: nat, skip: nat, co: nat, n: nat)
    requires co < n && size > 0 && Bytes(skip, n) + co == off
    ensures ClustersFor(off + size, n) >= skip + 1
  {
    ClustersForAbove(off + size, n, skip);
  }

  lemma {:induction false} ClustersForAbove(x: nat, n: nat, k: nat)
    requires n > 0 && Bytes(k, n) < x
    ensures ClustersFor(x, n) > k
  {
    if k > 0 {
      assert k * n == (k - 1) * n + n;
      ClustersForAbove(x - n, n, k - 1);
    }
  }

  lemma WrittenNothing(data: seq<seq<byte>>, ch: seq<nat>, n: nat, off: nat)
    requires Uniform(data, ch, n)
    ensures Written(data, data, ch, n, off, [])
  {}

  // One turn of the write loop: t bytes go to cluster number k, from a buffer that holds the
  // cluster's bytes unless all of them are replaced.
  lemma CopyStep(s: FatState, ch: seq<nat>, k: nat, data0: seq<seq<byte>>, data: seq<seq<byte>>, n: nat, off: nat,
                 buf: seq<byte>, w: nat, co: nat, t: nat, cb: seq<byte>)
    requires Sized(s.fat) && IsFile(s.fat, ch) && GrowTo(s, ch, k + 1).ok
    requires 0 < t && w + t <= |buf| && co + t <= n && |cb| == n
    requires Written(data0, data, GrowTo(s, ch, k + 1).ch, n, off, buf[..w])
    requires Bytes(k, n) + co == off + w && (w > 0 ==> co == 0)
    requires t == n || cb == data[GrowTo(s, ch, k + 1).ch[k]]
    ensures var cur := GrowTo(s, ch, k + 1).ch[k];
            Written(data0, data[cur := Splice(cb, co, buf[w..w + t])], GrowTo(s, ch, k + 1).ch, n, off, buf[..w + t])
  {
    hide GrowTo, IsFile, Flat, Bytes;
    FileInRange(s.fat, ch);
    var q := GrowTo(s, ch, k + 1);
    GrowToKeeps(s, ch, k + 1);
    ChainAcyclic(q.s.fat, q.ch);
    WrittenStep(data0, data, q.ch, n, off, buf[..w], k, co, buf[w..w + t]);
    assert buf[..w] + buf[w..w + t] == buf[..w + t];
    if t == n {
      assert Splice(cb, co, buf[w..w + t]) == Splice(data[q.ch[k]], co, buf[w..w + t]);
    }
  }

  // The written range reads back, and every other byte of the file is as before.
  lemma WrittenReadsBack(data0: seq<seq<byte>>, data: seq<seq<byte>>, ch: seq<nat>, n: nat, off: nat, done: seq<byte>)
    requires Written(data0, data, ch, n, off, done) && done != []
    ensures off + |done| <= |Flat(data, ch)| == |Flat(data0, ch)|
    ensures Flat(data, ch)[off..off + |done|] == done
    ensures Flat(data, ch)[..off] == Flat(data0, ch)[..off]
    ensures Flat(data, ch)[off + |done|..] == Flat(data0, ch)[off + |done|..]
  {
    var f, g := Flat(data0, ch), Flat(data, ch);
    hide Flat;
    assert g == f[..off] + done + f[off + |done|..];
  }

  // A file that shares no cluster with the written one keeps its bytes.
  lemma WrittenSparesOthers(data0: seq<seq<byte>>, data: seq<seq<byte>>, ch: seq<nat>, n: nat, off: nat,
                            done: seq<byte>, other: seq<nat>)
    requires Written(data0, data, ch, n, off, done)
    requires forall i :: 0 <= i < |other| ==> other[i] < |data0| && other[i] !in ch
    ensures Flat(data, other) == Flat(data0, other)
  {
    FlatFrame(data0, data, other);
  }

  lemma NonEmptyFlat(data: seq<seq<byte>>, ch: seq<nat>)
    requires forall i :: 0 <= i < |ch| ==> ch[i] < |data|
    ensures Flat(data, ch) != [] ==> ch != []
  {}
}
