/**
 Directory operations on a mounted volume: finding, creating and deleting entries cluster by
 cluster, against the directory seen as one sequence of slots.
 */
module Fat32DirOps {
  import opened Basics
  import opened Fat32Disk
  import opened Fat32Chains
  import opened Fat32Files
  import opened Fat32Names
  import opened Fat32Dir
  import opened Fat32Volume

  // ----- slots of a cluster and of a directory -----

  function SlotsOf(bytes: seq<byte>): (r: seq<Slot>)
    ensures |r| == |bytes| / SLOT
  {
    seq(|bytes| / SLOT, i requires 0 <= i < |bytes| / SLOT => bytes[SLOT * i..SLOT * i + SLOT])
  }

  // Slots per cluster.
  function PerCluster(g: Geometry): nat { 16 * g.sectorsPerCluster }

  ghost function Directory(data: seq<seq<byte>>, ch: seq<nat>): seq<Slot>
    requires forall i :: 0 <= i < |ch| ==> ch[i] < |data|
  {
    SlotsOf(Flat(data, ch))
  }

  lemma BytesOfSlots(k: nat, m: nat)
    ensures Bytes(k, SLOT * m) == SLOT * Bytes(k, m)
  {}

  // ----- finding -----

  // The cluster after number k of the chain and its bytes; 0 at the end.
  method LoadNext(v: Volume, current: nat, ghost ch: seq<nat>, ghost k: nat) returns (next: nat, buf: seq<byte>)
    requires v.Valid() && IsChain(v.State().fat, ch) && k < |ch| && current == ch[k]
    ensures next == if k + 1 < |ch| then ch[k + 1] else 0
    ensures next != 0 ==> next < |v.Data()| && buf == v.Data()[next]
  {
    hide Links, Clusters;
    LimitSmall(v.g, v.disk.Length);
    ChainInRange(v.State().fat, ch);
    FollowLink(v.State().fat, ch, k);
    hide IsChain;
    buf := [];
    next := v.GetFatEntry(current);
    if next < 2 || next >= EOC_MIN { return 0, []; }
    var _, b := v.ReadCluster(next);
    buf := b;
  }

  // A directory's clusters hold whole slots, and its first is at hand.
  ghost predicate DirReady(data: seq<seq<byte>>, ch: seq<nat>, m: nat) {
    ch != [] && m > 0 && Uniform(data, ch, SLOT * m) && forall i :: 0 <= i < |ch| ==> ch[i] >= 2
  }

  lemma DirIsReady(v: Volume, ch: seq<nat>)
    requires v.Valid() && IsChain(v.State().fat, ch)
    ensures DirReady(v.Data(), ch, PerCluster(v.g)) && |v.Data()| == v.g.Limit()
  {
    ChainInRange(v.State().fat, ch);
  }

  // What scanning one cluster gives: the slot looked for, the end of the directory, or the
  // state to go on with.
  datatype Sweep = At(i: nat) | End | GoOn(l: Lfn)

  function SweepFrom(slots: seq<Slot>, i: nat, l: Lfn, name: Name): (r: Sweep)
    requires i <= |slots|
    ensures r.At? ==> i <= r.i < |slots|
    decreases |slots| - i
  {
    if i == |slots| then GoOn(l)
    else if IsEnd(slots[i]) then End
    else if Hit(l, slots[i], name) then At(i)
    else SweepFrom(slots, i + 1, Next(l, slots[i]), name)
  }

  // The slots are those of `all` from `base` on.
  ghost predicate PartOf(all: seq<Slot>, base: nat, slots: seq<Slot>) {
    base + |slots| <= |all| && forall j :: 0 <= j < |slots| ==> all[base + j] == slots[j]
  }

  lemma PartAt(all: seq<Slot>, base: nat, slots: seq<Slot>, j: nat)
    requires PartOf(all, base, slots) && j < |slots|
    ensures base + j < |all| && all[base + j] == slots[j]
  {}

  lemma {:induction false} FindBySweep(all: seq<Slot>, base: nat, slots: seq<Slot>, i: nat, l: Lfn, name: Name)
    requires PartOf(all, base, slots) && i <= |slots|
    ensures Find(all, base + i, l, name) ==
            match SweepFrom(slots, i, l, name)
            case At(j) => Some(base + j)
            case End => None
            case GoOn(l') => Find(all, base + |slots|, l', name)
    decreases |slots| - i
  {
    hide Hit, Next;
    if i < |slots| { FindBySweep(all, base, slots, i + 1, Next(l, slots[i]), name); }
  }

  method SweepCluster(buf: seq<byte>, l: Lfn, name: Name) returns (r: Sweep, slot: Slot)
    requires |buf| % SLOT == 0
    ensures r == SweepFrom(SlotsOf(buf), 0, l, name)
    ensures r.At? ==> slot == SlotsOf(buf)[r.i]
  {
    slot := Zeros(SLOT);
    ghost var slots := SlotsOf(buf);
    hide Next, Hit;
    var state := l;
    var m := |buf| / SLOT;
    for i := 0 to m
      invariant SweepFrom(slots, 0, l, name) == SweepFrom(slots, i, state, name)
    {
      slot := buf[SLOT * i..SLOT * i + SLOT];
      if IsEnd(slot) { return End, slot; }
      if Hit(state, slot, name) { return At(i), slot; }
      state := Next(state, slot);
    }
    r := GoOn(state);
  }

  lemma SlicedSlots(f: seq<byte>, base: nat, m: nat)
    requires SLOT * base + SLOT * m <= |f|
    ensures |SlotsOf(f[SLOT * base..SLOT * base + SLOT * m])| == m
    ensures PartOf(SlotsOf(f), base, SlotsOf(f[SLOT * base..SLOT * base + SLOT * m]))
  {
    var slots := SlotsOf(f[SLOT * base..SLOT * base + SLOT * m]);
    forall j | 0 <= j < m ensures SlotsOf(f)[base + j] == slots[j] {
      SubSlice(f, SLOT * base, SLOT * m, SLOT * j, SLOT);
    }
  }

  // Cluster number k of a directory, as slots.
  lemma DirectoryPart(data: seq<seq<byte>>, ch: seq<nat>, m: nat, k: nat)
    requires DirReady(data, ch, m) && k < |ch|
    ensures |Directory(data, ch)| == Bytes(|ch|, m)
    ensures ch[k] < |data| && |data[ch[k]]| % SLOT == 0 && |SlotsOf(data[ch[k]])| == m
    ensures Bytes(k, m) + m == Bytes(k + 1, m) <= Bytes(|ch|, m)
    ensures PartOf(Directory(data, ch), Bytes(k, m), SlotsOf(data[ch[k]]))
  {
    hide Bytes, Flat, PartOf;
    FlatAt(data, ch, k, SLOT * m);
    BytesOfSlots(k, m);
    BytesOfSlots(k + 1, m);
    BytesOfSlots(|ch|, m);
    SlicedSlots(Flat(data, ch), Bytes(k, m), m);
  }

  // One cluster's share of a lookup in the whole directory.
  ghost predicate SearchResult(all: seq<Slot>, base: nat, next: nat, l: Lfn, name: Name, r: Sweep, slot: Slot) {
    match r
    case At(j) => Find(all, base, l, name) == Some(base + j) && base + j < |all| && slot == all[base + j]
    case End => Find(all, base, l, name) == None
    case GoOn(l') => Find(all, base, l, name) == Find(all, next, l', name)
  }

  lemma SearchIs(all: seq<Slot>, base: nat, slots: seq<Slot>, l: Lfn, name: Name, r: Sweep, slot: Slot)
    requires PartOf(all, base, slots)
    requires r == SweepFrom(slots, 0, l, name) && (r.At? ==> slot == slots[r.i])
    ensures SearchResult(all, base, base + |slots|, l, name, r, slot)
  {
    hide Find, SweepFrom, PartOf;
    FindBySweep(all, base, slots, 0, l, name);
    if r.At? { PartAt(all, base, slots, r.i); }
  }

  method SearchCluster(buf: seq<byte>, l: Lfn, name: Name, ghost all: seq<Slot>, ghost base: nat, ghost next: nat)
    returns (r: Sweep, slot: Slot)
    requires |buf| % SLOT == 0 && PartOf(all, base, SlotsOf(buf)) && next == base + |SlotsOf(buf)|
    ensures SearchResult(all, base, next, l, name, r, slot)
  {
    hide Find, SweepFrom, PartOf, SlotsOf;
    r, slot := SweepCluster(buf, l, name);
    SearchIs(all, base, SlotsOf(buf), l, name, r, slot);
  }

  method FindInDir(v: Volume, dir: nat, name: Name, ghost ch: seq<nat>) returns (found: bool, entry: Slot)
    requires v.Valid()
    requires dir >= 2 ==> IsChain(v.State().fat, ch) && ch[0] == dir
    ensures dir < 2 ==> !found
    ensures dir >= 2 ==>
              var slots := Directory(v.Data(), ch);
              var r := Lookup(slots, name);
              found == r.Some? && (found ==> entry == slots[r.value])
  {
    hide Links, Clusters, IsChain, Flat, Bytes, Find, Directory, DirReady, SlotsOf, PartOf, PerCluster;
    found, entry := false, Zeros(SLOT);
    if dir < 2 { return; }
    DirIsReady(v, ch);
    ChainInRange(v.State().fat, ch);
    ghost var m: nat, data, slots := PerCluster(v.g), v.Data(), Directory(v.Data(), ch);
    var current: nat, l := dir, NO_LFN;
    ghost var k: nat := 0;
    var _, buf := v.ReadCluster(current);
    BytesZero(m);
    while true
      invariant v.Valid() && v.Data() == data && IsChain(v.State().fat, ch)
      invariant k < |ch| && current == ch[k] && buf == data[current]
      invariant Lookup(slots, name) == Find(slots, Bytes(k, m), l, name)
      decreases |ch| - k
    {
      DirectoryPart(data, ch, m, k);
      var r, slot := SearchCluster(buf, l, name, slots, Bytes(k, m), Bytes(k + 1, m));
      match r {
        case End => return;
        case At(i) => return true, slot;
        case GoOn(l') => l := l';
      }
      var next;
      next, buf := LoadNext(v, current, ch, k);
      if next == 0 {
        FindPastEnd(slots, Bytes(k + 1, m), l, name);
        return;
      }
      current, k := next, k + 1;
    }
  }

  lemma BytesZero(m: nat)
    ensures Bytes(0, m) == 0
  {}

  // ----- replacing one cluster of a directory -----

  // all' is all with the slots from `base` on replaced.
  ghost predicate Replaced(all: seq<Slot>, all': seq<Slot>, base: nat, slots: seq<Slot>) {
    && |all'| == |all| && PartOf(all', base, slots)
    && forall t :: 0 <= t < |all| && !(base <= t < base + |slots|) ==> all'[t] == all[t]
  }

  lemma SplicedSlot(f: seq<byte>, base: nat, buf: seq<byte>, t: nat)
    requires SLOT * base + |buf| <= |f| && |buf| % SLOT == 0 && t < |f| / SLOT
    ensures var f' := Splice(f, SLOT * base, buf);
            && |f'| == |f|
            && SlotsOf(f')[t] == if base <= t < base + |buf| / SLOT then SlotsOf(buf)[t - base] else SlotsOf(f)[t]
  {
    var f' := Splice(f, SLOT * base, buf);
    var l := SlotsOf(f')[t];
    assert l == f'[SLOT * t..SLOT * t + SLOT];
    if base <= t < base + |buf| / SLOT {
      var o: nat := SLOT * (t - base);
      assert SlotsOf(buf)[t - base] == buf[o..o + SLOT];
      hide SlotsOf;
      forall x | 0 <= x < SLOT ensures l[x] == buf[o..o + SLOT][x] {
        assert f'[SLOT * t + x] == buf[o + x];
      }
    } else {
      assert SlotsOf(f)[t] == f[SLOT * t..SLOT * t + SLOT];
      hide SlotsOf;
      forall x | 0 <= x < SLOT ensures l[x] == f[SLOT * t..SLOT * t + SLOT][x] {
        assert f'[SLOT * t + x] == f[SLOT * t + x];
      }
    }
  }

  lemma SplicedSlots(f: seq<byte>, base: nat, buf: seq<byte>)
    requires SLOT * base + |buf| <= |f| && |buf| % SLOT == 0
    ensures Replaced(SlotsOf(f), SlotsOf(Splice(f, SLOT * base, buf)), base, SlotsOf(buf))
  {
    hide SlotsOf, Splice;
    var all, all', slots := SlotsOf(f), SlotsOf(Splice(f, SLOT * base, buf)), SlotsOf(buf);
    forall t | 0 <= t < |all| ensures |all'| == |all|
      ensures all'[t] == if base <= t < base + |slots| then slots[t - base] else all[t]
    {
      SplicedSlot(f, base, buf, t);
    }
    forall j | 0 <= j < |slots| ensures all'[base + j] == slots[j] {
      SplicedSlot(f, base, buf, base + j);
    }
  }

  lemma DirectoryUpdate(data: seq<seq<byte>>, ch: seq<nat>, m: nat, k: nat, buf: seq<byte>)
    requires DirReady(data, ch, m) && Distinct(ch) && k < |ch| && |buf| == SLOT * m
    ensures DirReady(data[ch[k] := buf], ch, m)
    ensures Replaced(Directory(data, ch), Directory(data[ch[k] := buf], ch), Bytes(k, m), SlotsOf(buf))
  {
    FlatUpdate(data, ch, k, buf);
    BytesOfSlots(k, m);
    hide Flat, Bytes, SlotsOf, Splice, Replaced;
    SplicedSlots(Flat(data, ch), Bytes(k, m), buf);
  }

  // ----- creating -----

  ghost predicate NoneFree(all: seq<Slot>, n: nat) { n <= |all| && forall t :: 0 <= t < n ==> !IsFree(all[t]) }

  // The first free slot of a cluster, or how many it has.
  method FreeIn(buf: seq<byte>) returns (i: nat)
    ensures i == Fat32Dir.FirstFree(SlotsOf(buf), 0)
  {
    i := 0;
    while i < |buf| / SLOT
      invariant i <= |buf| / SLOT && forall t :: 0 <= t < i ==> !IsFree(SlotsOf(buf)[t])
    {
      var slot: Slot := buf[SLOT * i..SLOT * i + SLOT];
      assert slot == SlotsOf(buf)[i];
      if IsFree(slot) { return; }
      i := i + 1;
    }
  }

  lemma FreePart(all: seq<Slot>, base: nat, slots: seq<Slot>)
    requires PartOf(all, base, slots) && NoneFree(all, base)
    ensures var i := Fat32Dir.FirstFree(slots, 0);
            if i < |slots| then Fat32Dir.FirstFree(all, 0) == base + i else NoneFree(all, base + |slots|)
  {
    var i := Fat32Dir.FirstFree(slots, 0);
    forall t | base <= t < base + i ensures !IsFree(all[t]) { PartAt(all, base, slots, t - base); }
    if i < |slots| { PartAt(all, base, slots, i); }
  }

  // Where the search for a free slot stops: slot i of cluster number k, which is `current` and
  // holds `buf`; i is the number of slots if the directory is full.
  method FindSlot(v: Volume, dir: nat, ghost ch: seq<nat>) returns (current: nat, buf: seq<byte>, i: nat, ghost k: nat)
    requires v.Valid() && IsChain(v.State().fat, ch) && ch[0] == dir
    ensures k < |ch| && current == ch[k] < |v.Data()| && buf == v.Data()[current]
    ensures i <= PerCluster(v.g) && Fat32Dir.FirstFree(Directory(v.Data(), ch), 0) == Bytes(k, PerCluster(v.g)) + i
    ensures i == PerCluster(v.g) ==> k + 1 == |ch|
  {
    DirIsReady(v, ch);
    ChainInRange(v.State().fat, ch);
    LimitSmall(v.g, v.disk.Length);
    ChainBound(v.State().fat, ch);
    hide Links, Clusters, IsChain, Flat, Bytes, Directory, DirReady, SlotsOf, PartOf, PerCluster;
    ghost var m: nat, data, slots := PerCluster(v.g), v.Data(), Directory(v.Data(), ch);
    current, k := dir, 0;
    var _, b := v.ReadCluster(current);
    buf := b;
    BytesZero(m);
    while true
      invariant v.Valid() && v.Data() == data && IsChain(v.State().fat, ch)
      invariant k < |ch| && current == ch[k] && buf == data[current]
      invariant NoneFree(slots, Bytes(k, m))
      decreases |ch| - k
    {
      // the count of turns never passes the number of clusters
      assert k + 1 <= v.g.clusters;
      DirectoryPart(data, ch, m, k);
      i := FreeIn(buf);
      FreePart(slots, Bytes(k, m), SlotsOf(buf));
      if i < |buf| / SLOT { return; }
      var next, b := LoadNext(v, current, ch, k);
      if next == 0 { return; }
      current, buf, k := next, b, k + 1;
    }
  }

  // The directory `ch` in (s, data) after entry e went to its first free slot, or to the first
  // slot of a cluster added to it; ok is false when it is full and so is the volume.
  ghost predicate Created(s: FatState, data: seq<seq<byte>>, ch: seq<nat>, e: Slot, m: nat,
                          s': FatState, data': seq<seq<byte>>, ch': seq<nat>, ok: bool) {
    && m > 0 && 2 <= |s.fat| && ch != [] && |data'| == |data| == |s.fat|
    && (forall i :: 0 <= i < |ch| ==> 2 <= ch[i] < |data|)
    && (forall i :: 0 <= i < |ch'| ==> ch'[i] < |data|)
    && (forall c :: 0 <= c < |data| && c !in ch' ==> data'[c] == data[c])
    && var slots := Directory(data, ch);
       var p := Fat32Dir.FirstFree(slots, 0);
       if p < |slots| then
         ok && s' == s && ch' == ch && Directory(data', ch) == slots[p := e]
       else
         var r := Append(s, ch);
         && ok == r.ok && s' == r.s && ch' == r.ch
         && (if ok then Directory(data', ch') == slots + Blank(m)[0 := e] else data' == data)
  }

  // The m empty slots of a new cluster.
  function Blank(m: nat): (r: seq<Slot>)
    ensures |r| == m && forall i :: 0 <= i < m ==> IsEnd(r[i])
  {
    seq(m, i => Zeros(SLOT))
  }

  lemma SetSlot(buf: seq<byte>, i: nat, e: Slot)
    requires |buf| % SLOT == 0 && i < |buf| / SLOT
    ensures SlotsOf(Splice(buf, SLOT * i, e)) == SlotsOf(buf)[i := e]
  {
    var l, r := SlotsOf(Splice(buf, SLOT * i, e)), SlotsOf(buf)[i := e];
    assert SlotsOf(e)[0] == e[0..SLOT] == e;
    forall t | 0 <= t < |buf| / SLOT ensures l[t] == r[t] { SplicedSlot(buf, i, e, t); }
  }

  lemma SlotPut(data: seq<seq<byte>>, ch: seq<nat>, e: Slot, m: nat, k: nat, i: nat)
    requires DirReady(data, ch, m) && Distinct(ch) && k < |ch| && i < m
    ensures ch[k] < |data| && SLOT * i + SLOT <= |data[ch[k]]| && Bytes(k, m) + i < |Directory(data, ch)|
    ensures Directory(data[ch[k] := Splice(data[ch[k]], SLOT * i, e)], ch) == Directory(data, ch)[Bytes(k, m) + i := e]
  {
    var buf := data[ch[k]];
    SetSlot(buf, i, e);
    DirectoryPart(data, ch, m, k);
    DirectoryUpdate(data, ch, m, k, Splice(buf, SLOT * i, e));
    hide Bytes, Directory, SlotsOf, Splice, PartOf, Replaced;
    SlotReplaced(Directory(data, ch), Directory(data[ch[k] := Splice(buf, SLOT * i, e)], ch), Bytes(k, m), SlotsOf(buf), i, e);
  }

  lemma CreatedInPlace(s: FatState, data: seq<seq<byte>>, ch: seq<nat>, e: Slot, m: nat, k: nat, i: nat)
    requires 2 <= |s.fat| == |data| && DirReady(data, ch, m) && Distinct(ch) && k < |ch| && i < m
    requires Fat32Dir.FirstFree(Directory(data, ch), 0) == Bytes(k, m) + i
    ensures ch[k] < |data| && SLOT * i + SLOT <= |data[ch[k]]|
    ensures Created(s, data, ch, e, m, s, data[ch[k] := Splice(data[ch[k]], SLOT * i, e)], ch, true)
  {
    SlotPut(data, ch, e, m, k, i);
    hide Bytes, Directory, Splice;
    assert ch[k] in ch;
  }

  lemma SlotReplaced(all: seq<Slot>, all': seq<Slot>, base: nat, slots: seq<Slot>, i: nat, e: Slot)
    requires PartOf(all, base, slots) && i < |slots| && Replaced(all, all', base, slots[i := e])
    ensures all' == all[base + i := e]
  {
    forall t | 0 <= t < |all| ensures all'[t] == all[base + i := e][t] {
      if base <= t < base + |slots| {
        PartAt(all, base, slots, t - base);
        PartAt(all', base, slots[i := e], t - base);
      }
    }
  }

  lemma SlotsAppend(f: seq<byte>, buf: seq<byte>)
    requires |f| % SLOT == 0 && |buf| % SLOT == 0
    ensures SlotsOf(f + buf) == SlotsOf(f) + SlotsOf(buf)
  {
    var l, r := SlotsOf(f + buf), SlotsOf(f) + SlotsOf(buf);
    forall t | 0 <= t < |l| ensures l[t] == r[t] {
      forall x | 0 <= x < SLOT ensures l[t][x] == r[t][x] {}
    }
  }

  lemma GrownDirectory(data: seq<seq<byte>>, ch: seq<nat>, m: nat, c: nat, buf: seq<byte>)
    requires DirReady(data, ch, m) && c < |data| && c !in ch && |buf| == SLOT * m
    ensures Directory(data[c := buf], ch + [c]) == Directory(data, ch) + SlotsOf(buf)
  {
    hide Bytes, SlotsOf, Flat;
    var data' := data[c := buf];
    FlatLength(data, ch, SLOT * m);
    BytesOfSlots(|ch|, m);
    FlatAppend(data', ch, [c]);
    FlatFrame(data, data', ch);
    FlatOne(data', c);
    SlotsAppend(Flat(data, ch), buf);
  }

  lemma FlatOne(data: seq<seq<byte>>, c: nat)
    requires c < |data|
    ensures Flat(data, [c]) == data[c]
  {
    assert [c][1..] == [];
  }

  lemma BlankCluster(m: nat, e: Slot)
    requires m > 0
    ensures SlotsOf(Zeros(SLOT * m)) == Blank(m)
    ensures SlotsOf(Splice(Zeros(SLOT * m), 0, e)) == Blank(m)[0 := e]
  {
    var z := SlotsOf(Zeros(SLOT * m));
    forall t | 0 <= t < m ensures z[t] == Blank(m)[t] {
      forall x | 0 <= x < SLOT ensures z[t][x] == 0 {}
    }
    SetSlot(Zeros(SLOT * m), 0, e);
  }

  lemma CreatedGrown(s: FatState, data: seq<seq<byte>>, ch: seq<nat>, e: Slot, m: nat)
    requires Sized(s.fat) && |s.fat| == |data| && IsChain(s.fat, ch) && DirReady(data, ch, m)
    requires Fat32Dir.FirstFree(Directory(data, ch), 0) == Bytes(|ch|, m)
    ensures var r := Append(s, ch);
            if r.ok then
              var c := r.ch[|ch|];
              c < |data| && Created(s, data, ch, e, m, r.s, data[c := Splice(Zeros(SLOT * m), 0, e)], r.ch, true)
            else Created(s, data, ch, e, m, r.s, data, r.ch, false)
  {
    hide Bytes, Directory, Append, IsChain, SlotsOf, Splice, PartOf, Fat32Dir.FirstFree;
    AppendKeeps(s, ch);
    ChainInRange(s.fat, ch);
    DirectoryPart(data, ch, m, |ch| - 1);
    var r := Append(s, ch);
    FileInRange(r.s.fat, r.ch);
    if r.ok {
      var c := r.ch[|ch|];
      assert r.ch == ch + [c];
      GrownDirectory(data, ch, m, c, Splice(Zeros(SLOT * m), 0, e));
      BlankCluster(m, e);
      assert c in r.ch;
    }
  }

  lemma AppendIs(s: FatState, ch: seq<nat>)
    requires 2 <= |s.fat| && ch != [] && 2 <= ch[|ch| - 1] < |s.fat|
    ensures var c, r := Pick(s.fat, s.nextFree), Append(s, ch);
            && r.ok == (c != 0) && r.s == (if c == 0 then s else var t := Take(s, c); t.(fat := t.fat[ch[|ch| - 1] := c]))
            && (r.ok ==> |r.ch| == |ch| + 1 && r.ch[|ch|] == c)
  {}

  // Allocates a cluster and links it after the last one; 0 when the volume is full.
  method LinkCluster(v: Volume, current: nat, ghost ch: seq<nat>) returns (next: nat)
    requires v.Valid() && ch != [] && 2 <= current == ch[|ch| - 1] < v.g.Limit()
    modifies v, v.disk
    ensures v.Valid() && v.Intact(old(v.disk[..])) && v.Data() == old(v.Data())
    ensures |old(v.State()).fat| == v.g.Limit() && next < v.g.Limit()
    ensures var r := Append(old(v.State()), ch);
            && v.State() == r.s && (next != 0 <==> r.ok)
            && (next != 0 ==> 2 <= next == r.ch[|ch|])
  {
    hide Links, Clusters, TopBits, Mirrored, Pick, Append, Take, Geometry.FatBase, Geometry.ClusterAddr;
    ghost var s := v.State();
    LimitSmall(v.g, v.disk.Length);
    AppendIs(s, ch);
    next := v.AllocateCluster();
    if next == 0 { return; }
    assert next % LINK_SPAN == next;
    ghost var t := v.State();
    var _ := v.SetFatEntry(current, next);
    assert v.State() == t.(fat := t.fat[current := next]);
  }

  // Adds an empty cluster to the directory.
  method AddCluster(v: Volume, current: nat, ghost ch: seq<nat>) returns (next: nat)
    requires v.Valid() && ch != [] && 2 <= current == ch[|ch| - 1] < v.g.Limit()
    modifies v, v.disk
    ensures v.Valid() && v.Intact(old(v.disk[..])) && |old(v.Data())| == |old(v.State()).fat| == v.g.Limit()
    ensures var r := Append(old(v.State()), ch);
            && v.State() == r.s && (next != 0 <==> r.ok)
            && (if next == 0 then v.Data() == old(v.Data())
                else 2 <= next == r.ch[|ch|] < v.g.Limit() && v.Data() == old(v.Data())[next := Zeros(v.g.ClusterBytes())])
  {
    hide Links, TopBits, Mirrored, Append;
    next := LinkCluster(v, current, ch);
    if next == 0 { return; }
    var _ := v.WriteCluster(next, Zeros(v.g.ClusterBytes()));
  }

  // Puts an entry in an empty cluster.
  method PutFirst(v: Volume, cluster: nat, e: Slot)
    requires v.Valid() && 2 <= cluster < v.g.Limit() && v.Data()[cluster] == Zeros(v.g.ClusterBytes())
    modifies v, v.disk
    ensures v.Valid() && v.Intact(old(v.disk[..])) && v.State() == old(v.State())
    ensures v.Data() == old(v.Data())[cluster := Splice(Zeros(v.g.ClusterBytes()), 0, e)]
  {
    hide Links, Clusters, TopBits, Mirrored, SlotsOf;
    var _, buf := v.ReadCluster(cluster);
    BlankCluster(PerCluster(v.g), e);
    var i := FreeIn(buf);
    assert i == 0;
    var _ := v.WriteCluster(cluster, Splice(buf, SLOT * i, e));
  }

  // Adds a cluster to a full directory and puts the entry in its first slot.
  method AppendSlot(v: Volume, current: nat, e: Slot, ghost ch: seq<nat>) returns (ok: bool, ghost ch': seq<nat>)
    requires v.Valid() && IsChain(v.State().fat, ch) && current == ch[|ch| - 1]
    requires Fat32Dir.FirstFree(Directory(v.Data(), ch), 0) == Bytes(|ch|, PerCluster(v.g))
    modifies v, v.disk
    ensures v.Valid() && v.Intact(old(v.disk[..]))
    ensures Created(old(v.State()), old(v.Data()), ch, e, PerCluster(v.g), v.State(), v.Data(), ch', ok)
  {
    DirIsReady(v, ch);
    ChainInRange(v.State().fat, ch);
    LimitSmall(v.g, v.disk.Length);
    hide Links, Clusters, TopBits, Mirrored, IsChain, Flat, Bytes, Directory, DirReady, SlotsOf, Pick, Append;
    ghost var s, data, m := v.State(), v.Data(), PerCluster(v.g);
    assert SLOT * m == v.g.ClusterBytes();
    CreatedGrown(s, data, ch, e, m);
    hide Created, PerCluster;
    ch' := Append(s, ch).ch;
    var next := AddCluster(v, current, ch);
    if next == 0 { return false, ch'; }
    // the next turn of the search, on the new cluster
    PutFirst(v, next, e);
    UpdateTwice(data, next, Zeros(SLOT * m), Splice(Zeros(SLOT * m), 0, e));
    ok := true;
  }

  lemma UpdateTwice<T>(xs: seq<T>, i: nat, x: T, y: T)
    requires i < |xs|
    ensures xs[i := x][i := y] == xs[i := y]
  {}

  // Writes the entry to slot i of cluster number k, the first free one.
  method PutInPlace(v: Volume, current: nat, buf: seq<byte>, i: nat, e: Slot, ghost ch: seq<nat>, ghost k: nat)
    requires v.Valid() && IsChain(v.State().fat, ch) && k < |ch| && current == ch[k] < |v.Data()|
             && buf == v.Data()[current]
    requires i < PerCluster(v.g) && Fat32Dir.FirstFree(Directory(v.Data(), ch), 0) == Bytes(k, PerCluster(v.g)) + i
    modifies v, v.disk
    ensures v.Valid() && v.Intact(old(v.disk[..]))
    ensures Created(old(v.State()), old(v.Data()), ch, e, PerCluster(v.g), v.State(), v.Data(), ch, true)
  {
    DirIsReady(v, ch);
    ChainInRange(v.State().fat, ch);
    LimitSmall(v.g, v.disk.Length);
    ChainAcyclic(v.State().fat, ch);
    CreatedInPlace(v.State(), v.Data(), ch, e, PerCluster(v.g), k, i);
    hide Links, Clusters, TopBits, Mirrored, IsChain, Bytes, Directory, DirReady, Created, PerCluster;
    var _ := v.WriteCluster(current, Splice(buf, SLOT * i, e));
  }

  // Puts an entry in the first free slot of a directory.
  method PlaceEntry(v: Volume, dir: nat, e: Slot, ghost ch: seq<nat>) returns (ok: bool, ghost ch': seq<nat>)
    requires v.Valid() && IsChain(v.State().fat, ch) && ch[0] == dir
    modifies v, v.disk
    ensures v.Valid() && v.Intact(old(v.disk[..]))
    ensures Created(old(v.State()), old(v.Data()), ch, e, PerCluster(v.g), v.State(), v.Data(), ch', ok)
  {
    hide *;
    ghost var k;
    var current, buf, i;
    current, buf, i, k := FindSlot(v, dir, ch);
    if i < PerCluster(v.g) {
      PutInPlace(v, current, buf, i, e, ch, k);
      return true, ch;
    }
    BytesNext(k, PerCluster(v.g));
    ok, ch' := AppendSlot(v, current, e, ch);
  }

  // Creates the entry of an empty file under a name that needs no long form; `ch'` is the
  // directory's chain afterwards.
  method CreateShort(v: Volume, dir: nat, name: Name, date: nat, time: nat, ghost ch: seq<nat>)
    returns (ok: bool, ghost ch': seq<nat>)
    requires v.Valid() && !NeedsLong(name) && date < 0x1_0000 && time < 0x1_0000
    requires dir >= 2 ==> IsChain(v.State().fat, ch) && ch[0] == dir
    modifies v, v.disk
    ensures v.Valid() && v.Intact(old(v.disk[..]))
    ensures dir < 2 ==> !ok && v.State() == old(v.State()) && v.Data() == old(v.Data())
    ensures dir >= 2 ==>
              var e := NewEntry(ShortName(name), date, time);
              Created(old(v.State()), old(v.Data()), ch, e, PerCluster(v.g), v.State(), v.Data(), ch', ok)
  {
    ok, ch' := false, ch;
    if dir < 2 { return; }
    hide *;
    var short := NameTo83(name);
    ok, ch' := PlaceEntry(v, dir, NewEntry(short, date, time), ch);
  }

  lemma FirstFreeGrown(all: seq<Slot>, blank: seq<Slot>)
    requires Fat32Dir.FirstFree(all, 0) == |all| && blank != [] && IsEnd(blank[0])
    ensures Fat32Dir.FirstFree(all + blank, 0) == |all|
  {
    var more, p := all + blank, Fat32Dir.FirstFree(all + blank, 0);
    assert IsFree(more[|all|]);
    assert forall t :: 0 <= t < |all| ==> more[t] == all[t];
  }

  // What a created entry does to lookups.
  lemma CreatedLookup(s: FatState, data: seq<seq<byte>>, ch: seq<nat>, e: Slot, m: nat,
                      s': FatState, data': seq<seq<byte>>, ch': seq<nat>, name: Name)
    requires Created(s, data, ch, e, m, s', data', ch', true) && WellFormed(Directory(data, ch)) && IsEntry(e)
    ensures var all, all' := Directory(data, ch), Directory(data', ch');
            var before, after := Lookup(all, name), Lookup(all', name);
            && WellFormed(all')
            && (SameName(name, Display(Short(e))) && before.None? ==> after.Some? && all'[after.value] == e)
            && (!SameName(name, Display(Short(e))) ==> after == before && (before.Some? ==> all'[after.value] == all[before.value]))
  {
    var all := Directory(data, ch);
    var p := Fat32Dir.FirstFree(all, 0);
    hide Directory, Find, SameName, Display, WellFormed, Blank;
    if p < |all| {
      Fat32Dir.CreateKeeps(all, e);
      CreateLookup(all, e, name);
    } else {
      var more := all + Blank(m);
      GrowKeeps(all, Blank(m));
      FirstFreeGrown(all, Blank(m));
      assert more[|all| := e] == all + Blank(m)[0 := e];
      Fat32Dir.CreateKeeps(more, e);
      CreateLookup(more, e, name);
    }
  }

  // A slot written as deleted is not noticed.
  lemma CreatedDead(s: FatState, data: seq<seq<byte>>, ch: seq<nat>, e: Slot, m: nat,
                    s': FatState, data': seq<seq<byte>>, ch': seq<nat>, name: Name)
    requires Created(s, data, ch, e, m, s', data', ch', true) && WellFormed(Directory(data, ch)) && IsDeleted(e)
    ensures Lookup(Directory(data', ch'), name) == Lookup(Directory(data, ch), name)
  {
    var all := Directory(data, ch);
    var p := Fat32Dir.FirstFree(all, 0);
    hide Directory, Find, WellFormed, Blank;
    if p < |all| {
      DeadSlot(all, e, name);
    } else {
      var more := all + Blank(m);
      GrowKeeps(all, Blank(m));
      FirstFreeGrown(all, Blank(m));
      assert more[|all| := e] == all + Blank(m)[0 := e];
      DeadSlot(more, e, name);
    }
  }

  // The names under which a new file can be found again.
  predicate Findable(name: Name) { name == [] || (name[0] != DELETED && name[|name| - 1] != DOT) }

  lemma NewEntryLive(name: Name, date: nat, time: nat)
    requires !NeedsLong(name) && 0 !in name && date < 0x1_0000 && time < 0x1_0000
    ensures var e := NewEntry(ShortName(name), date, time);
            if name != [] && name[0] == DELETED then IsDeleted(e) else IsEntry(e)
  {
    var e := NewEntry(ShortName(name), date, time);
    hide NewEntry, LastDot;
    assert e[0] == Short(e)[0] == ShortName(name)[0] == Field(Base(name), 8)[0];
    if Base(name) != [] { assert e[0] == Upper(name[0]); }
  }

  lemma NewEntryName(name: Name, date: nat, time: nat)
    requires !NeedsLong(name) && date < 0x1_0000 && time < 0x1_0000
    ensures var e := NewEntry(ShortName(name), date, time);
            SameName(name, Display(Short(e))) <==> name == [] || name[|name| - 1] != DOT
  {
    ShortRoundTrip(name);
    ShortDisplay(name);
    hide NewEntry, ShortName, Display, NeedsLong;
    if name != [] && name[|name| - 1] == DOT {
      assert |Base(name)| == |name| - 1 && Ext(name) == [];
    }
  }

  // A new file is found under its name, as the new empty entry, exactly when the name does not
  // end in a dot and its first byte is not the mark of deleted slots.
  lemma CreatedFound(s: FatState, data: seq<seq<byte>>, ch: seq<nat>, name: Name, date: nat, time: nat, m: nat,
                     s': FatState, data': seq<seq<byte>>, ch': seq<nat>)
    requires !NeedsLong(name) && 0 !in name && date < 0x1_0000 && time < 0x1_0000
    requires Created(s, data, ch, NewEntry(ShortName(name), date, time), m, s', data', ch', true)
    requires WellFormed(Directory(data, ch)) && Lookup(Directory(data, ch), name) == None
    ensures var all' := Directory(data', ch');
            var after := Lookup(all', name);
            && (after.Some? <==> Findable(name))
            && (after.Some? ==> all'[after.value] == NewEntry(ShortName(name), date, time))
  {
    var e := NewEntry(ShortName(name), date, time);
    NewEntryLive(name, date, time);
    NewEntryName(name, date, time);
    hide NewEntry, Created, Directory, Find, WellFormed, ShortName, SameName, Display, IsEntry;
    if name != [] && name[0] == DELETED {
      CreatedDead(s, data, ch, e, m, s', data', ch', name);
    } else {
      CreatedLookup(s, data, ch, e, m, s', data', ch', name);
    }
  }

  // An empty directory, and what a lookup of the name of a new file then gives.
  lemma CreatedInBlank(m: nat, name: Name, date: nat, time: nat)
    requires m > 0 && !NeedsLong(name) && 0 !in name && date < 0x1_0000 && time < 0x1_0000 && !Findable(name)
    ensures WellFormed(Blank(m)) && Lookup(Blank(m), name) == None
    ensures Lookup(Blank(m)[0 := NewEntry(ShortName(name), date, time)], name) == None
  {
    hide NewEntry, ShortName, SameName, Display, IsEntry, NeedsLong, Blank;
    var e := NewEntry(ShortName(name), date, time);
    NewEntryLive(name, date, time);
    NewEntryName(name, date, time);
    assert Fat32Dir.FirstFree(Blank(m), 0) == 0;
    if name[0] == DELETED {
      DeadSlot(Blank(m), e, name);
    } else {
      CreateLookup(Blank(m), e, name);
    }
  }

  // "A." is created in an empty directory and is not found.
  lemma DottedLost(m: nat, date: nat, time: nat)
    requires m > 0 && date < 0x1_0000 && time < 0x1_0000
    ensures var name := [0x41, DOT];
            !NeedsLong(name) && Lookup(Blank(m)[0 := NewEntry(ShortName(name), date, time)], name) == None
  {
    var name := [0x41, DOT];
    assert Base(name) == [0x41];
    CreatedInBlank(m, name, date, time);
  }

  // Neither is a name of the bytes 0xE5 and "A".
  lemma MarkedLost(m: nat, date: nat, time: nat)
    requires m > 0 && date < 0x1_0000 && time < 0x1_0000
    ensures var name := [DELETED, 0x41];
            !NeedsLong(name) && Lookup(Blank(m)[0 := NewEntry(ShortName(name), date, time)], name) == None
  {
    var name := [DELETED, 0x41];
    assert Base(name) == name;
    CreatedInBlank(m, name, date, time);
  }

  // Creating an absent name and looking it up.
  method CreateThenFind(v: Volume, dir: nat, name: Name, date: nat, time: nat, ghost ch: seq<nat>)
    returns (ok: bool, found: bool, entry: Slot)
    requires v.Valid() && !NeedsLong(name) && 0 !in name && date < 0x1_0000 && time < 0x1_0000
    requires dir >= 2 && IsChain(v.State().fat, ch) && ch[0] == dir
    requires WellFormed(Directory(v.Data(), ch)) && Lookup(Directory(v.Data(), ch), name) == None
    modifies v, v.disk
    ensures v.Valid() && v.Intact(old(v.disk[..]))
    ensures found <==> ok && Findable(name)
    ensures found ==> entry == NewEntry(ShortName(name), date, time)
  {
    ghost var s, data := v.State(), v.Data();
    LimitSmall(v.g, v.disk.Length);
    AppendKeeps(s, ch);
    hide Links, Clusters, TopBits, Mirrored, IsChain, Directory, Find, WellFormed, NewEntry, PerCluster, ShortName,
         NeedsLong, Append;
    ghost var ch';
    found, entry := false, Zeros(SLOT);
    ok, ch' := CreateShort(v, dir, name, date, time, ch);
    if ok {
      CreatedFound(s, data, ch, name, date, time, PerCluster(v.g), v.State(), v.Data(), ch');
      found, entry := FindInDir(v, dir, name, ch');
    }
  }
}
