/**
 A FAT32 directory as a sequence of 32-byte slots: how a name is looked up, and what creating
 and deleting an entry does to every lookup.
 */
module Fat32Dir {
  import opened Basics
  import opened Fat32Disk
  import opened Fat32Names

  const SLOT: nat := 32
  const ATTR_LONG: nat := 0x0F
  const ATTR_DIRECTORY: nat := 0x10
  const ATTR_ARCHIVE: nat := 0x20
  const DELETED: byte := 0xE5

  type Slot = s: seq<byte> | |s| == SLOT witness seq(SLOT, _ => 0)

  function Short(s: Slot): (r: seq<byte>)
    ensures |r| == SHORT_LEN
  {
    s[..SHORT_LEN]
  }

  function Attr(s: Slot): byte { s[11] }

  predicate IsEnd(s: Slot) { s[0] == 0 }

  predicate IsDeleted(s: Slot) { s[0] == DELETED }

  predicate IsFree(s: Slot) { IsEnd(s) || IsDeleted(s) }

  predicate IsLong(s: Slot) { Attr(s) == ATTR_LONG }

  predicate IsVolume(s: Slot) { Attr(s) / 8 % 2 == 1 }

  predicate LiveLong(s: Slot) { !IsFree(s) && IsLong(s) }

  // A live slot that names a file or directory.
  predicate IsEntry(s: Slot) { !IsFree(s) && !IsLong(s) && !IsVolume(s) }

  // The first slot of a long name carries this mark.
  predicate StartsLong(s: Slot) { s[0] / 64 % 2 == 1 }

  // ----- the long name being collected -----

  const LONG_BUF: nat := 256

  datatype Lfn = Lfn(buf: seq<byte>, pos: nat, sum: byte)

  function Zeros(n: nat): seq<byte> { seq(n, i => 0) }

  const NO_LFN: Lfn := Lfn(Zeros(LONG_BUF), 0, 0)

  function Unit(s: Slot, o: nat): nat
    requires o + 1 < SLOT
  {
    var lo: int, hi: int := s[o], s[o + 1];
    lo + 0x100 * hi
  }

  // The 13 units of a long slot, in its three fields.
  function LongUnits(s: Slot): seq<nat> {
    [Unit(s, 1), Unit(s, 3), Unit(s, 5), Unit(s, 7), Unit(s, 9),
     Unit(s, 14), Unit(s, 16), Unit(s, 18), Unit(s, 20), Unit(s, 22), Unit(s, 24),
     Unit(s, 28), Unit(s, 30)]
  }

  function Overwrite(buf: seq<byte>, pos: nat, text: seq<byte>): seq<byte> {
    seq(|buf|, i requires 0 <= i < |buf| => if pos <= i < pos + |text| then text[i - pos] else buf[i])
  }

  function Absorb(l: Lfn, s: Slot): Lfn {
    var l1 := if StartsLong(s) then NO_LFN.(sum := s[13]) else l;
    var text := Extract(LongUnits(s));
    Lfn(Overwrite(l1.buf, l1.pos, text), l1.pos + |text|, l1.sum)
  }

  function CString(buf: seq<byte>): Name {
    if buf == [] || buf[0] == 0 then [] else [buf[0]] + CString(buf[1..])
  }

  // The name an entry goes by: the collected long name if its checksum fits, else the short one.
  function EntryName(l: Lfn, s: Slot): Name {
    if l.pos > 0 && Checksum(Short(s)) == l.sum then
      var n := CString(l.buf);
      if |n| > 255 then n[..255] else n
    else Display(Short(s))
  }

  // ----- lookup -----

  function Lower(c: byte): byte { if 0x41 <= c <= 0x5A then c + 32 else c }

  predicate SameName(a: Name, b: Name) {
    |a| == |b| && forall i :: 0 <= i < |a| ==> Lower(a[i]) == Lower(b[i])
  }

  // What the iterator makes of one slot.
  function Next(l: Lfn, s: Slot): Lfn {
    if IsDeleted(s) then l
    else if IsLong(s) then Absorb(l, s)
    else if IsVolume(s) then l
    else l.(pos := 0)
  }

  predicate Hit(l: Lfn, s: Slot, name: Name) { IsEntry(s) && SameName(name, EntryName(l, s)) }

  // fat32_find_in_dir from slot i on: the first entry that goes by the name.
  function Find(slots: seq<Slot>, i: nat, l: Lfn, name: Name): (r: Option<nat>)
    ensures r.Some? ==> i <= r.value < |slots| && IsEntry(slots[r.value])
    decreases |slots| - i
  {
    if i >= |slots| || IsEnd(slots[i]) then None
    else if Hit(l, slots[i], name) then Some(i)
    else Find(slots, i + 1, Next(l, slots[i]), name)
  }

  function Lookup(slots: seq<Slot>, name: Name): Option<nat> { Find(slots, 0, NO_LFN, name) }

  // ----- what a lookup means -----

  // What the iterator has collected when it comes to slot i.
  function StateAt(slots: seq<Slot>, i: nat): Lfn
    requires i <= |slots|
  {
    if i == 0 then NO_LFN else Next(StateAt(slots, i - 1), slots[i - 1])
  }

  ghost predicate NoEndUpTo(slots: seq<Slot>, i: nat) { forall k :: 0 <= k < i && k < |slots| ==> !IsEnd(slots[k]) }

  // Slot i is an entry of the directory that goes by this name.
  ghost predicate GoesBy(slots: seq<Slot>, i: int, name: Name) {
    0 <= i < |slots| && NoEndUpTo(slots, i + 1) && Hit(StateAt(slots, i), slots[i], name)
  }

  lemma {:induction false} FindFrom(slots: seq<Slot>, i: nat, name: Name)
    requires i <= |slots| && NoEndUpTo(slots, i)
    ensures match Find(slots, i, StateAt(slots, i), name)
            case None => forall k :: i <= k ==> !GoesBy(slots, k, name)
            case Some(p) => GoesBy(slots, p, name) && forall k :: i <= k < p ==> !GoesBy(slots, k, name)
    decreases |slots| - i
  {
    hide Hit, Next;
    if i < |slots| && !IsEnd(slots[i]) && !Hit(StateAt(slots, i), slots[i], name) {
      FindFrom(slots, i + 1, name);
    }
  }

  // A lookup finds the first entry that goes by the name, and none exactly when there is none.
  lemma LookupFirst(slots: seq<Slot>, name: Name)
    ensures match Lookup(slots, name)
            case None => forall k :: !GoesBy(slots, k, name)
            case Some(p) => GoesBy(slots, p, name) && forall k :: k < p ==> !GoesBy(slots, k, name)
  {
    FindFrom(slots, 0, name);
  }

  // ----- well-formed directories -----

  // Nothing is live after an end marker; every long slot is followed by another one or by the
  // entry it belongs to; and every run of long slots starts with the mark.
  ghost predicate NoGap(slots: seq<Slot>) {
    forall i, j :: 0 <= i < j < |slots| && IsEnd(slots[i]) ==> IsFree(slots[j])
  }

  ghost predicate NoOrphans(slots: seq<Slot>) {
    forall i :: 0 <= i < |slots| && LiveLong(slots[i]) ==>
      i + 1 < |slots| && (LiveLong(slots[i + 1]) || IsEntry(slots[i + 1]))
  }

  ghost predicate Marked(slots: seq<Slot>) {
    forall i :: 0 <= i < |slots| && LiveLong(slots[i]) && Fresh(slots, i) ==> StartsLong(slots[i])
  }

  // No long name is being collected when the iterator comes to slot i.
  predicate Fresh(slots: seq<Slot>, i: nat)
    requires i <= |slots|
  {
    i == 0 || !LiveLong(slots[i - 1])
  }

  ghost predicate WellFormed(slots: seq<Slot>) { NoGap(slots) && NoOrphans(slots) && Marked(slots) }

  // ----- lookups piece by piece -----

  datatype Pass = Found(at: nat) | Through(l: Lfn)

  // Scanning slots i..p, none of which ends the directory.
  function Scan(slots: seq<Slot>, i: nat, l: Lfn, p: nat, name: Name): Pass
    requires i <= p <= |slots|
    decreases p - i
  {
    if i == p then Through(l)
    else if Hit(l, slots[i], name) then Found(i)
    else Scan(slots, i + 1, Next(l, slots[i]), p, name)
  }

  lemma {:induction false} FindByScan(slots: seq<Slot>, i: nat, l: Lfn, p: nat, name: Name)
    requires i <= p <= |slots| && forall k :: i <= k < p ==> !IsEnd(slots[k])
    ensures Find(slots, i, l, name) ==
            match Scan(slots, i, l, p, name) case Found(at) => Some(at) case Through(l') => Find(slots, p, l', name)
    decreases p - i
  {
    hide Hit, Next;
    if i < p {
      FindByScan(slots, i + 1, Next(l, slots[i]), p, name);
    }
  }

  lemma {:induction false} ScanFrame(slots: seq<Slot>, slots': seq<Slot>, i: nat, l: Lfn, p: nat, name: Name)
    requires i <= p <= |slots| && p <= |slots'| && forall k :: i <= k < p ==> slots'[k] == slots[k]
    ensures Scan(slots', i, l, p, name) == Scan(slots, i, l, p, name)
    decreases p - i
  {
    if i < p { ScanFrame(slots, slots', i + 1, Next(l, slots[i]), p, name); }
  }

  lemma {:induction false} FindFrame(slots: seq<Slot>, slots': seq<Slot>, i: nat, l: Lfn, name: Name)
    requires |slots'| == |slots| && forall k :: i <= k < |slots| ==> slots'[k] == slots[k]
    ensures Find(slots', i, l, name) == Find(slots, i, l, name)
    decreases |slots| - i
  {
    if i < |slots| { FindFrame(slots, slots', i + 1, Next(l, slots[i]), name); }
  }

  // Where no long name is being collected, none is pending.
  lemma {:induction false} ScanFresh(slots: seq<Slot>, i: nat, l: Lfn, p: nat, name: Name)
    requires i <= p <= |slots| && NoOrphans(slots) && forall k :: i <= k < p ==> !IsEnd(slots[k])
    requires (Fresh(slots, i) ==> l.pos == 0) && (!Fresh(slots, i) ==> i < |slots| && !IsFree(slots[i]))
    requires Fresh(slots, p)
    ensures var r := Scan(slots, i, l, p, name); r.Through? ==> r.l.pos == 0
    decreases p - i
  {
    if i < p {
      ScanFresh(slots, i + 1, Next(l, slots[i]), p, name);
    }
  }

  // With nothing pending, leftovers of an earlier long name do not matter.
  lemma {:induction false} FindStateless(slots: seq<Slot>, i: nat, l: Lfn, l': Lfn, name: Name)
    requires Marked(slots) && i <= |slots| && Fresh(slots, i) && l.pos == 0 && l'.pos == 0
    ensures Find(slots, i, l, name) == Find(slots, i, l', name)
    decreases |slots| - i
  {
    if i < |slots| && !IsEnd(slots[i]) && !LiveLong(slots[i]) {
      FindStateless(slots, i + 1, Next(l, slots[i]), Next(l', slots[i]), name);
    }
  }

  lemma {:induction false} FindInFree(slots: seq<Slot>, i: nat, l: Lfn, name: Name)
    requires forall k :: i <= k < |slots| ==> IsFree(slots[k])
    ensures Find(slots, i, l, name) == None
    decreases |slots| - i
  {
    if i < |slots| { FindInFree(slots, i + 1, Next(l, slots[i]), name); }
  }

  lemma FindPastEnd(slots: seq<Slot>, i: nat, l: Lfn, name: Name)
    requires i >= |slots|
    ensures Find(slots, i, l, name) == None
  {}

  // ----- creating -----

  // The first free slot from i on, or the size.
  function FirstFree(slots: seq<Slot>, i: nat): (p: nat)
    requires i <= |slots|
    ensures i <= p <= |slots| && (p < |slots| ==> IsFree(slots[p])) && forall k :: i <= k < p ==> !IsFree(slots[k])
    decreases |slots| - i
  {
    if i == |slots| || IsFree(slots[i]) then i else FirstFree(slots, i + 1)
  }

  // A new entry in the first free slot is found under its own name if that was free, and no
  // other lookup changes.
  lemma CreateLookup(slots: seq<Slot>, e: Slot, name: Name)
    requires WellFormed(slots) && IsEntry(e)
    requires FirstFree(slots, 0) < |slots|
    ensures var p := FirstFree(slots, 0);
            var after := Lookup(slots[p := e], name);
            if SameName(name, Display(Short(e))) then
              (Lookup(slots, name).None? ==> after == Some(p))
            else after == Lookup(slots, name)
  {
    var p := FirstFree(slots, 0);
    var slots' := slots[p := e];
    assert p > 0 ==> !LiveLong(slots[p - 1]);
    FindByScan(slots, 0, NO_LFN, p, name);
    FindByScan(slots', 0, NO_LFN, p, name);
    ScanFrame(slots, slots', 0, NO_LFN, p, name);
    ScanFresh(slots, 0, NO_LFN, p, name);
    var s := Scan(slots, 0, NO_LFN, p, name);
    if s.Through? {
      var l := s.l;
      assert EntryName(l, e) == Display(Short(e));
      FindFrame(slots, slots', p + 1, l.(pos := 0), name);
      if IsEnd(slots[p]) { FindInFree(slots, p + 1, l.(pos := 0), name); }
    }
  }

  lemma CreateKeeps(slots: seq<Slot>, e: Slot)
    requires WellFormed(slots) && IsEntry(e) && FirstFree(slots, 0) < |slots|
    ensures WellFormed(slots[FirstFree(slots, 0) := e])
  {
    var p := FirstFree(slots, 0);
    var slots' := slots[p := e];
    assert p > 0 ==> !LiveLong(slots[p - 1]);
    assert forall i :: 0 <= i < |slots| ==> (LiveLong(slots'[i]) <==> LiveLong(slots[i]));
    assert forall i :: 0 <= i <= |slots| ==> Fresh(slots', i) == Fresh(slots, i);
  }

  // Growing a full directory by empty slots changes no lookup.
  lemma GrowKeeps(slots: seq<Slot>, more: seq<Slot>)
    requires WellFormed(slots) && forall i :: 0 <= i < |more| ==> IsEnd(more[i])
    ensures WellFormed(slots + more)
    ensures forall name :: Lookup(slots + more, name) == Lookup(slots, name)
  {
    var slots' := slots + more;
    forall i | 0 <= i < |slots'| && LiveLong(slots'[i]) ensures i < |slots| && slots'[i] == slots[i] {}
    forall i | 0 <= i <= |slots| ensures Fresh(slots', i) == Fresh(slots, i) {}
    forall name ensures Lookup(slots', name) == Lookup(slots, name) {
      FindMore(slots, more, 0, NO_LFN, name);
    }
  }

  lemma {:induction false} FindMore(slots: seq<Slot>, more: seq<Slot>, i: nat, l: Lfn, name: Name)
    requires i <= |slots| && forall i :: 0 <= i < |more| ==> IsEnd(more[i])
    ensures Find(slots + more, i, l, name) == Find(slots, i, l, name)
    decreases |slots| - i
  {
    if i < |slots| { FindMore(slots, more, i + 1, Next(l, slots[i]), name); }
  }

  // ----- deleting -----

  function Deleted(s: Slot): Slot { s[0 := DELETED] }

  // Slots j..p are marked deleted.
  function MarkDeleted(slots: seq<Slot>, j: nat, p: nat): (r: seq<Slot>)
    requires j <= p < |slots|
    ensures |r| == |slots|
  {
    seq(|slots|, i requires 0 <= i < |slots| => if j <= i <= p then Deleted(slots[i]) else slots[i])
  }

  // Entry p owns the long slots j..p, all of them.
  ghost predicate Owns(slots: seq<Slot>, j: nat, p: nat) {
    && j <= p < |slots| && IsEntry(slots[p])
    && (forall i :: j <= i < p ==> IsLong(slots[i]))
    && Fresh(slots, j)
  }

  lemma {:induction false} ScanDeleted(slots: seq<Slot>, i: nat, l: Lfn, p: nat, name: Name)
    requires i <= p <= |slots| && forall k :: i <= k < p ==> IsDeleted(slots[k])
    ensures Scan(slots, i, l, p, name) == Through(l)
    decreases p - i
  {
    if i < p { ScanDeleted(slots, i + 1, l, p, name); }
  }

  lemma {:induction false} ScanLong(slots: seq<Slot>, i: nat, l: Lfn, p: nat, name: Name)
    requires i <= p <= |slots|
    requires forall k :: i <= k < p ==> !IsEnd(slots[k]) && (IsDeleted(slots[k]) || IsLong(slots[k]))
    ensures Scan(slots, i, l, p, name).Through?
    decreases p - i
  {
    if i < p { ScanLong(slots, i + 1, Next(l, slots[i]), p, name); }
  }

  // Everything before a live slot is not an end marker.
  lemma NoEndBefore(slots: seq<Slot>, p: nat)
    requires NoGap(slots) && p < |slots| && !IsFree(slots[p])
    ensures forall k :: 0 <= k < p ==> !IsEnd(slots[k])
  {}

  lemma FindEntry(slots: seq<Slot>, p: nat, l: Lfn, name: Name)
    requires Marked(slots) && p < |slots| && IsEntry(slots[p])
    ensures var r := Find(slots, p, l, name);
            if r == Some(p) then true else r == Find(slots, p + 1, NO_LFN, name)
    ensures Find(slots, p + 1, NO_LFN, name) != Some(p)
  {
    FindStateless(slots, p + 1, l.(pos := 0), NO_LFN, name);
  }

  // slots' differs from slots by slots j..p being deleted.
  ghost predicate Emptied(slots: seq<Slot>, slots': seq<Slot>, j: nat, p: nat) {
    && |slots'| == |slots|
    && (forall i :: 0 <= i < |slots| && !(j <= i <= p) ==> slots'[i] == slots[i])
    && forall i :: j <= i <= p && i < |slots| ==> IsDeleted(slots'[i])
  }

  lemma DeleteTail(slots: seq<Slot>, slots': seq<Slot>, j: nat, p: nat, l: Lfn, name: Name)
    requires WellFormed(slots) && Owns(slots, j, p) && Emptied(slots, slots', j, p) && l.pos == 0
    ensures var r, r' := Find(slots, j, l, name), Find(slots', j, l, name);
            r' == if r == Some(p) then Find(slots, p + 1, NO_LFN, name) else r
  {
    hide Next, Hit, NoOrphans;
    NoEndBefore(slots, p);
    FindByScan(slots, j, l, p, name);
    ScanLong(slots, j, l, p, name);
    FindEntry(slots, p, Scan(slots, j, l, p, name).l, name);
    FindByScan(slots', j, l, p + 1, name);
    ScanDeleted(slots', j, l, p + 1, name);
    FindFrame(slots, slots', p + 1, l, name);
    FindStateless(slots, p + 1, l, NO_LFN, name);
  }

  lemma DeleteEffect(slots: seq<Slot>, slots': seq<Slot>, j: nat, p: nat, name: Name)
    requires WellFormed(slots) && Owns(slots, j, p) && Emptied(slots, slots', j, p)
    ensures var r := Lookup(slots, name);
            Lookup(slots', name) == if r == Some(p) then Find(slots, p + 1, NO_LFN, name) else r
  {
    NoEndBefore(slots, p);
    FindByScan(slots, 0, NO_LFN, j, name);
    FindByScan(slots', 0, NO_LFN, j, name);
    ScanFrame(slots, slots', 0, NO_LFN, j, name);
    ScanFresh(slots, 0, NO_LFN, j, name);
    hide Find, Next, Hit, NoGap, Marked, NoOrphans;
    var s := Scan(slots, 0, NO_LFN, j, name);
    if s.Through? { DeleteTail(slots, slots', j, p, s.l, name); }
  }

  // Deleting entry p with its long slots: lookups that found another entry, or none, are
  // unchanged, and a lookup that found p now finds what comes after it.
  lemma DeleteLookup(slots: seq<Slot>, j: nat, p: nat, name: Name)
    requires WellFormed(slots) && Owns(slots, j, p)
    ensures var after := Lookup(MarkDeleted(slots, j, p), name);
            if Lookup(slots, name) == Some(p) then after == Find(slots, p + 1, NO_LFN, name)
            else after == Lookup(slots, name)
  {
    assert Emptied(slots, MarkDeleted(slots, j, p), j, p);
    hide Find, Lookup, WellFormed, MarkDeleted;
    DeleteEffect(slots, MarkDeleted(slots, j, p), j, p, name);
  }

  // What follows entry p is found exactly if another entry goes by the name.
  lemma FoundAfter(slots: seq<Slot>, p: nat, name: Name)
    requires WellFormed(slots) && Lookup(slots, name) == Some(p)
    ensures Find(slots, p + 1, NO_LFN, name).Some? <==> exists k :: k != p && GoesBy(slots, k, name)
  {
    LookupFirst(slots, name);
    FindNoEnd(slots, 0, NO_LFN, name);
    FindFrom(slots, p + 1, name);
    FindStateless(slots, p + 1, StateAt(slots, p + 1), NO_LFN, name);
  }

  // A slot the iterator passes over without noticing it.
  predicate Inert(s: Slot) { IsDeleted(s) || (!IsEnd(s) && IsVolume(s) && !IsLong(s)) }

  lemma {:induction false} FindSkips(slots: seq<Slot>, slots': seq<Slot>, i: nat, l: Lfn, name: Name)
    requires |slots'| == |slots|
    requires forall k :: i <= k < |slots| ==> slots'[k] == slots[k] || (Inert(slots[k]) && Inert(slots'[k]))
    ensures Find(slots', i, l, name) == Find(slots, i, l, name)
    decreases |slots| - i
  {
    hide Absorb, SameName, EntryName;
    if i < |slots| {
      assert slots'[i] == slots[i] || (Inert(slots[i]) && Inert(slots'[i]));
      FindSkips(slots, slots', i + 1, Next(l, slots[i]), name);
    }
  }

  // A live long slot is not deleted, and neither is the slot after it.
  lemma StillFollowed(slots: seq<Slot>, slots': seq<Slot>, j: nat, p: nat, i: nat)
    requires NoOrphans(slots) && Owns(slots, j, p) && Emptied(slots, slots', j, p)
    requires i < |slots| && LiveLong(slots'[i])
    ensures slots'[i] == slots[i]
    ensures i + 1 < |slots| && slots'[i + 1] == slots[i + 1] && (LiveLong(slots'[i + 1]) || IsEntry(slots'[i + 1]))
  {
    assert i + 1 != j;
  }

  lemma StillMarked(slots: seq<Slot>, slots': seq<Slot>, j: nat, p: nat, i: nat)
    requires NoOrphans(slots) && Marked(slots) && Owns(slots, j, p) && Emptied(slots, slots', j, p)
    requires i < |slots| && LiveLong(slots'[i]) && Fresh(slots', i)
    ensures StartsLong(slots'[i])
  {
    hide NoOrphans, StartsLong;
    StillFollowed(slots, slots', j, p, i);
    assert Fresh(slots, i);
  }

  lemma EmptiedKeeps(slots: seq<Slot>, slots': seq<Slot>, j: nat, p: nat)
    requires WellFormed(slots) && Owns(slots, j, p) && Emptied(slots, slots', j, p)
    ensures WellFormed(slots')
  {
    hide LiveLong, IsEntry, Fresh, StartsLong, Owns;
    forall i | 0 <= i < |slots| && LiveLong(slots'[i])
      ensures i + 1 < |slots| && (LiveLong(slots'[i + 1]) || IsEntry(slots'[i + 1]))
    {
      StillFollowed(slots, slots', j, p, i);
    }
    forall i | 0 <= i < |slots| && LiveLong(slots'[i]) && Fresh(slots', i) ensures StartsLong(slots'[i]) {
      StillMarked(slots, slots', j, p, i);
    }
  }

  lemma DeleteKeeps(slots: seq<Slot>, j: nat, p: nat)
    requires WellFormed(slots) && Owns(slots, j, p)
    ensures WellFormed(MarkDeleted(slots, j, p))
  {
    hide WellFormed, IsEntry, Fresh;
    EmptiedKeeps(slots, MarkDeleted(slots, j, p), j, p);
  }

  // A deleted slot in the place of the first free one is not noticed.
  lemma DeadSlot(slots: seq<Slot>, d: Slot, name: Name)
    requires WellFormed(slots) && IsDeleted(d) && FirstFree(slots, 0) < |slots|
    ensures Lookup(slots[FirstFree(slots, 0) := d], name) == Lookup(slots, name)
  {
    hide Hit;
    var p := FirstFree(slots, 0);
    var slots' := slots[p := d];
    FindByScan(slots, 0, NO_LFN, p, name);
    FindByScan(slots', 0, NO_LFN, p, name);
    ScanFrame(slots, slots', 0, NO_LFN, p, name);
    var s := Scan(slots, 0, NO_LFN, p, name);
    if s.Through? {
      FindFrame(slots, slots', p + 1, s.l, name);
      if IsEnd(slots[p]) { FindInFree(slots, p + 1, s.l, name); }
    }
  }

  // A created entry that is deleted again leaves every lookup as it was.
  lemma CreateDeleteRestores(slots: seq<Slot>, e: Slot, name: Name)
    requires WellFormed(slots) && IsEntry(e) && FirstFree(slots, 0) < |slots|
    ensures var p := FirstFree(slots, 0);
            Lookup(MarkDeleted(slots[p := e], p, p), name) == Lookup(slots, name)
  {
    var p := FirstFree(slots, 0);
    DeadSlot(slots, Deleted(e), name);
    assert MarkDeleted(slots[p := e], p, p) == slots[p := Deleted(e)];
  }

  // ----- what the driver writes -----

  function Le16(x: nat): seq<byte>
    requires x < 0x1_0000
  {
    [x % 0x100, x / 0x100]
  }

  function FirstCluster(s: Slot): nat { Unit(s, 20) * 0x1_0000 + Unit(s, 26) }

  predicate IsDirectory(s: Slot) { Attr(s) / 16 % 2 == 1 }

  // The entry of a new, empty file.
  function NewEntry(short: seq<byte>, date: nat, time: nat): (e: Slot)
    requires |short| == SHORT_LEN && date < 0x1_0000 && time < 0x1_0000
    ensures Short(e) == short && FirstCluster(e) == 0 && e[28..] == Zeros(4) && !IsDirectory(e)
    ensures IsEntry(e) <==> !IsFree(e)
  {
    short + [ATTR_ARCHIVE as byte, 0, 0] + Le16(time) + Le16(date) + Le16(date) + [0, 0]
    + Le16(time) + Le16(date) + [0, 0] + Zeros(4)
  }

  // The slot fat32_delete_file takes for the entry with this short name.
  predicate Matches(s: Slot, short: seq<byte>) { !IsFree(s) && !IsLong(s) && Short(s) == short }

  function FirstMatch(slots: seq<Slot>, i: nat, short: seq<byte>): (q: nat)
    requires i <= |slots|
    ensures i <= q <= |slots| && (q < |slots| ==> Matches(slots[q], short))
    ensures forall k :: i <= k < q ==> !Matches(slots[k], short)
    decreases |slots| - i
  {
    if i == |slots| || Matches(slots[i], short) then i else FirstMatch(slots, i + 1, short)
  }

  // Where the run of long slots before slot q starts, not looking before slot `base`.
  function RunStart(slots: seq<Slot>, base: nat, q: nat): (j: nat)
    requires base <= q <= |slots|
    ensures base <= j <= q && (forall k :: j <= k < q ==> IsLong(slots[k]))
    ensures j > base ==> !IsLong(slots[j - 1])
  {
    if q > base && IsLong(slots[q - 1]) then RunStart(slots, base, q - 1) else q
  }

  // Deleting leaves no orphans exactly when it reaches the start of the long name.
  lemma DeleteKeepsIff(slots: seq<Slot>, j: nat, p: nat)
    requires WellFormed(slots) && j <= p < |slots| && IsEntry(slots[p]) && forall i :: j <= i < p ==> IsLong(slots[i])
    ensures WellFormed(MarkDeleted(slots, j, p)) <==> Fresh(slots, j)
  {
    if Fresh(slots, j) {
      DeleteKeeps(slots, j, p);
    } else {
      var slots' := MarkDeleted(slots, j, p);
      assert LiveLong(slots'[j - 1]) && IsDeleted(slots'[j]);
    }
  }

  lemma {:induction false} FindNoEnd(slots: seq<Slot>, i: nat, l: Lfn, name: Name)
    requires Find(slots, i, l, name).Some?
    ensures forall k :: i <= k <= Find(slots, i, l, name).value ==> !IsEnd(slots[k])
    decreases |slots| - i
  {
    hide Hit, Next;
    if !Hit(l, slots[i], name) { FindNoEnd(slots, i + 1, Next(l, slots[i]), name); }
  }
}
