/**
 Long names end to end: the slots written for a long name, byte by byte, and the name under which
 the directory iterator then shows the entry.
 */
module Fat32Long {
  import opened Basics
  import opened Fat32Disk
  import opened Fat32Names
  import opened Fat32Dir

  const LAST: byte := 0x40
  const MAX_SLOTS: nat := 20

  ghost predicate IsUnits(u: seq<nat>) { |u| == UNITS && forall i :: 0 <= i < UNITS ==> u[i] < 0x1_0000 }

  // One long slot with its 13 units in three fields.
  function LongSlot(order: byte, u: seq<nat>, sum: byte): (s: Slot)
    requires |u| == UNITS && forall i :: 0 <= i < UNITS ==> u[i] < 0x1_0000
    ensures s[0] == order && IsLong(s) && s[13] == sum
  {
    [order] + Le16(u[0]) + Le16(u[1]) + Le16(u[2]) + Le16(u[3]) + Le16(u[4])
    + [ATTR_LONG as byte, 0, sum]
    + Le16(u[5]) + Le16(u[6]) + Le16(u[7]) + Le16(u[8]) + Le16(u[9]) + Le16(u[10])
    + [0, 0] + Le16(u[11]) + Le16(u[12])
  }

  lemma FirstUnits(order: byte, u: seq<nat>, sum: byte)
    requires IsUnits(u)
    ensures var s := LongSlot(order, u, sum);
            && Unit(s, 1) == u[0] && Unit(s, 3) == u[1] && Unit(s, 5) == u[2] && Unit(s, 7) == u[3]
            && Unit(s, 9) == u[4] && Unit(s, 14) == u[5]
  {}

  lemma LastUnits(order: byte, u: seq<nat>, sum: byte)
    requires IsUnits(u)
    ensures var s := LongSlot(order, u, sum);
            && Unit(s, 16) == u[6] && Unit(s, 18) == u[7] && Unit(s, 20) == u[8] && Unit(s, 22) == u[9]
            && Unit(s, 24) == u[10] && Unit(s, 28) == u[11] && Unit(s, 30) == u[12]
  {}

  lemma LongSlotUnits(order: byte, u: seq<nat>, sum: byte)
    requires IsUnits(u)
    ensures LongUnits(LongSlot(order, u, sum)) == u
  {
    hide LongSlot, Unit;
    FirstUnits(order, u, sum);
    LastUnits(order, u, sum);
  }

  // ----- the slots of a name -----

  // A name that fits the long slots of one entry and whose characters the driver keeps.
  predicate Storable(name: Name) { Ascii(name) && ChunkCount(name) <= MAX_SLOTS }

  // One that the iterator can hold as well.
  predicate LongName(name: Name) { name != [] && Storable(name) && |name| < LONG_BUF }

  lemma LongIsStorable(name: Name)
    requires LongName(name)
    ensures Storable(name)
  {}

  lemma UnitsFit(chunk: Name)
    requires Ascii(chunk)
    ensures IsUnits(Units(chunk))
  {}

  lemma DiskUnitsFit(name: Name)
    requires Storable(name)
    ensures |DiskUnits(name)| == ChunkCount(name) && forall k :: 0 <= k < |DiskUnits(name)| ==>
            IsUnits(DiskUnits(name)[k])
  {
    forall k | 0 <= k < |DiskUnits(name)| ensures IsUnits(DiskUnits(name)[k]) {
      var c := ChunkCount(name) - 1 - k;
      ChunkShape(name, c);
      UnitsFit(Chunk(name, c));
      hide IsUnits;
      assert DiskUnits(name)[k] == Units(Chunk(name, c));
    }
  }

  function Order(n: nat, k: nat): byte
    requires k < n <= MAX_SLOTS
  {
    if k == 0 then n + LAST as int else n - k
  }

  // Slot k of the name, in disk order.
  function SlotAt(name: Name, sum: byte, k: nat): (s: Slot)
    requires Storable(name) && k < ChunkCount(name)
    ensures LiveLong(s) && (StartsLong(s) <==> k == 0) && (k == 0 ==> s[13] == sum)
  {
    DiskUnitsFit(name);
    LongSlot(Order(ChunkCount(name), k), DiskUnits(name)[k], sum)
  }

  function LongSlots(name: Name, sum: byte): (r: seq<Slot>)
    requires Storable(name)
    ensures |r| == ChunkCount(name)
  {
    seq(ChunkCount(name), k requires 0 <= k < ChunkCount(name) => SlotAt(name, sum, k))
  }

  // fat32_generate_lfn_entries, given the checksum of the short name: None when there are too many.
  method GenerateEntries(name: Name, sum: byte) returns (r: Option<seq<Slot>>)
    requires Ascii(name)
    ensures r == if ChunkCount(name) > MAX_SLOTS then None else Some(LongSlots(name, sum))
  {
    var n := ChunkCount(name);
    if n > MAX_SLOTS { return None; }
    DiskUnitsFit(name);
    var units := GenerateLong(name);
    hide DiskUnits, ChunkCount;
    var entries: seq<Slot> := [];
    for k := 0 to n
      invariant |entries| == k && forall i :: 0 <= i < k ==> entries[i] == SlotAt(name, sum, i)
    {
      entries := entries + [LongSlot(Order(n, k), units[k], sum)];
    }
    assert entries == LongSlots(name, sum);
    r := Some(entries);
  }

  // ----- reading them back -----

  // What the iterator has collected after the first m slots.
  function Collected(name: Name, sum: byte, l: Lfn, m: nat): Lfn
    requires LongName(name) && m <= ChunkCount(name)
  {
    if m == 0 then l else Absorb(Collected(name, sum, l, m - 1), SlotAt(name, sum, m - 1))
  }

  function Padded(text: Name): (buf: seq<byte>)
    requires |text| <= LONG_BUF
    ensures |buf| == LONG_BUF
  {
    text + Zeros(LONG_BUF - |text|)
  }

  lemma {:induction false} LastFirstLength(name: Name, m: nat)
    requires Ascii(name) && m <= ChunkCount(name)
    ensures m > 0 ==> 0 < |LastFirst(name, m)| <= |name| - UNITS * (ChunkCount(name) - m)
    ensures Ascii(LastFirst(name, m))
  {
    if m > 0 {
      LastFirstLength(name, m - 1);
      ChunkShape(name, ChunkCount(name) - m);
    }
  }

  lemma OverwritePads(s: Name, t: Name)
    requires |s| + |t| <= LONG_BUF
    ensures Overwrite(Padded(s), |s|, t) == Padded(s + t)
  {}

  lemma SlotText(name: Name, sum: byte, k: nat)
    requires LongName(name) && k < ChunkCount(name)
    ensures Extract(LongUnits(SlotAt(name, sum, k))) == Chunk(name, ChunkCount(name) - 1 - k)
  {
    DiskUnitsFit(name);
    LongSlotUnits(Order(ChunkCount(name), k), DiskUnits(name)[k], sum);
    ChunkShape(name, ChunkCount(name) - 1 - k);
    ExtractUnits(Chunk(name, ChunkCount(name) - 1 - k), 0);
  }

  // The state after collecting this text.
  function Holding(text: Name, sum: byte): Lfn
    requires |text| <= LONG_BUF
  {
    Lfn(Padded(text), |text|, sum)
  }

  lemma AbsorbText(l: Lfn, s: Slot, text: Name, sum: byte)
    requires |text| + |Extract(LongUnits(s))| <= LONG_BUF
    requires if StartsLong(s) then text == [] && s[13] == sum else l == Holding(text, sum)
    ensures Absorb(l, s) == Holding(text + Extract(LongUnits(s)), sum)
  {
    OverwritePads(text, Extract(LongUnits(s)));
    hide Extract, LongUnits, Overwrite;
    assert Padded([]) == Zeros(LONG_BUF);
  }

  lemma CollectedNext(name: Name, sum: byte, l: Lfn, m: nat)
    requires LongName(name) && 0 < m <= ChunkCount(name)
    ensures Collected(name, sum, l, m) == Absorb(Collected(name, sum, l, m - 1), SlotAt(name, sum, m - 1))
  {
    hide ChunkCount, SlotAt, Absorb;
  }

  lemma LastFirstNext(name: Name, sum: byte, m: nat)
    requires LongName(name) && 0 < m <= ChunkCount(name)
    ensures LastFirst(name, m) == LastFirst(name, m - 1) + Extract(LongUnits(SlotAt(name, sum, m - 1)))
    ensures |LastFirst(name, m)| < LONG_BUF && LastFirst(name, 0) == []
  {
    LastFirstLength(name, m);
    SlotText(name, sum, m - 1);
    hide Chunk, Extract, LongUnits, SlotAt;
  }

  lemma {:induction false} CollectedIs(name: Name, sum: byte, l: Lfn, m: nat)
    requires LongName(name) && 0 < m <= ChunkCount(name)
    ensures |LastFirst(name, m)| < LONG_BUF
    ensures Collected(name, sum, l, m) == Holding(LastFirst(name, m), sum)
  {
    hide *;
    LongIsStorable(name);
    CollectedNext(name, sum, l, m);
    LastFirstNext(name, sum, m);
    if m > 1 {
      CollectedIs(name, sum, l, m - 1);
    }
    AbsorbText(Collected(name, sum, l, m - 1), SlotAt(name, sum, m - 1), LastFirst(name, m - 1), sum);
  }

  lemma {:induction false} CStringPadded(text: Name, z: nat)
    requires Ascii(text) && z > 0
    ensures CString(text + Zeros(z)) == text
  {
    var buf := text + Zeros(z);
    if text != [] {
      CStringPadded(text[1..], z);
      assert buf[1..] == text[1..] + Zeros(z);
    }
  }

  // After the slots of a long name, an entry goes by the name's chunks in reverse order if the
  // checksum is its own, and by its short name otherwise.
  lemma LongEntryName(name: Name, sum: byte, l: Lfn, e: Slot)
    requires LongName(name)
    ensures EntryName(Collected(name, sum, l, ChunkCount(name)), e) ==
            if sum == Checksum(Short(e)) then ChunksReversed(name) else Display(Short(e))
  {
    DiskUnitsFit(name);
    CollectedIs(name, sum, l, ChunkCount(name));
    LastFirstLength(name, ChunkCount(name));
    var text := ChunksReversed(name);
    CStringPadded(text, LONG_BUF - |text|);
  }

  // The slots of the name lie from slot j on.
  ghost predicate LongRun(slots: seq<Slot>, j: nat, name: Name, sum: byte) {
    && LongName(name) && j + ChunkCount(name) <= |slots|
    && forall k :: 0 <= k < ChunkCount(name) ==> slots[j + k] == SlotAt(name, sum, k)
  }

  // And the entry whose checksum they carry follows them.
  ghost predicate LongAt(slots: seq<Slot>, j: nat, name: Name) {
    && j + ChunkCount(name) < |slots| && IsEntry(slots[j + ChunkCount(name)])
    && LongRun(slots, j, name, Checksum(Short(slots[j + ChunkCount(name)])))
  }

  lemma SlotIs(slots: seq<Slot>, j: nat, name: Name, sum: byte, k: nat)
    requires LongRun(slots, j, name, sum) && k < ChunkCount(name)
    ensures j + k < |slots| && slots[j + k] == SlotAt(name, sum, k) && LiveLong(slots[j + k])
  {
    hide SlotAt, ChunkCount;
  }

  lemma LongRunFits(slots: seq<Slot>, j: nat, name: Name, sum: byte)
    requires LongRun(slots, j, name, sum)
    ensures LongName(name) && j + ChunkCount(name) <= |slots|
  {}

  // After m slots the iterator holds what `l` and they give.
  ghost predicate Collecting(slots: seq<Slot>, j: nat, name: Name, sum: byte, l: Lfn, m: nat) {
    LongName(name) && m <= ChunkCount(name) && j + m <= |slots| && StateAt(slots, j + m) == Collected(name, sum, l, m)
  }

  lemma LongNext(l: Lfn, s: Slot)
    requires LiveLong(s)
    ensures Next(l, s) == Absorb(l, s)
  {
    hide Absorb;
  }

  lemma StateNext(slots: seq<Slot>, j: nat, name: Name, sum: byte, l: Lfn, m: nat, s: Slot)
    requires Collecting(slots, j, name, sum, l, m) && m < ChunkCount(name) && j + m < |slots|
    requires s == slots[j + m] == SlotAt(name, sum, m) && LiveLong(s)
    ensures Collecting(slots, j, name, sum, l, m + 1)
  {
    hide SlotAt, ChunkCount, Absorb, Next;
    LongNext(StateAt(slots, j + m), s);
  }

  lemma CollectingNone(slots: seq<Slot>, j: nat, name: Name, sum: byte)
    requires LongName(name) && j <= |slots|
    ensures Collecting(slots, j, name, sum, StateAt(slots, j), 0)
  {}

  // Coming to them in whatever state, the iterator collects the name.
  lemma {:induction false} StateCollected(slots: seq<Slot>, j: nat, name: Name, sum: byte, m: nat)
    requires LongRun(slots, j, name, sum) && m <= ChunkCount(name)
    ensures j <= |slots| && Collecting(slots, j, name, sum, StateAt(slots, j), m)
  {
    hide *;
    LongRunFits(slots, j, name, sum);
    if m == 0 {
      CollectingNone(slots, j, name, sum);
    } else {
      StateCollected(slots, j, name, sum, m - 1);
      SlotIs(slots, j, name, sum, m - 1);
      StateNext(slots, j, name, sum, StateAt(slots, j), m - 1, slots[j + (m - 1)]);
    }
  }

  lemma NoEndTo(slots: seq<Slot>, p: nat)
    requires WellFormed(slots) && p < |slots| && IsEntry(slots[p])
    ensures NoEndUpTo(slots, p + 1)
  {
    NoEndBefore(slots, p);
  }

  // In any directory, an entry with its long slots goes by the reversed chunks of the name the
  // slots were made from, and by nothing else.
  lemma LongGoesBy(slots: seq<Slot>, j: nat, name: Name, wanted: Name)
    requires WellFormed(slots) && LongAt(slots, j, name)
    ensures GoesBy(slots, j + ChunkCount(name), wanted) <==> SameName(wanted, ChunksReversed(name))
  {
    hide WellFormed, NoEndUpTo, EntryName, SameName, Collected, ChunksReversed, StateAt, ChunkCount, LongRun, LongName,
         Checksum;
    var n := ChunkCount(name);
    var p := j + n;
    LongRunFits(slots, j, name, Checksum(Short(slots[p])));
    NoEndTo(slots, p);
    var sum := Checksum(Short(slots[p]));
    StateCollected(slots, j, name, sum, n);
    LongEntryName(name, sum, StateAt(slots, j), slots[p]);
  }

  // So a lookup of that name finds the entry exactly when reversing the chunks gives the same name
  // and no earlier entry goes by it.
  lemma LongLookup(slots: seq<Slot>, j: nat, name: Name)
    requires WellFormed(slots) && LongAt(slots, j, name)
    ensures var p := j + ChunkCount(name);
            Lookup(slots, name) == Some(p) <==>
              SameName(name, ChunksReversed(name)) && forall k :: k < p ==> !GoesBy(slots, k, name)
  {
    LongGoesBy(slots, j, name, name);
    LookupFirst(slots, name);
    hide GoesBy, SameName, ChunksReversed, LongAt, WellFormed, Lookup, ChunkCount;
  }

  // Up to 13 characters, exactly when no earlier entry goes by it.
  lemma OneSlotLookup(slots: seq<Slot>, j: nat, name: Name)
    requires WellFormed(slots) && LongAt(slots, j, name) && |name| <= UNITS
    ensures Lookup(slots, name) == Some(j + 1) <==> forall k :: k < j + 1 ==> !GoesBy(slots, k, name)
  {
    assert ChunkCount(name) == 1;
    LongLookup(slots, j, name);
    LongRoundTrip(name);
    OneSlotSurvives(name);
    hide GoesBy, LongAt, WellFormed, Lookup;
  }

  // The slots as generated, with their entry, are such a directory.
  lemma GeneratedIsLong(name: Name, e: Slot)
    requires LongName(name) && IsEntry(e)
    ensures var slots := LongSlots(name, Checksum(Short(e))) + [e]; WellFormed(slots) && LongAt(slots, 0, name)
  {
    hide SlotAt, Checksum, ChunkCount;
    var n, sum := ChunkCount(name), Checksum(Short(e));
    var slots := LongSlots(name, sum) + [e];
    forall k | 0 <= k < n ensures slots[k] == SlotAt(name, sum, k) { assert LongSlots(name, sum)[k] == SlotAt(name, sum, k); }
    assert slots[n] == e;
  }

  // "abcdefghijklmn"
  const FOURTEEN: Name := [0x61, 0x62, 0x63, 0x64, 0x65, 0x66, 0x67, 0x68, 0x69, 0x6A, 0x6B, 0x6C, 0x6D, 0x6E]

  lemma FourteenIsLong()
    ensures LongName(FOURTEEN) && ChunkCount(FOURTEEN) == 2
    ensures !SameName(FOURTEEN, ChunksReversed(FOURTEEN))
  {
    TwoReversed(FOURTEEN);
    hide ChunksReversed;
    var r := ChunksReversed(FOURTEEN);
    assert r[0] == 0x6E && Lower(FOURTEEN[0]) != Lower(r[0]);
  }

  // A directory that holds one file of this name, as the driver writes it, in which the file is
  // not found.
  lemma FourteenLost(e: Slot)
    requires IsEntry(e)
    ensures LongName(FOURTEEN)
    ensures var slots := LongSlots(FOURTEEN, Checksum(Short(e))) + [e];
            && |slots| == 3 && WellFormed(slots) && LongAt(slots, 0, FOURTEEN)
            && Lookup(slots, FOURTEEN) == None
  {
    hide Checksum, LongSlots, WellFormed, SameName, ChunksReversed, LongRun, GoesBy, Find, ChunkCount;
    FourteenIsLong();
    GeneratedIsLong(FOURTEEN, e);
    var slots := LongSlots(FOURTEEN, Checksum(Short(e))) + [e];
    LongGoesBy(slots, 0, FOURTEEN, FOURTEEN);
    LookupFirst(slots, FOURTEEN);
    OnlyEntry(slots, FOURTEEN, FOURTEEN);
  }

  // The slots before the entry are not entries.
  lemma OnlyEntry(slots: seq<Slot>, name: Name, wanted: Name)
    requires LongAt(slots, 0, name) && |slots| == ChunkCount(name) + 1
    ensures forall k :: GoesBy(slots, k, wanted) ==> k == ChunkCount(name)
  {
    hide ChunkCount, LongRun, Checksum, StateAt, EntryName, SameName;
    var n, sum := ChunkCount(name), Checksum(Short(slots[ChunkCount(name)]));
    forall k | 0 <= k < n ensures !IsEntry(slots[k]) { SlotIs(slots, 0, name, sum, k); }
  }
}
