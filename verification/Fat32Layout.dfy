/**
 The on-disk format of FAT32 volumes and directory entries, in literal bytes, and what it means
 for two names to be the same.
 */
module Fat32Layout {
  import opened Basics
  import opened Fat32Disk
  import opened Fat32Chains
  import opened Fat32Volume
  import opened Fat32Names
  import opened Fat32Dir
  import opened Fat32Long
  import opened Fat32Named

  // ----- letters -----

  // The same byte, or one ASCII letter in its two cases.
  predicate SameLetter(a: byte, b: byte) {
    a == b || (0x41 <= a <= 0x5A && b - a == 0x20) || (0x41 <= b <= 0x5A && a - b == 0x20)
  }

  predicate LetterForLetter(a: Name, b: Name) {
    |a| == |b| && forall i :: 0 <= i < |a| ==> SameLetter(a[i], b[i])
  }

  // Two names are the same exactly when they differ at most in the case of ASCII letters.
  lemma SameNameIff(a: Name, b: Name)
    ensures SameName(a, b) <==> LetterForLetter(a, b)
  {
    if |a| == |b| {
      forall i | 0 <= i < |a| ensures Lower(a[i]) == Lower(b[i]) <==> SameLetter(a[i], b[i]) {}
    }
  }

  lemma HitsAlike(l: Lfn, s: Slot, a: Name, b: Name)
    requires SameName(a, b)
    ensures Hit(l, s, a) == Hit(l, s, b)
  {
    hide EntryName, IsEntry, Lower;
    var n := EntryName(l, s);
    if SameName(a, n) || SameName(b, n) {
      forall i | 0 <= i < |a| ensures Lower(a[i]) == Lower(b[i]) == Lower(n[i]) {}
    }
  }

  // Names that differ in case go to the same entries of every directory.
  lemma {:induction false} FindsAlike(slots: seq<Slot>, i: nat, l: Lfn, a: Name, b: Name)
    requires LetterForLetter(a, b)
    ensures Find(slots, i, l, a) == Find(slots, i, l, b)
    decreases |slots| - i
  {
    hide Hit, Next, SameName, LetterForLetter;
    if i < |slots| && !IsEnd(slots[i]) {
      SameNameIff(a, b);
      HitsAlike(l, slots[i], a, b);
      FindsAlike(slots, i + 1, Next(l, slots[i]), a, b);
    }
  }

  lemma LookupIgnoresCase(slots: seq<Slot>, a: Name, b: Name)
    requires LetterForLetter(a, b)
    ensures Lookup(slots, a) == Lookup(slots, b) && forall i :: GoesBy(slots, i, a) == GoesBy(slots, i, b)
  {
    FindsAlike(slots, 0, NO_LFN, a, b);
    forall i ensures GoesBy(slots, i, a) == GoesBy(slots, i, b) {
      if 0 <= i < |slots| {
        SameNameIff(a, b);
        HitsAlike(StateAt(slots, i), slots[i], a, b);
      }
    }
  }

  // "README  TXT", "README.TXT" and "readme.txt"
  const README_SHORT: seq<byte> := [0x52, 0x45, 0x41, 0x44, 0x4D, 0x45, 0x20, 0x20, 0x54, 0x58, 0x54]
  const README_UPPER: Name := [0x52, 0x45, 0x41, 0x44, 0x4D, 0x45, 0x2E, 0x54, 0x58, 0x54]
  const README_LOWER: Name := [0x72, 0x65, 0x61, 0x64, 0x6D, 0x65, 0x2E, 0x74, 0x78, 0x74]

  lemma TwoBlanks()
    ensures NonBlank([]) == [] && NonBlank([0x20, 0x20]) == []
  {
    assert NonBlank([0x20]) == [];
  }

  lemma ReadmeDisplay()
    ensures Display(README_SHORT) == README_UPPER
  {
    hide NonBlank;
    var b: seq<byte>, e: seq<byte> := [0x52, 0x45, 0x41, 0x44, 0x4D, 0x45], [0x54, 0x58, 0x54];
    assert README_SHORT[..8] == b + [0x20, 0x20];
    assert README_SHORT[8..] == e + [];
    TwoBlanks();
    NonBlankPrefix(b, [0x20, 0x20]);
    NonBlankPrefix(e, []);
    assert README_UPPER == b + [0x2E] + e;
  }

  lemma {:induction false} NonBlankPrefix(s: seq<byte>, rest: seq<byte>)
    requires forall i :: 0 <= i < |s| ==> s[i] != 0x20
    ensures NonBlank(s + rest) == s + NonBlank(rest)
  {
    if s == [] {
      assert s + rest == rest;
    } else {
      assert (s + rest)[1..] == s[1..] + rest;
      NonBlankPrefix(s[1..], rest);
      assert s == [s[0]] + s[1..];
    }
  }

  lemma ReadmeAlike()
    ensures LetterForLetter(README_LOWER, README_UPPER)
  {}

  // The entry README.TXT is found as readme.txt, and not by a part of its name.
  lemma ReadmeFound(e: Slot)
    requires e[..11] == README_SHORT && e[11] == 0x20
    ensures Lookup([e], README_UPPER) == Some(0) && Lookup([e], README_LOWER) == Some(0)
    ensures Lookup([e], README_LOWER[..9]) == None
  {
    hide Display, LetterForLetter, Lower, Next;
    assert e[0] == README_SHORT[0];
    ReadmeDisplay();
    assert EntryName(NO_LFN, e) == README_UPPER;
    assert Lookup([e], README_UPPER) == Some(0);
    ReadmeAlike();
    LookupIgnoresCase([e], README_LOWER, README_UPPER);
    assert Find([e], 1, Next(NO_LFN, e), README_LOWER[..9]) == None;
  }

  // ----- short names -----

  // Upper case is the same letter, and not a small one.
  lemma UpperIs(c: byte)
    ensures SameLetter(c, Upper(c)) && !(0x61 <= Upper(c) <= 0x7A)
  {}

  lemma SameDot(a: Name, b: Name)
    requires LetterForLetter(a, b)
    ensures LastDot(a) == LastDot(b)
  {
    assert forall i :: 0 <= i < |a| ==> (a[i] == 0x2E <==> b[i] == 0x2E);
    var d, d' := LastDot(a), LastDot(b);
    if d < |a| { assert b[d] == 0x2E; }
    if d' < |b| { assert a[d'] == 0x2E; }
  }

  lemma FieldsAlike(a: Name, b: Name, n: nat)
    requires LetterForLetter(a, b)
    ensures Field(a, n) == Field(b, n)
  {
    forall i | 0 <= i < n ensures Field(a, n)[i] == Field(b, n)[i] {
      if i < |a| { assert SameLetter(a[i], b[i]); }
    }
  }

  // Names that differ in case have the same short name.
  lemma ShortIgnoresCase(a: Name, b: Name)
    requires LetterForLetter(a, b)
    ensures ShortName(a) == ShortName(b)
  {
    SameDot(a, b);
    FieldsAlike(Base(a), Base(b), 8);
    FieldsAlike(Ext(a), Ext(b), 3);
  }

  lemma {:induction false} NonBlankBound(s: Name, n: nat)
    ensures var r := NonBlank(Field(s, n));
            && |r| <= n && |r| <= |s| && forall i :: 0 <= i < |r| ==> !(0x61 <= r[i] <= 0x7A) && r[i] != 0x20
    decreases n
  {
    if n > 0 {
      var rest := if s == [] then [] else s[1..];
      assert Field(s, n)[1..] == Field(rest, n - 1);
      NonBlankBound(rest, n - 1);
      if s != [] { UpperIs(s[0]); }
    }
  }

  // What a short name shows: at most 8 and 3 characters, no small letters and no blanks.
  lemma DisplayBound(name: Name)
    ensures var b, e, r := Base(name), Ext(name), Display(ShortName(name));
            && |r| <= |b| + |e| + 1 && (|b| > 8 ==> |r| < |b| + |e| + if e == [] then 0 else 1)
            && (|e| > 3 ==> |r| < |b| + |e| + 1)
            && forall i :: 0 <= i < |r| ==> !(0x61 <= r[i] <= 0x7A) && r[i] != 0x20
  {
    var b, e, short := Base(name), Ext(name), ShortName(name);
    assert short[..8] == Field(b, 8) && short[8..] == Field(e, 3) && short[8] == Field(e, 3)[0];
    NonBlankBound(b, 8);
    NonBlankBound(e, 3);
  }

  // A name that does not end in a dot is given a long form exactly when it has several dots or
  // would not read back from its short one.
  lemma NeedsLongIff(name: Name)
    requires name == [] || name[|name| - 1] != 0x2E
    ensures NeedsLong(name) <==> 0x2E in Base(name) || Display(ShortName(name)) != name
  {
    if NeedsLong(name) {
      hide Display, ShortName;
      DisplayBound(name);
    } else {
      ShortRoundTrip(name);
    }
  }

  // ----- the checksum -----

  // Each byte is added to the sum so far with its bits turned right by one place.
  lemma ChecksumTurns(short: seq<byte>, c: byte, bits: seq<nat>)
    requires |bits| == 8 && forall i :: 0 <= i < 8 ==> bits[i] < 2
    requires Checksum(short) == bits[0] + 2 * bits[1] + 4 * bits[2] + 8 * bits[3] + 16 * bits[4] + 32 * bits[5]
                                + 64 * bits[6] + 128 * bits[7]
    ensures Checksum(short + [c]) == (bits[1] + 2 * bits[2] + 4 * bits[3] + 8 * bits[4] + 16 * bits[5] + 32 * bits[6]
                                      + 64 * bits[7] + 128 * bits[0] + c) % 0x100
  {
    assert (short + [c])[..|short|] == short;
    var sum: int := Checksum(short);
    assert sum % 2 == bits[0];
  }

  const README_SUMS: seq<byte> := [0x00, 0x52, 0x6E, 0x78, 0x80, 0x8D, 0x0B, 0xA5, 0xF2, 0xCD, 0x3E, 0x73]

  lemma SumStep(k: nat)
    requires k < 11
    ensures var sum: int, c: int := README_SUMS[k], README_SHORT[k];
            README_SUMS[k + 1] == (sum % 2 * 128 + sum / 2 + c) % 0x100
  {}

  lemma ChecksumNext(short: seq<byte>, c: byte)
    ensures var sum: int := Checksum(short); Checksum(short + [c]) == (sum % 2 * 128 + sum / 2 + c) % 0x100
  {
    assert (short + [c])[..|short|] == short;
  }

  lemma {:induction false} ReadmeSums(k: nat)
    requires k <= 11
    ensures Checksum(README_SHORT[..k]) == README_SUMS[k]
  {
    if k > 0 {
      ReadmeSums(k - 1);
      assert README_SHORT[..k] == README_SHORT[..k - 1] + [README_SHORT[k - 1]];
      ChecksumNext(README_SHORT[..k - 1], README_SHORT[k - 1]);
      SumStep(k - 1);
    }
  }

  lemma ReadmeChecksum()
    ensures Checksum(README_SHORT) == 0x73
  {
    ReadmeSums(11);
    assert README_SHORT[..11] == README_SHORT;
  }

  // ----- kinds of slots -----

  // A slot is free by its first byte, and what it is by the bits of its attribute.
  lemma SlotKinds(s: Slot)
    ensures IsFree(s) <==> s[0] == 0x00 || s[0] == 0xE5
    ensures IsLong(s) <==> s[11] == 0x0F
    ensures IsVolume(s) <==> (s[11] as bv8) & 0x08 != 0
    ensures IsDirectory(s) <==> (s[11] as bv8) & 0x10 != 0
    ensures StartsLong(s) <==> (s[0] as bv8) & 0x40 != 0
  {}

  // A directory, a file, a volume label and a part of a long name.
  lemma KindsByAttribute(s: Slot)
    requires s[0] == 0x41
    ensures s[11] == 0x10 ==> IsEntry(s) && IsDirectory(s)
    ensures s[11] == 0x20 ==> IsEntry(s) && !IsDirectory(s)
    ensures s[11] == 0x08 ==> !IsEntry(s) && !LiveLong(s)
    ensures s[11] == 0x0F ==> !IsEntry(s) && LiveLong(s) && StartsLong(s)
  {}

  // ----- fields -----

  // The first cluster is in bytes 26, 27, 20 and 21, the size in bytes 28 to 31, low bytes first.
  lemma EntryFields(s: Slot)
    ensures FirstCluster(s) == s[26] as int + 0x100 * s[27] as int + 0x1_0000 * s[20] as int + 0x100_0000 * s[21] as int
    ensures FileSize(s) == s[28] as int + 0x100 * s[29] as int + 0x1_0000 * s[30] as int + 0x100_0000 * s[31] as int
  {}

  // Two bytes, the low one first.
  predicate Holds16(s: Slot, at: nat, w: nat)
    requires at + 1 < 32
  {
    w == s[at] as int + 0x100 * s[at + 1] as int
  }

  // A new entry: archive attribute, created, accessed and written now, no cluster, no bytes.
  lemma NewEntryFields(short: seq<byte>, date: nat, time: nat)
    requires |short| == 11 && date < 0x1_0000 && time < 0x1_0000
    ensures var e := NewEntry(short, date, time);
            && e[..11] == short && e[11] == 0x20 && e[12] == 0 && e[13] == 0
            && Holds16(e, 14, time) && Holds16(e, 16, date) && Holds16(e, 18, date)
            && Holds16(e, 22, time) && Holds16(e, 24, date) && FirstCluster(e) == 0 && FileSize(e) == 0
  {
    assert NewEntry(short, date, time)[28..] == [0, 0, 0, 0];
  }

  // An update: attribute, write time, first cluster and size, and nothing else.
  lemma UpdatedBytes(s: Slot, attr: byte, first: nat, size: nat, date: nat, time: nat)
    requires first < 0x1_0000_0000 && size < 0x1_0000_0000 && date < 0x1_0000 && time < 0x1_0000
    ensures var r := Updated(s, attr, first, size, date, time);
            && r[..11] == s[..11] && r[11] == attr && r[12..20] == s[12..20] && Holds16(r, 22, time) && Holds16(r, 24, date)
            && FirstCluster(r) == first && FileSize(r) == size
  {
    UpdatedFields(s, attr, first, size, date, time);
    hide PutLe32;
  }

  // A long slot: order, attribute and checksum, and the units at 1, 14 and 28.
  lemma LongSlotFields(order: byte, u: seq<nat>, sum: byte)
    requires |u| == 13 && forall i :: 0 <= i < 13 ==> u[i] < 0x1_0000
    ensures var s := LongSlot(order, u, sum);
            && s[0] == order && s[11] == 0x0F && s[12] == 0 && s[13] == sum && s[26] == 0 && s[27] == 0
            && Holds16(s, 1, u[0]) && Holds16(s, 3, u[1]) && Holds16(s, 5, u[2]) && Holds16(s, 7, u[3]) && Holds16(s, 9, u[4])
            && Holds16(s, 14, u[5]) && Holds16(s, 16, u[6]) && Holds16(s, 18, u[7]) && Holds16(s, 20, u[8])
            && Holds16(s, 22, u[9]) && Holds16(s, 24, u[10]) && Holds16(s, 28, u[11]) && Holds16(s, 30, u[12])
  {
    FirstUnits(order, u, sum);
    LastUnits(order, u, sum);
  }

  // The slots of a long name count down to 1, and the first on disk has bit 6 set as well.
  lemma LongSlotOrder(name: Name, sum: byte, k: nat)
    requires Ascii(name) && |name| <= 260 && 13 * k < |name|
    ensures Storable(name) && k < |LongSlots(name, sum)|
    ensures var n, s := |LongSlots(name, sum)|, LongSlots(name, sum)[k];
            && 13 * (n - 1) < |name| <= 13 * n
            && s[0] == (if k == 0 then 0x40 + n else n - k) && s[13] == sum
  {
    hide DiskUnits;
  }

  // ----- long name units -----

  // What a long slot shows: the units before the first 0 or 0xFFFF, with a question mark for
  // those that are not ASCII.
  lemma {:induction false} ExtractIs(u: seq<nat>)
    ensures var r := Extract(u);
            && |r| <= |u| && (|r| < |u| ==> u[|r|] == 0 || u[|r|] == 0xFFFF)
            && forall i :: 0 <= i < |r| ==> u[i] != 0 && u[i] != 0xFFFF && r[i] == if u[i] < 0x80 then u[i] else 0x3F
  {
    if u != [] && u[0] != 0 && u[0] != 0xFFFF {
      ExtractIs(u[1..]);
    }
  }

  // An entry never goes by more than 255 characters.
  lemma NameBound(l: Lfn, s: Slot)
    ensures |EntryName(l, s)| <= 255
  {
    NonBlankShorter(Short(s)[..8]);
    NonBlankShorter(Short(s)[8..]);
  }

  lemma {:induction false} NonBlankShorter(s: seq<byte>)
    ensures |NonBlank(s)| <= |s|
  {
    if s != [] { NonBlankShorter(s[1..]); }
  }

  // The names that long slots can hold and the iterator can show.
  lemma LongNameIff(name: Name)
    ensures LongName(name) <==> 1 <= |name| <= 255 && forall i :: 0 <= i < |name| ==> 1 <= name[i] <= 127
  {}

  // ----- the volume -----

  lemma Low28(lo: nat, top: nat)
    requires lo < 0x100_0000 && top < 0x100
    ensures (lo + 0x100_0000 * top) % 0x1000_0000 == lo + 0x100_0000 * (top % 16)
  {
    assert lo + 0x100_0000 * top == 0x1000_0000 * (top / 16) + (lo + 0x100_0000 * (top % 16));
  }

  // The link of cluster c is the low 28 bits of the word at byte 4 * c of the first FAT.
  lemma LinkBytes(g: Geometry, d: seq<byte>, c: nat, a: nat)
    requires g.Valid(|d|) && c < g.clusters + 2 && a == 512 * g.reserved + 4 * c
    ensures a + 4 <= |d|
    ensures var b0: int, b1: int, b2: int, b3: int := d[a], d[a + 1], d[a + 2], d[a + 3];
            Links(g, d)[c] == b0 + 0x100 * b1 + 0x1_0000 * b2 + 0x100_0000 * (b3 % 16)
  {
    EntryInBounds(g, 0, c);
    assert a == g.FatBase(0) + 4 * c;
    hide Geometry.Valid, Geometry.ClusterAddr, Geometry.FatBase;
    var b0: int, b1: int, b2: int, b3: int := d[a], d[a + 1], d[a + 2], d[a + 3];
    Low28(b0 + 0x100 * b1 + 0x1_0000 * b2, b3);
  }

  // Cluster c lies behind the FATs, from number 2 on.
  lemma ClusterBytesAt(g: Geometry, d: seq<byte>, c: nat, a: nat)
    requires g.Valid(|d|) && 2 <= c < g.clusters + 2
    requires a == (g.reserved + g.numFats * g.fatSectors + (c - 2) * g.sectorsPerCluster) * 512
    ensures a + 512 * g.sectorsPerCluster <= |d| && Clusters(g, d)[c] == d[a..a + 512 * g.sectorsPerCluster]
  {
    hide Geometry.ClusterAddr, Geometry.FatBase;
    ClusterInBounds(g, c);
    ClusterAddrIs(g, c);
  }

  // Links from 0x0FFFFFF8 on end a chain; 0x0FFFFFF7 marks a bad cluster and does not.
  lemma ChainMarkers(fat: seq<nat>, c: nat)
    requires 2 <= c < |fat|
    ensures IsChain(fat, [c]) <==> fat[c] >= 0x0FFF_FFF8
  {}

  // How far the search goes from cluster `from` to cluster c.
  function Ahead(from: nat, c: nat, n: nat): int { if c >= from then c - from else c - from + n }

  // The allocator picks the free cluster that is next after the hint, around the table.
  lemma PickIsNext(fat: seq<nat>, hint: nat, c: nat)
    requires 2 <= hint < |fat| <= 0x0FFF_FFF7 && 2 <= c < |fat| && fat[c] == 0
    ensures var r := Pick(fat, hint);
            r != 0 && fat[r] == 0 && Ahead(hint, r, |fat| - 2) <= Ahead(hint, c, |fat| - 2)
  {}

  // Without a usable hint it starts at cluster 2.
  lemma PickFromStart(fat: seq<nat>, hint: nat)
    requires 2 < |fat| && (hint < 2 || hint == 0xFFFF_FFFF)
    ensures Pick(fat, hint) == Pick(fat, 2)
  {}
}
