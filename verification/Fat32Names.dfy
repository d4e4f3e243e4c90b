/**
 File names on a FAT32 volume: the 11-byte short form, and long names spread over directory
 slots of 13 UTF-16 units each.
 */
module Fat32Names {
  import opened Basics
  import opened Fat32Disk

  // C strings: bytes without the terminator, none of them zero.
  type Name = seq<byte>

  const DOT: byte := 0x2E
  const SPACE: byte := 0x20
  const SHORT_LEN: nat := 11

  function Upper(c: byte): byte { if 0x61 <= c <= 0x7A then c - 32 else c }

  predicate IsLower(c: byte) { 0x61 <= c <= 0x7A }

  // ----- the short form -----

  // Position of the last dot, or the length.
  function LastDot(name: Name): (d: nat)
    ensures d <= |name| && (d < |name| ==> name[d] == DOT)
    ensures forall i :: d < i < |name| ==> name[i] != DOT
    ensures d == |name| ==> DOT !in name
  {
    if name == [] then 0
    else if name[|name| - 1] == DOT then |name| - 1
    else
      var d := LastDot(name[..|name| - 1]);
      if d == |name| - 1 then |name| else d
  }

  function Base(name: Name): Name { name[..LastDot(name)] }

  function Ext(name: Name): Name { if LastDot(name) == |name| then [] else name[LastDot(name) + 1..] }

  // n bytes: the first of s in upper case, then blanks.
  function Field(s: Name, n: nat): (r: seq<byte>)
    ensures |r| == n
  {
    seq(n, i requires 0 <= i < n => if i < |s| then Upper(s[i]) else SPACE)
  }

  // fat32_name_to_83
  function ShortName(name: Name): (r: seq<byte>)
    ensures |r| == SHORT_LEN
  {
    Field(Base(name), 8) + Field(Ext(name), 3)
  }

  function NonBlank(s: seq<byte>): seq<byte> {
    if s == [] then [] else (if s[0] != SPACE then [s[0]] else []) + NonBlank(s[1..])
  }

  // fat32_83_to_name
  function Display(short: seq<byte>): Name
    requires |short| == SHORT_LEN
  {
    NonBlank(short[..8]) + if short[8] != SPACE then [DOT] + NonBlank(short[8..]) else []
  }

  // Whether a name must be stored as a long name: several dots, lower case, blanks or too long.
  predicate NeedsLong(name: Name) {
    || DOT in Base(name)
    || (exists i :: 0 <= i < |name| && (IsLower(name[i]) || name[i] == SPACE))
    || |Base(name)| > 8 || |Ext(name)| > 3
  }

  lemma {:induction false} NonBlankField(s: Name, n: nat)
    requires |s| <= n && forall i :: 0 <= i < |s| ==> !IsLower(s[i]) && s[i] != SPACE
    ensures NonBlank(Field(s, n)) == s
    decreases n
  {
    if n > 0 {
      if s == [] {
        assert Field(s, n)[1..] == Field(s, n - 1);
        NonBlankField(s, n - 1);
      } else {
        assert Field(s, n)[1..] == Field(s[1..], n - 1);
        NonBlankField(s[1..], n - 1);
        assert s == [s[0]] + s[1..];
      }
    }
  }

  lemma ShortDisplay(name: Name)
    requires !NeedsLong(name)
    ensures Display(ShortName(name)) == Base(name) + if Ext(name) == [] then [] else [DOT] + Ext(name)
  {
    var b, e, short := Base(name), Ext(name), ShortName(name);
    assert short[..8] == Field(b, 8) && short[8..] == Field(e, 3);
    NonBlankField(b, 8);
    NonBlankField(e, 3);
    assert short[8] == Field(e, 3)[0];
  }

  // A name that needs no long form reads back as itself exactly when it does not end in a dot.
  lemma ShortRoundTrip(name: Name)
    requires !NeedsLong(name)
    ensures Display(ShortName(name)) == name <==> name == [] || name[|name| - 1] != DOT
  {
    hide Display, ShortName, NeedsLong;
    ShortDisplay(name);
    if LastDot(name) < |name| {
      assert name == Base(name) + [DOT] + Ext(name);
    }
  }

  // ----- the loops behind it -----

  method NeedsLfn(name: Name) returns (r: bool)
    ensures r <==> NeedsLong(name)
  {
    var hasDot, before, after := false, 0, 0;
    ghost var dot: nat := 0;
    for i := 0 to |name|
      invariant !hasDot ==> DOT !in name[..i] && before == i && after == 0
      invariant hasDot ==> dot < i && before == dot && after == i - dot - 1 && OnlyDot(name[..i], dot)
      invariant forall j :: 0 <= j < i ==> !IsLower(name[j]) && name[j] != SPACE
    {
      assert name[..i + 1] == name[..i] + [name[i]];
      if name[i] == DOT {
        if hasDot {
          SecondDot(name, i);
          return true;
        }
        hasDot, dot := true, i;
      } else {
        if hasDot { after := after + 1; } else { before := before + 1; }
        if IsLower(name[i]) { return true; }
        if name[i] == SPACE { return true; }
      }
    }
    assert name[..|name|] == name;
    r := before > 8 || after > 3;
  }

  ghost predicate OnlyDot(s: Name, d: nat) {
    d < |s| && s[d] == DOT && forall j :: 0 <= j < |s| && j != d ==> s[j] != DOT
  }

  lemma SecondDot(name: Name, i: nat)
    requires i < |name| && name[i] == DOT && DOT in name[..i]
    ensures DOT in Base(name)
  {
    var d :| 0 <= d < i && name[..i][d] == DOT;
    assert LastDot(name) >= i;
    assert Base(name)[d] == DOT;
  }

  method NameTo83(name: Name) returns (short: seq<byte>)
    ensures short == ShortName(name)
  {
    var dot := |name|;
    for i := 0 to |name|
      invariant dot == if DOT in name[..i] then LastDot(name[..i]) else |name|
    {
      assert name[..i + 1] == name[..i] + [name[i]] && name[..i + 1][..i] == name[..i];
      if name[i] == DOT { dot := i; }
    }
    assert name[..|name|] == name;
    var base := CopyField(name, 0, dot, 8);
    var ext := CopyField(name, if dot < |name| then dot + 1 else dot, |name|, 3);
    assert name[0..dot] == Base(name);
    assert name[if dot < |name| then dot + 1 else dot..|name|] == Ext(name);
    short := base + ext;
  }

  // Up to n upper-cased bytes of name[from..to], blank-filled.
  method CopyField(name: Name, from: nat, to: nat, n: nat) returns (r: seq<byte>)
    requires from <= to <= |name|
    ensures r == Field(name[from..to], n)
  {
    r := seq(n, _ => SPACE);
    var i := 0;
    while from + i < to && i < n
      invariant i <= n && from + i <= to && |r| == n
      invariant forall k :: 0 <= k < n ==> r[k] == if k < i then Upper(name[from + k]) else SPACE
    {
      r := r[i := Upper(name[from + i])];
      i := i + 1;
    }
  }

  method ShortToName(short: seq<byte>) returns (name: Name)
    requires |short| == SHORT_LEN
    ensures name == Display(short)
  {
    name := AppendNonBlank([], short, 0, 8);
    assert short[0..8] == short[..8];
    if short[8] != SPACE {
      var ext := AppendNonBlank([DOT], short, 8, SHORT_LEN);
      assert short[8..SHORT_LEN] == short[8..];
      name := name + ext;
    }
  }

  method AppendNonBlank(start: Name, short: seq<byte>, from: nat, to: nat) returns (name: Name)
    requires from <= to <= |short|
    ensures name == start + NonBlank(short[from..to])
  {
    name := start;
    for i := from to to
      invariant name == start + NonBlank(short[from..i])
    {
      NonBlankSnoc(short[from..i], short[i]);
      assert short[from..i + 1] == short[from..i] + [short[i]];
      if short[i] != SPACE { name := name + [short[i]]; }
    }
  }

  lemma {:induction false} NonBlankSnoc(s: seq<byte>, c: byte)
    ensures NonBlank(s + [c]) == NonBlank(s) + if c != SPACE then [c] else []
  {
    if s != [] {
      NonBlankSnoc(s[1..], c);
      assert (s + [c])[1..] == s[1..] + [c];
    }
  }

  // ----- long names -----

  // The rotating checksum that ties long slots to their short one.
  function Checksum(short: seq<byte>): byte {
    if short == [] then 0
    else
      var sum := Checksum(short[..|short| - 1]);
      (sum % 2 * 128 + sum / 2 + short[|short| - 1]) % 256
  }

  const UNITS: nat := 13
  const PAD: nat := 0xFFFF

  predicate Ascii(name: Name) { forall i :: 0 <= i < |name| ==> 0 < name[i] < 128 }

  function ChunkCount(name: Name): nat { (|name| + UNITS - 1) / UNITS }

  function Chunk(name: Name, i: nat): Name
    requires i < ChunkCount(name)
  {
    name[i * UNITS..if (i + 1) * UNITS < |name| then (i + 1) * UNITS else |name|]
  }

  // The 13 units of a slot: the chunk, a terminator if it is short, then padding.
  function Units(chunk: Name): (u: seq<nat>)
    ensures |u| == UNITS
  {
    seq(UNITS, j requires 0 <= j < UNITS => if j < |chunk| then chunk[j] else if j == |chunk| then 0 else PAD)
  }

  function ToAscii(u: nat): nat { if u == 0 || u == PAD then 0 else if u < 128 then u else 0x3F }

  // fat32_extract_lfn: characters up to the first terminator or padding.
  function Extract(u: seq<nat>): Name {
    if u == [] || ToAscii(u[0]) == 0 then [] else [ToAscii(u[0])] + Extract(u[1..])
  }

  lemma {:induction false} ExtractUnits(chunk: Name, k: nat)
    requires Ascii(chunk) && k <= |chunk| <= UNITS
    ensures Extract(Units(chunk)[k..]) == chunk[k..]
    decreases UNITS - k
  {
    var u := Units(chunk)[k..];
    if k < |chunk| {
      ExtractUnits(chunk, k + 1);
      assert u[1..] == Units(chunk)[k + 1..] && chunk[k..] == [chunk[k]] + chunk[k + 1..];
    }
  }

  // Slots as they lie on disk: the last chunk first.
  function DiskUnits(name: Name): seq<seq<nat>> {
    seq(ChunkCount(name), k requires 0 <= k < ChunkCount(name) => Units(Chunk(name, ChunkCount(name) - 1 - k)))
  }

  // The iterator appends what it extracts in disk order.
  function Gather(us: seq<seq<nat>>): Name {
    if us == [] then [] else Gather(us[..|us| - 1]) + Extract(us[|us| - 1])
  }

  // The last m chunks of a name, last first.
  function LastFirst(name: Name, m: nat): Name
    requires m <= ChunkCount(name)
  {
    if m == 0 then [] else LastFirst(name, m - 1) + Chunk(name, ChunkCount(name) - m)
  }

  function ChunksReversed(name: Name): Name { LastFirst(name, ChunkCount(name)) }

  lemma ChunkShape(name: Name, i: nat)
    requires Ascii(name) && i < ChunkCount(name)
    ensures Ascii(Chunk(name, i)) && 0 < |Chunk(name, i)| <= UNITS
  {}

  lemma {:induction false} GatherLastFirst(name: Name, m: nat)
    requires Ascii(name) && m <= ChunkCount(name)
    ensures Gather(DiskUnits(name)[..m]) == LastFirst(name, m)
  {
    if m > 0 {
      GatherLastFirst(name, m - 1);
      var us := DiskUnits(name)[..m];
      assert us[..m - 1] == DiskUnits(name)[..m - 1];
      var c := Chunk(name, ChunkCount(name) - m);
      ChunkShape(name, ChunkCount(name) - m);
      ExtractUnits(c, 0);
      assert us[m - 1] == Units(c) && Units(c)[0..] == Units(c) && c[0..] == c;
    }
  }

  // What a stored long name reads back as, for every ASCII name: its 13-character chunks in
  // reverse order.
  lemma LongRoundTrip(name: Name)
    requires Ascii(name)
    ensures Gather(DiskUnits(name)) == ChunksReversed(name)
  {
    GatherLastFirst(name, ChunkCount(name));
    assert DiskUnits(name)[..ChunkCount(name)] == DiskUnits(name);
  }

  // Names of one slot always survive.
  lemma OneSlotSurvives(name: Name)
    requires Ascii(name) && |name| <= UNITS
    ensures Gather(DiskUnits(name)) == name
  {
    LongRoundTrip(name);
    if name != [] {
      assert ChunkCount(name) == 1;
      assert LastFirst(name, 1) == LastFirst(name, 0) + Chunk(name, 0);
      assert Chunk(name, 0) == name;
    }
  }

  lemma TwoReversed(name: Name)
    requires UNITS < |name| <= 2 * UNITS
    ensures ChunkCount(name) == 2 && ChunksReversed(name) == name[UNITS..] + name[..UNITS]
  {
    assert ChunkCount(name) == 2;
    assert LastFirst(name, 1) == Chunk(name, 1) == name[UNITS..];
    assert LastFirst(name, 2) == LastFirst(name, 1) + Chunk(name, 0);
    assert Chunk(name, 0) == name[..UNITS];
  }

  // Names of two slots survive exactly when the two parts commute; one of 14 different
  // characters does not.
  lemma TwoSlots(name: Name)
    requires Ascii(name) && UNITS < |name| <= 2 * UNITS
    ensures Gather(DiskUnits(name)) == name <==> name[UNITS..] + name[..UNITS] == name
    ensures name[0] != name[UNITS] ==> Gather(DiskUnits(name)) != name
  {
    LongRoundTrip(name);
    TwoReversed(name);
    assert (name[UNITS..] + name[..UNITS])[0] == name[UNITS];
  }

  // Unit j of chunk i, as a character of the name.
  lemma UnitAt(name: Name, i: nat, j: nat)
    requires i < ChunkCount(name) && j < UNITS
    ensures var p := i * UNITS + j;
            Units(Chunk(name, i))[j] == if p < |name| then name[p] else if p == |name| then 0 else PAD
  {}

  lemma TakeNext(u: seq<nat>, j: nat)
    requires j < |u|
    ensures u[..j + 1] == u[..j] + [u[j]]
  {}

  // fat32_generate_lfn_entries: fills the slots from the last to the first.
  method GenerateLong(name: Name) returns (slots: seq<seq<nat>>)
    ensures slots == DiskUnits(name)
  {
    hide Units, Chunk;
    var n := (|name| + UNITS - 1) / UNITS;
    slots := [];
    for i := 0 to n
      invariant |slots| == i
      invariant forall k :: 0 <= k < i ==> slots[k] == Units(Chunk(name, i - 1 - k))
    {
      var units, charPos := [], i * UNITS;
      for j := 0 to UNITS
        invariant |units| == j
        invariant charPos == if i * UNITS + j <= |name| then i * UNITS + j else |name| + 1
        invariant units == Units(Chunk(name, i))[..j]
      {
        UnitAt(name, i, j);
        TakeNext(Units(Chunk(name, i)), j);
        if charPos < |name| {
          units := units + [name[charPos]];
          charPos := charPos + 1;
        } else if charPos == |name| {
          units := units + [0];
          charPos := charPos + 1;
        } else {
          units := units + [PAD];
        }
      }
      slots := [units] + slots;
    }
  }
}
