/**
 Path normalisation: components are folded onto a bounded stack of bounded segments.
 */
module VfsPath {

  const MAX_SEGS: nat := 32
  const MAX_SEG: nat := 63

  // ----- splitting and joining -----

  // Length of the first component, that is, up to a slash or the end.
  function SegLen(s: string): (n: nat)
    ensures n <= |s| && (n < |s| ==> s[n] == '/') && forall i :: 0 <= i < n ==> s[i] != '/'
  {
    if s == "" || s[0] == '/' then 0 else 1 + SegLen(s[1..])
  }

  predicate Clean(segs: seq<string>) {
    forall i :: 0 <= i < |segs| ==> segs[i] != "" && '/' !in segs[i]
  }

  // The components of a path: maximal runs without slashes.
  function Split(s: string): (segs: seq<string>)
    ensures Clean(segs)
    decreases |s|
  {
    if s == "" then []
    else if s[0] == '/' then Split(s[1..])
    else [s[..SegLen(s)]] + Split(s[SegLen(s)..])
  }

  // The absolute path with these components.
  function Join(segs: seq<string>): string {
    if segs == [] then "/" else if |segs| == 1 then "/" + segs[0] else "/" + segs[0] + Join(segs[1..])
  }

  lemma {:induction false} SegLenIs(s: string, n: nat)
    requires n <= |s| && (n < |s| ==> s[n] == '/') && forall i :: 0 <= i < n ==> s[i] != '/'
    ensures SegLen(s) == n
  {
    if n > 0 { SegLenIs(s[1..], n - 1); }
  }

  lemma SplitFirst(s: string, n: nat)
    requires 0 < n <= |s| && (n < |s| ==> s[n] == '/') && forall i :: 0 <= i < n ==> s[i] != '/'
    ensures Split(s) == [s[..n]] + Split(s[n..])
  {
    SegLenIs(s, n);
  }

  // A slash between two paths separates their components.
  lemma {:induction false} SplitConcat(a: string, b: string)
    ensures Split(a + "/" + b) == Split(a) + Split(b)
    decreases |a|, 1
  {
    var s := a + "/" + b;
    if a == "" {
      assert s[1..] == b;
    } else if a[0] == '/' {
      SplitConcat(a[1..], b);
      assert s[1..] == a[1..] + "/" + b;
    } else {
      SplitConcatSeg(a, b, SegLen(a));
    }
  }

  lemma SplitConcatSeg(a: string, b: string, n: nat)
    requires 0 < n == SegLen(a)
    ensures Split(a + "/" + b) == Split(a) + Split(b)
    decreases |a|, 0
  {
    hide Split, SegLen;
    var s, rest := a + "/" + b, a[n..];
    SplitFirst(s, n);
    SplitFirst(a, n);
    SplitConcat(rest, b);
    assert s[..n] == a[..n] && s[n..] == rest + "/" + b;
    assert [a[..n]] + (Split(rest) + Split(b)) == [a[..n]] + Split(rest) + Split(b);
  }

  lemma SplitOne(seg: string, rest: string)
    requires seg != "" && '/' !in seg && (rest == "" || rest[0] == '/')
    ensures Split("/" + seg + rest) == [seg] + Split(rest)
  {
    var s := seg + rest;
    assert ("/" + seg + rest)[1..] == s;
    SegLenIs(s, |seg|);
    assert s[..|seg|] == seg && s[|seg|..] == rest;
  }

  lemma {:induction false} SplitJoin(segs: seq<string>)
    requires Clean(segs)
    ensures Split(Join(segs)) == segs
  {
    if segs == [] {
      assert "/"[1..] == "";
    } else if |segs| == 1 {
      SplitOne(segs[0], "");
      assert "/" + segs[0] + "" == "/" + segs[0] && [segs[0]] + Split("") == segs;
    } else {
      SplitJoin(segs[1..]);
      SplitOne(segs[0], Join(segs[1..]));
    }
  }

  // ----- folding -----

  function Truncated(s: string): string { if |s| > MAX_SEG then s[..MAX_SEG] else s }

  // One component on the stack: `.` stays, `..` pops, anything else is pushed, cut to the
  // segment size, or dropped when the stack is full.
  function Push(stack: seq<string>, c: string): seq<string> {
    if c == "." then stack
    else if c == ".." then (if stack == [] then stack else stack[..|stack| - 1])
    else if |stack| >= MAX_SEGS then stack
    else stack + [Truncated(c)]
  }

  function Fold(stack: seq<string>, cs: seq<string>): seq<string>
    decreases |cs|
  {
    if cs == [] then stack else Fold(Push(stack, cs[0]), cs[1..])
  }

  // Components that mean themselves and fit.
  predicate Plain(c: string) { c != "" && '/' !in c && c != "." && c != ".." && |c| <= MAX_SEG }

  predicate Normal(segs: seq<string>) {
    |segs| <= MAX_SEGS && forall i :: 0 <= i < |segs| ==> Plain(segs[i])
  }

  lemma {:induction false} FoldNormal(stack: seq<string>, cs: seq<string>)
    requires Normal(stack) && Clean(cs)
    ensures Normal(Fold(stack, cs))
    decreases |cs|
  {
    if cs != [] {
      FoldNormal(Push(stack, cs[0]), cs[1..]);
    }
  }

  lemma {:induction false} FoldAppend(stack: seq<string>, a: seq<string>, b: seq<string>)
    ensures Fold(stack, a + b) == Fold(Fold(stack, a), b)
    decreases |a|
  {
    if a == [] {
      assert a + b == b;
    } else {
      assert (a + b)[1..] == a[1..] + b;
      FoldAppend(Push(stack, a[0]), a[1..], b);
    }
  }

  lemma {:induction false} FoldOfNormal(done: seq<string>, rest: seq<string>)
    requires Normal(done + rest)
    ensures Fold(done, rest) == done + rest
    decreases |rest|
  {
    if rest == [] {
      assert done + rest == done;
    } else {
      assert rest[0] == (done + rest)[|done|];
      assert (done + [rest[0]]) + rest[1..] == done + rest;
      FoldOfNormal(done + [rest[0]], rest[1..]);
    }
  }

  // ----- what normalising means -----

  // The plain stack meaning of a component list, without any limits.
  function Meaning(stack: seq<string>, cs: seq<string>): seq<string>
    decreases |cs|
  {
    if cs == [] then stack
    else if cs[0] == "." then Meaning(stack, cs[1..])
    else if cs[0] == ".." then Meaning(if stack == [] then [] else stack[..|stack| - 1], cs[1..])
    else Meaning(stack + [cs[0]], cs[1..])
  }

  // Depth reached while processing cs, and component sizes, stay within the limits.
  predicate Fits(depth: nat, cs: seq<string>)
    decreases |cs|
  {
    if cs == [] then true
    else if cs[0] == "." then Fits(depth, cs[1..])
    else if cs[0] == ".." then Fits(if depth == 0 then 0 else depth - 1, cs[1..])
    else depth < MAX_SEGS && |cs[0]| <= MAX_SEG && Fits(depth + 1, cs[1..])
  }

  lemma {:induction false} FoldIsMeaning(stack: seq<string>, cs: seq<string>)
    requires Fits(|stack|, cs)
    ensures Fold(stack, cs) == Meaning(stack, cs)
    decreases |cs|
  {
    if cs != [] {
      FoldIsMeaning(Push(stack, cs[0]), cs[1..]);
    }
  }

  // Components a full stack dropped and that no `..` has made up for: `..` first empties the
  // stack and only then reaches them.
  function LostAfter(kept: nat, lost: nat, cs: seq<string>): nat
    decreases |cs|
  {
    if cs == [] then lost
    else if cs[0] == "." then LostAfter(kept, lost, cs[1..])
    else if cs[0] == ".." then
      if kept > 0 then LostAfter(kept - 1, lost, cs[1..])
      else LostAfter(0, if lost > 0 then lost - 1 else 0, cs[1..])
    else if kept < MAX_SEGS then LostAfter(kept + 1, lost, cs[1..])
    else LostAfter(kept, lost + 1, cs[1..])
  }

  function Cuts(segs: seq<string>): (r: seq<string>)
    ensures |r| == |segs|
  {
    seq(|segs|, i requires 0 <= i < |segs| => Truncated(segs[i]))
  }

  // The bounded stack beside the unbounded one: as long as components are lost it is shorter by
  // their number, and otherwise it holds the same segments, cut.
  lemma {:induction false} FoldBeside(stack: seq<string>, full: seq<string>, lost: nat, cs: seq<string>)
    requires |stack| <= MAX_SEGS && |full| == |stack| + lost && (lost == 0 ==> stack == Cuts(full))
    ensures var l := LostAfter(|stack|, lost, cs);
            && |Meaning(full, cs)| == |Fold(stack, cs)| + l
            && (l == 0 ==> Fold(stack, cs) == Cuts(Meaning(full, cs)))
    decreases |cs|
  {
    if cs != [] {
      var stack' := Push(stack, cs[0]);
      if cs[0] == "." {
        FoldBeside(stack, full, lost, cs[1..]);
      } else if cs[0] == ".." {
        var full' := if full == [] then [] else full[..|full| - 1];
        FoldBeside(stack', full', if stack == [] && lost > 0 then lost - 1 else lost, cs[1..]);
      } else {
        FoldBeside(stack', full + [cs[0]], if |stack| < MAX_SEGS then lost else lost + 1, cs[1..]);
      }
    }
  }

  // Nothing is lost in the end and every segment that survives fits.
  predicate Survives(cs: seq<string>) {
    LostAfter(0, 0, cs) == 0 && forall i :: 0 <= i < |Meaning([], cs)| ==> |Meaning([], cs)[i]| <= MAX_SEG
  }

  lemma FoldIsMeaningIff(cs: seq<string>)
    ensures Fold([], cs) == Meaning([], cs) <==> Survives(cs)
  {
    FoldBeside([], [], 0, cs);
    var full := Meaning([], cs);
    if LostAfter(0, 0, cs) == 0 {
      forall i | 0 <= i < |full| ensures Cuts(full)[i] == full[i] <==> |full[i]| <= MAX_SEG {}
      if Cuts(full) == full { assert forall i :: 0 <= i < |full| ==> Cuts(full)[i] == full[i]; }
    }
  }

  // The components a path is folded from: a relative path continues an absolute base.
  function Components(base: string, path: string): seq<string> {
    if path != "" && path[0] == '/' then Split(path)
    else (if base != "" && base[0] == '/' then Split(base) else []) + Split(path)
  }

  function NormalPath(base: string, path: string): string { Join(Fold([], Components(base, path))) }

  lemma ComponentsClean(base: string, path: string)
    ensures Clean(Components(base, path))
  {}

  // The result is absolute and made of components none of which is empty, `.` or `..`.
  lemma NormalPathIsNormal(base: string, path: string)
    ensures var r := NormalPath(base, path); r != "" && r[0] == '/' && Normal(Split(r)) && r == Join(Split(r))
  {
    var cs := Components(base, path);
    ComponentsClean(base, path);
    FoldNormal([], cs);
    SplitJoin(Fold([], cs));
  }

  // Normalising a normal path changes nothing.
  lemma NormalPathIdempotent(base: string, path: string, other: string)
    ensures NormalPath(other, NormalPath(base, path)) == NormalPath(base, path)
  {
    NormalPathIsNormal(base, path);
    var r := NormalPath(base, path);
    FoldOfNormal([], Split(r));
    assert [] + Split(r) == Split(r);
  }

  // Against an absolute base, a relative path means the joined string.
  lemma RelativeIsJoined(base: string, path: string)
    requires base != "" && base[0] == '/' && (path == "" || path[0] != '/')
    ensures NormalPath(base, path) == NormalPath("", base + "/" + path)
  {
    SplitConcat(base, path);
  }

  // Normalising the base first makes no difference.
  lemma BaseMayBeNormal(base: string, path: string)
    requires base != "" && base[0] == '/'
    ensures NormalPath(NormalPath("", base), path) == NormalPath(base, path)
  {
    NormalPathIsNormal("", base);
    var segs := Fold([], Split(base));
    assert [] + Split(base) == Split(base);
    ComponentsClean("", base);
    FoldNormal([], Split(base));
    SplitJoin(segs);
    FoldOfNormal([], segs);
    assert [] + segs == segs;
    if path == "" || path[0] != '/' {
      FoldAppend([], Split(base), Split(path));
      FoldAppend([], segs, Split(path));
    }
  }

  // Within the limits the result is the unbounded stack meaning.
  lemma NormalPathMeaning(base: string, path: string)
    requires Fits(0, Components(base, path))
    ensures NormalPath(base, path) == Join(Meaning([], Components(base, path)))
  {
    FoldIsMeaning([], Components(base, path));
  }

  // For every path: it is that meaning exactly when nothing is lost and all that survives fits.
  lemma NormalPathMeaningIff(base: string, path: string)
    ensures NormalPath(base, path) == Join(Meaning([], Components(base, path))) <==> Survives(Components(base, path))
  {
    var cs := Components(base, path);
    ComponentsClean(base, path);
    FoldNormal([], cs);
    SplitJoin(Fold([], cs));
    MeaningClean([], cs);
    SplitJoin(Meaning([], cs));
    FoldIsMeaningIff(cs);
  }

  // n components `a`.
  function Names(n: nat): (cs: seq<string>)
    ensures |cs| == n && Clean(cs) && forall i :: 0 <= i < n ==> cs[i] == "a"
  {
    if n == 0 then [] else ["a"] + Names(n - 1)
  }

  lemma {:induction false} NamesLost(n: nat, kept: nat, rest: seq<string>)
    requires n > 0 && kept + n == MAX_SEGS + 1
    ensures LostAfter(kept, 0, Names(n) + rest) == LostAfter(MAX_SEGS, 1, rest)
  {
    var cs := Names(n) + rest;
    if n == 1 {
      assert cs[1..] == rest;
    } else {
      NamesLost(n - 1, kept + 1, rest);
      assert cs[1..] == Names(n - 1) + rest;
    }
  }

  // An absolute path whose components are names is its own normal form exactly when it has at most
  // 32 of them and none is longer than 63 characters.
  lemma OwnNormalForm(base: string, segs: seq<string>)
    requires Clean(segs) && segs != [] && forall i :: 0 <= i < |segs| ==> segs[i] != "." && segs[i] != ".."
    ensures NormalPath(base, Join(segs)) == Join(segs) <==>
            |segs| <= 32 && forall i :: 0 <= i < |segs| ==> |segs[i]| <= 63
  {
    assert Join(segs) != "" && Join(segs)[0] == '/';
    hide Split, Join;
    SplitJoin(segs);
    ComponentsClean(base, Join(segs));
    FoldNormal([], segs);
    SplitJoin(Fold([], segs));
    if Normal(segs) {
      FoldOfNormal([], segs);
      assert [] + segs == segs;
    }
  }

  // Thirty-three names and one `..` should leave thirty-two and leave thirty-one.
  lemma DeepPathFails()
    ensures var path := Join(Names(MAX_SEGS + 1) + [".."]);
            NormalPath("", path) != Join(Meaning([], Components("", path)))
  {
    var cs := Names(MAX_SEGS + 1) + [".."];
    SplitJoin(cs);
    assert Components("", Join(cs)) == cs;
    NamesLost(MAX_SEGS + 1, 0, [".."]);
    assert [".."][1..] == [];
    assert LostAfter(MAX_SEGS, 1, [".."]) == 1;
    NormalPathMeaningIff("", Join(cs));
  }

  lemma {:induction false} MeaningClean(stack: seq<string>, cs: seq<string>)
    requires Clean(stack) && Clean(cs)
    ensures Clean(Meaning(stack, cs))
    decreases |cs|
  {
    if cs == [] {
    } else if cs[0] == "." {
      MeaningClean(stack, cs[1..]);
    } else if cs[0] == ".." {
      MeaningClean(if stack == [] then [] else stack[..|stack| - 1], cs[1..]);
    } else {
      MeaningClean(stack + [cs[0]], cs[1..]);
    }
  }

  lemma {:induction false} JoinAppend(a: seq<string>, b: seq<string>)
    requires a != []
    ensures Join(a + b) == Join(a) + if b == [] then "" else Join(b)
  {
    if b == [] {
      assert a + b == a;
    } else if |a| == 1 {
      assert (a + b)[1..] == b;
    } else {
      JoinAppend(a[1..], b);
      assert (a + b)[1..] == a[1..] + b;
    }
  }

  // ----- lengths -----

  function Size(segs: seq<string>): nat { if segs == [] then 0 else 1 + |segs[0]| + Size(segs[1..]) }

  lemma {:induction false} JoinSize(segs: seq<string>)
    ensures |Join(segs)| == if segs == [] then 1 else Size(segs)
  {
    if |segs| > 1 { JoinSize(segs[1..]); }
  }

  lemma {:induction false} SizeAppend(a: seq<string>, b: seq<string>)
    ensures Size(a + b) == Size(a) + Size(b)
  {
    if a == [] {
      assert a + b == b;
    } else {
      SizeAppend(a[1..], b);
      assert (a + b)[1..] == a[1..] + b;
    }
  }

  lemma {:induction false} FoldSize(stack: seq<string>, cs: seq<string>)
    ensures Size(Fold(stack, cs)) <= Size(stack) + Size(cs)
    decreases |cs|
  {
    if cs != [] {
      FoldSize(Push(stack, cs[0]), cs[1..]);
      if stack != [] {
        SizeAppend(stack[..|stack| - 1], stack[|stack| - 1..]);
        assert stack[..|stack| - 1] + stack[|stack| - 1..] == stack;
      }
      SizeAppend(stack, [Truncated(cs[0])]);
    }
  }

  lemma {:induction false} SplitSize(s: string)
    ensures Size(Split(s)) <= |s| + 1 && (s != "" && s[0] == '/' ==> Size(Split(s)) <= |s|)
    decreases |s|
  {
    if s != "" && s[0] == '/' {
      SplitSize(s[1..]);
    } else if s != "" {
      var n := SegLen(s);
      SplitSize(s[n..]);
      assert Split(s)[1..] == Split(s[n..]);
    }
  }

  // Normalising an absolute path does not make it longer.
  lemma NormalPathShorter(base: string, path: string)
    requires path != "" && path[0] == '/'
    ensures |NormalPath(base, path)| <= |path|
  {
    SplitSize(path);
    FoldSize([], Split(path));
    JoinSize(Fold([], Split(path)));
  }

  // ----- the loops -----

  function Skip(p: string): string { if p != "" && p[0] == '/' then Skip(p[1..]) else p }

  lemma {:induction false} SplitSkip(p: string)
    ensures Split(Skip(p)) == Split(p) && |Skip(p)| <= |p|
    ensures forall i :: 0 <= i < |p| - |Skip(p)| ==> p[i] == '/'
  {
    if p != "" && p[0] == '/' { SplitSkip(p[1..]); }
  }

  // Walks a string, folding its components onto the stack.
  method ParseInto(segs: seq<string>, s: string) returns (r: seq<string>)
    ensures r == Fold(segs, Split(s))
  {
    r := segs;
    var p := Skip(s);
    SplitSkip(s);
    SkipStops(s);
    while p != ""
      invariant Fold(r, Split(p)) == Fold(segs, Split(s))
      invariant p == "" || p[0] != '/'
      decreases |p|
    {
      var len := 0;
      while len < |p| && p[len] != '/'
        invariant 0 <= len <= |p| && forall i :: 0 <= i < len ==> p[i] != '/'
      {
        len := len + 1;
      }
      SegLenIs(p, len);
      var c := p[..len];
      if len == 1 && c[0] == '.' {
      } else if len == 2 && c[0] == '.' && c[1] == '.' {
        if |r| > 0 { r := r[..|r| - 1]; }
      } else {
        r := PushSeg(r, c);
      }
      SplitSkip(p[len..]);
      SkipStops(p[len..]);
      p := Skip(p[len..]);
    }
  }

  lemma {:induction false} SkipStops(p: string)
    ensures Skip(p) == "" || Skip(p)[0] != '/'
  {
    if p != "" && p[0] == '/' { SkipStops(p[1..]); }
  }

  method PushSeg(segs: seq<string>, c: string) returns (r: seq<string>)
    requires c != "" && c != "." && c != ".."
    ensures r == Push(segs, c)
  {
    if |segs| >= MAX_SEGS { return segs; }
    var len := if |c| >= MAX_SEG + 1 then MAX_SEG else |c|;
    assert c[..len] == Truncated(c);
    r := segs + [c[..len]];
  }

  datatype Outcome = Ok(path: string) | Overflow

  // Normalises into a buffer of `size` characters, one of them the terminator.
  method NormalizePath(base: string, path: string, size: nat) returns (r: Outcome)
    ensures r == if |NormalPath(base, path)| < size then Ok(NormalPath(base, path)) else Overflow
  {
    var segs := [];
    if path != "" && path[0] == '/' {
      segs := ParseInto(segs, path);
    } else {
      var b := if base != "" then base else "/";
      if b[0] == '/' { segs := ParseInto(segs, b); }
      assert segs == Fold([], if base != "" && base[0] == '/' then Split(base) else []);
      FoldAppend([], if base != "" && base[0] == '/' then Split(base) else [], Split(path));
      segs := ParseInto(segs, path);
    }
    r := WriteOut(segs, size);
  }

  // What has been written once segments 0..i are out, with the slash after the last of them.
  function Prefix(segs: seq<string>, i: nat): string
    requires i <= |segs|
  {
    if i == 0 then "/" else Prefix(segs, i - 1) + segs[i - 1] + (if i < |segs| then "/" else "")
  }

  lemma {:induction false} PrefixMono(segs: seq<string>, i: nat, j: nat)
    requires i <= j <= |segs|
    ensures |Prefix(segs, i)| <= |Prefix(segs, j)|
  {
    if i < j { PrefixMono(segs, i, j - 1); }
  }

  lemma {:induction false} PrefixCons(segs: seq<string>, i: nat)
    requires |segs| > 1 && 0 < i <= |segs|
    ensures Prefix(segs, i) == "/" + segs[0] + Prefix(segs[1..], i - 1)
  {
    if i > 1 {
      PrefixCons(segs, i - 1);
      assert segs[1..][i - 2] == segs[i - 1];
    }
  }

  lemma {:induction false} PrefixFull(segs: seq<string>)
    requires segs != []
    ensures Prefix(segs, |segs|) == Join(segs)
    decreases |segs|
  {
    if |segs| == 1 {
      assert Prefix(segs, 0) + segs[0] + "" == "/" + segs[0];
    } else {
      PrefixFull(segs[1..]);
      PrefixCons(segs, |segs|);
    }
  }

  method WriteOut(segs: seq<string>, size: nat) returns (r: Outcome)
    ensures r == if |Join(segs)| < size then Ok(Join(segs)) else Overflow
  {
    if size == 0 { return Overflow; }
    var out := "/";
    if segs == [] {
      return if |out| < size then Ok(out) else Overflow;
    }
    PrefixFull(segs);
    for i := 0 to |segs|
      invariant out == Prefix(segs, i)
    {
      PrefixMono(segs, i + 1, |segs|);
      if |out| + |segs[i]| >= size { return Overflow; }
      out := out + segs[i];
      if i != |segs| - 1 {
        if |out| + 1 >= size { return Overflow; }
        out := out + "/";
      }
    }
    r := if |out| >= size then Overflow else Ok(out);
  }
}
