/**
 Resolving an absolute path to a node: the longest matching mount, component lookups, symbolic
 links up to a depth limit, and the node references taken and given back on the way.
 */
module VfsResolve {
  import opened Basics
  import opened VfsPath

  type Node = nat

  datatype Mount = Mount(point: string, root: Node)

  // How a directory answers a lookup, and what a found node says about being a link.
  datatype Link = NotLink | NoReadlink | Unreadable | Target(text: string)
  datatype Reply = NoFinddir | Missing | Child(node: Node, link: Link)

  // File systems may answer differently every time they are asked.
  type Lookup = (nat, Node, string) -> Reply

  const MAX_DEPTH: nat := 8
  const TARGET_MAX: nat := 511
  const PATH_MAX: nat := 1023

  // ----- mounts -----

  // A mount point covers a path that equals it or continues with a slash.
  predicate Covers(m: Mount, path: string) {
    && m.point != "" && |m.point| <= |path| && path[..|m.point|] == m.point
    && (|path| == |m.point| || path[|m.point|] == '/')
  }

  // A mount on "/" covers only the path "/" and those that begin with two slashes.
  lemma RootCovers(root: Node, path: string)
    ensures Covers(Mount("/", root), path) <==> path == "/" || (|path| >= 2 && path[..2] == "//")
  {
    if |path| >= 2 { assert path[..2] == [path[0], path[1]]; }
    if |path| >= 1 { assert path[..1] == [path[0]]; }
  }

  // Among paths in normal form, a mount point covers those that its components begin.
  lemma CoversIsPrefix(root: Node, a: seq<string>, b: seq<string>)
    requires Clean(a) && Clean(b) && a != []
    ensures Covers(Mount(Join(a), root), Join(b)) <==> a <= b
  {
    hide Split, Join;
    var point, path := Join(a), Join(b);
    JoinStarts(a);
    SplitJoin(a);
    SplitJoin(b);
    if Covers(Mount(point, root), path) {
      SplitAt(path, |point|);
    }
    if a <= b {
      var c := b[|a|..];
      assert a + c == b;
      JoinAppend(a, c);
      JoinStarts(c);
    }
  }

  lemma JoinStarts(segs: seq<string>)
    ensures Join(segs) != "" && Join(segs)[0] == '/'
  {}

  lemma SplitAt(path: string, n: nat)
    requires n <= |path| && (n == |path| || path[n] == '/')
    ensures Split(path) == Split(path[..n]) + Split(path[n..])
  {
    hide Split;
    SplitNothing();
    if n == |path| {
      assert path[..n] == path && path[n..] == "";
    } else {
      var a, b := path[..n], path[n + 1..];
      assert path == a + "/" + b && path[n..] == "" + "/" + b;
      SplitConcat(a, b);
      SplitConcat("", b);
    }
  }

  lemma SplitNothing()
    ensures Split("") == []
  {}

  // The longest covering mount point, the first in the list among equals.
  function Best(mounts: seq<Mount>, path: string): Option<Mount> {
    if mounts == [] then None
    else
      var m, b := mounts[|mounts| - 1], Best(mounts[..|mounts| - 1], path);
      if Covers(m, path) && (b.None? || |m.point| > |b.value.point|) then Some(m) else b
  }

  lemma {:induction false} BestIsLongest(mounts: seq<Mount>, path: string)
    ensures var b := Best(mounts, path);
            && (b.None? <==> forall i :: 0 <= i < |mounts| ==> !Covers(mounts[i], path))
            && (b.Some? ==> b.value in mounts && Covers(b.value, path)
                            && forall i :: 0 <= i < |mounts| && Covers(mounts[i], path) ==>
                                 |mounts[i].point| <= |b.value.point|)
    // and the first of that length
    ensures var b := Best(mounts, path);
            b.Some? ==> exists k :: 0 <= k < |mounts| && mounts[k] == b.value
                                    && forall i :: 0 <= i < k && Covers(mounts[i], path) ==>
                                         |mounts[i].point| < |b.value.point|
  {
    if mounts != [] {
      var init := mounts[..|mounts| - 1];
      BestIsLongest(init, path);
      assert forall i :: 0 <= i < |init| ==> mounts[i] == init[i];
    }
  }

  method FindMount(mounts: seq<Mount>, path: string) returns (best: Option<Mount>)
    ensures best == Best(mounts, path)
  {
    best := None;
    var bestLen := 0;
    for j := 0 to |mounts|
      invariant best == Best(mounts[..j], path)
      invariant bestLen == if best.None? then 0 else |best.value.point|
    {
      assert mounts[..j + 1][..j] == mounts[..j];
      if Covers(mounts[j], path) && |mounts[j].point| > bestLen {
        best, bestLen := Some(mounts[j]), |mounts[j].point|;
      }
    }
    assert mounts[..|mounts|] == mounts;
  }

  // ----- composing the path behind a link -----

  function Cut(s: string, n: nat): (r: string)
    ensures r <= s && |r| == if |s| > n then n else |s|
  {
    if |s| > n then s[..n] else s
  }

  // `at` is where the link's own component starts in `path`, `rest` what follows it.
  function Composed(path: string, at: nat, target: string, rest: string): string
    requires at <= |path|
  {
    var dir := Cut(path[..at], PATH_MAX);
    var slashed := if (dir == "" || dir[|dir| - 1] != '/') && |dir| < PATH_MAX then dir + "/" else dir;
    var head := if target != "" && target[0] == '/' then Cut(target, PATH_MAX) else Cut(slashed + target, PATH_MAX);
    if rest == "" then head
    else
      var joined := if head != "" && head[|head| - 1] != '/' then Cut(head + "/", PATH_MAX) else head;
      Cut(joined + rest, PATH_MAX)
  }

  // What follows a link, after its text.
  function Onward(text: string, rest: string): string {
    if rest == "" then text else if text == "" then rest else text + "/" + rest
  }

  // The composed path without any limit, apart from where slashes are doubled.
  function Spelled(path: string, at: nat, target: string, rest: string): string
    requires at <= |path|
  {
    var dir := path[..at];
    var head := if target != "" && target[0] == '/' then target
                else if dir == "" || dir[|dir| - 1] != '/' then dir + "/" + target
                else dir + target;
    if rest == "" then head else if head[|head| - 1] != '/' then head + "/" + rest else head + rest
  }

  lemma CutTwice(a: string, b: string)
    ensures Cut(Cut(a, PATH_MAX) + b, PATH_MAX) == Cut(a + b, PATH_MAX)
  {
    if |a| > PATH_MAX {
      assert (a + b)[..PATH_MAX] == a[..PATH_MAX];
      assert (Cut(a, PATH_MAX) + b)[..PATH_MAX] == a[..PATH_MAX];
    }
  }

  // For every length: the composed path is the first 1023 characters of the whole one.
  lemma ComposedIsCut(path: string, at: nat, target: string, rest: string)
    requires at <= |path|
    ensures Composed(path, at, target, rest) == Cut(Spelled(path, at, target, rest), 1023)
  {
    hide Cut;
    var whole := Spelled(path, at, target, "");
    HeadIsCut(path, at, target);
    if rest != "" {
      var head := Cut(whole, PATH_MAX);
      if |whole| <= PATH_MAX {
        assert head == whole;
        CutTwice(whole + "/", rest);
        CutTwice(whole, rest);
      } else {
        assert |head| == PATH_MAX;
        CutFull(head, "/");
        CutFull(head, rest);
        CutLonger(whole, "/" + rest);
        CutLonger(whole, rest);
        assert whole + ("/" + rest) == whole + "/" + rest;
      }
    }
  }

  lemma CutFull(a: string, b: string)
    requires |a| == PATH_MAX
    ensures Cut(a + b, PATH_MAX) == a
  {
    assert (a + b)[..PATH_MAX] == a;
  }

  lemma CutLonger(a: string, b: string)
    requires |a| >= PATH_MAX
    ensures Cut(a + b, PATH_MAX) == Cut(a, PATH_MAX)
  {
    assert (a + b)[..PATH_MAX] == a[..PATH_MAX];
  }

  lemma HeadIsCut(path: string, at: nat, target: string)
    requires at <= |path|
    ensures Composed(path, at, target, "") == Cut(Spelled(path, at, target, ""), PATH_MAX)
  {
    var dir := path[..at];
    if |dir| >= PATH_MAX && (target == "" || target[0] != '/') {
      CutLonger(dir, "/" + target);
      CutLonger(dir, target);
      CutFull(Cut(dir, PATH_MAX), target);
      assert dir + ("/" + target) == dir + "/" + target;
    }
  }

  // ----- the plain meaning -----

  // The components the walk looks up: it stops at an empty one.
  function Steps(p: string): seq<string>
    decreases |p|
  {
    if p == "" || p[0] == '/' then []
    else
      var n := SegLen(p);
      [Cut(p[..n], MAX_SEG)] + Steps(if n < |p| then p[n + 1..] else "")
  }

  // Where a walk starts and what is left to walk.
  function Entry(mounts: seq<Mount>, root: Option<Node>, path: string): Option<(Node, string)>
    requires path != ""
  {
    match Best(mounts, path)
    case None => if root.None? then None else Some((root.value, path[1..]))
    case Some(m) =>
      if |m.point| <= 1 then Some((m.root, path[1..]))
      else if |m.point| <= |path| then Some((m.root, Skip(path[|m.point|..])))
      else None
  }

  // What is left to walk are the components of the path after those of the mount point, without
  // a leading slash unless the walk starts at the root.
  lemma EntrySplits(mounts: seq<Mount>, root: Option<Node>, path: string)
    requires path != "" && path[0] == '/'
    ensures match Best(mounts, path)
            case None => Entry(mounts, root, path) == if root.None? then None else Some((root.value, path[1..]))
            case Some(m) =>
              && Entry(mounts, root, path).Some?
              && var (n, rest) := Entry(mounts, root, path).value;
                 && n == m.root && Split(path) == Split(m.point) + Split(rest)
                 && (m.point == "/" ==> rest == path[1..]) && (m.point != "/" ==> rest == "" || rest[0] != '/')
  {
    hide Split;
    BestIsLongest(mounts, path);
    match Best(mounts, path)
    case None =>
    case Some(m) =>
      var tail := path[|m.point|..];
      SplitAt(path, |m.point|);
      SplitSkip(tail);
      SkipStops(tail);
      if |m.point| <= 1 { assert m.point == "/"; }
  }

  lemma StepsCons(c: string, rest: string)
    requires c != "" && '/' !in c && |c| <= 63 && (rest == "" || rest[0] == '/')
    ensures Steps(c + rest) == [c] + Steps(if rest == "" then "" else rest[1..])
  {
    var s, n := c + rest, |c|;
    SegLenIs(s, n);
    hide SegLen;
    assert s != "" && s[0] == c[0] && s[..n] == c;
    if rest != "" { assert s[n + 1..] == rest[1..]; }
  }

  lemma JoinTail(segs: seq<string>)
    requires segs != []
    ensures Join(segs) != "" && Join(segs)[1..] == segs[0] + if |segs| == 1 then "" else Join(segs[1..])
  {
    var tail := if |segs| == 1 then "" else Join(segs[1..]);
    assert Join(segs) == "/" + segs[0] + tail;
    assert "/" + segs[0] + tail == "/" + (segs[0] + tail);
  }

  lemma {:induction false} StepsJoined(segs: seq<string>)
    requires segs != [] && Clean(segs) && forall i :: 0 <= i < |segs| ==> |segs[i]| <= 63
    ensures Join(segs) != "" && Steps(Join(segs)[1..]) == segs
    decreases |segs|
  {
    hide Steps, Join;
    JoinTail(segs);
    if |segs| == 1 {
      StepsCons(segs[0], "");
      NoComponents();
      assert segs == [segs[0]] + [];
    } else {
      StepsJoined(segs[1..]);
      JoinStarts(segs[1..]);
      StepsCons(segs[0], Join(segs[1..]));
      assert segs == [segs[0]] + segs[1..];
    }
  }

  lemma NoComponents()
    ensures Steps("") == []
  {}

  // In a tree without links, a path in normal form leads where looking up its components one
  // after another leads, from the root of the longest mount that covers it on.
  lemma NormalPathWalk(mounts: seq<Mount>, root: Option<Node>, fs: Lookup, segs: seq<string>, depth: nat, nofollow: bool,
                       a: seq<string>)
    requires NoLinks(fs) && depth <= MAX_DEPTH + 1 && Normal(segs) && Clean(a)
    requires Best(mounts, Join(segs)).Some? ==> Best(mounts, Join(segs)).value.point == Join(a)
    ensures match Best(mounts, Join(segs))
            case None =>
              Meant(mounts, root, fs, Join(segs), depth, nofollow) == if root.None? then None else WalkFrom(fs, root.value, segs)
            case Some(m) =>
              a <= segs && Meant(mounts, root, fs, Join(segs), depth, nofollow) == WalkFrom(fs, m.root, segs[|a|..])
  {
    hide Meant, WalkFrom, Steps, Best, NoLinks, Split, Join;
    var path := Join(segs);
    JoinStarts(segs);
    PlainMeaning(mounts, root, fs, path, depth, nofollow);
    BestIsLongest(mounts, path);
    StepsOf(segs);
    match Best(mounts, path)
    case None =>
    case Some(m) =>
      if a == [] {
        RootOnly(m.root, segs);
        assert segs[|a|..] == segs;
      } else {
        CoversIsPrefix(m.root, a, segs);
        BehindMount(a, segs);
      }
  }

  lemma StepsOf(segs: seq<string>)
    requires Normal(segs)
    ensures Join(segs) != "" && Steps(Join(segs)[1..]) == segs
  {
    if segs != [] { StepsJoined(segs); }
  }

  // A mount on "/" covers no other path in normal form.
  lemma RootOnly(root: Node, segs: seq<string>)
    requires Normal(segs) && Covers(Mount(Join([]), root), Join(segs))
    ensures segs == [] && Join([]) == "/"
  {
    RootCovers(root, Join(segs));
    if segs != [] { SecondChar(segs); }
  }

  lemma SecondChar(segs: seq<string>)
    requires segs != [] && Normal(segs)
    ensures |Join(segs)| > 1 && Join(segs)[1] != '/' && Join(segs)[..2][1] == Join(segs)[1]
  {
    hide Join;
    JoinTail(segs);
    assert segs[0] != "" && segs[0][0] in segs[0];
    assert Join(segs)[1..][0] == segs[0][0];
  }

  // What follows a mount point in a path in normal form.
  lemma BehindMount(a: seq<string>, segs: seq<string>)
    requires a != [] && a <= segs && Normal(segs)
    ensures 1 < |Join(a)| <= |Join(segs)|
    ensures Steps(Skip(Join(segs)[|Join(a)|..])) == segs[|a|..]
  {
    hide Join, Steps, Plain, Skip;
    var c := segs[|a|..];
    NormalParts(segs, |a|);
    assert a == segs[..|a|] && a + c == segs;
    JoinAppend(a, c);
    SecondChar(a);
    if c == [] {
      NoComponents();
      SkipOne("");
      assert Join(segs)[|Join(a)|..] == "";
    } else {
      SecondChar(c);
      JoinStarts(c);
      SkipOne(Join(c));
      StepsOf(c);
      assert Join(segs)[|Join(a)|..] == Join(c);
    }
  }

  lemma NormalParts(segs: seq<string>, n: nat)
    requires Normal(segs) && n <= |segs|
    ensures Normal(segs[..n]) && Normal(segs[n..])
  {}

  lemma SkipOne(s: string)
    requires s == "" || (s[0] == '/' && |s| > 1 && s[1] != '/')
    ensures Skip(s) == if s == "" then "" else s[1..]
  {
    if s != "" { assert s[1..][0] == s[1]; }
  }

  // With a file system mounted on "/", "/a" is still looked up from the root node, or not at all.
  lemma RootMountMissed(mounted: Node, root: Option<Node>)
    ensures !Covers(Mount("/", mounted), "/a")
    ensures Entry([Mount("/", mounted)], root, "/a") == if root.None? then None else Some((root.value, "a"))
  {
    RootCovers(mounted, "/a");
    BestIsLongest([Mount("/", mounted)], "/a");
    assert "/a"[1..] == "a";
  }

  function Plainly(mounts: seq<Mount>, root: Option<Node>, path: string, fs: Lookup): Option<Node> {
    if path == "" || path[0] != '/' then None
    else match Entry(mounts, root, path)
      case None => None
      case Some((n, rest)) => WalkFrom(fs, n, Steps(rest))
  }

  // Looking up components one after another.
  function WalkFrom(fs: Lookup, node: Node, cs: seq<string>): Option<Node>
    decreases |cs|
  {
    if cs == [] then Some(node)
    else match fs(0, node, cs[0])
      case Child(n, _) => WalkFrom(fs, n, cs[1..])
      case _ => None
  }

  // A tree that does not change.
  ghost predicate Steady(fs: Lookup) { forall t, n, c :: fs(t, n, c) == fs(0, n, c) }

  ghost predicate NoLinks(fs: Lookup) { forall n, c :: fs(0, n, c).Child? ==> fs(0, n, c).link.NotLink? }

  // ----- the meaning with links -----

  // Position after the component that starts at p.
  function EndOf(path: string, p: nat): (end: nat)
    requires p <= |path|
    ensures p <= end <= |path| && (end < |path| ==> path[end] == '/') && forall i :: p <= i < end ==> path[i] != '/'
  {
    assert forall i :: 0 <= i < SegLen(path[p..]) ==> path[p + i] == path[p..][i];
    p + SegLen(path[p..])
  }

  function After(path: string, end: nat): (p: nat)
    requires end <= |path|
    ensures end <= p <= |path| && (end < |path| ==> p == end + 1)
  {
    if end < |path| then end + 1 else end
  }

  lemma AfterIs(path: string, end: nat)
    requires end <= |path|
    ensures After(path, end) == if end < |path| then end + 1 else end
  {}

  // The path to go on with behind the link found as path[p..end], if it fits.
  function Redirected(path: string, p: nat, end: nat, text: string): Option<string>
    requires p <= end <= |path|
  {
    var norm := NormalPath("/", Composed(path, p, Cut(text, TARGET_MAX), Skip(path[end..])));
    if |norm| <= PATH_MAX then Some(norm) else None
  }

  // What a path means from a depth of followed links on.
  function Meant(mounts: seq<Mount>, root: Option<Node>, fs: Lookup, path: string, depth: nat,
                 nofollow: bool): Option<Node>
    requires depth <= MAX_DEPTH + 1
    decreases MAX_DEPTH + 1 - depth, |path| + 2
  {
    if path == "" || path[0] != '/' then None
    else match Entry(mounts, root, path)
      case None => None
      case Some((n, rest)) =>
        if |rest| <= |path| then Walk(mounts, root, fs, n, path, |path| - |rest|, depth, nofollow) else None
  }

  // What a child found as path[p..end] decides: nothing, so that the walk goes on from it, or the
  // whole answer.
  function Crossing(mounts: seq<Mount>, root: Option<Node>, fs: Lookup, path: string, p: nat, end: nat, link: Link,
                    depth: nat, nofollow: bool): Option<Option<Node>>
    requires depth <= MAX_DEPTH + 1 && p <= end <= |path|
    decreases MAX_DEPTH + 1 - depth, 0
  {
    if link.NotLink? || (nofollow && end == |path|) then None
    else if depth > MAX_DEPTH then Some(None)
    else match link
      case Unreadable => Some(None)
      case Target(text) =>
        var to := Redirected(path, p, end, text);
        Some(if to.None? then None else Meant(mounts, root, fs, to.value, depth + 1, false))
      case _ => None
  }

  // The walk of path[p..] from a node.
  function Walk(mounts: seq<Mount>, root: Option<Node>, fs: Lookup, node: Node, path: string, p: nat, depth: nat,
                nofollow: bool): Option<Node>
    requires depth <= MAX_DEPTH + 1 && p <= |path|
    decreases MAX_DEPTH + 1 - depth, |path| - p + 1
  {
    var end := EndOf(path, p);
    if end == p then Some(node)
    else match fs(0, node, Cut(path[p..end], MAX_SEG))
      case Child(n, link) =>
        (match Crossing(mounts, root, fs, path, p, end, link, depth, nofollow)
         case None => Walk(mounts, root, fs, n, path, After(path, end), depth, nofollow)
         case Some(r) => r)
      case _ => None
  }

  // ----- where a link leads -----

  lemma SplitSlashed(a: string, b: string)
    requires a != "" && a[|a| - 1] == '/'
    ensures Split(a + b) == Split(a) + Split(b)
  {
    hide Split;
    var d := a[..|a| - 1];
    assert a == d + "/" + "" && a + b == d + "/" + b;
    SplitConcat(d, "");
    SplitConcat(d, b);
    SplitNothing();
  }

  lemma OnwardSplit(text: string, rest: string)
    ensures Split(Onward(text, rest)) == Split(text) + Split(rest)
  {
    hide SegLen;
    SplitConcat(text, rest);
  }

  lemma SpelledSplit(path: string, at: nat, target: string, rest: string)
    requires at <= |path|
    ensures var whole, relative := Spelled(path, at, target, rest), target == "" || target[0] != '/';
            Split(whole) == (if relative then Split(path[..at]) else []) + Split(target) + Split(rest)
  {
    hide Split;
    var dir, head := path[..at], Spelled(path, at, target, "");
    SplitNothing();
    SplitConcat(dir, target);
    SplitConcat(head, rest);
    if dir != "" && dir[|dir| - 1] == '/' { SplitSlashed(dir, target); }
    if head[|head| - 1] == '/' { SplitSlashed(head, rest); }
  }

  lemma SpelledAbsolute(path: string, at: nat, target: string, rest: string)
    requires at <= |path| && path != "" && path[0] == '/'
    ensures Spelled(path, at, target, rest) != "" && Spelled(path, at, target, rest)[0] == '/'
  {}

  // Whatever the lengths, a link leads somewhere: to the normal form of the first 1023 characters
  // of the directory's path, the first 511 of the text, and what follows the link.
  lemma LinkLeads(path: string, p: nat, end: nat, text: string)
    requires path != "" && path[0] == '/' && p <= end <= |path|
    ensures var whole := Spelled(path, p, if |text| > 511 then text[..511] else text, Skip(path[end..]));
            Redirected(path, p, end, text) == Some(NormalPath("/", if |whole| > 1023 then whole[..1023] else whole))
  {
    hide NormalPath, Composed, Spelled, Skip;
    var t, rest := Cut(text, TARGET_MAX), Skip(path[end..]);
    ComposedIsCut(path, p, t, rest);
    SpelledAbsolute(path, p, t, rest);
    NormalPathShorter("/", Composed(path, p, t, rest));
  }

  // A relative link leads on from its own directory and an absolute one from the root.
  lemma LinkTarget(path: string, p: nat, end: nat, text: string)
    requires path != "" && path[0] == '/' && p <= end <= |path| && |text| <= 511
    requires p + |text| + |Skip(path[end..])| + 2 <= 1023
    ensures var from := if text != "" && text[0] == '/' then "/" else path[..p];
            Redirected(path, p, end, text) == Some(NormalPath(from, Onward(text, Skip(path[end..]))))
  {
    hide NormalPath, Composed, Skip, Split;
    var rest := Skip(path[end..]);
    LinkLeads(path, p, end, text);
    var whole := Spelled(path, p, text, rest);
    SpelledAbsolute(path, p, text, rest);
    SpelledSplit(path, p, text, rest);
    SkipStops(path[end..]);
    SameNormal(path, p, text, rest, whole);
  }

  lemma SameNormal(path: string, p: nat, text: string, rest: string, whole: string)
    requires path != "" && path[0] == '/' && p <= |path| && (rest == "" || rest[0] != '/')
    requires whole != "" && whole[0] == '/'
    requires Split(whole) == (if text == "" || text[0] != '/' then Split(path[..p]) else []) + Split(text) + Split(rest)
    ensures var from := if text != "" && text[0] == '/' then "/" else path[..p];
            NormalPath("/", whole) == NormalPath(from, Onward(text, rest))
  {
    hide Fold, Join, Split, Onward, Components;
    OnwardSplit(text, rest);
    OnwardStart(text, rest);
    ComponentsOf("/", whole);
    if text == "" || text[0] != '/' {
      ComponentsOf(path[..p], Onward(text, rest));
      Regroup(Split(path[..p]), Split(text), Split(rest));
    } else {
      ComponentsOf("/", Onward(text, rest));
      Regroup([], Split(text), Split(rest));
    }
  }

  lemma ComponentsOf(base: string, path: string)
    requires base == "" || base[0] == '/'
    ensures Components(base, path) == if path != "" && path[0] == '/' then Split(path) else Split(base) + Split(path)
  {
    SplitNothing();
  }

  lemma Regroup(a: seq<string>, b: seq<string>, c: seq<string>)
    ensures a + b + c == a + (b + c) && (a == [] ==> a + b + c == b + c)
  {}

  lemma OnwardStart(text: string, rest: string)
    requires rest == "" || rest[0] != '/'
    ensures var o := Onward(text, rest); o != "" && o[0] == '/' <==> text != "" && text[0] == '/'
  {}

  // A link `l` in /a with text `b` leads to /a/b, and one with text `/b` to /b.
  lemma LinkInDirectory()
    ensures Redirected("/a/l", 3, 4, "b") == Some("/a/b")
    ensures Redirected("/a/l", 3, 4, "/b") == Some("/b")
  {
    hide Split, Redirected, Fold;
    LinkTarget("/a/l", 3, 4, "b");
    LinkTarget("/a/l", 3, 4, "/b");
    assert "/a/l"[..3] == "/a/" && "/a/l"[4..] == "";
    assert Skip("") == "";
    SplitNames();
    FoldNames();
    assert ["a"] + ["b"] == ["a", "b"] && ["a", "b"][1..] == ["b"];
    assert Join(["b"]) == "/b" && Join(["a", "b"]) == "/a/b";
    assert NormalPath("/a/", "b") == "/a/b" && NormalPath("/", "/b") == "/b";
  }

  lemma FoldNames()
    ensures Fold([], ["a", "b"]) == ["a", "b"] && Fold([], ["b"]) == ["b"]
  {
    assert Normal(["a", "b"]) && Normal(["b"]);
    FoldOfNormal([], ["a", "b"]);
    FoldOfNormal([], ["b"]);
    assert [] + ["a", "b"] == ["a", "b"] && [] + ["b"] == ["b"];
  }

  lemma SplitName(c: string)
    requires c != "" && '/' !in c
    ensures Split(c) == [c]
  {
    SegLenIs(c, |c|);
    assert c[..|c|] == c && c[|c|..] == "";
  }

  lemma SplitNames()
    ensures Split("/a/") == ["a"] && Split("b") == ["b"] && Split("/b") == ["b"]
  {
    hide Split;
    SplitNothing();
    SplitName("a");
    SplitName("b");
    SplitConcat("", "b");
    SplitConcat("", "a/");
    SplitConcat("a", "");
    assert "" + "/" + "b" == "/b" && "" + "/" + "a/" == "/a/" && "a" + "/" + "" == "a/";
  }

  // Without links it is the walk of the components one by one.
  lemma {:induction false} WalkIsPlain(mounts: seq<Mount>, root: Option<Node>, fs: Lookup, node: Node, path: string,
                                       p: nat, depth: nat, nofollow: bool)
    requires NoLinks(fs) && depth <= MAX_DEPTH + 1 && p <= |path|
    ensures Walk(mounts, root, fs, node, path, p, depth, nofollow) == WalkFrom(fs, node, Steps(path[p..]))
    decreases |path| - p
  {
    var end := EndOf(path, p);
    var reply := fs(0, node, Cut(path[p..end], MAX_SEG));
    assert reply.Child? ==> reply.link.NotLink?;
    hide *;
    WalkStep(mounts, root, fs, node, path, p, depth, nofollow);
    PlainStep(fs, node, path, p);
    if end > p && reply.Child? {
      NotCrossing(mounts, root, fs, path, p, end, depth, nofollow);
      WalkIsPlain(mounts, root, fs, reply.node, path, After(path, end), depth, nofollow);
    }
  }

  lemma PlainStep(fs: Lookup, node: Node, path: string, p: nat)
    requires p <= |path|
    ensures var end, w := EndOf(path, p), WalkFrom(fs, node, Steps(path[p..]));
            if end == p then w == Some(node)
            else
              var reply := fs(0, node, Cut(path[p..end], MAX_SEG));
              w == if reply.Child? then WalkFrom(fs, reply.node, Steps(path[After(path, end)..])) else None
  {
    var end := EndOf(path, p);
    if end > p {
      hide *;
      NextStep(path, p, end);
      WalkFromCons(fs, node, Cut(path[p..end], MAX_SEG), Steps(path[After(path, end)..]));
    } else {
      NoSteps(path, p);
    }
  }

  lemma NoSteps(path: string, p: nat)
    requires p <= |path| && EndOf(path, p) == p
    ensures Steps(path[p..]) == []
  {
    if p < |path| { assert path[p..][0] == '/'; }
  }

  lemma WalkFromCons(fs: Lookup, node: Node, c: string, cs: seq<string>)
    ensures var reply := fs(0, node, c);
            WalkFrom(fs, node, [c] + cs) == if reply.Child? then WalkFrom(fs, reply.node, cs) else None
  {
    assert ([c] + cs)[1..] == cs;
  }

  lemma SteadyAt(fs: Lookup, t: nat, n: Node, c: string)
    ensures Steady(fs) ==> fs(t, n, c) == fs(0, n, c)
  {}

  lemma NotCrossing(mounts: seq<Mount>, root: Option<Node>, fs: Lookup, path: string, p: nat, end: nat, depth: nat,
                    nofollow: bool)
    requires depth <= MAX_DEPTH + 1 && p <= end <= |path|
    ensures Crossing(mounts, root, fs, path, p, end, NotLink, depth, nofollow) == None
  {}

  lemma PlainMeaning(mounts: seq<Mount>, root: Option<Node>, fs: Lookup, path: string, depth: nat, nofollow: bool)
    requires NoLinks(fs) && depth <= MAX_DEPTH + 1
    ensures Meant(mounts, root, fs, path, depth, nofollow) == Plainly(mounts, root, path, fs)
  {
    hide Meant, Walk, WalkFrom, Entry, NoLinks, Steps;
    MeantStep(mounts, root, fs, path, depth, nofollow);
    if path != "" && path[0] == '/' && Entry(mounts, root, path).Some? {
      var e := Entry(mounts, root, path).value;
      EntryIsSuffix(mounts, root, path);
      WalkIsPlain(mounts, root, fs, e.0, path, |path| - |e.1|, depth, nofollow);
    }
  }

  lemma {:induction false} SkipIsSuffix(s: string)
    ensures |Skip(s)| <= |s| && Skip(s) == s[|s| - |Skip(s)|..]
  {
    if s != "" && s[0] == '/' {
      SkipIsSuffix(s[1..]);
      assert s[1..][|s[1..]| - |Skip(s)|..] == s[|s| - |Skip(s)|..];
    }
  }

  lemma EntryIsSuffix(mounts: seq<Mount>, root: Option<Node>, path: string)
    requires path != ""
    ensures match Entry(mounts, root, path)
            case None => true
            case Some((_, rest)) => |rest| <= |path| && rest == path[|path| - |rest|..]
  {
    match Best(mounts, path)
    case None =>
    case Some(m) =>
      if 1 < |m.point| <= |path| {
        var tail := path[|m.point|..];
        SkipIsSuffix(tail);
        assert path[|path| - |Skip(tail)|..] == tail[|tail| - |Skip(tail)|..];
      }
  }

  // The limit on links only loses answers: an answer found with few links left is the answer
  // with more.
  lemma {:induction false} DeeperAgrees(mounts: seq<Mount>, root: Option<Node>, fs: Lookup, path: string, depth: nat,
                                        less: nat, nofollow: bool)
    requires less <= depth <= MAX_DEPTH + 1 && Meant(mounts, root, fs, path, depth, nofollow).Some?
    ensures Meant(mounts, root, fs, path, less, nofollow) == Meant(mounts, root, fs, path, depth, nofollow)
    decreases MAX_DEPTH + 1 - depth, |path| + 1
  {
    hide *;
    MeantStep(mounts, root, fs, path, depth, nofollow);
    MeantStep(mounts, root, fs, path, less, nofollow);
    var e := Entry(mounts, root, path).value;
    DeeperWalks(mounts, root, fs, e.0, path, |path| - |e.1|, depth, less, nofollow);
  }

  lemma MeantStep(mounts: seq<Mount>, root: Option<Node>, fs: Lookup, path: string, depth: nat, nofollow: bool)
    requires depth <= MAX_DEPTH + 1
    ensures var m := Meant(mounts, root, fs, path, depth, nofollow);
            if path == "" || Entry(mounts, root, path).None? || path[0] != '/' then m == None
            else
              var e := Entry(mounts, root, path).value;
              |e.1| <= |path| && m == Walk(mounts, root, fs, e.0, path, |path| - |e.1|, depth, nofollow)
  {
    hide Entry, Walk;
    if path != "" { EntryIsSuffix(mounts, root, path); }
  }

  lemma {:induction false} DeeperWalks(mounts: seq<Mount>, root: Option<Node>, fs: Lookup, node: Node, path: string,
                                       p: nat, depth: nat, less: nat, nofollow: bool)
    requires less <= depth <= MAX_DEPTH + 1 && p <= |path|
             && Walk(mounts, root, fs, node, path, p, depth, nofollow).Some?
    ensures Walk(mounts, root, fs, node, path, p, less, nofollow) == Walk(mounts, root, fs, node, path, p, depth, nofollow)
    decreases MAX_DEPTH + 1 - depth, |path| - p
  {
    hide *;
    var end := EndOf(path, p);
    WalkStep(mounts, root, fs, node, path, p, depth, nofollow);
    WalkStep(mounts, root, fs, node, path, p, less, nofollow);
    if end > p {
      var reply := fs(0, node, Cut(path[p..end], MAX_SEG));
      DeeperCrossing(mounts, root, fs, path, p, end, reply.link, depth, less, nofollow);
      if Crossing(mounts, root, fs, path, p, end, reply.link, depth, nofollow).None? {
        DeeperWalks(mounts, root, fs, reply.node, path, After(path, end), depth, less, nofollow);
      }
    }
  }

  lemma {:induction false} DeeperCrossing(mounts: seq<Mount>, root: Option<Node>, fs: Lookup, path: string, p: nat,
                                          end: nat, link: Link, depth: nat, less: nat, nofollow: bool)
    requires less <= depth <= MAX_DEPTH + 1 && p <= end <= |path|
    ensures var was := Crossing(mounts, root, fs, path, p, end, link, depth, nofollow);
            was == Some(None) || Crossing(mounts, root, fs, path, p, end, link, less, nofollow) == was
    decreases MAX_DEPTH + 1 - depth, 0
  {
    hide Meant, Redirected;
    if link.Target? && depth <= MAX_DEPTH {
      var to := Redirected(path, p, end, link.text);
      if to.Some? && Meant(mounts, root, fs, to.value, depth + 1, false).Some? {
        DeeperAgrees(mounts, root, fs, to.value, depth + 1, less + 1, false);
      }
    }
  }

  lemma WalkStep(mounts: seq<Mount>, root: Option<Node>, fs: Lookup, node: Node, path: string, p: nat, depth: nat,
                 nofollow: bool)
    requires depth <= MAX_DEPTH + 1 && p <= |path|
    ensures var end, w := EndOf(path, p), Walk(mounts, root, fs, node, path, p, depth, nofollow);
            if end == p then w == Some(node)
            else
              var reply := fs(0, node, Cut(path[p..end], MAX_SEG));
              if !reply.Child? then w == None
              else
                var c := Crossing(mounts, root, fs, path, p, end, reply.link, depth, nofollow);
                w == if c.Some? then c.value else Walk(mounts, root, fs, reply.node, path, After(path, end), depth, nofollow)
  {
    hide Crossing, EndOf, Cut, After;
  }

  // ----- paths through links -----

  // The walk of a path, at position p0 with node `from`, comes to `node` at position p and meets
  // no link on the way.
  ghost predicate Comes(fs: Lookup, from: Node, path: string, p0: nat, node: Node, p: nat)
    requires p0 <= |path|
    decreases |path| - p0
  {
    if p0 == p then node == from
    else
      var end := EndOf(path, p0);
      && p0 < end
      && var reply := fs(0, from, path[p0..end]);
         reply.Child? && reply.link.NotLink? && |path[p0..end]| <= 63 && Comes(fs, reply.node, path, After(path, end), node, p)
  }

  lemma {:induction false} ComesWalks(mounts: seq<Mount>, root: Option<Node>, fs: Lookup, from: Node, path: string, p0: nat,
                                      node: Node, p: nat, depth: nat, nofollow: bool)
    requires p0 <= |path| && p <= |path| && Comes(fs, from, path, p0, node, p) && depth <= MAX_DEPTH + 1
    ensures Walk(mounts, root, fs, from, path, p0, depth, nofollow) == Walk(mounts, root, fs, node, path, p, depth, nofollow)
    decreases |path| - p0
  {
    hide Walk, Crossing, EndOf, After;
    if p0 != p {
      var end := EndOf(path, p0);
      var reply := fs(0, from, path[p0..end]);
      WalkStep(mounts, root, fs, from, path, p0, depth, nofollow);
      NotCrossing(mounts, root, fs, path, p0, end, depth, nofollow);
      ComesWalks(mounts, root, fs, reply.node, path, After(path, end), node, p, depth, nofollow);
    }
  }

  // The component path[p..end], on the way of the path, names `child`, which is a link or not.
  ghost predicate Meets(mounts: seq<Mount>, root: Option<Node>, fs: Lookup, path: string, p: nat, end: nat, child: Node,
                        link: Link)
  {
    && path != "" && path[0] == '/' && p < end <= |path| && end == EndOf(path, p) && end - p <= 63
    && Entry(mounts, root, path).Some?
    && var (start, rest) := Entry(mounts, root, path).value;
       && |rest| <= |path|
       && exists node :: Comes(fs, start, path, |path| - |rest|, node, p) && fs(0, node, path[p..end]) == Child(child, link)
  }

  // What a link does to a path: at the end of the path it is the answer itself if it is not to be
  // followed; after nine links the path has no answer; otherwise the answer is that of the path
  // it leads to, one level deeper.
  lemma LinkMeaning(mounts: seq<Mount>, root: Option<Node>, fs: Lookup, path: string, p: nat, end: nat, child: Node,
                    link: Link, depth: nat, nofollow: bool)
    requires Meets(mounts, root, fs, path, p, end, child, link) && !link.NotLink? && depth <= 9
    ensures var m := Meant(mounts, root, fs, path, depth, nofollow);
            if nofollow && end == |path| then m == Some(child)
            else if depth > 8 then m == None
            else if link.Unreadable? then m == None
            else if link.NoReadlink? then m == Walk(mounts, root, fs, child, path, After(path, end), depth, nofollow)
            else
              var to := Redirected(path, p, end, link.text);
              to.Some? && m == Meant(mounts, root, fs, to.value, depth + 1, false)
  {
    hide Walk, Meant, EndOf, After, Entry, Comes, Redirected;
    var (start, rest) := Entry(mounts, root, path).value;
    var node :| Comes(fs, start, path, |path| - |rest|, node, p) && fs(0, node, path[p..end]) == Child(child, link);
    MeantStep(mounts, root, fs, path, depth, nofollow);
    ComesWalks(mounts, root, fs, start, path, |path| - |rest|, node, p, depth, nofollow);
    WalkStep(mounts, root, fs, node, path, p, depth, nofollow);
    if end == |path| { AtEnd(mounts, root, fs, child, path, depth, nofollow); }
    if link.Target? { LinkLeads(path, p, end, link.text); }
  }

  lemma AtEnd(mounts: seq<Mount>, root: Option<Node>, fs: Lookup, node: Node, path: string, depth: nat, nofollow: bool)
    requires depth <= MAX_DEPTH + 1
    ensures After(path, |path|) == |path| && Walk(mounts, root, fs, node, path, |path|, depth, nofollow) == Some(node)
  {}

  // A link that leads to itself has no answer.
  lemma {:induction false} SelfLinkFails(root: Node, fs: Lookup, child: Node, depth: nat)
    requires fs(0, root, "l") == Child(child, Target("/l")) && depth <= 9
    ensures Meant([], Some(root), fs, "/l", depth, false) == None
    decreases 9 - depth
  {
    hide Meant, Redirected, Walk;
    SegLenIs("l", 1);
    assert "/l"[1..] == "l" && "/l"[1..2] == "l" && "/l"[2..] == "";
    assert EndOf("/l", 1) == 2;
    assert Best([], "/l") == None;
    assert Comes(fs, root, "/l", 1, root, 1);
    assert Meets([], Some(root), fs, "/l", 1, 2, child, Target("/l"));
    LinkMeaning([], Some(root), fs, "/l", 1, 2, child, Target("/l"), depth, false);
    if depth <= 8 {
      assert Skip("") == "";
      LinkTarget("/l", 1, 2, "/l");
      AlreadyNormal();
      SelfLinkFails(root, fs, child, depth + 1);
    }
  }

  lemma AlreadyNormal()
    ensures NormalPath("/", "/l") == "/l"
  {
    SplitOne("l", "");
    SplitNothing();
    assert "/" + "l" + "" == "/l" && ["l"] + [] == ["l"];
    assert Normal(["l"]);
    FoldOfNormal([], ["l"]);
    assert [] + ["l"] == ["l"];
    assert Join(["l"]) == "/l";
  }

  lemma OnlyAbsolute(mounts: seq<Mount>, root: Option<Node>, fs: Lookup, path: string, depth: nat, nofollow: bool)
    requires depth <= MAX_DEPTH + 1 && (path == "" || path[0] != '/')
    ensures Meant(mounts, root, fs, path, depth, nofollow) == None
  {}

  // The meaning of a path from where its walk starts.
  lemma EntryIs(mounts: seq<Mount>, root: Option<Node>, fs: Lookup, path: string, depth: nat, nofollow: bool,
                start: Option<Node>, p: nat)
    requires depth <= MAX_DEPTH + 1 && path != "" && path[0] == '/' && p <= |path|
    requires var e := Entry(mounts, root, path); if start.None? then e == None else e == Some((start.value, path[p..]))
    ensures Meant(mounts, root, fs, path, depth, nofollow) ==
            if start.None? then None else Walk(mounts, root, fs, start.value, path, p, depth, nofollow)
  {
    hide Entry, Walk;
  }

  class Vfs {
    const mounts: seq<Mount>
    const root: Option<Node>
    // Outstanding references, one element per reference held.
    var refs: multiset<Node>
    // Lookups made so far.
    var clock: nat

    // Gives back a reference, leaving `rest`.
    method Close(node: Node, ghost rest: multiset<Node>)
      requires refs == rest + multiset{node}
      modifies this`refs
      ensures refs == rest
    {
      refs := refs - multiset{node};
    }

    // References held for the caller's node, if any.
    static ghost function One(r: Option<Node>): multiset<Node> { if r.Some? then multiset{r.value} else multiset{} }

    // Asks a directory and lets go of it; a found child comes with a reference.
    method Descend(fs: Lookup, node: Node, name: string, ghost rest: multiset<Node>) returns (reply: Reply)
      requires refs == rest + multiset{node}
      modifies this`refs, this`clock
      ensures reply == fs(old(clock), node, name)
      ensures refs == if reply.Child? then rest + multiset{reply.node} else rest
    {
      reply := fs(clock, node, name);
      clock := clock + 1;
      if reply.Child? { refs := refs + multiset{reply.node}; }
      refs := refs - multiset{node};
    }

    // Where the walk of `path` starts: a node, with a new reference, and the position in the path.
    method Enter(path: string) returns (start: Option<Node>, p: nat)
      requires path != "" && path[0] == '/'
      modifies this`refs
      ensures p <= |path|
      ensures refs == old(refs) + One(start)
      ensures var e := Entry(mounts, root, path);
              if start.None? then e == None else e == Some((start.value, path[p..]))
    {
      var m := FindMount(mounts, path);
      BestIsLongest(mounts, path);
      p := 1;
      match m {
        case None =>
          start := root;
          if start.None? { return; }
        case Some(mount) =>
          start := Some(mount.root);
          if |mount.point| > 1 {
            p := |mount.point|;
            while p < |path| && path[p] == '/'
              invariant p <= |path| && Skip(path[p..]) == Skip(path[|mount.point|..])
            {
              assert path[p..][1..] == path[p + 1..];
              p := p + 1;
            }
          }
      }
      refs := refs + multiset{start.value};
    }

    method ComponentEnd(path: string, p: nat) returns (end: nat)
      requires p <= |path|
      ensures end == EndOf(path, p)
    {
      end := p;
      while end < |path| && path[end] != '/'
        invariant p <= end <= |path| && forall i :: p <= i < end ==> path[i] != '/'
      {
        end := end + 1;
      }
      SegLenIs(path[p..], end - p);
    }

    // Every way out leaves exactly one new reference, on the node returned, and follows at most
    // the links the depth limit allows; in a tree that does not change the answer is the meaning.
    method Resolve(path: string, depth: nat, nofollow: bool, fs: Lookup) returns (r: Option<Node>, ghost links: nat)
      requires depth <= MAX_DEPTH + 1
      modifies this`refs, this`clock
      ensures refs == old(refs) + One(r)
      ensures links <= MAX_DEPTH + 1 - depth
      ensures Steady(fs) ==> r == Meant(mounts, root, fs, path, depth, nofollow)
      decreases MAX_DEPTH + 1 - depth, 3
    {
      hide Entry, Cut, Crossing, EndOf, Meant, Walk;
      links := 0;
      ghost var base := refs;
      if path == "" || path[0] != '/' {
        OnlyAbsolute(mounts, root, fs, path, depth, nofollow);
        return None, 0;
      }
      var start, p := Enter(path);
      EntryIs(mounts, root, fs, path, depth, nofollow, start, p);
      hide *;
      if start.None? { return None, 0; }
      var current := start.value;
      while p < |path|
        invariant p <= |path| && links == 0
        invariant refs == base + multiset{current}
        invariant Steady(fs) ==>
                    Walk(mounts, root, fs, current, path, p, depth, nofollow) == Meant(mounts, root, fs, path, depth, nofollow)
        decreases |path| - p
      {
        hide *;
        var end := ComponentEnd(path, p);
        if end == p { break; }
        var done, next;
        done, r, next, links := Advance(path, p, end, current, depth, nofollow, fs, base);
        if done { return; }
        AfterIs(path, end);
        current, p := next, if end < |path| then end + 1 else end;
      }
      WalkStep(mounts, root, fs, current, path, p, depth, nofollow);
      r := Some(current);
    }

    // Looks up one component of the walk.
    method Advance(path: string, p: nat, end: nat, current: Node, depth: nat, nofollow: bool, fs: Lookup,
                   ghost base: multiset<Node>)
      returns (done: bool, r: Option<Node>, next: Node, ghost links: nat)
      requires p <= |path| && end == EndOf(path, p) && end > p && refs == base + multiset{current}
               && depth <= MAX_DEPTH + 1
      modifies this`refs, this`clock
      ensures refs == base + if done then One(r) else multiset{next}
      ensures links <= MAX_DEPTH + 1 - depth && (!done ==> links == 0)
      ensures Steady(fs) ==>
                Walk(mounts, root, fs, current, path, p, depth, nofollow) ==
                if done then r else Walk(mounts, root, fs, next, path, After(path, end), depth, nofollow)
      decreases MAX_DEPTH + 1 - depth, 2
    {
      hide Walk, Meant, Crossing, EndOf, Cut, Steady, After;
      var component := Cut(path[p..end], MAX_SEG);
      WalkStep(mounts, root, fs, current, path, p, depth, nofollow);
      SteadyAt(fs, clock, current, component);
      var reply := Descend(fs, current, component, base);
      if !reply.Child? { return true, None, current, 0; }
      next := reply.node;
      done, r, links := Cross(path, p, end, reply.node, reply.link, depth, nofollow, fs, base);
    }

    // Deals with a found child that may be a link: either the whole resolution is decided by
    // following it, or the walk goes on from the child.
    method Cross(path: string, p: nat, end: nat, child: Node, link: Link, depth: nat, nofollow: bool, fs: Lookup,
                 ghost base: multiset<Node>)
      returns (done: bool, r: Option<Node>, ghost links: nat)
      requires p <= end <= |path| && refs == base + multiset{child} && depth <= MAX_DEPTH + 1
      modifies this`refs, this`clock
      ensures link.NotLink? ==> !done
      ensures refs == base + if done then One(r) else multiset{child}
      ensures links <= MAX_DEPTH + 1 - depth && (!done ==> links == 0)
      ensures Steady(fs) ==>
                Crossing(mounts, root, fs, path, p, end, link, depth, nofollow) == if done then Some(r) else None
      decreases MAX_DEPTH + 1 - depth, 1
    {
      done, r, links := false, None, 0;
      if link.NotLink? || (nofollow && end == |path|) { return; }
      if depth > MAX_DEPTH {
        Close(child, base);
        return true, None, 0;
      }
      match link
      case Unreadable =>
        Close(child, base);
        done := true;
      case Target(text) =>
        r, links := Follow(path, p, end, child, text, depth, fs, base);
        done := true;
      case _ =>
    }

    method SkipSlashes(path: string, end: nat) returns (rest: nat)
      requires end <= |path|
      ensures end <= rest <= |path| && path[rest..] == Skip(path[end..])
    {
      rest := end;
      while rest < |path| && path[rest] == '/'
        invariant end <= rest <= |path| && Skip(path[rest..]) == Skip(path[end..])
      {
        assert path[rest..][1..] == path[rest + 1..];
        rest := rest + 1;
      }
    }

    // Restarts at the target of the link `child`, found as path[p..end].
    method Follow(path: string, p: nat, end: nat, child: Node, text: string, depth: nat, fs: Lookup,
                  ghost base: multiset<Node>)
      returns (r: Option<Node>, ghost links: nat)
      requires p <= end <= |path| && refs == base + multiset{child} && depth <= MAX_DEPTH
      modifies this`refs, this`clock
      ensures refs == base + One(r)
      ensures links <= MAX_DEPTH + 1 - depth
      ensures Steady(fs) ==>
                var to := Redirected(path, p, end, text);
                r == if to.None? then None else Meant(mounts, root, fs, to.value, depth + 1, false)
      decreases MAX_DEPTH + 1 - depth, 0
    {
      var rest := SkipSlashes(path, end);
      hide Meant, Skip, Composed, NormalPath;
      var newPath := Composed(path, p, Cut(text, TARGET_MAX), path[rest..]);
      var norm := NormalizePath("/", newPath, PATH_MAX + 1);
      Close(child, base);
      if norm.Overflow? { return None, 0; }
      r, links := Resolve(norm.path, depth + 1, false, fs);
      links := links + 1;
    }
  }

  // The step at position p, and where the next one starts.
  lemma NextStep(path: string, p: nat, end: nat)
    requires p < end <= |path| && (end < |path| ==> path[end] == '/') && forall i :: p <= i < end ==> path[i] != '/'
    ensures Steps(path[p..]) == [Cut(path[p..end], MAX_SEG)] + Steps(path[After(path, end)..])
  {
    var s := path[p..];
    SegLenIs(s, end - p);
    assert s[..end - p] == path[p..end];
    if end < |path| { assert s[end - p + 1..] == path[end + 1..]; }
  }

  // Resolving a path through a link whose lengths fit, in a tree that does not change, gives what
  // the normal path it leads to means one level deeper.
  method ResolveThroughLink(v: Vfs, path: string, nofollow: bool, fs: Lookup, ghost p: nat, ghost end: nat,
                            ghost child: Node, ghost text: string) returns (r: Option<Node>)
    requires Steady(fs) && Meets(v.mounts, v.root, fs, path, p, end, child, Target(text))
    requires |text| <= 511 && p + |text| + |Skip(path[end..])| + 2 <= 1023 && !(nofollow && end == |path|)
    modifies v`refs, v`clock
    ensures v.refs == old(v.refs) + Vfs.One(r)
    ensures var from := if text != "" && text[0] == '/' then "/" else path[..p];
            r == Meant(v.mounts, v.root, fs, NormalPath(from, Onward(text, Skip(path[end..]))), 1, false)
  {
    hide Meant, NormalPath, Onward, Entry, EndOf, Comes, Redirected;
    LinkMeaning(v.mounts, v.root, fs, path, p, end, child, Target(text), 0, nofollow);
    LinkTarget(path, p, end, text);
    ghost var links;
    r, links := v.Resolve(path, 0, nofollow, fs);
  }
}
