/**
 Parents, children and siblings: every edit of the process tree keeps each children list equal
 to the set of live processes that name its owner as parent.
 */
module ProcTree {
  import opened Lists
  import opened ProcTable

  // ----- invariant -----

  ghost predicate IsChildOf(t: seq<Proc>, p: int, c: int) { Live(t, c) && t[c].parent == p }

  // c is on p's list, or is one of the children of `from` still waiting to be reparented.
  ghost predicate Listed(kids: seq<seq<int>>, from: int, loose: seq<int>, p: int, c: int) {
    (0 <= p < |kids| && c in kids[p]) || (p == from && c in loose)
  }

  ghost predicate ListsOk(t: seq<Proc>, kids: seq<seq<int>>) {
    |kids| == |t| && forall p :: Live(t, p) ==> Linked(Siblings(t), t[p].children, kids[p])
  }

  ghost predicate MembersOk(t: seq<Proc>, kids: seq<seq<int>>, from: int, loose: seq<int>) {
    && |kids| == |t|
    && (forall p, c :: Live(t, p) ==> (Listed(kids, from, loose, p, c) <==> IsChildOf(t, p, c)))
    && (forall p, c :: Live(t, p) && c in loose ==> c !in kids[p])
  }

  ghost predicate ParentsOk(t: seq<Proc>) {
    forall c :: Live(t, c) ==>
      if t[c].parent == NULL then t[c].ppid == 0 else Live(t, t[c].parent) && t[c].ppid == t[t[c].parent].pid
  }

  // For every live process the children list is finite and holds exactly the live processes
  // whose parent it is, each of which carries its pid as ppid.
  ghost predicate TreeOk(t: seq<Proc>, kids: seq<seq<int>>) {
    ListsOk(t, kids) && MembersOk(t, kids, NULL, []) && ParentsOk(t)
  }

  // The same while the children `loose` of `from`, linked from `at`, are being reparented.
  ghost predicate TreeWith(t: seq<Proc>, kids: seq<seq<int>>, from: int, at: int, loose: seq<int>) {
    ListsOk(t, kids) && MembersOk(t, kids, from, loose) && ParentsOk(t) && Linked(Siblings(t), at, loose)
  }

  // The tree only depends on these fields.
  ghost predicate SameTree(t: seq<Proc>, t': seq<Proc>) {
    && |t'| == |t|
    && forall i :: 0 <= i < |t| ==>
         && (t'[i].state.Unused? <==> t[i].state.Unused?) && t'[i].pid == t[i].pid && t'[i].ppid == t[i].ppid
         && t'[i].parent == t[i].parent && t'[i].children == t[i].children && t'[i].sibling == t[i].sibling
  }

  lemma TreeFrame(t: seq<Proc>, t': seq<Proc>, kids: seq<seq<int>>)
    requires TreeOk(t, kids) && SameTree(t, t')
    ensures TreeOk(t', kids)
  {
    hide Linked;
    assert Siblings(t') == Siblings(t);
    forall i ensures Live(t', i) == Live(t, i) {}
    forall p, c | Live(t', p) ensures Listed(kids, NULL, [], p, c) <==> IsChildOf(t', p, c) {
      assert IsChildOf(t', p, c) == IsChildOf(t, p, c);
    }
  }

  // ----- process_create -----

  // A new process in slot c, prepended to its creator's children.
  function AddChild(t: seq<Proc>, p: nat, c: nat, born: Proc): seq<Proc>
    requires p < |t| && c < |t| && p != c
  {
    var child := born.(parent := p, ppid := t[p].pid, sibling := t[p].children, children := NULL);
    t[c := child][p := t[p].(children := c)]
  }

  lemma AddChildKeeps(t: seq<Proc>, kids: seq<seq<int>>, p: nat, c: nat, born: Proc)
    requires TreeOk(t, kids) && Live(t, p) && c < |t| && !Live(t, c) && !born.state.Unused?
    ensures TreeOk(AddChild(t, p, c, born), kids[p := [c] + kids[p]][c := []])
  {
    hide Linked;
    var t', kids' := AddChild(t, p, c, born), kids[p := [c] + kids[p]][c := []];
    assert Siblings(t') == Siblings(t)[c := t[p].children];
    forall i ensures Live(t', i) <==> Live(t, i) || i == c {}
    forall q | Live(t, q) ensures c !in kids[q] {
      assert !IsChildOf(t, q, c) && (Listed(kids, NULL, [], q, c) <==> IsChildOf(t, q, c));
    }
    LinkedPrepend(Siblings(t), t[p].children, kids[p], c);
    EmptyLinked(Siblings(t'));
    forall q | Live(t', q) && q != p && q != c ensures Linked(Siblings(t'), t'[q].children, kids'[q]) {
      LinkedFrame(Siblings(t), Siblings(t'), t[q].children, kids[q]);
    }
    forall q, d | Live(t', q) ensures Listed(kids', NULL, [], q, d) <==> IsChildOf(t', q, d) {
      assert Live(t, q) ==> (Listed(kids, NULL, [], q, d) <==> IsChildOf(t, q, d));
      assert q == c ==> Live(t, d) ==> t[d].parent != c;
    }
  }

  lemma EmptyLinked(next: seq<int>)
    ensures Linked(next, NULL, [])
  {}

  // ----- process_exit: reparenting -----

  // Moves child c under `init` (NULL when there is no init process).
  function Adopt(t: seq<Proc>, c: nat, init: int): seq<Proc>
    requires c < |t| && (init == NULL || 0 <= init < |t|)
  {
    if init == NULL then t[c := t[c].(parent := NULL, ppid := 0, sibling := NULL)]
    else
      var t1 := t[c := t[c].(parent := init, ppid := t[init].pid, sibling := t[init].children)];
      t1[init := t1[init].(children := c)]
  }

  ghost function Adopted(kids: seq<seq<int>>, c: nat, init: int): seq<seq<int>>
    requires init == NULL || 0 <= init < |kids|
  {
    if init == NULL then kids else kids[init := [c] + kids[init]]
  }

  lemma AdoptLists(t: seq<Proc>, kids: seq<seq<int>>, loose: seq<int>, init: int)
    requires (init == NULL || Live(t, init)) && loose != []
    requires ListsOk(t, kids) && Linked(Siblings(t), loose[0], loose)
    requires forall p, c :: Live(t, p) && c in loose ==> c !in kids[p]
    ensures 0 <= loose[0] < |t|
    ensures var t' := Adopt(t, loose[0], init);
            ListsOk(t', Adopted(kids, loose[0], init)) && Linked(Siblings(t'), t[loose[0]].sibling, loose[1..])
  {
    var c := loose[0];
    assert c in loose;
    LinkedInRange(Siblings(t), c, loose);
    LinkedDistinct(Siblings(t), c, loose);
    LinkedSuffix(Siblings(t), c, loose, 1);
    LinkedNext(Siblings(t), c, loose, 0);
    hide Linked;
    var t', kids' := Adopt(t, c, init), Adopted(kids, c, init);
    assert Siblings(t') == Siblings(t)[c := t'[c].sibling];
    LinkedFrame(Siblings(t), Siblings(t'), t[c].sibling, loose[1..]);
    if init != NULL {
      LinkedPrepend(Siblings(t), t[init].children, kids[init], c);
    }
    forall q | Live(t', q) && q != init ensures Linked(Siblings(t'), t'[q].children, kids'[q]) {
      LinkedFrame(Siblings(t), Siblings(t'), t[q].children, kids[q]);
    }
  }

  lemma AdoptMembers(t: seq<Proc>, kids: seq<seq<int>>, from: int, loose: seq<int>, init: int)
    requires Live(t, from) && (init == NULL || Live(t, init)) && loose != [] && 0 <= loose[0] < |t|
    requires MembersOk(t, kids, from, loose) && ParentsOk(t)
    requires forall i, j :: 0 <= i < j < |loose| ==> loose[i] != loose[j]
    ensures var t' := Adopt(t, loose[0], init);
            MembersOk(t', Adopted(kids, loose[0], init), from, loose[1..]) && ParentsOk(t')
  {
    var c := loose[0];
    assert c in loose && loose == [c] + loose[1..];
    var t', kids' := Adopt(t, c, init), Adopted(kids, c, init);
    forall i ensures Live(t', i) == Live(t, i) {}
    assert Listed(kids, from, loose, from, c);
    forall q, d | Live(t', q) ensures Listed(kids', from, loose[1..], q, d) <==> IsChildOf(t', q, d) {
      assert Listed(kids, from, loose, q, d) <==> IsChildOf(t, q, d);
      if d == c && q != init { assert c !in loose[1..] && c !in kids[q]; }
    }
    forall q, d | Live(t', q) && d in loose[1..] ensures d !in kids'[q] {
      assert d in loose;
    }
  }

  lemma AdoptKeeps(t: seq<Proc>, kids: seq<seq<int>>, from: int, loose: seq<int>, init: int)
    requires Live(t, from) && (init == NULL || Live(t, init)) && loose != []
    requires TreeWith(t, kids, from, loose[0], loose)
    ensures 0 <= loose[0] < |t|
    ensures TreeWith(Adopt(t, loose[0], init), Adopted(kids, loose[0], init), from, t[loose[0]].sibling, loose[1..])
  {
    AdoptLists(t, kids, loose, init);
    LinkedDistinct(Siblings(t), loose[0], loose);
    AdoptMembers(t, kids, from, loose, init);
  }

  // The exiting process lets go of its list before walking it.
  lemma LetGo(t: seq<Proc>, kids: seq<seq<int>>, from: int)
    requires TreeOk(t, kids) && Live(t, from)
    ensures TreeWith(t[from := t[from].(children := NULL)], kids[from := []], from, t[from].children, kids[from])
  {
    hide Linked;
    var t', kids' := t[from := t[from].(children := NULL)], kids[from := []];
    assert Siblings(t') == Siblings(t);
    EmptyLinked(Siblings(t'));
    forall i ensures Live(t', i) == Live(t, i) {}
    forall q, d | Live(t', q) ensures Listed(kids', from, kids[from], q, d) <==> IsChildOf(t', q, d) {
      assert Listed(kids, NULL, [], q, d) <==> IsChildOf(t, q, d);
    }
    forall q, d | Live(t', q) && d in kids[from] ensures d !in kids'[q] {
      assert Listed(kids, NULL, [], from, d) <==> IsChildOf(t, from, d);
      assert Listed(kids, NULL, [], q, d) <==> IsChildOf(t, q, d);
    }
  }

  lemma AllAdopted(t: seq<Proc>, kids: seq<seq<int>>, from: int, at: int)
    requires TreeWith(t, kids, from, at, [])
    ensures TreeOk(t, kids) && at == NULL
  {
    forall q, d | Live(t, q) ensures Listed(kids, NULL, [], q, d) <==> IsChildOf(t, q, d) {
      assert Listed(kids, from, [], q, d) <==> IsChildOf(t, q, d);
    }
  }

  // ----- process_destroy -----

  // Unlinks p from its parent's children, where `pred` is the sibling before it (NULL when p
  // comes first), and clears its slot.
  function Remove(t: seq<Proc>, p: nat, pred: int): seq<Proc>
    requires p < |t| && (t[p].parent == NULL || 0 <= t[p].parent < |t|) && (pred == NULL || 0 <= pred < |t|)
  {
    var par := t[p].parent;
    var t1 := if par == NULL then t
              else if pred == NULL then t[par := t[par].(children := t[p].sibling)]
              else t[pred := t[pred].(sibling := t[p].sibling)];
    t1[p := BLANK]
  }

  // p is entry k of its parent's list and pred the one before.
  ghost predicate At(t: seq<Proc>, kids: seq<seq<int>>, p: int, k: nat, pred: int) {
    && 0 <= p < |t| && 0 <= t[p].parent < |kids|
    && k < |kids[t[p].parent]| && kids[t[p].parent][k] == p
    && pred == if k == 0 then NULL else kids[t[p].parent][k - 1]
  }

  ghost function Removed(t: seq<Proc>, kids: seq<seq<int>>, p: int, k: nat, pred: int): seq<seq<int>>
    requires 0 <= p < |t| && (t[p].parent != NULL ==> At(t, kids, p, k, pred))
  {
    if t[p].parent == NULL then kids else kids[t[p].parent := Without(kids[t[p].parent], k)]
  }

  // No other process names p as its parent.
  ghost predicate Childless(kids: seq<seq<int>>, p: int)
    requires 0 <= p < |kids|
  {
    forall c :: c in kids[p] ==> c == p
  }

  lemma RemoveSiblings(t: seq<Proc>, p: nat, pred: int)
    requires p < |t| && (t[p].parent == NULL || 0 <= t[p].parent < |t|) && (pred == NULL || 0 <= pred < |t|)
    requires t[p].parent == NULL ==> pred == NULL
    ensures var next := Siblings(Remove(t, p, pred));
            && |next| == |t|
            && (forall i :: 0 <= i < |t| && i != p && i != pred ==> next[i] == t[i].sibling)
            && (pred != NULL && pred != p ==> next[pred] == t[p].sibling)
  {}

  // What remains of the list p was on.
  lemma RemoveOwnList(t: seq<Proc>, kids: seq<seq<int>>, p: int, k: nat, pred: int)
    requires TreeOk(t, kids) && Live(t, p) && t[p].parent != p && At(t, kids, p, k, pred)
    ensures pred == NULL || 0 <= pred < |t|
    ensures var t', par := Remove(t, p, pred), t[p].parent;
            Linked(Siblings(t'), t'[par].children, Without(kids[par], k))
  {
    hide Linked, MembersOk;
    var par := t[p].parent;
    var head, xs := t[par].children, kids[par];
    LinkedInRange(Siblings(t), head, xs);
    LinkedDistinct(Siblings(t), head, xs);
    LinkedNext(Siblings(t), head, xs, k);
    WithoutMembers(xs, k);
    if k > 0 {
      assert xs[k - 1] in xs;
      LinkedUnlink(Siblings(t), head, xs, k);
      RemoveSiblings(t, p, pred);
      LinkedFrame(Siblings(t)[pred := t[p].sibling], Siblings(Remove(t, p, pred)), head, Without(xs, k));
    } else {
      assert Without(xs, 0) == xs[1..];
      LinkedSuffix(Siblings(t), head, xs, 1);
      RemoveSiblings(t, p, pred);
      LinkedFrame(Siblings(t), Siblings(Remove(t, p, pred)), t[p].sibling, xs[1..]);
    }
  }

  // The lists p was not on are as they were.
  lemma RemoveOtherList(t: seq<Proc>, kids: seq<seq<int>>, p: int, k: nat, pred: int, q: int)
    requires TreeOk(t, kids) && Live(t, p) && Live(t, q) && q != t[p].parent
    requires if t[p].parent == NULL then pred == NULL else At(t, kids, p, k, pred) && (pred == NULL || 0 <= pred < |t|)
    ensures Linked(Siblings(Remove(t, p, pred)), t[q].children, kids[q])
  {
    hide Linked;
    var par := t[p].parent;
    assert Listed(kids, NULL, [], q, p) <==> IsChildOf(t, q, p);
    if pred != NULL {
      assert Listed(kids, NULL, [], par, pred) <==> IsChildOf(t, par, pred);
      assert Listed(kids, NULL, [], q, pred) <==> IsChildOf(t, q, pred);
    }
    RemoveSiblings(t, p, pred);
    LinkedFrame(Siblings(t), Siblings(Remove(t, p, pred)), t[q].children, kids[q]);
  }

  lemma RemoveLists(t: seq<Proc>, kids: seq<seq<int>>, p: int, k: nat, pred: int)
    requires TreeOk(t, kids) && Live(t, p)
    requires if t[p].parent == NULL then pred == NULL else At(t, kids, p, k, pred)
    ensures pred == NULL || 0 <= pred < |t|
    ensures ListsOk(Remove(t, p, pred), Removed(t, kids, p, k, pred))
  {
    hide Linked, MembersOk, Without;
    var par := t[p].parent;
    if par != NULL {
      LinkedInRange(Siblings(t), t[par].children, kids[par]);
      assert pred == NULL || pred in kids[par];
    }
    if par != NULL && par != p { RemoveOwnList(t, kids, p, k, pred); }
    var t', kids' := Remove(t, p, pred), Removed(t, kids, p, k, pred);
    forall q | Live(t', q) ensures Linked(Siblings(t'), t'[q].children, kids'[q]) {
      assert Live(t, q) && q != p;
      if q != par { RemoveOtherList(t, kids, p, k, pred, q); }
    }
  }

  lemma RemoveKeeps(t: seq<Proc>, kids: seq<seq<int>>, p: int, k: nat, pred: int)
    requires TreeOk(t, kids) && Live(t, p) && Childless(kids, p)
    requires if t[p].parent == NULL then pred == NULL else At(t, kids, p, k, pred)
    ensures pred == NULL || 0 <= pred < |t|
    ensures TreeOk(Remove(t, p, pred), Removed(t, kids, p, k, pred))
  {
    hide Linked, Without, Siblings;
    RemoveLists(t, kids, p, k, pred);
    var par := t[p].parent;
    if par != NULL {
      LinkedDistinct(Siblings(t), t[par].children, kids[par]);
      WithoutMembers(kids[par], k);
    }
    var t', kids' := Remove(t, p, pred), Removed(t, kids, p, k, pred);
    forall i ensures Live(t', i) <==> Live(t, i) && i != p {}
    forall q, d | Live(t', q) ensures Listed(kids', NULL, [], q, d) <==> IsChildOf(t', q, d) {
      assert Listed(kids, NULL, [], q, d) <==> IsChildOf(t, q, d);
    }
    forall c | Live(t', c)
      ensures if t'[c].parent == NULL then t'[c].ppid == 0
              else Live(t', t'[c].parent) && t'[c].ppid == t'[t'[c].parent].pid
    {
      assert Listed(kids, NULL, [], p, c) <==> IsChildOf(t, p, c);
    }
  }

  // Destroying a process keeps the tree well-formed exactly when no other process is its child.
  lemma DestroyNeedsChildless(t: seq<Proc>, kids: seq<seq<int>>, p: int, k: nat, pred: int)
    requires TreeOk(t, kids) && Live(t, p)
    requires if t[p].parent == NULL then pred == NULL else At(t, kids, p, k, pred)
    ensures pred == NULL || 0 <= pred < |t|
    ensures (exists kids' :: TreeOk(Remove(t, p, pred), kids')) <==> Childless(kids, p)
  {
    RemoveLists(t, kids, p, k, pred);
    if Childless(kids, p) {
      RemoveKeeps(t, kids, p, k, pred);
    } else {
      hide Linked;
      var c :| c in kids[p] && c != p;
      assert Listed(kids, NULL, [], p, c) <==> IsChildOf(t, p, c);
      var t' := Remove(t, p, pred);
      assert Live(t', c) && t'[c].parent == p && !Live(t', p) && p != NULL;
    }
  }
}
