/**
 Singly linked lists threaded through a table: `next[i]` is the successor of entry i, or NULL.
 */
module Lists {

  const NULL: int := -1

  // Following `next` from `head` visits exactly xs and then stops.
  ghost predicate Linked(next: seq<int>, head: int, xs: seq<int>)
    decreases |xs|
  {
    if xs == [] then head == NULL
    else head == xs[0] && 0 <= head < |next| && Linked(next, next[head], xs[1..])
  }

  lemma {:induction false} LinkedInRange(next: seq<int>, head: int, xs: seq<int>)
    requires Linked(next, head, xs)
    ensures forall x :: x in xs ==> 0 <= x < |next|
    decreases |xs|
  {
    if xs != [] {
      LinkedInRange(next, next[head], xs[1..]);
      assert xs == [xs[0]] + xs[1..];
    }
  }

  lemma {:induction false} LinkedUnique(next: seq<int>, head: int, xs: seq<int>, ys: seq<int>)
    requires Linked(next, head, xs) && Linked(next, head, ys)
    ensures xs == ys
    decreases |xs|
  {
    if xs != [] && ys != [] {
      LinkedUnique(next, next[head], xs[1..], ys[1..]);
      assert xs == [xs[0]] + xs[1..] && ys == [ys[0]] + ys[1..];
    }
  }

  lemma {:induction false} LinkedSuffix(next: seq<int>, head: int, xs: seq<int>, k: nat)
    requires Linked(next, head, xs) && k <= |xs|
    ensures Linked(next, if k < |xs| then xs[k] else NULL, xs[k..])
    decreases |xs|
  {
    if k > 0 {
      LinkedSuffix(next, next[head], xs[1..], k - 1);
      assert xs[1..][k - 1..] == xs[k..];
    }
  }

  // A list that ends visits no entry twice.
  lemma LinkedDistinct(next: seq<int>, head: int, xs: seq<int>)
    requires Linked(next, head, xs)
    ensures forall i, j :: 0 <= i < j < |xs| ==> xs[i] != xs[j]
  {
    forall i, j | 0 <= i < j < |xs| ensures xs[i] != xs[j] {
      if xs[i] == xs[j] {
        LinkedSuffix(next, head, xs, i);
        LinkedSuffix(next, head, xs, j);
        LinkedUnique(next, xs[i], xs[i..], xs[j..]);
      }
    }
  }

  lemma {:induction false} LinkedFrame(next: seq<int>, next': seq<int>, head: int, xs: seq<int>)
    requires Linked(next, head, xs) && |next'| == |next|
    requires forall x :: x in xs && 0 <= x < |next| ==> next'[x] == next[x]
    ensures Linked(next', head, xs)
    decreases |xs|
  {
    if xs != [] { LinkedFrame(next, next', next[head], xs[1..]); }
  }

  // Following a link from the k-th entry.
  lemma LinkedNext(next: seq<int>, head: int, xs: seq<int>, k: nat)
    requires Linked(next, head, xs) && k < |xs|
    ensures 0 <= xs[k] < |next|
    ensures next[xs[k]] == if k + 1 < |xs| then xs[k + 1] else NULL
  {
    LinkedSuffix(next, head, xs, k);
    LinkedSuffix(next, head, xs, k + 1);
    assert xs[k..][1..] == xs[k + 1..];
  }

  // Inserting at the front.
  lemma LinkedPrepend(next: seq<int>, head: int, xs: seq<int>, x: int)
    requires Linked(next, head, xs) && 0 <= x < |next| && x !in xs
    ensures Linked(next[x := head], x, [x] + xs)
  {
    LinkedFrame(next, next[x := head], head, xs);
    assert ([x] + xs)[1..] == xs;
  }

  function Without(xs: seq<int>, k: nat): seq<int>
    requires k < |xs|
  {
    xs[..k] + xs[k + 1..]
  }

  lemma WithoutMembers(xs: seq<int>, k: nat)
    requires k < |xs| && forall i, j :: 0 <= i < j < |xs| ==> xs[i] != xs[j]
    ensures forall x :: x in Without(xs, k) <==> x in xs && x != xs[k]
  {
    forall x | x in xs && x != xs[k] ensures x in Without(xs, k) {
      var i :| 0 <= i < |xs| && xs[i] == x;
      assert Without(xs, k)[if i < k then i else i - 1] == x;
    }
    forall x | x in Without(xs, k) ensures x in xs && x != xs[k] {
      var i :| 0 <= i < |xs| - 1 && Without(xs, k)[i] == x;
      assert x == xs[if i < k then i else i + 1];
    }
  }

  // Unlinking entry k > 0 by redirecting its predecessor keeps the order of the rest.
  lemma {:induction false} LinkedUnlink(next: seq<int>, head: int, xs: seq<int>, k: nat)
    requires Linked(next, head, xs) && 0 < k < |xs|
    ensures 0 <= xs[k - 1] < |next| && 0 <= xs[k] < |next|
    ensures Linked(next[xs[k - 1] := next[xs[k]]], head, Without(xs, k))
    decreases |xs|
  {
    LinkedInRange(next, head, xs);
    LinkedDistinct(next, head, xs);
    assert xs[k - 1] in xs && xs[k] in xs;
    var next' := next[xs[k - 1] := next[xs[k]]];
    if k == 1 {
      assert xs[1..][1..] == xs[2..] && Without(xs, 1)[1..] == xs[2..];
      assert forall x :: x in xs[2..] ==> x != xs[0];
      LinkedFrame(next, next', next[xs[1]], xs[2..]);
    } else {
      LinkedUnlink(next, next[head], xs[1..], k - 1);
      assert Without(xs, k)[1..] == Without(xs[1..], k - 1);
    }
  }
}
