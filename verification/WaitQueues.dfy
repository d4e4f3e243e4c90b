/**
 Wait queues: intrusive lists of sleeping processes, one per queue, threaded through waitNext.
 */
module WaitQueues {
  import opened Lists
  import opened ProcTable

  ghost predicate Waits(t: seq<Proc>, q: int, p: int) { Live(t, p) && t[p].waitingOn == q }

  // Queue q is a finite list `qs[q]` holding exactly the live processes whose waitingOn is q.
  ghost predicate QueuesOk(t: seq<Proc>, heads: seq<int>, qs: seq<seq<int>>) {
    && |qs| == |heads|
    && (forall q :: 0 <= q < |heads| ==> Linked(WaitLinks(t), heads[q], qs[q]))
    && (forall q, p :: 0 <= q < |heads| ==> (p in qs[q] <==> Waits(t, q, p)))
    && (forall p :: Live(t, p) ==> t[p].waitingOn == NULL || 0 <= t[p].waitingOn < |heads|)
  }

  // The queues only depend on these fields.
  ghost predicate SameWaits(t: seq<Proc>, t': seq<Proc>) {
    && |t'| == |t|
    && forall i :: 0 <= i < |t| ==>
         && (t'[i].state.Unused? <==> t[i].state.Unused?)
         && t'[i].waitNext == t[i].waitNext && t'[i].waitingOn == t[i].waitingOn
  }

  lemma QueuesFrame(t: seq<Proc>, t': seq<Proc>, heads: seq<int>, qs: seq<seq<int>>)
    requires QueuesOk(t, heads, qs) && SameWaits(t, t')
    ensures QueuesOk(t', heads, qs)
  {
    hide Linked;
    assert WaitLinks(t') == WaitLinks(t);
    forall i ensures Live(t', i) == Live(t, i) {}
    forall q, p | 0 <= q < |heads| ensures p in qs[q] <==> Waits(t', q, p) {
      assert Waits(t', q, p) == Waits(t, q, p);
    }
  }

  // No process is on two queues.
  lemma QueuesDisjoint(t: seq<Proc>, heads: seq<int>, qs: seq<seq<int>>, a: nat, b: nat, p: int)
    requires QueuesOk(t, heads, qs) && a < |qs| && b < |qs| && p in qs[a] && p in qs[b]
    ensures a == b
  {
    assert Waits(t, a, p) && Waits(t, b, p);
  }

  // ----- process_wait_on -----

  function Enqueue(t: seq<Proc>, heads: seq<int>, p: nat, q: nat): (seq<Proc>, seq<int>)
    requires p < |t| && q < |heads|
  {
    (t[p := t[p].(waitNext := heads[q], waitingOn := q, state := Sleeping)], heads[q := p])
  }

  lemma EnqueueKeeps(t: seq<Proc>, heads: seq<int>, qs: seq<seq<int>>, p: nat, q: nat)
    requires QueuesOk(t, heads, qs) && Live(t, p) && q < |heads| && t[p].waitingOn == NULL
    ensures var r := Enqueue(t, heads, p, q); QueuesOk(r.0, r.1, qs[q := [p] + qs[q]])
  {
    hide Linked;
    var (t', heads') := Enqueue(t, heads, p, q);
    var qs' := qs[q := [p] + qs[q]];
    forall i ensures Live(t', i) == Live(t, i) {}
    forall r | 0 <= r < |heads| ensures p !in qs[r] {
      assert !Waits(t, r, p);
    }
    assert WaitLinks(t') == WaitLinks(t)[p := heads[q]];
    LinkedPrepend(WaitLinks(t), heads[q], qs[q], p);
    forall r | 0 <= r < |heads| && r != q ensures Linked(WaitLinks(t'), heads'[r], qs'[r]) {
      LinkedFrame(WaitLinks(t), WaitLinks(t'), heads[r], qs[r]);
    }
    forall r, d | 0 <= r < |heads| ensures d in qs'[r] <==> Waits(t', r, d) {
      assert d in qs[r] <==> Waits(t, r, d);
    }
  }

  // Waiting keeps the queues well-formed exactly when the process is on no queue yet; a process
  // that was woken without being unlinked must not wait again.
  lemma EnqueueNeedsUnqueued(t: seq<Proc>, heads: seq<int>, qs: seq<seq<int>>, p: nat, q: nat)
    requires QueuesOk(t, heads, qs) && Live(t, p) && q < |heads|
    ensures var r := Enqueue(t, heads, p, q);
            (exists qs' :: QueuesOk(r.0, r.1, qs')) <==> t[p].waitingOn == NULL
  {
    var (t', heads') := Enqueue(t, heads, p, q);
    if t[p].waitingOn == NULL {
      EnqueueKeeps(t, heads, qs, p, q);
    } else {
      forall qs' ensures !QueuesOk(t', heads', qs') {
        RequeueBreaks(t, heads, qs, p, q, qs');
      }
    }
  }

  // Requeued on the same queue, p closes a cycle; on another, the old queue still reaches it.
  lemma RequeueBreaks(t: seq<Proc>, heads: seq<int>, qs: seq<seq<int>>, p: nat, q: nat, qs': seq<seq<int>>)
    requires QueuesOk(t, heads, qs) && Live(t, p) && q < |heads| && t[p].waitingOn != NULL
    ensures var r := Enqueue(t, heads, p, q); !QueuesOk(r.0, r.1, qs')
  {
    var (t', heads') := Enqueue(t, heads, p, q);
    hide Linked;
    var o := t[p].waitingOn;
    assert Waits(t, o, p) && o < |qs|;
    var k :| 0 <= k < |qs[o]| && qs[o][k] == p;
    var next, next' := WaitLinks(t), WaitLinks(t');
    LinkedDistinct(next, heads[o], qs[o]);
    if o == q {
      var ring := qs[q][..k + 1];
      forall i | 0 <= i <= k ensures 0 <= ring[i] < |next'| && next'[ring[i]] == ring[After(i, k + 1)] {
        LinkedNext(next, heads[q], qs[q], i);
        LinkedNext(next, heads[q], qs[q], 0);
      }
      if q < |qs'| { RingNeverEnds(next', ring, k, qs'[q]); }
    } else {
      assert !Waits(t', o, p);
      if o < |qs'| { ReachesPrefix(next, next', heads[o], qs[o], k, qs'[o]); }
    }
  }

  function After(i: nat, n: nat): nat { if i + 1 == n then 0 else i + 1 }

  // Following a ring never reaches NULL.
  lemma {:induction false} RingNeverEnds(next: seq<int>, ring: seq<int>, i: nat, ys: seq<int>)
    requires i < |ring|
    requires forall j :: 0 <= j < |ring| ==> 0 <= ring[j] < |next| && next[ring[j]] == ring[After(j, |ring|)]
    ensures !Linked(next, ring[i], ys)
    decreases |ys|
  {
    if ys != [] { RingNeverEnds(next, ring, After(i, |ring|), ys[1..]); }
  }

  // Up to its k-th entry, the first place where the links changed, a list is still followed.
  lemma {:induction false} ReachesPrefix(next: seq<int>, next': seq<int>, head: int, xs: seq<int>, k: nat, ys: seq<int>)
    requires Linked(next, head, xs) && k < |xs| && |next'| == |next|
    requires forall i :: 0 <= i < |next| && i != xs[k] ==> next'[i] == next[i]
    requires forall i, j :: 0 <= i < j < |xs| ==> xs[i] != xs[j]
    ensures Linked(next', head, ys) ==> k < |ys| && ys[k] == xs[k]
    decreases |xs|
  {
    if k > 0 && ys != [] {
      ReachesPrefix(next, next', next[head], xs[1..], k - 1, ys[1..]);
    }
  }

  // ----- removing from a queue -----

  // Takes entry p off queue q, where `pred` is the entry before it (NULL when p is the head).
  function Unqueue(t: seq<Proc>, heads: seq<int>, p: nat, q: nat, pred: int): (seq<Proc>, seq<int>)
    requires p < |t| && q < |heads| && (pred == NULL || 0 <= pred < |t|)
  {
    var t1 := if pred == NULL then t else t[pred := t[pred].(waitNext := t[p].waitNext)];
    (t1[p := t1[p].(waitNext := NULL, waitingOn := NULL)],
     if pred == NULL then heads[q := t[p].waitNext] else heads)
  }

  // Unlinking keeps the order of the rest, wherever p stood.
  lemma UnqueueKeeps(t: seq<Proc>, heads: seq<int>, qs: seq<seq<int>>, q: nat, k: nat)
    requires QueuesOk(t, heads, qs) && q < |heads| && k < |qs[q]|
    ensures 0 <= qs[q][k] < |t| && (k > 0 ==> 0 <= qs[q][k - 1] < |t|)
    ensures var r := Unqueue(t, heads, qs[q][k], q, if k == 0 then NULL else qs[q][k - 1]);
            QueuesOk(r.0, r.1, qs[q := Without(qs[q], k)])
  {
    hide Linked;
    var xs, p, pred := qs[q], qs[q][k], if k == 0 then NULL else qs[q][k - 1];
    var next := WaitLinks(t);
    assert p in xs && (k > 0 ==> xs[k - 1] in xs);
    LinkedInRange(next, heads[q], xs);
    LinkedDistinct(next, heads[q], xs);
    LinkedNext(next, heads[q], xs, k);
    LinkedSuffix(next, heads[q], xs, k + 1);
    var next1 := if pred == NULL then next else next[pred := next[p]];
    if k > 0 { LinkedUnlink(next, heads[q], xs, k); } else { assert Without(xs, 0) == xs[1..]; }
    UnqueueRest(t, heads, qs, q, k, next1);
  }

  lemma UnqueueRest(t: seq<Proc>, heads: seq<int>, qs: seq<seq<int>>, q: nat, k: nat, next1: seq<int>)
    requires QueuesOk(t, heads, qs) && q < |heads| && k < |qs[q]|
    requires forall i, j :: 0 <= i < j < |qs[q]| ==> qs[q][i] != qs[q][j]
    requires forall x :: x in qs[q] ==> 0 <= x < |t|
    requires 0 <= qs[q][k] < |t| && (k > 0 ==> 0 <= qs[q][k - 1] < |t|)
    requires next1 == if k == 0 then WaitLinks(t) else WaitLinks(t)[qs[q][k - 1] := t[qs[q][k]].waitNext]
    requires Linked(next1, if k == 0 then t[qs[q][k]].waitNext else heads[q], Without(qs[q], k))
    ensures var r := Unqueue(t, heads, qs[q][k], q, if k == 0 then NULL else qs[q][k - 1]);
            QueuesOk(r.0, r.1, qs[q := Without(qs[q], k)])
  {
    hide Linked;
    var p, pred := qs[q][k], if k == 0 then NULL else qs[q][k - 1];
    assert p in qs[q];
    var (t', heads') := Unqueue(t, heads, p, q, pred);
    var qs' := qs[q := Without(qs[q], k)];
    WithoutMembers(qs[q], k);
    forall i ensures Live(t', i) == Live(t, i) {}
    assert WaitLinks(t') == next1[p := NULL];
    LinkedFrame(next1, WaitLinks(t'), heads'[q], qs'[q]);
    forall r | 0 <= r < |heads| && r != q ensures Linked(WaitLinks(t'), heads'[r], qs'[r]) {
      assert Waits(t, q, p);
      if pred != NULL { assert pred in qs[q] && Waits(t, q, pred); }
      LinkedFrame(WaitLinks(t), WaitLinks(t'), heads[r], qs[r]);
    }
    forall r, d | 0 <= r < |heads| ensures d in qs'[r] <==> Waits(t', r, d) {
      assert d in qs[r] <==> Waits(t, r, d);
    }
  }

  // ----- wait_queue_wake_all -----

  ghost predicate Queued(qs: seq<seq<int>>, q: int, loose: seq<int>, r: int, p: int) {
    (0 <= r < |qs| && p in qs[r]) || (r == q && p in loose)
  }

  // The queues while the processes `loose`, linked from `at`, taken off queue q in one go, are
  // still to be woken.
  ghost predicate QueuesWith(t: seq<Proc>, heads: seq<int>, qs: seq<seq<int>>, q: int, at: int, loose: seq<int>) {
    && |qs| == |heads|
    && (forall r :: 0 <= r < |heads| ==> Linked(WaitLinks(t), heads[r], qs[r]))
    && Linked(WaitLinks(t), at, loose)
    && (forall r, p :: 0 <= r < |heads| ==> (Queued(qs, q, loose, r, p) <==> Waits(t, r, p)))
    && (forall r, p :: 0 <= r < |heads| && p in loose ==> p !in qs[r])
    && (forall p :: Live(t, p) ==> t[p].waitingOn == NULL || 0 <= t[p].waitingOn < |heads|)
  }

  lemma DetachAll(t: seq<Proc>, heads: seq<int>, qs: seq<seq<int>>, q: nat)
    requires QueuesOk(t, heads, qs) && q < |heads|
    ensures QueuesWith(t, heads[q := NULL], qs[q := []], q, heads[q], qs[q])
  {
    var qs' := qs[q := []];
    forall r, p | 0 <= r < |heads| ensures Queued(qs', q, qs[q], r, p) <==> Waits(t, r, p) {
      assert p in qs[r] <==> Waits(t, r, p);
    }
    forall r, p | 0 <= r < |heads| && p in qs[q] ensures p !in qs'[r] {
      if r != q { assert Waits(t, q, p) && (p in qs[r] <==> Waits(t, r, p)); }
    }
  }

  lemma WakeLoose(t: seq<Proc>, t': seq<Proc>, heads: seq<int>, qs: seq<seq<int>>, q: nat, loose: seq<int>)
    requires q < |heads| && loose != [] && QueuesWith(t, heads, qs, q, loose[0], loose)
    requires |t'| == |t| && 0 <= loose[0] < |t|
    requires t'[loose[0]].waitNext == NULL && t'[loose[0]].waitingOn == NULL && !t'[loose[0]].state.Unused?
    requires forall i :: 0 <= i < |t| && i != loose[0] ==> t'[i] == t[i]
    ensures QueuesWith(t', heads, qs, q, t[loose[0]].waitNext, loose[1..])
  {
    var c := loose[0];
    assert c in loose && loose == [c] + loose[1..];
    LinkedDistinct(WaitLinks(t), c, loose);
    LinkedSuffix(WaitLinks(t), c, loose, 1);
    LinkedNext(WaitLinks(t), c, loose, 0);
    hide Linked;
    assert Queued(qs, q, loose, q, c) <==> Waits(t, q, c);
    forall i ensures Live(t', i) == Live(t, i) {}
    LinkedFrame(WaitLinks(t), WaitLinks(t'), t[c].waitNext, loose[1..]);
    forall r | 0 <= r < |heads| ensures Linked(WaitLinks(t'), heads[r], qs[r]) {
      LinkedFrame(WaitLinks(t), WaitLinks(t'), heads[r], qs[r]);
    }
    forall r, p | 0 <= r < |heads| ensures Queued(qs, q, loose[1..], r, p) <==> Waits(t', r, p) {
      assert Queued(qs, q, loose, r, p) <==> Waits(t, r, p);
      assert c !in loose[1..];
      if p == c { assert c !in qs[r]; }
    }
    forall r, p | 0 <= r < |heads| && p in loose[1..] ensures p !in qs[r] {
      assert p in loose;
    }
  }

  lemma AllWoken(t: seq<Proc>, heads: seq<int>, qs: seq<seq<int>>, q: int, at: int)
    requires QueuesWith(t, heads, qs, q, at, [])
    ensures QueuesOk(t, heads, qs)
  {
    forall r, p | 0 <= r < |heads| ensures p in qs[r] <==> Waits(t, r, p) {
      assert Queued(qs, q, [], r, p) <==> Waits(t, r, p);
    }
  }
}
