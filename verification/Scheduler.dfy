/**
 Choosing the next process: the scan compares scores divided by weights through cross products.
 */
module Scheduler {
  import opened Lists
  import opened ProcTable

  const TIMESLICE: nat := 10
  const AGING_MAX: int := 32
  const PRIORITY_MAX: nat := 7
  const PRIORITY_DEFAULT: nat := 3
  const PRIORITY_KERNEL: nat := 0
  const WEIGHTS: seq<nat> := [256, 224, 192, 160, 128, 112, 96, 80]

  function Clamp(level: nat): (c: nat)
    ensures c <= PRIORITY_MAX
  {
    if level > PRIORITY_MAX then PRIORITY_MAX else level
  }

  // scheduler_set_priority
  function WithPriority(p: Proc, level: nat): Proc {
    p.(basePriority := Clamp(level), weight := WEIGHTS[Clamp(level)])
  }

  // Levels past 7 count as 7, and a higher level has a lower weight.
  lemma PriorityLevels(p: Proc, level: nat)
    ensures var q := WithPriority(p, level);
            && q == p.(basePriority := q.basePriority, weight := q.weight)
            && q.basePriority == (if level > 7 then 7 else level)
            && q.weight == (if q.basePriority <= 4 then 256 - 32 * q.basePriority else 192 - 16 * q.basePriority)
  {}

  // ----- the order -----

  function WeightOf(p: Proc): (w: nat)
    ensures w > 0
  {
    if p.weight != 0 then p.weight else WEIGHTS[PRIORITY_DEFAULT]
  }

  function Score(p: Proc): int { (p.basePriority - p.aging) * 1024 }

  // The driver's test: a replaces b as the best so far.
  predicate Beats(a: Proc, b: Proc) {
    var lhs, rhs := Score(a) * WeightOf(b), Score(b) * WeightOf(a);
    lhs < rhs || (lhs == rhs && a.pid < b.pid)
  }

  // What it means: aged priority per weight, lower first, then pid. Without a weight, that of the
  // default level counts.
  ghost function Urgency(p: Proc): real {
    (p.basePriority - p.aging) as real / (if p.weight == 0 then 160 else p.weight) as real
  }

  ghost predicate Before(a: Proc, b: Proc) {
    Urgency(a) < Urgency(b) || (Urgency(a) == Urgency(b) && a.pid < b.pid)
  }

  lemma RatioOrder(x: real, v: real, y: real, w: real)
    requires v > 0.0 && w > 0.0
    ensures x / v < y / w <==> x * w < y * v
    ensures x / v == y / w <==> x * w == y * v
  {
    var a, b := x / v, y / w;
    assert x == a * v && y == b * w;
    assert x * w == a * (v * w) && y * v == b * (v * w);
    assert v * w > 0.0;
    assert y * v - x * w == (b - a) * (v * w);
    if b > a { assert (b - a) * (v * w) > 0.0; }
    if b < a { assert (a - b) * (v * w) > 0.0; }
  }

  lemma CastMul(x: int, w: int)
    ensures (x * w) as real == x as real * w as real
  {}

  // Cross-multiplying is exact, also for negative scores.
  lemma BeatsIsBefore(a: Proc, b: Proc)
    ensures Beats(a, b) <==> Before(a, b)
  {
    var x, y, v, w := a.basePriority - a.aging, b.basePriority - b.aging, WeightOf(a), WeightOf(b);
    RatioOrder(x as real, v as real, y as real, w as real);
    CastMul(x, w);
    CastMul(y, v);
    assert Score(a) * w == 1024 * (x * w) && Score(b) * v == 1024 * (y * v);
  }

  lemma BeforeTransitive(a: Proc, b: Proc, c: Proc)
    requires !Before(b, a) && !Before(c, b)
    ensures !Before(c, a)
  {}

  // ----- the scan -----

  ghost predicate IsRunnable(t: seq<Proc>, i: int) { 0 <= i < |t| && t[i].state.Runnable? }

  // i is runnable and nothing runnable comes before it.
  ghost predicate IsBest(t: seq<Proc>, i: int) {
    IsRunnable(t, i) && forall j :: IsRunnable(t, j) ==> !Before(t[j], t[i])
  }

  // With distinct pids there is only one best process, wherever the scan starts.
  lemma BestUnique(t: seq<Proc>, i: int, j: int)
    requires PidsOk(t) && IsBest(t, i) && IsBest(t, j)
    ensures i == j
  {
    assert Live(t, i) && Live(t, j);
  }

  // Scans all slots from `start` on, wrapping round; NULL when nothing is runnable.
  method PickNext(t: array<Proc>, start: nat) returns (next: int)
    requires t.Length == MAX_PROCESSES && start < MAX_PROCESSES
    ensures if next == NULL then forall j :: !IsRunnable(t[..], j) else IsBest(t[..], next)
  {
    next := NULL;
    var bestScore, bestWeight := 0, 0;
    ghost var s := t[..];
    for i := 0 to MAX_PROCESSES
      invariant next == NULL ==> forall j :: IsRunnable(s, j) ==> !Scanned(start, i, j)
      invariant next != NULL ==> IsRunnable(s, next) && bestScore == Score(s[next]) && bestWeight == WeightOf(s[next])
      invariant next != NULL ==> forall j :: IsRunnable(s, j) && Scanned(start, i, j) ==> !Before(s[j], s[next])
    {
      var idx := (start + i) % MAX_PROCESSES;
      var proc := t[idx];
      ScannedNext(start, i);
      if !proc.state.Runnable? { continue; }
      var weight, score := WeightOf(proc), Score(proc);
      if next == NULL {
        next, bestScore, bestWeight := idx, score, weight;
        continue;
      }
      BeatsIsBefore(proc, s[next]);
      var lhs, rhs := score * bestWeight, bestScore * weight;
      if lhs < rhs || (lhs == rhs && proc.pid < t[next].pid) {
        forall j | IsRunnable(s, j) && Scanned(start, i, j) ensures !Before(s[j], proc) {
          BeforeTransitive(proc, s[next], s[j]);
        }
        next, bestScore, bestWeight := idx, score, weight;
      }
    }
  }

  // Slot j is among the first i slots from `start` on.
  ghost predicate Scanned(start: nat, i: nat, j: int) {
    start <= j < start + i || j < start + i - MAX_PROCESSES
  }

  lemma ScannedNext(start: nat, i: nat)
    requires start < MAX_PROCESSES && i < MAX_PROCESSES
    ensures forall j :: 0 <= j < MAX_PROCESSES ==>
              (Scanned(start, i + 1, j) <==> Scanned(start, i, j) || j == (start + i) % MAX_PROCESSES)
  {}
}
