/** The five scheduling policies of proc.c. */
module Scheduler {
  import opened ProcProtocol
  import opened Basics
  import Random

  ghost predicate NoneRunnable(procs: seq<Proc>) {
    forall i :: 0 <= i < |procs| ==> procs[i].state != RUNNABLE
  }

  // ----- first come, shortest, best: the lowest slot with the least key -----

  /** Orders of preference between two processes. */
  datatype Policy = FCFS | SJF | BJF

  predicate Better(policy: Policy, p: Proc, q: Proc) {
    match policy
    case FCFS => p.createtime < q.createtime
    case SJF => p.burst < q.burst
    case BJF => p.priority < q.priority || (p.priority == q.priority && p.createtime < q.createtime)
  }

  /** r is runnable, no runnable process is better, and equally good ones sit in higher slots. */
  ghost predicate LowestBest(policy: Policy, procs: seq<Proc>, r: int) {
    && 0 <= r < |procs| && procs[r].state == RUNNABLE
    && forall i :: 0 <= i < |procs| && procs[i].state == RUNNABLE ==>
         !Better(policy, procs[i], procs[r]) && (i < r ==> Better(policy, procs[r], procs[i]))
  }

  /** There is at most one such slot, so the policy determines the choice. */
  lemma LowestBestUnique(policy: Policy, procs: seq<Proc>, r: int, s: int)
    requires LowestBest(policy, procs, r) && LowestBest(policy, procs, s)
    ensures r == s
  {
    assert procs[r].state == RUNNABLE && procs[s].state == RUNNABLE;
  }

  /** FCFS: the runnable process created first, or -1 when none is runnable. */
  method PickFcfs(procs: array<Proc>) returns (first: int)
    ensures first == -1 <==> NoneRunnable(procs[..])
    ensures first != -1 ==> LowestBest(FCFS, procs[..], first)
  {
    first := -1;
    for i := 0 to procs.Length
      invariant first == -1 <==> NoneRunnable(procs[..i])
      invariant first != -1 ==> LowestBest(FCFS, procs[..i], first)
    {
      if procs[i].state == RUNNABLE {
        assert procs[..i + 1][i].state == RUNNABLE;
        if first == -1 || procs[i].createtime < procs[first].createtime { first := i; }
      }
    }
    assert procs[..procs.Length] == procs[..];
  }

  /** SJF: the runnable process with the least estimated burst. */
  method PickSjf(procs: array<Proc>) returns (shortest: int)
    ensures shortest == -1 <==> NoneRunnable(procs[..])
    ensures shortest != -1 ==> LowestBest(SJF, procs[..], shortest)
  {
    shortest := -1;
    for i := 0 to procs.Length
      invariant shortest == -1 <==> NoneRunnable(procs[..i])
      invariant shortest != -1 ==> LowestBest(SJF, procs[..i], shortest)
    {
      if procs[i].state == RUNNABLE {
        assert procs[..i + 1][i].state == RUNNABLE;
        if shortest == -1 || procs[i].burst < procs[shortest].burst { shortest := i; }
      }
    }
    assert procs[..procs.Length] == procs[..];
  }

  /** BJF: the runnable process with the least priority number, the oldest of those. */
  method PickBjf(procs: array<Proc>) returns (best: int)
    ensures best == -1 <==> NoneRunnable(procs[..])
    ensures best != -1 ==> LowestBest(BJF, procs[..], best)
  {
    best := -1;
    for i := 0 to procs.Length
      invariant best == -1 <==> NoneRunnable(procs[..i])
      invariant best != -1 ==> LowestBest(BJF, procs[..i], best)
    {
      if procs[i].state == RUNNABLE {
        assert procs[..i + 1][i].state == RUNNABLE;
        if best == -1 || procs[i].priority < procs[best].priority
           || (procs[i].priority == procs[best].priority && procs[i].createtime < procs[best].createtime) {
          best := i;
        }
      }
    }
    assert procs[..procs.Length] == procs[..];
  }

  // ----- random -----

  /** How many of the first n slots are runnable. */
  function Count(procs: seq<Proc>, n: nat): (c: nat)
    requires n <= |procs|
    ensures c <= n
  {
    if n == 0 then 0 else Count(procs, n - 1) + if procs[n - 1].state == RUNNABLE then 1 else 0
  }

  lemma {:induction false} CountRises(procs: seq<Proc>, m: nat, n: nat)
    requires m <= n <= |procs|
    ensures Count(procs, m) <= Count(procs, n)
    decreases n
  {
    if m < n { CountRises(procs, m, n - 1); }
  }

  /** r is the runnable process with exactly idx runnable ones below it. */
  ghost predicate Nth(procs: seq<Proc>, idx: nat, r: int) {
    0 <= r < |procs| && procs[r].state == RUNNABLE && Count(procs, r) == idx
  }

  lemma NthUnique(procs: seq<Proc>, idx: nat, r: int, s: int)
    requires Nth(procs, idx, r) && Nth(procs, idx, s)
    ensures r == s
  {
    if r < s { CountRises(procs, r + 1, s); }
    if s < r { CountRises(procs, s + 1, r); }
  }

  lemma NthBelow(procs: seq<Proc>, idx: nat, r: int)
    requires Nth(procs, idx, r)
    ensures idx < Count(procs, |procs|)
  {
    CountRises(procs, r + 1, |procs|);
  }

  /** The random policy: the index drawn by the generator, among the runnable processes. */
  method PickRandom(procs: array<Proc>, seed: nat) returns (chosen: int, seed': nat)
    ensures var n := Count(procs[..], procs.Length);
            && (n == 0 ==> chosen == -1 && seed' == seed)
            && (n > 0 ==> seed' == Random.Rand(seed) && Nth(procs[..], Random.Draw(seed, 0, n), chosen))
  {
    var n := 0;
    for i := 0 to procs.Length
      invariant n == Count(procs[..], i)
    {
      if procs[i].state == RUNNABLE { n := n + 1; }
    }
    if n == 0 { return -1, seed; }
    seed' := Random.Rand(seed);
    assert Random.Seed(seed, 0) == seed && Random.Seed(seed, 1) == seed';
    var target := seed' % n;
    var k := 0;
    var p := 0;
    while p < procs.Length
      invariant 0 <= p <= procs.Length && k == Count(procs[..], p) <= target
    {
      if procs[p].state == RUNNABLE {
        if k == target { return p, seed'; }
        k := k + 1;
      }
      p := p + 1;
    }
    assert false;
  }

  /** While the same 2^k processes stay runnable, any 2^k consecutive picks choose each of them
      exactly once: p is the pick of one call in the round and of no other. */
  lemma RandomIsFair(procs: seq<Proc>, seed: nat, start: nat, k: nat, picks: seq<int>, p: nat) returns (j: nat)
    requires k <= 32 && Count(procs, |procs|) == Pow2(k) && p < |procs| && procs[p].state == RUNNABLE
    requires |picks| == Pow2(k)
    requires forall m :: 0 <= m < |picks| ==> Nth(procs, Random.Draw(seed, start + m, Pow2(k)), picks[m])
    ensures j < |picks| && picks[j] == p
    ensures forall m :: 0 <= m < |picks| && m != j ==> picks[m] != p
  {
    hide Pow2, Random.Draw, Count;
    var i := Count(procs, p);
    NthBelow(procs, i, p);
    Random.FullPeriod(seed, start, k, i);
    var round := Random.Round(seed, start, k);
    assert i in multiset(round);
    j :| 0 <= j < |round| && round[j] == i;
    assert Random.Draw(seed, start + j, Pow2(k)) == i;
    NthUnique(procs, i, picks[j], p);
    forall m | 0 <= m < |picks| && m != j ensures picks[m] != p {
      if m < j {
        Random.DrawsDiffer(seed, start + m, start + j, k);
      } else {
        Random.DrawsDiffer(seed, start + j, start + m, k);
      }
    }
  }

  // ----- round robin -----

  /** The scan of the round-robin loop: one slot per step, and after the last slot the table lock is
      dropped for a moment (cursor NPROC) before the next pass. */
  function Cursor(c: nat, k: nat): (r: nat)
    requires c <= NPROC
    ensures r <= NPROC
    decreases k
  {
    if k == 0 then c else if Cursor(c, k - 1) == NPROC then 0 else Cursor(c, k - 1) + 1
  }

  /** Step k, on the table as it is then, dispatches the slot under the cursor if it is runnable. */
  predicate Dispatches(tables: seq<seq<Proc>>, c: nat, k: nat)
    requires c <= NPROC && k < |tables| && |tables[k]| == NPROC
  {
    Cursor(c, k) < NPROC && tables[k][Cursor(c, k)].state == RUNNABLE
  }

  ghost predicate Tables(tables: seq<seq<Proc>>) {
    forall k :: 0 <= k < |tables| ==> |tables[k]| == NPROC
  }

  ghost function Dispatched(tables: seq<seq<Proc>>, c: nat, k: nat): (n: nat)
    requires c <= NPROC && k <= |tables| && Tables(tables)
    ensures n <= k
  {
    if k == 0 then 0 else Dispatched(tables, c, k - 1) + if Dispatches(tables, c, k - 1) then 1 else 0
  }

  lemma {:induction false} CursorIs(c: nat, k: nat)
    requires c <= NPROC && k <= NPROC
    ensures Cursor(c, k) == if c + k <= NPROC then c + k else c + k - (NPROC + 1)
  {
    if k > 0 { CursorIs(c, k - 1); }
  }

  /** A pass through the whole table skips one step at its end. */
  lemma {:induction false} PassEnds(tables: seq<seq<Proc>>, c: nat, k: nat)
    requires c <= NPROC && NPROC - c < k <= |tables| && k <= NPROC + 1 && Tables(tables)
    ensures Dispatched(tables, c, k) < k
    decreases k
  {
    CursorIs(c, k - 1);
    if k - 1 > NPROC - c { PassEnds(tables, c, k - 1); }
  }

  /** However the other processes come and go, a process that stays runnable is dispatched after at
      most NPROC - 1 other dispatches. */
  lemma RoundRobinBound(tables: seq<seq<Proc>>, c: nat, p: nat) returns (k: nat)
    requires c <= NPROC && p < NPROC && |tables| == NPROC + 1 && Tables(tables)
    requires forall j :: 0 <= j < |tables| ==> tables[j][p].state == RUNNABLE
    ensures k < |tables| && Dispatches(tables, c, k) && Cursor(c, k) == p
    ensures Dispatched(tables, c, k) <= NPROC - 1
  {
    k := if c <= p then p - c else p + NPROC + 1 - c;
    CursorIs(c, k);
    if k == NPROC { PassEnds(tables, c, k); }
  }

  /** The next slot the round-robin loop dispatches when nothing changes meanwhile. */
  method RoundRobinNext(procs: array<Proc>, from: nat) returns (r: nat)
    requires from <= procs.Length
    ensures from <= r <= procs.Length && (r < procs.Length ==> procs[r].state == RUNNABLE)
    ensures forall i :: from <= i < r ==> procs[i].state != RUNNABLE
  {
    r := from;
    while r < procs.Length && procs[r].state != RUNNABLE
      invariant from <= r <= procs.Length
      invariant forall i :: from <= i < r ==> procs[i].state != RUNNABLE
    {
      r := r + 1;
    }
  }
}
