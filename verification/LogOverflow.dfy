/** The guard of log_write is tested before log.lock is taken.  Operations that all keep their promise
    can therefore list more blocks than the log region holds, and write_log then writes past the
    region; exactly which layouts allow that, and exactly which are crash safe. */
module LogOverflow {
  import opened Basics
  import opened Blocks
  import opened LogFormat
  import opened Wrappers
  import opened LogMachine

  // ----- home blocks -----

  /** The k-th block outside the log region. */
  ghost function HomeBlock(l: Layout, k: nat): nat {
    if k < l.start then k else k + l.nlog
  }

  lemma HomeBlocks(l: Layout, k: nat)
    requires l.Valid() && k + l.nlog < l.size
    ensures l.Home(HomeBlock(l, k)) && forall j: nat :: j != k ==> HomeBlock(l, j) != HomeBlock(l, k)
  {
  }

  /** A list of different home blocks is no longer than there are home blocks. */
  lemma HomeCount(l: Layout, lh: seq<nat>)
    requires l.Valid() && AllDifferent(lh) && forall i :: 0 <= i < |lh| ==> l.Home(lh[i])
    ensures |lh| + l.nlog <= l.size
  {
    var region := seq(l.nlog, i requires 0 <= i < l.nlog => l.start + i);
    var all := lh + region;
    assert AllDifferent(all) by {
      assert forall i :: 0 <= i < |lh| ==> !(l.start <= lh[i] < l.start + l.nlog);
    }
    ElementsCount(all);
    forall x | x in Elements(all) ensures x in Below(l.size) {
      if x in lh { assert exists i :: 0 <= i < |lh| && lh[i] == x; }
    }
    SubsetCount(Elements(all), Below(l.size));
  }

  // ----- building runs -----

  lemma Extend(l: Layout, d: Disk, ss: seq<State>, acts: seq<Action>, a: Action) returns (ss': seq<State>, acts': seq<Action>)
    requires PromisedRun(l, d, ss, acts)
    requires Enabled(l, ss[|acts|], a) && Promised(ss[|acts|], a)
    ensures PromisedRun(l, d, ss', acts')
    ensures acts' == acts + [a] && ss' == ss + [Next(l, ss[|acts|], a)]
  {
    acts' := acts + [a];
    ss' := ss + [Next(l, ss[|acts|], a)];
    forall i | 0 <= i < |acts'| ensures Follows(l, ss'[i], acts'[i], ss'[i + 1]) && Promised(ss'[i], acts'[i]) {
      if i < |acts| { assert Follows(l, ss[i], acts[i], ss[i + 1]) && Promised(ss[i], acts[i]); }
    }
  }

  /** Recovered, no operation begun yet, the disk as recovery left it. */
  ghost predicate Idle(l: Layout, s: State, d: Disk) {
    && s.mode == Up && !s.committing && s.lh == [] && s.open == [] && s.asleep == {} && s.outstanding == 0
    && s.disk == s.view == d && |d| == l.size && s.committed == []
  }

  lemma Booted(l: Layout, d: Disk) returns (ss: seq<State>, acts: seq<Action>)
    requires Clean(l, d)
    ensures PromisedRun(l, d, ss, acts) && Idle(l, ss[|acts|], Recover(l, d)) && acts == [DiskWrite, FinishRecovery]
  {
    RecoverClean(l, d);
    ss, acts := [Boot(l, d)], [];
    assert PromisedRun(l, d, ss, acts);
    hide PromisedRun, Recover;
    NoCommitPoint(l, d, 0);
    ss, acts := Extend(l, d, ss, acts, DiskWrite);
    ss, acts := Extend(l, d, ss, acts, FinishRecovery);
  }

  /** Three operations open that have logged the first k home blocks in turn. */
  ghost predicate Filling(l: Layout, s: State, d: Disk, k: nat) {
    && s.mode == Up && !s.committing && s.outstanding == 3 && |s.open| == 3
    && s.disk == d && |s.view| == |d| == l.size && s.committed == []
    && |s.lh| == k && (forall i :: 0 <= i < k ==> s.lh[i] == HomeBlock(l, i))
    && forall j :: 0 <= j < 3 ==> s.open[j].added == Share(k, j) && s.open[j].pending.None?
  }

  /** How many of the first k blocks operation j of three gets in turn. */
  ghost function Share(k: nat, j: nat): nat
    requires j < 3
  {
    (k + 2 - j) / 3
  }

  lemma ShareNext(k: nat, j: nat)
    requires j < 3
    ensures Share(k + 1, j) == Share(k, j) + if k % 3 == j then 1 else 0
    ensures k < LOGSIZE && k % 3 == j ==> Share(k, j) < MAXOPBLOCKS
  {
  }

  lemma Opened(l: Layout, d: Disk, ss: seq<State>, acts: seq<Action>, p: nat) returns (ss': seq<State>, acts': seq<Action>)
    requires PromisedRun(l, d, ss, acts)
    requires var s := ss[|acts|]; s.mode == Up && !MustWait(s) && p !in s.asleep
    ensures PromisedRun(l, d, ss', acts') && ss'[|acts'|] == Begin(ss[|acts|], p)
  {
    hide Begin, MustWait;
    ss', acts' := Extend(l, d, ss, acts, BeginOp(p));
  }

  lemma ThreeOpen(l: Layout, d: Disk) returns (ss: seq<State>, acts: seq<Action>)
    requires Clean(l, d)
    ensures PromisedRun(l, d, ss, acts) && Filling(l, ss[|acts|], Recover(l, d), 0)
  {
    hide Run, Recover;
    ss, acts := Booted(l, d);
    ss, acts := Opened(l, d, ss, acts, 0);
    ss, acts := Opened(l, d, ss, acts, 1);
    ss, acts := Opened(l, d, ss, acts, 2);
  }

  /** An append of a new block, where the array has room. */
  lemma AppendsNew(l: Layout, s: State, i: nat, b: nat, data: Block)
    requires s.mode == Up && i < |s.open| && s.open[i].pending == Some(b) && b !in s.lh && |s.lh| < LOGSIZE && b < |s.view|
    ensures var t := Next(l, s, Append(i, data));
            && Enabled(l, s, Append(i, data)) && t.lh == s.lh + [b] && t.view == s.view[b := data]
            && t.open == s.open[i := s.open[i].(pending := None, added := s.open[i].added + 1)]
            && t.mode == Up && t.committing == s.committing && t.outstanding == s.outstanding
            && t.disk == s.disk && t.committed == s.committed
  {
  }

  lemma FillOne(l: Layout, s: State, d: Disk, k: nat, data: Block)
    requires l.Valid() && Filling(l, s, d, k) && k < l.nlog - 1 && k < LOGSIZE && k + l.nlog < l.size
    ensures var c, a := Check(k % 3, HomeBlock(l, k)), Append(k % 3, data);
            && Enabled(l, s, c) && Promised(s, c) && Enabled(l, Next(l, s, c), a)
            && Filling(l, Next(l, Next(l, s, c), a), d, k + 1)
  {
    hide HomeBlock, Share, Appended;
    HomeBlocks(l, k);
    ShareNext(k, 0);
    ShareNext(k, 1);
    ShareNext(k, 2);
    AppendsNew(l, Checked(l, s, k % 3, HomeBlock(l, k)), k % 3, HomeBlock(l, k), data);
  }

  lemma {:induction false} FillTo(l: Layout, d: Disk, k: nat, data: Block) returns (ss: seq<State>, acts: seq<Action>)
    requires Clean(l, d) && k < l.nlog && k <= LOGSIZE && k + l.nlog <= l.size
    ensures PromisedRun(l, d, ss, acts) && Filling(l, ss[|acts|], Recover(l, d), k)
  {
    if k == 0 {
      ss, acts := ThreeOpen(l, d);
    } else {
      ss, acts := FillTo(l, d, k - 1, data);
      FillOne(l, ss[|acts|], Recover(l, d), k - 1, data);
      hide Filling, Next, Enabled, Recover;
      ss, acts := Extend(l, d, ss, acts, Check((k - 1) % 3, HomeBlock(l, k - 1)));
      ss, acts := Extend(l, d, ss, acts, Append((k - 1) % 3, data));
    }
  }

  // ----- the guard stops operations that keep their promise -----

  /** With a region of at most LOGSIZE blocks, as mkfs makes it, the guard stops a new block. */
  lemma PromisedRunCanPanic(l: Layout, d: Disk) returns (ss: seq<State>, acts: seq<Action>)
    requires Clean(l, d) && l.nlog <= LOGSIZE && 2 * l.nlog <= l.size
    ensures PromisedRun(l, d, ss, acts) && |acts| > 0
    ensures var a := acts[|acts| - 1]; a.Check? && a.bno !in ss[|acts| - 1].lh
    ensures ss[|acts|].mode == Panicked
  {
    var k := l.nlog - 1;
    ss, acts := FillTo(l, d, k, ZERO_BLOCK);
    HomeBlocks(l, k);
    ShareNext(k, k % 3);
    ss, acts := Extend(l, d, ss, acts, Check(k % 3, HomeBlock(l, k)));
  }

  /** With a larger region it stops a block that is listed already: it comes before absorption. */
  lemma AbsorbedWriteCanPanic(l: Layout, d: Disk) returns (ss: seq<State>, acts: seq<Action>)
    requires Clean(l, d) && l.nlog > LOGSIZE && l.nlog + LOGSIZE <= l.size
    ensures PromisedRun(l, d, ss, acts) && |acts| > 0
    ensures var a := acts[|acts| - 1]; a.Check? && a.bno in ss[|acts| - 1].lh
    ensures ss[|acts|].mode == Panicked
  {
    ss, acts := FillTo(l, d, LOGSIZE, ZERO_BLOCK);
    var b := HomeBlock(l, LOGSIZE - 1);
    HomeBlocks(l, LOGSIZE - 1);
    assert ss[|acts|].lh[LOGSIZE - 1] == b;
    ss, acts := Extend(l, d, ss, acts, Check(0, b));
  }

  // ----- it does not stop two at once -----

  /** As Filling, but operations i and j are past the guard with blocks k and k + 1. */
  ghost predicate Racing(l: Layout, s: State, d: Disk, k: nat, i: nat, j: nat) {
    && s.mode == Up && !s.committing && s.outstanding == 3 && |s.open| == 3 && i < 3 && j < 3 && i != j
    && s.disk == d && |s.view| == |d| == l.size && s.committed == []
    && |s.lh| == k && (forall m :: 0 <= m < k ==> s.lh[m] == HomeBlock(l, m))
    && (forall m :: 0 <= m < 3 ==> s.open[m].added == Share(k, m) && (m != i && m != j ==> s.open[m].pending.None?))
    && s.open[i].pending == Some(HomeBlock(l, k)) && s.open[j].pending == Some(HomeBlock(l, k + 1))
  }

  /** It is the turn of i and then of j. */
  ghost predicate Turns(k: nat, i: nat, j: nat) {
    && i < 3 && j < 3 && i != j && Share(k, i) < MAXOPBLOCKS && Share(k, j) < MAXOPBLOCKS
    && forall m :: 0 <= m < 3 ==> Share(k + 2, m) == Share(k, m) + if m == i || m == j then 1 else 0
  }

  lemma TurnsOf(k: nat)
    requires k + 2 <= LOGSIZE
    ensures Turns(k, k % 3, (k + 1) % 3)
  {
    forall m | 0 <= m < 3 ensures Share(k + 2, m) == Share(k, m) + if k % 3 == m || (k + 1) % 3 == m then 1 else 0 {
      ShareNext(k, m);
      ShareNext(k + 1, m);
    }
    ShareNext(k, k % 3);
    ShareNext(k, (k + 1) % 3);
    ShareNext(k + 1, (k + 1) % 3);
  }

  /** Both find one place left. */
  lemma BothCheck(l: Layout, s: State, d: Disk, k: nat, i: nat, j: nat)
    requires l.Valid() && k + 2 == l.nlog <= LOGSIZE && 2 * l.nlog <= l.size && Filling(l, s, d, k) && Turns(k, i, j)
    ensures var a, b := Check(i, HomeBlock(l, k)), Check(j, HomeBlock(l, k + 1));
            && Enabled(l, s, a) && Promised(s, a) && Enabled(l, Next(l, s, a), b) && Promised(Next(l, s, a), b)
            && Racing(l, Next(l, Next(l, s, a), b), d, k, i, j)
  {
    hide HomeBlock, Share;
    HomeBlocks(l, k);
    HomeBlocks(l, k + 1);
  }

  /** Both append. */
  lemma BothAppend(l: Layout, s: State, d: Disk, k: nat, i: nat, j: nat, data: Block)
    requires l.Valid() && k + 2 == l.nlog <= LOGSIZE && 2 * l.nlog <= l.size && Racing(l, s, d, k, i, j) && Turns(k, i, j)
    ensures var a, b := Append(i, data), Append(j, data);
            && Enabled(l, s, a) && Enabled(l, Next(l, s, a), b)
            && Filling(l, Next(l, Next(l, s, a), b), d, k + 2)
            && Next(l, Next(l, s, a), b).view[HomeBlock(l, k + 1)] == data
  {
    hide HomeBlock, Share, Next, Enabled;
    HomeBlocks(l, k);
    HomeBlocks(l, k + 1);
    AppendsNew(l, s, i, HomeBlock(l, k), data);
    AppendsNew(l, Next(l, s, Append(i, data)), j, HomeBlock(l, k + 1), data);
  }

  /** The list outgrows the region. */
  lemma OutgrownRun(l: Layout, d: Disk, data: Block) returns (ss: seq<State>, acts: seq<Action>)
    requires Clean(l, d) && 2 <= l.nlog <= LOGSIZE && 2 * l.nlog <= l.size
    ensures PromisedRun(l, d, ss, acts) && Filling(l, ss[|acts|], Recover(l, d), l.nlog)
    ensures HomeBlock(l, l.nlog - 1) < l.size && ss[|acts|].view[HomeBlock(l, l.nlog - 1)] == data
  {
    hide Next, Enabled, Recover, Racing, HomeBlock, Promised, Share;
    var k := l.nlog - 2;
    var i, j := k % 3, (k + 1) % 3;
    HomeBlocks(l, k + 1);
    TurnsOf(k);
    ss, acts := FillTo(l, d, k, data);
    BothCheck(l, ss[|acts|], Recover(l, d), k, i, j);
    ss, acts := Extend(l, d, ss, acts, Check(i, HomeBlock(l, k)));
    ss, acts := Extend(l, d, ss, acts, Check(j, HomeBlock(l, k + 1)));
    BothAppend(l, ss[|acts|], Recover(l, d), k, i, j, data);
    ss, acts := Extend(l, d, ss, acts, Append(i, data));
    ss, acts := Extend(l, d, ss, acts, Append(j, data));
  }

  // ----- write_log then writes past the region -----

  lemma ThreeEnds(l: Layout, d: Disk, ss: seq<State>, acts: seq<Action>) returns (ss': seq<State>, acts': seq<Action>)
    requires PromisedRun(l, d, ss, acts) && Filling(l, ss[|acts|], Recover(l, d), l.nlog)
    ensures PromisedRun(l, d, ss', acts')
    ensures var s, t := ss[|acts|], ss'[|acts'|];
            && t.mode == Up && t.committing && t.pos == 0 && t.plan == CommitPlan(l, s) && t.lh == s.lh
            && t.disk == s.disk && t.committed == s.committed
  {
    hide Recover, CommitPlan;
    ss', acts' := Extend(l, d, ss, acts, EndOp(0));
    ss', acts' := Extend(l, d, ss', acts', EndOp(0));
    ghost var s := ss'[|acts'|];
    ss', acts' := Extend(l, d, ss', acts', EndOp(0));
    assert CommitPlan(l, s) == CommitPlan(l, ss[|acts|]) by { SamePlan(l, ss[|acts|], s); }
  }

  lemma SamePlan(l: Layout, s: State, t: State)
    requires t.disk == s.disk && t.view == s.view && t.lh == s.lh
    ensures CommitPlan(l, t) == CommitPlan(l, s)
  {
  }

  /** m block writes into a commit of a list as long as the region: only log blocks are written, the
      last one past the region. */
  ghost predicate Spilling(l: Layout, s: State, d: Disk, data: Block, m: nat) {
    && l.Valid() && l.start + l.nlog < l.size == |s.disk| == |d|
    && s.mode == (if m < l.nlog then Up else Overflowed) && |s.lh| == l.nlog == |s.plan| && s.pos == m <= l.nlog
    && (forall t :: 0 <= t < l.nlog ==> s.plan[t].bno == l.start + 1 + t) && s.plan[l.nlog - 1].data == data
    && s.committed == [] && s.disk[l.start] == d[l.start]
    && (m == l.nlog ==> s.disk[l.start + l.nlog] == data)
  }

  lemma {:induction false} Spill(l: Layout, d: Disk, ss: seq<State>, acts: seq<Action>, e: Disk, data: Block, m: nat)
    returns (ss': seq<State>, acts': seq<Action>)
    requires m <= l.nlog && PromisedRun(l, d, ss, acts) && Spilling(l, ss[|acts|], e, data, 0)
    ensures PromisedRun(l, d, ss', acts') && Spilling(l, ss'[|acts'|], e, data, m)
  {
    if m == 0 {
      ss', acts' := ss, acts;
    } else {
      ss', acts' := Spill(l, d, ss, acts, e, data, m - 1);
      ss', acts' := Extend(l, d, ss', acts', DiskWrite);
    }
  }

  /** From any clean disk, operations that keep their promise come to a state in which a home block
      has contents that no commit gave it, on the disk and after recovery. */
  lemma SpilledRun(l: Layout, d: Disk, data: Block) returns (ss: seq<State>, acts: seq<Action>)
    requires Clean(l, d) && 2 <= l.nlog <= LOGSIZE && 2 * l.nlog <= l.size && l.start + l.nlog < l.size
    ensures PromisedRun(l, d, ss, acts)
    ensures var s := ss[|acts|];
            && s.mode == Overflowed && s.committed == [] && Clean(l, s.disk)
            && Recover(l, s.disk)[l.start + l.nlog] == data
  {
    ss, acts := OutgrownRun(l, d, data);
    var s := ss[|acts|];
    SpillPlan(l, s, Recover(l, d), data);
    RecoveredIsClean(l, d);
    hide Recover, PromisedRun, CommitPlan;
    ss, acts := ThreeEnds(l, d, ss, acts);
    ss, acts := Spill(l, d, ss, acts, Recover(l, d), data, l.nlog);
    RecoverClean(l, ss[|acts|].disk);
  }

  lemma SpillPlan(l: Layout, s: State, d: Disk, data: Block)
    requires l.Valid() && 1 <= l.nlog && 2 * l.nlog <= l.size && Filling(l, s, d, l.nlog)
    requires HomeBlock(l, l.nlog - 1) < l.size && s.view[HomeBlock(l, l.nlog - 1)] == data
    ensures var plan := CommitPlan(l, s);
            && |plan| == l.nlog && (forall t :: 0 <= t < l.nlog ==> plan[t].bno == l.start + 1 + t)
            && plan[l.nlog - 1].data == data
  {
    forall i | 0 <= i < |s.lh| ensures s.lh[i] < |s.view| { HomeBlocks(l, i); }
    assert !CanCommit(l, s);
  }

  // ----- exactly when -----

  /** The region takes a block but not LOGSIZE of them, and there are enough blocks to outgrow it. */
  ghost predicate Tight(l: Layout) {
    2 <= l.nlog <= LOGSIZE && 2 * l.nlog <= l.size
  }

  ghost predicate Outgrows(l: Layout, d: Disk, ss: seq<State>, acts: seq<Action>) {
    PromisedRun(l, d, ss, acts) && Outgrown(l, ss[|acts|])
  }

  lemma CleanDisk(l: Layout) returns (d: Disk)
    requires l.Valid()
    ensures Clean(l, d) && forall x :: 0 <= x < l.size ==> d[x] == ZERO_BLOCK
  {
    d := seq(l.size, i => ZERO_BLOCK);
  }

  /** In every other layout appends always come in time. */
  lemma LooseIsTimely(l: Layout, d: Disk, ss: seq<State>, acts: seq<Action>, i: nat)
    requires PromisedRun(l, d, ss, acts) && i < |acts| && !Tight(l)
    ensures Timely(l, ss[i], acts[i])
  {
    ReservationsFit(l, d, ss, acts, i);
    RunCounts(l, d, ss, acts, i);
    var s, a := ss[i], acts[i];
    if a.Append? && a.i < |s.open| && s.open[a.i].pending.Some? && s.open[a.i].pending.value !in s.lh {
      RoomFor(s, a.i);
      HomeCount(l, s.lh + [s.open[a.i].pending.value]);
    }
  }

  /** Some run of operations that keep their promise lists more blocks than the region holds exactly
      when the layout is tight, as mkfs makes it. */
  lemma OutgrowsIff(l: Layout)
    requires l.Valid()
    ensures (exists d, ss, acts :: Outgrows(l, d, ss, acts)) <==> Tight(l)
  {
    if Tight(l) {
      var d := CleanDisk(l);
      var ss, acts := OutgrownRun(l, d, ZERO_BLOCK);
      assert Outgrows(l, d, ss, acts);
    } else {
      forall d, ss, acts | PromisedRun(l, d, ss, acts) ensures !Outgrows(l, d, ss, acts) {
        forall i | 0 <= i < |acts| ensures Timely(l, ss[i], acts[i]) { LooseIsTimely(l, d, ss, acts, i); }
        RunKeeps(l, d, ss, acts, |acts|);
      }
    }
  }

  /** Recovering the disk gives the committed groups. */
  ghost predicate Recovers(l: Layout, d: Disk, s: State)
    requires WfDisk(l, d)
  {
    WfDisk(l, s.disk) && SameHome(l, Recover(l, s.disk), ApplyGroups(Recover(l, d), s.committed))
  }

  ghost predicate CrashSafe(l: Layout) {
    forall d, ss, acts, i: nat :: PromisedRun(l, d, ss, acts) && i < |ss| ==> Recovers(l, d, ss[i])
  }

  /** The log is crash safe for all operations that keep their promise exactly when the layout is not
      tight; the log of mkfs is. */
  lemma CrashSafeIff(l: Layout)
    requires l.Valid() && l.start + l.nlog < l.size
    ensures CrashSafe(l) <==> !Tight(l)
  {
    if Tight(l) {
      var d := CleanDisk(l);
      var x := ZERO_BLOCK[0 := 1];
      var ss, acts := SpilledRun(l, d, x);
      var s := ss[|acts|];
      RecoverClean(l, d);
      assert ApplyGroups(Recover(l, d), s.committed) == Recover(l, d);
      assert Recover(l, d)[l.start + l.nlog] == ZERO_BLOCK;
      assert !Recovers(l, d, ss[|acts|]) by { assert l.Home(l.start + l.nlog); assert x[0] != ZERO_BLOCK[0]; }
    } else {
      forall d, ss, acts, i: nat | PromisedRun(l, d, ss, acts) && i < |ss| ensures Recovers(l, d, ss[i]) {
        forall k | 0 <= k < |acts| ensures Timely(l, ss[k], acts[k]) { LooseIsTimely(l, d, ss, acts, k); }
        CrashSafety(l, d, ss, acts, i);
      }
    }
  }
}
