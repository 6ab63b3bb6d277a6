/** The log and the file system together: if what the operations of one commit group log adds up to
    operations of fs.c, and no append comes too late for the guard of its log_write, a crash at any
    moment, also during recovery, leaves a file system whose bitmap is exact and whose files own their
    blocks. */
module CrashConsistency {
  import opened Blocks
  import opened FileLayout
  import opened BlockOwnership
  import opened FileContents
  import opened FileRuns
  import opened FileOperations
  import opened Basics
  import opened Wrappers
  import LF = LogFormat
  import LM = LogMachine
  import LO = LogOverflow

  /** The log region lies before the inodes. */
  ghost predicate Matches(l: LF.Layout, sb: Super) {
    l.Valid() && sb.Valid() && l.size == sb.size && l.start + l.nlog <= sb.inodestart
  }

  // ----- the invariant does not look at the log region -----

  lemma TableHome(sb: Super, s: Store, t: Store)
    requires sb.Valid() && |s| == |t| == sb.size && forall x :: sb.inodestart <= x < sb.size ==> t[x] == s[x]
    ensures Table(sb, t) == Table(sb, s)
  {
    forall i | 0 <= i < sb.ninodes ensures Table(sb, t)[i] == Table(sb, s)[i] {
      IBlockRange(sb, i);
    }
  }

  lemma InodeHome(sb: Super, s: Store, t: Store, tab: seq<Dinode>, owner: Owner, i: nat)
    requires SlotsOwned(sb, s, tab, owner) && OwnedSame(s, t, owner) && i < |tab| && DinodeOk(tab[i])
    requires InodeOk(s, tab[i])
    ensures InodeOk(t, tab[i])
  {
    hide Slot, SlotsOwned, OwnedSame, Extent;
    forall k | 0 <= k < NSLOTS ensures Slot(t, tab[i], k) == Slot(s, tab[i], k) {
      SlotFrame(sb, s, t, tab, owner, i, k);
    }
    ExtentFrame(s, t, tab[i], BlocksFor(tab[i].size));
  }

  lemma InvHome(sb: Super, s: Store, t: Store, owner: Owner)
    requires FsInv(sb, s, owner) && |t| == sb.size && forall x :: sb.inodestart <= x < sb.size ==> t[x] == s[x]
    ensures FsInv(sb, t, owner)
  {
    hide Slot, Exact, Used, Table;
    TableHome(sb, s, t);
    var tab := Table(sb, s);
    assert OwnedSame(s, t, owner);
    SlotsFrame(sb, s, t, tab, owner);
    BitsFrame(sb, s, t, owner.Keys);
    hide SlotsOwned, OwnersReal, BitsAre;
    forall i | 0 <= i < sb.ninodes ensures InodeOk(t, tab[i]) {
      InodeHome(sb, s, t, tab, owner, i);
    }
  }

  lemma ConsistentHome(l: LF.Layout, sb: Super, s: Store, t: Store)
    requires Matches(l, sb) && LF.SameHome(l, s, t) && Consistent(sb, s)
    ensures Consistent(sb, t)
  {
    hide FsInv;
    var owner :| FsInv(sb, s, owner);
    InvHome(sb, s, t, owner);
  }

  // ----- every commit installs a consistent file system -----

  /** When the committed history grows, it grows to the contents the cache had when the commit began. */
  lemma Installed(l: LF.Layout, d0: Store, s: LM.State)
    requires LM.Inv(l, d0, s) && LM.Enabled(l, s, LM.DiskWrite)
    ensures var t := LM.Wrote(l, s);
            || t.committed == s.committed
            || (s.committing && LF.SameHome(l, s.view, LM.ApplyGroups(d0, t.committed)))
  {
    var t := LM.Wrote(l, s);
    if s.mode == LM.Recovering {
      LM.NoCommitPoint(l, s.base, s.pos);
    } else if LM.CommitPoint(l, s.plan[s.pos]) {
      var vs := LM.Contents(s.view, s.lh);
      LM.CommitPointPosition(l, s.base, s.lh, vs, s.pos);
      LM.OneMoreGroup(d0, s.committed, s.closing);
      LM.UpdsKeepHome(l, s.base, LM.ApplyGroups(d0, s.committed), s.closing);
    }
  }

  lemma StepConsistent(l: LF.Layout, sb: Super, d0: Store, s: LM.State, a: LM.Action)
    requires Matches(l, sb) && LM.Inv(l, d0, s) && LM.Enabled(l, s, a)
    requires Consistent(sb, LM.ApplyGroups(d0, s.committed)) && (s.committing ==> Consistent(sb, s.view))
    ensures Consistent(sb, LM.ApplyGroups(d0, LM.Next(l, s, a).committed))
  {
    hide Consistent, LM.Inv, LM.ApplyGroups, LF.SameHome;
    if a == LM.DiskWrite {
      Installed(l, d0, s);
      var t := LM.Wrote(l, s);
      if t.committed != s.committed {
        ConsistentHome(l, sb, s.view, LM.ApplyGroups(d0, t.committed));
      }
    }
  }

  // ----- what the operations of a group do -----

  /** Up, and nobody between begin_op and end_op. */
  ghost predicate Quiescent(s: LM.State) {
    s.mode == LM.Up && !s.committing && s.open == []
  }

  /** The group that opens after state j closes with the end_op of step k. */
  ghost predicate Group(ss: seq<LM.State>, acts: seq<LM.Action>, j: nat, k: nat) {
    && j < k < |acts| && |ss| == |acts| + 1 && Quiescent(ss[j])
    && (forall m :: j < m <= k ==> ss[m].mode == LM.Up && ss[m].open != [])
    && acts[k].EndOp? && |ss[k].open| == 1
  }

  /** From a to b by some sequence of operations of fs.c. */
  ghost predicate Performed(sb: Super, a: Store, b: Store) {
    exists stores, ops :: Chain(sb, stores, ops) && stores[0] == a && stores[|ops|] == b
  }

  /** The blocks logged by each group, however its operations interleave, add up to some sequence
      of operations of fs.c. */
  ghost predicate Faithful(sb: Super, ss: seq<LM.State>, acts: seq<LM.Action>) {
    forall j: nat, k: nat :: Group(ss, acts, j, k) ==> Performed(sb, ss[j].view, ss[k].view)
  }

  lemma PerformedKeeps(sb: Super, a: Store, b: Store)
    requires Performed(sb, a, b) && Consistent(sb, a)
    ensures Consistent(sb, b)
  {
    hide Consistent, Performs;
    var stores, ops :| Chain(sb, stores, ops) && stores[0] == a && stores[|ops|] == b;
    ChainKeeps(sb, stores, ops, |ops|);
  }

  /** Every open group started from a quiescent state. */
  lemma {:induction false} GroupStarts(l: LF.Layout, d: Store, ss: seq<LM.State>, acts: seq<LM.Action>, k: nat) returns (j: nat)
    requires LM.Run(l, d, ss, acts) && k < |ss| && ss[k].mode == LM.Up && ss[k].open != []
    ensures j < k && Quiescent(ss[j]) && forall m :: j < m <= k ==> ss[m].mode == LM.Up && ss[m].open != []
  {
    hide LM.Inv, LF.Recover, LF.WfDisk;
    assert k > 0 by { assert ss[0] == LM.Boot(l, d); }
    var s, a, t := ss[k - 1], acts[k - 1], ss[k];
    assert LM.Follows(l, s, a, t);
    OpenBefore(l, s, a, t);
    RecoveringClosed(l, d, ss, acts, k - 1);
    if s.open == [] {
      j := k - 1;
    } else {
      j := GroupStarts(l, d, ss, acts, k - 1);
    }
  }

  /** Nobody is inside an operation during recovery. */
  lemma {:induction false} RecoveringClosed(l: LF.Layout, d: Store, ss: seq<LM.State>, acts: seq<LM.Action>, k: nat)
    requires LM.Run(l, d, ss, acts) && k < |ss|
    ensures ss[k].mode == LM.Recovering ==> ss[k].open == []
  {
    hide LF.WfDisk;
    if k > 0 {
      RecoveringClosed(l, d, ss, acts, k - 1);
      assert LM.Follows(l, ss[k - 1], acts[k - 1], ss[k]);
    }
  }

  lemma OpenBefore(l: LF.Layout, s: LM.State, a: LM.Action, t: LM.State)
    requires LM.Follows(l, s, a, t) && t.mode == LM.Up && t.open != []
    ensures s.open == [] ==> Quiescent(s)
    ensures s.open != [] ==> s.mode == LM.Up || s.mode == LM.Recovering
  {
  }

  /** The cache of a quiescent state is what is committed. */
  lemma QuiescentView(l: LF.Layout, sb: Super, d0: Store, s: LM.State)
    requires Matches(l, sb) && LM.Inv(l, d0, s) && Quiescent(s) && Consistent(sb, LM.ApplyGroups(d0, s.committed))
    ensures Consistent(sb, s.view)
  {
    hide Consistent;
    var a := LM.ApplyGroups(d0, s.committed);
    assert LF.SameHome(l, a, s.view);
    ConsistentHome(l, sb, a, s.view);
  }

  /** A commit begins with the contents the last operation of its group left. */
  lemma CommitBegins(l: LF.Layout, d0: Store, s: LM.State, a: LM.Action)
    requires LM.Inv(l, d0, s) && LM.Enabled(l, s, a) && LM.Next(l, s, a).committing
    ensures LM.Next(l, s, a).view == s.view
    ensures !s.committing ==> a.EndOp? && |s.open| == 1 && s.mode == LM.Up
  {
  }

  ghost predicate Good(sb: Super, d0: Store, s: LM.State) {
    Consistent(sb, LM.ApplyGroups(d0, s.committed)) && (s.committing ==> Consistent(sb, s.view))
  }

  lemma {:induction false} AlwaysGood(l: LF.Layout, sb: Super, d: Store, ss: seq<LM.State>, acts: seq<LM.Action>, i: nat)
    requires Matches(l, sb) && LM.TimelyRun(l, d, ss, acts) && i < |ss| && Consistent(sb, LF.Recover(l, d))
    requires Faithful(sb, ss, acts)
    ensures Good(sb, LF.Recover(l, d), ss[i])
  {
    hide Consistent, LF.Recover, LM.Inv, Performed;
    var d0 := LF.Recover(l, d);
    if i == 0 {
      assert ss[0].committed == [] && !ss[0].committing;
    } else {
      var s, a, t := ss[i - 1], acts[i - 1], ss[i];
      AlwaysGood(l, sb, d, ss, acts, i - 1);
      LM.RunKeeps(l, d, ss, acts, i - 1);
      assert LM.Follows(l, s, a, t);
      StepConsistent(l, sb, d0, s, a);
      if t.committing {
        CommitBegins(l, d0, s, a);
        if !s.committing {
          var j := GroupStarts(l, d, ss, acts, i - 1);
          AlwaysGood(l, sb, d, ss, acts, j);
          LM.RunKeeps(l, d, ss, acts, j);
          QuiescentView(l, sb, d0, ss[j]);
          assert Group(ss, acts, j, i - 1);
          PerformedKeeps(sb, ss[j].view, s.view);
        }
      }
    }
  }

  /** Cut the power at any moment of any run, with commits, crashes and interrupted recoveries
      behind it, and recover: the file system is consistent, as long as each commit group logged
      what some sequence of operations of fs.c does and no append came too late for its guard. */
  lemma CrashLeavesConsistent(l: LF.Layout, sb: Super, d: Store, ss: seq<LM.State>, acts: seq<LM.Action>, i: nat)
    requires Matches(l, sb) && LM.TimelyRun(l, d, ss, acts) && i < |ss| && Consistent(sb, LF.Recover(l, d))
    requires Faithful(sb, ss, acts)
    ensures LF.WfDisk(l, ss[i].disk) && Consistent(sb, LF.Recover(l, ss[i].disk))
  {
    hide Consistent, LF.Recover, LM.ApplyGroups, LM.Boot, Faithful;
    AlwaysGood(l, sb, d, ss, acts, i);
    LM.CrashSafety(l, d, ss, acts, i);
    var a, b := LM.ApplyGroups(LF.Recover(l, d), ss[i].committed), LF.Recover(l, ss[i].disk);
    assert LF.SameHome(l, a, b);
    ConsistentHome(l, sb, a, b);
  }

  /** With a log region of more than LOGSIZE blocks no append comes too late when operations keep
      their promise. */
  lemma PromisedLeavesConsistent(l: LF.Layout, sb: Super, d: Store, ss: seq<LM.State>, acts: seq<LM.Action>, i: nat)
    requires Matches(l, sb) && LM.PromisedRun(l, d, ss, acts) && i < |ss| && l.nlog > LF.LOGSIZE
    requires Consistent(sb, LF.Recover(l, d)) && Faithful(sb, ss, acts)
    ensures LF.WfDisk(l, ss[i].disk) && Consistent(sb, LF.Recover(l, ss[i].disk))
  {
    hide Consistent, LF.Recover, Faithful;
    LM.PromisedCrashSafety(l, d, ss, acts, i);
    CrashLeavesConsistent(l, sb, d, ss, acts, i);
  }

  // ----- every operation has such a run -----

  /** What an operation that takes a to b by changing the blocks xs gives to log_write in a run of its
      own. */
  datatype Change = Change(a: Store, b: Store, xs: seq<nat>) {
    ghost predicate Fits(l: LF.Layout) {
      && LF.Clean(l, a) && |b| == |a| && |xs| <= LF.MAXOPBLOCKS && |xs| < l.nlog && AllDifferent(xs)
      && (forall i :: 0 <= i < |xs| ==> l.Home(xs[i]) && xs[i] < |a|)
      && (forall x :: 0 <= x < |a| && x !in xs ==> b[x] == a[x])
    }
  }

  /** The one open operation has logged the first m blocks. */
  ghost predicate Part(c: Change, s: LM.State, m: nat) {
    && s.mode == LM.Up && !s.committing && s.outstanding == 1 && |s.open| == 1 && m <= |c.xs|
    && s.open[0].pending.None? && s.open[0].added == m && s.lh == c.xs[..m]
    && |s.view| == |c.a| == |c.b| && forall x :: 0 <= x < |c.a| ==> s.view[x] == if x in c.xs[..m] then c.b[x] else c.a[x]
  }

  /** A run of one operation so far: recovery, begin_op, and m log_writes. */
  ghost predicate Alone(l: LF.Layout, c: Change, ss: seq<LM.State>, acts: seq<LM.Action>, m: nat) {
    && LM.PromisedRun(l, c.a, ss, acts) && LM.TimelyRun(l, c.a, ss, acts) && |acts| == 3 + 2 * m
    && Quiescent(ss[2]) && ss[2].view == c.a
    && (forall q :: 3 <= q < |ss| ==> ss[q].mode == LM.Up && ss[q].open != [])
    && (forall q :: 0 <= q < |acts| ==> !acts[q].EndOp?)
    && Part(c, ss[|acts|], m)
  }

  lemma Further(l: LF.Layout, c: Change, ss: seq<LM.State>, acts: seq<LM.Action>, a: LM.Action)
    returns (ss': seq<LM.State>, acts': seq<LM.Action>)
    requires LM.PromisedRun(l, c.a, ss, acts) && LM.TimelyRun(l, c.a, ss, acts)
    requires var s := ss[|acts|]; LM.Enabled(l, s, a) && LM.Promised(s, a) && LM.Timely(l, s, a)
    ensures LM.PromisedRun(l, c.a, ss', acts') && LM.TimelyRun(l, c.a, ss', acts')
    ensures acts' == acts + [a] && ss' == ss + [LM.Next(l, ss[|acts|], a)]
  {
    ss', acts' := LO.Extend(l, c.a, ss, acts, a);
    forall i | 0 <= i < |acts'| ensures LM.Timely(l, ss'[i], acts'[i]) {
      if i < |acts| { assert LM.Timely(l, ss[i], acts[i]); }
    }
  }

  lemma AloneBegins(l: LF.Layout, c: Change) returns (ss: seq<LM.State>, acts: seq<LM.Action>)
    requires c.Fits(l)
    ensures Alone(l, c, ss, acts, 0)
  {
    LF.RecoverClean(l, c.a);
    assert LF.PutHead(c.a[l.start], []) == c.a[l.start];
    assert LF.Recover(l, c.a) == c.a;
    hide LF.Recover;
    ss, acts := LO.Booted(l, c.a);
    assert forall i :: 0 <= i < |acts| ==> LM.Timely(l, ss[i], acts[i]);
    ss, acts := Further(l, c, ss, acts, LM.BeginOp(0));
  }

  /** The next log_write, guard and append. */
  lemma PartNext(l: LF.Layout, c: Change, s: LM.State, m: nat)
    requires c.Fits(l) && Part(c, s, m) && m < |c.xs|
    ensures var x, y := LM.Check(0, c.xs[m]), LM.Append(0, c.b[c.xs[m]]);
            && LM.Enabled(l, s, x) && LM.Promised(s, x)
            && var t := LM.Next(l, s, x);
               && t.mode == LM.Up && t.open != [] && LM.Enabled(l, t, y) && LM.Timely(l, t, y)
               && Part(c, LM.Next(l, t, y), m + 1)
  {
    assert c.xs[..m + 1] == c.xs[..m] + [c.xs[m]];
    assert c.xs[m] !in c.xs[..m];
  }

  lemma PartUp(c: Change, s: LM.State, m: nat)
    requires Part(c, s, m)
    ensures s.mode == LM.Up && s.open != []
  {
  }

  lemma {:induction false} AloneTo(l: LF.Layout, c: Change, m: nat) returns (ss: seq<LM.State>, acts: seq<LM.Action>)
    requires c.Fits(l) && m <= |c.xs|
    ensures Alone(l, c, ss, acts, m)
  {
    hide LM.Next, LM.Enabled, LM.Promised, LM.Timely, LM.Follows, LM.Boot, LF.WfDisk, Part;
    if m == 0 {
      ss, acts := AloneBegins(l, c);
    } else {
      ss, acts := AloneTo(l, c, m - 1);
      PartNext(l, c, ss[|acts|], m - 1);
      PartUp(c, LM.Next(l, LM.Next(l, ss[|acts|], LM.Check(0, c.xs[m - 1])), LM.Append(0, c.b[c.xs[m - 1]])), m);
      ss, acts := Further(l, c, ss, acts, LM.Check(0, c.xs[m - 1]));
      ss, acts := Further(l, c, ss, acts, LM.Append(0, c.b[c.xs[m - 1]]));
    }
  }

  /** The condition is met: every operation that changes at most MAXOPBLOCKS blocks, none of them in
      the log region, has a run of its own whose only group takes the cache from a to b. */
  lemma OperationRun(l: LF.Layout, sb: Super, op: Operation, c: Change)
    returns (ss: seq<LM.State>, acts: seq<LM.Action>, j: nat, k: nat)
    requires Matches(l, sb) && c.Fits(l) && Performs(sb, c.a, op, c.b)
    ensures LM.PromisedRun(l, c.a, ss, acts) && LM.TimelyRun(l, c.a, ss, acts)
    ensures Group(ss, acts, j, k) && ss[j].view == c.a && ss[k].view == c.b && Faithful(sb, ss, acts)
  {
    hide Performs;
    ss, acts := AloneTo(l, c, |c.xs|);
    assert c.xs[..|c.xs|] == c.xs;
    assert ss[|acts|].view == c.b;
    j, k := 2, |acts|;
    ss, acts := Further(l, c, ss, acts, LM.EndOp(0));
    assert Group(ss, acts, j, k);
    assert Chain(sb, [c.a, c.b], [op]);
    assert Performed(sb, c.a, c.b);
    forall j': nat, k': nat | Group(ss, acts, j', k') ensures j' == j && k' == k {
      OneGroup(ss, acts, j, k, j', k');
    }
  }

  /** A run that ends with its only end_op has one group. */
  lemma OneGroup(ss: seq<LM.State>, acts: seq<LM.Action>, j: nat, k: nat, j': nat, k': nat)
    requires Group(ss, acts, j, k) && Group(ss, acts, j', k') && k == |acts| - 1
    requires forall q :: 0 <= q < k ==> !acts[q].EndOp?
    ensures j' == j && k' == k
  {
    assert Quiescent(ss[j]) && Quiescent(ss[j']);
  }
}
