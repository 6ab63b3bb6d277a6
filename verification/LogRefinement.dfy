/** The code of log.c performs the steps of LogMachine: what the memory and the disk of the code
    show of a machine state stays in step with it. */
module LogRefinement {
  import opened Blocks
  import opened LogFormat
  import opened LogRoutines
  import opened Wrappers
  import LM = LogMachine

  /** struct log, the newest contents in the buffer cache, and the disk. */
  datatype Mem = Mem(disk: Disk, view: Disk, lh: seq<nat>, outstanding: int, committing: bool)

  /** The code is in machine state s, except that the blocks in busy have been changed in the cache
      and not yet given to log_write. */
  ghost predicate Shows(l: Layout, m: Mem, s: LM.State, busy: set<nat>) {
    && s.mode == LM.Up && s.disk == m.disk && s.lh == m.lh && s.outstanding == m.outstanding && s.committing == m.committing
    && |s.view| == |m.view|
    && forall x :: 0 <= x < |m.view| && l.Home(x) && x !in busy ==> s.view[x] == m.view[x]
  }

  // ----- begin_op -----

  ghost function Begun(m: Mem): Mem {
    if m.committing || |m.lh| + (m.outstanding + 1) * MAXOPBLOCKS > LOGSIZE then m
    else m.(outstanding := m.outstanding + 1)
  }

  lemma BeginShows(l: Layout, m: Mem, s: LM.State, busy: set<nat>, p: nat)
    requires Shows(l, m, s, busy) && LM.Enabled(l, s, LM.BeginOp(p))
    ensures Shows(l, Begun(m), LM.Next(l, s, LM.BeginOp(p)), busy)
    ensures Begun(m) == m <==> LM.MustWait(s)
  {
  }

  // ----- log_write -----

  /** The guard of log_write. */
  ghost predicate Refused(l: Layout, m: Mem) {
    |m.lh| >= LOGSIZE || |m.lh| >= l.nlog - 1 || m.outstanding < 1
  }

  ghost function Logged(m: Mem, bno: nat): Mem {
    m.(lh := if bno in m.lh then m.lh else m.lh + [bno])
  }

  /** log.lh.block has no place for the block. */
  ghost predicate Overruns(m: Mem, bno: nat) {
    bno !in m.lh && |m.lh| >= LOGSIZE
  }

  /** Its guard, before the lock, is the machine's Check and changes nothing that is shared. */
  lemma CheckShows(l: Layout, m: Mem, s: LM.State, busy: set<nat>, i: nat, bno: nat)
    requires Shows(l, m, s, busy) && LM.Enabled(l, s, LM.Check(i, bno))
    ensures var t := LM.Next(l, s, LM.Check(i, bno));
            if Refused(l, m) then t.mode == LM.Panicked else Shows(l, m, t, busy) && t.open[i].pending == Some(bno)
  {
  }

  /** The rest, under the lock, is the machine's Append of the contents the block has in the cache. */
  lemma AppendShows(l: Layout, m: Mem, s: LM.State, busy: set<nat>, i: nat, bno: nat)
    requires Shows(l, m, s, busy) && bno < |m.view|
    requires LM.Enabled(l, s, LM.Append(i, m.view[bno])) && s.open[i].pending == Some(bno)
    ensures var t := LM.Next(l, s, LM.Append(i, m.view[bno]));
            if Overruns(m, bno) then t.mode == LM.Overflowed else Shows(l, Logged(m, bno), t, busy - {bno})
  {
  }

  // ----- end_op -----

  lemma EndOpShows(l: Layout, m: Mem, s: LM.State, busy: set<nat>, i: nat)
    requires Shows(l, m, s, busy) && LM.Enabled(l, s, LM.EndOp(i))
    ensures var t := LM.Next(l, s, LM.EndOp(i));
            && (m.committing ==> t.mode == LM.Panicked)
            && (!m.committing && m.outstanding != 1 ==> Shows(l, m.(outstanding := m.outstanding - 1), t, busy))
  {
  }

  /** k steps DiskWrite. */
  ghost function Written(l: Layout, s: LM.State, k: nat): (t: LM.State)
    requires (s.mode == LM.Up && !LM.Outgrown(l, s)) || s.mode == LM.Recovering
    requires s.pos + k <= |s.plan| && InRange(s.plan, |s.disk|)
    ensures |t.disk| == |s.disk| && t == s.(disk := t.disk, pos := s.pos + k, committed := t.committed)
  {
    if k == 0 then s else LM.Next(l, Written(l, s, k - 1), LM.DiskWrite)
  }

  lemma {:induction false} WrittenDisk(l: Layout, s: LM.State, k: nat)
    requires (s.mode == LM.Up && !LM.Outgrown(l, s)) || s.mode == LM.Recovering
    requires s.pos == 0 && k <= |s.plan| && InRange(s.plan, |s.disk|)
    ensures InRange(s.plan[..k], |s.disk|) && Written(l, s, k).disk == Apply(s.disk, s.plan[..k])
  {
    if k == 0 {
      assert s.plan[..0] == [];
    } else {
      WrittenDisk(l, s, k - 1);
      LM.OneMoreWrite(s.disk, s.plan, k - 1);
    }
  }

  /** Nothing is half changed when the last operation ends, so the machine commits the same batch. */
  lemma SamePlan(l: Layout, m: Mem, s: LM.State, i: nat)
    requires Shows(l, m, s, {}) && LM.Enabled(l, s, LM.EndOp(i)) && !m.committing && m.outstanding == 1
    requires Listing(l, m.lh) && |m.view| == |m.disk| == l.size
    requires Clean(l, m.disk) && Batch(l, m.lh, LM.Contents(m.view, m.lh))
    ensures var t := LM.Next(l, s, LM.EndOp(i));
            && t.plan == CommitWrites(l, m.disk, m.lh, LM.Contents(m.view, m.lh))
            && t.mode == LM.Up && t.committing && t.outstanding == 0 && t.pos == 0
            && t.disk == s.disk && t.view == s.view && t.lh == s.lh && !LM.Outgrown(l, t)
  {
    assert LM.Contents(s.view, s.lh) == LM.Contents(m.view, m.lh);
  }

  /** The last end_op is the machine's EndOp, one DiskWrite for each block written, and, unless the
      code stopped in a panic, FinishCommit. */
  lemma CommitShows(l: Layout, m: Mem, m': Mem, s: LM.State, i: nat, k: nat)
    requires Shows(l, m, s, {}) && LM.Enabled(l, s, LM.EndOp(i)) && !m.committing && m.outstanding == 1
    requires Listing(l, m.lh) && |m.view| == |m.disk| == l.size
    requires Clean(l, m.disk) && Batch(l, m.lh, LM.Contents(m.view, m.lh))
    requires var plan := CommitWrites(l, m.disk, m.lh, LM.Contents(m.view, m.lh));
             && k <= |plan| && InRange(plan[..k], |m.disk|) && m'.disk == Apply(m.disk, plan[..k])
    requires SameOutside(l, m'.view, m.view) && m'.outstanding == 0
    ensures var t := LM.Next(l, s, LM.EndOp(i));
            && t.mode == LM.Up && !LM.Outgrown(l, t) && InRange(t.plan, |t.disk|) && t.pos + k <= |t.plan| && Written(l, t, k).disk == m'.disk
            && (k == |t.plan| && m'.lh == [] && !m'.committing ==>
                Shows(l, m', LM.Next(l, Written(l, t, k), LM.FinishCommit), {}))
  {
    hide LM.Ended, Written, CommitWrites, Batch, Clean, Apply;
    SamePlan(l, m, s, i);
    var t := LM.Next(l, s, LM.EndOp(i));
    WrittenDisk(l, t, k);
  }

  /** What end_op asks of the log before it commits holds in every state of the machine. */
  lemma CommitFits(l: Layout, d0: Disk, m: Mem, s: LM.State)
    requires LM.Inv(l, d0, s) && Shows(l, m, s, {}) && !m.committing && |m.view| == |m.disk|
    ensures |m.view| == l.size && Listing(l, m.lh) && Clean(l, m.disk) && Batch(l, m.lh, LM.Contents(m.view, m.lh))
  {
  }

  // ----- boot -----

  /** Recovery at boot is the machine's, from power-on to FinishRecovery. */
  lemma RecoverShows(l: Layout, d: Disk, m: Mem)
    requires WfDisk(l, d) && m.view == m.disk && m.lh == [] && m.outstanding == 0 && !m.committing
    requires var plan := RecoverWrites(l, d); InRange(plan, |d|) && m.disk == Apply(d, plan)
    ensures var s := LM.Boot(l, d);
            && s.mode == LM.Recovering && s.pos == 0 && InRange(s.plan, |s.disk|)
            && Shows(l, m, LM.Next(l, Written(l, s, |s.plan|), LM.FinishRecovery), {})
  {
    var s := LM.Boot(l, d);
    WrittenDisk(l, s, |s.plan|);
    assert s.plan[..|s.plan|] == s.plan;
  }
}
