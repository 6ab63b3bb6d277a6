/** log.c as a machine of atomic steps: the critical sections of begin_op, log_write and end_op by
    any number of processes, the guard of log_write before it takes the lock, each single block write
    of a commit or of recovery, and a crash between any two steps. */
module LogMachine {
  import opened Basics
  import opened Blocks
  import opened LogFormat
  import opened Wrappers

  /** One log_write: operation, block, new contents. */
  datatype Upd = Upd(op: nat, bno: nat, data: Block)

  /** An operation between begin_op and end_op; added counts the blocks it put in lh, and pending is
      the block of a log_write that has passed its guard and not yet taken the lock. */
  datatype Op = Op(id: nat, added: nat, pending: Option<nat>)

  /** Overflowed: lh.block was written past its end, or a log block past the end of the region.  What
      the kernel does after that, other than lose power, is not described. */
  datatype Mode = Up | Recovering | Panicked | Overflowed

  datatype State = State(
    disk: Disk,           // what survives a crash
    view: Disk,           // newest contents, as bread returns them
    lh: seq<nat>,         // log.lh
    outstanding: int,     // log.outstanding
    committing: bool,     // log.committing
    open: seq<Op>,
    asleep: set<nat>,     // processes asleep in begin_op
    mode: Mode,
    base: Disk,           // the disk when the running commit or recovery began
    plan: seq<Write>,     // the block writes it issues
    pos: nat,             // how many of them are done
    // history
    nextOp: nat,
    epoch: nat,           // operations from this number on belong to the open group
    group: seq<Upd>,
    closing: seq<Upd>,
    issued: seq<Upd>,
    committed: seq<seq<Upd>>,
    acked: nat)           // groups whose last end_op has returned

  /** log_write is two steps: Check, the guard, and Append, the part under log.lock. */
  datatype Action =
    | BeginOp(p: nat)
    | Check(i: nat, bno: nat)
    | Append(i: nat, data: Block)
    | EndOp(i: nat)
    | DiskWrite
    | FinishCommit
    | FinishRecovery
    | Crash

  // ----- the meaning of a history -----

  ghost function ApplyUpds(d: Disk, g: seq<Upd>): (r: Disk)
    ensures |r| == |d|
  {
    if g == [] then d else
      var r := ApplyUpds(d, g[..|g| - 1]);
      var u := g[|g| - 1];
      if u.bno < |r| then r[u.bno := u.data] else r
  }

  ghost function ApplyGroups(d: Disk, gs: seq<seq<Upd>>): (r: Disk)
    ensures |r| == |d|
  {
    if gs == [] then d else ApplyUpds(ApplyGroups(d, gs[..|gs| - 1]), gs[|gs| - 1])
  }

  ghost function Contents(view: Disk, lh: seq<nat>): (r: seq<Block>)
    requires forall i :: 0 <= i < |lh| ==> lh[i] < |view|
    ensures |r| == |lh|
  {
    seq(|lh|, i requires 0 <= i < |lh| => view[lh[i]])
  }

  // ----- steps -----

  ghost predicate MustWait(s: State) {
    s.committing || |s.lh| + (s.outstanding + 1) * MAXOPBLOCKS > LOGSIZE
  }

  ghost predicate TooBig(l: Layout, s: State) {
    |s.lh| >= LOGSIZE || |s.lh| >= l.nlog - 1
  }

  ghost predicate Enabled(l: Layout, s: State, a: Action) {
    match a
    case BeginOp(p) => s.mode == Up && p !in s.asleep
    case Check(i, bno) => s.mode == Up && i < |s.open| && s.open[i].pending.None? && l.Home(bno)
    case Append(i, data) => s.mode == Up && i < |s.open| && s.open[i].pending.Some?
    case EndOp(i) => s.mode == Up && i < |s.open| && s.open[i].pending.None?
    case DiskWrite => (s.mode == Up || s.mode == Recovering) && s.pos < |s.plan|
    case FinishCommit => s.mode == Up && s.committing && s.pos == |s.plan|
    case FinishRecovery => s.mode == Recovering && s.pos == |s.plan|
    case Crash => true
  }

  ghost function Begin(s: State, p: nat): State {
    if MustWait(s) then s.(asleep := s.asleep + {p})
    else s.(outstanding := s.outstanding + 1, open := s.open + [Op(s.nextOp, 0, None)], nextOp := s.nextOp + 1)
  }

  ghost function Checked(l: Layout, s: State, i: nat, bno: nat): State
    requires i < |s.open|
  {
    if TooBig(l, s) || s.outstanding < 1 then s.(mode := Panicked)
    else s.(open := s.open[i := s.open[i].(pending := Some(bno))])
  }

  ghost function Appended(s: State, i: nat, data: Block): State
    requires i < |s.open| && s.open[i].pending.Some?
  {
    var o := s.open[i];
    var bno := o.pending.value;
    if bno in s.lh then Published(s, i, bno, data, s.lh, o.(pending := None))
    else if |s.lh| >= LOGSIZE then s.(mode := Overflowed)
    else Published(s, i, bno, data, s.lh + [bno], o.(pending := None, added := o.added + 1))
  }

  ghost function Published(s: State, i: nat, bno: nat, data: Block, lh: seq<nat>, o: Op): State
    requires i < |s.open|
  {
    var u := Upd(o.id, bno, data);
    s.(view := if bno < |s.view| then s.view[bno := data] else s.view, lh := lh, open := s.open[i := o],
    group := s.group + [u], issued := s.issued + [u])
  }

  ghost function Ended(l: Layout, s: State, i: nat): State
    requires i < |s.open|
  {
    var t := s.(outstanding := s.outstanding - 1, open := s.open[..i] + s.open[i + 1..]);
    if s.committing then t.(mode := Panicked)
    else if t.outstanding == 0 then
      t.(committing := true, base := s.disk, pos := 0, plan := CommitPlan(l, s),
      closing := s.group, group := [], epoch := s.nextOp)
    else t.(asleep := {})
  }

  /** The block writes of the commit; for a list that outgrew the region, those up to the first one
      past its end. */
  ghost function CommitPlan(l: Layout, s: State): seq<Write> {
    if CanCommit(l, s) then CommitWrites(l, s.disk, s.lh, Contents(s.view, s.lh))
    else if Outgrown(l, s) && forall i :: 0 <= i < |s.lh| ==> s.lh[i] < |s.view| then
      LogWrites(l, Contents(s.view, s.lh))[..l.nlog]
    else []
  }

  /** The list does not fit the log region. */
  ghost predicate Outgrown(l: Layout, s: State) {
    |s.lh| >= l.nlog
  }

  ghost predicate CanCommit(l: Layout, s: State) {
    && |s.view| == |s.disk| == l.size && Clean(l, s.disk)
    && (forall i :: 0 <= i < |s.lh| ==> l.Home(s.lh[i]))
    && Batch(l, s.lh, Contents(s.view, s.lh))
  }

  /** The write of a header that lists blocks is the commit point. */
  ghost predicate CommitPoint(l: Layout, w: Write) {
    w.bno == l.start && HeadCount(w.data) > 0
  }

  /** One block write; past the end of the disk it panics. */
  ghost function Wrote(l: Layout, s: State): State
    requires s.pos < |s.plan|
  {
    var w := s.plan[s.pos];
    if w.bno >= |s.disk| then s.(mode := Panicked)
    else
      s.(disk := s.disk[w.bno := w.data], pos := s.pos + 1,
      committed := if CommitPoint(l, w) then s.committed + [s.closing] else s.committed,
      mode := if s.mode == Up && Outgrown(l, s) && s.pos + 1 == |s.plan| then Overflowed else s.mode)
  }

  ghost function Crashed(l: Layout, s: State): State {
    s.(view := s.disk, lh := [], outstanding := 0, committing := false, open := [], asleep := {},
    mode := Recovering, base := s.disk, pos := 0,
    plan := if WfDisk(l, s.disk) then RecoverWrites(l, s.disk) else [],
    epoch := s.nextOp, group := [], closing := [])
  }

  ghost function Next(l: Layout, s: State, a: Action): State
    requires Enabled(l, s, a)
  {
    match a
    case BeginOp(p) => Begin(s, p)
    case Check(i, bno) => Checked(l, s, i, bno)
    case Append(i, data) => Appended(s, i, data)
    case EndOp(i) => Ended(l, s, i)
    case DiskWrite => Wrote(l, s)
    case FinishCommit =>
      s.(lh := [], committing := false, asleep := {}, closing := [], plan := [], pos := 0, acked := |s.committed|)
    case FinishRecovery => s.(mode := Up, view := s.disk, plan := [], pos := 0)
    case Crash => Crashed(l, s)
  }

  /** Power-on: whatever log the disk holds is recovered first. */
  ghost function Boot(l: Layout, d: Disk): State {
    Crashed(l, State(d, d, [], 0, false, [], {}, Panicked, d, [], 0, 0, 0, [], [], [], [], 0))
  }

  // ----- invariants -----

  /** Counters, the header in memory, and the sleepers. */
  ghost predicate Counting(l: Layout, s: State) {
    && l.Valid() && |s.disk| == |s.view| == |s.base| == l.size
    && s.outstanding == |s.open|
    && (s.committing ==> s.open == [] && s.group == [] && s.mode != Recovering)
    && |s.lh| <= LOGSIZE
    && (forall i :: 0 <= i < |s.lh| ==> l.Home(s.lh[i]))
    && AllDifferent(s.lh)
    && (forall i :: 0 <= i < |s.open| && s.open[i].pending.Some? ==> l.Home(s.open[i].pending.value) && 2 <= l.nlog)
    && (s.open == [] && !s.committing ==> s.lh == [])
    && (s.mode == Recovering ==> s.lh == [] && s.group == [])
    && (s.asleep != {} ==> MustWait(s))
    && s.acked <= |s.committed|
  }

  /** No commit under way: the disk is clean and holds exactly the committed groups,
      and the cache holds those plus the open group. */
  ghost predicate Quiet(l: Layout, d0: Disk, s: State) {
    && Clean(l, s.disk)
    && SameHome(l, s.disk, ApplyGroups(d0, s.committed))
    && SameHome(l, s.view, ApplyUpds(s.disk, s.group))
    && (forall x :: 0 <= x < l.size && l.Home(x) && x !in s.lh ==> s.view[x] == s.disk[x])
  }

  ghost predicate Progress(s: State) {
    && s.pos <= |s.plan| && |s.base| == |s.disk|
    && InRange(s.plan, |s.base|) && InRange(s.plan[..s.pos], |s.base|)
    && s.disk == Apply(s.base, s.plan[..s.pos])
  }

  /** A commit under way: how far its writes are decides whether its group counts. */
  ghost predicate Committing(l: Layout, d0: Disk, s: State) {
    && Clean(l, s.base) && |s.view| == l.size
    && (forall i :: 0 <= i < |s.lh| ==> l.Home(s.lh[i]))
    && Batch(l, s.lh, Contents(s.view, s.lh))
    && s.plan == CommitWrites(l, s.base, s.lh, Contents(s.view, s.lh))
    && Progress(s)
    && SameHome(l, s.view, ApplyUpds(s.base, s.closing))
    && (forall x :: 0 <= x < l.size && l.Home(x) && x !in s.lh ==> s.view[x] == s.base[x])
    && if s.pos <= |s.lh|
       then SameHome(l, s.base, ApplyGroups(d0, s.committed))
       else |s.committed| > 0 && s.committed[|s.committed| - 1] == s.closing
            && SameHome(l, s.base, ApplyGroups(d0, s.committed[..|s.committed| - 1]))
  }

  ghost predicate Restoring(l: Layout, d0: Disk, s: State) {
    && WfDisk(l, s.base) && s.plan == RecoverWrites(l, s.base) && Progress(s)
    && SameHome(l, Recover(l, s.base), ApplyGroups(d0, s.committed))
  }

  ghost predicate DiskInv(l: Layout, d0: Disk, s: State) {
    match s.mode
    case Recovering => Restoring(l, d0, s)
    case Panicked => Quiet(l, d0, s)
    case Overflowed => false
    case Up => if s.committing then Committing(l, d0, s) else Quiet(l, d0, s) && s.pos == |s.plan|
  }

  /** Operations are never split between groups. */
  ghost predicate Grouped(s: State) {
    && s.epoch <= s.nextOp
    && (forall o :: o in s.open ==> s.epoch <= o.id < s.nextOp)
    && (forall u :: u in s.issued ==> u.op < s.nextOp)
    && (forall u :: u in s.issued && s.epoch <= u.op ==> u in s.group)
    && (forall v :: v in s.group ==> s.epoch <= v.op < s.nextOp)
    && (forall v :: v in s.closing ==> v.op < s.epoch)
    && (forall u, v :: u in s.issued && v in s.closing && u.op == v.op ==> u in s.closing)
    && (forall k, v :: 0 <= k < |s.committed| && v in s.committed[k] ==> v.op < s.epoch)
    && AllOrNothing(s)
  }

  /** If a committed group holds one update of an operation, it holds all of them. */
  ghost predicate AllOrNothing(s: State) {
    forall k, u, v :: 0 <= k < |s.committed| && v in s.committed[k] && u in s.issued && u.op == v.op
                      ==> u in s.committed[k]
  }

  ghost predicate Inv(l: Layout, d0: Disk, s: State) {
    && |d0| == l.size && Counting(l, s) && !Outgrown(l, s) && (s.committing ==> s.mode == Up)
    && DiskInv(l, d0, s) && Grouped(s)
  }

  /** An append of a new block finds the guard of its log_write still false. */
  ghost predicate Timely(l: Layout, s: State, a: Action) {
    a.Append? && a.i < |s.open| && s.open[a.i].pending.Some? && s.open[a.i].pending.value !in s.lh ==> !TooBig(l, s)
  }

  // ----- facts about histories -----

  lemma {:induction false} UpdsKeepHome(l: Layout, d: Disk, e: Disk, g: seq<Upd>)
    requires SameHome(l, d, e)
    ensures SameHome(l, ApplyUpds(d, g), ApplyUpds(e, g))
    decreases |g|
  {
    if g != [] {
      UpdsKeepHome(l, d, e, g[..|g| - 1]);
    }
  }

  lemma OneMoreUpd(d: Disk, g: seq<Upd>, u: Upd)
    requires u.bno < |d|
    ensures ApplyUpds(d, g + [u]) == ApplyUpds(d, g)[u.bno := u.data]
  {
    assert (g + [u])[..|g|] == g;
  }

  lemma OneMoreGroup(d: Disk, gs: seq<seq<Upd>>, g: seq<Upd>)
    ensures ApplyGroups(d, gs + [g]) == ApplyUpds(ApplyGroups(d, gs), g)
  {
    assert (gs + [g])[..|gs|] == gs;
  }

  lemma OneMoreWrite(d: Disk, ws: seq<Write>, k: nat)
    requires InRange(ws, |d|) && k < |ws|
    ensures InRange(ws[..k], |d|) && InRange(ws[..k + 1], |d|)
    ensures Apply(d, ws[..k + 1]) == Apply(d, ws[..k])[ws[k].bno := ws[k].data]
  {
    TakeInRange(ws, |d|, k);
    TakeInRange(ws, |d|, k + 1);
    assert ws[..k + 1] == ws[..k] + [ws[k]];
    ApplyConcat(d, ws[..k], [ws[k]]);
    var e := Apply(d, ws[..k]);
    assert [ws[k]][1..] == [];
    assert Apply(e, [ws[k]]) == Apply(e[ws[k].bno := ws[k].data], []);
  }

  /** Installing the cached contents of the logged blocks gives the cache. */
  lemma InstallGivesView(l: Layout, base: Disk, view: Disk, lh: seq<nat>)
    requires l.Valid() && |base| == |view| == l.size
    requires forall i :: 0 <= i < |lh| ==> l.Home(lh[i]) && lh[i] < |view|
    requires AllDifferent(lh)
    requires forall x :: 0 <= x < l.size && l.Home(x) && x !in lh ==> view[x] == base[x]
    ensures SameHome(l, Install(base, lh, Contents(view, lh)), view)
  {
    var ws := HomeWrites(lh, Contents(view, lh));
    forall x | 0 <= x < l.size && l.Home(x) ensures Apply(base, ws)[x] == view[x] {
      if x in lh {
        var i :| 0 <= i < |lh| && lh[i] == x;
        assert LastWrite(ws, i);
        ApplyLast(base, ws, i);
      } else {
        assert forall i :: 0 <= i < |ws| ==> ws[i].bno == lh[i];
        ApplyUntouched(base, ws, x);
      }
    }
  }

  // ----- every step keeps the invariant -----

  /** The disk invariant does not depend on operations, sleepers or counters. */
  lemma DiskFrame(l: Layout, d0: Disk, s: State, t: State)
    requires DiskInv(l, d0, s)
    requires t.disk == s.disk && t.view == s.view && t.lh == s.lh && t.committed == s.committed
    requires t.group == s.group && t.closing == s.closing && t.committing == s.committing
    requires t.mode == s.mode && t.base == s.base && t.plan == s.plan && t.pos == s.pos
    ensures DiskInv(l, d0, t)
  {
  }

  lemma GroupFrame(s: State, t: State)
    requires Grouped(s)
    requires t.committed == s.committed && t.issued == s.issued && t.nextOp >= s.nextOp
    requires t.epoch == s.epoch && t.group == s.group && t.closing == s.closing
    requires forall o :: o in t.open ==> t.epoch <= o.id < t.nextOp
    ensures Grouped(t)
  {
  }

  lemma BeginKeeps(l: Layout, d0: Disk, s: State, p: nat)
    requires Inv(l, d0, s) && Enabled(l, s, BeginOp(p))
    ensures Inv(l, d0, Next(l, s, BeginOp(p)))
  {
    var t := Begin(s, p);
    assert Counting(l, t);
    GroupFrame(s, t);
    DiskFrame(l, d0, s, t);
  }

  lemma CheckKeeps(l: Layout, d0: Disk, s: State, i: nat, bno: nat)
    requires Inv(l, d0, s) && Enabled(l, s, Check(i, bno))
    ensures Inv(l, d0, Next(l, s, Check(i, bno)))
  {
    var t := Checked(l, s, i, bno);
    CheckCounts(l, s, i, bno);
    assert s.open[i] in s.open;
    assert forall o :: o in t.open ==> o in s.open || o.id == s.open[i].id;
    GroupFrame(s, t);
    if t.mode == Up { DiskFrame(l, d0, s, t); }
  }

  lemma CheckCounts(l: Layout, s: State, i: nat, bno: nat)
    requires Counting(l, s) && Enabled(l, s, Check(i, bno))
    ensures Counting(l, Checked(l, s, i, bno))
  {
  }

  lemma AppendKeeps(l: Layout, d0: Disk, s: State, i: nat, data: Block)
    requires Inv(l, d0, s) && Enabled(l, s, Append(i, data)) && Timely(l, s, Append(i, data))
    ensures Inv(l, d0, Next(l, s, Append(i, data)))
  {
    AppendCounts(l, s, i, data);
    AppendGroups(s, i, data);
    AppendViews(l, d0, s, i, data);
  }

  lemma AppendCounts(l: Layout, s: State, i: nat, data: Block)
    requires Counting(l, s) && Enabled(l, s, Append(i, data))
    ensures Counting(l, Appended(s, i, data))
  {
  }

  lemma AppendViews(l: Layout, d0: Disk, s: State, i: nat, data: Block)
    requires Counting(l, s) && DiskInv(l, d0, s) && Enabled(l, s, Append(i, data)) && Appended(s, i, data).mode == Up
    ensures DiskInv(l, d0, Appended(s, i, data))
  {
    OneMoreUpd(s.disk, s.group, Upd(s.open[i].id, s.open[i].pending.value, data));
  }

  lemma AppendGroups(s: State, i: nat, data: Block)
    requires Grouped(s) && s.mode == Up && i < |s.open| && s.open[i].pending.Some?
    ensures Grouped(Appended(s, i, data))
  {
    var t := Appended(s, i, data);
    var o := s.open[i];
    assert o in s.open;
    assert forall o' :: o' in t.open ==> o' in s.open || o'.id == o.id;
    if t.mode == Up { OneMoreIssued(s, t, Upd(o.id, o.pending.value, data)); } else { GroupFrame(s, t); }
  }

  lemma OneMoreIssued(s: State, t: State, u: Upd)
    requires Grouped(s) && s.epoch <= u.op < s.nextOp
    requires t.issued == s.issued + [u] && t.group == s.group + [u] && t.committed == s.committed
    requires t.epoch == s.epoch && t.nextOp == s.nextOp && t.closing == s.closing
    requires forall o :: o in t.open ==> s.epoch <= o.id < s.nextOp
    ensures Grouped(t)
  {
    assert forall v :: v in t.issued <==> v in s.issued || v == u;
    assert forall v :: v in t.group <==> v in s.group || v == u;
    assert forall v :: v in s.closing ==> v.op != u.op;
  }

  lemma EndKeeps(l: Layout, d0: Disk, s: State, i: nat)
    requires Inv(l, d0, s) && Enabled(l, s, EndOp(i))
    ensures Inv(l, d0, Next(l, s, EndOp(i)))
  {
    var t := Ended(l, s, i);
    assert Counting(l, t);
    EndGroups(l, s, i);
    if t.committing { StartCommit(l, d0, s, i); } else { DiskFrame(l, d0, s, t); }
  }

  lemma EndGroups(l: Layout, s: State, i: nat)
    requires Counting(l, s) && Grouped(s) && Enabled(l, s, EndOp(i))
    ensures Grouped(Ended(l, s, i))
  {
    var t := Ended(l, s, i);
    assert forall o :: o in t.open ==> o in s.open;
    if t.committing { assert t.open == []; }
  }

  lemma StartCommit(l: Layout, d0: Disk, s: State, i: nat)
    requires Counting(l, s) && !Outgrown(l, s) && DiskInv(l, d0, s) && Enabled(l, s, EndOp(i)) && Ended(l, s, i).committing
    ensures DiskInv(l, d0, Ended(l, s, i))
  {
    var t := Ended(l, s, i);
    assert Numbers(s.lh);
    assert CanCommit(l, s);
    assert t.plan[..0] == [];
  }

  lemma CommitPointPosition(l: Layout, d: Disk, lh: seq<nat>, vs: seq<Block>, k: nat)
    requires Clean(l, d) && Batch(l, lh, vs) && k < |CommitWrites(l, d, lh, vs)|
    ensures CommitPoint(l, CommitWrites(l, d, lh, vs)[k]) <==> k == |lh|
  {
  }

  lemma CommitWriteKeeps(l: Layout, d0: Disk, s: State)
    requires Inv(l, d0, s) && Enabled(l, s, DiskWrite) && s.mode == Up
    ensures Inv(l, d0, Next(l, s, DiskWrite))
  {
    var t := Wrote(l, s);
    assert s.committing;
    CommitPointPosition(l, s.base, s.lh, Contents(s.view, s.lh), s.pos);
    assert Counting(l, t);
    if s.pos == |s.lh| { CommitGroups(s, t); } else { GroupFrame(s, t); }
    CommitWriteDisk(l, d0, s);
  }

  lemma CommitWriteDisk(l: Layout, d0: Disk, s: State)
    requires Counting(l, s) && !Outgrown(l, s) && s.committing && Committing(l, d0, s) && s.pos < |s.plan|
    ensures Committing(l, d0, Wrote(l, s))
  {
    var t := Wrote(l, s);
    CommitPointPosition(l, s.base, s.lh, Contents(s.view, s.lh), s.pos);
    WritePlanned(s, t);
    if s.pos == |s.lh| { assert t.committed[..|t.committed| - 1] == s.committed; }
  }

  lemma WritePlanned(s: State, t: State)
    requires Progress(s) && s.pos < |s.plan|
    requires t.base == s.base && t.plan == s.plan && t.pos == s.pos + 1
    requires s.plan[s.pos].bno < |s.disk| ==> t.disk == s.disk[s.plan[s.pos].bno := s.plan[s.pos].data]
    ensures Progress(t)
  {
    OneMoreWrite(s.base, s.plan, s.pos);
  }

  lemma CommitGroups(s: State, t: State)
    requires Grouped(s)
    requires t.committed == s.committed + [s.closing]
    requires t.epoch == s.epoch && t.nextOp == s.nextOp && t.open == s.open && t.issued == s.issued
    requires t.group == s.group && t.closing == s.closing
    ensures Grouped(t)
  {
  }

  lemma RecoveryWriteKeeps(l: Layout, d0: Disk, s: State)
    requires Inv(l, d0, s) && Enabled(l, s, DiskWrite) && s.mode == Recovering
    ensures Inv(l, d0, Next(l, s, DiskWrite))
  {
    var t := Wrote(l, s);
    NoCommitPoint(l, s.base, s.pos);
    assert Counting(l, t);
    GroupFrame(s, t);
    WritePlanned(s, t);
  }

  lemma NoCommitPoint(l: Layout, d: Disk, k: nat)
    requires WfDisk(l, d) && k < |RecoverWrites(l, d)|
    ensures !CommitPoint(l, RecoverWrites(l, d)[k])
  {
  }

  /** All writes of a commit done: the disk is clean and equals the cache. */
  lemma CommittedDisk(l: Layout, d0: Disk, s: State)
    requires Inv(l, d0, s) && s.mode == Up && s.committing && s.pos == |s.plan|
    ensures Clean(l, s.disk) && SameHome(l, s.disk, s.view)
    ensures SameHome(l, s.disk, ApplyGroups(d0, s.committed))
  {
    MidCommit(l, d0, s);
    CommitLeavesClean(l, s.base, s.view, s.lh);
    assert s.plan[..s.pos] == s.plan;
    RecoverClean(l, s.disk);
  }

  lemma CommitLeavesClean(l: Layout, base: Disk, view: Disk, lh: seq<nat>)
    requires Clean(l, base) && |view| == l.size
    requires forall i :: 0 <= i < |lh| ==> l.Home(lh[i]) && lh[i] < |view|
    requires Batch(l, lh, Contents(view, lh))
    requires forall x :: 0 <= x < l.size && l.Home(x) && x !in lh ==> view[x] == base[x]
    ensures var d := Apply(base, CommitWrites(l, base, lh, Contents(view, lh)));
            Clean(l, d) && SameHome(l, d, view)
  {
    var n, vs := |lh|, Contents(view, lh);
    var ws := CommitWrites(l, base, lh, vs);
    if n > 0 {
      SplitAtHeader(l, base, lh, vs, |ws|);
      var c := Apply(base, ws[..n + 1]);
      assert ws[..|ws|] == ws;
      assert RecoverWrites(l, c)[..|ws| - n - 1] == RecoverWrites(l, c);
      RecoveredIsClean(l, c);
      RecoverAfterHeader(l, base, lh, vs);
      InstallGivesView(l, base, view, lh);
    }
  }

  lemma FinishKeeps(l: Layout, d0: Disk, s: State)
    requires Inv(l, d0, s) && Enabled(l, s, FinishCommit)
    ensures Inv(l, d0, Next(l, s, FinishCommit))
  {
    var t := Next(l, s, FinishCommit);
    CommittedDisk(l, d0, s);
    assert Counting(l, t);
    assert Quiet(l, d0, t);
    assert Grouped(t);
  }

  lemma RecoveredKeeps(l: Layout, d0: Disk, s: State)
    requires Inv(l, d0, s) && Enabled(l, s, FinishRecovery)
    ensures Inv(l, d0, Next(l, s, FinishRecovery))
  {
    assert s.plan[..s.pos] == s.plan;
    RecoveredIsClean(l, s.base);
  }

  /** The heart: what recovery would make of the disk right now is exactly the
      committed groups, in every state. */
  lemma RecoveryYieldsCommitted(l: Layout, d0: Disk, s: State)
    requires Inv(l, d0, s)
    ensures WfDisk(l, s.disk)
    ensures SameHome(l, Recover(l, s.disk), ApplyGroups(d0, s.committed))
  {
    match s.mode
    case Recovering =>
      RecoverIsIdempotent(l, s.base, s.pos);
    case Panicked =>
      RecoverClean(l, s.disk);
    case Up =>
      if !s.committing {
        RecoverClean(l, s.disk);
      } else {
        MidCommit(l, d0, s);
      }
  }

  lemma MidCommit(l: Layout, d0: Disk, s: State)
    requires Inv(l, d0, s) && s.mode == Up && s.committing
    ensures WfDisk(l, s.disk)
    ensures SameHome(l, Recover(l, s.disk), ApplyGroups(d0, s.committed))
  {
    var vs := Contents(s.view, s.lh);
    if |s.lh| == 0 {
      assert s.plan[..s.pos] == [];
      RecoverClean(l, s.disk);
    } else if s.pos <= |s.lh| {
      CrashBeforeHeader(l, s.base, s.lh, vs, s.pos);
    } else {
      CrashAfterHeader(l, s.base, s.lh, vs, s.pos);
      InstallGivesView(l, s.base, s.view, s.lh);
      var pre := s.committed[..|s.committed| - 1];
      UpdsKeepHome(l, s.base, ApplyGroups(d0, pre), s.closing);
    }
  }

  lemma CrashKeeps(l: Layout, d0: Disk, s: State)
    requires Inv(l, d0, s)
    ensures Inv(l, d0, Next(l, s, Crash))
  {
    RecoveryYieldsCommitted(l, d0, s);
    var t := Next(l, s, Crash);
    assert t.plan[..0] == [];
  }

  lemma StepKeeps(l: Layout, d0: Disk, s: State, a: Action)
    requires Inv(l, d0, s) && Enabled(l, s, a) && Timely(l, s, a)
    ensures Inv(l, d0, Next(l, s, a))
  {
    match a
    case BeginOp(p) => BeginKeeps(l, d0, s, p);
    case Check(i, bno) => CheckKeeps(l, d0, s, i, bno);
    case Append(i, data) => AppendKeeps(l, d0, s, i, data);
    case EndOp(i) => EndKeeps(l, d0, s, i);
    case DiskWrite => if s.mode == Up { CommitWriteKeeps(l, d0, s); } else { RecoveryWriteKeeps(l, d0, s); }
    case FinishCommit => FinishKeeps(l, d0, s);
    case FinishRecovery => RecoveredKeeps(l, d0, s);
    case Crash => CrashKeeps(l, d0, s);
  }

  lemma BootEstablishes(l: Layout, d: Disk)
    requires WfDisk(l, d)
    ensures Inv(l, Recover(l, d), Boot(l, d))
  {
    var s := Boot(l, d);
    assert s.plan[..0] == [];
  }

  // ----- whole runs -----

  /** A run: the states passed through and the action between each two. */
  ghost predicate Run(l: Layout, d: Disk, ss: seq<State>, acts: seq<Action>) {
    && |ss| == |acts| + 1 && WfDisk(l, d) && ss[0] == Boot(l, d)
    && forall i :: 0 <= i < |acts| ==> Follows(l, ss[i], acts[i], ss[i + 1])
  }

  ghost predicate Follows(l: Layout, s: State, a: Action, t: State) {
    Enabled(l, s, a) && t == Next(l, s, a)
  }

  /** Every append of a new block came before the guard would have stopped it. */
  ghost predicate TimelyRun(l: Layout, d: Disk, ss: seq<State>, acts: seq<Action>) {
    Run(l, d, ss, acts) && forall i :: 0 <= i < |acts| ==> Timely(l, ss[i], acts[i])
  }

  /** Every step keeps the counters, timely or not. */
  lemma StepCounts(l: Layout, s: State, a: Action)
    requires Counting(l, s) && Enabled(l, s, a)
    ensures Counting(l, Next(l, s, a))
  {
    match a
    case BeginOp(p) =>
    case Check(i, bno) => CheckCounts(l, s, i, bno);
    case Append(i, data) => AppendCounts(l, s, i, data);
    case EndOp(i) =>
    case DiskWrite =>
    case FinishCommit =>
    case FinishRecovery =>
    case Crash =>
  }

  lemma {:induction false} RunCounts(l: Layout, d: Disk, ss: seq<State>, acts: seq<Action>, i: nat)
    requires Run(l, d, ss, acts) && i < |ss|
    ensures Counting(l, ss[i])
  {
    if i > 0 {
      hide Counting, Next, Enabled, WfDisk;
      RunCounts(l, d, ss, acts, i - 1);
      assert Follows(l, ss[i - 1], acts[i - 1], ss[i]);
      StepCounts(l, ss[i - 1], acts[i - 1]);
    }
  }

  lemma {:induction false} RunKeeps(l: Layout, d: Disk, ss: seq<State>, acts: seq<Action>, i: nat)
    requires TimelyRun(l, d, ss, acts) && i < |ss|
    ensures Inv(l, Recover(l, d), ss[i])
  {
    hide Inv, Boot, Next, Enabled, WfDisk, Recover, Timely;
    if i == 0 {
      BootEstablishes(l, d);
    } else {
      RunKeeps(l, d, ss, acts, i - 1);
      assert Follows(l, ss[i - 1], acts[i - 1], ss[i]);
      StepKeeps(l, Recover(l, d), ss[i - 1], acts[i - 1]);
    }
  }

  /** Crash safety over all timely runs.  Cut the power at any point, with any history of
      operations, commits, crashes and interrupted recoveries behind it: recovery
      yields the committed groups, applied whole and in order; no operation is split;
      and every group whose last end_op returned is among them. */
  lemma CrashSafety(l: Layout, d: Disk, ss: seq<State>, acts: seq<Action>, i: nat)
    requires TimelyRun(l, d, ss, acts) && i < |ss|
    ensures WfDisk(l, ss[i].disk)
    ensures SameHome(l, Recover(l, ss[i].disk), ApplyGroups(Recover(l, d), ss[i].committed))
    ensures AllOrNothing(ss[i])
    ensures ss[i].acked <= |ss[i].committed|
  {
    hide Boot, Recover, Restoring, Committing, Quiet;
    RunKeeps(l, d, ss, acts, i);
    RecoveryYieldsCommitted(l, Recover(l, d), ss[i]);
  }

  ghost predicate Grows(s: State, t: State) {
    s.committed <= t.committed && s.acked <= t.acked
  }

  lemma StepGrows(l: Layout, s: State, a: Action)
    requires Enabled(l, s, a) && s.acked <= |s.committed|
    ensures Grows(s, Next(l, s, a))
  {
  }

  lemma {:induction false} GrowsAlong(ss: seq<State>, i: nat, j: nat)
    requires i <= j < |ss| && forall k :: 0 <= k < |ss| - 1 ==> Grows(ss[k], ss[k + 1])
    ensures Grows(ss[i], ss[j])
  {
    if i < j {
      GrowsAlong(ss, i, j - 1);
      var k := j - 1;
      assert Grows(ss[k], ss[k + 1]);
    }
  }

  /** Committed groups stay committed: later histories extend earlier ones. */
  lemma Durability(l: Layout, d: Disk, ss: seq<State>, acts: seq<Action>, i: nat, j: nat)
    requires Run(l, d, ss, acts) && i <= j < |ss|
    ensures ss[i].committed <= ss[j].committed && ss[i].acked <= ss[j].acked
  {
    forall k | 0 <= k < |ss| - 1 ensures Grows(ss[k], ss[k + 1]) {
      RunCounts(l, d, ss, acts, k);
      assert Follows(l, ss[k], acts[k], ss[k + 1]);
      StepGrows(l, ss[k], acts[k]);
    }
    GrowsAlong(ss, i, j);
  }

  /** When end_op returns after a commit, its group is on the disk, durably. */
  lemma EndOpReturnsDurably(l: Layout, d: Disk, ss: seq<State>, acts: seq<Action>, i: nat)
    requires TimelyRun(l, d, ss, acts) && i < |acts| && acts[i] == FinishCommit
    ensures ss[i + 1].acked == |ss[i + 1].committed|
    ensures ss[i].lh != [] ==> ss[i].committed != [] && ss[i].committed[|ss[i].committed| - 1] == ss[i].closing
    ensures SameHome(l, ss[i + 1].disk, ss[i + 1].view)
    ensures SameHome(l, ss[i + 1].disk, ApplyGroups(Recover(l, d), ss[i + 1].committed))
  {
    RunKeeps(l, d, ss, acts, i);
    assert Follows(l, ss[i], acts[i], ss[i + 1]);
    CommittedDisk(l, Recover(l, d), ss[i]);
  }

  // ----- log space -----

  ghost function Reserved(open: seq<Op>): int {
    if open == [] then 0 else Reserved(open[..|open| - 1]) + (MAXOPBLOCKS - open[|open| - 1].added)
  }

  lemma {:induction false} ReservedRemove(open: seq<Op>, i: nat)
    requires i < |open|
    ensures Reserved(open[..i] + open[i + 1..]) == Reserved(open) - (MAXOPBLOCKS - open[i].added)
    decreases |open|
  {
    var n := |open| - 1;
    if i == n {
      assert open[..i] + open[i + 1..] == open[..n];
    } else {
      var rest := open[..i] + open[i + 1..];
      assert rest[..n - 1] == open[..n][..i] + open[..n][i + 1..];
      assert rest[n - 1] == open[n];
      ReservedRemove(open[..n], i);
    }
  }

  lemma {:induction false} ReservedUpdate(open: seq<Op>, i: nat, o: Op)
    requires i < |open|
    ensures Reserved(open[i := o]) == Reserved(open) + open[i].added - o.added
    decreases |open|
  {
    var n := |open| - 1;
    if i == n {
      assert open[i := o][..n] == open[..n];
    } else {
      assert open[i := o][..n] == open[..n][i := o];
      ReservedUpdate(open[..n], i, o);
    }
  }

  lemma {:induction false} ReservedBound(open: seq<Op>)
    ensures Reserved(open) <= MAXOPBLOCKS * |open|
    decreases |open|
  {
    if open != [] { ReservedBound(open[..|open| - 1]); }
  }

  /** A caller that keeps its promise logs at most MAXOPBLOCKS new blocks. */
  ghost predicate Promised(s: State, a: Action) {
    a.Check? && a.i < |s.open| && a.bno !in s.lh ==> s.open[a.i].added < MAXOPBLOCKS
  }

  /** A run whose callers all keep their promise. */
  ghost predicate PromisedRun(l: Layout, d: Disk, ss: seq<State>, acts: seq<Action>) {
    Run(l, d, ss, acts) && forall k :: 0 <= k < |acts| ==> Promised(ss[k], acts[k])
  }

  ghost predicate SpaceInv(s: State) {
    && |s.lh| + Reserved(s.open) <= LOGSIZE
    && (forall i :: 0 <= i < |s.open| ==> s.open[i].added <= MAXOPBLOCKS)
    && (forall i :: 0 <= i < |s.open| && s.open[i].pending.Some? && s.open[i].pending.value !in s.lh ==>
          s.open[i].added < MAXOPBLOCKS)
  }

  lemma SpaceBegin(s: State, p: nat)
    requires SpaceInv(s) && s.outstanding == |s.open|
    ensures SpaceInv(Begin(s, p))
  {
    ReservedBound(s.open);
    if !MustWait(s) { assert Begin(s, p).open[..|s.open|] == s.open; }
  }

  lemma SpaceCheck(l: Layout, s: State, i: nat, bno: nat)
    requires SpaceInv(s) && i < |s.open| && Promised(s, Check(i, bno))
    ensures SpaceInv(Checked(l, s, i, bno))
  {
    ReservedUpdate(s.open, i, s.open[i].(pending := Some(bno)));
  }

  lemma SpaceAppend(s: State, i: nat, data: Block)
    requires SpaceInv(s) && i < |s.open| && s.open[i].pending.Some?
    ensures SpaceInv(Appended(s, i, data))
  {
    var t := Appended(s, i, data);
    ReservedUpdate(s.open, i, t.open[i]);
    assert forall b :: b in s.lh ==> b in t.lh;
  }

  lemma SpaceEnd(l: Layout, s: State, i: nat)
    requires SpaceInv(s) && i < |s.open|
    ensures SpaceInv(Ended(l, s, i))
  {
    ReservedRemove(s.open, i);
  }

  lemma SpaceKeeps(l: Layout, s: State, a: Action)
    requires s.outstanding == |s.open| && (s.committing ==> s.open == [])
    requires SpaceInv(s) && Enabled(l, s, a) && Promised(s, a)
    ensures SpaceInv(Next(l, s, a))
  {
    match a
    case BeginOp(p) => SpaceBegin(s, p);
    case Check(i, bno) => SpaceCheck(l, s, i, bno);
    case Append(i, data) => SpaceAppend(s, i, data);
    case EndOp(i) => SpaceEnd(l, s, i);
    case DiskWrite =>
    case FinishCommit =>
    case FinishRecovery =>
    case Crash =>
  }

  /** If every operation keeps its promise, the blocks logged plus every unused
      reservation always fit the log. */
  lemma {:induction false} ReservationsFit(l: Layout, d: Disk, ss: seq<State>, acts: seq<Action>, i: nat)
    requires PromisedRun(l, d, ss, acts) && i < |ss|
    ensures SpaceInv(ss[i])
  {
    if i > 0 {
      hide SpaceInv, Counting, Promised, Boot;
      ReservationsFit(l, d, ss, acts, i - 1);
      RunCounts(l, d, ss, acts, i - 1);
      assert Follows(l, ss[i - 1], acts[i - 1], ss[i]);
      hide Follows;
      assert Promised(ss[i - 1], acts[i - 1]);
      SpaceStep(l, ss[i - 1], acts[i - 1], ss[i]);
    }
  }

  lemma SpaceStep(l: Layout, s: State, a: Action, t: State)
    requires Counting(l, s) && SpaceInv(s) && Follows(l, s, a, t) && Promised(s, a)
    ensures SpaceInv(t)
  {
    hide SpaceInv, Promised, Next;
    SpaceKeeps(l, s, a);
  }

  /** An operation with a reservation left finds room in the list. */
  lemma RoomFor(s: State, k: nat)
    requires SpaceInv(s) && k < |s.open|
    ensures Reserved(s.open) >= MAXOPBLOCKS - s.open[k].added >= 0
  {
    ReservedRemove(s.open, k);
    ReservedNonneg(s.open[..k] + s.open[k + 1..]);
  }

  /** If every operation keeps its promise, log_write panics exactly when, at its guard, the log
      lists LOGSIZE blocks, or all but one block of its region.  A log of LOGSIZE blocks is met only
      by a block that is listed already, with every reservation used up. */
  lemma LogWritePanicsIff(l: Layout, d: Disk, ss: seq<State>, acts: seq<Action>, i: nat)
    requires PromisedRun(l, d, ss, acts) && i < |acts| && acts[i].Check?
    ensures ss[i + 1].mode == Panicked <==> |ss[i].lh| == LOGSIZE || |ss[i].lh| >= l.nlog - 1
    ensures |ss[i].lh| == LOGSIZE ==> acts[i].bno in ss[i].lh && Reserved(ss[i].open) == 0
  {
    ReservationsFit(l, d, ss, acts, i);
    RunCounts(l, d, ss, acts, i);
    assert Follows(l, ss[i], acts[i], ss[i + 1]);
    assert Promised(ss[i], acts[i]);
    hide Run;
    RoomFor(ss[i], acts[i].i);
  }

  /** With a region of more than LOGSIZE blocks the guard never stops a new block, and no append
      comes too late for it. */
  lemma NewBlockFits(l: Layout, d: Disk, ss: seq<State>, acts: seq<Action>, i: nat)
    requires PromisedRun(l, d, ss, acts) && i < |acts| && l.nlog > LOGSIZE
    ensures acts[i].Check? ==> (ss[i + 1].mode == Panicked <==> |ss[i].lh| == LOGSIZE)
    ensures acts[i].Check? && acts[i].bno !in ss[i].lh ==> ss[i + 1].mode == Up
    ensures Timely(l, ss[i], acts[i])
  {
    ReservationsFit(l, d, ss, acts, i);
    assert Follows(l, ss[i], acts[i], ss[i + 1]);
    if acts[i].Check? {
      RunCounts(l, d, ss, acts, i);
      LogWritePanicsIff(l, d, ss, acts, i);
    } else if acts[i].Append? {
      RoomFor(ss[i], acts[i].i);
    }
  }

  /** So there, operations that keep their promise are crash safe, however they interleave. */
  lemma PromisedCrashSafety(l: Layout, d: Disk, ss: seq<State>, acts: seq<Action>, i: nat)
    requires PromisedRun(l, d, ss, acts) && i < |ss| && l.nlog > LOGSIZE
    ensures TimelyRun(l, d, ss, acts)
    ensures WfDisk(l, ss[i].disk)
    ensures SameHome(l, Recover(l, ss[i].disk), ApplyGroups(Recover(l, d), ss[i].committed))
    ensures AllOrNothing(ss[i]) && ss[i].acked <= |ss[i].committed|
  {
    forall k | 0 <= k < |acts| ensures Timely(l, ss[k], acts[k]) { NewBlockFits(l, d, ss, acts, k); }
    CrashSafety(l, d, ss, acts, i);
  }

  lemma {:induction false} ReservedNonneg(open: seq<Op>)
    requires forall i :: 0 <= i < |open| ==> open[i].added <= MAXOPBLOCKS
    ensures 0 <= Reserved(open)
    decreases |open|
  {
    if open != [] { ReservedNonneg(open[..|open| - 1]); }
  }

  /** No lost wakeup: whoever sleeps in begin_op still has to wait, a commit runs
      with no operation open, and an idle log has no sleepers. */
  lemma NoLostWakeup(l: Layout, d: Disk, ss: seq<State>, acts: seq<Action>, i: nat)
    requires Run(l, d, ss, acts) && i < |ss|
    ensures ss[i].asleep != {} ==> MustWait(ss[i])
    ensures ss[i].committing ==> ss[i].outstanding == 0 && ss[i].open == []
    ensures ss[i].outstanding == 0 && !ss[i].committing ==> ss[i].lh == [] && ss[i].asleep == {}
  {
    RunCounts(l, d, ss, acts, i);
  }
}
