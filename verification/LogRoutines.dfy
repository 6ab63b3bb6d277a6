/** What each routine of log.c does to the cache and the disk, as relations between snapshots:
    the block writes issued so far, the newest contents, and who holds which buffer. */
module LogRoutines {
  import opened Basics
  import opened Blocks
  import opened LogFormat
  import opened BufferCache
  import opened BufferUse
  import LM = LogMachine

  datatype Snap = Snap(buf: seq<Buf>, disk: Disk, view: Disk, writes: seq<Write>)

  // ----- plans of block writes -----

  /** The first k of the planned writes have reached the disk. */
  ghost predicate Issued(plan: seq<Write>, k: nat, s: Snap, t: Snap) {
    && k <= |plan| && InRange(plan, |s.disk|) && InRange(plan[..k], |s.disk|)
    && t.disk == Apply(s.disk, plan[..k]) && t.writes == s.writes + plan[..k]
  }

  lemma IssueOne(plan: seq<Write>, k: nat, s0: Snap, s: Snap, t: Snap)
    requires Issued(plan, k, s0, s) && k < |plan|
    requires plan[k].bno < |s.disk| ==> t.disk == s.disk[plan[k].bno := plan[k].data]
    requires t.writes == s.writes + [plan[k]]
    ensures Issued(plan, k + 1, s0, t)
  {
    LM.OneMoreWrite(s0.disk, plan, k);
    assert plan[..k + 1] == plan[..k] + [plan[k]];
  }

  lemma IssuedThen(a: seq<Write>, b: seq<Write>, k: nat, s: Snap, t: Snap, u: Snap)
    requires Issued(a, |a|, s, t) && Issued(b, k, t, u)
    ensures Issued(a + b, |a| + k, s, u)
  {
    assert a[..|a|] == a;
    assert (a + b)[..|a| + k] == a + b[..k];
    ApplyConcat(s.disk, a, b[..k]);
  }

  lemma IssuedSoFar(a: seq<Write>, b: seq<Write>, k: nat, s: Snap, t: Snap)
    requires Issued(a, k, s, t) && InRange(b, |s.disk|)
    ensures Issued(a + b, k, s, t)
  {
    assert (a + b)[..k] == a[..k];
  }

  lemma IssueNone(plan: seq<Write>, s: Snap, t: Snap)
    requires InRange(plan, |s.disk|) && t.disk == s.disk && t.writes == s.writes
    ensures Issued(plan, 0, s, t)
  {
    assert plan[..0] == [];
  }

  // ----- the log region, the listed blocks, and their buffers -----

  ghost predicate InLog(l: Layout, x: nat) {
    l.start <= x < l.start + l.nlog
  }

  ghost function Region(l: Layout): (r: set<nat>)
    ensures forall x: nat :: x in r <==> InLog(l, x)
  {
    set x: nat | l.start <= x < l.start + l.nlog && InLog(l, x)
  }

  /** Everything outside the log region looks the same. */
  ghost predicate SameOutside(l: Layout, v: Disk, v0: Disk) {
    |v| == |v0| && forall x :: 0 <= x < |v| && !(l.start <= x < l.start + l.nlog) ==> v[x] == v0[x]
  }

  ghost predicate LogRegionOnDisk(l: Layout, v: Disk, d: Disk) {
    |v| == |d| == l.size && l.Valid() && forall x :: l.start <= x < l.start + l.nlog ==> v[x] == d[x]
  }

  ghost predicate Sized(l: Layout, s: Snap) {
    l.Valid() && |s.buf| == NBUF + 1 && LogRegionOnDisk(l, s.view, s.disk)
  }

  ghost predicate Listing(l: Layout, lh: seq<nat>) {
    |lh| <= l.nlog - 1 && |lh| <= LOGSIZE && forall i :: 0 <= i < |lh| ==> l.Home(lh[i]) && lh[i] < l.size
  }

  /** No process holds a block of the log region or a listed block. */
  ghost predicate NoneHeld(l: Layout, lh: seq<nat>, s: seq<Buf>) {
    (forall x :: x in Region(l) ==> FreeBlock(s, x)) && forall i :: 0 <= i < |lh| ==> FreeBlock(s, lh[i])
  }

  ghost predicate Ready(l: Layout, lh: seq<nat>, s: Snap) {
    Sized(l, s) && Listing(l, lh) && NoneHeld(l, lh, s.buf)
  }

  lemma NoneHeldKept(l: Layout, lh: seq<nat>, s: seq<Buf>, t: seq<Buf>)
    requires NoneHeld(l, lh, s) && Kept(s, t)
    ensures NoneHeld(l, lh, t)
  {
    forall x | x in Region(l) ensures FreeBlock(t, x) { KeptFree(s, t, x); }
    forall i | 0 <= i < |lh| ensures FreeBlock(t, lh[i]) { KeptFree(s, t, lh[i]); }
  }

  ghost predicate AllPinned(lh: seq<nat>, s: seq<Buf>) {
    forall i :: 0 <= i < |lh| ==> Pinned(s, lh[i])
  }

  /** Enough buffers for a commit of the listed blocks: they are pinned and one more buffer is
      spare.  At boot all buffers are idle. */
  ghost predicate Roomy(lh: seq<nat>, s: seq<Buf>) {
    Spare(s) && (AllPinned(lh, s) || Idle(s))
  }

  ghost function FirstBlocks(s: seq<Buf>, k: nat): set<nat>
    requires k <= |s|
  {
    set i | 0 <= i < k :: s[i].blockno
  }

  lemma {:induction false} BlockCount(s: seq<Buf>, k: nat)
    requires Unique(s) && k <= NBUF && forall i :: 0 <= i < k ==> s[i].dev == ROOTDEV
    ensures |FirstBlocks(s, k)| == k
  {
    if k > 0 {
      BlockCount(s, k - 1);
      assert FirstBlocks(s, k) == FirstBlocks(s, k - 1) + {s[k - 1].blockno};
    }
  }

  lemma {:induction false} ElementsBound(lh: seq<nat>)
    ensures |Elements(lh)| <= |lh|
  {
    if lh != [] {
      ElementsBound(lh[1..]);
      assert Elements(lh) == Elements(lh[1..]) + {lh[0]};
    }
  }

  /** When no buffer is in use but those of the listed blocks, which are pinned, a list shorter than
      the cache leaves room for its commit: so it is with a log region of at most NBUF blocks. */
  lemma ListedLeaveRoom(lh: seq<nat>, s: seq<Buf>)
    requires Unique(s) && |lh| < NBUF && AllPinned(lh, s)
    requires forall i :: 0 <= i < NBUF && InUse(s[i]) ==> s[i].dev == ROOTDEV && s[i].blockno in lh
    ensures Roomy(lh, s)
  {
    if forall i :: 0 <= i < NBUF ==> InUse(s[i]) {
      BlockCount(s, NBUF);
      ElementsBound(lh);
      SubsetCount(FirstBlocks(s, NBUF), Elements(lh));
    }
  }

  /** Unpinning blocks of the log region leaves room. */
  lemma RoomyLater(l: Layout, lh: seq<nat>, s: seq<Buf>, t: seq<Buf>)
    requires Roomy(lh, s) && Settled(s, t, Region(l)) && Listing(l, lh)
    ensures Roomy(lh, t)
  {
    hide Pinned, Spare, Idle, Kept;
    assert AllPinned(lh, s) ==> AllPinned(lh, t);
  }

  /** While the first k listed blocks are unpinned one by one, the next one is still pinned. */
  lemma NextPinned(l: Layout, lh: seq<nat>, k: nat, s: seq<Buf>, t: seq<Buf>)
    requires k < |lh| && Settled(s, t, Region(l) + Elements(lh[..k])) && l.Home(lh[k])
    requires Roomy(lh, s) && (AllDifferent(lh) || Idle(s))
    ensures Spare(t) && (Pinned(t, lh[k]) || Idle(t))
  {
    hide Pinned, Spare, Idle, Kept;
  }

  // ----- one round of write_log and of install_trans -----

  /** The log block or, with install, the home block gets the contents of the other one. */
  ghost predicate CopyDone(log: nat, home: nat, install: bool, s: Snap, t: Snap)
    requires log < |s.view| == |s.disk| && home < |s.view|
  {
    var src, dst := if install then log else home, if install then home else log;
    && t.view == s.view[dst := s.view[src]] && t.disk == s.disk[dst := s.view[src]]
    && t.writes == s.writes + [Write(dst, s.view[src])]
    && Settled(s.buf, t.buf, if install then {log, home} else {log})
  }

  /** A panic for want of buffers. */
  ghost predicate Stopped(s: Snap, t: Snap) {
    t == s.(buf := t.buf) && |t.buf| == NBUF + 1 && !Spare(t.buf)
  }

  /** A round, or a panic; no panic with a spare buffer and the home block pinned. */
  ghost predicate CopyResult(log: nat, home: nat, install: bool, s: Snap, t: Snap, ok: bool)
    requires log < |s.view| == |s.disk| && home < |s.view|
  {
    && (if ok then CopyDone(log, home, install, s, t) else Stopped(s, t))
    && (Spare(s.buf) && (Pinned(s.buf, home) || Idle(s.buf)) ==> ok)
  }

  lemma CopySettles(s: seq<Buf>, t: seq<Buf>, u: seq<Buf>, x: nat, y: nat, log: nat, home: nat, install: bool)
    requires x < NBUF && y < NBUF && x != y && log != home && AllTaken(s, t, {x, y}) && AllGivenBack(t, u, {x, y})
    requires Holds(t, x, log) && Holds(t, y, home)
    requires Pinned(s, home) ==> t[y].dirty
    requires !install ==> u[y].dirty == t[y].dirty
    ensures Settled(s, u, if install then {log, home} else {log})
  {
    GivesBack(s, t, u, {x, y});
    assert BlocksOf(t, {x, y}) == {log, home};
    if !install && Pinned(s, home) {
      assert GivenBack(t[y], u[y]);
      assert Holds(u, y, home);
    }
  }

  // ----- write_log -----

  /** k rounds of write_log. */
  ghost predicate LogDone(l: Layout, lh: seq<nat>, s: Snap, t: Snap, k: nat)
    requires Ready(l, lh, s)
  {
    && k <= |lh| && Sized(l, t) && SameOutside(l, t.view, s.view)
    && Issued(LogWrites(l, LM.Contents(s.view, lh)), k, s, t)
  }

  /** write_log: all rounds, or some and a panic; no panic with room. */
  ghost predicate LogResult(l: Layout, lh: seq<nat>, s: Snap, t: Snap, ok: bool, k: nat)
    requires Ready(l, lh, s)
  {
    && LogDone(l, lh, s, t, k) && (Roomy(lh, s.buf) ==> ok)
    && if ok then k == |lh| && Settled(s.buf, t.buf, Region(l)) else !Spare(t.buf)
  }

  ghost predicate Logging(l: Layout, lh: seq<nat>, s: Snap, t: Snap, k: nat) {
    Ready(l, lh, s) && LogDone(l, lh, s, t, k) && Settled(s.buf, t.buf, Region(l))
  }

  lemma LogStart(l: Layout, lh: seq<nat>, s: Snap)
    requires Ready(l, lh, s)
    ensures Logging(l, lh, s, s, 0)
  {
    IssueNone(LogWrites(l, LM.Contents(s.view, lh)), s, s);
    SettledSame(s.buf, Region(l));
  }

  ghost predicate CanCopy(l: Layout, log: nat, home: nat, s: Snap) {
    && Sized(l, s) && InLog(l, log) && l.Home(home) && log < l.size && home < l.size
    && FreeBlock(s.buf, log) && FreeBlock(s.buf, home)
  }

  lemma CanCopyNext(l: Layout, lh: seq<nat>, s0: Snap, s: Snap, k: nat)
    requires Ready(l, lh, s0) && Sized(l, s) && Kept(s0.buf, s.buf) && k < |lh|
    ensures CanCopy(l, l.start + k + 1, lh[k], s)
  {
    NoneHeldKept(l, lh, s0.buf, s.buf);
    assert l.start + k + 1 in Region(l);
  }

  lemma LogNext(l: Layout, lh: seq<nat>, s0: Snap, s: Snap, k: nat)
    requires Logging(l, lh, s0, s, k)
    ensures if k < |lh| then CanCopy(l, l.start + k + 1, lh[k], s)
            else LogResult(l, lh, s0, s, true, k) && Sized(l, s)
  {
    if k < |lh| { CanCopyNext(l, lh, s0, s, k); }
  }

  lemma LogRound(l: Layout, lh: seq<nat>, s0: Snap, s: Snap, t: Snap, k: nat, ok: bool)
    requires Logging(l, lh, s0, s, k) && k < |lh| && CanCopy(l, l.start + k + 1, lh[k], s)
    requires CopyResult(l.start + k + 1, lh[k], false, s, t, ok)
    ensures Ready(l, lh, s0) && if ok then Logging(l, lh, s0, t, k + 1) else LogResult(l, lh, s0, t, false, k) && Sized(l, t)
  {
    if Roomy(lh, s0.buf) { RoomyLater(l, lh, s0.buf, s.buf); }
    if ok { LogOne(l, lh, s0, s, t, k); }
  }

  lemma LogOne(l: Layout, lh: seq<nat>, s0: Snap, s: Snap, t: Snap, k: nat)
    requires Logging(l, lh, s0, s, k) && k < |lh|
    requires CanCopy(l, l.start + k + 1, lh[k], s) && CopyDone(l.start + k + 1, lh[k], false, s, t)
    ensures Logging(l, lh, s0, t, k + 1)
  {
    SettledThen(s0.buf, s.buf, t.buf, Region(l), {l.start + k + 1});
    assert Region(l) + {l.start + k + 1} == Region(l);
    hide Settled, NoneHeld, FreeBlock;
    IssueOne(LogWrites(l, LM.Contents(s0.view, lh)), k, s0, s, t);
  }

  // ----- install_trans -----

  ghost function LogBlocks(l: Layout, d: Disk, n: nat): (r: seq<Block>)
    requires l.Valid() && |d| == l.size && n <= l.nlog - 1
    ensures |r| == n
  {
    seq(n, t requires 0 <= t < n => d[l.start + 1 + t])
  }

  ghost predicate RegionSame(l: Layout, d: Disk, d0: Disk) {
    |d| == |d0| == l.size && l.Valid() && forall x :: l.start <= x < l.start + l.nlog ==> d[x] == d0[x]
  }

  /** k rounds of install_trans; contents that the log blocks already have stay as they are. */
  ghost predicate InstallDone(l: Layout, lh: seq<nat>, s: Snap, t: Snap, k: nat)
    requires Ready(l, lh, s)
  {
    && k <= |lh| && Sized(l, t) && RegionSame(l, t.disk, s.disk)
    && (LogBlocks(l, s.disk, |lh|) == LM.Contents(s.view, lh) ==> SameOutside(l, t.view, s.view))
    && (s.view == s.disk ==> t.view == t.disk)
    && Issued(HomeWrites(lh, LogBlocks(l, s.disk, |lh|)), k, s, t)
  }

  ghost predicate InstallResult(l: Layout, lh: seq<nat>, s: Snap, t: Snap, ok: bool, k: nat)
    requires Ready(l, lh, s)
  {
    && InstallDone(l, lh, s, t, k) && (Roomy(lh, s.buf) && (AllDifferent(lh) || Idle(s.buf)) ==> ok)
    && if ok then k == |lh| && Settled(s.buf, t.buf, Region(l) + Elements(lh)) else !Spare(t.buf)
  }

  ghost predicate Installing(l: Layout, lh: seq<nat>, s: Snap, t: Snap, k: nat) {
    && Ready(l, lh, s) && InstallDone(l, lh, s, t, k)
    && Settled(s.buf, t.buf, Region(l) + Elements(lh[..k]))
  }

  lemma InstallStart(l: Layout, lh: seq<nat>, s: Snap)
    requires Ready(l, lh, s)
    ensures Installing(l, lh, s, s, 0)
  {
    IssueNone(HomeWrites(lh, LogBlocks(l, s.disk, |lh|)), s, s);
    SettledSame(s.buf, Region(l) + Elements(lh[..0]));
  }

  lemma InstallNext(l: Layout, lh: seq<nat>, s0: Snap, s: Snap, k: nat)
    requires Installing(l, lh, s0, s, k)
    ensures if k < |lh| then CanCopy(l, l.start + k + 1, lh[k], s)
            else InstallResult(l, lh, s0, s, true, k) && Sized(l, s)
  {
    if k < |lh| { CanCopyNext(l, lh, s0, s, k); } else { assert lh[..k] == lh; }
  }

  lemma InstallRound(l: Layout, lh: seq<nat>, s0: Snap, s: Snap, t: Snap, k: nat, ok: bool)
    requires Installing(l, lh, s0, s, k) && k < |lh| && CanCopy(l, l.start + k + 1, lh[k], s)
    requires CopyResult(l.start + k + 1, lh[k], true, s, t, ok)
    ensures Ready(l, lh, s0)
    ensures if ok then Installing(l, lh, s0, t, k + 1) else InstallResult(l, lh, s0, t, false, k) && Sized(l, t)
  {
    if Roomy(lh, s0.buf) && (AllDifferent(lh) || Idle(s0.buf)) { NextPinned(l, lh, k, s0.buf, s.buf); }
    if ok { InstallOne(l, lh, s0, s, t, k); }
  }

  lemma InstallOne(l: Layout, lh: seq<nat>, s0: Snap, s: Snap, t: Snap, k: nat)
    requires Installing(l, lh, s0, s, k) && k < |lh|
    requires CanCopy(l, l.start + k + 1, lh[k], s) && CopyDone(l.start + k + 1, lh[k], true, s, t)
    ensures Installing(l, lh, s0, t, k + 1)
  {
    var log, vs := l.start + k + 1, LogBlocks(l, s0.disk, |lh|);
    SettledThen(s0.buf, s.buf, t.buf, Region(l) + Elements(lh[..k]), {log, lh[k]});
    assert lh[..k + 1] == lh[..k] + [lh[k]];
    assert Region(l) + Elements(lh[..k]) + {log, lh[k]} == Region(l) + Elements(lh[..k + 1]);
    hide Settled, NoneHeld, FreeBlock, Elements;
    assert vs[k] == s0.disk[log] == s.view[log];
    if vs == LM.Contents(s0.view, lh) { assert LM.Contents(s0.view, lh)[k] == s0.view[lh[k]]; }
    IssueOne(HomeWrites(lh, vs), k, s0, s, t);
  }

  // ----- write_head -----

  ghost predicate HeadDone(l: Layout, lh: seq<nat>, s: Snap, t: Snap)
    requires Sized(l, s) && Numbers(lh)
  {
    var hb := PutHead(s.disk[l.start], lh);
    && t.disk == s.disk[l.start := hb] && t.view == s.view[l.start := hb] && t.writes == s.writes + [Write(l.start, hb)]
    && Settled(s.buf, t.buf, {l.start})
  }

  ghost predicate HeadResult(l: Layout, lh: seq<nat>, s: Snap, t: Snap, ok: bool)
    requires Sized(l, s) && Numbers(lh)
  {
    if ok then HeadDone(l, lh, s, t) else Stopped(s, t) && !Spare(s.buf)
  }

  ghost function HeadWrite(l: Layout, d: Disk, lh: seq<nat>): (r: seq<Write>)
    requires l.Valid() && |d| == l.size && Numbers(lh)
    ensures InRange(r, |d|) && |r| == 1
  {
    [Write(l.start, PutHead(d[l.start], lh))]
  }

  lemma HeadIssued(l: Layout, lh: seq<nat>, s: Snap, t: Snap)
    requires Sized(l, s) && Numbers(lh) && HeadDone(l, lh, s, t)
    ensures Sized(l, t) && Issued(HeadWrite(l, s.disk, lh), 1, s, t) && SameOutside(l, t.view, s.view)
    ensures t.disk[l.start] == PutHead(s.disk[l.start], lh)
    ensures forall x :: 0 <= x < l.size && x != l.start ==> t.disk[x] == s.disk[x]
  {
    IssueNone(HeadWrite(l, s.disk, lh), s, s);
    IssueOne(HeadWrite(l, s.disk, lh), 0, s, s, t);
  }

  // ----- commit: write_log, write_head, install_trans, write_head -----

  /** The writes of a commit up to and with its header write. */
  ghost function OpeningWrites(l: Layout, d: Disk, lh: seq<nat>, vs: seq<Block>): (r: seq<Write>)
    requires Clean(l, d) && Batch(l, lh, vs)
    ensures InRange(r, |d|) && |r| == |lh| + 1
  {
    LogWrites(l, vs) + HeadWrite(l, d, lh)
  }

  /** The writes of a commit after its header write. */
  ghost function ClosingWrites(l: Layout, hb: Block, lh: seq<nat>, vs: seq<Block>): (r: seq<Write>)
    requires |vs| == |lh|
    ensures |r| == |lh| + 1
  {
    HomeWrites(lh, vs) + [Write(l.start, PutHead(hb, []))]
  }

  lemma LogWritesDone(l: Layout, d: Disk, vs: seq<Block>, e: Disk)
    requires l.Valid() && |d| == l.size && |vs| <= l.nlog - 1
    requires InRange(LogWrites(l, vs), |d|) && e == Apply(d, LogWrites(l, vs))
    ensures e[l.start] == d[l.start] && LogBlocks(l, e, |vs|) == vs
  {
    ApplyRising(d, LogWrites(l, vs), l.start + 1);
    LogBlocksAre(l, e, LogWrites(l, vs), vs);
  }

  lemma LogBlocksAre(l: Layout, e: Disk, ws: seq<Write>, vs: seq<Block>)
    requires l.Valid() && |e| == l.size && |vs| <= l.nlog - 1 && |ws| == |vs|
    requires forall t :: 0 <= t < |vs| ==> ws[t].bno == l.start + 1 + t && ws[t].data == vs[t]
    requires forall t :: 0 <= t < |ws| ==> ws[t].bno < |e| && e[ws[t].bno] == ws[t].data
    ensures LogBlocks(l, e, |vs|) == vs
  {
  }

  /** A commit may begin: the log on disk is empty and the listed blocks fit. */
  ghost predicate CommitReady(l: Layout, lh: seq<nat>, s: Snap) {
    Ready(l, lh, s) && Clean(l, s.disk) && Batch(l, lh, LM.Contents(s.view, lh))
  }

  /** k writes of a commit have reached the disk, and the cache looks as before. */
  ghost predicate CommitDone(l: Layout, lh: seq<nat>, s: Snap, t: Snap, k: nat)
    requires CommitReady(l, lh, s)
  {
    && Sized(l, t) && SameOutside(l, t.view, s.view)
    && Issued(CommitWrites(l, s.disk, lh, LM.Contents(s.view, lh)), k, s, t)
  }

  /** The log blocks and the header are written. */
  ghost predicate Opened(l: Layout, lh: seq<nat>, s: Snap, t: Snap)
    requires CommitReady(l, lh, s)
  {
    var vs := LM.Contents(s.view, lh);
    && Sized(l, t) && SameOutside(l, t.view, s.view) && Issued(OpeningWrites(l, s.disk, lh, vs), |lh| + 1, s, t)
    && LogBlocks(l, t.disk, |lh|) == vs && t.disk[l.start] == PutHead(s.disk[l.start], lh)
  }

  /** The first half of commit: done, or a panic after k writes; no panic with room. */
  ghost predicate OpenResult(l: Layout, lh: seq<nat>, s: Snap, t: Snap, ok: bool, k: nat)
    requires CommitReady(l, lh, s)
  {
    && (if ok then Opened(l, lh, s, t) && Ready(l, lh, t) && Kept(s.buf, t.buf) else CommitDone(l, lh, s, t, k) && !Spare(t.buf))
    && (Roomy(lh, s.buf) ==> ok && Roomy(lh, t.buf))
  }

  /** All of it. */
  ghost predicate CommitResult(l: Layout, lh: seq<nat>, s: Snap, t: Snap, ok: bool, k: nat)
    requires CommitReady(l, lh, s)
  {
    && CommitDone(l, lh, s, t, k) && (Roomy(lh, s.buf) ==> ok)
    && if ok then k == |CommitWrites(l, s.disk, lh, LM.Contents(s.view, lh))| && Kept(s.buf, t.buf) else !Spare(t.buf)
  }

  lemma OpenedLog(l: Layout, lh: seq<nat>, s: Snap, t: Snap, ok: bool, k: nat)
    requires CommitReady(l, lh, s) && lh != [] && LogResult(l, lh, s, t, ok, k)
    ensures Numbers(lh) && if ok then k == |lh| && FreeBlock(t.buf, l.start) && Sized(l, t) else OpenResult(l, lh, s, t, false, k)
  {
    StoppedInLog(l, lh, s, t, k);
    if ok { LogSettled(l, lh, s, t); }
  }

  lemma OpenedAll(l: Layout, lh: seq<nat>, s: Snap, t: Snap, u: Snap, ok: bool)
    requires CommitReady(l, lh, s) && lh != [] && LogResult(l, lh, s, t, true, |lh|)
    requires Numbers(lh) && HeadResult(l, lh, t, u, ok)
    ensures OpenResult(l, lh, s, u, ok, |lh|)
  {
    LogSettled(l, lh, s, t);
    if ok {
      HeadSettled(l, lh, s, t, u);
    } else {
      StoppedInLog(l, lh, s, t, |lh|);
      CommitStays(l, lh, s, t, u, |lh|);
    }
  }

  lemma ClosedInstall(l: Layout, lh: seq<nat>, s: Snap, t: Snap, u: Snap, ok: bool, k: nat)
    requires CommitReady(l, lh, s) && lh != [] && OpenResult(l, lh, s, t, true, |lh|)
    requires InstallResult(l, lh, t, u, ok, k)
    ensures Numbers([])
    ensures if ok then k == |lh| && FreeBlock(u.buf, l.start) && Sized(l, u)
            else CommitResult(l, lh, s, u, false, |lh| + 1 + k)
  {
    StoppedInInstall(l, lh, s, t, u, k);
    CommitStart(l, lh, s);
    if ok { InstallSettled(l, lh, t, u); }
  }

  lemma ClosedAll(l: Layout, lh: seq<nat>, s: Snap, t: Snap, u: Snap, w: Snap, ok: bool)
    requires CommitReady(l, lh, s) && lh != [] && OpenResult(l, lh, s, t, true, |lh|)
    requires InstallResult(l, lh, t, u, true, |lh|) && HeadResult(l, [], u, w, ok)
    ensures CommitResult(l, lh, s, w, ok, if ok then 2 * |lh| + 2 else 2 * |lh| + 1)
  {
    CommitStart(l, lh, s);
    InstallSettled(l, lh, t, u);
    if ok {
      Closed(l, lh, s, t, u, w);
    } else {
      StoppedInInstall(l, lh, s, t, u, |lh|);
      CommitStays(l, lh, s, u, w, 2 * |lh| + 1);
    }
  }

  lemma OpenReady(l: Layout, lh: seq<nat>, s: Snap, t: Snap)
    requires CommitReady(l, lh, s) && OpenResult(l, lh, s, t, true, |lh|)
    ensures Ready(l, lh, t)
  {
  }

  lemma OpenStopped(l: Layout, lh: seq<nat>, s: Snap, t: Snap, k: nat)
    requires CommitReady(l, lh, s) && OpenResult(l, lh, s, t, false, k)
    ensures CommitResult(l, lh, s, t, false, k)
  {
  }

  lemma CommitNothing(l: Layout, s: Snap)
    requires CommitReady(l, [], s)
    ensures CommitResult(l, [], s, s, true, 0)
  {
    CommitStart(l, [], s);
  }

  lemma CommitPlan(l: Layout, lh: seq<nat>, s: Snap)
    requires CommitReady(l, lh, s) && lh != []
    ensures var vs := LM.Contents(s.view, lh);
            CommitWrites(l, s.disk, lh, vs) ==
              OpeningWrites(l, s.disk, lh, vs) + ClosingWrites(l, PutHead(s.disk[l.start], lh), lh, vs)
  {
  }

  lemma StoppedInLog(l: Layout, lh: seq<nat>, s: Snap, t: Snap, k: nat)
    requires CommitReady(l, lh, s) && lh != [] && LogDone(l, lh, s, t, k)
    ensures CommitDone(l, lh, s, t, k)
  {
    var vs := LM.Contents(s.view, lh);
    var rest := HeadWrite(l, s.disk, lh) + ClosingWrites(l, PutHead(s.disk[l.start], lh), lh, vs);
    CommitPlan(l, lh, s);
    hide Ready, Clean, Batch;
    var plan := CommitWrites(l, s.disk, lh, vs);
    assert plan == LogWrites(l, vs) + rest;
    assert InRange(rest, |s.disk|) by {
      forall i | 0 <= i < |rest| ensures rest[i].bno < |s.disk| { assert rest[i] == plan[|vs| + i]; }
    }
    IssuedSoFar(LogWrites(l, vs), rest, k, s, t);
  }

  lemma OpeningHead(l: Layout, lh: seq<nat>, s: Snap, t: Snap, u: Snap)
    requires CommitReady(l, lh, s) && LogDone(l, lh, s, t, |lh|) && Numbers(lh) && HeadDone(l, lh, t, u)
    ensures Opened(l, lh, s, u)
  {
    var vs := LM.Contents(s.view, lh);
    assert LogWrites(l, vs)[..|lh|] == LogWrites(l, vs);
    LogWritesDone(l, s.disk, vs, t.disk);
    HeadIssued(l, lh, t, u);
    assert LogBlocks(l, u.disk, |lh|) == LogBlocks(l, t.disk, |lh|);
    IssuedThen(LogWrites(l, vs), HeadWrite(l, t.disk, lh), 1, s, t, u);
  }

  lemma StoppedInInstall(l: Layout, lh: seq<nat>, s: Snap, t: Snap, u: Snap, k: nat)
    requires CommitReady(l, lh, s) && lh != [] && Opened(l, lh, s, t) && Ready(l, lh, t) && InstallDone(l, lh, t, u, k)
    ensures CommitDone(l, lh, s, u, |lh| + 1 + k)
  {
    var vs := LM.Contents(s.view, lh);
    ListedAgain(l, lh, s, t);
    CommitPlan(l, lh, s);
    hide Clean, Batch, NoneHeld, CommitWrites, OpeningWrites;
    var last := [Write(l.start, PutHead(PutHead(s.disk[l.start], lh), []))];
    assert InRange(last, |t.disk|);
    IssuedSoFar(HomeWrites(lh, vs), last, k, t, u);
    IssuedThen(OpeningWrites(l, s.disk, lh, vs), ClosingWrites(l, PutHead(s.disk[l.start], lh), lh, vs), k, s, t, u);
  }

  /** The cache still has the contents that were logged. */
  lemma ListedAgain(l: Layout, lh: seq<nat>, s: Snap, t: Snap)
    requires CommitReady(l, lh, s) && SameOutside(l, t.view, s.view)
    ensures LM.Contents(t.view, lh) == LM.Contents(s.view, lh)
  {
  }

  lemma Closed(l: Layout, lh: seq<nat>, s: Snap, t: Snap, u: Snap, w: Snap)
    requires CommitReady(l, lh, s) && lh != [] && Opened(l, lh, s, t) && Ready(l, lh, t)
    requires InstallDone(l, lh, t, u, |lh|) && HeadDone(l, [], u, w)
    requires Kept(s.buf, t.buf) && Kept(t.buf, u.buf)
    ensures CommitDone(l, lh, s, w, 2 * |lh| + 2) && Kept(s.buf, w.buf)
  {
    var vs := LM.Contents(s.view, lh);
    ListedAgain(l, lh, s, t);
    CommitPlan(l, lh, s);
    HeadIssued(l, [], u, w);
    KeptThen(s.buf, t.buf, u.buf);
    KeptThen(s.buf, u.buf, w.buf);
    hide Clean, Batch, NoneHeld, CommitWrites, OpeningWrites, Kept, Settled;
    IssuedThen(HomeWrites(lh, vs), HeadWrite(l, u.disk, []), 1, t, u, w);
    IssuedThen(OpeningWrites(l, s.disk, lh, vs), ClosingWrites(l, PutHead(s.disk[l.start], lh), lh, vs), |lh| + 1, s, t, w);
  }

  // ----- recover_from_log: read_head, install_trans, write_head -----

  ghost function ListOnDisk(l: Layout, s: Snap): seq<nat>
    requires WfDisk(l, s.disk)
  {
    HeadList(s.disk[l.start])
  }

  lemma BootReady(l: Layout, lh: seq<nat>, s: Snap)
    requires Sized(l, s) && WfDisk(l, s.disk) && lh == ListOnDisk(l, s)
    requires NoneLocked(s.buf)
    ensures Ready(l, lh, s) && FreeBlock(s.buf, l.start) && HeadCount(s.disk[l.start]) <= LOGSIZE && Numbers([])
    ensures Idle(s.buf) ==> Roomy(lh, s.buf) && Spare(s.buf)
  {
    assert forall i :: 0 <= i < |lh| ==> l.Home(HeadList(s.disk[l.start])[i]);
    if Idle(s.buf) { assert !InUse(s.buf[0]); }
  }

  ghost predicate ReadResult(bno: nat, s: Snap, t: Snap, ok: bool) {
    if ok then t == s.(buf := t.buf) && Settled(s.buf, t.buf, {bno}) else Stopped(s, t) && !Spare(s.buf)
  }

  /** All writes of a recovery, or the first k and a panic; no panic when all buffers are idle. */
  ghost predicate RecoverResult(l: Layout, s: Snap, t: Snap, ok: bool, k: nat)
    requires WfDisk(l, s.disk)
  {
    && Issued(RecoverWrites(l, s.disk), k, s, t) && (Idle(s.buf) ==> ok) && (s.view == s.disk ==> t.view == t.disk)
    && if ok then k == |RecoverWrites(l, s.disk)| && Kept(s.buf, t.buf) else !Spare(t.buf)
  }

  lemma HeadRead(l: Layout, lh: seq<nat>, s: Snap, t: Snap, ok: bool)
    requires Ready(l, lh, s) && WfDisk(l, s.disk) && ReadResult(l.start, s, t, ok) && (Idle(s.buf) ==> Spare(s.buf))
    ensures if ok then Ready(l, lh, t) else RecoverResult(l, s, t, false, 0)
  {
    if ok {
      NoneHeldKept(l, lh, s.buf, t.buf);
    } else {
      IssueNone(RecoverWrites(l, s.disk), s, t);
    }
  }

  lemma RecoverIssued(l: Layout, lh: seq<nat>, s: Snap, t: Snap, u: Snap, k: nat)
    requires WfDisk(l, s.disk) && lh == ListOnDisk(l, s) && Ready(l, lh, t)
    requires t == s.(buf := t.buf) && InstallDone(l, lh, t, u, k)
    ensures Issued(RecoverWrites(l, s.disk), k, s, u)
  {
    assert HomeWrites(lh, LogBlocks(l, s.disk, |lh|)) == InstallWrites(l, s.disk);
    IssuedSoFar(InstallWrites(l, s.disk), HeadWrite(l, s.disk, []), k, s, u);
  }

  lemma IdleSettled(s: seq<Buf>, t: seq<Buf>, but: set<nat>)
    requires Settled(s, t, but) && Idle(s)
    ensures Spare(t) && Idle(t)
  {
    assert !InUse(t[0]);
  }

  lemma RecoverInstall(l: Layout, lh: seq<nat>, s: Snap, t: Snap, u: Snap, ok: bool, k: nat)
    requires WfDisk(l, s.disk) && lh == ListOnDisk(l, s) && Ready(l, lh, t)
    requires ReadResult(l.start, s, t, true) && InstallResult(l, lh, t, u, ok, k)
    ensures if ok then k == |lh| && FreeBlock(u.buf, l.start) else RecoverResult(l, s, u, false, k)
  {
    RecoverIssued(l, lh, s, t, u, k);
    if Idle(s.buf) { IdleSettled(s.buf, t.buf, {l.start}); }
    if ok { InstallSettled(l, lh, t, u); }
  }

  lemma Recovered(l: Layout, lh: seq<nat>, s: Snap, t: Snap, u: Snap, w: Snap, ok: bool)
    requires WfDisk(l, s.disk) && lh == ListOnDisk(l, s) && Ready(l, lh, t) && Numbers([])
    requires ReadResult(l.start, s, t, true) && InstallResult(l, lh, t, u, true, |lh|) && HeadResult(l, [], u, w, ok)
    ensures RecoverResult(l, s, w, ok, if ok then |lh| + 1 else |lh|)
  {
    RecoverIssued(l, lh, s, t, u, |lh|);
    if Idle(s.buf) {
      IdleSettled(s.buf, t.buf, {l.start});
      IdleSettled(t.buf, u.buf, Region(l) + Elements(lh));
    }
    if ok { RecoveredAll(l, lh, s, t, u, w); }
  }

  lemma RecoveredAll(l: Layout, lh: seq<nat>, s: Snap, t: Snap, u: Snap, w: Snap)
    requires WfDisk(l, s.disk) && lh == ListOnDisk(l, s) && Ready(l, lh, t)
    requires t == s.(buf := t.buf) && Kept(s.buf, t.buf) && Kept(t.buf, u.buf)
    requires InstallDone(l, lh, t, u, |lh|) && HeadDone(l, [], u, w)
    ensures Issued(RecoverWrites(l, s.disk), |RecoverWrites(l, s.disk)|, s, w)
    ensures |RecoverWrites(l, s.disk)| == |lh| + 1 && Kept(s.buf, w.buf)
  {
    KeptThen(s.buf, t.buf, u.buf);
    KeptThen(s.buf, u.buf, w.buf);
    hide Kept, Settled;
    assert HomeWrites(lh, LogBlocks(l, s.disk, |lh|)) == InstallWrites(l, s.disk);
    HeadIssued(l, [], u, w);
    IssuedThen(InstallWrites(l, s.disk), HeadWrite(l, u.disk, []), 1, s, u, w);
  }

  // ----- buffers between the routines -----

  lemma KeptThen(s: seq<Buf>, t: seq<Buf>, u: seq<Buf>)
    requires Kept(s, t) && Kept(t, u)
    ensures Kept(s, u)
  {
    forall i | 0 <= i < NBUF && s[i].locked ensures SameExceptLinks(s[i], u[i]) {
      assert SameExceptLinks(s[i], t[i]) && SameExceptLinks(t[i], u[i]);
    }
  }

  lemma CommitStart(l: Layout, lh: seq<nat>, s: Snap)
    requires CommitReady(l, lh, s)
    ensures Ready(l, lh, s) && Numbers(lh) && Numbers([]) && AllDifferent(lh)
    ensures lh == [] ==> Kept(s.buf, s.buf) && CommitDone(l, lh, s, s, 0)
    ensures |CommitWrites(l, s.disk, lh, LM.Contents(s.view, lh))| == if lh == [] then 0 else 2 * |lh| + 2
  {
    if lh == [] { IssueNone(CommitWrites(l, s.disk, lh, LM.Contents(s.view, lh)), s, s); }
  }

  lemma LogSettled(l: Layout, lh: seq<nat>, s: Snap, t: Snap)
    requires Ready(l, lh, s) && LogDone(l, lh, s, t, |lh|) && Settled(s.buf, t.buf, Region(l))
    ensures Kept(s.buf, t.buf) && FreeBlock(t.buf, l.start) && (Roomy(lh, s.buf) ==> Roomy(lh, t.buf) && Spare(t.buf))
  {
    NoneHeldKept(l, lh, s.buf, t.buf);
    assert l.start in Region(l);
    if Roomy(lh, s.buf) { RoomyLater(l, lh, s.buf, t.buf); }
  }

  lemma HeadSettled(l: Layout, lh: seq<nat>, s: Snap, t: Snap, u: Snap)
    requires CommitReady(l, lh, s) && LogDone(l, lh, s, t, |lh|) && Settled(s.buf, t.buf, Region(l))
    requires Numbers(lh) && HeadDone(l, lh, t, u)
    ensures Opened(l, lh, s, u) && Ready(l, lh, u) && Kept(s.buf, u.buf) && (Roomy(lh, s.buf) ==> Roomy(lh, u.buf))
  {
    OpeningHead(l, lh, s, t, u);
    SettledThen(s.buf, t.buf, u.buf, Region(l), {l.start});
    assert Region(l) + {l.start} == Region(l);
    NoneHeldKept(l, lh, s.buf, u.buf);
    if Roomy(lh, s.buf) { RoomyLater(l, lh, s.buf, u.buf); }
  }

  lemma InstallSettled(l: Layout, lh: seq<nat>, s: Snap, t: Snap)
    requires Ready(l, lh, s) && Settled(s.buf, t.buf, Region(l) + Elements(lh))
    ensures Kept(s.buf, t.buf) && FreeBlock(t.buf, l.start) && (Roomy(lh, s.buf) ==> Spare(t.buf))
  {
    NoneHeldKept(l, lh, s.buf, t.buf);
    assert l.start in Region(l);
  }

  lemma CommitStays(l: Layout, lh: seq<nat>, s: Snap, t: Snap, u: Snap, k: nat)
    requires CommitReady(l, lh, s) && CommitDone(l, lh, s, t, k) && Stopped(t, u)
    ensures CommitDone(l, lh, s, u, k) && !Spare(u.buf)
  {
  }

  /** log_write pins its block and leaves the others pinned. */
  lemma PinnedNow(s: seq<Buf>, t: seq<Buf>, b: nat, lh: seq<nat>, lh': seq<nat>)
    requires |s| == NBUF + 1 && b < NBUF && s[b].valid && s[b].dev == ROOTDEV && t == s[b := s[b].(dirty := true)]
    requires lh' == if s[b].blockno in lh then lh else lh + [s[b].blockno]
    ensures AllPinned(lh, s) ==> AllPinned(lh', t)
  {
    assert Holds(t, b, s[b].blockno);
    forall i | 0 <= i < |lh| && Pinned(s, lh[i]) ensures Pinned(t, lh[i]) {
      var j: nat :| Holds(s, j, lh[i]) && s[j].dirty;
      assert Holds(t, j, lh[i]);
    }
  }

  // ----- the listed blocks are pinned in every run -----

  /** What processes do to buffers between two commits: bread of block n into buffer b, a change of
      data, brelse, log_write; and a whole commit. */
  datatype BufAction = Read(b: nat, n: nat) | Change(b: nat, data: Block) | Release(b: nat) | List(b: nat) | Commit

  ghost predicate BufStep(s: seq<Buf>, lh: seq<nat>, a: BufAction, t: seq<Buf>, lh': seq<nat>) {
    && |s| == |t| == NBUF + 1
    && match a
       case Read(b, n) => lh' == lh && b < NBUF && OthersSame(s, t, b) && Taken(s, t[b], b, n)
       case Change(b, data) => lh' == lh && b < NBUF && t == s[b := s[b].(data := data)]
       case Release(b) => lh' == lh && b < NBUF && s[b].refcnt > 0 && Released(s, t, b)
       case List(b) => && b < NBUF && s[b].valid && s[b].dev == ROOTDEV && t == s[b := s[b].(dirty := true)]
                       && lh' == if s[b].blockno in lh then lh else lh + [s[b].blockno]
       case Commit => lh' == []
  }

  ghost predicate Released(s: seq<Buf>, t: seq<Buf>, b: nat)
    requires |s| == |t| == NBUF + 1 && b < NBUF && s[b].refcnt > 0
  {
    && SameExceptLinks(s[b].(locked := false, refcnt := s[b].refcnt - 1), t[b])
    && forall i :: 0 <= i < NBUF && i != b ==> SameExceptLinks(s[i], t[i])
  }

  lemma ReadPins(s: seq<Buf>, t: seq<Buf>, b: nat, n: nat, m: nat)
    requires |t| == NBUF + 1 && b < NBUF && OthersSame(s, t, b) && Taken(s, t[b], b, n) && Pinned(s, m)
    ensures Pinned(t, m)
  {
    var j: nat :| Holds(s, j, m) && s[j].dirty;
    assert Holds(t, j, m) && t[j].dirty;
  }

  lemma ReleasePins(s: seq<Buf>, t: seq<Buf>, b: nat, m: nat)
    requires |s| == |t| == NBUF + 1 && b < NBUF && s[b].refcnt > 0 && Released(s, t, b) && Pinned(s, m)
    ensures Pinned(t, m)
  {
    var j: nat :| Holds(s, j, m) && s[j].dirty;
    assert j != b ==> SameExceptLinks(s[j], t[j]);
    assert Holds(t, j, m) && t[j].dirty;
  }

  lemma ChangePins(s: seq<Buf>, b: nat, data: Block, m: nat)
    requires |s| == NBUF + 1 && b < NBUF && Pinned(s, m)
    ensures Pinned(s[b := s[b].(data := data)], m)
  {
    var j: nat :| Holds(s, j, m) && s[j].dirty;
    assert Holds(s[b := s[b].(data := data)], j, m);
  }

  lemma BufStepPins(s: seq<Buf>, lh: seq<nat>, a: BufAction, t: seq<Buf>, lh': seq<nat>)
    requires BufStep(s, lh, a, t, lh') && AllPinned(lh, s)
    ensures AllPinned(lh', t)
  {
    hide Pinned, Taken, OthersSame, Released;
    match a
    case Read(b, n) => forall i | 0 <= i < |lh| ensures Pinned(t, lh[i]) { ReadPins(s, t, b, n, lh[i]); }
    case Change(b, data) => forall i | 0 <= i < |lh| ensures Pinned(t, lh[i]) { ChangePins(s, b, data, lh[i]); }
    case Release(b) => forall i | 0 <= i < |lh| ensures Pinned(t, lh[i]) { ReleasePins(s, t, b, lh[i]); }
    case List(b) => PinnedNow(s, t, b, lh, lh');
    case Commit =>
  }

  /** However processes read, change, log and release blocks, the listed blocks stay pinned: what a
      commit needs of them holds when the last operation ends. */
  lemma {:induction false} AlwaysPinned(bufs: seq<seq<Buf>>, lists: seq<seq<nat>>, acts: seq<BufAction>, i: nat)
    requires |bufs| == |lists| == |acts| + 1 && i < |bufs| && lists[0] == []
    requires forall k :: 0 <= k < |acts| ==> BufStep(bufs[k], lists[k], acts[k], bufs[k + 1], lists[k + 1])
    ensures AllPinned(lists[i], bufs[i]) && (Spare(bufs[i]) ==> Roomy(lists[i], bufs[i]))
  {
    if i > 0 {
      AlwaysPinned(bufs, lists, acts, i - 1);
      assert BufStep(bufs[i - 1], lists[i - 1], acts[i - 1], bufs[i], lists[i]);
      hide BufStep, AllPinned, Spare;
      BufStepPins(bufs[i - 1], lists[i - 1], acts[i - 1], bufs[i], lists[i]);
    }
  }
}
