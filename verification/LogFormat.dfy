/** The on-disk redo log of log.c: header block, log blocks, and the block writes
    that commit and recovery issue, in order. */
module LogFormat {
  import opened Basics
  import opened Blocks

  const MAXOPBLOCKS := 10
  const LOGSIZE := 30

  type Disk = seq<Block>

  /** One atomic block write, as iderw performs it. */
  datatype Write = Write(bno: nat, data: Block)

  /** What the superblock says about the log; log.start and log.size. */
  datatype Layout = Layout(size: nat, start: nat, nlog: nat) {
    ghost predicate Valid() {
      2 <= start && 1 <= nlog && start + nlog <= size <= 0x1_0000_0000
    }

    /** Home blocks are the blocks outside the log region. */
    ghost predicate Home(b: nat) {
      b < size && !(start <= b < start + nlog)
    }
  }

  // ----- the header block -----

  function HeadCount(hb: Block): Word {
    hb[0]
  }

  /** The block numbers recorded in a header (read_head). */
  function HeadList(hb: Block): (r: seq<nat>)
    requires HeadCount(hb) <= LOGSIZE
    ensures |r| == HeadCount(hb)
  {
    seq(HeadCount(hb), i requires 0 <= i < HeadCount(hb) => hb[i + 1])
  }

  ghost predicate Numbers(blocks: seq<nat>) {
    |blocks| <= LOGSIZE && forall i :: 0 <= i < |blocks| ==> blocks[i] < 0x1_0000_0000
  }

  /** The first k entries copied into the header (the loop of write_head). */
  function PutEntries(hb: Block, blocks: seq<nat>, k: nat): (r: Block)
    requires Numbers(blocks) && k <= |blocks|
    ensures HeadCount(r) == HeadCount(hb)
    ensures forall i :: 0 <= i < k ==> r[i + 1] == blocks[i]
  {
    if k == 0 then hb else PutEntries(hb, blocks, k - 1)[k := blocks[k - 1]]
  }

  /** The header block after write_head: count and entries, older bytes kept. */
  function PutHead(hb: Block, blocks: seq<nat>): (r: Block)
    requires Numbers(blocks)
    ensures HeadCount(r) == |blocks| && HeadList(r) == blocks
  {
    PutEntries(hb[0 := |blocks|], blocks, |blocks|)
  }

  lemma ClearedHeadAgain(hb: Block)
    ensures PutHead(PutHead(hb, []), []) == PutHead(hb, [])
  {
  }

  // ----- sequences of block writes -----

  function Apply(d: Disk, ws: seq<Write>): (r: Disk)
    requires InRange(ws, |d|)
    ensures |r| == |d|
    decreases |ws|
  {
    if ws == [] then d else Apply(d[ws[0].bno := ws[0].data], ws[1..])
  }

  ghost predicate InRange(ws: seq<Write>, n: nat) {
    forall i :: 0 <= i < |ws| ==> ws[i].bno < n
  }

  ghost predicate Touches(ws: seq<Write>, x: nat) {
    exists i :: 0 <= i < |ws| && ws[i].bno == x
  }

  /** w is the last write of ws to its block. */
  ghost predicate LastWrite(ws: seq<Write>, i: nat) {
    i < |ws| && forall j :: i < j < |ws| ==> ws[j].bno != ws[i].bno
  }

  lemma {:induction false} ApplyUntouched(d: Disk, ws: seq<Write>, x: nat)
    requires InRange(ws, |d|) && x < |d| && !Touches(ws, x)
    ensures Apply(d, ws)[x] == d[x]
    decreases |ws|
  {
    if ws != [] {
      var d1 := d[ws[0].bno := ws[0].data];
      forall i | 0 <= i < |ws[1..]| ensures ws[1..][i].bno != x { assert ws[1..][i] == ws[i + 1]; }
      ApplyUntouched(d1, ws[1..], x);
    }
  }

  lemma {:induction false} ApplyLast(d: Disk, ws: seq<Write>, i: nat)
    requires InRange(ws, |d|) && LastWrite(ws, i)
    ensures Apply(d, ws)[ws[i].bno] == ws[i].data
    decreases |ws|
  {
    var d1 := d[ws[0].bno := ws[0].data];
    if i == 0 {
      forall j | 0 <= j < |ws[1..]| ensures ws[1..][j].bno != ws[0].bno { assert ws[1..][j] == ws[j + 1]; }
      ApplyUntouched(d1, ws[1..], ws[0].bno);
    } else {
      assert ws[1..][i - 1] == ws[i];
      forall j | i - 1 < j < |ws[1..]| ensures ws[1..][j].bno != ws[1..][i - 1].bno { assert ws[1..][j] == ws[j + 1]; }
      ApplyLast(d1, ws[1..], i - 1);
    }
  }

  lemma {:induction false} ApplyConcat(d: Disk, a: seq<Write>, b: seq<Write>)
    requires InRange(a, |d|) && InRange(b, |d|)
    ensures InRange(a + b, |d|) && Apply(d, a + b) == Apply(Apply(d, a), b)
    decreases |a|
  {
    if a == [] {
      assert a + b == b;
    } else {
      assert (a + b)[1..] == a[1..] + b;
      ApplyConcat(d[a[0].bno := a[0].data], a[1..], b);
    }
  }

  lemma {:induction false} LastWriteExists(ws: seq<Write>, x: nat) returns (i: nat)
    requires Touches(ws, x)
    ensures LastWrite(ws, i) && ws[i].bno == x
    decreases |ws|
  {
    var n := |ws| - 1;
    if ws[n].bno == x {
      i := n;
    } else {
      var pre := ws[..n];
      var k :| 0 <= k < |ws| && ws[k].bno == x;
      assert pre[k].bno == x;
      i := LastWriteExists(pre, x);
      assert forall j :: i < j < n ==> pre[j] == ws[j];
    }
  }

  /** Applying a list twice, even after a different start that only differs on
      blocks the list overwrites, gives the same disk. */
  lemma {:induction false} ApplyDetermined(d: Disk, e: Disk, ws: seq<Write>)
    requires |d| == |e| && InRange(ws, |d|)
    requires forall x :: 0 <= x < |d| && !Touches(ws, x) ==> d[x] == e[x]
    ensures Apply(d, ws) == Apply(e, ws)
  {
    forall x | 0 <= x < |d| ensures Apply(d, ws)[x] == Apply(e, ws)[x] {
      if Touches(ws, x) {
        var i := LastWriteExists(ws, x);
        ApplyLast(d, ws, i);
        ApplyLast(e, ws, i);
      } else {
        ApplyUntouched(d, ws, x);
        ApplyUntouched(e, ws, x);
      }
    }
  }

  lemma {:induction false} TakeInRange(ws: seq<Write>, n: nat, k: nat)
    requires InRange(ws, n) && k <= |ws|
    ensures InRange(ws[..k], n) && InRange(ws[k..], n)
  {
    assert forall i :: 0 <= i < |ws[k..]| ==> ws[k..][i] == ws[k + i];
  }

  // ----- recovery -----

  /** A disk whose header lists only home blocks and fits the log region. */
  ghost predicate WfDisk(l: Layout, d: Disk) {
    && l.Valid() && |d| == l.size
    && HeadCount(d[l.start]) <= LOGSIZE
    && HeadCount(d[l.start]) <= l.nlog - 1
    && forall i :: 0 <= i < HeadCount(d[l.start]) ==> l.Home(HeadList(d[l.start])[i])
  }

  ghost predicate Clean(l: Layout, d: Disk) {
    WfDisk(l, d) && HeadCount(d[l.start]) == 0
  }

  /** install_trans: block tail of the log goes to its home location. */
  ghost function InstallWrites(l: Layout, d: Disk): (r: seq<Write>)
    requires WfDisk(l, d)
    ensures |r| == HeadCount(d[l.start]) && InRange(r, |d|)
  {
    var hb := d[l.start];
    seq(HeadCount(hb), t requires 0 <= t < HeadCount(hb) => Write(HeadList(hb)[t], d[l.start + 1 + t]))
  }

  /** recover_from_log: read the header, install, clear the header. */
  ghost function RecoverWrites(l: Layout, d: Disk): (r: seq<Write>)
    requires WfDisk(l, d)
    ensures InRange(r, |d|)
  {
    InstallWrites(l, d) + [Write(l.start, PutHead(d[l.start], []))]
  }

  ghost function Recover(l: Layout, d: Disk): (r: Disk)
    requires WfDisk(l, d)
    ensures |r| == |d|
  {
    Apply(d, RecoverWrites(l, d))
  }

  lemma RecoveredIsClean(l: Layout, d: Disk)
    requires WfDisk(l, d)
    ensures Clean(l, Recover(l, d))
    ensures Recover(l, d)[l.start] == PutHead(d[l.start], [])
    ensures forall x :: l.start < x < l.start + l.nlog ==> Recover(l, d)[x] == d[x]
  {
    var ws := RecoverWrites(l, d);
    var n := |ws| - 1;
    assert LastWrite(ws, n);
    ApplyLast(d, ws, n);
    forall x | l.start < x < l.start + l.nlog ensures Recover(l, d)[x] == d[x] {
      assert !Touches(ws, x);
      ApplyUntouched(d, ws, x);
    }
  }

  /** Disks that agree on the header and on the log blocks recover by the same writes. */
  lemma SameLogSameWrites(l: Layout, d: Disk, e: Disk)
    requires WfDisk(l, d) && |e| == |d|
    requires forall x :: l.start <= x < l.start + l.nlog ==> e[x] == d[x]
    ensures WfDisk(l, e) && RecoverWrites(l, e) == RecoverWrites(l, d)
  {
  }

  /** A crash after any number of block writes of recovery loses nothing:
      recovering again reaches the same disk. */
  lemma {:induction false} RecoverIsIdempotent(l: Layout, d: Disk, k: nat)
    requires WfDisk(l, d) && k <= |RecoverWrites(l, d)|
    ensures InRange(RecoverWrites(l, d)[..k], |d|)
    ensures WfDisk(l, Apply(d, RecoverWrites(l, d)[..k]))
    ensures Recover(l, Apply(d, RecoverWrites(l, d)[..k])) == Recover(l, d)
  {
    var ws := RecoverWrites(l, d);
    var n := |ws| - 1;
    TakeInRange(ws, |d|, k);
    var e := Apply(d, ws[..k]);
    if k <= n {
      forall x | l.start <= x < l.start + l.nlog ensures e[x] == d[x] {
        assert !Touches(ws[..k], x);
        ApplyUntouched(d, ws[..k], x);
      }
      SameLogSameWrites(l, d, e);
      forall x | 0 <= x < |d| && !Touches(ws, x) ensures e[x] == d[x] {
        assert forall i :: 0 <= i < k ==> ws[..k][i] == ws[i];
        ApplyUntouched(d, ws[..k], x);
      }
      ApplyDetermined(e, d, ws);
    } else {
      assert ws[..k] == ws;
      RecoveredIsClean(l, d);
      RecoverClean(l, e);
      ClearedHeadAgain(d[l.start]);
    }
  }

  /** Recovering a clean disk rewrites the header only. */
  lemma RecoverClean(l: Layout, d: Disk)
    requires Clean(l, d)
    ensures Recover(l, d) == d[l.start := PutHead(d[l.start], [])]
  {
    var w := Write(l.start, PutHead(d[l.start], []));
    assert RecoverWrites(l, d) == [w];
    assert Apply(d, [w]) == Apply(d[l.start := w.data], []);
  }

  // ----- commit -----

  /** The blocks of one commit: log.lh.block[] and the cached contents copied. */
  ghost predicate Batch(l: Layout, blocks: seq<nat>, vs: seq<Block>) {
    && Numbers(blocks) && |vs| == |blocks|
    && |blocks| <= l.nlog - 1
    && (forall i :: 0 <= i < |blocks| ==> l.Home(blocks[i]))
    && AllDifferent(blocks)
  }

  ghost function LogWrites(l: Layout, vs: seq<Block>): (r: seq<Write>)
    ensures |r| == |vs| && forall t :: 0 <= t < |vs| ==> r[t].bno == l.start + 1 + t && r[t].data == vs[t]
  {
    seq(|vs|, t requires 0 <= t < |vs| => Write(l.start + 1 + t, vs[t]))
  }

  ghost function HomeWrites(blocks: seq<nat>, vs: seq<Block>): (r: seq<Write>)
    requires |vs| == |blocks|
    ensures |r| == |vs| && forall t :: 0 <= t < |vs| ==> r[t].bno == blocks[t] && r[t].data == vs[t]
  {
    seq(|vs|, t requires 0 <= t < |vs| => Write(blocks[t], vs[t]))
  }

  /** The block writes of commit: the log blocks, the header, the home blocks, the cleared header. */
  ghost function CommitWrites(l: Layout, d: Disk, blocks: seq<nat>, vs: seq<Block>): (r: seq<Write>)
    requires Clean(l, d) && Batch(l, blocks, vs)
    ensures InRange(r, |d|)
    ensures |r| == if |blocks| == 0 then 0 else 2 * |blocks| + 2
  {
    if |blocks| == 0 then [] else
      var hb := PutHead(d[l.start], blocks);
      LogWrites(l, vs) + [Write(l.start, hb)] + HomeWrites(blocks, vs) + [Write(l.start, PutHead(hb, []))]
  }

  /** What the commit means: every block of the batch replaced, at once. */
  ghost function Install(d: Disk, blocks: seq<nat>, vs: seq<Block>): (r: Disk)
    requires |vs| == |blocks| && forall i :: 0 <= i < |blocks| ==> blocks[i] < |d|
    ensures |r| == |d|
  {
    Apply(d, HomeWrites(blocks, vs))
  }

  ghost predicate SameHome(l: Layout, d: Disk, e: Disk) {
    |d| == |e| == l.size && forall x :: 0 <= x < l.size && l.Home(x) ==> d[x] == e[x]
  }

  /** Before the header write the crashed commit is as if it never started. */
  lemma {:induction false} CrashBeforeHeader(l: Layout, d: Disk, blocks: seq<nat>, vs: seq<Block>, k: nat)
    requires Clean(l, d) && Batch(l, blocks, vs) && k <= |blocks|
    requires |blocks| > 0
    ensures InRange(CommitWrites(l, d, blocks, vs)[..k], |d|)
    ensures var e := Apply(d, CommitWrites(l, d, blocks, vs)[..k]);
            Clean(l, e) && SameHome(l, e, d) && SameHome(l, Recover(l, e), d)
  {
    var ws := CommitWrites(l, d, blocks, vs)[..k];
    TakeInRange(CommitWrites(l, d, blocks, vs), |d|, k);
    var e := Apply(d, ws);
    assert forall i :: 0 <= i < k ==> ws[i].bno == l.start + 1 + i;
    forall x | 0 <= x < |d| && (l.Home(x) || x == l.start) ensures e[x] == d[x] {
      ApplyUntouched(d, ws, x);
    }
    RecoverClean(l, e);
  }

  /** From the header write on, recovery completes the commit. */
  lemma {:induction false} CrashAfterHeader(l: Layout, d: Disk, blocks: seq<nat>, vs: seq<Block>, k: nat)
    requires Clean(l, d) && Batch(l, blocks, vs)
    requires |blocks| > 0 && |blocks| < k <= 2 * |blocks| + 2
    ensures InRange(CommitWrites(l, d, blocks, vs)[..k], |d|)
    ensures var e := Apply(d, CommitWrites(l, d, blocks, vs)[..k]);
            WfDisk(l, e) && SameHome(l, Recover(l, e), Install(d, blocks, vs))
  {
    var n := |blocks|;
    SplitAtHeader(l, d, blocks, vs, k);
    var all := CommitWrites(l, d, blocks, vs);
    var c := Apply(d, all[..n + 1]);
    var e := Apply(d, all[..k]);
    assert WfDisk(l, e) && Recover(l, e) == Recover(l, c) by {
      RecoverIsIdempotent(l, c, k - n - 1);
    }
    assert SameHome(l, Recover(l, c), Install(d, blocks, vs)) by {
      RecoverAfterHeader(l, d, blocks, vs);
    }
  }

  /** What follows the header write is exactly what recovery would do. */
  lemma {:induction false} SplitAtHeader(l: Layout, d: Disk, blocks: seq<nat>, vs: seq<Block>, k: nat)
    requires Clean(l, d) && Batch(l, blocks, vs)
    requires |blocks| > 0 && |blocks| < k <= 2 * |blocks| + 2
    ensures var all := CommitWrites(l, d, blocks, vs);
            && InRange(all[..|blocks| + 1], |d|) && InRange(all[..k], |d|)
            && var c := Apply(d, all[..|blocks| + 1]);
            && WfDisk(l, c) && all[|blocks| + 1..] == RecoverWrites(l, c)
            && InRange(RecoverWrites(l, c)[..k - |blocks| - 1], |c|)
            && Apply(d, all[..k]) == Apply(c, RecoverWrites(l, c)[..k - |blocks| - 1])
  {
    hide AllDifferent;
    var all := CommitWrites(l, d, blocks, vs);
    var n := |blocks|;
    var a, b := all[..n + 1], all[n + 1..];
    TakeInRange(all, |d|, n + 1);
    TakeInRange(all, |d|, k);
    TakeInRange(b, |d|, k - n - 1);
    assert all[..k] == a + b[..k - n - 1];
    ApplyConcat(d, a, b[..k - n - 1]);
    HeaderWritten(l, d, blocks, vs);
    RecoverAfterHeader(l, d, blocks, vs);
  }

  lemma {:induction false} HeaderWritten(l: Layout, d: Disk, blocks: seq<nat>, vs: seq<Block>)
    requires Clean(l, d) && Batch(l, blocks, vs) && |blocks| > 0
    ensures var c := Apply(d, CommitWrites(l, d, blocks, vs)[..|blocks| + 1]);
            && WfDisk(l, c) && c[l.start] == PutHead(d[l.start], blocks)
            && (forall t :: 0 <= t < |blocks| ==> c[l.start + 1 + t] == vs[t])
            && SameHome(l, c, d)
  {
    var n := |blocks|;
    var a, w := LogWrites(l, vs), Write(l.start, PutHead(d[l.start], blocks));
    assert CommitWrites(l, d, blocks, vs)[..n + 1] == a + [w];
    ApplyConcat(d, a, [w]);
    ApplyOne(Apply(d, a), w);
    ApplyRising(d, a, l.start + 1);
    forall t | 0 <= t < n ensures Apply(d, a)[l.start + 1 + t] == vs[t] {
      assert Apply(d, a)[a[t].bno] == a[t].data;
    }
  }

  lemma ApplyOne(d: Disk, w: Write)
    requires w.bno < |d|
    ensures InRange([w], |d|) && Apply(d, [w]) == d[w.bno := w.data]
  {
    assert [w][1..] == [];
    assert Apply(d[w.bno := w.data], []) == d[w.bno := w.data];
  }

  /** Writes to consecutive blocks all stick, and leave the other blocks alone. */
  lemma ApplyRising(d: Disk, ws: seq<Write>, first: nat)
    requires InRange(ws, |d|) && first <= |d| && forall i :: 0 <= i < |ws| ==> ws[i].bno == first + i
    ensures forall t :: 0 <= t < |ws| ==> Apply(d, ws)[ws[t].bno] == ws[t].data
    ensures forall x :: 0 <= x < |d| && (x < first || first + |ws| <= x) ==> Apply(d, ws)[x] == d[x]
  {
    forall t | 0 <= t < |ws| ensures Apply(d, ws)[ws[t].bno] == ws[t].data {
      assert LastWrite(ws, t);
      ApplyLast(d, ws, t);
    }
    forall x | 0 <= x < |d| && (x < first || first + |ws| <= x) ensures Apply(d, ws)[x] == d[x] {
      assert !Touches(ws, x);
      ApplyUntouched(d, ws, x);
    }
  }

  lemma {:induction false} RecoverAfterHeader(l: Layout, d: Disk, blocks: seq<nat>, vs: seq<Block>)
    requires Clean(l, d) && Batch(l, blocks, vs) && |blocks| > 0
    ensures var c := Apply(d, CommitWrites(l, d, blocks, vs)[..|blocks| + 1]);
            && WfDisk(l, c)
            && RecoverWrites(l, c) == HomeWrites(blocks, vs) + [Write(l.start, PutHead(c[l.start], []))]
            && SameHome(l, Recover(l, c), Install(d, blocks, vs))
  {
    HeaderWritten(l, d, blocks, vs);
    var c := Apply(d, CommitWrites(l, d, blocks, vs)[..|blocks| + 1]);
    InstallsLogged(l, c, blocks, vs);
    RecoverInstalls(l, c, HomeWrites(blocks, vs));
    ApplyKeepsHome(l, c, d, HomeWrites(blocks, vs));
  }

  lemma InstallsLogged(l: Layout, c: Disk, blocks: seq<nat>, vs: seq<Block>)
    requires WfDisk(l, c) && |vs| == |blocks| && HeadList(c[l.start]) == blocks
    requires forall t :: 0 <= t < |blocks| ==> c[l.start + 1 + t] == vs[t]
    ensures InstallWrites(l, c) == HomeWrites(blocks, vs)
  {
    var a, b := InstallWrites(l, c), HomeWrites(blocks, vs);
    forall t | 0 <= t < |blocks| ensures a[t] == b[t] {
      assert c[l.start + 1 + t] == vs[t];
    }
  }

  lemma RecoverInstalls(l: Layout, c: Disk, hw: seq<Write>)
    requires WfDisk(l, c) && InstallWrites(l, c) == hw
    ensures RecoverWrites(l, c) == hw + [Write(l.start, PutHead(c[l.start], []))]
    ensures SameHome(l, Recover(l, c), Apply(c, hw))
  {
    var last := [Write(l.start, PutHead(c[l.start], []))];
    ApplyConcat(c, hw, last);
    ApplyHeader(l, Apply(c, hw), last[0].data);
  }

  lemma ApplyHeader(l: Layout, d: Disk, hb: Block)
    requires l.Valid() && |d| == l.size
    ensures SameHome(l, Apply(d, [Write(l.start, hb)]), d)
  {
    var ws := [Write(l.start, hb)];
    forall x | 0 <= x < l.size && l.Home(x) ensures Apply(d, ws)[x] == d[x] {
      ApplyUntouched(d, ws, x);
    }
  }

  lemma ApplyKeepsHome(l: Layout, c: Disk, d: Disk, ws: seq<Write>)
    requires SameHome(l, c, d) && InRange(ws, l.size)
    ensures SameHome(l, Apply(c, ws), Apply(d, ws))
  {
    forall x | 0 <= x < l.size && l.Home(x) ensures Apply(c, ws)[x] == Apply(d, ws)[x] {
      if Touches(ws, x) {
        var j := LastWriteExists(ws, x);
        ApplyLast(c, ws, j);
        ApplyLast(d, ws, j);
      } else {
        ApplyUntouched(c, ws, x);
        ApplyUntouched(d, ws, x);
      }
    }
  }
}
