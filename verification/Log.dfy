/** log.c as code over the buffer cache: the block writes its routines issue are exactly
    the ones LogFormat reasons about, also when a routine stops in a panic halfway. */
module Log {
  import opened Basics
  import opened Wrappers
  import opened Blocks
  import opened LogFormat
  import opened BufferCache
  import opened BufferUse
  import opened LogRoutines
  import opened LogRefinement
  import LM = LogMachine

  class LogState {
    const l: Layout
    const cache: Cache
    const block: array<nat>   // log.lh.block
    var n: nat                // log.lh.n
    var outstanding: int
    var committing: bool

    ghost function Now(): Snap
      reads cache, cache.buf
    {
      Snap(cache.buf[..], cache.disk, cache.Contents(), cache.writes)
    }

    ghost function Memory(): Mem
      reads this, cache, cache.buf, block
      requires n <= block.Length
    {
      Mem(cache.disk, cache.Contents(), Lh(), outstanding, committing)
    }

    ghost predicate Valid()
      reads this, cache, cache.buf, block
    {
      cache.Valid() && block.Length == LOGSIZE && n <= LOGSIZE && Sized(l, Now())
    }

    /** initlog up to recovery, on a freshly booted cache. */
    constructor (l: Layout, cache: Cache)
      requires cache.Valid() && l.Valid() && LogRegionOnDisk(l, cache.Contents(), cache.disk)
      ensures Valid() && n == 0 && outstanding == 0 && !committing
      ensures this.l == l && this.cache == cache && fresh(block)
    {
      this.l, this.cache := l, cache;
      block := new nat[LOGSIZE](_ => 0);
      n, outstanding, committing := 0, 0, false;
    }

    ghost function Lh(): (r: seq<nat>)
      reads this, block
      requires n <= block.Length
      ensures |r| == n
    {
      block[..n]
    }

    /** bread of two blocks, a first; what it leaves when it panics is not given back. */
    method ReadPair(a: nat, b: nat) returns (x: Option<nat>, y: Option<nat>)
      requires cache.Valid() && a != b && a < |cache.disk| && b < |cache.disk|
      requires FreeBlock(cache.buf[..], a) && FreeBlock(cache.buf[..], b)
      modifies cache, cache.buf
      ensures cache.Valid() && Now() == old(Now()).(buf := cache.buf[..])
      ensures x.None? || y.None? ==>
                !Spare(cache.buf[..]) && !old(Spare(cache.buf[..]) && (Pinned(cache.buf[..], b) || Idle(cache.buf[..])))
      ensures x.Some? && y.Some? ==> && x.value < NBUF && y.value < NBUF && x.value != y.value
                                     && Held(x.value, a) && Held(y.value, b)
                                     && AllTaken(old(cache.buf[..]), cache.buf[..], {x.value, y.value})
                                     && (old(Pinned(cache.buf[..], b)) ==> cache.buf[y.value].dirty)
    {
      ghost var s := cache.buf[..];
      x := cache.Bread(ROOTDEV, a);
      if x.None? { return x, None; }
      ghost var m := cache.buf[..];
      assert x.value < NBUF && Taken(s, m[x.value], x.value, a);
      if Pinned(s, b) || Idle(s) { SecondServed(s, m, x.value, a, b); }
      assert FreeBlock(m, b) by { assert OthersSame(s, m, x.value); }
      y := cache.Bread(ROOTDEV, b);
      if y.None? { return; }
      TakeTwo(s, m, cache.buf[..], x.value, y.value, a, b);
    }

    /** x is locked and holds the newest contents of a, and is saved if it is not dirty. */
    ghost predicate Held(x: nat, a: nat)
      reads cache, cache.buf
    {
      && cache.Valid() && x < NBUF && a < |cache.disk| && cache.buf[x].locked && Holds(cache.buf[..], x, a)
      && cache.buf[x].data == cache.Contents()[a] && (cache.buf[x].dirty || cache.buf[x].data == cache.disk[a])
    }

    /** Copy from the held src to the held dst, write dst, release both. */
    method StorePair(t: nat, f: nat, src: nat, dst: nat)
      requires Held(f, src) && Held(t, dst) && t != f
      modifies cache, cache.buf
      ensures cache.Valid() && |cache.disk| == old(|cache.disk|)
      ensures cache.Contents() == old(cache.Contents()[dst := cache.Contents()[src]])
      ensures cache.disk == old(cache.disk[dst := cache.Contents()[src]])
      ensures cache.writes == old(cache.writes + [Write(dst, cache.Contents()[src])])
      ensures AllGivenBack(old(cache.buf[..]), cache.buf[..], {t, f}) && cache.buf[f].dirty == old(cache.buf[f].dirty)
    {
      hide Listed, Coherent, AllGivenBack;
      ghost var s := cache.buf[..];
      cache.SetData(t, cache.buf[f].data);
      var ok := cache.Bwrite(t);
      ghost var m := cache.buf[..];
      ReleasePair(t, f, src, dst);
      WrittenBack(s, m, cache.buf[..], {t, f}, t);
    }

    method ReleasePair(t: nat, f: nat, src: nat, dst: nat)
      requires cache.Valid() && t < NBUF && f < NBUF && t != f && src < |cache.disk| && dst < |cache.disk|
      requires Holds(cache.buf[..], t, dst) && Holds(cache.buf[..], f, src) && cache.buf[t].locked && cache.buf[f].locked
      requires cache.buf[f].dirty || cache.buf[f].data == cache.disk[src]
      requires cache.buf[t].data == cache.disk[dst]
      modifies cache, cache.buf
      ensures cache.Valid() && cache.Contents() == old(cache.Contents())
      ensures cache.disk == old(cache.disk) && cache.writes == old(cache.writes)
      ensures AllGivenBack(old(cache.buf[..]), cache.buf[..], {t, f})
      ensures cache.buf[f].dirty == old(cache.buf[f].dirty)
    {
      var ok := cache.Brelse(f);
      ok := cache.Brelse(t);
    }

    /** One round of write_log, or with install of install_trans: both read the log block first. */
    method CopyBlock(log: nat, home: nat, install: bool) returns (ok: bool)
      requires cache.Valid() && CanCopy(l, log, home, Now())
      modifies cache, cache.buf
      ensures cache.Valid() && CopyResult(log, home, install, old(Now()), Now(), ok)
    {
      ghost var s := cache.buf[..];
      var x, y := ReadPair(log, home);
      if x.None? || y.None? { return false; }
      ghost var t := cache.buf[..];
      if install {
        StorePair(y.value, x.value, log, home);
      } else {
        StorePair(x.value, y.value, home, log);
      }
      CopySettles(s, t, cache.buf[..], x.value, y.value, log, home, install);
      return true;
    }

    /** A round of the loop of write_log. */
    method LogBlock(tail: nat, home: nat, ghost lh: seq<nat>, ghost s0: Snap) returns (ok: bool)
      requires cache.Valid() && tail < |lh| && home == lh[tail] && Logging(l, lh, s0, Now(), tail)
      modifies cache, cache.buf
      ensures cache.Valid()
      ensures if ok then Logging(l, lh, s0, Now(), tail + 1)
              else Ready(l, lh, s0) && LogResult(l, lh, s0, Now(), false, tail) && Sized(l, Now())
    {
      hide Cache.Valid, Cache.Contents, Ready, Sized, Settled, Roomy, NoneHeld, Kept, Spare, Idle, FreeBlock, Region, Elements;
      hide Logging, LogDone, LogResult, CanCopy, CopyResult;
      ghost var s := Now();
      LogNext(l, lh, s0, s, tail);
      ok := CopyBlock(l.start + tail + 1, home, false);
      LogRound(l, lh, s0, s, Now(), tail, ok);
    }

    /** write_log: copy the logged blocks from the cache to the log region. */
    method WriteLog() returns (ok: bool, ghost k: nat)
      requires Valid() && Ready(l, Lh(), Now())
      modifies cache, cache.buf
      ensures Valid() && LogResult(l, Lh(), old(Now()), Now(), ok, k)
    {
      hide Cache.Valid, Cache.Contents, Ready, Sized, Settled, Roomy, NoneHeld, Kept, Spare, Idle, FreeBlock, Region, Elements;
      hide Logging, LogDone, LogResult;
      ghost var s, lh := Now(), Lh();
      LogStart(l, lh, s);
      var tail := 0;
      while tail < n
        invariant 0 <= tail <= n && cache.Valid() && Logging(l, lh, s, Now(), tail)
      {
        ok := LogBlock(tail, block[tail], lh, s);
        if !ok { return false, tail; }
        tail := tail + 1;
      }
      LogNext(l, lh, s, Now(), tail);
      return true, tail;
    }

    /** A round of the loop of install_trans. */
    method InstallBlock(tail: nat, home: nat, ghost lh: seq<nat>, ghost s0: Snap) returns (ok: bool)
      requires cache.Valid() && tail < |lh| && home == lh[tail] && Installing(l, lh, s0, Now(), tail)
      modifies cache, cache.buf
      ensures cache.Valid()
      ensures if ok then Installing(l, lh, s0, Now(), tail + 1)
              else Ready(l, lh, s0) && InstallResult(l, lh, s0, Now(), false, tail) && Sized(l, Now())
    {
      hide Cache.Valid, Cache.Contents, Ready, Sized, Settled, Roomy, NoneHeld, Kept, Spare, Idle, FreeBlock, Region, Elements;
      hide Installing, InstallDone, InstallResult, CanCopy, CopyResult;
      ghost var s := Now();
      InstallNext(l, lh, s0, s, tail);
      ok := CopyBlock(l.start + tail + 1, home, true);
      InstallRound(l, lh, s0, s, Now(), tail, ok);
    }

    /** install_trans: copy the log blocks to their home locations. */
    method InstallTrans() returns (ok: bool, ghost k: nat)
      requires Valid() && Ready(l, Lh(), Now())
      modifies cache, cache.buf
      ensures Valid() && InstallResult(l, Lh(), old(Now()), Now(), ok, k)
    {
      hide Cache.Valid, Cache.Contents, Ready, Sized, Settled, Roomy, NoneHeld, Kept, Spare, Idle, FreeBlock, Region, Elements;
      hide Installing, InstallDone, InstallResult;
      ghost var s, lh := Now(), Lh();
      InstallStart(l, lh, s);
      var tail := 0;
      while tail < n
        invariant 0 <= tail <= n && cache.Valid() && Installing(l, lh, s, Now(), tail)
      {
        ok := InstallBlock(tail, block[tail], lh, s);
        if !ok { return false, tail; }
        tail := tail + 1;
      }
      InstallNext(l, lh, s, Now(), tail);
      return true, tail;
    }

    /** The loop of read_head. */
    method LoadHead(hb: Block)
      requires block.Length == LOGSIZE && HeadCount(hb) <= LOGSIZE
      modifies this`n, block
      ensures n <= LOGSIZE && Lh() == HeadList(hb)
    {
      n := hb[0];
      var i := 0;
      while i < n
        invariant 0 <= i <= n
        invariant forall j :: 0 <= j < i ==> block[j] == hb[j + 1]
        modifies block
      {
        block[i] := hb[i + 1];
        i := i + 1;
      }
    }

    /** bread and brelse of a block. */
    method ReadBlock(bno: nat) returns (r: Option<Block>)
      requires cache.Valid() && bno < |cache.disk| && FreeBlock(cache.buf[..], bno)
      modifies cache, cache.buf
      ensures cache.Valid() && ReadResult(bno, old(Now()), Now(), r.Some?)
      ensures r.Some? ==> r.value == old(cache.Contents()[bno])
    {
      ghost var s := cache.buf[..];
      var b := cache.Bread(ROOTDEV, bno);
      if b.None? { return None; }
      ghost var t := cache.buf[..];
      TakeOne(s, t, b.value, bno);
      r := Some(cache.buf[b.value].data);
      var ok := cache.Brelse(b.value);
      GivesBack(s, t, cache.buf[..], {b.value});
    }

    /** read_head: the header on disk becomes the header in memory. */
    method ReadHead() returns (ok: bool)
      requires Valid() && FreeBlock(cache.buf[..], l.start) && HeadCount(cache.disk[l.start]) <= LOGSIZE
      modifies this`n, block, cache, cache.buf
      ensures Valid() && ReadResult(l.start, old(Now()), Now(), ok)
      ensures ok ==> Lh() == HeadList(old(cache.disk[l.start]))
    {
      hide Cache.Valid, Cache.Contents, Settled, FreeBlock, Spare;
      var r := ReadBlock(l.start);
      if r.None? { return false; }
      LoadHead(r.value);
      return true;
    }

    /** The loop of write_head. */
    method FillHead(hb0: Block) returns (hb: Block)
      requires n <= block.Length && Numbers(Lh())
      ensures hb == PutHead(hb0, Lh())
    {
      hb := hb0[0 := n];
      var i := 0;
      while i < n
        invariant 0 <= i <= n && hb == PutEntries(hb0[0 := n], Lh(), i)
      {
        hb := hb[i + 1 := block[i]];
        i := i + 1;
      }
    }

    /** write_head: the header in memory goes to disk, in one block write. */
    method WriteHead() returns (ok: bool)
      requires Valid() && FreeBlock(cache.buf[..], l.start) && Numbers(Lh())
      modifies cache, cache.buf
      ensures Valid() && HeadResult(l, Lh(), old(Now()), Now(), ok)
    {
      ghost var s := cache.buf[..];
      var r := cache.Bread(ROOTDEV, l.start);
      if r.None? { return false; }
      ghost var t := cache.buf[..];
      TakeOne(s, t, r.value, l.start);
      var hb := FillHead(cache.buf[r.value].data);
      StoreBlock(r.value, l.start, hb);
      GivesBack(s, t, cache.buf[..], {r.value});
      return true;
    }

    /** Change the data of a held buffer, write it and release it. */
    method StoreBlock(b: nat, bno: nat, data: Block)
      requires Held(b, bno)
      modifies cache, cache.buf
      ensures cache.Valid() && AllGivenBack(old(cache.buf[..]), cache.buf[..], {b})
      ensures cache.disk == old(cache.disk)[bno := data]
      ensures cache.writes == old(cache.writes) + [Write(bno, data)]
      ensures cache.Contents() == old(cache.Contents())[bno := data]
    {
      cache.SetData(b, data);
      var ok := cache.Bwrite(b);
      ok := cache.Brelse(b);
    }

    /** recover_from_log at boot: exactly the writes of RecoverWrites, or a prefix and a panic; no
        panic when all buffers are idle. */
    method RecoverFromLog() returns (ok: bool, ghost k: nat)
      requires Valid() && WfDisk(l, cache.disk) && NoneLocked(cache.buf[..])
      modifies this`n, block, cache, cache.buf
      ensures Valid() && RecoverResult(l, old(Now()), Now(), ok, k) && (ok ==> n == 0)
    {
      hide Cache.Valid, Cache.Contents, Ready, Sized, Settled, Roomy, NoneHeld, Kept, Spare, Idle, FreeBlock, Region, Elements;
      hide WfDisk, ReadResult, InstallResult, HeadResult, RecoverResult, Issued, Numbers, NoneLocked;
      ghost var s, lh := Now(), ListOnDisk(l, Now());
      BootReady(l, lh, s);
      ok := ReadHead();
      ghost var t := Now();
      HeadRead(l, lh, s, t, ok);
      if !ok { return false, 0; }
      ok, k := InstallTrans();
      ghost var u := Now();
      RecoverInstall(l, lh, s, t, u, ok, k);
      if !ok { return; }
      ok := ClearHead();
      Recovered(l, lh, s, t, u, Now(), ok);
      if ok { k := k + 1; }
    }

    /** The first half of commit: write_log and write_head. */
    method Open() returns (ok: bool, ghost k: nat)
      requires Valid() && CommitReady(l, Lh(), Now()) && n > 0
      modifies cache, cache.buf
      ensures Valid() && OpenResult(l, Lh(), old(Now()), Now(), ok, k) && (ok ==> k == n)
    {
      hide Cache.Valid, Cache.Contents, Ready, Sized, Settled, Roomy, NoneHeld, Kept, Spare, Idle, FreeBlock, Region, Elements;
      hide CommitReady, LogResult, HeadResult, OpenResult, Numbers;
      ghost var s, lh := Now(), Lh();
      CommitStart(l, lh, s);
      ok, k := WriteLog();
      ghost var t := Now();
      OpenedLog(l, lh, s, t, ok, k);
      if !ok { return; }
      ok := WriteHead();
      OpenedAll(l, lh, s, t, Now(), ok);
    }

    /** The second half: install_trans and the write_head that clears the log. */
    method Close(ghost s: Snap) returns (ok: bool, ghost k: nat)
      requires Valid() && CommitReady(l, Lh(), s) && n > 0 && OpenResult(l, Lh(), s, Now(), true, n)
      modifies this`n, cache, cache.buf
      ensures Valid() && CommitResult(l, old(Lh()), s, Now(), ok, k) && (ok ==> n == 0)
    {
      hide Cache.Valid, Cache.Contents, Ready, Sized, Settled, Roomy, NoneHeld, Kept, Spare, Idle, FreeBlock, Region, Elements;
      hide CommitReady, InstallResult, HeadResult, OpenResult, CommitResult, Numbers;
      ghost var t, lh := Now(), Lh();
      OpenReady(l, lh, s, t);
      ok, k := InstallTrans();
      ghost var u := Now();
      ClosedInstall(l, lh, s, t, u, ok, k);
      k := |lh| + 1 + k;
      if !ok { return; }
      ok := ClearHead();
      ClosedAll(l, lh, s, t, u, Now(), ok);
      if ok { k := k + 1; }
    }

    /** log.lh.n = 0 and write_head. */
    method ClearHead() returns (ok: bool)
      requires Valid() && FreeBlock(cache.buf[..], l.start) && Numbers([])
      modifies this`n, cache, cache.buf
      ensures Valid() && n == 0 && HeadResult(l, [], old(Now()), Now(), ok)
    {
      n := 0;
      assert Lh() == [];
      ok := WriteHead();
    }

    /** commit: exactly the writes of CommitWrites, or a prefix of them and a panic; no panic when the
        listed blocks are pinned and one buffer is spare. */
    method Commit() returns (ok: bool, ghost k: nat)
      requires Valid() && CommitReady(l, Lh(), Now())
      modifies this`n, cache, cache.buf
      ensures Valid() && CommitResult(l, old(Lh()), old(Now()), Now(), ok, k) && (ok ==> n == 0)
    {
      hide Cache.Valid, Cache.Contents, Ready, Sized, Settled, Roomy, NoneHeld, Kept, Spare, Idle, FreeBlock, Region, Elements;
      hide CommitReady, OpenResult, CommitResult;
      ghost var s := Now();
      if n == 0 {
        assert Lh() == [];
        CommitNothing(l, s);
        return true, 0;
      }
      ok, k := Open();
      if !ok {
        OpenStopped(l, Lh(), s, Now(), k);
        return;
      }
      ok, k := Close(s);
    }

    /** The guard of log_write, before log.lock is taken; false is one of its two panics. */
    method LogCheck() returns (ok: bool)
      requires Valid()
      ensures ok <==> !Refused(l, Memory())
      ensures ok <==> n < LOGSIZE && n < l.nlog - 1 && outstanding >= 1
    {
      return !(n >= LOGSIZE || n >= l.nlog - 1 || outstanding < 1);
    }

    /** The part of log_write under log.lock, for a buffer its caller holds; false is a write past the
        end of lh.block, which the guard does not exclude when other calls have passed it too. */
    method LogAppend(b: nat) returns (ok: bool)
      requires Valid() && b < NBUF && cache.buf[b].locked && cache.buf[b].valid
      modifies this`n, block, cache.buf
      ensures Valid() && (ok <==> !Overruns(old(Memory()), old(cache.buf[b].blockno)))
      ensures Memory() == if ok then Logged(old(Memory()), old(cache.buf[b].blockno)) else old(Memory())
      ensures if ok then cache.buf[..] == old(cache.buf[..])[b := old(cache.buf[b]).(dirty := true)]
              else cache.buf[..] == old(cache.buf[..])
      ensures ok && old(AllPinned(Lh(), cache.buf[..])) ==> AllPinned(Lh(), cache.buf[..])
    {
      var bno := cache.buf[b].blockno;
      ghost var s := cache.buf[..];
      ok := Absorb(bno);
      if !ok { return; }
      assert BufOk(s[b], cache.disk);
      cache.Update(b, cache.buf[b].(dirty := true));
      PinnedNow(s, cache.buf[..], b, old(Lh()), Lh());
    }

    /** Log absorption: a block already listed is not listed again. */
    method Absorb(bno: nat) returns (ok: bool)
      requires block.Length == LOGSIZE && n <= LOGSIZE
      modifies this`n, block
      ensures n <= LOGSIZE && (ok <==> bno in old(Lh()) || old(n) < LOGSIZE)
      ensures Lh() == if ok && bno !in old(Lh()) then old(Lh()) + [bno] else old(Lh())
    {
      var i := 0;
      while i < n && block[i] != bno
        invariant 0 <= i <= n
        invariant forall j :: 0 <= j < i ==> block[j] != bno
      {
        i := i + 1;
      }
      if i == LOGSIZE { return false; }
      block[i] := bno;
      if i == n { n := n + 1; }
      return true;
    }

    /** One pass of the loop of begin_op under log.lock: enter, or sleep. */
    method BeginOp() returns (entered: bool)
      requires Valid()
      modifies this`outstanding
      ensures Valid() && Memory() == Begun(old(Memory())) && (entered <==> Memory() != old(Memory()))
      ensures entered <==> !committing && n + (old(outstanding) + 1) * 10 <= LOGSIZE
      ensures outstanding == old(outstanding) + if entered then 1 else 0
    {
      if committing { return false; }
      if n + (outstanding + 1) * MAXOPBLOCKS > LOGSIZE { return false; }
      outstanding := outstanding + 1;
      return true;
    }

    /** end_op: the last operation to end commits the whole group.  wake says whether the
        sleepers in begin_op are woken. */
    method EndOp() returns (ok: bool, wake: bool, ghost k: nat)
      requires Valid() && outstanding >= 1
      requires outstanding == 1 && !committing ==> CommitReady(l, Lh(), Now())
      modifies this`n, this`outstanding, this`committing, cache, cache.buf
      ensures Valid() && outstanding == old(outstanding) - 1
      ensures old(committing) ==> !ok && !wake && cache.disk == old(cache.disk)
      ensures !old(committing) && outstanding > 0 ==>
                ok && wake && !committing && Now() == old(Now()) && Lh() == old(Lh())
      ensures !old(committing) && outstanding == 0 ==>
                && CommitResult(l, old(Lh()), old(Now()), Now(), ok, k)
                && if ok then wake && !committing && n == 0 else !wake
    {
      outstanding := outstanding - 1;
      k := 0;
      if committing { return false, false, 0; }
      if outstanding > 0 { return true, true, 0; }
      committing := true;
      ok, k := Commit();
      if !ok { return false, false, k; }
      committing := false;
      return true, true, k;
    }
  }
}
