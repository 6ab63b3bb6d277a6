/** fs.c: blocks, inodes and file contents, as code that changes blocks in place.  Inside
    a transaction bread returns the newest contents and log_write publishes a change, so
    the blocks are one store here, and logged collects the blocks given to log_write. */
module FileSystem {
  import opened Wrappers
  import opened Blocks
  import opened Basics
  import opened FileLayout
  import opened BlockOwnership
  import opened FileContents
  import opened FileWrites
  import opened FileFrees
  import opened FileOperations

  /** struct inode: a locked, valid in-memory copy of inode inum. */
  class Inode {
    const inum: nat
    var d: Dinode

    constructor (inum: nat, d: Dinode)
      ensures this.inum == inum && this.d == d
    {
      this.inum, this.d := inum, d;
    }
  }

  class Fs {
    const sb: Super
    var store: Store
    ghost var logged: set<nat>

    constructor (sb: Super, store: Store)
      ensures this.sb == sb && this.store == store && logged == {}
    {
      this.sb, this.store, logged := sb, store, {};
    }

    ghost predicate Sized()
      reads this
    {
      sb.Valid() && |store| == sb.size
    }

    ghost predicate OutOfBlocks()
      reads this
    {
      Sized() && forall b :: 0 <= b < sb.size ==> Used(sb, store, b)
    }

    /** balloc: the first free block, marked used and zeroed; None is the panic. */
    method Balloc() returns (r: Option<Word>)
      requires Sized()
      modifies this
      ensures Sized()
      ensures r.None? <==> old(OutOfBlocks())
      ensures r.None? ==> store == old(store) && logged == old(logged)
      ensures r.Some? ==>
                && old(FirstFree(sb, store, r.value))
                && store == old(Alloced(sb, store, r.value))
                && logged == old(logged) + {BBlock(sb, r.value), r.value}
    {
      var b := 0;
      while b < sb.size
        invariant 0 <= b && b % BPB == 0 && store == old(store) && logged == old(logged)
        invariant forall x :: 0 <= x < b && x < sb.size ==> Used(sb, store, x)
      {
        BBlockRange(sb, b);
        var bi := 0;
        while bi < BPB && b + bi < sb.size
          invariant 0 <= bi <= BPB && store == old(store) && logged == old(logged)
          invariant forall x :: 0 <= x < b + bi && x < sb.size ==> Used(sb, store, x)
        {
          assert (b + bi) / BPB == b / BPB && (b + bi) % BPB == bi;
          if !TestBit(store[BBlock(sb, b)], bi) {
            assert FirstFree(sb, store, b + bi);
            store := store[BBlock(sb, b) := PutBit(store[BBlock(sb, b)], bi, true)];
            store := store[b + bi := ZERO_BLOCK];
            logged := logged + {BBlock(sb, b), b + bi};
            return Some(b + bi);
          }
          bi := bi + 1;
        }
        b := b + BPB;
      }
      return None;
    }

    /** bfree; false is the panic "freeing free block". */
    method Bfree(b: nat) returns (ok: bool)
      requires Sized() && b < sb.size
      modifies this
      ensures Sized() && ok == old(Used(sb, store, b))
      ensures ok ==> store == old(Marked(sb, store, b, false)) && logged == old(logged) + {BBlock(sb, b)}
      ensures !ok ==> store == old(store) && logged == old(logged)
      ensures Recorded(old(store), store, old(logged), logged)
    {
      BBlockRange(sb, b);
      var bi := b % BPB;
      if !TestBit(store[BBlock(sb, b)], bi) { return false; }
      store := store[BBlock(sb, b) := PutBit(store[BBlock(sb, b)], bi, false)];
      logged := logged + {BBlock(sb, b)};
      return true;
    }

    /** A top-level slot of ip, filled by balloc when it is empty. */
    method MapTop(ip: Inode, k: nat) returns (r: Option<Word>)
      requires Sized() && Used(sb, store, 0) && DinodeOk(ip.d) && k <= NDIRECT
      modifies this, ip
      ensures Sized() && DinodeOk(ip.d) && ip.d == old(ip.d).(addrs := ip.d.addrs)
      ensures r.Some? ==>
                && SlotStep(sb, Node(old(store), old(ip.d)), Node(store, ip.d), k)
                && r.value == ip.d.addrs[k] != 0
                && (old(ip.d.addrs)[k] == 0 ==> r.value < sb.size)
                && old(logged) <= logged <= old(logged) + Bitmap(sb) + {r.value}
      ensures old(ip.d.addrs)[k] != 0 ==> r.Some? && logged == old(logged)
      ensures r.None? ==> OutOfBlocks()
      ensures Recorded(old(store), store, old(logged), logged)
    {
      if ip.d.addrs[k] != 0 { return Some(ip.d.addrs[k]); }
      ghost var s := Node(store, ip.d);
      r := Balloc();
      if r.None? { return; }
      BBlockRange(sb, r.value);
      ip.d := ip.d.(addrs := ip.d.addrs[k := r.value]);
      assert Node(store, ip.d) == Assigned(sb, s, k, r.value);
    }
  
    /** Entry j of the indirect block of ip, filled by balloc when it is empty. */
    method MapEntry(ip: Inode, j: nat) returns (r: Option<Word>)
      requires Sized() && DinodeOk(ip.d) && j < NINDIRECT && 0 < ip.d.addrs[NDIRECT] < sb.size
      modifies this
      ensures Sized()
      ensures r.Some? ==>
                && EntryStep(sb, Node(old(store), ip.d), Node(store, ip.d), NDIRECT + 1 + j)
                && r.value == Slot(store, ip.d, NDIRECT + 1 + j)
                && old(logged) <= logged <= old(logged) + Bitmap(sb) + {r.value} + TableBlock(ip.d)
      ensures old(Slot(store, ip.d, NDIRECT + 1 + j)) != 0 ==> r.Some? && logged == old(logged)
      ensures r.None? ==> OutOfBlocks()
      ensures Recorded(old(store), store, old(logged), logged)
    {
      ghost var s := Node(store, ip.d);
      var a := ip.d.addrs[NDIRECT];
      if store[a][j] != 0 { return Some(store[a][j]); }
      r := Balloc();
      if r.None? { return; }
      BBlockRange(sb, r.value);
      store := store[a := store[a][j := r.value]];
      logged := logged + {a};
      assert Node(store, ip.d) == Assigned(sb, s, NDIRECT + 1 + j, r.value);
    }

    /** bmap: the address of block bn of ip, allocating what is missing.  None is a panic:
        bn out of range, or out of blocks. */
    method Bmap(ip: Inode, bn: nat) returns (r: Option<Word>)
      requires Sized() && Used(sb, store, 0) && DinodeOk(ip.d) && ip.d.addrs[NDIRECT] < sb.size
      modifies this, ip
      ensures Sized() && (bn >= MAXFILE ==> r.None?) && (r.None? ==> bn >= MAXFILE || OutOfBlocks())
      ensures r.Some? ==>
                && DinodeOk(ip.d) && BmapStep(sb, Node(old(store), old(ip.d)), Node(store, ip.d), bn)
                && r.value == Addr(store, ip.d, bn)
                && old(logged) <= logged <= old(logged) + Bitmap(sb) + {r.value} + TableBlock(ip.d)
      ensures bn < MAXFILE && old(Addr(store, ip.d, bn)) != 0 ==>
                r.Some? && logged == old(logged) && store == old(store) && ip.d == old(ip.d)
      ensures ip.d == old(ip.d).(addrs := ip.d.addrs)
      ensures Recorded(old(store), store, old(logged), logged)
    {
      hide Recorded, Used, Bitmap;
      if bn < NDIRECT {
        r := MapTop(ip, bn);
        return;
      }
      RecordedSame(store, logged);
      if bn >= MAXFILE { return None; }
      ghost var s := Node(store, ip.d);
      var t := MapTop(ip, NDIRECT);
      if t.None? { return None; }
      ghost var m, l1 := Node(store, ip.d), logged;
      r := MapEntry(ip, bn - NDIRECT);
      RecordedThen(s.store, m.store, store, old(logged), l1, logged);
      if r.Some? {
        assert SlotStep(sb, s, m, NDIRECT) && EntryStep(sb, m, Node(store, ip.d), bn + 1);
        LoggedThen(old(logged), l1, logged, Bitmap(sb), TableBlock(ip.d), {r.value as nat});
      }
    }
  
    /** iupdate: the in-memory inode goes to its place in its inode block. */
    method Iupdate(ip: Inode)
      requires Sized() && ip.inum < sb.ninodes && DinodeOk(ip.d)
      modifies this
      ensures Sized() && store == old(Updated(sb, store, ip.inum, ip.d))
      ensures logged == old(logged) + {IBlock(sb, ip.inum)}
      ensures Recorded(old(store), store, old(logged), logged)
    {
      IBlockRange(sb, ip.inum);
      var b := IBlock(sb, ip.inum);
      store := store[b := PutDinode(store[b], ip.inum % IPB, ip.d)];
      logged := logged + {b};
    }

    /** ip is the locked, valid copy of its inode. */
    ghost predicate Loaded(ip: Inode)
      reads this, ip
    {
      Sized() && ip.inum < sb.ninodes && ip.d == Table(sb, store)[ip.inum]
    }

    /** readi: an error, or the bytes of the file from off, at most n of them. */
    method Readi(ip: Inode, off: Word, n: Word, ghost owner: Owner) returns (r: Option<seq<Byte>>)
      requires Loaded(ip) && FsInv(sb, store, owner)
      modifies this, ip
      ensures store == old(store) && ip.d == old(ip.d) && logged == old(logged)
      ensures r.None? <==> off > ip.d.size || off + n >= 0x1_0000_0000
      ensures InStore(store, ip.d)
      ensures r.Some? ==> r.value == Content(store, ip.d)[off..if off + n > ip.d.size then ip.d.size else off + n]
    {
      hide FsInv, BmapStep, BytesOf, Content, Extent, InStore, Used, Slot, Table, Ownership, TableBlock, Bitmap;
      ExactInode(sb, store, owner, ip.inum);
      InodeReady(sb, store, Table(sb, store), owner, ip.inum);
      if off > ip.d.size || off + n >= 0x1_0000_0000 { return None; }
      var n1 := if off + n > ip.d.size then ip.d.size - off else n;
      var tot, o, dst := 0, off, [];
      while tot < n1
        invariant 0 <= tot <= n1 && o == off + tot
        invariant store == old(store) && ip.d == old(ip.d) && logged == old(logged)
        invariant dst == Content(store, ip.d)[off..o]
      {
        var m := if n1 - tot < BSIZE - o % BSIZE then n1 - tot else BSIZE - o % BSIZE;
        ReadStep(store, ip.d, o, m);
        var a := Bmap(ip, o / BSIZE);
        var bytes := BytesOf(store[a.value]);
        dst := dst + bytes[o % BSIZE..o % BSIZE + m];
        SliceJoin(Content(store, ip.d), off, o, o + m);
        tot, o := tot + m, o + m;
      }
      return Some(dst);
    }
  
    /** writei: the error, a panic when the disk is full, or the bytes written. */
    method Writei(ip: Inode, src: seq<Byte>, off: Word, ghost owner: Owner) returns (r: WriteResult, ghost owner': Owner, ghost touched: set<nat>)
      requires Loaded(ip) && ip.d.typ != 0 && FsInv(sb, store, owner) && |src| < 0x1_0000_0000
      modifies this, ip
      ensures r.Error? <==> old(off > ip.d.size || off + |src| >= 0x1_0000_0000 || off + |src| > MAXFILE * BSIZE)
      ensures r.Error? ==> store == old(store) && ip.d == old(ip.d) && logged == old(logged) && touched == {}
      ensures r.Wrote? ==> r.n == |src| && WriteDone(sb, old(store), owner, store, owner', ip.inum, off, src)
      ensures r.Wrote? ==> Performs(sb, old(store), Write(ip.inum, off, src), store)
      ensures r.Wrote? ==> Loaded(ip) && logged <= old(logged) + touched
      ensures r.Wrote? && sb.size < BPB && |src| <= 3 * BSIZE ==> |touched| <= 7
      ensures r.Full? ==> OutOfBlocks()
      ensures r.Wrote? ==> ip.d == old(ip.d).(size := if |src| == 0 then old(ip.d.size) else Max(old(ip.d.size), off + |src|), addrs := ip.d.addrs)
      ensures Recorded(old(store), store, old(logged), logged)
    {
      hide FsInv, Content, InStore, Ownership, Patched, Writing, LoggedOnly, WriteDone, Touched, Writes, Recorded, LoggedAll;
      owner', touched := owner, {};
      RecordedSame(store, logged);
      if off > ip.d.size || off + |src| >= 0x1_0000_0000 { return Error, owner, {}; }
      if off + |src| > MAXFILE * BSIZE { return Error, owner, {}; }
      ghost var s0 := Node(store, ip.d);
      WritingStart(sb, s0, owner, ip.inum, off);
      var o, full;
      ghost var hi;
      o, full, owner', hi := CopyIn(ip, src, off, s0, owner);
      if full { return Full, owner, {}; }
      WritingReady(sb, s0, owner, Node(store, ip.d), owner', ip.inum, off, src);
      WrotePerforms(sb, s0, Node(store, ip.d), ip.inum, off, src);
      ghost var ib := IBlock(sb, ip.inum);
      touched := Touched(sb, store, ip.d, off, |src|, ib);
      LoggedTouched(sb, old(logged), logged, store, ip.d, off, |src|, hi, ib);
      if sb.size < BPB && |src| <= 3 * BSIZE { ChunkFitsTransaction(sb, store, ip.d, off, |src|, ib); }
      if |src| > 0 && o > ip.d.size {
        WritingGrows(sb, s0, owner, Node(store, ip.d), owner', ip.inum, off, src);
        ip.d := ip.d.(size := o);
        ghost var s1, l1 := store, logged;
        Iupdate(ip);
        RecordedThen(old(store), s1, store, old(logged), l1, logged);
      } else {
        WritingEnds(sb, s0, owner, Node(store, ip.d), owner', ip.inum, off, src);
      }
      return Wrote(|src|), owner', touched;
    }

    /** The loop of writei; full is the panic of balloc. */
    method CopyIn(ip: Inode, src: seq<Byte>, off: Word, ghost s0: Node, ghost owner: Owner)
      returns (o: nat, full: bool, ghost owner': Owner, ghost hi: nat)
      requires Sized() && DinodeOk(ip.d) && s0 == Node(store, ip.d) && off + |src| <= MAXFILE * BSIZE
      requires Writing(sb, s0, owner, s0, owner, ip.inum, off, [])
      modifies this, ip
      ensures Sized() && (full || o == off + |src|) && (full ==> OutOfBlocks())
      ensures !full ==> Writing(sb, s0, owner, Node(store, ip.d), owner', ip.inum, off, src)
      ensures !full ==> Writes(sb, s0, Node(store, ip.d), off, src)
      ensures !full ==> LoggedOnly(sb, old(logged), logged, store, ip.d, off / BSIZE, hi)
      ensures !full ==> hi == if |src| == 0 then off / BSIZE else BlocksFor(off + |src|)
      ensures !full ==> LoggedAll(logged, store, ip.d, off / BSIZE, hi)
      ensures ip.d == old(ip.d).(addrs := ip.d.addrs)
      ensures Recorded(old(store), store, old(logged), logged)
    {
      hide BmapStep, Used, Ownership, Writing, Overlay, StepBlocks, Writes, LastStart, Recorded, LogState, Bitmap, TableBlock, BlocksFor, RoundAt;
      full, owner', o, hi := false, owner, off, off / BSIZE;
      var tot := 0;
      NothingLogged(sb, logged, store, ip.d, hi);
      NothingWritten(sb, s0, off);
      RoundFirst(off, |src|);
      while tot < |src|
        invariant 0 <= tot <= |src| && o == off + tot && Sized() && !full && RoundAt(off, tot, |src|, hi)
        invariant ip.d == old(ip.d).(addrs := ip.d.addrs)
        invariant LogState(sb, old(store), old(logged), Node(store, ip.d), logged, off / BSIZE, hi)
        invariant Writing(sb, s0, owner, Node(store, ip.d), owner', ip.inum, off, src[..tot])
        invariant Writes(sb, s0, Node(store, ip.d), off, src[..tot])
      {
        var m := if |src| - tot < BSIZE - o % BSIZE then |src| - tot else BSIZE - o % BSIZE;
        ghost var s, l := Node(store, ip.d), logged;
        WritingReady(sb, s0, owner, s, owner', ip.inum, off, src[..tot]);
        RoundNext(off, tot, |src|, hi, m);
        var a := Bmap(ip, o / BSIZE);
        if a.None? {
          LogStateRecorded(sb, old(store), old(logged), s, l, off / BSIZE, hi, store, logged);
          full := true;
          return;
        }
        ghost var t, l1 := Node(store, ip.d), logged;
        WritingMapped(sb, s0, owner, s, t, owner', ip.inum, off, src[..tot]);
        store := store[a.value := Overlay(store[a.value], o % BSIZE, src[tot..tot + m])];
        owner' := RoundDone(sb, s0, owner, s, t, store, owner', ip.inum, off, src, tot, m);
        logged := logged + {a.value};
        LogRound(sb, old(store), old(logged), s, l, t, l1, a.value, store[a.value], off / BSIZE, hi, o / BSIZE);
        hi := hi + 1;
        tot, o := tot + m, o + m;
      }
      assert src[..tot] == src;
      RoundLast(off, |src|, hi);
      LogStateParts(sb, old(store), old(logged), Node(store, ip.d), logged, off / BSIZE, hi);
    }

    /** itrunc: every block of ip is given back; "freeing free block" cannot happen. */
    method Itrunc(ip: Inode, ghost owner: Owner) returns (ok: bool)
      requires Loaded(ip) && ip.d.typ != 0 && FsInv(sb, store, owner)
      modifies this, ip
      ensures ok && NoBlocks(ip.d) && ip.d == old(ip.d).(size := 0, addrs := ip.d.addrs)
      ensures Sized() && InodeReplaced(sb, old(store), owner, store, Disowned(owner, ip.inum), ip.inum, ip.d)
      ensures Performs(sb, old(store), Truncate(ip.inum), store) && ip.d == Emptied(old(ip.d))
      ensures Recorded(old(store), store, old(logged), logged)
    {
      hide FsInv, Ownership, Freeing, Used, Slot, Marked, Updated, InodeReplaced, Disowned, Table, FreedSlots, Recorded;
      ghost var s0, tab := store, Table(sb, store);
      var d0 := ip.d;
      FsInvParts(sb, store, owner);
      FreeingStarts(sb, s0, tab, owner, ip.inum);
      NoneFreed(sb, s0, d0);
      ok := FreeDirect(ip, s0, tab, owner);
      ghost var s1, l1 := store, logged;
      if d0.addrs[NDIRECT] != 0 {
        ok := FreeEntries(ip, s0, tab, owner);
        RecordedThen(s0, s1, store, old(logged), l1, logged);
        s1, l1 := store, logged;
        FreeStep(sb, s0, tab, owner, store, ip.inum, NSLOTS - 1);
        FreeingSlot(sb, s0, tab, owner, store, ip.inum, NSLOTS - 1);
        OneFreed(sb, s0, d0, NSLOTS - 1);
        SlotTop(s0, d0, NDIRECT);
        ok := Bfree(ip.d.addrs[NDIRECT]);
        RecordedThen(s0, s1, store, old(logged), l1, logged);
        ip.d := ip.d.(addrs := ip.d.addrs[NDIRECT := 0]);
      } else {
        NoEntries(sb, s0, tab, owner, store, ip.inum, NDIRECT);
        NoEntriesFreed(sb, s0, d0, NDIRECT);
      }
      ip.d := ip.d.(size := 0);
      assert ip.d.addrs == EMPTY_ADDRS;
      Truncated(sb, s0, owner, store, ip.inum, ip.d);
      s1, l1 := store, logged;
      Iupdate(ip);
      RecordedThen(s0, s1, store, old(logged), l1, logged);
    }

    /** The loop of itrunc over the direct blocks. */
    method FreeDirect(ip: Inode, ghost s0: Store, ghost tab: seq<Dinode>, ghost owner: Owner) returns (ok: bool)
      requires Sized() && ip.inum < |tab| && ip.d == tab[ip.inum] && DinodeOk(ip.d)
      requires Freeing(sb, s0, tab, owner, store, ip.inum, 0) && |s0| == sb.size && store == FreedSlots(sb, s0, ip.d, 0)
      modifies this, ip
      ensures ok && Sized() && Freeing(sb, s0, tab, owner, store, ip.inum, NDIRECT)
      ensures store == FreedSlots(sb, s0, old(ip.d), NDIRECT)
      ensures DinodeOk(ip.d) && ip.d == old(ip.d).(addrs := ip.d.addrs)
      ensures ip.d.addrs[NDIRECT] == old(ip.d.addrs[NDIRECT]) && forall k :: 0 <= k < NDIRECT ==> ip.d.addrs[k] == 0
      ensures Recorded(old(store), store, old(logged), logged)
    {
      hide Ownership, Freeing, Used, Slot, Marked, Table, FreedSlots, Recorded;
      RecordedSame(store, logged);
      var i := 0;
      while i < NDIRECT
        invariant 0 <= i <= NDIRECT && Sized() && Freeing(sb, s0, tab, owner, store, ip.inum, i)
        invariant store == FreedSlots(sb, s0, tab[ip.inum], i) && Recorded(old(store), store, old(logged), logged)
        invariant DinodeOk(ip.d) && ip.d == tab[ip.inum].(addrs := ip.d.addrs)
        invariant forall k :: 0 <= k < i ==> ip.d.addrs[k] == 0
        invariant forall k :: i <= k <= NDIRECT ==> ip.d.addrs[k] == tab[ip.inum].addrs[k]
      {
        FreeStep(sb, s0, tab, owner, store, ip.inum, i);
        FreeingSlot(sb, s0, tab, owner, store, ip.inum, i);
        OneFreed(sb, s0, tab[ip.inum], i);
        SlotTop(s0, tab[ip.inum], i);
        if ip.d.addrs[i] != 0 {
          ghost var s1, l1 := store, logged;
          ok := Bfree(ip.d.addrs[i]);
          RecordedThen(old(store), s1, store, old(logged), l1, logged);
          ip.d := ip.d.(addrs := ip.d.addrs[i := 0]);
        }
        i := i + 1;
      }
      ok := true;
    }

    /** The loop of itrunc over the entries of the indirect block. */
    method FreeEntries(ip: Inode, ghost s0: Store, ghost tab: seq<Dinode>, ghost owner: Owner) returns (ok: bool)
      requires Sized() && ip.inum < |tab| && DinodeOk(tab[ip.inum]) && DinodeOk(ip.d)
      requires ip.d.addrs[NDIRECT] == tab[ip.inum].addrs[NDIRECT] != 0
      requires Freeing(sb, s0, tab, owner, store, ip.inum, NDIRECT)
      requires |s0| == sb.size && store == FreedSlots(sb, s0, tab[ip.inum], NDIRECT)
      modifies this
      ensures ok && Sized() && Freeing(sb, s0, tab, owner, store, ip.inum, NSLOTS - 1)
      ensures store == FreedSlots(sb, s0, tab[ip.inum], NSLOTS - 1)
      ensures Recorded(old(store), store, old(logged), logged)
    {
      hide Ownership, Freeing, Used, Slot, Marked, Table, FreedSlots, Recorded;
      RecordedSame(store, logged);
      FreeingReads(sb, s0, tab, owner, store, ip.inum, NDIRECT);
      var a := store[ip.d.addrs[NDIRECT]];
      var j := 0;
      while j < NINDIRECT
        invariant 0 <= j <= NINDIRECT && Sized() && Freeing(sb, s0, tab, owner, store, ip.inum, NDIRECT + j)
        invariant store == FreedSlots(sb, s0, tab[ip.inum], NDIRECT + j) && Recorded(old(store), store, old(logged), logged)
      {
        FreeStep(sb, s0, tab, owner, store, ip.inum, NDIRECT + j);
        FreeingSlot(sb, s0, tab, owner, store, ip.inum, NDIRECT + j);
        OneFreed(sb, s0, tab[ip.inum], NDIRECT + j);
        SlotEntry(s0, tab[ip.inum], j);
        if a[j] != 0 {
          ghost var s1, l1 := store, logged;
          ok := Bfree(a[j]);
          RecordedThen(old(store), s1, store, old(logged), l1, logged);
        }
        j := j + 1;
      }
      ok := true;
    }
  
    /** ialloc: the first free inode becomes an empty inode of the given type; None is the
        panic "no inodes". */
    method Ialloc(typ: Half, ghost owner: Owner) returns (r: Option<nat>)
      requires Sized() && FsInv(sb, store, owner) && typ != 0
      modifies this
      ensures Sized()
      ensures r.None? <==> forall i :: 1 <= i < sb.ninodes ==> old(Table(sb, store))[i].typ != 0
      ensures r.None? ==> store == old(store)
      ensures r.Some? ==> && 1 <= r.value < sb.ninodes && old(Table(sb, store))[r.value].typ == 0
                          && (forall i :: 1 <= i < r.value ==> old(Table(sb, store))[i].typ != 0)
                          && InodeReplaced(sb, old(store), owner, store, owner, r.value, Dinode(typ, 0, 0, 0, 0, EMPTY_ADDRS))
                          && Performs(sb, old(store), Allocate(r.value, typ), store)
      ensures Recorded(old(store), store, old(logged), logged)
    {
      hide FsInv, InodeReplaced, Updated;
      ghost var tab := Table(sb, store);
      var inum := 1;
      while inum < sb.ninodes
        invariant 1 <= inum <= sb.ninodes && store == old(store) && logged == old(logged) && tab == Table(sb, store)
        invariant forall i :: 1 <= i < inum ==> tab[i].typ != 0
      {
        IBlockRange(sb, inum);
        var dip := ReadDinode(store[IBlock(sb, inum)], inum % IPB);
        assert dip == tab[inum];
        if dip.typ == 0 {
          var d := Dinode(typ, 0, 0, 0, 0, EMPTY_ADDRS);
          FreeIsEmpty(sb, store, owner, inum);
          ReplaceEmpty(sb, store, owner, inum, d);
          var ip := new Inode(inum, d);
          Iupdate(ip);
          return Some(inum);
        }
        inum := inum + 1;
      }
      return None;
    }

    /** The last iput of an inode without links: itrunc, type 0, iupdate. */
    method FreeInode(ip: Inode, ghost owner: Owner)
      requires Loaded(ip) && ip.d.typ != 0 && FsInv(sb, store, owner)
      modifies this, ip
      ensures Sized() && NoBlocks(ip.d) && ip.d == old(ip.d).(typ := 0, size := 0, addrs := ip.d.addrs)
      ensures InodeReplaced(sb, old(store), owner, store, Disowned(owner, ip.inum), ip.inum, ip.d)
      ensures Performs(sb, old(store), Release(ip.inum), store)
      ensures Recorded(old(store), store, old(logged), logged)
    {
      hide FsInv, Ownership, Updated, Disowned, SameFile, Table, Truncation, Recorded;
      var ok := Itrunc(ip, owner);
      ghost var s1, l1 := store, logged;
      ip.d := ip.d.(typ := 0);
      ReplaceEmpty(sb, store, Disowned(owner, ip.inum), ip.inum, ip.d);
      Iupdate(ip);
      RecordedThen(old(store), s1, store, old(logged), l1, logged);
      ReplacedTwice(sb, old(store), owner, s1, store, Disowned(owner, ip.inum), ip.inum, ip.d);
    }
  
    /** The inode branch of filewrite: chunks of at most max bytes, each its own
        transaction.  ret is n, or -1 when a chunk failed; panic is balloc's.  txns are the
        sets of blocks the transactions logged, points the blocks before, between and after them. */
    method Filewrite(ip: Inode, addr: seq<Byte>, off: Word, ghost owner: Owner)
      returns (ret: int, off': nat, panic: bool, ghost owner': Owner, ghost txns: seq<set<nat>>, ghost points: seq<Store>)
      requires Loaded(ip) && ip.d.typ != 0 && FsInv(sb, store, owner) && |addr| < 0x8000_0000
      modifies this, ip
      ensures !panic ==> Loaded(ip) && off <= off' <= off + |addr| && off' < 0x1_0000_0000
      ensures !panic && off' > off ==> WriteDone(sb, old(store), owner, store, owner', ip.inum, off, addr[..off' - off])
      ensures !panic && off' == off ==> store == old(store) && ip.d == old(ip.d)
      ensures !panic ==> ret == if off' - off == |addr| then |addr| else -1
      ensures !panic && ret == -1 ==> off' - off == WholeChunks(off, old(ip.d.size))
      ensures !panic && |addr| > 0 ==> (ret == |addr| <==> old(off <= ip.d.size) && off + |addr| <= MAXFILE * BSIZE)
      ensures Small(sb, txns)
      ensures !panic ==> AllRecorded(points, txns, old(store), store)
      ensures panic ==> OutOfBlocks()
    {
      hide FsInv, WriteDone, Table, Recorded, AllRecorded, Small, WholeChunks, AtChunk;
      NoneRecorded(sb, store);
      ChunkStart(|addr|);
      assert ip.d.size <= MAXFILE * BSIZE by { ExactInode(sb, store, owner, ip.inum); }
      var max := ((10 - 1 - 1 - 2) / 2) * 512;
      var i := 0;
      off', panic, owner', txns, points, ret := off, false, owner, [], [store], -1;
      while i < |addr|
        invariant 0 <= i <= |addr| && off' == off + i && !panic && off' < 0x1_0000_0000
        invariant Loaded(ip) && ip.d.typ != 0 && FsInv(sb, store, owner')
        invariant i > 0 ==> WriteDone(sb, old(store), owner, store, owner', ip.inum, off, addr[..i]) && off' <= ip.d.size
        invariant i == 0 ==> store == old(store) && ip.d == old(ip.d) && owner' == owner
        invariant i > 0 ==> off <= old(ip.d.size) && off' <= MAXFILE * BSIZE
        invariant AtChunk(i, |addr|)
        invariant AllRecorded(points, txns, old(store), store) && Small(sb, txns)
      {
        var n1 := |addr| - i;
        if n1 > max { n1 := max; }
        logged := {};
        ghost var s1, o1 := store, owner';
        var r;
        ghost var touched;
        r, owner', touched := Writei(ip, addr[i..i + n1], off', owner');
        if r.Full? { panic := true; return; }
        MoreRecorded(points, txns, old(store), s1, store, logged);
        MoreSmall(sb, txns, logged, touched);
        txns, points := txns + [logged], points + [store];
        if r.Error? {
          ChunksDone(off, old(ip.d.size), i, n1, |addr|);
          owner' := o1;
          break;
        }
        WriteDoneSize(sb, s1, o1, store, owner', ip.inum, off', addr[i..i + n1]);
        if i > 0 { WriteDoneTwice(sb, old(store), owner, s1, o1, store, owner', ip.inum, off, addr[..i], addr[i..i + n1]); }
        assert addr[..i] + addr[i..i + n1] == addr[..i + n1];
        ChunkNext(i, n1, |addr|);
        off' := off' + r.n;
        i := i + r.n;
      }
      ret := if i == |addr| then |addr| else -1;
    }
  }

  /** The transactions lead from s0 to s1 through these points; each logged what it changed,
      starting with nothing logged. */
  ghost predicate AllRecorded(points: seq<Store>, txns: seq<set<nat>>, s0: Store, s1: Store) {
    && |points| == |txns| + 1 && points[0] == s0 && points[|txns|] == s1
    && forall k :: 0 <= k < |txns| ==> Recorded(points[k], points[k + 1], {}, txns[k])
  }

  /** With one block of bitmap, each transaction logs at most seven blocks. */
  ghost predicate Small(sb: Super, txns: seq<set<nat>>) {
    sb.size < BPB ==> forall t :: t in txns ==> |t| <= 7
  }

  lemma NoneRecorded(sb: Super, s: Store)
    ensures AllRecorded([s], [], s, s) && Small(sb, [])
  {
  }

  lemma MoreRecorded(points: seq<Store>, txns: seq<set<nat>>, s0: Store, s1: Store, s2: Store, l: set<nat>)
    requires AllRecorded(points, txns, s0, s1) && Recorded(s1, s2, {}, l)
    ensures AllRecorded(points + [s2], txns + [l], s0, s2)
  {
    hide Recorded;
  }

  lemma MoreSmall(sb: Super, txns: seq<set<nat>>, l: set<nat>, touched: set<nat>)
    requires Small(sb, txns) && l <= touched && (sb.size < BPB ==> |touched| <= 7)
    ensures Small(sb, txns + [l])
  {
    SubsetCount(l, touched);
  }

  /** The bytes of the chunks of 3 blocks that fit a file of size bytes from off on. */
  function WholeChunks(off: nat, size: nat): nat {
    if off > size || size > MAXFILE * BSIZE then 0 else (MAXFILE * BSIZE - off) / (3 * BSIZE) * (3 * BSIZE)
  }

  /** Between two chunks of a write of n bytes, or at its end. */
  ghost predicate AtChunk(i: nat, n: nat) {
    i % (3 * BSIZE) == 0 || i == n
  }

  lemma ChunkStart(n: nat)
    ensures AtChunk(0, n)
  {
  }

  lemma ChunkNext(i: nat, n1: nat, n: nat)
    requires AtChunk(i, n) && i < n && n1 == if n - i > 3 * BSIZE then 3 * BSIZE else n - i
    ensures AtChunk(i + n1, n)
  {
  }

  lemma ChunksDone(off: nat, size: nat, i: nat, n1: nat, n: nat)
    requires AtChunk(i, n) && i < n && 0 < n1 <= 3 * BSIZE && size <= MAXFILE * BSIZE
    requires if off > size then i == 0 else off + i <= MAXFILE * BSIZE < off + i + n1
    ensures i == WholeChunks(off, size)
  {
  }

  lemma WriteDoneSize(sb: Super, s0: Store, o0: Owner, s1: Store, o1: Owner, i: nat, off: nat, src: seq<Byte>)
    requires WriteDone(sb, s0, o0, s1, o1, i, off, src)
    ensures FsInv(sb, s1, o1) && |s1| == sb.size && sb.Valid() && i < sb.ninodes
    ensures off + |src| <= Table(sb, s1)[i].size && (Table(sb, s1)[i].typ != 0 || Table(sb, s1)[i].size == 0)
  {
    hide Ownership, InStore, Table;
    assert |Content(s1, Table(sb, s1)[i])| == |Patched(Content(s0, Table(sb, s0)[i]), off, src)|;
    assert InodeOk(s1, Table(sb, s1)[i]);
  }

  /** Two consecutive writes are one write of the concatenation. */
  lemma WriteDoneTwice(sb: Super, s0: Store, o0: Owner, s1: Store, o1: Owner, s2: Store, o2: Owner, i: nat, off: nat, a: seq<Byte>, b: seq<Byte>)
    requires WriteDone(sb, s0, o0, s1, o1, i, off, a) && WriteDone(sb, s1, o1, s2, o2, i, off + |a|, b)
    ensures WriteDone(sb, s0, o0, s2, o2, i, off, a + b)
  {
    hide FsInv, InStore, Content, Patched;
    FsInvParts(sb, s0, o0);
    FsInvParts(sb, s1, o1);
    FsInvParts(sb, s2, o2);
    ExactInode(sb, s0, o0, i);
    ExactInode(sb, s1, o1, i);
    ExactInode(sb, s2, o2, i);
    PatchedAgain(Content(s0, Table(sb, s0)[i]), off, a, b);
    forall j | 0 <= j < sb.ninodes && j != i ensures SameFile(sb, s0, s2, j) {
      assert SameFile(sb, s0, s1, j) && SameFile(sb, s1, s2, j);
    }
  }

  lemma ReplacedTwice(sb: Super, s0: Store, o0: Owner, s1: Store, s2: Store, o1: Owner, i: nat, d: Dinode)
    requires i < sb.ninodes && exists d1 :: InodeReplaced(sb, s0, o0, s1, o1, i, d1)
    requires InodeReplaced(sb, s1, o1, s2, o1, i, d)
    ensures InodeReplaced(sb, s0, o0, s2, o1, i, d)
  {
    hide FsInv, InStore, Content;
    FsInvParts(sb, s0, o0);
    FsInvParts(sb, s1, o1);
    FsInvParts(sb, s2, o1);
    forall j | 0 <= j < sb.ninodes && j != i ensures SameFile(sb, s0, s2, j) {
      assert SameFile(sb, s0, s1, j) && SameFile(sb, s1, s2, j);
    }
  }

  lemma SlotTop(store: Store, d: Dinode, k: nat)
    requires DinodeOk(d) && k <= NDIRECT
    ensures Slot(store, d, k) == d.addrs[k] && RankSlot(if k < NDIRECT then k else NSLOTS - 1) == k
  {
  }

  lemma SlotEntry(store: Store, d: Dinode, j: nat)
    requires DinodeOk(d) && j < NINDIRECT && 0 < d.addrs[NDIRECT] < |store|
    ensures Slot(store, d, RankSlot(NDIRECT + j)) == store[d.addrs[NDIRECT]][j]
  {
  }

  /** Without an indirect block there is nothing left to free. */
  lemma {:induction false} NoEntries(sb: Super, s0: Store, tab: seq<Dinode>, owner: Owner, store: Store, i: nat, r: nat)
    requires Freeing(sb, s0, tab, owner, store, i, r) && NDIRECT <= r && DinodeOk(tab[i]) && tab[i].addrs[NDIRECT] == 0
    ensures Freeing(sb, s0, tab, owner, store, i, NSLOTS)
    decreases NSLOTS - r
  {
    if r < NSLOTS {
      FreeStep(sb, s0, tab, owner, store, i, r);
      NoEntries(sb, s0, tab, owner, store, i, r + 1);
    }
  }

  lemma NoneFreed(sb: Super, s0: Store, d: Dinode)
    requires sb.Valid() && |s0| == sb.size && DinodeOk(d)
    ensures FreedSlots(sb, s0, d, 0) == s0
  {
  }

  lemma OneFreed(sb: Super, s0: Store, d: Dinode, r: nat)
    requires sb.Valid() && |s0| == sb.size && DinodeOk(d) && r < NSLOTS
    ensures var s := FreedSlots(sb, s0, d, r);
            var b := Slot(s, d, RankSlot(r));
            FreedSlots(sb, s0, d, r + 1) == if 0 < b < sb.size then Marked(sb, s, b, false) else s
  {
  }

  lemma {:induction false} NoEntriesFreed(sb: Super, s0: Store, d: Dinode, r: nat)
    requires sb.Valid() && |s0| == sb.size && DinodeOk(d) && d.addrs[NDIRECT] == 0 && NDIRECT <= r <= NSLOTS
    ensures FreedSlots(sb, s0, d, NSLOTS) == FreedSlots(sb, s0, d, r)
    decreases NSLOTS - r
  {
    if r < NSLOTS {
      OneFreed(sb, s0, d, r);
      NoEntriesFreed(sb, s0, d, r + 1);
    }
  }

  lemma NothingWritten(sb: Super, s0: Node, off: nat)
    ensures Writes(sb, s0, s0, off, [])
  {
  }

  lemma WrotePerforms(sb: Super, s0: Node, t: Node, i: nat, off: nat, src: seq<Byte>)
    requires sb.Valid() && |s0.store| == sb.size && i < sb.ninodes && s0.d == Table(sb, s0.store)[i] && s0.d.typ != 0
    requires off <= s0.d.size && off + |src| <= MAXFILE * BSIZE && Writes(sb, s0, t, off, src)
    requires |t.store| == sb.size && DinodeOk(t.d)
    ensures Performs(sb, s0.store, Write(i, off, src),
                     if off + |src| > s0.d.size then Updated(sb, t.store, i, t.d.(size := off + |src|)) else t.store)
  {
    hide Writes, Updated, Table;
  }

  datatype WriteResult = Error | Full | Wrote(n: nat)

  lemma ExactInode(sb: Super, store: Store, owner: Owner, i: nat)
    requires FsInv(sb, store, owner) && i < sb.ninodes
    ensures Exact(store, Table(sb, store)[i]) && Ownership(sb, store, Table(sb, store), owner)
  {
    assert InodeOk(store, Table(sb, store)[i]);
  }

  lemma SliceJoin(c: seq<Byte>, a: nat, b: nat, e: nat)
    requires a <= b <= e <= |c|
    ensures c[a..b] + c[b..e] == c[a..e]
  {
  }

  /** Reading inside the file never meets a hole and copies from one block. */
  lemma ReadStep(store: Store, d: Dinode, o: nat, m: nat)
    requires InStore(store, d) && Exact(store, d) && 0 < m && o + m <= d.size && o % BSIZE + m <= BSIZE
    ensures o / BSIZE < MAXFILE && 0 != Addr(store, d, o / BSIZE) < |store|
    ensures Content(store, d)[o..o + m] == BytesOf(store[Addr(store, d, o / BSIZE)])[o % BSIZE..o % BSIZE + m]
  {
    assert o / BSIZE < BlocksFor(d.size);
    ReadChunk(store, d, d.size, o, m);
  }

  lemma LoggedThen(l0: set<nat>, l1: set<nat>, l2: set<nat>, b: set<nat>, t: set<nat>, a: set<nat>)
    requires l0 <= l1 <= l0 + b + t && l1 <= l2 <= l1 + b + a + t
    ensures l0 <= l2 <= l0 + b + a + t
  {
  }
}
