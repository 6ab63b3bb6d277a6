/** The operations of fs.c on the blocks, as the sequences of block changes the code makes.
    None of them mentions an invariant; that each keeps the invariants is proved here. */
module FileOperations {
  import opened Blocks
  import opened FileLayout
  import opened BlockOwnership
  import opened FileContents
  import opened FileWrites
  import opened FileFrees

  // ----- writei -----

  /** Where the last round of the write loop starts, for n bytes at off. */
  ghost function LastStart(off: nat, n: nat): (p: nat)
    requires n > 0
    ensures p < n && (off + p) % BSIZE + (n - p) <= BSIZE
  {
    var b := (off + n - 1) / BSIZE * BSIZE;
    if b <= off then 0 else b - off
  }

  /** One round of the write loop: bmap takes s to m, then the bytes are copied into the block. */
  ghost predicate Round(sb: Super, s: Node, m: Node, t: Node, o: nat, piece: seq<Byte>) {
    && sb.Valid() && |s.store| == sb.size && DinodeOk(s.d)
    && BmapStep(sb, s, m, o / BSIZE) && Copied(m, t.store, o, piece) && t.d == m.d
  }

  /** The write loop, round after round. */
  ghost predicate Writes(sb: Super, s0: Node, t: Node, off: nat, src: seq<Byte>)
    decreases |src|, 1
  {
    if src == [] then t == s0 else exists s: Node, m: Node :: WritesThrough(sb, s0, s, m, t, off, src)
  }

  /** All rounds but the last lead to s; the last goes through m to t. */
  ghost predicate WritesThrough(sb: Super, s0: Node, s: Node, m: Node, t: Node, off: nat, src: seq<Byte>)
    requires src != []
    decreases |src|, 0
  {
    var p := LastStart(off, |src|);
    Writes(sb, s0, s, off, src[..p]) && Round(sb, s, m, t, off + p, src[p..])
  }

  lemma WritesMore(sb: Super, s0: Node, s: Node, m: Node, t: Node, off: nat, done: seq<Byte>, piece: seq<Byte>)
    requires Writes(sb, s0, s, off, done) && Round(sb, s, m, t, off + |done|, piece)
    requires piece != [] && LastStart(off, |done| + |piece|) == |done|
    ensures Writes(sb, s0, t, off, done + piece)
  {
    hide Round;
    var src := done + piece;
    assert src[..|done|] == done && src[|done|..] == piece;
    assert WritesThrough(sb, s0, s, m, t, off, src);
  }

  /** Between two rounds of the write loop: tot of the n bytes are written, up to file block hi. */
  ghost predicate RoundAt(off: nat, tot: nat, n: nat, hi: nat) {
    && tot <= n && hi == (if tot == 0 then off / BSIZE else BlocksFor(off + tot))
    && (tot < n ==> hi == (off + tot) / BSIZE && (tot == 0 || (off + tot) % BSIZE == 0))
  }

  lemma RoundFirst(off: nat, n: nat)
    ensures RoundAt(off, 0, n, off / BSIZE)
  {
  }

  lemma RoundLast(off: nat, n: nat, hi: nat)
    requires RoundAt(off, n, n, hi)
    ensures hi == if n == 0 then off / BSIZE else BlocksFor(off + n)
  {
  }

  /** A round fills its block or ends the write, so the next one starts where LastStart says. */
  lemma RoundNext(off: nat, tot: nat, n: nat, hi: nat, m: nat)
    requires RoundAt(off, tot, n, hi) && tot < n
    requires m == if n - tot < BSIZE - (off + tot) % BSIZE then n - tot else BSIZE - (off + tot) % BSIZE
    ensures 0 < m <= n - tot && (off + tot) % BSIZE + m <= BSIZE && LastStart(off, tot + m) == tot
    ensures off / BSIZE <= hi == (off + tot) / BSIZE && RoundAt(off, tot + m, n, hi + 1)
  {
    var o := off + tot;
    assert (o + m - 1) / BSIZE == o / BSIZE;
  }

  /** One round of the write loop, from s through the mapped state t to the store with the copy. */
  lemma RoundDone(sb: Super, s0: Node, owner0: Owner, s: Node, t: Node, u: Store, owner: Owner, i: nat, off: nat, src: seq<Byte>, tot: nat, m: nat)
    returns (owner': Owner)
    requires 0 < m && tot + m <= |src| && off + |src| <= MAXFILE * BSIZE && LastStart(off, tot + m) == tot
    requires Writing(sb, s0, owner0, s, owner, i, off, src[..tot]) && Writes(sb, s0, s, off, src[..tot])
    requires Round(sb, s, t, Node(u, t.d), off + tot, src[tot..tot + m])
    ensures Writing(sb, s0, owner0, Node(u, t.d), owner', i, off, src[..tot + m])
    ensures Writes(sb, s0, Node(u, t.d), off, src[..tot + m]) && StepBlocks(s, t, u, (off + tot) / BSIZE)
  {
    hide Writing, Writes, StepBlocks, LastStart, BmapStep, Copied;
    assert src[..tot] + src[tot..tot + m] == src[..tot + m];
    owner' := WritingStep(sb, s0, owner0, s, t, u, owner, i, off, src[..tot], src[tot..tot + m]);
    WritesMore(sb, s0, s, t, Node(u, t.d), off, src[..tot], src[tot..tot + m]);
  }

  lemma {:induction false} WritesWriting(sb: Super, s0: Node, owner0: Owner, t: Node, i: nat, off: nat, src: seq<Byte>)
    returns (owner: Owner)
    requires FsInv(sb, s0.store, owner0) && i < sb.ninodes && s0.d == Table(sb, s0.store)[i] && off <= s0.d.size
    requires off + |src| <= MAXFILE * BSIZE && Writes(sb, s0, t, off, src)
    ensures Writing(sb, s0, owner0, t, owner, i, off, src)
    decreases |src|
  {
    hide FsInv, Writing, BmapStep, Copied, LastStart, Table;
    if src == [] {
      WritingStart(sb, s0, owner0, i, off);
      owner := owner0;
    } else {
      var p := LastStart(off, |src|);
      var s: Node, m: Node :| WritesThrough(sb, s0, s, m, t, off, src);
      var o1 := WritesWriting(sb, s0, owner0, s, i, off, src[..p]);
      owner := WritingStep(sb, s0, owner0, s, m, t.store, o1, i, off, src[..p], src[p..]);
      assert src[..p] + src[p..] == src;
      assert t == Node(t.store, m.d);
    }
  }

  // ----- itrunc -----

  /** The store after itrunc has freed the first r slots of inode d, in its order. */
  ghost function FreedSlots(sb: Super, s0: Store, d: Dinode, r: nat): (s: Store)
    requires sb.Valid() && |s0| == sb.size && DinodeOk(d) && r <= NSLOTS
    ensures |s| == sb.size
  {
    if r == 0 then s0
    else
      var s := FreedSlots(sb, s0, d, r - 1);
      var b := Slot(s, d, RankSlot(r - 1));
      if 0 < b < sb.size then Marked(sb, s, b, false) else s
  }

  lemma {:induction false} FreedSlotsFreeing(sb: Super, s0: Store, owner: Owner, i: nat, r: nat)
    requires FsInv(sb, s0, owner) && i < sb.ninodes && r <= NSLOTS
    ensures Freeing(sb, s0, Table(sb, s0), owner, FreedSlots(sb, s0, Table(sb, s0)[i], r), i, r)
  {
    hide FsInv, Freeing, Slot, Marked, Table, Used;
    FsInvParts(sb, s0, owner);
    var tab := Table(sb, s0);
    if r == 0 {
      FreeingStarts(sb, s0, tab, owner, i);
    } else {
      FreedSlotsFreeing(sb, s0, owner, i, r - 1);
      var s := FreedSlots(sb, s0, tab[i], r - 1);
      FreeStep(sb, s0, tab, owner, s, i, r - 1);
      FreeingSlot(sb, s0, tab, owner, s, i, r - 1);
    }
  }

  /** Freeing blocks does not change the slots still to be read. */
  lemma FreeingSlot(sb: Super, s0: Store, tab: seq<Dinode>, owner: Owner, store: Store, i: nat, r: nat)
    requires Freeing(sb, s0, tab, owner, store, i, r) && r < NSLOTS
    ensures DinodeOk(tab[i]) && Slot(store, tab[i], RankSlot(r)) == Slot(s0, tab[i], RankSlot(r))
  {
    hide BitsAre;
    FreeingReads(sb, s0, tab, owner, store, i, r);
  }

  ghost function Emptied(d: Dinode): Dinode {
    d.(size := 0, addrs := EMPTY_ADDRS)
  }

  ghost function Truncation(sb: Super, s: Store, i: nat): (r: Store)
    requires sb.Valid() && |s| == sb.size && i < sb.ninodes
    ensures |r| == sb.size
  {
    var d := Table(sb, s)[i];
    Updated(sb, FreedSlots(sb, s, d, NSLOTS), i, Emptied(d))
  }

  // ----- the operations -----

  datatype Operation =
    | Write(i: nat, off: nat, src: seq<Byte>)                       // writei
    | Truncate(i: nat)                                              // itrunc
    | Allocate(i: nat, typ: Half)                                   // ialloc
    | Release(i: nat)                                               // the last iput
    | Describe(i: nat, major: Half, minor: Half, nlink: Half)       // iupdate of the other fields

  /** What each operation does to the blocks. */
  ghost predicate Performs(sb: Super, a: Store, op: Operation, b: Store) {
    && sb.Valid() && |a| == |b| == sb.size && op.i < sb.ninodes
    && var d := Table(sb, a)[op.i];
       match op
       case Write(i, off, src) => d.typ != 0 && off <= d.size && WroteTo(sb, a, b, i, off, src)
       case Truncate(i) => d.typ != 0 && b == Truncation(sb, a, i)
       case Allocate(i, typ) => d.typ == 0 && b == Updated(sb, a, i, Dinode(typ, 0, 0, 0, 0, EMPTY_ADDRS))
       case Release(i) => d.typ != 0 && b == Updated(sb, Truncation(sb, a, i), i, Emptied(d).(typ := 0))
       case Describe(i, major, minor, nlink) =>
         d.typ != 0 && b == Updated(sb, a, i, d.(major := major, minor := minor, nlink := nlink))
  }

  /** The loop of writei, then iupdate when the file grew. */
  ghost predicate WroteTo(sb: Super, a: Store, b: Store, i: nat, off: nat, src: seq<Byte>)
    requires sb.Valid() && |a| == sb.size && i < sb.ninodes
  {
    var d := Table(sb, a)[i];
    && off + |src| <= MAXFILE * BSIZE
    && exists t: Node :: Writes(sb, Node(a, d), t, off, src) && b == Flushed(sb, t, i, d, off + |src|)
  }

  ghost function Flushed(sb: Super, t: Node, i: nat, d: Dinode, end: nat): Store
    requires sb.Valid() && i < sb.ninodes && end <= MAXFILE * BSIZE
  {
    if end > d.size && |t.store| == sb.size && DinodeOk(t.d) then Updated(sb, t.store, i, t.d.(size := end)) else t.store
  }

  // ----- each keeps the invariants -----

  lemma WriteKeeps(sb: Super, a: Store, owner: Owner, i: nat, off: nat, src: seq<Byte>, b: Store) returns (owner': Owner)
    requires FsInv(sb, a, owner) && Performs(sb, a, Write(i, off, src), b)
    ensures WriteDone(sb, a, owner, b, owner', i, off, src)
  {
    hide FsInv, Writing, Writes, WriteDone, Table;
    var d := Table(sb, a)[i];
    var s0 := Node(a, d);
    var t: Node :| Writes(sb, s0, t, off, src) && b == Flushed(sb, t, i, d, off + |src|);
    owner' := WritesWriting(sb, s0, owner, t, i, off, src);
    WritingNode(sb, s0, owner, t, owner', i, off, src);
    if off + |src| > d.size {
      WritingGrows(sb, s0, owner, t, owner', i, off, src);
    } else {
      WritingEnds(sb, s0, owner, t, owner', i, off, src);
    }
  }

  lemma WritingNode(sb: Super, s0: Node, owner0: Owner, t: Node, owner: Owner, i: nat, off: nat, src: seq<Byte>)
    requires Writing(sb, s0, owner0, t, owner, i, off, src)
    ensures |t.store| == sb.size && DinodeOk(t.d)
  {
    hide Ownership, OthersKept, Extent, InStore;
  }

  lemma TruncateKeeps(sb: Super, a: Store, owner: Owner, i: nat)
    requires FsInv(sb, a, owner) && i < sb.ninodes
    ensures InodeReplaced(sb, a, owner, Truncation(sb, a, i), Disowned(owner, i), i, Emptied(Table(sb, a)[i]))
  {
    hide FsInv, Freeing, FreedSlots, Table, InodeReplaced, Disowned;
    FsInvParts(sb, a, owner);
    FreedSlotsFreeing(sb, a, owner, i, NSLOTS);
    var d := Table(sb, a)[i];
    Truncated(sb, a, owner, FreedSlots(sb, a, d, NSLOTS), i, Emptied(d));
  }

  /** The fields that hold no address and no size are free to change. */
  lemma DescribeKeeps(sb: Super, a: Store, owner: Owner, i: nat, d: Dinode)
    requires FsInv(sb, a, owner) && i < sb.ninodes
    requires d == Table(sb, a)[i].(major := d.major, minor := d.minor, nlink := d.nlink)
    ensures InodeReplaced(sb, a, owner, Updated(sb, a, i, d), owner, i, d)
  {
    hide Ownership, OthersKept, InStore, Content, Updated, Table, Slot, Exact;
    var tab := Table(sb, a);
    var d0 := tab[i];
    assert InodeOk(a, d0);
    SameAddresses(sb, a, tab, owner, i, d);
    OthersKeptSame(a, owner, i);
    UpdatedKeeps(sb, a, owner, i, d);
    var b := Updated(sb, a, i, d);
    UpdatedOthers(a, owner, a, b, owner, i);
    OthersSame(sb, a, owner, b, owner, i);
    DescribeExact(sb, a, b, Table(sb, b), owner, i, d0, d);
  }

  lemma SameAddresses(sb: Super, store: Store, tab: seq<Dinode>, owner: Owner, i: nat, d: Dinode)
    requires Ownership(sb, store, tab, owner) && i < |tab| && DinodeOk(tab[i]) && d.addrs == tab[i].addrs
    ensures Ownership(sb, store, tab[i := d], owner)
  {
    forall k | 0 <= k < NSLOTS ensures Slot(store, tab[i], k) == Slot(store, d, k) { }
    hide Slot, Ownership;
    SameSlots(sb, store, tab, owner, i, d);
  }

  lemma DescribeExact(sb: Super, a: Store, b: Store, tab': seq<Dinode>, owner: Owner, i: nat, d0: Dinode, d: Dinode)
    requires Ownership(sb, b, tab', owner) && |a| == |b| && (forall x :: x in owner && x < |a| ==> b[x] == a[x])
    requires i < |tab'| && tab'[i] == d && DinodeOk(d0) && DinodeOk(d) && d.addrs == d0.addrs && d.size == d0.size && d.typ == d0.typ
    requires InodeOk(a, d0)
    ensures InodeOk(b, d)
  {
    if d.addrs[NDIRECT] != 0 { IndirectOwned(sb, b, tab', owner, i); }
    forall k | 0 <= k < NSLOTS ensures Slot(b, d, k) == Slot(a, d0, k) { }
    hide Ownership, Slot;
    ExtentCopy(a, b, d0, d, BlocksFor(d.size));
  }

  lemma ExtentCopy(a: Store, b: Store, d0: Dinode, d: Dinode, n: nat)
    requires Extent(a, d0, n) && DinodeOk(d) && d.addrs == d0.addrs
    requires forall k :: 0 <= k < NSLOTS ==> Slot(b, d, k) == Slot(a, d0, k)
    ensures Extent(b, d, n)
  {
    hide Slot;
    forall bn | 0 <= bn < MAXFILE ensures Addr(b, d, bn) == Addr(a, d0, bn) { }
  }

  /** Every operation takes a file system that satisfies the invariants to one that does. */
  lemma OperationKeeps(sb: Super, a: Store, owner: Owner, op: Operation, b: Store) returns (owner': Owner)
    requires FsInv(sb, a, owner) && Performs(sb, a, op, b)
    ensures FsInv(sb, b, owner')
  {
    hide FsInv, SameFile, Table, Updated, Truncation, WroteTo, Disowned, Content, Patched, InStore;
    match op
    case Write(i, off, src) => owner' := WriteKeeps(sb, a, owner, i, off, src, b);
    case Truncate(i) =>
      owner' := Disowned(owner, i);
      TruncateKeeps(sb, a, owner, i);
    case Allocate(i, typ) =>
      owner' := owner;
      FreeIsEmpty(sb, a, owner, i);
      ReplaceEmpty(sb, a, owner, i, Dinode(typ, 0, 0, 0, 0, EMPTY_ADDRS));
    case Release(i) =>
      owner' := Disowned(owner, i);
      TruncateKeeps(sb, a, owner, i);
      ReplaceEmpty(sb, Truncation(sb, a, i), owner', i, Emptied(Table(sb, a)[i]).(typ := 0));
    case Describe(i, major, minor, nlink) =>
      owner' := owner;
      DescribeKeeps(sb, a, owner, i, Table(sb, a)[i].(major := major, minor := minor, nlink := nlink));
  }

  lemma FreeIsEmpty(sb: Super, store: Store, owner: Owner, i: nat)
    requires FsInv(sb, store, owner) && i < sb.ninodes && Table(sb, store)[i].typ == 0
    ensures Table(sb, store)[i].size == 0
  {
    assert InodeOk(store, Table(sb, store)[i]);
  }
}
