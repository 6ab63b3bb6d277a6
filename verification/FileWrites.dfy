/** What the loop of writei keeps, from its first chunk to the final iupdate. */
module FileWrites {
  import opened Blocks
  import opened FileLayout
  import opened BlockOwnership
  import opened FileContents

  /** writei on inode i has written the bytes done at off: s0 at the start, s now. */
  ghost predicate Writing(sb: Super, s0: Node, owner0: Owner, s: Node, owner: Owner, i: nat, off: nat, done: seq<Byte>) {
    && WritingShape(sb, s0, s, i, off, done)
    && Ownership(sb, s.store, Table(sb, s0.store)[i := s.d], owner)
    && Table(sb, s.store) == Table(sb, s0.store)
    && OthersKept(s0.store, owner0, s.store, owner, i)
    && var n := Max(s0.d.size, off + |done|);
       && Extent(s.store, s.d, BlocksFor(n))
       && Image(s.store, s.d, n) == Patched(Content(s0.store, s0.d), off, done)
  }

  ghost predicate WritingShape(sb: Super, s0: Node, s: Node, i: nat, off: nat, done: seq<Byte>) {
    && sb.Valid() && |s0.store| == |s.store| == sb.size && i < sb.ninodes
    && DinodeOk(s0.d) && DinodeOk(s.d) && s.d == s0.d.(addrs := s.d.addrs)
    && InStore(s0.store, s0.d) && InStore(s.store, s.d)
    && off <= s0.d.size <= MAXFILE * BSIZE && off + |done| <= MAXFILE * BSIZE
    && (off + |done| <= s0.d.size ==> s.d == s0.d)
  }

  /** A successful writei: the file holds src over its old bytes at off, no other file
      changed, and the invariants hold for the inode table on disk. */
  ghost predicate WriteDone(sb: Super, store0: Store, owner0: Owner, store: Store, owner: Owner, i: nat, off: nat, src: seq<Byte>) {
    && FsInv(sb, store0, owner0) && FsInv(sb, store, owner) && i < sb.ninodes
    && InStore(store0, Table(sb, store0)[i]) && InStore(store, Table(sb, store)[i])
    && off <= Table(sb, store0)[i].size
    && Content(store, Table(sb, store)[i]) == Patched(Content(store0, Table(sb, store0)[i]), off, src)
    && forall j :: 0 <= j < sb.ninodes && j != i ==> SameFile(sb, store0, store, j)
  }

  ghost predicate SameFile(sb: Super, store0: Store, store: Store, j: nat)
    requires sb.Valid() && |store0| == |store| == sb.size && j < sb.ninodes
  {
    var d := Table(sb, store0)[j];
    && Table(sb, store)[j] == d && d.size <= MAXFILE * BSIZE
    && InStore(store0, d) && InStore(store, d) && Content(store, d) == Content(store0, d)
  }

  lemma InodeReady(sb: Super, store: Store, tab: seq<Dinode>, owner: Owner, i: nat)
    requires Ownership(sb, store, tab, owner) && i < |tab|
    ensures var d := tab[i];
            DinodeOk(d) && InStore(store, d) && Used(sb, store, 0) && d.addrs[NDIRECT] < sb.size
  {
    OwnedInStore(sb, store, tab, owner, i);
    if tab[i].addrs[NDIRECT] != 0 { IndirectOwned(sb, store, tab, owner, i); }
  }

  lemma WritingReady(sb: Super, s0: Node, owner0: Owner, s: Node, owner: Owner, i: nat, off: nat, done: seq<Byte>)
    requires Writing(sb, s0, owner0, s, owner, i, off, done)
    ensures DinodeOk(s.d) && Used(sb, s.store, 0) && s.d.addrs[NDIRECT] < sb.size
    ensures s.d.size == s0.d.size && off <= s0.d.size
  {
    hide Ownership, OthersKept, Extent;
    var tab := Table(sb, s0.store)[i := s.d];
    assert tab[i] == s.d;
    InodeReady(sb, s.store, tab, owner, i);
  }

  lemma ContentIsImage(store: Store, d: Dinode)
    requires d.size <= MAXFILE * BSIZE && InStore(store, d)
    ensures Content(store, d) == Image(store, d, d.size)
  {
  }

  lemma WritingStart(sb: Super, s: Node, owner: Owner, i: nat, off: nat)
    requires FsInv(sb, s.store, owner) && i < sb.ninodes && s.d == Table(sb, s.store)[i] && off <= s.d.size
    ensures Writing(sb, s, owner, s, owner, i, off, [])
  {
    hide Ownership, Extent;
    InodeReady(sb, s.store, Table(sb, s.store), owner, i);
    ContentIsImage(s.store, s.d);
    PatchedNothing(Content(s.store, s.d), off);
    assert Table(sb, s.store)[i := s.d] == Table(sb, s.store);
    assert InodeOk(s.store, Table(sb, s.store)[i]);
  }

  /** u is t.store after the copy of piece at o. */
  ghost predicate Copied(t: Node, u: Store, o: nat, piece: seq<Byte>) {
    && DinodeOk(t.d) && o / BSIZE < MAXFILE && o % BSIZE + |piece| <= BSIZE
    && Addr(t.store, t.d, o / BSIZE) < |t.store| && u == Chunked(t.store, t.d, o, piece)
  }

  /** bmap returned a block of the store: the copy can go ahead. */
  lemma WritingMapped(sb: Super, s0: Node, owner0: Owner, s: Node, t: Node, owner: Owner, i: nat, off: nat, done: seq<Byte>)
    requires Writing(sb, s0, owner0, s, owner, i, off, done) && BmapStep(sb, s, t, (off + |done|) / BSIZE)
    ensures (off + |done|) / BSIZE < MAXFILE && DinodeOk(t.d) && |t.store| == sb.size
    ensures 0 != Addr(t.store, t.d, (off + |done|) / BSIZE) < |t.store|
  {
    hide Ownership, Extent, InStore, Content, Image, Patched, BmapStep;
    var owner' := BmapKeeps(sb, s, t, Table(sb, s0.store), owner, i, (off + |done|) / BSIZE);
  }

  lemma WritingStep(sb: Super, s0: Node, owner0: Owner, s: Node, t: Node, u: Store, owner: Owner, i: nat, off: nat, done: seq<Byte>, piece: seq<Byte>)
    returns (owner': Owner)
    requires Writing(sb, s0, owner0, s, owner, i, off, done)
    requires 0 < |piece| && off + |done| + |piece| <= MAXFILE * BSIZE
    requires BmapStep(sb, s, t, (off + |done|) / BSIZE) && Copied(t, u, off + |done|, piece)
    ensures Writing(sb, s0, owner0, Node(u, t.d), owner', i, off, done + piece)
    ensures StepBlocks(s, t, u, (off + |done|) / BSIZE)
  {
    hide Ownership, Extent, InStore, BmapStep, Chunked, Content, Image, Patched;
    var n, o, tab := Max(s0.d.size, off + |done|), off + |done|, Table(sb, s0.store);
    owner' := WriteStepKeeps(sb, s, t, tab, owner, i, n, o, piece);
    OthersKeptTrans(s0.store, owner0, s.store, owner, u, owner', i);
    PatchedAgain(Content(s0.store, s0.d), off, done, piece);
    BlocksWithin(s0.d.size, o, |piece|);
    assert o + |piece| <= s0.d.size ==> t == s;
  }

  /** One step of writei: the address of block bn may be new, all others stay. */
  ghost predicate StepBlocks(s: Node, t: Node, u: Store, bn: nat) {
    && DinodeOk(s.d) && DinodeOk(t.d) && bn < MAXFILE
    && (forall m :: 0 <= m < MAXFILE ==> Addr(u, t.d, m) == if m == bn then Addr(t.store, t.d, m) else Addr(s.store, s.d, m))
    && (s.d.addrs[NDIRECT] != 0 ==> t.d.addrs[NDIRECT] == s.d.addrs[NDIRECT])
    && (Addr(s.store, s.d, bn) != 0 ==> t == s)
  }

  lemma BlocksWithin(size: nat, o: nat, m: nat)
    requires 0 < m
    ensures o + m <= size ==> o / BSIZE < BlocksFor(size)
  {
  }

  /** The size field is not an address. */
  lemma SizeIsNotAddress(sb: Super, store: Store, tab: seq<Dinode>, owner: Owner, i: nat, d: Dinode, size: Word)
    requires i < |tab| && DinodeOk(d) && Ownership(sb, store, tab[i := d], owner)
    ensures Ownership(sb, store, tab[i := d.(size := size)], owner)
  {
    var a, b := tab[i := d], tab[i := d.(size := size)];
    assert forall j :: 0 <= j < |tab| ==> a[j].addrs == b[j].addrs;
    forall j, k | 0 <= j < |tab| && 0 <= k < NSLOTS ensures DinodeOk(b[j]) && Slot(store, b[j], k) == Slot(store, a[j], k) {
      assert DinodeOk(a[j]);
    }
  }

  /** Files other than inode i, carried over an operation on i. */
  lemma OthersSame(sb: Super, store0: Store, owner0: Owner, store: Store, owner: Owner, i: nat)
    requires FsInv(sb, store0, owner0) && |store| == sb.size && OthersKept(store0, owner0, store, owner, i)
    requires i < sb.ninodes && Table(sb, store)[..i] == Table(sb, store0)[..i] && Table(sb, store)[i + 1..] == Table(sb, store0)[i + 1..]
    ensures forall j :: 0 <= j < sb.ninodes && j != i ==> SameFile(sb, store0, store, j) && InodeOk(store, Table(sb, store)[j])
  {
    hide Ownership, Extent, InStore, Content;
    var t0, t := Table(sb, store0), Table(sb, store);
    forall j | 0 <= j < sb.ninodes && j != i ensures SameFile(sb, store0, store, j) && InodeOk(store, t[j]) {
      assert t[j] == t0[j] by {
        if j < i { assert t[..i][j] == t0[..i][j]; } else { assert t[i + 1..][j - i - 1] == t0[i + 1..][j - i - 1]; }
      }
      assert InodeOk(store0, t0[j]);
      OtherFile(sb, store0, owner0, store, owner, t0, i, j);
    }
  }

  /** The write stayed inside the file: the inode on disk is already right. */
  lemma WritingEnds(sb: Super, s0: Node, owner0: Owner, s: Node, owner: Owner, i: nat, off: nat, src: seq<Byte>)
    requires FsInv(sb, s0.store, owner0) && i < sb.ninodes && s0.d == Table(sb, s0.store)[i] && s0.d.typ != 0
    requires Writing(sb, s0, owner0, s, owner, i, off, src) && off + |src| <= s0.d.size
    ensures WriteDone(sb, s0.store, owner0, s.store, owner, i, off, src) && s.d == Table(sb, s.store)[i]
  {
    hide Ownership, Extent, InStore, Content, Image, Patched;
    OthersSame(sb, s0.store, owner0, s.store, owner, i);
    ContentIsImage(s.store, s.d);
    assert Table(sb, s0.store)[i := s.d] == Table(sb, s.store);
    assert InodeOk(s.store, s.d);
  }

  /** The file grew: size set and iupdate done. */
  lemma WritingGrows(sb: Super, s0: Node, owner0: Owner, s: Node, owner: Owner, i: nat, off: nat, src: seq<Byte>)
    requires FsInv(sb, s0.store, owner0) && i < sb.ninodes && s0.d == Table(sb, s0.store)[i] && s0.d.typ != 0
    requires Writing(sb, s0, owner0, s, owner, i, off, src) && off + |src| > s0.d.size
    ensures var d := s.d.(size := off + |src|);
            var store := Updated(sb, s.store, i, d);
            WriteDone(sb, s0.store, owner0, store, owner, i, off, src) && d == Table(sb, store)[i]
  {
    hide Ownership, Extent, InStore, Content, Image, Patched, OthersKept, Updated, Table;
    var size: Word := off + |src|;
    var d := s.d.(size := size);
    SizeIsNotAddress(sb, s.store, Table(sb, s0.store), owner, i, s.d, size);
    UpdatedKeeps(sb, s.store, owner, i, d);
    var store := Updated(sb, s.store, i, d);
    UpdatedOthers(s0.store, owner0, s.store, store, owner, i);
    OthersSame(sb, s0.store, owner0, store, owner, i);
    UpdatedFile(sb, s.store, store, Table(sb, store), owner, i, s.d, d);
  }

  lemma UpdatedOthers(s0: Store, o0: Owner, s1: Store, s2: Store, o1: Owner, i: nat)
    requires OthersKept(s0, o0, s1, o1, i) && |s2| == |s1| && forall x :: x in o1 && x < |s1| ==> s2[x] == s1[x]
    ensures OthersKept(s0, o0, s2, o1, i)
  {
  }

  /** Only the inode block and the size changed: the bytes are the image of the new size. */
  lemma UpdatedFile(sb: Super, s1: Store, store: Store, tab: seq<Dinode>, owner: Owner, i: nat, d1: Dinode, d: Dinode)
    requires Ownership(sb, store, tab, owner) && i < |tab| && tab[i] == d && DinodeOk(d1) && d == d1.(size := d.size)
    requires |s1| == |store| && (forall x :: x in owner && x < |store| ==> store[x] == s1[x])
    requires InStore(s1, d1) && d.size <= MAXFILE * BSIZE && Extent(s1, d1, BlocksFor(d.size))
    ensures InStore(store, d) && Exact(store, d) && Content(store, d) == Image(s1, d1, d.size)
  {
    InodeReady(sb, store, tab, owner, i);
    OwnedInStore(sb, store, tab, owner, i);
    if d.addrs[NDIRECT] != 0 { IndirectOwned(sb, store, tab, owner, i); }
    forall k | 0 <= k < NSLOTS ensures Slot(store, d, k) == Slot(s1, d1, k) {
    }
    assert Extent(store, d, BlocksFor(d.size)) by {
      forall bn | 0 <= bn < MAXFILE ensures Addr(store, d, bn) == Addr(s1, d1, bn) { }
    }
    forall x | 0 <= x < d.size ensures ByteAt(store, d, x) == ByteAt(s1, d1, x) {
      assert x / BSIZE < BlocksFor(d.size);
    }
  }

  // ----- which blocks writei logs -----

  ghost predicate IsBitmap(sb: Super, x: nat) {
    sb.bmapstart <= x < sb.datastart
  }

  ghost function Bitmap(sb: Super): set<nat> {
    set x | sb.bmapstart <= x < sb.datastart && IsBitmap(sb, x)
  }

  ghost function TableBlock(d: Dinode): set<nat>
    requires DinodeOk(d)
  {
    if d.addrs[NDIRECT] == 0 then {} else {d.addrs[NDIRECT]}
  }

  /** The addresses of blocks lo .. hi - 1 of the file. */
  ghost function DataBlocks(store: Store, d: Dinode, lo: nat, hi: nat): (r: set<nat>)
    requires DinodeOk(d) && hi <= MAXFILE
    ensures |r| <= if lo < hi then hi - lo else 0
    ensures forall bn :: lo <= bn < hi ==> Addr(store, d, bn) in r
    decreases hi
  {
    if lo < hi then DataBlocks(store, d, lo, hi - 1) + {Addr(store, d, hi - 1)} else {}
  }

  lemma {:induction false} DataBlocksMember(store: Store, d: Dinode, lo: nat, hi: nat, x: nat)
    requires DinodeOk(d) && hi <= MAXFILE && x in DataBlocks(store, d, lo, hi)
    ensures exists bn :: lo <= bn < hi && Addr(store, d, bn) == x
    decreases hi
  {
    if x != Addr(store, d, hi - 1) { DataBlocksMember(store, d, lo, hi - 1, x); }
  }

  lemma DataBlocksGrow(s: Node, u: Store, d: Dinode, lo: nat, bn: nat, hi: nat, a: Word)
    requires DinodeOk(s.d) && DinodeOk(d) && hi <= bn + 1 && lo <= bn < MAXFILE
    requires forall m :: 0 <= m < MAXFILE ==> Addr(u, d, m) == if m == bn then a else Addr(s.store, s.d, m)
    requires hi == bn + 1 ==> Addr(s.store, s.d, bn) == a
    ensures DataBlocks(s.store, s.d, lo, hi) <= DataBlocks(u, d, lo, bn + 1) && a in DataBlocks(u, d, lo, bn + 1)
  {
    forall x | x in DataBlocks(s.store, s.d, lo, hi) ensures x in DataBlocks(u, d, lo, bn + 1) {
      DataBlocksMember(s.store, s.d, lo, hi, x);
      var m :| lo <= m < hi && Addr(s.store, s.d, m) == x;
      assert Addr(u, d, m) == x;
    }
  }

  /** Logged so far: earlier blocks, bitmap, indirect block, and data blocks lo .. hi - 1. */
  ghost predicate LoggedOnly(sb: Super, l0: set<nat>, l: set<nat>, store: Store, d: Dinode, lo: nat, hi: nat) {
    DinodeOk(d) && hi <= MAXFILE && l <= l0 + Bitmap(sb) + TableBlock(d) + DataBlocks(store, d, lo, hi)
  }

  lemma LoggedStep(sb: Super, l0: set<nat>, l1: set<nat>, l2: set<nat>, s: Node, t: Node, u: Store, lo: nat, hi: nat, bn: nat)
    requires LoggedOnly(sb, l0, l1, s.store, s.d, lo, hi) && StepBlocks(s, t, u, bn)
    requires hi <= bn + 1 && lo <= bn && (hi == bn + 1 ==> Addr(s.store, s.d, bn) != 0)
    requires l2 <= l1 + Bitmap(sb) + {Addr(t.store, t.d, bn)} + TableBlock(t.d)
    ensures LoggedOnly(sb, l0, l2, u, t.d, lo, bn + 1)
  {
    hide DataBlocks, Bitmap;
    DataBlocksGrow(s, u, t.d, lo, bn, hi, Addr(t.store, t.d, bn));
  }

  /** Data blocks lo .. hi - 1 of the file are logged. */
  ghost predicate LoggedAll(l: set<nat>, store: Store, d: Dinode, lo: nat, hi: nat) {
    DinodeOk(d) && hi <= MAXFILE && forall bn :: lo <= bn < hi ==> Addr(store, d, bn) in l
  }

  lemma LoggedAllStep(l1: set<nat>, l2: set<nat>, s: Node, t: Node, u: Store, lo: nat, hi: nat, bn: nat)
    requires LoggedAll(l1, s.store, s.d, lo, hi) && StepBlocks(s, t, u, bn) && bn <= hi <= bn + 1
    requires l1 <= l2 && Addr(t.store, t.d, bn) in l2
    ensures LoggedAll(l2, u, t.d, lo, bn + 1)
  {
    hide Addr;
  }

  // ----- what changes is logged -----

  /** From s0 to s1, with l0 logged before and l1 after: every block that changed is logged. */
  ghost predicate Recorded(s0: Store, s1: Store, l0: set<nat>, l1: set<nat>) {
    |s0| == |s1| && l0 <= l1 && forall b :: 0 <= b < |s1| && s1[b] != s0[b] ==> b in l1
  }

  lemma RecordedSame(s: Store, l: set<nat>)
    ensures Recorded(s, s, l, l)
  {
  }

  lemma RecordedThen(s0: Store, s1: Store, s2: Store, l0: set<nat>, l1: set<nat>, l2: set<nat>)
    requires Recorded(s0, s1, l0, l1) && Recorded(s1, s2, l1, l2)
    ensures Recorded(s0, s2, l0, l2)
  {
    forall b | 0 <= b < |s2| && s2[b] != s0[b] ensures b in l2 {
      assert s1[b] != s0[b] || s2[b] != s1[b];
    }
  }

  lemma RecordedOne(s: Store, b: nat, v: Block, l: set<nat>)
    requires b < |s|
    ensures Recorded(s, s[b := v], l, l + {b})
  {
  }

  /** The log after some rounds of writei that have reached block hi: every changed block and
      every data block from lo on is in it, and nothing else but the bitmap and the block of addresses. */
  ghost predicate LogState(sb: Super, s0: Store, l0: set<nat>, s: Node, l: set<nat>, lo: nat, hi: nat) {
    LoggedOnly(sb, l0, l, s.store, s.d, lo, hi) && LoggedAll(l, s.store, s.d, lo, hi) && Recorded(s0, s.store, l0, l)
  }

  lemma LogRound(sb: Super, s0: Store, l0: set<nat>, s: Node, l: set<nat>, t: Node, l1: set<nat>, b: nat, v: Block, lo: nat, hi: nat, bn: nat)
    requires LogState(sb, s0, l0, s, l, lo, hi) && lo <= bn == hi && b < |t.store|
    requires StepBlocks(s, t, t.store[b := v], bn) && Addr(t.store, t.d, bn) == b
    requires Recorded(s.store, t.store, l, l1) && l1 <= l + Bitmap(sb) + {b} + TableBlock(t.d)
    ensures LogState(sb, s0, l0, Node(t.store[b := v], t.d), l1 + {b}, lo, bn + 1)
  {
    hide LoggedOnly, LoggedAll, StepBlocks, Bitmap, TableBlock, Addr;
    var u := t.store[b := v];
    RecordedThen(s0, s.store, t.store, l0, l, l1);
    RecordedOne(t.store, b, v, l1);
    RecordedThen(s0, t.store, u, l0, l1, l1 + {b});
    LoggedAllStep(l, l1 + {b}, s, t, u, lo, hi, bn);
    LoggedStep(sb, l0, l, l1 + {b}, s, t, u, lo, hi, bn);
  }

  lemma LogStateParts(sb: Super, s0: Store, l0: set<nat>, s: Node, l: set<nat>, lo: nat, hi: nat)
    requires LogState(sb, s0, l0, s, l, lo, hi)
    ensures LoggedOnly(sb, l0, l, s.store, s.d, lo, hi) && LoggedAll(l, s.store, s.d, lo, hi) && Recorded(s0, s.store, l0, l)
  {
  }

  lemma LogStateRecorded(sb: Super, s0: Store, l0: set<nat>, s: Node, l: set<nat>, lo: nat, hi: nat, store: Store, l1: set<nat>)
    requires LogState(sb, s0, l0, s, l, lo, hi) && Recorded(s.store, store, l, l1)
    ensures Recorded(s0, store, l0, l1)
  {
    hide LoggedOnly, LoggedAll;
    RecordedThen(s0, s.store, store, l0, l, l1);
  }

  /** Every block one call of writei may log. */
  ghost function Touched(sb: Super, store: Store, d: Dinode, off: nat, n: nat, iblock: nat): set<nat>
    requires DinodeOk(d) && off + n <= MAXFILE * BSIZE
  {
    Bitmap(sb) + TableBlock(d) + DataBlocks(store, d, off / BSIZE, BlocksFor(off + n)) + {iblock}
  }

  /** A chunk of filewrite: at most four blocks of data, one bitmap block, the indirect
      block and the inode block, so it fits MAXOPBLOCKS with room to spare. */
  lemma ChunkFitsTransaction(sb: Super, store: Store, d: Dinode, off: nat, n: nat, iblock: nat)
    requires sb.Valid() && sb.size < BPB && n <= 3 * BSIZE && off + n <= MAXFILE * BSIZE && DinodeOk(d)
    ensures |Touched(sb, store, d, off, n, iblock)| <= 7
  {
    var data := DataBlocks(store, d, off / BSIZE, BlocksFor(off + n));
    assert Bitmap(sb) == {sb.bmapstart};
    CardUnion({sb.bmapstart}, TableBlock(d));
    CardUnion({sb.bmapstart} + TableBlock(d), data);
    CardUnion({sb.bmapstart} + TableBlock(d) + data, {iblock});
  }

  lemma CardUnion(a: set<nat>, b: set<nat>)
    ensures |a + b| <= |a| + |b|
  {
    assert a + b == a + (b - a);
    assert |a + (b - a)| == |a| + |b - a|;
  }

  lemma NothingLogged(sb: Super, l: set<nat>, store: Store, d: Dinode, lo: nat)
    requires DinodeOk(d) && lo <= MAXFILE
    ensures LogState(sb, store, l, Node(store, d), l, lo, lo)
  {
  }

  lemma LoggedTouched(sb: Super, l0: set<nat>, l: set<nat>, store: Store, d: Dinode, off: nat, n: nat, hi: nat, iblock: nat)
    requires LoggedOnly(sb, l0, l, store, d, off / BSIZE, hi) && off + n <= MAXFILE * BSIZE
    requires hi == BlocksFor(off + n) || hi == off / BSIZE
    ensures l <= l0 + Touched(sb, store, d, off, n, iblock) && iblock in Touched(sb, store, d, off, n, iblock)
  {
  }
}
