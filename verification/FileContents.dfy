/** File contents under bmap, block writes and inode updates. */
module FileContents {
  import opened Blocks
  import opened FileLayout
  import opened BlockOwnership

  /** The first n bytes of the file, whether or not the size field already counts them. */
  ghost function Image(store: Store, d: Dinode, n: nat): (r: seq<Byte>)
    requires n <= MAXFILE * BSIZE && InStore(store, d)
    ensures |r| == n
  {
    seq(n, j requires 0 <= j < n => ByteAt(store, d, j))
  }

  /** s written over c at off. */
  ghost function Patched(c: seq<Byte>, off: nat, s: seq<Byte>): (r: seq<Byte>)
    requires off <= |c|
  {
    c[..off] + s + if off + |s| < |c| then c[off + |s|..] else []
  }

  lemma OwnedInStore(sb: Super, store: Store, tab: seq<Dinode>, owner: Owner, i: nat)
    requires Ownership(sb, store, tab, owner) && i < |tab| && DinodeOk(tab[i])
    ensures InStore(store, tab[i])
    ensures forall bn :: 0 <= bn < MAXFILE && Addr(store, tab[i], bn) != 0 ==>
                           var a := Addr(store, tab[i], bn);
                           a in owner && owner[a] == (i, DataSlot(bn)) && sb.datastart <= a < sb.size
  {
    forall bn | 0 <= bn < MAXFILE && Addr(store, tab[i], bn) != 0
      ensures var a := Addr(store, tab[i], bn);
              a in owner && owner[a] == (i, DataSlot(bn)) && sb.datastart <= a < sb.size {
      assert Slot(store, tab[i], DataSlot(bn)) != 0;
    }
  }

  // ----- after bmap -----

  lemma MappedExtent(store0: Store, d0: Dinode, owner0: Owner, store: Store, d: Dinode, owner: Owner, i: nat, bn: nat, a: Word, n: nat)
    requires Mapped(store0, d0, owner0, store, d, owner, i, bn, a) && Extent(store0, d0, n) && bn <= n
    ensures Extent(store, d, if bn == n then n + 1 else n)
  {
  }

  /** bmap changes no byte the file already has. */
  lemma MappedImage(sb: Super, store0: Store, d0: Dinode, t: seq<Dinode>, owner0: Owner, store: Store, d: Dinode, owner: Owner, i: nat, bn: nat, a: Word, n: nat)
    requires Mapped(store0, d0, owner0, store, d, owner, i, bn, a) && i < |t|
    requires Ownership(sb, store0, t[i := d0], owner0) && Extent(store0, d0, BlocksFor(n)) && bn <= BlocksFor(n)
    requires InStore(store, d) && n <= MAXFILE * BSIZE
    ensures InStore(store0, d0) && Image(store, d, n) == Image(store0, d0, n)
  {
    var tab := t[i := d0];
    assert tab[i] == d0;
    OwnedInStore(sb, store0, tab, owner0, i);
    forall j | 0 <= j < n ensures ByteAt(store, d, j) == ByteAt(store0, d0, j) {
      var m := j / BSIZE;
      assert m < BlocksFor(n);
      var x := Addr(store0, d0, m);
      assert x in owner0 && owner0[x] != (i, NDIRECT);
      assert Addr(store, d, m) == x;
    }
  }

  // ----- after a write to a data block -----

  /** Writing a data block leaves all addresses and owners alone. */
  lemma DataWriteSlots(sb: Super, store: Store, tab: seq<Dinode>, owner: Owner, a: nat, x: Block, i: nat, k: nat)
    requires Ownership(sb, store, tab, owner) && a in owner && owner[a].1 != NDIRECT && a < |store|
    requires i < |tab| && k < NSLOTS && DinodeOk(tab[i])
    ensures Slot(store[a := x], tab[i], k) == Slot(store, tab[i], k)
  {
    assert Slot(store, tab[i], NDIRECT) == tab[i].addrs[NDIRECT];
  }

  lemma DataWriteKeeps(sb: Super, store: Store, tab: seq<Dinode>, owner: Owner, a: nat, x: Block)
    requires Ownership(sb, store, tab, owner) && a in owner && owner[a].1 != NDIRECT && a < |store|
    ensures Ownership(sb, store[a := x], tab, owner) && Table(sb, store[a := x]) == Table(sb, store)
  {
    var s := store[a := x];
    forall i, k | 0 <= i < |tab| && 0 <= k < NSLOTS ensures Slot(s, tab[i], k) == Slot(store, tab[i], k) {
      DataWriteSlots(sb, store, tab, owner, a, x, i, k);
    }
    BitsFrame(sb, store, s, owner.Keys);
    TableFrame(sb, store, s);
  }

  /** The bytes of the file after its block bn, at address a, was replaced by x. */
  lemma DataWriteByte(sb: Super, store: Store, tab: seq<Dinode>, owner: Owner, i: nat, bn: nat, x: Block, j: nat)
    requires Ownership(sb, store, tab, owner) && i < |tab| && DinodeOk(tab[i]) && bn < MAXFILE && j < MAXFILE * BSIZE
    requires Addr(store, tab[i], bn) != 0 && InStore(store, tab[i]) && InStore(store[Addr(store, tab[i], bn) := x], tab[i])
    ensures ByteAt(store[Addr(store, tab[i], bn) := x], tab[i], j) ==
            if j / BSIZE == bn then BytesOf(x)[j % BSIZE] else ByteAt(store, tab[i], j)
  {
    var a := Addr(store, tab[i], bn);
    OwnedInStore(sb, store, tab, owner, i);
    DataWriteSlots(sb, store, tab, owner, a, x, i, DataSlot(j / BSIZE));
    if Addr(store, tab[i], j / BSIZE) == a { assert DataSlot(j / BSIZE) == DataSlot(bn); }
  }

  /** memmove into a buffer: the bytes of s at o. */
  function Splice(b: Bytes, o: nat, s: seq<Byte>): (r: Bytes)
    requires o + |s| <= BSIZE
    ensures forall k :: 0 <= k < BSIZE ==> r[k] == if o <= k < o + |s| then s[k - o] else b[k]
  {
    b[..o] + s + b[o + |s|..]
  }

  function Overlay(blk: Block, o: nat, s: seq<Byte>): Block
    requires o + |s| <= BSIZE
  {
    FromBytes(Splice(BytesOf(blk), o, s))
  }

  lemma OverlayBytes(blk: Block, o: nat, s: seq<Byte>)
    requires o + |s| <= BSIZE
    ensures BytesOf(Overlay(blk, o, s)) == Splice(BytesOf(blk), o, s)
  {
    BytesOfFromBytes(Splice(BytesOf(blk), o, s));
  }

  // ----- one step of the loops of readi and writei -----

  /** The part of one block that readi copies. */
  lemma ReadChunk(store: Store, d: Dinode, n: nat, off: nat, m: nat)
    requires n <= MAXFILE * BSIZE && InStore(store, d) && off + m <= n && off % BSIZE + m <= BSIZE && 0 < m
    ensures var blk := BytesOf(store[Addr(store, d, off / BSIZE)]);
            Image(store, d, n)[off..off + m] == blk[off % BSIZE..off % BSIZE + m]
  {
    var blk := BytesOf(store[Addr(store, d, off / BSIZE)]);
    var im := Image(store, d, n);
    var a, b := im[off..off + m], blk[off % BSIZE..off % BSIZE + m];
    forall k | 0 <= k < m ensures a[k] == b[k] {
      assert (off + k) / BSIZE == off / BSIZE && (off + k) % BSIZE == off % BSIZE + k;
      assert im[off + k] == ByteAt(store, d, off + k);
    }
  }

  /** The store after writei has copied one chunk s at off into block off / BSIZE. */
  ghost function Chunked(store: Store, d: Dinode, off: nat, s: seq<Byte>): (r: Store)
    requires DinodeOk(d) && off / BSIZE < MAXFILE && off % BSIZE + |s| <= BSIZE
    requires Addr(store, d, off / BSIZE) < |store|
    ensures |r| == |store|
  {
    var a := Addr(store, d, off / BSIZE);
    store[a := Overlay(store[a], off % BSIZE, s)]
  }

  lemma ChunkKeeps(sb: Super, store: Store, tab: seq<Dinode>, owner: Owner, i: nat, off: nat, s: seq<Byte>)
    requires Ownership(sb, store, tab, owner) && i < |tab| && DinodeOk(tab[i]) && InStore(store, tab[i])
    requires off / BSIZE < MAXFILE && off % BSIZE + |s| <= BSIZE && Addr(store, tab[i], off / BSIZE) != 0
    ensures var store' := Chunked(store, tab[i], off, s);
            && Ownership(sb, store', tab, owner) && Table(sb, store') == Table(sb, store) && InStore(store', tab[i])
            && (forall k :: 0 <= k < NSLOTS ==> Slot(store', tab[i], k) == Slot(store, tab[i], k))
            && (forall x :: x in owner && owner[x].0 != i && x < |store| ==> store'[x] == store[x])
  {
    var a := Addr(store, tab[i], off / BSIZE);
    var x := Overlay(store[a], off % BSIZE, s);
    OwnedInStore(sb, store, tab, owner, i);
    DataWriteKeeps(sb, store, tab, owner, a, x);
    OwnedInStore(sb, store[a := x], tab, owner, i);
    forall k | 0 <= k < NSLOTS ensures Slot(store[a := x], tab[i], k) == Slot(store, tab[i], k) {
      DataWriteSlots(sb, store, tab, owner, a, x, i, k);
    }
  }

  lemma ChunkedByte(sb: Super, store: Store, tab: seq<Dinode>, owner: Owner, i: nat, off: nat, s: seq<Byte>, j: nat)
    requires Ownership(sb, store, tab, owner) && i < |tab| && DinodeOk(tab[i]) && InStore(store, tab[i])
    requires off / BSIZE < MAXFILE && off % BSIZE + |s| <= BSIZE && j < MAXFILE * BSIZE
    requires Addr(store, tab[i], off / BSIZE) != 0 && InStore(Chunked(store, tab[i], off, s), tab[i])
    ensures ByteAt(Chunked(store, tab[i], off, s), tab[i], j) ==
            if off <= j < off + |s| then s[j - off] else ByteAt(store, tab[i], j)
  {
    var a := Addr(store, tab[i], off / BSIZE);
    OverlayBytes(store[a], off % BSIZE, s);
    DataWriteByte(sb, store, tab, owner, i, off / BSIZE, Overlay(store[a], off % BSIZE, s), j);
    ChunkByte(BytesOf(store[a]), off, s, j);
  }

  lemma WriteChunk(sb: Super, store: Store, tab: seq<Dinode>, owner: Owner, i: nat, n: nat, off: nat, s: seq<Byte>)
    requires Ownership(sb, store, tab, owner) && i < |tab| && DinodeOk(tab[i]) && InStore(store, tab[i])
    requires off <= n && off / BSIZE < MAXFILE && off % BSIZE + |s| <= BSIZE && n <= MAXFILE * BSIZE && off + |s| <= MAXFILE * BSIZE
    requires Addr(store, tab[i], off / BSIZE) != 0 && InStore(Chunked(store, tab[i], off, s), tab[i])
    ensures Image(Chunked(store, tab[i], off, s), tab[i], if off + |s| < n then n else off + |s|)
            == Patched(Image(store, tab[i], n), off, s)
  {
    var n' := if off + |s| < n then n else off + |s|;
    var im, im' := Image(store, tab[i], n), Image(Chunked(store, tab[i], off, s), tab[i], n');
    forall j | 0 <= j < n' ensures im'[j] == if off <= j < off + |s| then s[j - off] else im[j] {
      ChunkedByte(sb, store, tab, owner, i, off, s, j);
    }
    PatchedIs(im, off, s, im');
  }

  lemma PatchedIs(c: seq<Byte>, off: nat, s: seq<Byte>, r: seq<Byte>)
    requires off <= |c| && |r| == if off + |s| < |c| then |c| else off + |s|
    requires forall j :: 0 <= j < |r| ==> r[j] == if off <= j < off + |s| then s[j - off] else c[j]
    ensures r == Patched(c, off, s)
  {
  }

  lemma ChunkByte(b: Bytes, off: nat, s: seq<Byte>, j: nat)
    requires off % BSIZE + |s| <= BSIZE
    ensures j / BSIZE == off / BSIZE ==>
              Splice(b, off % BSIZE, s)[j % BSIZE] == if off <= j < off + |s| then s[j - off] else b[j % BSIZE]
    ensures off <= j < off + |s| ==> j / BSIZE == off / BSIZE
  {
  }

  // ----- one chunk of writei: bmap, then the copy -----

  /** Blocks of inodes other than i keep their contents and their owner. */
  ghost predicate OthersKept(store0: Store, owner0: Owner, store: Store, owner: Owner, i: nat) {
    && |store| == |store0|
    && forall x :: x in owner0 && owner0[x].0 != i ==>
                     x in owner && owner[x] == owner0[x] && (x < |store| ==> store[x] == store0[x])
  }

  lemma OthersKeptTrans(s0: Store, o0: Owner, s1: Store, o1: Owner, s2: Store, o2: Owner, i: nat)
    requires OthersKept(s0, o0, s1, o1, i) && OthersKept(s1, o1, s2, o2, i)
    ensures OthersKept(s0, o0, s2, o2, i)
  {
  }

  function Max(a: nat, b: nat): nat {
    if a < b then b else a
  }

  lemma ChunkExtent(n: nat, off: nat, m: nat)
    requires off <= n && 0 < m && off % BSIZE + m <= BSIZE
    ensures off / BSIZE <= BlocksFor(n)
    ensures BlocksFor(Max(n, off + m)) == if off / BSIZE == BlocksFor(n) then BlocksFor(n) + 1 else BlocksFor(n)
  {
  }

  lemma WriteStepKeeps(sb: Super, s: Node, t: Node, tab: seq<Dinode>, owner: Owner, i: nat, n: nat, off: nat, piece: seq<Byte>)
    returns (owner': Owner)
    requires i < |tab| && DinodeOk(s.d) && Ownership(sb, s.store, tab[i := s.d], owner) && InStore(s.store, s.d)
    requires Extent(s.store, s.d, BlocksFor(n)) && off <= n <= MAXFILE * BSIZE
    requires 0 < |piece| && off % BSIZE + |piece| <= BSIZE && off + |piece| <= MAXFILE * BSIZE
    requires BmapStep(sb, s, t, off / BSIZE)
    ensures DinodeOk(t.d) && InStore(t.store, t.d) && t.d == s.d.(addrs := t.d.addrs)
    ensures var u := Chunked(t.store, t.d, off, piece);
            && Ownership(sb, u, tab[i := t.d], owner') && Table(sb, u) == Table(sb, s.store)
            && OthersKept(s.store, owner, u, owner', i)
            && InStore(u, t.d) && Extent(u, t.d, BlocksFor(Max(n, off + |piece|)))
            && Image(u, t.d, Max(n, off + |piece|)) == Patched(Image(s.store, s.d, n), off, piece)
    ensures off / BSIZE < BlocksFor(n) ==> t == s && owner' == owner
    ensures 0 != Addr(t.store, t.d, off / BSIZE) < |t.store|
    ensures forall bn :: 0 <= bn < MAXFILE ==>
                           Addr(Chunked(t.store, t.d, off, piece), t.d, bn) ==
                           if bn == off / BSIZE then Addr(t.store, t.d, bn) else Addr(s.store, s.d, bn)
    ensures s.d.addrs[NDIRECT] != 0 ==> t.d.addrs[NDIRECT] == s.d.addrs[NDIRECT]
    ensures Addr(s.store, s.d, off / BSIZE) != 0 ==> t == s
  {
    hide Ownership;
    owner' := BmapKeeps(sb, s, t, tab, owner, i, off / BSIZE);
    var bn, a := off / BSIZE, Addr(t.store, t.d, off / BSIZE);
    assert tab[i := t.d][i] == t.d && tab[i := s.d][i] == s.d;
    ChunkExtent(n, off, |piece|);
    OwnedInStore(sb, t.store, tab[i := t.d], owner', i);
    MappedExtent(s.store, s.d, owner, t.store, t.d, owner', i, bn, a, BlocksFor(n));
    MappedImage(sb, s.store, s.d, tab, owner, t.store, t.d, owner', i, bn, a, n);
    ChunkKeeps(sb, t.store, tab[i := t.d], owner', i, off, piece);
    WriteChunk(sb, t.store, tab[i := t.d], owner', i, n, off, piece);
    var u := Chunked(t.store, t.d, off, piece);
    ExtentFrame(t.store, u, t.d, BlocksFor(Max(n, off + |piece|)));
    OthersKeptChunk(s.store, owner, t.store, u, owner', i);
    forall m | 0 <= m < MAXFILE ensures Addr(u, t.d, m) == if m == bn then a else Addr(s.store, s.d, m) {
      assert Slot(u, t.d, DataSlot(m)) == Slot(t.store, t.d, DataSlot(m));
    }
  }

  lemma ExtentFrame(store: Store, store': Store, d: Dinode, n: nat)
    requires Extent(store, d, n) && forall k :: 0 <= k < NSLOTS ==> Slot(store', d, k) == Slot(store, d, k)
    ensures Extent(store', d, n)
  {
    forall bn | 0 <= bn < MAXFILE ensures Addr(store', d, bn) == Addr(store, d, bn) {
    }
  }

  lemma OthersKeptChunk(s0: Store, o0: Owner, s1: Store, s2: Store, o1: Owner, i: nat)
    requires Kept(s0, o0, s1, o1, i) && |s2| == |s1|
    requires forall x :: x in o1 && o1[x].0 != i && x < |s1| ==> s2[x] == s1[x]
    ensures OthersKept(s0, o0, s2, o1, i)
  {
  }

  // ----- iupdate -----

  /** The store after iupdate of inode i. */
  ghost function Updated(sb: Super, store: Store, i: nat, d: Dinode): (r: Store)
    requires sb.Valid() && |store| == sb.size && i < sb.ninodes && DinodeOk(d)
    ensures |r| == |store|
  {
    IBlockRange(sb, i);
    store[IBlock(sb, i) := PutDinode(store[IBlock(sb, i)], i % IPB, d)]
  }

  lemma UpdatedTable(sb: Super, store: Store, i: nat, d: Dinode)
    requires sb.Valid() && |store| == sb.size && i < sb.ninodes && DinodeOk(d)
    ensures Table(sb, Updated(sb, store, i, d)) == Table(sb, store)[i := d]
  {
    var s := Updated(sb, store, i, d);
    forall j | 0 <= j < sb.ninodes ensures Table(sb, s)[j] == Table(sb, store)[i := d][j] {
      IBlockRange(sb, i);
      IBlockRange(sb, j);
      PutDinodeReads(store[IBlock(sb, i)], i % IPB, d, j % IPB);
      if j / IPB == i / IPB { assert j == i <==> j % IPB == i % IPB; }
    }
  }

  lemma UpdatedKeeps(sb: Super, store: Store, owner: Owner, i: nat, d: Dinode)
    requires sb.Valid() && |store| == sb.size && i < sb.ninodes && DinodeOk(d)
    requires Ownership(sb, store, Table(sb, store)[i := d], owner)
    ensures var s := Updated(sb, store, i, d);
            && Ownership(sb, s, Table(sb, s), owner) && Table(sb, s) == Table(sb, store)[i := d]
            && (forall x :: sb.datastart <= x < sb.size ==> s[x] == store[x])
            && (forall x :: x in owner && x < |store| ==> s[x] == store[x])
  {
    var s := Updated(sb, store, i, d);
    IBlockRange(sb, i);
    UpdatedTable(sb, store, i, d);
    assert OwnedSame(store, s, owner);
    SlotsFrame(sb, store, s, Table(sb, store)[i := d], owner);
    BitsFrame(sb, store, s, owner.Keys);
  }

  // ----- the whole file system between operations -----

  /** Ownership; every file has exactly the blocks its size calls for; free inodes are empty. */
  ghost predicate FsInv(sb: Super, store: Store, owner: Owner) {
    && sb.Valid() && |store| == sb.size && Ownership(sb, store, Table(sb, store), owner)
    && forall i :: 0 <= i < sb.ninodes ==> InodeOk(store, Table(sb, store)[i])
  }

  ghost predicate InodeOk(store: Store, d: Dinode) {
    Exact(store, d) && (d.typ == 0 ==> d.size == 0)
  }

  /** A file untouched by an operation on inode i keeps its blocks and bytes. */
  lemma OtherFile(sb: Super, store0: Store, owner0: Owner, store: Store, owner: Owner, tab0: seq<Dinode>, i: nat, j: nat)
    requires Ownership(sb, store0, tab0, owner0) && j < |tab0| && DinodeOk(tab0[j]) && j != i
    requires OthersKept(store0, owner0, store, owner, i) && Exact(store0, tab0[j])
    ensures InStore(store0, tab0[j]) && InStore(store, tab0[j]) && Exact(store, tab0[j])
    ensures Content(store, tab0[j]) == Content(store0, tab0[j])
  {
    var d := tab0[j];
    OwnedInStore(sb, store0, tab0, owner0, j);
    forall k | 0 <= k < NSLOTS ensures Slot(store, d, k) == Slot(store0, d, k) {
      assert Slot(store0, d, NDIRECT) == d.addrs[NDIRECT];
    }
    ExtentFrame(store0, store, d, BlocksFor(d.size));
    forall x | 0 <= x < d.size ensures ByteAt(store, d, x) == ByteAt(store0, d, x) {
      var a := Addr(store0, d, x / BSIZE);
      assert x / BSIZE < BlocksFor(d.size);
      assert a in owner0 && owner0[a] == (j, DataSlot(x / BSIZE));
    }
  }

  lemma PatchedAgain(c: seq<Byte>, off: nat, s: seq<Byte>, t: seq<Byte>)
    requires off <= |c|
    ensures off + |s| <= |Patched(c, off, s)|
    ensures Patched(Patched(c, off, s), off + |s|, t) == Patched(c, off, s + t)
  {
  }

  lemma PatchedNothing(c: seq<Byte>, off: nat)
    requires off <= |c|
    ensures Patched(c, off, []) == c
  {
  }
}
