/** The on-disk layout of fs.c: free bitmap, inode table, direct and indirect block
    addresses, and what they mean: who owns each block and what bytes a file holds. */
module FileLayout {
  import opened Blocks
  import opened Basics

  const NDIRECT := 12
  const NINDIRECT := 128
  const MAXFILE := 140
  const NSLOTS := 141   // 12 direct, the indirect block, 128 indirect
  const IPB := 8
  const BPB := 4096

  type Store = seq<Block>

  // ----- bits of a word -----

  function Bit(x: nat, k: nat): bool {
    if k == 0 then x % 2 == 1 else Bit(x / 2, k - 1)
  }

  function SetBit(x: nat, k: nat): nat {
    if k == 0 then x - x % 2 + 1 else 2 * SetBit(x / 2, k - 1) + x % 2
  }

  function ClearBit(x: nat, k: nat): nat {
    if k == 0 then x - x % 2 else 2 * ClearBit(x / 2, k - 1) + x % 2
  }

  lemma {:induction false} SetBitMeans(x: nat, k: nat, j: nat)
    ensures Bit(SetBit(x, k), j) == (j == k || Bit(x, j))
    decreases k
  {
    if k > 0 {
      if j > 0 { SetBitMeans(x / 2, k - 1, j - 1); }
      assert SetBit(x, k) / 2 == SetBit(x / 2, k - 1) && SetBit(x, k) % 2 == x % 2;
    } else if j > 0 {
      assert SetBit(x, 0) / 2 == x / 2;
    }
  }

  lemma {:induction false} ClearBitMeans(x: nat, k: nat, j: nat)
    ensures Bit(ClearBit(x, k), j) == (j != k && Bit(x, j))
    decreases k
  {
    if k > 0 {
      if j > 0 { ClearBitMeans(x / 2, k - 1, j - 1); }
      assert ClearBit(x, k) / 2 == ClearBit(x / 2, k - 1) && ClearBit(x, k) % 2 == x % 2;
    } else if j > 0 {
      assert ClearBit(x, 0) / 2 == x / 2;
    }
  }

  lemma {:induction false} BitBound(x: nat, k: nat, n: nat)
    requires x < Pow2(n) && k < n
    ensures SetBit(x, k) < Pow2(n) && ClearBit(x, k) < Pow2(n)
    decreases k
  {
    if k > 0 { BitBound(x / 2, k - 1, n - 1); }
  }

  lemma WordBits(x: Word, k: nat)
    requires k < 32
    ensures SetBit(x, k) < 0x1_0000_0000 && ClearBit(x, k) < 0x1_0000_0000
  {
    var n: nat := 0;
    Pow2Plus8(n);
    Pow2Plus8(n + 8);
    Pow2Plus8(n + 16);
    Pow2Plus8(n + 24);
    BitBound(x, k, n + 32);
  }

  // ----- the superblock and the bitmap -----

  datatype Super = Super(size: nat, ninodes: nat, inodestart: nat, bmapstart: nat, datastart: nat) {
    ghost predicate Valid() {
      && 2 <= inodestart && 1 < ninodes && size < 0x1_0000_0000
      && inodestart + ninodes / IPB < bmapstart
      && bmapstart + size / BPB + 1 == datastart <= size
    }
  }

  function IBlock(sb: Super, i: nat): nat {
    i / IPB + sb.inodestart
  }

  function BBlock(sb: Super, b: nat): nat {
    b / BPB + sb.bmapstart
  }

  /** Bit bi of a bitmap block; bytes are little-endian in words, so it is bit bi%32 of word bi/32. */
  function TestBit(blk: Block, bi: nat): bool
    requires bi < BPB
  {
    Bit(blk[bi / 32], bi % 32)
  }

  /** data[bi/8] |= m when v, data[bi/8] &= ~m otherwise. */
  function PutBit(blk: Block, bi: nat, v: bool): Block
    requires bi < BPB
  {
    WordBits(blk[bi / 32], bi % 32);
    blk[bi / 32 := if v then SetBit(blk[bi / 32], bi % 32) else ClearBit(blk[bi / 32], bi % 32)]
  }

  lemma PutBitMeans(blk: Block, bi: nat, v: bool, j: nat)
    requires bi < BPB && j < BPB
    ensures TestBit(PutBit(blk, bi, v), j) == if j == bi then v else TestBit(blk, j)
  {
    WordBits(blk[bi / 32], bi % 32);
    SetBitMeans(blk[bi / 32], bi % 32, j % 32);
    ClearBitMeans(blk[bi / 32], bi % 32, j % 32);
    if j / 32 == bi / 32 { assert j == bi <==> j % 32 == bi % 32; }
  }

  ghost predicate Used(sb: Super, store: Store, b: nat)
    requires sb.Valid() && |store| == sb.size && b < sb.size
  {
    TestBit(store[BBlock(sb, b)], b % BPB)
  }

  // ----- inodes -----

  type Half = x: int | 0 <= x < 0x1_0000

  /** struct dinode, with its 16-bit fields as unsigned halves of words. */
  datatype Dinode = Dinode(typ: Half, major: Half, minor: Half, nlink: Half, size: Word, addrs: seq<Word>)

  ghost predicate DinodeOk(d: Dinode) {
    |d.addrs| == NDIRECT + 1
  }

  function ReadDinode(blk: Block, k: nat): (r: Dinode)
    requires k < IPB
    ensures DinodeOk(r)
  {
    var o := 16 * k;
    Dinode(blk[o] % 0x1_0000, blk[o] / 0x1_0000, blk[o + 1] % 0x1_0000, blk[o + 1] / 0x1_0000, blk[o + 2], blk[o + 3..o + 16])
  }

  function DinodeWords(d: Dinode): (r: seq<Word>)
    requires |d.addrs| == NDIRECT + 1
    ensures |r| == 16
  {
    [d.typ + 0x1_0000 * d.major, d.minor + 0x1_0000 * d.nlink, d.size] + d.addrs
  }

  /** The inode block after iupdate has copied the fields of slot k. */
  function PutDinode(blk: Block, k: nat, d: Dinode): (r: Block)
    requires k < IPB && DinodeOk(d)
  {
    blk[..16 * k] + DinodeWords(d) + blk[16 * k + 16..]
  }

  /** A dinode in terms of its own 16 words. */
  lemma DinodeOfWords(blk: Block, k: nat, x: seq<Word>)
    requires k < IPB && x == blk[16 * k..16 * k + 16]
    ensures ReadDinode(blk, k) ==
            Dinode(x[0] % 0x1_0000, x[0] / 0x1_0000, x[1] % 0x1_0000, x[1] / 0x1_0000, x[2], x[3..])
  {
    assert x[0] == blk[16 * k];
    assert x[1] == blk[16 * k + 1];
    assert x[2] == blk[16 * k + 2];
    assert x[3..] == blk[16 * k + 3..16 * k + 16];
  }

  lemma ReadsWritten(blk: Block, k: nat, d: Dinode)
    requires k < IPB && DinodeOk(d) && blk[16 * k..16 * k + 16] == DinodeWords(d)
    ensures ReadDinode(blk, k) == d
  {
    var x := DinodeWords(d);
    DinodeOfWords(blk, k, x);
    assert x[3..] == d.addrs;
  }

  /** iupdate followed by ilock gives the inode back, and touches no other inode. */
  lemma PutDinodeReads(blk: Block, k: nat, d: Dinode, j: nat)
    requires k < IPB && j < IPB && DinodeOk(d)
    ensures ReadDinode(PutDinode(blk, k, d), j) == if j == k then d else ReadDinode(blk, j)
  {
    var r := PutDinode(blk, k, d);
    if j == k {
      assert r[16 * k..16 * k + 16] == DinodeWords(d);
      ReadsWritten(r, k, d);
    } else {
      assert r[16 * j..16 * j + 16] == blk[16 * j..16 * j + 16];
      DinodeOfWords(r, j, blk[16 * j..16 * j + 16]);
      DinodeOfWords(blk, j, blk[16 * j..16 * j + 16]);
    }
  }

  /** The inode table on disk. */
  ghost function Table(sb: Super, store: Store): (r: seq<Dinode>)
    requires sb.Valid() && |store| == sb.size
    ensures |r| == sb.ninodes && forall i :: 0 <= i < sb.ninodes ==> DinodeOk(r[i])
  {
    seq(sb.ninodes, i requires 0 <= i < sb.ninodes => ReadDinode(store[IBlock(sb, i)], i % IPB))
  }

  // ----- block addresses -----

  /** Address slot k of an inode: direct, the indirect block, then its entries. */
  ghost function Slot(store: Store, d: Dinode, k: nat): Word
    requires k < NSLOTS && DinodeOk(d)
  {
    if k <= NDIRECT then d.addrs[k]
    else if 0 < d.addrs[NDIRECT] < |store| then store[d.addrs[NDIRECT]][k - NDIRECT - 1]
    else 0
  }

  /** The slot that holds the address of block bn of the file. */
  ghost function DataSlot(bn: nat): nat {
    if bn < NDIRECT then bn else bn + 1
  }

  ghost function Addr(store: Store, d: Dinode, bn: nat): Word
    requires bn < MAXFILE && DinodeOk(d)
  {
    Slot(store, d, DataSlot(bn))
  }

  /** Who owns each allocated data block: an inode and one of its slots. */
  type Owner = map<nat, (nat, nat)>

  ghost predicate SlotsOwned(sb: Super, store: Store, tab: seq<Dinode>, owner: Owner) {
    forall i, k :: 0 <= i < |tab| && 0 <= k < NSLOTS && DinodeOk(tab[i]) && Slot(store, tab[i], k) != 0 ==>
                     Slot(store, tab[i], k) in owner && owner[Slot(store, tab[i], k)] == (i, k)
  }

  ghost predicate OwnersReal(sb: Super, store: Store, tab: seq<Dinode>, owner: Owner) {
    forall b :: b in owner ==>
                  && sb.datastart <= b < sb.size
                  && owner[b].0 < |tab| && owner[b].1 < NSLOTS && DinodeOk(tab[owner[b].0])
                  && Slot(store, tab[owner[b].0], owner[b].1) == b
  }

  ghost predicate BitsAre(sb: Super, store: Store, used: set<nat>) {
    sb.Valid() && |store| == sb.size &&
    forall b :: 0 <= b < sb.size ==> (Used(sb, store, b) <==> b < sb.datastart || b in used)
  }

  /** A block is marked used exactly when it is metadata or is owned by exactly one slot
      of one inode. */
  ghost predicate Ownership(sb: Super, store: Store, tab: seq<Dinode>, owner: Owner) {
    && sb.Valid() && |store| == sb.size && |tab| == sb.ninodes
    && (forall i :: 0 <= i < |tab| ==> DinodeOk(tab[i]))
    && SlotsOwned(sb, store, tab, owner) && OwnersReal(sb, store, tab, owner)
    && BitsAre(sb, store, owner.Keys)
  }

  /** Exactly the first n blocks of the file have an address; no holes, nothing beyond. */
  ghost predicate Extent(store: Store, d: Dinode, n: nat) {
    && DinodeOk(d) && n <= MAXFILE
    && (d.addrs[NDIRECT] != 0 <==> n > NDIRECT)
    && forall bn :: 0 <= bn < MAXFILE ==> (Addr(store, d, bn) != 0 <==> bn < n)
  }

  function BlocksFor(size: nat): nat {
    (size + BSIZE - 1) / BSIZE
  }

  ghost predicate Exact(store: Store, d: Dinode) {
    d.size <= MAXFILE * BSIZE && Extent(store, d, BlocksFor(d.size))
  }

  // ----- contents -----

  ghost function ByteAt(store: Store, d: Dinode, j: nat): Byte
    requires j < MAXFILE * BSIZE && DinodeOk(d) && Addr(store, d, j / BSIZE) < |store|
  {
    BytesOf(store[Addr(store, d, j / BSIZE)])[j % BSIZE]
  }

  ghost predicate InStore(store: Store, d: Dinode) {
    DinodeOk(d) && forall bn :: 0 <= bn < MAXFILE ==> Addr(store, d, bn) < |store|
  }

  /** The bytes of a file. */
  ghost function Content(store: Store, d: Dinode): (r: seq<Byte>)
    requires d.size <= MAXFILE * BSIZE && InStore(store, d)
    ensures |r| == d.size
  {
    seq(d.size, j requires 0 <= j < d.size => ByteAt(store, d, j))
  }
}
