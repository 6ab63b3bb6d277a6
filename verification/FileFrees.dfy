/** itrunc: giving back every block of an inode. */
module FileFrees {
  import opened Blocks
  import opened FileLayout
  import opened BlockOwnership
  import opened FileContents
  import opened FileWrites

  /** The order in which itrunc frees slots: direct, indirect entries, the indirect block. */
  ghost function Rank(k: nat): nat {
    if k < NDIRECT then k else if k == NDIRECT then NSLOTS - 1 else k - 1
  }

  ghost function RankSlot(r: nat): nat {
    if r < NDIRECT then r else if r == NSLOTS - 1 then NDIRECT else r + 1
  }

  /** The owned blocks that remain once the first r slots of inode i are freed. */
  ghost function Live(owner: Owner, i: nat, r: nat): set<nat> {
    set b | b in owner && (owner[b].0 != i || owner[b].1 >= NSLOTS || Rank(owner[b].1) >= r)
  }

  /** itrunc in progress: bits cleared for r slots, no other block changed. */
  ghost predicate Freeing(sb: Super, s0: Store, tab: seq<Dinode>, owner: Owner, store: Store, i: nat, r: nat) {
    && Ownership(sb, s0, tab, owner) && i < |tab| && r <= NSLOTS
    && BitsAre(sb, store, Live(owner, i, r))
    && OutsideBitmap(sb, s0, store)
  }

  ghost predicate OutsideBitmap(sb: Super, s0: Store, store: Store) {
    |store| == |s0| && forall x :: 0 <= x < |s0| && !(sb.bmapstart <= x < sb.datastart) ==> store[x] == s0[x]
  }

  lemma FreeingStarts(sb: Super, s0: Store, tab: seq<Dinode>, owner: Owner, i: nat)
    requires Ownership(sb, s0, tab, owner) && i < |tab|
    ensures Freeing(sb, s0, tab, owner, s0, i, 0)
  {
    assert Live(owner, i, 0) == owner.Keys;
  }

  /** The next slot of the order: nothing to free, or a block whose bit is set. */
  lemma FreeStep(sb: Super, s0: Store, tab: seq<Dinode>, owner: Owner, store: Store, i: nat, r: nat)
    requires Freeing(sb, s0, tab, owner, store, i, r) && r < NSLOTS
    ensures DinodeOk(tab[i])
    ensures var b := Slot(s0, tab[i], RankSlot(r));
            if b == 0 then Freeing(sb, s0, tab, owner, store, i, r + 1)
            else b < sb.size && Used(sb, store, b) && Freeing(sb, s0, tab, owner, Marked(sb, store, b, false), i, r + 1)
  {
    hide SlotsOwned, OwnersReal;
    var k := RankSlot(r);
    var b := Slot(s0, tab[i], k);
    LiveStep(sb, s0, tab, owner, i, r);
    if b != 0 {
      BBlockRange(sb, b);
      MarkFree(sb, store, b, Live(owner, i, r));
    }
  }

  lemma LiveStep(sb: Super, s0: Store, tab: seq<Dinode>, owner: Owner, i: nat, r: nat)
    requires Ownership(sb, s0, tab, owner) && i < |tab| && r < NSLOTS
    ensures DinodeOk(tab[i])
    ensures var b := Slot(s0, tab[i], RankSlot(r));
            if b == 0 then Live(owner, i, r + 1) == Live(owner, i, r)
            else sb.datastart <= b < sb.size && b in Live(owner, i, r) && Live(owner, i, r + 1) == Live(owner, i, r) - {b}
  {
    hide BitsAre;
    var k := RankSlot(r);
    var b := Slot(s0, tab[i], k);
    forall x | x in owner && owner[x].0 == i && owner[x].1 < NSLOTS && Rank(owner[x].1) == r
      ensures x == b && b != 0 {
      assert owner[x].1 == k;
    }
  }

  ghost function Disowned(owner: Owner, i: nat): Owner {
    map b | b in owner && owner[b].0 != i :: owner[b]
  }

  ghost predicate NoBlocks(d: Dinode) {
    DinodeOk(d) && d.size == 0 && forall k :: 0 <= k <= NDIRECT ==> d.addrs[k] == 0
  }

  lemma DisownedKeys(sb: Super, s0: Store, tab: seq<Dinode>, owner: Owner, i: nat)
    requires OwnersReal(sb, s0, tab, owner)
    ensures Disowned(owner, i).Keys == Live(owner, i, NSLOTS)
  {
    forall b | b in owner ensures owner[b].1 < NSLOTS && Rank(owner[b].1) < NSLOTS { }
  }

  /** All slots freed and the emptied inode in place: ownership holds without inode i. */
  lemma FreedKeeps(sb: Super, s0: Store, tab: seq<Dinode>, owner: Owner, store: Store, i: nat, d: Dinode)
    requires Freeing(sb, s0, tab, owner, store, i, NSLOTS) && NoBlocks(d)
    ensures Ownership(sb, store, tab[i := d], Disowned(owner, i))
    ensures OthersKept(s0, owner, store, Disowned(owner, i), i)
  {
    hide BitsAre, Live;
    var tab', o := tab[i := d], Disowned(owner, i);
    DisownedKeys(sb, s0, tab, owner, i);
    assert OwnedSame(s0, store, owner);
    forall m, k | 0 <= m < |tab| && 0 <= k < NSLOTS
      ensures DinodeOk(tab'[m]) && Slot(store, tab'[m], k) == if m == i then 0 else Slot(s0, tab[m], k) {
      if m != i {
        assert DinodeOk(tab[m]);
        SlotFrame(sb, s0, store, tab, owner, m, k);
      }
    }
  }

  lemma NoBlocksExact(store: Store, d: Dinode)
    requires NoBlocks(d) && |store| > 0
    ensures Exact(store, d) && InStore(store, d) && InodeOk(store, d)
  {
    forall bn | 0 <= bn < MAXFILE ensures Addr(store, d, bn) == 0 { }
  }

  /** A step that replaces inode i by d and leaves all other files alone. */
  ghost predicate InodeReplaced(sb: Super, store0: Store, owner0: Owner, store: Store, owner: Owner, i: nat, d: Dinode) {
    && FsInv(sb, store0, owner0) && FsInv(sb, store, owner) && i < sb.ninodes && Table(sb, store)[i] == d
    && forall j :: 0 <= j < sb.ninodes && j != i ==> SameFile(sb, store0, store, j)
  }

  /** iupdate of an inode without blocks: after itrunc, in ialloc, and when iput frees it. */
  lemma EmptyInodeWritten(sb: Super, s0: Store, owner0: Owner, store: Store, owner: Owner, i: nat, d: Dinode)
    requires FsInv(sb, s0, owner0) && i < sb.ninodes && |store| == sb.size && NoBlocks(d)
    requires Ownership(sb, store, Table(sb, store)[i := d], owner) && Table(sb, store) == Table(sb, s0)
    requires OthersKept(s0, owner0, store, owner, i)
    ensures InodeReplaced(sb, s0, owner0, Updated(sb, store, i, d), owner, i, d)
  {
    hide Ownership, OthersKept, Extent, InStore, Content, Table, Updated;
    UpdatedKeeps(sb, store, owner, i, d);
    var s := Updated(sb, store, i, d);
    UpdatedOthers(s0, owner0, store, s, owner, i);
    OthersSame(sb, s0, owner0, s, owner, i);
    NoBlocksExact(s, d);
  }

  /** Marking blocks free touches the bitmap only. */
  lemma FreedTable(sb: Super, s0: Store, store: Store)
    requires sb.Valid() && |s0| == sb.size && OutsideBitmap(sb, s0, store)
    ensures Table(sb, store) == Table(sb, s0)
  {
    TableFrame(sb, s0, store);
  }

  /** itrunc as a whole: all slots freed, the inode emptied and written. */
  lemma Truncated(sb: Super, s0: Store, owner: Owner, store: Store, i: nat, d: Dinode)
    requires FsInv(sb, s0, owner) && i < sb.ninodes && NoBlocks(d)
    requires Freeing(sb, s0, Table(sb, s0), owner, store, i, NSLOTS)
    ensures |store| == sb.size
    ensures InodeReplaced(sb, s0, owner, Updated(sb, store, i, d), Disowned(owner, i), i, d)
  {
    hide Ownership, OthersKept, Extent, Disowned, Table, Updated, FsInv, InodeReplaced, Live, BitsAre;
    FsInvParts(sb, s0, owner);
    FreedKeeps(sb, s0, Table(sb, s0), owner, store, i, d);
    FreedTable(sb, s0, store);
    EmptyInodeWritten(sb, s0, owner, store, Disowned(owner, i), i, d);
  }

  lemma FsInvParts(sb: Super, store: Store, owner: Owner)
    requires FsInv(sb, store, owner)
    ensures sb.Valid() && |store| == sb.size && Ownership(sb, store, Table(sb, store), owner)
  {
  }

  /** The table block is untouched while its entries are freed. */
  lemma FreeingReads(sb: Super, s0: Store, tab: seq<Dinode>, owner: Owner, store: Store, i: nat, r: nat)
    requires Freeing(sb, s0, tab, owner, store, i, r)
    ensures DinodeOk(tab[i]) && |store| == |s0| == sb.size
    ensures var a := tab[i].addrs[NDIRECT];
            a != 0 ==> a < |store| && store[a] == s0[a]
  {
    hide BitsAre;
    if tab[i].addrs[NDIRECT] != 0 { IndirectOwned(sb, s0, tab, owner, i); }
  }

  /** An inode of size 0 owns nothing, so replacing it by another empty one changes no owner. */
  lemma ReplaceEmpty(sb: Super, store: Store, owner: Owner, i: nat, d: Dinode)
    requires FsInv(sb, store, owner) && i < sb.ninodes && Table(sb, store)[i].size == 0 && NoBlocks(d)
    ensures InodeReplaced(sb, store, owner, Updated(sb, store, i, d), owner, i, d)
  {
    hide OthersKept, Content, Updated, InodeReplaced, BitsAre, Table;
    var tab := Table(sb, store);
    assert InodeOk(store, tab[i]);
    forall k | 0 <= k < NSLOTS ensures Slot(store, tab[i], k) == Slot(store, d, k) == 0 { ExtentZero(store, tab[i], k); ExtentZero(store, d, k); }
    assert Ownership(sb, store, tab[i := d], owner) by { SameSlots(sb, store, tab, owner, i, d); }
    assert OthersKept(store, owner, store, owner, i) by { OthersKeptSame(store, owner, i); }
    EmptyInodeWritten(sb, store, owner, store, owner, i, d);
  }

  lemma OthersKeptSame(store: Store, owner: Owner, i: nat)
    ensures OthersKept(store, owner, store, owner, i)
  {
  }

  lemma ExtentZero(store: Store, d: Dinode, k: nat)
    requires k < NSLOTS && (Extent(store, d, 0) || NoBlocks(d))
    ensures Slot(store, d, k) == 0
  {
    if k < NDIRECT { assert Addr(store, d, k) == d.addrs[k]; }
  }

  lemma SameSlots(sb: Super, store: Store, tab: seq<Dinode>, owner: Owner, i: nat, d: Dinode)
    requires Ownership(sb, store, tab, owner) && i < |tab| && DinodeOk(tab[i]) && DinodeOk(d)
    requires forall k :: 0 <= k < NSLOTS ==> Slot(store, tab[i], k) == Slot(store, d, k)
    ensures Ownership(sb, store, tab[i := d], owner)
  {
    hide BitsAre;
  }

  const EMPTY_ADDRS: seq<Word> := [0, 0, 0, 0, 0, 0, 0, 0, 0, 0, 0, 0, 0]
}
