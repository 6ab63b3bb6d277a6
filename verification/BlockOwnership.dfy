/** How the steps of balloc, bfree and bmap change block ownership. */
module BlockOwnership {
  import opened Blocks
  import opened FileLayout

  /** All blocks with an owner keep their contents. */
  ghost predicate OwnedSame(store: Store, store': Store, owner: Owner) {
    |store'| == |store| && forall b :: b in owner && b < |store| ==> store'[b] == store[b]
  }

  /** Slots depend on owned blocks only. */
  lemma SlotFrame(sb: Super, store: Store, store': Store, tab: seq<Dinode>, owner: Owner, i: nat, k: nat)
    requires SlotsOwned(sb, store, tab, owner) && OwnedSame(store, store', owner)
    requires i < |tab| && k < NSLOTS && DinodeOk(tab[i])
    ensures Slot(store', tab[i], k) == Slot(store, tab[i], k)
  {
    assert Slot(store, tab[i], NDIRECT) == tab[i].addrs[NDIRECT];
  }

  lemma SlotsFrame(sb: Super, store: Store, store': Store, tab: seq<Dinode>, owner: Owner)
    requires SlotsOwned(sb, store, tab, owner) && OwnersReal(sb, store, tab, owner) && OwnedSame(store, store', owner)
    requires forall i :: 0 <= i < |tab| ==> DinodeOk(tab[i])
    ensures SlotsOwned(sb, store', tab, owner) && OwnersReal(sb, store', tab, owner)
  {
    forall i, k | 0 <= i < |tab| && 0 <= k < NSLOTS ensures Slot(store', tab[i], k) == Slot(store, tab[i], k) {
      SlotFrame(sb, store, store', tab, owner, i, k);
    }
  }

  /** The inode table does not depend on data or bitmap blocks. */
  lemma TableFrame(sb: Super, store: Store, store': Store)
    requires sb.Valid() && |store| == |store'| == sb.size
    requires forall x :: 0 <= x < sb.bmapstart ==> store'[x] == store[x]
    ensures Table(sb, store') == Table(sb, store)
  {
    forall i | 0 <= i < sb.ninodes ensures Table(sb, store')[i] == Table(sb, store)[i] {
      IBlockRange(sb, i);
    }
  }

  lemma IBlockRange(sb: Super, i: nat)
    requires sb.Valid() && i < sb.ninodes
    ensures sb.inodestart <= IBlock(sb, i) < sb.bmapstart
  {
  }

  lemma BBlockRange(sb: Super, b: nat)
    requires sb.Valid() && b < sb.size
    ensures sb.bmapstart <= BBlock(sb, b) < sb.datastart
  {
  }

  // ----- allocating -----

  /** Setting or clearing one bit of the bitmap. */
  ghost function Marked(sb: Super, store: Store, b: nat, v: bool): (r: Store)
    requires sb.Valid() && |store| == sb.size && b < sb.size
    ensures |r| == |store|
  {
    BBlockRange(sb, b);
    store[BBlock(sb, b) := PutBit(store[BBlock(sb, b)], b % BPB, v)]
  }

  lemma MarkedBits(sb: Super, store: Store, b: nat, v: bool, x: nat)
    requires sb.Valid() && |store| == sb.size && b < sb.size && x < sb.size
    ensures Used(sb, Marked(sb, store, b, v), x) == if x == b then v else Used(sb, store, x)
  {
    BBlockRange(sb, b);
    BBlockRange(sb, x);
    PutBitMeans(store[BBlock(sb, b)], b % BPB, v, x % BPB);
    if x / BPB == b / BPB { assert x == b <==> x % BPB == b % BPB; }
  }

  lemma MarkUsed(sb: Super, store: Store, b: nat, used: set<nat>)
    requires BitsAre(sb, store, used) && sb.datastart <= b < sb.size
    ensures BitsAre(sb, Marked(sb, store, b, true), used + {b})
  {
    forall x | 0 <= x < sb.size ensures Used(sb, Marked(sb, store, b, true), x) <==> x < sb.datastart || x in used + {b} {
      MarkedBits(sb, store, b, true, x);
    }
  }

  lemma MarkFree(sb: Super, store: Store, b: nat, used: set<nat>)
    requires BitsAre(sb, store, used) && sb.datastart <= b < sb.size
    ensures BitsAre(sb, Marked(sb, store, b, false), used - {b})
  {
    forall x | 0 <= x < sb.size ensures Used(sb, Marked(sb, store, b, false), x) <==> x < sb.datastart || x in used - {b} {
      MarkedBits(sb, store, b, false, x);
    }
  }

  /** Bits live in the bitmap blocks only. */
  lemma BitsFrame(sb: Super, store: Store, store': Store, used: set<nat>)
    requires BitsAre(sb, store, used) && |store'| == |store|
    requires forall x :: sb.bmapstart <= x < sb.datastart ==> store'[x] == store[x]
    ensures BitsAre(sb, store', used)
  {
    forall x | 0 <= x < sb.size ensures Used(sb, store', x) == Used(sb, store, x) {
      BBlockRange(sb, x);
    }
  }

  /** The store after balloc returned b: marked used and zeroed. */
  ghost function Alloced(sb: Super, store: Store, b: nat): (r: Store)
    requires sb.Valid() && |store| == sb.size && b < sb.size
    ensures |r| == |store|
  {
    Marked(sb, store, b, true)[b := ZERO_BLOCK]
  }

  lemma AllocedKeeps(sb: Super, store: Store, tab: seq<Dinode>, owner: Owner, b: nat)
    requires Ownership(sb, store, tab, owner) && b < sb.size && !Used(sb, store, b)
    ensures sb.datastart <= b && b !in owner
    ensures var s := Alloced(sb, store, b);
            && OwnedSame(store, s, owner) && s[b] == ZERO_BLOCK && Table(sb, s) == Table(sb, store)
            && BitsAre(sb, s, owner.Keys + {b})
            && SlotsOwned(sb, s, tab, owner) && OwnersReal(sb, s, tab, owner)
  {
    var s := Alloced(sb, store, b);
    BBlockRange(sb, b);
    MarkUsed(sb, store, b, owner.Keys);
    BitsFrame(sb, Marked(sb, store, b, true), s, owner.Keys + {b});
    TableFrame(sb, store, s);
    assert OwnedSame(store, s, owner);
    SlotsFrame(sb, store, s, tab, owner);
  }

  /** A fresh zeroed block becomes a direct block or the indirect block of inode i. */
  lemma AssignTop(sb: Super, store: Store, tab: seq<Dinode>, owner: Owner, i: nat, k: nat, b: Word)
    requires sb.Valid() && |store| == sb.size && |tab| == sb.ninodes
    requires forall m :: 0 <= m < |tab| ==> DinodeOk(tab[m])
    requires SlotsOwned(sb, store, tab, owner) && OwnersReal(sb, store, tab, owner)
    requires i < |tab| && DinodeOk(tab[i]) && k <= NDIRECT && tab[i].addrs[k] == 0
    requires sb.datastart <= b < sb.size && b !in owner && store[b] == ZERO_BLOCK
    ensures var tab' := tab[i := tab[i].(addrs := tab[i].addrs[k := b])];
            var owner' := owner[b := (i, k)];
            SlotsOwned(sb, store, tab', owner') && OwnersReal(sb, store, tab', owner')
  {
    var d' := tab[i].(addrs := tab[i].addrs[k := b]);
    var tab' := tab[i := d'];
    forall m | 0 <= m < NSLOTS ensures Slot(store, d', m) == if m == k then b else Slot(store, tab[i], m) {
    }
  }

  /** A fresh block becomes entry j of the indirect block of inode i. */
  lemma AssignEntry(sb: Super, store: Store, tab: seq<Dinode>, owner: Owner, i: nat, j: nat, b: Word)
    requires sb.Valid() && |store| == sb.size && |tab| == sb.ninodes
    requires forall m :: 0 <= m < |tab| ==> DinodeOk(tab[m])
    requires SlotsOwned(sb, store, tab, owner) && OwnersReal(sb, store, tab, owner)
    requires i < |tab| && DinodeOk(tab[i]) && j < NINDIRECT && tab[i].addrs[NDIRECT] != 0 && Slot(store, tab[i], NDIRECT + 1 + j) == 0
    requires sb.datastart <= b < sb.size && b !in owner
    ensures var t := tab[i].addrs[NDIRECT];
            && t < |store| && t in owner && owner[t] == (i, NDIRECT)
            && var store' := store[t := store[t][j := b]];
               var owner' := owner[b := (i, NDIRECT + 1 + j)];
               SlotsOwned(sb, store', tab, owner') && OwnersReal(sb, store', tab, owner')
  {
    var t := tab[i].addrs[NDIRECT];
    assert Slot(store, tab[i], NDIRECT) == t;
    var store' := store[t := store[t][j := b]];
    forall m, k | 0 <= m < |tab| && 0 <= k < NSLOTS
      ensures Slot(store', tab[m], k) == if m == i && k == NDIRECT + 1 + j then b else Slot(store, tab[m], k) {
      assert Slot(store, tab[m], NDIRECT) == tab[m].addrs[NDIRECT];
    }
  }

  /** balloc for a top-level slot of inode i: ownership is kept with one new owner. */
  lemma FillTopKeeps(sb: Super, store: Store, t: seq<Dinode>, d: Dinode, owner: Owner, i: nat, k: nat, b: Word)
    requires i < |t| && DinodeOk(d) && Ownership(sb, store, t[i := d], owner)
    requires k <= NDIRECT && d.addrs[k] == 0 && b < sb.size && !Used(sb, store, b)
    ensures sb.datastart <= b && b !in owner
    ensures var s := Alloced(sb, store, b);
            && OwnedSame(store, s, owner) && s[b] == ZERO_BLOCK && Table(sb, s) == Table(sb, store)
            && Ownership(sb, s, t[i := d.(addrs := d.addrs[k := b])], owner[b := (i, k)])
  {
    AllocedKeeps(sb, store, t[i := d], owner, b);
    var s := Alloced(sb, store, b);
    AssignTop(sb, s, t[i := d], owner, i, k, b);
    assert t[i := d][i := d.(addrs := d.addrs[k := b])] == t[i := d.(addrs := d.addrs[k := b])];
    assert owner[b := (i, k)].Keys == owner.Keys + {b};
  }

  /** balloc for entry j of the indirect block of inode i, then the entry written. */
  lemma FillEntryKeeps(sb: Super, store: Store, t: seq<Dinode>, d: Dinode, owner: Owner, i: nat, j: nat, b: Word)
    requires i < |t| && DinodeOk(d) && Ownership(sb, store, t[i := d], owner)
    requires j < NINDIRECT && d.addrs[NDIRECT] != 0 && Slot(store, d, NDIRECT + 1 + j) == 0
    requires b < sb.size && !Used(sb, store, b)
    ensures sb.datastart <= b && b !in owner
    ensures var a := d.addrs[NDIRECT];
            && a < |store| && a in owner && owner[a] == (i, NDIRECT) && a != b && sb.datastart <= a
            && var s := Alloced(sb, store, b);
            && s[a] == store[a]
            && var s' := s[a := s[a][j := b]];
            && (forall x :: x in owner && x != a && x < |store| ==> s'[x] == store[x])
            && s'[b] == ZERO_BLOCK && Table(sb, s') == Table(sb, store)
            && Ownership(sb, s', t[i := d], owner[b := (i, NDIRECT + 1 + j)])
  {
    var tab := t[i := d];
    assert tab[i] == d;
    AllocedKeeps(sb, store, tab, owner, b);
    IndirectOwned(sb, store, tab, owner, i);
    var s := Alloced(sb, store, b);
    SlotFrame(sb, store, s, tab, owner, i, NDIRECT + 1 + j);
    EntryWritten(sb, s, tab, owner, i, j, b);
  }

  lemma IndirectOwned(sb: Super, store: Store, tab: seq<Dinode>, owner: Owner, i: nat)
    requires Ownership(sb, store, tab, owner) && i < |tab| && DinodeOk(tab[i]) && tab[i].addrs[NDIRECT] != 0
    ensures var a := tab[i].addrs[NDIRECT];
            a < |store| && a in owner && owner[a] == (i, NDIRECT) && sb.datastart <= a
  {
    assert Slot(store, tab[i], NDIRECT) == tab[i].addrs[NDIRECT];
  }

  lemma EntryWritten(sb: Super, s: Store, tab: seq<Dinode>, owner: Owner, i: nat, j: nat, b: Word)
    requires BitsAre(sb, s, owner.Keys + {b}) && |tab| == sb.ninodes
    requires forall m :: 0 <= m < |tab| ==> DinodeOk(tab[m])
    requires SlotsOwned(sb, s, tab, owner) && OwnersReal(sb, s, tab, owner)
    requires i < |tab| && DinodeOk(tab[i]) && j < NINDIRECT && 0 < tab[i].addrs[NDIRECT] < |s|
    requires Slot(s, tab[i], NDIRECT + 1 + j) == 0 && sb.datastart <= b < sb.size && b !in owner
    ensures var a := tab[i].addrs[NDIRECT];
            var s' := s[a := s[a][j := b]];
            Table(sb, s') == Table(sb, s) && Ownership(sb, s', tab, owner[b := (i, NDIRECT + 1 + j)])
  {
    AssignEntry(sb, s, tab, owner, i, j, b);
    var a := tab[i].addrs[NDIRECT];
    var s' := s[a := s[a][j := b]];
    BitsFrame(sb, s, s', owner.Keys + {b});
    TableFrame(sb, s, s');
    assert owner[b := (i, NDIRECT + 1 + j)].Keys == owner.Keys + {b};
  }

  // ----- what bmap does to the addresses of the inode -----

  /** Slot at of inode i now holds b and no other slot of it changed. */
  ghost predicate OneSlot(store0: Store, d0: Dinode, store: Store, d: Dinode, at: nat, b: Word) {
    && DinodeOk(d0) && DinodeOk(d) && d == d0.(addrs := d.addrs) && at < NSLOTS
    && forall m :: 0 <= m < NSLOTS ==> Slot(store, d, m) == if m == at then b else Slot(store0, d0, m)
  }

  lemma TopSlots(store0: Store, d0: Dinode, store: Store, k: nat, b: Word, owner: Owner)
    requires DinodeOk(d0) && k <= NDIRECT && d0.addrs[k] == 0 && 0 < b < |store|
    requires OwnedSame(store0, store, owner) && store[b] == ZERO_BLOCK
    requires d0.addrs[NDIRECT] != 0 ==> d0.addrs[NDIRECT] in owner && d0.addrs[NDIRECT] < |store|
    ensures OneSlot(store0, d0, store, d0.(addrs := d0.addrs[k := b]), k, b)
  {
  }

  lemma EntrySlots(store0: Store, d: Dinode, store: Store, j: nat, b: Word)
    requires DinodeOk(d) && j < NINDIRECT && |store| == |store0| && 0 < d.addrs[NDIRECT] < |store|
    requires store[d.addrs[NDIRECT]] == store0[d.addrs[NDIRECT]][j := b]
    ensures OneSlot(store0, d, store, d, NDIRECT + 1 + j, b)
  {
  }

  /** Every owned block except the inode's own indirect block keeps contents and owner. */
  ghost predicate Kept(store0: Store, owner0: Owner, store: Store, owner: Owner, i: nat) {
    && |store| == |store0|
    && forall x :: x in owner0 ==> x in owner && owner[x] == owner0[x]
                                   && (x < |store| && owner0[x] != (i, NDIRECT) ==> store[x] == store0[x])
  }

  /** What bmap promises when it returns a for block bn of inode i. */
  ghost predicate Mapped(store0: Store, d0: Dinode, owner0: Owner, store: Store, d: Dinode, owner: Owner, i: nat, bn: nat, a: Word) {
    && bn < MAXFILE && DinodeOk(d0) && DinodeOk(d) && Kept(store0, owner0, store, owner, i)
    && d == d0.(addrs := d.addrs)
    && (forall m :: 0 <= m < MAXFILE && m != bn ==> Addr(store, d, m) == Addr(store0, d0, m))
    && (d.addrs[NDIRECT] != 0 <==> d0.addrs[NDIRECT] != 0 || bn >= NDIRECT)
    && (d0.addrs[NDIRECT] != 0 ==> d.addrs[NDIRECT] == d0.addrs[NDIRECT])
    && 0 < a < |store| && a == Addr(store, d, bn) && a in owner && owner[a] == (i, DataSlot(bn))
    && if Addr(store0, d0, bn) != 0 then store == store0 && d == d0 && owner == owner0
       else a !in owner0 && store[a] == ZERO_BLOCK
  }

  /** What filling slot at of inode i promises; kept blocks keep contents and owner. */
  ghost predicate SlotDone(store0: Store, d0: Dinode, owner0: Owner, store: Store, d: Dinode, owner: Owner, i: nat, at: nat, a: Word) {
    && OneSlot(store0, d0, store, d, at, a) && Kept(store0, owner0, store, owner, i)
    && 0 < a < |store| && a in owner && owner[a] == (i, at)
    && (at <= NDIRECT ==> OwnedSame(store0, store, owner0))
    && (at != NDIRECT ==> d.addrs[NDIRECT] == d0.addrs[NDIRECT])
    && if Slot(store0, d0, at) != 0 then store == store0 && d == d0 && owner == owner0
       else a !in owner0 && store[a] == ZERO_BLOCK
  }

  lemma DirectMapped(store0: Store, d0: Dinode, owner0: Owner, store: Store, d: Dinode, owner: Owner, i: nat, bn: nat, a: Word)
    requires bn < NDIRECT && SlotDone(store0, d0, owner0, store, d, owner, i, bn, a)
    ensures Mapped(store0, d0, owner0, store, d, owner, i, bn, a)
  {
  }

  lemma IndirectMapped(store0: Store, d0: Dinode, owner0: Owner, store1: Store, d: Dinode, owner1: Owner,
                       store: Store, owner: Owner, i: nat, bn: nat, t: Word, a: Word)
    requires NDIRECT <= bn < MAXFILE
    requires SlotDone(store0, d0, owner0, store1, d, owner1, i, NDIRECT, t)
    requires SlotDone(store1, d, owner1, store, d, owner, i, bn + 1, a)
    ensures Mapped(store0, d0, owner0, store, d, owner, i, bn, a)
  {
    assert Slot(store1, d, NDIRECT) == t == d.addrs[NDIRECT];
    assert Slot(store0, d0, NDIRECT) == d0.addrs[NDIRECT];
    forall m | 0 <= m < MAXFILE ensures DataSlot(m) != NDIRECT && (m != bn ==> DataSlot(m) != bn + 1) {
    }
    assert Addr(store0, d0, bn) == Slot(store0, d0, bn + 1) == Slot(store1, d, bn + 1);
  }

  lemma SlotPresent(sb: Super, store: Store, tab: seq<Dinode>, owner: Owner, i: nat, at: nat)
    requires Ownership(sb, store, tab, owner) && i < |tab| && DinodeOk(tab[i]) && at < NSLOTS
    requires Slot(store, tab[i], at) != 0
    ensures SlotDone(store, tab[i], owner, store, tab[i], owner, i, at, Slot(store, tab[i], at))
  {
  }

  lemma EntryDone(store0: Store, d: Dinode, owner0: Owner, store: Store, owner: Owner, i: nat, j: nat, b: Word)
    requires DinodeOk(d) && j < NINDIRECT && |store| == |store0| && 0 < d.addrs[NDIRECT] < |store|
    requires Slot(store0, d, NDIRECT + 1 + j) == 0 && 0 < b < |store| && b !in owner0
    requires owner == owner0[b := (i, NDIRECT + 1 + j)] && store[b] == ZERO_BLOCK
    requires d.addrs[NDIRECT] in owner0 && owner0[d.addrs[NDIRECT]] == (i, NDIRECT)
    requires store[d.addrs[NDIRECT]] == store0[d.addrs[NDIRECT]][j := b]
    requires forall x :: x in owner0 && x != d.addrs[NDIRECT] && x < |store| ==> store[x] == store0[x]
    ensures SlotDone(store0, d, owner0, store, d, owner, i, NDIRECT + 1 + j, b)
  {
    EntrySlots(store0, d, store, j, b);
  }

  // ----- bmap as a function of the store and the in-memory inode -----

  /** What bmap works on: the blocks and the in-memory inode. */
  datatype Node = Node(store: Store, d: Dinode)

  ghost predicate Unused(sb: Super, store: Store, b: nat)
    requires sb.Valid() && |store| == sb.size
  {
    b < sb.size && !Used(sb, store, b)
  }

  ghost predicate FirstFree(sb: Super, store: Store, b: nat)
    requires sb.Valid() && |store| == sb.size
  {
    Unused(sb, store, b) && forall x :: 0 <= x < b ==> Used(sb, store, x)
  }

  /** A step of bmap: slot at of the inode is there already, or gets a free block. */
  ghost predicate SlotStep(sb: Super, s: Node, t: Node, at: nat)
    requires sb.Valid() && |s.store| == sb.size && DinodeOk(s.d) && at < NSLOTS
  {
    if Slot(s.store, s.d, at) != 0 then t == s
    else exists b: Word :: Unused(sb, s.store, b) && t == Assigned(sb, s, at, b)
  }

  ghost function Assigned(sb: Super, s: Node, at: nat, b: Word): Node
    requires sb.Valid() && |s.store| == sb.size && DinodeOk(s.d) && at < NSLOTS && b < sb.size
  {
    var st := Alloced(sb, s.store, b);
    if at <= NDIRECT then Node(st, s.d.(addrs := s.d.addrs[at := b]))
    else if s.d.addrs[NDIRECT] < |st| then
      var a := s.d.addrs[NDIRECT];
      Node(st[a := st[a][at - NDIRECT - 1 := b]], s.d)
    else Node(st, s.d)
  }

  /** A slot step keeps ownership, with at most one new owner, and does what it says. */
  lemma SlotStepKeeps(sb: Super, s: Node, t: Node, tab: seq<Dinode>, owner: Owner, i: nat, at: nat) returns (owner': Owner)
    requires i < |tab| && DinodeOk(s.d) && Ownership(sb, s.store, tab[i := s.d], owner) && at < NSLOTS
    requires at > NDIRECT ==> s.d.addrs[NDIRECT] != 0
    requires SlotStep(sb, s, t, at)
    ensures DinodeOk(t.d) && Ownership(sb, t.store, tab[i := t.d], owner') && Table(sb, t.store) == Table(sb, s.store)
    ensures SlotDone(s.store, s.d, owner, t.store, t.d, owner', i, at, Slot(t.store, t.d, at))
  {
    hide SlotsOwned, OwnersReal, BitsAre, Assigned, SlotDone;
    assert tab[i := s.d][i] == s.d;
    if Slot(s.store, s.d, at) != 0 {
      owner' := owner;
      SlotPresent(sb, s.store, tab[i := s.d], owner, i, at);
    } else {
      var b: Word :| Unused(sb, s.store, b) && t == Assigned(sb, s, at, b);
      owner' := owner[b := (i, at)];
      if at <= NDIRECT {
        TopStepKeeps(sb, s, tab, owner, i, at, b);
      } else {
        EntryStepKeeps(sb, s, tab, owner, i, at, b);
      }
    }
  }

  lemma EntryStepKeeps(sb: Super, s: Node, tab: seq<Dinode>, owner: Owner, i: nat, at: nat, b: Word)
    requires i < |tab| && DinodeOk(s.d) && Ownership(sb, s.store, tab[i := s.d], owner) && NDIRECT < at < NSLOTS
    requires s.d.addrs[NDIRECT] != 0 && Slot(s.store, s.d, at) == 0 && b < sb.size && !Used(sb, s.store, b)
    ensures var t := Assigned(sb, s, at, b);
            && DinodeOk(t.d) && Ownership(sb, t.store, tab[i := t.d], owner[b := (i, at)])
            && Table(sb, t.store) == Table(sb, s.store)
            && SlotDone(s.store, s.d, owner, t.store, t.d, owner[b := (i, at)], i, at, Slot(t.store, t.d, at))
  {
    hide SlotsOwned, OwnersReal, BitsAre;
    FillEntryKeeps(sb, s.store, tab, s.d, owner, i, at - NDIRECT - 1, b);
    EntryDone(s.store, s.d, owner, Assigned(sb, s, at, b).store, owner[b := (i, at)], i, at - NDIRECT - 1, b);
  }

  lemma TopStepKeeps(sb: Super, s: Node, tab: seq<Dinode>, owner: Owner, i: nat, at: nat, b: Word)
    requires i < |tab| && DinodeOk(s.d) && Ownership(sb, s.store, tab[i := s.d], owner) && at <= NDIRECT
    requires s.d.addrs[at] == 0 && b < sb.size && !Used(sb, s.store, b)
    ensures var t := Assigned(sb, s, at, b);
            && DinodeOk(t.d) && Ownership(sb, t.store, tab[i := t.d], owner[b := (i, at)])
            && Table(sb, t.store) == Table(sb, s.store)
            && SlotDone(s.store, s.d, owner, t.store, t.d, owner[b := (i, at)], i, at, Slot(t.store, t.d, at))
  {
    hide SlotsOwned, OwnersReal, BitsAre;
    assert tab[i := s.d][i] == s.d;
    if s.d.addrs[NDIRECT] != 0 { IndirectOwned(sb, s.store, tab[i := s.d], owner, i); }
    FillTopKeeps(sb, s.store, tab, s.d, owner, i, at, b);
    TopSlots(s.store, s.d, Alloced(sb, s.store, b), at, b, owner);
  }

  /** bmap: one slot step for a direct block; for an indirect one, first the indirect
      block, then its entry. */
  ghost predicate BmapStep(sb: Super, s: Node, t: Node, bn: nat)
    requires sb.Valid() && |s.store| == sb.size && DinodeOk(s.d)
  {
    if bn < NDIRECT then SlotStep(sb, s, t, bn)
    else bn < MAXFILE && exists m: Node :: SlotStep(sb, s, m, NDIRECT) && EntryStep(sb, m, t, bn + 1)
  }

  ghost predicate EntryStep(sb: Super, s: Node, t: Node, at: nat)
    requires sb.Valid()
  {
    |s.store| == sb.size && DinodeOk(s.d) && s.d.addrs[NDIRECT] != 0 && at < NSLOTS && SlotStep(sb, s, t, at)
  }

  /** bmap never aliases: the address it returns is owned by this slot of this inode only,
      ownership is kept, and no other block with an owner loses contents or owner. */
  lemma BmapKeeps(sb: Super, s: Node, t: Node, tab: seq<Dinode>, owner: Owner, i: nat, bn: nat) returns (owner': Owner)
    requires i < |tab| && DinodeOk(s.d) && Ownership(sb, s.store, tab[i := s.d], owner)
    requires BmapStep(sb, s, t, bn)
    ensures DinodeOk(t.d) && Ownership(sb, t.store, tab[i := t.d], owner') && Table(sb, t.store) == Table(sb, s.store)
    ensures bn < MAXFILE && Mapped(s.store, s.d, owner, t.store, t.d, owner', i, bn, Addr(t.store, t.d, bn))
  {
    hide SlotsOwned, OwnersReal, BitsAre, Kept, SlotStep, OneSlot, Mapped, Table;
    if bn < NDIRECT {
      owner' := SlotStepKeeps(sb, s, t, tab, owner, i, bn);
      DirectMapped(s.store, s.d, owner, t.store, t.d, owner', i, bn, Addr(t.store, t.d, bn));
    } else {
      var m: Node :| SlotStep(sb, s, m, NDIRECT) && EntryStep(sb, m, t, bn + 1);
      var o1 := SlotStepKeeps(sb, s, m, tab, owner, i, NDIRECT);
      owner' := SlotStepKeeps(sb, m, t, tab, o1, i, bn + 1);
      EntryKeepsInode(sb, m, t, bn + 1);
      IndirectMapped(s.store, s.d, owner, m.store, m.d, o1, t.store, owner', i, bn, Slot(m.store, m.d, NDIRECT), Slot(t.store, t.d, bn + 1));
    }
  }

  lemma EntryKeepsInode(sb: Super, s: Node, t: Node, at: nat)
    requires sb.Valid() && EntryStep(sb, s, t, at) && at > NDIRECT
    ensures t.d == s.d
  {
  }
}
