/** Two-level page tables held in physical memory (vm.c, mmu.h), the flat page map they
    stand for, and who owns each physical page. */
module PageTables {
  import opened Blocks

  /** Physical pages below PHYSTOP. */
  const PAGES := 0xE000
  /** Page number of KERNBASE: virtual pages below it are the user half. */
  const USER := 0x8_0000
  /** Virtual pages in a 32-bit address space. */
  const VIRTUAL := 0x10_0000

  const PTE_P := 1
  const PTE_W := 2
  const PTE_U := 4

  type Page = s: seq<Word> | |s| == 1024 witness Filled(0)

  function Filled(w: Word): (r: seq<Word>)
    ensures |r| == 1024 && forall i :: 0 <= i < 1024 ==> r[i] == w
  {
    seq(1024, _ => w)
  }

  // ----- page table entries -----

  /** Entries carry a page number above twelve flag bits. */
  function Entry(frame: nat, flags: nat): Word
    requires frame < VIRTUAL && flags < 4096
  {
    frame * 4096 + flags
  }

  function Frame(w: Word): (f: nat)
    ensures f < VIRTUAL
  {
    w / 4096
  }

  function Flags(w: Word): (f: nat)
    ensures f < 4096
  {
    w % 4096
  }

  predicate Present(w: Word) {
    w % 2 == 1
  }

  /** perm | PTE_P. */
  function WithP(perm: nat): (r: nat)
    requires perm < 4096
    ensures perm <= r < 4096
  {
    if perm % 2 == 1 then perm else perm + 1
  }

  lemma EntryParts(frame: nat, flags: nat)
    requires frame < VIRTUAL && flags < 4096
    ensures Frame(Entry(frame, flags)) == frame && Flags(Entry(frame, flags)) == flags
    ensures Present(Entry(frame, flags)) <==> flags % 2 == 1
  {
  }

  lemma EntryPresent(frame: nat, perm: nat)
    requires frame < VIRTUAL && perm < 4096
    ensures var w := Entry(frame, WithP(perm)); Frame(w) == frame && Flags(w) == WithP(perm) && Present(w)
  {
    EntryParts(frame, WithP(perm));
  }

  lemma EntryWhole(w: Word)
    ensures w == Entry(Frame(w), Flags(w)) && (Present(w) ==> WithP(Flags(w)) == Flags(w))
  {
  }

  /** PDX and PTX of a virtual page number. */
  function Dx(v: nat): (i: nat)
    requires v < VIRTUAL
    ensures i < 1024
  {
    v / 1024
  }

  function Tx(v: nat): (j: nat)
    ensures j < 1024
  {
    v % 1024
  }

  lemma Distinct(u: nat, v: nat)
    requires u < VIRTUAL && v < VIRTUAL && Dx(u) == Dx(v) && Tx(u) == Tx(v)
    ensures u == v
  {
  }

  // ----- the flat map -----

  ghost predicate Sized(mem: seq<Page>, own: seq<Owner>) {
    |mem| == PAGES && |own| == PAGES
  }

  /** The table that translates virtual page v, or none. */
  ghost predicate HasTable(mem: seq<Page>, d: nat, v: nat)
    requires |mem| == PAGES && d < PAGES && v < VIRTUAL
  {
    Present(mem[d][Dx(v)]) && Frame(mem[d][Dx(v)]) < PAGES
  }

  ghost function TableOf(mem: seq<Page>, d: nat, v: nat): (t: nat)
    requires |mem| == PAGES && d < PAGES && v < VIRTUAL
    requires HasTable(mem, d, v)
    ensures t < PAGES
  {
    Frame(mem[d][Dx(v)])
  }

  /** The translation of virtual page v under directory d; 0 when there is none. */
  ghost function Flat(mem: seq<Page>, d: nat, v: nat): Word
    requires |mem| == PAGES && d < PAGES && v < VIRTUAL
  {
    if HasTable(mem, d, v) && Present(mem[TableOf(mem, d, v)][Tx(v)]) then mem[TableOf(mem, d, v)][Tx(v)] else 0
  }

  lemma FlatPresent(mem: seq<Page>, d: nat, v: nat)
    requires |mem| == PAGES && d < PAGES && v < VIRTUAL
    ensures Flat(mem, d, v) != 0 <==> HasTable(mem, d, v) && Present(mem[TableOf(mem, d, v)][Tx(v)])
    ensures Flat(mem, d, v) != 0 <==> Present(Flat(mem, d, v))
  {
  }

  // ----- ownership -----

  /** Who holds a physical page: the kernel image, the free list, a caller of kalloc, or one
      place in one address space. */
  datatype Owner = Kernel | Free | Held | Dir | Table(d: nat, i: nat) | User(d: nat, v: nat)

  /** The page-directory entries of d refer to pages that belong to exactly that entry. */
  ghost predicate TablesOwned(mem: seq<Page>, own: seq<Owner>, d: nat)
    requires Sized(mem, own) && d < PAGES
  {
    forall i :: 0 <= i < 1024 && Present(mem[d][i]) ==> TableSlot(mem, own, d, i)
  }

  ghost predicate TableSlot(mem: seq<Page>, own: seq<Owner>, d: nat, i: nat)
    requires Sized(mem, own) && d < PAGES && i < 1024
  {
    && Frame(mem[d][i]) < PAGES
    && own[Frame(mem[d][i])] == Table(d, i)
  }

  /** The user half of d maps pages that belong to exactly that virtual page. */
  ghost predicate UsersOwned(mem: seq<Page>, own: seq<Owner>, d: nat)
    requires Sized(mem, own) && d < PAGES
  {
    forall v :: 0 <= v < USER && Flat(mem, d, v) != 0 ==> UserSlot(mem, own, d, v)
  }

  ghost predicate UserSlot(mem: seq<Page>, own: seq<Owner>, d: nat, v: nat)
    requires Sized(mem, own) && d < PAGES && v < USER
  {
    && Frame(Flat(mem, d, v)) < PAGES
    && own[Frame(Flat(mem, d, v))] == User(d, v)
  }

  ghost predicate PageOk(mem: seq<Page>, own: seq<Owner>, base: nat, p: nat)
    requires Sized(mem, own) && p < PAGES
  {
    && (own[p] == Kernel <==> p < base)
    && match own[p]
       case Dir => TablesOwned(mem, own, p) && UsersOwned(mem, own, p)
       case Table(d, i) => d < PAGES && own[d] == Dir && i < 1024 && Present(mem[d][i]) && Frame(mem[d][i]) == p
       case User(d, v) => d < PAGES && own[d] == Dir && v < USER && Flat(mem, d, v) != 0 && Frame(Flat(mem, d, v)) == p
       case _ => true
  }

  /** Every physical page has one owner, and every owner really refers to its page. */
  ghost predicate Owned(mem: seq<Page>, own: seq<Owner>, base: nat) {
    && Sized(mem, own)
    && 0 < base < PAGES
    && forall p :: 0 <= p < PAGES ==> PageOk(mem, own, base, p)
  }

  /** Page p, owned by o, is part of the address space d. */
  ghost predicate Within(o: Owner, p: nat, d: nat) {
    match o
    case Dir => p == d
    case Table(e, _) => e == d
    case User(e, _) => e == d
    case _ => false
  }

  /** Pages that are neither free nor part of d keep their owner and their contents. */
  ghost predicate OthersKept(mem: seq<Page>, own: seq<Owner>, mem': seq<Page>, own': seq<Owner>, d: nat)
    requires Sized(mem, own) && Sized(mem', own')
  {
    forall q :: 0 <= q < PAGES && own[q] != Free && !Within(own[q], q, d) ==> own'[q] == own[q] && mem'[q] == mem[q]
  }

  // ----- the translation of a directory depends only on its own pages -----

  lemma FlatSame(mem: seq<Page>, mem': seq<Page>, own: seq<Owner>, base: nat, d: nat, v: nat)
    requires Owned(mem, own, base) && |mem'| == PAGES && d < PAGES && v < VIRTUAL && own[d] == Dir
    requires mem'[d][Dx(v)] == mem[d][Dx(v)]
    requires HasTable(mem, d, v) ==> mem'[TableOf(mem, d, v)] == mem[TableOf(mem, d, v)]
    ensures Flat(mem', d, v) == Flat(mem, d, v)
  {
  }

  lemma TableIsTable(mem: seq<Page>, own: seq<Owner>, base: nat, d: nat, v: nat)
    requires Owned(mem, own, base) && d < PAGES && v < VIRTUAL && own[d] == Dir && HasTable(mem, d, v)
    ensures own[TableOf(mem, d, v)] == Table(d, Dx(v))
  {
    assert PageOk(mem, own, base, d);
    assert TableSlot(mem, own, d, Dx(v));
  }

  /** Same translation everywhere. */
  ghost predicate SameFlat(mem: seq<Page>, mem': seq<Page>, d: nat)
    requires |mem| == PAGES && |mem'| == PAGES && d < PAGES
  {
    forall v :: 0 <= v < VIRTUAL ==> Flat(mem', d, v) == Flat(mem, d, v)
  }

  ghost predicate AllFlatSame(mem: seq<Page>, mem': seq<Page>, own: seq<Owner>)
    requires Sized(mem, own) && |mem'| == PAGES
  {
    forall d :: 0 <= d < PAGES && own[d] == Dir ==> SameFlat(mem, mem', d)
  }

  // ----- writing a page that is no directory and no table -----

  ghost predicate Plain(o: Owner) {
    o != Dir && !o.Table?
  }

  lemma DataFlat(mem: seq<Page>, own: seq<Owner>, base: nat, p: nat, page: Page)
    requires Owned(mem, own, base) && p < PAGES && Plain(own[p])
    ensures AllFlatSame(mem, mem[p := page], own)
  {
    hide Owned, Flat, HasTable;
    OwnedSized(mem, own, base);
    var mem' := mem[p := page];
    forall d, v | 0 <= d < PAGES && own[d] == Dir && 0 <= v < VIRTUAL ensures Flat(mem', d, v) == Flat(mem, d, v) {
      DataFlatAt(mem, own, base, p, page, d, v);
    }
  }

  lemma OwnedSized(mem: seq<Page>, own: seq<Owner>, base: nat)
    requires Owned(mem, own, base)
    ensures Sized(mem, own) && 0 < base < PAGES
  {
  }

  lemma DataFlatAt(mem: seq<Page>, own: seq<Owner>, base: nat, p: nat, page: Page, d: nat, v: nat)
    requires Owned(mem, own, base) && p < PAGES && Plain(own[p]) && d < PAGES && own[d] == Dir && v < VIRTUAL
    ensures Flat(mem[p := page], d, v) == Flat(mem, d, v)
  {
    hide Owned, Flat;
    OwnedSized(mem, own, base);
    if HasTable(mem, d, v) { TableIsTable(mem, own, base, d, v); }
    FlatSame(mem, mem[p := page], own, base, d, v);
  }

  /** Owners in address spaces, the directory pages and all translations unchanged. */
  ghost predicate SameShape(mem: seq<Page>, own: seq<Owner>, mem': seq<Page>, own': seq<Owner>)
    requires Sized(mem, own) && Sized(mem', own')
  {
    && (forall q :: 0 <= q < PAGES ==> own'[q] == own[q] || (Loose(own[q]) && Loose(own'[q])))
    && (forall q :: 0 <= q < PAGES && own[q] == Dir ==> mem'[q] == mem[q])
    && AllFlatSame(mem, mem', own)
  }

  ghost predicate Loose(o: Owner) {
    o == Free || o == Held
  }

  lemma SameShapeKeeps(mem: seq<Page>, own: seq<Owner>, mem': seq<Page>, own': seq<Owner>, base: nat)
    requires Owned(mem, own, base) && Sized(mem', own') && SameShape(mem, own, mem', own')
    ensures Owned(mem', own', base)
  {
    hide SameShape, Owned, PageOk;
    OwnedSized(mem, own, base);
    forall p | 0 <= p < PAGES ensures PageOk(mem', own', base, p) {
      SameShapeAt(mem, own, mem', own', base, p);
    }
    assert Owned(mem', own', base) by { OwnedAll(mem', own', base); }
  }

  lemma OwnedAll(mem: seq<Page>, own: seq<Owner>, base: nat)
    requires Sized(mem, own) && 0 < base < PAGES
    requires forall p :: 0 <= p < PAGES ==> PageOk(mem, own, base, p)
    ensures Owned(mem, own, base)
  {
  }

  lemma SameShapeAt(mem: seq<Page>, own: seq<Owner>, mem': seq<Page>, own': seq<Owner>, base: nat, p: nat)
    requires Owned(mem, own, base) && Sized(mem', own') && SameShape(mem, own, mem', own') && p < PAGES
    ensures PageOk(mem', own', base, p)
  {
    hide Flat, HasTable;
    assert PageOk(mem, own, base, p);
    match own[p]
    case Dir =>
      assert SameFlat(mem, mem', p);
      forall v | 0 <= v < USER && Flat(mem', p, v) != 0 ensures UserSlot(mem', own', p, v) {
        assert Flat(mem', p, v) == Flat(mem, p, v);
        assert UserSlot(mem, own, p, v);
      }
      forall i | 0 <= i < 1024 && Present(mem'[p][i]) ensures TableSlot(mem', own', p, i) {
        assert TableSlot(mem, own, p, i);
      }
    case Table(d, i) =>
    case User(d, v) =>
      assert SameFlat(mem, mem', d);
    case _ =>
  }

  // ----- adding an empty page table -----

  lemma AddTable(mem: seq<Page>, own: seq<Owner>, base: nat, d: nat, i: nat, t: nat)
    requires Owned(mem, own, base) && d < PAGES && own[d] == Dir && i < 1024 && !Present(mem[d][i])
    requires t < PAGES && own[t] == Held && mem[t] == Filled(0)
    ensures var mem' := mem[d := mem[d][i := Entry(t, 7)]];
            Owned(mem', own[t := Table(d, i)], base) && AllFlatSame(mem, mem', own)
  {
    hide Owned, Flat, HasTable, PageOk, Entry;
    OwnedSized(mem, own, base);
    var mem' := mem[d := mem[d][i := Entry(t, 7)]];
    var own' := own[t := Table(d, i)];
    forall e, v | 0 <= e < PAGES && own[e] == Dir && 0 <= v < VIRTUAL ensures Flat(mem', e, v) == Flat(mem, e, v) {
      AddTableFlat(mem, own, base, d, i, t, e, v);
    }
    forall p | 0 <= p < PAGES ensures PageOk(mem', own', base, p) {
      AddTableAt(mem, own, base, d, i, t, p);
    }
    OwnedAll(mem', own', base);
  }

  lemma AddTableFlat(mem: seq<Page>, own: seq<Owner>, base: nat, d: nat, i: nat, t: nat, e: nat, v: nat)
    requires Owned(mem, own, base) && d < PAGES && own[d] == Dir && i < 1024 && !Present(mem[d][i])
    requires t < PAGES && own[t] == Held && mem[t] == Filled(0)
    requires e < PAGES && own[e] == Dir && v < VIRTUAL
    ensures Flat(mem[d := mem[d][i := Entry(t, 7)]], e, v) == Flat(mem, e, v)
  {
    hide Owned, PageOk, Entry;
    OwnedSized(mem, own, base);
    var mem' := mem[d := mem[d][i := Entry(t, 7)]];
    EntryParts(t, 7);
    if e == d && Dx(v) == i {
      assert Flat(mem, e, v) == 0;
      assert TableOf(mem', e, v) == t && mem'[t][Tx(v)] == 0;
    } else {
      if HasTable(mem, e, v) { TableIsTable(mem, own, base, e, v); }
      FlatSame(mem, mem', own, base, e, v);
    }
  }

  lemma AddTableAt(mem: seq<Page>, own: seq<Owner>, base: nat, d: nat, i: nat, t: nat, p: nat)
    requires Owned(mem, own, base) && d < PAGES && own[d] == Dir && i < 1024 && !Present(mem[d][i])
    requires t < PAGES && own[t] == Held && mem[t] == Filled(0) && p < PAGES
    requires AllFlatSame(mem, mem[d := mem[d][i := Entry(t, 7)]], own)
    ensures PageOk(mem[d := mem[d][i := Entry(t, 7)]], own[t := Table(d, i)], base, p)
  {
    hide Flat, HasTable, Entry;
    var mem' := mem[d := mem[d][i := Entry(t, 7)]];
    var own' := own[t := Table(d, i)];
    EntryParts(t, 7);
    assert PageOk(mem, own, base, p);
    assert PageOk(mem, own, base, t);
    match own[p]
    case Dir =>
      assert SameFlat(mem, mem', p);
      forall v | 0 <= v < USER && Flat(mem', p, v) != 0 ensures UserSlot(mem', own', p, v) {
        assert Flat(mem', p, v) == Flat(mem, p, v);
        assert UserSlot(mem, own, p, v);
      }
      forall k | 0 <= k < 1024 && Present(mem'[p][k]) ensures TableSlot(mem', own', p, k) {
        if p != d || k != i { assert TableSlot(mem, own, p, k); }
      }
    case Table(e, k) =>
    case User(e, v) =>
      assert SameFlat(mem, mem', e);
    case _ =>
  }

  // ----- setting and clearing one translation -----

  /** The entry of v in its page table is overwritten by w. */
  ghost function PteSet(mem: seq<Page>, d: nat, v: nat, w: Word): (r: seq<Page>)
    requires |mem| == PAGES && d < PAGES && v < VIRTUAL && HasTable(mem, d, v)
    ensures |r| == PAGES
  {
    var t := TableOf(mem, d, v);
    mem[t := mem[t][Tx(v) := w]]
  }

  /** Only the translation of v under d changes, and it becomes w. */
  ghost predicate FlatSet(mem: seq<Page>, mem': seq<Page>, own: seq<Owner>, d: nat, v: nat, w: Word)
    requires Sized(mem, own) && |mem'| == PAGES && d < PAGES && v < VIRTUAL
  {
    forall e, u :: 0 <= e < PAGES && own[e] == Dir && 0 <= u < VIRTUAL ==>
      Flat(mem', e, u) == if e == d && u == v then w else Flat(mem, e, u)
  }

  lemma PteSetFlatAt(mem: seq<Page>, own: seq<Owner>, base: nat, d: nat, v: nat, w: Word, e: nat, u: nat)
    requires Owned(mem, own, base) && d < PAGES && own[d] == Dir && v < VIRTUAL && HasTable(mem, d, v)
    requires w == 0 || Present(w)
    requires e < PAGES && own[e] == Dir && u < VIRTUAL
    ensures Flat(PteSet(mem, d, v, w), e, u) == if e == d && u == v then w else Flat(mem, e, u)
  {
    hide Owned, PageOk, Dx, Tx;
    OwnedSized(mem, own, base);
    var mem' := PteSet(mem, d, v, w);
    TableIsTable(mem, own, base, d, v);
    if HasTable(mem, e, u) { TableIsTable(mem, own, base, e, u); }
    if e == d && u == v {
    } else if e == d && Dx(u) == Dx(v) {
      if Tx(u) == Tx(v) { Distinct(u, v); }
    } else {
      FlatSame(mem, mem', own, base, e, u);
    }
  }

  lemma PteSetFlat(mem: seq<Page>, own: seq<Owner>, base: nat, d: nat, v: nat, w: Word)
    requires Owned(mem, own, base) && d < PAGES && own[d] == Dir && v < VIRTUAL && HasTable(mem, d, v)
    requires w == 0 || Present(w)
    ensures FlatSet(mem, PteSet(mem, d, v, w), own, d, v, w)
  {
    hide Owned, Flat, HasTable, PteSet;
    OwnedSized(mem, own, base);
    forall e, u | 0 <= e < PAGES && own[e] == Dir && 0 <= u < VIRTUAL
      ensures Flat(PteSet(mem, d, v, w), e, u) == if e == d && u == v then w else Flat(mem, e, u)
    {
      PteSetFlatAt(mem, own, base, d, v, w, e, u);
    }
  }

  /** Directory pages keep their contents. */
  ghost predicate DirsKept(mem: seq<Page>, mem': seq<Page>, own: seq<Owner>)
    requires Sized(mem, own) && |mem'| == PAGES
  {
    forall q :: 0 <= q < PAGES && own[q] == Dir ==> mem'[q] == mem[q]
  }

  lemma PteSetDirs(mem: seq<Page>, own: seq<Owner>, base: nat, d: nat, v: nat, w: Word)
    requires Owned(mem, own, base) && d < PAGES && own[d] == Dir && v < VIRTUAL && HasTable(mem, d, v)
    ensures DirsKept(mem, PteSet(mem, d, v, w), own)
  {
    TableIsTable(mem, own, base, d, v);
  }

  /** A held page becomes the page behind an unmapped user address. */
  lemma MapKeepsAt(mem: seq<Page>, own: seq<Owner>, mem': seq<Page>, base: nat, d: nat, v: nat, w: Word, p: nat)
    requires Owned(mem, own, base) && d < PAGES && own[d] == Dir && v < USER && |mem'| == PAGES
    requires Flat(mem, d, v) == 0 && Present(w) && Frame(w) < PAGES && own[Frame(w)] == Held && p < PAGES
    requires FlatSet(mem, mem', own, d, v, w) && DirsKept(mem, mem', own)
    ensures PageOk(mem', own[Frame(w) := User(d, v)], base, p)
  {
    hide Flat, HasTable, Frame;
    var own' := own[Frame(w) := User(d, v)];
    assert PageOk(mem, own, base, p);
    assert PageOk(mem, own, base, Frame(w));
    match own[p]
    case Dir =>
      forall u | 0 <= u < USER && Flat(mem', p, u) != 0 ensures UserSlot(mem', own', p, u) {
        if p != d || u != v { assert UserSlot(mem, own, p, u); }
      }
      forall k | 0 <= k < 1024 && Present(mem'[p][k]) ensures TableSlot(mem', own', p, k) {
        assert TableSlot(mem, own, p, k);
      }
    case Table(e, k) =>
    case User(e, u) =>
      assert Flat(mem', e, u) == Flat(mem, e, u);
    case _ =>
  }

  lemma MapKeeps(mem: seq<Page>, own: seq<Owner>, base: nat, d: nat, v: nat, w: Word)
    requires Owned(mem, own, base) && d < PAGES && own[d] == Dir && v < USER && HasTable(mem, d, v)
    requires Flat(mem, d, v) == 0 && Present(w) && Frame(w) < PAGES && own[Frame(w)] == Held
    ensures var mem' := PteSet(mem, d, v, w);
            Owned(mem', own[Frame(w) := User(d, v)], base) && FlatSet(mem, mem', own, d, v, w)
  {
    hide Owned, Flat, HasTable, PteSet, PageOk, FlatSet, DirsKept, Present, Frame;
    OwnedSized(mem, own, base);
    PteSetFlat(mem, own, base, d, v, w);
    PteSetDirs(mem, own, base, d, v, w);
    var mem' := PteSet(mem, d, v, w);
    var own' := own[Frame(w) := User(d, v)];
    forall p | 0 <= p < PAGES ensures PageOk(mem', own', base, p) {
      MapKeepsAt(mem, own, mem', base, d, v, w, p);
    }
    OwnedAll(mem', own', base);
  }

  /** Kernel translations own nothing. */
  lemma KernelMapKeeps(mem: seq<Page>, own: seq<Owner>, base: nat, d: nat, v: nat, w: Word)
    requires Owned(mem, own, base) && d < PAGES && own[d] == Dir && USER <= v < VIRTUAL && HasTable(mem, d, v)
    requires Present(w)
    ensures var mem' := PteSet(mem, d, v, w); Owned(mem', own, base) && FlatSet(mem, mem', own, d, v, w)
  {
    hide Owned, Flat, HasTable, PteSet, PageOk, FlatSet, DirsKept, Present;
    OwnedSized(mem, own, base);
    PteSetFlat(mem, own, base, d, v, w);
    PteSetDirs(mem, own, base, d, v, w);
    var mem' := PteSet(mem, d, v, w);
    forall p | 0 <= p < PAGES ensures PageOk(mem', own, base, p) {
      KernelMapAt(mem, own, mem', base, d, v, w, p);
    }
    OwnedAll(mem', own, base);
  }

  lemma KernelMapAt(mem: seq<Page>, own: seq<Owner>, mem': seq<Page>, base: nat, d: nat, v: nat, w: Word, p: nat)
    requires Owned(mem, own, base) && d < PAGES && own[d] == Dir && USER <= v < VIRTUAL && |mem'| == PAGES && p < PAGES
    requires FlatSet(mem, mem', own, d, v, w) && DirsKept(mem, mem', own)
    ensures PageOk(mem', own, base, p)
  {
    hide Flat, HasTable, Frame;
    assert PageOk(mem, own, base, p);
    match own[p]
    case Dir =>
      forall u | 0 <= u < USER && Flat(mem', p, u) != 0 ensures UserSlot(mem', own, p, u) {
        assert UserSlot(mem, own, p, u);
      }
      forall k | 0 <= k < 1024 && Present(mem'[p][k]) ensures TableSlot(mem', own, p, k) {
        assert TableSlot(mem, own, p, k);
      }
    case Table(e, k) =>
    case User(e, u) =>
      assert Flat(mem', e, u) == Flat(mem, e, u);
    case _ =>
  }

  /** Clearing a user translation lets its page go. */
  lemma UnmapKeeps(mem: seq<Page>, own: seq<Owner>, base: nat, d: nat, v: nat)
    requires Owned(mem, own, base) && d < PAGES && own[d] == Dir && v < USER && HasTable(mem, d, v)
    requires Flat(mem, d, v) != 0
    ensures var mem' := PteSet(mem, d, v, 0);
            var p := Frame(Flat(mem, d, v));
            && p < PAGES && own[p] == User(d, v)
            && Owned(mem', own[p := Free], base) && FlatSet(mem, mem', own, d, v, 0)
  {
    assert Frame(Flat(mem, d, v)) < PAGES && own[Frame(Flat(mem, d, v))] == User(d, v) by {
      assert PageOk(mem, own, base, d);
      assert UserSlot(mem, own, d, v);
    }
    hide Owned, Flat, HasTable, PteSet, PageOk, FlatSet, DirsKept, Present, Frame;
    OwnedSized(mem, own, base);
    PteSetFlat(mem, own, base, d, v, 0);
    PteSetDirs(mem, own, base, d, v, 0);
    var mem' := PteSet(mem, d, v, 0);
    var own' := own[Frame(Flat(mem, d, v)) := Free];
    forall p | 0 <= p < PAGES ensures PageOk(mem', own', base, p) {
      UnmapAt(mem, own, mem', base, d, v, p);
    }
    OwnedAll(mem', own', base);
  }

  lemma UnmapAt(mem: seq<Page>, own: seq<Owner>, mem': seq<Page>, base: nat, d: nat, v: nat, p: nat)
    requires Owned(mem, own, base) && d < PAGES && own[d] == Dir && v < USER && |mem'| == PAGES && p < PAGES
    requires Flat(mem, d, v) != 0 && FlatSet(mem, mem', own, d, v, 0) && DirsKept(mem, mem', own)
    requires Frame(Flat(mem, d, v)) < PAGES && own[Frame(Flat(mem, d, v))] == User(d, v)
    ensures PageOk(mem', own[Frame(Flat(mem, d, v)) := Free], base, p)
  {
    hide Flat, HasTable, Frame;
    var own' := own[Frame(Flat(mem, d, v)) := Free];
    assert PageOk(mem, own, base, p);
    assert PageOk(mem, own, base, Frame(Flat(mem, d, v)));
    match own[p]
    case Dir =>
      forall u | 0 <= u < USER && Flat(mem', p, u) != 0 ensures UserSlot(mem', own', p, u) {
        assert UserSlot(mem, own, p, u);
      }
      forall k | 0 <= k < 1024 && Present(mem'[p][k]) ensures TableSlot(mem', own', p, k) {
        assert TableSlot(mem, own, p, k);
      }
    case Table(e, k) =>
    case User(e, u) =>
      assert Flat(mem', e, u) == if e == d && u == v then 0 else Flat(mem, e, u);
    case _ =>
  }

  // ----- letting a whole address space go -----

  /** Owners once directory d is given up: its own page and its tables are merely held. */
  ghost function Orphaned(own: seq<Owner>, d: nat): (r: seq<Owner>)
    ensures |r| == |own|
    ensures forall q :: 0 <= q < |own| ==> r[q] == if Within(own[q], q, d) then Held else own[q]
  {
    seq(|own|, q requires 0 <= q < |own| => if Within(own[q], q, d) then Held else own[q])
  }

  lemma OrphanedAt(mem: seq<Page>, own: seq<Owner>, base: nat, d: nat, p: nat)
    requires Owned(mem, own, base) && d < PAGES && own[d] == Dir && p < PAGES
    ensures PageOk(mem, Orphaned(own, d), base, p)
  {
    hide Flat, HasTable, Frame;
    var own' := Orphaned(own, d);
    assert PageOk(mem, own, base, p);
    match own[p]
    case Dir =>
      forall u | p != d && 0 <= u < USER && Flat(mem, p, u) != 0 ensures UserSlot(mem, own', p, u) {
        assert UserSlot(mem, own, p, u);
      }
      forall k | p != d && 0 <= k < 1024 && Present(mem[p][k]) ensures TableSlot(mem, own', p, k) {
        assert TableSlot(mem, own, p, k);
      }
    case Table(e, k) =>
    case User(e, u) =>
    case _ =>
  }

  lemma OrphanedKeeps(mem: seq<Page>, own: seq<Owner>, base: nat, d: nat)
    requires Owned(mem, own, base) && d < PAGES && own[d] == Dir
    ensures Owned(mem, Orphaned(own, d), base)
  {
    hide Owned, PageOk, Orphaned;
    OwnedSized(mem, own, base);
    forall p | 0 <= p < PAGES ensures PageOk(mem, Orphaned(own, d), base, p) {
      OrphanedAt(mem, own, base, d, p);
    }
    OwnedAll(mem, Orphaned(own, d), base);
  }

  /** A zeroed held page becomes an empty directory. */
  lemma NewDir(mem: seq<Page>, own: seq<Owner>, base: nat, d: nat)
    requires Owned(mem, own, base) && d < PAGES && own[d] == Held && mem[d] == Filled(0)
    ensures Owned(mem, own[d := Dir], base)
    ensures forall v :: 0 <= v < VIRTUAL ==> Flat(mem, d, v) == 0
  {
    hide Owned, PageOk;
    OwnedSized(mem, own, base);
    assert forall v :: 0 <= v < VIRTUAL ==> Flat(mem, d, v) == 0;
    hide Flat;
    var own' := own[d := Dir];
    forall p | 0 <= p < PAGES ensures PageOk(mem, own', base, p) {
      NewDirAt(mem, own, base, d, p);
    }
    OwnedAll(mem, own', base);
  }

  lemma NewDirAt(mem: seq<Page>, own: seq<Owner>, base: nat, d: nat, p: nat)
    requires Owned(mem, own, base) && d < PAGES && own[d] == Held && mem[d] == Filled(0) && p < PAGES
    requires forall v :: 0 <= v < VIRTUAL ==> Flat(mem, d, v) == 0
    ensures PageOk(mem, own[d := Dir], base, p)
  {
    hide Flat, HasTable, Frame;
    var own' := own[d := Dir];
    assert PageOk(mem, own, base, p);
    assert PageOk(mem, own, base, d);
    match own[p]
    case Dir =>
      forall u | 0 <= u < USER && Flat(mem, p, u) != 0 ensures UserSlot(mem, own', p, u) {
        assert UserSlot(mem, own, p, u);
      }
      forall k | 0 <= k < 1024 && Present(mem[p][k]) ensures TableSlot(mem, own', p, k) {
        assert TableSlot(mem, own, p, k);
      }
    case Table(e, k) =>
    case User(e, u) =>
    case _ =>
  }

  // ----- what an operation on one address space leaves alone -----

  /** Pages that are not free keep their contents. */
  ghost predicate OldKept(mem: seq<Page>, own: seq<Owner>, mem': seq<Page>)
    requires Sized(mem, own) && |mem'| == PAGES
  {
    forall q :: 0 <= q < PAGES && own[q] != Free ==> mem'[q] == mem[q]
  }

  lemma OldFlat(mem: seq<Page>, own: seq<Owner>, base: nat, mem': seq<Page>, e: nat, v: nat)
    requires Owned(mem, own, base) && |mem'| == PAGES && OldKept(mem, own, mem')
    requires e < PAGES && own[e] == Dir && v < VIRTUAL
    ensures Flat(mem', e, v) == Flat(mem, e, v)
  {
    hide Owned, Flat, HasTable;
    OwnedSized(mem, own, base);
    if HasTable(mem, e, v) { TableIsTable(mem, own, base, e, v); }
    FlatSame(mem, mem', own, base, e, v);
  }

  /** No page names a directory that is not one. */
  lemma NobodyWithin(mem: seq<Page>, own: seq<Owner>, base: nat, d: nat, q: nat)
    requires Owned(mem, own, base) && d < PAGES && own[d] != Dir && q < PAGES
    ensures !Within(own[q], q, d)
  {
    assert PageOk(mem, own, base, q);
  }

  /** Isolation: an operation that keeps the pages outside d keeps every other address space,
      its translations and the contents of its user pages. */
  lemma Isolated(mem: seq<Page>, own: seq<Owner>, mem': seq<Page>, own': seq<Owner>, base: nat, d: nat, e: nat, v: nat)
    requires Owned(mem, own, base) && Sized(mem', own') && OthersKept(mem, own, mem', own', d)
    requires e < PAGES && e != d && own[e] == Dir && v < VIRTUAL
    ensures own'[e] == Dir && Flat(mem', e, v) == Flat(mem, e, v)
    ensures v < USER && Flat(mem, e, v) != 0 ==>
              Frame(Flat(mem, e, v)) < PAGES && mem'[Frame(Flat(mem, e, v))] == mem[Frame(Flat(mem, e, v))]
  {
    if HasTable(mem, e, v) { TableIsTable(mem, own, base, e, v); }
    FlatSame(mem, mem', own, base, e, v);
    hide Flat, HasTable;
    assert PageOk(mem, own, base, e);
    if v < USER && Flat(mem, e, v) != 0 { assert UserSlot(mem, own, e, v); }
  }
}
