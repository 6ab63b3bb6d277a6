/** The page allocator of kalloc.c and the address spaces of vm.c, on one physical memory. */
module VirtualMemory {
  import opened Blocks
  import opened Basics
  import opened PageTables
  import opened Wrappers

  // ----- the free list, linked through the first word of each free page -----

  /** P2V of a physical page, and back. */
  function Kva(p: nat): (w: Word)
    requires p < PAGES
    ensures w != 0
  {
    (USER + p) * 4096
  }

  function PageAt(w: Word): nat {
    if w / 4096 >= USER then w / 4096 - USER else 0
  }

  lemma KvaPage(p: nat)
    requires p < PAGES
    ensures PageAt(Kva(p)) == p
  {
  }

  /** The pointer to element k of the list, null past its end. */
  ghost function Ptr(free: seq<nat>, k: nat): Word {
    if k < |free| && free[k] < PAGES then Kva(free[k]) else 0
  }

  ghost predicate LinkOk(mem: seq<Page>, free: seq<nat>, base: nat, k: nat)
    requires |mem| == PAGES && k < |free|
  {
    base <= free[k] < PAGES && mem[free[k]][0] == Ptr(free, k + 1)
  }

  ghost predicate NoTwice(free: seq<nat>) {
    forall a, b :: 0 <= a < b < |free| ==> free[a] != free[b]
  }

  ghost predicate FreeOk(mem: seq<Page>, head: Word, free: seq<nat>, base: nat) {
    && |mem| == PAGES
    && 0 < base < PAGES
    && NoTwice(free)
    && head == Ptr(free, 0)
    && forall k :: 0 <= k < |free| ==> LinkOk(mem, free, base, k)
  }

  ghost predicate FreeSet(own: seq<Owner>, free: seq<nat>) {
    forall q :: 0 <= q < |own| ==> (own[q] == Free <==> q in free)
  }

  function Junk(next: Word): (r: Page)
    ensures r[0] == next
  {
    Filled(0x0101_0101)[0 := next]
  }

  lemma FreePop(mem: seq<Page>, head: Word, free: seq<nat>, base: nat)
    requires FreeOk(mem, head, free, base) && free != []
    ensures base <= free[0] < PAGES && head == Kva(free[0]) && free[0] !in free[1..]
    ensures FreeOk(mem, mem[free[0]][0], free[1..], base)
  {
    assert LinkOk(mem, free, base, 0);
    forall k | 0 <= k < |free[1..]| ensures LinkOk(mem, free[1..], base, k) {
      assert LinkOk(mem, free, base, k + 1);
    }
  }

  lemma FreePush(mem: seq<Page>, head: Word, free: seq<nat>, base: nat, p: nat)
    requires FreeOk(mem, head, free, base) && base <= p < PAGES && p !in free
    ensures FreeOk(mem[p := Junk(head)], Kva(p), [p] + free, base)
  {
    var free' := [p] + free;
    var mem' := mem[p := Junk(head)];
    forall k | 0 <= k < |free'| ensures LinkOk(mem', free', base, k) {
      if k > 0 { assert LinkOk(mem, free, base, k - 1); }
    }
  }

  lemma FreeElsewhere(mem: seq<Page>, mem': seq<Page>, head: Word, free: seq<nat>, base: nat)
    requires FreeOk(mem, head, free, base) && |mem'| == PAGES
    requires forall q :: 0 <= q < PAGES && q in free ==> mem'[q] == mem[q]
    ensures FreeOk(mem', head, free, base)
  {
    forall k | 0 <= k < |free| ensures LinkOk(mem', free, base, k) {
      assert LinkOk(mem, free, base, k);
    }
  }

  // ----- how owners and contents change -----

  /** Free pages may have become page tables of d; nothing else changed owner. */
  ghost predicate TablesAdded(own: seq<Owner>, own': seq<Owner>, d: nat) {
    && |own'| == |own|
    && forall q :: 0 <= q < |own| ==> own'[q] == own[q] || (own[q] == Free && own'[q].Table? && own'[q].d == d)
  }

  ghost predicate Structure(o: Owner, q: nat, d: nat) {
    q == d || (o.Table? && o.d == d)
  }

  /** Only free pages and the directory and tables of d may have changed contents. */
  ghost predicate DataKept(mem: seq<Page>, own: seq<Owner>, mem': seq<Page>, d: nat)
    requires Sized(mem, own) && |mem'| == PAGES
  {
    forall q :: 0 <= q < PAGES && own[q] != Free && !Structure(own[q], q, d) ==> mem'[q] == mem[q]
  }

  /** Pages lo..hi-1 of d are not mapped. */
  ghost predicate Unmapped(mem: seq<Page>, d: nat, lo: nat, hi: nat)
    requires |mem| == PAGES && d < PAGES && hi <= VIRTUAL
  {
    forall v :: lo <= v < hi ==> Flat(mem, d, v) == 0
  }

  /** How mappages ends; Remap is its panic. */
  datatype MapEnd = Done | NoMemory | Remap

  class Machine {
    /** The first page after the kernel image. */
    const base: nat
    /** The page where the kernel's writable data starts. */
    const data: nat
    var mem: seq<Page>
    var freelist: Word
    ghost var free: seq<nat>
    ghost var own: seq<Owner>

    ghost predicate Valid()
      reads this
    {
      && Owned(mem, own, base) && FreeOk(mem, freelist, free, base) && FreeSet(own, free)
      && 0x100 < data < PAGES
    }

    /** Before kinit every page after the kernel image is in nobody's hands. */
    constructor (image: nat, writable: nat, contents: seq<Page>)
      requires 0 < image < PAGES && 0x100 < writable < PAGES && |contents| == PAGES
      ensures Valid() && base == image && data == writable && free == []
      ensures own == seq(PAGES, q => if q < image then Kernel else Held)
    {
      base := image;
      data := writable;
      mem := contents;
      freelist := 0;
      free := [];
      own := seq(PAGES, q => if q < image then Kernel else Held);
    }

    /** kfree: the page becomes the head of the free list; false is its panic, for a page of the
        kernel or beyond PHYSTOP. */
    method Kfree(p: nat) returns (ok: bool)
      requires FreeOk(mem, freelist, free, base) && p !in free
      modifies `mem, `freelist, `free
      ensures ok <==> base <= p < PAGES
      ensures !ok ==> mem == old(mem) && freelist == old(freelist) && free == old(free)
      ensures ok ==> |old(mem)| == PAGES && mem == old(mem)[p := Junk(old(freelist))]
      ensures ok ==> freelist == Kva(p) && free == [p] + old(free) && FreeOk(mem, freelist, free, base)
    {
      if p < base || p >= PAGES { return false; }
      hide NoTwice, LinkOk, FreeOk, Junk;
      FreePush(mem, freelist, free, base, p);
      assert |mem| == PAGES by { FreeSized(mem, freelist, free, base); }
      mem := mem[p := Filled(0x0101_0101)];
      mem := mem[p := mem[p][0 := freelist]];
      freelist := Kva(p);
      free := [p] + free;
      assert mem == old(mem)[p := Junk(old(freelist))] by { assert Filled(0x0101_0101)[0 := old(freelist)] == Junk(old(freelist)) by { JunkIs(old(freelist)); } }
      return true;
    }

    /** kalloc: a free page, or 0 when there is none. */
    method Kalloc() returns (p: nat)
      requires Valid()
      modifies `freelist, `free, `own
      ensures Valid()
      ensures p == 0 <==> old(free) == []
      ensures p == 0 ==> freelist == old(freelist) && free == old(free) && own == old(own)
      ensures p != 0 ==> p < PAGES && old(own)[p] == Free && own == old(own)[p := Held] && free == old(free)[1..]
    {
      hide Owned, NoTwice, LinkOk;
      p := 0;
      OwnedSized(mem, own, base);
      assert free != [] <==> freelist != 0 by { if free != [] { FreePop(mem, freelist, free, base); } }
      if freelist != 0 {
        FreePop(mem, freelist, free, base);
        KvaPage(free[0]);
        p := PageAt(freelist);
        freelist := mem[p][0];
        assert own[p] == Free;
        Taken(mem, own, free, base);
        free := free[1..];
        own := own[p := Held];
      }
    }
  
    /** walkpgdir: the page table that translates v, added when alloc is set; 0 for none. */
    method Walk(d: nat, v: nat, alloc: bool) returns (t: nat)
      requires Valid() && d < PAGES && own[d] == Dir && v < VIRTUAL
      modifies this
      ensures Valid()
      ensures t == 0 ==> mem == old(mem) && own == old(own) && free == old(free) && freelist == old(freelist)
      ensures t == 0 ==> !HasTable(mem, d, v) && (alloc ==> free == [])
      ensures t != 0 ==> HasTable(mem, d, v) && t == TableOf(mem, d, v)
      ensures !alloc ==> mem == old(mem) && own == old(own) && free == old(free) && freelist == old(freelist)
      ensures TablesAdded(old(own), own, d) && DataKept(old(mem), old(own), mem, d)
      ensures AllFlatSame(old(mem), mem, old(own))
      ensures |free| + 1 >= |old(free)| && (HasTable(old(mem), d, v) ==> t != 0 && free == old(free))
    {
      hide Owned, FreeOk, FreeSet, Frame, Present, Entry, Filled, Flat;
      OwnedSized(mem, own, base);
      if Present(mem[d][Dx(v)]) {
        t := Frame(mem[d][Dx(v)]);
        TableReal(mem, own, base, d, v);
      } else {
        t := 0;
        if alloc {
          t := Kalloc();
          if t != 0 {
            TableLinked(mem, own, freelist, free, base, d, v, t);
            OwnedSized(mem, own, base);
            mem := mem[t := Filled(0)];
            mem := mem[d := mem[d][Dx(v) := Entry(t, 7)]];
            own := own[t := Table(d, Dx(v))];
          }
        }
      }
    }
  
    /** mappages: pages first..last of d, in order, to the frames from f on.  On failure the
        pages before done stay mapped; the panic comes at the first page mapped before. */
    method Mappages(d: nat, first: nat, last: nat, f: nat, perm: nat) returns (r: MapEnd, ghost done: nat)
      requires Valid() && d < PAGES && own[d] == Dir
      requires first <= last < VIRTUAL && f + (last - first) < VIRTUAL && perm < 4096
      requires HeldRange(own, first, first, last, f)
      modifies this
      ensures Valid() && first <= done <= last + 1 && (r.Done? <==> done == last + 1)
      ensures Unmapped(old(mem), d, first, done) && (r.Remap? ==> Flat(old(mem), d, done) != 0)
      ensures Mapping(old(mem), old(own), mem, own, d, first, done, f, perm)
      ensures HeldRange(own, first, done, last, f)
      ensures !r.Remap? ==> |free| + Tables(first, done) >= |old(free)|
      ensures r.NoMemory? ==> free == []
    {
      hide Owned, FreeOk, FreeSet, Flat, Mapping, HeldRange, TablesAdded, DataKept, AllFlatSame, HasTable, TableOf, Tables;
      TablesNone(first);
      var k := first;
      OwnedSized(mem, own, base);
      MappingStarts(mem, own, d, first, f, perm);
      while true
        invariant Valid() && Sized(mem, own) && first <= k <= last && own[d] == Dir
        invariant Mapping(old(mem), old(own), mem, own, d, first, k, f, perm)
        invariant HeldRange(own, first, k, last, f) && Unmapped(old(mem), d, first, k)
        invariant |free| + Tables(first, k) >= |old(free)| && (first < k ==> HasTable(mem, d, k - 1))
        decreases last - k
      {
        TablesNext(first, k);
        if first < k && Dx(k) == Dx(k - 1) { SameTable(mem, d, k); }
        ghost var mem1, own1 := mem, own;
        OwnedSized(mem, own, base);
        var t := Walk(d, k, true);
        OwnedSized(mem, own, base);
        MappingWalk(old(mem), old(own), mem1, own1, mem, own, d, first, k, f, perm);
        HeldWalk(own1, own, d, first, k, last, f);
        if t == 0 { return NoMemory, k; }
        MappingUnmapped(old(mem), old(own), mem, own, d, first, k, f, perm);
        TableBelow(mem, d, k);
        FlatIs(mem, d, k);
        if Present(mem[t][Tx(k)]) { return Remap, k; }
        var w := Entry(f + (k - first), WithP(perm));
        MapStep(mem, own, freelist, free, base, d, k, w, first, last, f, perm);
        MappingSet(old(mem), old(own), mem, own, base, d, first, k, last, f, perm);
        TableBelow(mem, d, k);
        mem := mem[t := mem[t][Tx(k) := w]];
        own := MapOwn(own, d, k, w);
        if k == last { return Done, k + 1; }
        k := k + 1;
      }
    }
  
    /** deallocuvm: the user pages between the two sizes are unmapped and freed. */
    method Deallocuvm(d: nat, oldsz: nat, newsz: nat) returns (r: nat)
      requires Valid() && d < PAGES && own[d] == Dir && oldsz <= KERNBASE
      modifies this
      ensures Valid()
      ensures newsz >= oldsz ==> r == oldsz && mem == old(mem) && own == old(own) && free == old(free)
      ensures newsz < oldsz ==> r == newsz && Cutting(old(mem), old(own), mem, own, d, Up(newsz), Up(oldsz))
    {
      hide Owned, FreeOk, FreeSet, Flat, Cutting, TablesAdded, DataKept, AllFlatSame, HasTable, TableOf;
      if newsz >= oldsz { return oldsz; }
      var v := Up(newsz);
      ghost var hi := Up(oldsz);
      UpOrder(newsz, oldsz);
      OwnedSized(mem, own, base);
      CuttingStarts(mem, own, d, v);
      while v * 4096 < oldsz
        invariant Valid() && Sized(mem, own) && own[d] == Dir && Up(newsz) <= v <= USER
        invariant Cutting(old(mem), old(own), mem, own, d, Up(newsz), Least(v, hi))
        decreases USER - v
      {
        UpBelow(v, oldsz);
        var t := Walk(d, v, false);
        if t == 0 {
          NoTable(mem, d, v);
          NextTable(v);
          CuttingSkips(old(mem), old(own), mem, own, base, d, Up(newsz), v, Least((Dx(v) + 1) * 1024, hi));
          v := (Dx(v) + 1) * 1024 - 1;
        } else {
          TableBelow(mem, d, v);
          var w := mem[t][Tx(v)];
          FlatIs(mem, d, v);
          if Present(w) {
            var p := Frame(w);
            UserReal(mem, own, base, d, v, free);
            DropStep(mem, own, freelist, free, base, d, v);
            CuttingDrops(old(mem), old(own), mem, own, base, freelist, d, Up(newsz), v);
            var _ := Kfree(p);
            TableBelow(mem, d, v);
            mem := mem[t := mem[t][Tx(v) := 0]];
            own := own[p := Free];
          } else {
            CuttingSkips(old(mem), old(own), mem, own, base, d, Up(newsz), v, v + 1);
          }
        }
        v := v + 1;
      }
      UpBelow(v, oldsz);
      return newsz;
    }
  
    /** kfree of a page its caller holds. */
    method Release(p: nat)
      requires Valid() && p < PAGES && own[p] == Held
      modifies this
      ensures Valid() && own == old(own)[p := Free] && mem == old(mem)[p := Junk(old(freelist))]
      ensures free == [p] + old(free)
      ensures AllFlatSame(old(mem), mem, old(own))
    {
      hide Owned, FreeOk, FreeSet, AllFlatSame, Junk;
      OwnedSized(mem, own, base);
      Released(mem, own, freelist, free, base, p);
      var _ := Kfree(p);
      own := own[p := Free];
    }

    /** freevm: every page of the address space, its tables and its directory become free. */
    method Freevm(d: nat)
      requires Valid() && d < PAGES && own[d] == Dir
      modifies this
      ensures Valid() && SpaceFreed(old(mem), old(own), mem, own, d)
    {
      hide Owned, FreeOk, FreeSet, Flat, Frame, Cutting, Orphaned, TablesFreed, Junk, AllFlatSame, Within;
      OwnedSized(mem, own, base);
      assert Up(0) == 0 && Up(KERNBASE) == USER;
      var _ := Deallocuvm(d, KERNBASE, 0);
      ghost var mem1, own1 := mem, own;
      OwnedSized(mem, own, base);
      CutDir(old(mem), old(own), mem1, own1, d);
      OrphanedKeeps(mem, own, base, d);
      OrphanedFree(own, d, free);
      own := Orphaned(own, d);
      TablesFreedStarts(mem1, own1, d);
      var i := 0;
      while i < 1024
        invariant 0 <= i <= 1024 && Valid() && Sized(mem, own)
        invariant TablesFreed(mem1, own1, mem, own, d, i)
        invariant mem[d] == mem1[d] && own[d] == Held
      {
        if Present(mem[d][i]) {
          var t := Frame(mem[d][i]);
          TableToFree(mem1, own1, mem, own, base, d, i);
          TablesFreedNext(mem1, own1, mem, own, base, freelist, d, i);
          Release(t);
        } else {
          TablesFreedSkip(mem1, own1, mem, own, base, d, i);
        }
        i := i + 1;
      }
      SpaceGone(old(mem), old(own), mem1, own1, mem, own, base, freelist, d);
      Release(d);
    }
  
    /** allocuvm: zeroed pages for the addresses between the two sizes, or nothing.  It fails only
        when memory is short, and panics, None, only when some page between them is mapped. */
    method Allocuvm(d: nat, oldsz: nat, newsz: nat) returns (r: Option<nat>)
      requires Valid() && d < PAGES && own[d] == Dir
      modifies this
      ensures Valid()
      ensures newsz >= KERNBASE ==> r == Some(0) && mem == old(mem) && own == old(own) && free == old(free)
      ensures newsz < KERNBASE && newsz < oldsz ==> r == Some(oldsz) && mem == old(mem) && own == old(own) && free == old(free)
      ensures oldsz <= newsz < KERNBASE ==>
                && Up(newsz) <= USER
                && var clean := Unmapped(old(mem), d, Up(oldsz), Up(newsz));
                   || (r.None? && !clean)
                   || (r == Some(newsz) && clean && Growing(old(mem), old(own), mem, own, d, Up(oldsz), Up(newsz)))
                   || (r == Some(0) && |old(free)| < 2 * (Up(newsz) - Up(oldsz))
                       && Unmapped(mem, d, Up(oldsz), Up(newsz)) && (clean ==> NotGrown(old(mem), old(own), mem, own, d)))
    {
      hide Owned, FreeOk, FreeSet, Flat, Mapping, HeldRange, Growing, NotGrown, Cutting, AllFlatSame, Tables, Up, Unmapped;
      if newsz >= KERNBASE { return Some(0); }
      if newsz < oldsz { return Some(oldsz); }
      var v := Up(oldsz);
      ghost var lo, hi := Up(oldsz), Up(newsz);
      UpOrder(oldsz, newsz);
      OwnedSized(mem, own, base);
      GrowingStarts(mem, own, d, v);
      ghost var clean := Unmapped(mem, d, lo, hi);
      UnmappedNone(mem, d, lo);
      while v * 4096 < newsz
        invariant Valid() && Sized(mem, own) && own[d] == Dir && lo <= v <= hi <= USER
        invariant Growing(old(mem), old(own), mem, own, d, lo, v) && Unmapped(old(mem), d, lo, v)
        invariant |free| + 2 * (v - lo) >= |old(free)|
        decreases hi - v
      {
        UpBelow(v, newsz);
        assert oldsz < newsz by { if newsz <= oldsz { UpOrder(newsz, oldsz); } }
        ghost var mem1, own1 := mem, own;
        var p := Kalloc();
        if p == 0 {
          var _ := Deallocuvm(d, newsz, oldsz);
          OwnedSized(mem, own, base);
          CutUnmapped(mem1, own1, mem, own, d, lo, hi);
          if clean { GrowthUndone(old(mem), old(own), mem1, own1, mem, own, base, d, lo, v, hi); }
          return Some(0);
        }
        HeldWrite(mem, own, freelist, free, base, p, Filled(0));
        mem := mem[p := Filled(0)];
        ghost var mem2, own2 := mem, own;
        GrowingUnmapped(old(mem), old(own), mem1, own1, mem2, own2, d, lo, v);
        HeldOne(own, v, p);
        TablesOne(v);
        var m, done := Mappages(d, v, v, p, PTE_W + PTE_U);
        OwnedSized(mem, own, base);
        if m.Remap? {
          MappedWithin(old(mem), d, lo, v, hi);
          return None;
        }
        if m.NoMemory? {
          HeldStill(own, v, p);
          GrowingFails(old(mem), old(own), mem1, own1, mem2, own2, mem, own, base, d, lo, v, p);
          ghost var mem3, own3 := mem, own;
          var _ := Deallocuvm(d, newsz, oldsz);
          OwnedSized(mem, own, base);
          CutHeld(mem3, own3, mem, own, d, lo, hi, p);
          ghost var mem4, own4 := mem, own;
          Release(p);
          CutReleased(mem3, own3, mem4, own4, mem, own, d, lo, hi, p);
          CutUnmapped(mem3, own3[p := Free], mem, own, d, lo, hi);
          if clean { GrowthUndone(old(mem), old(own), mem3, own3[p := Free], mem, own, base, d, lo, v, hi); }
          return Some(0);
        }
        UnmappedNext(old(mem), mem2, d, lo, v);
        GrowingNext(old(mem), old(own), mem1, own1, mem2, own2, mem, own, base, d, lo, v, p);
        v := v + 1;
      }
      UpBelow(v, newsz);
      return Some(newsz);
    }
  
    /** freerange: pages lo..hi-1 go to the free list. */
    method Freerange(lo: nat, hi: nat)
      requires Valid() && lo <= hi <= PAGES && forall q :: lo <= q < hi ==> own[q] == Held
      modifies this
      ensures Valid() && |free| == |old(free)| + (hi - lo)
      ensures forall q :: 0 <= q < PAGES ==> own[q] == if lo <= q < hi then Free else old(own)[q]
    {
      hide Owned, FreeOk, FreeSet, AllFlatSame;
      OwnedSized(mem, own, base);
      var p := lo;
      while p < hi
        invariant Valid() && Sized(mem, own) && lo <= p <= hi && |free| == |old(free)| + (p - lo)
        invariant forall q :: 0 <= q < PAGES ==> own[q] == if lo <= q < p then Free else old(own)[q]
      {
        Release(p);
        p := p + 1;
      }
    }

    /** setupkvm: a directory with the kernel's mappings and an empty user half; on failure every
        page it took is free again. */
    method Setupkvm() returns (d: nat)
      requires Valid()
      modifies this
      ensures Valid() && OldKept(old(mem), old(own), mem)
      ensures d == 0 ==> own == old(own) && |old(free)| <= 67
      ensures d != 0 ==> NewSpace(old(own), own, d) && KernelOnly(mem, d, data)
      ensures d != 0 ==> |free| + 67 >= |old(free)|
    {
      hide Owned, FreeOk, FreeSet, Flat, Mapping, HeldRange, AllFlatSame, SpaceFreed, NewSpace, OldKept, KmapFlat, Tables, KmapTables;
      OwnedSized(mem, own, base);
      d := Kalloc();
      OldKeptStarts(mem, old(own));
      if d == 0 { return; }
      NewSpaceStarts(mem, old(own), own, freelist, free, base, d);
      mem := mem[d := Filled(0)];
      own := own[d := Dir];
      var kmap := Kmap(data);
      var n := 0;
      KmapNone(data);
      while n < 4
        invariant 0 <= n <= 4 && Valid() && Sized(mem, own)
        invariant NewSpace(old(own), own, d) && OldKept(old(mem), old(own), mem)
        invariant forall v :: 0 <= v < VIRTUAL ==> Flat(mem, d, v) == KmapFlat(data, n, v)
        invariant |free| + 1 + KmapTables(data, n) >= |old(free)|
      {
        var r := kmap[n];
        ghost var mem1, own1 := mem, own;
        NewSpaceDir(old(own), own, d);
        KmapFresh(data, n);
        HeldKernel(own, r.virt, r.virt + Size(r) - 1, r.phys);
        var m, done := Mappages(d, r.virt, r.virt + Size(r) - 1, r.phys, r.perm);
        assert !m.Remap?;
        OwnedSized(mem, own, base);
        NewSpaceMaps(old(mem), old(own), base, mem1, own1, mem, own, d, r.virt, done, r.phys, r.perm);
        KmapCount(data, n, done);
        if m.NoMemory? {
          ghost var mem2, own2 := mem, own;
          NewSpaceDir(old(own), own, d);
          Freevm(d);
          NewSpaceUndone(old(mem), old(own), base, mem2, own2, mem, own, d);
          return 0;
        }
        KmapNext(data, n, mem1, own1, mem, own, d);
        n := n + 1;
      }
      KmapCount(data, 4, 0);
      KernelOnlyHolds(mem, d, data);
    }

    /** copyuvm: a second address space with equal pages and flags on pages that were free; on
        failure every page it took is free again.  It panics, None, only when some page below sz is
        not mapped. */
    method Copyuvm(e: nat, sz: nat) returns (r: Option<nat>)
      requires Valid() && e < PAGES && own[e] == Dir && sz <= KERNBASE
      modifies this
      ensures Valid() && OldKept(old(mem), old(own), mem) && Up(sz) <= USER
      ensures r.None? ==> !Mapped(old(mem), e, Up(sz))
      ensures r == Some(0) ==> own == old(own) && |old(free)| <= 67 + 2 * Up(sz)
      ensures r.Some? && r.value != 0 ==>
                && Mapped(old(mem), e, Up(sz)) && NewSpace(old(own), own, r.value)
                && Copied(old(mem), old(own), mem, e, r.value, Up(sz), data)
    {
      hide Owned, FreeOk, FreeSet, Flat, Frame, Flags, Present, Mapping, HeldRange, AllFlatSame, SpaceFreed, NewSpace;
      hide OldKept, Tables, Up, Copied, KernelOnly, HasTable, TableOf, Filled, Mapped;
      OwnedSized(mem, own, base);
      UpBelow(0, sz);
      UpOrder(0, sz);
      MappedNone(mem, e);
      var d := Setupkvm();
      if d == 0 { return Some(0); }
      OwnedSized(mem, own, base);
      NewSpaceDir(old(own), own, d);
      CopiedStarts(old(mem), old(own), mem, e, d, data);
      var v := 0;
      while v * 4096 < sz
        invariant Valid() && Sized(mem, own) && 0 <= v <= Up(sz) <= USER
        invariant NewSpace(old(own), own, d) && OldKept(old(mem), old(own), mem)
        invariant Copied(old(mem), old(own), mem, e, d, v, data) && Mapped(old(mem), e, v)
        invariant |free| + 67 + 2 * v >= |old(free)|
        decreases Up(sz) - v
      {
        UpBelow(v, sz);
        NewSpaceDir(old(own), own, d);
        NewSpaceOld(old(own), own, d, e);
        OldFlat(old(mem), old(own), base, mem, e, v);
        ghost var mem1, own1 := mem, own;
        var t := Walk(e, v, false);
        if t == 0 {
          NoTable(mem, e, v);
          NotMapped(old(mem), e, v, Up(sz));
          return None;
        }
        TableBelow(mem, e, v);
        var w := mem[t][Tx(v)];
        FlatIs(mem, e, v);
        if !Present(w) {
          NotMapped(old(mem), e, v, Up(sz));
          return None;
        }
        MappedNext(old(mem), e, v);
        UserReal(mem, own, base, e, v, free);
        var p := Kalloc();
        if p == 0 {
          Freevm(d);
          NewSpaceUndone(old(mem), old(own), base, mem1, own1, mem, own, d);
          return Some(0);
        }
        HeldWrite(mem, own, freelist, free, base, p, mem[Frame(w)]);
        mem := mem[p := mem[Frame(w)]];
        ghost var mem2, own2 := mem, own;
        CopiedUnmapped(old(mem), old(own), mem1, own1, mem2, own2, e, d, v, data);
        HeldOne(own, v, p);
        TablesOne(v);
        var m, done := Mappages(d, v, v, p, Flags(w));
        assert !m.Remap?;
        OwnedSized(mem, own, base);
        if m.NoMemory? {
          HeldStill(own, v, p);
          NewSpaceFails(old(mem), old(own), base, mem1, own1, mem2, own2, mem, own, d, v, p, Flags(w));
          ghost var mem3, own3 := mem, own;
          Release(p);
          NewSpaceReleased(old(mem), old(own), mem3, own3, mem, own, d, p);
          ghost var mem4, own4 := mem, own;
          NewSpaceDir(old(own), own, d);
          Freevm(d);
          NewSpaceUndone(old(mem), old(own), base, mem4, own4, mem, own, d);
          return Some(0);
        }
        EntryWhole(w);
        CopiedNext(old(mem), old(own), mem1, own1, mem2, own2, mem, own, base, e, d, v, p, data);
        NewSpaceGrows(old(mem), old(own), base, mem1, own1, mem2, own2, mem, own, d, v, p, Flags(w));
        v := v + 1;
      }
      UpBelow(v, sz);
      return Some(d);
    }
  }

  lemma UnmappedNone(mem: seq<Page>, d: nat, lo: nat)
    requires |mem| == PAGES && d < PAGES && lo <= VIRTUAL
    ensures Unmapped(mem, d, lo, lo)
  {
  }

  lemma UnmappedNext(mem: seq<Page>, mem2: seq<Page>, d: nat, lo: nat, v: nat)
    requires |mem| == |mem2| == PAGES && d < PAGES && v < VIRTUAL && Flat(mem2, d, v) == Flat(mem, d, v)
    requires Unmapped(mem, d, lo, v) && Unmapped(mem2, d, v, v + 1)
    ensures Unmapped(mem, d, lo, v + 1)
  {
  }

  lemma MappedWithin(mem: seq<Page>, d: nat, lo: nat, v: nat, hi: nat)
    requires |mem| == PAGES && d < PAGES && lo <= v < hi <= VIRTUAL && Flat(mem, d, v) != 0
    ensures !Unmapped(mem, d, lo, hi)
  {
  }

  lemma CutUnmapped(mem: seq<Page>, own: seq<Owner>, mem': seq<Page>, own': seq<Owner>, d: nat, lo: nat, hi: nat)
    requires Sized(mem, own) && Sized(mem', own') && d < PAGES && hi <= VIRTUAL && Cutting(mem, own, mem', own', d, lo, hi)
    ensures Unmapped(mem', d, lo, hi)
  {
    hide Flat;
  }

  /** Pages 0..k-1 of e are mapped. */
  ghost predicate Mapped(mem: seq<Page>, e: nat, k: nat)
    requires |mem| == PAGES && e < PAGES && k <= VIRTUAL
  {
    forall v :: 0 <= v < k ==> Flat(mem, e, v) != 0
  }

  lemma MappedNone(mem: seq<Page>, e: nat)
    requires |mem| == PAGES && e < PAGES
    ensures Mapped(mem, e, 0)
  {
  }

  lemma MappedNext(mem: seq<Page>, e: nat, v: nat)
    requires |mem| == PAGES && e < PAGES && v < VIRTUAL && Mapped(mem, e, v) && Flat(mem, e, v) != 0
    ensures Mapped(mem, e, v + 1)
  {
  }

  lemma NotMapped(mem: seq<Page>, e: nat, v: nat, k: nat)
    requires |mem| == PAGES && e < PAGES && v < k <= VIRTUAL && Flat(mem, e, v) == 0
    ensures !Mapped(mem, e, k)
  {
  }

  // ----- the kernel's mappings -----

  datatype Region = Region(virt: nat, phys: nat, end: nat, perm: nat)

  /** kmap, in pages: I/O space, kernel text, kernel data and memory, devices (whose end wraps to 0). */
  function Kmap(data: nat): (r: seq<Region>)
    ensures |r| == 4
  {
    [Region(USER, 0, 0x100, PTE_W),
     Region(USER + 0x100, 0x100, data, 0),
     Region(USER + data, data, PAGES, PTE_W),
     Region(0xF_E000, 0xF_E000, 0, PTE_W)]
  }

  function Size(r: Region): nat {
    (r.end - r.phys) % VIRTUAL
  }

  ghost predicate Covers(r: Region, v: nat) {
    r.virt <= v < r.virt + Size(r)
  }

  ghost predicate RegionOk(r: Region) {
    USER <= r.virt && 0 < Size(r) && r.virt + Size(r) <= VIRTUAL && r.phys + Size(r) <= VIRTUAL && r.perm < 4096
  }

  lemma KmapOk(data: nat, n: nat)
    requires 0x100 < data < PAGES && n < 4
    ensures RegionOk(Kmap(data)[n])
  {
  }

  /** What the first n regions map v to. */
  ghost function KmapFlat(data: nat, n: nat, v: nat): Word
    requires 0x100 < data < PAGES && n <= 4 && v < VIRTUAL
  {
    if n == 0 then 0
    else
      var r := Kmap(data)[n - 1];
      KmapOk(data, n - 1);
      if Covers(r, v) then Entry(r.phys + (v - r.virt), WithP(r.perm)) else KmapFlat(data, n - 1, v)
  }

  /** The kernel half: physical memory at KERNBASE, read-only exactly over the kernel text, and the
      devices at their own addresses. */
  ghost function KernelFlat(data: nat, v: nat): Word
    requires v < VIRTUAL
  {
    if USER <= v < USER + PAGES then
      Entry(v - USER, if 0x100 <= v - USER < data then PTE_P else PTE_W + PTE_P)
    else if v >= 0xF_E000 then Entry(v, PTE_W + PTE_P)
    else 0
  }

  lemma KmapIsKernel(data: nat, v: nat)
    requires 0x100 < data < PAGES && v < VIRTUAL
    ensures KmapFlat(data, 4, v) == KernelFlat(data, v)
  {
    hide Entry;
    assert KmapFlat(data, 1, v) == if USER <= v < USER + 0x100 then Entry(v - USER, 3) else 0;
    assert KmapFlat(data, 2, v) == if USER + 0x100 <= v < USER + data then Entry(v - USER, 1) else KmapFlat(data, 1, v);
    assert KmapFlat(data, 3, v) == if USER + data <= v < USER + PAGES then Entry(v - USER, 3) else KmapFlat(data, 2, v);
  }

  lemma KmapNone(data: nat)
    requires 0x100 < data < PAGES
    ensures forall v :: 0 <= v < VIRTUAL ==> KmapFlat(data, 0, v) == 0
    ensures KmapTables(data, 0) == 0
  {
  }

  /** The regions do not overlap. */
  lemma KmapFresh(data: nat, n: nat)
    requires 0x100 < data < PAGES && n < 4
    ensures var r := Kmap(data)[n]; RegionOk(r) && forall v :: r.virt <= v < r.virt + Size(r) ==> KmapFlat(data, n, v) == 0
  {
    KmapOk(data, n);
    var r := Kmap(data)[n];
    forall v | r.virt <= v < r.virt + Size(r) ensures KmapFlat(data, n, v) == 0 {
      KmapApart(data, n, v);
      Uncovered(data, n, v);
    }
  }

  lemma KmapApart(data: nat, n: nat, v: nat)
    requires 0x100 < data < PAGES && n < 4 && Covers(Kmap(data)[n], v)
    ensures forall m :: 0 <= m < n ==> !Covers(Kmap(data)[m], v)
  {
  }

  lemma {:induction false} Uncovered(data: nat, n: nat, v: nat)
    requires 0x100 < data < PAGES && n <= 4 && v < VIRTUAL
    requires forall m :: 0 <= m < n ==> !Covers(Kmap(data)[m], v)
    ensures KmapFlat(data, n, v) == 0
  {
    hide Kmap, Covers, Entry;
    if n > 0 { Uncovered(data, n - 1, v); }
  }

  lemma KmapNext(data: nat, n: nat, mem: seq<Page>, own: seq<Owner>, mem': seq<Page>, own': seq<Owner>, d: nat)
    requires 0x100 < data < PAGES && n < 4 && Sized(mem, own) && Sized(mem', own') && d < PAGES
    requires forall v :: 0 <= v < VIRTUAL ==> Flat(mem, d, v) == KmapFlat(data, n, v)
    requires var r := Kmap(data)[n]; RegionOk(r) && Mapping(mem, own, mem', own', d, r.virt, r.virt + Size(r), r.phys, r.perm)
    ensures forall v :: 0 <= v < VIRTUAL ==> Flat(mem', d, v) == KmapFlat(data, n + 1, v)
  {
    hide Flat, Entry, Kmap, Size;
  }

  ghost function KmapTables(data: nat, n: nat): nat
    requires 0x100 < data < PAGES && n <= 4
  {
    if n == 0 then 0
    else
      KmapOk(data, n - 1);
      var r := Kmap(data)[n - 1];
      KmapTables(data, n - 1) + Tables(r.virt, r.virt + Size(r))
  }

  lemma KmapRanges(data: nat)
    requires 0x100 < data < PAGES
    ensures var k := Kmap(data);
            && k[0].virt == USER && k[0].virt + Size(k[0]) == USER + 0x100
            && k[1].virt == USER + 0x100 && k[1].virt + Size(k[1]) == USER + data
            && k[2].virt == USER + data && k[2].virt + Size(k[2]) == USER + PAGES
            && k[3].virt == 0xF_E000 && k[3].virt + Size(k[3]) == VIRTUAL
  {
  }

  lemma KmapTablesSum(data: nat)
    requires 0x100 < data < PAGES
    ensures KmapTables(data, 1) == 1 && KmapTables(data, 2) == 1 + Tables(USER + 0x100, USER + data)
    ensures KmapTables(data, 3) == KmapTables(data, 2) + Tables(USER + data, USER + PAGES)
    ensures KmapTables(data, 4) == KmapTables(data, 3) + 8 <= 66
  {
    TablesEach(data);
    assert KmapTables(data, 0) == 0;
    KmapRanges(data);
    hide Tables, KmapTables, Kmap, Size;
    KmapTablesNext(data, 0);
    KmapTablesNext(data, 1);
    KmapTablesNext(data, 2);
    KmapTablesNext(data, 3);
  }

  lemma KmapTablesNext(data: nat, n: nat)
    requires 0x100 < data < PAGES && n < 4
    ensures var r := Kmap(data)[n];
            RegionOk(r) && KmapTables(data, n + 1) == KmapTables(data, n) + Tables(r.virt, r.virt + Size(r))
  {
    KmapOk(data, n);
    hide Tables, Kmap, Size;
  }

  /** All regions need at most 66 page tables. */
  lemma KmapCount(data: nat, n: nat, done: nat)
    requires 0x100 < data < PAGES && n <= 4
    requires n < 4 ==> var r := Kmap(data)[n]; r.virt <= done <= r.virt + Size(r)
    ensures KmapTables(data, n) <= 66
    ensures n < 4 ==> var r := Kmap(data)[n];
                      RegionOk(r) && KmapTables(data, n) + Tables(r.virt, done) <= 66
                      && KmapTables(data, n + 1) == KmapTables(data, n) + Tables(r.virt, r.virt + Size(r))
  {
    hide KmapTables, Tables, Kmap, Size;
    KmapTablesSum(data);
    if n < 4 {
      KmapTablesNext(data, n);
      var r := Kmap(data)[n];
      TablesGrow(r.virt, done, r.virt + Size(r));
    }
  }

  lemma TablesGrow(first: nat, k: nat, m: nat)
    requires first <= k <= m <= VIRTUAL
    ensures Tables(first, k) <= Tables(first, m)
  {
  }

  lemma TablesEach(data: nat)
    requires 0x100 < data < PAGES
    ensures Tables(USER, USER + 0x100) == 1
    ensures Tables(USER + 0x100, USER + data) + Tables(USER + data, USER + PAGES) <= 57
    ensures Tables(0xF_E000, VIRTUAL) == 8
  {
  }

  lemma HeldKernel(own: seq<Owner>, first: nat, last: nat, f: nat)
    requires USER <= first
    ensures HeldRange(own, first, first, last, f)
  {
  }

  // ----- a new address space -----

  /** Directory d is new: every owner is as before, or was free and now belongs to d. */
  ghost predicate NewSpace(own: seq<Owner>, own': seq<Owner>, d: nat) {
    && |own| == PAGES && |own'| == PAGES && d < PAGES
    && own[d] == Free && own'[d] == Dir
    && forall q :: 0 <= q < PAGES ==> own'[q] == own[q] || (own[q] == Free && Within(own'[q], q, d))
  }

  ghost predicate KernelOnly(mem: seq<Page>, d: nat, data: nat)
    requires |mem| == PAGES && d < PAGES
  {
    forall v :: 0 <= v < VIRTUAL ==> Flat(mem, d, v) == KernelFlat(data, v)
  }

  lemma KernelOnlyHolds(mem: seq<Page>, d: nat, data: nat)
    requires |mem| == PAGES && d < PAGES && 0x100 < data < PAGES
    requires forall v :: 0 <= v < VIRTUAL ==> Flat(mem, d, v) == KmapFlat(data, 4, v)
    ensures KernelOnly(mem, d, data)
  {
    hide Flat, KmapFlat, KernelFlat;
    forall v | 0 <= v < VIRTUAL ensures Flat(mem, d, v) == KernelFlat(data, v) {
      KmapIsKernel(data, v);
    }
  }

  lemma OldKeptStarts(mem: seq<Page>, own: seq<Owner>)
    requires Sized(mem, own)
    ensures OldKept(mem, own, mem)
  {
  }

  lemma NewSpaceDir(own: seq<Owner>, own': seq<Owner>, d: nat)
    requires NewSpace(own, own', d)
    ensures d < PAGES && |own'| == PAGES && own'[d] == Dir
  {
  }

  lemma NewSpaceOld(own: seq<Owner>, own': seq<Owner>, d: nat, e: nat)
    requires NewSpace(own, own', d) && e < PAGES && own[e] == Dir
    ensures own'[e] == Dir && e != d
  {
  }

  lemma NewSpaceStarts(mem: seq<Page>, own: seq<Owner>, own1: seq<Owner>, head: Word, free: seq<nat>, base: nat, d: nat)
    requires Sized(mem, own) && Owned(mem, own1, base) && FreeOk(mem, head, free, base) && FreeSet(own1, free)
    requires d < PAGES && own[d] == Free && own1 == own[d := Held]
    ensures var mem' := mem[d := Filled(0)];
            var own' := own1[d := Dir];
            && Owned(mem', own', base) && FreeOk(mem', head, free, base) && FreeSet(own', free)
            && NewSpace(own, own', d) && OldKept(mem, own, mem')
            && forall v :: 0 <= v < VIRTUAL ==> Flat(mem', d, v) == 0
  {
    hide Owned, FreeOk, Flat, Filled;
    HeldWrite(mem, own1, head, free, base, d, Filled(0));
    NewDir(mem[d := Filled(0)], own1, base, d);
  }

  lemma NewSpaceMaps(mem: seq<Page>, own: seq<Owner>, base: nat, mem1: seq<Page>, own1: seq<Owner>,
                     mem2: seq<Page>, own2: seq<Owner>, d: nat, first: nat, k: nat, f: nat, perm: nat)
    requires Owned(mem, own, base) && Sized(mem1, own1) && Sized(mem2, own2)
    requires NewSpace(own, own1, d) && OldKept(mem, own, mem1)
    requires USER <= first <= k <= VIRTUAL && f + (k - first) <= VIRTUAL && perm < 4096
    requires Mapping(mem1, own1, mem2, own2, d, first, k, f, perm)
    ensures NewSpace(own, own2, d) && OldKept(mem, own, mem2)
  {
    hide Owned, FlatRange;
    OwnedSized(mem, own, base);
    forall q | 0 <= q < PAGES && own[q] != Free ensures !Within(own[q], q, d) {
      NobodyWithin(mem, own, base, d, q);
    }
  }

  /** Freeing a new address space restores every owner. */
  lemma NewSpaceUndone(mem: seq<Page>, own: seq<Owner>, base: nat, mem1: seq<Page>, own1: seq<Owner>,
                       mem2: seq<Page>, own2: seq<Owner>, d: nat)
    requires Owned(mem, own, base) && Sized(mem1, own1) && NewSpace(own, own1, d) && OldKept(mem, own, mem1)
    requires SpaceFreed(mem1, own1, mem2, own2, d)
    ensures own2 == own && OldKept(mem, own, mem2)
  {
    hide Owned;
    OwnedSized(mem, own, base);
    forall q | 0 <= q < PAGES && own[q] != Free ensures !Within(own[q], q, d) {
      NobodyWithin(mem, own, base, d, q);
    }
  }

  /** mappages failed for a held page p: only tables were added. */
  lemma NewSpaceFails(mem: seq<Page>, own: seq<Owner>, base: nat, mem1: seq<Page>, own1: seq<Owner>,
                      mem2: seq<Page>, own2: seq<Owner>, mem3: seq<Page>, own3: seq<Owner>, d: nat, v: nat, p: nat, perm: nat)
    requires Owned(mem, own, base) && Sized(mem1, own1) && Sized(mem2, own2) && Sized(mem3, own3)
    requires NewSpace(own, own1, d) && OldKept(mem, own, mem1) && p < PAGES && own1[p] == Free && own3[p] == Held
    requires mem2 == mem1[p := mem2[p]] && own2 == own1[p := Held] && v < USER && perm < 4096
    requires Mapping(mem2, own2, mem3, own3, d, v, v, p, perm)
    ensures NewSpace(own, own3[p := Free], d) && OldKept(mem, own, mem3)
  {
    hide Owned, FlatRange;
    OwnedSized(mem, own, base);
    forall q | 0 <= q < PAGES && own[q] != Free ensures !Within(own[q], q, d) {
      NobodyWithin(mem, own, base, d, q);
    }
  }

  lemma NewSpaceReleased(mem: seq<Page>, own: seq<Owner>, mem1: seq<Page>, own1: seq<Owner>,
                         mem2: seq<Page>, own2: seq<Owner>, d: nat, p: nat)
    requires Sized(mem, own) && Sized(mem1, own1) && Sized(mem2, own2) && p < PAGES && own1[p] == Held
    requires NewSpace(own, own1[p := Free], d) && OldKept(mem, own, mem1)
    requires own2 == own1[p := Free] && forall q :: 0 <= q < PAGES && q != p ==> mem2[q] == mem1[q]
    ensures NewSpace(own, own2, d) && OldKept(mem, own, mem2)
  {
  }

  lemma NewSpaceGrows(mem: seq<Page>, own: seq<Owner>, base: nat, mem1: seq<Page>, own1: seq<Owner>,
                      mem2: seq<Page>, own2: seq<Owner>, mem3: seq<Page>, own3: seq<Owner>, d: nat, v: nat, p: nat, perm: nat)
    requires Owned(mem, own, base) && Sized(mem1, own1) && Sized(mem2, own2) && Owned(mem3, own3, base)
    requires NewSpace(own, own1, d) && OldKept(mem, own, mem1) && p < PAGES && own1[p] == Free
    requires mem2 == mem1[p := mem2[p]] && own2 == own1[p := Held] && v < USER && perm < 4096
    requires Mapping(mem2, own2, mem3, own3, d, v, v + 1, p, perm)
    ensures NewSpace(own, own3, d) && OldKept(mem, own, mem3)
  {
    MappedOwner(mem2, own2, mem3, own3, base, d, v, p, perm);
    hide Owned, FlatRange;
    OwnedSized(mem, own, base);
    OwnedSized(mem3, own3, base);
    forall q | 0 <= q < PAGES && own[q] != Free ensures !Within(own[q], q, d) {
      NobodyWithin(mem, own, base, d, q);
    }
  }

  // ----- what copyuvm does -----

  /** w is a fresh page with the flags and contents that old had. */
  ghost predicate SamePage(mem: seq<Page>, own: seq<Owner>, mem': seq<Page>, old': Word, w: Word)
    requires Sized(mem, own) && |mem'| == PAGES
  {
    && Flags(w) == Flags(old') && Frame(w) < PAGES && Frame(old') < PAGES
    && own[Frame(w)] == Free && mem'[Frame(w)] == mem[Frame(old')]
  }

  ghost predicate CopiedAt(mem: seq<Page>, own: seq<Owner>, mem': seq<Page>, e: nat, d: nat, k: nat, data: nat, v: nat)
    requires Sized(mem, own) && |mem'| == PAGES && e < PAGES && d < PAGES && v < VIRTUAL
  {
    if v < k then Flat(mem', d, v) != 0 && SamePage(mem, own, mem', Flat(mem, e, v), Flat(mem', d, v))
    else Flat(mem', d, v) == KernelFlat(data, v)
  }

  /** The first k pages of d are copies of those of e; the rest is a bare kernel address space. */
  ghost predicate Copied(mem: seq<Page>, own: seq<Owner>, mem': seq<Page>, e: nat, d: nat, k: nat, data: nat)
    requires Sized(mem, own) && |mem'| == PAGES && e < PAGES && d < PAGES
  {
    forall v :: 0 <= v < VIRTUAL ==> CopiedAt(mem, own, mem', e, d, k, data, v)
  }

  lemma CopiedStarts(mem: seq<Page>, own: seq<Owner>, mem': seq<Page>, e: nat, d: nat, data: nat)
    requires Sized(mem, own) && |mem'| == PAGES && e < PAGES && d < PAGES && KernelOnly(mem', d, data)
    ensures Copied(mem, own, mem', e, d, 0, data)
  {
    hide Flat, KernelFlat;
  }

  lemma CopiedUnmapped(mem: seq<Page>, own: seq<Owner>, mem1: seq<Page>, own1: seq<Owner>, mem2: seq<Page>, own2: seq<Owner>,
                       e: nat, d: nat, v: nat, data: nat)
    requires Sized(mem, own) && Sized(mem1, own1) && Sized(mem2, own2) && e < PAGES && d < PAGES && own2[d] == Dir && v < USER
    requires Copied(mem, own, mem1, e, d, v, data) && AllFlatSame(mem1, mem2, own2)
    ensures Flat(mem2, d, v) == 0
  {
    hide Flat;
    assert SameFlat(mem1, mem2, d);
    assert CopiedAt(mem, own, mem1, e, d, v, data, v);
  }

  /** Page u of the copy keeps its contents while another page is mapped. */
  lemma CopyKept(mem: seq<Page>, own: seq<Owner>, mem1: seq<Page>, own1: seq<Owner>, mem2: seq<Page>, own2: seq<Owner>,
                 mem3: seq<Page>, base: nat, d: nat, p: nat, u: nat, old': Word)
    requires Sized(mem, own) && Owned(mem1, own1, base) && Sized(mem2, own2) && |mem3| == PAGES
    requires d < PAGES && own1[d] == Dir && p < PAGES && own1[p] == Free && u < USER
    requires mem2 == mem1[p := mem2[p]] && own2 == own1[p := Held] && DataKept(mem2, own2, mem3, d)
    requires Flat(mem1, d, u) != 0 && SamePage(mem, own, mem1, old', Flat(mem1, d, u))
    ensures SamePage(mem, own, mem3, old', Flat(mem1, d, u))
  {
    hide Flat, Frame, Flags;
    assert PageOk(mem1, own1, base, d);
    assert UserSlot(mem1, own1, d, u);
  }

  lemma CopiedNextAt(mem: seq<Page>, own: seq<Owner>, mem1: seq<Page>, own1: seq<Owner>, mem2: seq<Page>, own2: seq<Owner>,
                     mem3: seq<Page>, own3: seq<Owner>, base: nat, e: nat, d: nat, v: nat, p: nat, data: nat, u: nat)
    requires Sized(mem, own) && Owned(mem1, own1, base) && Sized(mem2, own2) && Sized(mem3, own3)
    requires e < PAGES && d < PAGES && own1[d] == Dir && v < USER && p < PAGES && own[p] == Free && own1[p] == Free && u < VIRTUAL
    requires Copied(mem, own, mem1, e, d, v, data) && SameFlat(mem1, mem2, d)
    requires mem2 == mem1[p := mem2[p]] && own2 == own1[p := Held]
    requires Frame(Flat(mem, e, v)) < PAGES && mem2[p] == mem[Frame(Flat(mem, e, v))]
    requires WithP(Flags(Flat(mem, e, v))) == Flags(Flat(mem, e, v))
    requires Mapping(mem2, own2, mem3, own3, d, v, v + 1, p, Flags(Flat(mem, e, v)))
    ensures CopiedAt(mem, own, mem3, e, d, v + 1, data, u)
  {
    hide Owned, Flat, Frame, Flags, Entry, OwnRange, KernelFlat, WithP;
    OwnedSized(mem1, own1, base);
    var flags := Flags(Flat(mem, e, v));
    EntryPresent(p, flags);
    EntryNonZero(p, flags);
    assert CopiedAt(mem, own, mem1, e, d, v, data, u);
    if u < v {
      assert Flat(mem3, d, u) == Flat(mem1, d, u);
      CopyKept(mem, own, mem1, own1, mem2, own2, mem3, base, d, p, u, Flat(mem, e, u));
    } else if u == v {
      assert Flat(mem3, d, u) == Entry(p, flags);
      assert own2[p] == Held && p != d;
    }
  }

  lemma CopiedNext(mem: seq<Page>, own: seq<Owner>, mem1: seq<Page>, own1: seq<Owner>, mem2: seq<Page>, own2: seq<Owner>,
                   mem3: seq<Page>, own3: seq<Owner>, base: nat, e: nat, d: nat, v: nat, p: nat, data: nat)
    requires Owned(mem, own, base) && Owned(mem1, own1, base) && Sized(mem2, own2) && Sized(mem3, own3)
    requires NewSpace(own, own1, d) && OldKept(mem, own, mem1) && e < PAGES && own[e] == Dir
    requires v < USER && p < PAGES && own1[p] == Free && Flat(mem, e, v) != 0
    requires Copied(mem, own, mem1, e, d, v, data) && AllFlatSame(mem1, mem2, own2)
    requires mem2 == mem1[p := mem2[p]] && own2 == own1[p := Held]
    requires Frame(Flat(mem, e, v)) < PAGES && mem2[p] == mem1[Frame(Flat(mem, e, v))]
    requires WithP(Flags(Flat(mem, e, v))) == Flags(Flat(mem, e, v))
    requires Mapping(mem2, own2, mem3, own3, d, v, v + 1, p, Flags(Flat(mem, e, v)))
    ensures Copied(mem, own, mem3, e, d, v + 1, data)
  {
    assert mem1[Frame(Flat(mem, e, v))] == mem[Frame(Flat(mem, e, v))] by {
      assert PageOk(mem, own, base, e);
      assert UserSlot(mem, own, e, v);
    }
    hide Owned, Flat, Frame, Flags, WithP, Mapping, Copied, CopiedAt;
    OwnedSized(mem1, own1, base);
    assert SameFlat(mem1, mem2, d);
    assert own[p] == Free;
    hide SameFlat, AllFlatSame;
    var k := v + 1;
    forall u | 0 <= u < VIRTUAL ensures CopiedAt(mem, own, mem3, e, d, k, data, u) {
      CopiedNextAt(mem, own, mem1, own1, mem2, own2, mem3, own3, base, e, d, v, p, data, u);
    }
    CopiedAll(mem, own, mem3, e, d, k, data);
  }

  lemma CopiedAll(mem: seq<Page>, own: seq<Owner>, mem': seq<Page>, e: nat, d: nat, k: nat, data: nat)
    requires Sized(mem, own) && |mem'| == PAGES && e < PAGES && d < PAGES
    requires forall v :: 0 <= v < VIRTUAL ==> CopiedAt(mem, own, mem', e, d, k, data, v)
    ensures Copied(mem, own, mem', e, d, k, data)
  {
    hide CopiedAt;
  }

  // ----- what allocuvm does -----

  /** A writable user page that was free and reads as zeroes. */
  ghost predicate NewPage(own: seq<Owner>, mem': seq<Page>, w: Word)
    requires |own| == PAGES && |mem'| == PAGES
  {
    Flags(w) == 7 && Frame(w) < PAGES && own[Frame(w)] == Free && mem'[Frame(w)] == Filled(0)
  }

  ghost predicate GrownAt(mem: seq<Page>, own: seq<Owner>, mem': seq<Page>, d: nat, lo: nat, k: nat, v: nat)
    requires Sized(mem, own) && |mem'| == PAGES && d < PAGES && v < VIRTUAL
  {
    if lo <= v < k then NewPage(own, mem', Flat(mem', d, v)) else Flat(mem', d, v) == Flat(mem, d, v)
  }

  ghost predicate FlatGrown(mem: seq<Page>, own: seq<Owner>, mem': seq<Page>, d: nat, lo: nat, k: nat)
    requires Sized(mem, own) && |mem'| == PAGES && d < PAGES
  {
    forall v :: 0 <= v < VIRTUAL ==> GrownAt(mem, own, mem', d, lo, k, v)
  }

  ghost predicate OwnGrown(own: seq<Owner>, own': seq<Owner>, d: nat, lo: nat, k: nat)
    requires |own| == PAGES && |own'| == PAGES
  {
    forall q :: 0 <= q < PAGES ==>
      || own'[q] == own[q]
      || (own[q] == Free && own'[q].Table? && own'[q].d == d)
      || (own[q] == Free && InCut(own'[q], d, lo, k))
  }

  /** Addresses lo..k-1 of d got zeroed pages that were free; the rest of d and every other page stay. */
  ghost predicate Growing(mem: seq<Page>, own: seq<Owner>, mem': seq<Page>, own': seq<Owner>, d: nat, lo: nat, k: nat)
    requires Sized(mem, own) && Sized(mem', own') && d < PAGES
  {
    FlatGrown(mem, own, mem', d, lo, k) && OwnGrown(own, own', d, lo, k) && DataKept(mem, own, mem', d)
  }

  /** The address space translates as before; at most page tables were added to it. */
  ghost predicate NotGrown(mem: seq<Page>, own: seq<Owner>, mem': seq<Page>, own': seq<Owner>, d: nat)
    requires Sized(mem, own) && Sized(mem', own') && d < PAGES
  {
    SameFlat(mem, mem', d) && TablesAdded(own, own', d) && DataKept(mem, own, mem', d)
  }

  lemma GrowingStarts(mem: seq<Page>, own: seq<Owner>, d: nat, lo: nat)
    requires Sized(mem, own) && d < PAGES
    ensures Growing(mem, own, mem, own, d, lo, lo)
  {
    hide Flat;
  }

  lemma GrowingUnmapped(mem: seq<Page>, own: seq<Owner>, mem1: seq<Page>, own1: seq<Owner>, mem2: seq<Page>, own2: seq<Owner>,
                        d: nat, lo: nat, v: nat)
    requires Sized(mem, own) && Sized(mem1, own1) && Sized(mem2, own2) && d < PAGES && own2[d] == Dir && v < VIRTUAL
    requires Growing(mem, own, mem1, own1, d, lo, v) && AllFlatSame(mem1, mem2, own2)
    ensures Flat(mem2, d, v) == Flat(mem, d, v)
  {
    hide Flat;
    assert SameFlat(mem1, mem2, d);
    assert GrownAt(mem, own, mem1, d, lo, v, v);
  }

  lemma HeldOne(own: seq<Owner>, v: nat, p: nat)
    requires v < USER && p < |own| && own[p] == Held
    ensures HeldRange(own, v, v, v, p)
  {
  }

  lemma HeldStill(own: seq<Owner>, v: nat, p: nat)
    requires v < USER && HeldRange(own, v, v, v, p)
    ensures p < |own| && own[p] == Held
  {
    assert HeldAt(own, p);
  }

  lemma TablesOne(v: nat)
    requires v < VIRTUAL
    ensures Tables(v, v + 1) == 1 && Tables(v, v) == 0
  {
  }

  /** A new user page keeps its zeroes while another page is mapped. */
  lemma NewPageKept(own: seq<Owner>, mem1: seq<Page>, own1: seq<Owner>, mem2: seq<Page>, own2: seq<Owner>, mem3: seq<Page>,
                    base: nat, d: nat, p: nat, u: nat)
    requires |own| == PAGES && Owned(mem1, own1, base) && Sized(mem2, own2) && |mem3| == PAGES
    requires d < PAGES && own1[d] == Dir && p < PAGES && own1[p] == Free && u < USER
    requires mem2 == mem1[p := Filled(0)] && own2 == own1[p := Held] && DataKept(mem2, own2, mem3, d)
    requires Flat(mem1, d, u) != 0 && NewPage(own, mem1, Flat(mem1, d, u))
    ensures NewPage(own, mem3, Flat(mem1, d, u))
  {
    hide Flat, Frame, Flags, Filled;
    assert PageOk(mem1, own1, base, d);
    assert UserSlot(mem1, own1, d, u);
  }

  lemma NonZero(w: Word)
    requires Flags(w) == 7
    ensures w != 0
  {
  }

  lemma GrowingNextAt(mem: seq<Page>, own: seq<Owner>, mem1: seq<Page>, own1: seq<Owner>, mem2: seq<Page>, own2: seq<Owner>,
                      mem3: seq<Page>, own3: seq<Owner>, base: nat, d: nat, lo: nat, v: nat, k: nat, p: nat, u: nat)
    requires Sized(mem, own) && Owned(mem1, own1, base) && Sized(mem2, own2) && Sized(mem3, own3)
    requires d < PAGES && own1[d] == Dir && lo <= v < USER && p < PAGES && own[p] == Free && own1[p] == Free && u < VIRTUAL
    requires Growing(mem, own, mem1, own1, d, lo, v) && v <= k <= v + 1
    requires mem2 == mem1[p := Filled(0)] && own2 == own1[p := Held] && SameFlat(mem1, mem2, d)
    requires Mapping(mem2, own2, mem3, own3, d, v, k, p, 6)
    ensures GrownAt(mem, own, mem3, d, lo, k, u)
  {
    hide Owned, Flat, Frame, Flags, Entry, Filled, OwnGrown, OwnRange;
    OwnedSized(mem1, own1, base);
    EntryPresent(p, 6);
    assert GrownAt(mem, own, mem1, d, lo, v, u);
    if lo <= u < v {
      assert Flat(mem3, d, u) == Flat(mem1, d, u);
      NonZero(Flat(mem1, d, u));
      NewPageKept(own, mem1, own1, mem2, own2, mem3, base, d, p, u);
    } else if u == v < k {
      assert Flat(mem3, d, u) == Entry(p, WithP(6));
    }
  }

  lemma GrowingFlats(mem: seq<Page>, own: seq<Owner>, mem1: seq<Page>, own1: seq<Owner>, mem2: seq<Page>, own2: seq<Owner>,
                     mem3: seq<Page>, own3: seq<Owner>, base: nat, d: nat, lo: nat, v: nat, k: nat, p: nat)
    requires Sized(mem, own) && Owned(mem1, own1, base) && Sized(mem2, own2) && Sized(mem3, own3)
    requires d < PAGES && own1[d] == Dir && lo <= v < USER && p < PAGES && own[p] == Free && own1[p] == Free
    requires Growing(mem, own, mem1, own1, d, lo, v) && v <= k <= v + 1
    requires mem2 == mem1[p := Filled(0)] && own2 == own1[p := Held] && SameFlat(mem1, mem2, d)
    requires Mapping(mem2, own2, mem3, own3, d, v, k, p, 6)
    ensures FlatGrown(mem, own, mem3, d, lo, k)
  {
    hide Owned, GrownAt, Growing, Mapping, SameFlat, Filled;
    forall u | 0 <= u < VIRTUAL ensures GrownAt(mem, own, mem3, d, lo, k, u) {
      GrowingNextAt(mem, own, mem1, own1, mem2, own2, mem3, own3, base, d, lo, v, k, p, u);
    }
  }

  lemma GrowingFree(mem: seq<Page>, own: seq<Owner>, mem1: seq<Page>, own1: seq<Owner>, d: nat, lo: nat, v: nat, p: nat)
    requires Sized(mem, own) && Sized(mem1, own1) && d < PAGES && p < PAGES && own1[p] == Free
    requires Growing(mem, own, mem1, own1, d, lo, v)
    ensures own[p] == Free
  {
    hide FlatGrown;
  }

  /** A frame mapped into the user half belongs to its virtual page. */
  lemma MappedOwner(mem: seq<Page>, own: seq<Owner>, mem': seq<Page>, own': seq<Owner>, base: nat,
                    d: nat, v: nat, p: nat, perm: nat)
    requires Sized(mem, own) && Owned(mem', own', base) && d < PAGES && own[d] == Dir && v < USER && p < PAGES && perm < 4096
    requires Mapping(mem, own, mem', own', d, v, v + 1, p, perm)
    ensures own'[d] == Dir && own'[p] == User(d, v)
  {
    hide Flat, Frame, Entry;
    EntryPresent(p, perm);
    assert Flat(mem', d, v) == Entry(p, WithP(perm));
    FlatPresent(mem', d, v);
    EntryNonZero(p, perm);
    assert PageOk(mem', own', base, d);
    assert UserSlot(mem', own', d, v);
  }

  lemma EntryNonZero(p: nat, perm: nat)
    requires p < PAGES && perm < 4096
    ensures Entry(p, WithP(perm)) != 0
  {
  }

  lemma GrowingNext(mem: seq<Page>, own: seq<Owner>, mem1: seq<Page>, own1: seq<Owner>, mem2: seq<Page>, own2: seq<Owner>,
                    mem3: seq<Page>, own3: seq<Owner>, base: nat, d: nat, lo: nat, v: nat, p: nat)
    requires Sized(mem, own) && Owned(mem1, own1, base) && Sized(mem2, own2) && Owned(mem3, own3, base)
    requires d < PAGES && own1[d] == Dir && lo <= v < USER && p < PAGES && own1[p] == Free
    requires Growing(mem, own, mem1, own1, d, lo, v)
    requires mem2 == mem1[p := Filled(0)] && own2 == own1[p := Held] && AllFlatSame(mem1, mem2, own2)
    requires Mapping(mem2, own2, mem3, own3, d, v, v + 1, p, 6)
    ensures Growing(mem, own, mem3, own3, d, lo, v + 1) && own3[d] == Dir
  {
    hide Owned, Flat, Filled;
    OwnedSized(mem1, own1, base);
    OwnedSized(mem3, own3, base);
    MappedOwner(mem2, own2, mem3, own3, base, d, v, p, 6);
    GrowingFree(mem, own, mem1, own1, d, lo, v, p);
    assert SameFlat(mem1, mem2, d);
    GrowingFlats(mem, own, mem1, own1, mem2, own2, mem3, own3, base, d, lo, v, v + 1, p);
    hide SameFlat, AllFlatSame, FlatGrown, FlatRange;
    GrowingData(mem, own, mem1, own1, mem2, own2, mem3, d, lo, v, p);
  }

  lemma GrowingData(mem: seq<Page>, own: seq<Owner>, mem1: seq<Page>, own1: seq<Owner>, mem2: seq<Page>, own2: seq<Owner>,
                    mem3: seq<Page>, d: nat, lo: nat, v: nat, p: nat)
    requires Sized(mem, own) && Sized(mem1, own1) && Sized(mem2, own2) && |mem3| == PAGES && p < PAGES && own[p] == Free
    requires OwnGrown(own, own1, d, lo, v) && DataKept(mem, own, mem1, d)
    requires mem2 == mem1[p := Filled(0)] && own2 == own1[p := Held] && DataKept(mem2, own2, mem3, d)
    ensures DataKept(mem, own, mem3, d)
  {
    hide Filled;
  }

  /** When mappages fails, nothing but page tables was added. */
  lemma GrowingFails(mem: seq<Page>, own: seq<Owner>, mem1: seq<Page>, own1: seq<Owner>, mem2: seq<Page>, own2: seq<Owner>,
                     mem3: seq<Page>, own3: seq<Owner>, base: nat, d: nat, lo: nat, v: nat, p: nat)
    requires Sized(mem, own) && Owned(mem1, own1, base) && Sized(mem2, own2) && Sized(mem3, own3)
    requires d < PAGES && own1[d] == Dir && lo <= v < USER && p < PAGES && own1[p] == Free && own3[p] == Held
    requires Growing(mem, own, mem1, own1, d, lo, v)
    requires mem2 == mem1[p := Filled(0)] && own2 == own1[p := Held] && AllFlatSame(mem1, mem2, own2)
    requires Mapping(mem2, own2, mem3, own3, d, v, v, p, 6)
    ensures Growing(mem, own, mem3, own3[p := Free], d, lo, v) && own3[d] == Dir
  {
    hide Owned, Flat, Filled;
    OwnedSized(mem1, own1, base);
    GrowingFree(mem, own, mem1, own1, d, lo, v, p);
    assert SameFlat(mem1, mem2, d);
    GrowingFlats(mem, own, mem1, own1, mem2, own2, mem3, own3, base, d, lo, v, v, p);
    hide SameFlat, AllFlatSame, FlatGrown, FlatRange;
    GrowingData(mem, own, mem1, own1, mem2, own2, mem3, d, lo, v, p);
  }

  lemma CutHeld(mem: seq<Page>, own: seq<Owner>, mem': seq<Page>, own': seq<Owner>, d: nat, lo: nat, hi: nat, p: nat)
    requires Sized(mem, own) && Sized(mem', own') && d < PAGES && p < PAGES && own[p] == Held && own[d] == Dir
    requires Cutting(mem, own, mem', own', d, lo, hi)
    ensures own'[p] == Held && own'[d] == Dir
  {
  }

  lemma CutReleased(mem: seq<Page>, own: seq<Owner>, mem1: seq<Page>, own1: seq<Owner>, mem2: seq<Page>, own2: seq<Owner>,
                    d: nat, lo: nat, hi: nat, p: nat)
    requires Sized(mem, own) && Sized(mem1, own1) && Sized(mem2, own2) && d < PAGES && own1[d] == Dir
    requires p < PAGES && own[p] == Held && Cutting(mem, own, mem1, own1, d, lo, hi)
    requires own2 == own1[p := Free] && AllFlatSame(mem1, mem2, own1)
    requires forall q :: 0 <= q < PAGES && q != p ==> mem2[q] == mem1[q]
    ensures Cutting(mem, own[p := Free], mem2, own2, d, lo, hi)
  {
    hide Flat;
    assert SameFlat(mem1, mem2, d);
  }

  lemma GrowthUndone(mem: seq<Page>, own: seq<Owner>, mem1: seq<Page>, own1: seq<Owner>, mem2: seq<Page>, own2: seq<Owner>,
                     base: nat, d: nat, lo: nat, v: nat, hi: nat)
    requires Owned(mem, own, base) && Sized(mem1, own1) && Sized(mem2, own2) && d < PAGES && lo <= v <= hi <= USER
    requires Unmapped(mem, d, lo, hi)
    requires Growing(mem, own, mem1, own1, d, lo, v) && Cutting(mem1, own1, mem2, own2, d, lo, hi)
    ensures NotGrown(mem, own, mem2, own2, d)
  {
    hide Owned, Flat;
    OwnedSized(mem, own, base);
    forall u | 0 <= u < VIRTUAL ensures Flat(mem2, d, u) == Flat(mem, d, u) {
      assert GrownAt(mem, own, mem1, d, lo, v, u);
    }
    hide FlatGrown, FlatCut;
    forall q | 0 <= q < PAGES ensures !InCut(own[q], d, lo, hi) {
      UnmappedOwnsNothing(mem, own, base, d, lo, hi, q);
    }
  }

  // ----- what freevm does -----

  lemma Released(mem: seq<Page>, own: seq<Owner>, head: Word, free: seq<nat>, base: nat, p: nat)
    requires Owned(mem, own, base) && FreeOk(mem, head, free, base) && FreeSet(own, free)
    requires p < PAGES && own[p] == Held
    ensures base <= p && p !in free && Owned(mem[p := Junk(head)], own[p := Free], base)
    ensures FreeSet(own[p := Free], [p] + free) && AllFlatSame(mem, mem[p := Junk(head)], own)
  {
    assert PageOk(mem, own, base, p);
    hide Owned, Junk;
    JunkKeeps(mem, own, base, p, head);
    var mem' := mem[p := Junk(head)];
    var own' := own[p := Free];
    assert SameShape(mem', own, mem', own');
    SameShapeKeeps(mem', own, mem', own', base);
  }

  /** Exactly the pages of d became free; the pages of others keep owner and contents. */
  ghost predicate SpaceFreed(mem: seq<Page>, own: seq<Owner>, mem': seq<Page>, own': seq<Owner>, d: nat) {
    && Sized(mem, own) && Sized(mem', own')
    && (forall q :: 0 <= q < PAGES ==> own'[q] == if Within(own[q], q, d) then Free else own[q])
    && (forall q :: 0 <= q < PAGES && own[q] != Free && !Within(own[q], q, d) ==> mem'[q] == mem[q])
  }

  lemma CutDir(mem: seq<Page>, own: seq<Owner>, mem': seq<Page>, own': seq<Owner>, d: nat)
    requires Sized(mem, own) && Sized(mem', own') && d < PAGES && own[d] == Dir
    requires Cutting(mem, own, mem', own', d, 0, USER)
    ensures own'[d] == Dir
  {
  }

  lemma OrphanedFree(own: seq<Owner>, d: nat, free: seq<nat>)
    requires FreeSet(own, free) && d < |own| && own[d] == Dir
    ensures FreeSet(Orphaned(own, d), free) && Orphaned(own, d)[d] == Held
  {
  }

  ghost predicate TableBefore(o: Owner, d: nat, i: nat) {
    o.Table? && o.d == d && o.i < i
  }

  /** The tables of the first i directory entries of the abandoned space d are free. */
  ghost predicate TablesFreed(mem: seq<Page>, own: seq<Owner>, mem': seq<Page>, own': seq<Owner>, d: nat, i: nat)
    requires Sized(mem, own) && Sized(mem', own')
  {
    forall q :: 0 <= q < PAGES ==>
      && own'[q] == (if TableBefore(own[q], d, i) then Free else if Within(own[q], q, d) then Held else own[q])
      && (own[q] != Free && !TableBefore(own[q], d, i) ==> mem'[q] == mem[q])
  }

  lemma TablesFreedStarts(mem: seq<Page>, own: seq<Owner>, d: nat)
    requires Sized(mem, own)
    ensures TablesFreed(mem, own, mem, Orphaned(own, d), d, 0)
  {
  }

  lemma TableToFree(mem: seq<Page>, own: seq<Owner>, mem': seq<Page>, own': seq<Owner>, base: nat, d: nat, i: nat)
    requires Owned(mem, own, base) && Sized(mem', own') && d < PAGES && own[d] == Dir && i < 1024
    requires TablesFreed(mem, own, mem', own', d, i) && mem'[d] == mem[d] && Present(mem[d][i])
    ensures Frame(mem[d][i]) < PAGES && own[Frame(mem[d][i])] == Table(d, i) && own'[Frame(mem[d][i])] == Held
  {
    hide Flat, Frame;
    assert PageOk(mem, own, base, d);
    assert TableSlot(mem, own, d, i);
  }

  lemma TablesFreedNext(mem: seq<Page>, own: seq<Owner>, mem': seq<Page>, own': seq<Owner>, base: nat, head: Word, d: nat, i: nat)
    requires Owned(mem, own, base) && Sized(mem', own') && d < PAGES && own[d] == Dir && i < 1024
    requires TablesFreed(mem, own, mem', own', d, i) && Frame(mem[d][i]) < PAGES && own[Frame(mem[d][i])] == Table(d, i)
    ensures var t := Frame(mem[d][i]);
            TablesFreed(mem, own, mem'[t := Junk(head)], own'[t := Free], d, i + 1) && t != d
  {
    hide Flat, Frame, Junk;
    var t := Frame(mem[d][i]);
    forall q | 0 <= q < PAGES && own[q] == Table(d, i) ensures q == t {
      assert PageOk(mem, own, base, q);
    }
    hide Owned;
  }

  lemma TablesFreedSkip(mem: seq<Page>, own: seq<Owner>, mem': seq<Page>, own': seq<Owner>, base: nat, d: nat, i: nat)
    requires Owned(mem, own, base) && Sized(mem', own') && d < PAGES && own[d] == Dir && i < 1024
    requires TablesFreed(mem, own, mem', own', d, i) && mem'[d] == mem[d] && !Present(mem[d][i])
    ensures TablesFreed(mem, own, mem', own', d, i + 1)
  {
    hide Flat, Frame;
    forall q | 0 <= q < PAGES ensures own[q] != Table(d, i) {
      assert PageOk(mem, own, base, q);
    }
    hide Owned;
  }

  lemma SpaceGone(mem: seq<Page>, own: seq<Owner>, mem1: seq<Page>, own1: seq<Owner>, mem2: seq<Page>, own2: seq<Owner>,
                  base: nat, head: Word, d: nat)
    requires Sized(mem, own) && Owned(mem1, own1, base) && Sized(mem2, own2) && d < PAGES && own[d] == Dir
    requires Owned(mem, own, base) && Cutting(mem, own, mem1, own1, d, 0, USER) && TablesFreed(mem1, own1, mem2, own2, d, 1024)
    ensures SpaceFreed(mem, own, mem2[d := Junk(head)], own2[d := Free], d)
  {
    hide Flat, Frame, Junk, FlatCut;
    forall q | 0 <= q < PAGES
      ensures own[q].User? && own[q].d == d ==> InCut(own[q], d, 0, USER)
      ensures own[q].Table? && own[q].d == d ==> own[q].i < 1024
      ensures own[q] == Dir || own1[q] != Dir
    {
      assert PageOk(mem, own, base, q);
    }
    hide Owned;
  }

  // ----- sizes in bytes and in pages -----

  const KERNBASE := 0x8000_0000

  /** PGROUNDUP, as a page number. */
  function Up(sz: nat): (n: nat) {
    (sz + 4095) / 4096
  }

  lemma UpBelow(v: nat, sz: nat)
    ensures v * 4096 < sz <==> v < Up(sz)
    ensures sz <= KERNBASE ==> Up(sz) <= USER
  {
  }

  lemma UpOrder(a: nat, b: nat)
    requires a <= b
    ensures Up(a) <= Up(b) && (b <= KERNBASE ==> Up(b) <= USER)
  {
  }

  // ----- what deallocuvm does -----

  ghost predicate InCut(o: Owner, d: nat, lo: nat, k: int) {
    o.User? && o.d == d && lo <= o.v < k
  }

  ghost predicate FlatCut(mem: seq<Page>, mem': seq<Page>, d: nat, lo: nat, k: int)
    requires |mem| == PAGES && |mem'| == PAGES && d < PAGES
  {
    forall v :: 0 <= v < VIRTUAL ==> Flat(mem', d, v) == if lo <= v < k then 0 else Flat(mem, d, v)
  }

  ghost predicate OwnCut(own: seq<Owner>, own': seq<Owner>, d: nat, lo: nat, k: int)
    requires |own| == PAGES && |own'| == PAGES
  {
    forall q :: 0 <= q < PAGES ==> own'[q] == if InCut(own[q], d, lo, k) then Free else own[q]
  }

  ghost predicate MemCut(mem: seq<Page>, own: seq<Owner>, mem': seq<Page>, d: nat, lo: nat, k: int)
    requires Sized(mem, own) && |mem'| == PAGES
  {
    forall q :: 0 <= q < PAGES && own[q] != Free && !InCut(own[q], d, lo, k) && !(own[q].Table? && own[q].d == d) ==>
      mem'[q] == mem[q]
  }

  /** User pages lo..k-1 of d are unmapped and exactly their frames are free; other contents stay. */
  ghost predicate Cutting(mem: seq<Page>, own: seq<Owner>, mem': seq<Page>, own': seq<Owner>, d: nat, lo: nat, k: int)
    requires Sized(mem, own) && Sized(mem', own') && d < PAGES
  {
    FlatCut(mem, mem', d, lo, k) && OwnCut(own, own', d, lo, k) && MemCut(mem, own, mem', d, lo, k)
  }

  lemma CuttingStarts(mem: seq<Page>, own: seq<Owner>, d: nat, lo: nat)
    requires Sized(mem, own) && d < PAGES
    ensures forall k :: k <= lo ==> Cutting(mem, own, mem, own, d, lo, k)
  {
    hide Flat;
  }

  lemma NoTable(mem: seq<Page>, d: nat, v: nat)
    requires |mem| == PAGES && d < PAGES && v < VIRTUAL && !HasTable(mem, d, v)
    ensures forall u :: 0 <= u < VIRTUAL && Dx(u) == Dx(v) ==> Flat(mem, d, u) == 0
  {
  }

  lemma NextTable(v: nat)
    requires v < USER
    ensures v < (Dx(v) + 1) * 1024 <= USER
    ensures forall u :: v <= u < (Dx(v) + 1) * 1024 ==> Dx(u) == Dx(v)
  {
  }

  lemma FlatIs(mem: seq<Page>, d: nat, v: nat)
    requires |mem| == PAGES && d < PAGES && v < VIRTUAL && HasTable(mem, d, v)
    ensures Flat(mem, d, v) == if Present(mem[TableOf(mem, d, v)][Tx(v)]) then mem[TableOf(mem, d, v)][Tx(v)] else 0
    ensures Present(Flat(mem, d, v)) <==> Flat(mem, d, v) != 0
  {
  }

  /** Unmapped pages own nothing. */
  lemma UnmappedOwnsNothing(mem: seq<Page>, own: seq<Owner>, base: nat, d: nat, v: nat, k: int, q: nat)
    requires Owned(mem, own, base) && d < PAGES && q < PAGES && k <= VIRTUAL
    requires forall u :: v <= u < k ==> Flat(mem, d, u) == 0
    ensures !InCut(own[q], d, v, k)
  {
    hide Flat, Frame;
    assert PageOk(mem, own, base, q);
  }

  lemma CuttingSkips(mem: seq<Page>, own: seq<Owner>, mem': seq<Page>, own': seq<Owner>, base: nat,
                     d: nat, lo: nat, v: nat, k: int)
    requires Sized(mem, own) && Owned(mem', own', base) && d < PAGES && lo <= v <= k <= VIRTUAL
    requires Cutting(mem, own, mem', own', d, lo, v)
    requires forall u :: v <= u < k ==> Flat(mem', d, u) == 0
    ensures Cutting(mem, own, mem', own', d, lo, k)
  {
    hide Flat, Owned;
    forall q | 0 <= q < PAGES ensures InCut(own[q], d, lo, k) <==> InCut(own[q], d, lo, v) {
      UnmappedOwnsNothing(mem', own', base, d, v, k, q);
    }
  }

  lemma UserReal(mem: seq<Page>, own: seq<Owner>, base: nat, d: nat, v: nat, free: seq<nat>)
    requires Owned(mem, own, base) && FreeSet(own, free) && d < PAGES && own[d] == Dir && v < USER && Flat(mem, d, v) != 0
    ensures var p := Frame(Flat(mem, d, v)); base <= p < PAGES && own[p] == User(d, v) && p !in free
  {
    hide Flat, Frame;
    assert PageOk(mem, own, base, d);
    assert UserSlot(mem, own, d, v);
    assert PageOk(mem, own, base, Frame(Flat(mem, d, v)));
  }

  /** kfree of a mapped user page followed by clearing its entry. */
  lemma DropStep(mem: seq<Page>, own: seq<Owner>, head: Word, free: seq<nat>, base: nat, d: nat, v: nat)
    requires Owned(mem, own, base) && FreeOk(mem, head, free, base) && FreeSet(own, free)
    requires d < PAGES && own[d] == Dir && v < USER && HasTable(mem, d, v) && Flat(mem, d, v) != 0
    ensures var p := Frame(Flat(mem, d, v));
            && base <= p < PAGES
            && var mem1 := mem[p := Junk(head)];
            && HasTable(mem1, d, v) && TableOf(mem1, d, v) == TableOf(mem, d, v) && TableOf(mem, d, v) != p
            && Owned(PteSet(mem1, d, v, 0), own[p := Free], base)
            && FreeOk(PteSet(mem1, d, v, 0), Kva(p), [p] + free, base) && FreeSet(own[p := Free], [p] + free)
  {
    UserReal(mem, own, base, d, v, free);
    TableIsTable(mem, own, base, d, v);
    var p := Frame(Flat(mem, d, v));
    var mem1 := mem[p := Junk(head)];
    assert HasTable(mem1, d, v) && TableOf(mem1, d, v) == TableOf(mem, d, v);
    hide Owned, FreeOk, Flat, HasTable, Frame, Junk;
    OwnedSized(mem, own, base);
    JunkKeeps(mem, own, base, p, head);
    assert AllFlatSame(mem, mem1, own);
    assert SameFlat(mem, mem1, d);
    UnmapKeeps(mem1, own, base, d, v);
    FreePush(mem, head, free, base, p);
    FreeElsewhere(mem1, PteSet(mem1, d, v, 0), Kva(p), [p] + free, base);
  }

  lemma JunkKeeps(mem: seq<Page>, own: seq<Owner>, base: nat, p: nat, head: Word)
    requires Owned(mem, own, base) && p < PAGES && Plain(own[p])
    ensures Owned(mem[p := Junk(head)], own, base) && AllFlatSame(mem, mem[p := Junk(head)], own)
  {
    hide Owned, Junk;
    OwnedSized(mem, own, base);
    var mem' := mem[p := Junk(head)];
    DataFlat(mem, own, base, p, Junk(head));
    hide AllFlatSame;
    assert SameShape(mem, own, mem', own);
    SameShapeKeeps(mem, own, mem', own, base);
  }

  lemma CuttingDrops(mem: seq<Page>, own: seq<Owner>, mem1: seq<Page>, own1: seq<Owner>, base: nat, head: Word,
                     d: nat, lo: nat, v: nat)
    requires Sized(mem, own) && Owned(mem1, own1, base) && d < PAGES && own1[d] == Dir && lo <= v < USER
    requires Cutting(mem, own, mem1, own1, d, lo, v) && HasTable(mem1, d, v) && Flat(mem1, d, v) != 0
    requires var p := Frame(Flat(mem1, d, v)); p < PAGES && own1[p] == User(d, v)
    ensures var p := Frame(Flat(mem1, d, v));
            var mem2 := mem1[p := Junk(head)];
            && HasTable(mem2, d, v)
            && Cutting(mem, own, PteSet(mem2, d, v, 0), own1[p := Free], d, lo, v + 1)
  {
    TableIsTable(mem1, own1, base, d, v);
    var p := Frame(Flat(mem1, d, v));
    var mem2 := mem1[p := Junk(head)];
    assert HasTable(mem2, d, v) && TableOf(mem2, d, v) == TableOf(mem1, d, v);
    JunkKeeps(mem1, own1, base, p, head);
    CuttingDropOwn(mem, own, mem1, own1, base, d, lo, v, p);
    hide Owned, Flat, HasTable, Frame, Junk, TableOf;
    PteSetFlat(mem2, own1, base, d, v, 0);
    CuttingDropFlat(mem, mem1, mem2, PteSet(mem2, d, v, 0), own1, d, lo, v);
    hide FlatCut, OwnCut, FlatSet, AllFlatSame;
    CuttingDropMem(mem, own, mem1, own1, d, lo, v, p, head);
  }

  lemma CuttingDropFlat(mem: seq<Page>, mem1: seq<Page>, mem2: seq<Page>, mem3: seq<Page>, own1: seq<Owner>,
                        d: nat, lo: nat, v: nat)
    requires |mem| == PAGES && Sized(mem1, own1) && |mem2| == PAGES && |mem3| == PAGES && d < PAGES && own1[d] == Dir
    requires lo <= v < USER && FlatCut(mem, mem1, d, lo, v) && AllFlatSame(mem1, mem2, own1)
    requires FlatSet(mem2, mem3, own1, d, v, 0)
    ensures FlatCut(mem, mem3, d, lo, v + 1)
  {
    hide Flat;
    assert SameFlat(mem1, mem2, d);
  }

  lemma CuttingDropOwn(mem: seq<Page>, own: seq<Owner>, mem1: seq<Page>, own1: seq<Owner>, base: nat,
                       d: nat, lo: nat, v: nat, p: nat)
    requires Sized(mem, own) && Owned(mem1, own1, base) && d < PAGES && lo <= v < USER && p < PAGES && own1[p] == User(d, v)
    requires Cutting(mem, own, mem1, own1, d, lo, v)
    ensures OwnCut(own, own1[p := Free], d, lo, v + 1)
  {
    hide Flat, Frame, FlatCut, MemCut;
    forall q | 0 <= q < PAGES && own[q] == User(d, v) ensures q == p {
      assert own1[q] == User(d, v);
      assert PageOk(mem1, own1, base, q) && PageOk(mem1, own1, base, p);
    }
  }

  lemma CuttingDropMem(mem: seq<Page>, own: seq<Owner>, mem1: seq<Page>, own1: seq<Owner>,
                       d: nat, lo: nat, v: nat, p: nat, head: Word)
    requires Sized(mem, own) && Sized(mem1, own1) && d < PAGES && lo <= v < USER && p < PAGES && own1[p] == User(d, v)
    requires Cutting(mem, own, mem1, own1, d, lo, v) && HasTable(mem1[p := Junk(head)], d, v)
    requires own1[TableOf(mem1[p := Junk(head)], d, v)] == Table(d, Dx(v))
    ensures MemCut(mem, own, PteSet(mem1[p := Junk(head)], d, v, 0), d, lo, v + 1)
  {
    hide Flat, HasTable, TableOf, Junk, FlatCut;
    assert own[p] == User(d, v);
  }

  // ----- what mappages does -----

  /** How many page tables cover the pages first..k-1. */
  function Tables(first: nat, k: nat): nat
    requires first <= k <= VIRTUAL
  {
    if k == first then 0 else Dx(k - 1) - Dx(first) + 1
  }

  lemma TablesNone(first: nat)
    requires first <= VIRTUAL
    ensures Tables(first, first) == 0
  {
  }

  lemma TablesNext(first: nat, k: nat)
    requires first <= k < VIRTUAL
    ensures Tables(first, k + 1) >= Tables(first, k)
    ensures first == k || Dx(k) != Dx(k - 1) ==> Tables(first, k + 1) == Tables(first, k) + 1
  {
  }

  lemma SameTable(mem: seq<Page>, d: nat, k: nat)
    requires |mem| == PAGES && d < PAGES && 0 < k < VIRTUAL && HasTable(mem, d, k - 1) && Dx(k) == Dx(k - 1)
    ensures HasTable(mem, d, k)
  {
  }

  /** The frames still to be mapped into the user half are held by the caller. */
  ghost predicate HeldRange(own: seq<Owner>, first: nat, k: nat, last: nat, f: nat)
    requires first <= k
  {
    first < USER ==> last < USER && forall p :: f + (k - first) <= p <= f + (last - first) ==> HeldAt(own, p)
  }

  ghost predicate HeldAt(own: seq<Owner>, p: nat) {
    p < |own| && own[p] == Held
  }

  /** Translations of d: pages first..k-1 go to consecutive frames, the others are as before. */
  ghost predicate FlatRange(mem: seq<Page>, mem': seq<Page>, d: nat, first: nat, k: nat, f: nat, perm: nat)
    requires |mem| == PAGES && |mem'| == PAGES && d < PAGES
    requires first <= k <= VIRTUAL && f + (k - first) <= VIRTUAL && perm < 4096
  {
    forall v :: 0 <= v < VIRTUAL ==>
      Flat(mem', d, v) == if first <= v < k then Entry(f + (v - first), WithP(perm)) else Flat(mem, d, v)
  }

  /** Owners: free pages may have become tables of d, held frames user pages of d. */
  ghost predicate OwnRange(own: seq<Owner>, own': seq<Owner>, d: nat, first: nat, k: nat, f: nat)
    requires |own| == PAGES && |own'| == PAGES && first <= k
  {
    forall q :: 0 <= q < PAGES ==>
      || own'[q] == own[q]
      || (own[q] == Free && own'[q].Table? && own'[q].d == d)
      || (own[q] == Held && first < USER && f <= q < f + (k - first) && own'[q] == User(d, first + (q - f)))
  }

  ghost predicate Mapping(mem: seq<Page>, own: seq<Owner>, mem': seq<Page>, own': seq<Owner>,
                          d: nat, first: nat, k: nat, f: nat, perm: nat)
    requires Sized(mem, own) && Sized(mem', own') && d < PAGES
    requires first <= k <= VIRTUAL && f + (k - first) <= VIRTUAL && perm < 4096
  {
    && FlatRange(mem, mem', d, first, k, f, perm)
    && OwnRange(own, own', d, first, k, f)
    && DataKept(mem, own, mem', d)
  }

  lemma MappingStarts(mem: seq<Page>, own: seq<Owner>, d: nat, first: nat, f: nat, perm: nat)
    requires Sized(mem, own) && d < PAGES && first <= VIRTUAL && f <= VIRTUAL && perm < 4096
    ensures Mapping(mem, own, mem, own, d, first, first, f, perm)
  {
    hide Flat;
  }

  lemma MappingWalk(mem: seq<Page>, own: seq<Owner>, mem1: seq<Page>, own1: seq<Owner>, mem2: seq<Page>, own2: seq<Owner>,
                    d: nat, first: nat, k: nat, f: nat, perm: nat)
    requires Sized(mem, own) && Sized(mem1, own1) && Sized(mem2, own2) && d < PAGES && own1[d] == Dir
    requires first <= k <= VIRTUAL && f + (k - first) <= VIRTUAL && perm < 4096
    requires Mapping(mem, own, mem1, own1, d, first, k, f, perm)
    requires TablesAdded(own1, own2, d) && DataKept(mem1, own1, mem2, d) && AllFlatSame(mem1, mem2, own1)
    ensures Mapping(mem, own, mem2, own2, d, first, k, f, perm) && own2[d] == Dir
  {
    hide Flat;
    assert SameFlat(mem1, mem2, d);
  }

  lemma HeldWalk(own1: seq<Owner>, own2: seq<Owner>, d: nat, first: nat, k: nat, last: nat, f: nat)
    requires first <= k && HeldRange(own1, first, k, last, f) && TablesAdded(own1, own2, d)
    ensures HeldRange(own2, first, k, last, f)
  {
    forall p | first < USER && f + (k - first) <= p <= f + (last - first) ensures HeldAt(own2, p) {
      assert HeldAt(own1, p);
    }
  }

  lemma MappingUnmapped(mem: seq<Page>, own: seq<Owner>, mem': seq<Page>, own': seq<Owner>,
                        d: nat, first: nat, k: nat, f: nat, perm: nat)
    requires Sized(mem, own) && Sized(mem', own') && d < PAGES
    requires first <= k < VIRTUAL && f + (k - first) <= VIRTUAL && perm < 4096
    requires Mapping(mem, own, mem', own', d, first, k, f, perm)
    ensures Flat(mem', d, k) == Flat(mem, d, k)
  {
  }

  lemma TableBelow(mem: seq<Page>, d: nat, v: nat)
    requires |mem| == PAGES && d < PAGES && v < VIRTUAL && HasTable(mem, d, v)
    ensures TableOf(mem, d, v) < PAGES
    ensures forall w: Word :: PteSet(mem, d, v, w) == mem[TableOf(mem, d, v) := mem[TableOf(mem, d, v)][Tx(v) := w]]
  {
  }

  /** The new owner of the frame in w once v is translated by w. */
  ghost function MapOwn(own: seq<Owner>, d: nat, v: nat, w: Word): (r: seq<Owner>)
    ensures |r| == |own|
  {
    if v < USER && Frame(w) < |own| then own[Frame(w) := User(d, v)] else own
  }

  lemma MapStep(mem: seq<Page>, own: seq<Owner>, head: Word, free: seq<nat>, base: nat, d: nat, k: nat, w: Word,
                first: nat, last: nat, f: nat, perm: nat)
    requires Owned(mem, own, base) && FreeOk(mem, head, free, base) && FreeSet(own, free)
    requires d < PAGES && own[d] == Dir && first <= k <= last < VIRTUAL && f + (last - first) < VIRTUAL && perm < 4096
    requires HasTable(mem, d, k) && Flat(mem, d, k) == 0 && w == Entry(f + (k - first), WithP(perm))
    requires HeldRange(own, first, k, last, f)
    ensures var mem' := PteSet(mem, d, k, w);
            var own' := MapOwn(own, d, k, w);
            && Owned(mem', own', base) && FreeOk(mem', head, free, base) && FreeSet(own', free)
            && HeldRange(own', first, k + 1, last, f) && own'[d] == Dir && HasTable(mem', d, k)
  {
    EntryPresent(f + (k - first), perm);
    assert k < USER ==> HeldAt(own, Frame(w)) by { assert HeldAt(own, f + (k - first)) || first >= USER; }
    HeldNext(own, d, k, w, first, last, f);
    assert HasTable(PteSet(mem, d, k, w), d, k) by { TableIsTable(mem, own, base, d, k); }
    hide Owned, FreeOk, Flat, HasTable, Frame, Entry, Present, HeldRange;
    OwnedSized(mem, own, base);
    TableIsTable(mem, own, base, d, k);
    if k < USER {
      MapKeeps(mem, own, base, d, k, w);
    } else {
      KernelMapKeeps(mem, own, base, d, k, w);
    }
    FreeElsewhere(mem, PteSet(mem, d, k, w), head, free, base);
  }

  lemma HeldNext(own: seq<Owner>, d: nat, k: nat, w: Word, first: nat, last: nat, f: nat)
    requires first <= k <= last && HeldRange(own, first, k, last, f) && Frame(w) == f + (k - first)
    ensures HeldRange(MapOwn(own, d, k, w), first, k + 1, last, f)
  {
    hide Frame;
    forall p | first < USER && f + (k + 1 - first) <= p <= f + (last - first) ensures HeldAt(MapOwn(own, d, k, w), p) {
      assert HeldAt(own, p);
    }
  }

  lemma MappingSet(mem: seq<Page>, own: seq<Owner>, mem1: seq<Page>, own1: seq<Owner>, base: nat,
                   d: nat, first: nat, k: nat, last: nat, f: nat, perm: nat)
    requires Sized(mem, own) && Owned(mem1, own1, base) && d < PAGES && own1[d] == Dir
    requires first <= k <= last < VIRTUAL && f + (last - first) < VIRTUAL && perm < 4096
    requires Mapping(mem, own, mem1, own1, d, first, k, f, perm) && HasTable(mem1, d, k)
    requires HeldRange(own1, first, k, last, f)
    ensures var w := Entry(f + (k - first), WithP(perm));
            Mapping(mem, own, PteSet(mem1, d, k, w), MapOwn(own1, d, k, w), d, first, k + 1, f, perm)
  {
    var w := Entry(f + (k - first), WithP(perm));
    EntryPresent(f + (k - first), perm);
    assert k < USER ==> HeldAt(own1, Frame(w)) by { assert HeldAt(own1, f + (k - first)) || first >= USER; }
    assert first < USER ==> k < USER;
    hide Owned, Flat, HasTable, Frame, Entry, Present, HeldRange;
    TableIsTable(mem1, own1, base, d, k);
    PteSetFlat(mem1, own1, base, d, k, w);
    var mem2, own2 := PteSet(mem1, d, k, w), MapOwn(own1, d, k, w);
    MappingSetFlat(mem, mem1, mem2, own1, d, first, k, f, perm);
    hide FlatRange, FlatSet;
    MappingSetOwn(own, own1, d, first, k, f, w);
    MappingSetData(mem, own, mem1, own1, d, first, k, f, w);
  }

  lemma MappingSetFlat(mem: seq<Page>, mem1: seq<Page>, mem2: seq<Page>, own1: seq<Owner>,
                       d: nat, first: nat, k: nat, f: nat, perm: nat)
    requires |mem| == PAGES && Sized(mem1, own1) && |mem2| == PAGES && d < PAGES && own1[d] == Dir
    requires first <= k < VIRTUAL && f + (k - first) < VIRTUAL && perm < 4096
    requires FlatRange(mem, mem1, d, first, k, f, perm)
    requires FlatSet(mem1, mem2, own1, d, k, Entry(f + (k - first), WithP(perm)))
    ensures FlatRange(mem, mem2, d, first, k + 1, f, perm)
  {
    hide Flat, Entry;
  }

  lemma MappingSetOwn(own: seq<Owner>, own1: seq<Owner>, d: nat, first: nat, k: nat, f: nat, w: Word)
    requires |own| == PAGES && |own1| == PAGES && first <= k && OwnRange(own, own1, d, first, k, f)
    requires Frame(w) == f + (k - first) && (k < USER ==> HeldAt(own1, Frame(w)))
    ensures OwnRange(own, MapOwn(own1, d, k, w), d, first, k + 1, f)
  {
    hide Frame;
  }

  lemma MappingSetData(mem: seq<Page>, own: seq<Owner>, mem1: seq<Page>, own1: seq<Owner>,
                       d: nat, first: nat, k: nat, f: nat, w: Word)
    requires Sized(mem, own) && Sized(mem1, own1) && d < PAGES && first <= k < VIRTUAL
    requires OwnRange(own, own1, d, first, k, f) && DataKept(mem, own, mem1, d) && HasTable(mem1, d, k)
    requires own1[TableOf(mem1, d, k)] == Table(d, Dx(k))
    ensures DataKept(mem, own, PteSet(mem1, d, k, w), d)
  {
    hide HasTable, TableOf;
  }

  lemma TableReal(mem: seq<Page>, own: seq<Owner>, base: nat, d: nat, v: nat)
    requires Owned(mem, own, base) && d < PAGES && own[d] == Dir && v < VIRTUAL && Present(mem[d][Dx(v)])
    ensures HasTable(mem, d, v) && TableOf(mem, d, v) != 0
  {
    assert PageOk(mem, own, base, d);
    assert TableSlot(mem, own, d, Dx(v));
    assert PageOk(mem, own, base, 0);
  }

  /** Writing a held page. */
  lemma HeldWrite(mem: seq<Page>, own: seq<Owner>, head: Word, free: seq<nat>, base: nat, p: nat, page: Page)
    requires Owned(mem, own, base) && FreeOk(mem, head, free, base) && FreeSet(own, free)
    requires p < PAGES && own[p] == Held
    ensures Owned(mem[p := page], own, base) && FreeOk(mem[p := page], head, free, base)
    ensures AllFlatSame(mem, mem[p := page], own)
  {
    hide Owned, FreeOk;
    OwnedSized(mem, own, base);
    DataFlat(mem, own, base, p, page);
    var mem' := mem[p := page];
    hide AllFlatSame;
    assert SameShape(mem, own, mem', own);
    SameShapeKeeps(mem, own, mem', own, base);
    FreeElsewhere(mem, mem', head, free, base);
  }

  /** A held page becomes the zeroed page table of v. */
  lemma TableLinked(mem: seq<Page>, own: seq<Owner>, head: Word, free: seq<nat>, base: nat, d: nat, v: nat, t: nat)
    requires Owned(mem, own, base) && FreeOk(mem, head, free, base) && FreeSet(own, free)
    requires d < PAGES && own[d] == Dir && v < VIRTUAL && !Present(mem[d][Dx(v)])
    requires t < PAGES && own[t] == Held
    ensures var zeroed := mem[t := Filled(0)];
            var mem' := zeroed[d := zeroed[d][Dx(v) := Entry(t, 7)]];
            var own' := own[t := Table(d, Dx(v))];
            && Owned(mem', own', base) && FreeOk(mem', head, free, base) && FreeSet(own', free)
            && AllFlatSame(mem, mem', own) && HasTable(mem', d, v) && TableOf(mem', d, v) == t
  {
    hide Owned, FreeOk, Flat;
    OwnedSized(mem, own, base);
    HeldWrite(mem, own, head, free, base, t, Filled(0));
    var zeroed := mem[t := Filled(0)];
    AddTable(zeroed, own, base, d, Dx(v), t);
    var mem' := zeroed[d := zeroed[d][Dx(v) := Entry(t, 7)]];
    FreeElsewhere(zeroed, mem', head, free, base);
    EntryParts(t, 7);
  }

  lemma FreeSized(mem: seq<Page>, head: Word, free: seq<nat>, base: nat)
    requires FreeOk(mem, head, free, base)
    ensures |mem| == PAGES && 0 < base < PAGES
  {
  }

  lemma JunkIs(next: Word)
    ensures Filled(0x0101_0101)[0 := next] == Junk(next)
  {
  }

  lemma Taken(mem: seq<Page>, own: seq<Owner>, free: seq<nat>, base: nat)
    requires Owned(mem, own, base) && FreeSet(own, free) && NoTwice(free) && free != [] && base <= free[0] < PAGES
    ensures Owned(mem, own[free[0] := Held], base) && FreeSet(own[free[0] := Held], free[1..])
  {
    assert Sized(mem, own) by { OwnedSized(mem, own, base); }
    hide Owned;
    var own' := own[free[0] := Held];
    assert SameShape(mem, own, mem, own');
    SameShapeKeeps(mem, own, mem, own', base);
    assert forall q :: q in free[1..] <==> q in free && q != free[0] by { TailOf(free); }
  }

  lemma TailOf(free: seq<nat>)
    requires NoTwice(free) && free != []
    ensures forall q :: q in free[1..] <==> q in free && q != free[0]
  {
  }
}
