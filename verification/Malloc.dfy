/** umalloc.c: the K&R allocator.  Addresses count headers (units of 8 bytes), so pointer
    arithmetic on Header* is plain arithmetic, and memory maps a unit to the header there. */
module Malloc {
  import opened Wrappers

  datatype Header = Header(ptr: nat, size: nat)

  type Memory = map<nat, Header>

  // ----- the free list -----

  /** list runs through the free list from base in address order: circular, strictly
      ascending, and no two neighbours adjacent (fully coalesced). */
  ghost predicate Chain(mem: Memory, list: seq<nat>) {
    |list| >= 1 && list[0] in mem && mem[list[0]].size == 0 && forall k :: 0 <= k < |list| ==> NodeOk(mem, list, k)
  }

  /** Node k points to its successor and ends below it; only base is empty. */
  ghost predicate NodeOk(mem: Memory, list: seq<nat>, k: nat)
    requires k < |list|
  {
    && list[k] in mem && mem[list[k]].ptr == Succ(list, k)
    && (0 < k ==> mem[list[k]].size >= 1)
    && (k + 1 < |list| ==> list[k] + mem[list[k]].size < list[k + 1])
  }

  ghost function Succ(list: seq<nat>, k: nat): nat
    requires k < |list|
  {
    if k + 1 < |list| then list[k + 1] else list[0]
  }

  lemma {:induction false} Ascending(mem: Memory, list: seq<nat>, i: nat, j: nat)
    requires Chain(mem, list) && i < j < |list|
    ensures list[i] in mem && list[j] in mem && list[i] + mem[list[i]].size < list[j]
    decreases j - i
  {
    assert NodeOk(mem, list, i) && NodeOk(mem, list, j);
    if i + 1 < j { Ascending(mem, list, i + 1, j); }
  }

  /** Unit u lies in a free block. */
  ghost predicate InFree(mem: Memory, list: seq<nat>, u: nat) {
    exists k :: 0 <= k < |list| && list[k] in mem && list[k] <= u < list[k] + mem[list[k]].size
  }

  ghost predicate InBlock(a: nat, n: nat, u: nat) {
    a <= u < a + n
  }

  // ----- live blocks -----

  /** Blocks handed out, by the address of their header. */
  type Live = map<nat, nat>

  ghost predicate InLive(live: Live, u: nat) {
    exists a :: a in live && a <= u < a + live[a]
  }

  ghost predicate Apart(a: nat, n: nat, b: nat, m: nat) {
    a + n <= b || b + m <= a
  }

  /** A live block keeps its size in its header and overlaps no free block. */
  ghost predicate LiveBlock(mem: Memory, list: seq<nat>, live: Live, a: nat) {
    && a in live && a in mem && mem[a].size == live[a] >= 1 && a !in list
    && forall u :: a <= u < a + live[a] ==> !InFree(mem, list, u)
  }

  ghost predicate LiveOk(mem: Memory, list: seq<nat>, live: Live) {
    && (forall a :: a in live ==> LiveBlock(mem, list, live, a))
    && (forall a, b :: a in live && b in live && a != b ==> Apart(a, live[a], b, live[b]))
  }

  /** Every unit obtained from sbrk is in a free block or in a live one. */
  ghost predicate Conserved(mem: Memory, list: seq<nat>, live: Live, arena: set<nat>) {
    forall u :: u in arena <==> InFree(mem, list, u) || InLive(live, u)
  }

  ghost predicate Ok(mem: Memory, list: seq<nat>, live: Live, arena: set<nat>) {
    && Chain(mem, list) && LiveOk(mem, list, live) && Conserved(mem, list, live, arena)
    && forall a :: a in live ==> list[0] < a
  }

  // ----- free: where the block goes -----

  /** list[k] is the last free block below bp. */
  ghost predicate Before(list: seq<nat>, k: nat, bp: nat) {
    k < |list| && list[k] < bp && (k + 1 < |list| ==> bp < list[k + 1])
  }

  lemma {:induction false} BeforeExists(mem: Memory, list: seq<nat>, bp: nat) returns (k: nat)
    requires Chain(mem, list) && list[0] < bp && bp !in list
    ensures Before(list, k, bp)
  {
    k := 0;
    while k + 1 < |list| && list[k + 1] < bp
      invariant k < |list| && list[k] < bp
    {
      k := k + 1;
    }
    if k + 1 < |list| { assert list[k + 1] in list; }
  }

  /** The exit condition of the search loop of free. */
  ghost predicate Stops(p: nat, next: nat, bp: nat) {
    (bp > p && bp < next) || (p >= next && (bp > p || bp < next))
  }

  lemma StopsOnlyBefore(mem: Memory, list: seq<nat>, k: nat, j: nat, bp: nat)
    requires Chain(mem, list) && Before(list, k, bp) && j < |list| && list[0] < bp
    ensures Stops(list[j], Succ(list, j), bp) <==> j == k
  {
    if j < k { Ascending(mem, list, j, k); if j + 1 < k { Ascending(mem, list, j + 1, k); } }
    if k < j { Ascending(mem, list, k, j); if k + 1 < j { Ascending(mem, list, k + 1, j); } }
    if 0 < j { Ascending(mem, list, 0, j); }
    if j + 1 < |list| { Ascending(mem, list, j, j + 1); }
  }

  // ----- free: the block is linked in and merged with its neighbours -----

  /** Memory after free has linked bp in behind p. */
  function Freed(mem: Memory, p: nat, bp: nat): Memory
    requires p in mem && bp in mem && mem[p].ptr in mem
  {
    var m := MergedUp(mem, p, bp);
    if p + m[p].size == bp
    then m[p := Header(m[bp].ptr, m[p].size + m[bp].size)]
    else m[p := m[p].(ptr := bp)]
  }

  function MergedUp(mem: Memory, p: nat, bp: nat): (m: Memory)
    requires p in mem && bp in mem && mem[p].ptr in mem
    ensures p in m && bp in m
  {
    var next := mem[p].ptr;
    if bp + mem[bp].size == next
    then mem[bp := Header(mem[next].ptr, mem[bp].size + mem[next].size)]
    else mem[bp := mem[bp].(ptr := next)]
  }

  /** bp can go behind list[k]: a block of its own, between list[k] and the next one. */
  ghost predicate Fits(mem: Memory, list: seq<nat>, k: nat, bp: nat) {
    && Chain(mem, list) && bp in mem && mem[bp].size >= 1 && Before(list, k, bp)
    && list[k] in mem && list[k] + mem[list[k]].size <= bp
    && (k + 1 < |list| ==> list[k + 1] in mem)
    && (k + 1 < |list| ==> bp + mem[bp].size <= list[k + 1])
  }

  // ----- replacing a stretch of the list -----

  /** list[k..j] gives way to mid; list[k] itself stays as the first of mid. */
  ghost function Replaced(list: seq<nat>, k: nat, mid: seq<nat>, j: nat): seq<nat>
    requires k <= j <= |list|
  {
    list[..k] + mid + list[j..]
  }

  ghost predicate Links(mem: Memory, mid: seq<nat>, after: nat) {
    && |mid| >= 1 && (forall i :: 0 <= i < |mid| ==> mid[i] in mem)
    && (forall i :: 0 <= i < |mid| - 1 ==> mem[mid[i]].ptr == mid[i + 1] && mid[i] + mem[mid[i]].size < mid[i + 1])
    && mem[mid[|mid| - 1]].ptr == after
  }

  ghost predicate SameHeaders(mem: Memory, mem': Memory, list: seq<nat>) {
    forall i :: 0 <= i < |list| ==> list[i] in mem && list[i] in mem' && mem'[list[i]] == mem[list[i]]
  }

  lemma Rechain(mem: Memory, list: seq<nat>, mem': Memory, k: nat, mid: seq<nat>, j: nat)
    requires Chain(mem, list) && k < j <= |list|
    requires SameHeaders(mem, mem', list[..k]) && SameHeaders(mem, mem', list[j..])
    requires Links(mem', mid, if j < |list| then list[j] else list[0]) && mid[0] == list[k]
    requires forall i :: 0 <= i < |mid| && (0 < k || 0 < i) ==> mem'[mid[i]].size >= 1
    requires k == 0 ==> mem'[list[0]].size == 0
    requires j < |list| ==> mid[|mid| - 1] + mem'[mid[|mid| - 1]].size < list[j]
    ensures Chain(mem', Replaced(list, k, mid, j)) && Replaced(list, k, mid, j)[0] == list[0]
  {
    var l: seq<nat> := Replaced(list, k, mid, j);
    forall i | 0 <= i < |l| ensures NodeOk(mem', l, i) {
      if i < k {
        RechainBefore(mem, list, mem', k, mid, j, i);
      } else if i < k + |mid| {
        RechainMid(mem, list, mem', k, mid, j, i);
      } else {
        RechainAfter(mem, list, mem', k, mid, j, i);
      }
    }
  }

  lemma RechainBefore(mem: Memory, list: seq<nat>, mem': Memory, k: nat, mid: seq<nat>, j: nat, i: nat)
    requires Chain(mem, list) && i < k < j <= |list| && SameHeaders(mem, mem', list[..k])
    requires |mid| >= 1 && mid[0] == list[k]
    ensures NodeOk(mem', Replaced(list, k, mid, j), i)
  {
    var l: seq<nat> := Replaced(list, k, mid, j);
    assert NodeOk(mem, list, i);
    assert l[i] == list[i] == list[..k][i] && l[i + 1] == list[i + 1];
  }

  lemma RechainMid(mem: Memory, list: seq<nat>, mem': Memory, k: nat, mid: seq<nat>, j: nat, i: nat)
    requires Chain(mem, list) && k < j <= |list| && k <= i < k + |mid|
    requires Links(mem', mid, if j < |list| then list[j] else list[0]) && mid[0] == list[k]
    requires forall x :: 0 <= x < |mid| && (0 < k || 0 < x) ==> mem'[mid[x]].size >= 1
    requires j < |list| ==> mid[|mid| - 1] + mem'[mid[|mid| - 1]].size < list[j]
    ensures NodeOk(mem', Replaced(list, k, mid, j), i)
  {
    var l: seq<nat> := Replaced(list, k, mid, j);
    var x := i - k;
    assert l[i] == mid[x] && l[0] == list[0];
    if x + 1 < |mid| { assert l[i + 1] == mid[x + 1]; } else if j < |list| { assert l[i + 1] == list[j]; }
  }

  lemma RechainAfter(mem: Memory, list: seq<nat>, mem': Memory, k: nat, mid: seq<nat>, j: nat, i: nat)
    requires Chain(mem, list) && k < j <= |list| && |mid| >= 1 && mid[0] == list[k] && SameHeaders(mem, mem', list[j..])
    requires k + |mid| <= i < |Replaced(list, k, mid, j)|
    ensures NodeOk(mem', Replaced(list, k, mid, j), i)
  {
    var l: seq<nat> := Replaced(list, k, mid, j);
    var x := i - k - |mid| + j;
    assert l[i] == list[x] == list[j..][x - j] && l[0] == list[0];
    assert NodeOk(mem, list, x);
    if i + 1 < |l| { assert l[i + 1] == list[x + 1]; }
  }

  lemma FreeConcat(mem: Memory, a: seq<nat>, b: seq<nat>, u: nat)
    ensures InFree(mem, a + b, u) <==> InFree(mem, a, u) || InFree(mem, b, u)
  {
    if InFree(mem, a, u) {
      var k :| 0 <= k < |a| && a[k] in mem && a[k] <= u < a[k] + mem[a[k]].size;
      assert (a + b)[k] == a[k];
    }
    if InFree(mem, b, u) {
      var k :| 0 <= k < |b| && b[k] in mem && b[k] <= u < b[k] + mem[b[k]].size;
      assert (a + b)[|a| + k] == b[k];
    }
  }

  lemma FreeFrame(mem: Memory, mem': Memory, list: seq<nat>, u: nat)
    requires SameHeaders(mem, mem', list)
    ensures InFree(mem', list, u) <==> InFree(mem, list, u)
  {
  }

  /** Which units are free after the replacement: only the stretch matters. */
  lemma ReplacedUnits(mem: Memory, list: seq<nat>, mem': Memory, k: nat, mid: seq<nat>, j: nat, u: nat)
    requires k <= j <= |list| && SameHeaders(mem, mem', list[..k]) && SameHeaders(mem, mem', list[j..])
    ensures InFree(mem', Replaced(list, k, mid, j), u) <==>
            InFree(mem, list[..k], u) || InFree(mem', mid, u) || InFree(mem, list[j..], u)
    ensures InFree(mem, list, u) <==> InFree(mem, list[..k], u) || InFree(mem, list[k..j], u) || InFree(mem, list[j..], u)
  {
    FreeConcat(mem', list[..k] + mid, list[j..], u);
    FreeConcat(mem', list[..k], mid, u);
    FreeFrame(mem, mem', list[..k], u);
    FreeFrame(mem, mem', list[j..], u);
    assert list == list[..k] + list[k..j] + list[j..];
    FreeConcat(mem, list[..k] + list[k..j], list[j..], u);
    FreeConcat(mem, list[..k], list[k..j], u);
  }

  // ----- what free does to the list -----

  ghost predicate MeetsNext(mem: Memory, list: seq<nat>, k: nat, bp: nat)
    requires Fits(mem, list, k, bp)
  {
    k + 1 < |list| && bp + mem[bp].size == list[k + 1]
  }

  ghost predicate MeetsPrev(mem: Memory, list: seq<nat>, k: nat, bp: nat)
    requires Fits(mem, list, k, bp)
  {
    list[k] + mem[list[k]].size == bp
  }

  ghost function FreedMid(mem: Memory, list: seq<nat>, k: nat, bp: nat): seq<nat>
    requires Fits(mem, list, k, bp)
  {
    if MeetsPrev(mem, list, k, bp) then [list[k]] else [list[k], bp]
  }

  ghost function FreedEnd(mem: Memory, list: seq<nat>, k: nat, bp: nat): (j: nat)
    requires Fits(mem, list, k, bp)
    ensures k < j <= |list|
  {
    if MeetsNext(mem, list, k, bp) then k + 2 else k + 1
  }

  ghost function FreedList(mem: Memory, list: seq<nat>, k: nat, bp: nat): seq<nat>
    requires Fits(mem, list, k, bp)
  {
    Replaced(list, k, FreedMid(mem, list, k, bp), FreedEnd(mem, list, k, bp))
  }

  /** The headers free writes. */
  lemma FreedHeaders(mem: Memory, list: seq<nat>, k: nat, bp: nat)
    requires Fits(mem, list, k, bp)
    ensures list[k] in mem && mem[list[k]].ptr == Succ(list, k) && Succ(list, k) in mem
    ensures var m := Freed(mem, list[k], bp);
            var up := if MeetsNext(mem, list, k, bp) then list[k + 1] else list[k];
            var size := mem[bp].size + if MeetsNext(mem, list, k, bp) then mem[list[k + 1]].size else 0;
            var after := Succ(list, FreedEnd(mem, list, k, bp) - 1);
            && m.Keys == mem.Keys && list[k] != bp
            && (if MeetsPrev(mem, list, k, bp) then m[list[k]] == Header(after, mem[list[k]].size + size)
                else m[list[k]] == Header(bp, mem[list[k]].size) && m[bp] == Header(after, size))
            && forall a :: a in mem && a != bp && a != list[k] ==> m[a] == mem[a]
  {
    assert NodeOk(mem, list, k) && NodeOk(mem, list, 0);
    if k + 1 < |list| { assert NodeOk(mem, list, k + 1); }
    if 0 < k { Ascending(mem, list, 0, k); }
  }

  /** Nodes of the list other than the k-th keep their headers. */
  lemma FreedOthers(mem: Memory, list: seq<nat>, k: nat, bp: nat)
    requires Fits(mem, list, k, bp)
    ensures list[k] in mem && mem[list[k]].ptr in mem
    ensures SameHeaders(mem, Freed(mem, list[k], bp), list[..k])
    ensures SameHeaders(mem, Freed(mem, list[k], bp), list[FreedEnd(mem, list, k, bp)..])
  {
    hide Freed;
    FreedHeaders(mem, list, k, bp);
    forall j | 0 <= j < |list| && j != k ensures list[j] in mem && list[j] != bp && list[j] != list[k] {
      assert NodeOk(mem, list, j);
      if j < k { Ascending(mem, list, j, k); } else { Ascending(mem, list, k, j); }
      if k + 1 < j { Ascending(mem, list, k + 1, j); }
    }
  }

  /** free keeps the list circular, address-sorted and coalesced. */
  lemma FreedChain(mem: Memory, list: seq<nat>, k: nat, bp: nat)
    requires Fits(mem, list, k, bp)
    ensures list[k] in mem && mem[list[k]].ptr in mem
    ensures Chain(Freed(mem, list[k], bp), FreedList(mem, list, k, bp))
    ensures FreedList(mem, list, k, bp)[0] == list[0]
  {
    hide Freed;
    FreedHeaders(mem, list, k, bp);
    FreedOthers(mem, list, k, bp);
    assert NodeOk(mem, list, k);
    if k + 1 < |list| { assert NodeOk(mem, list, k + 1); }
    Rechain(mem, list, Freed(mem, list[k], bp), k, FreedMid(mem, list, k, bp), FreedEnd(mem, list, k, bp));
  }

  /** free adds exactly the units of the block. */
  lemma FreedUnits(mem: Memory, list: seq<nat>, k: nat, bp: nat, u: nat)
    requires Fits(mem, list, k, bp)
    ensures list[k] in mem && mem[list[k]].ptr in mem
    ensures InFree(Freed(mem, list[k], bp), FreedList(mem, list, k, bp), u) <==>
            InFree(mem, list, u) || InBlock(bp, mem[bp].size, u)
  {
    hide Freed, InFree, Replaced;
    FreedHeaders(mem, list, k, bp);
    FreedOthers(mem, list, k, bp);
    var mid, j, m := FreedMid(mem, list, k, bp), FreedEnd(mem, list, k, bp), Freed(mem, list[k], bp);
    ReplacedUnits(mem, list, m, k, mid, j, u);
    FreeOne(mem, list[k], u);
    FreeOne(m, list[k], u);
    if j == k + 2 {
      assert NodeOk(mem, list, k + 1);
      FreeTwo(mem, list[k], list[k + 1], u);
      assert list[k..j] == [list[k], list[k + 1]];
    } else {
      assert list[k..j] == [list[k]];
    }
    if |mid| == 2 { FreeTwo(m, list[k], bp, u); }
  }

  lemma FreeOne(mem: Memory, a: nat, u: nat)
    ensures InFree(mem, [a], u) <==> a in mem && InBlock(a, mem[a].size, u)
  {
    if a in mem && InBlock(a, mem[a].size, u) { assert [a][0] == a; }
  }

  lemma FreeTwo(mem: Memory, a: nat, b: nat, u: nat)
    ensures InFree(mem, [a, b], u) <==>
            (a in mem && InBlock(a, mem[a].size, u)) || (b in mem && InBlock(b, mem[b].size, u))
  {
    assert [a, b] == [a] + [b];
    FreeConcat(mem, [a], [b], u);
    FreeOne(mem, a, u);
    FreeOne(mem, b, u);
  }

  // ----- every call keeps the heap in order -----

  lemma BlockFits(mem: Memory, list: seq<nat>, live: Live, arena: set<nat>, k: nat, bp: nat)
    requires Ok(mem, list, live, arena) && bp in live && Before(list, k, bp)
    ensures Fits(mem, list, k, bp)
  {
    assert NodeOk(mem, list, k) && LiveBlock(mem, list, live, bp);
    assert !InFree(mem, list, bp);
    if k + 1 < |list| {
      assert NodeOk(mem, list, k + 1);
      assert InFree(mem, list, list[k + 1]);
    }
  }

  lemma FreedListElements(mem: Memory, list: seq<nat>, k: nat, bp: nat, a: nat)
    requires Fits(mem, list, k, bp) && a in FreedList(mem, list, k, bp)
    ensures a == bp || a in list
  {
  }

  /** free gives the block's units to the free list and touches nothing else. */
  lemma FreeKeeps(mem: Memory, list: seq<nat>, live: Live, arena: set<nat>, k: nat, bp: nat)
    requires Ok(mem, list, live, arena) && bp in live && Before(list, k, bp)
    ensures Fits(mem, list, k, bp) && mem[list[k]].ptr in mem
    ensures Ok(Freed(mem, list[k], bp), FreedList(mem, list, k, bp), live - {bp}, arena)
    ensures FreedList(mem, list, k, bp)[0] == list[0] && list[k] in FreedList(mem, list, k, bp)
  {
    BlockFits(mem, list, live, arena, k, bp);
    FreedChain(mem, list, k, bp);
    var m, l, live' := Freed(mem, list[k], bp), FreedList(mem, list, k, bp), live - {bp};
    assert l[k] == list[k];
    FreedHeaders(mem, list, k, bp);
    hide Freed, FreedList, InFree, Chain;
    assert LiveBlock(mem, list, live, bp);
    forall u ensures InFree(m, l, u) <==> InFree(mem, list, u) || InBlock(bp, mem[bp].size, u) {
      FreedUnits(mem, list, k, bp, u);
    }
    forall a | a in live' ensures LiveBlock(m, l, live', a) {
      assert LiveBlock(mem, list, live, a) && Apart(a, live[a], bp, live[bp]);
      if a in l { FreedListElements(mem, list, k, bp, a); }
    }
    forall u ensures u in arena <==> InFree(m, l, u) || InLive(live', u) {
      LiveWithout(live, bp, u);
    }
  }

  lemma LiveWithout(live: Live, bp: nat, u: nat)
    requires bp in live && forall a :: a in live && a != bp ==> Apart(a, live[a], bp, live[bp])
    ensures InLive(live, u) <==> InLive(live - {bp}, u) || InBlock(bp, live[bp], u)
  {
    if InLive(live, u) && !InBlock(bp, live[bp], u) {
      var a :| a in live && a <= u < a + live[a];
      assert a in live - {bp};
    }
    if InLive(live - {bp}, u) {
      var a :| a in live - {bp} && a <= u < a + (live - {bp})[a];
      assert a in live;
    }
  }

  // ----- malloc: taking units from a free block -----

  /** Memory after malloc has taken n units from p, whose predecessor is prev. */
  function Taken(mem: Memory, prev: nat, p: nat, n: nat): Memory
    requires prev in mem && p in mem && mem[p].size >= n
  {
    if mem[p].size == n then mem[prev := mem[prev].(ptr := mem[p].ptr)]
    else
      var m := mem[p := mem[p].(size := mem[p].size - n)];
      var r := p + m[p].size;
      m[r := Header(if r in m then m[r].ptr else 0, n)]
  }

  /** Where the block handed out starts: the upper end of p. */
  function TakenAt(mem: Memory, p: nat, n: nat): nat
    requires p in mem && mem[p].size >= n
  {
    p + mem[p].size - n
  }

  ghost function TakenList(mem: Memory, list: seq<nat>, k: nat, n: nat): seq<nat>
    requires 1 <= k < |list| && list[k] in mem
  {
    if mem[list[k]].size == n then Replaced(list, k - 1, [list[k - 1]], k + 1) else list
  }

  ghost predicate CanTake(mem: Memory, list: seq<nat>, k: nat, n: nat) {
    Chain(mem, list) && 1 <= k < |list| && list[k] in mem && list[k - 1] in mem && mem[list[k]].size >= n >= 1
  }

  lemma {:induction false} Distinct(mem: Memory, list: seq<nat>, i: nat, j: nat)
    requires Chain(mem, list) && i < |list| && j < |list| && i != j
    ensures list[i] in mem && list[j] in mem && list[i] != list[j]
    ensures list[i] < list[j] ==> list[i] + mem[list[i]].size < list[j]
  {
    if i < j { Ascending(mem, list, i, j); } else { Ascending(mem, list, j, i); }
  }

  lemma TakenChain(mem: Memory, list: seq<nat>, k: nat, n: nat)
    requires CanTake(mem, list, k, n)
    ensures Chain(Taken(mem, list[k - 1], list[k], n), TakenList(mem, list, k, n))
    ensures TakenList(mem, list, k, n)[0] == list[0] && list[k - 1] in TakenList(mem, list, k, n)
  {
    var m := Taken(mem, list[k - 1], list[k], n);
    assert NodeOk(mem, list, k) && NodeOk(mem, list, k - 1);
    forall j | 0 <= j < |list| && j != k ensures list[j] in mem && list[j] != list[k] && list[j] != TakenAt(mem, list[k], n) {
      Distinct(mem, list, j, k);
      Distinct(mem, list, k, j);
    }
    if mem[list[k]].size == n {
      forall j | 0 <= j < |list| && j != k - 1 ensures list[j] in mem && list[j] != list[k - 1] { Distinct(mem, list, j, k - 1); }
      Rechain(mem, list, m, k - 1, [list[k - 1]], k + 1);
      assert TakenList(mem, list, k, n)[k - 1] == list[k - 1];
    } else {
      forall j | 0 <= j < |list| ensures NodeOk(m, list, j) { assert NodeOk(mem, list, j); }
    }
  }

  /** malloc removes exactly the units of the block it returns. */
  lemma TakenUnits(mem: Memory, list: seq<nat>, k: nat, n: nat, u: nat)
    requires CanTake(mem, list, k, n)
    ensures InFree(Taken(mem, list[k - 1], list[k], n), TakenList(mem, list, k, n), u) <==>
            InFree(mem, list, u) && !InBlock(TakenAt(mem, list[k], n), n, u)
  {
    var m, l := Taken(mem, list[k - 1], list[k], n), TakenList(mem, list, k, n);
    TakenChain(mem, list, k, n);
    assert NodeOk(mem, list, k) && NodeOk(mem, list, k - 1);
    if InFree(mem, list, u) && !InBlock(TakenAt(mem, list[k], n), n, u) {
      var j :| 0 <= j < |list| && list[j] in mem && list[j] <= u < list[j] + mem[list[j]].size;
      if j != k { Distinct(mem, list, j, k); Distinct(mem, list, k, j); }
      var x := if mem[list[k]].size == n && j > k then j - 1 else j;
      assert l[x] == list[j];
    }
    if InFree(m, l, u) {
      var x :| 0 <= x < |l| && l[x] in m && l[x] <= u < l[x] + m[l[x]].size;
      var j := if mem[list[k]].size == n && x >= k then x + 1 else x;
      assert l[x] == list[j];
      if j != k { Distinct(mem, list, j, k); Distinct(mem, list, k, j); }
    }
  }

  /** The headers malloc writes. */
  lemma TakenHeaders(mem: Memory, list: seq<nat>, k: nat, n: nat)
    requires CanTake(mem, list, k, n)
    ensures var m, r := Taken(mem, list[k - 1], list[k], n), TakenAt(mem, list[k], n);
            && r in m && m[r].size == n
            && (mem[list[k]].size > n ==> list[k] < r)
            && forall a :: a in mem && a != list[k - 1] && a != list[k] && a != r ==> a in m && m[a] == mem[a]
  {
    Distinct(mem, list, k - 1, k);
  }

  lemma TakenListElements(mem: Memory, list: seq<nat>, k: nat, n: nat)
    requires CanTake(mem, list, k, n)
    ensures forall a :: a in TakenList(mem, list, k, n) ==> a in list
    ensures TakenAt(mem, list[k], n) !in TakenList(mem, list, k, n)
  {
    var l, r := TakenList(mem, list, k, n), TakenAt(mem, list[k], n);
    forall x | 0 <= x < |l| ensures l[x] != r {
      var j := if mem[list[k]].size == n && x >= k then x + 1 else x;
      assert l[x] == list[j];
      if j != k { Distinct(mem, list, j, k); Distinct(mem, list, k, j); }
    }
  }

  /** malloc moves n units from the free list to a new live block and touches nothing else. */
  lemma TakeKeeps(mem: Memory, list: seq<nat>, live: Live, arena: set<nat>, k: nat, n: nat)
    requires Ok(mem, list, live, arena) && CanTake(mem, list, k, n)
    ensures var r := TakenAt(mem, list[k], n);
            && r !in live
            && Ok(Taken(mem, list[k - 1], list[k], n), TakenList(mem, list, k, n), live[r := n], arena)
    ensures TakenList(mem, list, k, n)[0] == list[0] && list[k - 1] in TakenList(mem, list, k, n)
    ensures forall u :: InBlock(TakenAt(mem, list[k], n), n, u) ==> InFree(mem, list, u)
  {
    var m, l, r := Taken(mem, list[k - 1], list[k], n), TakenList(mem, list, k, n), TakenAt(mem, list[k], n);
    var live' := live[r := n];
    TakenChain(mem, list, k, n);
    TakenHeaders(mem, list, k, n);
    TakenListElements(mem, list, k, n);
    forall u ensures InBlock(r, n, u) ==> InFree(mem, list, u) { }
    assert InBlock(r, n, r);
    assert InFree(mem, list, r);
    if 0 < k { Ascending(mem, list, 0, k); }
    hide Taken, TakenList, InFree, Chain, TakenAt;
    forall u ensures InFree(m, l, u) <==> InFree(mem, list, u) && !InBlock(r, n, u) {
      TakenUnits(mem, list, k, n, u);
    }
    forall a | a in live ensures a != r {
      assert LiveBlock(mem, list, live, a) && !InFree(mem, list, a);
    }
    forall a | a in live' ensures LiveBlock(m, l, live', a) {
      if a != r { assert LiveBlock(mem, list, live, a); }
    }
    forall a | a in live ensures Apart(a, live[a], r, n) {
      assert LiveBlock(mem, list, live, a);
      NoCommonUnit(mem, list, live, a, r, n);
    }
    forall u ensures u in arena <==> InFree(m, l, u) || InLive(live', u) {
      LiveWith(live, r, n, u);
    }
  }

  lemma NoCommonUnit(mem: Memory, list: seq<nat>, live: Live, a: nat, r: nat, n: nat)
    requires LiveBlock(mem, list, live, a) && n >= 1 && forall u :: InBlock(r, n, u) ==> InFree(mem, list, u)
    ensures Apart(a, live[a], r, n)
  {
    assert InBlock(r, n, a) ==> InFree(mem, list, a);
    assert InBlock(r, n, r) && InFree(mem, list, r);
  }

  lemma LiveWith(live: Live, r: nat, n: nat, u: nat)
    requires r !in live
    ensures InLive(live[r := n], u) <==> InLive(live, u) || InBlock(r, n, u)
  {
    var live' := live[r := n];
    if InLive(live, u) {
      var a :| a in live && a <= u < a + live[a];
      assert a in live' && live'[a] == live[a];
    }
    if InBlock(r, n, u) { assert r in live' && live'[r] == n; }
    if InLive(live', u) {
      var a :| a in live' && a <= u < a + live'[a];
    }
  }

  // ----- morecore -----

  ghost function Units(a: nat, n: nat): set<nat> {
    set u | a <= u < a + n && InBlock(a, n, u)
  }

  /** hp lies above everything the heap has so far. */
  ghost predicate Above(list: seq<nat>, arena: set<nat>, hp: nat)
    requires |list| > 0
  {
    list[0] < hp && forall u :: u in arena ==> u < hp
  }

  /** A fresh chunk from sbrk, with its size in its header, is one more live block. */
  lemma GrowKeeps(mem: Memory, list: seq<nat>, live: Live, arena: set<nat>, hp: nat, n: nat, h: Header)
    requires Ok(mem, list, live, arena) && Above(list, arena, hp) && n >= 1 && h.size == n
    ensures hp !in live && hp !in list
    ensures Ok(mem[hp := h], list, live[hp := n], arena + Units(hp, n))
  {
    var m, live', arena' := mem[hp := h], live[hp := n], arena + Units(hp, n);
    forall k | 0 <= k < |list| ensures list[k] in mem && list[k] < hp && list[k] + mem[list[k]].size <= hp {
      assert NodeOk(mem, list, k);
      if 0 < k {
        var u := list[k] + mem[list[k]].size - 1;
        assert InFree(mem, list, u);
      }
    }
    forall a | a in live ensures a + live[a] <= hp {
      assert LiveBlock(mem, list, live, a);
      assert InLive(live, a + live[a] - 1);
    }
    assert SameHeaders(mem, m, list) by { forall k | 0 <= k < |list| ensures list[k] in mem { assert NodeOk(mem, list, k); } }
    forall k | 0 <= k < |list| ensures NodeOk(m, list, k) { assert NodeOk(mem, list, k); }
    forall u ensures InFree(m, list, u) <==> InFree(mem, list, u) { FreeFrame(mem, m, list, u); }
    forall a | a in live' ensures LiveBlock(m, list, live', a) {
      if a != hp { assert LiveBlock(mem, list, live, a); } else {
        forall u | hp <= u < hp + n ensures !InFree(mem, list, u) { }
      }
    }
    forall u ensures u in arena' <==> InFree(m, list, u) || InLive(live', u) {
      LiveWith(live, hp, n, u);
    }
  }

  /** The x-th node after index f, going round. */
  ghost function Ahead(f: nat, x: nat, n: nat): (i: nat)
    requires f < n && x <= n
    ensures i < n
  {
    if f + x < n then f + x else f + x - n
  }

  lemma AheadCovers(f: nat, n: nat, i: nat) returns (x: nat)
    requires f < n && i < n
    ensures 1 <= x <= n && Ahead(f, x, n) == i
  {
    x := if i > f then i - f else i - f + n;
  }

  ghost predicate Small(mem: Memory, list: seq<nat>, k: nat, n: nat) {
    k < |list| && list[k] in mem && mem[list[k]].size < n
  }

  lemma LiveNotFree(mem: Memory, list: seq<nat>, live: Live, a: nat)
    requires LiveOk(mem, list, live) && a in live
    ensures a !in list
  {
    assert LiveBlock(mem, list, live, a);
  }

  class Heap {
    var mem: Memory
    var freep: nat          // 0 is the null pointer
    const base: nat         // &base
    ghost var list: seq<nat>
    ghost var live: Live
    ghost var arena: set<nat>

    /** Before the first malloc nothing is set up; from then on the heap is in order. */
    ghost predicate Valid()
      reads this
    {
      0 < base &&
      if freep == 0 then live == map[] && arena == {}
      else Ok(mem, list, live, arena) && list[0] == base && freep in list
    }

    constructor (base: nat)
      requires 0 < base
      ensures Valid() && freep == 0 && this.base == base
    {
      this.base := base;
      mem, freep, list, live, arena := map[], 0, [], map[], {};
    }

    /** free, given the address of the header in front of a block malloc has handed out. */
    method Free(bp: nat)
      requires Valid() && freep != 0 && bp in live
      modifies this
      ensures Valid() && freep != 0 && live == old(live) - {bp} && arena == old(arena)
      ensures forall u :: InFree(mem, list, u) <==> old(InFree(mem, list, u)) || InBlock(bp, old(live)[bp], u)
    {
      hide InFree, Freed, FreedList, Chain;
      var p;
      ghost var k;
      p, k := FindPlace(bp);
      FreeKeeps(mem, list, live, arena, k, bp);
      forall u ensures InFree(Freed(mem, p, bp), FreedList(mem, list, k, bp), u) <==> InFree(mem, list, u) || InBlock(bp, live[bp], u) {
        assert LiveBlock(mem, list, live, bp);
        FreedUnits(mem, list, k, bp, u);
      }
      list := FreedList(mem, list, k, bp);
      LinkIn(p, bp);
      live := live - {bp};
      freep := p;
    }

    /** The search loop of free: the last free block below bp, going round from freep. */
    method FindPlace(bp: nat) returns (p: nat, ghost k: nat)
      requires Valid() && freep != 0 && bp in live
      ensures Before(list, k, bp) && p == list[k] != 0
    {
      hide InFree, LiveOk, Conserved;
      LiveNotFree(mem, list, live, bp);
      k := BeforeExists(mem, list, bp);
      if 0 < k { Ascending(mem, list, 0, k); }
      p := freep;
      ghost var j :| 0 <= j < |list| && list[j] == p;
      assert NodeOk(mem, list, j);
      StopsOnlyBefore(mem, list, k, j, bp);
      while !(bp > p && bp < mem[p].ptr)
        invariant 0 <= j < |list| && p == list[j] && p in mem && mem[p].ptr == Succ(list, j)
        invariant Stops(p, mem[p].ptr, bp) <==> j == k
        decreases if j <= k then k - j else k + |list| - j
      {
        if p >= mem[p].ptr && (bp > p || bp < mem[p].ptr) {
          break;
        }
        j := if j + 1 < |list| then j + 1 else 0;
        p := mem[p].ptr;
        assert NodeOk(mem, list, j);
        StopsOnlyBefore(mem, list, k, j, bp);
      }
    }

    /** The two merges of free, header by header. */
    method LinkIn(p: nat, bp: nat)
      requires p in mem && bp in mem && mem[p].ptr in mem
      modifies this`mem
      ensures mem == Freed(old(mem), p, bp)
    {
      if bp + mem[bp].size == mem[p].ptr {
        var next := mem[p].ptr;
        mem := mem[bp := Header(mem[next].ptr, mem[bp].size + mem[next].size)];
      } else {
        mem := mem[bp := mem[bp].(ptr := mem[p].ptr)];
      }
      if p + mem[p].size == bp {
        mem := mem[p := Header(mem[bp].ptr, mem[p].size + mem[bp].size)];
      } else {
        mem := mem[p := mem[p].(ptr := bp)];
      }
    }
  
    /** morecore(nu): at least 4096 units from sbrk go to the free list.  sbrk is its
        answer: None for -1, else an address above everything the heap has. */
    method Morecore(nunits: nat, sbrk: Option<nat>) returns (p: nat, ghost chunk: set<nat>)
      requires Valid() && freep != 0 && nunits >= 1
      requires sbrk.Some? ==> Above(list, arena, sbrk.value)
      modifies this
      ensures Valid() && freep != 0 && live == old(live)
      ensures sbrk.None? ==> p == 0 && mem == old(mem) && list == old(list) && arena == old(arena) && freep == old(freep)
      ensures sbrk.Some? ==> p == freep && arena == old(arena) + chunk
                             && chunk == Units(sbrk.value, if nunits < 4096 then 4096 else nunits)
                             && (forall u :: InFree(mem, list, u) <==> old(InFree(mem, list, u)) || u in chunk)
    {
      var nu := nunits;
      if nu < 4096 { nu := 4096; }
      chunk := {};
      if sbrk.None? { return 0, {}; }
      var hp := sbrk.value;
      chunk := Units(hp, nu);
      var h := Header(if hp in mem then mem[hp].ptr else 0, nu);
      GrowKeeps(mem, list, live, arena, hp, nu, h);
      hide Ok;
      forall u ensures InFree(mem[hp := h], list, u) <==> InFree(mem, list, u) { GrowFrame(mem, list, hp, h, u); }
      mem := mem[hp := h];
      live := live[hp := nu];
      arena := arena + chunk;
      Free(hp);
      assert live == old(live);
      p := freep;
    }
  
    /** Units for a request: the bytes rounded up, plus one for the header. */
    static function UnitsFor(nbytes: nat): (n: nat)
      ensures n >= 1 && (n - 1) * 8 >= nbytes && (n - 2) * 8 < nbytes
    {
      (nbytes + 8 - 1) / 8 + 1
    }

    /** The state malloc sets up on its first call. */
    method FirstUse()
      requires Valid() && freep == 0
      modifies this
      ensures Valid() && freep == base && list == [base] && live == map[] && arena == {}
    {
      mem := map[base := Header(base, 0)];
      freep := base;
      list := [base];
      assert NodeOk(mem, list, 0);
    }

    /** Cut n units off the block p, or unlink it when it is exactly n. */
    method Take(prevp: nat, p: nat, n: nat) returns (q: nat)
      requires prevp in mem && p in mem && mem[p].size >= n
      modifies this`mem
      ensures mem == Taken(old(mem), prevp, p, n) && q == TakenAt(old(mem), p, n)
    {
      if mem[p].size == n {
        mem := mem[prevp := mem[prevp].(ptr := mem[p].ptr)];
        q := p;
      } else {
        mem := mem[p := mem[p].(size := mem[p].size - n)];
        q := p + mem[p].size;
        mem := mem[q := Header(if q in mem then mem[q].ptr else 0, n)];
      }
    }

    /** Hand out n units of the i-th free block and let the next search start before it. */
    method Grab(prevp: nat, p: nat, n: nat, ghost i: nat) returns (q: nat)
      requires Valid() && freep != 0 && CanTake(mem, list, i, n) && p == list[i] && prevp == list[i - 1]
      modifies this
      ensures Valid() && freep == prevp != 0 && arena == old(arena)
      ensures q !in old(live) && live == old(live)[q := n]
    {
      hide LiveOk, Conserved, InFree, Taken, TakenList, TakenAt;
      TakeKeeps(mem, list, live, arena, i, n);
      NodeReads(mem, list, i - 1);
      list := TakenList(mem, list, i, n);
      q := Take(prevp, p, n);
      live := live[q := n];
      freep := prevp;
    }

    /** morecore from inside malloc: afterwards some free block is big enough. */
    method GrowFor(n: nat, sbrk: Option<nat>) returns (p: nat, ghost f: nat)
      requires Valid() && freep != 0 && n >= 1
      requires sbrk.Some? ==> base < sbrk.value && forall u :: u in arena ==> u < sbrk.value
      modifies this
      ensures Valid() && freep != 0 && live == old(live) && f < |list| && list[f] == freep
      ensures p == 0 <==> sbrk.None?
      ensures p == 0 ==> mem == old(mem) && list == old(list) && arena == old(arena)
      ensures p != 0 ==> p == freep && arena == old(arena) + Units(sbrk.value, if n < 4096 then 4096 else n)
                         && exists b :: 0 <= b < |list| && !Small(mem, list, b, n)
    {
      hide LiveOk, Conserved, InFree, Units, Chain;
      ghost var chunk;
      p, chunk := Morecore(n, sbrk);
      f :| 0 <= f < |list| && list[f] == freep;
      if p != 0 {
        ghost var b := BigBlock(mem, list, sbrk.value, if n < 4096 then 4096 else n, n);
      }
    }

    /** malloc; 0 is failure.  sbrk is what sbrk would answer, should it be asked. */
    method Malloc(nbytes: nat, sbrk: Option<nat>) returns (r: nat, ghost grew: bool)
      requires Valid() && UnitsFor(nbytes) * 8 < 0x8000_0000
      requires sbrk.Some? ==> base < sbrk.value && forall u :: u in arena ==> u < sbrk.value
      modifies this
      ensures Valid() && freep != 0
      ensures r == 0 ==> sbrk.None? && live == old(live) && arena == old(arena)
                         && forall k :: 0 <= k < |list| ==> Small(mem, list, k, UnitsFor(nbytes))
      ensures r != 0 ==> r - 1 !in old(live) && live == old(live)[r - 1 := UnitsFor(nbytes)]
      ensures !grew ==> arena == old(arena)
      ensures grew ==> sbrk.Some? && arena == old(arena) + Units(sbrk.value, if UnitsFor(nbytes) < 4096 then 4096 else UnitsFor(nbytes))
      ensures grew && old(freep) != 0 ==> old(forall k :: 0 <= k < |list| ==> Small(mem, list, k, UnitsFor(nbytes)))
    {
      hide Ok, Units, Scanning;
      var n := UnitsFor(nbytes);
      grew := false;
      if freep == 0 { FirstUse(); }
      OkChain(mem, list, live, arena);
      var prevp := freep;
      ghost var f: nat :| f < |list| && list[f] == freep;
      ghost var c: nat := 0;
      ScanStart(mem, list, f, n);
      var p := mem[prevp].ptr;
      ghost var mem1, list1 := mem, list;
      while true
        invariant Valid() && freep != 0 && live == old(live) && f < |list| && list[f] == freep && c < |list|
        invariant Scanning(mem, list, f, c, n, prevp, p)
        invariant !grew ==> mem == mem1 && list == list1 && arena == old(arena)
        invariant grew ==> && sbrk.Some? && arena == old(arena) + Units(sbrk.value, if n < 4096 then 4096 else n)
                           && (forall k :: 0 <= k < |list1| ==> Small(mem1, list1, k, n))
                           && exists b :: 0 <= b < |list| && !Small(mem, list, b, n)
        decreases if grew then 0 else 1, |list| - c
      {
        OkChain(mem, list, live, arena);
        ScanReads(mem, list, f, c, n, prevp, p);
        if mem[p].size >= n {
          p := Grab(prevp, p, n, Ahead(f, c + 1, |list|));
          return p + 1, grew;
        }
        if p == freep {
          AllSmall(mem, list, f, c, n, prevp, p);
          p, f := GrowFor(n, sbrk);
          if p == 0 { return 0, grew; }
          grew := true;
          c := 0;
          OkChain(mem, list, live, arena);
          ScanStart(mem, list, f, n);
        } else {
          ScanNext(mem, list, f, c, n, prevp, p);
          c := c + 1;
        }
        prevp := p;
        p := mem[p].ptr;
      }
    }
  }

  lemma OkChain(mem: Memory, list: seq<nat>, live: Live, arena: set<nat>)
    requires Ok(mem, list, live, arena)
    ensures Chain(mem, list)
  {
  }

  /** malloc's scan from freep = list[f]: c blocks seen, all too small; p comes next. */
  ghost predicate Scanning(mem: Memory, list: seq<nat>, f: nat, c: nat, n: nat, prevp: nat, p: nat) {
    && f < |list| && c < |list| && prevp == list[Ahead(f, c, |list|)] && p == list[Ahead(f, c + 1, |list|)]
    && forall x :: 1 <= x <= c ==> Small(mem, list, Ahead(f, x, |list|), n)
  }

  lemma ScanStart(mem: Memory, list: seq<nat>, f: nat, n: nat)
    requires Chain(mem, list) && f < |list|
    ensures list[f] in mem && Scanning(mem, list, f, 0, n, list[f], mem[list[f]].ptr)
  {
    NodeReads(mem, list, f);
  }

  lemma ScanReads(mem: Memory, list: seq<nat>, f: nat, c: nat, n: nat, prevp: nat, p: nat)
    requires Chain(mem, list) && Scanning(mem, list, f, c, n, prevp, p) && n >= 1
    ensures p in mem && p == list[Ahead(f, c + 1, |list|)]
    ensures mem[p].size >= n ==> CanTake(mem, list, Ahead(f, c + 1, |list|), n) && prevp == list[Ahead(f, c + 1, |list|) - 1]
  {
    var i := Ahead(f, c + 1, |list|);
    NodeReads(mem, list, i);
    if 0 < i { NodeReads(mem, list, i - 1); }
  }

  lemma ScanNext(mem: Memory, list: seq<nat>, f: nat, c: nat, n: nat, prevp: nat, p: nat)
    requires Chain(mem, list) && Scanning(mem, list, f, c, n, prevp, p) && p in mem && mem[p].size < n && p != list[f]
    ensures c + 1 < |list| && Scanning(mem, list, f, c + 1, n, p, mem[p].ptr)
  {
    NodeReads(mem, list, Ahead(f, c + 1, |list|));
  }

  lemma NodeReads(mem: Memory, list: seq<nat>, k: nat)
    requires Chain(mem, list) && k < |list|
    ensures list[k] in mem && mem[list[k]].ptr == Succ(list, k) && list[k] >= list[0]
    ensures k == 0 <==> mem[list[k]].size == 0
  {
    assert NodeOk(mem, list, k);
    if 0 < k { Ascending(mem, list, 0, k); }
  }

  /** A fresh chunk makes some free block big enough. */
  lemma BigBlock(mem: Memory, list: seq<nat>, hp: nat, nu: nat, n: nat) returns (k: nat)
    requires Chain(mem, list) && nu >= n >= 1 && forall u :: u in Units(hp, nu) ==> InFree(mem, list, u)
    ensures k < |list| && !Small(mem, list, k, n)
  {
    forall u | InBlock(hp, nu, u) ensures InFree(mem, list, u) { assert u in Units(hp, nu); }
    k := RunInOneBlock(mem, list, hp, nu);
  }

  /** The scan is back at freep: every block of the list was too small. */
  lemma AllSmall(mem: Memory, list: seq<nat>, f: nat, c: nat, n: nat, prevp: nat, p: nat)
    requires Chain(mem, list) && Scanning(mem, list, f, c, n, prevp, p) && p in mem && mem[p].size < n && p == list[f]
    ensures forall k :: 0 <= k < |list| ==> Small(mem, list, k, n)
  {
    var i := Ahead(f, c + 1, |list|);
    if i != f { Distinct(mem, list, i, f); }
    forall k | 0 <= k < |list| ensures Small(mem, list, k, n) {
      var x := AheadCovers(f, |list|, k);
    }
  }

  /** Two adjacent free units are in the same block: the list is coalesced. */
  lemma SameBlock(mem: Memory, list: seq<nat>, u: nat, i: nat, j: nat)
    requires Chain(mem, list) && i < |list| && j < |list| && list[i] in mem && list[j] in mem
    requires InBlock(list[i], mem[list[i]].size, u) && InBlock(list[j], mem[list[j]].size, u + 1)
    ensures i == j
  {
    if i < j { Ascending(mem, list, i, j); } else if j < i { Ascending(mem, list, j, i); }
  }

  /** A run of free units lies in one free block. */
  lemma {:induction false} RunInOneBlock(mem: Memory, list: seq<nat>, a: nat, n: nat) returns (k: nat)
    requires Chain(mem, list) && n >= 1 && forall u :: InBlock(a, n, u) ==> InFree(mem, list, u)
    ensures k < |list| && list[k] in mem && list[k] <= a && a + n <= list[k] + mem[list[k]].size
    decreases n
  {
    var u := a + n - 1;
    assert InBlock(a, n, u);
    var j :| 0 <= j < |list| && list[j] in mem && list[j] <= u < list[j] + mem[list[j]].size;
    if n == 1 {
      k := j;
    } else {
      forall v | InBlock(a, n - 1, v) ensures InFree(mem, list, v) { assert InBlock(a, n, v); }
      k := RunInOneBlock(mem, list, a, n - 1);
      SameBlock(mem, list, u - 1, k, j);
    }
  }

  lemma GrowFrame(mem: Memory, list: seq<nat>, hp: nat, h: Header, u: nat)
    requires hp !in list
    ensures InFree(mem[hp := h], list, u) <==> InFree(mem, list, u)
  {
  }
}
