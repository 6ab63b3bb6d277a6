/** Path lookup (fs.c): splitting paths into names, the in-memory inode cache with its reference
    counts, and namex. */
module Paths {
  import opened Wrappers
  import opened Blocks
  import opened Directories

  const SLASH: Byte := 47

  // ----- the names in a path -----

  /** Length of the first name of a path that does not start with a slash. */
  function ElemLen(path: seq<Byte>): (n: nat)
    ensures n <= |path| && (n < |path| ==> path[n] == SLASH)
    ensures forall i :: 0 <= i < n ==> path[i] != SLASH
  {
    if path == [] || path[0] == SLASH then 0 else 1 + ElemLen(path[1..])
  }

  /** The names between the slashes, each cut to DIRSIZ characters. */
  function Names(path: seq<Byte>): (names: seq<seq<Byte>>)
    decreases |path|
  {
    if path == [] then []
    else if path[0] == SLASH then Names(path[1..])
    else [Trunc(path[..ElemLen(path)])] + Names(path[ElemLen(path)..])
  }

  lemma ElemLenIs(path: seq<Byte>, n: nat)
    requires n <= |path| && (n < |path| ==> path[n] == SLASH) && forall i :: 0 <= i < n ==> path[i] != SLASH
    ensures ElemLen(path) == n
  {
    var m := ElemLen(path);
    assert !(m < n) && !(n < m);
  }

  /** Leading slashes do not matter. */
  lemma {:induction false} SlashesSkip(path: seq<Byte>, i: nat, j: nat)
    requires i <= j <= |path| && forall k :: i <= k < j ==> path[k] == SLASH
    ensures Names(path[i..]) == Names(path[j..])
    decreases j - i
  {
    if i < j {
      assert path[i..][1..] == path[i + 1..];
      SlashesSkip(path, i + 1, j);
    }
  }

  /** A name, its slashes, and the rest. */
  lemma FirstName(path: seq<Byte>, s: nat, e: nat, j: nat)
    requires s < e <= j <= |path| && (e < |path| ==> path[e] == SLASH)
    requires forall k :: s <= k < e ==> path[k] != SLASH
    requires forall k :: e <= k < j ==> path[k] == SLASH
    ensures Names(path[s..]) == [Trunc(path[s..e])] + Names(path[j..])
  {
    hide Trunc;
    ElemLenIs(path[s..], e - s);
    assert path[s..][..e - s] == path[s..e] && path[s..][e - s..] == path[e..];
    SlashesSkip(path, e, j);
  }

  /** Nothing but slashes from i up to j. */
  ghost predicate OnlySlashes(path: seq<Byte>, i: nat, j: nat) {
    i <= j <= |path| && forall k :: i <= k < j ==> path[k] == SLASH
  }

  /** A whole name stands from s up to e, of which the first 14 characters count. */
  ghost predicate NameAt(path: seq<Byte>, s: nat, e: nat, name: seq<Byte>) {
    && s < e <= |path| && (forall k :: s <= k < e ==> path[k] != SLASH)
    && (e < |path| ==> path[e] == SLASH)
    && name == path[s..if e - s >= 14 then s + 14 else e]
  }

  /** The path spells these names: any number of slashes before each, and any number at the end. */
  ghost predicate Spelled(path: seq<Byte>, names: seq<seq<Byte>>)
    decreases |names|
  {
    if names == [] then OnlySlashes(path, 0, |path|)
    else exists s: nat, e: nat :: OnlySlashes(path, 0, s) && NameAt(path, s, e, names[0]) && Spelled(path[e..], names[1..])
  }

  /** Names splits every path into the names it spells, and into nothing else. */
  lemma NamesSpelled(path: seq<Byte>, names: seq<seq<Byte>>)
    ensures Spelled(path, names) <==> names == Names(path)
  {
    hide Names, Spelled;
    SpelledNames(path);
    if Spelled(path, names) { NamesOfSpelled(path, names); }
  }

  lemma {:induction false} NamesOfSpelled(path: seq<Byte>, names: seq<seq<Byte>>)
    requires Spelled(path, names)
    ensures Names(path) == names
    decreases |names|
  {
    hide Names, ElemLen;
    assert path[0..] == path;
    if names == [] {
      SlashesSkip(path, 0, |path|);
      NamesEnd(path, |path|);
    } else {
      var s: nat, e: nat :| OnlySlashes(path, 0, s) && NameAt(path, s, e, names[0]) && Spelled(path[e..], names[1..]);
      SlashesSkip(path, 0, s);
      FirstName(path, s, e, e);
      NamesOfSpelled(path[e..], names[1..]);
      assert Trunc(path[s..e]) == names[0];
      assert names == [names[0]] + names[1..];
    }
  }

  lemma {:induction false} SpelledNames(path: seq<Byte>)
    ensures Spelled(path, Names(path))
    decreases |path|
  {
    hide Names;
    var s := LeadingSlashes(path);
    SlashesSkip(path, 0, s);
    assert path[0..] == path;
    NamesEnd(path, s);
    if s < |path| {
      var e := s + ElemLen(path[s..]);
      assert forall k :: s <= k < e ==> path[k] == path[s..][k - s];
      FirstName(path, s, e, e);
      SpelledNames(path[e..]);
      var names := Names(path);
      assert names[1..] == Names(path[e..]);
      assert OnlySlashes(path, 0, s) && NameAt(path, s, e, names[0]) && Spelled(path[e..], names[1..]);
    }
  }

  ghost function LeadingSlashes(path: seq<Byte>): (n: nat)
    ensures OnlySlashes(path, 0, n) && (n < |path| ==> path[n] != SLASH)
  {
    if path == [] || path[0] != SLASH then 0 else 1 + LeadingSlashes(path[1..])
  }

  /** skipelem: the next name from position i on, and where the one after it starts. */
  method Skipelem(path: seq<Byte>, i: nat) returns (more: bool, name: seq<Byte>, j: nat)
    requires i <= |path|
    ensures more <==> Names(path[i..]) != []
    ensures more ==> i < j <= |path| && Names(path[i..]) == [name] + Names(path[j..])
    ensures more ==> (j == |path| <==> Names(path[j..]) == [])
    ensures !more <==> OnlySlashes(path, i, |path|)
    ensures more ==> exists s: nat, e: nat :: OnlySlashes(path, i, s) && NameAt(path, s, e, name) && OnlySlashes(path, e, j)
    ensures more && j < |path| ==> path[j] != SLASH
  {
    hide ElemLen, Names;
    var s := i;
    while s < |path| && path[s] == SLASH
      invariant i <= s <= |path| && forall k :: i <= k < s ==> path[k] == SLASH
    {
      s := s + 1;
    }
    SlashesSkip(path, i, s);
    NamesEnd(path, s);
    if s == |path| { return false, [], i; }
    var e := s;
    while e < |path| && path[e] != SLASH
      invariant s <= e <= |path| && forall k :: s <= k < e ==> path[k] != SLASH
    {
      e := e + 1;
    }
    name := Trunc(path[s..e]);
    j := e;
    while j < |path| && path[j] == SLASH
      invariant e <= j <= |path| && forall k :: e <= k < j ==> path[k] == SLASH
    {
      j := j + 1;
    }
    FirstName(path, s, e, j);
    NamesEnd(path, j);
    assert NameAt(path, s, e, name);
    more := true;
  }

  /** No names are left exactly at the end, once slashes are skipped. */
  lemma NamesEnd(path: seq<Byte>, j: nat)
    requires j <= |path| && (j < |path| ==> path[j] != SLASH)
    ensures j == |path| <==> Names(path[j..]) == []
  {
  }

  /** Writing names with a slash before each, which Names undoes. */
  function Joined(names: seq<seq<Byte>>): seq<Byte> {
    if names == [] then [] else [SLASH] + names[0] + Joined(names[1..])
  }

  ghost predicate GoodName(name: seq<Byte>) {
    0 < |name| <= DIRSIZ && forall i :: 0 <= i < |name| ==> name[i] != SLASH
  }

  lemma {:induction false} NamesJoined(names: seq<seq<Byte>>)
    requires forall i :: 0 <= i < |names| ==> GoodName(names[i])
    ensures Names(Joined(names)) == names
  {
    if names == [] {
    } else {
      var path := Joined(names);
      var rest := Joined(names[1..]);
      assert GoodName(names[0]);
      assert path == [SLASH] + names[0] + rest;
      var e := 1 + |names[0]|;
      assert path[1..e] == names[0] && path[e..] == rest;
      assert rest != [] ==> rest[0] == SLASH;
      SlashesSkip(path, 0, 1);
      assert path[0..] == path;
      FirstName(path, 1, e, e);
      NamesJoined(names[1..]);
    }
  }

  // ----- the inode cache -----

  datatype Slot = Slot(ref: nat, inum: nat)

  /** References to an inode, over all cache slots. */
  ghost function Total(slots: seq<Slot>, inum: nat): nat {
    if slots == [] then 0
    else Total(slots[..|slots| - 1], inum) + Weight(slots[|slots| - 1], inum)
  }

  ghost function Weight(s: Slot, inum: nat): nat {
    if s.inum == inum then s.ref else 0
  }

  lemma {:induction false} TotalUpdate(slots: seq<Slot>, k: nat, s: Slot, inum: nat)
    requires k < |slots|
    ensures Total(slots[k := s], inum) == Total(slots, inum) - Weight(slots[k], inum) + Weight(s, inum)
  {
    hide Weight;
    var n := |slots| - 1;
    if k == n {
      assert slots[k := s][..n] == slots[..n];
    } else {
      TotalUpdate(slots[..n], k, s, inum);
      assert slots[k := s][..n] == slots[..n][k := s];
    }
  }

  /** An inode in use is cached once. */
  ghost predicate CachedOnce(slots: seq<Slot>) {
    forall a, b :: 0 <= a < b < |slots| && slots[a].ref > 0 && slots[b].ref > 0 ==> slots[a].inum != slots[b].inum
  }

  /** References changed by delta for one inode and for no other. */
  ghost predicate Shifted(slots: seq<Slot>, slots': seq<Slot>, inum: nat, delta: int) {
    forall i: nat :: Total(slots', i) == Total(slots, i) + if i == inum then delta else 0
  }

  /** Handles that were in use still name the same inode. */
  ghost predicate HandlesKept(slots: seq<Slot>, slots': seq<Slot>) {
    |slots'| == |slots| && forall k :: 0 <= k < |slots| && slots[k].ref > 0 ==> slots'[k].inum == slots[k].inum && slots'[k].ref >= slots[k].ref
  }

  lemma RefAdded(slots: seq<Slot>, k: nat, inum: nat)
    requires k < |slots| && (slots[k].ref == 0 || slots[k].inum == inum)
    ensures Shifted(slots, slots[k := Slot(slots[k].ref + 1, inum)], inum, 1)
  {
    forall i: nat ensures Total(slots[k := Slot(slots[k].ref + 1, inum)], i) == Total(slots, i) + if i == inum then 1 else 0 {
      TotalUpdate(slots, k, Slot(slots[k].ref + 1, inum), i);
    }
  }

  lemma RefDropped(slots: seq<Slot>, k: nat)
    requires k < |slots| && slots[k].ref > 0
    ensures Shifted(slots, slots[k := slots[k].(ref := slots[k].ref - 1)], slots[k].inum, -1)
  {
    var s := slots[k].(ref := slots[k].ref - 1);
    forall i: nat ensures Total(slots[k := s], i) == Total(slots, i) + if i == slots[k].inum then -1 else 0 {
      TotalUpdate(slots, k, s, i);
    }
  }

  // ----- what a path means in a tree of directories -----

  datatype Node = DirNode(entries: map<seq<Byte>, nat>) | FileNode

  /** Every inode that a directory names exists. */
  ghost predicate Closed(tree: map<nat, Node>) {
    forall d, n :: d in tree && tree[d].DirNode? && n in tree[d].entries ==> tree[d].entries[n] in tree
  }

  /** Following names one after another. */
  ghost function Follow(tree: map<nat, Node>, i: nat, names: seq<seq<Byte>>): (r: Option<nat>)
    requires Closed(tree) && i in tree
    ensures r.Some? ==> r.value in tree
    decreases |names|
  {
    if names == [] then Some(i)
    else if tree[i].DirNode? && names[0] in tree[i].entries then Follow(tree, tree[i].entries[names[0]], names[1..])
    else None
  }

  /** The directory that would hold the last name. */
  ghost function Holder(tree: map<nat, Node>, i: nat, names: seq<seq<Byte>>): Option<nat>
    requires Closed(tree) && i in tree
  {
    if names == [] then None
    else
      var r := Follow(tree, i, names[..|names| - 1]);
      if r.Some? && tree[r.value].DirNode? then r else None
  }

  ghost function Target(tree: map<nat, Node>, i: nat, names: seq<seq<Byte>>, parent: bool): Option<nat>
    requires Closed(tree) && i in tree
  {
    if parent then Holder(tree, i, names) else Follow(tree, i, names)
  }

  lemma TargetStep(tree: map<nat, Node>, i: nat, names: seq<seq<Byte>>, parent: bool)
    requires Closed(tree) && i in tree && names != []
    ensures !tree[i].DirNode? ==> Target(tree, i, names, parent) == None
    ensures parent && |names| == 1 && tree[i].DirNode? ==> Target(tree, i, names, parent) == Some(i)
    ensures tree[i].DirNode? && !(parent && |names| == 1) ==>
              Target(tree, i, names, parent) ==
              if names[0] in tree[i].entries then Target(tree, tree[i].entries[names[0]], names[1..], parent) else None
  {
    if |names| == 1 {
      assert names[..0] == [] && names[1..] == [];
    } else {
      assert names[..|names| - 1][0] == names[0];
      assert names[..|names| - 1][1..] == names[1..][..|names[1..]| - 1];
    }
  }

  datatype Lookup = Found(slot: nat) | Missing | Panic

  class Icache {
    const slots: array<Slot>

    ghost predicate Valid()
      reads this, slots
    {
      CachedOnce(slots[..])
    }

    ghost predicate Held(k: nat)
      reads this, slots
    {
      k < slots.Length && slots[k].ref > 0
    }

    /** iget: a reference to the inode, in the slot that caches it or in an empty one.  It panics
        exactly when it is not cached and no slot is empty. */
    method Iget(inum: nat) returns (ok: bool, k: nat)
      requires Valid()
      modifies slots
      ensures Valid() && HandlesKept(old(slots[..]), slots[..])
      ensures !ok ==> slots[..] == old(slots[..]) && forall j :: 0 <= j < slots.Length ==> slots[j].ref > 0 && slots[j].inum != inum
      ensures ok ==> Held(k) && slots[k].inum == inum && Shifted(old(slots[..]), slots[..], inum, 1)
      ensures ok ==> slots[k].ref == old(slots[..])[k].ref + 1
    {
      var empty := -1;
      for i := 0 to slots.Length
        invariant slots[..] == old(slots[..])
        invariant -1 <= empty < i && (empty >= 0 ==> slots[empty].ref == 0)
        invariant forall j :: 0 <= j < i ==> !(slots[j].ref > 0 && slots[j].inum == inum)
        invariant empty == -1 ==> forall j :: 0 <= j < i ==> slots[j].ref > 0
      {
        if slots[i].ref > 0 && slots[i].inum == inum {
          RefAdded(slots[..], i, inum);
          slots[i] := slots[i].(ref := slots[i].ref + 1);
          assert slots[..] == old(slots[..])[i := Slot(old(slots[i]).ref + 1, inum)];
          return true, i;
        }
        if empty == -1 && slots[i].ref == 0 { empty := i; }
      }
      if empty == -1 { return false, 0; }
      RefAdded(slots[..], empty, inum);
      slots[empty] := Slot(1, inum);
      assert slots[..] == old(slots[..])[empty := Slot(old(slots[empty]).ref + 1, inum)];
      return true, empty;
    }

    /** idup. */
    method Idup(k: nat)
      requires Valid() && Held(k)
      modifies slots
      ensures Valid() && Held(k) && HandlesKept(old(slots[..]), slots[..])
      ensures slots[k].inum == old(slots[k].inum) && Shifted(old(slots[..]), slots[..], slots[k].inum, 1)
    {
      RefAdded(slots[..], k, slots[k].inum);
      slots[k] := slots[k].(ref := slots[k].ref + 1);
      assert slots[..] == old(slots[..])[k := Slot(old(slots[k]).ref + 1, slots[k].inum)];
    }

    /** iput, as far as the cache is concerned. */
    method Iput(k: nat)
      requires Valid() && Held(k)
      modifies slots
      ensures Valid() && Shifted(old(slots[..]), slots[..], old(slots[k].inum), -1)
      ensures slots[..] == old(slots[..])[k := slots[k]] && slots[k] == old(slots[k]).(ref := old(slots[k]).ref - 1)
    {
      RefDropped(slots[..], k);
      slots[k] := slots[k].(ref := slots[k].ref - 1);
      assert slots[..] == old(slots[..])[k := slots[k]];
    }

    /** namex: the inode a path names, or the directory that holds its last name.  One reference
        more on a found inode, and no reference changed when nothing is found. */
    method Namex(tree: map<nat, Node>, path: seq<Byte>, parent: bool, root: nat, cwd: nat) returns (r: Lookup, name: seq<Byte>)
      requires Valid() && Held(cwd) && Closed(tree) && root in tree && slots[cwd].inum in tree
      modifies slots
      ensures Valid()
      ensures r.Panic? ==> forall k :: 0 <= k < slots.Length ==> slots[k].ref > 0
      ensures var start := if path != [] && path[0] == SLASH then root else old(slots[cwd].inum);
              var want := Target(tree, start, Names(path), parent);
              && (r.Missing? ==> want == None && Shifted(old(slots[..]), slots[..], 0, 0))
              && (r.Found? ==> want.Some? && Held(r.slot) && slots[r.slot].inum == want.value
                               && Shifted(old(slots[..]), slots[..], want.value, 1)
                               && (parent ==> Names(path) != [] && name == Names(path)[|Names(path)| - 1]))
    {
      hide CachedOnce, Names, Follow, Holder, Target, Closed, Shifted, HandlesKept;
      name := [];
      ghost var start := if path != [] && path[0] == SLASH then root else slots[cwd].inum;
      var ip: nat := cwd;
      if path != [] && path[0] == SLASH {
        var ok, k := Iget(root);
        if !ok { return Panic, name; }
        ip := k;
      } else {
        Idup(cwd);
      }
      var pos := 0;
      assert path[0..] == path;
      ghost var before: seq<seq<Byte>> := [];
      assert Names(path) == before + Names(path[0..]);
      while true
        invariant Valid() && 0 <= pos <= |path| && Held(ip) && slots[ip].inum in tree
        invariant Target(tree, start, Names(path), parent) == Target(tree, slots[ip].inum, Names(path[pos..]), parent)
        invariant Shifted(old(slots[..]), slots[..], slots[ip].inum, 1)
        invariant Names(path) == before + Names(path[pos..])
        decreases |path| - pos
      {
        var more, elem, next := Skipelem(path, pos);
        if !more { break; }
        name := elem;
        ghost var names := Names(path[pos..]);
        ghost var here := slots[ip].inum;
        ghost var was := slots[..];
        TargetStep(tree, here, names, parent);
        if !tree[slots[ip].inum].DirNode? {
          Iput(ip);
          ShiftedBack(old(slots[..]), was, slots[..], here);
          return Missing, name;
        }
        if parent && next == |path| {
          assert names == [name];
          return Found(ip), name;
        }
        var entries := tree[slots[ip].inum].entries;
        if name !in entries {
          Iput(ip);
          ShiftedBack(old(slots[..]), was, slots[..], here);
          return Missing, name;
        }
        ClosedAt(tree, here, name);
        var ok, k := Iget(entries[name]);
        if !ok { return Panic, name; }
        ghost var held := slots[..];
        HandleKept(was, held, ip);
        Iput(ip);
        ShiftedOn(old(slots[..]), was, held, slots[..], here, entries[name]);
        ip := k;
        pos := next;
        before := before + [name];
      }
      TargetEnd(tree, slots[ip].inum, parent);
      if parent {
        ghost var was, here := slots[..], slots[ip].inum;
        Iput(ip);
        ShiftedBack(old(slots[..]), was, slots[..], here);
        return Missing, name;
      }
      return Found(ip), name;
    }
  }

  lemma HandleKept(a: seq<Slot>, b: seq<Slot>, k: nat)
    requires HandlesKept(a, b) && k < |a| && a[k].ref > 0
    ensures k < |b| && b[k].inum == a[k].inum && b[k].ref >= a[k].ref
  {
  }

  lemma ShiftedBack(a: seq<Slot>, b: seq<Slot>, c: seq<Slot>, i: nat)
    requires Shifted(a, b, i, 1) && Shifted(b, c, i, -1)
    ensures Shifted(a, c, 0, 0)
  {
  }

  lemma ShiftedOn(a: seq<Slot>, b: seq<Slot>, c: seq<Slot>, d: seq<Slot>, i: nat, n: nat)
    requires Shifted(a, b, i, 1) && Shifted(b, c, n, 1) && Shifted(c, d, i, -1)
    ensures Shifted(a, d, n, 1)
  {
  }

  lemma ClosedAt(tree: map<nat, Node>, d: nat, n: seq<Byte>)
    requires Closed(tree) && d in tree && tree[d].DirNode? && n in tree[d].entries
    ensures tree[d].entries[n] in tree
  {
  }

  lemma TargetEnd(tree: map<nat, Node>, i: nat, parent: bool)
    requires Closed(tree) && i in tree
    ensures Target(tree, i, [], parent) == if parent then None else Some(i)
  {
  }
}
