/** Link counts (sysfile.c): create, link and unlink keep the count of every inode equal to the
    number of directory entries that name it. */
module Links {
  import opened Basics

  type Name = string
  const DOT: Name := "."
  const DOTS: Name := ".."

  datatype Inode = Inode(dir: bool, nlink: int, entries: map<Name, nat>)

  /** The inodes in use by number, and for each linked directory the name it has in its parent. */
  datatype Fs = Fs(inodes: map<nat, Inode>, home: map<nat, Name>, root: nat)

  ghost predicate LinkedDir(s: Fs, d: nat) {
    d in s.inodes && s.inodes[d].dir && s.inodes[d].nlink > 0
  }

  /** Directory d, still linked, names i by an entry other than ".". */
  ghost predicate Names(s: Fs, d: nat, n: Name, i: nat) {
    LinkedDir(s, d) && n in s.inodes[d].entries && n != DOT && s.inodes[d].entries[n] == i
  }

  /** All entries that count as links to i. */
  ghost function LinksTo(s: Fs, i: nat): (r: set<(nat, Name)>)
    ensures forall d: nat, n: Name :: (d, n) in r <==> Names(s, d, n, i)
  {
    set d, n | d in s.inodes && n in s.inodes[d].entries && Names(s, d, n, i) :: (d, n)
  }

  function Nlink(s: Fs, i: nat): int {
    if i in s.inodes then s.inodes[i].nlink else 0
  }

  ghost predicate CountOk(s: Fs, i: nat) {
    Nlink(s, i) == |LinksTo(s, i)|
  }

  ghost predicate Parented(s: Fs, c: nat)
    requires LinkedDir(s, c)
  {
    && DOT in s.inodes[c].entries && s.inodes[c].entries[DOT] == c
    && DOTS in s.inodes[c].entries
    && (c == s.root ==> s.inodes[c].entries[DOTS] == c)
    && (c != s.root ==> c in s.home && s.home[c] != DOT && s.home[c] != DOTS
                        && Names(s, s.inodes[c].entries[DOTS], s.home[c], c))
  }

  /** An entry other than the dots that names a directory is that directory's home. */
  ghost predicate OneHome(s: Fs, d: nat, n: Name, c: nat) {
    Names(s, d, n, c) && n != DOTS && LinkedDir(s, c) && DOTS in s.inodes[c].entries && c in s.home ==>
      c != s.root && s.inodes[c].entries[DOTS] == d && s.home[c] == n
  }

  ghost predicate OnlyDots(node: Inode) {
    forall n :: n in node.entries ==> n == DOT || n == DOTS
  }

  /** Every directory has its two dots, and one without links has nothing else. */
  ghost predicate Dotted(s: Fs) {
    forall d :: d in s.inodes && s.inodes[d].dir ==>
      && DOT in s.inodes[d].entries && DOTS in s.inodes[d].entries
      && (s.inodes[d].nlink > 0 || OnlyDots(s.inodes[d]))
  }

  ghost predicate Inv(s: Fs) {
    && LinkedDir(s, s.root) && s.root in s.home && Dotted(s)
    && (forall i: nat :: CountOk(s, i))
    && (forall c: nat :: LinkedDir(s, c) ==> Parented(s, c))
    && (forall d: nat, n: Name, c: nat :: OneHome(s, d, n, c))
  }

  // ----- what the operations do -----

  /** create: a new inode with one link under a new name; a directory also links its parent. */
  ghost function Created(s: Fs, dp: nat, name: Name, i: nat, dir: bool): Fs
    requires dp in s.inodes
  {
    var node := Inode(dir, 1, if dir then map[DOT := i, DOTS := dp] else map[]);
    var p := s.inodes[dp];
    var parent := p.(entries := p.entries[name := i], nlink := p.nlink + if dir then 1 else 0);
    s.(inodes := s.inodes[i := node][dp := parent], home := if dir then s.home[i := name] else s.home)
  }

  /** link: one more name for a file. */
  ghost function Linked(s: Fs, ip: nat, dp: nat, name: Name): Fs
    requires ip in s.inodes && dp in s.inodes && ip != dp
  {
    var p := s.inodes[dp];
    s.(inodes := s.inodes[ip := s.inodes[ip].(nlink := s.inodes[ip].nlink + 1)][dp := p.(entries := p.entries[name := ip])])
  }

  /** unlink: one name less; a directory also lets go of its parent. */
  ghost function Unlinked(s: Fs, dp: nat, name: Name): Fs
    requires dp in s.inodes && name in s.inodes[dp].entries && s.inodes[dp].entries[name] in s.inodes
    requires s.inodes[dp].entries[name] != dp
  {
    var p := s.inodes[dp];
    var ip := p.entries[name];
    var parent := p.(entries := p.entries - {name}, nlink := p.nlink - if s.inodes[ip].dir then 1 else 0);
    s.(inodes := s.inodes[dp := parent][ip := s.inodes[ip].(nlink := s.inodes[ip].nlink - 1)])
  }

  /** iput of the last reference to an inode without links. */
  ghost function Freed(s: Fs, i: nat): Fs {
    s.(inodes := s.inodes - {i})
  }

  // ----- counting -----

  lemma NoLinks(s: Fs, i: nat)
    requires Inv(s) && i !in s.inodes
    ensures forall d: nat, n: Name :: !Names(s, d, n, i)
  {
    assert CountOk(s, i);
    assert LinksTo(s, i) == {};
    forall d: nat, n: Name ensures !Names(s, d, n, i) {
      assert (d, n) !in LinksTo(s, i);
    }
  }

  /** A named inode exists and has a link. */
  lemma NamedExists(s: Fs, d: nat, n: Name, i: nat)
    requires Inv(s) && Names(s, d, n, i)
    ensures i in s.inodes && s.inodes[i].nlink > 0
  {
    assert CountOk(s, i);
    assert (d, n) in LinksTo(s, i);
  }

  /** A name other than the dots is in a linked directory only, so what it names exists. */
  lemma EntryExists(s: Fs, d: nat, n: Name)
    requires Inv(s) && d in s.inodes && s.inodes[d].dir && n in s.inodes[d].entries && n != DOT && n != DOTS
    ensures s.inodes[d].entries[n] in s.inodes && s.inodes[s.inodes[d].entries[n]].nlink > 0
  {
    assert LinkedDir(s, d);
    NamedExists(s, d, n, s.inodes[d].entries[n]);
  }

  lemma CountSame(s: Fs, t: Fs, j: nat)
    requires CountOk(s, j) && Nlink(t, j) == Nlink(s, j)
    requires forall d: nat, n: Name :: Names(t, d, n, j) <==> Names(s, d, n, j)
    ensures CountOk(t, j)
  {
    assert LinksTo(t, j) == LinksTo(s, j);
  }

  lemma CountMore(s: Fs, t: Fs, j: nat, e: nat, m: Name)
    requires CountOk(s, j) && Nlink(t, j) == Nlink(s, j) + 1 && !Names(s, e, m, j)
    requires forall d: nat, n: Name :: Names(t, d, n, j) <==> Names(s, d, n, j) || (d == e && n == m)
    ensures CountOk(t, j)
  {
    assert LinksTo(t, j) == LinksTo(s, j) + {(e, m)};
  }

  lemma CountLess(s: Fs, t: Fs, j: nat, e: nat, m: Name)
    requires CountOk(s, j) && Nlink(t, j) == Nlink(s, j) - 1 && Names(s, e, m, j)
    requires forall d: nat, n: Name :: Names(t, d, n, j) <==> Names(s, d, n, j) && !(d == e && n == m)
    ensures CountOk(t, j)
  {
    assert LinksTo(t, j) == LinksTo(s, j) - {(e, m)};
  }

  // ----- create -----

  ghost predicate CanCreate(s: Fs, dp: nat, name: Name, i: nat) {
    LinkedDir(s, dp) && name !in s.inodes[dp].entries && i !in s.inodes
  }

  lemma CreatedNames(s: Fs, dp: nat, name: Name, i: nat, dir: bool, d: nat, n: Name, j: nat)
    requires Inv(s) && CanCreate(s, dp, name, i)
    ensures name != DOT && name != DOTS
    ensures Names(Created(s, dp, name, i, dir), d, n, j) <==>
            Names(s, d, n, j) || (d == dp && n == name && j == i) || (dir && d == i && n == DOTS && j == dp)
  {
    assert Parented(s, dp);
  }

  lemma CreatedCounts(s: Fs, dp: nat, name: Name, i: nat, dir: bool, j: nat)
    requires Inv(s) && CanCreate(s, dp, name, i)
    ensures CountOk(Created(s, dp, name, i, dir), j)
  {
    var t := Created(s, dp, name, i, dir);
    assert CountOk(s, j);
    NoLinks(s, i);
    hide Names, Inv;
    forall d: nat, n: Name
      ensures Names(t, d, n, j) <==>
              Names(s, d, n, j) || (d == dp && n == name && j == i) || (dir && d == i && n == DOTS && j == dp)
    {
      CreatedNames(s, dp, name, i, dir, d, n, j);
    }
    if j == i {
      CountMore(s, t, j, dp, name);
    } else if j == dp && dir {
      NewDirNames(s, i, DOTS, dp);
      CountMore(s, t, j, i, DOTS);
    } else {
      CountSame(s, t, j);
    }
  }

  /** An inode that does not exist names nothing. */
  lemma NewDirNames(s: Fs, i: nat, n: Name, j: nat)
    requires i !in s.inodes
    ensures !Names(s, i, n, j)
  {
  }

  lemma CreatedShape(s: Fs, dp: nat, name: Name, i: nat, dir: bool)
    requires Inv(s) && CanCreate(s, dp, name, i)
    ensures var t := Created(s, dp, name, i, dir);
            && (forall c: nat :: LinkedDir(t, c) ==> Parented(t, c))
            && (forall d: nat, n: Name, c: nat :: OneHome(t, d, n, c))
  {
    var t := Created(s, dp, name, i, dir);
    assert Parented(s, dp);
    NoLinks(s, i);
    forall c: nat | LinkedDir(t, c) ensures Parented(t, c) {
      if c != i {
        assert Parented(s, c);
        var p := s.inodes[c].entries[DOTS];
        if c != s.root { CreatedNames(s, dp, name, i, dir, p, s.home[c], c); }
      }
    }
    forall d: nat, n: Name, c: nat ensures OneHome(t, d, n, c) {
      CreatedNames(s, dp, name, i, dir, d, n, c);
      assert OneHome(s, d, n, c);
      if LinkedDir(s, c) { assert Parented(s, c); }
    }
  }

  lemma CreatedKeeps(s: Fs, dp: nat, name: Name, i: nat, dir: bool)
    requires Inv(s) && CanCreate(s, dp, name, i)
    ensures Inv(Created(s, dp, name, i, dir))
  {
    CreatedShape(s, dp, name, i, dir);
    var t := Created(s, dp, name, i, dir);
    hide CountOk, Parented, OneHome;
    forall j: nat ensures CountOk(t, j) { CreatedCounts(s, dp, name, i, dir, j); }
  }

  /** In a directory that is no longer linked, a created file has a link that no entry backs, and
      a created directory makes the parent's ".." count again: creating keeps all counts exactly
      when the parent is still linked. */
  lemma CreateIff(s: Fs, dp: nat, name: Name, i: nat, dir: bool)
    requires Inv(s) && dp in s.inodes && s.inodes[dp].dir && name !in s.inodes[dp].entries && i !in s.inodes
    ensures (forall j: nat :: CountOk(Created(s, dp, name, i, dir), j)) <==> LinkedDir(s, dp)
  {
    var t := Created(s, dp, name, i, dir);
    if LinkedDir(s, dp) {
      forall j: nat ensures CountOk(t, j) { CreatedCounts(s, dp, name, i, dir, j); }
    } else if dir {
      MkdirBreaks(s, dp, name, i);
    } else {
      FileBreaks(s, dp, name, i);
    }
  }

  lemma FileBreaks(s: Fs, dp: nat, name: Name, i: nat)
    requires Inv(s) && dp in s.inodes && s.inodes[dp].dir && !LinkedDir(s, dp)
    requires name !in s.inodes[dp].entries && i !in s.inodes
    ensures !CountOk(Created(s, dp, name, i, false), i)
  {
    var t := Created(s, dp, name, i, false);
    NoLinks(s, i);
    forall d: nat, n: Name ensures !Names(t, d, n, i) { assert !Names(s, d, n, i); }
    assert LinksTo(t, i) == {};
  }

  /** Links that were there stay, and new ones come on top. */
  lemma ManyMore(s: Fs, t: Fs, j: nat, more: set<(nat, Name)>)
    requires forall d: nat, n: Name :: Names(s, d, n, j) ==> Names(t, d, n, j)
    requires forall e :: e in more ==> Names(t, e.0, e.1, j) && !Names(s, e.0, e.1, j)
    ensures |LinksTo(t, j)| >= |LinksTo(s, j)| + |more|
  {
    hide Names;
    forall e | e in more ensures e in LinksTo(t, j) && e !in LinksTo(s, j) { assert e == (e.0, e.1); }
    assert LinksTo(s, j) !! more;
    SubsetCount(LinksTo(s, j) + more, LinksTo(t, j));
  }

  lemma MkdirNames(s: Fs, dp: nat, name: Name, i: nat)
    requires dp in s.inodes && s.inodes[dp].dir && s.inodes[dp].nlink == 0 && i !in s.inodes
    requires name !in s.inodes[dp].entries && DOT in s.inodes[dp].entries && DOTS in s.inodes[dp].entries
    ensures var t, j := Created(s, dp, name, i, true), s.inodes[dp].entries[DOTS];
            && (forall d: nat, n: Name :: Names(s, d, n, j) ==> Names(t, d, n, j))
            && Names(t, dp, DOTS, j) && Names(t, i, DOTS, dp) && Names(t, dp, name, i)
            && (forall n: Name :: !Names(s, dp, n, j) && !Names(s, i, n, j))
            && Nlink(t, j) == if j == dp || j == i then 1 else Nlink(s, j)
  {
  }

  /** The parent counts as linked again, so the directory its ".." names has one link too many. */
  lemma MkdirBreaks(s: Fs, dp: nat, name: Name, i: nat)
    requires Inv(s) && dp in s.inodes && s.inodes[dp].dir && !LinkedDir(s, dp)
    requires name !in s.inodes[dp].entries && i !in s.inodes
    ensures DOTS in s.inodes[dp].entries && !CountOk(Created(s, dp, name, i, true), s.inodes[dp].entries[DOTS])
  {
    assert DOTS in s.inodes[dp].entries && DOT in s.inodes[dp].entries;
    var t, j := Created(s, dp, name, i, true), s.inodes[dp].entries[DOTS];
    assert CountOk(s, j) && CountOk(s, dp) && s.inodes[dp].nlink == 0;
    hide Inv;
    MkdirNames(s, dp, name, i);
    var more := if j == dp then {(dp, DOTS), (i, DOTS)} else if j == i then {(dp, DOTS), (dp, name)} else {(dp, DOTS)};
    hide Names, Created, LinksTo;
    ManyMore(s, t, j, more);
  }

  // ----- link -----

  ghost predicate CanLink(s: Fs, ip: nat, dp: nat, name: Name) {
    ip in s.inodes && !s.inodes[ip].dir && LinkedDir(s, dp) && name !in s.inodes[dp].entries
  }

  lemma LinkedNames(s: Fs, ip: nat, dp: nat, name: Name, d: nat, n: Name, j: nat)
    requires Inv(s) && CanLink(s, ip, dp, name)
    ensures name != DOT && name != DOTS
    ensures Names(Linked(s, ip, dp, name), d, n, j) <==> Names(s, d, n, j) || (d == dp && n == name && j == ip)
  {
    assert Parented(s, dp);
  }

  lemma LinkedCounts(s: Fs, ip: nat, dp: nat, name: Name, j: nat)
    requires Inv(s) && CanLink(s, ip, dp, name)
    ensures CountOk(Linked(s, ip, dp, name), j)
  {
    var t := Linked(s, ip, dp, name);
    assert CountOk(s, j);
    forall d: nat, n: Name ensures Names(t, d, n, j) <==> Names(s, d, n, j) || (d == dp && n == name && j == ip) {
      LinkedNames(s, ip, dp, name, d, n, j);
    }
    assert !Names(s, dp, name, j);
    hide Names, Inv;
    if j == ip { CountMore(s, t, j, dp, name); } else { CountSame(s, t, j); }
  }

  lemma LinkedKeeps(s: Fs, ip: nat, dp: nat, name: Name)
    requires Inv(s) && CanLink(s, ip, dp, name)
    ensures Inv(Linked(s, ip, dp, name))
  {
    hide CountOk, Parented, OneHome;
    LinkedShape(s, ip, dp, name);
    var t := Linked(s, ip, dp, name);
    forall j: nat ensures CountOk(t, j) { LinkedCounts(s, ip, dp, name, j); }
  }

  lemma LinkedShape(s: Fs, ip: nat, dp: nat, name: Name)
    requires Inv(s) && CanLink(s, ip, dp, name)
    ensures var t := Linked(s, ip, dp, name);
            && (forall c: nat :: LinkedDir(t, c) ==> Parented(t, c))
            && (forall d: nat, n: Name, c: nat :: OneHome(t, d, n, c))
  {
    hide CountOk;
    var t := Linked(s, ip, dp, name);
    forall c: nat | LinkedDir(t, c) ensures Parented(t, c) {
      assert Parented(s, c);
      if c != s.root { LinkedNames(s, ip, dp, name, s.inodes[c].entries[DOTS], s.home[c], c); }
    }
    forall d: nat, n: Name, c: nat ensures OneHome(t, d, n, c) {
      LinkedNames(s, ip, dp, name, d, n, c);
      assert OneHome(s, d, n, c);
    }
  }

  /** The same for link: in a directory that is no longer linked the new name does not count. */
  lemma LinkIff(s: Fs, ip: nat, dp: nat, name: Name)
    requires Inv(s) && ip in s.inodes && !s.inodes[ip].dir && dp in s.inodes && s.inodes[dp].dir
    requires name !in s.inodes[dp].entries
    ensures (forall j: nat :: CountOk(Linked(s, ip, dp, name), j)) <==> LinkedDir(s, dp)
  {
    var t := Linked(s, ip, dp, name);
    if LinkedDir(s, dp) {
      forall j: nat ensures CountOk(t, j) { LinkedCounts(s, ip, dp, name, j); }
    } else {
      assert CountOk(s, ip);
      assert forall d: nat, n: Name :: Names(t, d, n, ip) <==> Names(s, d, n, ip);
      assert LinksTo(t, ip) == LinksTo(s, ip);
      assert !CountOk(t, ip);
    }
  }

  // ----- unlink -----

  /** unlink goes ahead: a name other than the dots whose inode is a file or an empty directory. */
  ghost predicate CanUnlink(s: Fs, dp: nat, name: Name) {
    && dp in s.inodes && s.inodes[dp].dir && name != DOT && name != DOTS && name in s.inodes[dp].entries
    && var ip := s.inodes[dp].entries[name];
       ip in s.inodes ==> !s.inodes[ip].dir || OnlyDots(s.inodes[ip])
  }

  /** The unlinked inode exists and has a link left, so the kernel does not panic; it is not the
      directory it is removed from. */
  lemma UnlinkTarget(s: Fs, dp: nat, name: Name)
    requires Inv(s) && CanUnlink(s, dp, name)
    ensures var ip := s.inodes[dp].entries[name];
            && LinkedDir(s, dp)
            && ip in s.inodes && s.inodes[ip].nlink >= 1 && ip != dp && ip != s.root
            && (s.inodes[ip].dir ==> LinkedDir(s, ip) && s.inodes[ip].entries[DOTS] == dp && s.home[ip] == name)
  {
    var ip := s.inodes[dp].entries[name];
    NamedExists(s, dp, name, ip);
    if s.inodes[ip].dir {
      assert Parented(s, ip);
      assert OneHome(s, dp, name, ip);
    }
  }

  /** Nothing but its home names an empty directory. */
  lemma EmptyDirLinks(s: Fs, dp: nat, name: Name, d: nat, n: Name)
    requires Inv(s) && CanUnlink(s, dp, name)
    requires var ip := s.inodes[dp].entries[name]; ip in s.inodes && s.inodes[ip].dir && Names(s, d, n, ip)
    ensures d == dp && n == name
  {
    var ip := s.inodes[dp].entries[name];
    UnlinkTarget(s, dp, name);
    assert Parented(s, d) && Parented(s, ip);
    assert OneHome(s, d, n, ip);
  }

  lemma EmptyDirCount(s: Fs, dp: nat, name: Name)
    requires Inv(s) && CanUnlink(s, dp, name)
    requires var ip := s.inodes[dp].entries[name]; ip in s.inodes && s.inodes[ip].dir
    ensures s.inodes[s.inodes[dp].entries[name]].nlink == 1
  {
    var ip := s.inodes[dp].entries[name];
    assert CountOk(s, ip);
    forall d: nat, n: Name ensures Names(s, d, n, ip) <==> d == dp && n == name {
      if Names(s, d, n, ip) { EmptyDirLinks(s, dp, name, d, n); }
    }
    assert LinksTo(s, ip) == {(dp, name)};
  }

  /** A directory with a linked subdirectory has two links or more. */
  lemma ParentCount(s: Fs, dp: nat, c: nat)
    requires Inv(s) && LinkedDir(s, dp) && LinkedDir(s, c) && c != dp && c != s.root && s.inodes[c].entries[DOTS] == dp
    ensures s.inodes[dp].nlink >= 2
  {
    assert Parented(s, dp) && Parented(s, c) && CountOk(s, dp);
    var other := if dp == s.root then (dp, DOTS) else (s.inodes[dp].entries[DOTS], s.home[dp]);
    assert Names(s, other.0, other.1, dp) && Names(s, c, DOTS, dp);
    var two := {other, (c, DOTS)};
    assert two <= LinksTo(s, dp);
    SubsetCount(two, LinksTo(s, dp));
  }

  lemma UnlinkedLinked(s: Fs, dp: nat, name: Name, d: nat)
    requires Inv(s) && CanUnlink(s, dp, name)
    ensures var ip := s.inodes[dp].entries[name];
            && ip in s.inodes && ip != dp
            && (LinkedDir(Unlinked(s, dp, name), d) <==> LinkedDir(s, d) && !(s.inodes[ip].dir && d == ip))
  {
    var ip := s.inodes[dp].entries[name];
    UnlinkTarget(s, dp, name);
    if s.inodes[ip].dir {
      EmptyDirCount(s, dp, name);
      ParentCount(s, dp, ip);
    }
  }

  lemma UnlinkedNames(s: Fs, dp: nat, name: Name, d: nat, n: Name, j: nat)
    requires Inv(s) && CanUnlink(s, dp, name)
    ensures var ip := s.inodes[dp].entries[name];
            && ip in s.inodes && ip != dp
            && (Names(Unlinked(s, dp, name), d, n, j) <==>
                Names(s, d, n, j) && !(d == dp && n == name) && !(s.inodes[ip].dir && d == ip))
  {
    var ip := s.inodes[dp].entries[name];
    UnlinkTarget(s, dp, name);
    UnlinkedLinked(s, dp, name, d);
  }

  lemma UnlinkedCounts(s: Fs, dp: nat, name: Name, j: nat)
    requires Inv(s) && CanUnlink(s, dp, name)
    ensures var ip := s.inodes[dp].entries[name];
            ip in s.inodes && ip != dp && CountOk(Unlinked(s, dp, name), j)
  {
    var ip := s.inodes[dp].entries[name];
    UnlinkTarget(s, dp, name);
    var t := Unlinked(s, dp, name);
    assert CountOk(s, j);
    forall d: nat, n: Name
      ensures Names(t, d, n, j) <==> Names(s, d, n, j) && !(d == dp && n == name) && !(s.inodes[ip].dir && d == ip)
    {
      UnlinkedNames(s, dp, name, d, n, j);
    }
    assert Names(s, dp, name, ip);
    if s.inodes[ip].dir {
      assert forall n: Name :: Names(s, ip, n, j) <==> n == DOTS && j == dp by { assert Parented(s, ip); }
    }
    assert j != ip ==> !Names(s, dp, name, j);
    hide Names, Inv, CanUnlink, LinkedDir;
    if j == ip {
      CountLess(s, t, j, dp, name);
    } else if j == dp && s.inodes[ip].dir {
      CountLess(s, t, j, ip, DOTS);
    } else {
      CountSame(s, t, j);
    }
  }

  lemma UnlinkedKeeps(s: Fs, dp: nat, name: Name)
    requires Inv(s) && CanUnlink(s, dp, name)
    ensures var ip := s.inodes[dp].entries[name];
            ip in s.inodes && ip != dp && Inv(Unlinked(s, dp, name))
  {
    var ip := s.inodes[dp].entries[name];
    UnlinkTarget(s, dp, name);
    var t := Unlinked(s, dp, name);
    forall j: nat ensures CountOk(t, j) { UnlinkedCounts(s, dp, name, j); }
    UnlinkedDotted(s, dp, name);
    UnlinkedLinked(s, dp, name, s.root);
    hide CountOk, Dotted;
    forall c: nat | LinkedDir(t, c) ensures Parented(t, c) {
      UnlinkedParented(s, dp, name, c);
    }
    forall d: nat, n: Name, c: nat ensures OneHome(t, d, n, c) {
      UnlinkedNames(s, dp, name, d, n, c);
      UnlinkedLinked(s, dp, name, c);
      assert OneHome(s, d, n, c);
    }
  }

  lemma UnlinkedDotted(s: Fs, dp: nat, name: Name)
    requires Inv(s) && CanUnlink(s, dp, name)
    ensures var ip := s.inodes[dp].entries[name];
            ip in s.inodes && ip != dp && Dotted(Unlinked(s, dp, name))
  {
    UnlinkTarget(s, dp, name);
    UnlinkedLinked(s, dp, name, dp);
  }

  lemma UnlinkedParented(s: Fs, dp: nat, name: Name, c: nat)
    requires Inv(s) && CanUnlink(s, dp, name)
    requires var ip := s.inodes[dp].entries[name]; ip in s.inodes && ip != dp && LinkedDir(Unlinked(s, dp, name), c)
    ensures Parented(Unlinked(s, dp, name), c)
  {
    var ip := s.inodes[dp].entries[name];
    UnlinkTarget(s, dp, name);
    UnlinkedLinked(s, dp, name, c);
    assert LinkedDir(s, c) && Parented(s, c);
    if c != s.root {
      var p := s.inodes[c].entries[DOTS];
      UnlinkedNames(s, dp, name, p, s.home[c], c);
    }
  }

  // ----- iput of an inode without links -----

  lemma FreedKeeps(s: Fs, i: nat)
    requires Inv(s) && i in s.inodes && s.inodes[i].nlink == 0
    ensures Inv(Freed(s, i))
  {
    var t := Freed(s, i);
    forall d: nat, n: Name, j: nat ensures Names(t, d, n, j) <==> Names(s, d, n, j) {
    }
    forall j: nat ensures CountOk(t, j) {
      assert CountOk(s, j);
      CountSame(s, t, j);
    }
    hide CountOk;
    forall c: nat | LinkedDir(t, c) ensures Parented(t, c) {
      assert Parented(s, c);
    }
    forall d: nat, n: Name, c: nat ensures OneHome(t, d, n, c) {
      assert OneHome(s, d, n, c);
    }
  }

  // ----- every run -----

  /** System calls, with the inodes their paths lead to: -1 where a path leads nowhere. */
  datatype Action =
    | Create(dp: int, name: Name, i: nat, dir: bool)
    | Link(ip: int, dp: int, name: Name)
    | Unlink(dp: int, name: Name)
    | Free(i: nat)

  /** Directories that get a new name are still linked, and new inodes are unused. */
  ghost predicate Allowed(s: Fs, a: Action) {
    match a
    case Create(dp, name, i, dir) => dp >= 0 ==> LinkedDir(s, dp) && i !in s.inodes
    case Link(ip, dp, name) => (ip >= 0 ==> ip in s.inodes) && (dp >= 0 ==> LinkedDir(s, dp))
    case Unlink(dp, name) => dp >= 0 ==> dp in s.inodes && s.inodes[dp].dir
    case Free(i) => i in s.inodes && s.inodes[i].nlink == 0
  }

  /** Whether the call succeeds. */
  ghost predicate Succeeds(s: Fs, a: Action)
    requires Allowed(s, a)
  {
    match a
    case Create(dp, name, i, dir) => dp >= 0 && CanCreate(s, dp, name, i)
    case Link(ip, dp, name) => ip >= 0 && dp >= 0 && CanLink(s, ip, dp, name)
    case Unlink(dp, name) => dp >= 0 && CanUnlink(s, dp, name)
    case Free(i) => true
  }

  /** A call that does not succeed changes nothing. */
  ghost function Next(s: Fs, a: Action): Fs
    requires Inv(s) && Allowed(s, a)
  {
    if !Succeeds(s, a) then s
    else match a
      case Create(dp, name, i, dir) => Created(s, dp, name, i, dir)
      case Link(ip, dp, name) => Linked(s, ip, dp, name)
      case Unlink(dp, name) => UnlinkTarget(s, dp, name); Unlinked(s, dp, name)
      case Free(i) => Freed(s, i)
  }

  lemma StepKeeps(s: Fs, a: Action)
    requires Inv(s) && Allowed(s, a)
    ensures Inv(Next(s, a))
  {
    hide Inv, CanCreate, CanLink, CanUnlink;
    if Succeeds(s, a) {
      match a
      case Create(dp, name, i, dir) => CreatedKeeps(s, dp, name, i, dir);
      case Link(ip, dp, name) => LinkedKeeps(s, ip, dp, name);
      case Unlink(dp, name) => UnlinkedKeeps(s, dp, name);
      case Free(i) => FreedKeeps(s, i);
    }
  }

  /** A fresh file system: the root directory alone, named only by its own "..". */
  ghost function Fresh(root: nat): Fs {
    Fs(map[root := Inode(true, 1, map[DOT := root, DOTS := root])], map[root := DOT], root)
  }

  lemma FreshInv(root: nat)
    ensures Inv(Fresh(root))
  {
    var s := Fresh(root);
    forall i: nat ensures CountOk(s, i) {
      assert forall d: nat, n: Name :: Names(s, d, n, i) <==> i == root && d == root && n == DOTS;
      assert LinksTo(s, i) == if i == root then {(root, DOTS)} else {};
    }
  }

  ghost predicate Run(states: seq<Fs>, actions: seq<Action>, root: nat) {
    && |states| == |actions| + 1
    && states[0] == Fresh(root)
    && forall k :: 0 <= k < |actions| ==>
         Inv(states[k]) && Allowed(states[k], actions[k]) ==> states[k + 1] == Next(states[k], actions[k])
  }

  /** After any run whose parent directories are still linked, the link count of every inode is the
      number of entries other than "." that name it from directories with a link count above 0. */
  lemma {:induction false} CountsHold(states: seq<Fs>, actions: seq<Action>, root: nat, k: nat, i: nat)
    requires Run(states, actions, root) && k < |states|
    requires forall m :: 0 <= m < |actions| ==> Allowed(states[m], actions[m])
    ensures Inv(states[k]) && Nlink(states[k], i) == |LinksTo(states[k], i)|
  {
    if k == 0 {
      FreshInv(root);
    } else {
      CountsHold(states, actions, root, k - 1, i);
      assert Allowed(states[k - 1], actions[k - 1]);
      StepKeeps(states[k - 1], actions[k - 1]);
    }
    assert CountOk(states[k], i);
  }

  /** Calls reach a removed directory that a process still holds: mkdir, then unlink. Creating a
      file or a directory in it breaks a count. */
  lemma CreateInRemoved(root: nat, i: nat, name: Name, f: nat, dir: bool)
    returns (states: seq<Fs>, actions: seq<Action>)
    requires i != root && f != root && f != i && name != DOT && name != DOTS
    ensures Run(states, actions, root) && |actions| == 2
    ensures forall m :: 0 <= m < |actions| ==> Allowed(states[m], actions[m])
    ensures var s := states[2];
            && Inv(s) && i in s.inodes && s.inodes[i].dir && name !in s.inodes[i].entries && f !in s.inodes
            && exists j: nat :: !CountOk(Created(s, i, name, f, dir), j)
  {
    FreshInv(root);
    var s0 := Fresh(root);
    CreatedKeeps(s0, root, "d", i, true);
    var s1 := Created(s0, root, "d", i, true);
    UnlinkedKeeps(s1, root, "d");
    var s2 := Unlinked(s1, root, "d");
    states, actions := [s0, s1, s2], [Create(root, "d", i, true), Unlink(root, "d")];
    hide Inv;
    assert states[1] == Next(states[0], actions[0]) && states[2] == Next(states[1], actions[1]);
    CreateIff(s2, i, name, f, dir);
  }

  // ----- the calls, step by step -----

  /** name is gone from dp, the inode it named has one link less and, if that is a directory, so has
      dp; no other inode changed. */
  ghost predicate GoneFrom(was: map<nat, Inode>, now: map<nat, Inode>, dp: nat, name: Name, ip: nat) {
    && dp in was && ip in was && ip != dp && now.Keys == was.Keys
    && now[dp] == Inode(was[dp].dir, was[dp].nlink - (if was[ip].dir then 1 else 0), was[dp].entries - {name})
    && now[ip] == Inode(was[ip].dir, was[ip].nlink - 1, was[ip].entries)
    && forall j :: j in was && j != dp && j != ip ==> now[j] == was[j]
  }

  /** i is a new inode with one link, named name in dp; a directory has its two dots and adds a link to
      dp; no other inode changed. */
  ghost predicate AddedTo(was: map<nat, Inode>, now: map<nat, Inode>, dp: nat, name: Name, i: nat, dir: bool) {
    && dp in was && i !in was && now.Keys == was.Keys + {i}
    && now[i].dir == dir && now[i].nlink == 1
    && (dir ==> now[i].entries.Keys == {DOT, DOTS} && now[i].entries[DOT] == i && now[i].entries[DOTS] == dp)
    && (!dir ==> now[i].entries == map[])
    && now[dp] == Inode(was[dp].dir, was[dp].nlink + (if dir then 1 else 0), was[dp].entries[name := i])
    && forall j :: j in was && j != dp ==> now[j] == was[j]
  }

  class Tree {
    var inodes: map<nat, Inode>
    ghost var home: map<nat, Name>
    const root: nat

    ghost function Now(): Fs
      reads this
    {
      Fs(inodes, home, root)
    }

    method SetNlink(i: nat, n: int)
      requires i in inodes
      modifies `inodes
      ensures inodes == old(inodes)[i := old(inodes)[i].(nlink := n)]
    {
      inodes := inodes[i := inodes[i].(nlink := n)];
    }

    /** dirlink on a directory whose contents are a map. */
    method Dirlink(dp: nat, name: Name, i: nat) returns (ok: bool)
      requires dp in inodes
      modifies `inodes
      ensures ok <==> name !in old(inodes)[dp].entries
      ensures !ok ==> inodes == old(inodes)
      ensures ok ==> inodes == old(inodes)[dp := old(inodes)[dp].(entries := old(inodes)[dp].entries[name := i])]
    {
      if name in inodes[dp].entries { return false; }
      inodes := inodes[dp := inodes[dp].(entries := inodes[dp].entries[name := i])];
      return true;
    }

    /** sys_link: the count goes up first and comes down again when the new name cannot be made. */
    method SysLink(ip: int, dp: int, name: Name) returns (r: int)
      requires Inv(Now()) && Allowed(Now(), Link(ip, dp, name))
      modifies `inodes
      ensures Inv(Now()) && Now() == Next(old(Now()), Link(ip, dp, name))
      ensures r == 0 <==> old(ip >= 0 && dp >= 0 && !inodes[ip].dir && name !in inodes[dp].entries)
      ensures r == 0 ==> inodes == old(inodes[ip := inodes[ip].(nlink := inodes[ip].nlink + 1)]
                                             [dp := inodes[dp].(entries := inodes[dp].entries[name := ip])])
      ensures r != 0 ==> r == -1 && inodes == old(inodes)
    {
      hide Inv, Names, Parented, LinksTo;
      StepKeeps(Now(), Link(ip, dp, name));
      assert dp >= 0 ==> dp in inodes && inodes[dp].dir;
      if ip < 0 { return -1; }
      if inodes[ip].dir { return -1; }
      SetNlink(ip, inodes[ip].nlink + 1);
      if dp >= 0 {
        var ok := Dirlink(dp, name, ip);
        if ok { return 0; }
      }
      SetNlink(ip, inodes[ip].nlink - 1);
      assert inodes == old(inodes);
      return -1;
    }

    /** isdirempty on a directory whose contents are a map. */
    method Isdirempty(ip: nat) returns (empty: bool)
      requires ip in inodes
      ensures empty <==> OnlyDots(inodes[ip])
    {
      empty := forall n | n in inodes[ip].entries :: n == DOT || n == DOTS;
    }

    /** sys_unlink. */
    method SysUnlink(dp: int, name: Name) returns (r: int)
      requires Inv(Now()) && Allowed(Now(), Unlink(dp, name))
      modifies `inodes
      ensures Inv(Now()) && Now() == Next(old(Now()), Unlink(dp, name))
      ensures r == 0 <==> && dp >= 0 && name != DOT && name != DOTS && name in old(inodes)[dp].entries
                          && var ip := old(inodes)[dp].entries[name];
                             ip in old(inodes) && (!old(inodes)[ip].dir || OnlyDots(old(inodes)[ip]))
      ensures r == 0 ==> && dp in inodes && name !in inodes[dp].entries && inodes.Keys == old(inodes.Keys)
                         && GoneFrom(old(inodes), inodes, dp, name, old(inodes)[dp].entries[name])
      ensures r != 0 ==> r == -1 && inodes == old(inodes)
    {
      hide Inv, OnlyDots;
      StepKeeps(Now(), Unlink(dp, name));
      if dp < 0 || name == DOT || name == DOTS || name !in inodes[dp].entries { return -1; }
      var ip := inodes[dp].entries[name];
      EntryExists(Now(), dp, name);
      var dir := inodes[ip].dir;
      if dir {
        var empty := Isdirempty(ip);
        if !empty { return -1; }
      }
      UnlinkTarget(Now(), dp, name);
      assert Next(Now(), Unlink(dp, name)) == Unlinked(Now(), dp, name);
      hide Next, Succeeds, Names, CanUnlink;
      inodes := inodes[dp := inodes[dp].(entries := inodes[dp].entries - {name})];
      if dir { SetNlink(dp, inodes[dp].nlink - 1); }
      SetNlink(ip, inodes[ip].nlink - 1);
      assert Now() == Unlinked(old(Now()), dp, name);
      return 0;
    }

    /** The half of create that makes a new inode. */
    method Make(dp: nat, name: Name, dir: bool, i: nat)
      requires dp in inodes && name !in inodes[dp].entries && i !in inodes
      modifies this
      ensures Now() == Created(old(Now()), dp, name, i, dir)
    {
      inodes := inodes[i := Inode(dir, 1, map[])];
      if dir {
        SetNlink(dp, inodes[dp].nlink + 1);
        var _ := Dirlink(i, DOT, i);
        var _ := Dirlink(i, DOTS, dp);
        home := home[i := name];
      }
      var _ := Dirlink(dp, name, i);
    }

    /** create, given the free inode number that ialloc finds: the inode now under the name, or -1. */
    method SysCreate(dp: int, name: Name, dir: bool, i: nat) returns (r: int)
      requires Inv(Now()) && Allowed(Now(), Create(dp, name, i, dir))
      modifies this
      ensures Inv(Now()) && Now() == Next(old(Now()), Create(dp, name, i, dir))
      ensures dp < 0 ==> r == -1 && inodes == old(inodes)
      ensures dp >= 0 && name in old(inodes)[dp].entries ==>
                && inodes == old(inodes)
                && var ip := inodes[dp].entries[name];
                   ip in inodes && r == if !dir && !inodes[ip].dir then ip else -1
      ensures dp >= 0 && name !in old(inodes)[dp].entries ==>
                && r == i && AddedTo(old(inodes), inodes, dp, name, i, dir)
    {
      StepKeeps(Now(), Create(dp, name, i, dir));
      if dp < 0 { return -1; }
      if name in inodes[dp].entries {
        var ip := inodes[dp].entries[name];
        if name != DOT { NamedExists(Now(), dp, name, ip); } else { assert Parented(Now(), dp); }
        hide Inv;
        if !dir && !inodes[ip].dir { return ip; }
        return -1;
      }
      hide Inv;
      Make(dp, name, dir, i);
      return i;
    }
  }
}
