/** bio.c: the block cache, a doubly linked list of NBUF buffers in most recently used
    order, over the synchronous disk of memide.c.  Pointers are indices into the static
    array of buffers; index NBUF is the list head.  Each method is one critical section,
    so any interleaving of processes is a sequence of these calls. */
module BufferCache {
  import opened Wrappers
  import opened Blocks
  import opened LogFormat

  const NBUF := 30
  const ROOTDEV := 1

  datatype Buf = Buf(
    valid: bool, dirty: bool, dev: nat, blockno: nat,
    locked: bool, refcnt: nat, prev: nat, next: nat, data: Block)

  // ----- the list -----

  /** The i-th stop on the way around the list; the head comes first and last. */
  ghost function At(order: seq<nat>, i: nat): nat
    requires i <= |order| + 1
  {
    if i == 0 || i == |order| + 1 then NBUF else order[i - 1]
  }

  ghost predicate Distinct(order: seq<nat>) {
    && (forall i :: 0 <= i < |order| ==> order[i] < NBUF)
    && (forall i, j :: 0 <= i < j < |order| ==> order[i] != order[j])
  }

  /** next and prev link the buffers of order, and only them, in both directions. */
  ghost predicate Linked(s: seq<Buf>, order: seq<nat>) {
    && |s| == NBUF + 1 && Distinct(order)
    && (forall b :: 0 <= b < |s| ==> s[b].next <= NBUF && s[b].prev <= NBUF)
    && (forall i :: 0 <= i <= |order| ==> s[At(order, i)].next == At(order, i + 1))
    && (forall i :: 0 < i <= |order| + 1 ==> s[At(order, i)].prev == At(order, i - 1))
  }

  /** Every buffer is on the list exactly once. */
  ghost predicate Listed(s: seq<Buf>, order: seq<nat>) {
    Linked(s, order) && |order| == NBUF && forall b :: 0 <= b < NBUF ==> b in order
  }

  ghost function Removed(order: seq<nat>, k: nat): (r: seq<nat>)
    requires k < |order|
    ensures |r| == |order| - 1
  {
    order[..k] + order[k + 1..]
  }

  // ----- contents -----

  ghost predicate Same(b: Buf, dev: nat, blockno: nat) {
    b.dev == dev && b.blockno == blockno
  }

  /** No two buffers stand for one block; unused buffers all carry (0, 0). */
  ghost predicate Unique(s: seq<Buf>) {
    |s| == NBUF + 1 &&
    forall i, j :: 0 <= i < j < NBUF && s[i].dev == s[j].dev && s[i].blockno == s[j].blockno
                   ==> s[i].dev == 0 && s[i].blockno == 0
  }

  /** A buffer that is neither dirty nor locked equals its disk block. */
  ghost predicate BufOk(b: Buf, disk: Disk) {
    && (b.locked ==> b.refcnt > 0)
    && (b.dirty ==> b.valid)
    && (b.valid ==> b.dev == ROOTDEV && b.blockno < |disk|)
    && (b.valid && !b.dirty && !b.locked ==> b.data == disk[b.blockno])
  }

  ghost predicate Coherent(s: seq<Buf>, disk: Disk) {
    Unique(s) && forall i :: 0 <= i < NBUF ==> BufOk(s[i], disk)
  }

  ghost predicate Holds(s: seq<Buf>, i: nat, n: nat) {
    i < NBUF && i < |s| && s[i].valid && Same(s[i], ROOTDEV, n)
  }

  /** The newest contents of block n: a valid buffer if there is one, else the disk. */
  ghost function Newest(s: seq<Buf>, disk: Disk, n: nat): Block
    requires n < |disk|
  {
    if exists i: nat :: Holds(s, i, n) then
      var i: nat :| Holds(s, i, n);
      s[i].data
    else disk[n]
  }

  ghost function View(s: seq<Buf>, disk: Disk): (r: Disk)
    ensures |r| == |disk|
  {
    seq(|disk|, n requires 0 <= n < |disk| => Newest(s, disk, n))
  }

  lemma NewestHeld(s: seq<Buf>, disk: Disk, i: nat, n: nat)
    requires Unique(s) && n < |disk| && Holds(s, i, n)
    ensures Newest(s, disk, n) == s[i].data
  {
    forall j: nat | Holds(s, j, n) ensures j == i {
    }
  }

  ghost predicate InUse(b: Buf) {
    b.refcnt > 0 || b.dirty
  }

  /** Changes that leave what each buffer stands for alone leave the view alone. */
  lemma ViewFrame(s: seq<Buf>, t: seq<Buf>, disk: Disk)
    requires Unique(s) && |t| == |s|
    requires forall i :: 0 <= i < NBUF ==> t[i].valid == s[i].valid && t[i].dev == s[i].dev
                                           && t[i].blockno == s[i].blockno && t[i].data == s[i].data
    ensures Unique(t) && View(t, disk) == View(s, disk)
  {
    forall n | 0 <= n < |disk| ensures Newest(t, disk, n) == Newest(s, disk, n) {
      NewestSame(s, t, disk, disk, n);
    }
  }

  lemma NewestSame(s: seq<Buf>, t: seq<Buf>, disk: Disk, disk': Disk, n: nat)
    requires Unique(s) && Unique(t) && n < |disk| == |disk'|
    requires disk'[n] == disk[n]
    requires forall i :: 0 <= i < NBUF ==> (Holds(t, i, n) <==> Holds(s, i, n))
    requires forall i :: 0 <= i < NBUF && Holds(s, i, n) ==> t[i].data == s[i].data
    ensures Newest(t, disk', n) == Newest(s, disk, n)
  {
    if exists i: nat :: Holds(s, i, n) {
      var i: nat :| Holds(s, i, n);
      assert Holds(t, i, n);
      NewestHeld(s, disk, i, n);
      NewestHeld(t, disk', i, n);
    }
  }

  /** Recycling a clean idle buffer forgets only what the disk still has. */
  lemma ViewRecycle(s: seq<Buf>, disk: Disk, i: nat, b: Buf)
    requires Coherent(s, disk) && i < NBUF && !InUse(s[i])
    requires !b.valid
    requires forall j :: 0 <= j < NBUF && Same(s[j], b.dev, b.blockno) ==> j == i
    ensures Unique(s[i := b]) && View(s[i := b], disk) == View(s, disk)
  {
    var t := s[i := b];
    forall n | 0 <= n < |disk| ensures Newest(t, disk, n) == Newest(s, disk, n) {
      if Holds(s, i, n) {
        NewestHeld(s, disk, i, n);
        forall j | 0 <= j < NBUF ensures !Holds(t, j, n) {
          if j < i { assert s[j].dev != s[i].dev || s[j].blockno != s[i].blockno; }
        }
      } else {
        NewestSame(s, t, disk, disk, n);
      }
    }
  }

  /** Reading a block in makes the buffer valid without changing the view. */
  lemma ViewLoad(s: seq<Buf>, disk: Disk, i: nat, b: Buf)
    requires Unique(s) && i < NBUF && !s[i].valid
    requires b.dev == s[i].dev == ROOTDEV && b.blockno == s[i].blockno < |disk|
    requires b.valid && b.data == disk[b.blockno]
    ensures Unique(s[i := b]) && View(s[i := b], disk) == View(s, disk)
  {
    var t := s[i := b];
    forall n | 0 <= n < |disk| ensures Newest(t, disk, n) == Newest(s, disk, n) {
      if n == b.blockno {
        assert Holds(t, i, n);
        NewestHeld(t, disk, i, n);
        forall j | 0 <= j < NBUF ensures !Holds(s, j, n) {
          if j < i { assert s[j].dev != s[i].dev || s[j].blockno != s[i].blockno; }
        }
      } else {
        NewestSame(s, t, disk, disk, n);
      }
    }
  }

  /** Writing a held buffer to disk does not change the view. */
  lemma ViewStore(s: seq<Buf>, disk: Disk, i: nat, b: Buf)
    requires Unique(s) && i < NBUF && Holds(s, i, b.blockno) && b.blockno < |disk|
    requires b.valid && b.dev == s[i].dev && b.data == s[i].data
    ensures Unique(s[i := b]) && View(s[i := b], disk[b.blockno := b.data]) == View(s, disk)
  {
    var t, d := s[i := b], disk[b.blockno := b.data];
    forall n | 0 <= n < |disk| ensures Newest(t, d, n) == Newest(s, disk, n) {
      if n == b.blockno {
        assert Holds(t, i, n);
        NewestHeld(s, disk, i, n);
        NewestHeld(t, d, i, n);
      } else {
        NewestSame(s, t, disk, d, n);
      }
    }
  }

  /** Changing the data of a held buffer changes the view of that block only. */
  lemma ViewChange(s: seq<Buf>, disk: Disk, i: nat, b: Buf)
    requires Unique(s) && i < NBUF && Holds(s, i, b.blockno) && b.blockno < |disk|
    requires b.valid && b.dev == s[i].dev
    ensures Unique(s[i := b]) && View(s[i := b], disk) == View(s, disk)[b.blockno := b.data]
  {
    var t := s[i := b];
    forall n | 0 <= n < |disk| ensures Newest(t, disk, n) == View(s, disk)[b.blockno := b.data][n] {
      if n == b.blockno {
        assert Holds(t, i, n);
        NewestHeld(t, disk, i, n);
      } else {
        NewestSame(s, t, disk, disk, n);
      }
    }
  }

  // ----- relinking -----

  /** Unlinking the k-th buffer: its neighbours point at each other. */
  ghost function Unlinked(s: seq<Buf>, b: nat): (r: seq<Buf>)
    requires b < |s| && s[b].next < |s| && s[b].prev < |s|
    ensures |r| == |s|
  {
    var t := s[s[b].next := s[s[b].next].(prev := s[b].prev)];
    t[t[b].prev := t[t[b].prev].(next := t[b].next)]
  }

  /** Pushing b behind the head, as binit and brelse both do. */
  ghost function Pushed(s: seq<Buf>, b: nat): (r: seq<Buf>)
    requires |s| == NBUF + 1 && b < NBUF && s[NBUF].next < |s|
    ensures |r| == |s|
  {
    var t := s[b := s[b].(next := s[NBUF].next, prev := NBUF)];
    var u := t[t[NBUF].next := t[t[NBUF].next].(prev := b)];
    u[NBUF := u[NBUF].(next := b)]
  }

  lemma UnlinkedLinks(s: seq<Buf>, order: seq<nat>, k: nat)
    requires Linked(s, order) && k < |order|
    ensures var b, t := order[k], Unlinked(s, order[k]);
            && s[b].next == At(order, k + 2) != b && s[b].prev == At(order, k) != b
            && forall c :: 0 <= c < |s| ==>
                 && t[c].next == (if c == At(order, k) then At(order, k + 2) else s[c].next)
                 && t[c].prev == if c == At(order, k + 2) then At(order, k) else s[c].prev
  {
    var b := order[k];
    assert At(order, k + 1) == b;
    assert s[At(order, k + 1)].next == At(order, k + 2) && s[At(order, k + 1)].prev == At(order, k);
    AtInjective(order, k + 1, k);
  }

  lemma RemovedAt(order: seq<nat>, k: nat, i: nat)
    requires k < |order| && i <= |order|
    ensures At(Removed(order, k), i) == At(order, if i <= k then i else i + 1)
  {
  }

  lemma UnlinkedNext(s: seq<Buf>, order: seq<nat>, k: nat, i: nat)
    requires Linked(s, order) && k < |order| && i <= |order| - 1
    ensures Unlinked(s, order[k])[At(Removed(order, k), i)].next == At(Removed(order, k), i + 1)
  {
    var j := if i <= k then i else i + 1;
    UnlinkedLinks(s, order, k);
    RemovedAt(order, k, i);
    RemovedAt(order, k, i + 1);
    assert s[At(order, j)].next == At(order, j + 1);
    AtInjective(order, j, k);
  }

  lemma UnlinkedPrev(s: seq<Buf>, order: seq<nat>, k: nat, i: nat)
    requires Linked(s, order) && k < |order| && 0 < i <= |order|
    ensures Unlinked(s, order[k])[At(Removed(order, k), i)].prev == At(Removed(order, k), i - 1)
  {
    var j := if i <= k then i else i + 1;
    UnlinkedLinks(s, order, k);
    RemovedAt(order, k, i);
    RemovedAt(order, k, i - 1);
    assert s[At(order, j)].prev == At(order, j - 1);
    AtInjective(order, if j == |order| + 1 then 0 else j, if k + 2 == |order| + 1 then 0 else k + 2);
  }

  lemma UnlinkedIsLinked(s: seq<Buf>, order: seq<nat>, k: nat)
    requires Linked(s, order) && k < |order|
    ensures Linked(Unlinked(s, order[k]), Removed(order, k))
  {
    var r, t := Removed(order, k), Unlinked(s, order[k]);
    forall i | 0 <= i <= |r| ensures t[At(r, i)].next == At(r, i + 1) { UnlinkedNext(s, order, k, i); }
    forall i | 0 < i <= |r| + 1 ensures t[At(r, i)].prev == At(r, i - 1) { UnlinkedPrev(s, order, k, i); }
  }

  lemma AtInjective(order: seq<nat>, i: nat, j: nat)
    requires Distinct(order) && i <= |order| && j <= |order|
    ensures At(order, i) == At(order, j) <==> i == j
  {
  }

  lemma PushedIsLinked(s: seq<Buf>, order: seq<nat>, b: nat)
    requires Linked(s, order) && b < NBUF && b !in order
    ensures Linked(Pushed(s, b), [b] + order)
  {
    var r, t := [b] + order, Pushed(s, b);
    assert At(order, 0) == NBUF && s[NBUF].next == At(order, 1);
    forall i | 0 <= i <= |r| ensures t[At(r, i)].next == At(r, i + 1) {
      if i >= 2 {
        assert At(r, i) == At(order, i - 1);
        assert s[At(order, i - 1)].next == At(order, i);
      }
    }
    forall i | 0 < i <= |r| + 1 ensures t[At(r, i)].prev == At(r, i - 1) {
      if i >= 2 {
        assert At(r, i) == At(order, i - 1);
        assert s[At(order, i - 1)].prev == At(order, i - 2);
        AtInjective(order, if i == |r| + 1 then 0 else i - 1, if |order| == 0 then 0 else 1);
      }
    }
  }

  ghost predicate SameExceptLinks(b: Buf, c: Buf) {
    c == b.(prev := c.prev, next := c.next)
  }

  lemma RelinkFrame(s: seq<Buf>, t: seq<Buf>, disk: Disk)
    requires Coherent(s, disk) && |t| == |s|
    requires forall i :: 0 <= i < NBUF ==> SameExceptLinks(s[i], t[i])
    ensures Coherent(t, disk) && View(t, disk) == View(s, disk)
  {
    ViewFrame(s, t, disk);
    assert forall i :: 0 <= i < NBUF ==> SameExceptLinks(s[i], t[i]) && BufOk(s[i], disk);
  }

  lemma UnlinkedFrame(s: seq<Buf>, b: nat)
    requires |s| == NBUF + 1 && b < NBUF && s[b].next < |s| && s[b].prev < |s|
    ensures forall i :: 0 <= i < |s| ==> SameExceptLinks(s[i], Unlinked(s, b)[i])
  {
  }

  lemma PushedFrame(s: seq<Buf>, b: nat)
    requires |s| == NBUF + 1 && b < NBUF && s[NBUF].next < |s|
    ensures forall i :: 0 <= i < |s| ==> SameExceptLinks(s[i], Pushed(s, b)[i])
  {
  }

  lemma RemovedElements(order: seq<nat>, k: nat)
    requires Distinct(order) && k < |order|
    ensures Distinct(Removed(order, k)) && order[k] !in Removed(order, k)
    ensures forall b :: b in order ==> b == order[k] || b in Removed(order, k)
  {
    var r := Removed(order, k);
    forall b | b in order ensures b == order[k] || b in r {
      var i :| 0 <= i < |order| && order[i] == b;
      if i < k { assert r[i] == b; } else if i > k { assert r[i - 1] == b; }
    }
  }

  lemma ListedFrame(s: seq<Buf>, order: seq<nat>, i: nat, b: Buf)
    requires Listed(s, order) && i < NBUF && b.prev == s[i].prev && b.next == s[i].next
    ensures Listed(s[i := b], order)
  {
  }

  /** Replacing one buffer by another that is in order keeps the cache coherent. */
  lemma CoherentUpdate(s: seq<Buf>, disk: Disk, i: nat, b: Buf)
    requires Coherent(s, disk) && i < NBUF && Unique(s[i := b]) && BufOk(b, disk)
    ensures Coherent(s[i := b], disk)
  {
  }

  lemma PushIdle(s: seq<Buf>, order: seq<nat>, b: nat, idle: Buf)
    requires Linked(s, order) && b < NBUF && b !in order
    requires forall i :: 0 <= i < NBUF ==> SameExceptLinks(idle, s[i])
    ensures Linked(Pushed(s, b), [b] + order)
    ensures forall i :: 0 <= i < NBUF ==> SameExceptLinks(idle, Pushed(s, b)[i])
  {
    PushedIsLinked(s, order, b);
    PushedFrame(s, b);
    assert forall i :: 0 <= i < NBUF ==> SameExceptLinks(idle, s[i]) && SameExceptLinks(s[i], Pushed(s, b)[i]);
  }

  class Cache {
    const buf: array<Buf>
    var disk: Disk
    ghost var order: seq<nat>      // most recently used first
    ghost var writes: seq<Write>   // every block write so far

    ghost predicate Valid()
      reads this, buf
    {
      buf.Length == NBUF + 1 && Listed(buf[..], order) && Coherent(buf[..], disk)
    }

    /** The newest contents of every block of the root device. */
    ghost function Contents(): (r: Disk)
      reads this, buf
      ensures |r| == |disk|
    {
      View(buf[..], disk)
    }

    /** No buffer is left to recycle. */
    ghost predicate Exhausted()
      requires buf.Length == NBUF + 1
      reads this, buf
    {
      forall i :: 0 <= i < NBUF ==> InUse(buf[i])
    }

    method PushFront(b: nat)
      requires buf.Length == NBUF + 1 && b < NBUF && buf[NBUF].next <= NBUF
      modifies buf
      ensures buf[..] == Pushed(old(buf[..]), b)
    {
      buf[b] := buf[b].(next := buf[NBUF].next, prev := NBUF);
      buf[buf[NBUF].next] := buf[buf[NBUF].next].(prev := b);
      buf[NBUF] := buf[NBUF].(next := b);
    }

    method Unlink(b: nat)
      requires buf.Length == NBUF + 1 && b < NBUF && buf[b].next <= NBUF && buf[b].prev <= NBUF
      requires buf[b].next != b
      modifies buf
      ensures buf[..] == Unlinked(old(buf[..]), b)
    {
      buf[buf[b].next] := buf[buf[b].next].(prev := buf[b].prev);
      buf[buf[b].prev] := buf[buf[b].prev].(next := buf[b].next);
    }

    /** binit over a disk image: all buffers idle, the last one most recently used. */
    constructor (image: Disk)
      ensures Valid() && fresh(buf) && disk == image && writes == [] && Contents() == image
      ensures forall i :: 0 <= i < NBUF ==> !buf[i].locked && !InUse(buf[i])
    {
      var idle := Buf(false, false, 0, 0, false, 0, NBUF, NBUF, ZERO_BLOCK);
      buf := new Buf[NBUF + 1](_ => idle);
      disk, order, writes := image, [], [];
      new;
      var b := 0;
      while b < NBUF
        invariant 0 <= b <= NBUF && Linked(buf[..], order) && |order| == b && disk == image && writes == []
        invariant forall i :: 0 <= i < b ==> i in order
        invariant forall i :: 0 <= i < |order| ==> order[i] < b
        invariant forall i :: 0 <= i < NBUF ==> SameExceptLinks(idle, buf[i])
      {
        PushIdle(buf[..], order, b, idle);
        PushFront(b);
        order := [b] + order;
        b := b + 1;
      }
      assert forall n, i: nat :: !Holds(buf[..], i, n);
      assert View(buf[..], disk) == image;
    }

    /** bget: the buffer of a block if cached, else the least recently used idle clean one.
        None is the panic "no buffers". */
    method Bget(dev: nat, blockno: nat) returns (r: Option<nat>)
      requires Valid()
      modifies buf
      ensures Valid() && Contents() == old(Contents())
      ensures r.None? <==> old(forall i :: 0 <= i < NBUF ==> !Same(buf[i], dev, blockno) && InUse(buf[i]))
      ensures r.None? ==> buf[..] == old(buf[..])
      ensures r.Some? ==> r.value < NBUF && Same(buf[r.value], dev, blockno) && buf[r.value].refcnt > 0
      ensures r.Some? && old(Same(buf[r.value], dev, blockno)) ==>
                buf[..] == old(buf[..])[r.value := old(buf[r.value].(refcnt := buf[r.value].refcnt + 1))]
      ensures r.Some? && !old(Same(buf[r.value], dev, blockno)) ==>
                && old(!InUse(buf[r.value]) && forall i :: 0 <= i < NBUF ==> !Same(buf[i], dev, blockno))
                && buf[..] == old(buf[..])[r.value := old(buf[r.value]).(dev := dev, blockno := blockno, valid := false, dirty := false, refcnt := 1)]
                && (exists k :: 0 <= k < NBUF && order[k] == r.value
                                && old(forall j :: k < j < NBUF ==> InUse(buf[order[j]])))
    {
      var b := buf[NBUF].next;
      ghost var k := 0;
      assert At(order, 0) == NBUF;
      while b != NBUF
        invariant 0 <= k <= NBUF && b == At(order, k + 1)
        invariant forall j :: 0 <= j < k ==> !Same(buf[order[j]], dev, blockno)
        invariant buf[..] == old(buf[..])
        decreases NBUF - k
      {
        if buf[b].dev == dev && buf[b].blockno == blockno {
          ghost var s := buf[..];
          buf[b] := buf[b].(refcnt := buf[b].refcnt + 1);
          assert buf[..] == s[b := buf[b]];
          ViewFrame(s, buf[..], disk);
          CoherentUpdate(s, disk, b, buf[b]);
          ListedFrame(s, order, b, buf[b]);
          return Some(b);
        }
        k := k + 1;
        b := buf[b].next;
      }
      forall i | 0 <= i < NBUF ensures !Same(buf[i], dev, blockno) {
        assert i in order;
      }
      b := buf[NBUF].prev;
      k := NBUF;
      assert At(order, NBUF + 1) == NBUF;
      while b != NBUF
        invariant 0 <= k <= NBUF && b == At(order, k)
        invariant forall j :: k <= j < NBUF ==> InUse(buf[order[j]])
        invariant buf[..] == old(buf[..])
        decreases k
      {
        if buf[b].refcnt == 0 && !buf[b].dirty {
          Recycle(dev, blockno, b);
          assert order[k - 1] == b;
          return Some(b);
        }
        k := k - 1;
        b := buf[b].prev;
      }
      forall i | 0 <= i < NBUF ensures InUse(buf[i]) {
        assert i in order;
      }
      return None;
    }

    method Recycle(dev: nat, blockno: nat, b: nat)
      requires Valid() && b < NBUF && !InUse(buf[b])
      requires forall i :: 0 <= i < NBUF ==> !Same(buf[i], dev, blockno)
      modifies buf
      ensures Valid() && Contents() == old(Contents())
      ensures buf[..] == old(buf[..])[b := old(buf[b]).(dev := dev, blockno := blockno, valid := false, dirty := false, refcnt := 1)]
    {
      ghost var s := buf[..];
      buf[b] := buf[b].(dev := dev, blockno := blockno, valid := false, dirty := false, refcnt := 1);
      assert buf[..] == s[b := buf[b]];
      ViewRecycle(s, disk, b, buf[b]);
      assert BufOk(s[b], disk);
      CoherentUpdate(s, disk, b, buf[b]);
      ListedFrame(s, order, b, buf[b]);
    }
  
    /** acquiresleep returns once the lock is free. */
    method AcquireSleep(b: nat)
      requires Valid() && b < NBUF && !buf[b].locked && buf[b].refcnt > 0
      modifies buf
      ensures Valid() && Contents() == old(Contents())
      ensures buf[..] == old(buf[..])[b := old(buf[b]).(locked := true)]
    {
      Update(b, buf[b].(locked := true));
    }

    /** Any change of a buffer's flags and counters that keeps it in order. */
    method Update(b: nat, nb: Buf)
      requires Valid() && b < NBUF
      requires nb == buf[b].(dirty := nb.dirty, locked := nb.locked, refcnt := nb.refcnt) && BufOk(nb, disk)
      modifies buf
      ensures Valid() && Contents() == old(Contents()) && buf[..] == old(buf[..])[b := nb]
    {
      ghost var s := buf[..];
      buf[b] := nb;
      assert buf[..] == s[b := nb];
      ViewFrame(s, buf[..], disk);
      CoherentUpdate(s, disk, b, nb);
      ListedFrame(s, order, b, nb);
    }

    /** iderw of memide.c; false is one of its panics. */
    method Iderw(b: nat) returns (ok: bool)
      requires Valid() && b < NBUF
      modifies this, buf
      ensures Valid() && Contents() == old(Contents()) && order == old(order) && |disk| == |old(disk)|
      ensures ok <==> old(buf[b].locked && !(buf[b].valid && !buf[b].dirty) && buf[b].dev == ROOTDEV && buf[b].blockno < |disk|)
      ensures !ok ==> buf[..] == old(buf[..]) && disk == old(disk) && writes == old(writes)
      ensures ok && old(buf[b].dirty) ==>
                && buf[..] == old(buf[..])[b := old(buf[b]).(dirty := false)]
                && disk == old(disk[buf[b].blockno := buf[b].data])
                && writes == old(writes + [Write(buf[b].blockno, buf[b].data)])
      ensures ok && !old(buf[b].dirty) ==>
                && buf[..] == old(buf[..])[b := old(buf[b].(valid := true, data := disk[buf[b].blockno]))]
                && disk == old(disk) && writes == old(writes)
    {
      if !buf[b].locked || (buf[b].valid && !buf[b].dirty) || buf[b].dev != ROOTDEV || buf[b].blockno >= |disk| {
        return false;
      }
      ghost var s, d := buf[..], disk;
      var c := buf[b];
      assert BufOk(s[b], d);
      if c.dirty {
        buf[b] := c.(dirty := false);
        disk := disk[c.blockno := c.data];
        writes := writes + [Write(c.blockno, c.data)];
        assert buf[..] == s[b := buf[b]];
        assert Holds(s, b, c.blockno);
        ViewStore(s, d, b, buf[b]);
        StoreCoherent(s, d, b, buf[b]);
      } else {
        buf[b] := c.(valid := true, data := disk[c.blockno]);
        assert buf[..] == s[b := buf[b]];
        ViewLoad(s, d, b, buf[b]);
        CoherentUpdate(s, d, b, buf[b]);
      }
      ListedFrame(s, order, b, buf[b]);
      return true;
    }

    /** bread by a caller that finds the block's buffer unlocked: the locked buffer holds
        the newest contents.  None is a panic. */
    method Bread(dev: nat, blockno: nat) returns (r: Option<nat>)
      requires Valid()
      requires forall i :: 0 <= i < NBUF && Same(buf[i], dev, blockno) ==> !buf[i].locked
      modifies this, buf
      ensures Valid() && Contents() == old(Contents()) && disk == old(disk) && writes == old(writes)
      ensures r.Some? ==>
                && r.value < NBUF && dev == ROOTDEV && blockno < |disk| && Holds(buf[..], r.value, blockno)
                && buf[r.value].locked && buf[r.value].data == Contents()[blockno]
                && (buf[r.value].dirty || buf[r.value].data == disk[blockno])
                && OthersSame(old(buf[..]), buf[..], r.value) && Taken(old(buf[..]), buf[r.value], r.value, blockno)
      ensures r.None? ==> dev != ROOTDEV || blockno >= |disk|
                          || (Exhausted() && old(forall i :: 0 <= i < NBUF ==> !Same(buf[i], dev, blockno) && InUse(buf[i])))
    {
      ghost var s := buf[..];
      r := Bget(dev, blockno);
      if r.None? { return; }
      var b := r.value;
      assert BufOk(s[b], disk);
      assert !buf[b].locked;
      AcquireSleep(b);
      if !buf[b].valid {
        var ok := Iderw(b);
        if !ok { return None; }
      }
      ghost var t := buf[..];
      assert Holds(t, b, blockno) && BufOk(t[b], disk);
      NewestHeld(t, disk, b, blockno);
    }

    /** The holder of the lock changes the data of the buffer. */
    method SetData(b: nat, data: Block)
      requires Valid() && b < NBUF && buf[b].locked && buf[b].valid
      modifies buf
      ensures Valid() && buf[..] == old(buf[..])[b := old(buf[b]).(data := data)]
      ensures buf[b].blockno < |disk| && Contents() == old(Contents())[buf[b].blockno := data]
    {
      ghost var s := buf[..];
      assert BufOk(s[b], disk);
      buf[b] := buf[b].(data := data);
      assert buf[..] == s[b := buf[b]];
      ViewChange(s, disk, b, buf[b]);
      CoherentUpdate(s, disk, b, buf[b]);
      ListedFrame(s, order, b, buf[b]);
    }

    /** bwrite of a locked buffer: exactly one block write. */
    method Bwrite(b: nat) returns (ok: bool)
      requires Valid() && b < NBUF && buf[b].valid
      modifies this, buf
      ensures Valid() && Contents() == old(Contents())
      ensures ok <==> old(buf[b].locked)
      ensures ok ==>
                && old(buf[b].blockno) < |old(disk)|
                && buf[..] == old(buf[..])[b := old(buf[b]).(dirty := false)]
                && disk == old(disk[buf[b].blockno := buf[b].data])
                && writes == old(writes + [Write(buf[b].blockno, buf[b].data)])
      ensures !ok ==> buf[..] == old(buf[..]) && disk == old(disk) && writes == old(writes)
    {
      if !buf[b].locked { return false; }
      assert BufOk(buf[..][b], disk);
      Update(b, buf[b].(dirty := true));
      ok := Iderw(b);
    }

    /** brelse; false is its panic.  The data must be logged or written by now. */
    method Brelse(b: nat) returns (ok: bool)
      requires Valid() && b < NBUF
      requires buf[b].locked && buf[b].valid && !buf[b].dirty ==> buf[b].data == disk[buf[b].blockno]
      modifies this`order, buf
      ensures Valid() && Contents() == old(Contents())
      ensures ok <==> old(buf[b].locked)
      ensures !ok ==> buf[..] == old(buf[..]) && order == old(order)
      ensures ok ==>
                && SameExceptLinks(old(buf[b]).(locked := false, refcnt := old(buf[b]).refcnt - 1), buf[b])
                && (forall i :: 0 <= i < NBUF && i != b ==> SameExceptLinks(old(buf[i]), buf[i]))
                && order == if old(buf[b].refcnt) == 1 then MovedFront(old(order), b) else old(order)
    {
      if !buf[b].locked { return false; }
      assert BufOk(buf[..][b], disk);
      Update(b, buf[b].(locked := false));
      Update(b, buf[b].(refcnt := buf[b].refcnt - 1));
      if buf[b].refcnt == 0 { MoveFront(b); }
      return true;
    }

    method MoveFront(b: nat)
      requires Valid() && b < NBUF
      modifies this`order, buf
      ensures Valid() && Contents() == old(Contents())
      ensures forall i :: 0 <= i < NBUF ==> SameExceptLinks(old(buf[i]), buf[i])
      ensures order == MovedFront(old(order), b)
    {
      assert b in order;
      ghost var k :| 0 <= k < |order| && order[k] == b;
      MoveFrontKeeps(buf[..], order, k, disk);
      Unlink(b);
      PushFront(b);
      order := [b] + Removed(order, k);
    }
  }

  lemma MoveFrontLinks(s: seq<Buf>, order: seq<nat>, k: nat)
    requires Listed(s, order) && k < NBUF
    ensures s[order[k]].next != order[k]
    ensures Unlinked(s, order[k])[NBUF].next <= NBUF
    ensures Listed(Pushed(Unlinked(s, order[k]), order[k]), [order[k]] + Removed(order, k))
  {
    UnlinkedLinks(s, order, k);
    UnlinkedIsLinked(s, order, k);
    RemovedElements(order, k);
    PushedIsLinked(Unlinked(s, order[k]), Removed(order, k), order[k]);
  }

  lemma MoveFrontFrame(s: seq<Buf>, b: nat)
    requires |s| == NBUF + 1 && b < NBUF && s[b].next < |s| && s[b].prev < |s|
    requires Unlinked(s, b)[NBUF].next <= NBUF
    ensures forall i :: 0 <= i < NBUF ==> SameExceptLinks(s[i], Pushed(Unlinked(s, b), b)[i])
  {
    var t := Unlinked(s, b);
    UnlinkedFrame(s, b);
    PushedFrame(t, b);
    assert forall i :: 0 <= i < NBUF ==> SameExceptLinks(s[i], t[i]) && SameExceptLinks(t[i], Pushed(t, b)[i]);
  }

  lemma MoveFrontKeeps(s: seq<Buf>, order: seq<nat>, k: nat, disk: Disk)
    requires Listed(s, order) && Coherent(s, disk) && k < NBUF
    ensures s[order[k]].next != order[k]
    ensures Unlinked(s, order[k])[NBUF].next <= NBUF
    ensures var t := Pushed(Unlinked(s, order[k]), order[k]);
            && Listed(t, [order[k]] + Removed(order, k)) && Coherent(t, disk) && View(t, disk) == View(s, disk)
            && forall i :: 0 <= i < NBUF ==> SameExceptLinks(s[i], t[i])
    ensures MovedFront(order, order[k]) == [order[k]] + Removed(order, k)
  {
    MoveFrontLinks(s, order, k);
    MoveFrontFrame(s, order[k]);
    RelinkFrame(s, Pushed(Unlinked(s, order[k]), order[k]), disk);
    MovedFrontIs(order, k);
  }

  /** b first, all others in their old order. */
  ghost function MovedFront(order: seq<nat>, b: nat): seq<nat> {
    [b] + Without(order, b)
  }

  ghost function Without(order: seq<nat>, b: nat): seq<nat> {
    if order == [] then [] else
      (if order[0] == b then [] else [order[0]]) + Without(order[1..], b)
  }

  lemma {:induction false} MovedFrontIs(order: seq<nat>, k: nat)
    requires Distinct(order) && k < |order|
    ensures MovedFront(order, order[k]) == [order[k]] + Removed(order, k)
  {
    WithoutIs(order, k);
  }

  lemma {:induction false} WithoutAbsent(order: seq<nat>, b: nat)
    requires b !in order
    ensures Without(order, b) == order
  {
    if order != [] { WithoutAbsent(order[1..], b); }
  }

  lemma {:induction false} WithoutIs(order: seq<nat>, k: nat)
    requires Distinct(order) && k < |order|
    ensures Without(order, order[k]) == Removed(order, k)
  {
    if k == 0 {
      WithoutAbsent(order[1..], order[0]);
    } else {
      WithoutIs(order[1..], k - 1);
      assert order[1..][k - 1] == order[k];
      assert Removed(order, k) == [order[0]] + Removed(order[1..], k - 1);
    }
  }

  lemma StoreCoherent(s: seq<Buf>, disk: Disk, i: nat, b: Buf)
    requires Coherent(s, disk) && i < NBUF && Holds(s, i, b.blockno) && b.blockno < |disk|
    requires b == s[i].(dirty := false)
    ensures Coherent(s[i := b], disk[b.blockno := b.data])
  {
    var t, d := s[i := b], disk[b.blockno := b.data];
    forall j | 0 <= j < NBUF ensures BufOk(t[j], d) {
      assert BufOk(s[j], disk);
      if j < i { assert s[j].dev == s[i].dev ==> s[j].blockno != s[i].blockno; }
      if i < j { assert s[i].dev == s[j].dev ==> s[j].blockno != s[i].blockno; }
    }
  }

  ghost predicate OthersSame(s: seq<Buf>, t: seq<Buf>, b: nat) {
    |t| == |s| == NBUF + 1 && forall i :: 0 <= i < NBUF && i != b ==> t[i] == s[i]
  }

  /** bread locked buffer i for block n as b: it was the block's buffer, or an idle one. */
  ghost predicate Taken(s: seq<Buf>, b: Buf, i: nat, n: nat) {
    && i < NBUF < |s| && !s[i].locked && b.locked && b.valid && Same(b, ROOTDEV, n)
    && if Same(s[i], ROOTDEV, n) then b.refcnt == s[i].refcnt + 1 && b.dirty == s[i].dirty
       else b.refcnt == 1 && !b.dirty && !InUse(s[i]) && forall j :: 0 <= j < NBUF ==> !Same(s[j], ROOTDEV, n)
  }
}
