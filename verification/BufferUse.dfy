/** Who holds buffers of the cache, which blocks are pinned by B_DIRTY, and what a routine that
    takes buffers and gives them back leaves of that. */
module BufferUse {
  import opened Blocks
  import opened LogFormat
  import opened BufferCache

  /** No process holds the buffer of block n. */
  ghost predicate FreeBlock(s: seq<Buf>, n: nat) {
    |s| == NBUF + 1 && forall i :: 0 <= i < NBUF && Same(s[i], ROOTDEV, n) ==> !s[i].locked
  }

  /** No process holds a buffer. */
  ghost predicate NoneLocked(s: seq<Buf>) {
    |s| == NBUF + 1 && forall i :: 0 <= i < NBUF ==> !s[i].locked
  }

  /** Block n is cached and log_write has marked it dirty. */
  ghost predicate Pinned(s: seq<Buf>, n: nat) {
    exists i: nat :: Holds(s, i, n) && s[i].dirty
  }

  /** Some buffer can be recycled. */
  ghost predicate Spare(s: seq<Buf>) {
    exists i :: 0 <= i < NBUF && i < |s| && !InUse(s[i])
  }

  /** All of them can, as after boot. */
  ghost predicate Idle(s: seq<Buf>) {
    |s| == NBUF + 1 && forall i :: 0 <= i < NBUF ==> !InUse(s[i])
  }

  /** The buffers that processes hold are the same, and untouched. */
  ghost predicate Kept(s: seq<Buf>, t: seq<Buf>) {
    && |s| == |t| == NBUF + 1
    && forall i :: 0 <= i < NBUF ==> t[i].locked == s[i].locked && (s[i].locked ==> SameExceptLinks(s[i], t[i]))
  }

  ghost predicate PinsKept(s: seq<Buf>, t: seq<Buf>, but: set<nat>) {
    forall n: nat :: Pinned(s, n) && n !in but ==> Pinned(t, n)
  }

  /** What a routine leaves that gave back all it took; it may unpin the blocks in but. */
  ghost predicate Settled(s: seq<Buf>, t: seq<Buf>, but: set<nat>) {
    Kept(s, t) && (Spare(s) ==> Spare(t)) && (Idle(s) ==> Idle(t)) && PinsKept(s, t, but)
  }

  lemma SettledSame(s: seq<Buf>, but: set<nat>)
    requires |s| == NBUF + 1
    ensures Settled(s, s, but)
  {
  }

  lemma SettledThen(s: seq<Buf>, t: seq<Buf>, u: seq<Buf>, a: set<nat>, b: set<nat>)
    requires Settled(s, t, a) && Settled(t, u, b)
    ensures Settled(s, u, a + b)
  {
    hide Pinned, Spare, Idle;
    forall i | 0 <= i < NBUF && s[i].locked ensures SameExceptLinks(s[i], u[i]) {
      assert SameExceptLinks(s[i], t[i]) && SameExceptLinks(t[i], u[i]);
    }
  }

  lemma KeptFree(s: seq<Buf>, t: seq<Buf>, n: nat)
    requires Kept(s, t) && FreeBlock(s, n)
    ensures FreeBlock(t, n)
  {
    assert forall i :: 0 <= i < NBUF && t[i].locked ==> SameExceptLinks(s[i], t[i]);
  }

  // ----- taking buffers and giving them back -----

  /** The buffers of held were taken by bread: each was its block's buffer, or an idle one. */
  ghost predicate TakenFrom(p: Buf, q: Buf) {
    && !p.locked && q.locked && q.valid && q.dev == ROOTDEV && q.refcnt > 0
    && if p.dev == q.dev && p.blockno == q.blockno then q.refcnt == p.refcnt + 1 && q.dirty == p.dirty
       else q.refcnt == 1 && !q.dirty && !InUse(p)
  }

  ghost predicate AllTaken(s: seq<Buf>, t: seq<Buf>, held: set<nat>) {
    && |s| == |t| == NBUF + 1 && (forall i :: i in held ==> i < NBUF)
    && (forall i :: 0 <= i < NBUF && i !in held ==> t[i] == s[i])
    && (forall i :: i in held ==> TakenFrom(s[i], t[i]))
  }

  /** brelse of a buffer that may have been written meanwhile, but not logged. */
  ghost predicate GivenBack(q: Buf, r: Buf) {
    !r.locked && r.refcnt == q.refcnt - 1 && (r.dirty ==> q.dirty) && r.valid == q.valid && Same(r, q.dev, q.blockno)
  }

  ghost predicate AllGivenBack(t: seq<Buf>, u: seq<Buf>, held: set<nat>) {
    && |t| == |u| == NBUF + 1 && (forall i :: i in held ==> i < NBUF && GivenBack(t[i], u[i]))
    && (forall i :: 0 <= i < NBUF && i !in held ==> SameExceptLinks(t[i], u[i]))
  }

  /** Writing a held buffer before it is given back changes nothing but its data and B_DIRTY. */
  lemma WrittenBack(s: seq<Buf>, t: seq<Buf>, u: seq<Buf>, held: set<nat>, b: nat)
    requires |s| == |t| == NBUF + 1 && b in held && b < NBUF && t == s[b := s[b].(data := t[b].data, dirty := false)]
    requires AllGivenBack(t, u, held)
    ensures AllGivenBack(s, u, held)
  {
  }

  ghost function BlocksOf(t: seq<Buf>, held: set<nat>): set<nat>
    requires forall i :: i in held ==> i < |t|
  {
    set i | i in held :: t[i].blockno
  }

  lemma GivesBack(s: seq<Buf>, t: seq<Buf>, u: seq<Buf>, held: set<nat>)
    requires AllTaken(s, t, held) && AllGivenBack(t, u, held)
    ensures Settled(s, u, BlocksOf(t, held))
  {
    forall i | 0 <= i < NBUF
      ensures u[i].locked == s[i].locked && (s[i].locked ==> SameExceptLinks(s[i], u[i]))
      ensures !InUse(s[i]) ==> !InUse(u[i])
    {
      BackToIdle(s, t, u, held, i);
    }
    assert forall i :: i in held ==> TakenFrom(s[i], t[i]) && t[i].blockno in BlocksOf(t, held);
    forall n: nat | Pinned(s, n) && n !in BlocksOf(t, held) ensures Pinned(u, n) {
      var i: nat :| Holds(s, i, n) && s[i].dirty;
      assert i !in held;
      assert SameExceptLinks(s[i], u[i]) && Holds(u, i, n);
    }
  }

  lemma BackToIdle(s: seq<Buf>, t: seq<Buf>, u: seq<Buf>, held: set<nat>, i: nat)
    requires AllTaken(s, t, held) && AllGivenBack(t, u, held) && i < NBUF
    ensures u[i].locked == s[i].locked && (s[i].locked ==> SameExceptLinks(s[i], u[i]))
    ensures !InUse(s[i]) ==> !InUse(u[i])
  {
    if i in held { assert TakenFrom(s[i], t[i]) && GivenBack(t[i], u[i]); }
  }

  lemma TakeOne(s: seq<Buf>, t: seq<Buf>, x: nat, a: nat)
    requires |t| == NBUF + 1 && x < NBUF && OthersSame(s, t, x) && Taken(s, t[x], x, a)
    ensures AllTaken(s, t, {x}) && BlocksOf(t, {x}) == {a}
  {
  }

  /** Two breads in a row, of a and then of b: two buffers, and b stays pinned if it was. */
  lemma TakeTwo(s: seq<Buf>, m: seq<Buf>, t: seq<Buf>, x: nat, y: nat, a: nat, b: nat)
    requires Unique(m) && |t| == NBUF + 1 && x < NBUF && y < NBUF && a != b
    requires OthersSame(s, m, x) && Taken(s, m[x], x, a)
    requires OthersSame(m, t, y) && Taken(m, t[y], y, b)
    ensures x != y && t[x] == m[x] && AllTaken(s, t, {x, y}) && BlocksOf(t, {x, y}) == {a, b}
    ensures Pinned(s, b) ==> t[y].dirty
  {
    if Pinned(s, b) {
      var j: nat :| Holds(s, j, b) && s[j].dirty;
      assert j != x && m[j] == s[j] && Same(m[j], ROOTDEV, b);
      assert j == y;
    }
  }

  /** After a bread of a, one of b finds a buffer: b is pinned, or all other buffers are idle. */
  lemma SecondServed(s: seq<Buf>, m: seq<Buf>, x: nat, a: nat, b: nat)
    requires OthersSame(s, m, x) && |m| == NBUF + 1 && x < NBUF && Taken(s, m[x], x, a) && a != b
    requires Pinned(s, b) || Idle(s)
    ensures exists i :: 0 <= i < NBUF && (Same(m[i], ROOTDEV, b) || !InUse(m[i]))
  {
    if Pinned(s, b) {
      var j: nat :| Holds(s, j, b) && s[j].dirty;
      assert m[j] == s[j];
    } else {
      var i := if x == 0 then 1 else 0;
      assert m[i] == s[i];
    }
  }
}
