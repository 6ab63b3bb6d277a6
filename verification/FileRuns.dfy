/** The file system from mkfs on: what every sequence of operations of fs.c keeps. */
module FileRuns {
  import opened Blocks
  import opened FileLayout
  import opened FileContents
  import opened FileFrees
  import opened FileOperations

  /** Inode i holds block b at one of its places: direct, indirect, or in the indirect table. */
  ghost predicate HeldAt(sb: Super, store: Store, i: nat, k: nat, b: nat)
    requires sb.Valid() && |store| == sb.size
  {
    i < sb.ninodes && k < NSLOTS && DinodeOk(Table(sb, store)[i]) && Slot(store, Table(sb, store)[i], k) == b
  }

  /** A bitmap bit is set exactly for metadata and for blocks that some inode holds. */
  ghost predicate BitsExact(sb: Super, store: Store) {
    && sb.Valid() && |store| == sb.size
    && forall b :: 0 < b < sb.size ==> (Used(sb, store, b) <==> b < sb.datastart || exists i: nat, k: nat :: HeldAt(sb, store, i, k, b))
  }

  /** No block is held at two places, and no held block is metadata. */
  ghost predicate HeldOnce(sb: Super, store: Store)
    requires sb.Valid() && |store| == sb.size
  {
    forall i: nat, k: nat, j: nat, m: nat, b: nat ::
      b != 0 && HeldAt(sb, store, i, k, b) && HeldAt(sb, store, j, m, b) ==> i == j && k == m && sb.datastart <= b < sb.size
  }

  /** The invariant of the operations means exactly that. */
  lemma OwnedOnce(sb: Super, store: Store, owner: Owner)
    requires FsInv(sb, store, owner)
    ensures BitsExact(sb, store) && HeldOnce(sb, store)
  {
    hide Used, Slot, Exact, Table;
    forall b | 0 < b < sb.size
      ensures Used(sb, store, b) <==> b < sb.datastart || exists i: nat, k: nat :: HeldAt(sb, store, i, k, b)
    {
      if b in owner {
        assert HeldAt(sb, store, owner[b].0, owner[b].1, b);
      }
      if i: nat, k: nat :| HeldAt(sb, store, i, k, b) {
        assert b in owner;
      }
    }
  }

  /** mkfs: the bits of the metadata set, every inode free. */
  ghost predicate Formatted(sb: Super, store: Store) {
    && sb.Valid() && |store| == sb.size
    && (forall b :: 0 <= b < sb.size ==> (Used(sb, store, b) <==> b < sb.datastart))
    && (forall i :: 0 <= i < sb.ninodes ==> NoBlocks(Table(sb, store)[i]) && Table(sb, store)[i].typ == 0)
  }

  lemma FormattedInv(sb: Super, store: Store)
    requires Formatted(sb, store)
    ensures FsInv(sb, store, map[])
  {
    hide Used, Table;
    forall i | 0 <= i < sb.ninodes ensures InodeOk(store, Table(sb, store)[i]) {
      NoBlocksExact(store, Table(sb, store)[i]);
    }
  }

  // ----- every run -----

  ghost predicate Consistent(sb: Super, s: Store) {
    exists owner :: FsInv(sb, s, owner)
  }

  /** A chain of operations, each a sequence of block changes as the code makes them. */
  ghost predicate Chain(sb: Super, stores: seq<Store>, ops: seq<Operation>) {
    |stores| == |ops| + 1 && forall k :: 0 <= k < |ops| ==> Performs(sb, stores[k], ops[k], stores[k + 1])
  }

  lemma {:induction false} ChainKeeps(sb: Super, stores: seq<Store>, ops: seq<Operation>, k: nat)
    requires Chain(sb, stores, ops) && k < |stores| && Consistent(sb, stores[0])
    ensures Consistent(sb, stores[k])
  {
    hide FsInv, Performs;
    if k > 0 {
      ChainKeeps(sb, stores, ops, k - 1);
      var owner :| FsInv(sb, stores[k - 1], owner);
      assert Performs(sb, stores[k - 1], ops[k - 1], stores[k]);
      var owner' := OperationKeeps(sb, stores[k - 1], owner, ops[k - 1], stores[k]);
    }
  }

  /** From mkfs on, after every sequence of operations the bitmap is exact, no block is held at two
      places, and every file has exactly the blocks its size calls for. */
  lemma ReachableDisk(sb: Super, stores: seq<Store>, ops: seq<Operation>, k: nat) returns (owner: Owner)
    requires Chain(sb, stores, ops) && k < |stores| && Formatted(sb, stores[0])
    ensures FsInv(sb, stores[k], owner) && BitsExact(sb, stores[k]) && HeldOnce(sb, stores[k])
  {
    hide FsInv, BitsExact, HeldOnce, Formatted, Chain;
    FormattedInv(sb, stores[0]);
    ChainKeeps(sb, stores, ops, k);
    owner :| FsInv(sb, stores[k], owner);
    OwnedOnce(sb, stores[k], owner);
  }
}
