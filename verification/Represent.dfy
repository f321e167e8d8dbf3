/** How inodes and blocks stand for logical nodes, and how blocks are shared out among inodes. */
module Represent {
  import opened Bytes
  import opened Layout
  import opened LogicalFs

  type Blocks = seq<seq<byte>>

  /** The disk size from which allocation cannot fail: 64 inodes with 10 pointers each. */
  const ENOUGH_BLOCKS: nat := 640

  ghost predicate Uniform(view: Blocks) {
    forall b | 0 <= b < |view| :: |view[b]| == BLOCK_SIZE
  }

  /** The pointers in use are block numbers. */
  ghost predicate Mapped(n: Inode, view: Blocks) {
    && Shaped(n) && Uniform(view) && BlocksFor(n.size) <= INODE_NUM_BLKS
    && forall k | 0 <= k < BlocksFor(n.size) :: n.blocks[k] < |view|
  }

  ghost predicate HoldsData(n: Inode, view: Blocks, data: seq<byte>)
    requires Mapped(n, view)
  {
    && n.size == |data|
    && forall p: nat | p < |data| :: view[n.blocks[p / BLOCK_SIZE]][p % BLOCK_SIZE] == data[p]
  }

  ghost predicate HoldsEntries(n: Inode, view: Blocks, entries: seq<DirEntry>)
    requires Mapped(n, view)
  {
    && n.size == DENTRY_BYTES * |entries|
    && forall e: nat | e < |entries| ::
         && NameAt(view[n.blocks[e / DIR_PAGE_ENTRIES]], e % DIR_PAGE_ENTRIES) == entries[e].name
         && IdAt(view[n.blocks[e / DIR_PAGE_ENTRIES]], e % DIR_PAGE_ENTRIES) == entries[e].id
  }

  ghost predicate Represents(n: Inode, view: Blocks, node: Node) {
    && Mapped(n, view)
    && match node
       case Reserved => false
       case File(data) => n.itype == FS_FILE && HoldsData(n, view, data)
       case Dir(entries) => n.itype == FS_DIR && HoldsEntries(n, view, entries)
  }

  /** Only the agreed part of the inode and the blocks it points to matter. */
  lemma RepresentsFrame(m: Inode, n: Inode, v: Blocks, w: Blocks, node: Node)
    requires Represents(m, v, node) && Agree(m, n)
    requires Uniform(w) && |v| == |w|
    requires forall k | 0 <= k < BlocksFor(m.size) && k < INODE_NUM_BLKS :: w[m.blocks[k]] == v[m.blocks[k]]
    ensures Represents(n, w, node)
  {
    match node {
      case File(data) =>
        forall p: nat | p < |data| ensures w[n.blocks[p / BLOCK_SIZE]][p % BLOCK_SIZE] == data[p] {
          assert p / BLOCK_SIZE < BlocksFor(n.size);
        }
      case Dir(entries) =>
        forall e: nat | e < |entries|
          ensures NameAt(w[n.blocks[e / DIR_PAGE_ENTRIES]], e % DIR_PAGE_ENTRIES) == entries[e].name
          ensures IdAt(w[n.blocks[e / DIR_PAGE_ENTRIES]], e % DIR_PAGE_ENTRIES) == entries[e].id
        {
          assert e / DIR_PAGE_ENTRIES < BlocksFor(n.size);
        }
      case Reserved =>
    }
  }

  // ----- ownership of blocks -----

  /** Pointer k of inode id is in use. */
  ghost predicate Claims(tab: seq<Inode>, count: nat, id: nat, k: nat) {
    && 1 <= id < count <= |tab|
    && k < BlocksFor(tab[id].size) && k < |tab[id].blocks|
  }

  ghost predicate Claimed(tab: seq<Inode>, count: nat, b: nat) {
    exists id: nat, k: nat :: Claims(tab, count, id, k) && tab[id].blocks[k] == b
  }

  /** Block b belongs to inode id. */
  ghost predicate Owns(tab: seq<Inode>, count: nat, id: nat, b: nat) {
    exists k: nat :: Claims(tab, count, id, k) && tab[id].blocks[k] == b
  }

  ghost predicate DisjointPointers(tab: seq<Inode>, count: nat) {
    forall id: nat, k: nat, id': nat, k': nat ::
      Claims(tab, count, id, k) && Claims(tab, count, id', k') && tab[id].blocks[k] == tab[id'].blocks[k'] ==>
        id == id' && k == k'
  }

  /** Pointers in use are distinct data blocks marked used; with enough blocks nothing else is. */
  ghost predicate LaidOut(tab: seq<Inode>, count: nat, numBlocks: nat, bmap: seq<byte>) {
    && |bmap| == BLOCK_SIZE && META_BLOCKS <= numBlocks
    && ShapedTable(tab) && count <= ITAB_SIZE
    && (forall id | 1 <= id < count :: BlocksFor(tab[id].size) <= INODE_NUM_BLKS)
    && DisjointPointers(tab, count)
    && (forall id: nat, k: nat :: Claims(tab, count, id, k) ==>
         && META_BLOCKS <= tab[id].blocks[k] < numBlocks && tab[id].blocks[k] < 8 * BLOCK_SIZE
         && IsSet(bmap, tab[id].blocks[k]))
    && (forall b: nat | b < META_BLOCKS :: IsSet(bmap, b))
    && (numBlocks >= ENOUGH_BLOCKS ==>
         forall b: nat | b < 8 * BLOCK_SIZE && IsSet(bmap, b) :: b < META_BLOCKS || Claimed(tab, count, b))
  }

  /** Two inodes never share a block. */
  lemma OneOwner(tab: seq<Inode>, count: nat, id: nat, id': nat, b: nat)
    requires DisjointPointers(tab, count) && Owns(tab, count, id, b) && Owns(tab, count, id', b)
    ensures id == id'
  {
  }

  ghost predicate OwnersKept(s: seq<Inode>, count: nat, t: seq<Inode>, count': nat) {
    forall id: nat, b: nat :: Owns(s, count, id, b) ==> Owns(t, count', id, b)
  }

  /** Equal pointers in use. */
  ghost predicate SamePointers(m: Inode, n: Inode) {
    && Shaped(m) && Shaped(n) && BlocksFor(m.size) == BlocksFor(n.size)
    && forall k | 0 <= k < BlocksFor(m.size) && k < INODE_NUM_BLKS :: m.blocks[k] == n.blocks[k]
  }

  /** Only the pointers in use matter to the layout. */
  lemma LaidOutFrame(s: seq<Inode>, t: seq<Inode>, count: nat, numBlocks: nat, bmap: seq<byte>)
    requires LaidOut(s, count, numBlocks, bmap) && ShapedTable(t)
    requires forall id | 1 <= id < count :: SamePointers(s[id], t[id])
    ensures LaidOut(t, count, numBlocks, bmap)
    ensures OwnersKept(s, count, t, count)
  {
    forall id: nat, k: nat
      ensures Claims(s, count, id, k) <==> Claims(t, count, id, k)
      ensures Claims(s, count, id, k) ==> s[id].blocks[k] == t[id].blocks[k]
    {
    }
    forall b: nat | Claimed(s, count, b) ensures Claimed(t, count, b) {
      var id: nat, k: nat :| Claims(s, count, id, k) && s[id].blocks[k] == b;
      assert Claims(t, count, id, k) && t[id].blocks[k] == b;
    }
    forall id: nat, b: nat | Owns(s, count, id, b) ensures Owns(t, count, id, b) {
      var k: nat :| Claims(s, count, id, k) && s[id].blocks[k] == b;
      assert Claims(t, count, id, k) && t[id].blocks[k] == b;
    }
  }

  /** A new, empty inode claims nothing. */
  lemma LaidOutWithOneMore(s: seq<Inode>, t: seq<Inode>, count: nat, numBlocks: nat, bmap: seq<byte>)
    requires LaidOut(s, count, numBlocks, bmap) && 1 <= count < ITAB_SIZE && ShapedTable(t)
    requires forall id | 1 <= id < count :: t[id] == s[id]
    requires t[count].size == 0
    ensures LaidOut(t, count + 1, numBlocks, bmap)
    ensures OwnersKept(s, count, t, count + 1)
  {
    forall id: nat, k: nat
      ensures Claims(s, count, id, k) <==> Claims(t, count + 1, id, k)
      ensures Claims(s, count, id, k) ==> s[id].blocks[k] == t[id].blocks[k]
    {
    }
    forall b: nat | Claimed(s, count, b) ensures Claimed(t, count + 1, b) {
      var id: nat, k: nat :| Claims(s, count, id, k) && s[id].blocks[k] == b;
      assert Claims(t, count + 1, id, k) && t[id].blocks[k] == b;
    }
    forall id: nat, b: nat | Owns(s, count, id, b) ensures Owns(t, count + 1, id, b) {
      var k: nat :| Claims(s, count, id, k) && s[id].blocks[k] == b;
      assert Claims(t, count + 1, id, k) && t[id].blocks[k] == b;
    }
  }

  // ----- there is always a free block on a disk of 640 blocks -----

  /** Numbers the metadata blocks 0..9 and pointer k of inode id as 10 * id + k. */
  ghost function Code(tab: seq<Inode>, count: nat, b: nat): (c: nat)
    requires b < META_BLOCKS || Claimed(tab, count, b)
  {
    if b < META_BLOCKS then b
    else
      var id: nat, k: nat :| Claims(tab, count, id, k) && tab[id].blocks[k] == b;
      10 * id + k
  }

  ghost function Below(n: nat): (r: set<nat>)
    ensures |r| == n && forall v: nat :: v in r <==> v < n
  {
    if n == 0 then {} else Below(n - 1) + {n - 1}
  }

  /** A map from [0, n) into [0, n) that misses a value is not injective. */
  lemma Pigeonhole(f: seq<nat>, n: nat, miss: nat)
    requires |f| == n && miss < n
    requires forall i | 0 <= i < n :: f[i] < n && f[i] != miss
    ensures exists i, j :: 0 <= i < j < n && f[i] == f[j]
  {
    if forall i, j | 0 <= i < j < n :: f[i] != f[j] {
      CardinalityOfImage(f);
      CardinalityLe(set i | 0 <= i < n :: f[i], Below(n) - {miss});
    }
  }

  lemma {:induction false} CardinalityOfImage(f: seq<nat>)
    requires forall i, j | 0 <= i < j < |f| :: f[i] != f[j]
    ensures |set i | 0 <= i < |f| :: f[i]| == |f|
  {
    var image := set i | 0 <= i < |f| :: f[i];
    if f != [] {
      var n := |f| - 1;
      var front := set i | 0 <= i < n :: f[..n][i];
      CardinalityOfImage(f[..n]);
      assert front == set i | 0 <= i < |f[..n]| :: f[..n][i];
      assert image == front + {f[n]};
    }
  }

  lemma {:induction false} CardinalityLe<T>(a: set<T>, b: set<T>)
    requires a <= b
    ensures |a| <= |b|
  {
    if a != {} {
      var x :| x in a;
      CardinalityLe(a - {x}, b - {x});
    }
  }

  /** Fewer than 640 blocks are in use as long as some inode has a pointer to spare. */
  lemma FreeBlockExists(tab: seq<Inode>, count: nat, numBlocks: nat, bmap: seq<byte>, id: nat)
    returns (free: nat)
    requires LaidOut(tab, count, numBlocks, bmap) && ENOUGH_BLOCKS <= numBlocks
    requires 1 <= id < count && BlocksFor(tab[id].size) < INODE_NUM_BLKS
    ensures free < ENOUGH_BLOCKS && !IsSet(bmap, free)
  {
    if forall b: nat | b < ENOUGH_BLOCKS :: IsSet(bmap, b) {
      var f := seq(ENOUGH_BLOCKS, b requires 0 <= b < ENOUGH_BLOCKS => Code(tab, count, b));
      var miss := 10 * id + 9;
      forall b: nat | b < ENOUGH_BLOCKS ensures f[b] < ENOUGH_BLOCKS && f[b] != miss {
        CodeIsBounded(tab, count, b, id);
      }
      forall i: nat, j: nat | i < j < ENOUGH_BLOCKS ensures f[i] != f[j] {
        if f[i] == f[j] {
          CodeIsInjective(tab, count, i, j);
        }
      }
      Pigeonhole(f, ENOUGH_BLOCKS, miss);
    }
    free :| free < ENOUGH_BLOCKS && !IsSet(bmap, free);
  }

  lemma CodeIsBounded(tab: seq<Inode>, count: nat, b: nat, id: nat)
    requires b < META_BLOCKS || Claimed(tab, count, b)
    requires ShapedTable(tab) && 1 <= id < count <= ITAB_SIZE && BlocksFor(tab[id].size) < INODE_NUM_BLKS
    ensures Code(tab, count, b) < ENOUGH_BLOCKS && Code(tab, count, b) != 10 * id + 9
  {
  }

  lemma CodeIsInjective(tab: seq<Inode>, count: nat, a: nat, b: nat)
    requires ShapedTable(tab) && count <= ITAB_SIZE
    requires a < META_BLOCKS || Claimed(tab, count, a)
    requires b < META_BLOCKS || Claimed(tab, count, b)
    requires Code(tab, count, a) == Code(tab, count, b)
    ensures a == b
  {
  }

  // ----- allocation -----

  /** Inode `file` with its first `n` pointers counted as in use. */
  ghost function Grown(tab: seq<Inode>, file: nat, node: Inode, n: nat): seq<Inode>
    requires file < |tab| && n <= INODE_NUM_BLKS
  {
    tab[file := node.(size := BLOCK_SIZE * n)]
  }

  /** Nothing allocated yet. */
  lemma GrowthStarts(tab: seq<Inode>, count: nat, numBlocks: nat, bmap: seq<byte>, file: nat, node: Inode)
    requires LaidOut(tab, count, numBlocks, bmap) && 1 <= file < count && Agree(node, tab[file])
    ensures BlocksFor(node.size) <= INODE_NUM_BLKS
    ensures LaidOut(Grown(tab, file, node, BlocksFor(node.size)), count, numBlocks, bmap)
  {
    LaidOutFrame(tab, Grown(tab, file, node, BlocksFor(node.size)), count, numBlocks, bmap);
  }

  /** Taking a free block for the next pointer keeps everything apart. */
  lemma TakeBlock(tab: seq<Inode>, count: nat, numBlocks: nat, bmap: seq<byte>, bmap': seq<byte>,
                  file: nat, node: Inode, i: nat, b: nat)
    requires 1 <= file < count <= |tab| == ITAB_SIZE && i < INODE_NUM_BLKS && Shaped(node)
    requires LaidOut(Grown(tab, file, node, i), count, numBlocks, bmap)
    requires |bmap'| == BLOCK_SIZE && b < numBlocks && b < 8 * BLOCK_SIZE && !IsSet(bmap, b)
    requires forall m: nat | m < 8 * BLOCK_SIZE :: IsSet(bmap', m) == (m == b || IsSet(bmap, m))
    ensures LaidOut(Grown(tab, file, node.(blocks := node.blocks[i := b]), i + 1), count, numBlocks, bmap')
  {
    var s := Grown(tab, file, node, i);
    var t := Grown(tab, file, node.(blocks := node.blocks[i := b]), i + 1);
    assert Shaped(t[file]) && BlocksFor(t[file].size) == i + 1;
    assert forall id | 0 <= id < ITAB_SIZE && id != file :: t[id] == s[id];
    forall id: nat, k: nat
      ensures Claims(t, count, id, k) <==> Claims(s, count, id, k) || (id == file && k == i)
      ensures Claims(s, count, id, k) ==> t[id].blocks[k] == s[id].blocks[k]
    {
    }
    assert t[file].blocks[i] == b >= META_BLOCKS;
    assert DisjointPointers(t, count) by {
      forall id: nat, k: nat | Claims(s, count, id, k) ensures s[id].blocks[k] != b {
        assert IsSet(bmap, s[id].blocks[k]);
      }
    }
    forall m: nat | Claimed(s, count, m) ensures Claimed(t, count, m) {
      var id: nat, k: nat :| Claims(s, count, id, k) && s[id].blocks[k] == m;
      assert Claims(t, count, id, k) && t[id].blocks[k] == m;
    }
    assert Claims(t, count, file, i);
    assert Claimed(t, count, b);
  }

  /** Marking more blocks used costs nothing on a disk too small for the no-leak guarantee. */
  lemma LeakIsHarmless(tab: seq<Inode>, count: nat, numBlocks: nat, bmap: seq<byte>, bmap': seq<byte>)
    requires LaidOut(tab, count, numBlocks, bmap) && |bmap'| == BLOCK_SIZE && numBlocks < ENOUGH_BLOCKS
    requires forall m: nat | m < 8 * BLOCK_SIZE && IsSet(bmap, m) :: IsSet(bmap', m)
    ensures LaidOut(tab, count, numBlocks, bmap')
  {
  }
}
