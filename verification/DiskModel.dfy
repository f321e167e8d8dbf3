/** When bitmaps, inode table and blocks, in memory or on disk, stand for a logical file system. */
module DiskModel {
  import opened Bytes
  import opened Layout
  import opened LogicalFs
  import opened Represent

  ghost predicate Model(nodes: Nodes, tab: seq<Inode>, view: Blocks, ibmap: seq<byte>, bbmap: seq<byte>, numBlocks: nat) {
    && WellFormed(nodes) && ShapedTable(tab) && Uniform(view) && |view| == numBlocks
    && InodesMarked(ibmap, |nodes|)
    && (forall id | 1 <= id < |nodes| :: Represents(tab[id], view, nodes[id]))
    && tab[0].itype == 0
    && LaidOut(tab, |nodes|, numBlocks, bbmap)
  }

  /** The inodes in use are the first `count`. */
  ghost predicate InodesMarked(ibmap: seq<byte>, count: nat) {
    |ibmap| == BLOCK_SIZE && forall id: nat | id < ITAB_SIZE :: IsSet(ibmap, id) == (id < count)
  }

  /** What may sit in the caches: directory pages of their owner, data blocks, allocated inodes. */
  ghost predicate CacheKeys(nodes: Nodes, tab: seq<Inode>, pages: set<(nat, nat)>, blocks: set<nat>, inodes: set<nat>) {
    && (forall d: nat, b: nat | (d, b) in pages ::
         d < |nodes| && nodes[d].Dir? && Owns(tab, |nodes|, d, b))
    && (forall b | b in blocks :: META_BLOCKS <= b)
    && (forall id | id in inodes :: id < |nodes|)
  }

  /** The inode table as a disk image holds it. */
  ghost function LoadedTable(view: Blocks): (tab: seq<Inode>)
    requires META_BLOCKS <= |view| && Uniform(view)
    ensures ShapedTable(tab)
  {
    seq(ITAB_SIZE, id requires 0 <= id < ITAB_SIZE => InodeAt(view[id / 8 + 2], id % 8))
  }

  /** The disk alone stands for `nodes`. */
  ghost predicate OnDisk(nodes: Nodes, view: Blocks, numBlocks: nat) {
    && META_BLOCKS <= |view| && Uniform(view)
    && Model(nodes, LoadedTable(view), view, view[1], view[0], numBlocks)
  }

  // ----- steps -----

  /** Agreeing tables, and blocks changed only where nothing points, stand for the same nodes. */
  lemma ModelFrame(nodes: Nodes, tab: seq<Inode>, view: Blocks, ibmap: seq<byte>, bbmap: seq<byte>, numBlocks: nat,
                   tab': seq<Inode>, view': Blocks)
    requires Model(nodes, tab, view, ibmap, bbmap, numBlocks)
    requires ShapedTable(tab') && forall id | 0 <= id < ITAB_SIZE :: Agree(tab[id], tab'[id])
    requires Uniform(view') && |view'| == |view|
    requires forall b | META_BLOCKS <= b < |view| :: view'[b] == view[b]
    ensures Model(nodes, tab', view', ibmap, bbmap, numBlocks)
    ensures OwnersKept(tab, |nodes|, tab', |nodes|)
  {
    LaidOutFrame(tab, tab', |nodes|, numBlocks, bbmap);
    forall id | 1 <= id < |nodes| ensures Represents(tab'[id], view', nodes[id]) {
      forall k | 0 <= k < BlocksFor(tab[id].size) && k < INODE_NUM_BLKS
        ensures view'[tab[id].blocks[k]] == view[tab[id].blocks[k]]
      {
        assert Claims(tab, |nodes|, id, k);
      }
      RepresentsFrame(tab[id], tab'[id], view, view', nodes[id]);
    }
  }

  /** Inodes other than `id` do not notice writes to its blocks. */
  lemma OthersKeep(nodes: Nodes, tab: seq<Inode>, view: Blocks, id: nat, node': Inode, view': Blocks,
                   numBlocks: nat, bbmap: seq<byte>, other: nat)
    requires 1 <= id < |nodes| && 1 <= other < |nodes| && other != id && ShapedTable(tab) && |nodes| <= ITAB_SIZE
    requires Represents(tab[other], view, nodes[other])
    requires LaidOut(tab[id := node'], |nodes|, numBlocks, bbmap)
    requires Uniform(view') && |view'| == |view|
    requires forall b: nat | b < |view| && !Owns(tab[id := node'], |nodes|, id, b) :: view'[b] == view[b]
    ensures Represents(tab[other], view', nodes[other])
  {
    var t := tab[id := node'];
    forall k | 0 <= k < BlocksFor(tab[other].size) && k < INODE_NUM_BLKS
      ensures view'[tab[other].blocks[k]] == view[tab[other].blocks[k]]
    {
      assert Claims(t, |nodes|, other, k);
      var b: nat := t[other].blocks[k];
      assert Owns(t, |nodes|, other, b);
      if Owns(t, |nodes|, id, b) {
        OneOwner(t, |nodes|, other, id, b);
      }
    }
    RepresentsFrame(tab[other], tab[other], view, view', nodes[other]);
  }

  lemma ModelAfterWrite(nodes: Nodes, tab: seq<Inode>, view: Blocks, ibmap: seq<byte>, bbmap: seq<byte>, numBlocks: nat,
                        file: nat, offset: nat, data: seq<byte>, node': Inode, view': Blocks, bbmap': seq<byte>)
    requires Model(nodes, tab, view, ibmap, bbmap, numBlocks) && CanWrite(nodes, file, offset, data)
    requires Shaped(node') && LaidOut(tab[file := node'], |nodes|, numBlocks, bbmap')
    requires Represents(node', view', File(Splice(nodes[file].data, offset, data))) && |view'| == |view|
    requires forall b: nat | b < |view| && !Owns(tab[file := node'], |nodes|, file, b) :: view'[b] == view[b]
    ensures Model(AfterWrite(nodes, file, offset, data), tab[file := node'], view', ibmap, bbmap', numBlocks)
  {
    WriteKeepsWellFormed(nodes, file, offset, data);
    var nodes', t := AfterWrite(nodes, file, offset, data), tab[file := node'];
    forall id | 1 <= id < |nodes'| ensures Represents(t[id], view', nodes'[id]) {
      if id != file {
        OthersKeep(nodes, tab, view, file, node', view', numBlocks, bbmap', id);
      }
    }
  }

  /** A directory with one more entry in the right page. */
  lemma EntryAdded(node: Inode, node': Inode, view: Blocks, view': Blocks, entries: seq<DirEntry>, name: Name, id: nat)
    requires Represents(node, view, Dir(entries)) && |entries| < 62 && GoodName(name) && id < 0x1_0000
    requires Shaped(node') && node'.itype == FS_DIR && node'.size == node.size + DENTRY_BYTES
    requires forall k | 0 <= k < BlocksFor(node.size) && k < INODE_NUM_BLKS :: node'.blocks[k] == node.blocks[k]
    requires forall j, k | 0 <= j < k < BlocksFor(node'.size) && k < INODE_NUM_BLKS :: node'.blocks[j] != node'.blocks[k]
    requires var at := |entries| / DIR_PAGE_ENTRIES;
             && node'.blocks[at] < |view|
             && view' == view[node'.blocks[at] :=
                  WithEntry(view[node'.blocks[at]], |entries| % DIR_PAGE_ENTRIES, name, id)]
    ensures Represents(node', view', Dir(entries + [DirEntry(name, id)]))
  {
    var at, slot := |entries| / DIR_PAGE_ENTRIES, |entries| % DIR_PAGE_ENTRIES;
    var blk := node'.blocks[at];
    EntryRoundTrip(view[blk], slot, name, id);
    var all := entries + [DirEntry(name, id)];
    assert BlocksFor(node'.size) == at + 1;
    forall k | 0 <= k < BlocksFor(node'.size) ensures node'.blocks[k] < |view'| {
      if k < at {
        assert node'.blocks[k] == node.blocks[k];
      }
    }
    forall e: nat | e < |all|
      ensures NameAt(view'[node'.blocks[e / DIR_PAGE_ENTRIES]], e % DIR_PAGE_ENTRIES) == all[e].name
      ensures IdAt(view'[node'.blocks[e / DIR_PAGE_ENTRIES]], e % DIR_PAGE_ENTRIES) == all[e].id
    {
      if e < |entries| {
        var k := e / DIR_PAGE_ENTRIES;
        assert k < BlocksFor(node.size);
        assert node'.blocks[k] == node.blocks[k];
      }
    }
  }

  /** The directory's half of a creation: one more entry, at most one more pointer in use. */
  lemma DirBecomes(nodes: Nodes, dir: nat, name: Name, tab: seq<Inode>, view: Blocks, view': Blocks,
                   n: Inode, n': Inode, at: nat, numBlocks: nat, bbmap: seq<byte>)
    requires 1 <= dir < |nodes| < ITAB_SIZE == |tab| && nodes[dir].Dir? && |nodes[dir].entries| < 62 && GoodName(name)
    requires Represents(tab[dir], view, nodes[dir]) && Agree(n, tab[dir]) && ShapedTable(tab)
    requires at == n.size / BLOCK_SIZE && n' == n.(size := n.size + DENTRY_BYTES) && at < INODE_NUM_BLKS
    requires LaidOut(Grown(tab, dir, n, at + 1), |nodes|, numBlocks, bbmap)
    requires n.blocks[at] < |view|
    requires view' == view[n.blocks[at] :=
                WithEntry(view[n.blocks[at]], n.size % BLOCK_SIZE / DENTRY_BYTES, name, |nodes|)]
    ensures LaidOut(tab[dir := n'], |nodes|, numBlocks, bbmap)
    ensures Represents(n', view', Dir(nodes[dir].entries + [DirEntry(name, |nodes|)]))
    ensures Owns(tab[dir := n'], |nodes|, dir, n.blocks[at])
    ensures BlocksFor(tab[dir].size) <= BlocksFor(n'.size) == at + 1
  {
    hide WellFormed;
    var t := tab[dir := n'];
    assert BlocksFor(n'.size) == at + 1;
    LaidOutFrame(Grown(tab, dir, n, at + 1), t, |nodes|, numBlocks, bbmap);
    forall j: nat, k: nat | j < k < at + 1 ensures n'.blocks[j] != n'.blocks[k] {
      assert Claims(t, |nodes|, dir, j) && Claims(t, |nodes|, dir, k);
    }
    EntryAdded(tab[dir], n', view, view', nodes[dir].entries, name, |nodes|);
    assert Claims(t, |nodes|, dir, at) && t[dir].blocks[at] == n.blocks[at];
  }

  lemma ModelAfterCreate(nodes: Nodes, tab: seq<Inode>, view: Blocks, ibmap: seq<byte>, bbmap: seq<byte>, numBlocks: nat,
                         dir: nat, name: Name, leaf: Node, node': Inode, leafNode: Inode, view': Blocks,
                         ibmap': seq<byte>, bbmap': seq<byte>)
    requires Model(nodes, tab, view, ibmap, bbmap, numBlocks) && CanCreate(nodes, dir, name) && 1 <= dir
    requires Shaped(node') && LaidOut(tab[dir := node'], |nodes|, numBlocks, bbmap')
    requires Represents(node', view', Dir(nodes[dir].entries + [DirEntry(name, |nodes|)])) && |view'| == |view|
    requires forall b: nat | b < |view| && !Owns(tab[dir := node'], |nodes|, dir, b) :: view'[b] == view[b]
    requires Shaped(leafNode) && leafNode.size == 0
    requires (leaf == File([]) && leafNode.itype == FS_FILE) || (leaf == Dir([]) && leafNode.itype == FS_DIR)
    requires |ibmap'| == BLOCK_SIZE && forall id: nat | id < ITAB_SIZE :: IsSet(ibmap', id) == (id == |nodes| || IsSet(ibmap, id))
    ensures Model(AfterCreate(nodes, dir, name, leaf), tab[dir := node'][|nodes| := leafNode], view', ibmap', bbmap', numBlocks)
    ensures OwnersKept(tab[dir := node'], |nodes|, tab[dir := node'][|nodes| := leafNode], |nodes| + 1)
  {
    CreateKeepsWellFormed(nodes, dir, name, leaf);
    var t := tab[dir := node'];
    var nodes', t' := AfterCreate(nodes, dir, name, leaf), t[|nodes| := leafNode];
    LaidOutWithOneMore(t, t', |nodes|, numBlocks, bbmap');
    assert InodesMarked(ibmap', |nodes'|);
    forall id | 1 <= id < |nodes'| ensures Represents(t'[id], view', nodes'[id]) {
      if id == dir {
        assert t'[id] == node' && nodes'[id] == Dir(nodes[dir].entries + [DirEntry(name, |nodes|)]);
      } else if id < |nodes| {
        assert t'[id] == tab[id] && nodes'[id] == nodes[id];
        OthersKeep(nodes, tab, view, dir, node', view', numBlocks, bbmap', id);
      } else {
        EmptyNode(leafNode, view', leaf);
      }
    }
  }

  lemma EmptyNode(n: Inode, view: Blocks, leaf: Node)
    requires Shaped(n) && n.size == 0 && Uniform(view)
    requires (leaf == File([]) && n.itype == FS_FILE) || (leaf == Dir([]) && n.itype == FS_DIR)
    ensures Represents(n, view, leaf)
  {
  }

  /** Two marked inodes and the metadata blocks are an empty file system. */
  lemma FormattedModel(tab: seq<Inode>, view: Blocks, ibmap: seq<byte>, bbmap: seq<byte>, numBlocks: nat)
    requires ShapedTable(tab) && Uniform(view) && |view| == numBlocks >= META_BLOCKS
    requires InodesMarked(ibmap, 2)
    requires |bbmap| == BLOCK_SIZE && forall b: nat | b < 8 * BLOCK_SIZE :: IsSet(bbmap, b) == (b < META_BLOCKS)
    requires tab[0].itype == 0 && tab[1].itype == FS_DIR && tab[1].size == 0
    ensures Model(INITIAL, tab, view, ibmap, bbmap, numBlocks)
  {
    InitialWellFormed();
    assert forall id: nat, k: nat :: !Claims(tab, 2, id, k);
    assert Represents(tab[1], view, Dir([]));
  }

  /** Cache keys stay legal when owners keep their blocks. */
  lemma CacheKeysFrame(nodes: Nodes, tab: seq<Inode>, nodes': Nodes, tab': seq<Inode>,
                       pages: set<(nat, nat)>, blocks: set<nat>, inodes: set<nat>)
    requires CacheKeys(nodes, tab, pages, blocks, inodes)
    requires |nodes| <= |nodes'| && OwnersKept(tab, |nodes|, tab', |nodes'|)
    requires forall d | 0 <= d < |nodes| && nodes[d].Dir? :: nodes'[d].Dir?
    ensures CacheKeys(nodes', tab', pages, blocks, inodes)
  {
  }

  /** An owned block is a data block. */
  lemma OwnedIsData(tab: seq<Inode>, count: nat, numBlocks: nat, bmap: seq<byte>, id: nat, b: nat)
    requires LaidOut(tab, count, numBlocks, bmap) && Owns(tab, count, id, b)
    ensures META_BLOCKS <= b < numBlocks && 1 <= id < count
  {
  }

  /** One more page of its owner, and data blocks, may enter the caches. */
  lemma CacheKeysGrow(nodes: Nodes, tab: seq<Inode>, dir: nat, b: nat, pages: set<(nat, nat)>, pages': set<(nat, nat)>,
                      blocks: set<nat>, inodes: set<nat>)
    requires CacheKeys(nodes, tab, pages, {}, inodes)
    requires dir < |nodes| && nodes[dir].Dir? && Owns(tab, |nodes|, dir, b) && pages' <= pages + {(dir, b)}
    requires forall c | c in blocks :: META_BLOCKS <= c
    ensures CacheKeys(nodes, tab, pages', blocks, inodes)
  {
  }

  /** One more allocated inode, and data blocks, may enter the caches. */
  lemma CacheKeysReads(nodes: Nodes, tab: seq<Inode>, pages: set<(nat, nat)>, blocks: set<nat>, blocks': set<nat>,
                       inodes: set<nat>, inodes': set<nat>, id: nat)
    requires CacheKeys(nodes, tab, pages, blocks, inodes)
    requires id < |nodes| && inodes' <= inodes + {id} && forall b | b in blocks' :: META_BLOCKS <= b
    ensures CacheKeys(nodes, tab, pages, blocks', inodes')
  {
  }

  /** A file's new pointers take nothing from any directory. */
  lemma DirOwnersKept(nodes: Nodes, tab: seq<Inode>, t: seq<Inode>, file: nat,
                      pages: set<(nat, nat)>, blocks: set<nat>, inodes: set<nat>)
    requires CacheKeys(nodes, tab, pages, blocks, inodes)
    requires file < |nodes| <= |tab| == |t| && nodes[file].File? && t == tab[file := t[file]]
    ensures CacheKeys(nodes, t, pages, blocks, inodes)
  {
    forall d: nat, b: nat | (d, b) in pages ensures Owns(t, |nodes|, d, b) {
      var k: nat :| Claims(tab, |nodes|, d, k) && tab[d].blocks[k] == b;
      assert Claims(t, |nodes|, d, k) && t[d].blocks[k] == b;
    }
  }

  lemma KeysAfterWrite(nodes: Nodes, tab: seq<Inode>, file: nat, node': Inode, offset: nat, data: seq<byte>,
                       pages: set<(nat, nat)>, blocks: set<nat>, inodes: set<nat>)
    requires CacheKeys(nodes, tab, pages, blocks, inodes)
    requires file < |nodes| <= |tab| && nodes[file].File?
    ensures CacheKeys(AfterWrite(nodes, file, offset, data), tab[file := node'], pages, blocks, inodes)
  {
    var t := tab[file := node'];
    DirOwnersKept(nodes, tab, t, file, pages, blocks, inodes);
    CacheKeysFrame(nodes, t, AfterWrite(nodes, file, offset, data), t, pages, blocks, inodes);
  }

  /** A directory with more pointers in use keeps the ones it had. */
  lemma DirGrows(nodes: Nodes, tab: seq<Inode>, t: seq<Inode>, dir: nat, pages: set<(nat, nat)>, inodes: set<nat>)
    requires CacheKeys(nodes, tab, pages, {}, inodes)
    requires dir < |nodes| <= |tab| == |t| && t == tab[dir := t[dir]] && Shaped(t[dir]) && Shaped(tab[dir])
    requires BlocksFor(tab[dir].size) <= BlocksFor(t[dir].size)
    requires forall k | 0 <= k < BlocksFor(tab[dir].size) && k < INODE_NUM_BLKS :: t[dir].blocks[k] == tab[dir].blocks[k]
    ensures CacheKeys(nodes, t, pages, {}, inodes)
  {
    forall d: nat, b: nat | (d, b) in pages ensures Owns(t, |nodes|, d, b) {
      var k: nat :| Claims(tab, |nodes|, d, k) && tab[d].blocks[k] == b;
      assert Claims(t, |nodes|, d, k) && t[d].blocks[k] == b;
    }
  }

  /** The stored inode table is this one. */
  ghost predicate TableStored(tab: seq<Inode>, view: Blocks)
    requires ShapedTable(tab) && META_BLOCKS <= |view|
  {
    forall b | 2 <= b < META_BLOCKS :: view[b] == TableBlock(tab, b - 2)
  }

  lemma LoadsBack(tab: seq<Inode>, view: Blocks)
    requires ShapedTable(tab) && META_BLOCKS <= |view| && Uniform(view) && TableStored(tab, view)
    ensures LoadedTable(view) == tab
  {
    var t := LoadedTable(view);
    forall id | 0 <= id < ITAB_SIZE ensures t[id] == tab[id] {
      var b := id / 8 + 2;
      assert view[b] == TableBlock(tab, id / 8);
      TableRoundTrip(tab, id, view[b]);
    }
  }

  /** Once bitmaps and table are stored, the disk stands for what memory stands for. */
  lemma StoredIsOnDisk(nodes: Nodes, tab: seq<Inode>, view: Blocks, ibmap: seq<byte>, bbmap: seq<byte>, numBlocks: nat)
    requires Model(nodes, tab, view, ibmap, bbmap, numBlocks) && META_BLOCKS <= numBlocks
    requires view[0] == bbmap && view[1] == ibmap && TableStored(tab, view)
    ensures OnDisk(nodes, view, numBlocks)
  {
    LoadsBack(tab, view);
  }
}
