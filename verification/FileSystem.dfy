/** The file system: bitmaps, inode table and files over the three caches. */
module FileSystem {
  import opened Options
  import opened Bytes
  import opened BlockStore
  import opened Cache
  import opened Lru
  import opened Layout
  import opened LogicalFs
  import opened Represent
  import opened DiskModel
  import opened FileBytes
  import opened NameTree
  import Paths
  import BC = BlockCache
  import DC = DirCache
  import IC = InodeCache

  /** How a call ends: with 0, with -1, or by leaving the process. */
  datatype Status = Done | Failed | Aborted

  /** memcpy into a whole buffer. */
  method Fill(a: array<byte>, s: seq<byte>)
    requires a.Length == |s|
    modifies a
    ensures a[..] == s
  {
    forall i | 0 <= i < |s| {
      a[i] := s[i];
    }
  }

  /** One block of the inode table, decoded in place. */
  method DecodeInto(tab: array<Inode>, i: nat, block: seq<byte>)
    requires tab.Length == ITAB_SIZE && i < ITAB_NUM_BLKS && |block| == BLOCK_SIZE
    modifies tab
    ensures forall id | 0 <= id < ITAB_SIZE ::
              tab[id] == if id / 8 == i then InodeAt(block, id % 8) else old(tab[id])
  {
    for j := 0 to 8
      invariant forall k | 0 <= k < j :: tab[8 * i + k] == InodeAt(block, k)
      invariant forall id | 0 <= id < ITAB_SIZE && !(8 * i <= id < 8 * i + j) :: tab[id] == old(tab[id])
    {
      tab[8 * i + j] := InodeAt(block, j);
    }
    forall id | 0 <= id < ITAB_SIZE && id / 8 == i ensures tab[id] == InodeAt(block, id % 8) {
      assert id == 8 * i + id % 8;
    }
  }

  /** The default cache sizes. */
  const BLOCK_CACHE_SIZE: nat := 10
  const INODE_CACHE_SIZE: nat := 4
  const DIR_CACHE_SIZE: nat := 4

  class Fs {
    const disk: BlockStore.Blocks
    const clock: LruClock
    const bc: BC.BCache
    const dc: DC.DCache
    const ic: IC.ICache
    const blkBmap: array<byte>
    const inodeBmap: array<byte>
    const inodeTab: array<Inode>

    /** The logical file system that all of the above stands for. */
    ghost var nodes: Nodes

    ghost predicate Built() {
      && disk.blockSize == BLOCK_SIZE && META_BLOCKS <= disk.numBlocks
      && dc.bc == bc && bc.disk == disk && bc.clock == clock && ic.clock == clock && ic.tab == inodeTab
      && blkBmap.Length == BLOCK_SIZE && inodeBmap.Length == BLOCK_SIZE && inodeTab.Length == ITAB_SIZE
      && blkBmap != inodeBmap && blkBmap != disk.bytes && inodeBmap != disk.bytes
      && ic.slots.Length == INODE_CACHE_SIZE
    }

    ghost function Repr(): set<object> {
      {dc, dc.slots, bc, bc.slots, clock, disk, disk.bytes, ic.slots, inodeTab, blkBmap, inodeBmap}
    }

    /** The cache stack is sound. */
    ghost predicate Ready()
      reads Repr()
    {
      Built() && dc.Valid() && ic.Valid()
    }

    /** Memory stands for `nodes`, and the caches hold only what they should. */
    ghost predicate Consistent()
      reads this, Repr()
    {
      && Ready()
      && Model(nodes, inodeTab[..], dc.view, inodeBmap[..], blkBmap[..], disk.numBlocks)
      && CacheKeys(nodes, inodeTab[..], dc.Pages(), bc.Cached(), ic.Cached())
    }

    /** Between operations: nothing is dirty, and the disk alone stands for the same nodes. */
    ghost predicate Valid()
      reads this, Repr()
    {
      && Consistent() && dc.Clean() && ic.Clean()
      && OnDisk(nodes, disk.view, disk.numBlocks)
    }

    /** The block bitmap on the disk is the one in memory. */
    ghost predicate Saved()
      reads this, Repr()
    {
      0 < |dc.view| && dc.view[0] == blkBmap[..]
    }

    // ----- mounting -----

    constructor Assemble(dc: DC.DCache, ic: IC.ICache, blkBmap: array<byte>, inodeBmap: array<byte>)
      ensures this.dc == dc && this.ic == ic && this.blkBmap == blkBmap && this.inodeBmap == inodeBmap
      ensures bc == dc.bc && disk == dc.bc.disk && clock == dc.bc.clock && inodeTab == ic.tab
    {
      this.dc, this.bc, this.disk, this.clock := dc, dc.bc, dc.bc.disk, dc.bc.clock;
      this.ic, this.inodeTab := ic, ic.tab;
      this.blkBmap, this.inodeBmap := blkBmap, inodeBmap;
      this.nodes := [];
    }

    /** The zeroed structure with empty caches. */
    static method Attach(disk: BlockStore.Blocks) returns (fs: Fs)
      requires disk.Valid() && disk.blockSize == BLOCK_SIZE && META_BLOCKS <= disk.numBlocks
      ensures fresh(fs) && fs.disk == disk && fresh(fs.Repr() - {disk, disk.bytes})
      ensures fs.Ready() && fs.dc.Clean() && fs.ic.Clean() && fs.dc.view == disk.view
      ensures fs.dc.Pages() == {} && fs.dc.Cached() == {} && fs.bc.Cached() == {} && fs.ic.Cached() == {}
    {
      var dc := EmptyCaches(disk);
      var ic := EmptyInodes(dc.bc.clock);
      var blkBmap := new byte[BLOCK_SIZE](_ => 0);
      var inodeBmap := new byte[BLOCK_SIZE](_ => 0);
      fs := new Fs.Assemble(dc, ic, blkBmap, inodeBmap);
    }

    static method EmptyCaches(disk: BlockStore.Blocks) returns (dc: DC.DCache)
      requires disk.Valid()
      ensures fresh(dc) && fresh(dc.slots) && fresh(dc.bc) && fresh(dc.bc.slots) && fresh(dc.bc.clock)
      ensures dc.bc.disk == disk && dc.Valid() && dc.Clean() && dc.view == disk.view
      ensures dc.Pages() == {} && dc.Cached() == {} && dc.bc.Cached() == {}
    {
      var clock := new LruClock();
      var bc := new BC.BCache(disk, clock, BLOCK_CACHE_SIZE);
      dc := new DC.DCache(bc, DIR_CACHE_SIZE);
    }

    static method EmptyInodes(clock: LruClock) returns (ic: IC.ICache)
      ensures fresh(ic) && fresh(ic.slots) && fresh(ic.tab)
      ensures ic.clock == clock && ic.Valid() && ic.Clean() && ic.Cached() == {} && ic.slots.Length == INODE_CACHE_SIZE
    {
      var zero := Inode(0, 0, seq(INODE_NUM_BLKS, _ => 0), seq(4, _ => 0));
      var tab := new Inode[ITAB_SIZE](_ => zero);
      ic := new IC.ICache(tab, clock, INODE_CACHE_SIZE);
    }

    /** A disk that stands for some file system is mounted as that file system. */
    static method Mount(disk: BlockStore.Blocks, ghost nodes: Nodes) returns (fs: Fs)
      requires disk.Valid() && disk.blockSize == BLOCK_SIZE && META_BLOCKS <= disk.numBlocks
      ensures fresh(fs) && fs.disk == disk && fs.nodes == nodes && fresh(fs.Repr() - {disk, disk.bytes})
      ensures fs.Ready() && fs.dc.Clean() && fs.ic.Clean() && fs.dc.view == disk.view
      ensures fs.dc.Pages() == {} && fs.dc.Cached() == {} && fs.bc.Cached() == {} && fs.ic.Cached() == {}
      ensures Uniform(disk.view) && fs.inodeTab[..] == LoadedTable(disk.view)
      ensures fs.blkBmap[..] == disk.view[0] && fs.inodeBmap[..] == disk.view[1]
      ensures OnDisk(nodes, disk.view, disk.numBlocks) ==> fs.Valid()
    {
      hide Fs.Ready, Fs.Valid, Model, OnDisk, Uniform, LoadedTable;
      fs := Reload(disk);
      fs.nodes := nodes;
      fs.LoadedIsValid();
    }

    static method Reload(disk: BlockStore.Blocks) returns (fs: Fs)
      requires disk.Valid() && disk.blockSize == BLOCK_SIZE && META_BLOCKS <= disk.numBlocks
      ensures fresh(fs) && fs.disk == disk && fresh(fs.Repr() - {disk, disk.bytes})
      ensures fs.Ready() && fs.dc.Clean() && fs.ic.Clean() && fs.dc.view == disk.view
      ensures fs.dc.Pages() == {} && fs.dc.Cached() == {} && fs.bc.Cached() == {} && fs.ic.Cached() == {}
      ensures Uniform(disk.view) && fs.inodeTab[..] == LoadedTable(disk.view)
      ensures fs.blkBmap[..] == disk.view[0] && fs.inodeBmap[..] == disk.view[1]
    {
      hide Uniform, LoadedTable;
      fs := Attach(disk);
      fs.Load();
    }

    lemma LoadedIsValid()
      requires Ready() && dc.Clean() && ic.Clean() && dc.view == disk.view && Uniform(disk.view)
      requires dc.Pages() == {} && bc.Cached() == {} && ic.Cached() == {} && inodeTab[..] == LoadedTable(disk.view)
      requires blkBmap[..] == disk.view[0] && inodeBmap[..] == disk.view[1]
      ensures OnDisk(nodes, disk.view, disk.numBlocks) ==> Valid()
    {
      hide Model;
    }

    /** Between operations the disk is enough: mounting it afresh, with empty caches, gives a file
        system that stands for the same nodes. */
    static method Remount(fs: Fs) returns (again: Fs)
      requires fs.Valid()
      ensures fresh(again) && again.disk == fs.disk && again.Valid() && again.nodes == fs.nodes
    {
      hide Model;
      again := Mount(fs.disk, fs.nodes);
    }

    /** fsi_load_fsdata. */
    method Load()
      requires Ready() && ic.Cached() == {}
      modifies blkBmap, inodeBmap, inodeTab
      ensures Ready() && Uniform(disk.view)
      ensures blkBmap[..] == disk.view[0] && inodeBmap[..] == disk.view[1] && inodeTab[..] == LoadedTable(disk.view)
    {
      var _, b0 := disk.Read(0);
      Fill(blkBmap, b0);
      var _, b1 := disk.Read(1);
      Fill(inodeBmap, b1);
      assert Uniform(disk.view) by {
        forall b | 0 <= b < |disk.view| ensures |disk.view[b]| == BLOCK_SIZE {
        }
      }
      assert forall i | 0 <= i < ic.slots.Length && ic.slots[i].valid :: ic.slots[..][i].addr in ic.Cached();
      LoadTable();
    }

    method LoadTable()
      requires Built() && disk.Valid() && Uniform(disk.view)
      modifies inodeTab
      ensures inodeTab[..] == LoadedTable(disk.view)
    {
      for i := 0 to ITAB_NUM_BLKS
        invariant disk.Valid()
        invariant forall id | 0 <= id < 8 * i :: inodeTab[id] == InodeAt(disk.view[id / 8 + 2], id % 8)
      {
        var _, block := disk.Read(i + 2);
        DecodeInto(inodeTab, i, block);
      }
    }

    // ----- the caches as one -----

    /** ic_get. */
    method GetInode(id: nat) returns (s: nat)
      requires Ready() && id < ITAB_SIZE
      modifies ic.slots, clock, inodeTab
      ensures Ready() && ic.At(s, id)
      ensures forall i: nat | old(ic.At(i, id)) :: s == i && ic.slots[s].value == old(ic.slots[i].value)
      ensures forall k | 0 <= k < ITAB_SIZE :: Agree(old(inodeTab[k]), inodeTab[k])
      ensures ic.Cached() <= old(ic.Cached()) + {id}
      ensures old(ic.Clean()) ==> ic.Clean() && inodeTab[..] == old(inodeTab[..])
      ensures old(ic.Clean()) ==> ReadStep(old(ic.slots[..]), ic.slots[..], id, clock.value)
      ensures old(clock.value) < clock.value
      ensures old(ic.Flat(ROOT)) ==> ic.Flat(ROOT)
    {
      s := ic.Get(id);
      StampKept(dc.slots[..], dc.slots[..], old(clock.value), clock.value);
      StampKept(bc.slots[..], bc.slots[..], old(clock.value), clock.value);
    }

    /** A pointer stored past the used part of a cached inode. */
    method StorePointer(s: nat, k: nat, b: u32)
      requires Ready() && s < ic.slots.Length && ic.slots[s].valid && k < INODE_NUM_BLKS
      requires BlocksFor(ic.slots[s].value.size) <= k
      modifies ic.slots
      ensures Ready() && ic.At(s, old(ic.slots[s].addr))
      ensures ic.slots[s].value == old(ic.slots[s].value).(blocks := old(ic.slots[s].value.blocks)[k := b])
      ensures ic.Cached() == old(ic.Cached()) && (old(ic.Clean()) ==> ic.Clean())
    {
      var n := ic.slots[s].value;
      ic.Poke(s, n.(blocks := n.blocks[k := b]));
    }

    /** A cached inode rewritten and declared dirty. */
    method UpdateInode(s: nat, id: nat, n: Inode)
      requires Ready() && ic.At(s, id) && Shaped(n)
      modifies ic.slots, inodeTab
      ensures Ready() && ic.At(s, id) && ic.slots[s].value == n
      ensures inodeTab[..] == old(inodeTab[..])[id := n]
      ensures ic.Cached() == old(ic.Cached())
      ensures old(ic.Flat(ROOT)) && (id == ROOT || Second(n) == 0) ==> ic.Flat(ROOT)
    {
      ic.Poke(s, n);
      assert ic.slots[..][s].valid;
      ic.Dirty(id);
    }

    /** bc_read of a file block. */
    method ReadBlock(b: nat) returns (block: seq<byte>)
      requires Ready() && b < disk.numBlocks && b !in dc.Cached()
      modifies dc, bc, bc.slots, clock, disk, disk.bytes
      ensures Ready() && block == dc.view[b] && dc.view == old(dc.view)
      ensures bc.Cached() <= old(bc.Cached()) + {b}
      ensures old(dc.Clean()) ==> dc.Clean() && disk.view == old(disk.view)
    {
      block := dc.ReadData(b);
      StampKept(ic.slots[..], ic.slots[..], old(clock.value), clock.value);
    }

    /** bc_write of a file block. */
    method WriteBlock(b: nat, block: seq<byte>)
      requires Ready() && b < disk.numBlocks && b !in dc.Cached() && |block| == BLOCK_SIZE
      modifies dc, bc, bc.slots, clock, disk, disk.bytes
      ensures Ready() && dc.view == old(dc.view)[b := block]
      ensures bc.Cached() <= old(bc.Cached()) + {b}
    {
      dc.WriteData(b, block);
      StampKept(ic.slots[..], ic.slots[..], old(clock.value), clock.value);
    }

    /** dc_read. */
    method ReadPage(dir: nat, b: nat) returns (page: seq<byte>)
      requires Ready() && b < disk.numBlocks && dc.OnlyFor(dir, b)
      modifies dc, dc.slots, bc, bc.slots, clock, disk, disk.bytes
      ensures Ready() && page == dc.view[b] && dc.view == old(dc.view)
      ensures dc.Pages() <= old(dc.Pages()) + {(dir, b)} && (dir, b) in dc.Pages()
      ensures bc.Cached() <= old(bc.Cached() + dc.Cached()) + {b}
      ensures old(dc.Clean()) ==> dc.Clean() && disk.view == old(disk.view)
    {
      page := dc.Read(dir, b);
      StampKept(ic.slots[..], ic.slots[..], old(clock.value), clock.value);
    }

    /** dc_write. */
    method WritePage(dir: nat, b: nat, page: seq<byte>)
      requires Ready() && b < disk.numBlocks && dc.OnlyFor(dir, b) && |page| == BLOCK_SIZE
      modifies dc, dc.slots, bc, bc.slots, clock, disk, disk.bytes
      ensures Ready() && dc.view == old(dc.view)[b := page]
      ensures dc.Pages() <= old(dc.Pages()) + {(dir, b)}
      ensures bc.Cached() <= old(bc.Cached() + dc.Cached())
    {
      dc.Write(dir, b, page);
      StampKept(ic.slots[..], ic.slots[..], old(clock.value), clock.value);
    }

    /** The flushes of fsi_store_fsdata, inodes before pages before blocks: nothing stays dirty. */
    method FlushCaches()
      requires Ready()
      modifies dc, dc.slots, bc, bc.slots, clock, disk, disk.bytes, ic.slots, inodeTab
      ensures Ready() && dc.Clean() && ic.Clean()
      ensures dc.view == old(dc.view) == bc.view == disk.view
      ensures forall k | 0 <= k < ITAB_SIZE :: Agree(old(inodeTab[k]), inodeTab[k])
      ensures dc.Pages() == old(dc.Pages()) && dc.Cached() == old(dc.Cached()) && ic.Cached() == old(ic.Cached())
      ensures bc.Cached() <= old(bc.Cached() + dc.Cached())
      ensures old(ic.Flat(ROOT)) ==> ic.Flat(ROOT)
    {
      ic.FlushAll();
      FlushPages();
      FlushBlocks();
      StampKept(ic.slots[..], ic.slots[..], old(clock.value), clock.value);
    }

    method FlushPages()
      requires Built() && dc.Valid()
      modifies dc.slots, bc, bc.slots, clock, disk, disk.bytes
      ensures dc.Valid() && AllClean(dc.slots[..]) && bc.view == dc.view
      ensures dc.Pages() == old(dc.Pages()) && dc.Cached() == old(dc.Cached())
      ensures bc.Cached() <= old(bc.Cached() + dc.Cached())
      ensures clock.value >= old(clock.value)
    {
      dc.FlushAll();
      SettledKeepsKeys(old(dc.slots[..]), dc.slots[..], 0);
      DC.SettledKeepsPages(old(dc.slots[..]), dc.slots[..]);
    }

    method FlushBlocks()
      requires Built() && dc.Valid()
      modifies bc.slots, disk, disk.bytes
      ensures dc.Valid() && bc.Clean() && disk.view == bc.view
      ensures bc.Cached() == old(bc.Cached())
    {
      bc.FlushAll();
      SettledKeepsKeys(old(bc.slots[..]), bc.slots[..], clock.value);
    }

    /** block_write of a metadata block. */
    method WriteMeta(b: nat, block: seq<byte>)
      requires Ready() && b < META_BLOCKS && b !in dc.Cached() && b !in bc.Cached() && |block| == BLOCK_SIZE
      modifies dc, bc, disk, disk.bytes
      ensures Ready()
      ensures dc.view == old(dc.view)[b := block] && disk.view == old(disk.view)[b := block]
      ensures old(dc.Clean()) ==> dc.Clean()
    {
      dc.WritePast(b, block);
    }

    /** No metadata block is cached. */
    ghost predicate MetaFree()
      reads dc.slots, bc.slots
    {
      forall b: nat | b < META_BLOCKS :: b !in dc.Cached() && b !in bc.Cached()
    }

    method StoreTable()
      requires Ready() && dc.view == disk.view && MetaFree()
      modifies dc, bc, disk, disk.bytes
      ensures Ready() && dc.view == disk.view
      ensures forall b | 0 <= b < |dc.view| && !(2 <= b < META_BLOCKS) :: dc.view[b] == old(dc.view)[b]
      ensures TableStored(inodeTab[..], dc.view)
      ensures old(dc.Clean()) ==> dc.Clean()
    {
      var tab := inodeTab[..];
      for i := 0 to ITAB_NUM_BLKS
        invariant Ready() && dc.view == disk.view && |dc.view| == old(|dc.view|)
        invariant forall b | 0 <= b < |dc.view| && !(2 <= b < META_BLOCKS) :: dc.view[b] == old(dc.view)[b]
        invariant forall b | 2 <= b < i + 2 :: dc.view[b] == TableBlock(tab, b - 2)
        invariant old(dc.Clean()) ==> dc.Clean()
      {
        StoreTableBlock(i);
      }
    }

    method StoreTableBlock(i: nat)
      requires Ready() && i < ITAB_NUM_BLKS && MetaFree()
      modifies dc, bc, disk, disk.bytes
      ensures Ready()
      ensures dc.view == old(dc.view)[i + 2 := TableBlock(inodeTab[..], i)]
      ensures disk.view == old(disk.view)[i + 2 := TableBlock(inodeTab[..], i)]
      ensures old(dc.Clean()) ==> dc.Clean()
    {
      WriteMeta(i + 2, TableBlock(inodeTab[..], i));
    }

    /** fsi_store_fsdata. */
    method StoreFsdata()
      requires Ready() && MetaFree()
      modifies dc, dc.slots, bc, bc.slots, clock, disk, disk.bytes, ic.slots, inodeTab
      ensures Ready() && dc.Clean() && ic.Clean() && dc.view == disk.view
      ensures forall b | META_BLOCKS <= b < |dc.view| :: dc.view[b] == old(dc.view)[b]
      ensures |dc.view| == old(|dc.view|) == disk.numBlocks
      ensures dc.view[0] == blkBmap[..] && dc.view[1] == inodeBmap[..] && TableStored(inodeTab[..], dc.view)
      ensures forall k | 0 <= k < ITAB_SIZE :: Agree(old(inodeTab[k]), inodeTab[k])
      ensures dc.Pages() == old(dc.Pages()) && ic.Cached() == old(ic.Cached())
      ensures bc.Cached() <= old(bc.Cached() + dc.Cached())
      ensures old(ic.Flat(ROOT)) ==> ic.Flat(ROOT)
    {
      FlushCaches();
      StoreMeta();
    }

    method StoreMeta()
      requires Ready() && dc.view == disk.view && MetaFree()
      modifies dc, bc, disk, disk.bytes
      ensures Ready() && dc.view == disk.view
      ensures |dc.view| == old(|dc.view|) == disk.numBlocks
      ensures forall b | META_BLOCKS <= b < |dc.view| :: dc.view[b] == old(dc.view)[b]
      ensures dc.view[0] == blkBmap[..] && dc.view[1] == inodeBmap[..] && TableStored(inodeTab[..], dc.view)
      ensures old(dc.Clean()) ==> dc.Clean()
    {
      WriteMeta(0, blkBmap[..]);
      WriteMeta(1, inodeBmap[..]);
      StoreTable();
    }

    /** fsi_store_fsdata at the end of an operation: from here on the disk alone is enough. */
    method Commit()
      requires Consistent()
      modifies dc, dc.slots, bc, bc.slots, clock, disk, disk.bytes, ic.slots, inodeTab
      ensures Valid()
      ensures old(ic.Flat(ROOT)) ==> ic.Flat(ROOT)
      ensures Saved()
    {
      NoMetaCached();
      StoreFsdata();
      ghost var tab, view := old(inodeTab[..]), old(dc.view);
      assert Uniform(dc.view);
      ModelFrame(nodes, tab, view, inodeBmap[..], blkBmap[..], disk.numBlocks, inodeTab[..], dc.view);
      CacheKeysFrame(nodes, tab, nodes, inodeTab[..], dc.Pages(), bc.Cached(), ic.Cached());
      StoredIsOnDisk(nodes, inodeTab[..], dc.view, inodeBmap[..], blkBmap[..], disk.numBlocks);
    }

    /** The caches hold no metadata block, and no directory page is also some other inode's block. */
    lemma NoMetaCached()
      requires Consistent()
      ensures MetaFree()
      ensures forall b | b in dc.Cached() :: META_BLOCKS <= b
      ensures forall b, id: nat | b in dc.Cached() && Owns(inodeTab[..], |nodes|, id, b) ::
                id < |nodes| && nodes[id].Dir? && dc.OnlyFor(id, b)
    {
      forall b: nat | b in dc.Cached() ensures exists d: nat :: (d, b) in dc.Pages() {
        DC.CachedHasPage(dc.slots[..], b);
      }
      forall d: nat, b: nat | (d, b) in dc.Pages() ensures META_BLOCKS <= b {
        OwnedIsData(inodeTab[..], |nodes|, disk.numBlocks, blkBmap[..], d, b);
      }
      forall b, id: nat | b in dc.Cached() && Owns(inodeTab[..], |nodes|, id, b)
        ensures id < |nodes| && nodes[id].Dir? && dc.OnlyFor(id, b)
      {
        forall d | (d, b) in dc.Pages() ensures d == id {
          OneOwner(inodeTab[..], |nodes|, d, id, b);
        }
      }
    }

    // ----- fs_format -----

    /** fsi_inode_init on a table entry whose inode is not cached. */
    method InitInode(id: nat, itype: u32)
      requires Ready() && id < ITAB_SIZE && id !in ic.Cached()
      modifies inodeTab
      ensures Ready() && inodeTab[..] == old(inodeTab[..])[id := inodeTab[id]]
      ensures inodeTab[id].itype == itype && inodeTab[id].size == 0 && Shaped(inodeTab[id])
      ensures old(ic.Flat(ROOT)) ==> ic.Flat(ROOT)
    {
      assert forall i | 0 <= i < ic.slots.Length && ic.slots[i].valid :: ic.slots[..][i].addr in ic.Cached();
      inodeTab[id] := Inode(itype, 0, seq(INODE_NUM_BLKS, _ => 0), seq(4, _ => 0));
      assert inodeTab[..] == old(inodeTab[..])[id := inodeTab[id]];
    }

    method WipeBlocks()
      requires Ready() && dc.Cached() == {} && bc.Cached() == {}
      modifies dc, bc, disk, disk.bytes
      ensures Ready() && |dc.view| == disk.numBlocks && Uniform(dc.view)
      ensures old(dc.Clean()) ==> dc.Clean()
    {
      for i := 0 to disk.numBlocks
        invariant Ready()
        invariant old(dc.Clean()) ==> dc.Clean()
      {
        dc.WritePast(i, seq(BLOCK_SIZE, _ => 0));
      }
    }

    /** BMAP_SET on the inode bitmap. */
    method MarkInode(id: nat)
      requires Ready() && id < ITAB_SIZE
      modifies inodeBmap
      ensures Ready()
      ensures forall k: nat | k < 8 * BLOCK_SIZE :: IsSet(inodeBmap[..], k) == (k == id || old(IsSet(inodeBmap[..], k)))
    {
      SetBit(inodeBmap, id);
    }

    /** BMAP_SET on the block bitmap. */
    method MarkBlock(b: nat)
      requires Ready() && b < 8 * BLOCK_SIZE
      modifies blkBmap
      ensures Ready()
      ensures forall k: nat | k < 8 * BLOCK_SIZE :: IsSet(blkBmap[..], k) == (k == b || old(IsSet(blkBmap[..], k)))
    {
      SetBit(blkBmap, b);
    }

    method MarkMeta()
      requires Ready() && forall b: nat | b < 8 * BLOCK_SIZE :: !IsSet(blkBmap[..], b)
      modifies blkBmap
      ensures Ready()
      ensures forall b: nat | b < 8 * BLOCK_SIZE :: IsSet(blkBmap[..], b) == (b < META_BLOCKS)
    {
      MarkBlock(0);
      MarkBlock(1);
      for i := 0 to ITAB_NUM_BLKS
        invariant Ready()
        invariant forall b: nat | b < 8 * BLOCK_SIZE :: IsSet(blkBmap[..], b) == (b < i + 2)
      {
        MarkBlock(i + 2);
      }
    }

    method MarkFirstInodes()
      requires Ready() && forall b: nat | b < 8 * BLOCK_SIZE :: !IsSet(inodeBmap[..], b)
      modifies inodeBmap
      ensures Ready() && InodesMarked(inodeBmap[..], 2)
    {
      MarkInode(0);
      MarkInode(1);
    }

    ghost predicate Wiped()
      reads this, Repr()
    {
      && Ready() && Uniform(dc.view) && |dc.view| == disk.numBlocks
      && dc.Pages() == {} && dc.Cached() == {} && bc.Cached() == {} && ic.Cached() == {}
      && (forall b: nat | b < 8 * BLOCK_SIZE :: IsSet(blkBmap[..], b) == (b < META_BLOCKS))
      && (forall b: nat | b < 8 * BLOCK_SIZE :: !IsSet(inodeBmap[..], b))
      && inodeTab[0].itype == 0
      && dc.Clean() && ic.Clean() && ic.Flat(ROOT)
    }

    method MakeRoot()
      requires Wiped()
      modifies this, inodeBmap, inodeTab
      ensures Consistent() && nodes == INITIAL && dc.Clean() && ic.Clean() && ic.Flat(ROOT)
      ensures ClearFrom(blkBmap[..], META_BLOCKS)
    {
      hide Model;
      WriteRoot();
      nodes := INITIAL;
    }

    method WriteRoot()
      requires Wiped()
      modifies inodeBmap, inodeTab
      ensures Ready() && dc.Clean() && ic.Clean() && ic.Flat(ROOT)
      ensures dc.Pages() == {} && bc.Cached() == {} && ic.Cached() == {}
      ensures Model(INITIAL, inodeTab[..], dc.view, inodeBmap[..], blkBmap[..], disk.numBlocks)
    {
      hide Model, InodesMarked, Uniform;
      MarkFirstInodes();
      InitInode(1, FS_DIR);
      assert inodeTab[..][0] == old(inodeTab[..])[0];
      FormattedModel(inodeTab[..], dc.view, inodeBmap[..], blkBmap[..], disk.numBlocks);
    }

    /** A file system that has just been attached to an all-zero store. */
    ghost predicate Blank()
      reads this, Repr()
    {
      && Ready() && dc.Clean() && ic.Clean() && ic.Flat(ROOT)
      && dc.Pages() == {} && dc.Cached() == {} && bc.Cached() == {} && ic.Cached() == {}
      && (forall b: nat | b < 8 * BLOCK_SIZE :: !IsSet(blkBmap[..], b) && !IsSet(inodeBmap[..], b))
      && inodeTab[0].itype == 0
    }

    /** fs_new. */
    static method New(numBlocks: nat) returns (fs: Fs)
      requires META_BLOCKS <= numBlocks
      ensures fresh(fs) && fresh(fs.Repr()) && fs.disk.numBlocks == numBlocks && fs.Blank()
    {
      hide Model, OnDisk, LoadedTable, IsSet, InodeAt, IC.ICache.Flat;
      var disk := new BlockStore.Blocks(numBlocks, BLOCK_SIZE);
      fs := Mount(disk, []);
      ZeroDisk(disk.view);
      assert fs.inodeTab[..][0] == fs.inodeTab[0];
      fs.FlatWhenLoaded();
    }

    lemma FlatWhenLoaded()
      requires Ready() && ic.Cached() == {}
      requires forall id | 0 <= id < ITAB_SIZE :: Second(inodeTab[..][id]) == 0
      ensures ic.Flat(ROOT)
    {
      assert forall i | 0 <= i < ic.slots.Length && ic.slots[i].valid :: ic.slots[..][i].addr in ic.Cached();
      assert forall id | 0 <= id < ITAB_SIZE :: inodeTab[..][id] == inodeTab[id];
    }

    /** fs_format: an empty root directory, on disk too. */
    method Format()
      requires Blank()
      modifies this, Repr()
      ensures Valid() && nodes == INITIAL
      ensures ic.Flat(ROOT) && Saved() && ClearFrom(blkBmap[..], META_BLOCKS)
    {
      hide Model, CacheKeys, OnDisk;
      WipeDisk();
      MakeRoot();
      Commit();
    }

    /** Everything zero but the bits of the metadata blocks. */
    method WipeDisk()
      requires Blank()
      modifies dc, bc, disk, disk.bytes, blkBmap
      ensures Wiped()
    {
      hide Uniform;
      WipeBlocks();
      MarkMeta();
    }

    // ----- what every operation starts with -----

    /** ic_get between operations: nothing but the cache changes. */
    method Fetch(id: nat) returns (s: nat)
      requires Valid() && id < |nodes|
      modifies ic.slots, clock, inodeTab
      ensures Valid() && inodeTab[..] == old(inodeTab[..])
      ensures ic.At(s, id) && Agree(ic.slots[s].value, inodeTab[id])
      ensures forall i: nat | old(ic.At(i, id)) :: s == i && ic.slots[s].value == old(ic.slots[i].value)
      ensures ReadStep(old(ic.slots[..]), ic.slots[..], id, clock.value) && old(clock.value) < clock.value
      ensures old(ic.Flat(ROOT)) ==> ic.Flat(ROOT)
    {
      hide WellFormed, LaidOut, Represents, Model, OnDisk, CacheKeys, ReadStep, InodesMarked;
      AllocatedBit(id);
      OnlyDataCached();
      ghost var inodes := ic.Cached();
      s := GetInode(id);
      SlotHolds(s, id);
      CacheKeysReads(nodes, inodeTab[..], dc.Pages(), bc.Cached(), bc.Cached(), inodes, ic.Cached(), id);
      StillValid();
    }

    /** The slot is watched from here on: nothing else has been read since. */
    method FetchWatched(id: nat) returns (s: nat)
      requires Valid() && id < |nodes|
      modifies ic.slots, clock, inodeTab
      ensures Valid() && inodeTab[..] == old(inodeTab[..])
      ensures ic.At(s, id) && Agree(ic.slots[s].value, inodeTab[id])
      ensures Since(ic.slots[..], s, ic.slots[s], {})
      ensures old(ic.Flat(ROOT)) ==> ic.Flat(ROOT)
    {
      hide WellFormed, LaidOut, Represents, Model, OnDisk, CacheKeys, Since, ReadStep;
      s := Fetch(id);
      SinceStarts(old(ic.slots[..]), ic.slots[..], s, id, old(clock.value), clock.value);
    }

    /** The checks on an inode number, its bitmap bit and its type. */
    method Open(id: nat, itype: nat) returns (ok: bool, s: nat)
      requires Valid() && (itype == FS_FILE || itype == FS_DIR)
      modifies ic.slots, clock, inodeTab
      ensures Valid() && inodeTab[..] == old(inodeTab[..])
      ensures ok <==> id < |nodes| && if itype == FS_FILE then nodes[id].File? else nodes[id].Dir?
      ensures ok ==> 1 <= id && ic.At(s, id) && Agree(ic.slots[s].value, inodeTab[id])
      ensures ok ==> Since(ic.slots[..], s, ic.slots[s], {})
      ensures old(ic.Flat(ROOT)) ==> ic.Flat(ROOT)
    {
      hide Consistent, Since, IsSet;
      AllocatedBit(id);
      if id >= ITAB_SIZE || !Bit(inodeBmap[id / 8], id % 8) {
        return false, 0;
      }
      TypeOf(id);
      s := FetchWatched(id);
      ok := ic.slots[s].value.itype == itype;
    }

    lemma OnlyDataCached()
      requires Consistent()
      ensures forall b | b in bc.Cached() :: META_BLOCKS <= b
    {
    }

    /** The bitmap tells which inodes are allocated. */
    lemma AllocatedBit(id: nat)
      requires Consistent()
      ensures |nodes| <= ITAB_SIZE <= 8 * inodeBmap.Length && inodeTab.Length == ITAB_SIZE
      ensures id < ITAB_SIZE ==> (Bit(inodeBmap[id / 8], id % 8) <==> id < |nodes|)
    {
      assert id < ITAB_SIZE ==> IsSet(inodeBmap[..], id) == (id < |nodes|);
    }

    /** The type field tells what an allocated inode is. */
    lemma TypeOf(id: nat)
      requires Consistent() && id < |nodes|
      ensures nodes[id].File? <==> inodeTab[id].itype == FS_FILE
      ensures nodes[id].Dir? <==> inodeTab[id].itype == FS_DIR
      ensures nodes[id].Reserved? <==> id == 0
      ensures nodes[id].File? ==> inodeTab[id].size == |nodes[id].data| <= MAX_DATA
      ensures nodes[id].Dir? ==> inodeTab[id].size == DENTRY_BYTES * |nodes[id].entries|
    {
      assert id >= 1 ==> Represents(inodeTab[..][id], dc.view, nodes[id]);
      assert inodeTab[..][0] == inodeTab[0];
    }

    // ----- fs_get_attrs -----

    /** fs_get_attrs: type and size; an inode of no known type ends the process. Inode 0 is such an
        inode, and no other allocated one is. */
    method GetAttrs(id: nat) returns (status: Status, itype: nat, size: nat)
      requires Valid()
      modifies ic.slots, clock, inodeTab
      ensures Valid()
      ensures status == Failed <==> id >= |nodes|
      ensures status == Aborted <==> id == 0
      ensures status == Done ==>
                match nodes[id]
                case File(data) => itype == FS_FILE && size == |data|
                case Dir(entries) => itype == FS_DIR && size == DENTRY_BYTES * |entries|
                case Reserved => false
    {
      hide Consistent, IsSet, ReadStep;
      itype, size := 0, 0;
      AllocatedBit(id);
      if id >= ITAB_SIZE || !Bit(inodeBmap[id / 8], id % 8) {
        return Failed, 0, 0;
      }
      TypeOf(id);
      var s := Fetch(id);
      itype, size := ic.slots[s].value.itype, ic.slots[s].value.size;
      status := if itype == FS_DIR || itype == FS_FILE then Done else Aborted;
    }

    // ----- fs_read -----

    /** The blocks of a file are not cached as directory pages. */
    ghost predicate OffPages(n: Inode)
      reads dc.slots
    {
      forall k | 0 <= k < BlocksFor(n.size) && k < |n.blocks| :: n.blocks[k] !in dc.Cached()
    }

    lemma FileIsOffPages(id: nat, n: Inode)
      requires Consistent() && 1 <= id < |nodes| && nodes[id].File? && Agree(n, inodeTab[id])
      ensures OffPages(n) && Represents(n, dc.view, nodes[id]) && n.size == |nodes[id].data|
      ensures forall k | 0 <= k < BlocksFor(n.size) :: META_BLOCKS <= n.blocks[k]
      ensures forall b | b in bc.Cached() :: META_BLOCKS <= b
    {
      NoMetaCached();
      var tab := inodeTab[..];
      RepresentsFrame(tab[id], n, dc.view, dc.view, nodes[id]);
      forall k: nat | k < BlocksFor(n.size)
        ensures n.blocks[k] !in dc.Cached() && META_BLOCKS <= n.blocks[k]
      {
        var b: nat := n.blocks[k];
        assert Claims(tab, |nodes|, id, k) && tab[id].blocks[k] == b;
        assert Owns(tab, |nodes|, id, b);
        OwnedIsData(tab, |nodes|, disk.numBlocks, blkBmap[..], id, b);
      }
    }

    /** One turn of the copy loop of fs_read. */
    method ReadStretch(n: Inode, i: nat, start: nat, num: nat, ghost contents: seq<byte>) returns (bytes: seq<byte>)
      requires Ready() && dc.Clean() && OffPages(n)
      requires Represents(n, dc.view, File(contents)) && i < BlocksFor(n.size)
      requires start + num <= BLOCK_SIZE && i * BLOCK_SIZE + start + num <= |contents| && 0 < num
      requires META_BLOCKS <= n.blocks[i] && forall b | b in bc.Cached() :: META_BLOCKS <= b
      modifies dc, bc, bc.slots, clock, disk, disk.bytes
      ensures Ready() && dc.Clean() && dc.view == old(dc.view) && disk.view == old(disk.view)
      ensures forall b | b in bc.Cached() :: META_BLOCKS <= b
      ensures bytes == contents[i * BLOCK_SIZE + start..i * BLOCK_SIZE + start + num]
    {
      BlockSlice(n, dc.view, contents, i, start, num);
      var block := ReadBlock(n.blocks[i]);
      bytes := block[start..start + num];
    }

    static lemma RepresentsSize(n: Inode, view: Represent.Blocks, contents: seq<byte>)
      requires Represents(n, view, File(contents))
      ensures n.size == |contents|
    {
    }

    /** The arithmetic of a copy loop. */
    static lemma StretchInFile(size: nat, offset: nat, pos: nat, max: nat, i: nat, start: nat)
      requires offset + max <= size && pos <= max && start < BLOCK_SIZE && i * BLOCK_SIZE + start == offset + pos
      ensures pos < max ==> i < BlocksFor(size)
      ensures var num := Min(BLOCK_SIZE - start, max - pos);
              pos + num < max ==> i + 1 < BlocksFor(size) && (i + 1) * BLOCK_SIZE == offset + pos + num
    {
    }

    /** The copy loop of fs_read. */
    method ReadBytes(n: Inode, offset: nat, max: nat, ghost contents: seq<byte>) returns (data: seq<byte>)
      requires Ready() && dc.Clean() && OffPages(n)
      requires Represents(n, dc.view, File(contents))
      requires offset + max <= |contents|
      requires forall k | 0 <= k < BlocksFor(n.size) :: META_BLOCKS <= n.blocks[k]
      requires forall b | b in bc.Cached() :: META_BLOCKS <= b
      modifies dc, bc, bc.slots, clock, disk, disk.bytes
      ensures Ready() && dc.Clean() && dc.view == old(dc.view) && disk.view == old(disk.view)
      ensures forall b | b in bc.Cached() :: META_BLOCKS <= b
      ensures data == contents[offset..offset + max]
    {
      hide Represents, BlocksFor, Coherent, Stamped;
      RepresentsSize(n, dc.view, contents);
      data := [];
      var pos, iblock := 0, offset / BLOCK_SIZE;
      var blksUsed := BlocksFor(n.size);
      StretchInFile(|contents|, offset, 0, max, iblock, offset % BLOCK_SIZE);
      while pos < max && iblock < blksUsed
        invariant Ready() && dc.Clean() && dc.view == old(dc.view) && disk.view == old(disk.view)
        invariant OffPages(n)
        invariant forall b | b in bc.Cached() :: META_BLOCKS <= b
        invariant 0 <= pos <= max && data == contents[offset..offset + pos]
        invariant pos < max ==> iblock < blksUsed
        invariant pos < max ==> iblock * BLOCK_SIZE + (if pos == 0 then offset % BLOCK_SIZE else 0) == offset + pos
      {
        var start := if pos == 0 then offset % BLOCK_SIZE else 0;
        var num := Min(BLOCK_SIZE - start, max - pos);
        StretchInFile(|contents|, offset, pos, max, iblock, start);
        var bytes := ReadStretch(n, iblock, start, num, contents);
        data := data + bytes;
        pos := pos + num;
        iblock := iblock + 1;
      }
    }

    /** fs_read: exactly the requested slice, clipped to the file. */
    method Read(file: nat, offset: u32, count: u32) returns (status: Status, data: seq<byte>)
      requires Valid()
      modifies dc, bc, bc.slots, clock, disk, disk.bytes, ic.slots, inodeTab
      ensures Valid()
      ensures status == Done <==> file < |nodes| && nodes[file].File?
      ensures status != Aborted
      ensures status == Done ==> data == Slice(nodes[file].data, offset, count)
    {
      hide Consistent, Since, OnDisk;
      var ok, s := Open(file, FS_FILE);
      if !ok {
        return Failed, [];
      }
      status := Done;
      data := ReadOpened(file, ic.slots[s].value, offset, count);
    }

    method ReadOpened(file: nat, n: Inode, offset: u32, count: u32) returns (data: seq<byte>)
      requires Valid() && 1 <= file < |nodes| && nodes[file].File? && Agree(n, inodeTab[file])
      modifies dc, bc, bc.slots, clock, disk, disk.bytes
      ensures Valid() && data == Slice(nodes[file].data, offset, count)
    {
      hide WellFormed, LaidOut, Represents, OnDisk, Model, CacheKeys;
      FileIsOffPages(file, n);
      if offset >= n.size {
        return [];
      }
      ghost var blocks := bc.Cached();
      data := ReadBytes(n, offset, Min(count, n.size - offset), nodes[file].data);
      CacheKeysReads(nodes, inodeTab[..], dc.Pages(), blocks, bc.Cached(), ic.Cached(), ic.Cached(), file);
      StillValid();
    }

    // ----- fs_write -----

    /** The allocation loop of fs_write: each block found free goes straight into the cached inode,
        past the pointers in use. */
    method AllocBlocks(s: nat, file: nat, used: nat, req: nat, ghost tab: seq<Inode>) returns (ok: bool)
      requires Ready() && LaidOut(tab, |nodes|, disk.numBlocks, blkBmap[..])
      requires 1 <= file < |nodes| <= |tab| && ic.At(s, file) && Agree(ic.slots[s].value, tab[file])
      requires BlocksFor(ic.slots[s].value.size) == used && used + req <= INODE_NUM_BLKS
      modifies blkBmap, ic.slots
      ensures Ready() && ic.At(s, file) && ic.Cached() == old(ic.Cached())
      ensures Agree(old(ic.slots[s].value), ic.slots[s].value)
      ensures ok ==> LaidOut(Grown(tab, file, ic.slots[s].value, used + req), |nodes|, disk.numBlocks, blkBmap[..])
      ensures !ok ==> disk.numBlocks < ENOUGH_BLOCKS && LaidOut(tab, |nodes|, disk.numBlocks, blkBmap[..])
      ensures old(ic.Clean()) ==> ic.Clean()
    {
      hide LaidOut, Grown, IsSet, Agree;
      AgreeSelf(ic.slots[s].value, tab[file]);
      GrowthStarts(tab, |nodes|, disk.numBlocks, blkBmap[..], file, ic.slots[s].value);
      var i := used;
      while i < used + req
        invariant used <= i <= used + req
        invariant Ready() && ic.At(s, file) && ic.Cached() == old(ic.Cached())
        invariant Agree(old(ic.slots[s].value), ic.slots[s].value) && BlocksFor(ic.slots[s].value.size) <= i
        invariant LaidOut(Grown(tab, file, ic.slots[s].value, i), |nodes|, disk.numBlocks, blkBmap[..])
        invariant disk.numBlocks < ENOUGH_BLOCKS ==> LaidOut(tab, |nodes|, disk.numBlocks, blkBmap[..])
        invariant old(ic.Clean()) ==> ic.Clean()
      {
        ghost var n := ic.slots[s].value;
        ok := AllocOne(s, file, i, tab);
        AgreeOn(old(ic.slots[s].value), n, ic.slots[s].value);
        if !ok {
          return false;
        }
        i := i + 1;
      }
      ok := true;
    }

    lemma AgreeSelf(m: Inode, n: Inode)
      requires Agree(m, n)
      ensures Agree(m, m)
    {
    }

    lemma AgreeOn(k: Inode, m: Inode, n: Inode)
      requires Agree(k, m) && Agree(m, n)
      ensures Agree(k, n) && m.size == n.size
    {
    }

    method AllocOne(s: nat, file: nat, i: nat, ghost tab: seq<Inode>) returns (ok: bool)
      requires Ready() && 1 <= file < |nodes| <= |tab| && ic.At(s, file) && i < INODE_NUM_BLKS
      requires BlocksFor(ic.slots[s].value.size) <= i
      requires LaidOut(Grown(tab, file, ic.slots[s].value, i), |nodes|, disk.numBlocks, blkBmap[..])
      requires disk.numBlocks < ENOUGH_BLOCKS ==> LaidOut(tab, |nodes|, disk.numBlocks, blkBmap[..])
      modifies blkBmap, ic.slots
      ensures Ready() && ic.At(s, file) && ic.Cached() == old(ic.Cached())
      ensures Agree(old(ic.slots[s].value), ic.slots[s].value)
      ensures ok ==> LaidOut(Grown(tab, file, ic.slots[s].value, i + 1), |nodes|, disk.numBlocks, blkBmap[..])
      ensures !ok ==> disk.numBlocks < ENOUGH_BLOCKS
      ensures disk.numBlocks < ENOUGH_BLOCKS ==> LaidOut(tab, |nodes|, disk.numBlocks, blkBmap[..])
      ensures old(ic.Clean()) ==> ic.Clean()
    {
      ghost var n := ic.slots[s].value;
      var b: nat;
      ok, b := FindBlock(Grown(tab, file, n, i), |nodes|, file);
      if ok {
        StorePointer(s, i, b);
        MarkBlock(b);
        TakeBlock(tab, |nodes|, disk.numBlocks, old(blkBmap[..]), blkBmap[..], file, n, i, b);
        if disk.numBlocks < ENOUGH_BLOCKS {
          LeakIsHarmless(tab, |nodes|, disk.numBlocks, old(blkBmap[..]), blkBmap[..]);
        }
      }
    }

    /** fsi_bmap_find_free on the block bitmap. With 640 blocks or more it always succeeds, and
        inside the bitmap even when the store has more blocks than the bitmap has bits. */
    method FindBlock(ghost tab: seq<Inode>, ghost count: nat, ghost id: nat) returns (ok: bool, b: nat)
      requires Built() && LaidOut(tab, count, disk.numBlocks, blkBmap[..])
      requires 1 <= id < count && BlocksFor(tab[id].size) < INODE_NUM_BLKS
      ensures ok ==> b < disk.numBlocks && b < 8 * BLOCK_SIZE && !IsSet(blkBmap[..], b)
      ensures !ok ==> disk.numBlocks < ENOUGH_BLOCKS
      ensures ok ==> forall k: nat | k < b :: IsSet(blkBmap[..], k)
    {
      ghost var free: nat := 0;
      if disk.numBlocks >= ENOUGH_BLOCKS {
        free := FreeBlockExists(tab, count, disk.numBlocks, blkBmap[..], id);
      }
      ok, b := FindFree(blkBmap, disk.numBlocks);
      assert disk.numBlocks >= ENOUGH_BLOCKS ==> !IsSet(blkBmap[..], free);
    }

    /** Blocks other than the first `total` pointers of `n` are as they were. */
    ghost predicate Elsewhere(view: Represent.Blocks, was: Represent.Blocks, n: Inode, total: nat)
      requires total <= |n.blocks|
    {
      |view| == |was| && forall b: nat | b < |view| && b !in n.blocks[..total] :: view[b] == was[b]
    }

    /** The first `total` pointers of `n` are data blocks that no directory page occupies. */
    ghost predicate Writable(n: Inode, total: nat)
      reads dc.slots
    {
      && total <= |n.blocks|
      && forall k | 0 <= k < total :: META_BLOCKS <= n.blocks[k] < disk.numBlocks && n.blocks[k] !in dc.Cached()
    }

    /** The loop over blocks the file already has: read, overlay, write back. */
    method WriteWithin(n: Inode, used: nat, total: nat, o: nat, data: seq<byte>, limit: int,
                       block: array<byte>, ghost was: seq<byte>) returns (num: nat, iblock: nat)
      requires Ready() && Writable(n, total) && used <= total && limit <= |data|
      requires block.Length == BLOCK_SIZE && block !in Repr()
      requires InProgress(dc.view, n.blocks, total, was, o, data, 0) && BlocksFor(|was|) == used
      requires forall b | b in bc.Cached() :: META_BLOCKS <= b
      modifies block, dc, bc, bc.slots, clock, disk, disk.bytes
      ensures Ready() && InProgress(dc.view, n.blocks, total, was, o, data, num)
      ensures Elsewhere(dc.view, old(dc.view), n, total)
      ensures forall b | b in bc.Cached() :: META_BLOCKS <= b
      ensures num <= if limit > 0 then limit else 0
      ensures num < limit ==> used <= iblock && iblock * BLOCK_SIZE == o + num
    {
      hide InProgress, Elsewhere;
      num, iblock := 0, o / BLOCK_SIZE;
      ElsewhereSelf(dc.view, n, total);
      WithinFile(dc.view, n.blocks, total, was, o, data);
      while num < limit && iblock < used
        invariant Ready() && Writable(n, total)
        invariant InProgress(dc.view, n.blocks, total, was, o, data, num)
        invariant Elsewhere(dc.view, old(dc.view), n, total)
        invariant forall b | b in bc.Cached() :: META_BLOCKS <= b
        invariant num <= if limit > 0 then limit else 0
        invariant num < limit ==> iblock * BLOCK_SIZE + (if num == 0 then o % BLOCK_SIZE else 0) == o + num
      {
        ghost var view := dc.view;
        var start := if num == 0 then o % BLOCK_SIZE else 0;
        num := Overlay(n, total, iblock, start, o, data, num, limit, block, was);
        ElsewhereOn(old(dc.view), view, dc.view, n, total);
        iblock := iblock + 1;
      }
    }

    /** bc_read into the local buffer. */
    method LoadInto(b: nat, block: array<byte>)
      requires Ready() && META_BLOCKS <= b < disk.numBlocks && b !in dc.Cached()
      requires block.Length == BLOCK_SIZE && block !in Repr() && forall b | b in bc.Cached() :: META_BLOCKS <= b
      modifies block, dc, bc, bc.slots, clock, disk, disk.bytes
      ensures Ready() && block[..] == dc.view[b] && dc.view == old(dc.view)
      ensures forall b | b in bc.Cached() :: META_BLOCKS <= b
    {
      var read := ReadBlock(b);
      Fill(block, read);
    }

    method Overlay(n: Inode, total: nat, i: nat, start: nat, o: nat, data: seq<byte>, num: nat, limit: nat,
                   block: array<byte>, ghost was: seq<byte>) returns (num': nat)
      requires Ready() && Writable(n, total) && i < total && num < limit <= |data|
      requires block.Length == BLOCK_SIZE && block !in Repr() && start < BLOCK_SIZE
      requires InProgress(dc.view, n.blocks, total, was, o, data, num) && i * BLOCK_SIZE + start == o + num
      requires i < BlocksFor(|was|) && forall b | b in bc.Cached() :: META_BLOCKS <= b
      modifies block, dc, bc, bc.slots, clock, disk, disk.bytes
      ensures Ready() && InProgress(dc.view, n.blocks, total, was, o, data, num')
      ensures Elsewhere(dc.view, old(dc.view), n, total)
      ensures forall b | b in bc.Cached() :: META_BLOCKS <= b
      ensures num' <= limit && (num' < limit ==> (i + 1) * BLOCK_SIZE == o + num')
    {
      hide InProgress, Elsewhere;
      LoadInto(n.blocks[i], block);
      num' := CopyIn(block, start, data, num, limit);
      WriteFrom(n, total, i, start, o, data, num, num', block[..], was);
    }

    method WriteFrom(n: Inode, total: nat, i: nat, start: nat, o: nat, data: seq<byte>, num: nat, num': nat,
                     block: seq<byte>, ghost was: seq<byte>)
      requires Ready() && Writable(n, total) && i < total
      requires InProgress(dc.view, n.blocks, total, was, o, data, num)
      requires i * BLOCK_SIZE + start == o + num && start < BLOCK_SIZE == |block|
      requires num <= num' <= |data| && start + (num' - num) <= BLOCK_SIZE
      requires block[start..start + (num' - num)] == data[num..num']
      requires forall j: nat | j < BLOCK_SIZE && !(start <= j < start + (num' - num)) &&
                               i * BLOCK_SIZE + j < Max(|was|, o + num) ::
                 block[j] == dc.view[n.blocks[i]][j]
      modifies dc, bc, bc.slots, clock, disk, disk.bytes
      ensures Ready() && InProgress(dc.view, n.blocks, total, was, o, data, num')
      ensures Elsewhere(dc.view, old(dc.view), n, total)
      ensures (forall b | b in old(bc.Cached()) :: META_BLOCKS <= b) ==> forall b | b in bc.Cached() :: META_BLOCKS <= b
    {
      WroteBlock(dc.view, n.blocks, total, was, o, data, num, num', i, start, block);
      WriteBlock(n.blocks[i], block);
      assert n.blocks[..total][i] == n.blocks[i];
    }

    /** The loop over newly claimed blocks. The local buffer still holds whatever the last turn, or
        the stack, left in it; none of that is within the file. */
    method WriteFresh(n: Inode, used: nat, total: nat, o: nat, data: seq<byte>, limit: int, from: nat, at: nat,
                      block: array<byte>, ghost was: seq<byte>) returns (num: nat)
      requires Ready() && Writable(n, total) && limit <= |data|
      requires block.Length == BLOCK_SIZE && block !in Repr()
      requires InProgress(dc.view, n.blocks, total, was, o, data, from) && BlocksFor(|was|) <= used
      requires from <= if limit > 0 then limit else 0
      requires from < limit ==> used <= at && at * BLOCK_SIZE == o + from
      requires limit > 0 ==> BlocksFor(o + limit) <= total
      requires forall b | b in bc.Cached() :: META_BLOCKS <= b
      modifies block, dc, bc, bc.slots, clock, disk, disk.bytes
      ensures Ready() && InProgress(dc.view, n.blocks, total, was, o, data, num)
      ensures Elsewhere(dc.view, old(dc.view), n, total)
      ensures forall b | b in bc.Cached() :: META_BLOCKS <= b
      ensures num == if limit > 0 then limit else 0
    {
      hide InProgress, Elsewhere;
      num := from;
      var iblock := at;
      ElsewhereSelf(dc.view, n, total);
      while num < limit && iblock < total
        invariant Ready() && Writable(n, total)
        invariant InProgress(dc.view, n.blocks, total, was, o, data, num)
        invariant Elsewhere(dc.view, old(dc.view), n, total)
        invariant forall b | b in bc.Cached() :: META_BLOCKS <= b
        invariant num <= if limit > 0 then limit else 0
        invariant num < limit ==> used <= iblock && iblock * BLOCK_SIZE == o + num
      {
        ghost var view := dc.view;
        num := WriteNext(n, total, iblock, o, data, limit, num, block, was);
        ElsewhereOn(old(dc.view), view, dc.view, n, total);
        iblock := iblock + 1;
      }
    }

    lemma WithinFile(view: Represent.Blocks, ptrs: seq<u32>, n: nat, was: seq<byte>, o: nat, data: seq<byte>)
      requires InProgress(view, ptrs, n, was, o, data, 0)
      ensures o <= |was|
    {
    }

    lemma ElsewhereSelf(view: Represent.Blocks, n: Inode, total: nat)
      requires total <= |n.blocks|
      ensures Elsewhere(view, view, n, total)
    {
    }

    lemma ElsewhereOn(first: Represent.Blocks, second: Represent.Blocks, third: Represent.Blocks, n: Inode, total: nat)
      requires total <= |n.blocks| && Elsewhere(second, first, n, total) && Elsewhere(third, second, n, total)
      ensures Elsewhere(third, first, n, total)
    {
    }

    /** One turn: a whole block, or what is left. */
    method WriteNext(n: Inode, total: nat, iblock: nat, o: nat, data: seq<byte>, limit: int, num: nat,
                     block: array<byte>, ghost was: seq<byte>) returns (next: nat)
      requires Ready() && Writable(n, total) && num < limit <= |data| && iblock < total
      requires block.Length == BLOCK_SIZE && block !in Repr()
      requires InProgress(dc.view, n.blocks, total, was, o, data, num)
      requires BlocksFor(|was|) <= iblock && iblock * BLOCK_SIZE == o + num
      requires forall b | b in bc.Cached() :: META_BLOCKS <= b
      modifies block, dc, bc, bc.slots, clock, disk, disk.bytes
      ensures Ready() && Writable(n, total) && InProgress(dc.view, n.blocks, total, was, o, data, next)
      ensures Elsewhere(dc.view, old(dc.view), n, total)
      ensures forall b | b in bc.Cached() :: META_BLOCKS <= b
      ensures next == Min(limit, num + BLOCK_SIZE)
    {
      hide InProgress, Elsewhere;
      next := CopyIn(block, 0, data, num, limit);
      assert iblock * BLOCK_SIZE >= Max(|was|, o + num);
      WriteFrom(n, total, iblock, 0, o, data, num, next, block[..], was);
    }

    /** Pointers claimed for a file, old and new, are data blocks clear of the directory cache. */
    lemma ClaimedIsWritable(file: nat, n: Inode, total: nat, o: nat, data: seq<byte>, bbmap: seq<byte>)
      requires Ready() && 1 <= file < |nodes| && nodes[file].File?
      requires Model(nodes, inodeTab[..], dc.view, inodeBmap[..], bbmap, disk.numBlocks)
      requires CacheKeys(nodes, inodeTab[..], dc.Pages(), bc.Cached(), ic.Cached()) && Agree(n, inodeTab[file])
      requires BlocksFor(n.size) <= total <= INODE_NUM_BLKS && o <= |nodes[file].data|
      requires LaidOut(Grown(inodeTab[..], file, n, total), |nodes|, disk.numBlocks, blkBmap[..])
      ensures Writable(n, total)
      ensures InProgress(dc.view, n.blocks, total, nodes[file].data, o, data, 0)
    {
      var tab, t := inodeTab[..], Grown(inodeTab[..], file, n, total);
      forall d: nat, b: nat | (d, b) in dc.Pages() ensures d != file && Owns(t, |nodes|, d, b) {
        var j: nat :| Claims(tab, |nodes|, d, j) && tab[d].blocks[j] == b;
        assert Claims(t, |nodes|, d, j) && t[d].blocks[j] == b;
      }
      forall k: nat | k < total
        ensures Claims(t, |nodes|, file, k) && Owns(t, |nodes|, file, n.blocks[k]) && n.blocks[k] !in dc.Cached()
      {
        assert Claims(t, |nodes|, file, k) && t[file].blocks[k] == n.blocks[k];
        if n.blocks[k] in dc.Cached() {
          DC.CachedHasPage(dc.slots[..], n.blocks[k]);
        }
      }
      forall j, k | 0 <= j < k < total ensures n.blocks[j] != n.blocks[k] {
        assert Claims(t, |nodes|, file, j) && Claims(t, |nodes|, file, k);
      }
      RepresentsFrame(tab[file], n, dc.view, dc.view, nodes[file]);
    }

    /** Both copy loops of fs_write. */
    method WriteBytes(n: Inode, used: nat, total: nat, o: nat, data: seq<byte>, limit: int, ghost was: seq<byte>)
      returns (num: nat)
      requires Ready() && Writable(n, total) && used <= total && limit <= |data|
      requires InProgress(dc.view, n.blocks, total, was, o, data, 0) && BlocksFor(|was|) == used
      requires limit > 0 ==> BlocksFor(o + limit) <= total
      requires forall b | b in bc.Cached() :: META_BLOCKS <= b
      modifies dc, bc, bc.slots, clock, disk, disk.bytes
      ensures Ready() && InProgress(dc.view, n.blocks, total, was, o, data, num)
      ensures Elsewhere(dc.view, old(dc.view), n, total)
      ensures forall b | b in bc.Cached() :: META_BLOCKS <= b
      ensures num == if limit > 0 then limit else 0
    {
      var block := new byte[BLOCK_SIZE];
      var at: nat;
      num, at := WriteWithin(n, used, total, o, data, limit, block, was);
      num := WriteFresh(n, used, total, o, data, limit, num, at, block, was);
    }

    /** The size update and fsi_store_fsdata: the write becomes part of the logical file system. */
    method FinishWrite(s: nat, file: nat, total: nat, offset: u32, data: seq<byte>, size: u32,
                       ghost view: Represent.Blocks, ghost bbmap: seq<byte>)
      requires Ready() && 1 <= file < |nodes| && nodes[file].File? && CanWrite(nodes, file, offset, data)
      requires Model(nodes, inodeTab[..], view, inodeBmap[..], bbmap, disk.numBlocks)
      requires CacheKeys(nodes, inodeTab[..], dc.Pages(), bc.Cached(), ic.Cached())
      requires ic.At(s, file) && Agree(ic.slots[s].value, inodeTab[file]) && total <= INODE_NUM_BLKS
      requires LaidOut(Grown(inodeTab[..], file, ic.slots[s].value, total), |nodes|, disk.numBlocks, blkBmap[..])
      requires Elsewhere(dc.view, view, ic.slots[s].value, total)
      requires InProgress(dc.view, ic.slots[s].value.blocks, total, nodes[file].data,
                          Start(nodes[file].data, offset), data, |data|)
      requires size == |Splice(nodes[file].data, offset, data)| && BlocksFor(size) == total
      modifies this, Repr()
      ensures Valid() && nodes == AfterWrite(old(nodes), file, offset, data)
    {
      hide Model, CacheKeys, LaidOut, Represents, OnDisk, Elsewhere, InProgress, WellFormed;
      ghost var tab, n := inodeTab[..], ic.slots[s].value;
      var n' := ic.slots[s].value.(size := size);
      UpdateInode(s, file, n');
      WriteBecomesModel(tab, view, bbmap, file, offset, data, n, n', total);
      nodes := AfterWrite(nodes, file, offset, data);
      Commit();
    }

    lemma WriteBecomesModel(tab: seq<Inode>, view: Represent.Blocks, bbmap: seq<byte>, file: nat, offset: nat,
                            data: seq<byte>, n: Inode, n': Inode, total: nat)
      requires Ready() && 1 <= file < |nodes| && nodes[file].File? && CanWrite(nodes, file, offset, data)
      requires Model(nodes, tab, view, inodeBmap[..], bbmap, disk.numBlocks)
      requires CacheKeys(nodes, tab, dc.Pages(), bc.Cached(), ic.Cached())
      requires Agree(n, tab[file]) && total <= INODE_NUM_BLKS
      requires LaidOut(Grown(tab, file, n, total), |nodes|, disk.numBlocks, blkBmap[..])
      requires Elsewhere(dc.view, view, n, total)
      requires InProgress(dc.view, n.blocks, total, nodes[file].data, Start(nodes[file].data, offset), data, |data|)
      requires n' == n.(size := |Splice(nodes[file].data, offset, data)|) && BlocksFor(n'.size) == total
      requires inodeTab[..] == tab[file := n']
      ensures var nodes' := AfterWrite(nodes, file, offset, data);
              && Model(nodes', inodeTab[..], dc.view, inodeBmap[..], blkBmap[..], disk.numBlocks)
              && CacheKeys(nodes', inodeTab[..], dc.Pages(), bc.Cached(), ic.Cached())
    {
      var t := tab[file := n'];
      LaidOutFrame(Grown(tab, file, n, total), t, |nodes|, disk.numBlocks, blkBmap[..]);
      assert Represents(tab[file], view, nodes[file]);
      WriteComplete(dc.view, n', total, nodes[file].data, offset, data);
      forall k: nat | k < total ensures Owns(t, |nodes|, file, n.blocks[..total][k]) {
        assert Claims(t, |nodes|, file, k);
      }
      assert forall b: nat | b in n.blocks[..total] :: Owns(t, |nodes|, file, b);
      ModelAfterWrite(nodes, tab, view, inodeBmap[..], bbmap, disk.numBlocks, file, offset, data, n', dc.view, blkBmap[..]);
      KeysAfterWrite(nodes, tab, file, n', offset, data, dc.Pages(), bc.Cached(), ic.Cached());
    }

    /** fs_write. On success the file is the splice of its old contents and the data, and nothing
        else has changed; on failure nothing has. With 640 blocks or more it fails only when the file
        would outgrow its ten pointers. It leaves the process exactly when offset and count overflow
        32 bits, which no count accepted by the request handler can do. */
    method Write(file: nat, offset: u32, count: u32, buffer: seq<byte>) returns (status: Status)
      requires Valid() && count <= |buffer|
      modifies this, Repr()
      ensures Valid()
      ensures status == Done ==> CanWrite(old(nodes), file, offset, buffer[..count]) &&
                                 nodes == AfterWrite(old(nodes), file, offset, buffer[..count])
      ensures status != Done ==> nodes == old(nodes)
      ensures status == Aborted <==> file < |old(nodes)| && old(nodes)[file].File? &&
                                     Start(old(nodes)[file].data, offset) + count >= U32_MOD
      ensures status == Failed && CanWrite(old(nodes), file, offset, buffer[..count]) ==>
                disk.numBlocks < ENOUGH_BLOCKS
    {
      hide WellFormed, LaidOut, Represents, OnDisk, Model, CacheKeys;
      var ok, s := Open(file, FS_FILE);
      if !ok {
        return Failed;
      }
      status := WriteChecked(s, file, offset, count, buffer[..count]);
    }

    /** fs_write from the size computation on. */
    method WriteChecked(s: nat, file: nat, offset: u32, count: u32, data: seq<byte>) returns (status: Status)
      requires Valid() && 1 <= file < |nodes| && nodes[file].File? && |data| == count
      requires ic.At(s, file) && Agree(ic.slots[s].value, inodeTab[file])
      modifies this, Repr()
      ensures Valid()
      ensures status == Done ==> CanWrite(old(nodes), file, offset, data) && nodes == AfterWrite(old(nodes), file, offset, data)
      ensures status != Done ==> nodes == old(nodes)
      ensures status == Aborted <==> Start(old(nodes)[file].data, offset) + count >= U32_MOD
      ensures status == Failed && CanWrite(old(nodes), file, offset, data) ==> disk.numBlocks < ENOUGH_BLOCKS
    {
      hide WellFormed, LaidOut, Represents, OnDisk, Model, CacheKeys;
      TypeOf(file);
      Sizing(nodes[file].data, offset, data);
      var size := ic.slots[s].value.size;
      var o := if offset > size then size else offset;
      var used := BlocksFor(size);
      var sum := (o + count) % U32_MOD;
      var req := Max(BlocksFor(sum), used) - used;
      if req > 0 && req > INODE_NUM_BLKS - used {
        return Failed;
      }
      status := WriteOpened(s, file, offset, o, count, data, used, req);
    }

    /** The blocks that the file still needs, if any. */
    method ClaimBlocks(s: nat, file: nat, used: nat, req: nat) returns (ok: bool)
      requires Valid() && 1 <= file < |nodes| && nodes[file].File?
      requires ic.At(s, file) && Agree(ic.slots[s].value, inodeTab[file])
      requires used == BlocksFor(|nodes[file].data|) && used + req <= INODE_NUM_BLKS
      modifies blkBmap, ic.slots
      ensures !ok ==> Valid() && disk.numBlocks < ENOUGH_BLOCKS && req > 0
      ensures ok && req == 0 ==> Valid()
      ensures ok ==>
                && Ready() && ic.At(s, file) && Agree(ic.slots[s].value, inodeTab[file])
                && Model(nodes, inodeTab[..], dc.view, inodeBmap[..], old(blkBmap[..]), disk.numBlocks)
                && CacheKeys(nodes, inodeTab[..], dc.Pages(), bc.Cached(), ic.Cached())
                && LaidOut(Grown(inodeTab[..], file, ic.slots[s].value, used + req), |nodes|, disk.numBlocks, blkBmap[..])
    {
      hide WellFormed, LaidOut, Represents, OnDisk, CacheKeys, Grown, InodesMarked;
      TypeOf(file);
      GrowthStarts(inodeTab[..], |nodes|, disk.numBlocks, blkBmap[..], file, ic.slots[s].value);
      ok := true;
      if req > 0 {
        ok := AllocBlocks(s, file, used, req, inodeTab[..]);
      }
    }

    method WriteOpened(s: nat, file: nat, offset: u32, o: u32, count: u32, data: seq<byte>, used: nat, req: nat)
      returns (status: Status)
      requires Valid() && 1 <= file < |nodes| && nodes[file].File? && |data| == count
      requires ic.At(s, file) && Agree(ic.slots[s].value, inodeTab[file])
      requires o == Start(nodes[file].data, offset) && used == BlocksFor(|nodes[file].data|)
      requires req == Max(BlocksFor((o + count) % U32_MOD), used) - used && used + req <= INODE_NUM_BLKS
      modifies this, Repr()
      ensures Valid()
      ensures status == Done ==> CanWrite(old(nodes), file, offset, data) && nodes == AfterWrite(old(nodes), file, offset, data)
      ensures status != Done ==> nodes == old(nodes)
      ensures status == Aborted <==> o + count >= U32_MOD
      ensures status == Failed ==> disk.numBlocks < ENOUGH_BLOCKS
    {
      hide WellFormed, LaidOut, Represents, OnDisk, Model, CacheKeys, Grown;
      ghost var view, bbmap := dc.view, blkBmap[..];
      TypeOf(file);
      Sizing(nodes[file].data, offset, data);
      var ok := ClaimBlocks(s, file, used, req);
      if !ok {
        return Failed;
      }
      // (int)count; a negative one turns neither loop and then differs from the 0 bytes written
      var limit: int := if count < 0x8000_0000 then count else count - U32_MOD;
      if limit < 0 {
        return Aborted;
      }
      StoreBytes(s, file, offset, o, data, used, used + req, view, bbmap);
      status := Done;
    }

    method StoreBytes(s: nat, file: nat, offset: u32, o: u32, data: seq<byte>, used: nat, total: nat,
                      ghost view: Represent.Blocks, ghost bbmap: seq<byte>)
      requires Ready() && 1 <= file < |nodes| && nodes[file].File? && CanWrite(nodes, file, offset, data)
      requires dc.view == view && Model(nodes, inodeTab[..], view, inodeBmap[..], bbmap, disk.numBlocks)
      requires CacheKeys(nodes, inodeTab[..], dc.Pages(), bc.Cached(), ic.Cached())
      requires ic.At(s, file) && Agree(ic.slots[s].value, inodeTab[file])
      requires o == Start(nodes[file].data, offset) && used == BlocksFor(|nodes[file].data|) <= total <= INODE_NUM_BLKS
      requires BlocksFor(|Splice(nodes[file].data, offset, data)|) == total
      requires LaidOut(Grown(inodeTab[..], file, ic.slots[s].value, total), |nodes|, disk.numBlocks, blkBmap[..])
      modifies this, Repr()
      ensures Valid() && nodes == AfterWrite(old(nodes), file, offset, data)
    {
      hide WellFormed, LaidOut;
      ghost var was := nodes[file].data;
      var n := ic.slots[s].value;
      ClaimedIsWritable(file, n, total, o, data, bbmap);
      var num := WriteBytes(n, used, total, o, data, |data|, was);
      var size := Max(o + |data|, n.size);
      FinishWrite(s, file, total, offset, data, size, view, bbmap);
    }

    // ----- directories -----

    /** An owned block is cached as a page of its owner only. */
    lemma OwnPage(dir: nat, b: nat)
      requires Consistent() && Owns(inodeTab[..], |nodes|, dir, b)
      ensures dc.OnlyFor(dir, b) && META_BLOCKS <= b < disk.numBlocks
    {
      OwnedIsData(inodeTab[..], |nodes|, disk.numBlocks, blkBmap[..], dir, b);
      forall d | (d, b) in dc.Pages() ensures d == dir {
        OneOwner(inodeTab[..], |nodes|, d, dir, b);
      }
    }

    /** dc_read of page k of a directory, between operations. */
    method ReadDirPage(dir: nat, ghost k: nat, b: u32) returns (page: seq<byte>)
      requires Valid() && 1 <= dir < |nodes| && nodes[dir].Dir?
      requires k < BlocksFor(inodeTab[dir].size) && b == inodeTab[dir].blocks[k]
      modifies dc, dc.slots, bc, bc.slots, clock, disk, disk.bytes
      ensures Valid() && page == dc.view[b] && dc.view == old(dc.view)
    {
      PageIsReadable(dir, k);
      hide WellFormed, LaidOut, Represents, OnDisk, Model, Owns, CacheKeys;
      page := FetchPage(dir, b);
      StillValid();
    }

    method FetchPage(dir: nat, b: nat) returns (page: seq<byte>)
      requires Ready() && dc.Clean() && META_BLOCKS <= b < disk.numBlocks && dc.OnlyFor(dir, b)
      requires dir < |nodes| && nodes[dir].Dir? && Owns(inodeTab[..], |nodes|, dir, b)
      requires CacheKeys(nodes, inodeTab[..], dc.Pages(), {}, ic.Cached())
      requires forall c | c in dc.Cached() || c in bc.Cached() :: META_BLOCKS <= c
      modifies dc, dc.slots, bc, bc.slots, clock, disk, disk.bytes
      ensures Ready() && dc.Clean() && page == dc.view[b] && dc.view == old(dc.view) && disk.view == old(disk.view)
      ensures CacheKeys(nodes, inodeTab[..], dc.Pages(), bc.Cached(), ic.Cached())
    {
      hide Owns, CacheKeys;
      ghost var pages := dc.Pages();
      page := ReadPage(dir, b);
      CacheKeysGrow(nodes, inodeTab[..], dir, b, pages, dc.Pages(), bc.Cached(), ic.Cached());
    }

    /** Reads through the caches leave a valid file system valid. */
    twostate lemma StillValid()
      requires old(Valid()) && nodes == old(nodes)
      requires Ready() && dc.Clean() && ic.Clean() && dc.view == old(dc.view) && disk.view == old(disk.view)
      requires inodeTab[..] == old(inodeTab[..]) && blkBmap[..] == old(blkBmap[..]) && inodeBmap[..] == old(inodeBmap[..])
      requires CacheKeys(nodes, inodeTab[..], dc.Pages(), bc.Cached(), ic.Cached())
      ensures Valid()
    {
      hide Model, OnDisk, CacheKeys;
    }

    lemma PageIsReadable(dir: nat, k: nat)
      requires Consistent() && 1 <= dir < |nodes| && nodes[dir].Dir? && k < BlocksFor(inodeTab[dir].size)
      ensures k < INODE_NUM_BLKS && dc.OnlyFor(dir, inodeTab[dir].blocks[k])
      ensures META_BLOCKS <= inodeTab[dir].blocks[k] < disk.numBlocks
      ensures Owns(inodeTab[..], |nodes|, dir, inodeTab[dir].blocks[k])
      ensures forall b | b in dc.Cached() || b in bc.Cached() :: META_BLOCKS <= b
      ensures CacheKeys(nodes, inodeTab[..], dc.Pages(), {}, ic.Cached())
    {
      ghost var tab := inodeTab[..];
      assert Claims(tab, |nodes|, dir, k) && tab[dir].blocks[k] == inodeTab[dir].blocks[k];
      OwnPage(dir, inodeTab[dir].blocks[k]);
      NoMetaCached();
    }

    /** fsi_dir_search: the first entry with the name, over all pages. The directory's cached inode
        stays where it is, as it is. */
    method DirSearch(dir: nat, name: Name) returns (found: bool, id: nat)
      requires Valid() && 1 <= dir < |nodes| && nodes[dir].Dir?
      modifies dc, dc.slots, bc, bc.slots, clock, disk, disk.bytes, ic.slots, inodeTab
      ensures Valid() && inodeTab[..] == old(inodeTab[..])
      ensures Lookup(nodes[dir].entries, name) == if found then Some(id) else None
      ensures forall i: nat | old(ic.At(i, dir)) :: ic.At(i, dir) && ic.slots[i].value == old(ic.slots[i].value)
      ensures old(ic.Flat(ROOT)) ==> ic.Flat(ROOT)
    {
      hide WellFormed, LaidOut, Represents, OnDisk, Model, CacheKeys;
      var s := Fetch(dir);
      found, id := SearchPages(s, dir, name);
    }

    method SearchPages(s: nat, dir: nat, name: Name) returns (found: bool, id: nat)
      requires Valid() && 1 <= dir < |nodes| && nodes[dir].Dir?
      requires ic.At(s, dir) && Agree(ic.slots[s].value, inodeTab[dir])
      modifies dc, dc.slots, bc, bc.slots, clock, disk, disk.bytes
      ensures Valid()
      ensures Lookup(nodes[dir].entries, name) == if found then Some(id) else None
    {
      hide WellFormed, LaidOut, Represents, OnDisk, Model, CacheKeys, PagesAre, PageIs;
      ghost var entries := nodes[dir].entries;
      PagesHold(dir);
      EntriesOfSlot(dir, s);
      var num := ic.slots[s].value.size / DENTRY_BYTES;
      var iblock := 0;
      while num > 0
        invariant Valid() && PagesAre(inodeTab[dir], dc.view, entries)
        invariant 0 <= num <= |entries| && (num > 0 ==> |entries| - num == DIR_PAGE_ENTRIES * iblock)
        invariant forall j | 0 <= j < |entries| - num :: entries[j].name != name
        decreases num
      {
        var i: nat;
        ghost var rest := entries[DIR_PAGE_ENTRIES * iblock..];
        PageThere(inodeTab[dir], dc.view, entries, iblock);
        found, i, id := SearchPage(dir, ic.slots[s].value.blocks[iblock], num, name, iblock, rest);
        NotInPage(entries, DIR_PAGE_ENTRIES * iblock, i, name);
        if found {
          LookupIsFirst(entries, DIR_PAGE_ENTRIES * iblock + i, name);
          return true, id;
        }
        num, iblock := num - i, iblock + 1;
      }
      LookupAbsent(entries, name);
      return false, 0;
    }

    method SearchPage(dir: nat, b: u32, num: nat, name: Name, ghost k: nat, ghost rest: seq<DirEntry>)
      returns (found: bool, i: nat, id: nat)
      requires Valid() && 1 <= dir < |nodes| && nodes[dir].Dir?
      requires k < BlocksFor(inodeTab[dir].size) && b == inodeTab[dir].blocks[k] && b < |dc.view|
      requires PageIs(dc.view[b], rest) && |rest| == num
      modifies dc, dc.slots, bc, bc.slots, clock, disk, disk.bytes
      ensures Valid() && dc.view == old(dc.view)
      ensures found ==> i < num && rest[i] == DirEntry(name, id)
      ensures !found ==> i == Min(DIR_PAGE_ENTRIES, num)
      ensures forall j | 0 <= j < i && j < num :: rest[j].name != name
    {
      hide WellFormed, LaidOut, Represents, OnDisk, Model, CacheKeys;
      var page := ReadDirPage(dir, k, b);
      found, i := ScanPage(page, num, name, rest);
      id := if found then IdAt(page, i) else 0;
    }

    /** What the pages of a directory say. */
    ghost predicate PagesAre(n: Inode, view: Represent.Blocks, entries: seq<DirEntry>) {
      && n.size == DENTRY_BYTES * |entries| && Mapped(n, view)
      && forall k: nat | DIR_PAGE_ENTRIES * k < |entries| ::
           k < BlocksFor(n.size) && PageIs(view[n.blocks[k]], entries[DIR_PAGE_ENTRIES * k..])
    }

    lemma PageThere(n: Inode, view: Represent.Blocks, entries: seq<DirEntry>, k: nat)
      requires PagesAre(n, view, entries) && DIR_PAGE_ENTRIES * k < |entries|
      ensures k < BlocksFor(n.size) && k < |n.blocks| && n.blocks[k] < |view|
      ensures PageIs(view[n.blocks[k]], entries[DIR_PAGE_ENTRIES * k..])
    {
    }

    lemma PagesHold(dir: nat)
      requires Consistent() && 1 <= dir < |nodes| && nodes[dir].Dir?
      ensures PagesAre(inodeTab[dir], dc.view, nodes[dir].entries)
    {
      var n, entries := inodeTab[..][dir], nodes[dir].entries;
      assert Represents(n, dc.view, nodes[dir]);
      forall k: nat | DIR_PAGE_ENTRIES * k < |entries|
        ensures k < BlocksFor(n.size) && PageIs(dc.view[n.blocks[k]], entries[DIR_PAGE_ENTRIES * k..])
      {
        forall i: nat | i < DIR_PAGE_ENTRIES && i < |entries| - DIR_PAGE_ENTRIES * k
          ensures NameAt(dc.view[n.blocks[k]], i) == entries[DIR_PAGE_ENTRIES * k..][i].name
          ensures IdAt(dc.view[n.blocks[k]], i) == entries[DIR_PAGE_ENTRIES * k..][i].id
        {
          var e := DIR_PAGE_ENTRIES * k + i;
          assert e / DIR_PAGE_ENTRIES == k && e % DIR_PAGE_ENTRIES == i;
        }
      }
    }

    // ----- fs_create and fs_mkdir -----

    /** Midway through an operation on inode `id`: its first `total` pointers are claimed, nothing
        else of the logical file system has changed yet (`bbmap` is the bitmap it started from). */
    ghost predicate Pending(id: nat, s: nat, total: nat, bbmap: seq<byte>)
      reads this, Repr()
    {
      && Ready()
      && Model(nodes, inodeTab[..], dc.view, inodeBmap[..], bbmap, disk.numBlocks)
      && CacheKeys(nodes, inodeTab[..], dc.Pages(), bc.Cached(), ic.Cached())
      && 1 <= id < |nodes| && ic.At(s, id) && Agree(ic.slots[s].value, inodeTab[id]) && total <= INODE_NUM_BLKS
      && LaidOut(Grown(inodeTab[..], id, ic.slots[s].value, total), |nodes|, disk.numBlocks, blkBmap[..])
    }

    /** A directory whose pages are all full gets another block. */
    method GrowDir(s0: nat, dir: nat) returns (ok: bool, s: nat)
      requires Valid() && 1 <= dir < |nodes| && nodes[dir].Dir? && |nodes[dir].entries| < 62
      requires ic.At(s0, dir) && Agree(ic.slots[s0].value, inodeTab[dir])
      modifies blkBmap, ic.slots, clock, inodeTab
      ensures !ok ==> Valid() && disk.numBlocks < ENOUGH_BLOCKS
      ensures ok ==> Pending(dir, s, |nodes[dir].entries| / DIR_PAGE_ENTRIES + 1, old(blkBmap[..]))
      ensures dir == ROOT && old(ic.Flat(ROOT)) ==> ic.Flat(ROOT)
      ensures Grew(old(blkBmap[..]), blkBmap[..])
    {
      hide WellFormed, LaidOut, Represents, OnDisk, CacheKeys, Model;
      TypeOf(dir);
      PendingStarts(s0, dir);
      var size := ic.slots[s0].value.size;
      if size % BLOCK_SIZE == 0 {
        ok, s := ClaimPage(s0, dir, size / BLOCK_SIZE);
      } else {
        ok, s := true, s0;
      }
    }

    lemma PendingStarts(s: nat, id: nat)
      requires Consistent() && 1 <= id < |nodes| && ic.At(s, id) && Agree(ic.slots[s].value, inodeTab[id])
      ensures Pending(id, s, BlocksFor(ic.slots[s].value.size), blkBmap[..])
      ensures |nodes| <= ITAB_SIZE
    {
      hide WellFormed, Represents;
      GrowthStarts(inodeTab[..], |nodes|, disk.numBlocks, blkBmap[..], id, ic.slots[s].value);
    }

    method ClaimPage(s0: nat, dir: nat, k: nat) returns (ok: bool, s: nat)
      requires Valid() && 1 <= dir < |nodes| <= ITAB_SIZE
      requires ic.At(s0, dir) && Agree(ic.slots[s0].value, inodeTab[dir])
      requires k == BlocksFor(ic.slots[s0].value.size) < INODE_NUM_BLKS
      requires LaidOut(Grown(inodeTab[..], dir, ic.slots[s0].value, k), |nodes|, disk.numBlocks, blkBmap[..])
      modifies blkBmap, ic.slots, clock, inodeTab
      ensures !ok ==> Valid() && disk.numBlocks < ENOUGH_BLOCKS
      ensures ok ==> Pending(dir, s, k + 1, old(blkBmap[..]))
      ensures dir == ROOT && old(ic.Flat(ROOT)) ==> ic.Flat(ROOT)
      ensures Grew(old(blkBmap[..]), blkBmap[..])
    {
      hide WellFormed, LaidOut, Represents, OnDisk;
      ghost var tab, n, bbmap := inodeTab[..], ic.slots[s0].value, blkBmap[..];
      var b: nat;
      assert BlocksFor(Grown(tab, dir, n, k)[dir].size) == k;
      ok, b := FindBlock(Grown(tab, dir, n, k), |nodes|, dir);
      if !ok {
        return false, s0;
      }
      s := SetPage(s0, dir, k, b, tab, bbmap);
      GrewBy(bbmap, blkBmap[..], b);
    }

    method SetPage(s0: nat, dir: nat, k: nat, b: nat, ghost tab: seq<Inode>, ghost bbmap: seq<byte>) returns (s: nat)
      requires Consistent() && tab == inodeTab[..] && bbmap == blkBmap[..] && 1 <= dir < |nodes| <= ITAB_SIZE
      requires ic.At(s0, dir) && Agree(ic.slots[s0].value, inodeTab[dir])
      requires BlocksFor(ic.slots[s0].value.size) <= k < INODE_NUM_BLKS
      requires LaidOut(Grown(tab, dir, ic.slots[s0].value, k), |nodes|, disk.numBlocks, bbmap)
      requires b < disk.numBlocks && b < 8 * BLOCK_SIZE && !IsSet(bbmap, b)
      modifies blkBmap, ic.slots, clock, inodeTab
      ensures Pending(dir, s, k + 1, bbmap)
      ensures dir == ROOT && old(ic.Flat(ROOT)) ==> ic.Flat(ROOT)
      ensures forall k: nat | k < 8 * BLOCK_SIZE :: IsSet(blkBmap[..], k) == (k == b || IsSet(bbmap, k))
    {
      hide WellFormed, LaidOut, Represents;
      PointAt(s0, dir, k, b, tab, bbmap);
      s := Refetch(s0, dir, k + 1, tab, bbmap);
    }

    /** The second ic_get: the directory is still cached, in the same slot and as it was left. */
    method Refetch(s0: nat, dir: nat, total: nat, ghost tab: seq<Inode>, ghost bbmap: seq<byte>) returns (s: nat)
      requires Ready() && 1 <= dir < |nodes| && total <= INODE_NUM_BLKS && ic.At(s0, dir)
      requires Model(nodes, tab, dc.view, inodeBmap[..], bbmap, disk.numBlocks)
      requires CacheKeys(nodes, tab, dc.Pages(), bc.Cached(), ic.Cached())
      requires Agree(ic.slots[s0].value, tab[dir]) && inodeTab[..] == tab[dir := ic.slots[s0].value]
      requires LaidOut(Grown(tab, dir, ic.slots[s0].value, total), |nodes|, disk.numBlocks, blkBmap[..])
      modifies ic.slots, clock, inodeTab
      ensures Pending(dir, s, total, bbmap) && s == s0
      ensures dir == ROOT && old(ic.Flat(ROOT)) ==> ic.Flat(ROOT)
    {
      hide WellFormed, LaidOut, Represents, Model;
      ghost var n, tab1 := ic.slots[s0].value, inodeTab[..];
      SlotHolds(s0, dir);
      s := GetInode(dir);
      SettlePending(tab, tab1, dir, s, total, n, bbmap);
    }

    method PointAt(s: nat, dir: nat, k: nat, b: nat, ghost tab: seq<Inode>, ghost bbmap: seq<byte>)
      requires Ready() && tab == inodeTab[..] && bbmap == blkBmap[..] && 1 <= dir < |nodes| <= ITAB_SIZE
      requires ic.At(s, dir) && BlocksFor(ic.slots[s].value.size) <= k < INODE_NUM_BLKS
      requires LaidOut(Grown(tab, dir, ic.slots[s].value, k), |nodes|, disk.numBlocks, bbmap)
      requires b < disk.numBlocks && b < 8 * BLOCK_SIZE && !IsSet(bbmap, b)
      modifies blkBmap, ic.slots, inodeTab
      ensures Ready() && ic.At(s, dir) && ic.Cached() == old(ic.Cached())
      ensures ic.slots[s].value == old(ic.slots[s].value).(blocks := old(ic.slots[s].value.blocks)[k := b])
      ensures inodeTab[..] == tab[dir := ic.slots[s].value]
      ensures LaidOut(Grown(tab, dir, ic.slots[s].value, k + 1), |nodes|, disk.numBlocks, blkBmap[..])
      ensures dir == ROOT && old(ic.Flat(ROOT)) ==> ic.Flat(ROOT)
      ensures forall k: nat | k < 8 * BLOCK_SIZE :: IsSet(blkBmap[..], k) == (k == b || IsSet(bbmap, k))
    {
      hide LaidOut;
      var n := ic.slots[s].value;
      MarkBlock(b);
      assert |blkBmap[..]| == BLOCK_SIZE && |tab| == ITAB_SIZE;
      UpdateInode(s, dir, n.(blocks := n.blocks[k := b]));
      TakeBlock(tab, |nodes|, disk.numBlocks, bbmap, blkBmap[..], dir, n, k, b);
    }

    lemma SlotHolds(s: nat, id: nat)
      requires ic.At(s, id)
      ensures id in ic.Cached()
    {
      assert ic.slots[..][s].valid;
    }

    lemma SettlePending(tab: seq<Inode>, tab1: seq<Inode>, dir: nat, s: nat, total: nat, n: Inode, bbmap: seq<byte>)
      requires Ready() && 1 <= dir < |nodes| && ic.At(s, dir) && ic.slots[s].value == n && total <= INODE_NUM_BLKS
      requires Model(nodes, tab, dc.view, inodeBmap[..], bbmap, disk.numBlocks)
      requires CacheKeys(nodes, tab, dc.Pages(), bc.Cached(), ic.Cached())
      requires tab1 == tab[dir := n] && Agree(n, tab[dir])
      requires LaidOut(Grown(tab, dir, n, total), |nodes|, disk.numBlocks, blkBmap[..])
      requires forall k | 0 <= k < ITAB_SIZE :: Agree(tab1[k], inodeTab[k])
      ensures Pending(dir, s, total, bbmap)
    {
      var t := inodeTab[..];
      forall k | 0 <= k < ITAB_SIZE ensures Agree(tab[k], t[k]) {
        assert Agree(tab1[k], t[k]);
      }
      ModelFrame(nodes, tab, dc.view, inodeBmap[..], bbmap, disk.numBlocks, t, dc.view);
      CacheKeysFrame(nodes, tab, nodes, t, dc.Pages(), bc.Cached(), ic.Cached());
      LaidOutFrame(Grown(tab, dir, n, total), Grown(t, dir, n, total), |nodes|, disk.numBlocks, blkBmap[..]);
    }

    /** A claimed block, even one not yet in use, can be a cached page of its own directory only. */
    lemma PendingPage(dir: nat, s: nat, total: nat, k: nat, bbmap: seq<byte>)
      requires Pending(dir, s, total, bbmap) && k < total
      ensures var b := ic.slots[s].value.blocks[k];
              META_BLOCKS <= b < disk.numBlocks && dc.OnlyFor(dir, b) && b < |dc.view|
      ensures forall c | c in dc.Cached() || c in bc.Cached() :: META_BLOCKS <= c
      ensures Uniform(dc.view)
    {
      var tab, t := inodeTab[..], Grown(inodeTab[..], dir, ic.slots[s].value, total);
      var b := ic.slots[s].value.blocks[k];
      assert Claims(t, |nodes|, dir, k) && t[dir].blocks[k] == b;
      forall d: nat, c: nat | (d, c) in dc.Pages() ensures META_BLOCKS <= c && (c == b ==> d == dir) {
        OwnedIsData(tab, |nodes|, disk.numBlocks, bbmap, d, c);
        var j: nat :| Claims(tab, |nodes|, d, j) && tab[d].blocks[j] == c;
        if d != dir {
          assert Claims(t, |nodes|, d, j) && t[d].blocks[j] == c;
        }
      }
      forall c | c in dc.Cached() ensures META_BLOCKS <= c {
        DC.CachedHasPage(dc.slots[..], c);
      }
    }

    /** The new entry goes into its page. */
    method AddEntry(dir: nat, b: nat, k: nat, name: Name, id: nat)
      requires Ready() && b < disk.numBlocks && dc.OnlyFor(dir, b) && b < |dc.view| && Uniform(dc.view)
      requires k < DIR_PAGE_ENTRIES && GoodName(name) && id < 0x1_0000
      modifies dc, dc.slots, bc, bc.slots, clock, disk, disk.bytes
      ensures Ready() && dc.view == old(dc.view)[b := WithEntry(old(dc.view)[b], k, name, id)]
      ensures dc.Pages() <= old(dc.Pages()) + {(dir, b)}
      ensures bc.Cached() <= old(bc.Cached() + dc.Cached()) + {b}
    {
      var page := ReadPage(dir, b);
      ghost var pages, cached := dc.Pages(), dc.Cached();
      assert cached <= old(dc.Cached()) + {b} by {
        forall c | c in cached ensures c in old(dc.Cached()) + {b} {
          DC.CachedHasPage(dc.slots[..], c);
        }
      }
      assert dc.OnlyFor(dir, b);
      WritePage(dir, b, WithEntry(page, k, name, id));
    }

    /** ic_invalidate of an inode that is not cached: nothing happens. */
    method DropInode(id: nat)
      requires Ready() && id < ITAB_SIZE && id !in ic.Cached()
      modifies ic.slots, inodeTab
      ensures Ready() && inodeTab[..] == old(inodeTab[..]) && ic.slots[..] == old(ic.slots[..])
      ensures old(ic.Flat(ROOT)) ==> ic.Flat(ROOT)
    {
      ic.Invalidate(id);
    }

    /** The inode half of fs_create: the new inode is marked, initialised, and dropped from the cache. */
    method AddInode(id: nat, itype: u32)
      requires Ready() && id < ITAB_SIZE && id !in ic.Cached()
      modifies inodeBmap, inodeTab, ic.slots
      ensures Ready() && inodeTab[..] == old(inodeTab[..])[id := inodeTab[id]]
      ensures inodeTab[id].itype == itype && inodeTab[id].size == 0 && Shaped(inodeTab[id])
      ensures forall k: nat | k < 8 * BLOCK_SIZE :: IsSet(inodeBmap[..], k) == (k == id || old(IsSet(inodeBmap[..], k)))
      ensures ic.slots[..] == old(ic.slots[..])
      ensures old(ic.Flat(ROOT)) ==> ic.Flat(ROOT)
    {
      MarkInode(id);
      InitInode(id, itype);
      DropInode(id);
      assert inodeTab[..][id] == inodeTab[id];
    }

    /** Page, directory inode, then the new inode. */
    method StoreEntry(dir: nat, s: nat, name: Name, id: nat, itype: u32)
      requires Ready() && ic.At(s, dir) && id < ITAB_SIZE && id !in ic.Cached() && GoodName(name)
      requires var n := ic.slots[s].value;
               && Shaped(n) && n.size % DENTRY_BYTES == 0 && n.size < BLOCK_SIZE * INODE_NUM_BLKS && Uniform(dc.view)
               && var b := n.blocks[n.size / BLOCK_SIZE];
                  META_BLOCKS <= b < disk.numBlocks && b < |dc.view| && dc.OnlyFor(dir, b)
      requires forall c | c in dc.Cached() || c in bc.Cached() :: META_BLOCKS <= c
      modifies dc, dc.slots, bc, bc.slots, clock, disk, disk.bytes, ic.slots, inodeTab, inodeBmap
      ensures Ready() && ic.Cached() == old(ic.Cached())
      ensures var n := old(ic.slots[s].value); var b := n.blocks[n.size / BLOCK_SIZE];
              && dc.view == old(dc.view)[b := WithEntry(old(dc.view)[b], n.size % BLOCK_SIZE / DENTRY_BYTES, name, id)]
              && dc.Pages() <= old(dc.Pages()) + {(dir, b)}
              && inodeTab[..] == old(inodeTab[..])[dir := n.(size := n.size + DENTRY_BYTES)][id := inodeTab[id]]
      ensures forall c | c in bc.Cached() :: META_BLOCKS <= c
      ensures inodeTab[id].itype == itype && inodeTab[id].size == 0 && Shaped(inodeTab[id])
      ensures forall k: nat | k < 8 * BLOCK_SIZE :: IsSet(inodeBmap[..], k) == (k == id || old(IsSet(inodeBmap[..], k)))
      ensures dir == ROOT && old(ic.Flat(ROOT)) ==> ic.Flat(ROOT)
    {
      hide Coherent, Stamped, Distinct, WithEntry;
      var n := ic.slots[s].value;
      var b := n.blocks[n.size / BLOCK_SIZE];
      AddEntry(dir, b, n.size % BLOCK_SIZE / DENTRY_BYTES, name, id);
      AddInodes(s, dir, n.(size := n.size + DENTRY_BYTES), id, itype);
    }

    method AddInodes(s: nat, dir: nat, n: Inode, id: nat, itype: u32)
      requires Ready() && ic.At(s, dir) && Shaped(n) && id < ITAB_SIZE && id !in ic.Cached()
      modifies ic.slots, inodeTab, inodeBmap
      ensures Ready() && ic.Cached() == old(ic.Cached())
      ensures inodeTab[..] == old(inodeTab[..])[dir := n][id := inodeTab[id]]
      ensures inodeTab[id].itype == itype && inodeTab[id].size == 0 && Shaped(inodeTab[id])
      ensures forall k: nat | k < 8 * BLOCK_SIZE :: IsSet(inodeBmap[..], k) == (k == id || old(IsSet(inodeBmap[..], k)))
      ensures old(ic.Flat(ROOT)) && (dir == ROOT || Second(n) == 0) ==> ic.Flat(ROOT)
    {
      UpdateInode(s, dir, n);
      AddInode(id, itype);
    }

    /** From a pending directory to a file system with one more node, stored. */
    method FinishCreate(dir: nat, s: nat, name: Name, id: nat, leaf: Node, itype: u32, ghost bbmap: seq<byte>)
      requires 1 <= dir && CanCreate(nodes, dir, name) && id == |nodes|
      requires Pending(dir, s, |nodes[dir].entries| / DIR_PAGE_ENTRIES + 1, bbmap)
      requires (leaf == File([]) && itype == FS_FILE) || (leaf == Dir([]) && itype == FS_DIR)
      modifies this, Repr()
      ensures Valid() && nodes == AfterCreate(old(nodes), dir, name, leaf)
      ensures dir == ROOT && old(ic.Flat(ROOT)) ==> ic.Flat(ROOT)
      ensures blkBmap[..] == old(blkBmap[..]) && Saved()
    {
      hide WellFormed, LaidOut, Represents, Model, CacheKeys;
      AddNode(dir, s, name, id, leaf, itype, bbmap);
      Commit();
    }

    method AddNode(dir: nat, s: nat, name: Name, id: nat, leaf: Node, itype: u32, ghost bbmap: seq<byte>)
      requires 1 <= dir && CanCreate(nodes, dir, name) && id == |nodes|
      requires Pending(dir, s, |nodes[dir].entries| / DIR_PAGE_ENTRIES + 1, bbmap)
      requires (leaf == File([]) && itype == FS_FILE) || (leaf == Dir([]) && itype == FS_DIR)
      modifies this, Repr()
      ensures Consistent() && nodes == AfterCreate(old(nodes), dir, name, leaf)
      ensures dir == ROOT && old(ic.Flat(ROOT)) ==> ic.Flat(ROOT)
      ensures blkBmap[..] == old(blkBmap[..])
    {
      hide WellFormed, LaidOut, Represents, Model, CacheKeys;
      ghost var at := |nodes[dir].entries| / DIR_PAGE_ENTRIES;
      ghost var tab, view, ibmap, pages, n := inodeTab[..], dc.view, inodeBmap[..], dc.Pages(), ic.slots[s].value;
      PendingSize(dir, s, bbmap);
      PendingPage(dir, s, at + 1, at, bbmap);
      StoreEntry(dir, s, name, id, itype);
      CreateBecomesModel(dir, name, leaf, itype, tab, view, ibmap, bbmap, n, pages);
      nodes := AfterCreate(nodes, dir, name, leaf);
    }

    lemma CreateBecomesModel(dir: nat, name: Name, leaf: Node, itype: nat, tab: seq<Inode>, view: Represent.Blocks,
                             ibmap: seq<byte>, bbmap: seq<byte>, n: Inode, pages: set<(nat, nat)>)
      requires Ready() && 1 <= dir && CanCreate(nodes, dir, name)
      requires Model(nodes, tab, view, ibmap, bbmap, disk.numBlocks)
      requires CacheKeys(nodes, tab, pages, {}, ic.Cached()) && forall c | c in bc.Cached() :: META_BLOCKS <= c
      requires Agree(n, tab[dir]) && n.size == DENTRY_BYTES * |nodes[dir].entries| && |nodes[dir].entries| < 62
      requires LaidOut(Grown(tab, dir, n, n.size / BLOCK_SIZE + 1), |nodes|, disk.numBlocks, blkBmap[..])
      requires var b := n.blocks[n.size / BLOCK_SIZE];
               && b < |view|
               && dc.view == view[b := WithEntry(view[b], n.size % BLOCK_SIZE / DENTRY_BYTES, name, |nodes|)]
               && dc.Pages() <= pages + {(dir, b)}
      requires inodeTab[..] == tab[dir := n.(size := n.size + DENTRY_BYTES)][|nodes| := inodeTab[|nodes|]]
      requires inodeTab[|nodes|].itype == itype && inodeTab[|nodes|].size == 0 && Shaped(inodeTab[|nodes|])
      requires (leaf == File([]) && itype == FS_FILE) || (leaf == Dir([]) && itype == FS_DIR)
      requires forall k: nat | k < ITAB_SIZE :: IsSet(inodeBmap[..], k) == (k == |nodes| || IsSet(ibmap, k))
      ensures var nodes' := AfterCreate(nodes, dir, name, leaf);
              && Model(nodes', inodeTab[..], dc.view, inodeBmap[..], blkBmap[..], disk.numBlocks)
              && CacheKeys(nodes', inodeTab[..], dc.Pages(), bc.Cached(), ic.Cached())
    {
      hide WellFormed, LaidOut, Represents, CacheKeys;
      var at, n' := n.size / BLOCK_SIZE, n.(size := n.size + DENTRY_BYTES);
      var t, nodes' := tab[dir := n'], AfterCreate(nodes, dir, name, leaf);
      DirBecomes(nodes, dir, name, tab, view, dc.view, n, n', at, disk.numBlocks, blkBmap[..]);
      ModelAfterCreate(nodes, tab, view, ibmap, bbmap, disk.numBlocks, dir, name, leaf, n', inodeTab[|nodes|],
                       dc.view, inodeBmap[..], blkBmap[..]);
      DirGrows(nodes, tab, t, dir, pages, ic.Cached());
      CacheKeysGrow(nodes, t, dir, n.blocks[at], pages, dc.Pages(), bc.Cached(), ic.Cached());
      CacheKeysFrame(nodes, t, nodes', inodeTab[..], dc.Pages(), bc.Cached(), ic.Cached());
    }

    lemma PendingSize(dir: nat, s: nat, bbmap: seq<byte>)
      requires 1 <= dir < |nodes| && nodes[dir].Dir? && |nodes| < MAX_NODES
      requires Pending(dir, s, |nodes[dir].entries| / DIR_PAGE_ENTRIES + 1, bbmap)
      ensures ic.slots[s].value.size == DENTRY_BYTES * |nodes[dir].entries| && |nodes[dir].entries| < 62
      ensures ic.slots[s].value.itype == FS_DIR && Shaped(ic.slots[s].value)
      ensures |nodes| !in ic.Cached() && CacheKeys(nodes, inodeTab[..], dc.Pages(), {}, ic.Cached())
    {
      assert Represents(inodeTab[..][dir], dc.view, nodes[dir]);
      DirectoriesAreSmall(nodes, dir);
    }

    /** fs_create: an empty file, numbered after every inode in use, joins the directory. It fails
        when the name is unusable or taken, the directory is none, or the table is full; and, on a
        disk of fewer than 640 blocks, perhaps for want of a block. */
    method Create(dir: nat, name: Name) returns (status: Status, id: nat)
      requires Valid() && NoNul(name)
      modifies this, Repr()
      ensures Valid() && status != Aborted
      ensures status == Done ==> CanCreate(old(nodes), dir, name) && id == |old(nodes)| &&
                                 nodes == AfterCreate(old(nodes), dir, name, File([]))
      ensures status == Failed ==> nodes == old(nodes)
      ensures status == Failed && CanCreate(old(nodes), dir, name) ==> disk.numBlocks < ENOUGH_BLOCKS
      ensures dir == ROOT && old(ic.Flat(ROOT)) ==> ic.Flat(ROOT)
      ensures Grew(old(blkBmap[..]), blkBmap[..])
      ensures status == Done ==> Saved()
    {
      status, id := MakeNode(dir, name, File([]), FS_FILE);
    }

    /** fs_mkdir: the same with an empty directory. */
    method Mkdir(dir: nat, name: Name) returns (status: Status, id: nat)
      requires Valid() && NoNul(name)
      modifies this, Repr()
      ensures Valid() && status != Aborted
      ensures status == Done ==> CanCreate(old(nodes), dir, name) && id == |old(nodes)| &&
                                 nodes == AfterCreate(old(nodes), dir, name, Dir([]))
      ensures status == Failed ==> nodes == old(nodes)
      ensures status == Failed && CanCreate(old(nodes), dir, name) ==> disk.numBlocks < ENOUGH_BLOCKS
    {
      status, id := MakeNode(dir, name, Dir([]), FS_DIR);
    }

    /** The body that fs_create and fs_mkdir share but for the type of the new inode. */
    method MakeNode(dir: nat, name: Name, leaf: Node, itype: u32) returns (status: Status, id: nat)
      requires Valid() && NoNul(name)
      requires (leaf == File([]) && itype == FS_FILE) || (leaf == Dir([]) && itype == FS_DIR)
      modifies this, Repr()
      ensures Valid() && status != Aborted
      ensures status == Done ==> CanCreate(old(nodes), dir, name) && id == |old(nodes)| &&
                                 nodes == AfterCreate(old(nodes), dir, name, leaf)
      ensures status == Failed ==> nodes == old(nodes)
      ensures status == Failed && CanCreate(old(nodes), dir, name) ==> disk.numBlocks < ENOUGH_BLOCKS
      ensures dir == ROOT && old(ic.Flat(ROOT)) ==> ic.Flat(ROOT)
      ensures Grew(old(blkBmap[..]), blkBmap[..])
      ensures status == Done ==> Saved()
    {
      hide WellFormed, LaidOut, Represents, Model, CacheKeys, OnDisk;
      if |name| == 0 || |name| + 1 > FS_MAX_FNAME_SZ {
        return Failed, 0;
      }
      var ok, s := Open(dir, FS_DIR);
      if !ok {
        return Failed, 0;
      }
      var taken: bool;
      taken, id := DirSearch(dir, name);
      if taken {
        return Failed, id;
      }
      status, id := MakeIn(s, dir, name, leaf, itype);
    }

    /** The free inode, the directory's block if it needs one, and the rest. */
    method MakeIn(s0: nat, dir: nat, name: Name, leaf: Node, itype: u32) returns (status: Status, id: nat)
      requires Valid() && 1 <= dir < |nodes| && nodes[dir].Dir? && GoodName(name)
      requires ic.At(s0, dir) && Agree(ic.slots[s0].value, inodeTab[dir])
      requires Lookup(nodes[dir].entries, name) == None
      requires (leaf == File([]) && itype == FS_FILE) || (leaf == Dir([]) && itype == FS_DIR)
      modifies this, Repr()
      ensures Valid() && status != Aborted
      ensures status == Done ==> CanCreate(old(nodes), dir, name) && id == |old(nodes)| &&
                                 nodes == AfterCreate(old(nodes), dir, name, leaf)
      ensures status == Failed ==> nodes == old(nodes)
      ensures status == Failed && |old(nodes)| < MAX_NODES ==> disk.numBlocks < ENOUGH_BLOCKS
      ensures dir == ROOT && old(ic.Flat(ROOT)) ==> ic.Flat(ROOT)
      ensures Grew(old(blkBmap[..]), blkBmap[..])
      ensures status == Done ==> Saved()
    {
      hide WellFormed, LaidOut, Represents, Model, CacheKeys, OnDisk;
      var ok: bool;
      ok, id := FindInode();
      if !ok {
        return Failed, 0;
      }
      RoomInDir(dir);
      var s: nat;
      ghost var bbmap := blkBmap[..];
      ok, s := GrowDir(s0, dir);
      if !ok {
        return Failed, 0;
      }
      FinishCreate(dir, s, name, id, leaf, itype, bbmap);
      status := Done;
    }

    /** fsi_bmap_find_free on the inode bitmap: the inodes in use are always the first ones. */
    method FindInode() returns (ok: bool, id: nat)
      requires Consistent()
      ensures ok <==> |nodes| < MAX_NODES
      ensures ok ==> id == |nodes|
    {
      hide LaidOut, Represents, CacheKeys;
      ok, id := FindFree(inodeBmap, ITAB_SIZE);
      assert |nodes| < ITAB_SIZE ==> !IsSet(inodeBmap[..], |nodes|);
    }

    lemma RoomInDir(dir: nat)
      requires Consistent() && dir < |nodes| < MAX_NODES && nodes[dir].Dir?
      ensures |nodes[dir].entries| < 62
    {
      DirectoriesAreSmall(nodes, dir);
    }

    // ----- fs_lookup -----

    /** fs_lookup: 1 and the inode the path leads to, 0 for a name that is not there, -1 for a
        relative path or a component that is no directory. A path without components reports 1
        but leaves the result variable as the caller had it. */
    method LookupPath(path: seq<byte>, fileid0: nat) returns (r: int, fileid: nat)
      requires Valid() && NoNul(path) && |path| < Paths.MAX_PATH_NAME_SIZE
      modifies dc, dc.slots, bc, bc.slots, clock, disk, disk.bytes, ic.slots, inodeTab
      ensures Valid()
      ensures r == if !Absolute(path) then -1
                   else match Resolve(nodes, path) case Found(_) => 1 case Missing => 0 case NotDir => -1
      ensures r == 1 && Components(path) != [] ==> Resolve(nodes, path) == Found(fileid)
      ensures r == 1 && Components(path) == [] ==> fileid == fileid0
    {
      hide WellFormed, LaidOut, Represents, Model, CacheKeys, OnDisk;
      fileid := fileid0;
      if path == [] || path[0] != SLASH {
        return -1, fileid;
      }
      var dir := ROOT;
      RootIsDir();
      var (token, rest) := StrTok(path);
      ghost var whole := Components(path);
      while token != []
        invariant Valid() && 1 <= dir < |nodes|
        invariant Resolve(nodes, path) ==
            if token == [] then Found(dir) else Walk(nodes, dir, [token] + Components(rest))
        invariant token == [] && whole == [] ==> fileid == fileid0
        invariant token == [] && whole != [] ==> fileid == dir
        invariant whole == [] ==> token == []
        decreases |rest| + |token|
      {
        ghost var names := [token] + Components(rest);
        assert names[0] == token && names[1..] == Components(rest);
        var fid: nat;
        r, fid := LookupStep(dir, token);
        if r != 1 {
          return;
        }
        fileid, dir := fid, fid;
        var (next, rest') := StrTok(rest);
        token, rest := next, rest';
      }
      r := 1;
    }

    /** One component: the directory must be one, and hold the name. */
    method LookupStep(dir: nat, token: Name) returns (r: int, fid: nat)
      requires Valid() && 1 <= dir < |nodes|
      modifies dc, dc.slots, bc, bc.slots, clock, disk, disk.bytes, ic.slots, inodeTab
      ensures Valid()
      ensures r == -1 <==> !nodes[dir].Dir?
      ensures r == 0 <==> nodes[dir].Dir? && Lookup(nodes[dir].entries, token) == None
      ensures r == 1 <==> nodes[dir].Dir? && Lookup(nodes[dir].entries, token) == Some(fid)
      ensures r == 1 ==> 1 <= fid < |nodes|
      ensures -1 <= r <= 1
    {
      hide WellFormed, LaidOut, Represents, Model, CacheKeys, OnDisk;
      var ok, _ := Open(dir, FS_DIR);
      if !ok {
        return -1, 0;
      }
      var found: bool;
      found, fid := DirSearch(dir, token);
      if !found {
        return 0, fid;
      }
      ChildIsAllocated(dir, token);
      r := 1;
    }

    lemma RootIsDir()
      requires Consistent()
      ensures ROOT < |nodes| && nodes[ROOT].Dir?
    {
    }

    lemma ChildIsAllocated(dir: nat, name: Name)
      requires Consistent() && dir < |nodes| && nodes[dir].Dir? && Lookup(nodes[dir].entries, name).Some?
      ensures 1 <= Lookup(nodes[dir].entries, name).value < |nodes|
    {
      var k := LookupFinds(nodes[dir].entries, name);
    }

    // ----- fs_readdir -----

    /** fs_readdir. It keeps the slot that ic_get gave it for the directory over both pages. With 4 slots
        that slot is the 32nd entry's inode by the time of the second page, so the call strays exactly
        when it has more than one page to list, and then breaks the keys of the page cache whenever the
        block it goes to is not the directory's own. */
    method Readdir(dir: nat, maxentries: int) returns (r: Listed)
      requires Valid()
      modifies dc, dc.slots, bc, bc.slots, clock, disk, disk.bytes, ic.slots, inodeTab
      ensures r.Refused? <==> !(maxentries >= 0 && dir < |nodes| && nodes[dir].Dir?)
      ensures r.Refused? || r.Exact? ==> Valid()
      ensures !r.Refused? ==> (r.Exact? <==> Min(|nodes[dir].entries|, maxentries) <= DIR_PAGE_ENTRIES)
      ensures r.Exact? ==> Lists(r.listing, dir, Min(|nodes[dir].entries|, maxentries))
      ensures r.Mixed? || r.Wild? ==>
                Astray(r, dir, Min(|nodes[dir].entries|, maxentries), old(inodeTab[..]), old(dc.view))
      ensures (r.Mixed? || r.Wild?) && dir == ROOT && old(ic.Flat(ROOT)) ==> r.block == 0
      ensures r.Mixed? && (r.block < META_BLOCKS || TwoBlocks(old(inodeTab[..]), TakesOver(dir))) ==> !Valid()
    {
      hide WellFormed, LaidOut, Represents, Model, CacheKeys, OnDisk, Keeps, Readable, Lists, ListsFrom, IC.ICache.Flat, Consistent, Astray, TwoBlocks, Since;
      if maxentries < 0 {
        return Refused;
      }
      var ok, s := Open(dir, FS_DIR);
      if !ok {
        return Refused;
      }
      EntriesOfSlot(dir, s);
      KeepsAtFirst(dir, s);
      var num := Min(ic.slots[s].value.size / DENTRY_BYTES, maxentries);
      var listing, strayed := ListPages(dir, s, num);
      if !strayed {
        return Exact(listing);
      }
      r := ListAstray(dir, s, num - DIR_PAGE_ENTRIES, listing);
    }

    lemma EntriesOfSlot(dir: nat, s: nat)
      requires Consistent() && dir < |nodes| && nodes[dir].Dir? && s < ic.slots.Length && Agree(ic.slots[s].value, inodeTab[dir])
      ensures ic.slots[s].value.size / DENTRY_BYTES == |nodes[dir].entries|
    {
      TypeOf(dir);
    }

    ghost predicate Keeps(dir: nat, s: nat, k: nat)
      requires dir < |nodes| && nodes[dir].Dir? && k <= |nodes[dir].entries|
      reads this, ic.slots
    {
      && ic.At(s, Keeper(dir, nodes[dir].entries, k))
      && Since(ic.slots[..], s, ic.slots[s], Window(nodes[dir].entries, k))
    }

    lemma KeepsAtFirst(dir: nat, s: nat)
      requires dir < |nodes| && nodes[dir].Dir? && ic.At(s, dir) && Since(ic.slots[..], s, ic.slots[s], {})
      ensures Keeps(dir, s, 0)
    {
      assert Window(nodes[dir].entries, 0) == {};
    }

    lemma EntriesDiffer(dir: nat, i: nat, j: nat)
      requires Consistent() && dir < |nodes| && nodes[dir].Dir? && i < j < |nodes[dir].entries|
      ensures nodes[dir].entries[i].id != nodes[dir].entries[j].id
    {
      assert Names(nodes, dir, i, nodes[dir].entries[i].id) && Names(nodes, dir, j, nodes[dir].entries[j].id);
    }

    /** The next entry's inode is neither in the slot nor among those fetched since. */
    lemma NextIsNew(dir: nat, k: nat)
      requires Consistent() && dir < |nodes| && nodes[dir].Dir? && k < |nodes[dir].entries|
      ensures var entries := nodes[dir].entries;
              && |Window(entries, k)| == k % INODE_CACHE_SIZE && entries[k].id !in Window(entries, k)
              && entries[k].id != Keeper(dir, entries, k)
              && Keeper(dir, entries, k + 1) == (if (k + 1) % INODE_CACHE_SIZE == 0 then entries[k].id else Keeper(dir, entries, k))
              && Window(entries, k + 1) == (if (k + 1) % INODE_CACHE_SIZE == 0 then {} else Window(entries, k) + {entries[k].id})
    {
      hide WellFormed, LaidOut, Represents, CacheKeys, Consistent, Keeper, Window;
      var entries := nodes[dir].entries;
      forall i: nat, j: nat | i < j < |entries| ensures entries[i].id != entries[j].id {
        EntriesDiffer(dir, i, j);
      }
      EntryIsAllocated(dir, k);
      NextWindow(dir, entries, k);
    }

    /** The loop over the pages. */
    method ListPages(dir: nat, s: nat, total: nat) returns (listing: seq<(Name, nat)>, strayed: bool)
      requires Valid() && 1 <= dir < |nodes| && nodes[dir].Dir? && total <= |nodes[dir].entries|
      requires Keeps(dir, s, 0)
      modifies dc, dc.slots, bc, bc.slots, clock, disk, disk.bytes, ic.slots, inodeTab
      ensures Valid() && inodeTab[..] == old(inodeTab[..]) && dc.view == old(dc.view)
      ensures old(ic.Flat(ROOT)) ==> ic.Flat(ROOT)
      ensures |nodes[dir].entries| <= 62 && (strayed <==> total > DIR_PAGE_ENTRIES)
      ensures !strayed ==> Lists(listing, dir, total)
      ensures strayed ==> Lists(listing, dir, DIR_PAGE_ENTRIES) && ic.At(s, TakesOver(dir))
    {
      hide WellFormed, LaidOut, Represents, Model, CacheKeys, OnDisk, Since, Lists, ListsFrom, Keeps, Coherent, Stamped, IC.ICache.Flat;
      listing, strayed := [], false;
      NothingListed(dir);
      SmallDir(dir);
      var num, iblock := total, 0;
      while num > 0
        invariant Valid() && inodeTab[..] == old(inodeTab[..]) && dc.view == old(dc.view) && 0 <= num <= total
        invariant old(ic.Flat(ROOT)) ==> ic.Flat(ROOT)
        invariant Lists(listing, dir, total - num) && (num > 0 ==> total - num == DIR_PAGE_ENTRIES * iblock)
        invariant Keeps(dir, s, total - num) && total - num <= DIR_PAGE_ENTRIES
        decreases num
      {
        WhileKept(dir, s, total - num);
        if !(ic.slots[s].valid && ic.slots[s].addr == dir) {
          return listing, true;
        }
        var count := Min(DIR_PAGE_ENTRIES, num);
        var more := ListNextPage(dir, s, iblock, count);
        ListsAppend(listing, more, dir, total - num, count);
        listing, num, iblock := listing + more, num - count, iblock + 1;
      }
    }

    lemma SmallDir(dir: nat)
      requires Consistent() && dir < |nodes| && nodes[dir].Dir?
      ensures |nodes[dir].entries| <= 62
    {
      DirectoriesAreSmall(nodes, dir);
    }

    lemma NothingListed(dir: nat)
      requires dir < |nodes| && nodes[dir].Dir?
      ensures Lists([], dir, 0)
    {
    }

    lemma NothingListedFrom(dir: nat, from: nat)
      requires dir < |nodes| && nodes[dir].Dir? && from <= |nodes[dir].entries|
      ensures ListsFrom([], dir, from, 0)
    {
    }

    lemma ListsOneMore(listing: seq<(Name, nat)>, entry: (Name, nat), dir: nat, from: nat, n: nat)
      requires dir < |nodes| && nodes[dir].Dir? && from + n < |nodes[dir].entries|
      requires ListsFrom(listing, dir, from, n) && ListsFrom([entry], dir, from + n, 1)
      ensures ListsFrom(listing + [entry], dir, from, n + 1)
    {
    }

    lemma ListsAppend(a: seq<(Name, nat)>, b: seq<(Name, nat)>, dir: nat, m: nat, n: nat)
      requires dir < |nodes| && nodes[dir].Dir? && m + n <= |nodes[dir].entries|
      requires Lists(a, dir, m) && ListsFrom(b, dir, m, n)
      ensures Lists(a + b, dir, m + n)
    {
    }

    /** The slot is the directory's exactly while fewer entries have been listed than there are slots. */
    lemma WhileKept(dir: nat, s: nat, listed: nat)
      requires Valid() && 1 <= dir < |nodes| && nodes[dir].Dir? && listed <= |nodes[dir].entries|
      requires Keeps(dir, s, listed)
      ensures s < ic.slots.Length && ic.At(s, Keeper(dir, nodes[dir].entries, listed))
      ensures (ic.slots[s].valid && ic.slots[s].addr == dir) <==> listed < INODE_CACHE_SIZE
      ensures ic.slots[s].addr < ITAB_SIZE && Agree(ic.slots[s].value, inodeTab[ic.slots[s].addr])
    {
      hide WellFormed, LaidOut, Represents, Model, CacheKeys, OnDisk;
      if listed >= INODE_CACHE_SIZE {
        EntryIsAllocated(dir, INODE_CACHE_SIZE * (listed / INODE_CACHE_SIZE) - 1);
      }
    }

    /** One turn of the loop over the pages. */
    method ListNextPage(dir: nat, s: nat, k: nat, count: nat) returns (listing: seq<(Name, nat)>)
      requires Valid() && 1 <= dir < |nodes| && nodes[dir].Dir?
      requires count <= DIR_PAGE_ENTRIES && 0 < count && DIR_PAGE_ENTRIES * k + count <= |nodes[dir].entries|
      requires ic.At(s, dir) && Agree(ic.slots[s].value, inodeTab[dir]) && Keeps(dir, s, DIR_PAGE_ENTRIES * k)
      modifies dc, dc.slots, bc, bc.slots, clock, disk, disk.bytes, ic.slots, inodeTab
      ensures Valid() && inodeTab[..] == old(inodeTab[..]) && dc.view == old(dc.view)
      ensures old(ic.Flat(ROOT)) ==> ic.Flat(ROOT)
      ensures ListsFrom(listing, dir, DIR_PAGE_ENTRIES * k, count)
      ensures Keeps(dir, s, DIR_PAGE_ENTRIES * k + count)
    {
      hide WellFormed, LaidOut, Represents, Model, CacheKeys, OnDisk, Keeps, ListsFrom, IC.ICache.Flat;
      PagesHold(dir);
      var page := ReadDirPage(dir, k, ic.slots[s].value.blocks[k]);
      listing := ListPage(dir, page, s, DIR_PAGE_ENTRIES * k, count);
    }

    /** The entries from..from + n of a directory, with the types of the inodes they name. */
    ghost predicate Lists(listing: seq<(Name, nat)>, dir: nat, n: nat)
      requires dir < |nodes| && nodes[dir].Dir? && n <= |nodes[dir].entries|
      reads this
    {
      ListsFrom(listing, dir, 0, n)
    }

    ghost predicate ListsFrom(listing: seq<(Name, nat)>, dir: nat, from: nat, n: nat)
      requires dir < |nodes| && nodes[dir].Dir? && from + n <= |nodes[dir].entries|
      reads this
    {
      && |listing| == n
      && forall i | 0 <= i < n ::
           && listing[i].0 == nodes[dir].entries[from + i].name
           && nodes[dir].entries[from + i].id < |nodes|
           && listing[i].1 == if nodes[nodes[dir].entries[from + i].id].Dir? then FS_DIR else FS_FILE
    }

    /** The loop over the entries of the page; each inode is fetched for its type. */
    method ListPage(dir: nat, page: seq<byte>, ghost s: nat, ghost from: nat, num: nat)
      returns (listing: seq<(Name, nat)>)
      requires Valid() && 1 <= dir < |nodes| && nodes[dir].Dir? && from + num <= |nodes[dir].entries|
      requires PageIs(page, nodes[dir].entries[from..]) && num <= DIR_PAGE_ENTRIES && Keeps(dir, s, from)
      modifies ic.slots, clock, inodeTab
      ensures Valid() && inodeTab[..] == old(inodeTab[..]) && ListsFrom(listing, dir, from, num)
      ensures Keeps(dir, s, from + num) && (old(ic.Flat(ROOT)) ==> ic.Flat(ROOT))
    {
      hide WellFormed, LaidOut, Represents, Model, CacheKeys, OnDisk, Keeps, ListsFrom, PageIs, IC.ICache.Flat;
      listing := [];
      var i := 0;
      NothingListedFrom(dir, from);
      while i < num
        invariant i <= num && Valid() && inodeTab[..] == old(inodeTab[..]) && ListsFrom(listing, dir, from, i)
        invariant Keeps(dir, s, from + i) && (old(ic.Flat(ROOT)) ==> ic.Flat(ROOT))
      {
        EntryOnPage(page, nodes[dir].entries, from, i);
        var entry := ListEntry(dir, page, i, s, from + i);
        ListsOneMore(listing, entry, dir, from, i);
        listing, i := listing + [entry], i + 1;
      }
    }

    method ListEntry(dir: nat, page: seq<byte>, i: nat, ghost s: nat, ghost at: nat) returns (entry: (Name, nat))
      requires Valid() && 1 <= dir < |nodes| && nodes[dir].Dir? && at < |nodes[dir].entries|
      requires |page| == BLOCK_SIZE && i < DIR_PAGE_ENTRIES && Keeps(dir, s, at)
      requires NameAt(page, i) == nodes[dir].entries[at].name && IdAt(page, i) == nodes[dir].entries[at].id
      modifies ic.slots, clock, inodeTab
      ensures Valid() && inodeTab[..] == old(inodeTab[..]) && ListsFrom([entry], dir, at, 1)
      ensures Keeps(dir, s, at + 1) && (old(ic.Flat(ROOT)) ==> ic.Flat(ROOT))
    {
      hide WellFormed, LaidOut, Represents, Model, CacheKeys, OnDisk, Keeps, IC.ICache.Flat;
      EntryIsAllocated(dir, at);
      var itype := TypeField(dir, s, at, IdAt(page, i));
      entry := (NameAt(page, i), itype);
    }

    /** `ic_get(fs, id)->type` for the next entry, and what it does to the slot that is kept. */
    method TypeField(ghost dir: nat, ghost s: nat, ghost k: nat, id: nat) returns (itype: nat)
      requires Valid() && 1 <= dir < |nodes| && nodes[dir].Dir? && k < |nodes[dir].entries| && Keeps(dir, s, k)
      requires id == nodes[dir].entries[k].id && 1 <= id < |nodes|
      modifies ic.slots, clock, inodeTab
      ensures Valid() && inodeTab[..] == old(inodeTab[..])
      ensures itype == if nodes[id].Dir? then FS_DIR else FS_FILE
      ensures Keeps(dir, s, k + 1) && (old(ic.Flat(ROOT)) ==> ic.Flat(ROOT))
    {
      hide WellFormed, LaidOut, Represents, Model, CacheKeys, OnDisk, Since, Keeper, Window, ReadStep, IC.ICache.Flat, Coherent;
      TypeOf(id);
      NextIsNew(dir, k);
      ghost var e, others := ic.slots[s], Window(nodes[dir].entries, k);
      var at := Fetch(id);
      if (k + 1) % INODE_CACHE_SIZE == 0 {
        SinceNext(old(ic.slots[..]), ic.slots[..], s, e, others, id, old(clock.value), clock.value);
      } else {
        SinceRead(old(ic.slots[..]), ic.slots[..], s, e, others, id, old(clock.value), clock.value);
        SinceMeans(ic.slots[..], s, e, others + {id});
      }
      itype := ic.slots[at].value.itype;
    }

    /** What the source does at the second page: the block is the second pointer of the inode that has
        the slot by now, and the page cache gets it as a page of the directory. */
    method ListAstray(dir: nat, s: nat, rest: nat, listing: seq<(Name, nat)>) returns (r: Listed)
      requires Valid() && 1 <= dir < |nodes| && nodes[dir].Dir? && DIR_PAGE_ENTRIES < |nodes[dir].entries|
      requires 0 < rest <= DIR_PAGE_ENTRIES && DIR_PAGE_ENTRIES + rest <= |nodes[dir].entries|
      requires Lists(listing, dir, DIR_PAGE_ENTRIES) && ic.At(s, TakesOver(dir))
      modifies dc, dc.slots, bc, bc.slots, clock, disk, disk.bytes, ic.slots, inodeTab
      ensures (r.Mixed? || r.Wild?) && Astray(r, dir, DIR_PAGE_ENTRIES + rest, old(inodeTab[..]), old(dc.view))
      ensures dir == ROOT && old(ic.Flat(ROOT)) ==> r.block == 0
      ensures r.Mixed? && (r.block < META_BLOCKS || TwoBlocks(old(inodeTab[..]), TakesOver(dir))) ==> !Valid()
    {
      hide WellFormed, LaidOut, Represents, Model, CacheKeys, OnDisk, Readable, Lists, Consistent, Owns, IC.ICache.Flat, TwoBlocks, EntriesOf, Appended, Uniform;
      WrongBlock(dir, s);
      var b := ic.slots[s].value.blocks[1];
      var ok, more := ReadAstray(dir, b, rest);
      if ok {
        r := Mixed(listing + more, b);
        JoinedListing(listing, more, dir, inodeTab[..], old(dc.view)[b], rest);
        if b < META_BLOCKS || TwoBlocks(old(inodeTab[..]), TakesOver(dir)) {
          StrayBreaks(dir, b);
        }
      } else {
        r := Wild(b);
      }
    }

    lemma JoinedListing(listing: seq<(Name, nat)>, more: seq<(Name, nat)>, dir: nat, tab: seq<Inode>, page: seq<byte>, rest: nat)
      requires dir < |nodes| && nodes[dir].Dir? && DIR_PAGE_ENTRIES < |nodes[dir].entries|
      requires Lists(listing, dir, DIR_PAGE_ENTRIES) && EntriesOf(more, tab, page, rest)
      ensures Appended(listing + more, dir, tab, page, rest)
    {
      assert (listing + more)[..DIR_PAGE_ENTRIES] == listing && (listing + more)[DIR_PAGE_ENTRIES..] == more;
    }

    /** dc_read of whatever block, for the directory, and the entries found there. */
    method ReadAstray(dir: nat, b: nat, rest: nat) returns (ok: bool, more: seq<(Name, nat)>)
      requires Ready() && ic.Clean() && rest <= DIR_PAGE_ENTRIES && |dc.view| == disk.numBlocks && Uniform(dc.view)
      modifies dc, dc.slots, bc, bc.slots, clock, disk, disk.bytes, ic.slots, inodeTab
      ensures inodeTab[..] == old(inodeTab[..])
      ensures ok <==> b < disk.numBlocks && old(dc.OnlyFor(dir, b)) && Readable(old(dc.view)[b], rest)
      ensures ok ==> (dir, b) in dc.Pages() && EntriesOf(more, inodeTab[..], old(dc.view)[b], rest)
    {
      hide Readable, EntriesOf;
      if b >= disk.numBlocks {
        return false, [];
      }
      var held := dc.HeldForAnother(dir, b);
      if held {
        return false, [];
      }
      var page := ReadPage(dir, b);
      ok, more := ListWrongPage(page, rest);
    }

    /** Where a listing that strays goes, and what it makes of it: the first 32 entries are right, the
        others are the names and the types of the inodes that the wrong block names. */
    ghost predicate Astray(r: Listed, dir: nat, total: nat, tab: seq<Inode>, view: Represent.Blocks)
      requires r.Mixed? || r.Wild?
      requires dir < |nodes| && nodes[dir].Dir? && DIR_PAGE_ENTRIES < total <= |nodes[dir].entries|
      reads this
    {
      var x, rest := TakesOver(dir), total - DIR_PAGE_ENTRIES;
      && x < |nodes| && |tab| == ITAB_SIZE
      && (TwoBlocks(tab, x) ==> r.block == Second(tab[x]))
      && (r.Mixed? ==> r.block < |view| && Appended(r.listing, dir, tab, view[r.block], rest))
      && (r.block < META_BLOCKS || (nodes[x].File? && TwoBlocks(tab, x)) ==>
            r.block < |view| && (Readable(view[r.block], rest) ==> r.Mixed?))
    }

    /** The inode of the 32nd entry. */
    ghost function TakesOver(dir: nat): nat
      reads this
    {
      if dir < |nodes| && nodes[dir].Dir? && DIR_PAGE_ENTRIES <= |nodes[dir].entries|
      then nodes[dir].entries[DIR_PAGE_ENTRIES - 1].id else 0
    }

    /** An inode of more than one block. */
    ghost predicate TwoBlocks(tab: seq<Inode>, x: nat) {
      x < |tab| && BlocksFor(tab[x].size) > 1
    }

    ghost predicate Appended(listing: seq<(Name, nat)>, dir: nat, tab: seq<Inode>, page: seq<byte>, rest: nat)
      requires dir < |nodes| && nodes[dir].Dir? && DIR_PAGE_ENTRIES < |nodes[dir].entries|
      reads this
    {
      && |listing| == DIR_PAGE_ENTRIES + rest && Lists(listing[..DIR_PAGE_ENTRIES], dir, DIR_PAGE_ENTRIES)
      && EntriesOf(listing[DIR_PAGE_ENTRIES..], tab, page, rest)
    }

    /** The block that the 32nd entry's inode points to second, and whose it can be. */
    lemma WrongBlock(dir: nat, s: nat)
      requires Valid() && 1 <= dir < |nodes| && nodes[dir].Dir? && DIR_PAGE_ENTRIES < |nodes[dir].entries|
      requires ic.At(s, TakesOver(dir))
      ensures Ready() && ic.Clean()
      ensures |nodes| <= inodeTab.Length == ITAB_SIZE && |dc.view| == disk.numBlocks && Uniform(dc.view)
      ensures 1 <= TakesOver(dir) < |nodes| && |ic.slots[s].value.blocks| == INODE_NUM_BLKS
      ensures var x, b, tab := TakesOver(dir), ic.slots[s].value.blocks[1], inodeTab[..];
              && (dir == ROOT && ic.Flat(ROOT) ==> b == 0)
              && (TwoBlocks(tab, x) ==> b == Second(tab[x]) && b < disk.numBlocks && !Owns(tab, |nodes|, dir, b))
              && (TwoBlocks(tab, x) && nodes[x].File? ==> dc.OnlyFor(dir, b))
              && (b < META_BLOCKS ==> b < disk.numBlocks && !Owns(tab, |nodes|, dir, b) && dc.OnlyFor(dir, b))
    {
      hide WellFormed, LaidOut, OnDisk;
      EntryIsAllocated(dir, DIR_PAGE_ENTRIES - 1);
      AllocatedBit(0);
      var x, b, tab := TakesOver(dir), ic.slots[s].value.blocks[1], inodeTab[..];
      assert tab[x] == inodeTab[x];
      if TwoBlocks(tab, x) {
        SecondBlock(dir, x, b);
      }
      if b < META_BLOCKS {
        MetaIsNobodys(dir, b);
      }
    }

    lemma SecondBlock(dir: nat, x: nat, b: nat)
      requires Consistent() && 1 <= x < |nodes| <= ITAB_SIZE && x != dir && BlocksFor(inodeTab[..][x].size) > 1
      requires |inodeTab[..][x].blocks| > 1 && b == inodeTab[..][x].blocks[1]
      ensures !Owns(inodeTab[..], |nodes|, dir, b) && b < disk.numBlocks && (nodes[x].File? ==> dc.OnlyFor(dir, b))
    {
      hide WellFormed, Represents;
      var tab := inodeTab[..];
      assert Claims(tab, |nodes|, x, 1) && tab[x].blocks[1] == b;
      OwnedIsData(tab, |nodes|, disk.numBlocks, blkBmap[..], x, b);
      if Owns(tab, |nodes|, dir, b) {
        OneOwner(tab, |nodes|, dir, x, b);
      }
      forall d: nat ensures nodes[x].File? ==> (d, b) !in dc.Pages() {
        if (d, b) in dc.Pages() {
          OneOwner(tab, |nodes|, d, x, b);
        }
      }
    }

    lemma MetaIsNobodys(dir: nat, b: nat)
      requires Consistent() && b < META_BLOCKS
      ensures b < disk.numBlocks && !Owns(inodeTab[..], |nodes|, dir, b) && dc.OnlyFor(dir, b)
    {
      hide WellFormed, LaidOut, Represents;
      if Owns(inodeTab[..], |nodes|, dir, b) {
        OwnedIsData(inodeTab[..], |nodes|, disk.numBlocks, blkBmap[..], dir, b);
      }
      forall d: nat ensures (d, b) !in dc.Pages() {
        if (d, b) in dc.Pages() {
          OwnedIsData(inodeTab[..], |nodes|, disk.numBlocks, blkBmap[..], d, b);
        }
      }
    }

    /** A file of more than 512 bytes: its second block is what its second pointer stands for. */
    lemma SecondBlockOfFile(x: nat)
      requires Consistent() && x < |nodes| && nodes[x].File? && |nodes[x].data| > BLOCK_SIZE
      ensures TwoBlocks(inodeTab[..], x) && Second(inodeTab[..][x]) < |dc.view|
      ensures var page := dc.view[Second(inodeTab[..][x])];
              |page| == BLOCK_SIZE &&
              forall j: nat | j < BLOCK_SIZE && BLOCK_SIZE + j < |nodes[x].data| :: page[j] == nodes[x].data[BLOCK_SIZE + j]
    {
      AllocatedBit(x);
      TypeOf(x);
      var n, data := inodeTab[..][x], nodes[x].data;
      assert Represents(n, dc.view, nodes[x]);
      forall j: nat | j < BLOCK_SIZE && BLOCK_SIZE + j < |data| ensures dc.view[Second(n)][j] == data[BLOCK_SIZE + j] {
        var p := BLOCK_SIZE + j;
        assert p / BLOCK_SIZE == 1 && p % BLOCK_SIZE == j;
      }
    }

    /** A page cached for a directory that does not own it: the file system is not valid any more. */
    lemma StrayBreaks(dir: nat, b: nat)
      requires (dir, b) in dc.Pages() && !Owns(inodeTab[..], |nodes|, dir, b)
      ensures !Valid()
    {
    }

    /** The loop over the entries of the wrong page. */
    method ListWrongPage(page: seq<byte>, rest: nat) returns (ok: bool, more: seq<(Name, nat)>)
      requires Ready() && ic.Clean() && |page| == BLOCK_SIZE && rest <= DIR_PAGE_ENTRIES
      modifies ic.slots, clock, inodeTab
      ensures Ready() && inodeTab[..] == old(inodeTab[..])
      ensures ok <==> Readable(page, rest)
      ensures ok ==> EntriesOf(more, inodeTab[..], page, rest)
    {
      ok, more := true, [];
      for i := 0 to rest
        invariant Ready() && ic.Clean() && inodeTab[..] == old(inodeTab[..])
        invariant EntriesOf(more, inodeTab[..], page, i)
      {
        if |NameAt(page, i)| >= FS_MAX_FNAME_SZ || IdAt(page, i) >= ITAB_SIZE {
          return false, [];
        }
        var itype := RawType(IdAt(page, i));
        more := more + [(NameAt(page, i), itype)];
      }
    }

    /** `ic_get(fs, id)->type` for any number in the table. */
    method RawType(id: nat) returns (itype: nat)
      requires Ready() && ic.Clean() && id < ITAB_SIZE
      modifies ic.slots, clock, inodeTab
      ensures Ready() && ic.Clean() && inodeTab[..] == old(inodeTab[..]) && itype == inodeTab[id].itype
    {
      var at := GetInode(id);
      itype := ic.slots[at].value.itype;
    }

    lemma EntryIsAllocated(dir: nat, e: nat)
      requires Consistent() && dir < |nodes| && nodes[dir].Dir? && e < |nodes[dir].entries|
      ensures 1 <= nodes[dir].entries[e].id < |nodes| && nodes[dir].entries[e].id != dir
    {
    }
  }

  /** No bit from m on is set. */
  ghost predicate ClearFrom(bmap: seq<byte>, m: nat) {
    forall k: nat | m <= k < 8 * BLOCK_SIZE && k < 8 * |bmap| :: !IsSet(bmap, k)
  }

  /** At most one more bit has been set, and that the lowest clear one. */
  ghost predicate Grew(was: seq<byte>, now: seq<byte>) {
    forall m: nat :: ClearFrom(was, m) ==> ClearFrom(now, m + 1)
  }

  lemma GrewBy(was: seq<byte>, now: seq<byte>, b: nat)
    requires |was| == |now| == BLOCK_SIZE && b < 8 * BLOCK_SIZE && !IsSet(was, b)
    requires forall k: nat | k < b :: IsSet(was, k)
    requires forall k: nat | k < 8 * BLOCK_SIZE :: IsSet(now, k) == (k == b || IsSet(was, k))
    ensures Grew(was, now)
  {
    forall m: nat | ClearFrom(was, m) ensures ClearFrom(now, m + 1) {
      assert !(m < 8 * BLOCK_SIZE && IsSet(was, m));
    }
  }

  // ----- the slot that fs_readdir keeps -----

  /** Who has the slot after k entries: every fourth inode fetched takes it over. */
  ghost function Keeper(dir: nat, entries: seq<DirEntry>, k: nat): nat
    requires k <= |entries|
  {
    if k < INODE_CACHE_SIZE then dir else entries[INODE_CACHE_SIZE * (k / INODE_CACHE_SIZE) - 1].id
  }

  /** The inodes of a stretch of entries. */
  ghost function Span(entries: seq<DirEntry>, from: nat, k: nat): set<nat>
    requires k <= |entries|
  {
    if from >= k then {} else Span(entries, from, k - 1) + {entries[k - 1].id}
  }

  /** The inodes fetched since it has. */
  ghost function Window(entries: seq<DirEntry>, k: nat): set<nat>
    requires k <= |entries|
  {
    Span(entries, INODE_CACHE_SIZE * (k / INODE_CACHE_SIZE), k)
  }

  lemma {:induction false} NotInSpan(entries: seq<DirEntry>, from: nat, k: nat, a: nat)
    requires k <= |entries| && forall i | from <= i < k :: entries[i].id != a
    ensures a !in Span(entries, from, k)
    decreases k
  {
    if from < k {
      NotInSpan(entries, from, k - 1, a);
    }
  }

  lemma {:induction false} SpanSize(entries: seq<DirEntry>, from: nat, k: nat)
    requires from <= k <= |entries| && forall i, j | 0 <= i < j < |entries| :: entries[i].id != entries[j].id
    ensures |Span(entries, from, k)| == k - from
    decreases k
  {
    if from < k {
      SpanSize(entries, from, k - 1);
      NotInSpan(entries, from, k - 1, entries[k - 1].id);
    }
  }

  lemma NextWindow(dir: nat, entries: seq<DirEntry>, k: nat)
    requires k < |entries| && entries[k].id != dir
    requires forall i, j | 0 <= i < j < |entries| :: entries[i].id != entries[j].id
    ensures |Window(entries, k)| == k % INODE_CACHE_SIZE && entries[k].id !in Window(entries, k)
    ensures entries[k].id != Keeper(dir, entries, k)
    ensures Keeper(dir, entries, k + 1) == (if (k + 1) % INODE_CACHE_SIZE == 0 then entries[k].id else Keeper(dir, entries, k))
    ensures Window(entries, k + 1) == (if (k + 1) % INODE_CACHE_SIZE == 0 then {} else Window(entries, k) + {entries[k].id})
  {
    var from := INODE_CACHE_SIZE * (k / INODE_CACHE_SIZE);
    SpanSize(entries, from, k);
    NotInSpan(entries, from, k, entries[k].id);
  }

  /** Names, and types of the inodes with the numbers, as the first entries of a page have them. */
  ghost predicate EntriesOf(listing: seq<(Name, nat)>, tab: seq<Inode>, page: seq<byte>, n: nat) {
    && |tab| == ITAB_SIZE && Readable(page, n) && |listing| == n
    && forall i | 0 <= i < n :: listing[i] == (NameAt(page, i), tab[IdAt(page, i)].itype)
  }

  /** What fs_readdir comes to: refused; the directory's own entries; those of its first page followed by
      what `block` holds, read as a page. Or it is wild: then that block is out of range or some other
      directory's page, or it holds an unterminated name or a number that is no inode's. */
  datatype Listed =
    | Refused
    | Exact(listing: seq<(Name, nat)>)
    | Mixed(listing: seq<(Name, nat)>, block: nat)
    | Wild(block: nat)

  /** The first n entries of a page are terminated names of inodes in the table. */
  ghost predicate Readable(page: seq<byte>, n: nat) {
    && |page| == BLOCK_SIZE && n <= DIR_PAGE_ENTRIES
    && forall i | 0 <= i < n :: |NameAt(page, i)| < FS_MAX_FNAME_SZ && IdAt(page, i) < ITAB_SIZE
  }

  /** A page holds the next entries of a directory. */
  ghost predicate PageIs(page: seq<byte>, rest: seq<DirEntry>) {
    && |page| == BLOCK_SIZE
    && forall i: nat | i < DIR_PAGE_ENTRIES && i < |rest| ::
         NameAt(page, i) == rest[i].name && IdAt(page, i) == rest[i].id
  }

  lemma EntryOnPage(page: seq<byte>, entries: seq<DirEntry>, from: nat, i: nat)
    requires from + i < |entries| && i < DIR_PAGE_ENTRIES && PageIs(page, entries[from..])
    ensures |page| == BLOCK_SIZE && NameAt(page, i) == entries[from + i].name && IdAt(page, i) == entries[from + i].id
  {
  }

  lemma NotInPage(entries: seq<DirEntry>, from: nat, n: nat, name: Name)
    requires from + n <= |entries|
    requires forall j | 0 <= j < from :: entries[j].name != name
    requires forall j | 0 <= j < n :: entries[from..][j].name != name
    ensures forall j | 0 <= j < from + n :: entries[j].name != name
  {
    forall j | from <= j < from + n ensures entries[j].name != name {
      assert entries[from..][j - from] == entries[j];
    }
  }

  /** The loop over the entries of one page. */
  method ScanPage(page: seq<byte>, num: nat, name: Name, ghost rest: seq<DirEntry>) returns (found: bool, i: nat)
    requires PageIs(page, rest) && |rest| == num
    ensures found ==> i < DIR_PAGE_ENTRIES && i < num && rest[i] == DirEntry(name, IdAt(page, i))
    ensures !found ==> i == Min(DIR_PAGE_ENTRIES, num)
    ensures forall j | 0 <= j < i :: rest[j].name != name
  {
    i := 0;
    while i < DIR_PAGE_ENTRIES && i < num
      invariant i <= Min(DIR_PAGE_ENTRIES, num)
      invariant forall j | 0 <= j < i :: rest[j].name != name
    {
      if NameAt(page, i) == name {
        return true, i;
      }
      i := i + 1;
    }
    found := false;
  }

  /** The byte loop inside fs_write: fills the rest of the block, or as much as there is to write. */
  method CopyIn(block: array<byte>, start: nat, data: seq<byte>, num: nat, limit: nat) returns (num': nat)
    requires start < BLOCK_SIZE == block.Length && num < limit <= |data|
    modifies block
    ensures num' == Min(limit, num + (BLOCK_SIZE - start))
    ensures block[start..start + (num' - num)] == data[num..num']
    ensures forall j | 0 <= j < BLOCK_SIZE && !(start <= j < start + (num' - num)) :: block[j] == old(block[j])
  {
    num' := num;
    var i := start;
    while i < BLOCK_SIZE && num' < limit
      invariant start <= i <= BLOCK_SIZE && num <= num' <= limit && i - start == num' - num
      invariant forall j | start <= j < i :: block[j] == data[num + (j - start)]
      invariant forall j | 0 <= j < BLOCK_SIZE && !(start <= j < i) :: block[j] == old(block[j])
    {
      block[i] := data[num'];
      i, num' := i + 1, num' + 1;
    }
  }

  /** A disk of zeros has no bit set in its bitmaps and null words for inodes. */
  lemma ZeroDisk(view: Represent.Blocks)
    requires META_BLOCKS <= |view| && Uniform(view)
    requires forall b | 0 <= b < |view| :: view[b] == seq(BLOCK_SIZE, _ => 0)
    ensures forall n: nat | n < 8 * BLOCK_SIZE :: !IsSet(view[0], n) && !IsSet(view[1], n)
    ensures LoadedTable(view)[0].itype == 0
    ensures forall id | 0 <= id < ITAB_SIZE :: Second(LoadedTable(view)[id]) == 0
  {
    assert LoadedTable(view)[0] == InodeAt(view[2], 0);
    forall k: nat ensures !Bit(0, k) {
      ZeroBit(k);
    }
  }

  lemma {:induction false} ZeroBit(k: nat)
    ensures !Bit(0, k)
  {
    if k > 0 {
      ZeroBit(k - 1);
    }
  }

  // ----- a directory with two pages -----

  function OneLetter(i: nat): Name
    requires i < 62
  {
    [65 + i]
  }

  /** The tree after n files have been created in the root. */
  function Crowd(n: nat): (nodes: Nodes)
    requires n <= 62
    ensures |nodes| == n + 2 && nodes[ROOT].Dir? && |nodes[ROOT].entries| == n
    ensures forall i | 0 <= i < n :: nodes[ROOT].entries[i].name == OneLetter(i)
  {
    if n == 0 then INITIAL else AfterCreate(Crowd(n - 1), ROOT, OneLetter(n - 1), File([]))
  }

  /** One more file in the root. */
  method JoinCrowd(fs: Fs, i: nat)
    requires fs.Valid() && i < 62 && fs.nodes == Crowd(i) && ENOUGH_BLOCKS <= fs.disk.numBlocks
    requires fs.ic.Flat(ROOT) && ClearFrom(fs.blkBmap[..], META_BLOCKS + i)
    modifies fs, fs.Repr()
    ensures fs.Valid() && fs.nodes == Crowd(i + 1)
    ensures fs.ic.Flat(ROOT) && ClearFrom(fs.blkBmap[..], META_BLOCKS + i + 1) && fs.Saved()
  {
    hide WellFormed, LaidOut, Represents, Model, CacheKeys, OnDisk, Coherent, Stamped, ClearFrom, IC.ICache.Flat;
    LookupAbsent(fs.nodes[ROOT].entries, OneLetter(i));
    var status, id := fs.Create(ROOT, OneLetter(i));
  }

  /** fs_new, fs_format and 33 creates in the root. */
  method GatherCrowd(numBlocks: nat) returns (fs: Fs)
    requires ENOUGH_BLOCKS <= numBlocks
    ensures fresh(fs) && fresh(fs.Repr()) && fs.Valid() && fs.nodes == Crowd(33) && fs.disk.numBlocks == numBlocks
    ensures fs.ic.Flat(ROOT) && ClearFrom(fs.blkBmap[..], META_BLOCKS + 33) && fs.Saved()
  {
    hide WellFormed, LaidOut, Represents, Model, CacheKeys, OnDisk, Coherent, Stamped, ClearFrom, IC.ICache.Flat;
    fs := Fs.New(numBlocks);
    fs.Format();
    for i := 0 to 33
      invariant fresh(fs) && fresh(fs.Repr()) && fs.Valid() && fs.nodes == Crowd(i) && fs.disk.numBlocks == numBlocks
      invariant fs.ic.Flat(ROOT) && ClearFrom(fs.blkBmap[..], META_BLOCKS + i) && fs.Saved()
    {
      JoinCrowd(fs, i);
    }
  }

  /** The block bitmap read as a page of entries: the first names inode 0. */
  lemma BitmapAsPage(bmap: seq<byte>, m: nat)
    requires |bmap| == BLOCK_SIZE && ClearFrom(bmap, m) && m <= 104
    ensures Readable(bmap, 1) && IdAt(bmap, 0) == 0
  {
    forall j: nat | 13 <= j < 16 ensures bmap[j] == 0 {
      forall k: nat | k < 8 ensures !Bit(bmap[j], k) {
        assert !IsSet(bmap, 8 * j + k);
      }
      assert Exp2(8) == 256;
      NoBitIsZero(bmap[j], 8);
    }
    CStrEnds(bmap[0 * DENTRY_BYTES..0 * DENTRY_BYTES + FS_MAX_FNAME_SZ], 13);
  }

  /** Listing those 33 entries reads the block bitmap as the second page: the last entry is of no type. */
  lemma CrowdAstray(fs: Fs, r: Listed, tab: seq<Inode>, view: Represent.Blocks)
    requires fs.nodes == Crowd(33) && (r.Mixed? || r.Wild?) && fs.Astray(r, ROOT, 33, tab, view) && r.block == 0
    requires |tab| > 0 && tab[0].itype == 0 && |view| > 0 && |view[0]| == BLOCK_SIZE && ClearFrom(view[0], META_BLOCKS + 33)
    ensures r.Mixed? && |r.listing| == 33 && r.listing[32].1 == 0
  {
    hide ClearFrom;
    BitmapAsPage(view[0], META_BLOCKS + 33);
    assert r.listing[DIR_PAGE_ENTRIES..][0] == r.listing[32];
  }

  /** And the page cache then holds a metadata block. */
  method ListCrowd(fs: Fs) returns (r: Listed)
    requires fs.Valid() && fs.nodes == Crowd(33) && fs.ic.Flat(ROOT)
    requires ClearFrom(fs.blkBmap[..], META_BLOCKS + 33) && fs.Saved()
    modifies fs.Repr()
    ensures r.Mixed? && r.block == 0 && |r.listing| == 33 && r.listing[32].1 == 0
    ensures !fs.Valid()
  {
    hide WellFormed, LaidOut, Represents, CacheKeys, OnDisk, Coherent, Stamped, ClearFrom, IC.ICache.Flat, Readable;
    ghost var tab, view := fs.inodeTab[..], fs.dc.view;
    assert tab[0].itype == 0;
    r := fs.Readdir(ROOT, 64);
    CrowdAstray(fs, r, tab, view);
  }
}
