/** On-disk records: inodes, the inode table, and directory pages. */
module Layout {
  import opened Bytes

  const BLOCK_SIZE: nat := 512
  const INODE_NUM_BLKS: nat := 10
  const INODE_BYTES: nat := 64
  const ITAB_SIZE: nat := 64
  const ITAB_NUM_BLKS: nat := 8
  /** The blocks that hold the two bitmaps and the inode table. */
  const META_BLOCKS: nat := 10
  const DENTRY_BYTES: nat := 16
  const DIR_PAGE_ENTRIES: nat := 32
  const FS_MAX_FNAME_SZ: nat := 14
  const MAX_FILE_BYTES: nat := 5120

  const FS_DIR: nat := 1
  const FS_FILE: nat := 2

  type u32 = x: int | 0 <= x < U32_MOD

  // ----- inodes -----

  datatype Inode = Inode(itype: u32, size: u32, blocks: seq<u32>, reserved: seq<u32>)

  ghost predicate Shaped(n: Inode) {
    |n.blocks| == INODE_NUM_BLKS && |n.reserved| == 4
  }

  ghost predicate ShapedTable(tab: seq<Inode>) {
    |tab| == ITAB_SIZE && forall id | 0 <= id < ITAB_SIZE :: Shaped(tab[id])
  }

  /** OFFSET_TO_BLOCKS. */
  function BlocksFor(bytes: nat): nat {
    bytes / BLOCK_SIZE + if bytes % BLOCK_SIZE > 0 then 1 else 0
  }

  /** Equal in all that counts: pointers past the end of the contents are junk. */
  ghost predicate Agree(m: Inode, n: Inode) {
    && Shaped(m) && Shaped(n)
    && m.itype == n.itype && m.size == n.size
    && forall k | 0 <= k < BlocksFor(m.size) && k < INODE_NUM_BLKS :: m.blocks[k] == n.blocks[k]
  }

  /** The pointer to the second block, used or not. */
  function Second(n: Inode): nat {
    if |n.blocks| > 1 then n.blocks[1] else 0
  }

  /** The 16 words of an inode record. */
  function InodeWord(n: Inode, w: nat): u32
    requires |n.blocks| == INODE_NUM_BLKS && |n.reserved| == 4 && w < 16
  {
    if w == 0 then n.itype else if w == 1 then n.size
    else if w < 12 then n.blocks[w - 2] else n.reserved[w - 12]
  }

  /** One of the blocks of the inode table, as fsi_store_fsdata writes it. */
  function TableBlock(tab: seq<Inode>, b: nat): (r: seq<byte>)
    requires |tab| == ITAB_SIZE && b < ITAB_NUM_BLKS
    requires forall id | 0 <= id < ITAB_SIZE :: |tab[id].blocks| == INODE_NUM_BLKS && |tab[id].reserved| == 4
    ensures |r| == BLOCK_SIZE
  {
    seq(BLOCK_SIZE, j requires 0 <= j < BLOCK_SIZE =>
      ByteOf(InodeWord(tab[8 * b + j / INODE_BYTES], j % INODE_BYTES / 4), j % 4))
  }

  /** The inode stored at a slot (0..7) of a table block, as fsi_load_fsdata reads it. */
  function InodeAt(block: seq<byte>, slot: nat): (n: Inode)
    requires |block| == BLOCK_SIZE && slot < 8
    ensures |n.blocks| == INODE_NUM_BLKS && |n.reserved| == 4
  {
    var at := slot * INODE_BYTES;
    Inode(WordAt(block, at), WordAt(block, at + 4),
          Words(block, at + 8, INODE_NUM_BLKS), Words(block, at + 48, 4))
  }

  function Words(block: seq<byte>, at: nat, n: nat): (r: seq<u32>)
    requires at + 4 * n <= |block|
    ensures |r| == n && forall k | 0 <= k < n :: r[k] == WordAt(block, at + 4 * k)
  {
    seq(n, k requires 0 <= k < n => WordAt(block, at + 4 * k))
  }

  lemma StoredByte(tab: seq<Inode>, b: nat, slot: nat, w: nat, k: nat)
    requires ShapedTable(tab) && b < ITAB_NUM_BLKS && slot < 8 && w < 16 && k < 4
    ensures TableBlock(tab, b)[slot * INODE_BYTES + 4 * w + k] == ByteOf(InodeWord(tab[8 * b + slot], w), k)
  {
    var j := slot * INODE_BYTES + 4 * w + k;
    assert j / INODE_BYTES == slot && j % INODE_BYTES == 4 * w + k;
    assert j % 4 == k;
  }

  lemma StoredWord(tab: seq<Inode>, b: nat, slot: nat, w: nat, at: nat)
    requires ShapedTable(tab) && b < ITAB_NUM_BLKS && slot < 8 && w < 16
    requires at == slot * INODE_BYTES + 4 * w
    ensures at + 4 <= BLOCK_SIZE
    ensures WordAt(TableBlock(tab, b), at) == InodeWord(tab[8 * b + slot], w)
  {
    StoredByte(tab, b, slot, w, 0);
    StoredByte(tab, b, slot, w, 1);
    StoredByte(tab, b, slot, w, 2);
    StoredByte(tab, b, slot, w, 3);
    WordRoundTrip(TableBlock(tab, b), at, InodeWord(tab[8 * b + slot], w));
  }

  /** Loading what was stored gives the inode back, whole. */
  lemma InodeRoundTrip(tab: seq<Inode>, b: nat, slot: nat)
    requires ShapedTable(tab) && b < ITAB_NUM_BLKS && slot < 8
    ensures InodeAt(TableBlock(tab, b), slot) == tab[8 * b + slot]
  {
    var at := slot * INODE_BYTES;
    StoredWord(tab, b, slot, 0, at);
    StoredWord(tab, b, slot, 1, at + 4);
    PointersRoundTrip(tab, b, slot);
    ReservedRoundTrip(tab, b, slot);
  }

  /** The same, by inode number. */
  lemma TableRoundTrip(tab: seq<Inode>, id: nat, block: seq<byte>)
    requires ShapedTable(tab) && id < ITAB_SIZE && block == TableBlock(tab, id / 8)
    ensures InodeAt(block, id % 8) == tab[id]
  {
    InodeRoundTrip(tab, id / 8, id % 8);
    assert 8 * (id / 8) + id % 8 == id;
  }

  lemma PointersRoundTrip(tab: seq<Inode>, b: nat, slot: nat)
    requires ShapedTable(tab) && b < ITAB_NUM_BLKS && slot < 8
    ensures Words(TableBlock(tab, b), slot * INODE_BYTES + 8, INODE_NUM_BLKS) == tab[8 * b + slot].blocks
  {
    var r := Words(TableBlock(tab, b), slot * INODE_BYTES + 8, INODE_NUM_BLKS);
    forall k: nat | k < INODE_NUM_BLKS ensures r[k] == tab[8 * b + slot].blocks[k] {
      StoredWord(tab, b, slot, k + 2, slot * INODE_BYTES + 8 + 4 * k);
    }
  }

  lemma ReservedRoundTrip(tab: seq<Inode>, b: nat, slot: nat)
    requires ShapedTable(tab) && b < ITAB_NUM_BLKS && slot < 8
    ensures Words(TableBlock(tab, b), slot * INODE_BYTES + 48, 4) == tab[8 * b + slot].reserved
  {
    var r := Words(TableBlock(tab, b), slot * INODE_BYTES + 48, 4);
    forall k: nat | k < 4 ensures r[k] == tab[8 * b + slot].reserved[k] {
      StoredWord(tab, b, slot, k + 12, slot * INODE_BYTES + 48 + 4 * k);
    }
  }

  // ----- directory pages -----

  /** The C string in the name field of entry k. */
  function NameAt(page: seq<byte>, k: nat): seq<byte>
    requires |page| == BLOCK_SIZE && k < DIR_PAGE_ENTRIES
  {
    CStr(page[k * DENTRY_BYTES..k * DENTRY_BYTES + FS_MAX_FNAME_SZ])
  }

  /** The inode number of entry k. */
  function IdAt(page: seq<byte>, k: nat): nat
    requires |page| == BLOCK_SIZE && k < DIR_PAGE_ENTRIES
  {
    HalfAt(page, k * DENTRY_BYTES + FS_MAX_FNAME_SZ)
  }

  /** `strcpy(entry->name, name); entry->inodeid = id`: the bytes after the NUL stay as they were. */
  function WithEntry(page: seq<byte>, k: nat, name: seq<byte>, id: nat): (r: seq<byte>)
    requires |page| == BLOCK_SIZE && k < DIR_PAGE_ENTRIES
    requires |name| < FS_MAX_FNAME_SZ && id < 0x1_0000
    ensures |r| == BLOCK_SIZE
  {
    var at := k * DENTRY_BYTES;
    page[..at] + name + [0] + page[at + |name| + 1..at + FS_MAX_FNAME_SZ] + [id % 256, id / 256]
      + page[at + DENTRY_BYTES..]
  }

  lemma EntryRoundTrip(page: seq<byte>, k: nat, name: seq<byte>, id: nat)
    requires |page| == BLOCK_SIZE && k < DIR_PAGE_ENTRIES
    requires |name| < FS_MAX_FNAME_SZ && NoNul(name) && id < 0x1_0000
    ensures NameAt(WithEntry(page, k, name, id), k) == name
    ensures IdAt(WithEntry(page, k, name, id), k) == id
    ensures forall j: nat | j < DIR_PAGE_ENTRIES && j != k ::
              NameAt(WithEntry(page, k, name, id), j) == NameAt(page, j) &&
              IdAt(WithEntry(page, k, name, id), j) == IdAt(page, j)
  {
    var r, at := WithEntry(page, k, name, id), k * DENTRY_BYTES;
    var field := r[at..at + FS_MAX_FNAME_SZ];
    assert field[|name|] == r[at + |name|] == 0;
    forall i | 0 <= i < |name| ensures field[..|name|][i] == name[i] {
      assert field[i] == r[at + i];
    }
    assert field[..|name|] == name;
    CStrOf(field, name);
    forall j: nat | j < DIR_PAGE_ENTRIES && j != k
      ensures NameAt(r, j) == NameAt(page, j) && IdAt(r, j) == IdAt(page, j)
    {
      var jt := j * DENTRY_BYTES;
      assert jt + DENTRY_BYTES <= at || at + DENTRY_BYTES <= jt;
      assert r[jt..jt + FS_MAX_FNAME_SZ] == page[jt..jt + FS_MAX_FNAME_SZ];
    }
  }
}
