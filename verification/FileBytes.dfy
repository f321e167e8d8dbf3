/** Byte ranges of a file spread over blocks. */
module FileBytes {
  import opened Bytes
  import opened Layout
  import opened LogicalFs
  import opened Represent

  /** The first n pointers are distinct block numbers. */
  ghost predicate GoodPointers(ptrs: seq<u32>, n: nat, view: Blocks) {
    && n <= |ptrs| == INODE_NUM_BLKS && Uniform(view)
    && (forall k | 0 <= k < n :: ptrs[k] < |view|)
    && (forall j, k | 0 <= j < k < n :: ptrs[j] != ptrs[k])
  }

  /** Part-way through a write at `o`: the first `num` bytes of `data` are in place, everything
      else the file held is untouched. */
  ghost predicate InProgress(view: Blocks, ptrs: seq<u32>, n: nat, was: seq<byte>, o: nat, data: seq<byte>, num: nat) {
    && GoodPointers(ptrs, n, view)
    && o <= |was| && num <= |data| && Max(|was|, o + num) <= n * BLOCK_SIZE
    && forall p: nat | p < Max(|was|, o + num) ::
         view[ptrs[p / BLOCK_SIZE]][p % BLOCK_SIZE] == if o <= p < o + num then data[p - o] else was[p]
  }

  function Max(a: nat, b: nat): nat {
    if a >= b then a else b
  }

  /** One block written: bytes start.. take the next stretch of data, the rest keeps what the file
      had there. Bytes beyond the file may be anything. */
  lemma WroteBlock(view: Blocks, ptrs: seq<u32>, n: nat, was: seq<byte>, o: nat, data: seq<byte>,
                   num: nat, num': nat, i: nat, start: nat, block: seq<byte>)
    requires InProgress(view, ptrs, n, was, o, data, num)
    requires i < n && i * BLOCK_SIZE + start == o + num && start < BLOCK_SIZE == |block|
    requires num <= num' <= |data| && start + (num' - num) <= BLOCK_SIZE
    requires block[start..start + (num' - num)] == data[num..num']
    requires forall j: nat | j < BLOCK_SIZE && !(start <= j < start + (num' - num)) &&
                             i * BLOCK_SIZE + j < Max(|was|, o + num) ::
               block[j] == view[ptrs[i]][j]
    ensures InProgress(view[ptrs[i] := block], ptrs, n, was, o, data, num')
  {
    var w := view[ptrs[i] := block];
    forall p: nat | p < Max(|was|, o + num')
      ensures w[ptrs[p / BLOCK_SIZE]][p % BLOCK_SIZE] == if o <= p < o + num' then data[p - o] else was[p]
    {
      if p / BLOCK_SIZE == i {
        var j := p % BLOCK_SIZE;
        assert p == i * BLOCK_SIZE + j;
        if start <= j < start + (num' - num) {
          assert block[j] == block[start..start + (num' - num)][j - start] == data[num..num'][j - start];
        }
      }
    }
  }

  /** When all the data is in place the file is the splice. */
  lemma WriteComplete(view: Blocks, node: Inode, n: nat, was: seq<byte>, offset: nat, data: seq<byte>)
    requires InProgress(view, node.blocks, n, was, Start(was, offset), data, |data|)
    requires node.itype == FS_FILE && Shaped(node) && |Splice(was, offset, data)| <= MAX_DATA
    requires node.size == |Splice(was, offset, data)| && BlocksFor(node.size) == n
    ensures Represents(node, view, File(Splice(was, offset, data)))
  {
    var o, r := Start(was, offset), Splice(was, offset, data);
    forall p: nat | p < |r|
      ensures view[node.blocks[p / BLOCK_SIZE]][p % BLOCK_SIZE] == r[p]
    {
      ReadAfterWrite(was, offset, data, p);
    }
  }

  /** A stretch of a file inside one block. */
  lemma BlockSlice(node: Inode, view: Blocks, data: seq<byte>, i: nat, start: nat, num: nat)
    requires Represents(node, view, File(data))
    requires start + num <= BLOCK_SIZE && i * BLOCK_SIZE + start + num <= |data| && 0 < num
    ensures i < BlocksFor(node.size) <= INODE_NUM_BLKS
    ensures view[node.blocks[i]][start..start + num] == data[i * BLOCK_SIZE + start..i * BLOCK_SIZE + start + num]
  {
    var at := i * BLOCK_SIZE;
    forall j: nat | start <= j < start + num
      ensures i < BlocksFor(node.size) && view[node.blocks[i]][j] == data[at + j]
    {
      assert (at + j) / BLOCK_SIZE == i && (at + j) % BLOCK_SIZE == j;
      assert data[at + j] == view[node.blocks[(at + j) / BLOCK_SIZE]][(at + j) % BLOCK_SIZE];
    }
    assert (at + start) / BLOCK_SIZE == i;
  }

  /** The block arithmetic of fs_write, 32-bit wrap included. */
  lemma Sizing(was: seq<byte>, offset: nat, data: seq<byte>)
    requires |was| <= MAX_DATA && |data| < U32_MOD
    ensures var o, used := Start(was, offset), BlocksFor(|was|);
            var req := Max(BlocksFor((o + |data|) % U32_MOD), used) - used;
            && (o + |data| >= U32_MOD ==> req == 0 && |data| >= 0x8000_0000 && |Splice(was, offset, data)| > MAX_DATA)
            && (o + |data| < U32_MOD ==>
                 && (used + req <= INODE_NUM_BLKS <==> |Splice(was, offset, data)| <= MAX_DATA)
                 && |Splice(was, offset, data)| == Max(o + |data|, |was|)
                 && (used + req <= INODE_NUM_BLKS ==>
                      BlocksFor(|Splice(was, offset, data)|) == used + req && |data| < 0x8000_0000))
  {
  }
}
