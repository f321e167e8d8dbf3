/** The storage layer: a flat byte array read and written in blocks of a fixed size. */
module BlockStore {
  import opened Bytes

  class Blocks {
    const blockSize: nat
    const numBlocks: nat
    const bytes: array<byte>

    /** The abstraction: block number to block contents. */
    ghost var view: seq<seq<byte>>

    ghost predicate Valid()
      reads this, bytes
    {
      && 0 < blockSize && 0 < numBlocks
      && bytes.Length == numBlocks * blockSize
      && |view| == numBlocks
      && forall b | 0 <= b < numBlocks :: view[b] == BlockAt(b)
    }

    ghost function BlockAt(b: nat): (r: seq<byte>)
      requires b < numBlocks && bytes.Length == numBlocks * blockSize
      reads bytes
      ensures |r| == blockSize
    {
      InRange(b, numBlocks, blockSize);
      bytes[b * blockSize..b * blockSize + blockSize]
    }

    constructor (numBlocks: nat, blockSize: nat)
      requires 0 < numBlocks && 0 < blockSize
      ensures Valid() && fresh(bytes)
      ensures this.numBlocks == numBlocks && this.blockSize == blockSize
      ensures forall b | 0 <= b < numBlocks :: view[b] == seq(blockSize, _ => 0)
    {
      this.numBlocks, this.blockSize := numBlocks, blockSize;
      bytes := new byte[numBlocks * blockSize](_ => 0);
      view := seq(numBlocks, _ => seq(blockSize, _ => 0));
      new;
      forall b | 0 <= b < numBlocks ensures view[b] == BlockAt(b) {
        InRange(b, numBlocks, blockSize);
      }
    }

    /** block_new: no store for an empty geometry. */
    static method New(numBlocks: nat, blockSize: nat) returns (r: Blocks?)
      ensures r == null <==> numBlocks * blockSize == 0
      ensures r != null ==> fresh(r) && fresh(r.bytes) && r.Valid() &&
                            r.numBlocks == numBlocks && r.blockSize == blockSize &&
                            forall b | 0 <= b < numBlocks :: r.view[b] == seq(blockSize, _ => 0)
    {
      if numBlocks * blockSize == 0 {
        return null;
      }
      r := new Blocks(numBlocks, blockSize);
    }

    method Read(blockNo: nat) returns (ok: bool, block: seq<byte>)
      requires Valid()
      ensures ok <==> blockNo < numBlocks
      ensures ok ==> block == view[blockNo] && |block| == blockSize
    {
      if blockNo >= numBlocks {
        return false, [];
      }
      InRange(blockNo, numBlocks, blockSize);
      ok, block := true, bytes[blockNo * blockSize..blockNo * blockSize + blockSize];
    }

    method Write(blockNo: nat, block: seq<byte>) returns (ok: bool)
      requires Valid() && |block| == blockSize
      modifies this`view, bytes
      ensures Valid()
      ensures ok <==> blockNo < numBlocks
      ensures view == if ok then old(view)[blockNo := block] else old(view)
    {
      if blockNo >= numBlocks {
        return false;
      }
      InRange(blockNo, numBlocks, blockSize);
      var at := blockNo * blockSize;
      forall i | 0 <= i < blockSize {
        bytes[at + i] := block[i];
      }
      view := view[blockNo := block];
      forall b | 0 <= b < numBlocks ensures view[b] == BlockAt(b) {
        InRange(b, numBlocks, blockSize);
        Apart(b, blockNo, blockSize);
        if b != blockNo {
          assert old(BlockAt(b)) == BlockAt(b);
        }
      }
      ok := true;
    }
  }

  lemma InRange(b: nat, n: nat, size: nat)
    requires b < n
    ensures b * size + size <= n * size
  {
    assert n * size == b * size + (n - b) * size;
    assert (n - b) * size == size + (n - b - 1) * size;
  }

  lemma Apart(a: nat, b: nat, size: nat)
    ensures a < b ==> a * size + size <= b * size
    ensures b < a ==> b * size + size <= a * size
  {
    if a < b {
      InRange(a, b, size);
    } else if b < a {
      InRange(b, a, size);
    }
  }
}
