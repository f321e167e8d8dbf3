/** The block cache: a write-back LRU cache over the block store. */
module BlockCache {
  import opened Bytes
  import opened BlockStore
  import opened Cache

  class BCache {
    const disk: Blocks
    const clock: LruClock
    const slots: array<Entry<seq<byte>>>

    /** Block number to the contents last written, wherever they are now. */
    ghost var view: seq<seq<byte>>

    ghost predicate Valid()
      reads this, disk, disk.bytes, clock, slots
    {
      && disk.Valid() && 0 < slots.Length
      && Coherent(slots[..], disk.view, view)
      && Stamped(slots[..], clock.value)
      && forall b | 0 <= b < |view| :: |view[b]| == disk.blockSize
    }

    ghost predicate Clean()
      reads slots
    {
      AllClean(slots[..])
    }

    ghost function Cached(): set<nat>
      reads slots
    {
      Keys(slots[..])
    }

    constructor (disk: Blocks, clock: LruClock, size: nat)
      requires disk.Valid() && 0 < size
      ensures Valid() && Clean() && Cached() == {} && view == disk.view
      ensures this.disk == disk && this.clock == clock && fresh(slots) && slots.Length == size
      ensures forall i :: 0 <= i < size ==> !slots[i].valid
    {
      this.disk, this.clock := disk, clock;
      slots := new Entry<seq<byte>>[size](_ => Entry(false, false, 0, 0, 0, 0, []));
      view := disk.view;
      new;
      EmptyIsTransparent(slots[..], disk.view, clock.value);
    }

    /** bc_flush. */
    method Flush(i: nat)
      requires Valid() && i < slots.Length
      modifies slots, disk`view, disk.bytes
      ensures Valid() && Settled(old(slots[..]), slots[..])
      ensures !(slots[i].valid && slots[i].dirty)
      ensures forall k | 0 <= k < slots.Length && k != i :: slots[k] == old(slots[k])
      ensures old(Clean()) ==> disk.view == old(disk.view)
    {
      var e := slots[i];
      if e.valid && e.dirty {
        FlushKeepsView(slots[..], disk.view, view, i);
        StampKept(slots[..], slots[..][i := e.(dirty := false)], clock.value, clock.value);
        var _ := disk.Write(e.addr, e.value);
        slots[i] := e.(dirty := false);
        assert slots[..] == old(slots[..])[i := e.(dirty := false)];
        assert !old(Clean()) by {
          assert old(slots[..])[i] == e;
        }
      }
    }

    /** bc_flush_expired. */
    method FlushExpired() returns (now: int)
      requires Valid()
      modifies slots, disk`view, disk.bytes
      ensures Valid() && Settled(old(slots[..]), slots[..])
      ensures WrittenBack(old(slots[..]), slots[..], now, slots.Length)
      ensures old(Clean()) ==> disk.view == old(disk.view)
    {
      hide WrittenBack, Distinct, Coherent, Stamped;
      now := Now();
      WriteBackStarts(slots[..], now);
      for i := 0 to slots.Length
        invariant Valid() && WrittenBack(old(slots[..]), slots[..], now, i)
        invariant old(Clean()) ==> disk.view == old(disk.view)
      {
        WriteBackSettles(old(slots[..]), slots[..], now, i);
        SettledKeepsKeys(old(slots[..]), slots[..], clock.value);
        ghost var before := slots[..];
        if slots[i].valid && slots[i].dirty && now - slots[i].dirtyTime >= WRITEBACK_INTERVAL {
          Flush(i);
        }
        WriteBackOne(old(slots[..]), before, slots[..], now, i);
      }
      WriteBackSettles(old(slots[..]), slots[..], now, slots.Length);
    }

    /** bc_flush_all: afterwards the store below holds everything. */
    method FlushAll()
      requires Valid()
      modifies slots, disk`view, disk.bytes
      ensures Valid() && Settled(old(slots[..]), slots[..])
      ensures Clean() && disk.view == view
    {
      for i := 0 to slots.Length
        invariant Valid() && Settled(old(slots[..]), slots[..])
        invariant forall k :: 0 <= k < i && slots[k].valid ==> !slots[k].dirty
      {
        ghost var before := slots[..];
        Flush(i);
        SettledTrans(old(slots[..]), before, slots[..]);
      }
      CleanMeansStored(slots[..], disk.view, view);
    }

    /** The slot that holds a block, or none. */
    method Find(blockNo: nat) returns (found: bool, i: nat)
      ensures found <==> Holds(slots[..], blockNo)
      ensures found ==> i < slots.Length && slots[i].valid && slots[i].addr == blockNo
    {
      i := 0;
      while i < slots.Length
        invariant i <= slots.Length
        invariant forall k :: 0 <= k < i ==> !(slots[k].valid && slots[k].addr == blockNo)
      {
        if slots[i].valid && slots[i].addr == blockNo {
          assert slots[..][i].valid;
          return true, i;
        }
        i := i + 1;
      }
      found := false;
    }

    /** `++fs->lru_clock`. */
    method Stamp() returns (stamp: nat)
      requires Valid()
      modifies clock
      ensures Valid()
      ensures stamp == clock.value == old(clock.value) + 1
      ensures Stamped(slots[..], stamp - 1)
    {
      stamp := clock.Tick();
      StampKept(slots[..], slots[..], stamp - 1, stamp);
    }

    /** Overwrites one slot; the caller has shown that the result is a cache showing `newView`. */
    method Install(i: nat, e: Entry<seq<byte>>, ghost newView: seq<seq<byte>>)
      requires Valid() && i < slots.Length
      requires Coherent(slots[..][i := e], disk.view, newView)
      requires 0 < clock.value == e.lru && Stamped(slots[..], clock.value - 1)
      requires |e.value| == disk.blockSize
      requires newView == view || (e.addr < |view| && newView == view[e.addr := e.value])
      modifies this`view, slots
      ensures Valid() && view == newView && slots[..] == old(slots[..])[i := e]
      ensures old(Clean()) && !e.dirty ==> Clean()
    {
      StampNewest(slots[..], clock.value - 1, i, e);
      slots[i] := e;
      view := newView;
      assert slots[..] == old(slots[..])[i := e];
    }

    /** The victim slot, with nothing left to write back; eviction loses nothing. */
    method Evict() returns (v: nat)
      requires Valid()
      modifies slots, disk`view, disk.bytes
      ensures Valid() && IsVictim(old(slots[..]), v) && v < slots.Length
      ensures !(slots[v].valid && slots[v].dirty)
      ensures Cached() == old(Cached())
      ensures forall a: nat :: Holds(slots[..], a) == old(Holds(slots[..], a))
      ensures old(Clean()) ==> Clean() && disk.view == old(disk.view) && slots[..] == old(slots[..])
    {
      v := Victim(slots);
      Flush(v);
      SettledKeepsKeys(old(slots[..]), slots[..], clock.value);
    }

    /** bc_read. */
    method Read(blockNo: nat) returns (block: seq<byte>)
      requires Valid() && blockNo < disk.numBlocks
      modifies this`view, slots, clock, disk`view, disk.bytes
      ensures Valid() && view == old(view) && block == view[blockNo]
      ensures Cached() <= old(Cached()) + {blockNo}
      ensures clock.value == old(clock.value) + 1
      ensures old(Clean()) ==> Clean() && disk.view == old(disk.view)
      ensures old(Clean()) ==> ReadStep(old(slots[..]), slots[..], blockNo, clock.value)
    {
      var _ := FlushExpired();
      SettledKeepsKeys(old(slots[..]), slots[..], clock.value);
      var found, i := Find(blockNo);
      if found {
        block := ReadHit(i);
      } else {
        block := ReadMiss(blockNo);
      }
    }

    method ReadHit(i: nat) returns (block: seq<byte>)
      requires Valid() && i < slots.Length && slots[i].valid
      modifies this`view, slots, clock
      ensures Valid() && view == old(view) && block == old(slots[i].value)
      ensures Cached() == old(Cached())
      ensures clock.value == old(clock.value) + 1
      ensures old(Clean()) ==> Clean()
      ensures old(Clean()) ==> ReadStep(old(slots[..]), slots[..], old(slots[i].addr), clock.value)
    {
      ghost var s := slots[..];
      var e := slots[i];
      assert s[i] == e;
      var stamp := Stamp();
      TouchKeepsView(s, disk.view, view, i, e.(lru := stamp));
      Install(i, e.(lru := stamp), view);
      assert Holds(s, e.addr);
      assert AllClean(s) ==> ReadsInto(s, slots[..], e.addr, stamp, i);
      block := e.value;
    }

    method ReadMiss(blockNo: nat) returns (block: seq<byte>)
      requires Valid() && blockNo < disk.numBlocks && !Holds(slots[..], blockNo)
      modifies this`view, slots, clock, disk`view, disk.bytes
      ensures Valid() && view == old(view) && block == view[blockNo]
      ensures Cached() <= old(Cached()) + {blockNo}
      ensures clock.value == old(clock.value) + 1
      ensures old(Clean()) ==> Clean() && disk.view == old(disk.view)
      ensures old(Clean()) ==> ReadStep(old(slots[..]), slots[..], blockNo, clock.value)
    {
      var v := Evict();
      var _, data := disk.Read(blockNo);
      Fill(v, blockNo, data);
      assert old(Clean()) ==> ReadsInto(old(slots[..]), slots[..], blockNo, clock.value, v);
      block := data;
    }

    /** Records a block just read from the store. */
    method Fill(v: nat, blockNo: nat, data: seq<byte>)
      requires Valid() && v < slots.Length && !(slots[v].valid && slots[v].dirty)
      requires blockNo < |view| && !Holds(slots[..], blockNo) && data == disk.view[blockNo]
      modifies this`view, slots, clock
      ensures Valid() && view == old(view) && data == view[blockNo]
      ensures Cached() <= old(Cached()) + {blockNo}
      ensures clock.value == old(clock.value) + 1
      ensures old(Clean()) ==> Clean()
      ensures slots[..] == old(slots[..])[v := slots[v]]
      ensures slots[v].valid && !slots[v].dirty && slots[v].addr == blockNo && slots[v].lru == clock.value
    {
      var stamp := Stamp();
      var e := Entry(true, false, 0, blockNo, slots[v].dirtyTime, stamp, data);
      FillKeepsView(slots[..], disk.view, view, v, e);
      Install(v, e, view);
    }

    /** bc_write: only the view at `blockNo` changes. */
    method Write(blockNo: nat, block: seq<byte>)
      requires Valid() && blockNo < disk.numBlocks && |block| == disk.blockSize
      modifies this`view, slots, clock, disk`view, disk.bytes
      ensures Valid() && view == old(view)[blockNo := block]
      ensures Cached() <= old(Cached()) + {blockNo}
      ensures clock.value == old(clock.value) + 1
    {
      var _ := FlushExpired();
      SettledKeepsKeys(old(slots[..]), slots[..], clock.value);
      var found, i := Find(blockNo);
      if found {
        WriteHit(i, block);
      } else {
        WriteMiss(blockNo, block);
      }
    }

    method WriteHit(i: nat, block: seq<byte>)
      requires Valid() && i < slots.Length && slots[i].valid && |block| == disk.blockSize
      modifies this`view, slots, clock
      ensures Valid() && view == old(view)[old(slots[i].addr) := block]
      ensures Cached() == old(Cached())
      ensures clock.value == old(clock.value) + 1
    {
      var e := slots[i];
      var dirtyTime := e.dirtyTime;
      if !e.dirty {
        dirtyTime := Now();
      }
      var stamp := Stamp();
      var f := Entry(true, true, 0, e.addr, dirtyTime, stamp, block);
      StoreInPlace(slots[..], disk.view, view, i, f);
      Install(i, f, view[e.addr := block]);
    }

    method WriteMiss(blockNo: nat, block: seq<byte>)
      requires Valid() && blockNo < disk.numBlocks && |block| == disk.blockSize
      requires !Holds(slots[..], blockNo)
      modifies this`view, slots, clock, disk`view, disk.bytes
      ensures Valid() && view == old(view)[blockNo := block]
      ensures Cached() <= old(Cached()) + {blockNo}
      ensures clock.value == old(clock.value) + 1
    {
      var v := Evict();
      var dirtyTime := Now();
      var stamp := Stamp();
      var e := Entry(true, true, 0, blockNo, dirtyTime, stamp, block);
      StoreAfresh(slots[..], disk.view, view, v, e);
      Install(v, e, view[blockNo := block]);
    }

    /** block_write past the cache, for blocks that never enter it. */
    method WritePast(blockNo: nat, block: seq<byte>)
      requires Valid() && blockNo < disk.numBlocks && |block| == disk.blockSize
      requires blockNo !in Cached()
      modifies this`view, disk`view, disk.bytes
      ensures Valid()
      ensures view == old(view)[blockNo := block] && disk.view == old(disk.view)[blockNo := block]
    {
      StoreBelow(slots[..], disk.view, view, blockNo, block);
      var _ := disk.Write(blockNo, block);
      view := view[blockNo := block];
    }
  }

}
