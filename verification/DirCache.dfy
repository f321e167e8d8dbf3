/** The directory cache: directory pages keyed by (directory, block), written back through the
    block cache. */
module DirCache {
  import opened Bytes
  import opened Cache
  import opened BlockCache

  class DCache {
    const bc: BCache
    const slots: array<Entry<seq<byte>>>

    /** Block number to last written contents, seen through both caches. */
    ghost var view: seq<seq<byte>>

    ghost predicate Valid()
      reads this, slots, bc, bc.disk, bc.disk.bytes, bc.clock, bc.slots
    {
      && bc.Valid() && slots != bc.slots && 0 < slots.Length
      && Coherent(slots[..], bc.view, view)
      && Stamped(slots[..], bc.clock.value)
      && forall b | 0 <= b < |view| :: |view[b]| == bc.disk.blockSize
    }

    /** Neither cache has anything left to write back. */
    ghost predicate Clean()
      reads slots, bc, bc.slots
    {
      AllClean(slots[..]) && bc.Clean()
    }

    ghost function Cached(): set<nat>
      reads slots
    {
      Keys(slots[..])
    }

    /** The (directory, block) keys of the cached pages. */
    ghost function Pages(): set<(nat, nat)>
      reads slots
    {
      PagesOf(slots[..])
    }

    /** A block is cached for one directory only. */
    ghost predicate OnlyFor(dir: nat, blockNo: nat)
      reads slots
    {
      forall d :: (d, blockNo) in Pages() ==> d == dir
    }

    constructor (bc: BCache, size: nat)
      requires bc.Valid() && 0 < size
      ensures Valid() && this.bc == bc && Cached() == {} && Pages() == {} && view == bc.view
      ensures bc.Clean() ==> Clean()
      ensures fresh(slots) && slots.Length == size
    {
      this.bc := bc;
      slots := new Entry<seq<byte>>[size](_ => Entry(false, false, 0, 0, 0, 0, []));
      view := bc.view;
      new;
      EmptyIsTransparent(slots[..], bc.view, bc.clock.value);
    }

    /** dc_flush. */
    method Flush(i: nat)
      requires Valid() && i < slots.Length
      modifies slots, bc`view, bc.slots, bc.clock, bc.disk`view, bc.disk.bytes
      ensures Valid() && Settled(old(slots[..]), slots[..])
      ensures !(slots[i].valid && slots[i].dirty)
      ensures forall k | 0 <= k < slots.Length && k != i :: slots[k] == old(slots[k])
      ensures bc.Cached() <= old(bc.Cached() + Cached())
      ensures old(AllClean(slots[..])) ==>
                bc.slots[..] == old(bc.slots[..]) && bc.view == old(bc.view) && bc.disk.view == old(bc.disk.view)
      ensures bc.clock.value >= old(bc.clock.value)
    {
      var e := slots[i];
      if e.valid && e.dirty {
        assert slots[..][i] == e;
        ghost var s := slots[..];
        FlushKeepsView(s, bc.view, view, i);
        bc.Write(e.addr, e.value);
        StampKept(s, s[i := e.(dirty := false)], bc.clock.value - 1, bc.clock.value);
        slots[i] := e.(dirty := false);
        assert slots[..] == s[i := e.(dirty := false)];
        assert e.addr in Keys(s);
      }
    }

    method FlushIfExpired(i: nat, now: int)
      requires Valid() && i < slots.Length
      modifies slots, bc`view, bc.slots, bc.clock, bc.disk`view, bc.disk.bytes
      ensures Valid()
      ensures forall k | 0 <= k < slots.Length && k != i :: slots[k] == old(slots[k])
      ensures var e := old(slots[i]);
              slots[i] == if e.valid && e.dirty && now - e.dirtyTime >= WRITEBACK_INTERVAL then e.(dirty := false) else e
      ensures bc.Cached() <= old(bc.Cached() + Cached())
      ensures old(AllClean(slots[..])) ==>
                bc.slots[..] == old(bc.slots[..]) && bc.view == old(bc.view) && bc.disk.view == old(bc.disk.view)
      ensures bc.clock.value >= old(bc.clock.value)
    {
      if slots[i].valid && slots[i].dirty && now - slots[i].dirtyTime >= WRITEBACK_INTERVAL {
        Flush(i);
      }
    }

    /** dc_flush_expired. */
    method FlushExpired() returns (now: int)
      requires Valid()
      modifies slots, bc`view, bc.slots, bc.clock, bc.disk`view, bc.disk.bytes
      ensures Valid() && Settled(old(slots[..]), slots[..])
      ensures WrittenBack(old(slots[..]), slots[..], now, slots.Length)
      ensures Pages() == old(Pages()) && Cached() == old(Cached())
      ensures forall a: nat :: Holds(slots[..], a) == old(Holds(slots[..], a))
      ensures bc.Cached() <= old(bc.Cached() + Cached())
      ensures old(AllClean(slots[..])) ==>
                bc.slots[..] == old(bc.slots[..]) && bc.view == old(bc.view) && bc.disk.view == old(bc.disk.view)
      ensures bc.clock.value >= old(bc.clock.value)
      ensures old(Clean()) ==> Clean() && bc.disk.view == old(bc.disk.view)
    {
      hide Distinct, Coherent, Stamped;
      now := Now();
      WriteBackStarts(slots[..], now);
      for i := 0 to slots.Length
        invariant Valid() && WrittenBack(old(slots[..]), slots[..], now, i)
        invariant bc.Cached() <= old(bc.Cached() + Cached())
        invariant bc.clock.value >= old(bc.clock.value)
        invariant old(AllClean(slots[..])) ==>
            bc.slots[..] == old(bc.slots[..]) && bc.view == old(bc.view) && bc.disk.view == old(bc.disk.view)
      {
        WriteBackSettles(old(slots[..]), slots[..], now, i);
        SettledKeepsKeys(old(slots[..]), slots[..], 0);
        ghost var before := slots[..];
        FlushIfExpired(i, now);
        WriteBackOne(old(slots[..]), before, slots[..], now, i);
      }
      WriteBackSettles(old(slots[..]), slots[..], now, slots.Length);
      SettledKeepsPages(old(slots[..]), slots[..]);
      SettledKeepsKeys(old(slots[..]), slots[..], 0);
    }

    /** dc_flush_all: afterwards the block cache holds every directory page. */
    method FlushAll()
      requires Valid()
      modifies slots, bc`view, bc.slots, bc.clock, bc.disk`view, bc.disk.bytes
      ensures Valid() && Settled(old(slots[..]), slots[..])
      ensures AllClean(slots[..]) && bc.view == view
      ensures bc.Cached() <= old(bc.Cached() + Cached())
      ensures bc.clock.value >= old(bc.clock.value)
    {
      for i := 0 to slots.Length
        invariant Valid() && Settled(old(slots[..]), slots[..])
        invariant bc.Cached() <= old(bc.Cached() + Cached())
        invariant bc.clock.value >= old(bc.clock.value)
        invariant forall k :: 0 <= k < i && slots[k].valid ==> !slots[k].dirty
      {
        SettledKeepsKeys(old(slots[..]), slots[..], 0);
        ghost var before := slots[..];
        Flush(i);
        SettledTrans(old(slots[..]), before, slots[..]);
      }
      CleanMeansStored(slots[..], bc.view, view);
    }

    /** The slot that holds a page, or none. */
    method Find(dir: nat, blockNo: nat) returns (found: bool, i: nat)
      requires OnlyFor(dir, blockNo)
      ensures found <==> Holds(slots[..], blockNo)
      ensures found ==> i < slots.Length && slots[i].valid && slots[i].addr == blockNo && slots[i].owner == dir
    {
      i := 0;
      while i < slots.Length
        invariant i <= slots.Length
        invariant forall k :: 0 <= k < i ==> !(slots[k].valid && slots[k].addr == blockNo)
      {
        if slots[i].valid && slots[i].owner == dir && slots[i].addr == blockNo {
          assert slots[..][i].valid;
          return true, i;
        }
        if slots[i].valid && slots[i].addr == blockNo {
          assert slots[..][i].valid && (slots[i].owner, blockNo) in Pages();
        }
        i := i + 1;
      }
      found := false;
    }

    /** Some other directory has the block among its pages. */
    method HeldForAnother(dir: nat, blockNo: nat) returns (held: bool)
      ensures held <==> !OnlyFor(dir, blockNo)
    {
      for i := 0 to slots.Length
        invariant forall k | 0 <= k < i && slots[k].valid && slots[k].addr == blockNo :: slots[k].owner == dir
      {
        if slots[i].valid && slots[i].addr == blockNo && slots[i].owner != dir {
          assert slots[..][i].valid && (slots[i].owner, blockNo) in Pages();
          return true;
        }
      }
      held := false;
    }

    /** `++fs->lru_clock`. */
    method Stamp() returns (stamp: nat)
      requires Valid()
      modifies bc.clock
      ensures Valid()
      ensures stamp == bc.clock.value == old(bc.clock.value) + 1
      ensures Stamped(slots[..], stamp - 1)
    {
      stamp := bc.clock.Tick();
      StampKept(slots[..], slots[..], stamp - 1, stamp);
      StampKept(bc.slots[..], bc.slots[..], stamp - 1, stamp);
    }

    /** Overwrites one slot; the caller has shown that the result is a cache showing `newView`. */
    method Install(i: nat, e: Entry<seq<byte>>, ghost newView: seq<seq<byte>>)
      requires Valid() && i < slots.Length
      requires Coherent(slots[..][i := e], bc.view, newView)
      requires 0 < bc.clock.value == e.lru && Stamped(slots[..], bc.clock.value - 1)
      requires |e.value| == bc.disk.blockSize
      requires newView == view || (e.addr < |view| && newView == view[e.addr := e.value])
      modifies this`view, slots
      ensures Valid() && view == newView && slots[..] == old(slots[..])[i := e]
      ensures Pages() <= old(Pages()) + {(e.owner, e.addr)} && (e.valid ==> (e.owner, e.addr) in Pages())
      ensures old(AllClean(slots[..])) && !e.dirty ==> AllClean(slots[..])
    {
      StampNewest(slots[..], bc.clock.value - 1, i, e);
      PageReplaced(slots[..], i, e);
      slots[i] := e;
      view := newView;
      assert slots[..] == old(slots[..])[i := e] && slots[..][i] == e;
    }

    /** A slot with nothing to write back; eviction loses nothing. */
    method Evict() returns (v: nat)
      requires Valid()
      modifies slots, bc`view, bc.slots, bc.clock, bc.disk`view, bc.disk.bytes
      ensures Valid() && v < slots.Length && !(slots[v].valid && slots[v].dirty)
      ensures Pages() == old(Pages()) && Cached() == old(Cached())
      ensures forall a: nat :: Holds(slots[..], a) == old(Holds(slots[..], a))
      ensures bc.Cached() <= old(bc.Cached() + Cached())
      ensures old(Clean()) ==> Clean() && bc.disk.view == old(bc.disk.view)
      ensures bc.clock.value >= old(bc.clock.value)
    {
      v := Victim(slots);
      Flush(v);
      SettledKeepsPages(old(slots[..]), slots[..]);
      SettledKeepsKeys(old(slots[..]), slots[..], 0);
    }

    /** dc_read. */
    method Read(dir: nat, blockNo: nat) returns (page: seq<byte>)
      requires Valid() && blockNo < bc.disk.numBlocks && OnlyFor(dir, blockNo)
      modifies this`view, slots, bc`view, bc.slots, bc.clock, bc.disk`view, bc.disk.bytes
      ensures Valid() && page == view[blockNo] && view == old(view)
      ensures Pages() <= old(Pages()) + {(dir, blockNo)} && (dir, blockNo) in Pages()
      ensures bc.Cached() <= old(bc.Cached() + Cached()) + {blockNo}
      ensures old(Clean()) ==> Clean() && bc.disk.view == old(bc.disk.view)
      ensures bc.clock.value >= old(bc.clock.value)
    {
      var _ := FlushExpired();
      page := Fetch(dir, blockNo);
    }

    method Fetch(dir: nat, blockNo: nat) returns (page: seq<byte>)
      requires Valid() && blockNo < bc.disk.numBlocks && OnlyFor(dir, blockNo)
      modifies this`view, slots, bc`view, bc.slots, bc.clock, bc.disk`view, bc.disk.bytes
      ensures Valid() && page == view[blockNo] && view == old(view)
      ensures Pages() <= old(Pages()) + {(dir, blockNo)} && (dir, blockNo) in Pages()
      ensures bc.Cached() <= old(bc.Cached() + Cached()) + {blockNo}
      ensures old(Clean()) ==> Clean() && bc.disk.view == old(bc.disk.view)
      ensures bc.clock.value >= old(bc.clock.value)
    {
      var found, i := Find(dir, blockNo);
      if found {
        page := ReadHit(i);
      } else {
        page := ReadMiss(dir, blockNo);
      }
    }

    method ReadHit(i: nat) returns (page: seq<byte>)
      requires Valid() && i < slots.Length && slots[i].valid
      modifies this`view, slots, bc.clock
      ensures Valid() && view == old(view) && page == old(slots[i].value)
      ensures Pages() <= old(Pages()) + {(old(slots[i].owner), old(slots[i].addr))}
      ensures (old(slots[i].owner), old(slots[i].addr)) in Pages()
      ensures old(Clean()) ==> Clean()
      ensures bc.clock.value >= old(bc.clock.value)
    {
      var e := slots[i];
      assert slots[..][i] == e;
      var stamp := Stamp();
      TouchKeepsView(slots[..], bc.view, view, i, e.(lru := stamp));
      Install(i, e.(lru := stamp), view);
      page := e.value;
    }

    method ReadMiss(dir: nat, blockNo: nat) returns (page: seq<byte>)
      requires Valid() && blockNo < bc.disk.numBlocks && !Holds(slots[..], blockNo)
      modifies this`view, slots, bc`view, bc.slots, bc.clock, bc.disk`view, bc.disk.bytes
      ensures Valid() && page == view[blockNo] && view == old(view)
      ensures Pages() <= old(Pages()) + {(dir, blockNo)} && (dir, blockNo) in Pages()
      ensures bc.Cached() <= old(bc.Cached() + Cached()) + {blockNo}
      ensures old(Clean()) ==> Clean() && bc.disk.view == old(bc.disk.view)
      ensures bc.clock.value >= old(bc.clock.value)
    {
      var v := Evict();
      page := ReadBelow(blockNo);
      Fill(v, dir, blockNo, page);
    }

    /** Records a page just read from the block cache. */
    method Fill(v: nat, dir: nat, blockNo: nat, page: seq<byte>)
      requires Valid() && v < slots.Length && !(slots[v].valid && slots[v].dirty)
      requires blockNo < |view| && !Holds(slots[..], blockNo) && page == bc.view[blockNo]
      modifies this`view, slots, bc.clock
      ensures Valid() && view == old(view) && page == view[blockNo]
      ensures Pages() <= old(Pages()) + {(dir, blockNo)} && (dir, blockNo) in Pages()
      ensures old(Clean()) ==> Clean()
      ensures bc.clock.value >= old(bc.clock.value)
    {
      var stamp := Stamp();
      var e := Entry(true, false, dir, blockNo, slots[v].dirtyTime, stamp, page);
      FillKeepsView(slots[..], bc.view, view, v, e);
      Install(v, e, view);
    }

    /** bc_read on behalf of this cache. */
    method ReadBelow(blockNo: nat) returns (block: seq<byte>)
      requires Valid() && blockNo < bc.disk.numBlocks
      modifies bc`view, bc.slots, bc.clock, bc.disk`view, bc.disk.bytes
      ensures Valid() && block == bc.view[blockNo] && bc.view == old(bc.view)
      ensures bc.Cached() <= old(bc.Cached()) + {blockNo}
      ensures old(bc.Clean()) ==> bc.Clean() && bc.disk.view == old(bc.disk.view)
      ensures bc.clock.value >= old(bc.clock.value)
    {
      block := bc.Read(blockNo);
      StampKept(slots[..], slots[..], bc.clock.value - 1, bc.clock.value);
    }

    /** dc_write: only the view at `blockNo` changes. */
    method Write(dir: nat, blockNo: nat, page: seq<byte>)
      requires Valid() && blockNo < bc.disk.numBlocks && OnlyFor(dir, blockNo)
      requires |page| == bc.disk.blockSize
      modifies this`view, slots, bc`view, bc.slots, bc.clock, bc.disk`view, bc.disk.bytes
      ensures Valid() && view == old(view)[blockNo := page]
      ensures Pages() <= old(Pages()) + {(dir, blockNo)}
      ensures bc.Cached() <= old(bc.Cached() + Cached())
      ensures bc.clock.value >= old(bc.clock.value)
    {
      var _ := FlushExpired();
      Put(dir, blockNo, page);
    }

    method Put(dir: nat, blockNo: nat, page: seq<byte>)
      requires Valid() && blockNo < bc.disk.numBlocks && OnlyFor(dir, blockNo)
      requires |page| == bc.disk.blockSize
      modifies this`view, slots, bc`view, bc.slots, bc.clock, bc.disk`view, bc.disk.bytes
      ensures Valid() && view == old(view)[blockNo := page]
      ensures Pages() <= old(Pages()) + {(dir, blockNo)}
      ensures bc.Cached() <= old(bc.Cached() + Cached())
      ensures bc.clock.value >= old(bc.clock.value)
    {
      var found, i := Find(dir, blockNo);
      if found {
        WriteHit(dir, i, page);
      } else {
        WriteMiss(dir, blockNo, page);
      }
    }

    method WriteHit(dir: nat, i: nat, page: seq<byte>)
      requires Valid() && i < slots.Length && slots[i].valid && slots[i].owner == dir
      requires |page| == bc.disk.blockSize
      modifies this`view, slots, bc.clock
      ensures Valid() && view == old(view)[old(slots[i].addr) := page]
      ensures Pages() <= old(Pages()) + {(dir, old(slots[i].addr))}
      ensures bc.clock.value >= old(bc.clock.value)
    {
      var e := slots[i];
      var dirtyTime := e.dirtyTime;
      if !e.dirty {
        dirtyTime := Now();
      }
      var stamp := Stamp();
      var f := Entry(true, true, dir, e.addr, dirtyTime, stamp, page);
      StoreInPlace(slots[..], bc.view, view, i, f);
      Install(i, f, view[e.addr := page]);
    }

    method WriteMiss(dir: nat, blockNo: nat, page: seq<byte>)
      requires Valid() && blockNo < bc.disk.numBlocks && !Holds(slots[..], blockNo)
      requires |page| == bc.disk.blockSize
      modifies this`view, slots, bc`view, bc.slots, bc.clock, bc.disk`view, bc.disk.bytes
      ensures Valid() && view == old(view)[blockNo := page]
      ensures Pages() <= old(Pages()) + {(dir, blockNo)}
      ensures bc.Cached() <= old(bc.Cached() + Cached())
      ensures bc.clock.value >= old(bc.clock.value)
    {
      var v := Evict();
      var dirtyTime := Now();
      var stamp := Stamp();
      var e := Entry(true, true, dir, blockNo, dirtyTime, stamp, page);
      StoreAfresh(slots[..], bc.view, view, v, e);
      Install(v, e, view[blockNo := page]);
    }

    /** bc_read of a block that is no cached directory page. */
    method ReadData(blockNo: nat) returns (block: seq<byte>)
      requires Valid() && blockNo < bc.disk.numBlocks && blockNo !in Cached()
      modifies bc`view, bc.slots, bc.clock, bc.disk`view, bc.disk.bytes
      ensures Valid() && block == view[blockNo]
      ensures bc.Cached() <= old(bc.Cached()) + {blockNo}
      ensures old(Clean()) ==> Clean() && bc.disk.view == old(bc.disk.view)
      ensures bc.clock.value >= old(bc.clock.value)
    {
      block := bc.Read(blockNo);
      StampKept(slots[..], slots[..], bc.clock.value - 1, bc.clock.value);
    }

    /** bc_write of a block that is no cached directory page. */
    method WriteData(blockNo: nat, block: seq<byte>)
      requires Valid() && blockNo < bc.disk.numBlocks && blockNo !in Cached()
      requires |block| == bc.disk.blockSize
      modifies this`view, bc`view, bc.slots, bc.clock, bc.disk`view, bc.disk.bytes
      ensures Valid() && view == old(view)[blockNo := block]
      ensures bc.Cached() <= old(bc.Cached()) + {blockNo}
      ensures bc.clock.value >= old(bc.clock.value)
    {
      StoreBelow(slots[..], bc.view, view, blockNo, block);
      bc.Write(blockNo, block);
      StampKept(slots[..], slots[..], bc.clock.value - 1, bc.clock.value);
      view := view[blockNo := block];
    }

    /** block_write past both caches, for blocks that enter neither. */
    method WritePast(blockNo: nat, block: seq<byte>)
      requires Valid() && blockNo < bc.disk.numBlocks && |block| == bc.disk.blockSize
      requires blockNo !in Cached() && blockNo !in bc.Cached()
      modifies this`view, bc`view, bc.disk`view, bc.disk.bytes
      ensures Valid() && view == old(view)[blockNo := block]
      ensures bc.view == old(bc.view)[blockNo := block]
      ensures bc.disk.view == old(bc.disk.view)[blockNo := block]
    {
      StoreBelow(slots[..], bc.view, view, blockNo, block);
      bc.WritePast(blockNo, block);
      view := view[blockNo := block];
    }
  }

  ghost function PagesOf(slots: seq<Entry<seq<byte>>>): (p: set<(nat, nat)>)
    ensures forall d, b :: (d, b) in p <==>
              exists i :: 0 <= i < |slots| && slots[i].valid && slots[i].owner == d && slots[i].addr == b
  {
    set i | 0 <= i < |slots| && slots[i].valid :: (slots[i].owner, slots[i].addr)
  }

  /** Every cached page has an owner on record. */
  lemma CachedHasPage(slots: seq<Entry<seq<byte>>>, b: nat)
    requires b in Keys(slots)
    ensures exists d: nat :: (d, b) in PagesOf(slots)
  {
    assert Holds(slots, b);
    var i :| 0 <= i < |slots| && slots[i].valid && slots[i].addr == b;
    assert (slots[i].owner, b) in PagesOf(slots);
  }

  lemma SettledKeepsPages(s: seq<Entry<seq<byte>>>, t: seq<Entry<seq<byte>>>)
    requires Settled(s, t)
    ensures PagesOf(s) == PagesOf(t)
  {
    forall d, b ensures (d, b) in PagesOf(s) <==> (d, b) in PagesOf(t) {
      if (d, b) in PagesOf(s) {
        var i :| 0 <= i < |s| && s[i].valid && s[i].owner == d && s[i].addr == b;
        assert t[i].valid && t[i].owner == d && t[i].addr == b;
      }
      if (d, b) in PagesOf(t) {
        var i :| 0 <= i < |t| && t[i].valid && t[i].owner == d && t[i].addr == b;
        assert s[i].valid && s[i].owner == d && s[i].addr == b;
      }
    }
  }

  lemma PageReplaced(s: seq<Entry<seq<byte>>>, v: nat, e: Entry<seq<byte>>)
    requires v < |s|
    ensures PagesOf(s[v := e]) <= PagesOf(s) + {(e.owner, e.addr)}
  {
    var t := s[v := e];
    forall p | p in PagesOf(t) ensures p in PagesOf(s) + {(e.owner, e.addr)} {
      var i :| 0 <= i < |t| && t[i].valid && t[i].owner == p.0 && t[i].addr == p.1;
      if i != v {
        assert s[i].valid && s[i].owner == p.0 && s[i].addr == p.1;
      }
    }
  }
}
