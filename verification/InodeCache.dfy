/** The inode cache: copies of inode-table entries, handed out as slots that callers update in
    place and then declare dirty. */
module InodeCache {
  import opened Bytes
  import opened Cache
  import opened Layout

  class ICache {
    const tab: array<Inode>
    const clock: LruClock
    const slots: array<Entry<Inode>>

    /** Every cached inode agrees with the table, except possibly that of inode `id`. */
    ghost predicate ValidBut(id: int)
      reads tab, clock, slots
    {
      && tab.Length == ITAB_SIZE && ShapedTable(tab[..])
      && 0 < slots.Length && Distinct(slots[..]) && Stamped(slots[..], clock.value)
      && forall i | 0 <= i < slots.Length && slots[i].valid ::
           && slots[i].addr < ITAB_SIZE && Shaped(slots[i].value)
           && (slots[i].addr != id ==> Agree(slots[i].value, tab[slots[i].addr]))
    }

    ghost predicate Valid()
      reads tab, clock, slots
    {
      ValidBut(-1)
    }

    ghost predicate Clean()
      reads slots
    {
      AllClean(slots[..])
    }

    ghost function Cached(): set<nat>
      reads slots
    {
      Keys(slots[..])
    }

    /** No inode but `root` points to a second block, wherever a copy of it is kept. */
    ghost predicate Flat(root: nat)
      reads tab, slots
    {
      && (forall id: nat | id < tab.Length && id != root :: Second(tab[id]) == 0)
      && (forall i: nat | i < slots.Length && slots[i].valid && slots[i].addr != root :: Second(slots[i].value) == 0)
    }

    /** Slot s is where inode `id` is cached. */
    ghost predicate At(s: nat, id: nat)
      reads slots
    {
      s < slots.Length && slots[s].valid && slots[s].addr == id
    }

    constructor (tab: array<Inode>, clock: LruClock, size: nat)
      requires tab.Length == ITAB_SIZE && ShapedTable(tab[..]) && 0 < size
      ensures Valid() && Clean() && Cached() == {}
      ensures this.tab == tab && this.clock == clock && fresh(slots) && slots.Length == size
    {
      var none := Inode(0, 0, seq(INODE_NUM_BLKS, _ => 0), seq(4, _ => 0));
      this.tab, this.clock := tab, clock;
      slots := new Entry<Inode>[size](_ => Entry(false, false, 0, 0, 0, 0, none));
      new;
      assert forall a: nat :: !Holds(slots[..], a);
    }

    /** ic_flush. */
    method Flush(i: nat)
      requires Valid() && i < slots.Length
      modifies slots, tab
      ensures Valid() && Settled(old(slots[..]), slots[..])
      ensures !(slots[i].valid && slots[i].dirty)
      ensures forall k | 0 <= k < slots.Length && k != i :: slots[k] == old(slots[k])
      ensures forall id | 0 <= id < ITAB_SIZE :: Agree(tab[id], old(tab[id]))
      ensures old(Clean()) ==> tab[..] == old(tab[..])
      ensures forall root: nat :: old(Flat(root)) ==> Flat(root)
    {
      var e := slots[i];
      if e.valid && e.dirty {
        assert slots[..][i] == e;
        tab[e.addr] := e.value;
        slots[i] := e.(dirty := false);
        assert slots[..] == old(slots[..])[i := e.(dirty := false)];
        StampKept(old(slots[..]), slots[..], clock.value, clock.value);
      }
    }

    /** ic_flush_expired. */
    method FlushExpired() returns (now: int)
      requires Valid()
      modifies slots, tab
      ensures Valid() && Settled(old(slots[..]), slots[..])
      ensures WrittenBack(old(slots[..]), slots[..], now, slots.Length)
      ensures forall id | 0 <= id < ITAB_SIZE :: Agree(tab[id], old(tab[id]))
      ensures old(Clean()) ==> tab[..] == old(tab[..])
      ensures forall root: nat :: old(Flat(root)) ==> Flat(root)
    {
      hide WrittenBack;
      now := Now();
      WriteBackStarts(slots[..], now);
      for i := 0 to slots.Length
        invariant Valid() && WrittenBack(old(slots[..]), slots[..], now, i)
        invariant forall id | 0 <= id < ITAB_SIZE :: Agree(tab[id], old(tab[id]))
        invariant old(Clean()) ==> tab[..] == old(tab[..])
        invariant forall root: nat :: old(Flat(root)) ==> Flat(root)
      {
        WriteBackSettles(old(slots[..]), slots[..], now, i);
        SettledKeepsKeys(old(slots[..]), slots[..], clock.value);
        ghost var before := slots[..];
        if slots[i].valid && slots[i].dirty && now - slots[i].dirtyTime >= WRITEBACK_INTERVAL {
          Flush(i);
        }
        WriteBackOne(old(slots[..]), before, slots[..], now, i);
      }
      WriteBackSettles(old(slots[..]), slots[..], now, slots.Length);
    }

    /** ic_flush_all. */
    method FlushAll()
      requires Valid()
      modifies slots, tab
      ensures Valid() && Settled(old(slots[..]), slots[..]) && Clean()
      ensures forall id | 0 <= id < ITAB_SIZE :: Agree(tab[id], old(tab[id]))
      ensures Cached() == old(Cached())
      ensures forall root: nat :: old(Flat(root)) ==> Flat(root)
    {
      for i := 0 to slots.Length
        invariant Valid() && Settled(old(slots[..]), slots[..])
        invariant forall id | 0 <= id < ITAB_SIZE :: Agree(tab[id], old(tab[id]))
        invariant forall k :: 0 <= k < i && slots[k].valid ==> !slots[k].dirty
        invariant forall root: nat :: old(Flat(root)) ==> Flat(root)
      {
        ghost var before := slots[..];
        Flush(i);
        SettledTrans(old(slots[..]), before, slots[..]);
      }
      SettledKeepsKeys(old(slots[..]), slots[..], clock.value);
    }

    /** The slot that holds an inode, or none. */
    method Find(id: nat) returns (found: bool, i: nat)
      ensures found <==> Holds(slots[..], id)
      ensures found ==> At(i, id)
      ensures !found ==> forall k: nat :: !At(k, id)
    {
      i := 0;
      while i < slots.Length
        invariant i <= slots.Length
        invariant forall k :: 0 <= k < i ==> !(slots[k].valid && slots[k].addr == id)
      {
        if slots[i].valid && slots[i].addr == id {
          assert slots[..][i].valid;
          return true, i;
        }
        i := i + 1;
      }
      found := false;
    }

    /** ic_get: the returned slot holds the inode, and keeps the very contents it already had. */
    method Get(id: nat) returns (s: nat)
      requires Valid() && id < ITAB_SIZE
      modifies slots, clock, tab
      ensures Valid() && At(s, id)
      ensures forall i: nat | old(At(i, id)) :: s == i && slots[s].value == old(slots[i].value)
      ensures forall k | 0 <= k < ITAB_SIZE :: Agree(tab[k], old(tab[k]))
      ensures Cached() <= old(Cached()) + {id}
      ensures clock.value == old(clock.value) + 1
      ensures old(Clean()) ==> Clean() && tab[..] == old(tab[..])
      ensures old(Clean()) ==> ReadStep(old(slots[..]), slots[..], id, clock.value)
      ensures forall root: nat :: old(Flat(root)) ==> Flat(root)
    {
      var _ := FlushExpired();
      SettledKeepsKeys(old(slots[..]), slots[..], clock.value);
      forall i: nat | old(At(i, id)) ensures At(i, id) && slots[i].value == old(slots[i].value) {
        assert old(slots[..])[i] == old(slots[i]);
      }
      s := GetSettled(id);
    }

    /** The lookup and, on a miss, the load. */
    method GetSettled(id: nat) returns (s: nat)
      requires Valid() && id < ITAB_SIZE
      modifies slots, clock, tab
      ensures Valid() && At(s, id)
      ensures forall i: nat | old(At(i, id)) :: s == i && slots[s].value == old(slots[i].value)
      ensures forall k | 0 <= k < ITAB_SIZE :: Agree(tab[k], old(tab[k]))
      ensures Cached() <= old(Cached()) + {id}
      ensures clock.value == old(clock.value) + 1
      ensures old(Clean()) ==> Clean() && tab[..] == old(tab[..])
      ensures old(Clean()) ==> ReadStep(old(slots[..]), slots[..], id, clock.value)
      ensures forall root: nat :: old(Flat(root)) ==> Flat(root)
    {
      var found: bool;
      found, s := Find(id);
      if found {
        assert forall i: nat | At(i, id) :: old(slots[..])[i].valid;
        Touch(s);
        assert slots[..] == old(slots[..])[s := slots[s]] && old(slots[..])[s].valid;
        assert old(Clean()) ==> ReadsInto(old(slots[..]), slots[..], id, clock.value, s);
      } else {
        s := Load(id);
      }
    }

    method Touch(s: nat)
      requires Valid() && s < slots.Length && slots[s].valid
      modifies slots, clock
      ensures Valid() && Cached() == old(Cached())
      ensures clock.value == old(clock.value) + 1
      ensures forall k | 0 <= k < slots.Length && k != s :: slots[k] == old(slots[k])
      ensures slots[s] == old(slots[s]).(lru := clock.value)
      ensures forall root: nat :: old(Flat(root)) ==> Flat(root)
    {
      var stamp := clock.Tick();
      StampNewest(slots[..], stamp - 1, s, slots[s].(lru := stamp));
      slots[s] := slots[s].(lru := stamp);
      assert slots[..] == old(slots[..])[s := slots[s]];
      SameKeys(old(slots[..]), slots[..]);
    }

    method Load(id: nat) returns (v: nat)
      requires Valid() && id < ITAB_SIZE && !Holds(slots[..], id)
      modifies slots, clock, tab
      ensures Valid() && At(v, id)
      ensures forall k | 0 <= k < ITAB_SIZE :: Agree(tab[k], old(tab[k]))
      ensures Cached() <= old(Cached()) + {id}
      ensures clock.value == old(clock.value) + 1
      ensures old(Clean()) ==> Clean() && tab[..] == old(tab[..])
      ensures old(Clean()) ==> ReadStep(old(slots[..]), slots[..], id, clock.value)
      ensures forall root: nat :: old(Flat(root)) ==> Flat(root)
    {
      v := Victim(slots);
      Flush(v);
      SettledKeepsKeys(old(slots[..]), slots[..], clock.value);
      ghost var s1 := slots[..];
      Bring(v, id);
      assert old(Clean()) ==> ReadsInto(old(slots[..]), slots[..], id, clock.value, v);
    }

    /** A copy of the table entry in a slot that has nothing to write back. */
    method Bring(v: nat, id: nat)
      requires Valid() && id < ITAB_SIZE && !Holds(slots[..], id)
      requires v < slots.Length && !(slots[v].valid && slots[v].dirty)
      modifies slots, clock
      ensures Valid() && At(v, id) && Cached() <= old(Cached()) + {id}
      ensures clock.value == old(clock.value) + 1 && slots[v].lru == clock.value
      ensures slots[..] == old(slots[..])[v := slots[v]] && !slots[v].dirty
      ensures forall root: nat :: old(Flat(root)) ==> Flat(root)
    {
      var stamp := clock.Tick();
      var e := Entry(true, false, 0, id, slots[v].dirtyTime, stamp, tab[id]);
      StampNewest(slots[..], stamp - 1, v, e);
      Replaced(slots[..], v, e);
      slots[v] := e;
      assert slots[..] == old(slots[..])[v := e];
    }

    /** A store through the pointer that ic_get returned. */
    method Poke(s: nat, n: Inode)
      requires Valid() && s < slots.Length && slots[s].valid && Shaped(n)
      modifies slots
      ensures ValidBut(slots[s].addr)
      ensures Agree(n, old(slots[s].value)) ==> Valid()
      ensures slots[..] == old(slots[..])[s := old(slots[s]).(value := n)]
      ensures Cached() == old(Cached()) && (old(Clean()) ==> Clean())
      ensures forall root: nat :: old(Flat(root)) && (slots[s].addr == root || Second(n) == 0) ==> Flat(root)
    {
      slots[s] := slots[s].(value := n);
      assert slots[..] == old(slots[..])[s := slots[s]];
      SameKeys(old(slots[..]), slots[..]);
      StampKept(old(slots[..]), slots[..], clock.value, clock.value);
    }

    /** ic_dirty: the table catches up with the cached inode at once. */
    method Dirty(id: nat)
      requires id < ITAB_SIZE && ValidBut(id)
      modifies slots, tab
      ensures Holds(old(slots[..]), id) ==> Valid()
      ensures Cached() == old(Cached())
      ensures forall s: nat | old(At(s, id)) ::
                At(s, id) && slots[s].value == old(slots[s].value) && tab[..] == old(tab[..])[id := slots[s].value]
      ensures forall root: nat :: old(Flat(root)) ==> Flat(root)
    {
      var found, i := Find(id);
      if found {
        tab[id] := slots[i].value;
        if !slots[i].dirty {
          var now := Now();
          slots[i] := slots[i].(dirty := true, dirtyTime := now);
        }
        assert slots[..] == old(slots[..])[i := slots[i]];
        SameKeys(old(slots[..]), slots[..]);
        StampKept(old(slots[..]), slots[..], clock.value, clock.value);
      }
    }

    /** ic_invalidate: a dirty cached copy is written over the table entry before it is dropped, so
        a caller that has just rewritten the entry keeps its work only if the inode is not cached. */
    method Invalidate(id: nat)
      requires Valid() && id < ITAB_SIZE
      modifies slots, tab
      ensures Valid() && Cached() == old(Cached()) - {id}
      ensures !old(Holds(slots[..], id)) ==> slots[..] == old(slots[..]) && tab[..] == old(tab[..])
      ensures forall s: nat | old(At(s, id)) ::
                tab[..] == old(tab[..])[id := if old(slots[s].dirty) then old(slots[s].value) else old(tab[id])]
      ensures forall root: nat :: old(Flat(root)) ==> Flat(root)
    {
      for i := 0 to slots.Length
        invariant Valid()
        invariant forall k | i <= k < slots.Length :: slots[k] == old(slots[k])
        invariant forall root: nat :: old(Flat(root)) ==> Flat(root)
        invariant forall k | 0 <= k < i ::
            slots[k] == if old(slots[k]).valid && old(slots[k]).addr == id
                        then slots[k].(valid := false) else old(slots[k])
        invariant (forall k | 0 <= k < i :: !old(At(k, id))) ==> tab[..] == old(tab[..])
        invariant forall k: nat | k < i && old(At(k, id)) ::
            tab[..] == old(tab[..])[id := if old(slots[k].dirty) then old(slots[k].value) else old(tab[id])]
      {
        if slots[i].valid && slots[i].addr == id {
          forall k: nat | k < i ensures !old(At(k, id)) {
            assert old(slots[..])[k] == old(slots[k]) && old(slots[..])[i] == old(slots[i]);
          }
          assert old(At(i, id));
          Drop(i);
        }
      }
      KeysWithout(old(slots[..]), slots[..], id);
    }

    method Drop(i: nat)
      requires Valid() && i < slots.Length && slots[i].valid
      modifies slots, tab
      ensures Valid() && !slots[i].valid
      ensures forall k | 0 <= k < slots.Length && k != i :: slots[k] == old(slots[k])
      ensures tab[..] == old(tab[..])[old(slots[i].addr) :=
                          if old(slots[i].dirty) then old(slots[i].value) else old(tab[slots[i].addr])]
      ensures forall root: nat :: old(Flat(root)) ==> Flat(root)
    {
      var e := slots[i];
      assert slots[..][i] == e;
      if e.dirty {
        tab[e.addr] := e.value;
      }
      slots[i] := e.(valid := false, dirty := false);
      assert slots[..] == old(slots[..])[i := slots[i]];
    }
  }

  lemma KeysWithout(s: seq<Entry<Inode>>, t: seq<Entry<Inode>>, id: nat)
    requires |s| == |t|
    requires forall k | 0 <= k < |s| ::
               t[k] == if s[k].valid && s[k].addr == id then t[k].(valid := false) else s[k]
    ensures Keys(t) == Keys(s) - {id}
    ensures !Holds(s, id) ==> t == s
  {
    forall a: nat ensures Holds(t, a) <==> Holds(s, a) && a != id {
      if Holds(t, a) {
        var i :| 0 <= i < |t| && t[i].valid && t[i].addr == a;
        assert s[i].valid && s[i].addr == a;
      }
      if Holds(s, a) && a != id {
        var i :| 0 <= i < |s| && s[i].valid && s[i].addr == a;
        assert t[i].valid && t[i].addr == a;
      }
    }
    assert forall a: nat :: a in Keys(t) <==> a in Keys(s) - {id};
  }
}
