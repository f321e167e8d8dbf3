/** What the three write-back caches share: entries, replacement, and the meaning of a cache
    as an overlay on the store below it. */
module Cache {

  /** A cache slot. `addr` is the block or inode number; `owner` is the directory of a cached
      directory page (the other two caches leave it 0). */
  datatype Entry<V> =
    Entry(valid: bool, dirty: bool, owner: nat, addr: nat, dirtyTime: int, lru: nat, value: V)

  /** Seconds after which a dirty entry is written back. */
  const WRITEBACK_INTERVAL := 10

  /** The lru_clock field that the three caches of a file system share. */
  class LruClock {
    var value: nat

    constructor ()
      ensures value == 0
    {
      value := 0;
    }

    method Tick() returns (stamp: nat)
      modifies this
      ensures value == old(value) + 1 && stamp == value
    {
      value := value + 1;
      stamp := value;
    }
  }

  /** time(NULL): any reading whatever. */
  method Now() returns (t: int) {
    t := *;
  }

  // ----- what a cache means -----

  ghost predicate Holds<V>(slots: seq<Entry<V>>, addr: nat) {
    exists i :: 0 <= i < |slots| && slots[i].valid && slots[i].addr == addr
  }

  ghost predicate Distinct<V>(slots: seq<Entry<V>>) {
    forall i, j :: 0 <= i < |slots| && 0 <= j < |slots| && i != j && slots[i].valid && slots[j].valid ==>
      slots[i].addr != slots[j].addr
  }

  ghost predicate AllClean<V>(slots: seq<Entry<V>>) {
    forall i :: 0 <= i < |slots| && slots[i].valid ==> !slots[i].dirty
  }

  /** `view` is `base` with the cached values laid over it, and a clean slot equals `base`. */
  ghost predicate Coherent<V>(slots: seq<Entry<V>>, base: seq<V>, view: seq<V>) {
    && |base| == |view|
    && Distinct(slots)
    && (forall i :: 0 <= i < |slots| && slots[i].valid ==>
         slots[i].addr < |base| && view[slots[i].addr] == slots[i].value)
    && (forall i :: 0 <= i < |slots| && slots[i].valid && !slots[i].dirty ==>
         base[slots[i].addr] == slots[i].value)
    && (forall a :: 0 <= a < |base| && !Holds(slots, a) ==> view[a] == base[a])
  }

  /** Valid stamps are distinct and none is ahead of the clock. */
  ghost predicate Stamped<V>(slots: seq<Entry<V>>, clock: nat) {
    && (forall i :: 0 <= i < |slots| && slots[i].valid ==> slots[i].lru <= clock)
    && (forall i, j :: 0 <= i < |slots| && 0 <= j < |slots| && i != j && slots[i].valid && slots[j].valid ==>
         slots[i].lru != slots[j].lru)
  }

  ghost function Keys<V>(slots: seq<Entry<V>>): (k: set<nat>)
    ensures forall a: nat :: a in k <==> Holds(slots, a)
  {
    set i | 0 <= i < |slots| && slots[i].valid :: slots[i].addr
  }

  // ----- flushes and evictions never change the view -----

  lemma FlushKeepsView<V>(slots: seq<Entry<V>>, base: seq<V>, view: seq<V>, i: nat)
    requires Coherent(slots, base, view)
    requires i < |slots| && slots[i].valid
    ensures Coherent(slots[i := slots[i].(dirty := false)], base[slots[i].addr := slots[i].value], view)
    ensures Keys(slots[i := slots[i].(dirty := false)]) == Keys(slots)
  {
    SameKeys(slots, slots[i := slots[i].(dirty := false)]);
  }

  lemma SameKeys<V>(s: seq<Entry<V>>, t: seq<Entry<V>>)
    requires |s| == |t|
    requires forall i :: 0 <= i < |s| ==> s[i].valid == t[i].valid && s[i].addr == t[i].addr
    ensures Keys(s) == Keys(t)
    ensures forall a: nat :: Holds(s, a) == Holds(t, a)
  {
    forall a: nat ensures Holds(s, a) == Holds(t, a) {
      if Holds(s, a) {
        var i :| 0 <= i < |s| && s[i].valid && s[i].addr == a;
        assert t[i].valid && t[i].addr == a;
      }
      if Holds(t, a) {
        var i :| 0 <= i < |t| && t[i].valid && t[i].addr == a;
        assert s[i].valid && s[i].addr == a;
      }
    }
    assert forall a: nat :: a in Keys(s) <==> a in Keys(t);
  }

  /** Fresh bookkeeping (stamp, dirty time) on a slot changes nothing. */
  lemma TouchKeepsView<V>(slots: seq<Entry<V>>, base: seq<V>, view: seq<V>, i: nat, e: Entry<V>)
    requires Coherent(slots, base, view)
    requires i < |slots| && slots[i].valid
    requires e == slots[i].(lru := e.lru)
    ensures Coherent(slots[i := e], base, view) && Keys(slots[i := e]) == Keys(slots)
  {
    SameKeys(slots, slots[i := e]);
  }

  /** Loading an uncached address into a slot with nothing to write back keeps the view. */
  lemma FillKeepsView<V>(slots: seq<Entry<V>>, base: seq<V>, view: seq<V>, v: nat, e: Entry<V>)
    requires Coherent(slots, base, view)
    requires v < |slots| && !(slots[v].valid && slots[v].dirty)
    requires e.valid && !e.dirty && e.addr < |base| && !Holds(slots, e.addr) && e.value == base[e.addr]
    ensures Coherent(slots[v := e], base, view)
    ensures Keys(slots[v := e]) <= Keys(slots) + {e.addr}
  {
    Replaced(slots, v, e);
  }

  /** A slot that is overwritten gives up its address and takes the new one. */
  lemma Replaced<V>(slots: seq<Entry<V>>, v: nat, e: Entry<V>)
    requires Distinct(slots)
    requires v < |slots| && e.valid
    ensures forall a: nat :: Holds(slots[v := e], a) <==>
              a == e.addr || (Holds(slots, a) && !(slots[v].valid && slots[v].addr == a))
  {
    var t := slots[v := e];
    forall a: nat
      ensures Holds(t, a) <==> a == e.addr || (Holds(slots, a) && !(slots[v].valid && slots[v].addr == a))
    {
      assert t[v].valid && t[v].addr == e.addr;
      if Holds(t, a) && a != e.addr {
        var i :| 0 <= i < |t| && t[i].valid && t[i].addr == a;
        assert slots[i].valid && slots[i].addr == a;
      }
      if Holds(slots, a) && !(slots[v].valid && slots[v].addr == a) {
        var i :| 0 <= i < |slots| && slots[i].valid && slots[i].addr == a;
        assert t[i].valid && t[i].addr == a;
      }
    }
  }

  // ----- a write changes the view at its own address only -----

  lemma StoreInPlace<V>(slots: seq<Entry<V>>, base: seq<V>, view: seq<V>, i: nat, e: Entry<V>)
    requires Coherent(slots, base, view)
    requires i < |slots| && slots[i].valid
    requires e.valid && e.dirty && e.addr == slots[i].addr
    ensures Coherent(slots[i := e], base, view[e.addr := e.value])
    ensures Keys(slots[i := e]) == Keys(slots)
  {
    SameKeys(slots, slots[i := e]);
  }

  lemma StoreAfresh<V>(slots: seq<Entry<V>>, base: seq<V>, view: seq<V>, v: nat, e: Entry<V>)
    requires Coherent(slots, base, view)
    requires v < |slots| && !(slots[v].valid && slots[v].dirty)
    requires e.valid && e.dirty && e.addr < |base| && !Holds(slots, e.addr)
    ensures Coherent(slots[v := e], base, view[e.addr := e.value])
    ensures Keys(slots[v := e]) <= Keys(slots) + {e.addr}
  {
    Replaced(slots, v, e);
  }

  /** Writing past the cache at an address it does not hold. */
  lemma StoreBelow<V>(slots: seq<Entry<V>>, base: seq<V>, view: seq<V>, a: nat, x: V)
    requires Coherent(slots, base, view)
    requires a < |base| && !Holds(slots, a)
    ensures Coherent(slots, base[a := x], view[a := x])
  {
    forall i | 0 <= i < |slots| && slots[i].valid ensures slots[i].addr != a {
    }
  }

  /** Once nothing is dirty, the store below is up to date. */
  lemma CleanMeansStored<V>(slots: seq<Entry<V>>, base: seq<V>, view: seq<V>)
    requires Coherent(slots, base, view) && AllClean(slots)
    ensures base == view
  {
    forall a | 0 <= a < |base| ensures base[a] == view[a] {
      if Holds(slots, a) {
        var i :| 0 <= i < |slots| && slots[i].valid && slots[i].addr == a;
      }
    }
  }

  lemma EmptyIsTransparent<V>(slots: seq<Entry<V>>, base: seq<V>, clock: nat)
    requires forall i :: 0 <= i < |slots| ==> !slots[i].valid
    ensures Coherent(slots, base, base) && AllClean(slots) && Keys(slots) == {} && Stamped(slots, clock)
  {
    assert forall a: nat :: !Holds(slots, a);
  }

  // ----- replacement -----

  /** The slot the replacement policy must pick: the first invalid one; else the least recently
      used clean one; else the least recently used one. */
  ghost predicate IsVictim<V>(slots: seq<Entry<V>>, v: nat) {
    && v < |slots|
    && if exists i :: 0 <= i < |slots| && !slots[i].valid then
         !slots[v].valid && forall i :: 0 <= i < v ==> slots[i].valid
       else if exists i :: 0 <= i < |slots| && !slots[i].dirty then
         !slots[v].dirty && forall i :: 0 <= i < |slots| && !slots[i].dirty ==> slots[v].lru <= slots[i].lru
       else
         forall i :: 0 <= i < |slots| ==> slots[v].lru <= slots[i].lru
  }

  /** bc_victim, ic_victim and dc_victim. */
  method Victim<V>(slots: array<Entry<V>>) returns (v: nat)
    requires 0 < slots.Length
    ensures IsVictim(slots[..], v)
  {
    var clean, dirty := -1, -1;
    for i := 0 to slots.Length
      invariant -1 <= clean < i && -1 <= dirty < i
      invariant forall k :: 0 <= k < i ==> slots[k].valid
      invariant clean == -1 <==> forall k :: 0 <= k < i ==> slots[k].dirty
      invariant dirty == -1 <==> forall k :: 0 <= k < i ==> !slots[k].dirty
      invariant clean != -1 ==> !slots[clean].dirty
      invariant clean != -1 ==> forall k :: 0 <= k < i && !slots[k].dirty ==> slots[clean].lru <= slots[k].lru
      invariant dirty != -1 ==> slots[dirty].dirty
      invariant dirty != -1 ==> forall k :: 0 <= k < i && slots[k].dirty ==> slots[dirty].lru <= slots[k].lru
    {
      if !slots[i].valid {
        assert !slots[..][i].valid;
        return i;
      }
      if slots[i].dirty {
        if dirty == -1 || slots[i].lru < slots[dirty].lru {
          dirty := i;
        }
      } else {
        if clean == -1 || slots[i].lru < slots[clean].lru {
          clean := i;
        }
      }
    }
    assert clean == -1 ==> slots[0].dirty;
    v := if clean != -1 then clean else dirty;
    if clean != -1 {
      assert !slots[..][clean].dirty;
    }
  }

  /** Using a slot last makes its stamp the newest. */
  lemma StampNewest<V>(slots: seq<Entry<V>>, clock: nat, i: nat, e: Entry<V>)
    requires Stamped(slots, clock) && i < |slots| && e.lru == clock + 1
    ensures Stamped(slots[i := e], clock + 1)
  {
  }

  lemma StampKept<V>(s: seq<Entry<V>>, t: seq<Entry<V>>, before: nat, after: nat)
    requires Stamped(s, before) && before <= after && |s| == |t|
    requires forall i :: 0 <= i < |s| ==> t[i].valid == s[i].valid && t[i].lru == s[i].lru
    ensures Stamped(t, after)
  {
  }

  /** What write-backs may do to the slots: clear dirty flags and nothing else. */
  ghost predicate Settled<V>(s: seq<Entry<V>>, t: seq<Entry<V>>) {
    && |s| == |t|
    && forall i :: 0 <= i < |s| ==> t[i] == s[i] || (s[i].valid && t[i] == s[i].(dirty := false))
  }

  /** The first n slots after everything in them that has been dirty for ten seconds has been written back,
      and nothing else. */
  ghost predicate WrittenBack<V>(s: seq<Entry<V>>, t: seq<Entry<V>>, now: int, n: nat) {
    && |s| == |t|
    && forall i :: 0 <= i < |s| ==>
         t[i] == if i < n && s[i].valid && s[i].dirty && now >= s[i].dirtyTime + 10 then s[i].(dirty := false) else s[i]
  }

  lemma WriteBackSettles<V>(s: seq<Entry<V>>, t: seq<Entry<V>>, now: int, n: nat)
    requires WrittenBack(s, t, now, n)
    ensures Settled(s, t)
  {
  }

  lemma WriteBackStarts<V>(s: seq<Entry<V>>, now: int)
    ensures WrittenBack(s, s, now, 0)
  {
  }

  /** One turn of the loop. */
  lemma WriteBackOne<V>(s: seq<Entry<V>>, t: seq<Entry<V>>, u: seq<Entry<V>>, now: int, i: nat)
    requires WrittenBack(s, t, now, i) && i < |s| && |u| == |t| && (forall k | 0 <= k < |t| && k != i :: u[k] == t[k])
    requires u[i] == if t[i].valid && t[i].dirty && now - t[i].dirtyTime >= WRITEBACK_INTERVAL then t[i].(dirty := false) else t[i]
    ensures WrittenBack(s, u, now, i + 1)
  {
  }

  lemma SettledTrans<V>(r: seq<Entry<V>>, s: seq<Entry<V>>, t: seq<Entry<V>>)
    requires Settled(r, s) && Settled(s, t)
    ensures Settled(r, t)
  {
  }

  lemma SettledKeepsKeys<V>(s: seq<Entry<V>>, t: seq<Entry<V>>, clock: nat)
    requires Settled(s, t)
    ensures Keys(s) == Keys(t)
    ensures forall a: nat :: Holds(s, a) == Holds(t, a)
    ensures Stamped(s, clock) ==> Stamped(t, clock)
    ensures AllClean(s) ==> AllClean(t) && s == t
  {
    SameKeys(s, t);
  }

  /** A read of `addr` against clean slots: a hit renews the stamp, a miss replaces the victim. */
  ghost predicate ReadStep<V>(s: seq<Entry<V>>, t: seq<Entry<V>>, addr: nat, stamp: nat) {
    exists i :: 0 <= i < |s| && ReadsInto(s, t, addr, stamp, i)
  }

  ghost predicate ReadsInto<V>(s: seq<Entry<V>>, t: seq<Entry<V>>, addr: nat, stamp: nat, i: nat)
    requires i < |s|
  {
    && |t| == |s| && t == s[i := t[i]]
    && t[i].valid && !t[i].dirty && t[i].addr == addr && t[i].lru == stamp
    && if Holds(s, addr) then s[i].valid && s[i].addr == addr else IsVictim(s, i)
  }
}
