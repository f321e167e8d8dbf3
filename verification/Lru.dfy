/** Replacement is exactly least-recently-used: over reads alone a cache holds the most recently
    used addresses, as many as it has slots. */
module Lru {
  import opened Cache

  type Addrs = seq<nat>

  function Without(l: Addrs, a: nat): Addrs {
    if l == [] then [] else if l[0] == a then l[1..] else [l[0]] + Without(l[1..], a)
  }

  /** The distinct addresses of a trace, most recently used first. */
  function Recent(trace: Addrs): Addrs {
    if trace == [] then []
    else [trace[|trace| - 1]] + Without(Recent(trace[..|trace| - 1]), trace[|trace| - 1])
  }

  function Cap(l: Addrs, n: nat): Addrs {
    if |l| <= n then l else l[..n]
  }

  ghost predicate NoDup(l: Addrs) {
    forall i, j | 0 <= i < j < |l| :: l[i] != l[j]
  }

  function ValidCount<V>(slots: seq<Entry<V>>): nat {
    if slots == [] then 0 else ValidCount(slots[..|slots| - 1]) + if slots[|slots| - 1].valid then 1 else 0
  }

  /** When the slot holding an address was last used. */
  ghost function StampOf<V>(slots: seq<Entry<V>>, a: nat): nat
    requires Holds(slots, a)
  {
    var i :| 0 <= i < |slots| && slots[i].valid && slots[i].addr == a;
    slots[i].lru
  }

  ghost predicate NewestFirst<V>(slots: seq<Entry<V>>, l: Addrs)
    requires forall x | x in l :: Holds(slots, x)
  {
    l == [] || ((forall x | x in l[1..] :: StampOf(slots, x) < StampOf(slots, l[0])) && NewestFirst(slots, l[1..]))
  }

  /** The valid slots hold exactly the addresses of `l`, most recently used first. */
  ghost predicate Tracks<V>(slots: seq<Entry<V>>, l: Addrs) {
    && ValidCount(slots) == |l|
    && (forall p :: 0 <= p < |slots| && slots[p].valid ==> slots[p].addr in l)
    && (forall x | x in l :: Holds(slots, x))
    && NewestFirst(slots, l)
  }

  lemma {:induction false} ValidCountUpdate<V>(slots: seq<Entry<V>>, v: nat, e: Entry<V>)
    requires v < |slots|
    ensures ValidCount(slots[v := e]) ==
              ValidCount(slots) - (if slots[v].valid then 1 else 0) + (if e.valid then 1 else 0)
  {
    var k := |slots| - 1;
    if v == k {
      assert slots[v := e][..k] == slots[..k];
    } else {
      assert slots[v := e][..k] == slots[..k][v := e];
      ValidCountUpdate(slots[..k], v, e);
    }
  }

  lemma {:induction false} ValidCountBounds<V>(slots: seq<Entry<V>>)
    ensures ValidCount(slots) <= |slots|
    ensures ValidCount(slots) == |slots| <==> forall i :: 0 <= i < |slots| ==> slots[i].valid
  {
    if slots != [] {
      var k := |slots| - 1;
      ValidCountBounds(slots[..k]);
      assert forall i | 0 <= i < k :: slots[..k][i] == slots[i];
    }
  }

  lemma {:induction false} WithoutFacts(l: Addrs, a: nat)
    requires NoDup(l)
    ensures a !in Without(l, a)
    ensures forall x :: x in Without(l, a) <==> x in l && x != a
    ensures |Without(l, a)| == if a in l then |l| - 1 else |l|
    ensures a !in l ==> Without(l, a) == l
  {
    if l != [] {
      assert l == [l[0]] + l[1..];
      assert l[0] !in l[1..];
      if l[0] != a {
        WithoutFacts(l[1..], a);
      }
    }
  }

  lemma {:induction false} WithoutNoDup(l: Addrs, a: nat)
    requires NoDup(l)
    ensures NoDup(Without(l, a)) && NoDup([a] + Without(l, a))
  {
    WithoutFacts(l, a);
    if l != [] && l[0] != a {
      WithoutNoDup(l[1..], a);
      WithoutFacts(l[1..], a);
      NoDupCons(l[0], Without(l[1..], a));
    }
    NoDupCons(a, Without(l, a));
  }

  lemma NoDupCons(x: nat, l: Addrs)
    requires NoDup(l) && x !in l
    ensures NoDup([x] + l)
  {
  }

  lemma {:induction false} RecentNoDup(trace: Addrs)
    ensures NoDup(Recent(trace))
  {
    if trace != [] {
      RecentNoDup(trace[..|trace| - 1]);
      WithoutNoDup(Recent(trace[..|trace| - 1]), trace[|trace| - 1]);
    }
  }

  /** Capping and removing commute as a move to the front needs them to. */
  lemma {:induction false} CapWithout(l: Addrs, a: nat, n: nat)
    requires NoDup(l) && 0 < n < |l|
    ensures n - 1 <= |Without(l, a)|
    ensures Without(l, a)[..n - 1] == if a in l[..n] then Without(l[..n], a) else l[..n - 1]
  {
    WithoutFacts(l, a);
    assert l[..n][1..] == l[1..][..n - 1];
    if l[0] == a {
      assert l[..n][0] == a;
    } else if n > 1 {
      CapWithout(l[1..], a, n - 1);
      assert Without(l, a)[..n - 1] == [l[0]] + Without(l[1..], a)[..n - 2];
      assert l[..n] == [l[0]] + l[1..][..n - 1] && l[..n - 1] == [l[0]] + l[1..][..n - 2];
    } else {
      assert l[..1] == [l[0]];
    }
  }

  // ----- one read -----

  lemma {:induction false} OrderKept<V>(s: seq<Entry<V>>, t: seq<Entry<V>>, l: Addrs)
    requires forall x | x in l :: Holds(s, x) && Holds(t, x) && StampOf(s, x) == StampOf(t, x)
    requires NewestFirst(s, l)
    ensures NewestFirst(t, l)
  {
    if l != [] {
      OrderKept(s, t, l[1..]);
    }
  }

  lemma {:induction false} OrderWithout<V>(s: seq<Entry<V>>, l: Addrs, a: nat)
    requires NoDup(l) && (forall x | x in l :: Holds(s, x)) && NewestFirst(s, l)
    ensures (forall x | x in Without(l, a) :: Holds(s, x)) && NewestFirst(s, Without(l, a))
  {
    WithoutFacts(l, a);
    if l != [] && l[0] != a {
      OrderWithout(s, l[1..], a);
      WithoutFacts(l[1..], a);
      assert Without(l, a)[1..] == Without(l[1..], a);
    }
  }

  /** The last of the list is the oldest. */
  lemma {:induction false} LastIsOldest<V>(s: seq<Entry<V>>, l: Addrs)
    requires l != [] && (forall x | x in l :: Holds(s, x)) && NewestFirst(s, l)
    ensures forall x | x in l :: x == l[|l| - 1] || StampOf(s, l[|l| - 1]) < StampOf(s, x)
  {
    if |l| > 1 {
      LastIsOldest(s, l[1..]);
      assert l[1..][|l| - 2] == l[|l| - 1] && l[|l| - 1] in l[1..];
      assert l == [l[0]] + l[1..];
    }
  }

  lemma {:induction false} WithoutLast(l: Addrs)
    requires NoDup(l) && l != []
    ensures Without(l, l[|l| - 1]) == l[..|l| - 1]
  {
    if |l| > 1 {
      WithoutLast(l[1..]);
      assert l[1..][|l| - 2] == l[|l| - 1];
      assert l[..|l| - 1] == [l[0]] + l[1..][..|l| - 2];
    }
  }

  lemma StampIs<V>(s: seq<Entry<V>>, i: nat)
    requires Distinct(s) && i < |s| && s[i].valid
    ensures Holds(s, s[i].addr) && StampOf(s, s[i].addr) == s[i].lru
  {
  }

  /** The slot of address `a` takes the newest stamp, address `gone` (if any) leaves: the rest keep
      their places. */
  lemma MoveToFront<V>(s: seq<Entry<V>>, t: seq<Entry<V>>, l: Addrs, a: nat, clock: nat, v: nat, gone: Addrs)
    requires Tracks(s, l) && NoDup(l) && Distinct(s) && Distinct(t) && Stamped(s, clock)
    requires v < |s| == |t| && t == s[v := t[v]]
    requires t[v].valid && t[v].addr == a && t[v].lru == clock + 1
    requires forall p :: 0 <= p < |s| && p != v && s[p].valid ==> s[p].addr != a
    requires gone == if s[v].valid then Without(l, s[v].addr) else l
    ensures a !in gone ==> Tracks(t, [a] + gone)
  {
    if a !in gone {
      if s[v].valid {
        WithoutFacts(l, s[v].addr);
        OrderWithout(s, l, s[v].addr);
      }
      ValidCountUpdate(s, v, t[v]);
      StampIs(t, v);
      forall x | x in gone ensures Holds(s, x) && Holds(t, x) && StampOf(s, x) == StampOf(t, x) <= clock {
        var p :| 0 <= p < |s| && s[p].valid && s[p].addr == x;
        StampIs(s, p);
        assert p != v && t[p] == s[p];
        StampIs(t, p);
      }
      OrderKept(s, t, gone);
      var m := [a] + gone;
      assert m[1..] == gone;
      forall p | 0 <= p < |t| && t[p].valid ensures t[p].addr in m {
        if p != v {
          assert s[p].addr in l;
        }
      }
    }
  }

  /** A read moves its address to the front; beyond capacity the oldest falls off. */
  lemma ReadTracks<V>(s: seq<Entry<V>>, t: seq<Entry<V>>, recent: Addrs, a: nat, clock: nat)
    requires Tracks(s, Cap(recent, |s|)) && NoDup(recent) && Distinct(s) && Stamped(s, clock) && AllClean(s)
    requires 0 < |s| && ReadStep(s, t, a, clock + 1)
    ensures Tracks(t, Cap([a] + Without(recent, a), |t|))
    ensures Distinct(t) && Stamped(t, clock + 1) && AllClean(t) && |t| == |s|
  {
    var i :| 0 <= i < |s| && ReadsInto(s, t, a, clock + 1, i);
    StampNewest(s, clock, i, t[i]);
    NewKey(s, t, a, i);
    ValidCountBounds(s);
    WithoutFacts(recent, a);
    if s[i].valid {
      if Holds(s, a) {
        HitTracks(s, t, recent, a, clock, i);
      } else {
        EvictTracks(s, t, recent, a, clock, i);
      }
      if |s| <= |recent| {
        CapFront(recent, a, |s|);
      }
    } else {
      MoveToFront(s, t, recent, a, clock, i, recent);
    }
  }

  lemma NewKey<V>(s: seq<Entry<V>>, t: seq<Entry<V>>, a: nat, i: nat)
    requires Distinct(s) && AllClean(s) && i < |s| && |t| == |s| && t == s[i := t[i]]
    requires t[i].valid && !t[i].dirty && t[i].addr == a
    requires if Holds(s, a) then s[i].valid && s[i].addr == a else true
    ensures Distinct(t) && AllClean(t)
    ensures forall p :: 0 <= p < |s| && p != i && s[p].valid ==> s[p].addr != a
  {
  }

  lemma CapFront(recent: Addrs, a: nat, n: nat)
    requires NoDup(recent) && 0 < n <= |recent|
    ensures var l := Cap(recent, n);
            Cap([a] + Without(recent, a), n) == [a] + (if a in l then Without(l, a) else l[..n - 1])
  {
    WithoutFacts(recent, a);
    if n < |recent| {
      CapWithout(recent, a, n);
      assert ([a] + Without(recent, a))[..n] == [a] + Without(recent, a)[..n - 1];
    } else if a !in recent {
      assert ([a] + recent)[..n] == [a] + recent[..n - 1];
    }
  }

  lemma HitTracks<V>(s: seq<Entry<V>>, t: seq<Entry<V>>, recent: Addrs, a: nat, clock: nat, i: nat)
    requires Tracks(s, Cap(recent, |s|)) && NoDup(recent) && Distinct(s) && Distinct(t) && Stamped(s, clock)
    requires i < |s| == |t| && s[i].valid && s[i].addr == a && t == s[i := t[i]]
    requires t[i].valid && t[i].addr == a && t[i].lru == clock + 1
    ensures var l := Cap(recent, |s|); a in l && Tracks(t, [a] + Without(l, a))
  {
    var l := Cap(recent, |s|);
    WithoutFacts(l, a);
    MoveToFront(s, t, l, a, clock, i, Without(l, a));
  }

  lemma EvictTracks<V>(s: seq<Entry<V>>, t: seq<Entry<V>>, recent: Addrs, a: nat, clock: nat, i: nat)
    requires Tracks(s, Cap(recent, |s|)) && NoDup(recent) && Distinct(s) && Distinct(t) && Stamped(s, clock) && AllClean(s)
    requires i < |s| == |t| && s[i].valid && IsVictim(s, i) && !Holds(s, a) && t == s[i := t[i]]
    requires t[i].valid && t[i].addr == a && t[i].lru == clock + 1
    ensures var l := Cap(recent, |s|); a !in l && |l| == |s| && Tracks(t, [a] + l[..|s| - 1])
  {
    var l := Cap(recent, |s|);
    VictimIsLast(s, l, i);
    WithoutLast(l);
    MoveToFront(s, t, l, a, clock, i, l[..|s| - 1]);
  }

  lemma VictimIsLast<V>(s: seq<Entry<V>>, l: Addrs, v: nat)
    requires Tracks(s, l) && NoDup(l) && Distinct(s) && AllClean(s) && IsVictim(s, v) && s[v].valid
    ensures l != [] && |l| == |s| && s[v].addr == l[|l| - 1]
  {
    ValidCountBounds(s);
    assert s[v].addr in l;
    LastIsOldest(s, l);
    StampIs(s, v);
    var last := l[|l| - 1];
    var p :| 0 <= p < |s| && s[p].valid && s[p].addr == last;
    StampIs(s, p);
  }

  // ----- whole runs -----

  /** States of a cache over a run of reads; the clock may also tick for other caches in between. */
  ghost predicate ReadRun<V>(run: seq<seq<Entry<V>>>, trace: Addrs, stamps: seq<nat>) {
    && |run| == |trace| + 1 && |stamps| == |trace| && 0 < |run[0]|
    && (forall i :: 0 <= i < |run[0]| ==> !run[0][i].valid)
    && (forall k | 0 <= k < |stamps| :: 0 < stamps[k])
    && (forall j, k | 0 <= j < k < |stamps| :: stamps[j] < stamps[k])
    && forall k | 0 <= k < |trace| :: ReadStep(run[k], run[k + 1], trace[k], stamps[k])
  }

  lemma {:induction false} RunTracks<V>(run: seq<seq<Entry<V>>>, trace: Addrs, stamps: seq<nat>, k: nat)
    requires ReadRun(run, trace, stamps) && k <= |trace|
    ensures |run[k]| == |run[0]| && Tracks(run[k], Cap(Recent(trace[..k]), |run[k]|))
    ensures Distinct(run[k]) && Stamped(run[k], if k == 0 then 0 else stamps[k - 1]) && AllClean(run[k])
  {
    if k == 0 {
      NoneValid(run[0]);
    } else {
      RunTracks(run, trace, stamps, k - 1);
      RecentNoDup(trace[..k - 1]);
      assert trace[..k][..k - 1] == trace[..k - 1] && trace[..k][k - 1] == trace[k - 1];
      assert ReadStep(run[k - 1], run[k - 1 + 1], trace[k - 1], stamps[k - 1]);
      StampKept(run[k - 1], run[k - 1], if k == 1 then 0 else stamps[k - 2], stamps[k - 1] - 1);
      ReadTracks(run[k - 1], run[k], Recent(trace[..k - 1]), trace[k - 1], stamps[k - 1] - 1);
    }
  }

  lemma {:induction false} NoneValid<V>(slots: seq<Entry<V>>)
    requires forall i :: 0 <= i < |slots| ==> !slots[i].valid
    ensures ValidCount(slots) == 0
  {
    if slots != [] {
      NoneValid(slots[..|slots| - 1]);
    }
  }

  /** After any run of reads from empty, a cache of n slots holds exactly the n most recently used
      distinct addresses (all of them, while there are no more than n). */
  lemma HoldsMostRecent<V>(run: seq<seq<Entry<V>>>, trace: Addrs, stamps: seq<nat>, a: nat)
    requires ReadRun(run, trace, stamps)
    ensures Holds(run[|trace|], a) <==> a in Cap(Recent(trace), |run[0]|)
  {
    RunTracks(run, trace, stamps, |trace|);
    assert trace[..|trace|] == trace;
    if Holds(run[|trace|], a) {
      var i :| 0 <= i < |run[|trace|]| && run[|trace|][i].valid && run[|trace|][i].addr == a;
    }
  }

  // ----- one slot -----

  /** Addresses used more recently than the one in slot i. */
  ghost predicate Newer<V>(slots: seq<Entry<V>>, i: nat, a: nat)
    requires i < |slots|
  {
    exists j :: 0 <= j < |slots| && slots[j].valid && slots[j].addr == a && slots[i].lru < slots[j].lru
  }

  /** Slot i was given to address a, and since then exactly the addresses `others` have been read. */
  ghost predicate Since<V>(slots: seq<Entry<V>>, i: nat, e: Entry<V>, others: set<nat>) {
    && i < |slots| && e.valid && e.addr !in others
    && if |others| < |slots| then slots[i] == e && forall a: nat :: Newer(slots, i, a) <==> a in others
       else !Holds(slots, e.addr)
  }

  /** Fewer distinct addresses than slots leave somebody else to evict. */
  lemma {:induction false} FewerThanSlots<V>(slots: seq<Entry<V>>, others: set<nat>)
    requires Distinct(slots)
    requires forall j :: 0 <= j < |slots| ==> slots[j].valid && slots[j].addr in others
    ensures |slots| <= |others|
    decreases |slots|
  {
    if slots != [] {
      var last, front := slots[|slots| - 1], slots[..|slots| - 1];
      forall j | 0 <= j < |front| ensures front[j].valid && front[j].addr in others - {last.addr} {
        assert front[j] == slots[j];
      }
      FewerThanSlots(front, others - {last.addr});
    }
  }

  /** The slot is the victim exactly when all the other slots have been read since. */
  lemma VictimSince<V>(s: seq<Entry<V>>, i: nat, e: Entry<V>, others: set<nat>, x: nat, v: nat, clock: nat)
    requires Since(s, i, e, others) && |others| < |s| && Distinct(s) && Stamped(s, clock) && AllClean(s)
    requires !Holds(s, x) && IsVictim(s, v)
    ensures v == i <==> |others| == |s| - 1
    ensures v != i ==> !(s[v].valid && s[v].lru > s[i].lru)
  {
    if v == i {
      forall j | 0 <= j < |s| ensures s[j].valid && s[j].addr in others + {e.addr} {
        assert s[j].valid;
        assert j != i ==> Newer(s, i, s[j].addr);
      }
      FewerThanSlots(s, others + {e.addr});
    } else if |others| == |s| - 1 {
      OneSlotEach(s, i, others, v);
    }
  }

  /** Slots used since a given moment. */
  function NewerCount<V>(slots: seq<Entry<V>>, since: nat): nat {
    if slots == [] then 0
    else NewerCount(slots[..|slots| - 1], since) +
         if slots[|slots| - 1].valid && since < slots[|slots| - 1].lru then 1 else 0
  }

  ghost predicate UsedSince<V>(slots: seq<Entry<V>>, since: nat, a: nat) {
    exists j :: 0 <= j < |slots| && slots[j].valid && slots[j].addr == a && since < slots[j].lru
  }

  lemma {:induction false} CountFits<V>(slots: seq<Entry<V>>, since: nat, others: set<nat>)
    requires forall a | a in others :: UsedSince(slots, since, a)
    ensures |others| <= NewerCount(slots, since)
    decreases |slots|
  {
    if slots != [] {
      var last, front := slots[|slots| - 1], slots[..|slots| - 1];
      var rest := if last.valid && since < last.lru then others - {last.addr} else others;
      forall a | a in rest ensures UsedSince(front, since, a) {
        var j :| 0 <= j < |slots| && slots[j].valid && slots[j].addr == a && since < slots[j].lru;
        assert front[j] == slots[j];
      }
      CountFits(front, since, rest);
    } else {
      assert forall a | a in others :: !UsedSince(slots, since, a);
    }
  }

  lemma {:induction false} CountAtMost<V>(slots: seq<Entry<V>>, since: nat)
    ensures NewerCount(slots, since) <= |slots|
  {
    if slots != [] {
      CountAtMost(slots[..|slots| - 1], since);
    }
  }

  lemma {:induction false} CountLessOne<V>(slots: seq<Entry<V>>, since: nat, i: nat)
    requires i < |slots| && !(slots[i].valid && since < slots[i].lru)
    ensures NewerCount(slots, since) <= |slots| - 1
  {
    if i == |slots| - 1 {
      CountAtMost(slots[..|slots| - 1], since);
    } else {
      CountLessOne(slots[..|slots| - 1], since, i);
    }
  }

  lemma {:induction false} CountLessTwo<V>(slots: seq<Entry<V>>, since: nat, i: nat, v: nat)
    requires i < v < |slots|
    requires !(slots[i].valid && since < slots[i].lru) && !(slots[v].valid && since < slots[v].lru)
    ensures NewerCount(slots, since) <= |slots| - 2
  {
    if v == |slots| - 1 {
      CountLessOne(slots[..|slots| - 1], since, i);
    } else {
      CountLessTwo(slots[..|slots| - 1], since, i, v);
    }
  }

  /** As many newer addresses as other slots: every other slot has one of them. */
  lemma OneSlotEach<V>(s: seq<Entry<V>>, i: nat, others: set<nat>, v: nat)
    requires i < |s| && v < |s| && v != i
    requires forall a | a in others :: Newer(s, i, a)
    requires |others| >= |s| - 1
    ensures s[v].valid && s[v].lru > s[i].lru
  {
    forall a | a in others ensures UsedSince(s, s[i].lru, a) {
      assert Newer(s, i, a);
    }
    CountFits(s, s[i].lru, others);
    if !(s[v].valid && s[v].lru > s[i].lru) {
      CountLessTwo(s, s[i].lru, if i < v then i else v, if i < v then v else i);
    }
  }

  /** After a read of x into slot v, not the slot watched, x is one more newer address. */
  lemma NewerAfter<V>(s: seq<Entry<V>>, t: seq<Entry<V>>, i: nat, x: nat, stamp: nat, v: nat)
    requires i < |s| == |t| && v < |s| && v != i && t == s[v := t[v]] && s[i].lru < stamp
    requires t[v].valid && t[v].addr == x && t[v].lru == stamp
    requires s[v].valid && s[i].lru < s[v].lru ==> s[v].addr == x
    ensures forall a: nat :: Newer(t, i, a) <==> Newer(s, i, a) || a == x
  {
    forall a: nat ensures Newer(t, i, a) <==> Newer(s, i, a) || a == x {
      if Newer(s, i, a) {
        var j :| 0 <= j < |s| && s[j].valid && s[j].addr == a && s[i].lru < s[j].lru;
        assert j != v ==> t[j] == s[j];
      }
      if Newer(t, i, a) {
        var j :| 0 <= j < |t| && t[j].valid && t[j].addr == a && t[i].lru < t[j].lru;
        assert j != v ==> t[j] == s[j];
      }
      assert a == x ==> t[v].addr == a;
    }
  }

  /** A read of another address: it counts once, and the slot lasts while there are fewer such
      addresses than slots. */
  lemma SinceRead<V>(s: seq<Entry<V>>, t: seq<Entry<V>>, i: nat, e: Entry<V>, others: set<nat>, x: nat, clock: nat, stamp: nat)
    requires Since(s, i, e, others) && Distinct(s) && Stamped(s, clock) && AllClean(s)
    requires clock < stamp && ReadStep(s, t, x, stamp) && x != e.addr
    ensures Since(t, i, e, others + {x})
    ensures Distinct(t) && Stamped(t, stamp) && AllClean(t) && |t| == |s|
  {
    var v :| 0 <= v < |s| && ReadsInto(s, t, x, stamp, v);
    NewKey(s, t, x, v);
    if |others| >= |s| {
      assert x in others ==> others + {x} == others;
    } else if Holds(s, x) {
      if |others| == |s| - 1 {
        OneSlotEach(s, i, others, v);
        assert Newer(s, i, x);
        assert others + {x} == others;
      }
      NewerAfter(s, t, i, x, stamp, v);
    } else {
      VictimSince(s, i, e, others, x, v, clock);
      assert Newer(s, i, x) <==> x in others;
      if v != i {
        NewerAfter(s, t, i, x, stamp, v);
      }
    }
  }

  /** The slot just read into is the newest. */
  lemma SinceStarts<V>(s: seq<Entry<V>>, t: seq<Entry<V>>, i: nat, a: nat, clock: nat, stamp: nat)
    requires Stamped(s, clock) && clock < stamp && ReadStep(s, t, a, stamp) && Distinct(t)
    requires i < |t| && t[i].valid && t[i].addr == a
    ensures Since(t, i, t[i], {})
  {
    var v :| 0 <= v < |s| && ReadsInto(s, t, a, stamp, v);
  }

  /** The read that drives the entry out leaves its own address in the slot, read last. */
  lemma SinceNext<V>(s: seq<Entry<V>>, t: seq<Entry<V>>, i: nat, e: Entry<V>, others: set<nat>, x: nat, clock: nat, stamp: nat)
    requires Since(s, i, e, others) && Distinct(s) && Stamped(s, clock) && AllClean(s)
    requires clock < stamp && ReadStep(s, t, x, stamp) && x != e.addr && x !in others && |others| == |s| - 1
    ensures i < |t| && t[i].valid && t[i].addr == x && Since(t, i, t[i], {})
  {
    SinceRead(s, t, i, e, others, x, clock, stamp);
    assert |others + {x}| == |s|;
    SinceMeans(s, i, e, others);
    SinceMeans(t, i, e, others + {x});
    var v :| 0 <= v < |s| && ReadsInto(s, t, x, stamp, v);
    assert v == i <==> t[i] != s[i];
    SinceStarts(s, t, i, x, clock, stamp);
  }

  function Named(trace: Addrs): set<nat> {
    set a | a in trace
  }

  lemma NamedSnoc(trace: Addrs, k: nat)
    requires k < |trace|
    ensures Named(trace[..k + 1]) == Named(trace[..k]) + {trace[k]}
  {
    assert trace[..k + 1] == trace[..k] + [trace[k]];
  }

  lemma SinceFresh<V>(s: seq<Entry<V>>, i: nat)
    requires i < |s| && s[i].valid && forall j :: 0 <= j < |s| && s[j].valid ==> s[j].lru <= s[i].lru
    ensures Since(s, i, s[i], {})
  {
  }

  lemma SinceMeans<V>(s: seq<Entry<V>>, i: nat, e: Entry<V>, others: set<nat>)
    requires Since(s, i, e, others)
    ensures s[i] == e <==> |others| < |s|
    ensures Holds(s, e.addr) <==> |others| < |s|
  {
  }

  /** From any clean state: a slot used last still holds its entry, after any reads of other
      addresses, exactly while there have been fewer of them than the cache has slots. */
  lemma {:induction false} SlotLasts<V>(run: seq<seq<Entry<V>>>, trace: Addrs, stamps: seq<nat>, i: nat, clock: nat)
    requires |run| == |trace| + 1 && |stamps| == |trace| && i < |run[0]| && run[0][i].valid
    requires Distinct(run[0]) && AllClean(run[0]) && Stamped(run[0], clock) && run[0][i].addr !in trace
    requires forall j :: 0 <= j < |run[0]| && run[0][j].valid ==> run[0][j].lru <= run[0][i].lru
    requires forall k | 0 <= k < |stamps| :: clock < stamps[k]
    requires forall j, k | 0 <= j < k < |stamps| :: stamps[j] < stamps[k]
    requires forall k | 0 <= k < |trace| :: ReadStep(run[k], run[k + 1], trace[k], stamps[k])
    ensures |run[|trace|]| == |run[0]|
    ensures run[|trace|][i] == run[0][i] <==> |Named(trace)| < |run[0]|
    ensures Holds(run[|trace|], run[0][i].addr) <==> |Named(trace)| < |run[0]|
  {
    hide Distinct, AllClean, Stamped, Since, ReadStep;
    SinceFresh(run[0], i);
    var k := 0;
    assert Named(trace[..0]) == {};
    while k < |trace|
      invariant k <= |trace| && |run[k]| == |run[0]|
      invariant Distinct(run[k]) && AllClean(run[k]) && Stamped(run[k], if k == 0 then clock else stamps[k - 1])
      invariant Since(run[k], i, run[0][i], Named(trace[..k]))
    {
      assert ReadStep(run[k], run[k + 1], trace[k], stamps[k]) && trace[k] in trace;
      SinceRead(run[k], run[k + 1], i, run[0][i], Named(trace[..k]), trace[k],
                if k == 0 then clock else stamps[k - 1], stamps[k]);
      NamedSnoc(trace, k);
      k := k + 1;
    }
    assert trace[..k] == trace;
    SinceMeans(run[k], i, run[0][i], Named(trace));
  }
}
