/** What every step of the scheduler keeps: no thread is lost or doubled, queues match priorities,
    locks have at most one holder. */
module Conservation {
  import opened Options
  import opened Scheduling

  // ----- where threads are -----

  function Count(q: seq<Tid>, t: Tid): nat {
    multiset(q)[t]
  }

  function RqCount(rq: seq<seq<Tid>>, t: Tid): nat {
    if rq == [] then 0 else Count(rq[0], t) + RqCount(rq[1..], t)
  }

  function LockCount(locks: seq<Lock>, t: Tid): nat {
    if locks == [] then 0
    else Count(locks[0].queue, t) + Count(locks[0].waiters, t) + LockCount(locks[1..], t)
  }

  /** Entries from which a thread can get, or has, the processor. `seated`: the running thread counts. */
  function Runnable(s: State, seated: bool, t: Tid): nat {
    RqCount(s.active, t) + RqCount(s.expired, t) + if seated && t == s.running then 1 else 0
  }

  function Blocked(s: State, t: Tid): nat {
    Count(s.sleeping, t) + Count(s.joining, t) + Count(s.zombies, t) + Count(s.dead, t) + LockCount(s.locks, t)
  }

  /** How many entries a thread should have: one, or two while it is inside the unlock of monitor_wait. */
  function Due(s: State, t: Tid): nat {
    if t >= |s.threads| then 0 else if s.threads[t].pc.InWait? then 2 else 1
  }

  /** A thread has the entries that it should have; a step may hold some blocked ones in its hand. */
  predicate Conserved(s: State, seated: bool, hand: seq<Tid>, t: Tid) {
    Runnable(s, seated, t) + Blocked(s, t) + Count(hand, t) == Due(s, t)
  }

  // ----- the rest of the invariant -----

  /** Static threads keep their priority for good; dynamic ones stay in their ranges. */
  predicate InRange(t: Thread) {
    && 0 <= t.nice <= 10
    && if t.base <= STATIC_MAX then t.priority == t.base && 0 <= t.quantum <= QUANTUM_BASE
       else DYN_MIN <= t.priority && 1 <= t.quantum <= 9
  }

  ghost predicate InBucket(s: State, p: Priority) {
    forall t | t in s.active[p] || t in s.expired[p] :: t < |s.threads| && s.threads[t].priority == p
  }

  /** Entries of a thread in the queues of one lock. */
  function AtLock(s: State, l: nat, t: Tid): nat {
    if l < |s.locks| then Count(s.locks[l].queue, t) + Count(s.locks[l].waiters, t) else 0
  }

  predicate Owned(s: State, l: nat, t: Tid) {
    l < |s.locks| && s.locks[l].owner == Some(t)
  }

  /** Where a thread is, according to its program point: a thread waits for a lock in the queue of that
      lock, or is ready and owns it. */
  predicate Placed(s: State, seated: bool, hand: seq<Tid>, t: Tid)
    requires t < |s.threads|
  {
    var r := Runnable(s, seated, t);
    match s.threads[t].pc
    case Ready => r == 1
    case Locking(l) =>
      (l < |s.locks| && Count(s.locks[l].queue, t) == 1) || (r == 1 && Owned(s, l, t) && !(seated && t == s.running))
    case Waiting(l) => AtLock(s, l, t) == 1 || (r == 1 && Owned(s, l, t) && !(seated && t == s.running))
    case InWait(l) => r >= 1 && (AtLock(s, l, t) == 1 || (r == 2 && Owned(s, l, t)))
    case Sleeping => Count(s.sleeping, t) + Count(hand, t) == 1
    case Joining => Count(s.joining, t) + Count(hand, t) == 1
    case Done => Count(s.zombies, t) + Count(s.dead, t) == 1
  }

  /** All that holds of one thread. */
  predicate Fine(s: State, seated: bool, hand: seq<Tid>, t: Tid) {
    && Conserved(s, seated, hand, t)
    && (t < |s.threads| ==>
          && InRange(s.threads[t]) && Placed(s, seated, hand, t)
          && forall l | l in s.threads[t].held :: Owned(s, l, t))
  }

  predicate FreeMeansUnwanted(k: Lock) {
    k.owner == None ==> k.queue == []
  }

  ghost predicate Sound(s: State, seated: bool, hand: seq<Tid>) {
    && s.running < |s.threads|
    && (forall t: Tid :: Fine(s, seated, hand, t))
    && (forall p: Priority :: InBucket(s, p))
    && (forall l | 0 <= l < |s.locks| :: FreeMeansUnwanted(s.locks[l]))
  }

  /** The invariant between steps. */
  ghost predicate Inv(s: State) {
    Sound(s, !s.finished, [])
  }

  /** No thread in the active queues is better than the running one. */
  ghost predicate OnTop(s: State) {
    && s.running < |s.threads|
    && forall p: Priority, t: Tid | t in s.active[p] && t < |s.threads| ::
         s.threads[s.running].priority <= s.threads[t].priority
  }

  /** The queues of mid are those of s with threads appended; or all active ones were empty and the
      expired ones, with threads appended, have taken their place. */
  ghost predicate LinedUp(s: State, mid: State) {
    || (forall p: Priority :: s.active[p] <= mid.active[p] && s.expired[p] <= mid.expired[p])
    || (forall p: Priority :: s.active[p] == [] == mid.expired[p] && s.expired[p] <= mid.active[p])
  }

  /** The step from s ends by giving the processor to the thread that is first in the best non-empty
      queue of mid, where every thread but that one's predecessor has its place. */
  ghost predicate ChosenFrom(s: State, mid: State, r: State) {
    && Shaped(mid) && Sound(mid, false, []) && LinedUp(s, mid) && !Empty(mid.active)
    && r == Dispatch(mid) && r.running == mid.active[Best(mid.active)][0]
    && forall q: Priority | q < Best(mid.active) :: mid.active[q] == []
  }

  ghost predicate Chosen(s: State, r: State) {
    exists mid: State :: ChosenFrom(s, mid, r)
  }

  /** Threads have only joined the ends of the run queues. */
  ghost predicate Grows(s: State, r: State) {
    forall p: Priority :: s.active[p] <= r.active[p] && s.expired[p] <= r.expired[p]
  }

  lemma ChosenFromBefore(s: State, x: State, r: State)
    requires Grows(s, x) && Chosen(x, r)
    ensures Chosen(s, r)
  {
    hide Sound, Best, BestFrom, Dispatch, Shaped;
    var mid :| ChosenFrom(x, mid, r);
    assert ChosenFrom(s, mid, r);
  }

  lemma SoundIsShaped(s: State, seated: bool, hand: seq<Tid>)
    requires Sound(s, seated, hand)
    ensures Shaped(s)
  {
    forall p: Priority ensures Below(s.active[p], |s.threads|) && Below(s.expired[p], |s.threads|) {
      assert InBucket(s, p);
    }
    forall t: Tid ensures Blocked(s, t) > 0 ==> t < |s.threads| {
      assert Fine(s, seated, hand, t);
      assert Conserved(s, seated, hand, t);
    }
    forall l | 0 <= l < |s.locks| ensures Below(s.locks[l].queue, |s.threads|) && Below(s.locks[l].waiters, |s.threads|) {
      forall t | t in s.locks[l].queue || t in s.locks[l].waiters ensures t < |s.threads| {
        LockCountHas(s.locks, l, t);
        assert Blocked(s, t) > 0;
      }
    }
    assert forall t | t in s.sleeping || t in s.joining || t in s.zombies :: Blocked(s, t) > 0;
  }

  // ----- counting -----

  lemma {:induction false} RqCountUpdate(rq: seq<seq<Tid>>, p: nat, q: seq<Tid>, t: Tid)
    requires p < |rq|
    ensures RqCount(rq[p := q], t) + Count(rq[p], t) == RqCount(rq, t) + Count(q, t)
  {
    if p == 0 {
      assert rq[p := q][1..] == rq[1..];
    } else {
      assert rq[p := q][1..] == rq[1..][p - 1 := q];
      RqCountUpdate(rq[1..], p - 1, q, t);
    }
  }

  lemma {:induction false} RqCountHas(rq: seq<seq<Tid>>, p: nat, t: Tid)
    requires p < |rq|
    ensures RqCount(rq, t) >= Count(rq[p], t)
  {
    if p > 0 {
      RqCountHas(rq[1..], p - 1, t);
    }
  }

  lemma {:induction false} CountedIsQueued(rq: seq<seq<Tid>>, t: Tid)
    requires RqCount(rq, t) > 0
    ensures exists p :: 0 <= p < |rq| && t in rq[p]
  {
    if t !in rq[0] {
      CountedIsQueued(rq[1..], t);
      var p :| 0 <= p < |rq[1..]| && t in rq[1..][p];
      assert t in rq[p + 1];
    }
  }

  lemma {:induction false} LockCountUpdate(locks: seq<Lock>, l: nat, k: Lock, t: Tid)
    requires l < |locks|
    ensures LockCount(locks[l := k], t) + Count(locks[l].queue, t) + Count(locks[l].waiters, t) ==
            LockCount(locks, t) + Count(k.queue, t) + Count(k.waiters, t)
  {
    if l == 0 {
      assert locks[l := k][1..] == locks[1..];
    } else {
      assert locks[l := k][1..] == locks[1..][l - 1 := k];
      LockCountUpdate(locks[1..], l - 1, k, t);
    }
  }

  lemma {:induction false} LockCountHas(locks: seq<Lock>, l: nat, t: Tid)
    requires l < |locks|
    ensures LockCount(locks, t) >= Count(locks[l].queue, t) + Count(locks[l].waiters, t)
  {
    if l > 0 {
      LockCountHas(locks[1..], l - 1, t);
    }
  }

  lemma CountedTwice(q: seq<Tid>, i: nat, j: nat)
    requires i < j < |q|
    ensures q[i] == q[j] ==> Count(q, q[i]) >= 2
  {
    assert q == q[..j] + q[j..] && q[i] == q[..j][i] && q[j] == q[j..][0];
  }

  function One(t: Tid, u: Tid): nat {
    if t == u then 1 else 0
  }

  lemma InsertAdds(rq: RunQueue, p: Priority, t: Tid, u: Tid)
    ensures RqCount(Insert(rq, p, t), u) == RqCount(rq, u) + One(t, u)
  {
    RqCountUpdate(rq, p, rq[p] + [t], u);
  }

  lemma RestCounts(q: seq<Tid>, u: Tid)
    requires q != []
    ensures Count(q, u) == Count(Rest(q), u) + One(First(q), u)
  {
    assert multiset([First(q)] + Rest(q)) == multiset{First(q)} + multiset(Rest(q));
  }

  lemma TakeRemoves(rq: RunQueue, p: Priority, u: Tid)
    requires rq[p] != []
    ensures RqCount(rq, u) == RqCount(rq[p := Rest(rq[p])], u) + One(First(rq[p]), u)
  {
    RqCountUpdate(rq, p, Rest(rq[p]), u);
    RestCounts(rq[p], u);
  }

  lemma {:induction false} OnlySplits(q: seq<Tid>, p: Tid -> bool, u: Tid)
    ensures Count(q, u) == Count(Only(q, p), u) + Count(Only(q, (t: Tid) => !p(t)), u)
  {
    if q != [] {
      RestCounts(q, u);
      OnlySplits(q[1..], p, u);
    }
  }

  // ----- pieces of steps -----

  /** A thread's entries at the lock that its program point names are among its blocked entries. */
  lemma QueuedElsewhere(s: State, t: Tid)
    ensures t < |s.threads| && (s.threads[t].pc.Locking? || s.threads[t].pc.Waiting? || s.threads[t].pc.InWait?) ==>
              AtLock(s, s.threads[t].pc.l, t) <= LockCount(s.locks, t)
  {
    if t < |s.threads| && (s.threads[t].pc.Locking? || s.threads[t].pc.Waiting? || s.threads[t].pc.InWait?) &&
       s.threads[t].pc.l < |s.locks| {
      LockCountHas(s.locks, s.threads[t].pc.l, t);
    }
  }

  lemma DispatchIsSound(s: State)
    requires Shaped(s) && Sound(s, false, []) && !Empty(s.active)
    ensures Sound(Dispatch(s), true, []) && OnTop(Dispatch(s)) && Chosen(s, Dispatch(s))
    ensures Dispatch(s).finished == s.finished
  {
    hide RqCount, LockCount, BestFrom;
    var p := Best(s.active);
    var t, r := First(s.active[p]), Dispatch(s);
    assert InBucket(s, p);
    RqCountHas(s.active, p, t);
    forall u: Tid ensures Fine(r, true, [], u) {
      TakeRemoves(s.active, p, u);
      assert Fine(s, false, [], u);
      QueuedElsewhere(s, u);
    }
    forall q: Priority ensures InBucket(r, q) {
      assert InBucket(s, q);
    }
    DispatchIsOnTop(s);
    assert ChosenFrom(s, s, r);
  }

  lemma DispatchIsOnTop(s: State)
    requires Shaped(s) && (forall p: Priority :: InBucket(s, p)) && !Empty(s.active)
    ensures OnTop(Dispatch(s))
  {
    var p, r := Best(s.active), Dispatch(s);
    assert InBucket(s, p);
    forall q: Priority, t: Tid | t in r.active[q] && t < |r.threads|
      ensures r.threads[r.running].priority <= r.threads[t].priority
    {
      assert InBucket(s, q);
    }
  }

  lemma SwapIsSound(s: State, seated: bool, hand: seq<Tid>)
    requires Shaped(s) && Sound(s, seated, hand)
    ensures Sound(SwapIfEmpty(s), seated, hand)
  {
    hide RqCount, LockCount, BestFrom, Best, InRange, Count;
    var r := SwapIfEmpty(s);
    forall p: Priority ensures InBucket(r, p) {
      assert InBucket(s, p);
    }
    forall u: Tid ensures Fine(r, seated, hand, u) {
      assert Fine(s, seated, hand, u);
    }
  }

  /** The running thread goes to the end of its active queue, to be replaced. */
  lemma PutBackIsSound(s: State)
    requires Shaped(s) && Sound(s, true, [])
    ensures Sound(Activate(s, s.running), false, [])
  {
    hide RqCount, LockCount, BestFrom, Best;
    var r, p := Activate(s, s.running), s.threads[s.running].priority;
    forall u: Tid ensures Fine(r, false, [], u) {
      InsertAdds(s.active, p, s.running, u);
      assert Fine(s, true, [], u);
    }
    forall q: Priority ensures InBucket(r, q) {
      assert InBucket(s, q);
    }
  }

  lemma ExpireIsSound(s: State)
    requires Shaped(s) && Sound(s, true, [])
    ensures Sound(Expire(s, s.running), false, [])
  {
    hide RqCount, LockCount, BestFrom, Best;
    var r, p := Expire(s, s.running), s.threads[s.running].priority;
    forall u: Tid ensures Fine(r, false, [], u) {
      InsertAdds(s.expired, p, s.running, u);
      assert Fine(s, true, [], u);
    }
    forall q: Priority ensures InBucket(r, q) {
      assert InBucket(s, q);
    }
  }

  /** A ready running thread is in no run queue, and changing its numbers changes nobody's bucket. */
  lemma RetuneIsSound(s: State, th: Thread, hand: seq<Tid>)
    requires Shaped(s) && Sound(s, true, hand) && s.threads[s.running].pc == Ready
    requires InRange(th) && th.pc == Ready && th.held <= s.threads[s.running].held
    ensures Sound(WithThread(s, s.running, th), true, hand)
  {
    hide RqCount, LockCount, BestFrom, Best;
    var r := WithThread(s, s.running, th);
    forall u: Tid ensures Fine(r, true, hand, u) {
      assert Fine(s, true, hand, u);
    }
    assert Fine(s, true, hand, s.running);
    forall q: Priority ensures InBucket(r, q) {
      RqCountHas(s.active, q, s.running);
      RqCountHas(s.expired, q, s.running);
      assert InBucket(s, q);
    }
  }

  lemma RecalcInRange(t: Thread)
    requires InRange(t) || (t.quantum == 0 && InRange(t.(quantum := 1)))
    ensures InRange(Recalc(t)) && Recalc(t).pc == t.pc && Recalc(t).held == t.held && Recalc(t).base == t.base
  {
  }

  /** Where a running thread may go when it blocks, leaves a processor without a thread. */
  lemma SleepIsSound(s: State, until: int)
    requires Shaped(s) && Sound(s, true, []) && s.threads[s.running].pc == Ready
    ensures Sound(Doze(s, until), false, [])
  {
    hide RqCount, LockCount, BestFrom, Best;
    var r := Doze(s, until);
    forall u: Tid ensures Fine(r, false, [], u) {
      assert Fine(s, true, [], u);
    }
    forall q: Priority ensures InBucket(r, q) {
      assert InBucket(s, q);
    }
  }

  lemma JoinIsSound(s: State, target: Tid)
    requires Shaped(s) && Sound(s, true, []) && s.threads[s.running].pc == Ready
    ensures var th := s.threads[s.running].(joinTid := target, pc := Joining);
            Sound(WithThread(s, s.running, th).(joining := s.joining + [s.running]), false, [])
  {
    hide RqCount, LockCount, BestFrom, Best, InRange;
    var th := s.threads[s.running].(joinTid := target, pc := Joining);
    assert Fine(s, true, [], s.running);
    StaysInRange(s.threads[s.running], th);
    var r := WithThread(s, s.running, th).(joining := s.joining + [s.running]);
    forall u: Tid ensures Fine(r, false, [], u) {
      assert Fine(s, true, [], u);
    }
    forall q: Priority ensures InBucket(r, q) {
      assert InBucket(s, q);
    }
  }

  lemma ZombieIsSound(s: State)
    requires Shaped(s) && Sound(s, true, []) && s.threads[s.running].pc == Ready
    ensures Sound(Leave(s, Done).(zombies := s.zombies + [s.running]), false, [])
  {
    hide RqCount, LockCount, BestFrom, Best, InRange;
    var r := Leave(s, Done).(zombies := s.zombies + [s.running]);
    assert Fine(s, true, [], s.running);
    StaysInRange(s.threads[s.running], r.threads[s.running]);
    forall u: Tid ensures Fine(r, false, [], u) {
      assert Fine(s, true, [], u);
    }
    forall q: Priority ensures InBucket(r, q) {
      assert InBucket(s, q);
    }
  }

  lemma BurialIsSound(s: State)
    requires Shaped(s) && Sound(s, true, []) && s.threads[s.running].pc == Ready
    ensures Sound(Leave(s, Done).(dead := s.dead + [s.running]), false, [])
  {
    hide RqCount, LockCount, BestFrom, Best, InRange;
    var r := Leave(s, Done).(dead := s.dead + [s.running]);
    assert Fine(s, true, [], s.running);
    StaysInRange(s.threads[s.running], r.threads[s.running]);
    forall u: Tid ensures Fine(r, false, [], u) {
      assert Fine(s, true, [], u);
    }
    forall q: Priority ensures InBucket(r, q) {
      assert InBucket(s, q);
    }
  }

  lemma DeathIsSound(s: State, zombie: bool)
    requires Shaped(s) && Sound(s, true, []) && s.threads[s.running].pc == Ready
    ensures Sound(if zombie then Leave(s, Done).(zombies := s.zombies + [s.running])
                  else Leave(s, Done).(dead := s.dead + [s.running]), false, [])
  {
    hide Sound;
    ZombieIsSound(s);
    BurialIsSound(s);
  }

  /** A blocked thread in the hand goes back to the active queues. */
  lemma WakingIsSound(s: State, t: Tid, hand: seq<Tid>, th: Thread)
    requires Shaped(s) && Sound(s, true, [t] + hand) && t < |s.threads| && s.threads[t].pc in {Sleeping, Joining}
    requires InRange(th) && th.pc == Ready && th.held == s.threads[t].held
    ensures Sound(Activate(WithThread(s, t, th), t), true, hand)
  {
    hide RqCount, LockCount, BestFrom, Best;
    var mid := WithThread(s, t, th);
    var r := Activate(mid, t);
    assert Fine(s, true, [t] + hand, t);
    forall u: Tid ensures Fine(r, true, hand, u) {
      InsertAdds(s.active, th.priority, t, u);
      assert Fine(s, true, [t] + hand, u);
      assert Count([t] + hand, u) == Count(hand, u) + One(t, u);
    }
    forall q: Priority ensures InBucket(r, q) {
      RqCountHas(s.active, q, t);
      RqCountHas(s.expired, q, t);
      assert InBucket(s, q);
    }
  }

  // ----- pieces of steps at a lock -----

  /** An update of one lock and of the running thread's record, seen by one thread. */
  lemma LockUpdateCounts(s: State, l: nat, k: Lock, u: Tid)
    requires l < |s.locks|
    ensures LockCount(s.locks[l := k], u) + Count(s.locks[l].queue, u) + Count(s.locks[l].waiters, u) ==
            LockCount(s.locks, u) + Count(k.queue, u) + Count(k.waiters, u)
    ensures AtLock(s, l, u) <= LockCount(s.locks, u)
  {
    LockCountUpdate(s.locks, l, k, u);
    LockCountHas(s.locks, l, u);
  }

  /** A thread that a step does not touch. */
  predicate Untouched(s: State, r: State, u: Tid) {
    && (u < |s.threads| <==> u < |r.threads|) && (u < |s.threads| ==> r.threads[u] == s.threads[u])
    && RqCount(r.active, u) == RqCount(s.active, u) && RqCount(r.expired, u) == RqCount(s.expired, u)
    && Count(r.sleeping, u) == Count(s.sleeping, u) && Count(r.joining, u) == Count(s.joining, u)
    && Count(r.zombies, u) == Count(s.zombies, u) && Count(r.dead, u) == Count(s.dead, u)
    && LockCount(r.locks, u) == LockCount(s.locks, u)
  }

  lemma StaysFine(s: State, seated: bool, r: State, seated': bool, l: nat, k: Lock, u: Tid)
    requires Fine(s, seated, [], u) && Untouched(s, r, u)
    requires (seated == seated' && s.running == r.running) || (u != s.running && u != r.running)
    requires l < |s.locks| && r.locks == s.locks[l := k]
    requires (k.owner == Some(u)) == (s.locks[l].owner == Some(u))
    requires Count(k.queue, u) == Count(s.locks[l].queue, u) && Count(k.waiters, u) == Count(s.locks[l].waiters, u)
    ensures Fine(r, seated', [], u)
  {
    hide RqCount, LockCount, Count, InRange;
  }

  lemma TakeFreeIsSound(s: State, l: nat)
    requires Shaped(s) && Sound(s, true, []) && s.threads[s.running].pc == Ready
    requires l < |s.locks| && s.locks[l].owner == None
    ensures Sound(Acquire(s, l), true, [])
  {
    hide RqCount, LockCount, BestFrom, Best, InRange;
    var k, r := s.locks[l].(owner := Some(s.running)), Acquire(s, l);
    forall u: Tid ensures Fine(r, true, [], u) {
      LockUpdateCounts(s, l, k, u);
      assert Fine(s, true, [], u);
      if u != s.running {
        StaysFine(s, true, r, true, l, k, u);
      } else {
        StaysInRange(s.threads[u], r.threads[u]);
      }
    }
    BucketsStay(s, r);
  }

  /** Without a change of priorities or run queues, buckets stay right. */
  lemma BucketsStay(s: State, r: State)
    requires (forall p: Priority :: InBucket(s, p)) && |r.threads| == |s.threads|
    requires r.active == s.active && r.expired == s.expired
    requires forall u: Tid | u < |s.threads| :: r.threads[u].priority == s.threads[u].priority
    ensures forall p: Priority :: InBucket(r, p)
  {
    forall p: Priority ensures InBucket(r, p) {
      assert InBucket(s, p);
    }
  }

  /** The running thread joins the queue of a lock that has an owner. */
  lemma QueueUpIsSound(s: State, l: nat)
    requires Shaped(s) && Sound(s, true, []) && s.threads[s.running].pc == Ready
    requires l < |s.locks| && s.locks[l].owner.Some?
    ensures Sound(WithLock(Leave(s, Locking(l)), l, s.locks[l].(queue := s.locks[l].queue + [s.running])), false, [])
  {
    hide RqCount, LockCount, BestFrom, Best, InRange;
    var k := s.locks[l].(queue := s.locks[l].queue + [s.running]);
    var r := WithLock(Leave(s, Locking(l)), l, k);
    forall u: Tid ensures Fine(r, false, [], u) {
      LockUpdateCounts(s, l, k, u);
      assert Fine(s, true, [], u);
      if u != s.running {
        StaysFine(s, true, r, false, l, k, u);
      } else {
        StaysInRange(s.threads[u], r.threads[u]);
      }
    }
    BucketsStay(s, r);
  }

  lemma StaysInRange(t: Thread, u: Thread)
    requires InRange(t) && t.base == u.base && t.priority == u.priority && t.quantum == u.quantum && t.nice == u.nice
    ensures InRange(u)
  {
  }

  /** The running thread joins the waiters and still has the processor: its extra entry. */
  lemma ParkIsSound(s: State, l: nat)
    requires Shaped(s) && Sound(s, true, []) && s.threads[s.running].pc == Ready && l < |s.locks|
    ensures Sound(WithLock(Leave(s, InWait(l)), l, s.locks[l].(waiters := s.locks[l].waiters + [s.running])), true, [])
  {
    hide RqCount, LockCount, BestFrom, Best, InRange;
    var k := s.locks[l].(waiters := s.locks[l].waiters + [s.running]);
    var r := WithLock(Leave(s, InWait(l)), l, k);
    forall u: Tid ensures Fine(r, true, [], u) {
      LockUpdateCounts(s, l, k, u);
      assert Fine(s, true, [], u);
      if u != s.running {
        StaysFine(s, true, r, true, l, k, u);
      } else {
        StaysInRange(s.threads[u], r.threads[u]);
      }
    }
    BucketsStay(s, r);
  }

  /** The thread that gets a lock has been waiting for that lock. */
  lemma HeadWaits(s: State, seated: bool, l: nat, t: Tid)
    requires Shaped(s) && Sound(s, seated, []) && l < |s.locks| && t < |s.threads|
    requires t in s.locks[l].queue || t in s.locks[l].waiters
    ensures t in s.locks[l].queue ==> s.threads[t].pc in {Locking(l), Waiting(l), InWait(l)}
    ensures t !in s.locks[l].queue ==> s.threads[t].pc in {Waiting(l), InWait(l)}
    ensures AtLock(s, l, t) == 1
  {
    assert Fine(s, seated, [], t);
    LockCountHas(s.locks, l, t);
    var pc := s.threads[t].pc;
    if (pc.Locking? || pc.Waiting? || pc.InWait?) && pc.l < |s.locks| && pc.l != l {
      TwoLocks(s.locks, l, pc.l, t);
    }
    QueuedElsewhere(s, t);
  }

  lemma {:induction false} TwoLocks(locks: seq<Lock>, l: nat, m: nat, t: Tid)
    requires l < |locks| && m < |locks| && l != m
    ensures LockCount(locks, t) >= Count(locks[l].queue, t) + Count(locks[l].waiters, t)
                                     + Count(locks[m].queue, t) + Count(locks[m].waiters, t)
    decreases |locks|
  {
    if l > 0 && m > 0 {
      TwoLocks(locks[1..], l - 1, m - 1, t);
    } else if l > 0 {
      LockCountHas(locks[1..], l - 1, t);
    } else {
      LockCountHas(locks[1..], m - 1, t);
    }
  }

  /** Giving up a lock: it becomes free, or goes to the head of its queue, which becomes ready. */
  lemma FreeingIsSound(s: State, l: nat)
    requires Shaped(s) && Sound(s, true, []) && Owns(s, l) && s.locks[l].queue == []
    requires Runnable(s, true, s.running) == 1
    ensures Sound(GivenUp(s, l), true, [])
  {
    hide RqCount, LockCount, BestFrom, Best, InRange;
    var k, r := s.locks[l].(owner := None), GivenUp(s, l);
    forall u: Tid ensures Fine(r, true, [], u) {
      LockUpdateCounts(s, l, k, u);
      assert Fine(s, true, [], u);
      if u != s.running {
        StaysFine(s, true, r, true, l, k, u);
      } else {
        StaysInRange(s.threads[u], r.threads[u]);
      }
    }
    BucketsStay(s, r);
  }

  /** What a hand-off does to the counts of one thread. */
  lemma HandOffCounts(s: State, l: nat, u: Tid)
    requires Shaped(s) && Owns(s, l) && s.locks[l].queue != []
    ensures var t, r := First(s.locks[l].queue), GivenUp(s, l);
            && RqCount(r.active, u) == RqCount(s.active, u) + One(t, u)
            && LockCount(r.locks, u) + One(t, u) == LockCount(s.locks, u)
            && Count(r.locks[l].queue, u) + One(t, u) == Count(s.locks[l].queue, u)
            && AtLock(s, l, u) <= LockCount(s.locks, u)
  {
    var t := First(s.locks[l].queue);
    var k := s.locks[l].(owner := Some(t), queue := Rest(s.locks[l].queue));
    LockUpdateCounts(s, l, k, u);
    RestCounts(s.locks[l].queue, u);
    InsertAdds(s.active, s.threads[t].priority, t, u);
  }

  lemma HeadGetsReady(s: State, l: nat)
    requires Shaped(s) && Sound(s, true, []) && Owns(s, l) && s.locks[l].queue != []
    requires s.running !in s.locks[l].queue
    ensures Fine(GivenUp(s, l), true, [], First(s.locks[l].queue))
  {
    hide RqCount, LockCount, BestFrom, Best, InRange;
    var t := First(s.locks[l].queue);
    HeadWaits(s, true, l, t);
    HandOffCounts(s, l, t);
    assert Fine(s, true, [], t) && Fine(s, true, [], s.running);
  }

  lemma HandOffFine(s: State, l: nat, u: Tid)
    requires Shaped(s) && Sound(s, true, []) && Owns(s, l) && s.locks[l].queue != []
    requires Runnable(s, true, s.running) == 1 && s.running !in s.locks[l].queue
    ensures Fine(GivenUp(s, l), true, [], u)
  {
    hide RqCount, LockCount, BestFrom, Best, InRange;
    var t, r := First(s.locks[l].queue), GivenUp(s, l);
    HeadGetsReady(s, l);
    HandOffCounts(s, l, u);
    assert Fine(s, true, [], u);
    if u != s.running && u != t {
      StaysFine(s, true, r, true, l, r.locks[l], u);
    } else {
      StaysInRange(s.threads[u], r.threads[u]);
    }
  }

  lemma HandOffIsSound(s: State, l: nat)
    requires Shaped(s) && Sound(s, true, []) && Owns(s, l) && s.locks[l].queue != []
    requires Runnable(s, true, s.running) == 1 && s.running !in s.locks[l].queue
    ensures Sound(GivenUp(s, l), true, [])
  {
    hide RqCount, LockCount, BestFrom, Best, InRange, Fine;
    var r := GivenUp(s, l);
    HeadGetsReady(s, l);
    forall u: Tid ensures Fine(r, true, [], u) {
      HandOffFine(s, l, u);
    }
    forall p: Priority ensures InBucket(r, p) {
      assert InBucket(s, p);
    }
  }

  lemma SignalIsSound(s: State, l: nat)
    requires Shaped(s) && Sound(s, true, []) && Owns(s, l)
    ensures Sound(Signal(s, l), true, [])
  {
    hide RqCount, LockCount, BestFrom, Best, InRange;
    if s.locks[l].waiters != [] {
      var t, r, k := First(s.locks[l].waiters), Signal(s, l), Signal(s, l).locks[l];
      HeadWaits(s, true, l, t);
      forall u: Tid ensures Fine(r, true, [], u) {
        LockUpdateCounts(s, l, k, u);
        RestCounts(s.locks[l].waiters, u);
        assert Fine(s, true, [], u);
        if u != t {
          StaysFine(s, true, r, true, l, k, u);
        }
      }
      BucketsStay(s, r);
    }
  }

  /** At its own block in monitor_wait a thread gives back its extra entry. */
  lemma FinishIsSound(s: State)
    requires Shaped(s) && Sound(s, true, []) && s.threads[s.running].pc.InWait?
    ensures Sound(Leave(s, Waiting(s.threads[s.running].pc.l)), false, [])
  {
    hide RqCount, LockCount, BestFrom, Best, InRange;
    var r := Leave(s, Waiting(s.threads[s.running].pc.l));
    forall u: Tid ensures Fine(r, false, [], u) {
      QueuedElsewhere(s, u);
      assert Fine(s, true, [], u);
      if u == s.running {
        StaysInRange(s.threads[u], r.threads[u]);
      }
    }
    BucketsStay(s, r);
  }
}
