/** Every run of the scheduler keeps its invariant; what that means for threads, locks and monitors. */
module Safety {
  import opened Options
  import opened Scheduling
  import opened Conservation

  lemma SoundWhenever(s: State, clock: int, finished: bool, seated: bool, hand: seq<Tid>)
    requires Sound(s, seated, hand)
    ensures Sound(s.(clock := clock, finished := finished), seated, hand)
  {
    hide RqCount, LockCount, Count, InRange;
    var r := s.(clock := clock, finished := finished);
    forall u: Tid ensures Fine(r, seated, hand, u) {
      assert Fine(s, seated, hand, u);
    }
    BucketsStay(s, r);
  }

  lemma SwapLinesUp(s: State, r: State)
    requires Shaped(s) && SomeReady(s) && Chosen(SwapIfEmpty(s), r)
    requires r == Dispatch(SwapIfEmpty(s)) && Sound(SwapIfEmpty(s), false, [])
    ensures Chosen(s, r)
  {
    hide Sound;
    var mid := SwapIfEmpty(s);
    assert Empty(s.active) ==> forall p: Priority :: s.active[p] == [];
    assert ChosenFrom(s, mid, r);
  }

  lemma BlockIsSound(s: State)
    requires Shaped(s) && Sound(s, false, []) && SomeReady(s)
    ensures Sound(Block(s), true, []) && OnTop(Block(s)) && Chosen(s, Block(s)) && Block(s).finished == s.finished
  {
    hide Sound, OnTop;
    SwapIsSound(s, false, []);
    DispatchIsSound(SwapIfEmpty(s));
    SwapLinesUp(s, Block(s));
  }

  // ----- waking -----

  ghost predicate Wakes(wake: Thread -> Thread, t: Thread) {
    InRange(wake(t)) && wake(t).pc == Ready && wake(t).held == t.held
  }

  lemma {:induction false} ActivateAllIsSound(s: State, q: seq<Tid>, wake: Thread -> Thread)
    requires Shaped(s) && Below(q, |s.threads|) && Sound(s, true, q)
    requires forall t | t in q :: Wakes(wake, s.threads[t]) && s.threads[t].pc in {Sleeping, Joining}
    ensures Sound(ActivateAll(s, q, wake), true, []) && Grows(s, ActivateAll(s, q, wake))
    decreases |q|
  {
    if q != [] {
      var t, rest := First(q), Rest(q);
      var th := wake(s.threads[t]);
      var mid := Activate(WithThread(s, t, th), t);
      WakingIsSound(s, t, rest, th);
      FirstIsOnce(s, q);
      ActivateAllIsSound(mid, rest, wake);
    }
  }

  lemma FirstIsOnce(s: State, q: seq<Tid>)
    requires Sound(s, true, q) && q != [] && First(q) < |s.threads| && s.threads[First(q)].pc in {Sleeping, Joining}
    ensures First(q) !in Rest(q)
  {
    assert Fine(s, true, q, First(q));
    RestCounts(q, First(q));
  }

  lemma SleeperOrJoiner(s: State, t: Tid)
    requires Sound(s, true, []) && (t in s.sleeping || t in s.joining)
    ensures t < |s.threads| && s.threads[t].pc == if t in s.sleeping then Sleeping else Joining
  {
    assert Fine(s, true, [], t) && Conserved(s, true, [], t);
    QueuedElsewhere(s, t);
  }

  /** Threads of one list shared out between two. */
  ghost predicate Splits(q: seq<Tid>, a: seq<Tid>, b: seq<Tid>) {
    forall u: Tid :: Count(q, u) == Count(a, u) + Count(b, u)
  }

  lemma OnlySplit(q: seq<Tid>, p: Tid -> bool)
    ensures Splits(q, Only(q, (t: Tid) => !p(t)), Only(q, p))
  {
    forall u: Tid ensures Count(q, u) == Count(Only(q, (t: Tid) => !p(t)), u) + Count(Only(q, p), u) {
      OnlySplits(q, p, u);
    }
  }

  lemma SleepersInHand(s: State, rest: seq<Tid>, hand: seq<Tid>)
    requires Sound(s, true, []) && Splits(s.sleeping, rest, hand)
    ensures Sound(s.(sleeping := rest), true, hand)
  {
    hide RqCount, LockCount, InRange;
    var r := s.(sleeping := rest);
    forall u: Tid ensures Fine(r, true, hand, u) {
      assert Fine(s, true, [], u) && Count(s.sleeping, u) == Count(rest, u) + Count(hand, u);
    }
    BucketsStay(s, r);
  }

  lemma JoinersInHand(s: State, rest: seq<Tid>, hand: seq<Tid>)
    requires Sound(s, true, []) && Splits(s.joining, rest, hand)
    ensures Sound(s.(joining := rest), true, hand)
  {
    hide RqCount, LockCount, InRange;
    var r := s.(joining := rest);
    forall u: Tid ensures Fine(r, true, hand, u) {
      assert Fine(s, true, [], u) && Count(s.joining, u) == Count(rest, u) + Count(hand, u);
    }
    BucketsStay(s, r);
  }

  /** What is taken out of those lists may be activated. */
  lemma CanWake(s: State, hand: seq<Tid>, wake: Thread -> Thread)
    requires Sound(s, true, []) && (forall t | t in hand :: t in s.sleeping || t in s.joining)
    requires forall th: Thread | InRange(th) :: Wakes(wake, th)
    ensures s.threads[s.running].pc == Ready ==> s.running !in hand
    ensures forall t | t in hand ::
              t < |s.threads| && Wakes(wake, s.threads[t]) && s.threads[t].pc in {Sleeping, Joining}
  {
    forall t | t in hand ensures t < |s.threads| && Wakes(wake, s.threads[t]) && s.threads[t].pc in {Sleeping, Joining} {
      SleeperOrJoiner(s, t);
      assert Fine(s, true, [], t);
    }
  }

  lemma RunningIsReady(s: State)
    requires Sound(s, true, []) && !s.threads[s.running].pc.InWait?
    ensures s.threads[s.running].pc == Ready && Runnable(s, true, s.running) == 1 && InRange(s.threads[s.running])
    ensures forall l | 0 <= l < |s.locks| :: s.running !in s.locks[l].queue
  {
    assert Fine(s, true, [], s.running);
    QueuedElsewhere(s, s.running);
    forall l | 0 <= l < |s.locks| ensures s.running !in s.locks[l].queue {
      LockCountHas(s.locks, l, s.running);
    }
  }

  // ----- steps -----

  lemma WakeIsSound(s: State)
    requires Shaped(s) && Sound(s, true, []) && s.threads[s.running].pc == Ready
    ensures Sound(Wake(s), true, []) && Grows(s, Wake(s)) && Wake(s).finished == s.finished
    ensures Wake(s).threads[s.running] == s.threads[s.running]
  {
    hide Sound;
    var due := (t: Tid) => t < |s.threads| && s.threads[t].wakeTime <= s.clock;
    var q, rest := Only(s.sleeping, due), Only(s.sleeping, (t: Tid) => !due(t));
    OnlySplit(s.sleeping, due);
    SleepersInHand(s, rest, q);
    CanWake(s, q, Awake);
    ActivateAllIsSound(s.(sleeping := rest), q, Awake);
    OthersAreLeftAlone(s.(sleeping := rest), q, Awake, s.running);
  }

  lemma {:induction false} OthersAreLeftAlone(s: State, q: seq<Tid>, wake: Thread -> Thread, u: Tid)
    requires Shaped(s) && Below(q, |s.threads|) && u < |s.threads| && u !in q
    ensures ActivateAll(s, q, wake).threads[u] == s.threads[u]
    decreases |q|
  {
    if q != [] {
      OthersAreLeftAlone(Activate(WithThread(s, First(q), wake(s.threads[First(q)])), First(q)), Rest(q), wake, u);
    }
  }

  /** A step that gives up the processor has chosen who runs next; another keeps the thread running. */
  ghost predicate SwitchedWell(s: State, r: State, gaveUp: bool) {
    if gaveUp then Chosen(s, r) else r.running == s.running
  }

  /** The running thread has used up its quantum, or is outranked. */
  predicate Drops(s: State)
    requires Shaped(s)
  {
    s.threads[s.running].quantum - 1 <= 0 || 0 <= Best(s.active) < s.threads[s.running].priority
  }

  predicate TickDrops(s: State)
    requires Shaped(s)
  {
    Drops(Wake(s.(clock := s.clock + 1)))
  }

  /** A tick that leaves some quantum. */
  lemma SpendingIsSound(s: State)
    requires Shaped(s) && Sound(s, true, []) && s.threads[s.running].pc == Ready && s.threads[s.running].quantum - 1 > 0
    ensures Sound(Charge(s), true, []) && OnTop(Charge(s)) && SwitchedWell(s, Charge(s), Drops(s)) && Charge(s).finished == s.finished
  {
    hide Sound, BestFrom, Best, Recalc, Dispatch, Chosen, Activate;
    RunningIsReady(s);
    var t := s.threads[s.running];
    var charged := WithThread(s, s.running, t.(quantum := t.quantum - 1));
    RetuneIsSound(s, t.(quantum := t.quantum - 1), []);
    if 0 <= Best(charged.active) < t.priority {
      PutBackIsSound(charged);
      DispatchIsSound(Activate(charged, s.running));
      ActivateGrows(charged, s.running);
      ChosenFromBefore(s, Activate(charged, s.running), Charge(s));
    } else {
      StaysOnTop(charged);
    }
  }

  lemma ActivateGrows(s: State, t: Tid)
    requires Shaped(s) && t < |s.threads|
    ensures Grows(s, Activate(s, t))
  {
  }

  /** A tick that uses up the quantum. */
  lemma ExhaustionIsSound(s: State)
    requires Shaped(s) && Sound(s, true, []) && s.threads[s.running].pc == Ready && s.threads[s.running].quantum - 1 <= 0
    ensures Sound(Charge(s), true, []) && OnTop(Charge(s)) && SwitchedWell(s, Charge(s), Drops(s)) && Charge(s).finished == s.finished
  {
    hide Sound, OnTop, BestFrom, Best, Block, Recalc;
    RunningIsReady(s);
    var t := s.threads[s.running];
    var th := Recalc(t.(quantum := 0));
    RecalcInRange(t.(quantum := 0));
    RetuneIsSound(s, th, []);
    ExpireIsSound(WithThread(s, s.running, th));
    BlockIsSound(Expire(WithThread(s, s.running, th), s.running));
    ChosenFromBefore(s, Expire(WithThread(s, s.running, th), s.running), Charge(s));
  }

  lemma ChargeIsSound(s: State)
    requires Shaped(s) && Sound(s, true, []) && s.threads[s.running].pc == Ready
    ensures Sound(Charge(s), true, []) && OnTop(Charge(s)) && SwitchedWell(s, Charge(s), Drops(s)) && Charge(s).finished == s.finished
  {
    hide Sound, OnTop, Chosen, Charge;
    if s.threads[s.running].quantum - 1 > 0 {
      SpendingIsSound(s);
    } else {
      ExhaustionIsSound(s);
    }
  }

  lemma StaysOnTop(s: State)
    requires Sound(s, true, []) && !(0 <= Best(s.active) < s.threads[s.running].priority)
    ensures OnTop(s)
  {
    forall p: Priority, t: Tid | t in s.active[p] && t < |s.threads|
      ensures s.threads[s.running].priority <= s.threads[t].priority
    {
      assert InBucket(s, p);
    }
  }

  lemma TickIsSound(s: State)
    requires Shaped(s) && Sound(s, true, []) && s.threads[s.running].pc == Ready
    ensures Sound(Tick(s), true, []) && OnTop(Tick(s)) && SwitchedWell(s, Tick(s), TickDrops(s)) && Tick(s).finished == s.finished
  {
    hide Sound, OnTop, Charge, Wake, Chosen, Best, BestFrom;
    var later := s.(clock := s.clock + 1);
    SoundWhenever(s, s.clock + 1, s.finished, true, []);
    WakeIsSound(later);
    ChargeIsSound(Wake(later));
    if TickDrops(s) {
      ChosenFromBefore(s, Wake(later), Tick(s));
    }
  }

  lemma CreateIsSound(s: State, priority: int)
    requires Shaped(s) && Sound(s, true, [])
    ensures Sound(Create(s, priority), true, []) && Create(s, priority).finished == s.finished
  {
    hide RqCount, LockCount, BestFrom, Best;
    var r, t := Create(s, priority), |s.threads|;
    forall u: Tid ensures Fine(r, true, [], u) {
      InsertAdds(s.active, r.threads[t].priority, t, u);
      assert Fine(s, true, [], u);
      QueuedElsewhere(s, u);
    }
    forall p: Priority ensures InBucket(r, p) {
      assert InBucket(s, p);
    }
  }

  lemma NewLockIsSound(s: State)
    requires Shaped(s) && Sound(s, true, [])
    ensures Sound(s.(locks := s.locks + [Lock(None, [], [])]), true, [])
  {
    hide RqCount, BestFrom, Best, InRange;
    var r := s.(locks := s.locks + [Lock(None, [], [])]);
    forall u: Tid ensures Fine(r, true, [], u) {
      LockCountSnoc(s.locks, u);
      assert Fine(s, true, [], u);
    }
    BucketsStay(s, r);
  }

  lemma {:induction false} LockCountSnoc(locks: seq<Lock>, u: Tid)
    ensures LockCount(locks + [Lock(None, [], [])], u) == LockCount(locks, u)
  {
    if locks != [] {
      assert (locks + [Lock(None, [], [])])[1..] == locks[1..] + [Lock(None, [], [])];
      LockCountSnoc(locks[1..], u);
    } else {
      assert (locks + [Lock(None, [], [])])[1..] == [];
    }
  }

  lemma ExitIsSound(s: State)
    requires Shaped(s) && Sound(s, true, []) && !s.finished && s.threads[s.running].pc == Ready
    ensures Sound(Exit(s), !Exit(s).finished, []) && (!Exit(s).finished ==> OnTop(Exit(s)))
    ensures SwitchedWell(s, Exit(s), !Exit(s).finished)
  {
    hide Sound, OnTop, ActivateAll, Only, Best, Block;
    var joins := (t: Tid) => t < |s.threads| && s.threads[t].joinTid == s.running;
    var rest, q := Only(s.joining, (t: Tid) => !joins(t)), Only(s.joining, joins);
    var mid, wake := s.(joining := rest), (th: Thread) => th.(pc := Ready);
    OnlySplit(s.joining, joins);
    JoinersInHand(s, rest, q);
    CanWake(s, q, wake);
    ActivateAllIsSound(mid, q, wake);
    OthersAreLeftAlone(mid, q, wake, s.running);
    DyingIsSound(ActivateAll(mid, q, wake), q == []);
    if !Exit(s).finished {
      ChosenFromBefore(s, ActivateAll(mid, q, wake), Exit(s));
    }
  }

  lemma DyingIsSound(s: State, zombie: bool)
    requires Shaped(s) && Sound(s, true, []) && !s.finished && s.threads[s.running].pc == Ready
    ensures var r := Die(s, zombie); Sound(r, !r.finished, []) && (!r.finished ==> OnTop(r)) && SwitchedWell(s, r, !r.finished)
  {
    hide Sound, OnTop;
    DeathIsSound(s, zombie);
    var gone := if zombie then Leave(s, Done).(zombies := s.zombies + [s.running])
                else Leave(s, Done).(dead := s.dead + [s.running]);
    if SomeReady(gone) {
      BlockIsSound(gone);
      ChosenFromBefore(s, gone, Block(gone));
    } else {
      SoundWhenever(gone, gone.clock, true, false, []);
    }
  }

  lemma BuryIsSound(s: State, rest: seq<Tid>, found: seq<Tid>)
    requires Sound(s, true, []) && Splits(s.zombies, rest, found)
    ensures Sound(s.(zombies := rest, dead := s.dead + found), true, [])
  {
    hide RqCount, LockCount, InRange;
    var r := s.(zombies := rest, dead := s.dead + found);
    forall u: Tid ensures Fine(r, true, [], u) {
      assert Fine(s, true, [], u) && Count(s.zombies, u) == Count(rest, u) + Count(found, u);
      assert Count(s.dead + found, u) == Count(s.dead, u) + Count(found, u);
    }
    BucketsStay(s, r);
  }

  lemma ZombiesSplit(q: seq<Tid>, t: Tid)
    ensures Splits(q, Only(q, (z: Tid) => z != t), Only(q, (z: Tid) => z == t))
  {
    OnlySplit(q, (z: Tid) => z == t);
    SameOnly(q, (z: Tid) => !((y: Tid) => y == t)(z), (z: Tid) => z != t);
  }

  lemma {:induction false} SameOnly(q: seq<Tid>, p: Tid -> bool, p': Tid -> bool)
    requires forall t: Tid :: p(t) == p'(t)
    ensures Only(q, p) == Only(q, p')
  {
    if q != [] {
      SameOnly(q[1..], p, p');
    }
  }

  lemma YieldIsSound(s: State)
    requires Shaped(s) && Sound(s, true, []) && s.threads[s.running].pc == Ready
    ensures Sound(Yield(s), true, []) && OnTop(Yield(s)) && Chosen(s, Yield(s)) && Yield(s).finished == s.finished
  {
    hide Sound;
    RunningIsReady(s);
    var th := Recalc(s.threads[s.running]);
    RecalcInRange(s.threads[s.running]);
    RetuneIsSound(s, th, []);
    PutBackIsSound(WithThread(s, s.running, th));
    DispatchIsSound(Activate(WithThread(s, s.running, th), s.running));
    ChosenFromBefore(s, Activate(WithThread(s, s.running, th), s.running), Yield(s));
  }

  lemma NiceIsSound(s: State, nice: int)
    requires Shaped(s) && Sound(s, true, []) && s.threads[s.running].pc == Ready
    ensures Sound(Nice(s, nice).0, true, [])
  {
    hide Sound;
    RunningIsReady(s);
    RetuneIsSound(s, s.threads[s.running].(nice := Bounded(nice, 0, 10)), []);
  }

  lemma JoinStepIsSound(s: State, t: Tid)
    requires Shaped(s) && Sound(s, true, []) && s.threads[s.running].pc == Ready
    requires t < |s.threads| && (JoinBlocks(s, t) ==> SomeReady(s))
    ensures Sound(Join(s, t), true, []) && (JoinBlocks(s, t) ==> OnTop(Join(s, t)))
    ensures SwitchedWell(s, Join(s, t), JoinBlocks(s, t))
    ensures Join(s, t).finished == s.finished
  {
    hide Sound, Only;
    if t in s.zombies {
      ZombiesSplit(s.zombies, t);
      BuryIsSound(s, Only(s.zombies, (z: Tid) => z != t), Only(s.zombies, (z: Tid) => z == t));
    } else if Visible(s, t) {
      JoinIsSound(s, t);
      BlockIsSound(JoinQueued(s, t));
      ChosenFromBefore(s, JoinQueued(s, t), Join(s, t));
    }
  }

  lemma SleepStepIsSound(s: State, time: int)
    requires Shaped(s) && Sound(s, true, []) && s.threads[s.running].pc == Ready
    requires SleepTicks(time) != 0 ==> SomeReady(s)
    ensures Sound(Sleep(s, time), true, []) && (SleepTicks(time) != 0 ==> OnTop(Sleep(s, time)))
    ensures SwitchedWell(s, Sleep(s, time), SleepTicks(time) != 0) && Sleep(s, time).finished == s.finished
  {
    hide Sound, OnTop, SleepTicks, Best, Block;
    if SleepTicks(time) != 0 {
      SleepIsSound(s, s.clock + SleepTicks(time));
      BlockIsSound(Doze(s, s.clock + SleepTicks(time)));
      ChosenFromBefore(s, Doze(s, s.clock + SleepTicks(time)), Sleep(s, time));
    }
  }

  lemma AcquireIsSound(s: State, l: nat)
    requires Shaped(s) && Sound(s, true, []) && s.threads[s.running].pc == Ready
    requires l < |s.locks| && (s.locks[l].owner.Some? ==> SomeReady(s))
    ensures Sound(Acquire(s, l), true, []) && (s.locks[l].owner.Some? ==> OnTop(Acquire(s, l)))
    ensures SwitchedWell(s, Acquire(s, l), s.locks[l].owner.Some?) && Acquire(s, l).finished == s.finished
  {
    hide Sound;
    if s.locks[l].owner == None {
      TakeFreeIsSound(s, l);
    } else {
      RunningIsReady(s);
      var me := s.threads[s.running];
      RecalcInRange(me);
      var tuned := WithThread(s, s.running, Recalc(me));
      RetuneIsSound(s, Recalc(me), []);
      QueueUpIsSound(tuned, l);
      var blocked := WithLock(Leave(tuned, Locking(l)), l, s.locks[l].(queue := s.locks[l].queue + [s.running]));
      assert Leave(tuned, Locking(l)) == WithThread(s, s.running, Recalc(me).(pc := Locking(l)));
      BlockIsSound(blocked);
      ChosenFromBefore(s, blocked, Acquire(s, l));
    }
  }

  lemma GivingUpIsSound(s: State, l: nat)
    requires Shaped(s) && Sound(s, true, []) && Owns(s, l)
    requires Runnable(s, true, s.running) == 1 && s.running !in s.locks[l].queue
    ensures Sound(GivenUp(s, l), true, []) && GivenUp(s, l).finished == s.finished && Grows(s, GivenUp(s, l))
  {
    hide Sound;
    if s.locks[l].queue == [] {
      FreeingIsSound(s, l);
    } else {
      HandOffIsSound(s, l);
    }
  }

  lemma ReleaseIsSound(s: State, l: nat)
    requires Shaped(s) && Sound(s, true, []) && l < |s.locks|
    requires Runnable(s, true, s.running) == 1 && s.running !in s.locks[l].queue
    ensures Sound(Release(s, l), true, []) && (Owns(s, l) && Outranked(s, l) ==> OnTop(Release(s, l)))
    ensures SwitchedWell(s, Release(s, l), Owns(s, l) && Outranked(s, l)) && Release(s, l).finished == s.finished
  {
    hide Sound, OnTop, BestFrom, Best, GivenUp, Outranked, Dispatch;
    if Owns(s, l) {
      GivingUpIsSound(s, l);
      if Outranked(s, l) {
        PutBackIsSound(GivenUp(s, l));
        DispatchIsSound(Activate(GivenUp(s, l), s.running));
        ChosenFromBefore(s, Activate(GivenUp(s, l), s.running), Release(s, l));
      }
    }
  }

  lemma FinishWaitIsSound(s: State)
    requires Shaped(s) && Sound(s, true, []) && s.threads[s.running].pc.InWait? && SomeReady(s)
    ensures Sound(FinishWait(s), true, []) && OnTop(FinishWait(s)) && Chosen(s, FinishWait(s))
    ensures FinishWait(s).finished == s.finished
  {
    hide Sound;
    FinishIsSound(s);
    BlockIsSound(Leave(s, Waiting(s.threads[s.running].pc.l)));
    ChosenFromBefore(s, Leave(s, Waiting(s.threads[s.running].pc.l)), FinishWait(s));
  }

  lemma ParkStepIsSound(s: State, l: nat)
    requires Shaped(s) && Sound(s, true, []) && s.threads[s.running].pc == Ready && l < |s.locks|
    ensures Sound(Park(s, l), true, []) && Park(s, l).finished == s.finished && Grows(s, Park(s, l))
    ensures Runnable(Park(s, l), true, s.running) == 1 && s.running !in Park(s, l).locks[l].queue
  {
    hide Sound;
    RunningIsReady(s);
    var me := s.threads[s.running];
    RecalcInRange(me);
    RetuneIsSound(s, Recalc(me), []);
    var tuned := WithThread(s, s.running, Recalc(me));
    ParkIsSound(tuned, l);
    assert Leave(tuned, InWait(l)) == WithThread(s, s.running, Recalc(me).(pc := InWait(l)));
  }

  lemma WaitIsSound(s: State, l: nat)
    requires Shaped(s) && Sound(s, true, []) && s.threads[s.running].pc == Ready && l < |s.locks|
    requires Owns(s, l) && s.locks[l].queue == [] ==> SomeReady(s)
    ensures Sound(Wait(s, l), true, []) && (Owns(s, l) ==> OnTop(Wait(s, l)))
    ensures SwitchedWell(s, Wait(s, l), Owns(s, l))
    ensures Wait(s, l).finished == s.finished
  {
    hide Sound, OnTop, Chosen, Grows, Park, GivenUp, Outranked, Dispatch, Activate, FinishWait, Best, BestFrom;
    if Owns(s, l) {
      ParkStepIsSound(s, l);
      var parked := Park(s, l);
      if Outranked(parked, l) {
        ReleaseIsSound(parked, l);
      } else {
        GivingUpIsSound(parked, l);
        FinishWaitIsSound(GivenUp(parked, l));
        ChosenFromBefore(parked, GivenUp(parked, l), Wait(s, l));
      }
      ChosenFromBefore(s, parked, Wait(s, l));
    }
  }

  /** Steps after which the scheduler has chosen who runs: every clock tick, and every call that gives up
      the processor. */
  predicate Chooses(s: State, op: Op)
    requires Enabled(s, op)
  {
    match op
    case TickOp => true
    case YieldOp => true
    case ExitOp => !Exit(s).finished
    case JoinOp(t) => JoinBlocks(s, t)
    case SleepOp(time) => SleepTicks(time) != 0
    case AcquireOp(l) => s.locks[l].owner.Some?
    case ReleaseOp(l) => Owns(s, l) && Outranked(s, l)
    case WaitOp(l) => Owns(s, l)
    case FinishWaitOp => true
    case _ => false
  }

  /** Steps that give up the processor: the above, and of the ticks those that drop the running thread. */
  predicate GivesUp(s: State, op: Op)
    requires Enabled(s, op)
  {
    if op.TickOp? then TickDrops(s) else Chooses(s, op)
  }

  /** Every step of every operation keeps the invariant, and where the scheduler chooses, nobody in the
      active queues outranks its choice. */
  lemma StepKeepsInv(s: State, op: Op)
    requires Inv(s) && Enabled(s, op)
    ensures Inv(Next(s, op))
    ensures Chooses(s, op) ==> OnTop(Next(s, op))
    ensures SwitchedWell(s, Next(s, op), GivesUp(s, op))
  {
    hide Sound, OnTop, Chosen, Yield, Tick, Join, Sleep, Acquire, Wait, Release, FinishWait, Exit;
    if !op.FinishWaitOp? {
      RunningIsReady(s);
    }
    match op
    case TickOp => TickIsSound(s);
    case CreateOp(p) => CreateIsSound(s, p);
    case NiceOp(n) => NiceIsSound(s, n);
    case YieldOp => YieldIsSound(s);
    case ExitOp => ExitIsSound(s);
    case JoinOp(t) => JoinStepIsSound(s, t);
    case SleepOp(time) => SleepStepIsSound(s, time);
    case NewLockOp => NewLockIsSound(s);
    case AcquireOp(l) => AcquireIsSound(s, l);
    case ReleaseOp(l) => ReleaseIsSound(s, l);
    case WaitOp(l) => WaitIsSound(s, l);
    case SignalOp(l) =>
      if Owns(s, l) {
        SignalIsSound(s, l);
      }
    case FinishWaitOp => FinishWaitIsSound(s);
  }

  // ----- runs -----

  ghost predicate CanRun(s: State, ops: seq<Op>)
    decreases |ops|
  {
    ops == [] || (Enabled(s, ops[0]) && CanRun(Next(s, ops[0]), ops[1..]))
  }

  ghost function After(s: State, ops: seq<Op>): State
    requires CanRun(s, ops)
    decreases |ops|
  {
    if ops == [] then s else After(Next(s, ops[0]), ops[1..])
  }

  lemma StartIsSound()
    ensures Inv(START)
  {
    assert Shaped(START);
    forall u: Tid ensures Fine(START, true, [], u) {
      NobodyQueued(NO_THREADS, u);
    }
  }

  lemma {:induction false} NobodyQueued(rq: seq<seq<Tid>>, u: Tid)
    requires forall p | 0 <= p < |rq| :: rq[p] == []
    ensures RqCount(rq, u) == 0
  {
    if rq != [] {
      NobodyQueued(rq[1..], u);
    }
  }

  lemma {:induction false} RunsKeepInv(s: State, ops: seq<Op>)
    requires Inv(s) && CanRun(s, ops)
    ensures Inv(After(s, ops))
    decreases |ops|
  {
    if ops != [] {
      StepKeepsInv(s, ops[0]);
      RunsKeepInv(Next(s, ops[0]), ops[1..]);
    }
  }
}
