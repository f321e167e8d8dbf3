/** What the invariant and the steps of the scheduler mean to threads. */
module SchedulerLaws {
  import opened Options
  import opened Scheduling
  import opened Conservation
  import opened Safety

  // ----- conservation -----

  /** In every reachable state each thread is in exactly one place, except that a thread preempted inside
      monitor_wait's unlock has exactly one entry more, to finish its wait with. */
  lemma ThreadsAreConserved(ops: seq<Op>, t: Tid)
    requires CanRun(START, ops) && !After(START, ops).finished
    ensures var s := After(START, ops);
            Runnable(s, true, t) + Blocked(s, t) ==
            if t >= |s.threads| then 0 else if s.threads[t].pc.InWait? then 2 else 1
    ensures var s := After(START, ops);
            t < |s.threads| && s.threads[t].pc.InWait? ==> Runnable(s, true, t) >= 1
  {
    StartIsSound();
    RunsKeepInv(START, ops);
    var s := After(START, ops);
    assert Fine(s, true, [], t);
  }

  // ----- locks -----

  /** At most one thread is between the return of lock and its unlock, and a free lock keeps nobody waiting. */
  lemma LocksExclude(ops: seq<Op>, l: nat, t: Tid, u: Tid)
    requires CanRun(START, ops)
    ensures var s := After(START, ops);
            && (t < |s.threads| && u < |s.threads| && l in s.threads[t].held && l in s.threads[u].held ==> t == u)
            && (l < |s.locks| && s.locks[l].owner == None ==> s.locks[l].queue == [])
  {
    StartIsSound();
    RunsKeepInv(START, ops);
    var s := After(START, ops);
    assert Fine(s, !s.finished, [], t) && Fine(s, !s.finished, [], u);
    if l < |s.locks| {
      assert FreeMeansUnwanted(s.locks[l]);
    }
  }

  /** A thread's record changes under it only when it is resumed. */
  predicate KeptOrResumed(s: State, r: State, t: Tid)
    requires t < |s.threads|
  {
    && t < |r.threads|
    && (r.threads[t] == s.threads[t] || (r.running == t && r.threads[t] == Resume(s.threads[t])))
  }

  lemma BlockKeeps(s: State, t: Tid)
    requires Shaped(s) && t < |s.threads| && SomeReady(s)
    ensures KeptOrResumed(s, Block(s), t)
  {
  }

  lemma WakeKeeps(s: State, t: Tid)
    requires Shaped(s) && t < |s.threads| && (t in s.sleeping ==> s.threads[t].wakeTime > s.clock)
    ensures Wake(s).threads[t] == s.threads[t]
  {
    var due := (t: Tid) => t < |s.threads| && s.threads[t].wakeTime <= s.clock;
    OthersAreLeftAlone(s.(sleeping := Only(s.sleeping, (t: Tid) => !due(t))), Only(s.sleeping, due), Awake, t);
  }

  lemma ChargeKeeps(s: State, t: Tid)
    requires Shaped(s) && t < |s.threads| && t != s.running
    ensures KeptOrResumed(s, Charge(s), t)
  {
    hide Recalc, BestFrom, Block;
    var th := s.threads[s.running];
    if th.quantum - 1 <= 0 {
      BlockKeeps(Expire(WithThread(s, s.running, Recalc(th.(quantum := 0))), s.running), t);
    }
  }

  lemma ExitKeeps(s: State, t: Tid)
    requires Shaped(s) && t < |s.threads| && t != s.running && (t in s.joining ==> s.threads[t].joinTid != s.running)
    ensures KeptOrResumed(s, Exit(s), t)
  {
    hide Only, Best, Block;
    var joins := (t: Tid) => t < |s.threads| && s.threads[t].joinTid == s.running;
    var freed := ActivateAll(s.(joining := Only(s.joining, (t: Tid) => !joins(t))), Only(s.joining, joins),
                             (th: Thread) => th.(pc := Ready));
    OthersAreLeftAlone(s.(joining := Only(s.joining, (t: Tid) => !joins(t))), Only(s.joining, joins),
                       (th: Thread) => th.(pc := Ready), t);
    var zombie := Only(s.joining, joins) == [];
    var gone := if zombie then Leave(freed, Done).(zombies := freed.zombies + [s.running])
                else Leave(freed, Done).(dead := freed.dead + [s.running]);
    if SomeReady(gone) {
      BlockKeeps(gone, t);
    }
  }

  lemma DispatchKeeps(s: State, t: Tid)
    requires Shaped(s) && t < |s.threads| && !Empty(s.active)
    ensures KeptOrResumed(s, Dispatch(s), t)
  {
  }

  lemma GivenUpKeeps(s: State, l: nat, t: Tid)
    requires Shaped(s) && l < |s.locks| && t < |s.threads| && t != s.running
    ensures |GivenUp(s, l).threads| == |s.threads| && GivenUp(s, l).threads[t] == s.threads[t]
  {
  }

  lemma ReleaseKeeps(s: State, l: nat, t: Tid)
    requires Shaped(s) && t < |s.threads| && t != s.running && l < |s.locks|
    ensures KeptOrResumed(s, Release(s, l), t)
  {
    hide Best, Insert, GivenUp, Dispatch;
    GivenUpKeeps(s, l, t);
    if Owns(s, l) && Outranked(s, l) {
      DispatchKeeps(Activate(GivenUp(s, l), s.running), t);
    }
  }

  lemma AcquireKeeps(s: State, l: nat, t: Tid)
    requires Shaped(s) && t < |s.threads| && t != s.running && l < |s.locks|
    requires s.locks[l].owner.Some? ==> SomeReady(s)
    ensures KeptOrResumed(s, Acquire(s, l), t)
  {
    hide Recalc, Best, Block;
    if s.locks[l].owner.Some? {
      var waiting := WithThread(s, s.running, Recalc(s.threads[s.running]).(pc := Locking(l)));
      BlockKeeps(WithLock(waiting, l, s.locks[l].(queue := s.locks[l].queue + [s.running])), t);
    }
  }

  lemma WaitKeeps(s: State, l: nat, t: Tid)
    requires Shaped(s) && t < |s.threads| && t != s.running && l < |s.locks|
    requires Owns(s, l) && s.locks[l].queue == [] ==> SomeReady(s)
    ensures KeptOrResumed(s, Wait(s, l), t)
  {
    hide Recalc, Best, Block, GivenUp, Release;
    if Owns(s, l) {
      var parked := Park(s, l);
      ReleaseKeeps(parked, l, t);
      GivenUpKeeps(parked, l, t);
      if !Outranked(parked, l) {
        var up := GivenUp(parked, l);
        BlockKeeps(Leave(up, Waiting(up.threads[up.running].pc.l)), t);
      }
    }
  }

  lemma OtherStepsKeep(s: State, op: Op, t: Tid)
    requires Enabled(s, op) && t < |s.threads| && t != s.running
    requires op.CreateOp? || op.NiceOp? || op.YieldOp? || op.JoinOp? || op.SleepOp? || op.NewLockOp? || op.FinishWaitOp?
    ensures KeptOrResumed(s, Next(s, op), t)
  {
    hide Recalc, Best, Only, Insert, SleepTicks, JoinBlocks, Visible;
  }

  /** A step of another thread leaves a thread as it is, or resumes it, except a tick at which it is due to
      wake and the exit of the thread that it joins. */
  lemma StepsKeepOthers(s: State, op: Op, t: Tid)
    requires Enabled(s, op) && t < |s.threads| && t != s.running
    requires t in s.sleeping && op.TickOp? ==> s.threads[t].wakeTime > s.clock + 1
    requires t in s.joining && op.ExitOp? ==> s.threads[t].joinTid != s.running
    ensures KeptOrResumed(s, Next(s, op), t)
  {
    hide Charge, Wake, Exit, Acquire, Release, Wait;
    match op
    case TickOp =>
      WakeKeeps(s.(clock := s.clock + 1), t);
      ChargeKeeps(Wake(s.(clock := s.clock + 1)), t);
    case ExitOp => ExitKeeps(s, t);
    case AcquireOp(l) => AcquireKeeps(s, l, t);
    case ReleaseOp(l) => ReleaseKeeps(s, l, t);
    case WaitOp(l) => WaitKeeps(s, l, t);
    case SignalOp(l) =>
    case _ => OtherStepsKeep(s, op, t);
  }

  lemma WaitersAreElsewhere(s: State, t: Tid)
    requires Sound(s, true, []) && t < |s.threads|
    requires s.threads[t].pc.Locking? || s.threads[t].pc.Waiting? || s.threads[t].pc.InWait?
    ensures t !in s.sleeping && t !in s.joining && (t == s.running ==> s.threads[t].pc.InWait?)
  {
    assert Fine(s, true, [], t);
    QueuedElsewhere(s, t);
    if t in s.sleeping || t in s.joining {
      SleeperOrJoiner(s, t);
    }
  }

  /** lock and monitor_wait return only to the owner of the lock: also after the preemption inside the
      unlock of monitor_wait, where the thread may already have been handed the lock back. */
  lemma ReturnsAsOwner(s: State, op: Op, t: Tid, l: nat)
    requires Inv(s) && Enabled(s, op) && t < |s.threads| && s.threads[t].pc in {Locking(l), Waiting(l), InWait(l)}
    requires t < |Next(s, op).threads| && Next(s, op).threads[t].pc == Ready
    ensures Next(s, op).running == t && Owned(Next(s, op), l, t) && l in Next(s, op).threads[t].held
  {
    hide Sound, Next, Enabled;
    Unfinished(s, op);
    WaitersAreElsewhere(s, t);
    if t == s.running {
      FinishingKeeps(s, op, l);
    } else {
      StepsKeepOthers(s, op, t);
    }
    StepKeepsInv(s, op);
    HoldersOwn(Next(s, op), t, l);
  }

  lemma Unfinished(s: State, op: Op)
    requires Inv(s) && Enabled(s, op)
    ensures Sound(s, true, []) && !s.finished
  {
    hide Sound;
  }

  lemma FinishingKeeps(s: State, op: Op, l: nat)
    requires Enabled(s, op) && s.threads[s.running].pc == InWait(l) && s.running < |Next(s, op).threads|
    ensures Next(s, op).threads[s.running].pc == Ready ==>
              Next(s, op).running == s.running && l in Next(s, op).threads[s.running].held
  {
    hide Block;
    BlockKeeps(Leave(s, Waiting(l)), s.running);
  }

  lemma HoldersOwn(s: State, t: Tid, l: nat)
    requires Inv(s) && t < |s.threads| && l in s.threads[t].held
    ensures Owned(s, l, t)
  {
    assert Fine(s, !s.finished, [], t);
  }

  // ----- order of hand-over -----

  /** What one step can do to a lock: take it when it is free, join its queue at the end (from outside, or
      from the head of the waiters), free it when nobody queues, or hand it to the head of the queue.
      Nobody overtakes. */
  predicate LockStep(k: Lock, k': Lock, me: Tid) {
    || k' == k
    || (k.owner == None && k' == k.(owner := Some(me)))
    || (k.owner.Some? && k' == k.(queue := k.queue + [me]))
    || (k.owner == Some(me) && k.waiters != [] &&
        k' == k.(queue := k.queue + [First(k.waiters)], waiters := Rest(k.waiters)))
    || (k.owner == Some(me) && (k'.waiters == k.waiters || k'.waiters == k.waiters + [me]) &&
        if k.queue == [] then k'.owner == None && k'.queue == []
        else k'.owner == Some(First(k.queue)) && k'.queue == Rest(k.queue))
  }

  lemma LocksInOrder(s: State, op: Op, l: nat)
    requires Enabled(s, op) && l < |s.locks|
    ensures l < |Next(s, op).locks| && LockStep(s.locks[l], Next(s, op).locks[l], s.running)
  {
    hide Enabled, Next;
    LocksExactly(s, op, l);
  }

  /** The owner gives the lock up: to the head of the queue, if there is one. */
  predicate PassedOn(k: Lock, k': Lock) {
    if k.queue == [] then k' == Lock(None, [], k.waiters)
    else k' == Lock(Some(k.queue[0]), k.queue[1..], k.waiters)
  }

  /** Which of these changes each operation makes: none can stand still. */
  predicate LockEffect(op: Op, l: nat, k: Lock, k': Lock, me: Tid) {
    match op
    case AcquireOp(m) =>
      if m != l then k' == k
      else if k.owner == None then k' == Lock(Some(me), k.queue, k.waiters)
      else k' == Lock(k.owner, k.queue + [me], k.waiters)
    case ReleaseOp(m) =>
      if m != l || k.owner != Some(me) then k' == k else PassedOn(k, k')
    case WaitOp(m) =>
      if m != l || k.owner != Some(me) then k' == k else PassedOn(Lock(k.owner, k.queue, k.waiters + [me]), k')
    case SignalOp(m) =>
      if m != l || k.owner != Some(me) || k.waiters == [] then k' == k
      else k' == Lock(k.owner, k.queue + [k.waiters[0]], k.waiters[1..])
    case _ => k' == k
  }

  lemma LocksExactly(s: State, op: Op, l: nat)
    requires Enabled(s, op) && l < |s.locks|
    ensures l < |Next(s, op).locks| && LockEffect(op, l, s.locks[l], Next(s, op).locks[l], s.running)
  {
    hide Recalc, Best, Only, Insert, SleepTicks, JoinBlocks, Visible, Charge, Wake, Exit, Acquire, Release, Wait;
    match op
    case TickOp => ChargeLocks(Wake(s.(clock := s.clock + 1)));
    case ExitOp => ExitLocks(s);
    case AcquireOp(m) => AcquireLocks(s, m);
    case ReleaseOp(m) => ReleaseLocks(s, m);
    case WaitOp(m) => WaitLocks(s, m);
    case _ =>
  }

  lemma WakeLocks(s: State)
    requires Shaped(s)
    ensures Wake(s).locks == s.locks
  {
  }

  lemma ChargeLocks(s: State)
    requires Shaped(s)
    ensures Charge(s).locks == s.locks
  {
  }

  lemma ExitLocks(s: State)
    requires Shaped(s)
    ensures Exit(s).locks == s.locks
  {
    hide Only, Best;
  }

  lemma AcquireLocks(s: State, m: nat)
    requires Shaped(s) && m < |s.locks| && (s.locks[m].owner.Some? ==> SomeReady(s))
    ensures |Acquire(s, m).locks| == |s.locks|
    ensures forall l | 0 <= l < |s.locks| && l != m :: Acquire(s, m).locks[l] == s.locks[l]
    ensures LockEffect(AcquireOp(m), m, s.locks[m], Acquire(s, m).locks[m], s.running)
  {
    hide Recalc, Best;
  }

  lemma GivenUpLocks(s: State, m: nat)
    requires Shaped(s) && Owns(s, m)
    ensures |GivenUp(s, m).locks| == |s.locks|
    ensures forall l | 0 <= l < |s.locks| && l != m :: GivenUp(s, m).locks[l] == s.locks[l]
    ensures PassedOn(s.locks[m], GivenUp(s, m).locks[m])
  {
    hide Best;
  }

  lemma ReleaseLocks(s: State, m: nat)
    requires Shaped(s) && m < |s.locks|
    ensures |Release(s, m).locks| == |s.locks|
    ensures forall l | 0 <= l < |s.locks| && l != m :: Release(s, m).locks[l] == s.locks[l]
    ensures LockEffect(ReleaseOp(m), m, s.locks[m], Release(s, m).locks[m], s.running)
  {
    hide Best, GivenUp;
    if Owns(s, m) {
      GivenUpLocks(s, m);
    }
  }

  lemma WaitLocks(s: State, m: nat)
    requires Shaped(s) && m < |s.locks| && (Owns(s, m) && s.locks[m].queue == [] ==> SomeReady(s))
    ensures |Wait(s, m).locks| == |s.locks|
    ensures forall l | 0 <= l < |s.locks| && l != m :: Wait(s, m).locks[l] == s.locks[l]
    ensures LockEffect(WaitOp(m), m, s.locks[m], Wait(s, m).locks[m], s.running)
  {
    hide Best, GivenUp, Recalc;
    if Owns(s, m) {
      GivenUpLocks(Park(s, m), m);
    }
  }

  /** Threads that queue for a lock get it in the order in which they queued, over any run. */
  lemma {:induction false} NoOvertaking(s: State, ops: seq<Op>, l: nat, i: nat, j: nat) returns (n: nat)
    requires Inv(s) && CanRun(s, ops) && l < |s.locks| && i < j < |s.locks[l].queue|
    requires s.locks[l].owner != Some(s.locks[l].queue[j])
    requires Owned(After(s, ops), l, s.locks[l].queue[j])
    ensures n <= |ops| && CanRun(s, ops[..n]) && Owned(After(s, ops[..n]), l, s.locks[l].queue[i])
    decreases |ops|
  {
    hide Inv, Enabled, Next;
    var r := Next(s, ops[0]);
    StepKeepsInv(s, ops[0]);
    LocksInOrder(s, ops[0], l);
    if r.locks[l].owner == Some(s.locks[l].queue[i]) {
      n := 1;
      assert ops[..1] == [ops[0]] && [ops[0]][1..] == [];
    } else {
      var shift := OneStepInQueue(s, ops[0], l, i, j);
      n := NoOvertaking(r, ops[1..], l, i - shift, j - shift);
      n := n + 1;
      assert ops[..n][0] == ops[0] && ops[..n][1..] == ops[1..][..n - 1];
    }
  }

  lemma OneStepInQueue(s: State, op: Op, l: nat, i: nat, j: nat) returns (shift: nat)
    requires Inv(s) && Enabled(s, op) && l < |s.locks| && i < j < |s.locks[l].queue|
    requires s.locks[l].owner != Some(s.locks[l].queue[j])
    requires l < |Next(s, op).locks| ==> Next(s, op).locks[l].owner != Some(s.locks[l].queue[i])
    ensures l < |Next(s, op).locks| && shift <= i
    ensures var k, k' := s.locks[l], Next(s, op).locks[l];
            && j - shift < |k'.queue| && k'.queue[i - shift] == k.queue[i] && k'.queue[j - shift] == k.queue[j]
            && k'.owner != Some(k.queue[j])
  {
    hide Inv, Enabled, Next;
    var k := s.locks[l];
    LocksInOrder(s, op, l);
    QueueIsDistinct(s, l, 0, j);
    WantedIsOwned(s, l);
    var k' := Next(s, op).locks[l];
    shift := if k'.owner == Some(First(k.queue)) && k'.queue == Rest(k.queue) then 1 else 0;
  }

  lemma QueueIsDistinct(s: State, l: nat, i: nat, j: nat)
    requires Inv(s) && l < |s.locks| && i < j < |s.locks[l].queue|
    ensures s.locks[l].queue[i] != s.locks[l].queue[j]
  {
    var q := s.locks[l].queue;
    assert Fine(s, !s.finished, [], q[i]);
    LockCountHas(s.locks, l, q[i]);
    CountedTwice(q, i, j);
  }

  lemma WantedIsOwned(s: State, l: nat)
    requires Inv(s) && l < |s.locks| && s.locks[l].queue != []
    ensures s.locks[l].owner.Some?
  {
    assert FreeMeansUnwanted(s.locks[l]);
  }

  // ----- priorities -----

  predicate SameBases(s: State, r: State) {
    |s.threads| <= |r.threads| && forall t | 0 <= t < |s.threads| :: r.threads[t].base == s.threads[t].base
  }

  lemma BlockBases(s: State)
    requires Shaped(s) && SomeReady(s)
    ensures SameBases(s, Block(s))
  {
    hide Best;
  }

  lemma {:induction false} ActivateAllBases(s: State, q: seq<Tid>, wake: Thread -> Thread)
    requires Shaped(s) && Below(q, |s.threads|) && forall th: Thread :: wake(th).base == th.base
    ensures SameBases(s, ActivateAll(s, q, wake))
    decreases |q|
  {
    if q != [] {
      ActivateAllBases(Activate(WithThread(s, First(q), wake(s.threads[First(q)])), First(q)), Rest(q), wake);
    }
  }

  lemma WakeBases(s: State)
    requires Shaped(s)
    ensures SameBases(s, Wake(s))
  {
    hide Best, Only;
    var due := (t: Tid) => t < |s.threads| && s.threads[t].wakeTime <= s.clock;
    ActivateAllBases(s.(sleeping := Only(s.sleeping, (t: Tid) => !due(t))), Only(s.sleeping, due), Awake);
  }

  lemma ChargeBases(s: State)
    requires Shaped(s)
    ensures SameBases(s, Charge(s))
  {
    hide Best, Block;
    var th := s.threads[s.running];
    if th.quantum - 1 <= 0 {
      BlockBases(Expire(WithThread(s, s.running, Recalc(th.(quantum := 0))), s.running));
    }
  }

  lemma ExitBases(s: State)
    requires Shaped(s)
    ensures SameBases(s, Exit(s))
  {
    hide Best, Only, Die;
    var joins := (t: Tid) => t < |s.threads| && s.threads[t].joinTid == s.running;
    var mid, wake := s.(joining := Only(s.joining, (t: Tid) => !joins(t))), (th: Thread) => th.(pc := Ready);
    ActivateAllBases(mid, Only(s.joining, joins), wake);
    DyingBases(ActivateAll(mid, Only(s.joining, joins), wake), Only(s.joining, joins) == []);
  }

  lemma DyingBases(s: State, zombie: bool)
    requires Shaped(s)
    ensures SameBases(s, Die(s, zombie))
  {
    hide Best, Block;
    var gone := if zombie then Leave(s, Done).(zombies := s.zombies + [s.running])
                else Leave(s, Done).(dead := s.dead + [s.running]);
    if SomeReady(gone) {
      BlockBases(gone);
    }
  }

  lemma GivenUpBases(s: State, l: nat)
    requires Shaped(s) && l < |s.locks|
    ensures SameBases(s, GivenUp(s, l))
  {
    hide Best;
  }

  lemma ReleaseBases(s: State, l: nat)
    requires Shaped(s)
    ensures SameBases(s, Release(s, l))
  {
    hide Best, GivenUp;
    if Owns(s, l) {
      GivenUpBases(s, l);
    }
  }

  lemma WaitBases(s: State, l: nat)
    requires Shaped(s) && l < |s.locks| && (Owns(s, l) && s.locks[l].queue == [] ==> SomeReady(s))
    ensures SameBases(s, Wait(s, l))
  {
    hide Best, Block, GivenUp, Release;
    if Owns(s, l) {
      var parked := Park(s, l);
      if Outranked(parked, l) {
        ReleaseBases(parked, l);
      } else {
        GivenUpBases(parked, l);
        var up := GivenUp(parked, l);
        BlockBases(Leave(up, Waiting(up.threads[up.running].pc.l)));
      }
    }
  }

  lemma AcquireBases(s: State, l: nat)
    requires Shaped(s) && l < |s.locks| && (s.locks[l].owner.Some? ==> SomeReady(s))
    ensures SameBases(s, Acquire(s, l))
  {
    hide Best, Block;
    if s.locks[l].owner.Some? {
      var waiting := WithThread(s, s.running, Recalc(s.threads[s.running]).(pc := Locking(l)));
      BlockBases(WithLock(waiting, l, s.locks[l].(queue := s.locks[l].queue + [s.running])));
    }
  }

  lemma OtherBases(s: State, op: Op)
    requires Enabled(s, op)
    requires op.CreateOp? || op.NiceOp? || op.YieldOp? || op.NewLockOp? || op.SignalOp?
    ensures SameBases(s, Next(s, op))
  {
    hide Best, Insert;
  }

  lemma BlockingBases(s: State, op: Op)
    requires Enabled(s, op) && (op.JoinOp? || op.SleepOp? || op.FinishWaitOp?)
    ensures SameBases(s, Next(s, op))
  {
    hide Best, Only, SleepTicks, Insert;
  }

  lemma BasesAreFixed(s: State, op: Op)
    requires Enabled(s, op)
    ensures SameBases(s, Next(s, op))
  {
    hide Charge, Wake, Exit, Wait, Acquire, Release;
    match op
    case TickOp =>
      WakeBases(s.(clock := s.clock + 1));
      ChargeBases(Wake(s.(clock := s.clock + 1)));
    case ExitOp => ExitBases(s);
    case WaitOp(l) => WaitBases(s, l);
    case AcquireOp(l) => AcquireBases(s, l);
    case ReleaseOp(l) => ReleaseBases(s, l);
    case JoinOp(_) => BlockingBases(s, op);
    case SleepOp(_) => BlockingBases(s, op);
    case FinishWaitOp => BlockingBases(s, op);
    case _ => OtherBases(s, op);
  }

  /** A static thread keeps the priority it was created with for ever; a dynamic one stays dynamic,
      with a quantum to use. */
  lemma {:induction false} PrioritiesKeepTheirKind(s: State, ops: seq<Op>, t: Tid)
    requires Inv(s) && CanRun(s, ops) && t < |s.threads|
    ensures t < |After(s, ops).threads|
    ensures var th := After(s, ops).threads[t];
            if s.threads[t].priority <= STATIC_MAX then th.priority == s.threads[t].priority && 0 <= th.quantum <= QUANTUM_BASE
            else DYN_MIN <= th.priority < NUM_PRIORITIES && 1 <= th.quantum <= 9
    decreases |ops|
  {
    hide Runnable, Placed, Conserved;
    if ops != [] {
      StepKeepsInv(s, ops[0]);
      BasesAreFixed(s, ops[0]);
      assert Fine(Next(s, ops[0]), !Next(s, ops[0]).finished, [], t);
      PrioritiesKeepTheirKind(Next(s, ops[0]), ops[1..], t);
    }
    assert Fine(s, !s.finished, [], t);
  }

  /** What sthread_nice forecasts is the priority after giving up the processor now, for a dynamic
      thread and for no other. */
  lemma NiceForecastsYield(s: State, nice: int)
    requires Inv(s) && Enabled(s, NiceOp(nice))
    ensures var (r, forecast) := Nice(s, nice);
            forecast == Recalc(r.threads[r.running]).priority <==> s.threads[s.running].base > STATIC_MAX
  {
    assert Fine(s, true, [], s.running);
  }

  /** Its comment promises the priority after the quantum has run out. That holds exactly when the unused
      quantum makes no difference, be it because the range cuts both results off at the same end. */
  lemma NiceForecastsExhaustion(s: State, nice: int)
    requires Inv(s) && Enabled(s, NiceOp(nice))
    ensures var (r, forecast) := Nice(s, nice);
            var th := r.threads[r.running];
            forecast == Recalc(th.(quantum := 0)).priority <==>
              th.base > STATIC_MAX && (th.base + th.nice <= DYN_MIN || th.base - th.quantum + th.nice >= 14)
  {
    assert Fine(s, true, [], s.running);
  }

  // ----- join -----

  /** A join blocks on every thread that has not ended, except one that waits for a lock or a monitor
      and has no entry in a run queue: the search does not look there. */
  lemma JoinSees(s: State, t: Tid)
    requires Inv(s) && !s.finished && t < |s.threads|
    ensures Visible(s, t) <==>
            s.threads[t].pc != Done && (Runnable(s, true, t) > 0 || !(s.threads[t].pc.Locking? || s.threads[t].pc.Waiting?))
  {
    assert Fine(s, true, [], t);
    if RqCount(s.active, t) > 0 {
      CountedIsQueued(s.active, t);
    }
    if RqCount(s.expired, t) > 0 {
      CountedIsQueued(s.expired, t);
    }
    forall p: Priority
      ensures t in s.active[p] ==> RqCount(s.active, t) > 0
      ensures t in s.expired[p] ==> RqCount(s.expired, t) > 0
    {
      RqCountHas(s.active, p, t);
      RqCountHas(s.expired, p, t);
    }
    QueuedElsewhere(s, t);
  }

  // ----- runs that show it -----

  const MAIN: Thread := Thread(7, 7, QUANTUM_BASE, 0, 0, 0, Ready, {})
  const STATIC: Thread := Thread(3, 3, QUANTUM_BASE, 0, 0, 0, Ready, {})

  /** One thread in one queue. */
  function Alone(p: Priority, t: Tid): RunQueue {
    seq(NUM_PRIORITIES, i => if i == p then [t] else [])
  }

  lemma BestOfOne(p: Priority, t: Tid)
    ensures Best(Alone(p, t)) == p && Best(NoThreads()) == -1
  {
    assert Alone(p, t)[p] == [t];
    assert forall q: Priority :: q != p ==> Alone(p, t)[q] == [];
    assert forall q: Priority :: NoThreads()[q] == [];
  }

  /** After a static thread has been created. */
  function Created(locks: seq<Lock>, main: Thread): State {
    State([main, STATIC], 0, Alone(3, 1), NoThreads(), [], [], [], [], locks, 1, false)
  }

  function NoThreads(): RunQueue {
    seq(NUM_PRIORITIES, _ => [])
  }

  lemma CreateStatic()
    ensures Enabled(START, CreateOp(3)) && Next(START, CreateOp(3)) == Created([], MAIN)
  {
    assert NO_THREADS == NoThreads();
    assert NO_THREADS[3] + [1] == [1];
    assert Insert(NO_THREADS, 3, 1) == Alone(3, 1);
    assert [MAIN] + [STATIC] == [MAIN, STATIC];
  }

  /** The next tick prefers it. */
  lemma StaticTakesOver(locks: seq<Lock>, main: Thread)
    requires main.priority == 7 && main.quantum == QUANTUM_BASE && main.pc == Ready && |locks| <= 1
    requires forall l | 0 <= l < |locks| :: locks[l].queue == [] && locks[l].waiters == []
    ensures Enabled(Created(locks, main), TickOp)
    ensures Next(Created(locks, main), TickOp) ==
            State([main.(quantum := 4), STATIC], 1, Alone(7, 0), NoThreads(), [], [], [], [], locks, 2, false)
  {
    BestOfOne(3, 1);
    var s := Created(locks, main);
    assert forall p: Priority :: p != 3 ==> s.active[p] == [];
    var w := s.(clock := 2);
    assert Wake(w) == w;
    var charged := WithThread(w, 0, main.(quantum := 4));
    assert charged.threads == [main.(quantum := 4), STATIC];
    BackAndForth(charged);
  }

  lemma BackAndForth(s: State)
    requires |s.threads| == 2 && s.threads[0].priority == 7 && s.threads[1] == STATIC && s.running == 0
    requires Shaped(s) && s.active == Alone(3, 1)
    ensures Dispatch(Activate(s, 0)) == s.(running := 1, active := Alone(7, 0))
  {
    var back := Activate(s, 0);
    assert s.active[7] + [0] == [0];
    assert back.active == Alone(3, 1)[7 := [0]];
    assert Best(back.active) == 3 by {
      assert back.active[3] == [1];
      assert forall q: Priority | q < 3 :: back.active[q] == [];
    }
    assert Rest([1]) == [];
    assert back.active[3 := []] == Alone(7, 0);
    assert back.threads[1 := Resume(STATIC)] == back.threads;
  }

  /** The forecast for a static thread is not its priority after a yield. */
  lemma NiceMisleadsStatic()
    ensures var ops := [CreateOp(3), TickOp];
            CanRun(START, ops) &&
            var s := After(START, ops);
            Enabled(s, NiceOp(0)) && Nice(s, 0).1 == 5 && Recalc(Nice(s, 0).0.threads[s.running]).priority == 3
  {
    var s1 := Created([], MAIN);
    CreateStatic();
    StaticTakesOver([], MAIN);
    assert CanRun(s1, [TickOp]) && After(s1, [TickOp]) == Tick(s1) by {
      assert [TickOp][1..] == [];
    }
    assert [CreateOp(3), TickOp][1..] == [TickOp];
  }

  /** Nor is it right for the main thread's priority once its quantum has run out. */
  lemma NiceMisleadsMain()
    ensures Enabled(START, NiceOp(0)) && Nice(START, 0).1 == 5
    ensures Recalc(Nice(START, 0).0.threads[0].(quantum := 0)).priority == 7
  {
  }

  /** The main thread takes a mutex, loses the processor to the static thread, and gets it back when that
      one waits for the mutex. */
  const SCENE: seq<Op> := [CreateOp(3), NewLockOp, AcquireOp(0), TickOp, AcquireOp(0)]
  const HOLDER: Thread := MAIN.(held := {0})
  const WAITING: State :=
    State([HOLDER.(quantum := 4), STATIC.(pc := Locking(0))], 0, NoThreads(), NoThreads(), [], [], [], [],
          [Lock(Some(0), [1], [])], 2, false)

  lemma SceneRuns()
    ensures CanRun(START, SCENE) && After(START, SCENE) == WAITING
  {
    hide Enabled, Next, Tick;
    var s1, s3 := Created([], MAIN), Created([Lock(Some(0), [], [])], HOLDER);
    var s2 := s1.(locks := [Lock(None, [], [])]);
    CreateStatic();
    FirstAcquire();
    StaticTakesOver(s3.locks, HOLDER);
    var s4 := Next(s3, TickOp);
    LastAcquire(s4);
    Chain(START, CreateOp(3), s1, NewLockOp, s2, AcquireOp(0), s3, TickOp, s4, AcquireOp(0), WAITING);
  }

  /** A thread that waits for a mutex is reported as not found: nothing changes, and nobody waits. */
  lemma JoinMissesWaiter()
    ensures CanRun(START, SCENE) && After(START, SCENE) == WAITING
    ensures WAITING.threads[1].pc == Locking(0) && Runnable(WAITING, true, 1) == 0
    ensures Enabled(WAITING, JoinOp(1)) && 1 !in WAITING.zombies && !Visible(WAITING, 1)
    ensures Next(WAITING, JoinOp(1)) == WAITING
  {
    SceneRuns();
    WaiterUnseen();
  }

  lemma WaiterUnseen()
    ensures Runnable(WAITING, true, 1) == 0
    ensures Enabled(WAITING, JoinOp(1)) && !Visible(WAITING, 1) && Next(WAITING, JoinOp(1)) == WAITING
  {
    hide Tick, Exit, Wait, Acquire, Release, Yield, Signal, FinishWait, Block, SomeReady, Best, BestFrom;
    NobodyQueued(NoThreads(), 1);
  }

  lemma FirstAcquire()
    ensures var s1 := Created([], MAIN);
            Enabled(s1, NewLockOp) && Next(s1, NewLockOp) == Created([Lock(None, [], [])], MAIN)
    ensures var s2 := Created([Lock(None, [], [])], MAIN);
            Enabled(s2, AcquireOp(0)) && Next(s2, AcquireOp(0)) == Created([Lock(Some(0), [], [])], HOLDER)
  {
    assert forall p: Priority :: p != 3 ==> Alone(3, 1)[p] == [];
    assert MAIN.held + {0} == {0};
    assert [MAIN, STATIC][0 := HOLDER] == [HOLDER, STATIC];
    assert [Lock(None, [], [])][0 := Lock(Some(0), [], [])] == [Lock(Some(0), [], [])];
  }

  lemma LastAcquire(s: State)
    requires s == State([HOLDER.(quantum := 4), STATIC], 1, Alone(7, 0), NoThreads(), [], [], [], [],
                        [Lock(Some(0), [], [])], 2, false)
    ensures Enabled(s, AcquireOp(0)) && Next(s, AcquireOp(0)) == WAITING
  {
    BestOfOne(7, 0);
    assert forall p: Priority :: p != 7 ==> s.active[p] == [];
    var blocked := WithLock(WithThread(s, 1, STATIC.(pc := Locking(0))), 0, Lock(Some(0), [1], []));
    assert blocked.threads == WAITING.threads && blocked.locks == WAITING.locks;
    assert [] + [1] == [1] && Recalc(STATIC) == STATIC;
    assert Rest([0]) == [] && Alone(7, 0)[7 := []] == NoThreads();
    assert WAITING.threads[0 := Resume(WAITING.threads[0])] == WAITING.threads;
    assert Dispatch(blocked) == WAITING;
  }

  lemma Chain(s0: State, a: Op, s1: State, b: Op, s2: State, c: Op, s3: State, d: Op, s4: State, e: Op, s5: State)
    requires Enabled(s0, a) && Next(s0, a) == s1 && Enabled(s1, b) && Next(s1, b) == s2
    requires Enabled(s2, c) && Next(s2, c) == s3 && Enabled(s3, d) && Next(s3, d) == s4
    requires Enabled(s4, e) && Next(s4, e) == s5
    ensures CanRun(s0, [a, b, c, d, e]) && After(s0, [a, b, c, d, e]) == s5
  {
    hide Enabled, Next;
    assert [e][1..] == [] && CanRun(s5, []);
    assert CanRun(s4, [e]) && After(s4, [e]) == s5;
    assert [d, e][1..] == [e];
    assert CanRun(s3, [d, e]) && After(s3, [d, e]) == s5;
    assert [c, d, e][1..] == [d, e];
    assert CanRun(s2, [c, d, e]) && After(s2, [c, d, e]) == s5;
    assert [b, c, d, e][1..] == [c, d, e];
    assert CanRun(s1, [b, c, d, e]) && After(s1, [b, c, d, e]) == s5;
    assert [a, b, c, d, e][1..] == [b, c, d, e];
  }
}
