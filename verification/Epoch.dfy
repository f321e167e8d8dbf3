/** Clock ticks alone: a measure that counts down to the end of the epoch, and who has run by then. */
module Epoch {
  import opened Scheduling
  import opened Conservation
  import opened Safety

  // ----- the measure -----

  /** Ticks that a thread can still use up in this epoch. */
  function Cost(t: Thread): nat {
    if t.quantum < 1 then 1 else t.quantum
  }

  function QueueCost(threads: seq<Thread>, q: seq<Tid>): nat {
    if q == [] then 0 else (if q[0] < |threads| then Cost(threads[q[0]]) else 0) + QueueCost(threads, q[1..])
  }

  function RqCost(threads: seq<Thread>, rq: seq<seq<Tid>>): nat {
    if rq == [] then 0 else QueueCost(threads, rq[0]) + RqCost(threads, rq[1..])
  }

  /** The running thread and the active queues at what is left of their quanta, sleepers at a fresh one. */
  function Left(s: State): nat
    requires Shaped(s)
  {
    Cost(s.threads[s.running]) + RqCost(s.threads, s.active) + QUANTUM_BASE * |s.sleeping|
  }

  /** This tick ends the epoch. */
  predicate Swaps(s: State)
    requires Shaped(s)
  {
    var w := Wake(s.(clock := s.clock + 1));
    w.threads[w.running].quantum - 1 <= 0 && Empty(w.active)
  }

  // ----- arithmetic of the measure -----

  lemma {:induction false} QueueCostConcat(threads: seq<Thread>, a: seq<Tid>, b: seq<Tid>)
    ensures QueueCost(threads, a + b) == QueueCost(threads, a) + QueueCost(threads, b)
  {
    if a == [] {
      assert a + b == b;
    } else {
      assert (a + b)[1..] == a[1..] + b;
      QueueCostConcat(threads, a[1..], b);
    }
  }

  lemma {:induction false} RqCostUpdate(threads: seq<Thread>, rq: seq<seq<Tid>>, p: nat, q: seq<Tid>)
    requires p < |rq|
    ensures RqCost(threads, rq[p := q]) + QueueCost(threads, rq[p]) == RqCost(threads, rq) + QueueCost(threads, q)
  {
    if p == 0 {
      assert rq[p := q][1..] == rq[1..];
    } else {
      assert rq[p := q][1..] == rq[1..][p - 1 := q];
      RqCostUpdate(threads, rq[1..], p - 1, q);
    }
  }

  lemma InsertCosts(threads: seq<Thread>, rq: RunQueue, p: Priority, t: Tid)
    requires t < |threads|
    ensures RqCost(threads, Insert(rq, p, t)) == RqCost(threads, rq) + Cost(threads[t])
  {
    RqCostUpdate(threads, rq, p, rq[p] + [t]);
    QueueCostConcat(threads, rq[p], [t]);
    assert QueueCost(threads, [t]) == Cost(threads[t]);
  }

  lemma TakeSaves(threads: seq<Thread>, rq: RunQueue, p: Priority)
    requires rq[p] != [] && First(rq[p]) < |threads|
    ensures RqCost(threads, rq) == RqCost(threads, rq[p := Rest(rq[p])]) + Cost(threads[First(rq[p])])
  {
    RqCostUpdate(threads, rq, p, Rest(rq[p]));
  }

  /** Only the quanta of queued threads matter. */
  lemma {:induction false} QueueCostFrame(a: seq<Thread>, b: seq<Thread>, q: seq<Tid>)
    requires |a| == |b| && forall t | t in q && t < |a| :: a[t].quantum == b[t].quantum
    ensures QueueCost(a, q) == QueueCost(b, q)
  {
    if q != [] {
      QueueCostFrame(a, b, q[1..]);
    }
  }

  lemma {:induction false} RqCostFrame(a: seq<Thread>, b: seq<Thread>, rq: seq<seq<Tid>>)
    requires |a| == |b| && forall t | 0 <= t < |a| && RqCount(rq, t) > 0 :: a[t].quantum == b[t].quantum
    ensures RqCost(a, rq) == RqCost(b, rq)
  {
    if rq != [] {
      QueueCostFrame(a, b, rq[0]);
      RqCostFrame(a, b, rq[1..]);
    }
  }

  // ----- one tick -----

  lemma {:induction false} ActivateAllCosts(s: State, q: seq<Tid>)
    requires Shaped(s) && Below(q, |s.threads|) && Sound(s, true, q)
    requires forall t | t in q :: s.threads[t].pc in {Sleeping, Joining}
    ensures Left(ActivateAll(s, q, Awake)) == Left(s) + QUANTUM_BASE * |q|
    decreases |q|
  {
    hide Sound, Best, BestFrom;
    if q != [] {
      var t, rest := First(q), Rest(q);
      var th := Awake(s.threads[t]);
      var mid := Activate(WithThread(s, t, th), t);
      HandIsNotReady(s, q, t);
      WakingIsSound(s, t, rest, th);
      FirstIsOnce(s, q);
      RqCostFrame(s.threads, mid.threads, s.active);
      InsertCosts(mid.threads, s.active, th.priority, t);
      ActivateAllCosts(mid, rest);
    }
  }

  lemma HandIsNotReady(s: State, q: seq<Tid>, t: Tid)
    requires Sound(s, true, q) && t in q && t < |s.threads| && s.threads[t].pc in {Sleeping, Joining}
    ensures t != s.running && RqCount(s.active, t) == 0 && InRange(s.threads[t]) && InRange(Awake(s.threads[t]))
  {
    assert Fine(s, true, q, t);
  }

  lemma {:induction false} OnlyLengths(q: seq<Tid>, p: Tid -> bool)
    ensures |Only(q, p)| + |Only(q, (t: Tid) => !p(t))| == |q|
  {
    if q != [] {
      OnlyLengths(q[1..], p);
    }
  }

  lemma WakeCosts(s: State)
    requires Shaped(s) && Sound(s, true, []) && s.threads[s.running].pc == Ready
    ensures Left(Wake(s)) == Left(s)
  {
    hide Sound, Best, BestFrom;
    var due := (t: Tid) => t < |s.threads| && s.threads[t].wakeTime <= s.clock;
    var q, rest := Only(s.sleeping, due), Only(s.sleeping, (t: Tid) => !due(t));
    OnlySplit(s.sleeping, due);
    OnlyLengths(s.sleeping, due);
    SleepersInHand(s, rest, q);
    CanWake(s, q, Awake);
    ActivateAllCosts(s.(sleeping := rest), q);
  }

  lemma DispatchCosts(s: State)
    requires Shaped(s) && !Empty(s.active)
    ensures Left(Dispatch(s)) == RqCost(s.threads, s.active) + QUANTUM_BASE * |s.sleeping|
  {
    hide BestFrom;
    var p, r := Best(s.active), Dispatch(s);
    TakeSaves(s.threads, s.active, p);
    RqCostFrame(s.threads, r.threads, r.active);
  }

  lemma RunningIsNotQueued(s: State)
    requires Sound(s, true, []) && s.threads[s.running].pc == Ready
    ensures RqCount(s.active, s.running) == 0
  {
    assert Fine(s, true, [], s.running);
  }

  lemma CostOfTick(t: Thread)
    ensures if t.quantum - 1 > 0 then Cost(t.(quantum := t.quantum - 1)) == Cost(t) - 1 else Cost(t) == 1
  {
  }

  /** A tick that does not end the epoch uses up exactly one unit. */
  lemma ChargeCosts(s: State)
    requires Shaped(s) && Sound(s, true, []) && s.threads[s.running].pc == Ready
    requires !(s.threads[s.running].quantum - 1 <= 0 && Empty(s.active))
    ensures Left(Charge(s)) == Left(s) - 1
  {
    hide Sound, BestFrom, Best, Recalc, Dispatch, RqCost, RqCount, Cost;
    RunningIsNotQueued(s);
    CostOfTick(s.threads[s.running]);
    var t := s.threads[s.running];
    if t.quantum - 1 > 0 {
      var charged := WithThread(s, s.running, t.(quantum := t.quantum - 1));
      RqCostFrame(s.threads, charged.threads, s.active);
      if 0 <= Best(charged.active) < t.priority {
        InsertCosts(charged.threads, s.active, t.priority, s.running);
        DispatchCosts(Activate(charged, s.running));
      }
    } else {
      var out := Expire(WithThread(s, s.running, Recalc(t.(quantum := 0))), s.running);
      RqCostFrame(s.threads, out.threads, s.active);
      DispatchCosts(out);
    }
  }

  lemma TickCountsDown(s: State)
    requires Inv(s) && Enabled(s, TickOp) && !Swaps(s)
    ensures Left(Tick(s)) == Left(s) - 1 >= 1
  {
    hide Sound, Wake, Charge, RqCost;
    RunningIsReady(s);
    var later := s.(clock := s.clock + 1);
    SoundWhenever(s, s.clock + 1, s.finished, true, []);
    WakeCosts(later);
    WakeIsSound(later);
    ChargeCosts(Wake(later));
  }

  // ----- who is queued -----

  predicate IsActive(s: State, t: Tid) {
    RqCount(s.active, t) > 0
  }

  lemma {:induction false} ActivateAllKeepsQueued(s: State, q: seq<Tid>, wake: Thread -> Thread, t: Tid)
    requires Shaped(s) && Below(q, |s.threads|)
    ensures RqCount(ActivateAll(s, q, wake).active, t) >= RqCount(s.active, t)
    decreases |q|
  {
    if q != [] {
      var mid := WithThread(s, First(q), wake(s.threads[First(q)]));
      InsertAdds(s.active, mid.threads[First(q)].priority, First(q), t);
      ActivateAllKeepsQueued(Activate(mid, First(q)), Rest(q), wake, t);
    }
  }

  lemma WakeKeepsQueued(s: State, t: Tid)
    requires Shaped(s)
    ensures RqCount(Wake(s).active, t) >= RqCount(s.active, t) && Wake(s).expired == s.expired
  {
    hide Only;
    var due := (t: Tid) => t < |s.threads| && s.threads[t].wakeTime <= s.clock;
    ActivateAllKeepsQueued(s.(sleeping := Only(s.sleeping, (t: Tid) => !due(t))), Only(s.sleeping, due), Awake, t);
  }

  lemma DispatchKeepsQueued(s: State, t: Tid)
    requires Shaped(s) && !Empty(s.active) && RqCount(s.active, t) > 0
    ensures Dispatch(s).running == t || RqCount(Dispatch(s).active, t) > 0
  {
    TakeRemoves(s.active, Best(s.active), t);
  }

  lemma EmptyHasNobody(rq: RunQueue, t: Tid)
    requires RqCount(rq, t) > 0
    ensures !Empty(rq)
  {
    CountedIsQueued(rq, t);
  }

  /** Within an epoch an active thread runs next or stays active, and an expired one stays expired. */
  lemma ChargeInEpoch(s: State, t: Tid)
    requires Shaped(s) && !(s.threads[s.running].quantum - 1 <= 0 && Empty(s.active))
    ensures IsActive(s, t) ==> Charge(s).running == t || IsActive(Charge(s), t)
    ensures RqCount(Charge(s).expired, t) >= RqCount(s.expired, t)
  {
    hide Best, BestFrom, RqCount;
    var th := s.threads[s.running];
    if th.quantum - 1 > 0 {
      var charged := WithThread(s, s.running, th.(quantum := th.quantum - 1));
      InsertAdds(s.active, th.priority, s.running, t);
      if 0 <= Best(charged.active) < th.priority && IsActive(s, t) {
        DispatchKeepsQueued(Activate(charged, s.running), t);
      }
    } else {
      var tuned := WithThread(s, s.running, Recalc(th.(quantum := 0)));
      InsertAdds(s.expired, tuned.threads[s.running].priority, s.running, t);
      if IsActive(s, t) {
        DispatchKeepsQueued(Expire(tuned, s.running), t);
      }
    }
  }

  /** At its end the expired threads become the active ones. */
  lemma ChargeAtEnd(s: State, t: Tid)
    requires Shaped(s) && s.threads[s.running].quantum - 1 <= 0 && Empty(s.active) && RqCount(s.expired, t) > 0
    ensures Charge(s).running == t || IsActive(Charge(s), t)
  {
    hide Best, BestFrom, RqCount;
    var th := s.threads[s.running];
    var tuned := WithThread(s, s.running, Recalc(th.(quantum := 0)));
    InsertAdds(s.expired, tuned.threads[s.running].priority, s.running, t);
    DispatchKeepsQueued(SwapIfEmpty(Expire(tuned, s.running)), t);
  }

  lemma TickQueues(s: State, t: Tid)
    requires Shaped(s)
    ensures IsActive(s, t) ==> !Swaps(s) && (Tick(s).running == t || IsActive(Tick(s), t))
    ensures RqCount(s.expired, t) > 0 ==>
              if Swaps(s) then Tick(s).running == t || IsActive(Tick(s), t) else RqCount(Tick(s).expired, t) > 0
  {
    hide Wake, Charge, RqCount, Best;
    var later := s.(clock := s.clock + 1);
    WakeKeepsQueued(later, t);
    if IsActive(s, t) {
      EmptyHasNobody(Wake(later).active, t);
    }
    if Swaps(s) {
      if RqCount(s.expired, t) > 0 {
        ChargeAtEnd(Wake(later), t);
      }
    } else {
      ChargeInEpoch(Wake(later), t);
    }
  }

  // ----- runs of ticks -----

  ghost predicate TickedAt(run: seq<State>, i: nat)
    requires i + 1 < |run|
  {
    Enabled(run[i], TickOp) && run[i + 1] == Tick(run[i])
  }

  /** States that follow each other by clock ticks, with nothing in between. */
  ghost predicate TicksOnly(run: seq<State>) {
    && run != [] && Inv(run[0])
    && (forall i | 0 <= i < |run| :: Shaped(run[i]))
    && (forall i: nat | i + 1 < |run| :: TickedAt(run, i))
  }

  lemma Tail(run: seq<State>)
    requires TicksOnly(run) && |run| > 1
    ensures TicksOnly(run[1..])
  {
    hide Inv, Enabled, Tick, Shaped;
    assert TickedAt(run, 0);
    StepKeepsInv(run[0], TickOp);
    forall i: nat | i + 1 < |run[1..]| ensures TickedAt(run[1..], i) {
      assert TickedAt(run, i + 1);
    }
  }

  /** The epoch ends within as many ticks as the measure says. */
  lemma {:induction false} EpochEnds(run: seq<State>) returns (m: nat)
    requires TicksOnly(run) && |run| > Left(run[0])
    ensures m < Left(run[0]) && Swaps(run[m]) && forall i: nat | i < m :: !Swaps(run[i])
    decreases |run|
  {
    hide Inv, Enabled, Tick, Shaped, Swaps, Left;
    LeftIsPositive(run[0]);
    if Swaps(run[0]) {
      m := 0;
    } else {
      assert TickedAt(run, 0);
      TickCountsDown(run[0]);
      Tail(run);
      m := EpochEnds(run[1..]);
      m := m + 1;
      forall i: nat | i < m ensures !Swaps(run[i]) {
        assert i > 0 ==> run[i] == run[1..][i - 1];
      }
    }
  }

  lemma LeftIsPositive(s: State)
    requires Shaped(s)
    ensures Left(s) >= 1
  {
  }

  /** Every active thread gets the processor before that. */
  lemma {:induction false} ActiveThreadsRun(run: seq<State>, t: Tid) returns (m: nat)
    requires TicksOnly(run) && |run| > Left(run[0]) && IsActive(run[0], t)
    ensures 0 < m < Left(run[0]) && run[m].running == t && forall i: nat | i < m :: !Swaps(run[i])
    decreases |run|
  {
    hide Inv, Enabled, Tick, Shaped, Swaps, Left, IsActive;
    LeftIsPositive(run[0]);
    assert TickedAt(run, 0);
    TickQueues(run[0], t);
    TickCountsDown(run[0]);
    if run[1].running == t {
      LeftIsPositive(run[1]);
      m := 1;
    } else {
      Tail(run);
      m := ActiveThreadsRun(run[1..], t);
      m := m + 1;
      forall i: nat | i < m ensures !Swaps(run[i]) {
        assert i > 0 ==> run[i] == run[1..][i - 1];
      }
    }
  }

  /** Every expired thread gets it in the epoch after: after the first swap and before the second. */
  lemma {:induction false} ExpiredThreadsRun(run: seq<State>, t: Tid, end: nat) returns (m: nat)
    requires TicksOnly(run) && RqCount(run[0].expired, t) > 0
    requires end + 1 < |run| && Swaps(run[end]) && forall i: nat | i < end :: !Swaps(run[i])
    requires |run| > end + 1 + Left(run[end + 1])
    ensures end < m <= end + Left(run[end + 1]) && run[m].running == t
    ensures forall i: nat | i < m :: Swaps(run[i]) <==> i == end
    decreases |run|
  {
    hide Inv, Enabled, Tick, Shaped, Swaps, Left, IsActive, RqCount;
    assert TickedAt(run, 0);
    TickQueues(run[0], t);
    Tail(run);
    if end > 0 {
      assert forall i: nat | i < end - 1 :: run[1..][i] == run[i + 1];
      m := ExpiredThreadsRun(run[1..], t, end - 1);
    } else if run[1].running == t {
      LeftIsPositive(run[1]);
      m := 0;
    } else {
      m := ActiveThreadsRun(run[1..], t);
    }
    m := m + 1;
    forall i: nat | i < m ensures Swaps(run[i]) <==> i == end {
      assert i > 0 ==> run[i] == run[1..][i - 1];
    }
  }
}
