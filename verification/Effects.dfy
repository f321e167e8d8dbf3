/** What the operations leave in the record of the thread that calls them, in plain numbers, and where
    they leave the thread. */
module Effects {
  import opened Options
  import opened Scheduling
  import opened Conservation
  import opened Safety

  // ----- priority and quantum after giving up the processor -----

  /** A dynamic thread gets 5 ticks and half of those it had left; the more it had left, the better its
      next priority. A static one keeps what it has. */
  predicate Tuned(was: Thread, now: Thread) {
    && now.base == was.base && now.nice == was.nice
    && if was.priority <= 4 then now.priority == was.priority && now.quantum == was.quantum
       else
         && 2 * (now.quantum - 5) <= was.quantum <= 2 * (now.quantum - 5) + 1
         && var p := was.base - was.quantum + was.nice;
            now.priority == if p < 5 then 5 else if p > 14 then 14 else p
  }

  lemma RecalcTunes(t: Thread)
    requires t.priority > 4 ==> t.quantum >= 0
    ensures Tuned(t, Recalc(t)) && Recalc(t) == t.(quantum := Recalc(t).quantum, priority := Recalc(t).priority)
  {
  }

  /** A switch changes nobody's numbers. */
  lemma BlockKeepsNumbers(s: State, t: Tid)
    requires Shaped(s) && SomeReady(s) && t < |s.threads|
    ensures |Block(s).threads| == |s.threads| && SameNumbers(s.threads[t], Block(s).threads[t])
  {
    hide Best, BestFrom;
  }

  predicate SameNumbers(t: Thread, u: Thread) {
    t.base == u.base && t.nice == u.nice && t.priority == u.priority && t.quantum == u.quantum
  }

  lemma DispatchKeepsNumbers(s: State, t: Tid)
    requires Shaped(s) && !Empty(s.active) && t < |s.threads|
    ensures |Dispatch(s).threads| == |s.threads| && SameNumbers(s.threads[t], Dispatch(s).threads[t])
    ensures Dispatch(s).expired == s.expired
    ensures Queued(s.active, t) ==> Dispatch(s).running == t || Queued(Dispatch(s).active, t)
  {
    hide BestFrom;
    if p: Priority :| t in s.active[p] {
      assert Dispatch(s).running != t ==> t in Dispatch(s).active[p];
    }
  }

  lemma CallerIsInRange(s: State)
    requires Inv(s) && !s.finished
    ensures s.running < |s.threads| && s.threads[s.running].quantum >= 0
    ensures s.threads[s.running].priority > 4 ==> 1 <= s.threads[s.running].quantum <= 9
  {
    assert Fine(s, true, [], s.running);
  }

  /** A yield: the caller is tuned, and active again or still. */
  lemma YieldTunes(s: State)
    requires Inv(s) && Enabled(s, YieldOp)
    ensures var r, t := Next(s, YieldOp), s.running;
            && t < |r.threads| && Tuned(s.threads[t], r.threads[t])
            && (r.running == t || Queued(r.active, t)) && r.expired == s.expired
  {
    hide Inv, Recalc, Dispatch, Best, BestFrom, Tuned;
    CallerIsInRange(s);
    RecalcTunes(s.threads[s.running]);
    var tuned := WithThread(s, s.running, Recalc(s.threads[s.running]));
    var back := Activate(tuned, s.running);
    assert s.running in back.active[tuned.threads[s.running].priority];
    DispatchKeepsNumbers(back, s.running);
    TunedThrough(s.threads[s.running], back.threads[s.running], Dispatch(back).threads[s.running]);
  }

  lemma TunedThrough(a: Thread, b: Thread, c: Thread)
    requires Tuned(a, b) && SameNumbers(b, c)
    ensures Tuned(a, c)
  {
  }

  /** A thread that blocks for a lock. */
  lemma LockingTunes(s: State, l: nat)
    requires Inv(s) && Enabled(s, AcquireOp(l)) && s.locks[l].owner.Some?
    ensures var r, t := Next(s, AcquireOp(l)), s.running;
            t < |r.threads| && Tuned(s.threads[t], r.threads[t])
  {
    hide Inv, Recalc, Block, Best, BestFrom, Tuned;
    CallerIsInRange(s);
    RecalcTunes(s.threads[s.running]);
    var waiting := WithThread(s, s.running, Recalc(s.threads[s.running]).(pc := Locking(l)));
    var queued := WithLock(waiting, l, s.locks[l].(queue := s.locks[l].queue + [s.running]));
    BlockKeepsNumbers(queued, s.running);
    TunedThrough(s.threads[s.running], Recalc(s.threads[s.running]), Block(queued).threads[s.running]) by {
      assert SameNumbers(Recalc(s.threads[s.running]), queued.threads[s.running]);
    }
  }

  /** An owner that waits in its monitor. */
  lemma WaitingTunes(s: State, l: nat)
    requires Inv(s) && Enabled(s, WaitOp(l)) && s.locks[l].owner == Some(s.running)
    ensures var r, t := Next(s, WaitOp(l)), s.running;
            t < |r.threads| && Tuned(s.threads[t], r.threads[t])
  {
    hide Inv, Recalc, Block, Dispatch, Best, BestFrom, Tuned, GivenUp, Outranked;
    CallerIsInRange(s);
    RecalcTunes(s.threads[s.running]);
    var me, parked := s.running, Park(s, l);
    var up := GivenUp(parked, l);
    GivenUpKeepsNumbers(parked, l, me);
    if Outranked(parked, l) {
      DispatchKeepsNumbers(Activate(up, me), me);
    } else {
      BlockKeepsNumbers(Leave(up, Waiting(up.threads[me].pc.l)), me);
    }
    TunedThrough(s.threads[me], Recalc(s.threads[me]), Next(s, WaitOp(l)).threads[me]);
  }

  lemma GivenUpKeepsNumbers(s: State, l: nat, t: Tid)
    requires Shaped(s) && l < |s.locks| && t < |s.threads|
    ensures |GivenUp(s, l).threads| == |s.threads| && SameNumbers(s.threads[t], GivenUp(s, l).threads[t])
  {
    hide Best, BestFrom;
  }

  // ----- the clock -----

  /** A tick charges the running thread one tick while it has more than one left. It goes on, unless some
      thread of a better priority is active. */
  lemma TickCharges(s: State)
    requires Inv(s) && Enabled(s, TickOp) && s.threads[s.running].quantum > 1
    ensures var r, t := Next(s, TickOp), s.running;
            && t < |r.threads| && SameNumbers(s.threads[t].(quantum := s.threads[t].quantum - 1), r.threads[t])
            && (r.running == t || Queued(r.active, t)) && r.expired == s.expired
            && (r.running != t ==>
                  r.running < |r.threads| && r.threads[r.running].priority < s.threads[t].priority)
  {
    hide Inv, Wake, Charge, Best, BestFrom, Sound;
    SoundLater(s);
    RunningIsReady(s);
    WakeIsSound(s.(clock := s.clock + 1));
    WakeKeepsExpired(s.(clock := s.clock + 1));
    SpendingCharges(Wake(s.(clock := s.clock + 1)));
  }

  lemma SpendingCharges(s: State)
    requires Shaped(s) && Sound(s, true, []) && s.threads[s.running].quantum > 1
    ensures var r, t := Charge(s), s.running;
            && t < |r.threads| && SameNumbers(s.threads[t].(quantum := s.threads[t].quantum - 1), r.threads[t])
            && (r.running == t || Queued(r.active, t)) && r.expired == s.expired
            && (r.running != t ==>
                  r.running < |r.threads| && r.threads[r.running].priority < s.threads[t].priority)
  {
    hide Dispatch, Best, BestFrom, Sound;
    var t := s.running;
    var charged := WithThread(s, t, s.threads[t].(quantum := s.threads[t].quantum - 1));
    if 0 <= Best(charged.active) < s.threads[t].priority {
      var back := Activate(charged, t);
      assert t in back.active[charged.threads[t].priority];
      DispatchKeepsNumbers(back, t);
      BetterIsPicked(s, charged);
    }
  }

  /** The running thread makes way for one of a better priority. */
  lemma BetterIsPicked(s: State, charged: State)
    requires Shaped(s) && Sound(s, true, []) && |charged.threads| == |s.threads|
    requires charged == WithThread(s, s.running, charged.threads[s.running])
    requires charged.threads[s.running].priority == s.threads[s.running].priority
    requires 0 <= Best(s.active) < s.threads[s.running].priority
    ensures var r := Dispatch(Activate(charged, s.running));
            r.running < |r.threads| && r.threads[r.running].priority < s.threads[s.running].priority
  {
    hide BestFrom, Sound;
    var p, back := Best(s.active), Activate(charged, s.running);
    assert back.active[p] == s.active[p];
    LevelsMatch(s, p);
  }

  lemma LevelsMatch(s: State, p: Priority)
    requires Sound(s, true, []) && s.active[p] != []
    ensures s.active[p][0] < |s.threads| && s.threads[s.active[p][0]].priority == p
  {
    assert InBucket(s, p) && s.active[p][0] in s.active[p];
  }

  lemma SoundLater(s: State)
    requires Inv(s) && !s.finished
    ensures Sound(s.(clock := s.clock + 1), true, []) && Sound(s, true, [])
  {
    hide Sound;
    SoundWhenever(s, s.clock + 1, s.finished, true, []);
  }

  lemma WakeKeepsExpired(s: State)
    requires Shaped(s)
    ensures Wake(s).expired == s.expired
  {
  }

  /** The tick that uses up the last one: a dynamic thread goes on with 5 ticks and the priority of its base
      and nice values, a static one keeps its priority and has none. While others are active it expires;
      otherwise it runs, or is ready, in the epoch that begins. */
  lemma QuantumRunsOut(s: State)
    requires Inv(s) && Enabled(s, TickOp) && s.threads[s.running].quantum <= 1
    ensures var r, t := Next(s, TickOp), s.running;
            && t < |r.threads| && Tuned(s.threads[t].(quantum := 0), r.threads[t])
            && (r.running == t || Queued(r.active, t) || Queued(r.expired, t))
            && ((exists p: Priority :: s.active[p] != []) ==> Queued(r.expired, t))
  {
    hide Inv, Wake, Block, Best, BestFrom, Sound, Recalc, Tuned;
    var later, t := s.(clock := s.clock + 1), s.running;
    SoundLater(s);
    RunningIsReady(s);
    WakeIsSound(later);
    var w := Wake(later);
    var th := Recalc(w.threads[t].(quantum := 0));
    RecalcTunes(w.threads[t].(quantum := 0));
    var out := Expire(WithThread(w, t, th), t);
    BlockKeepsNumbers(out, t);
    TunedThrough(s.threads[t].(quantum := 0), th, Block(out).threads[t]);
    assert t in out.expired[th.priority];
    BlockPlaces(out, t);
    if p: Priority :| s.active[p] != [] {
      assert s.active[p] <= out.active[p];
    }
  }

  /** After a switch a thread that had expired runs or is ready, and has expired still if others were active. */
  lemma BlockPlaces(s: State, t: Tid)
    requires Shaped(s) && SomeReady(s) && t < |s.threads| && Queued(s.expired, t)
    ensures Block(s).running == t || Queued(Block(s).active, t) || Queued(Block(s).expired, t)
    ensures (exists p: Priority :: s.active[p] != []) ==> Queued(Block(s).expired, t)
  {
    hide BestFrom, Dispatch;
    DispatchKeepsNumbers(SwapIfEmpty(s), t);
  }

  // ----- creating, nice values -----

  /** A new thread starts with 5 ticks at the priority asked for, cut to 0..14, at the end of that queue;
      nothing else changes. */
  lemma CreateAppends(s: State, priority: int)
    requires Enabled(s, CreateOp(priority))
    ensures var r, t := Next(s, CreateOp(priority)), |s.threads|;
            var p: Priority := if priority < 0 then 0 else if priority > 14 then 14 else priority;
            r == s.(threads := s.threads + [Thread(p, p, 5, 0, 0, 0, Ready, {})],
                    active := s.active[p := s.active[p] + [t]])
  {
  }

  /** A nice value is cut to 0..10 and changes nothing else; the forecast is the base less what is left of the
      quantum plus that value, cut to 5..14. */
  lemma NiceSets(s: State, nice: int)
    requires Enabled(s, NiceOp(nice))
    ensures var t, (r, forecast) := s.threads[s.running], Nice(s, nice);
            && r == Next(s, NiceOp(nice)) && 5 <= forecast <= 14
            && exists n :: 0 <= n <= 10 && (0 <= nice <= 10 ==> n == nice) && (nice < 0 ==> n == 0) && (nice > 10 ==> n == 10)
                 && r == s.(threads := s.threads[s.running := t.(nice := n)])
                 && var p := t.base - t.quantum + n;
                    (5 <= p <= 14 ==> forecast == p) && (p < 5 ==> forecast == 5) && (p > 14 ==> forecast == 14)
  {
    var n := Bounded(nice, 0, 10);
    assert Next(s, NiceOp(nice)) == s.(threads := s.threads[s.running := s.threads[s.running].(nice := n)]);
  }
}
