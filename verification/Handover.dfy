/** What each operation does to a lock, exactly, and when a thread that queues or waits gets its turn. */
module Handover {
  import opened Options
  import opened Scheduling
  import opened Conservation
  import opened Safety
  import opened SchedulerLaws

  // ----- one step -----

  /** A signal by the owner moves the thread that has waited longest to the end of the queue, and does
      nothing else; without waiters, or from somebody else, it does nothing. */
  lemma SignalMoves(s: State, l: nat)
    requires Enabled(s, SignalOp(l))
    ensures var k := s.locks[l];
            Next(s, SignalOp(l)) ==
            if k.owner == Some(s.running) && k.waiters != []
            then s.(locks := s.locks[l := Lock(k.owner, k.queue + [k.waiters[0]], k.waiters[1..])])
            else s
  {
  }

  /** An unlock by anybody but the owner changes nothing. */
  lemma StrangersReleaseNothing(s: State, l: nat)
    requires Enabled(s, ReleaseOp(l)) && s.locks[l].owner != Some(s.running)
    ensures Next(s, ReleaseOp(l)) == s
    ensures Enabled(s, WaitOp(l)) ==> Next(s, WaitOp(l)) == s
  {
  }

  /** A free lock is the caller's at once, and the caller goes on. */
  lemma FreeLockIsTaken(s: State, l: nat)
    requires Enabled(s, AcquireOp(l)) && s.locks[l].owner == None
    ensures var me, k := s.threads[s.running], s.locks[l];
            Next(s, AcquireOp(l)) ==
            s.(threads := s.threads[s.running := me.(held := me.held + {l})],
               locks := s.locks[l := Lock(Some(s.running), k.queue, k.waiters)])
  {
  }

  /** Nobody active is better than the running thread: the queues of better priorities are empty. */
  lemma BetterLevelsAreEmpty(s: State, p: Priority)
    requires Inv(s) && OnTop(s) && p < s.threads[s.running].priority
    ensures s.active[p] == []
  {
    assert s.active[p] != [] ==> s.active[p][0] in s.active[p];
    assert InBucket(s, p);
  }

  /** Who gets the lock next. */
  function HeadOf(s: State, l: nat): (t: Tid)
    requires Shaped(s) && l < |s.locks| && s.locks[l].queue != []
    ensures t == s.locks[l].queue[0] && t < |s.threads|
  {
    assert s.locks[l].queue[0] in s.locks[l].queue;
    s.locks[l].queue[0]
  }

  /** An unlock that hands the lock to a thread of no better priority lets the caller go on, and the other
      joins the end of its active queue. */
  lemma ReleaseGoesOn(s: State, l: nat)
    requires Inv(s) && Enabled(s, ReleaseOp(l)) && s.locks[l].owner == Some(s.running)
    requires s.locks[l].queue != [] ==> s.threads[HeadOf(s, l)].priority >= s.threads[s.running].priority
    ensures var r, q := Next(s, ReleaseOp(l)), s.locks[l].queue;
            && r.running == s.running && r.expired == s.expired
            && r.active == (if q == [] then s.active else
                              var p := s.threads[HeadOf(s, l)].priority; s.active[p := s.active[p] + [q[0]]])
            && |r.threads| == |s.threads|
            && (forall t | 0 <= t < |s.threads| :: r.threads[t].priority == s.threads[t].priority)
  {
    assert s.locks[l].queue != [] ==> s.locks[l].queue[0] in s.locks[l].queue;
  }

  /** With nobody better active before, an unlock that hands the lock to a better thread switches to that
      very thread, and the caller joins the end of its active queue. */
  lemma ReleaseSwitches(s: State, l: nat)
    requires Inv(s) && OnTop(s) && Enabled(s, ReleaseOp(l)) && s.locks[l].owner == Some(s.running)
    requires s.locks[l].queue != [] && s.threads[HeadOf(s, l)].priority < s.threads[s.running].priority
    ensures var r, p := Next(s, ReleaseOp(l)), s.threads[s.running].priority;
            && r.running == s.locks[l].queue[0] && r.expired == s.expired
            && r.active == s.active[p := s.active[p] + [s.running]]
  {
    hide Inv, OnTop, Release, Best, BestFrom;
    forall q: Priority | q <= s.threads[HeadOf(s, l)].priority ensures s.active[q] == [] {
      BetterLevelsAreEmpty(s, q);
    }
    HandsOverAtOnce(s, l);
  }

  lemma HandsOverAtOnce(s: State, l: nat)
    requires Shaped(s) && Owns(s, l) && s.locks[l].queue != []
    requires s.threads[HeadOf(s, l)].priority < s.threads[s.running].priority
    requires forall q: Priority | q <= s.threads[HeadOf(s, l)].priority :: s.active[q] == []
    ensures var r, p := Release(s, l), s.threads[s.running].priority;
            && r.running == s.locks[l].queue[0] && r.expired == s.expired
            && r.active == s.active[p := s.active[p] + [s.running]]
  {
    hide BestFrom;
    var t := HeadOf(s, l);
    var p, me := s.threads[t].priority, s.threads[s.running].priority;
    var up := Activate(GivenUp(s, l), s.running);
    assert s.active[p] + [t] == [t];
    assert up.active == s.active[p := [t]][me := s.active[me] + [s.running]];
    assert Best(up.active) == p by {
      assert up.active[p] == [t];
      assert forall q: Priority | q < p :: up.active[q] == [];
    }
    assert Rest([t]) == [];
    assert up.active[p := []] == s.active[me := s.active[me] + [s.running]];
  }

  /** Either way an unlock keeps it so that nobody active is better than the running thread. */
  lemma ReleaseKeepsOnTop(s: State, l: nat)
    requires Inv(s) && OnTop(s) && Enabled(s, ReleaseOp(l))
    ensures OnTop(Next(s, ReleaseOp(l)))
  {
    hide Inv, Release, Best, BestFrom;
    var q := s.locks[l].queue;
    if s.locks[l].owner != Some(s.running) {
      StrangersReleaseNothing(s, l);
    } else if q == [] || s.threads[HeadOf(s, l)].priority >= s.threads[s.running].priority {
      ReleaseGoesOn(s, l);
    } else {
      StepKeepsInv(s, ReleaseOp(l));
      SwitchIsChosen(s, l);
    }
  }

  lemma SwitchIsChosen(s: State, l: nat)
    requires Enabled(s, ReleaseOp(l)) && s.locks[l].owner == Some(s.running)
    requires s.locks[l].queue != [] && s.threads[HeadOf(s, l)].priority < s.threads[s.running].priority
    ensures Chooses(s, ReleaseOp(l))
  {
  }

  // ----- runs -----

  /** The owner of lock l gives it up. */
  predicate GivesUpLock(s: State, op: Op, l: nat) {
    Owns(s, l) && (op == ReleaseOp(l) || op == WaitOp(l))
  }

  ghost function HandOvers(s: State, ops: seq<Op>, l: nat): nat
    requires CanRun(s, ops)
    decreases |ops|
  {
    if ops == [] then 0
    else (if GivesUpLock(s, ops[0], l) then 1 else 0) + HandOvers(Next(s, ops[0]), ops[1..], l)
  }

  /** A thread with i others before it in the queue of a lock has as many before it less the times that
      the lock has been given up since, and owns it after the next time. */
  lemma {:induction false} TurnInQueue(s: State, ops: seq<Op>, l: nat, i: nat)
    requires CanRun(s, ops) && l < |s.locks| && i < |s.locks[l].queue|
    ensures l < |After(s, ops).locks|
    ensures var k, n := After(s, ops).locks[l], HandOvers(s, ops, l);
            && (n <= i ==> i - n < |k.queue| && k.queue[i - n] == s.locks[l].queue[i])
            && (n == i + 1 ==> k.owner == Some(s.locks[l].queue[i]))
    decreases |ops|
  {
    hide Enabled, Next;
    if ops != [] {
      var r := Next(s, ops[0]);
      LocksExactly(s, ops[0], l);
      if !GivesUpLock(s, ops[0], l) {
        TurnInQueue(r, ops[1..], l, i);
      } else if i > 0 {
        TurnInQueue(r, ops[1..], l, i - 1);
      } else {
        OwnerKeeps(r, ops[1..], l);
      }
    }
  }

  /** Until it is given up a lock stays with its owner. */
  lemma {:induction false} OwnerKeeps(s: State, ops: seq<Op>, l: nat)
    requires CanRun(s, ops) && l < |s.locks| && s.locks[l].owner.Some?
    ensures l < |After(s, ops).locks|
    ensures HandOvers(s, ops, l) == 0 ==> After(s, ops).locks[l].owner == s.locks[l].owner
    decreases |ops|
  {
    hide Enabled, Next;
    if ops != [] {
      LocksExactly(s, ops[0], l);
      if GivesUpLock(s, ops[0], l) {
        LockStaysThere(Next(s, ops[0]), ops[1..], l);
      } else {
        OwnerKeeps(Next(s, ops[0]), ops[1..], l);
      }
    }
  }

  lemma {:induction false} LockStaysThere(s: State, ops: seq<Op>, l: nat)
    requires CanRun(s, ops) && l < |s.locks|
    ensures l < |After(s, ops).locks|
    decreases |ops|
  {
    hide Enabled, Next;
    if ops != [] {
      LocksExactly(s, ops[0], l);
      LockStaysThere(Next(s, ops[0]), ops[1..], l);
    }
  }

  predicate Signals(s: State, op: Op, l: nat) {
    Owns(s, l) && op == SignalOp(l)
  }

  ghost function SignalCount(s: State, ops: seq<Op>, l: nat): nat
    requires CanRun(s, ops)
    decreases |ops|
  {
    if ops == [] then 0
    else (if Signals(s, ops[0], l) then 1 else 0) + SignalCount(Next(s, ops[0]), ops[1..], l)
  }

  /** A thread with i others before it among the waiters of a monitor has as many before it less the
      signals since, and joins the end of the queue of the mutex with the next one. */
  lemma {:induction false} TurnAmongWaiters(s: State, ops: seq<Op>, l: nat, i: nat)
    requires CanRun(s, ops) && l < |s.locks| && i < |s.locks[l].waiters|
    ensures l < |After(s, ops).locks|
    ensures var k, n := After(s, ops).locks[l], SignalCount(s, ops, l);
            n <= i ==> i - n < |k.waiters| && k.waiters[i - n] == s.locks[l].waiters[i]
    decreases |ops|
  {
    hide Enabled, Next;
    if ops != [] {
      LocksExactly(s, ops[0], l);
      if !Signals(s, ops[0], l) {
        TurnAmongWaiters(Next(s, ops[0]), ops[1..], l, i);
      } else if i > 0 {
        TurnAmongWaiters(Next(s, ops[0]), ops[1..], l, i - 1);
      } else {
        LockStaysThere(Next(s, ops[0]), ops[1..], l);
      }
    }
  }

  /** From monitor_wait to the monitor: a waiter that the owner signals, with q threads in the queue of the
      mutex, owns the monitor when it has been given up q + 1 times after the signal. */
  lemma SignalledWaiterOwns(s: State, l: nat, ops: seq<Op>)
    requires Enabled(s, SignalOp(l)) && s.locks[l].owner == Some(s.running) && s.locks[l].waiters != []
    requires CanRun(Next(s, SignalOp(l)), ops)
    requires HandOvers(Next(s, SignalOp(l)), ops, l) == |s.locks[l].queue| + 1
    ensures l < |After(Next(s, SignalOp(l)), ops).locks|
    ensures After(Next(s, SignalOp(l)), ops).locks[l].owner == Some(s.locks[l].waiters[0])
  {
    hide Next;
    LocksExactly(s, SignalOp(l), l);
    TurnInQueue(Next(s, SignalOp(l)), ops, l, |s.locks[l].queue|);
  }
}
