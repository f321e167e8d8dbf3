/** How long a thread sleeps, and which exit ends a join. */
module Blocking {
  import opened Options
  import opened Scheduling
  import opened Conservation
  import opened Safety
  import opened SchedulerLaws
  import opened Effects

  // ----- the lists of blocked threads -----

  /** What one step can do to the lists, the clock and the end of the program: only a tick takes sleepers,
      only an exit takes joiners and adds dead threads or zombies, and only a join takes zombies. */
  lemma ListsMove(s: State, op: Op)
    requires Enabled(s, op)
    ensures var r := Next(s, op);
            && r.clock == (if op.TickOp? then s.clock + 1 else s.clock)
            && (if op.TickOp? then
                  forall t | t in s.sleeping && t < |s.threads| && s.threads[t].wakeTime > s.clock + 1 :: t in r.sleeping
                else s.sleeping <= r.sleeping)
            && (if op.ExitOp? then
                  forall t | t in s.joining && t < |s.threads| && s.threads[t].joinTid != s.running :: t in r.joining
                else s.joining <= r.joining)
            && (if op.JoinOp? then forall t | t in s.zombies && t != op.target :: t in r.zombies else s.zombies <= r.zombies)
            && s.dead <= r.dead && (r.finished ==> op.ExitOp?)
  {
    hide Recalc, Best, Insert, SleepTicks, Visible, Charge, Wake, Exit, Acquire, Release, Wait, Only;
    match op
    case TickOp => TickLists(s);
    case ExitOp => ExitLists(s);
    case AcquireOp(l) => AcquireLists(s, l);
    case ReleaseOp(l) => ReleaseLists(s, l);
    case WaitOp(l) => WaitLists(s, l);
    case _ =>
  }

  predicate SameLists(s: State, r: State) {
    && r.sleeping == s.sleeping && r.joining == s.joining && r.zombies == s.zombies && r.dead == s.dead
    && r.clock == s.clock && r.finished == s.finished
  }

  lemma ChargeLists(s: State)
    requires Shaped(s)
    ensures SameLists(s, Charge(s))
  {
    hide Best, Recalc;
  }

  lemma TickLists(s: State)
    requires Shaped(s)
    ensures var r := Tick(s);
            && r.clock == s.clock + 1 && r.joining == s.joining && r.zombies == s.zombies && r.dead == s.dead
            && r.finished == s.finished
            && forall t :: t in r.sleeping <==> t in s.sleeping && !(t < |s.threads| && s.threads[t].wakeTime <= s.clock + 1)
  {
    hide Best, Charge;
    ChargeLists(Wake(s.(clock := s.clock + 1)));
  }

  lemma ExitLists(s: State)
    requires Shaped(s)
    ensures var r, none := Exit(s), !exists t :: t in s.joining && t < |s.threads| && s.threads[t].joinTid == s.running;
            && r.clock == s.clock && r.sleeping == s.sleeping
            && r.zombies == (if none then s.zombies + [s.running] else s.zombies)
            && r.dead == (if none then s.dead else s.dead + [s.running])
            && forall t :: t in r.joining <==> t in s.joining && !(t < |s.threads| && s.threads[t].joinTid == s.running)
  {
    hide Best, Die;
    var joins := (t: Tid) => t < |s.threads| && s.threads[t].joinTid == s.running;
    var freed := ActivateAll(s.(joining := Only(s.joining, (t: Tid) => !joins(t))), Only(s.joining, joins),
                             (th: Thread) => th.(pc := Ready));
    DieLists(freed, Only(s.joining, joins) == []);
    assert Only(s.joining, joins) != [] ==> Only(s.joining, joins)[0] in Only(s.joining, joins);
  }

  lemma DieLists(s: State, zombie: bool)
    requires Shaped(s)
    ensures var r := Die(s, zombie);
            && r.clock == s.clock && r.sleeping == s.sleeping && r.joining == s.joining
            && r.zombies == (if zombie then s.zombies + [s.running] else s.zombies)
            && r.dead == (if zombie then s.dead else s.dead + [s.running])
  {
    hide Best;
  }

  lemma AcquireLists(s: State, l: nat)
    requires Shaped(s) && l < |s.locks| && (s.locks[l].owner.Some? ==> SomeReady(s))
    ensures SameLists(s, Acquire(s, l))
  {
    hide Best, Recalc;
  }

  lemma ReleaseLists(s: State, l: nat)
    requires Shaped(s)
    ensures SameLists(s, Release(s, l))
  {
    hide Best;
  }

  lemma WaitLists(s: State, l: nat)
    requires Shaped(s) && l < |s.locks| && (Owns(s, l) && s.locks[l].queue == [] ==> SomeReady(s))
    ensures SameLists(s, Wait(s, l))
  {
    hide Best, Recalc, Release, GivenUp;
    if Owns(s, l) {
      ReleaseLists(Park(s, l), l);
      assert SameLists(Park(s, l), GivenUp(Park(s, l), l)) by {
        GivenUpLists(Park(s, l), l);
      }
    }
  }

  lemma GivenUpLists(s: State, l: nat)
    requires Shaped(s) && l < |s.locks|
    ensures SameLists(s, GivenUp(s, l))
  {
  }

  /** A thread in one of the lists does not run. */
  lemma BlockedDoesNotRun(s: State, t: Tid)
    requires Sound(s, true, []) && (t in s.sleeping || t in s.joining || t in s.zombies || t in s.dead)
    ensures t < |s.threads| && t != s.running
    ensures t in s.sleeping ==> t !in s.joining && s.threads[t].pc == Sleeping
    ensures t in s.joining ==> t !in s.sleeping && s.threads[t].pc == Joining
    ensures t in s.zombies ==> Count(s.zombies, t) == 1
  {
    assert Fine(s, true, [], t) && Conserved(s, true, [], t);
    QueuedElsewhere(s, t);
  }

  lemma GoesOn(s: State, op: Op)
    requires Inv(s) && Enabled(s, op)
    ensures Sound(s, true, []) && s.running < |s.threads| && (op.ExitOp? && Next(s, op).finished ==> !GivesUp(s, op))
  {
    hide Sound, Exit;
    assert Sound(s, true, []);
  }

  /** Until its time has come, or the thread that it joins exits, a blocked thread is left as it is. */
  lemma StaysBlocked(s: State, op: Op, t: Tid)
    requires Inv(s) && Enabled(s, op) && (t in s.sleeping || t in s.joining) && t < |s.threads|
    requires t in s.sleeping && op.TickOp? ==> s.threads[t].wakeTime > s.clock + 1
    requires t in s.joining && op.ExitOp? ==> s.threads[t].joinTid != s.running
    ensures t < |Next(s, op).threads| && Next(s, op).threads[t] == s.threads[t]
    ensures (t in s.sleeping ==> t in Next(s, op).sleeping) && (t in s.joining ==> t in Next(s, op).joining)
  {
    hide Sound, Enabled, Next, Chosen, GivesUp;
    GoesOn(s, op);
    BlockedDoesNotRun(s, t);
    StepsKeepOthers(s, op, t);
    StepKeepsInv(s, op);
    ListsMove(s, op);
    if !Next(s, op).finished {
      BlockedDoesNotRun(Next(s, op), t);
    }
  }

  // ----- back among the ready -----

  predicate Up(s: State, t: Tid) {
    s.running == t || Queued(s.active, t)
  }

  /** A thread that is woken ends up in the queue of its priority, and stays there while others are woken. */
  lemma {:induction false} ActivatedStays(s: State, q: seq<Tid>, wake: Thread -> Thread, t: Tid)
    requires Shaped(s) && Below(q, |s.threads|) && Queued(s.active, t)
    ensures Queued(ActivateAll(s, q, wake).active, t)
    decreases |q|
  {
    if q != [] {
      var mid := Activate(WithThread(s, First(q), wake(s.threads[First(q)])), First(q));
      var p: Priority :| t in s.active[p];
      assert t in mid.active[p];
      ActivatedStays(mid, Rest(q), wake, t);
    }
  }

  lemma {:induction false} AllActivated(s: State, q: seq<Tid>, wake: Thread -> Thread, t: Tid)
    requires Shaped(s) && Below(q, |s.threads|) && Count(q, t) == 1 && t < |s.threads|
    ensures var r := ActivateAll(s, q, wake); Queued(r.active, t) && r.threads[t] == wake(s.threads[t])
    decreases |q|
  {
    var th := wake(s.threads[First(q)]);
    var mid := Activate(WithThread(s, First(q), th), First(q));
    RestCounts(q, t);
    if First(q) == t {
      assert t in mid.active[th.priority];
      ActivatedStays(mid, Rest(q), wake, t);
      OthersAreLeftAlone(mid, Rest(q), wake, t);
    } else {
      AllActivated(mid, Rest(q), wake, t);
    }
  }

  lemma {:induction false} OnlyCounts(q: seq<Tid>, p: Tid -> bool, t: Tid)
    ensures Count(Only(q, p), t) == if p(t) then Count(q, t) else 0
  {
    if q != [] {
      RestCounts(q, t);
      OnlyCounts(q[1..], p, t);
    }
  }

  lemma ChargeKeepsUp(s: State, t: Tid)
    requires Shaped(s) && t < |s.threads| && t != s.running && Queued(s.active, t)
    ensures Up(Charge(s), t)
  {
    hide BestFrom, Dispatch, Recalc;
    var th := s.threads[s.running];
    var p: Priority :| t in s.active[p];
    if th.quantum - 1 > 0 {
      var charged := WithThread(s, s.running, th.(quantum := th.quantum - 1));
      if 0 <= Best(charged.active) < th.priority {
        assert t in Activate(charged, s.running).active[p];
        DispatchKeepsNumbers(Activate(charged, s.running), t);
      }
    } else {
      var out := Expire(WithThread(s, s.running, Recalc(th.(quantum := 0))), s.running);
      assert t in out.active[p];
      DispatchKeepsNumbers(SwapIfEmpty(out), t);
    }
  }

  // ----- the order of waking -----

  ghost predicate KeepsPriority(wake: Thread -> Thread) {
    forall th: Thread :: wake(th).priority == th.priority
  }

  /** What is activated joins the ends of the queues. */
  lemma {:induction false} ActivatedBehind(s: State, q: seq<Tid>, wake: Thread -> Thread, p: Priority)
    requires Shaped(s) && Below(q, |s.threads|)
    ensures s.active[p] <= ActivateAll(s, q, wake).active[p]
    decreases |q|
  {
    if q != [] {
      ActivatedBehind(Activate(WithThread(s, First(q), wake(s.threads[First(q)])), First(q)), Rest(q), wake, p);
    }
  }

  lemma {:induction false} ActivatedAt(s: State, q: seq<Tid>, wake: Thread -> Thread, j: nat) returns (b: nat)
    requires Shaped(s) && Below(q, |s.threads|) && KeepsPriority(wake) && j < |q|
    ensures q[j] < |s.threads|
    ensures var a, p := ActivateAll(s, q, wake).active, s.threads[q[j]].priority;
            |s.active[p]| <= b < |a[p]| && a[p][b] == q[j]
    decreases |q|
  {
    assert q[j] in q;
    var mid := Activate(WithThread(s, First(q), wake(s.threads[First(q)])), First(q));
    var p := s.threads[q[j]].priority;
    if j == 0 {
      b := |s.active[p]|;
      ActivatedBehind(mid, Rest(q), wake, p);
    } else {
      b := ActivatedAt(mid, Rest(q), wake, j - 1);
    }
  }

  lemma {:induction false} ActivatedInOrder(s: State, q: seq<Tid>, wake: Thread -> Thread, i: nat, j: nat)
    returns (a: nat, b: nat)
    requires Shaped(s) && Below(q, |s.threads|) && KeepsPriority(wake) && i < j < |q|
    requires q[i] < |s.threads| && q[j] < |s.threads| && s.threads[q[i]].priority == s.threads[q[j]].priority
    ensures var level := ActivateAll(s, q, wake).active[s.threads[q[i]].priority];
            |s.active[s.threads[q[i]].priority]| <= a < b < |level| && level[a] == q[i] && level[b] == q[j]
    decreases |q|
  {
    hide Best, BestFrom;
    var mid := Activate(WithThread(s, First(q), wake(s.threads[First(q)])), First(q));
    var p := s.threads[q[i]].priority;
    assert q[j] == Rest(q)[j - 1];
    if i == 0 {
      a := |s.active[p]|;
      assert mid.active[p] == s.active[p] + [q[0]];
      ActivatedBehind(mid, Rest(q), wake, p);
      b := ActivatedAt(mid, Rest(q), wake, j - 1);
    } else {
      a, b := ActivatedInOrder(mid, Rest(q), wake, i - 1, j - 1);
    }
  }

  lemma {:induction false} OnlyInOrder(q: seq<Tid>, p: Tid -> bool, i: nat, j: nat) returns (a: nat, b: nat)
    requires i < j < |q| && p(q[i]) && p(q[j])
    ensures var o := Only(q, p); a < b < |o| && o[a] == q[i] && o[b] == q[j]
    decreases |q|
  {
    var k := if p(q[0]) then 1 else 0;
    if i == 0 {
      b := OnlyAt(q[1..], p, j - 1);
      a, b := 0, b + k;
    } else {
      a, b := OnlyInOrder(q[1..], p, i - 1, j - 1);
      a, b := a + k, b + k;
    }
  }

  lemma {:induction false} OnlyAt(q: seq<Tid>, p: Tid -> bool, j: nat) returns (b: nat)
    requires j < |q| && p(q[j])
    ensures b < |Only(q, p)| && Only(q, p)[b] == q[j]
    decreases |q|
  {
    if j == 0 {
      b := 0;
    } else {
      b := OnlyAt(q[1..], p, j - 1);
      b := b + if p(q[0]) then 1 else 0;
    }
  }

  ghost predicate Ahead(q: seq<Tid>, t: Tid, u: Tid) {
    exists a, b :: 0 <= a < b < |q| && q[a] == t && q[b] == u
  }

  lemma AheadStays(q: seq<Tid>, x: Tid, t: Tid, u: Tid)
    requires Ahead(q, t, u)
    ensures Ahead(q + [x], t, u) && q != [] && (q[0] != t ==> Ahead(q[1..], t, u))
  {
    var a, b :| 0 <= a < b < |q| && q[a] == t && q[b] == u;
    assert (q + [x])[a] == t && (q + [x])[b] == u;
    if q[0] != t {
      assert q[1..][a - 1] == t && q[1..][b - 1] == u;
    }
  }

  lemma DispatchKeepsAhead(s: State, p: Priority, t: Tid, u: Tid)
    requires Shaped(s) && !Empty(s.active) && Ahead(s.active[p], t, u)
    ensures Dispatch(s).running == t || Ahead(Dispatch(s).active[p], t, u)
  {
    hide BestFrom;
    AheadStays(s.active[p], t, t, u);
  }

  lemma ActivateKeepsAhead(s: State, x: Tid, p: Priority, t: Tid, u: Tid)
    requires Shaped(s) && x < |s.threads| && Ahead(s.active[p], t, u)
    ensures Ahead(Activate(s, x).active[p], t, u)
  {
    AheadStays(s.active[p], x, t, u);
  }

  lemma ChargeKeepsAhead(s: State, p: Priority, t: Tid, u: Tid)
    requires Shaped(s) && Ahead(s.active[p], t, u)
    ensures Charge(s).running == t || Ahead(Charge(s).active[p], t, u)
  {
    hide BestFrom, Dispatch, Recalc;
    var th := s.threads[s.running];
    AheadStays(s.active[p], t, t, u);
    if th.quantum - 1 > 0 {
      var charged := WithThread(s, s.running, th.(quantum := th.quantum - 1));
      if 0 <= Best(charged.active) < th.priority {
        ActivateKeepsAhead(charged, s.running, p, t, u);
        DispatchKeepsAhead(Activate(charged, s.running), p, t, u);
      }
    } else {
      var out := Expire(WithThread(s, s.running, Recalc(th.(quantum := 0))), s.running);
      assert out.active[p] != [];
      DispatchKeepsAhead(SwapIfEmpty(out), p, t, u);
    }
  }

  /** Of two threads of one priority that wake at the same tick, the one that went to sleep first is ahead. */
  lemma WakeInOrder(s: State, i: nat, j: nat)
    requires Enabled(s, TickOp) && i < j < |s.sleeping|
    requires var t, u := s.sleeping[i], s.sleeping[j];
             && t < |s.threads| && u < |s.threads| && s.threads[t].priority == s.threads[u].priority
             && s.threads[t].wakeTime <= s.clock + 1 && s.threads[u].wakeTime <= s.clock + 1
    ensures var t, u, r := s.sleeping[i], s.sleeping[j], Next(s, TickOp);
            r.running == t || Ahead(r.active[s.threads[t].priority], t, u)
  {
    hide ActivateAll, Only, Charge;
    var later := s.(clock := s.clock + 1);
    var due := (t: Tid) => t < |later.threads| && later.threads[t].wakeTime <= later.clock;
    var a, b := OnlyInOrder(s.sleeping, due, i, j);
    a, b := ActivatedInOrder(later.(sleeping := Only(s.sleeping, (t: Tid) => !due(t))), Only(s.sleeping, due), Awake, a, b);
    ChargeKeepsAhead(Wake(later), s.threads[s.sleeping[i]].priority, s.sleeping[i], s.sleeping[j]);
  }

  /** Of two threads of one priority that join the one that exits, the one that joined first is ahead. */
  lemma FreedInOrder(s: State, i: nat, j: nat)
    requires Enabled(s, ExitOp) && i < j < |s.joining|
    requires var t, u := s.joining[i], s.joining[j];
             && t < |s.threads| && u < |s.threads| && s.threads[t].priority == s.threads[u].priority
             && s.threads[t].joinTid == s.running == s.threads[u].joinTid
    ensures var t, u, r := s.joining[i], s.joining[j], Next(s, ExitOp);
            r.running == t || Ahead(r.active[s.threads[t].priority], t, u)
  {
    hide ActivateAll, Only, Die;
    var joins := (t: Tid) => t < |s.threads| && s.threads[t].joinTid == s.running;
    var mid, wake := s.(joining := Only(s.joining, (t: Tid) => !joins(t))), (th: Thread) => th.(pc := Ready);
    var a, b := OnlyInOrder(s.joining, joins, i, j);
    a, b := ActivatedInOrder(mid, Only(s.joining, joins), wake, a, b);
    DieKeepsAhead(ActivateAll(mid, Only(s.joining, joins), wake), Only(s.joining, joins) == [],
                  s.threads[s.joining[i]].priority, s.joining[i], s.joining[j]);
  }

  lemma DieKeepsAhead(s: State, zombie: bool, p: Priority, t: Tid, u: Tid)
    requires Shaped(s) && Ahead(s.active[p], t, u)
    ensures Die(s, zombie).running == t || Ahead(Die(s, zombie).active[p], t, u)
  {
    hide BestFrom, Dispatch;
    AheadStays(s.active[p], t, t, u);
    var gone := if zombie then Leave(s, Done).(zombies := s.zombies + [s.running])
                else Leave(s, Done).(dead := s.dead + [s.running]);
    assert gone.active[p] != [];
    DispatchKeepsAhead(gone, p, t, u);
  }

  // ----- sleep -----

  /** The tick at which a sleeper is due wakes it with a fresh quantum. */
  lemma DueIsWoken(s: State, t: Tid)
    requires Inv(s) && Enabled(s, TickOp) && t in s.sleeping && t < |s.threads| && s.threads[t].wakeTime <= s.clock + 1
    ensures var r := Next(s, TickOp);
            && t < |r.threads| && r.threads[t] == s.threads[t].(wakeTime := 0, quantum := 5, pc := Ready)
            && Up(r, t) && t !in r.sleeping
  {
    hide Sound, Charge, Wake, Best, BestFrom;
    GoesOn(s, TickOp);
    BlockedDoesNotRun(s, t);
    SleepsOnce(s, t);
    var later := s.(clock := s.clock + 1);
    WakeWakes(later, t);
    ChargeKeeps(Wake(later), t);
    ChargeKeepsUp(Wake(later), t);
    TickLists(s);
  }

  lemma WakeWakes(s: State, t: Tid)
    requires Shaped(s) && t < |s.threads| && s.threads[t].wakeTime <= s.clock && Count(s.sleeping, t) == 1
    ensures Queued(Wake(s).active, t) && Wake(s).threads[t] == Awake(s.threads[t])
  {
    hide ActivateAll, Only;
    var due := (t: Tid) => t < |s.threads| && s.threads[t].wakeTime <= s.clock;
    OnlyCounts(s.sleeping, due, t);
    AllActivated(s.(sleeping := Only(s.sleeping, (t: Tid) => !due(t))), Only(s.sleeping, due), Awake, t);
  }

  lemma SleepsOnce(s: State, t: Tid)
    requires Sound(s, true, [])
    ensures t in s.sleeping ==> Count(s.sleeping, t) == 1
    ensures t in s.joining ==> Count(s.joining, t) == 1
  {
    assert Fine(s, true, [], t) && Conserved(s, true, [], t);
  }

  /** A call to sleep that blocks. */
  lemma FallsAsleep(s: State, time: int)
    requires Inv(s) && Enabled(s, SleepOp(time)) && (time >= 10 || time <= -10)
    ensures var r, t := Next(s, SleepOp(time)), s.running;
            && t < |s.threads| && t in r.sleeping && t < |r.threads| && r.clock == s.clock
            && r.threads[t] == s.threads[t].(pc := Sleeping, wakeTime := r.threads[t].wakeTime)
            && (forall n: nat | 10 * n <= time < 10 * (n + 1) :: r.threads[t].wakeTime == s.clock + n)
            && (time < 0 ==> r.threads[t].wakeTime < s.clock)
  {
    hide Sound, Block, Best;
    GoesOn(s, SleepOp(time));
    StepKeepsInv(s, SleepOp(time));
    var dozing := Doze(s, s.clock + SleepTicks(time));
    BlockKeeps(dozing, s.running);
    BlockLists(dozing);
    assert s.running in dozing.sleeping;
    BlockedDoesNotRun(Next(s, SleepOp(time)), s.running);
  }

  lemma BlockLists(s: State)
    requires Shaped(s) && SomeReady(s)
    ensures SameLists(s, Block(s))
  {
    hide Best;
  }

  lemma {:induction false} ClockRises(s: State, ops: seq<Op>)
    requires CanRun(s, ops)
    ensures After(s, ops).clock >= s.clock
    decreases |ops|
  {
    hide Enabled, Next;
    if ops != [] {
      ListsMove(s, ops[0]);
      ClockRises(Next(s, ops[0]), ops[1..]);
    }
  }

  /** A sleeper sleeps on, whatever others do, while the clock has not ticked or its time has not come. */
  lemma {:induction false} SleepsOn(s: State, ops: seq<Op>, t: Tid)
    requires Inv(s) && CanRun(s, ops) && t in s.sleeping && t < |s.threads|
    requires After(s, ops).clock == s.clock || After(s, ops).clock < s.threads[t].wakeTime
    ensures var e := After(s, ops); t in e.sleeping && t < |e.threads| && e.threads[t] == s.threads[t]
    decreases |ops|
  {
    hide Inv, Enabled, Next, GivesUp, SwitchedWell, Chooses;
    if ops != [] {
      ListsMove(s, ops[0]);
      ClockRises(Next(s, ops[0]), ops[1..]);
      StepKeepsInv(s, ops[0]);
      GoesOn(s, ops[0]);
      BlockedDoesNotRun(s, t);
      StaysBlocked(s, ops[0], t);
      SleepsOn(Next(s, ops[0]), ops[1..], t);
    }
  }

  /** For how many ticks a call sleeps: one for every ten units; a negative time lasts until the next tick. */
  predicate Lasts(time: int, n: nat) {
    n >= 1 && (10 * n <= time < 10 * (n + 1) || (n == 1 && time <= -10))
  }

  /** A call with less than a tick to sleep returns at once; any other blocks for some number of ticks. */
  lemma ShortSleep(s: State, time: int)
    requires Enabled(s, SleepOp(time))
    ensures -10 < time < 10 ==> Next(s, SleepOp(time)) == s
    ensures !(-10 < time < 10) <==> exists n: nat :: Lasts(time, n)
  {
    if time >= 10 {
      assert Lasts(time, time / 10);
    } else if time <= -10 {
      assert Lasts(time, 1);
    }
  }

  /** A sleep of n ticks: the caller sleeps in every state before the nth tick, whatever the others do. */
  lemma SleepLasts(s: State, time: int, n: nat, ops: seq<Op>)
    requires Inv(s) && Enabled(s, SleepOp(time)) && Lasts(time, n) && CanRun(Next(s, SleepOp(time)), ops)
    ensures var e, t := After(Next(s, SleepOp(time)), ops), s.running;
            e.clock < s.clock + n ==>
              && t in e.sleeping && t < |s.threads| && t < |e.threads|
              && e.threads[t] == s.threads[t].(pc := Sleeping, wakeTime := e.threads[t].wakeTime)
              && e.threads[t].wakeTime <= s.clock + n
  {
    hide Inv, Enabled, Next;
    StepKeepsInv(s, SleepOp(time));
    FallsAsleep(s, time);
    ClockRises(Next(s, SleepOp(time)), ops);
    if After(Next(s, SleepOp(time)), ops).clock < s.clock + n {
      SleepsOn(Next(s, SleepOp(time)), ops, s.running);
    }
  }

  /** And the nth tick makes it ready, with a fresh quantum: it runs, or is active. */
  lemma SleepEnds(s: State, time: int, n: nat, ops: seq<Op>)
    requires Inv(s) && Enabled(s, SleepOp(time)) && Lasts(time, n) && CanRun(Next(s, SleepOp(time)), ops)
    requires var e := After(Next(s, SleepOp(time)), ops); e.clock == s.clock + n - 1 && Enabled(e, TickOp)
    ensures var r, t := Next(After(Next(s, SleepOp(time)), ops), TickOp), s.running;
            && r.clock == s.clock + n && Up(r, t) && t !in r.sleeping && t < |s.threads| && t < |r.threads|
            && r.threads[t] == s.threads[t].(pc := Ready, wakeTime := 0, quantum := 5)
  {
    hide Inv, Enabled, Next;
    SleepLasts(s, time, n, ops);
    StepKeepsInv(s, SleepOp(time));
    var e := After(Next(s, SleepOp(time)), ops);
    RunsKeepInv(Next(s, SleepOp(time)), ops);
    DueIsWoken(e, s.running);
    ListsMove(e, TickOp);
  }

  // ----- join and exit -----

  predicate Joins(s: State, t: Tid, u: Tid) {
    t in s.joining && t < |s.threads| && s.threads[t].joinTid == u
  }

  /** A join that blocks records whom the caller joins. */
  lemma JoinBlocksCaller(s: State, u: Tid)
    requires Inv(s) && Enabled(s, JoinOp(u)) && u !in s.zombies && Visible(s, u)
    ensures var r, t := Next(s, JoinOp(u)), s.running;
            && Joins(r, t, u) && t < |s.threads| && r.threads[t] == s.threads[t].(pc := Joining, joinTid := u)
            && r.zombies == s.zombies && r.dead == s.dead
  {
    hide Sound, Block, Best;
    GoesOn(s, JoinOp(u));
    StepKeepsInv(s, JoinOp(u));
    var waiting := JoinQueued(s, u);
    BlockKeeps(waiting, s.running);
    BlockLists(waiting);
    assert s.running in waiting.joining;
    BlockedDoesNotRun(Next(s, JoinOp(u)), s.running);
  }

  /** An exit makes everybody ready who joins the thread that exits. */
  lemma ExitFrees(s: State, t: Tid)
    requires Inv(s) && Enabled(s, ExitOp) && Joins(s, t, s.running)
    ensures var r := Next(s, ExitOp);
            t < |r.threads| && r.threads[t] == s.threads[t].(pc := Ready) && Up(r, t) && !r.finished
  {
    hide Sound, Die, Only, ActivateAll, Best, BestFrom;
    GoesOn(s, ExitOp);
    BlockedDoesNotRun(s, t);
    SleepsOnce(s, t);
    var joins := (t: Tid) => t < |s.threads| && s.threads[t].joinTid == s.running;
    var mid := s.(joining := Only(s.joining, (t: Tid) => !joins(t)));
    OnlyCounts(s.joining, joins, t);
    AllActivated(mid, Only(s.joining, joins), (th: Thread) => th.(pc := Ready), t);
    DiesUp(ActivateAll(mid, Only(s.joining, joins), (th: Thread) => th.(pc := Ready)), Only(s.joining, joins) == [], t);
  }

  ghost predicate IsJoined(s: State, u: Tid) {
    exists t: Tid :: Joins(s, t, u)
  }

  /** It frees nobody else from a join; the thread that exits is dead if somebody joined it, and a zombie
      otherwise. */
  lemma ExitBuries(s: State)
    requires Inv(s) && Enabled(s, ExitOp)
    ensures var r, u := Next(s, ExitOp), s.running;
            && (forall t: Tid :: t in r.joining <==> t in s.joining && !Joins(s, t, u))
            && u < |r.threads| && r.threads[u].pc == Done
            && r.dead == (if IsJoined(s, u) then s.dead + [u] else s.dead)
            && r.zombies == (if IsJoined(s, u) then s.zombies else s.zombies + [u])
  {
    hide Sound, Exit, Chosen, OnTop;
    ExitLists(s);
    assert IsJoined(s, s.running) <==> exists t :: t in s.joining && t < |s.threads| && s.threads[t].joinTid == s.running by {
      if IsJoined(s, s.running) {
        var t: Tid :| Joins(s, t, s.running);
      }
      if t :| t in s.joining && t < |s.threads| && s.threads[t].joinTid == s.running {
        assert Joins(s, t, s.running);
      }
    }
    StepKeepsInv(s, ExitOp);
    GoneIsDone(Next(s, ExitOp), s.running);
  }

  lemma GoneIsDone(s: State, t: Tid)
    requires Inv(s) && (t in s.zombies || t in s.dead)
    ensures t < |s.threads| && s.threads[t].pc == Done
  {
    assert Fine(s, !s.finished, [], t) && Conserved(s, !s.finished, [], t);
    QueuedElsewhere(s, t);
  }

  /** The program ends when nobody is left to run. */
  lemma ExitFinishes(s: State)
    requires Inv(s) && Enabled(s, ExitOp)
    ensures Next(s, ExitOp).finished <==>
              !IsJoined(s, s.running) && forall p: Priority :: s.active[p] == [] == s.expired[p]
  {
    hide Sound, Die, ActivateAll, Best, BestFrom;
    var joins := (t: Tid) => t < |s.threads| && s.threads[t].joinTid == s.running;
    var mid := s.(joining := Only(s.joining, (t: Tid) => !joins(t)));
    var q := Only(s.joining, joins);
    if IsJoined(s, s.running) {
      var t: Tid :| Joins(s, t, s.running);
      ExitFrees(s, t);
    } else {
      assert q != [] ==> q[0] in q && Joins(s, q[0], s.running);
      NobodyToActivate(mid, q, (th: Thread) => th.(pc := Ready));
      DieFinishes(mid, true);
    }
  }

  lemma NobodyToActivate(s: State, q: seq<Tid>, wake: Thread -> Thread)
    requires Shaped(s) && q == []
    ensures ActivateAll(s, q, wake) == s
  {
  }

  lemma DiesUp(s: State, zombie: bool, t: Tid)
    requires Shaped(s) && !s.finished && t < |s.threads| && t != s.running && Queued(s.active, t) && s.threads[t].pc == Ready
    ensures var r := Die(s, zombie); |r.threads| == |s.threads| && r.threads[t] == s.threads[t] && Up(r, t) && !r.finished
  {
    hide BestFrom;
    var gone := if zombie then Leave(s, Done).(zombies := s.zombies + [s.running])
                else Leave(s, Done).(dead := s.dead + [s.running]);
    var p: Priority :| t in s.active[p];
    assert gone.active[p] != [];
    DispatchKeepsNumbers(gone, t);
    DispatchKeeps(gone, t);
  }

  lemma DieFinishes(s: State, zombie: bool)
    requires Shaped(s) && !s.finished
    ensures Die(s, zombie).finished <==> forall p: Priority :: s.active[p] == [] == s.expired[p]
  {
    hide BestFrom;
  }

  /** Some step of a run is the exit of thread u. */
  ghost predicate ExitsIn(s: State, ops: seq<Op>, u: Tid)
    requires CanRun(s, ops)
    decreases |ops|
  {
    ops != [] && ((ops[0] == ExitOp && s.running == u) || ExitsIn(Next(s, ops[0]), ops[1..], u))
  }

  lemma {:induction false} JoinsOn(s: State, ops: seq<Op>, t: Tid, u: Tid)
    requires Inv(s) && CanRun(s, ops) && Joins(s, t, u) && !ExitsIn(s, ops, u)
    ensures var e := After(s, ops); Joins(e, t, u) && e.threads[t] == s.threads[t]
    decreases |ops|
  {
    hide Inv, Enabled, Next, GivesUp, SwitchedWell, Chooses;
    if ops != [] {
      StepKeepsInv(s, ops[0]);
      GoesOn(s, ops[0]);
      BlockedDoesNotRun(s, t);
      StaysBlocked(s, ops[0], t);
      JoinsOn(Next(s, ops[0]), ops[1..], t, u);
    }
  }

  /** A thread that blocks in a join of u stays there until u exits, whatever others do; no other exit
      frees it. */
  lemma JoinLasts(s: State, u: Tid, ops: seq<Op>)
    requires Inv(s) && Enabled(s, JoinOp(u)) && u !in s.zombies && Visible(s, u)
    requires CanRun(Next(s, JoinOp(u)), ops) && !ExitsIn(Next(s, JoinOp(u)), ops, u)
    ensures var e, t := After(Next(s, JoinOp(u)), ops), s.running;
            Joins(e, t, u) && t < |s.threads| && e.threads[t] == s.threads[t].(pc := Joining, joinTid := u)
  {
    hide Inv, Enabled, Next;
    JoinBlocksCaller(s, u);
    StepKeepsInv(s, JoinOp(u));
    JoinsOn(Next(s, JoinOp(u)), ops, s.running, u);
  }

  /** The exit of u makes it ready: it runs, or is active; and u is dead. */
  lemma JoinEnds(s: State, u: Tid, ops: seq<Op>)
    requires Inv(s) && Enabled(s, JoinOp(u)) && u !in s.zombies && Visible(s, u)
    requires CanRun(Next(s, JoinOp(u)), ops) && !ExitsIn(Next(s, JoinOp(u)), ops, u)
    requires var e := After(Next(s, JoinOp(u)), ops); Enabled(e, ExitOp) && e.running == u
    ensures var e, t := After(Next(s, JoinOp(u)), ops), s.running;
            var r := Next(e, ExitOp);
            && t < |s.threads| && t < |r.threads| && r.threads[t] == s.threads[t].(pc := Ready, joinTid := u)
            && Up(r, t) && t !in r.joining && r.dead == e.dead + [u] && r.zombies == e.zombies && !r.finished
  {
    hide Inv, Enabled, Next;
    JoinLasts(s, u, ops);
    StepKeepsInv(s, JoinOp(u));
    RunsKeepInv(Next(s, JoinOp(u)), ops);
    ExitFrees(After(Next(s, JoinOp(u)), ops), s.running);
    ExitBuries(After(Next(s, JoinOp(u)), ops));
  }

  /** No step of a run is a join of thread u. */
  predicate Unjoined(ops: seq<Op>, u: Tid) {
    JoinOp(u) !in ops
  }

  lemma {:induction false} ZombieStays(s: State, ops: seq<Op>, u: Tid)
    requires CanRun(s, ops) && u in s.zombies && Unjoined(ops, u)
    ensures u in After(s, ops).zombies
    decreases |ops|
  {
    hide Enabled, Next;
    if ops != [] {
      ListsMove(s, ops[0]);
      ZombieStays(Next(s, ops[0]), ops[1..], u);
    }
  }

  /** A thread that nobody joins when it exits waits as a zombie, and the first join of it afterwards finds
      it: the caller goes on at once, the zombie is dead, and nothing else changes. */
  lemma LateJoinFindsZombie(s: State, ops: seq<Op>)
    requires Inv(s) && Enabled(s, ExitOp) && !IsJoined(s, s.running)
    requires CanRun(Next(s, ExitOp), ops) && Unjoined(ops, s.running)
    requires Enabled(After(Next(s, ExitOp), ops), JoinOp(s.running))
    ensures var e, u := After(Next(s, ExitOp), ops), s.running;
            var r := Next(e, JoinOp(u));
            && u in e.zombies && r == e.(zombies := r.zombies, dead := e.dead + [u])
            && u !in r.zombies && multiset(e.zombies) == multiset(r.zombies) + multiset{u}
  {
    hide Inv, Enabled, Next;
    StepKeepsInv(s, ExitOp);
    ExitBuries(s);
    ZombieStays(Next(s, ExitOp), ops, s.running);
    RunsKeepInv(Next(s, ExitOp), ops);
    ZombieIsJoined(After(Next(s, ExitOp), ops), s.running);
  }

  lemma ZombieIsJoined(s: State, u: Tid)
    requires Inv(s) && Enabled(s, JoinOp(u)) && u in s.zombies
    ensures var r := Next(s, JoinOp(u));
            && r == s.(zombies := r.zombies, dead := s.dead + [u])
            && u !in r.zombies && multiset(s.zombies) == multiset(r.zombies) + multiset{u}
  {
    hide Sound;
    GoesOn(s, JoinOp(u));
    BlockedDoesNotRun(s, u);
    TakenOut(s.zombies, u);
  }

  lemma OnceOnly(q: seq<Tid>, u: Tid)
    requires Count(q, u) == 1 && forall z: Tid | z in q :: z == u
    ensures q == [u]
  {
    assert q[0] in q;
    if |q| >= 2 {
      assert q[1] in q;
      CountedTwice(q, 0, 1);
    }
  }

  lemma TakenOut(q: seq<Tid>, u: Tid)
    requires Count(q, u) == 1
    ensures Only(q, (z: Tid) => z == u) == [u]
    ensures multiset(q) == multiset(Only(q, (z: Tid) => z != u)) + multiset{u}
  {
    hide Only;
    var found, rest := Only(q, (z: Tid) => z == u), Only(q, (z: Tid) => z != u);
    OnlyCounts(q, (z: Tid) => z == u, u);
    OnceOnly(found, u);
    ZombiesSplit(q, u);
    var all: multiset<Tid> := multiset(rest) + multiset{u};
    forall x: Tid ensures multiset(q)[x] == all[x] {
      assert Count(q, x) == Count(rest, x) + Count(found, x);
    }
  }
}
