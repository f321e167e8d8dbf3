/** The server's readers-writers lock: three counters under one monitor whose signal only makes a waiter
    queue again, every statement of every thread a step of its own. */
module RwLock {
  import opened Options
  import opened Scheduling
  import opened SchedulerLaws

  /** Where a consumer thread is. Entering and waiting can block; Reading and Writing are the handlers. */
  datatype Pc =
    | Outside
    | ReadEnter | ReadTest | ReadWait | ReadCount | ReadLeave | Reading
    | ReadBack | ReadUncount | ReadWake | ReadGone
    | WriteEnter | WriteAnnounce | WriteTest | WriteWait | WriteUncount | WriteClaim | WriteLeave | Writing
    | WriteBack | WriteUnclaim | WriteWake | WriteGone

  /** readers_active, writer_active, writers_waiting, the monitor, and the threads. */
  datatype Rw = Rw(readers: int, writer: bool, waiting: int, monitor: Lock, pcs: seq<Pc>)

  predicate Blocks(pc: Pc) {
    pc.ReadEnter? || pc.ReadWait? || pc.ReadBack? || pc.WriteEnter? || pc.WriteWait? || pc.WriteBack?
  }

  predicate Inside(pc: Pc) {
    !Blocks(pc) && !pc.Outside? && !pc.Reading? && !pc.Writing?
  }

  predicate ReaderCounts(pc: Pc) {
    pc.ReadLeave? || pc.Reading? || pc.ReadBack? || pc.ReadUncount?
  }

  predicate WriterCounts(pc: Pc) {
    pc.WriteLeave? || pc.Writing? || pc.WriteBack? || pc.WriteUnclaim?
  }

  predicate WaiterCounts(pc: Pc) {
    pc.WriteTest? || pc.WriteWait? || pc.WriteUncount?
  }

  // ----- the monitor, as the scheduler provides it -----

  function Enter(k: Lock, t: Tid): Lock {
    if k.owner == None then k.(owner := Some(t)) else k.(queue := k.queue + [t])
  }

  function Leave(k: Lock): Lock {
    if k.queue == [] then k.(owner := None) else k.(owner := Some(First(k.queue)), queue := Rest(k.queue))
  }

  function Park(k: Lock, t: Tid): Lock {
    Leave(k.(waiters := k.waiters + [t]))
  }

  function Wake(k: Lock): Lock {
    if k.waiters == [] then k else k.(queue := k.queue + [First(k.waiters)], waiters := Rest(k.waiters))
  }

  // ----- steps -----

  /** A thread can move unless it is blocked and has not been given the monitor. */
  predicate CanStep(s: Rw, t: Tid) {
    t < |s.pcs| && (Blocks(s.pcs[t]) || Inside(s.pcs[t]) ==> s.monitor.owner == Some(t))
  }

  function To(s: Rw, t: Tid, pc: Pc): Rw
    requires t < |s.pcs|
  {
    s.(pcs := s.pcs[t := pc])
  }

  /** sthread_monitor_enter: on to `inside`, or blocked at `enter`. */
  function Entering(s: Rw, t: Tid, enter: Pc, inside: Pc): Rw
    requires t < |s.pcs|
  {
    To(s, t, if s.monitor.owner == None then inside else enter).(monitor := Enter(s.monitor, t))
  }

  /** The next statement of thread t; a thread outside starts a read or a write request. */
  function Step(s: Rw, t: Tid, write: bool): (r: Rw)
    requires CanStep(s, t)
    ensures |r.pcs| == |s.pcs|
  {
    match s.pcs[t]
    // rw_read_lock
    case Outside => if write then Entering(s, t, WriteEnter, WriteAnnounce) else Entering(s, t, ReadEnter, ReadTest)
    case ReadEnter => To(s, t, ReadTest)
    case ReadTest =>
      if s.writer || s.waiting > 0 then To(s, t, ReadWait).(monitor := Park(s.monitor, t)) else To(s, t, ReadCount)
    case ReadWait => To(s, t, ReadTest)
    case ReadCount => To(s, t, ReadLeave).(readers := s.readers + 1)
    case ReadLeave => To(s, t, Reading).(monitor := Leave(s.monitor))
    // rw_read_unlock
    case Reading => Entering(s, t, ReadBack, ReadUncount)
    case ReadBack => To(s, t, ReadUncount)
    case ReadUncount => To(s, t, ReadWake).(readers := s.readers - 1)
    case ReadWake => To(s, t, ReadGone).(monitor := if s.readers == 0 then Wake(s.monitor) else s.monitor)
    case ReadGone => To(s, t, Outside).(monitor := Leave(s.monitor))
    // rw_write_lock
    case WriteEnter => To(s, t, WriteAnnounce)
    case WriteAnnounce => To(s, t, WriteTest).(waiting := s.waiting + 1)
    case WriteTest =>
      if s.writer || s.readers > 0 then To(s, t, WriteWait).(monitor := Park(s.monitor, t)) else To(s, t, WriteUncount)
    case WriteWait => To(s, t, WriteTest)
    case WriteUncount => To(s, t, WriteClaim).(waiting := s.waiting - 1)
    case WriteClaim => To(s, t, WriteLeave).(writer := true)
    case WriteLeave => To(s, t, Writing).(monitor := Leave(s.monitor))
    // rw_write_unlock
    case Writing => Entering(s, t, WriteBack, WriteUnclaim)
    case WriteBack => To(s, t, WriteUnclaim)
    case WriteUnclaim => To(s, t, WriteWake).(writer := false)
    case WriteWake => To(s, t, WriteGone).(monitor := Wake(s.monitor))
    case WriteGone => To(s, t, Outside).(monitor := Leave(s.monitor))
  }

  /** These monitor changes are among those that the scheduler makes. */
  lemma MonitorAsScheduled(s: Rw, t: Tid, write: bool)
    requires CanStep(s, t) && (s.monitor.owner == None ==> s.monitor.queue == [])
    ensures LockStep(s.monitor, Step(s, t, write).monitor, t)
    ensures Step(s, t, write).monitor.owner == None ==> Step(s, t, write).monitor.queue == []
  {
    hide LockStep, Enter, Leave, Park, Wake;
    EntersAsScheduled(s.monitor, t);
    LeavesAsScheduled(s.monitor, t);
  }

  lemma EntersAsScheduled(k: Lock, t: Tid)
    requires k.owner == None ==> k.queue == []
    ensures LockStep(k, k, t) && LockStep(k, Enter(k, t), t) && Enter(k, t).owner.Some?
  {
  }

  lemma LeavesAsScheduled(k: Lock, t: Tid)
    requires k.owner == None ==> k.queue == []
    ensures k.owner == Some(t) ==>
              && LockStep(k, Leave(k), t) && LockStep(k, Park(k, t), t) && LockStep(k, Wake(k), t)
              && (Leave(k).owner == None ==> Leave(k).queue == []) && (Park(k, t).owner == None ==> Park(k, t).queue == [])
              && Wake(k).owner.Some?
  {
  }

  /** They are exactly what the scheduler's calls do to a monitor l in its state z. */
  lemma MonitorIsTheSchedulers(z: State, l: nat)
    requires l < |z.locks|
    ensures Enabled(z, AcquireOp(l)) ==>
              l < |Next(z, AcquireOp(l)).locks| && Next(z, AcquireOp(l)).locks[l] == Enter(z.locks[l], z.running)
    ensures Enabled(z, ReleaseOp(l)) && z.locks[l].owner == Some(z.running) ==>
              l < |Next(z, ReleaseOp(l)).locks| && Next(z, ReleaseOp(l)).locks[l] == Leave(z.locks[l])
    ensures Enabled(z, WaitOp(l)) && z.locks[l].owner == Some(z.running) ==>
              l < |Next(z, WaitOp(l)).locks| && Next(z, WaitOp(l)).locks[l] == Park(z.locks[l], z.running)
    ensures Enabled(z, SignalOp(l)) && z.locks[l].owner == Some(z.running) ==>
              l < |Next(z, SignalOp(l)).locks| && Next(z, SignalOp(l)).locks[l] == Wake(z.locks[l])
  {
    hide Enabled, Next, LockEffect, Enter, Leave, Park, Wake;
    EffectsAreThese(z.locks[l], z.running, l);
    if Enabled(z, AcquireOp(l)) {
      LocksExactly(z, AcquireOp(l), l);
    }
    if Enabled(z, ReleaseOp(l)) {
      LocksExactly(z, ReleaseOp(l), l);
    }
    if Enabled(z, WaitOp(l)) {
      LocksExactly(z, WaitOp(l), l);
    }
    if Enabled(z, SignalOp(l)) {
      LocksExactly(z, SignalOp(l), l);
    }
  }

  lemma EffectsAreThese(k: Lock, me: Tid, l: nat)
    ensures forall k': Lock :: LockEffect(AcquireOp(l), l, k, k', me) ==> k' == Enter(k, me)
    ensures k.owner == Some(me) ==>
              && (forall k': Lock :: LockEffect(ReleaseOp(l), l, k, k', me) ==> k' == Leave(k))
              && (forall k': Lock :: LockEffect(WaitOp(l), l, k, k', me) ==> k' == Park(k, me))
              && (forall k': Lock :: LockEffect(SignalOp(l), l, k, k', me) ==> k' == Wake(k))
  {
  }

  // ----- the invariant -----

  function CountOf(pcs: seq<Pc>, p: Pc -> bool): nat {
    if pcs == [] then 0 else (if p(pcs[0]) then 1 else 0) + CountOf(pcs[1..], p)
  }

  lemma {:induction false} CountUpdate(pcs: seq<Pc>, t: nat, pc: Pc, p: Pc -> bool)
    requires t < |pcs|
    ensures CountOf(pcs[t := pc], p) + (if p(pcs[t]) then 1 else 0) == CountOf(pcs, p) + (if p(pc) then 1 else 0)
  {
    if t == 0 {
      assert pcs[t := pc][1..] == pcs[1..];
    } else {
      assert pcs[t := pc][1..] == pcs[1..][t - 1 := pc];
      CountUpdate(pcs[1..], t - 1, pc, p);
    }
  }

  lemma {:induction false} CountAtLeast(pcs: seq<Pc>, t: nat, p: Pc -> bool)
    requires t < |pcs| && p(pcs[t])
    ensures CountOf(pcs, p) >= 1
  {
    if t > 0 {
      CountAtLeast(pcs[1..], t - 1, p);
    }
  }

  lemma {:induction false} CountTwo(pcs: seq<Pc>, t: nat, u: nat, p: Pc -> bool)
    requires t < u < |pcs| && p(pcs[t]) && p(pcs[u])
    ensures CountOf(pcs, p) >= 2
  {
    if t > 0 {
      CountTwo(pcs[1..], t - 1, u - 1, p);
    } else {
      CountAtLeast(pcs[1..], u - 1, p);
    }
  }

  predicate Counters(s: Rw) {
    && s.readers == CountOf(s.pcs, ReaderCounts)
    && (if s.writer then 1 else 0) == CountOf(s.pcs, WriterCounts)
    && s.waiting == CountOf(s.pcs, WaiterCounts)
  }

  /** What a thread inside the monitor has just made sure of. */
  predicate Passed(s: Rw, pc: Pc) {
    && (pc == ReadCount ==> !s.writer && s.waiting == 0)
    && (pc.WriteUncount? || pc.WriteClaim? || pc.WriteWake? ==> !s.writer && s.readers == 0)
    && (pc.ReadWake? ==> !s.writer)
  }

  predicate Exclusive(s: Rw, t: nat)
    requires t < |s.pcs|
  {
    && (Inside(s.pcs[t]) ==> s.monitor.owner == Some(t))
    && Passed(s, s.pcs[t])
  }

  /** Blocked inside sthread_monitor_wait, or given the monitor there and yet to go on. */
  predicate Sleeps(pc: Pc) {
    pc.ReadWait? || pc.WriteWait?
  }

  /** No thread is in the queue and the list of waiters twice, or holds the monitor as well. */
  predicate ListsApart(k: Lock) {
    && (forall i, j | 0 <= i < |k.queue| && 0 <= j < |k.waiters| :: k.queue[i] != k.waiters[j])
    && (forall i, j | 0 <= i < j < |k.queue| :: k.queue[i] != k.queue[j])
    && (forall i, j | 0 <= i < j < |k.waiters| :: k.waiters[i] != k.waiters[j])
    && (k.owner.Some? ==> k.owner.value !in k.queue && k.owner.value !in k.waiters)
  }

  /** The program points that go with a thread's place in the monitor. */
  predicate InPlace(pcs: seq<Pc>, k: Lock, u: Tid)
    requires u < |pcs|
  {
    && (u in k.waiters ==> Sleeps(pcs[u]))
    && (u in k.queue ==> Blocks(pcs[u]))
    && (k.owner == Some(u) ==> Blocks(pcs[u]) || Inside(pcs[u]))
    && (Blocks(pcs[u]) ==> u in k.waiters || u in k.queue || k.owner == Some(u))
  }

  predicate Orderly(pcs: seq<Pc>, k: Lock) {
    && ListsApart(k)
    && (forall u | u in k.queue :: u < |pcs|) && (forall u | u in k.waiters :: u < |pcs|)
    && (forall u: Tid | u < |pcs| :: InPlace(pcs, k, u))
  }

  predicate Inv(s: Rw) {
    && Counters(s) && !(s.writer && s.readers > 0)
    && (s.monitor.owner == None ==> s.monitor.queue == [])
    && Orderly(s.pcs, s.monitor)
    && forall t | 0 <= t < |s.pcs| :: Exclusive(s, t)
  }

  lemma {:induction false} NobodyCounts(n: nat, p: Pc -> bool)
    requires !p(Outside)
    ensures CountOf(seq(n, _ => Outside), p) == 0
  {
    if n > 0 {
      assert seq(n, _ => Outside)[1..] == seq(n - 1, _ => Outside);
      NobodyCounts(n - 1, p);
    }
  }

  lemma StartIsSafe(n: nat)
    ensures Inv(Rw(0, false, 0, Lock(None, [], []), seq(n, _ => Outside)))
  {
    NobodyCounts(n, ReaderCounts);
    NobodyCounts(n, WriterCounts);
    NobodyCounts(n, WaiterCounts);
  }

  lemma NoneIsNegative(s: Rw)
    requires Counters(s)
    ensures s.readers >= 0 && s.waiting >= 0
  {
  }

  function One(b: bool): int {
    if b then 1 else 0
  }

  lemma OnlyOneMoves(s: Rw, t: Tid, write: bool)
    requires CanStep(s, t)
    ensures var r := Step(s, t, write); r.pcs == s.pcs[t := r.pcs[t]]
  {
    hide Enter, Leave, Park, Wake;
  }

  /** A step moves each counter exactly as the thread's move between phases does. */
  lemma ReadersFollow(s: Rw, t: Tid, write: bool)
    requires CanStep(s, t)
    ensures var r, was := Step(s, t, write), s.pcs[t];
            r.readers + One(ReaderCounts(was)) == s.readers + One(ReaderCounts(r.pcs[t]))
  {
    hide Enter, Leave, Park, Wake;
  }

  lemma WaitingFollows(s: Rw, t: Tid, write: bool)
    requires CanStep(s, t)
    ensures var r, was := Step(s, t, write), s.pcs[t];
            r.waiting + One(WaiterCounts(was)) == s.waiting + One(WaiterCounts(r.pcs[t]))
  {
    hide Enter, Leave, Park, Wake;
  }

  lemma WriterFollows(s: Rw, t: Tid, write: bool)
    requires CanStep(s, t) && Passed(s, s.pcs[t]) && (WriterCounts(s.pcs[t]) ==> s.writer)
    ensures var r, was := Step(s, t, write), s.pcs[t];
            One(r.writer) + One(WriterCounts(was)) == One(s.writer) + One(WriterCounts(r.pcs[t]))
  {
    hide Enter, Leave, Park, Wake;
  }

  lemma StepCounters(s: Rw, t: Tid, write: bool)
    requires Inv(s) && CanStep(s, t)
    ensures Counters(Step(s, t, write))
  {
    hide CountOf, Step, Orderly;
    assert Exclusive(s, t);
    if WriterCounts(s.pcs[t]) {
      CountAtLeast(s.pcs, t, WriterCounts);
    }
    OnlyOneMoves(s, t, write);
    ReadersFollow(s, t, write);
    WaitingFollows(s, t, write);
    WriterFollows(s, t, write);
    var pc := Step(s, t, write).pcs[t];
    CountUpdate(s.pcs, t, pc, ReaderCounts);
    CountUpdate(s.pcs, t, pc, WriterCounts);
    CountUpdate(s.pcs, t, pc, WaiterCounts);
  }

  lemma MoverIsExclusive(s: Rw, t: Tid, write: bool)
    requires CanStep(s, t) && Exclusive(s, t) && s.waiting >= 0 && s.readers >= 0
    requires s.pcs[t].WriteUnclaim? ==> s.readers == 0
    requires s.pcs[t].ReadUncount? ==> !s.writer
    ensures Exclusive(Step(s, t, write), t)
  {
  }

  /** What another thread has made sure of holds as long as it is in the monitor. */
  lemma OthersStayExclusive(s: Rw, t: Tid, write: bool, u: Tid)
    requires CanStep(s, t) && u < |s.pcs| && u != t && Exclusive(s, t) && Exclusive(s, u)
    ensures Exclusive(Step(s, t, write), u)
  {
  }

  lemma WriterCounted(s: Rw, t: Tid)
    requires Counters(s) && t < |s.pcs| && WriterCounts(s.pcs[t])
    ensures s.writer
  {
    CountAtLeast(s.pcs, t, WriterCounts);
  }

  lemma ReaderCounted(s: Rw, t: Tid)
    requires Counters(s) && t < |s.pcs| && ReaderCounts(s.pcs[t])
    ensures s.readers > 0
  {
    CountAtLeast(s.pcs, t, ReaderCounts);
  }

  // ----- places in the monitor -----

  lemma EnterOrderly(pcs: seq<Pc>, k: Lock, t: Tid, enter: Pc, inside: Pc)
    requires Orderly(pcs, k) && t < |pcs| && !Blocks(pcs[t]) && !Inside(pcs[t])
    requires Blocks(enter) && !Sleeps(enter) && Inside(inside)
    ensures Orderly(pcs[t := if k.owner == None then inside else enter], Enter(k, t))
  {
    assert InPlace(pcs, k, t);
    var after := pcs[t := if k.owner == None then inside else enter];
    forall u: Tid | u < |pcs| ensures InPlace(after, Enter(k, t), u) {
      assert InPlace(pcs, k, u);
    }
  }

  lemma MoveOrderly(pcs: seq<Pc>, k: Lock, t: Tid, pc: Pc)
    requires Orderly(pcs, k) && t < |pcs| && k.owner == Some(t) && Inside(pc)
    ensures Orderly(pcs[t := pc], k)
  {
    var after := pcs[t := pc];
    forall u: Tid | u < |pcs| ensures InPlace(after, k, u) {
      assert InPlace(pcs, k, u);
    }
  }

  lemma LeaveOrderly(pcs: seq<Pc>, k: Lock, t: Tid, pc: Pc)
    requires Orderly(pcs, k) && t < |pcs| && k.owner == Some(t) && !Blocks(pc)
    ensures Orderly(pcs[t := pc], Leave(k))
  {
    var after := pcs[t := pc];
    forall u: Tid | u < |pcs| ensures InPlace(after, Leave(k), u) {
      assert InPlace(pcs, k, u);
    }
  }

  lemma ParkOrderly(pcs: seq<Pc>, k: Lock, t: Tid, pc: Pc)
    requires Orderly(pcs, k) && t < |pcs| && k.owner == Some(t) && Sleeps(pc)
    ensures Orderly(pcs[t := pc], Park(k, t))
  {
    var after := pcs[t := pc];
    forall u: Tid | u < |pcs| ensures InPlace(after, Park(k, t), u) {
      assert InPlace(pcs, k, u);
    }
  }

  lemma WakeOrderly(pcs: seq<Pc>, k: Lock, t: Tid, pc: Pc)
    requires Orderly(pcs, k) && t < |pcs| && k.owner == Some(t) && Inside(pc)
    ensures Orderly(pcs[t := pc], Wake(k))
  {
    var after := pcs[t := pc];
    forall u: Tid | u < |pcs| ensures InPlace(after, Wake(k), u) {
      assert InPlace(pcs, k, u);
    }
  }

  lemma StepKeepsOrder(s: Rw, t: Tid, write: bool)
    requires Orderly(s.pcs, s.monitor) && CanStep(s, t)
    ensures Orderly(Step(s, t, write).pcs, Step(s, t, write).monitor)
  {
    hide Orderly, Enter, Leave, Park, Wake, Step;
    if Sides(s.pcs[t]) {
      EntryKeepsOrder(s, t, write);
    } else {
      InnerKeepsOrder(s, t, write);
    }
  }

  predicate Sides(pc: Pc) {
    pc.Outside? || pc.Reading? || pc.Writing?
  }

  lemma EntryKeepsOrder(s: Rw, t: Tid, write: bool)
    requires Orderly(s.pcs, s.monitor) && CanStep(s, t) && Sides(s.pcs[t])
    ensures Orderly(Step(s, t, write).pcs, Step(s, t, write).monitor)
  {
    hide Orderly, Enter;
    match s.pcs[t]
    case Outside =>
      EnterOrderly(s.pcs, s.monitor, t, WriteEnter, WriteAnnounce);
      EnterOrderly(s.pcs, s.monitor, t, ReadEnter, ReadTest);
    case Reading => EnterOrderly(s.pcs, s.monitor, t, ReadBack, ReadUncount);
    case Writing => EnterOrderly(s.pcs, s.monitor, t, WriteBack, WriteUnclaim);
  }

  lemma InnerKeepsOrder(s: Rw, t: Tid, write: bool)
    requires Orderly(s.pcs, s.monitor) && CanStep(s, t) && !Sides(s.pcs[t])
    ensures Orderly(Step(s, t, write).pcs, Step(s, t, write).monitor)
  {
    hide Orderly, Enter, Leave, Park, Wake;
    var pc := Step(s, t, write).pcs[t];
    match s.pcs[t]
    case ReadTest => if Sleeps(pc) { ParkOrderly(s.pcs, s.monitor, t, pc); } else { MoveOrderly(s.pcs, s.monitor, t, pc); }
    case WriteTest => if Sleeps(pc) { ParkOrderly(s.pcs, s.monitor, t, pc); } else { MoveOrderly(s.pcs, s.monitor, t, pc); }
    case ReadLeave => LeaveOrderly(s.pcs, s.monitor, t, pc);
    case ReadGone => LeaveOrderly(s.pcs, s.monitor, t, pc);
    case WriteLeave => LeaveOrderly(s.pcs, s.monitor, t, pc);
    case WriteGone => LeaveOrderly(s.pcs, s.monitor, t, pc);
    case ReadWake => if s.readers == 0 { WakeOrderly(s.pcs, s.monitor, t, pc); } else { MoveOrderly(s.pcs, s.monitor, t, pc); }
    case WriteWake => WakeOrderly(s.pcs, s.monitor, t, pc);
    case _ => MoveOrderly(s.pcs, s.monitor, t, pc);
  }

  /** The counters never allow a reader and a writer at once. */
  lemma StepExcludes(s: Rw, t: Tid, write: bool)
    requires Inv(s) && CanStep(s, t)
    ensures !(Step(s, t, write).writer && Step(s, t, write).readers > 0)
    ensures forall u | 0 <= u < |s.pcs| :: Exclusive(Step(s, t, write), u)
  {
    hide Counters, Enter, Leave, Park, Wake, Orderly;
    NoneIsNegative(s);
    assert Exclusive(s, t);
    if s.pcs[t].WriteUnclaim? {
      WriterCounted(s, t);
    }
    if s.pcs[t].ReadUncount? {
      ReaderCounted(s, t);
    }
    MoverIsExclusive(s, t, write);
    forall u | 0 <= u < |s.pcs| && u != t ensures Exclusive(Step(s, t, write), u) {
      assert Exclusive(s, u);
      OthersStayExclusive(s, t, write, u);
    }
  }

  /** Every step of every thread keeps the invariant. */
  lemma StepKeepsInv(s: Rw, t: Tid, write: bool)
    requires Inv(s) && CanStep(s, t)
    ensures Inv(Step(s, t, write))
  {
    hide Counters, Exclusive, Orderly, Step, CanStep;
    StepCounters(s, t, write);
    StepExcludes(s, t, write);
    StepKeepsOrder(s, t, write);
    MonitorAsScheduled(s, t, write);
  }

  // ----- runs -----

  /** A schedule: which thread moves, and what it asks for if it is outside. */
  ghost predicate CanRun(s: Rw, run: seq<(Tid, bool)>)
    decreases |run|
  {
    run == [] || (CanStep(s, run[0].0) && CanRun(Step(s, run[0].0, run[0].1), run[1..]))
  }

  ghost function After(s: Rw, run: seq<(Tid, bool)>): Rw
    requires CanRun(s, run)
    decreases |run|
  {
    if run == [] then s else After(Step(s, run[0].0, run[0].1), run[1..])
  }

  lemma {:induction false} RunsKeepInv(s: Rw, run: seq<(Tid, bool)>)
    requires Inv(s) && CanRun(s, run)
    ensures Inv(After(s, run))
    decreases |run|
  {
    if run != [] {
      StepKeepsInv(s, run[0].0, run[0].1);
      RunsKeepInv(Step(s, run[0].0, run[0].1), run[1..]);
    }
  }

  /** In every interleaving, while one thread runs a write handler no other thread runs any handler, and the
      three counters are the numbers of threads in the phases they stand for. */
  lemma WritersExclude(n: nat, run: seq<(Tid, bool)>, t: Tid, u: Tid)
    requires CanRun(Rw(0, false, 0, Lock(None, [], []), seq(n, _ => Outside)), run)
    ensures var s := After(Rw(0, false, 0, Lock(None, [], []), seq(n, _ => Outside)), run);
            && (t < |s.pcs| && u < |s.pcs| && s.pcs[t] == Writing && s.pcs[u] in {Reading, Writing} ==> t == u)
            && Counters(s)
  {
    StartIsSafe(n);
    RunsKeepInv(Rw(0, false, 0, Lock(None, [], []), seq(n, _ => Outside)), run);
    var s := After(Rw(0, false, 0, Lock(None, [], []), seq(n, _ => Outside)), run);
    if t < |s.pcs| && u < |s.pcs| && s.pcs[t] == Writing && t != u {
      CountAtLeast(s.pcs, t, WriterCounts);
      if s.pcs[u] == Reading {
        CountAtLeast(s.pcs, u, ReaderCounts);
      } else if s.pcs[u] == Writing {
        CountTwo(s.pcs, if t < u then t else u, if t < u then u else t, WriterCounts);
      }
    }
  }

  /** A reader is admitted only when no writer has announced itself and not yet been admitted. */
  lemma ReadersGiveWay(s: Rw, t: Tid, u: Tid)
    requires Inv(s) && CanStep(s, t) && s.pcs[t] == ReadCount && u < |s.pcs|
    ensures !WaiterCounts(s.pcs[u]) && !WriterCounts(s.pcs[u])
  {
    assert Exclusive(s, t);
    if WaiterCounts(s.pcs[u]) {
      CountAtLeast(s.pcs, u, WaiterCounts);
    }
    if WriterCounts(s.pcs[u]) {
      CountAtLeast(s.pcs, u, WriterCounts);
    }
  }

  // ----- what the signal at the end of a write, or of the last read, comes to -----

  /** Thread t is about to signal: it has ended its write, or its read as the last reader. */
  predicate Signalling(s: Rw, t: Tid) {
    t < |s.pcs| && (s.pcs[t].WriteWake? || (s.pcs[t].ReadWake? && s.readers == 0))
  }

  /** Thread u goes on by itself for at most k steps, as long as it holds the monitor. */
  function OwnSteps(s: Rw, u: Tid, k: nat): (r: Rw)
    requires u < |s.pcs| && (s.monitor.owner == Some(u) ==> CanStep(s, u))
    decreases k
  {
    if k == 0 || s.monitor.owner != Some(u) then s else OwnSteps(Step(s, u, false), u, k - 1)
  }

  /** The signal of thread t and its exit from the monitor, and then the woken thread, if there is one. */
  function Settled(s: Rw, t: Tid, k: nat): Rw
    requires Orderly(s.pcs, s.monitor) && Signalling(s, t) && s.monitor.owner == Some(t)
  {
    var r := Step(Step(s, t, false), t, false);
    if s.monitor.waiters == [] then r else OwnSteps(r, First(s.monitor.waiters), k)
  }

  /** Nobody has the monitor, nobody reads or writes, and a writer sleeps. */
  predicate LeftAsleep(s: Rw) {
    && s.monitor.owner == None && !s.writer && s.readers == 0
    && exists v :: 0 <= v < |s.pcs| && s.pcs[v].WriteWait?
  }

  lemma {:induction false} SomebodyCounts(pcs: seq<Pc>, p: Pc -> bool) returns (v: nat)
    requires CountOf(pcs, p) > 0
    ensures v < |pcs| && p(pcs[v])
  {
    if p(pcs[0]) {
      v := 0;
    } else {
      v := SomebodyCounts(pcs[1..], p);
      v := v + 1;
    }
  }

  /** While thread t signals, the writers that wait are asleep. */
  lemma WaitersSleep(s: Rw, t: Tid)
    requires Inv(s) && Signalling(s, t)
    ensures s.monitor.owner == Some(t)
    ensures s.waiting > 0 <==> exists v :: 0 <= v < |s.pcs| && s.pcs[v].WriteWait?
  {
    assert Exclusive(s, t);
    if s.waiting > 0 {
      var v := SomebodyCounts(s.pcs, WaiterCounts);
      assert Exclusive(s, v);
    }
    if v :| 0 <= v < |s.pcs| && s.pcs[v].WriteWait? {
      CountAtLeast(s.pcs, v, WaiterCounts);
    }
  }

  lemma AfterTheSignal(s: Rw, t: Tid)
    requires Inv(s) && Signalling(s, t) && s.monitor.owner == Some(t)
    requires s.monitor.queue == [] && s.monitor.waiters != []
    ensures var u := First(s.monitor.waiters);
            && u < |s.pcs| && u != t && Sleeps(s.pcs[u])
            && Step(Step(s, t, false), t, false) ==
               s.(pcs := s.pcs[t := Outside], monitor := Lock(Some(u), [], Rest(s.monitor.waiters)))
  {
    hide Counters, Exclusive, Enter, Park, Step;
    var k, u := s.monitor, First(s.monitor.waiters);
    assert k.waiters[0] == u && InPlace(s.pcs, k, u);
    SignalThenGone(s, t);
  }

  lemma SignalThenGone(s: Rw, t: Tid)
    requires Signalling(s, t) && s.monitor.owner == Some(t) && s.monitor.queue == [] && s.monitor.waiters != []
    ensures var u := First(s.monitor.waiters);
            Step(Step(s, t, false), t, false) ==
            s.(pcs := s.pcs[t := Outside], monitor := Lock(Some(u), [], Rest(s.monitor.waiters)))
  {
    hide Enter, Park, Wake;
    SignalStep(s, t);
    var gone, u := if s.pcs[t].WriteWake? then WriteGone else ReadGone, First(s.monitor.waiters);
    assert Rest([u]) == [];
    assert s.pcs[t := gone][t := Outside] == s.pcs[t := Outside];
  }

  lemma SignalStep(s: Rw, t: Tid)
    requires Signalling(s, t) && s.monitor.owner == Some(t) && s.monitor.queue == [] && s.monitor.waiters != []
    ensures var k, gone := s.monitor, if s.pcs[t].WriteWake? then WriteGone else ReadGone;
            Step(s, t, false) == s.(pcs := s.pcs[t := gone], monitor := Lock(Some(t), [First(k.waiters)], Rest(k.waiters)))
  {
    hide Enter, Park, Leave;
    assert Wake(s.monitor) == Lock(Some(t), [First(s.monitor.waiters)], Rest(s.monitor.waiters));
  }

  /** A reader that finds a writer waiting sleeps on, and gives the monitor up. */
  lemma ReaderSleepsOn(r: Rw, u: Tid, k: nat)
    requires u < |r.pcs| && r.monitor.owner == Some(u) && r.monitor.queue == [] && r.pcs[u].ReadWait? && r.waiting > 0 && k >= 2
    ensures var z := OwnSteps(r, u, k);
            && z.monitor.owner == None && z.writer == r.writer && z.readers == r.readers
            && |z.pcs| == |r.pcs| && forall v | 0 <= v < |r.pcs| && v != u :: z.pcs[v] == r.pcs[v]
  {
    var a := Step(r, u, false);
    var b := Step(a, u, false);
    assert OwnSteps(r, u, k) == OwnSteps(a, u, k - 1) == OwnSteps(b, u, k - 2);
  }

  lemma ReaderReads(r: Rw, u: Tid, k: nat)
    requires u < |r.pcs| && r.monitor.owner == Some(u) && r.monitor.queue == [] && r.pcs[u].ReadWait? && k >= 4
    requires !r.writer && r.waiting <= 0
    ensures var z := OwnSteps(r, u, k); z.readers == r.readers + 1 && z.pcs == r.pcs[u := Reading]
  {
    var a := Step(r, u, false);
    var b := Step(a, u, false);
    var c := Step(b, u, false);
    var d := Step(c, u, false);
    assert OwnSteps(r, u, k) == OwnSteps(a, u, k - 1) == OwnSteps(b, u, k - 2) == OwnSteps(c, u, k - 3) == OwnSteps(d, u, k - 4);
  }

  lemma WriterWrites(r: Rw, u: Tid, k: nat)
    requires u < |r.pcs| && r.monitor.owner == Some(u) && r.monitor.queue == [] && r.pcs[u].WriteWait? && k >= 5
    requires !r.writer && r.readers == 0
    ensures var z := OwnSteps(r, u, k); z.writer && z.pcs == r.pcs[u := Writing]
  {
    var a := Step(r, u, false);
    var b := Step(a, u, false);
    var c := Step(b, u, false);
    var d := Step(c, u, false);
    var e := Step(d, u, false);
    assert OwnSteps(r, u, k) == OwnSteps(a, u, k - 1) == OwnSteps(b, u, k - 2) == OwnSteps(c, u, k - 3) == OwnSteps(d, u, k - 4)
           == OwnSteps(e, u, k - 5);
  }

  /** When a writer, or the last reader, signals and nobody queues: once it and the thread it has woken are
      through, the lock is free and a writer sleeps exactly if the longest waiter was a reader and a writer
      was waiting. If the longest waiter was a writer, it writes; if a reader and no writer waits, it reads. */
  lemma SignalOutcome(s: Rw, t: Tid, k: nat)
    requires Inv(s) && Signalling(s, t) && s.monitor.queue == [] && k >= 5
    ensures s.monitor.owner == Some(t)
    ensures LeftAsleep(Settled(s, t, k)) <==>
              s.monitor.waiters != [] && s.pcs[First(s.monitor.waiters)].ReadWait? && s.waiting > 0
    ensures s.monitor.waiters != [] ==>
              var u, z := First(s.monitor.waiters), Settled(s, t, k);
              && u < |z.pcs| && (s.pcs[u].WriteWait? ==> z.writer && z.pcs[u] == Writing)
              && (s.pcs[u].ReadWait? && s.waiting <= 0 ==> z.readers == 1 && z.pcs[u] == Reading)
  {
    hide Counters, Step, OwnSteps, Passed;
    WaitersSleep(s, t);
    if s.monitor.waiters == [] {
      NobodyLeft(s, t);
    } else {
      AfterTheSignal(s, t);
      WokenOne(s, t, k);
    }
  }

  lemma NobodyLeft(s: Rw, t: Tid)
    requires Inv(s) && Signalling(s, t) && s.monitor.owner == Some(t)
    requires s.monitor.queue == [] == s.monitor.waiters
    ensures !LeftAsleep(Step(Step(s, t, false), t, false))
  {
    hide Counters, Exclusive;
    forall v: Tid | v < |s.pcs| ensures v != t ==> !s.pcs[v].WriteWait? {
      assert InPlace(s.pcs, s.monitor, v);
    }
  }

  lemma WokenOne(s: Rw, t: Tid, k: nat)
    requires Inv(s) && Signalling(s, t) && s.monitor.owner == Some(t)
    requires s.monitor.queue == [] && s.monitor.waiters != [] && k >= 5
    ensures LeftAsleep(Settled(s, t, k)) <==> s.pcs[First(s.monitor.waiters)].ReadWait? && s.waiting > 0
    ensures var u, z := First(s.monitor.waiters), Settled(s, t, k);
            && u < |z.pcs| && (s.pcs[u].WriteWait? ==> z.writer && z.pcs[u] == Writing)
            && (s.pcs[u].ReadWait? && s.waiting <= 0 ==> z.readers == 1 && z.pcs[u] == Reading)
  {
    hide Counters, Step, OwnSteps;
    AfterTheSignal(s, t);
    WaitersSleep(s, t);
    assert Exclusive(s, t);
    var u := First(s.monitor.waiters);
    var r := s.(pcs := s.pcs[t := Outside], monitor := Lock(Some(u), [], Rest(s.monitor.waiters)));
    if s.pcs[u].WriteWait? {
      WriterWrites(r, u, k);
    } else if s.waiting > 0 {
      ReaderSleepsOn(r, u, k);
      var v :| 0 <= v < |s.pcs| && s.pcs[v].WriteWait?;
      assert OwnSteps(r, u, k).pcs[v].WriteWait?;
    } else {
      ReaderReads(r, u, k);
    }
  }

  /** A reader that leaves others reading signals nobody. */
  lemma OthersReadOn(s: Rw, t: Tid)
    requires CanStep(s, t) && s.pcs[t].ReadWake? && s.readers > 0
    ensures Step(s, t, false) == s.(pcs := s.pcs[t := ReadGone])
  {
  }

  // ----- one waiter woken -----

  ghost predicate Leads(s: Rw, run: seq<(Tid, bool)>, r: Rw) {
    CanRun(s, run) && After(s, run) == r
  }

  lemma {:induction false} LeadsSnoc(s: Rw, run: seq<(Tid, bool)>, mid: Rw, t: Tid, write: bool, r: Rw)
    requires Leads(s, run, mid) && CanStep(mid, t) && r == Step(mid, t, write)
    ensures Leads(s, run + [(t, write)], r)
    decreases |run|
  {
    hide Step, CanStep;
    var all := run + [(t, write)];
    if run == [] {
      assert all[1..] == [];
      assert Leads(r, [], r);
    } else {
      assert all[0] == run[0] && all[1..] == run[1..] + [(t, write)];
      LeadsSnoc(Step(s, run[0].0, run[0].1), run[1..], mid, t, write, r);
    }
  }

  /** One step between two states written out. */
  lemma Goes(s: Rw, run: seq<(Tid, bool)>, mid: Rw, t: Tid, write: bool, r: Rw) returns (all: seq<(Tid, bool)>)
    requires Leads(s, run, mid) && CanStep(mid, t)
    requires r == Step(mid, t, write)
    ensures Leads(s, all, r)
  {
    LeadsSnoc(s, run, mid, t, write, r);
    all := run + [(t, write)];
  }

  lemma WriterTakes(s: Rw, run: seq<(Tid, bool)>) returns (all: seq<(Tid, bool)>)
    requires Leads(s, run, Rw(0, false, 0, Lock(None, [], []), [Outside, Outside, Outside]))
    ensures Leads(s, all, Rw(0, true, 0, Lock(None, [], []), [Writing, Outside, Outside]))
  {
    hide Leads;
    all := run;
    all := Goes(s, all, Rw(0, false, 0, Lock(None, [], []), [Outside, Outside, Outside]), 0, true,
                Rw(0, false, 0, Lock(Some(0), [], []), [WriteAnnounce, Outside, Outside]));
    all := Goes(s, all, Rw(0, false, 0, Lock(Some(0), [], []), [WriteAnnounce, Outside, Outside]), 0, true,
                Rw(0, false, 1, Lock(Some(0), [], []), [WriteTest, Outside, Outside]));
    all := Goes(s, all, Rw(0, false, 1, Lock(Some(0), [], []), [WriteTest, Outside, Outside]), 0, true,
                Rw(0, false, 1, Lock(Some(0), [], []), [WriteUncount, Outside, Outside]));
    all := Goes(s, all, Rw(0, false, 1, Lock(Some(0), [], []), [WriteUncount, Outside, Outside]), 0, true,
                Rw(0, false, 0, Lock(Some(0), [], []), [WriteClaim, Outside, Outside]));
    all := Goes(s, all, Rw(0, false, 0, Lock(Some(0), [], []), [WriteClaim, Outside, Outside]), 0, true,
                Rw(0, true, 0, Lock(Some(0), [], []), [WriteLeave, Outside, Outside]));
    all := Goes(s, all, Rw(0, true, 0, Lock(Some(0), [], []), [WriteLeave, Outside, Outside]), 0, true,
                Rw(0, true, 0, Lock(None, [], []), [Writing, Outside, Outside]));
  }

  lemma OthersQueue(s: Rw, run: seq<(Tid, bool)>) returns (all: seq<(Tid, bool)>)
    requires Leads(s, run, Rw(0, true, 0, Lock(None, [], []), [Writing, Outside, Outside]))
    ensures Leads(s, all, Rw(0, true, 1, Lock(None, [], [1, 2]), [Writing, ReadWait, WriteWait]))
  {
    hide Leads;
    all := run;
    all := Goes(s, all, Rw(0, true, 0, Lock(None, [], []), [Writing, Outside, Outside]), 1, false,
                Rw(0, true, 0, Lock(Some(1), [], []), [Writing, ReadTest, Outside]));
    all := Goes(s, all, Rw(0, true, 0, Lock(Some(1), [], []), [Writing, ReadTest, Outside]), 1, false,
                Rw(0, true, 0, Lock(None, [], [1]), [Writing, ReadWait, Outside]));
    all := Goes(s, all, Rw(0, true, 0, Lock(None, [], [1]), [Writing, ReadWait, Outside]), 2, true,
                Rw(0, true, 0, Lock(Some(2), [], [1]), [Writing, ReadWait, WriteAnnounce]));
    all := Goes(s, all, Rw(0, true, 0, Lock(Some(2), [], [1]), [Writing, ReadWait, WriteAnnounce]), 2, true,
                Rw(0, true, 1, Lock(Some(2), [], [1]), [Writing, ReadWait, WriteTest]));
    all := Goes(s, all, Rw(0, true, 1, Lock(Some(2), [], [1]), [Writing, ReadWait, WriteTest]), 2, true,
                Rw(0, true, 1, Lock(None, [], [1, 2]), [Writing, ReadWait, WriteWait]));
  }

  lemma WriterUnlocks(s: Rw, run: seq<(Tid, bool)>) returns (all: seq<(Tid, bool)>)
    requires Leads(s, run, Rw(0, true, 1, Lock(None, [], [1, 2]), [Writing, ReadWait, WriteWait]))
    ensures Leads(s, all, Rw(0, false, 1, Lock(Some(0), [], [1, 2]), [WriteWake, ReadWait, WriteWait]))
  {
    hide Leads;
    all := run;
    all := Goes(s, all, Rw(0, true, 1, Lock(None, [], [1, 2]), [Writing, ReadWait, WriteWait]), 0, true,
                Rw(0, true, 1, Lock(Some(0), [], [1, 2]), [WriteUnclaim, ReadWait, WriteWait]));
    all := Goes(s, all, Rw(0, true, 1, Lock(Some(0), [], [1, 2]), [WriteUnclaim, ReadWait, WriteWait]), 0, true,
                Rw(0, false, 1, Lock(Some(0), [], [1, 2]), [WriteWake, ReadWait, WriteWait]));
  }

  lemma WriterLeaves(s: Rw, run: seq<(Tid, bool)>) returns (all: seq<(Tid, bool)>)
    requires Leads(s, run, Rw(0, false, 1, Lock(Some(0), [], [1, 2]), [WriteWake, ReadWait, WriteWait]))
    ensures Leads(s, all, Rw(0, false, 1, Lock(Some(1), [], [2]), [Outside, ReadWait, WriteWait]))
  {
    hide Leads;
    all := run;
    all := Goes(s, all, Rw(0, false, 1, Lock(Some(0), [], [1, 2]), [WriteWake, ReadWait, WriteWait]), 0, true,
                Rw(0, false, 1, Lock(Some(0), [1], [2]), [WriteGone, ReadWait, WriteWait]));
    all := Goes(s, all, Rw(0, false, 1, Lock(Some(0), [1], [2]), [WriteGone, ReadWait, WriteWait]), 0, true,
                Rw(0, false, 1, Lock(Some(1), [], [2]), [Outside, ReadWait, WriteWait]));
  }

  lemma ReaderGoesBack(s: Rw, run: seq<(Tid, bool)>) returns (all: seq<(Tid, bool)>)
    requires Leads(s, run, Rw(0, false, 1, Lock(Some(1), [], [2]), [Outside, ReadWait, WriteWait]))
    ensures Leads(s, all, Rw(0, false, 1, Lock(None, [], [2, 1]), [Outside, ReadWait, WriteWait]))
  {
    hide Leads;
    all := run;
    all := Goes(s, all, Rw(0, false, 1, Lock(Some(1), [], [2]), [Outside, ReadWait, WriteWait]), 1, false,
                Rw(0, false, 1, Lock(Some(1), [], [2]), [Outside, ReadTest, WriteWait]));
    all := Goes(s, all, Rw(0, false, 1, Lock(Some(1), [], [2]), [Outside, ReadTest, WriteWait]), 1, false,
                Rw(0, false, 1, Lock(None, [], [2, 1]), [Outside, ReadWait, WriteWait]));
  }

  /** The signal at the end of a write wakes one thread. If that is a reader while a writer waits, it goes
      back to sleep, and then nobody but a newcomer can move: the lock is free and the writer sleeps on. */
  lemma WriterLeftAsleep() returns (run: seq<(Tid, bool)>)
    ensures var start := Rw(0, false, 0, Lock(None, [], []), [Outside, Outside, Outside]);
            CanRun(start, run) &&
            var s := After(start, run);
            && s.pcs == [Outside, ReadWait, WriteWait] && s.monitor.owner == None && !s.writer && s.readers == 0
            && !CanStep(s, 1) && !CanStep(s, 2)
  {
    var start := Rw(0, false, 0, Lock(None, [], []), [Outside, Outside, Outside]);
    assert Leads(start, [], start);
    run := WriterTakes(start, []);
    run := OthersQueue(start, run);
    run := WriterUnlocks(start, run);
    run := WriterLeaves(start, run);
    run := ReaderGoesBack(start, run);
  }
}
