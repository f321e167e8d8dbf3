/** The user-level scheduler as a state machine: each primitive up to the point where it switches
    to another thread. */
module Scheduling {
  import opened Options

  const NUM_PRIORITIES: nat := 15
  const QUANTUM_BASE: nat := 5
  const STATIC_MAX: nat := 4
  const DYN_MIN: nat := 5

  /** Position in the table of threads; the source numbers threads from 1. */
  type Tid = nat
  type Priority = p: int | 0 <= p < NUM_PRIORITIES

  /** One FIFO queue for every priority. */
  type RunQueue = rq: seq<seq<Tid>> | |rq| == NUM_PRIORITIES witness seq(NUM_PRIORITIES, _ => [])

  /** Where a thread goes on when it next gets the processor. A thread in `InWait` has been preempted
      inside the unlock that monitor_wait calls and has yet to block. */
  datatype Pc = Ready | Locking(l: nat) | InWait(l: nat) | Waiting(l: nat) | Sleeping | Joining | Done

  /** `held` are the locks that the thread is between taking and releasing. */
  datatype Thread = Thread(base: Priority, priority: Priority, quantum: int, nice: int, wakeTime: int,
                           joinTid: Tid, pc: Pc, held: set<nat>)

  /** A mutex, or a monitor with its mutex; only monitors have `waiters`. */
  datatype Lock = Lock(owner: Option<Tid>, queue: seq<Tid>, waiters: seq<Tid>)

  datatype State = State(threads: seq<Thread>, running: Tid, active: RunQueue, expired: RunQueue,
                         sleeping: seq<Tid>, joining: seq<Tid>, zombies: seq<Tid>, dead: seq<Tid>,
                         locks: seq<Lock>, clock: int, finished: bool)

  predicate Below(q: seq<Tid>, n: nat) {
    forall t | t in q :: t < n
  }

  function First(q: seq<Tid>): (t: Tid)
    requires q != []
    ensures t in q
  {
    q[0]
  }

  function Rest(q: seq<Tid>): (r: seq<Tid>)
    requires q != []
    ensures forall t | t in r :: t in q
    ensures q == [First(q)] + r
  {
    q[1..]
  }

  /** Every queue that the scheduler takes threads from holds existing threads. */
  predicate Shaped(s: State) {
    && s.running < |s.threads|
    && (forall p: Priority :: Below(s.active[p], |s.threads|) && Below(s.expired[p], |s.threads|))
    && Below(s.sleeping, |s.threads|) && Below(s.joining, |s.threads|) && Below(s.zombies, |s.threads|)
    && (forall l | 0 <= l < |s.locks| :: Below(s.locks[l].queue, |s.threads|) && Below(s.locks[l].waiters, |s.threads|))
  }

  // ----- priorities and quanta -----

  function Clamp(p: int): (r: Priority)
    ensures DYN_MIN <= r
  {
    if p < DYN_MIN then DYN_MIN else if p > 14 then 14 else p
  }

  /** Division by two as in C. */
  function Half(q: int): int {
    if q >= 0 then q / 2 else -(-q / 2)
  }

  /** recalcular. */
  function Recalc(t: Thread): Thread {
    if t.priority <= STATIC_MAX then t
    else
      var q := QUANTUM_BASE + Half(t.quantum);
      t.(quantum := if q < 1 then 1 else q, priority := Clamp(t.base - t.quantum + t.nice))
  }

  // ----- run queues -----

  /** The best priority that has a thread, or -1. */
  function Best(rq: RunQueue): (p: int)
    ensures -1 <= p < NUM_PRIORITIES
    ensures p >= 0 ==> rq[p] != []
    ensures forall q: Priority :: rq[q] != [] ==> 0 <= p <= q
  {
    BestFrom(rq, 0)
  }

  function BestFrom(rq: RunQueue, i: nat): (p: int)
    requires i <= NUM_PRIORITIES
    ensures -1 <= p < NUM_PRIORITIES
    ensures p >= 0 ==> i <= p && rq[p] != []
    ensures forall q: Priority :: i <= q && rq[q] != [] ==> 0 <= p <= q
    decreases NUM_PRIORITIES - i
  {
    if i == NUM_PRIORITIES then -1 else if rq[i] != [] then i else BestFrom(rq, i + 1)
  }

  predicate Empty(rq: RunQueue) {
    Best(rq) == -1
  }

  function Insert(rq: RunQueue, p: Priority, t: Tid): RunQueue {
    rq[p := rq[p] + [t]]
  }

  // ----- pieces of steps -----

  function WithThread(s: State, t: Tid, th: Thread): (r: State)
    requires Shaped(s) && t < |s.threads|
    ensures Shaped(r)
  {
    s.(threads := s.threads[t := th])
  }

  function Activate(s: State, t: Tid): (r: State)
    requires Shaped(s) && t < |s.threads|
    ensures Shaped(r) && !Empty(r.active) && r == s.(active := r.active)
  {
    var r := s.(active := Insert(s.active, s.threads[t].priority, t));
    assert t in r.active[s.threads[t].priority];
    r
  }

  function Expire(s: State, t: Tid): (r: State)
    requires Shaped(s) && t < |s.threads|
    ensures Shaped(r) && !Empty(r.expired)
  {
    var r := s.(expired := Insert(s.expired, s.threads[t].priority, t));
    assert t in r.expired[s.threads[t].priority];
    r
  }

  predicate SomeReady(s: State) {
    !Empty(s.active) || !Empty(s.expired)
  }

  function SwapIfEmpty(s: State): (r: State)
    requires Shaped(s)
    ensures Shaped(r) && (SomeReady(s) ==> !Empty(r.active))
  {
    if Empty(s.active) then s.(active := s.expired, expired := s.active) else s
  }

  /** What returning from the switch means to a thread. */
  function Resume(t: Thread): Thread {
    match t.pc
    case InWait(_) => t
    case Locking(l) => t.(pc := Ready, held := t.held + {l})
    case Waiting(l) => t.(pc := Ready, held := t.held + {l})
    case _ => t.(pc := Ready)
  }

  /** rq_retirar and sthread_switch. */
  function Dispatch(s: State): (r: State)
    requires Shaped(s) && !Empty(s.active)
    ensures Shaped(r)
  {
    var p := Best(s.active);
    var t := First(s.active[p]);
    s.(running := t, active := s.active[p := Rest(s.active[p])], threads := s.threads[t := Resume(s.threads[t])])
  }

  /** The running thread gives up the processor; its pc says why. */
  function Leave(s: State, pc: Pc): (r: State)
    requires Shaped(s)
    ensures Shaped(r)
  {
    WithThread(s, s.running, s.threads[s.running].(pc := pc))
  }

  function Block(s: State): (r: State)
    requires Shaped(s) && SomeReady(s)
    ensures Shaped(r)
  {
    Dispatch(SwapIfEmpty(s))
  }

  // ----- threads -----

  function Bounded(x: int, lo: int, hi: int): int {
    if x < lo then lo else if x > hi then hi else x
  }

  /** sthread_user_create_p. */
  function Create(s: State, priority: int): (r: State)
    requires Shaped(s)
    ensures Shaped(r)
  {
    var p: Priority := Bounded(priority, 0, 14);
    Activate(s.(threads := s.threads + [Thread(p, p, QUANTUM_BASE, 0, 0, 0, Ready, {})]), |s.threads|)
  }

  /** sthread_user_nice: the new state and the forecast it returns. */
  function Nice(s: State, nice: int): (r: (State, Priority))
    requires Shaped(s)
    ensures Shaped(r.0)
  {
    var t := s.threads[s.running];
    var n := Bounded(nice, 0, 10);
    (WithThread(s, s.running, t.(nice := n)), Clamp(t.base - t.quantum + n))
  }

  /** sthread_user_yield. */
  function Yield(s: State): (r: State)
    requires Shaped(s)
    ensures Shaped(r)
  {
    Dispatch(Activate(WithThread(s, s.running, Recalc(s.threads[s.running])), s.running))
  }

  /** The threads of a queue that satisfy (or do not satisfy) a condition, in order. */
  function Only(q: seq<Tid>, p: Tid -> bool): (r: seq<Tid>)
    ensures |r| <= |q|
    ensures forall t :: t in r <==> t in q && p(t)
  {
    if q == [] then [] else (if p(q[0]) then [q[0]] else []) + Only(q[1..], p)
  }

  /** Threads go back to the active queues one by one. */
  function ActivateAll(s: State, q: seq<Tid>, wake: Thread -> Thread): (r: State)
    requires Shaped(s) && Below(q, |s.threads|)
    ensures Shaped(r) && |r.threads| == |s.threads| && r == s.(threads := r.threads, active := r.active)
    decreases |q|
  {
    if q == [] then s
    else ActivateAll(Activate(WithThread(s, First(q), wake(s.threads[First(q)])), First(q)), Rest(q), wake)
  }

  /** The end of sthread_user_exit: the thread is buried, or kept as a zombie for a later join; the
      program ends when nobody is ready, even if others sleep. */
  function Die(s: State, zombie: bool): (r: State)
    requires Shaped(s)
    ensures Shaped(r)
  {
    var gone := if zombie then Leave(s, Done).(zombies := s.zombies + [s.running])
                else Leave(s, Done).(dead := s.dead + [s.running]);
    if SomeReady(gone) then Block(gone) else gone.(finished := true)
  }

  /** sthread_user_exit. */
  function Exit(s: State): (r: State)
    requires Shaped(s)
    ensures Shaped(r)
  {
    var joins := (t: Tid) => t < |s.threads| && s.threads[t].joinTid == s.running;
    var freed := ActivateAll(s.(joining := Only(s.joining, (t: Tid) => !joins(t))), Only(s.joining, joins),
                             (th: Thread) => th.(pc := Ready));
    Die(freed, Only(s.joining, joins) == [])
  }

  predicate Queued(rq: RunQueue, t: Tid) {
    exists p: Priority :: t in rq[p]
  }

  /** The lists that sthread_user_join looks through; those of mutexes and monitors are not among them. */
  predicate Visible(s: State, t: Tid) {
    s.running == t || Queued(s.active, t) || Queued(s.expired, t) || t in s.sleeping || t in s.joining
  }

  predicate JoinBlocks(s: State, t: Tid) {
    t !in s.zombies && Visible(s, t)
  }

  /** A zombie that is joined is dead. */
  function Bury(s: State, t: Tid): (r: State)
    requires Shaped(s)
    ensures Shaped(r)
  {
    s.(zombies := Only(s.zombies, (z: Tid) => z != t), dead := s.dead + Only(s.zombies, (z: Tid) => z == t))
  }

  function JoinQueued(s: State, t: Tid): (r: State)
    requires Shaped(s)
    ensures Shaped(r) && r.active == s.active && r.expired == s.expired
  {
    WithThread(s, s.running, s.threads[s.running].(joinTid := t, pc := Joining)).(joining := s.joining + [s.running])
  }

  /** sthread_user_join up to its switch; it returns at once with 0 for a zombie and with -1 for a
      thread that it does not find. */
  function Join(s: State, t: Tid): (r: State)
    requires Shaped(s) && t < |s.threads| && (JoinBlocks(s, t) ==> SomeReady(s))
    ensures Shaped(r)
  {
    if t in s.zombies then Bury(s, t) else if Visible(s, t) then Block(JoinQueued(s, t)) else s
  }

  /** `10L * time / CLOCK_TICK`, rounding towards zero. */
  function SleepTicks(time: int): int {
    if time >= 0 then 10 * time / 100 else -(10 * -time / 100)
  }

  function Doze(s: State, until: int): (r: State)
    requires Shaped(s)
    ensures Shaped(r) && r.active == s.active && r.expired == s.expired
  {
    var th := s.threads[s.running].(wakeTime := until, pc := Sleeping);
    WithThread(s, s.running, th).(sleeping := s.sleeping + [s.running])
  }

  /** sthread_user_sleep. */
  function Sleep(s: State, time: int): (r: State)
    requires Shaped(s) && (SleepTicks(time) != 0 ==> SomeReady(s))
    ensures Shaped(r)
  {
    if SleepTicks(time) == 0 then s else Block(Doze(s, s.clock + SleepTicks(time)))
  }

  // ----- the clock -----

  function Awake(t: Thread): Thread {
    t.(wakeTime := 0, quantum := QUANTUM_BASE, pc := Ready)
  }

  /** The first half of the dispatcher: sleepers whose time has come go to the active queues. */
  function Wake(s: State): (r: State)
    requires Shaped(s)
    ensures Shaped(r) && |r.threads| == |s.threads| && r.running == s.running && r.locks == s.locks
  {
    var due := (t: Tid) => t < |s.threads| && s.threads[t].wakeTime <= s.clock;
    ActivateAll(s.(sleeping := Only(s.sleeping, (t: Tid) => !due(t))), Only(s.sleeping, due), Awake)
  }

  /** The second half: charge the running thread for the tick. */
  function Charge(s: State): (r: State)
    requires Shaped(s)
    ensures Shaped(r)
  {
    var t := s.threads[s.running];
    if t.quantum - 1 > 0 then
      var charged := WithThread(s, s.running, t.(quantum := t.quantum - 1));
      if 0 <= Best(charged.active) < t.priority then Dispatch(Activate(charged, s.running)) else charged
    else
      Block(Expire(WithThread(s, s.running, Recalc(t.(quantum := 0))), s.running))
  }

  /** sthread_user_dispatcher. */
  function Tick(s: State): (r: State)
    requires Shaped(s)
    ensures Shaped(r)
  {
    Charge(Wake(s.(clock := s.clock + 1)))
  }

  // ----- mutexes and monitors -----

  function WithLock(s: State, l: nat, k: Lock): (r: State)
    requires Shaped(s) && l < |s.locks| && Below(k.queue, |s.threads|) && Below(k.waiters, |s.threads|)
    ensures Shaped(r)
  {
    s.(locks := s.locks[l := k])
  }

  predicate Owns(s: State, l: nat) {
    l < |s.locks| && s.locks[l].owner == Some(s.running)
  }

  /** sthread_user_mutex_lock and sthread_user_monitor_enter. */
  function Acquire(s: State, l: nat): (r: State)
    requires Shaped(s) && l < |s.locks| && (s.locks[l].owner.Some? ==> SomeReady(s))
    ensures Shaped(r)
  {
    var me := s.threads[s.running];
    if s.locks[l].owner == None then
      WithLock(WithThread(s, s.running, me.(held := me.held + {l})), l, s.locks[l].(owner := Some(s.running)))
    else
      var waiting := WithThread(s, s.running, Recalc(me).(pc := Locking(l)));
      Block(WithLock(waiting, l, s.locks[l].(queue := s.locks[l].queue + [s.running])))
  }

  /** The lock goes to the thread that has waited longest. */
  function HandOff(s: State, l: nat): (r: State)
    requires Shaped(s) && l < |s.locks| && s.locks[l].queue != []
    ensures Shaped(r) && !Empty(r.active) && r.running == s.running && r.threads == s.threads
  {
    var k := s.locks[l];
    Activate(WithLock(s, l, k.(owner := Some(First(k.queue)), queue := Rest(k.queue))), First(k.queue))
  }

  /** The lock given up: free, or the next thread's. */
  function GivenUp(s: State, l: nat): (r: State)
    requires Shaped(s) && l < |s.locks|
    ensures Shaped(r) && r.running == s.running
    ensures r.threads[r.running].pc == s.threads[s.running].pc
    ensures s.locks[l].queue != [] || SomeReady(s) ==> SomeReady(r)
  {
    var let := WithThread(s, s.running, s.threads[s.running].(held := s.threads[s.running].held - {l}));
    if s.locks[l].queue == [] then WithLock(let, l, s.locks[l].(owner := None)) else HandOff(let, l)
  }

  /** The thread that gets the lock is better than the running one. */
  predicate Outranked(s: State, l: nat)
    requires Shaped(s) && l < |s.locks|
  {
    s.locks[l].queue != [] && s.threads[First(s.locks[l].queue)].priority < s.threads[s.running].priority
  }

  /** sthread_user_mutex_unlock and sthread_user_monitor_exit. */
  function Release(s: State, l: nat): (r: State)
    requires Shaped(s)
    ensures Shaped(r)
  {
    if !Owns(s, l) then s
    else if Outranked(s, l) then Dispatch(Activate(GivenUp(s, l), s.running))
    else GivenUp(s, l)
  }

  /** The start of sthread_user_monitor_wait: the caller joins the waiters. */
  function Park(s: State, l: nat): (r: State)
    requires Shaped(s) && l < |s.locks|
    ensures Shaped(r) && |r.locks| == |s.locks| && r.locks[l].queue == s.locks[l].queue && Owns(r, l) == Owns(s, l)
    ensures r.running == s.running && r.threads[r.running].pc.InWait? && SomeReady(r) == SomeReady(s)
  {
    var parked := WithThread(s, s.running, Recalc(s.threads[s.running]).(pc := InWait(l)));
    WithLock(parked, l, s.locks[l].(waiters := s.locks[l].waiters + [s.running]))
  }

  /** The rest of sthread_user_monitor_wait, after its unlock: its own block. */
  function FinishWait(s: State): (r: State)
    requires Shaped(s) && s.threads[s.running].pc.InWait? && SomeReady(s)
    ensures Shaped(r)
  {
    Block(Leave(s, Waiting(s.threads[s.running].pc.l)))
  }

  /** sthread_user_monitor_wait, up to its own block or to being preempted in the unlock. */
  function Wait(s: State, l: nat): (r: State)
    requires Shaped(s) && (Owns(s, l) && s.locks[l].queue == [] ==> SomeReady(s))
    ensures Shaped(r)
  {
    if !Owns(s, l) then s
    else
      var parked := Park(s, l);
      if Outranked(parked, l) then Release(parked, l) else FinishWait(GivenUp(parked, l))
  }

  /** sthread_user_monitor_signal: the longest waiter joins the queue of the mutex. */
  function Signal(s: State, l: nat): (r: State)
    requires Shaped(s)
    ensures Shaped(r)
  {
    if !Owns(s, l) || s.locks[l].waiters == [] then s
    else
      var k := s.locks[l];
      WithLock(s, l, k.(queue := k.queue + [First(k.waiters)], waiters := Rest(k.waiters)))
  }

  // ----- runs -----

  datatype Op =
    | TickOp | CreateOp(priority: int) | NiceOp(nice: int) | YieldOp | ExitOp | JoinOp(target: Tid) | SleepOp(time: int)
    | NewLockOp | AcquireOp(l: nat) | ReleaseOp(l: nat) | WaitOp(l: nat) | SignalOp(l: nat) | FinishWaitOp

  /** A step can be taken: the arguments exist, a thread that was preempted inside monitor_wait first
      finishes it, and a thread that blocks leaves somebody ready. */
  predicate Enabled(s: State, op: Op) {
    && Shaped(s) && !s.finished
    && (op.FinishWaitOp? <==> s.threads[s.running].pc.InWait?)
    && match op
       case JoinOp(t) => t < |s.threads| && (JoinBlocks(s, t) ==> SomeReady(s))
       case SleepOp(time) => SleepTicks(time) != 0 ==> SomeReady(s)
       case AcquireOp(l) => l < |s.locks| && (s.locks[l].owner.Some? ==> SomeReady(s))
       case ReleaseOp(l) => l < |s.locks|
       case WaitOp(l) => l < |s.locks| && (Owns(s, l) && s.locks[l].queue == [] ==> SomeReady(s))
       case SignalOp(l) => l < |s.locks|
       case FinishWaitOp => SomeReady(s)
       case _ => true
  }

  function Next(s: State, op: Op): (r: State)
    requires Enabled(s, op)
    ensures Shaped(r)
  {
    match op
    case TickOp => Tick(s)
    case CreateOp(p) => Create(s, p)
    case NiceOp(n) => Nice(s, n).0
    case YieldOp => Yield(s)
    case ExitOp => Exit(s)
    case JoinOp(t) => Join(s, t)
    case SleepOp(time) => Sleep(s, time)
    case NewLockOp => s.(locks := s.locks + [Lock(None, [], [])])
    case AcquireOp(l) => Acquire(s, l)
    case ReleaseOp(l) => Release(s, l)
    case WaitOp(l) => Wait(s, l)
    case SignalOp(l) => Signal(s, l)
    case FinishWaitOp => FinishWait(s)
  }

  /** sthread_user_init. */
  const START: State :=
    State([Thread(7, 7, QUANTUM_BASE, 0, 0, 0, Ready, {})], 0, NO_THREADS, NO_THREADS, [], [], [], [], [], 1, false)

  const NO_THREADS: RunQueue := seq(NUM_PRIORITIES, _ => [])
}
