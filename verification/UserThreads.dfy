/** The thread library as it is written: linked queues and thread records updated in place, list-rebuilding
    loops, each call proved equal to its step of the state machine. */
module UserThreads {
  import opened Options
  import opened Scheduling
  import opened Conservation
  import opened Safety
  import opened ThreadQueue
  import opened Rebuilding

  /** runqueue_t: a queue for every priority. `side` tells the two run queues apart. */
  class Levels {
    ghost const side: bool
    const queues: seq<Queue>

    ghost predicate Placed(lib: Library)
      reads lib, lib.queues
    {
      |queues| == NUM_PRIORITIES && forall p: Priority :: queues[p] in lib.queues && queues[p].place == Level(side, p)
    }

    ghost function Lists(): (r: RunQueue)
      requires |queues| == NUM_PRIORITIES
      reads queues
      ensures forall p: Priority :: r[p] == queues[p].contents
    {
      seq(NUM_PRIORITIES, i requires 0 <= i < NUM_PRIORITIES reads queues => queues[i].contents)
    }

    /** criar_runqueue. */
    constructor (lib: Library, ghost side: bool)
      requires lib.Valid()
      modifies lib`spare, lib`queues
      ensures lib.Valid() && old(lib.queues) <= lib.queues && fresh(lib.queues - old(lib.queues))
      ensures Placed(lib) && this.side == side && fresh(queues)
      ensures forall p: Priority :: queues[p].contents == []
    {
      this.side := side;
      var made: seq<Queue> := [];
      for i := 0 to NUM_PRIORITIES
        invariant |made| == i && lib.Valid()
        invariant old(lib.queues) <= lib.queues && fresh(lib.queues - old(lib.queues)) && fresh(made)
        invariant forall p | 0 <= p < i :: made[p] in lib.queues && made[p].place == Level(side, p) && made[p].contents == []
      {
        var q := lib.CreateQueue(Level(side, i));
        made := made + [q];
      }
      queues := made;
    }

    /** rq_melhor_prio. */
    method BestPriority(lib: Library) returns (p: int)
      requires lib.Valid() && Placed(lib)
      ensures p == Best(Lists())
    {
      for i := 0 to NUM_PRIORITIES
        invariant forall q: Priority | q < i :: Lists()[q] == []
      {
        var empty := lib.IsEmpty(queues[i]);
        if !empty {
          return i;
        }
      }
      return -1;
    }

    /** The search of sthread_user_join in one set of queues. */
    method Search(lib: Library, t: Tid) returns (found: bool)
      requires lib.Valid() && Placed(lib)
      ensures found == Queued(Lists(), t)
    {
      found := false;
      var i := 0;
      while i < NUM_PRIORITIES && !found
        invariant 0 <= i <= NUM_PRIORITIES
        invariant found ==> Queued(Lists(), t)
        invariant !found ==> forall q: Priority | q < i :: t !in Lists()[q]
      {
        found := lib.Find(queues[i], t);
        i := i + 1;
      }
    }
  }

  /** A mutex, or a monitor with its mutex. */
  datatype Monitor = Monitor(owner: Option<Tid>, queue: Queue, waiters: Queue)

  lemma PutActive(s: State, side: bool, p: Priority, q: seq<Tid>)
    ensures Put(s, side, Level(side, p), q) == s.(active := s.active[p := q])
  {
  }

  lemma PutExpired(s: State, side: bool, p: Priority, q: seq<Tid>)
    ensures Put(s, side, Level(!side, p), q) == s.(expired := s.expired[p := q])
  {
  }

  ghost predicate LockPlaced(lib: Library, k: Monitor, l: nat)
    reads lib, lib.queues
  {
    && k.queue in lib.queues && k.queue.place == OfMutex(l)
    && k.waiters in lib.queues && k.waiters.place == OfMonitor(l)
  }

  ghost predicate LocksPlaced(lib: Library, locks: seq<Monitor>)
    reads lib, lib.queues
  {
    forall l: nat | l < |locks| :: LockPlaced(lib, locks[l], l)
  }

  ghost function LocksView(lib: Library, locks: seq<Monitor>): (r: seq<Lock>)
    requires LocksPlaced(lib, locks)
    reads lib, lib.queues
    ensures |r| == |locks|
    ensures forall l: nat | l < |locks| :: r[l] == Lock(locks[l].owner, locks[l].queue.contents, locks[l].waiters.contents)
  {
    seq(|locks|, l requires 0 <= l < |locks| && LocksPlaced(lib, locks) reads lib, lib.queues =>
      assert LockPlaced(lib, locks[l], l); Lock(locks[l].owner, locks[l].queue.contents, locks[l].waiters.contents))
  }

  lemma OtherOwner(lib: Library, locks: seq<Monitor>, l: nat, owner: Option<Tid>)
    requires LocksPlaced(lib, locks) && l < |locks|
    ensures var now := locks[l := locks[l].(owner := owner)];
            && LocksPlaced(lib, now)
            && LocksView(lib, now) == LocksView(lib, locks)[l := LocksView(lib, locks)[l].(owner := owner)]
  {
    var now := locks[l := locks[l].(owner := owner)];
    forall k: nat | k < |now| ensures LockPlaced(lib, now[k], k) {
      assert LockPlaced(lib, locks[k], k);
    }
    assert LocksView(lib, now) == LocksView(lib, locks)[l := LocksView(lib, locks)[l].(owner := owner)];
  }

  /** A queue for one of the levels, a mutex or a monitor. */
  predicate Fixed(at: Place) {
    at.Level? || at.OfMutex? || at.OfMonitor?
  }

  lemma OneMoreLock(lib: Library, locks: seq<Monitor>, k: Monitor)
    requires LocksPlaced(lib, locks) && LockPlaced(lib, k, |locks|)
    ensures LocksPlaced(lib, locks + [k])
    ensures LocksView(lib, locks + [k]) == LocksView(lib, locks) + [Lock(k.owner, k.queue.contents, k.waiters.contents)]
  {
    var now := locks + [k];
    forall l: nat | l < |now| ensures LockPlaced(lib, now[l], l) {
      assert l < |locks| ==> LockPlaced(lib, locks[l], l);
    }
    assert LocksView(lib, now) == LocksView(lib, locks) + [Lock(k.owner, k.queue.contents, k.waiters.contents)];
  }

  /** The state with other contents in one of its queues; `side` is that of the active run queue. */
  ghost function Put(s: State, side: bool, at: Place, q: seq<Tid>): State {
    match at
    case Level(other, p) =>
      if p >= NUM_PRIORITIES then s
      else if other == side then s.(active := s.active[p := q])
      else s.(expired := s.expired[p := q])
    case Sleepers => s.(sleeping := q)
    case Joiners => s.(joining := q)
    case Zombies => s.(zombies := q)
    case Dead => s.(dead := q)
    case OfMutex(l) => if l < |s.locks| then s.(locks := s.locks[l := s.locks[l].(queue := q)]) else s
    case OfMonitor(l) => if l < |s.locks| then s.(locks := s.locks[l := s.locks[l].(waiters := q)]) else s
    case Temporary => s
  }

  ghost function Without(rq: RunQueue): RunQueue
    requires !Empty(rq)
  {
    rq[Best(rq) := Rest(rq[Best(rq)])]
  }

  lemma BestExists(s: State)
    requires Shaped(s) && !Empty(s.active)
    ensures First(s.active[Best(s.active)]) < |s.threads|
  {
  }

  class Scheduler {
    const lib: Library
    var threads: seq<Thread>
    var running: Tid
    var active: Levels
    var expired: Levels
    var sleeping: Queue
    var joining: Queue
    var zombies: Queue
    var dead: Queue
    var locks: seq<Monitor>
    var clock: int
    var finished: bool

    ghost predicate Valid()
      reads this`active, this`expired, this`sleeping, this`joining, this`zombies, this`dead, this`locks
      reads lib, lib.queues, lib.live
    {
      && lib.Valid()
      && active.side != expired.side && active.Placed(lib) && expired.Placed(lib)
      && sleeping in lib.queues && sleeping.place == Sleepers
      && joining in lib.queues && joining.place == Joiners
      && zombies in lib.queues && zombies.place == Zombies
      && dead in lib.queues && dead.place == Dead
      && LocksPlaced(lib, locks)
    }

    /** The state that the queues and records stand for. */
    ghost function View(): (r: State)
      requires Valid()
      reads this, lib, lib.queues, lib.live
      ensures r.threads == threads && r.running == running && r.clock == clock && |r.locks| == |locks|
    {
      State(threads, running, active.Lists(), expired.Lists(), sleeping.contents, joining.contents, zombies.contents,
            dead.contents, LocksView(lib, locks), clock, finished)
    }

    /** sthread_user_init. */
    constructor ()
      ensures Valid() && View() == START && Inv(View())
      ensures fresh(lib) && fresh(lib.queues) && fresh(lib.live)
    {
      hide Inv, Library.Valid, Shaped, Levels.Lists, Levels.Placed, Best, BestFrom;
      var made := new Library();
      var s, j, z, d := NewLists(made);
      var a, e := NewLevels(made);
      lib, active, expired, sleeping, joining, zombies, dead := made, a, e, s, j, z, d;
      threads := [Thread(7, 7, QUANTUM_BASE, 0, 0, 0, Ready, {})];
      running, locks, clock, finished := 0, [], 1, false;
      new;
      StartIsSound();
    }

    static method NewLevels(lib: Library) returns (a: Levels, e: Levels)
      requires lib.Valid()
      modifies lib`spare, lib`queues
      ensures lib.Valid() && old(lib.queues) <= lib.queues && fresh(lib.queues - old(lib.queues))
      ensures a.side != e.side && a.Placed(lib) && e.Placed(lib) && a.Lists() == NO_THREADS == e.Lists()
    {
      hide Library.Valid;
      a := new Levels(lib, true);
      e := new Levels(lib, false);
      assert a.Lists() == NO_THREADS && e.Lists() == NO_THREADS;
    }

    static method NewLists(lib: Library) returns (s: Queue, j: Queue, z: Queue, d: Queue)
      requires lib.Valid()
      modifies lib`spare, lib`queues
      ensures lib.Valid() && old(lib.queues) <= lib.queues && fresh(lib.queues - old(lib.queues))
      ensures s in lib.queues && j in lib.queues && z in lib.queues && d in lib.queues
      ensures s.place == Sleepers && j.place == Joiners && z.place == Zombies && d.place == Dead
      ensures s.contents == j.contents == z.contents == d.contents == []
    {
      hide Library.Valid;
      s := lib.CreateQueue(Sleepers);
      j := lib.CreateQueue(Joiners);
      z := lib.CreateQueue(Zombies);
      d := lib.CreateQueue(Dead);
    }

    /** The queue is one of the scheduler's, or one being built. */
    ghost predicate Known(q: Queue)
      requires Valid()
      reads this, lib, lib.queues, lib.live
    {
      && q in lib.queues
      && match q.place
         case Level(side, p) => p < NUM_PRIORITIES && q == (if side == active.side then active else expired).queues[p]
         case Sleepers => q == sleeping
         case Joiners => q == joining
         case Zombies => q == zombies
         case Dead => q == dead
         case OfMutex(l) => l < |locks| && q == locks[l].queue
         case OfMonitor(l) => l < |locks| && q == locks[l].waiters
         case Temporary => true
    }

    twostate predicate OnlyIn(q: Queue)
      requires old(Valid())
      reads this, lib, lib.queues
    {
      && unchanged(this) && lib.queues == old(lib.queues) && old(Known(q)) && q.place == old(q.place)
      && forall r | r in lib.queues && r != q :: r.place == old(r.place) && r.contents == old(r.contents)
    }

    twostate lemma LevelsAfter(q: Queue)
      requires old(Valid()) && OnlyIn(q)
      ensures active.Placed(lib) && expired.Placed(lib)
      ensures active.Lists() == Put(old(View()), active.side, q.place, q.contents).active
      ensures expired.Lists() == Put(old(View()), active.side, q.place, q.contents).expired
    {
      hide LocksPlaced, LocksView, Library.Valid;
    }

    twostate lemma LocksAfter(q: Queue)
      requires old(Valid()) && Valid() && OnlyIn(q)
      ensures LocksView(lib, locks) == Put(old(View()), active.side, q.place, q.contents).locks
    {
      ghost var was, now := old(LocksView(lib, locks)), Put(old(View()), active.side, q.place, q.contents).locks;
      forall l: nat | l < |locks| ensures LocksView(lib, locks)[l] == now[l] {
        assert LockPlaced(lib, locks[l], l);
        assert locks[l].queue != q ==> locks[l].queue.contents == was[l].queue;
        assert locks[l].waiters != q ==> locks[l].waiters.contents == was[l].waiters;
      }
      assert LocksView(lib, locks) == now;
    }

    /** A step that has changed the contents of one queue. */
    twostate lemma OneQueueChanged(q: Queue)
      requires old(Valid()) && lib.Valid() && OnlyIn(q)
      ensures Valid() && View() == Put(old(View()), active.side, q.place, q.contents)
    {
      LevelsAfter(q);
      forall l: nat | l < |locks| ensures LockPlaced(lib, locks[l], l) {
        assert old(LockPlaced(lib, locks[l], l));
      }
      LocksAfter(q);
    }

    /** The queues that are made once and for all keep their places and contents if nobody touches them. */
    twostate lemma FixedQueuesStay()
      requires old(Valid()) && active == old(active) && expired == old(expired) && locks == old(locks)
      requires forall q | q in old(lib.queues) && Fixed(old(q.place)) ::
                 q in lib.queues && q.place == old(q.place) && q.contents == old(q.contents)
      ensures active.Placed(lib) && active.Lists() == old(active.Lists())
      ensures expired.Placed(lib) && expired.Lists() == old(expired.Lists())
      ensures LocksPlaced(lib, locks) && LocksView(lib, locks) == old(LocksView(lib, locks))
    {
      assert active.Lists() == old(active.Lists());
      assert expired.Lists() == old(expired.Lists());
      forall l: nat | l < |locks| ensures LockPlaced(lib, locks[l], l) {
        assert old(LockPlaced(lib, locks[l], l));
      }
      assert LocksView(lib, locks) == old(LocksView(lib, locks));
    }

    /** queue_insert. */
    method Push(q: Queue, t: Tid)
      requires Valid() && Known(q)
      modifies lib`spare, lib`live, lib.live, q`first, q`last, q`elements, q`contents
      ensures Valid() && q.contents == old(q.contents) + [t] && fresh(lib.live - old(lib.live))
      ensures View() == Put(old(View()), active.side, q.place, q.contents)
    {
      lib.Insert(q, t);
      OneQueueChanged(q);
    }

    /** queue_remove. */
    method Pop(q: Queue) returns (t: Tid)
      requires Valid() && Known(q) && q.contents != []
      modifies lib`spare, lib`live, lib.live, q`first, q`last, q`elements, q`contents
      ensures Valid() && t == First(old(q.contents)) && q.contents == Rest(old(q.contents)) && lib.live <= old(lib.live)
      ensures View() == Put(old(View()), active.side, q.place, q.contents)
    {
      t := lib.Remove(q);
      OneQueueChanged(q);
    }

    /** Only what is new has been added to what the calls may write. */
    twostate predicate Grown()
      reads this, lib
    {
      fresh(lib.queues - old(lib.queues)) && fresh(lib.live - old(lib.live))
    }

    /** Lists being rebuilt have not been touched. */
    twostate predicate Aside()
      reads this, lib, lib.queues
    {
      forall q | q in old(lib.queues) && old(q.place) == Temporary :: q in lib.queues && q.place == Temporary && q.contents == old(q.contents)
    }

    method SetThread(t: Tid, th: Thread)
      requires Valid() && t < |threads|
      modifies this`threads
      ensures Valid() && View() == old(View()).(threads := old(threads)[t := th])
    {
      hide Valid, Levels.Lists, LocksView;
      threads := threads[t := th];
    }

    /** sthread_switch. */
    method Become(t: Tid)
      requires Valid() && t < |threads|
      modifies this`running, this`threads
      ensures Valid() && View() == old(View()).(running := t, threads := old(threads)[t := Resume(old(threads[t]))])
    {
      hide Valid, Resume, Levels.Lists, LocksView, Best, BestFrom;
      running := t;
      threads := threads[t := Resume(threads[t])];
    }

    lemma LibraryValid()
      requires Valid()
      ensures lib.Valid()
    {
    }

    method SetOwner(l: nat, owner: Option<Tid>)
      requires Valid() && l < |locks|
      modifies this`locks
      ensures Valid()
      ensures View() == old(View()).(locks := old(View()).locks[l := old(View()).locks[l].(owner := owner)])
    {
      hide Levels.Lists, Levels.Placed, LocksPlaced, LocksView, Library.Valid;
      OtherOwner(lib, locks, l, owner);
      locks := locks[l := locks[l].(owner := owner)];
    }

    lemma LevelOf(rq: Levels, p: Priority)
      requires Valid() && (rq == active || rq == expired)
      ensures |rq.queues| == NUM_PRIORITIES && rq.Placed(lib)
      ensures Known(rq.queues[p]) && rq.queues[p].place == Level(rq.side, p)
      ensures rq.queues[p].contents == (if rq == active then View().active else View().expired)[p]
      ensures active.side != expired.side && View().active == active.Lists()
    {
    }

    /** rq_inserir into the active queues. */
    method InsertActive(t: Tid)
      requires Valid() && Shaped(View()) && t < |threads|
      modifies lib`spare, lib`live, lib.queues, lib.live
      ensures Valid() && Grown() && Aside()
      ensures View() == Activate(old(View()), t)
    {
      hide Best, BestFrom, Valid, View, Known, Put;
      var p := threads[t].priority;
      LevelOf(active, p);
      PutActive(View(), active.side, p, View().active[p] + [t]);
      Push(active.queues[p], t);
    }

    /** rq_inserir into the expired queues. */
    method InsertExpired(t: Tid)
      requires Valid() && Shaped(View()) && t < |threads|
      modifies lib`spare, lib`live, lib.queues, lib.live
      ensures Valid() && Grown() && Aside()
      ensures View() == Expire(old(View()), t)
    {
      hide Best, BestFrom, Valid, View, Known, Put;
      var p := threads[t].priority;
      LevelOf(expired, p);
      PutExpired(View(), active.side, p, View().expired[p] + [t]);
      Push(expired.queues[p], t);
    }

    /** rq_melhor_prio of the active queues. */
    method BestActive() returns (p: int)
      requires Valid()
      ensures p == Best(View().active)
    {
      hide Best, BestFrom, Known;
      p := active.BestPriority(lib);
    }

    method BestExpired() returns (p: int)
      requires Valid()
      ensures p == Best(View().expired)
    {
      hide Best, BestFrom, Known;
      p := expired.BestPriority(lib);
    }

    /** rq_retirar from the active queues. */
    method PopBest() returns (t: Tid)
      requires Valid() && !Empty(View().active)
      modifies lib`spare, lib`live, lib.queues, lib.live
      ensures Valid() && Grown()
      ensures t == First(old(View()).active[Best(old(View()).active)])
      ensures View() == old(View()).(active := Without(old(View()).active))
    {
      hide BestFrom, Valid, View, Known, Shaped, Levels.Placed, Put;
      ghost var was := View().active;
      var p := BestActive();
      LevelOf(active, p);
      PutActive(View(), active.side, p, Rest(was[p]));
      t := Pop(active.queues[p]);
      assert View().active == was[p := Rest(was[p])];
    }

    /** `active_thr = rq_retirar(active_rq)` and the switch: the thread that it returns to goes on as Resume says. */
    method Switch()
      requires Valid() && Shaped(View()) && !Empty(View().active)
      modifies this`running, this`threads, lib`spare, lib`live, lib.queues, lib.live
      ensures Valid() && Grown() && View() == Dispatch(old(View()))
    {
      hide Best, BestFrom, Valid, View, Shaped;
      BestExists(View());
      var t := PopBest();
      Become(t);
    }

    /** `if (rq_vazia(active_rq)) trocar_runqueues()`. */
    method SwapQueues()
      requires Valid() && Shaped(View())
      modifies this`active, this`expired
      ensures Valid() && View() == SwapIfEmpty(old(View()))
    {
      hide Best, BestFrom, Library.Valid, Levels.Placed, Levels.Lists, LocksPlaced, LocksView, Shaped;
      var p := BestActive();
      if p == -1 {
        active, expired := expired, active;
      }
    }

    method SwapAndSwitch()
      requires Valid() && Shaped(View()) && SomeReady(View())
      modifies this`running, this`active, this`expired, this`threads, lib`spare, lib`live, lib.queues, lib.live
      ensures Valid() && Grown() && View() == Block(old(View()))
    {
      hide Best, BestFrom, Valid, View, Shaped, Dispatch;
      SwapQueues();
      Switch();
    }

    // ----- lists -----

    lemma Lists()
      requires Valid()
      ensures Known(sleeping) && sleeping.place == Sleepers && sleeping.contents == View().sleeping
      ensures Known(joining) && joining.place == Joiners && joining.contents == View().joining
      ensures Known(zombies) && zombies.place == Zombies && zombies.contents == View().zombies
      ensures Known(dead) && dead.place == Dead && dead.contents == View().dead
      ensures lib.Valid()
    {
    }

    method NobodySleeps() returns (empty: bool)
      requires Valid()
      ensures empty == (View().sleeping == [])
    {
      empty := lib.IsEmpty(sleeping);
    }

    method NobodyJoins() returns (empty: bool)
      requires Valid()
      ensures empty == (View().joining == [])
    {
      empty := lib.IsEmpty(joining);
    }

    method NoZombies() returns (empty: bool)
      requires Valid()
      ensures empty == (View().zombies == [])
    {
      empty := lib.IsEmpty(zombies);
    }

    /** create_queue for a list about to be rebuilt. */
    method NewList() returns (tmp: Queue)
      requires Valid()
      modifies lib`spare, lib`queues
      ensures Valid() && Grown() && View() == old(View())
      ensures fresh(tmp) && tmp in lib.queues && tmp.place == Temporary && tmp.contents == []
    {
      hide LocksPlaced, LocksView, Levels.Placed, Levels.Lists, Library.Valid;
      tmp := lib.CreateQueue(Temporary);
      FixedQueuesStay();
    }

    /** The emptied list is deleted and the rebuilt one takes its place. */
    method ReplaceSleeping(tmp: Queue)
      requires Valid() && View().sleeping == [] && tmp in lib.queues && tmp.place == Temporary
      modifies this`sleeping, lib`queues, lib`live, tmp`place
      ensures Valid() && Grown() && View() == old(View()).(sleeping := tmp.contents)
    {
      hide LocksPlaced, LocksView, Levels.Placed, Levels.Lists, Library.Valid;
      lib.DeleteQueue(sleeping);
      lib.Use(tmp, Sleepers);
      sleeping := tmp;
      FixedQueuesStay();
    }

    method ReplaceJoining(tmp: Queue)
      requires Valid() && View().joining == [] && tmp in lib.queues && tmp.place == Temporary
      modifies this`joining, lib`queues, lib`live, tmp`place
      ensures Valid() && Grown() && View() == old(View()).(joining := tmp.contents)
    {
      hide LocksPlaced, LocksView, Levels.Placed, Levels.Lists, Library.Valid;
      lib.DeleteQueue(joining);
      lib.Use(tmp, Joiners);
      joining := tmp;
      FixedQueuesStay();
    }

    method ReplaceZombies(tmp: Queue)
      requires Valid() && View().zombies == [] && tmp in lib.queues && tmp.place == Temporary
      modifies this`zombies, lib`queues, lib`live, tmp`place
      ensures Valid() && Grown() && View() == old(View()).(zombies := tmp.contents)
    {
      hide LocksPlaced, LocksView, Levels.Placed, Levels.Lists, Library.Valid;
      lib.DeleteQueue(zombies);
      lib.Use(tmp, Zombies);
      zombies := tmp;
      FixedQueuesStay();
    }

    // ----- threads -----

    method AddThread(th: Thread)
      requires Valid()
      modifies this`threads
      ensures Valid() && View() == old(View()).(threads := old(threads) + [th])
    {
      hide Valid, Levels.Lists, LocksView;
      threads := threads + [th];
    }

    /** recalcular. */
    method Recalculate()
      requires Valid() && running < |threads|
      modifies this`threads
      ensures Valid() && View() == old(View()).(threads := old(threads)[running := Recalc(old(threads[running]))])
    {
      hide Valid, View;
      var t := threads[running];
      if t.priority <= STATIC_MAX {
        assert threads[running := t] == threads;
        return;
      }
      var qpu := t.quantum;
      var q := QUANTUM_BASE + Half(qpu);
      if q < 1 {
        q := 1;
      }
      var p := t.base - qpu + t.nice;
      if p < DYN_MIN {
        p := DYN_MIN;
      }
      if p > 14 {
        p := 14;
      }
      SetThread(running, t.(quantum := q, priority := p));
    }

    /** sthread_user_create_p. */
    method CreateWithPriority(priority: int) returns (t: Tid)
      requires Valid() && Inv(View()) && Enabled(View(), CreateOp(priority))
      modifies this`threads, lib`spare, lib`live, lib.queues, lib.live
      ensures Valid() && Grown() && View() == Next(old(View()), CreateOp(priority)) && Inv(View()) && t == old(|threads|)
    {
      hide Valid, View, Sound, Best, BestFrom;
      StepKeepsInv(View(), CreateOp(priority));
      var p := priority;
      if p < 0 {
        p := 0;
      }
      if p > 14 {
        p := 14;
      }
      t := |threads|;
      AddThread(Thread(p, p, QUANTUM_BASE, 0, 0, 0, Ready, {}));
      InsertActive(t);
    }

    /** sthread_user_nice. */
    method SetNice(nice: int) returns (forecast: int)
      requires Valid() && Inv(View()) && Enabled(View(), NiceOp(nice))
      modifies this`threads
      ensures Valid() && View() == Next(old(View()), NiceOp(nice)) && Inv(View())
      ensures forecast == Nice(old(View()), nice).1
    {
      hide Valid, View, Sound, Best, BestFrom;
      StepKeepsInv(View(), NiceOp(nice));
      var n := nice;
      if n < 0 {
        n := 0;
      }
      if n > 10 {
        n := 10;
      }
      SetThread(running, threads[running].(nice := n));
      forecast := threads[running].base - threads[running].quantum + n;
      if forecast < DYN_MIN {
        forecast := DYN_MIN;
      }
      if forecast > 14 {
        forecast := 14;
      }
    }

    /** sthread_user_yield. The queue is never empty right after the caller has joined it. */
    method YieldProcessor()
      requires Valid() && Inv(View()) && Enabled(View(), YieldOp)
      modifies this`threads, this`running, lib`spare, lib`live, lib.queues, lib.live
      ensures Valid() && Grown() && View() == Next(old(View()), YieldOp) && Inv(View())
    {
      hide Inv, Valid, View, Best, BestFrom, Recalc;
      StepKeepsInv(View(), YieldOp);
      Recalculate();
      InsertActive(running);
      Switch();
    }

    /** What the loops below do to one thread that has stopped waiting. */
    method Wakeup(t: Tid, th: Thread)
      requires Valid() && Shaped(View()) && t < |threads|
      modifies this`threads, lib`spare, lib`live, lib.queues, lib.live
      ensures Valid() && Grown() && Aside() && View() == Activate(WithThread(old(View()), t, th), t)
    {
      hide Valid, View, Best, BestFrom;
      SetThread(t, th);
      InsertActive(t);
    }

    method PopSleeper() returns (t: Tid)
      requires Valid() && View().sleeping != []
      modifies lib`spare, lib`live, lib.queues, lib.live
      ensures Valid() && Grown() && Aside() && t == First(old(View()).sleeping)
      ensures View() == old(View()).(sleeping := Rest(old(View()).sleeping))
    {
      hide Valid, View, Known;
      Lists();
      t := Pop(sleeping);
    }

    /** The thread stays on the list that is being rebuilt. */
    method Keep(tmp: Queue, t: Tid)
      requires Valid() && tmp in lib.queues && tmp.place == Temporary
      modifies lib`spare, lib`live, lib.queues, lib.live
      ensures Valid() && Grown() && View() == old(View())
      ensures tmp in lib.queues && tmp.place == Temporary && tmp.contents == old(tmp.contents) + [t]
    {
      hide Valid, View;
      Push(tmp, t);
    }

    /** One round of the first loop of the dispatcher. */
    method WakeOrKeep(ghost s: State, ghost done: seq<Tid>, tmp: Queue)
      requires Valid() && tmp in lib.queues && tmp.place == Temporary
      requires View().sleeping != [] && Distinct(s.sleeping) && WakingUp(s, View(), done, tmp.contents)
      modifies this`threads, lib`spare, lib`live, lib.queues, lib.live
      ensures Valid() && Grown() && tmp in lib.queues && tmp.place == Temporary
      ensures WakingUp(s, View(), done + [First(old(View()).sleeping)], tmp.contents)
      ensures View().sleeping == Rest(old(View()).sleeping)
    {
      hide Valid, View, WakingUp, Shaped, Best, BestFrom;
      WakingRound(s, View(), done, tmp.contents);
      var t := PopSleeper();
      if threads[t].wakeTime <= clock {
        Wakeup(t, threads[t].(wakeTime := 0, quantum := QUANTUM_BASE, pc := Ready));
      } else {
        Keep(tmp, t);
      }
    }

    /** The first loop of the dispatcher: create_queue, the rounds, delete_queue. */
    method WakeSleepers()
      requires Valid() && Shaped(View()) && Distinct(View().sleeping)
      modifies this`threads, this`sleeping, lib, lib.queues, lib.live
      ensures Valid() && Grown() && View() == Wake(old(View()))
    {
      hide Valid, View, WakingUp, Wake, Shaped, Distinct, Best, BestFrom;
      ghost var s := View();
      var tmp := NewList();
      WakingStarts(s);
      ghost var done := WakeAll(s, tmp);
      WakingEnds(s, View(), done, tmp.contents);
      ReplaceSleeping(tmp);
    }

    method WakeAll(ghost s: State, tmp: Queue) returns (ghost done: seq<Tid>)
      requires Valid() && tmp in lib.queues && tmp.place == Temporary
      requires Distinct(s.sleeping) && WakingUp(s, View(), [], tmp.contents)
      modifies this`threads, lib`spare, lib`live, lib.queues, lib.live
      ensures Valid() && Grown() && tmp in lib.queues && tmp.place == Temporary
      ensures WakingUp(s, View(), done, tmp.contents) && View().sleeping == []
    {
      hide Valid, View, WakingUp, Distinct, Best, BestFrom;
      done := [];
      var empty := NobodySleeps();
      while !empty
        invariant Valid() && Grown() && tmp in lib.queues && tmp.place == Temporary
        invariant WakingUp(s, View(), done, tmp.contents)
        invariant empty == (View().sleeping == [])
        decreases |View().sleeping|
      {
        ghost var t := First(View().sleeping);
        WakeOrKeep(s, done, tmp);
        done := done + [t];
        empty := NobodySleeps();
      }
    }

    /** sthread_user_dispatcher. */
    method Dispatcher()
      requires Valid() && Inv(View()) && Enabled(View(), TickOp)
      modifies this, lib, lib.queues, lib.live
      ensures Valid() && Grown() && View() == Next(old(View()), TickOp) && Inv(View())
    {
      hide Valid, View, Sound, Wake, Charge, Best, BestFrom;
      StepKeepsInv(View(), TickOp);
      ListsAreDistinct(View());
      AdvanceClock();
      WakeSleepers();
      ChargeRunning();
    }

    method AdvanceClock()
      requires Valid()
      modifies this`clock
      ensures Valid() && View() == old(View()).(clock := old(clock) + 1)
    {
      hide Valid, Levels.Lists, LocksView;
      clock := clock + 1;
    }

    /** The rest of the dispatcher. */
    method ChargeRunning()
      requires Valid() && Shaped(View())
      modifies this, lib`spare, lib`live, lib.queues, lib.live
      ensures Valid() && Grown() && View() == Charge(old(View()))
    {
      hide Valid, View, BestFrom, Best, Recalc, Dispatch, Block, Expire;
      SetThread(running, threads[running].(quantum := threads[running].quantum - 1));
      if threads[running].quantum > 0 {
        var best := BestActive();
        if best != -1 && best < threads[running].priority {
          PutBackAndSwitch();
        }
        return;
      }
      ghost var next := Recalc(threads[running].(quantum := 0));
      assert threads[running := next] == old(threads)[running := next];
      EndQuantum();
    }

    method EndQuantum()
      requires Valid() && Shaped(View())
      modifies this, lib`spare, lib`live, lib.queues, lib.live
      ensures Valid() && Grown()
      ensures var was, t := old(View()), old(threads[running]).(quantum := 0);
              View() == Block(Expire(WithThread(was, was.running, Recalc(t)), was.running))
    {
      hide Valid, View, BestFrom, Best, Recalc, Block;
      SetThread(running, threads[running].(quantum := 0));
      Recalculate();
      assert threads == old(threads)[running := Recalc(old(threads[running]).(quantum := 0))];
      InsertExpired(running);
      SwapAndSwitch();
    }

    method PutBackAndSwitch()
      requires Valid() && Shaped(View())
      modifies this`running, this`threads, lib`spare, lib`live, lib.queues, lib.live
      ensures Valid() && Grown() && View() == Dispatch(Activate(old(View()), old(running)))
    {
      hide Valid, View, Best, BestFrom, Dispatch;
      InsertActive(running);
      Switch();
    }

    method PopJoiner() returns (t: Tid)
      requires Valid() && View().joining != []
      modifies lib`spare, lib`live, lib.queues, lib.live
      ensures Valid() && Grown() && Aside() && t == First(old(View()).joining)
      ensures View() == old(View()).(joining := Rest(old(View()).joining))
    {
      hide Valid, View, Known;
      Lists();
      t := Pop(joining);
    }

    /** One round of the loop of sthread_user_exit. */
    method FreeOrKeep(ghost s: State, ghost done: seq<Tid>, tmp: Queue, none: bool) returns (none': bool)
      requires Valid() && tmp in lib.queues && tmp.place == Temporary
      requires View().joining != [] && Distinct(s.joining) && Freeing(s, View(), done, tmp.contents, none)
      modifies this`threads, lib`spare, lib`live, lib.queues, lib.live
      ensures Valid() && Grown() && tmp in lib.queues && tmp.place == Temporary
      ensures Freeing(s, View(), done + [First(old(View()).joining)], tmp.contents, none')
      ensures View().joining == Rest(old(View()).joining)
    {
      hide Valid, View, Freeing, Shaped, Best, BestFrom;
      FreeingRound(s, View(), done, tmp.contents, none);
      var t := PopJoiner();
      if threads[t].joinTid == running {
        Wakeup(t, threads[t].(pc := Ready));
        none' := false;
      } else {
        Keep(tmp, t);
        none' := none;
      }
    }

    /** The loop of sthread_user_exit: create_queue, the rounds, delete_queue. */
    method FreeJoiners() returns (zombie: bool)
      requires Valid() && Shaped(View()) && Distinct(View().joining)
      modifies this`threads, this`joining, lib, lib.queues, lib.live
      ensures Valid() && Grown() && Shaped(View()) && Die(View(), zombie) == Exit(old(View()))
    {
      hide Valid, View, Freeing, Exit, Shaped, Distinct, Best, BestFrom, Die;
      ghost var s := View();
      var tmp := NewList();
      FreeingStarts(s);
      ghost var done;
      zombie, done := FreeAll(s, tmp);
      FreeingEnds(s, View(), done, tmp.contents, zombie);
      ReplaceJoining(tmp);
    }

    method FreeAll(ghost s: State, tmp: Queue) returns (zombie: bool, ghost done: seq<Tid>)
      requires Valid() && tmp in lib.queues && tmp.place == Temporary
      requires Distinct(s.joining) && Freeing(s, View(), [], tmp.contents, true)
      modifies this`threads, lib`spare, lib`live, lib.queues, lib.live
      ensures Valid() && Grown() && tmp in lib.queues && tmp.place == Temporary
      ensures Freeing(s, View(), done, tmp.contents, zombie) && View().joining == []
    {
      hide Valid, View, Freeing, Distinct, Best, BestFrom;
      done, zombie := [], true;
      var empty := NobodyJoins();
      while !empty
        invariant Valid() && Grown() && tmp in lib.queues && tmp.place == Temporary
        invariant Freeing(s, View(), done, tmp.contents, zombie)
        invariant empty == (View().joining == [])
        decreases |View().joining|
      {
        ghost var t := First(View().joining);
        zombie := FreeOrKeep(s, done, tmp, zombie);
        done := done + [t];
        empty := NobodyJoins();
      }
    }

    /** sthread_user_exit. */
    method ExitThread()
      requires Valid() && Inv(View()) && Enabled(View(), ExitOp)
      modifies this, lib, lib.queues, lib.live
      ensures Valid() && Grown() && View() == Next(old(View()), ExitOp) && Inv(View())
    {
      hide Valid, View, Sound, Exit, Best, BestFrom, Die, Shaped;
      StepKeepsInv(View(), ExitOp);
      ListsAreDistinct(View());
      var zombie := FreeJoiners();
      EndThread(zombie);
    }

    method PushZombie(t: Tid)
      requires Valid()
      modifies lib`spare, lib`live, lib.queues, lib.live
      ensures Valid() && Grown() && View() == old(View()).(zombies := old(View()).zombies + [t])
    {
      hide Valid, View, Known;
      Lists();
      Push(zombies, t);
    }

    method PushDead(t: Tid)
      requires Valid()
      modifies lib`spare, lib`live, lib.queues, lib.live
      ensures Valid() && Grown() && Aside() && View() == old(View()).(dead := old(View()).dead + [t])
    {
      hide Valid, View, Known;
      Lists();
      Push(dead, t);
    }

    method Finish()
      requires Valid()
      modifies this`finished
      ensures Valid() && View() == old(View()).(finished := true)
    {
      hide Valid, Levels.Lists, LocksView;
      finished := true;
    }

    /** The rest of sthread_user_exit. */
    method EndThread(zombie: bool)
      requires Valid() && Shaped(View())
      modifies this, lib`spare, lib`live, lib.queues, lib.live
      ensures Valid() && Grown() && View() == Die(old(View()), zombie)
    {
      hide Valid, View, BestFrom, Best, Block, SomeReady;
      Retire(zombie);
      var nobody := NobodyReady();
      if nobody {
        Finish();
      } else {
        SwapAndSwitch();
      }
    }

    method Retire(zombie: bool)
      requires Valid() && Shaped(View())
      modifies this`threads, lib`spare, lib`live, lib.queues, lib.live
      ensures Valid() && Grown() && Shaped(View())
      ensures var was := old(View());
              View() == if zombie then Leave(was, Done).(zombies := was.zombies + [was.running])
                        else Leave(was, Done).(dead := was.dead + [was.running])
    {
      hide Valid, View, BestFrom, Best;
      SetThread(running, threads[running].(pc := Done));
      if zombie {
        PushZombie(running);
      } else {
        PushDead(running);
      }
    }

    method NobodyReady() returns (nobody: bool)
      requires Valid()
      ensures nobody == !SomeReady(View())
    {
      hide Valid, View, Best, BestFrom;
      var a := BestActive();
      var e := BestExpired();
      nobody := a == -1 && e == -1;
    }

    // ----- join and sleep -----

    /** sthread_user_join, up to its switch. */
    method JoinThread(t: Tid) returns (found: bool)
      requires Valid() && Inv(View()) && Enabled(View(), JoinOp(t))
      modifies this, lib, lib.queues, lib.live
      ensures Valid() && Grown() && View() == Next(old(View()), JoinOp(t)) && Inv(View())
      ensures found == (t in old(View()).zombies || Visible(old(View()), t))
    {
      hide Valid, View, Sound, Best, BestFrom, Block, Bury, Visible, Only;
      StepKeepsInv(View(), JoinOp(t));
      found := LookAmongZombies(t);
      if found {
        return;
      }
      found := LookElsewhere(t);
      if found {
        BlockOn(t);
      }
    }

    method PopZombie() returns (z: Tid)
      requires Valid() && View().zombies != []
      modifies lib`spare, lib`live, lib.queues, lib.live
      ensures Valid() && Grown() && Aside() && z == First(old(View()).zombies)
      ensures View() == old(View()).(zombies := Rest(old(View()).zombies))
    {
      hide Valid, View, Known;
      Lists();
      z := Pop(zombies);
    }

    /** One round of the loop over the zombies. */
    method SortZombie(ghost s: State, ghost done: seq<Tid>, tmp: Queue, t: Tid, found: bool) returns (found': bool)
      requires Valid() && tmp in lib.queues && tmp.place == Temporary
      requires View().zombies != [] && Sorting(s, View(), done, tmp.contents, t, found)
      modifies lib`spare, lib`live, lib.queues, lib.live
      ensures Valid() && Grown() && tmp in lib.queues && tmp.place == Temporary
      ensures Sorting(s, View(), done + [First(old(View()).zombies)], tmp.contents, t, found')
      ensures View().zombies == Rest(old(View()).zombies)
    {
      hide Valid, View, Sorting;
      SortingRound(s, View(), done, tmp.contents, t, found);
      var z := PopZombie();
      if z == t {
        PushDead(z);
        found' := true;
      } else {
        Keep(tmp, z);
        found' := found;
      }
    }

    /** The loop over the zombies: create_queue, the rounds, delete_queue. */
    method LookAmongZombies(t: Tid) returns (found: bool)
      requires Valid() && Shaped(View())
      modifies this`zombies, lib, lib.queues, lib.live
      ensures Valid() && Grown() && found == (t in old(View()).zombies)
      ensures View() == if found then Bury(old(View()), t) else old(View())
    {
      hide Valid, View, Sorting, Shaped, Best, BestFrom, Bury;
      ghost var s := View();
      var tmp := NewList();
      SortingStarts(s, t);
      ghost var done;
      found, done := SortAll(s, tmp, t);
      SortingEnds(s, View(), done, tmp.contents, t, found);
      ReplaceZombies(tmp);
    }

    method SortAll(ghost s: State, tmp: Queue, t: Tid) returns (found: bool, ghost done: seq<Tid>)
      requires Valid() && tmp in lib.queues && tmp.place == Temporary
      requires Sorting(s, View(), [], tmp.contents, t, false)
      modifies lib`spare, lib`live, lib.queues, lib.live
      ensures Valid() && Grown() && tmp in lib.queues && tmp.place == Temporary
      ensures Sorting(s, View(), done, tmp.contents, t, found) && View().zombies == []
    {
      hide Valid, View, Sorting, Best, BestFrom;
      done, found := [], false;
      var empty := NoZombies();
      while !empty
        invariant Valid() && Grown() && tmp in lib.queues && tmp.place == Temporary
        invariant Sorting(s, View(), done, tmp.contents, t, found)
        invariant empty == (View().zombies == [])
        decreases |View().zombies|
      {
        ghost var z := First(View().zombies);
        found := SortZombie(s, done, tmp, t, found);
        done := done + [z];
        empty := NoZombies();
      }
    }

    method LookElsewhere(t: Tid) returns (found: bool)
      requires Valid()
      ensures found == Visible(View(), t)
    {
      found := running == t;
      if !found {
        found := active.Search(lib, t);
      }
      if !found {
        found := expired.Search(lib, t);
      }
      if !found {
        found := lib.Find(sleeping, t);
      }
      if !found {
        found := lib.Find(joining, t);
      }
    }

    method PushJoiner(t: Tid)
      requires Valid()
      modifies lib`spare, lib`live, lib.queues, lib.live
      ensures Valid() && Grown() && View() == old(View()).(joining := old(View()).joining + [t])
    {
      hide Valid, View, Known;
      Lists();
      Push(joining, t);
    }

    method BlockOn(t: Tid)
      requires Valid() && Shaped(View()) && SomeReady(View())
      modifies this, lib`spare, lib`live, lib.queues, lib.live
      ensures Valid() && Grown() && View() == Block(JoinQueued(old(View()), t))
    {
      hide Valid, View, Best, BestFrom, Block;
      SetThread(running, threads[running].(joinTid := t, pc := Joining));
      PushJoiner(running);
      SwapAndSwitch();
    }

    method PushSleeper(t: Tid)
      requires Valid()
      modifies lib`spare, lib`live, lib.queues, lib.live
      ensures Valid() && Grown() && View() == old(View()).(sleeping := old(View()).sleeping + [t])
    {
      hide Valid, View, Known;
      Lists();
      Push(sleeping, t);
    }

    /** sthread_user_sleep. */
    method SleepFor(time: int)
      requires Valid() && Inv(View()) && Enabled(View(), SleepOp(time))
      modifies this, lib`spare, lib`live, lib.queues, lib.live
      ensures Valid() && Grown() && View() == Next(old(View()), SleepOp(time)) && Inv(View())
    {
      hide Valid, View, Sound, Best, BestFrom, Block, SleepTicks;
      StepKeepsInv(View(), SleepOp(time));
      var ticks := SleepTicks(time);
      if ticks == 0 {
        return;
      }
      SetThread(running, threads[running].(wakeTime := clock + ticks, pc := Sleeping));
      PushSleeper(running);
      SwapAndSwitch();
    }

    // ----- mutexes and monitors -----

    lemma QueuesOf(l: nat)
      requires Valid() && l < |locks|
      ensures Known(locks[l].queue) && locks[l].queue.place == OfMutex(l)
      ensures Known(locks[l].waiters) && locks[l].waiters.place == OfMonitor(l)
      ensures View().locks[l] == Lock(locks[l].owner, locks[l].queue.contents, locks[l].waiters.contents)
      ensures lib.Valid()
    {
      assert LockPlaced(lib, locks[l], l);
    }

    /** sthread_user_mutex_init and sthread_user_monitor_init. */
    method NewLock() returns (l: nat)
      requires Valid() && Inv(View()) && Enabled(View(), NewLockOp)
      modifies this`locks, lib`spare, lib`queues
      ensures Valid() && Grown() && View() == Next(old(View()), NewLockOp) && Inv(View()) && l == old(|locks|)
    {
      hide Sound, Valid, View, Best, BestFrom;
      StepKeepsInv(View(), NewLockOp);
      l := |locks|;
      AddLock();
    }

    method NewMonitor() returns (k: Monitor)
      requires Valid()
      modifies lib`spare, lib`queues
      ensures Valid() && Grown() && View() == old(View())
      ensures LockPlaced(lib, k, |locks|) && k.owner == None && k.queue.contents == k.waiters.contents == []
    {
      hide LocksPlaced, LocksView, Levels.Placed, Levels.Lists, Library.Valid;
      var q := lib.CreateQueue(OfMutex(|locks|));
      var w := lib.CreateQueue(OfMonitor(|locks|));
      k := Monitor(None, q, w);
      FixedQueuesStay();
    }

    method AddLock()
      requires Valid()
      modifies this`locks, lib`spare, lib`queues
      ensures Valid() && Grown() && |locks| == old(|locks|) + 1
      ensures View() == old(View()).(locks := old(View()).locks + [Lock(None, [], [])])
    {
      hide LocksPlaced, LocksView, Levels.Placed, Levels.Lists, Library.Valid, START, NO_THREADS;
      var k := NewMonitor();
      OneMoreLock(lib, locks, k);
      locks := locks + [k];
    }

    method PushWaiting(l: nat, t: Tid)
      requires Valid() && l < |locks|
      modifies lib`spare, lib`live, lib.queues, lib.live
      ensures Valid() && Grown()
      ensures var k := old(View()).locks[l];
              View() == old(View()).(locks := old(View()).locks[l := k.(queue := k.queue + [t])])
    {
      hide Valid, View, Known;
      QueuesOf(l);
      Push(locks[l].queue, t);
    }

    method PopWaiting(l: nat) returns (t: Tid)
      requires Valid() && l < |locks| && View().locks[l].queue != []
      modifies lib`spare, lib`live, lib.queues, lib.live
      ensures Valid() && Grown() && t == First(old(View()).locks[l].queue)
      ensures var k := old(View()).locks[l];
              View() == old(View()).(locks := old(View()).locks[l := k.(queue := Rest(k.queue))])
    {
      hide Valid, View, Known;
      QueuesOf(l);
      t := Pop(locks[l].queue);
    }

    /** sthread_user_mutex_lock and sthread_user_monitor_enter. */
    method AcquireLock(l: nat)
      requires Valid() && Inv(View()) && Enabled(View(), AcquireOp(l))
      modifies this, lib`spare, lib`live, lib.queues, lib.live
      ensures Valid() && Grown() && View() == Next(old(View()), AcquireOp(l)) && Inv(View())
    {
      hide Valid, View, Known, Sound, Best, BestFrom, Block, Recalc;
      StepKeepsInv(View(), AcquireOp(l));
      QueuesOf(l);
      if locks[l].owner == None {
        SetOwner(l, Some(running));
        SetThread(running, threads[running].(held := threads[running].held + {l}));
      } else {
        WaitForLock(l);
        SwapAndSwitch();
      }
    }

    /** The running thread joins the queue of the lock. */
    method WaitForLock(l: nat)
      requires Valid() && Shaped(View()) && l < |locks|
      modifies this`threads, lib`spare, lib`live, lib.queues, lib.live
      ensures Valid() && Grown()
      ensures var was, k := old(View()), old(View()).locks[l];
              View() == WithLock(WithThread(was, was.running, Recalc(was.threads[was.running]).(pc := Locking(l))), l,
                                 k.(queue := k.queue + [was.running]))
    {
      hide Valid, View, Recalc, Best, BestFrom;
      Recalculate();
      PushWaiting(l, running);
      SetThread(running, threads[running].(pc := Locking(l)));
      assert threads == old(threads)[running := Recalc(old(threads[running])).(pc := Locking(l))];
    }

    /** What sthread_user_mutex_unlock does for the owner, up to its preemption. */
    method HandOver(l: nat) returns (preempt: bool)
      requires Valid() && Shaped(View()) && l < |locks|
      modifies this`threads, this`locks, lib`spare, lib`live, lib.queues, lib.live
      ensures Valid() && Grown()
      ensures View() == GivenUp(old(View()), l) && preempt == Outranked(old(View()), l)
    {
      hide Valid, View, Known, Best, BestFrom, Activate, HandOff;
      SetThread(running, threads[running].(held := threads[running].held - {l}));
      QueuesOf(l);
      var free := lib.IsEmpty(locks[l].queue);
      if free {
        SetOwner(l, None);
        return false;
      }
      var t := PassOn(l);
      preempt := threads[t].priority < threads[running].priority;
    }

    method PassOn(l: nat) returns (t: Tid)
      requires Valid() && Shaped(View()) && l < |locks| && View().locks[l].queue != []
      modifies this`locks, lib`spare, lib`live, lib.queues, lib.live
      ensures Valid() && Grown()
      ensures t == First(old(View()).locks[l].queue) && t < |threads| && View() == HandOff(old(View()), l)
    {
      hide Valid, View, Best, BestFrom;
      t := PopWaiting(l);
      SetOwner(l, Some(t));
      InsertActive(t);
    }

    /** sthread_user_mutex_unlock and sthread_user_monitor_exit; false is "unlock without lock!". */
    method ReleaseLock(l: nat) returns (ok: bool)
      requires Valid() && Inv(View()) && Enabled(View(), ReleaseOp(l))
      modifies this, lib`spare, lib`live, lib.queues, lib.live
      ensures Valid() && Grown() && View() == Next(old(View()), ReleaseOp(l)) && Inv(View()) && ok == Owns(old(View()), l)
    {
      hide Valid, View, Known, Sound, Best, BestFrom, GivenUp, Outranked, Dispatch, Activate;
      StepKeepsInv(View(), ReleaseOp(l));
      QueuesOf(l);
      if locks[l].owner != Some(running) {
        return false;
      }
      var preempt := HandOver(l);
      if preempt {
        PutBackAndSwitch();
      }
      return true;
    }

    method PushWaiter(l: nat, t: Tid)
      requires Valid() && l < |locks|
      modifies lib`spare, lib`live, lib.queues, lib.live
      ensures Valid() && Grown()
      ensures var k := old(View()).locks[l];
              View() == old(View()).(locks := old(View()).locks[l := k.(waiters := k.waiters + [t])])
    {
      hide Valid, View, Known;
      QueuesOf(l);
      Push(locks[l].waiters, t);
    }

    method PopWaiter(l: nat) returns (t: Tid)
      requires Valid() && l < |locks| && View().locks[l].waiters != []
      modifies lib`spare, lib`live, lib.queues, lib.live
      ensures Valid() && Grown() && t == First(old(View()).locks[l].waiters)
      ensures var k := old(View()).locks[l];
              View() == old(View()).(locks := old(View()).locks[l := k.(waiters := Rest(k.waiters))])
    {
      hide Valid, View, Known;
      QueuesOf(l);
      t := Pop(locks[l].waiters);
    }

    /** sthread_user_monitor_wait; false is a call from outside the monitor. */
    method MonitorWait(l: nat) returns (ok: bool)
      requires Valid() && Inv(View()) && Enabled(View(), WaitOp(l))
      modifies this, lib`spare, lib`live, lib.queues, lib.live
      ensures Valid() && Grown() && View() == Next(old(View()), WaitOp(l)) && Inv(View()) && ok == Owns(old(View()), l)
    {
      hide Valid, View, Known, Sound, Best, BestFrom, GivenUp, Outranked, Dispatch, Activate, Recalc, FinishWait, Park;
      StepKeepsInv(View(), WaitOp(l));
      QueuesOf(l);
      if locks[l].owner != Some(running) {
        return false;
      }
      JoinWaiters(l);
      LeaveMonitor(l);
      return true;
    }

    /** The unlock in sthread_user_monitor_wait, and what follows it unless the unlock preempts the caller. */
    method LeaveMonitor(l: nat)
      requires Valid() && Shaped(View()) && l < |locks| && threads[running].pc.InWait?
      requires View().locks[l].queue != [] || SomeReady(View())
      modifies this, lib`spare, lib`live, lib.queues, lib.live
      ensures Valid() && Grown()
      ensures var was := old(View());
              View() == if Outranked(was, l) then Dispatch(Activate(GivenUp(was, l), was.running)) else FinishWait(GivenUp(was, l))
    {
      hide Valid, View, Best, BestFrom, GivenUp, Outranked, Dispatch, Activate, FinishWait, SomeReady, Shaped;
      var preempt := HandOver(l);
      if preempt {
        PutBackAndSwitch();
      } else {
        BlockInWait();
      }
    }

    method JoinWaiters(l: nat)
      requires Valid() && Shaped(View()) && l < |locks|
      modifies this`threads, lib`spare, lib`live, lib.queues, lib.live
      ensures Valid() && Grown() && View() == Park(old(View()), l)
    {
      hide Valid, View, Recalc, Best, BestFrom;
      Recalculate();
      PushWaiter(l, running);
      SetThread(running, threads[running].(pc := InWait(l)));
      assert threads == old(threads)[running := Recalc(old(threads[running])).(pc := InWait(l))];
    }

    /** The block at the end of sthread_user_monitor_wait. */
    method BlockInWait()
      requires Valid() && Shaped(View()) && threads[running].pc.InWait? && SomeReady(View())
      modifies this`threads, this`running, this`active, this`expired, lib`spare, lib`live, lib.queues, lib.live
      ensures Valid() && Grown() && View() == FinishWait(old(View()))
    {
      hide Valid, View, Best, BestFrom, Block;
      SetThread(running, threads[running].(pc := Waiting(threads[running].pc.l)));
      SwapAndSwitch();
    }

    /** What a thread does when it gets the processor back inside the unlock of its monitor_wait. */
    method ResumeInWait()
      requires Valid() && Inv(View()) && Enabled(View(), FinishWaitOp)
      modifies this, lib`spare, lib`live, lib.queues, lib.live
      ensures Valid() && Grown() && View() == Next(old(View()), FinishWaitOp) && Inv(View())
    {
      hide Valid, View, Sound, Best, BestFrom, FinishWait;
      StepKeepsInv(View(), FinishWaitOp);
      BlockInWait();
    }

    /** sthread_user_monitor_signal. */
    method MonitorSignal(l: nat) returns (ok: bool)
      requires Valid() && Inv(View()) && Enabled(View(), SignalOp(l))
      modifies lib`spare, lib`live, lib.queues, lib.live
      ensures Valid() && Grown() && View() == Next(old(View()), SignalOp(l)) && Inv(View()) && ok == Owns(old(View()), l)
    {
      hide Valid, View, Known, Sound, Best, BestFrom;
      StepKeepsInv(View(), SignalOp(l));
      QueuesOf(l);
      if locks[l].owner != Some(running) {
        return false;
      }
      var nobody := lib.IsEmpty(locks[l].waiters);
      if !nobody {
        MoveWaiter(l);
      }
      return true;
    }

    method MoveWaiter(l: nat)
      requires Valid() && l < |locks| && View().locks[l].waiters != []
      modifies lib`spare, lib`live, lib.queues, lib.live
      ensures Valid() && Grown()
      ensures var k := old(View()).locks[l];
              View() == old(View()).(locks := old(View()).locks[l := k.(queue := k.queue + [First(k.waiters)], waiters := Rest(k.waiters))])
    {
      hide Valid, View;
      var t := PopWaiter(l);
      PushWaiting(l, t);
    }
  }
}
