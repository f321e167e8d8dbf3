/** The loops of the scheduler that empty a list into the run queues and a new list of those that stay:
    what each round keeps, and what the whole loop has done to the state. */
module Rebuilding {
  import opened Scheduling
  import opened Conservation
  import opened Safety

  lemma {:induction false} OnlySnoc(q: seq<Tid>, t: Tid, p: Tid -> bool)
    ensures Only(q + [t], p) == Only(q, p) + if p(t) then [t] else []
  {
    if q == [] {
      assert (q + [t])[1..] == [];
    } else {
      assert (q + [t])[1..] == q[1..] + [t];
      OnlySnoc(q[1..], t, p);
    }
  }

  lemma {:induction false} ActivateAllSnoc(s: State, q: seq<Tid>, t: Tid, wake: Thread -> Thread)
    requires Shaped(s) && Below(q, |s.threads|) && t < |s.threads|
    ensures Below(q + [t], |s.threads|)
    ensures var r := ActivateAll(s, q, wake);
            ActivateAll(s, q + [t], wake) == Activate(WithThread(r, t, wake(r.threads[t])), t)
    decreases |q|
  {
    hide Activate;
    if q == [] {
      assert q + [t] == [t] && Rest([t]) == [];
    } else {
      assert First(q + [t]) == First(q) && Rest(q + [t]) == Rest(q) + [t];
      ActivateAllSnoc(Activate(WithThread(s, First(q), wake(s.threads[First(q)])), First(q)), Rest(q), t, wake);
    }
  }

  /** The lists being rebuilt play no part in activating threads. */
  lemma {:induction false} ActivateAllIgnores(s: State, sleeping: seq<Tid>, joining: seq<Tid>, q: seq<Tid>, wake: Thread -> Thread)
    requires Shaped(s) && Shaped(s.(sleeping := sleeping, joining := joining)) && Below(q, |s.threads|)
    ensures ActivateAll(s.(sleeping := sleeping, joining := joining), q, wake) ==
            ActivateAll(s, q, wake).(sleeping := sleeping, joining := joining)
    decreases |q|
  {
    if q != [] {
      ActivateAllIgnores(Activate(WithThread(s, First(q), wake(s.threads[First(q)])), First(q)), sleeping, joining, Rest(q), wake);
    }
  }

  /** One more thread of the list: it joins the active queues or the new list. */
  lemma OneMore(s: State, done: seq<Tid>, t: Tid, p: Tid -> bool, wake: Thread -> Thread)
    requires Shaped(s) && Below(Only(done, p), |s.threads|) && t < |s.threads| && t !in done
    ensures Below(Only(done + [t], p), |s.threads|)
    ensures var r := ActivateAll(s, Only(done, p), wake);
            && r.threads[t] == s.threads[t]
            && ActivateAll(s, Only(done + [t], p), wake) == if p(t) then Activate(WithThread(r, t, wake(r.threads[t])), t) else r
  {
    hide ActivateAll, Only, Activate;
    OnlySnoc(done, t, p);
    OthersAreLeftAlone(s, Only(done, p), wake, t);
    if p(t) {
      ActivateAllSnoc(s, Only(done, p), t, wake);
    } else {
      assert Only(done, p) + [] == Only(done, p);
    }
  }

  lemma ActivateMovesOnly(s: State, t: Tid, wake: Thread -> Thread, sleeping: seq<Tid>, joining: seq<Tid>)
    requires Shaped(s) && Shaped(s.(sleeping := sleeping, joining := joining)) && t < |s.threads|
    ensures var th := wake(s.threads[t]);
            Activate(WithThread(s.(sleeping := sleeping, joining := joining), t, th), t) ==
            Activate(WithThread(s, t, th), t).(sleeping := sleeping, joining := joining)
  {
  }

  function TimeIsUp(s: State): Tid -> bool {
    (t: Tid) => t < |s.threads| && s.threads[t].wakeTime <= s.clock
  }

  /** The loop over the sleepers, from s, having gone through `done` and kept `tmp` of them. */
  ghost predicate WakingUp(s: State, now: State, done: seq<Tid>, tmp: seq<Tid>) {
    && Shaped(s) && Shaped(now) && s.sleeping == done + now.sleeping
    && tmp == Only(done, (t: Tid) => !TimeIsUp(s)(t))
    && Below(Only(done, TimeIsUp(s)), |s.threads|)
    && now == ActivateAll(s, Only(done, TimeIsUp(s)), Awake).(sleeping := now.sleeping)
  }

  lemma WakingStarts(s: State)
    requires Shaped(s)
    ensures WakingUp(s, s, [], [])
  {
  }

  /** One round: the first sleeper goes to the active queues or to the new list. */
  lemma WakingRound(s: State, now: State, done: seq<Tid>, tmp: seq<Tid>)
    requires WakingUp(s, now, done, tmp) && now.sleeping != [] && Distinct(s.sleeping)
    ensures var t, rest := First(now.sleeping), now.(sleeping := Rest(now.sleeping));
            && Shaped(rest) && t < |now.threads|
            && if now.threads[t].wakeTime <= now.clock
               then WakingUp(s, Activate(WithThread(rest, t, Awake(now.threads[t])), t), done + [t], tmp)
               else WakingUp(s, rest, done + [t], tmp + [t])
  {
    hide Best, BestFrom, ActivateAll, Only, Activate;
    var t, due := First(now.sleeping), TimeIsUp(s);
    NotBefore(s.sleeping, done, now.sleeping);
    OneMore(s, done, t, due, Awake);
    OnlySnoc(done, t, (t: Tid) => !due(t));
    ActivateMovesOnly(ActivateAll(s, Only(done, due), Awake), t, Awake, Rest(now.sleeping), s.joining);
  }

  lemma WakingEnds(s: State, now: State, done: seq<Tid>, tmp: seq<Tid>)
    requires WakingUp(s, now, done, tmp) && now.sleeping == []
    ensures now.(sleeping := tmp) == Wake(s)
  {
    hide ActivateAll, Only;
    assert done == s.sleeping;
    ActivateAllIgnores(s, tmp, s.joining, Only(done, TimeIsUp(s)), Awake);
  }

  function JoinsRunning(s: State): Tid -> bool {
    (t: Tid) => t < |s.threads| && s.threads[t].joinTid == s.running
  }

  /** The loop over the joiners, from s, having gone through `done` and kept `tmp` of them. */
  ghost predicate Freeing(s: State, now: State, done: seq<Tid>, tmp: seq<Tid>, none: bool) {
    && Shaped(s) && Shaped(now) && s.joining == done + now.joining
    && tmp == Only(done, (t: Tid) => !JoinsRunning(s)(t))
    && Below(Only(done, JoinsRunning(s)), |s.threads|)
    && none == (Only(done, JoinsRunning(s)) == [])
    && now == ActivateAll(s, Only(done, JoinsRunning(s)), (th: Thread) => th.(pc := Ready)).(joining := now.joining)
  }

  lemma FreeingStarts(s: State)
    requires Shaped(s)
    ensures Freeing(s, s, [], [], true)
  {
  }

  /** One round: the first joiner goes to the active queues or to the new list. */
  lemma FreeingRound(s: State, now: State, done: seq<Tid>, tmp: seq<Tid>, none: bool)
    requires Freeing(s, now, done, tmp, none) && now.joining != [] && Distinct(s.joining)
    ensures var t, rest := First(now.joining), now.(joining := Rest(now.joining));
            && Shaped(rest) && t < |now.threads|
            && if now.threads[t].joinTid == now.running
               then Freeing(s, Activate(WithThread(rest, t, now.threads[t].(pc := Ready)), t), done + [t], tmp, false)
               else Freeing(s, rest, done + [t], tmp + [t], none)
  {
    hide Best, BestFrom, ActivateAll, Only, Activate;
    var t, joins, free := First(now.joining), JoinsRunning(s), (th: Thread) => th.(pc := Ready);
    NotBefore(s.joining, done, now.joining);
    OneMore(s, done, t, joins, free);
    OnlySnoc(done, t, joins);
    OnlySnoc(done, t, (t: Tid) => !joins(t));
    ActivateMovesOnly(ActivateAll(s, Only(done, joins), free), t, free, s.sleeping, Rest(now.joining));
  }

  lemma FreeingEnds(s: State, now: State, done: seq<Tid>, tmp: seq<Tid>, none: bool)
    requires Freeing(s, now, done, tmp, none) && now.joining == []
    ensures Shaped(now.(joining := tmp)) && Die(now.(joining := tmp), none) == Exit(s)
  {
    hide ActivateAll, Only, Die;
    assert done == s.joining;
    ActivateAllIgnores(s, s.sleeping, tmp, Only(done, JoinsRunning(s)), (th: Thread) => th.(pc := Ready));
  }

  lemma SortOne(q: seq<Tid>, z: Tid, t: Tid)
    ensures Only(q + [z], (z: Tid) => z == t) == Only(q, (z: Tid) => z == t) + if z == t then [z] else []
    ensures Only(q + [z], (z: Tid) => z != t) == Only(q, (z: Tid) => z != t) + if z == t then [] else [z]
  {
    OnlySnoc(q, z, (z: Tid) => z == t);
    OnlySnoc(q, z, (z: Tid) => z != t);
  }

  lemma {:induction false} NobodyThere(q: seq<Tid>, t: Tid)
    requires t !in q
    ensures Only(q, (z: Tid) => z == t) == [] && Only(q, (z: Tid) => z != t) == q
  {
    if q != [] {
      NobodyThere(q[1..], t);
    }
  }

  /** The loop of sthread_user_join over the zombies, from s, having gone through `done` and kept `tmp` of them. */
  ghost predicate Sorting(s: State, now: State, done: seq<Tid>, tmp: seq<Tid>, t: Tid, found: bool) {
    && s.zombies == done + now.zombies
    && tmp == Only(done, (z: Tid) => z != t)
    && now == s.(zombies := now.zombies, dead := s.dead + Only(done, (z: Tid) => z == t))
    && found == (t in done)
  }

  lemma SortingStarts(s: State, t: Tid)
    ensures Sorting(s, s, [], [], t, false)
  {
    NobodyThere([], t);
  }

  /** One round: the first zombie goes to the dead or to the new list. */
  lemma SortingRound(s: State, now: State, done: seq<Tid>, tmp: seq<Tid>, t: Tid, found: bool)
    requires Sorting(s, now, done, tmp, t, found) && now.zombies != []
    ensures var z, rest := First(now.zombies), now.(zombies := Rest(now.zombies));
            if z == t then Sorting(s, rest.(dead := rest.dead + [z]), done + [z], tmp, t, true)
            else Sorting(s, rest, done + [z], tmp + [z], t, found)
  {
    hide Only;
    SortOne(done, First(now.zombies), t);
  }

  lemma SortingEnds(s: State, now: State, done: seq<Tid>, tmp: seq<Tid>, t: Tid, found: bool)
    requires Shaped(s) && Sorting(s, now, done, tmp, t, found) && now.zombies == []
    ensures found == (t in s.zombies)
    ensures now.(zombies := tmp) == if found then Bury(s, t) else s
  {
    hide Only;
    assert done == s.zombies;
    if t !in done {
      NobodyThere(done, t);
    }
  }

  ghost predicate Distinct(q: seq<Tid>) {
    forall i, j | 0 <= i < j < |q| :: q[i] != q[j]
  }

  lemma NotBefore(q: seq<Tid>, done: seq<Tid>, rest: seq<Tid>)
    requires Distinct(q) && q == done + rest && rest != []
    ensures First(rest) !in done && First(rest) in q && q == (done + [First(rest)]) + Rest(rest)
  {
    assert q[|done|] == First(rest);
    assert forall i | 0 <= i < |done| :: done[i] == q[i];
  }

  lemma ListsAreDistinct(s: State)
    requires Sound(s, true, [])
    ensures Distinct(s.sleeping) && Distinct(s.joining)
  {
    forall i, j | 0 <= i < j < |s.sleeping| ensures s.sleeping[i] != s.sleeping[j] {
      CountedTwice(s.sleeping, i, j);
      assert Fine(s, true, [], s.sleeping[i]);
      SleeperOrJoiner(s, s.sleeping[i]);
    }
    forall i, j | 0 <= i < j < |s.joining| ensures s.joining[i] != s.joining[j] {
      CountedTwice(s.joining, i, j);
      assert Fine(s, true, [], s.joining[i]);
      SleeperOrJoiner(s, s.joining[i]);
    }
  }
}
