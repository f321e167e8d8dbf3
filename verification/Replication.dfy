/** The replicated call: mutations go to every server and wait for all of them, reads go to a few in
    turn and take the first answer. */
module Replication {
  import opened Network

  // ----- what holds while the client is idle, reading or writing -----

  /** Handlers of reads leave the server state alone. */
  ghost predicate ReadsArePure<S(!new), Q(!new), R>(h: Handler<S, Q, R>, isWrite: Q -> bool) {
    forall s: S, q: Q :: !isWrite(q) ==> h(s, q).0 == s
  }

  /** Only reads older than `next` are left over, and no reply is as young as `next`. */
  ghost predicate Idle<S, Q, R>(net: Net<S, Q, R>, isWrite: Q -> bool, ref: S, next: nat) {
    && Shaped(net)
    && (forall i | 0 <= i < |net.states| :: net.states[i] == ref)
    && (forall i, k | 0 <= i < |net.pending| && 0 <= k < |net.pending[i]| ::
         net.pending[i][k].sn < next && !isWrite(net.pending[i][k].q))
    && (forall k | 0 <= k < |net.replies| :: net.replies[k].sn < next)
  }

  /** A read q with serial number n is under way. */
  ghost predicate Reading<S, Q, R>(net: Net<S, Q, R>, h: Handler<S, Q, R>, isWrite: Q -> bool, ref: S, n: nat, q: Q) {
    && Shaped(net)
    && (forall i | 0 <= i < |net.states| :: net.states[i] == ref)
    && (forall i, k | 0 <= i < |net.pending| && 0 <= k < |net.pending[i]| ::
         net.pending[i][k].sn <= n && !isWrite(net.pending[i][k].q) &&
         (net.pending[i][k].sn == n ==> net.pending[i][k].q == q))
    && (forall k | 0 <= k < |net.replies| ::
         net.replies[k].sn <= n && (net.replies[k].sn == n ==> net.replies[k].r == h(ref, q).1))
  }

  /** Server i has not been sent the mutation (no request, old state), has yet to run it, or has run it. */
  ghost predicate Replica<S, Q, R>(net: Net<S, Q, R>, h: Handler<S, Q, R>, ref: S, n: nat, q: Q, i: nat, sent: nat)
    requires |net.states| == |net.pending| && i < |net.states|
  {
    || (net.states[i] == ref && CountRequests(net.pending[i], n) == if i < sent then 1 else 0)
    || (i < sent && net.states[i] == h(ref, q).0 && CountRequests(net.pending[i], n) == 0)
  }

  /** A mutation q with serial number n is under way at the first `sent` servers. */
  ghost predicate Writing<S, Q, R>(net: Net<S, Q, R>, h: Handler<S, Q, R>, isWrite: Q -> bool, ref: S, n: nat, q: Q, sent: nat) {
    && Shaped(net)
    && (forall i | 0 <= i < |net.states| :: Replica(net, h, ref, n, q, i, sent))
    && (forall i, k | 0 <= i < |net.pending| && 0 <= k < |net.pending[i]| ::
         net.pending[i][k].sn <= n &&
         if net.pending[i][k].sn == n then net.pending[i][k].q == q else !isWrite(net.pending[i][k].q))
    && (forall k | 0 <= k < |net.replies| ::
         net.replies[k].sn <= n && (net.replies[k].sn == n ==> net.replies[k].r == h(ref, q).1))
  }

  // ----- servers make progress underneath -----

  lemma HandleWhileReading<S(!new), Q(!new), R>(net: Net<S, Q, R>, h: Handler<S, Q, R>, isWrite: Q -> bool,
                                                ref: S, n: nat, q: Q, i: nat, k: nat)
    requires ReadsArePure(h, isWrite) && Reading(net, h, isWrite, ref, n, q) && CanHandle(net, i, k)
    ensures Reading(Handle(h, net, i, k), h, isWrite, ref, n, q)
  {
    var m, net' := net.pending[i][k], Handle(h, net, i, k);
    assert h(net.states[i], m.q).0 == ref;
    forall j, l | 0 <= j < |net'.pending| && 0 <= l < |net'.pending[j]|
      ensures net'.pending[j][l] in net.pending[j]
    {
      DropIsPart(net.pending[i], k);
    }
  }

  lemma DropIsPart<T>(s: seq<T>, k: nat)
    requires k < |s|
    ensures forall l | 0 <= l < |s| - 1 :: Drop(s, k)[l] in s
  {
  }

  lemma HandleWhileWriting<S(!new), Q(!new), R>(net: Net<S, Q, R>, h: Handler<S, Q, R>, isWrite: Q -> bool,
                                                ref: S, n: nat, q: Q, sent: nat, i: nat, k: nat)
    requires ReadsArePure(h, isWrite) && Writing(net, h, isWrite, ref, n, q, sent) && CanHandle(net, i, k)
    ensures Writing(Handle(h, net, i, k), h, isWrite, ref, n, q, sent)
  {
    var m, net' := net.pending[i][k], Handle(h, net, i, k);
    CountRequestsDrop(net.pending[i], k, n);
    assert Replica(net, h, ref, n, q, i, sent);
    assert m.sn != n ==> h(net.states[i], m.q).0 == net.states[i];
    DropIsPart(net.pending[i], k);
    forall j, l | 0 <= j < |net'.pending| && 0 <= l < |net'.pending[j]|
      ensures net'.pending[j][l] in net.pending[j]
    {
    }
    forall j | 0 <= j < |net'.states| ensures Replica(net', h, ref, n, q, j, sent) {
      assert Replica(net, h, ref, n, q, j, sent);
    }
  }

  lemma {:induction false} RunsWhileReading<S(!new), Q(!new), R>(net: Net<S, Q, R>, h: Handler<S, Q, R>, isWrite: Q -> bool,
                           ref: S, n: nat, q: Q, steps: seq<(nat, nat)>, end: Net<S, Q, R>)
    requires ReadsArePure(h, isWrite) && Reading(net, h, isWrite, ref, n, q) && Runs(h, net, steps, end)
    ensures Reading(end, h, isWrite, ref, n, q)
    ensures Outstanding(end, n) == Outstanding(net, n) && InTransit(end) == InTransit(net)
    decreases |steps|
  {
    if steps != [] {
      HandleWhileReading(net, h, isWrite, ref, n, q, steps[0].0, steps[0].1);
      HandleConserves(h, net, steps[0].0, steps[0].1, n);
      RunsWhileReading(Handle(h, net, steps[0].0, steps[0].1), h, isWrite, ref, n, q, steps[1..], end);
    }
  }

  lemma {:induction false} RunsWhileWriting<S(!new), Q(!new), R>(net: Net<S, Q, R>, h: Handler<S, Q, R>, isWrite: Q -> bool,
                           ref: S, n: nat, q: Q, sent: nat, steps: seq<(nat, nat)>, end: Net<S, Q, R>)
    requires ReadsArePure(h, isWrite) && Writing(net, h, isWrite, ref, n, q, sent) && Runs(h, net, steps, end)
    ensures Writing(end, h, isWrite, ref, n, q, sent) && |end.states| == |net.states|
    ensures Outstanding(end, n) == Outstanding(net, n) && InTransit(end) == InTransit(net)
    decreases |steps|
  {
    if steps != [] {
      HandleWhileWriting(net, h, isWrite, ref, n, q, sent, steps[0].0, steps[0].1);
      HandleConserves(h, net, steps[0].0, steps[0].1, n);
      RunsWhileWriting(Handle(h, net, steps[0].0, steps[0].1), h, isWrite, ref, n, q, sent, steps[1..], end);
    }
  }

  // ----- sending -----

  lemma SendWhileWriting<S, Q, R>(net: Net<S, Q, R>, h: Handler<S, Q, R>, isWrite: Q -> bool, ref: S, n: nat, q: Q, i: nat,
                                  net': Net<S, Q, R>)
    requires Writing(net, h, isWrite, ref, n, q, i) && i < |net.states|
    requires net' == net.(pending := net.pending[i := net.pending[i] + [Request(n, q)]])
    ensures Writing(net', h, isWrite, ref, n, q, i + 1)
    ensures Outstanding(net', n) == Outstanding(net, n) + 1
  {
    CountRequestsConcat(net.pending[i], [Request(n, q)], n);
    assert CountRequests([Request(n, q)], n) == 1;
    PendingUpdate(net.pending, i, net'.pending[i], n);
    var sent := i + 1;
    forall j | 0 <= j < |net'.states| ensures Replica(net', h, ref, n, q, j, sent) {
      assert Replica(net, h, ref, n, q, j, i);
    }
  }

  lemma SendWhileReading<S, Q, R>(net: Net<S, Q, R>, h: Handler<S, Q, R>, isWrite: Q -> bool, ref: S, n: nat, q: Q, i: nat,
                                  net': Net<S, Q, R>)
    requires Reading(net, h, isWrite, ref, n, q) && i < |net.states| && !isWrite(q)
    requires net' == net.(pending := net.pending[i := net.pending[i] + [Request(n, q)]])
    ensures Reading(net', h, isWrite, ref, n, q)
    ensures Outstanding(net', n) == Outstanding(net, n) + 1
  {
    CountRequestsConcat(net.pending[i], [Request(n, q)], n);
    assert CountRequests([Request(n, q)], n) == 1;
    PendingUpdate(net.pending, i, net'.pending[i], n);
  }

  // ----- starting and ending a call -----

  lemma IdleHasNoMessages<S, Q, R>(net: Net<S, Q, R>, isWrite: Q -> bool, ref: S, next: nat)
    requires Idle(net, isWrite, ref, next)
    ensures Outstanding(net, next) == 0
    ensures forall i | 0 <= i < |net.pending| :: CountRequests(net.pending[i], next) == 0
  {
    forall i | 0 <= i < |net.pending| ensures CountRequests(net.pending[i], next) == 0 {
      NoRequests(net.pending[i], next);
    }
    NonePending(net.pending, next);
    NoReplies(net.replies, next);
  }

  lemma {:induction false} NoRequests<Q>(s: seq<Request<Q>>, sn: nat)
    ensures CountRequests(s, sn) == 0 <==> forall k | 0 <= k < |s| :: s[k].sn != sn
  {
    if s != [] {
      NoRequests(s[1..], sn);
      assert forall k | 0 < k < |s| :: s[k] == s[1..][k - 1];
    }
  }

  lemma {:induction false} NoReplies<R>(s: seq<Reply<R>>, sn: nat)
    ensures CountReplies(s, sn) == 0 <==> forall k | 0 <= k < |s| :: s[k].sn != sn
  {
    if s != [] {
      NoReplies(s[1..], sn);
      assert forall k | 0 < k < |s| :: s[k] == s[1..][k - 1];
    }
  }

  lemma {:induction false} NonePending<Q>(p: seq<seq<Request<Q>>>, sn: nat)
    ensures CountPending(p, sn) == 0 <==> forall i | 0 <= i < |p| :: CountRequests(p[i], sn) == 0
  {
    if p != [] {
      NonePending(p[1..], sn);
      assert forall i | 0 < i < |p| :: p[i] == p[1..][i - 1];
    }
  }

  /** When every reply to the mutation has been received, all replicas have run it once. */
  lemma WritingEnds<S, Q, R>(net: Net<S, Q, R>, h: Handler<S, Q, R>, isWrite: Q -> bool, ref: S, n: nat, q: Q)
    requires Writing(net, h, isWrite, ref, n, q, |net.states|) && Outstanding(net, n) == 0
    ensures Idle(net, isWrite, h(ref, q).0, n + 1)
  {
    NonePending(net.pending, n);
    NoReplies(net.replies, n);
    forall i | 0 <= i < |net.states|
      ensures net.states[i] == h(ref, q).0
      ensures forall k | 0 <= k < |net.pending[i]| :: net.pending[i][k].sn != n
    {
      assert Replica(net, h, ref, n, q, i, |net.states|);
      NoRequests(net.pending[i], n);
    }
  }

  /** Taking a reply off the wire. */
  lemma DeliverWhileWriting<S, Q, R>(net: Net<S, Q, R>, h: Handler<S, Q, R>, isWrite: Q -> bool,
                                     ref: S, n: nat, q: Q, sent: nat, k: nat)
    requires Writing(net, h, isWrite, ref, n, q, sent) && k < |net.replies|
    ensures var net' := net.(replies := Drop(net.replies, k));
            && Writing(net', h, isWrite, ref, n, q, sent)
            && Outstanding(net', n) == Outstanding(net, n) - (if net.replies[k].sn == n then 1 else 0)
            && InTransit(net') == InTransit(net) - 1
    ensures net.replies[k].sn == n ==> net.replies[k].r == h(ref, q).1
  {
    var net' := net.(replies := Drop(net.replies, k));
    CountRepliesDrop(net.replies, k, n);
    forall i | 0 <= i < |net'.states| ensures Replica(net', h, ref, n, q, i, sent) {
      assert Replica(net, h, ref, n, q, i, sent);
    }
  }

  lemma DeliverWhileReading<S, Q, R>(net: Net<S, Q, R>, h: Handler<S, Q, R>, isWrite: Q -> bool, ref: S, n: nat, q: Q, k: nat)
    requires Reading(net, h, isWrite, ref, n, q) && k < |net.replies|
    ensures var net' := net.(replies := Drop(net.replies, k));
            && Reading(net', h, isWrite, ref, n, q)
            && Outstanding(net', n) == Outstanding(net, n) - (if net.replies[k].sn == n then 1 else 0)
            && InTransit(net') == InTransit(net) - 1
    ensures net.replies[k].sn == n ==> net.replies[k].r == h(ref, q).1
  {
    CountRepliesDrop(net.replies, k, n);
  }

  /** A delivery as a whole: handler calls, then one reply off the wire. */
  lemma AfterReceive<S(!new), Q(!new), R>(net: Net<S, Q, R>, h: Handler<S, Q, R>, isWrite: Q -> bool, ref: S, n: nat, q: Q,
                       steps: seq<(nat, nat)>, mid: Net<S, Q, R>, k: nat, net': Net<S, Q, R>)
    requires ReadsArePure(h, isWrite) && Reading(net, h, isWrite, ref, n, q)
    requires Runs(h, net, steps, mid) && k < |mid.replies| && net' == mid.(replies := Drop(mid.replies, k))
    ensures Reading(net', h, isWrite, ref, n, q) && |net'.states| == |net.states|
    ensures Outstanding(net', n) == Outstanding(net, n) - (if mid.replies[k].sn == n then 1 else 0)
    ensures InTransit(net') == InTransit(net) - 1
    ensures mid.replies[k].sn == n ==> mid.replies[k].r == h(ref, q).1
  {
    RunsWhileReading(net, h, isWrite, ref, n, q, steps, mid);
    SameServers(h, net, steps, mid);
    DeliverWhileReading(mid, h, isWrite, ref, n, q, k);
  }

  /** Once the first reply is in, whatever is left of the read is old. */
  lemma ReadingEnds<S, Q, R>(net: Net<S, Q, R>, h: Handler<S, Q, R>, isWrite: Q -> bool, ref: S, n: nat, q: Q)
    requires Reading(net, h, isWrite, ref, n, q)
    ensures Idle(net, isWrite, ref, n + 1)
  {
  }

  // ----- round robin -----

  function Turn(rr: nat, k: nat, n: nat): nat
    requires 0 < n
  {
    (rr + k) % n
  }

  /** The servers contacted by one read. */
  function Round(rr: nat, m: nat, n: nat): seq<nat>
    requires 0 < n
  {
    seq(m, k requires 0 <= k => Turn(rr, k, n))
  }

  /** The servers contacted by a run of reads, in order, when the index starts at rr. */
  function Contacts(rr: nat, m: nat, n: nat, calls: nat): seq<nat>
    requires 0 < n
    decreases calls
  {
    if calls == 0 then [] else Round(rr, m, n) + Contacts(Turn(rr, m, n), m, n, calls - 1)
  }

  lemma ModAdd(a: nat, b: nat, n: nat)
    requires 0 < n
    ensures (a % n + b) % n == (a + b) % n
  {
    var q, r := a / n, (a % n + b) % n;
    assert a + b == q * n + (a % n + b);
    var p := (a % n + b) / n;
    assert a + b == (q + p) * n + r;
    Quotient(a + b, q + p, r, n);
  }

  lemma Quotient(x: int, q: int, r: int, n: int)
    requires 0 <= r < n && x == q * n + r
    ensures x % n == r
  {
    var d := x / n - q;
    assert d * n == (x / n) * n - q * n;
    assert x == (x / n) * n + x % n;
    Multiples(d, n);
  }

  lemma Multiples(d: int, n: int)
    requires 0 < n
    ensures d >= 1 ==> d * n >= n
    ensures d <= -1 ==> d * n <= -n
  {
  }

  lemma OneMore(m: nat, calls: nat)
    requires calls > 0
    ensures m * calls == m + m * (calls - 1)
  {
  }

  lemma TurnTwice(rr: nat, m: nat, k: nat, n: nat)
    requires 0 < n
    ensures Turn(Turn(rr, m, n), k, n) == Turn(rr, m + k, n)
  {
    ModAdd(rr + m, k, n);
  }

  lemma {:induction false} ContactsLength(rr: nat, m: nat, n: nat, calls: nat)
    requires 0 < n
    ensures |Contacts(rr, m, n, calls)| == m * calls
    decreases calls
  {
    if calls > 0 {
      ContactsLength(Turn(rr, m, n), m, n, calls - 1);
      OneMore(m, calls);
    }
  }

  lemma {:induction false} ContactsGoRound(rr: nat, m: nat, n: nat, calls: nat, k: nat)
    requires 0 < n && k < |Contacts(rr, m, n, calls)|
    ensures Contacts(rr, m, n, calls)[k] == Turn(rr, k, n)
    decreases calls
  {
    hide Turn;
    if k >= m {
      ContactsGoRound(Turn(rr, m, n), m, n, calls - 1, k - m);
      TurnTwice(rr, m, k - m, n);
    }
  }

  lemma {:induction false} ContactsSnoc(rr: nat, m: nat, n: nat, calls: nat)
    requires 0 < n
    ensures Contacts(rr, m, n, calls + 1) == Contacts(rr, m, n, calls) + Round(Turn(rr, m * calls, n), m, n)
    ensures Turn(Turn(rr, m * calls, n), m, n) == Turn(rr, m * (calls + 1), n)
    decreases calls
  {
    TurnTwice(rr, m * calls, m, n);
    OneMore(m, calls + 1);
    if calls == 0 {
      RoundFrom(rr, m, n);
      assert Contacts(Turn(rr, m, n), m, n, 0) == [];
    } else {
      ContactsSnoc(Turn(rr, m, n), m, n, calls - 1);
      TurnTwice(rr, m, m * (calls - 1), n);
      OneMore(m, calls);
    }
  }

  lemma RoundFrom(rr: nat, m: nat, n: nat)
    requires 0 < n
    ensures Round(Turn(rr, m * 0, n), m, n) == Round(rr, m, n)
  {
    forall k | 0 <= k < m ensures Round(Turn(rr, m * 0, n), m, n)[k] == Round(rr, m, n)[k] {
      TurnTwice(rr, 0, k, n);
    }
  }

  /** Among any n contacts in a row, across reads, every server is contacted exactly once. */
  lemma EveryServerInTurn(rr: nat, m: nat, n: nat, calls: nat, from: nat, s: nat)
    requires 0 < n && s < n && from + n <= m * calls
    ensures |Contacts(rr, m, n, calls)| == m * calls
    ensures exists k :: from <= k < from + n && Contacts(rr, m, n, calls)[k] == s &&
              forall l | from <= l < from + n && Contacts(rr, m, n, calls)[l] == s :: l == k
  {
    ContactsLength(rr, m, n, calls);
    var c := Contacts(rr, m, n, calls);
    var base := (rr + from) % n;
    var k := from + if base <= s then s - base else s + n - base;
    forall l | from <= l < from + n ensures c[l] == Wrapped(base + (l - from), n) {
      ContactsGoRound(rr, m, n, calls, l);
      ModAdd(rr + from, l - from, n);
      WrappedIsMod(base + (l - from), n);
    }
    assert c[k] == s;
  }

  function Wrapped(x: nat, n: nat): int {
    if x < n then x else x - n
  }

  lemma WrappedIsMod(x: nat, n: nat)
    requires x < 2 * n
    ensures x % n == Wrapped(x, n)
  {
    Quotient(x, if x < n then 0 else 1, Wrapped(x, n), n);
  }

  // ----- the client -----

  class Client<S(!new), Q(!new), R> {
    const cluster: Cluster<S, Q, R>
    /** Num_servers and READ_SERVERS_M. */
    const numServers: nat
    const readServers: nat
    const isWrite: Q -> bool
    const statusOf: R -> int
    var nextSn: nat
    var rrIndex: nat

    /** The state of one imaginary server that has run every mutation so far, in order. */
    ghost var ref: S

    /** The servers that reads have been sent to, in order, and how many reads there were. */
    ghost var contacts: seq<nat>
    ghost var readCount: nat

    ghost predicate Valid()
      reads this, cluster
    {
      && ReadsArePure(cluster.handler, isWrite)
      && Idle(cluster.net, isWrite, ref, nextSn)
      && numServers == |cluster.net.states| && 0 < readServers && rrIndex < numServers
      && contacts == Contacts(0, Fewer(readServers, numServers), numServers, readCount)
      && rrIndex == Turn(0, Fewer(readServers, numServers) * readCount, numServers)
    }

    /** Reads spread evenly: among any N contacts in a row every server is met exactly once. */
    lemma ReadsGoRound(from: nat, s: nat)
      requires Valid() && s < numServers && from + numServers <= |contacts|
      ensures exists k :: from <= k < from + numServers && contacts[k] == s &&
                forall l | from <= l < from + numServers && contacts[l] == s :: l == k
    {
      ContactsLength(0, Fewer(readServers, numServers), numServers, readCount);
      EveryServerInTurn(0, Fewer(readServers, numServers), numServers, readCount, from, s);
    }

    constructor (cluster: Cluster<S, Q, R>, ghost initial: S, readServers: nat, isWrite: Q -> bool, statusOf: R -> int)
      requires ReadsArePure(cluster.handler, isWrite) && 0 < readServers && Shaped(cluster.net)
      requires forall i | 0 <= i < |cluster.net.states| :: cluster.net.states[i] == initial && cluster.net.pending[i] == []
      requires cluster.net.replies == []
      ensures Valid() && ref == initial && this.cluster == cluster && this.isWrite == isWrite
    {
      this.cluster, this.readServers, this.isWrite, this.statusOf := cluster, readServers, isWrite, statusOf;
      numServers := |cluster.net.states|;
      nextSn, rrIndex, ref := 0, 0, initial;
      contacts, readCount := [], 0;
    }

    /** remote_call. The reply is the one that a single server would give after all earlier
        mutations, whatever the replicas were still busy with; the client never exits because the
        servers disagree. */
    method RemoteCall(q: Q, toAll: bool) returns (res: R, aborted: bool)
      requires Valid() && toAll == isWrite(q)
      modifies this, cluster
      ensures Valid() && !aborted
      ensures (ref, res) == cluster.handler(old(ref), q)
      ensures toAll ==> rrIndex == old(rrIndex) && contacts == old(contacts)
      ensures !toAll ==>
                && rrIndex == Turn(old(rrIndex), Fewer(readServers, numServers), numServers)
                && contacts == old(contacts) + Round(old(rrIndex), Fewer(readServers, numServers), numServers)
    {
      var sn := nextSn;
      nextSn := nextSn + 1;
      if toAll {
        res, aborted := Mutate(sn, q);
        ref := cluster.handler(ref, q).0;
      } else {
        ContactsSnoc(0, Fewer(readServers, numServers), numServers, readCount);
        res := Query(sn, q);
        readCount := readCount + 1;
        aborted := false;
      }
    }

    /** The write path: send to all, wait for all, compare statuses. */
    method Mutate(sn: nat, q: Q) returns (res: R, aborted: bool)
      requires ReadsArePure(cluster.handler, isWrite) && isWrite(q)
      requires Idle(cluster.net, isWrite, ref, sn) && numServers == |cluster.net.states|
      modifies cluster
      ensures !aborted && res == cluster.handler(ref, q).1
      ensures Idle(cluster.net, isWrite, cluster.handler(ref, q).0, sn + 1) && numServers == |cluster.net.states|
    {
      SendAll(sn, q);
      var responses: seq<R> := [];
      while |responses| < numServers
        invariant Writing(cluster.net, cluster.handler, isWrite, ref, sn, q, numServers)
        invariant numServers == |cluster.net.states|
        invariant |responses| <= numServers && Outstanding(cluster.net, sn) == numServers - |responses|
        invariant forall k | 0 <= k < |responses| :: responses[k] == cluster.handler(ref, q).1
        decreases InTransit(cluster.net)
      {
        OutstandingInTransit(cluster.net, sn);
        ghost var before := cluster.net;
        var tmp, steps, mid, k := cluster.Receive();
        RunsWhileWriting(before, cluster.handler, isWrite, ref, sn, q, numServers, steps, mid);
        DeliverWhileWriting(mid, cluster.handler, isWrite, ref, sn, q, numServers, k);
        if tmp.sn == sn {
          responses := responses + [tmp.r];
        }
      }
      WritingEnds(cluster.net, cluster.handler, isWrite, ref, sn, q);
      res, aborted := responses[0], false;
      for i := 1 to numServers
        invariant !aborted
      {
        if statusOf(responses[i]) != statusOf(responses[0]) {
          aborted := true;
        }
      }
    }

    method SendAll(sn: nat, q: Q)
      requires Idle(cluster.net, isWrite, ref, sn) && numServers == |cluster.net.states|
      modifies cluster
      ensures Writing(cluster.net, cluster.handler, isWrite, ref, sn, q, numServers)
      ensures numServers == |cluster.net.states| && Outstanding(cluster.net, sn) == numServers
    {
      IdleHasNoMessages(cluster.net, isWrite, ref, sn);
      for i := 0 to numServers
        invariant Writing(cluster.net, cluster.handler, isWrite, ref, sn, q, i)
        invariant numServers == |cluster.net.states| && Outstanding(cluster.net, sn) == i
      {
        ghost var before := cluster.net;
        cluster.Send(i, sn, q);
        SendWhileWriting(before, cluster.handler, isWrite, ref, sn, q, i, cluster.net);
      }
    }

    /** The read path: send to M servers in turn, take the first reply with this serial number. */
    method Query(sn: nat, q: Q) returns (res: R)
      requires ReadsArePure(cluster.handler, isWrite) && !isWrite(q) && 0 < readServers && rrIndex < numServers
      requires Idle(cluster.net, isWrite, ref, sn) && numServers == |cluster.net.states|
      modifies this`rrIndex, this`contacts, cluster
      ensures res == cluster.handler(ref, q).1
      ensures Idle(cluster.net, isWrite, ref, sn + 1) && numServers == |cluster.net.states|
      ensures rrIndex == Turn(old(rrIndex), Fewer(readServers, numServers), numServers)
      ensures contacts == old(contacts) + Round(old(rrIndex), Fewer(readServers, numServers), numServers)
    {
      SendSome(sn, q);
      res := FirstReply(sn, q);
    }

    method FirstReply(sn: nat, q: Q) returns (res: R)
      requires ReadsArePure(cluster.handler, isWrite) && Outstanding(cluster.net, sn) > 0
      requires Reading(cluster.net, cluster.handler, isWrite, ref, sn, q) && numServers == |cluster.net.states|
      modifies cluster
      ensures res == cluster.handler(ref, q).1
      ensures Idle(cluster.net, isWrite, ref, sn + 1) && numServers == |cluster.net.states|
    {
      while true
        invariant Reading(cluster.net, cluster.handler, isWrite, ref, sn, q) && numServers == |cluster.net.states|
        invariant Outstanding(cluster.net, sn) > 0
        decreases InTransit(cluster.net)
      {
        OutstandingInTransit(cluster.net, sn);
        ghost var before := cluster.net;
        var tmp, steps, mid, k := cluster.Receive();
        AfterReceive(before, cluster.handler, isWrite, ref, sn, q, steps, mid, k, cluster.net);
        if tmp.sn == sn {
          ReadingEnds(cluster.net, cluster.handler, isWrite, ref, sn, q);
          return tmp.r;
        }
      }
    }

    method SendSome(sn: nat, q: Q)
      requires !isWrite(q) && 0 < readServers && rrIndex < numServers
      requires Idle(cluster.net, isWrite, ref, sn) && numServers == |cluster.net.states|
      modifies this`rrIndex, this`contacts, cluster
      ensures Reading(cluster.net, cluster.handler, isWrite, ref, sn, q) && numServers == |cluster.net.states|
      ensures Outstanding(cluster.net, sn) == Fewer(readServers, numServers)
      ensures forall i | 0 <= i < numServers :: Request(sn, q) in cluster.net.pending[i] <==>
                exists k | 0 <= k < Fewer(readServers, numServers) :: Turn(old(rrIndex), k, numServers) == i
      ensures rrIndex == Turn(old(rrIndex), Fewer(readServers, numServers), numServers)
      ensures contacts == old(contacts) + Round(old(rrIndex), Fewer(readServers, numServers), numServers)
    {
      IdleHasNoMessages(cluster.net, isWrite, ref, sn);
      var m := Fewer(readServers, numServers);
      for k := 0 to m
        invariant Reading(cluster.net, cluster.handler, isWrite, ref, sn, q)
        invariant numServers == |cluster.net.states| && Outstanding(cluster.net, sn) == k
        invariant rrIndex == old(rrIndex) && contacts == old(contacts) + Round(rrIndex, k, numServers)
        invariant forall i | 0 <= i < numServers :: Request(sn, q) in cluster.net.pending[i] <==>
                    exists j | 0 <= j < k :: Turn(rrIndex, j, numServers) == i
      {
        var idx := Turn(rrIndex, k, numServers);
        ghost var before := cluster.net;
        cluster.Send(idx, sn, q);
        contacts := contacts + [idx];
        SendWhileReading(before, cluster.handler, isWrite, ref, sn, q, idx, cluster.net);
      }
      rrIndex := Turn(rrIndex, m, numServers);
    }
  }

  function Fewer(a: nat, b: nat): nat {
    if a < b then a else b
  }

  lemma {:induction false} SameServers<S, Q, R>(h: Handler<S, Q, R>, net: Net<S, Q, R>, steps: seq<(nat, nat)>, end: Net<S, Q, R>)
    requires Runs(h, net, steps, end)
    ensures |end.states| == |net.states|
    decreases |steps|
  {
    if steps != [] {
      SameServers(h, Handle(h, net, steps[0].0, steps[0].1), steps[1..], end);
    }
  }
}
