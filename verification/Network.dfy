/** Servers and messages under way: what can happen while a client waits for a datagram. */
module Network {

  datatype Request<Q> = Request(sn: nat, q: Q)
  datatype Reply<R> = Reply(sn: nat, r: R)

  /** Server states, the requests each has received and not yet handled (its consumer threads may
      take them in any order), and the replies on their way to the client. */
  datatype Net<S, Q, R> = Net(states: seq<S>, pending: seq<seq<Request<Q>>>, replies: seq<Reply<R>>)

  type Handler<!S, !Q, !R> = (S, Q) -> (S, R)

  ghost predicate Shaped<S, Q, R>(net: Net<S, Q, R>) {
    |net.states| == |net.pending| > 0
  }

  function Drop<T>(s: seq<T>, k: nat): (r: seq<T>)
    requires k < |s|
    ensures |r| == |s| - 1
  {
    s[..k] + s[k + 1..]
  }

  /** Server i handles its k-th waiting request; the reply carries the serial number of the request. */
  function Handle<S, Q, R>(h: Handler<S, Q, R>, net: Net<S, Q, R>, i: nat, k: nat): Net<S, Q, R>
    requires |net.states| == |net.pending| && i < |net.pending| && k < |net.pending[i]|
  {
    var m := net.pending[i][k];
    var (s, r) := h(net.states[i], m.q);
    Net(net.states[i := s], net.pending[i := Drop(net.pending[i], k)], net.replies + [Reply(m.sn, r)])
  }

  ghost predicate CanHandle<S, Q, R>(net: Net<S, Q, R>, i: nat, k: nat) {
    |net.states| == |net.pending| && i < |net.pending| && k < |net.pending[i]|
  }

  /** A run of handler calls, as (server, position) pairs. */
  ghost predicate Runs<S, Q, R>(h: Handler<S, Q, R>, net: Net<S, Q, R>, steps: seq<(nat, nat)>, end: Net<S, Q, R>)
    decreases |steps|
  {
    if steps == [] then net == end
    else CanHandle(net, steps[0].0, steps[0].1) && Runs(h, Handle(h, net, steps[0].0, steps[0].1), steps[1..], end)
  }

  lemma {:induction false} RunsSnoc<S, Q, R>(h: Handler<S, Q, R>, net: Net<S, Q, R>, steps: seq<(nat, nat)>,
                                            mid: Net<S, Q, R>, i: nat, k: nat)
    requires Runs(h, net, steps, mid) && CanHandle(mid, i, k)
    ensures Runs(h, net, steps + [(i, k)], Handle(h, mid, i, k))
    decreases |steps|
  {
    var all := steps + [(i, k)];
    if steps == [] {
      assert all[1..] == [];
      assert Runs(h, Handle(h, mid, i, k), [], Handle(h, mid, i, k));
    } else {
      assert all[0] == steps[0] && all[1..] == steps[1..] + [(i, k)];
      RunsSnoc(h, Handle(h, net, steps[0].0, steps[0].1), steps[1..], mid, i, k);
    }
  }

  // ----- counting messages -----

  function CountRequests<Q>(s: seq<Request<Q>>, sn: nat): nat {
    if s == [] then 0 else (if s[0].sn == sn then 1 else 0) + CountRequests(s[1..], sn)
  }

  function CountReplies<R>(s: seq<Reply<R>>, sn: nat): nat {
    if s == [] then 0 else (if s[0].sn == sn then 1 else 0) + CountReplies(s[1..], sn)
  }

  function CountPending<Q>(p: seq<seq<Request<Q>>>, sn: nat): nat {
    if p == [] then 0 else CountRequests(p[0], sn) + CountPending(p[1..], sn)
  }

  function Waiting<Q>(p: seq<seq<Request<Q>>>): nat {
    if p == [] then 0 else |p[0]| + Waiting(p[1..])
  }

  /** Messages with a serial number that are somewhere between being sent and being received. */
  function Outstanding<S, Q, R>(net: Net<S, Q, R>, sn: nat): nat {
    CountPending(net.pending, sn) + CountReplies(net.replies, sn)
  }

  function InTransit<S, Q, R>(net: Net<S, Q, R>): nat {
    Waiting(net.pending) + |net.replies|
  }

  lemma {:induction false} CountRequestsConcat<Q>(a: seq<Request<Q>>, b: seq<Request<Q>>, sn: nat)
    ensures CountRequests(a + b, sn) == CountRequests(a, sn) + CountRequests(b, sn)
  {
    if a == [] {
      assert a + b == b;
    } else {
      assert (a + b)[1..] == a[1..] + b;
      CountRequestsConcat(a[1..], b, sn);
    }
  }

  lemma {:induction false} CountRepliesConcat<R>(a: seq<Reply<R>>, b: seq<Reply<R>>, sn: nat)
    ensures CountReplies(a + b, sn) == CountReplies(a, sn) + CountReplies(b, sn)
  {
    if a == [] {
      assert a + b == b;
    } else {
      assert (a + b)[1..] == a[1..] + b;
      CountRepliesConcat(a[1..], b, sn);
    }
  }

  lemma CountRequestsDrop<Q>(s: seq<Request<Q>>, k: nat, sn: nat)
    requires k < |s|
    ensures CountRequests(s, sn) == CountRequests(Drop(s, k), sn) + if s[k].sn == sn then 1 else 0
  {
    assert s == s[..k] + ([s[k]] + s[k + 1..]);
    CountRequestsConcat(s[..k], [s[k]] + s[k + 1..], sn);
    CountRequestsConcat(s[..k], s[k + 1..], sn);
  }

  lemma CountRepliesDrop<R>(s: seq<Reply<R>>, k: nat, sn: nat)
    requires k < |s|
    ensures CountReplies(s, sn) == CountReplies(Drop(s, k), sn) + if s[k].sn == sn then 1 else 0
  {
    assert s == s[..k] + ([s[k]] + s[k + 1..]);
    CountRepliesConcat(s[..k], [s[k]] + s[k + 1..], sn);
    CountRepliesConcat(s[..k], s[k + 1..], sn);
  }

  lemma {:induction false} PendingUpdate<Q>(p: seq<seq<Request<Q>>>, i: nat, s: seq<Request<Q>>, sn: nat)
    requires i < |p|
    ensures CountPending(p[i := s], sn) == CountPending(p, sn) - CountRequests(p[i], sn) + CountRequests(s, sn)
    ensures Waiting(p[i := s]) == Waiting(p) - |p[i]| + |s|
  {
    if i > 0 {
      assert p[i := s][1..] == p[1..][i - 1 := s];
      PendingUpdate(p[1..], i - 1, s, sn);
    } else {
      assert p[i := s][1..] == p[1..];
    }
  }

  /** Handling a request turns it into its reply: nothing is lost or made. */
  lemma HandleConserves<S, Q, R>(h: Handler<S, Q, R>, net: Net<S, Q, R>, i: nat, k: nat, sn: nat)
    requires CanHandle(net, i, k)
    ensures Outstanding(Handle(h, net, i, k), sn) == Outstanding(net, sn)
    ensures InTransit(Handle(h, net, i, k)) == InTransit(net)
  {
    var m := net.pending[i][k];
    PendingUpdate(net.pending, i, Drop(net.pending[i], k), sn);
    CountRequestsDrop(net.pending[i], k, sn);
    CountRepliesConcat(net.replies, [Reply(m.sn, h(net.states[i], m.q).1)], sn);
    assert CountReplies([Reply(m.sn, h(net.states[i], m.q).1)], sn) == if m.sn == sn then 1 else 0;
  }

  lemma {:induction false} SomeServerWaits<Q>(p: seq<seq<Request<Q>>>)
    requires Waiting(p) > 0
    ensures exists i :: 0 <= i < |p| && |p[i]| > 0
  {
    if |p[0]| == 0 {
      SomeServerWaits(p[1..]);
      var i :| 0 <= i < |p[1..]| && |p[1..][i]| > 0;
      assert |p[i + 1]| > 0;
    }
  }

  lemma {:induction false} OutstandingInTransit<S, Q, R>(net: Net<S, Q, R>, sn: nat)
    ensures Outstanding(net, sn) <= InTransit(net)
  {
    PendingAtMost(net.pending, sn);
    RepliesAtMost(net.replies, sn);
  }

  lemma {:induction false} PendingAtMost<Q>(p: seq<seq<Request<Q>>>, sn: nat)
    ensures CountPending(p, sn) <= Waiting(p)
  {
    if p != [] {
      RequestsAtMost(p[0], sn);
      PendingAtMost(p[1..], sn);
    }
  }

  lemma {:induction false} RequestsAtMost<Q>(s: seq<Request<Q>>, sn: nat)
    ensures CountRequests(s, sn) <= |s|
  {
    if s != [] {
      RequestsAtMost(s[1..], sn);
    }
  }

  lemma {:induction false} RepliesAtMost<R>(s: seq<Reply<R>>, sn: nat)
    ensures CountReplies(s, sn) <= |s|
  {
    if s != [] {
      RepliesAtMost(s[1..], sn);
    }
  }

  /** The servers and the wires between them and one client. */
  class Cluster<S, Q, R> {
    const handler: Handler<S, Q, R>
    var net: Net<S, Q, R>

    constructor (handler: Handler<S, Q, R>, initial: S, n: nat)
      requires 0 < n
      ensures this.handler == handler
      ensures net == Net(seq(n, _ => initial), seq(n, _ => []), [])
    {
      this.handler := handler;
      net := Net(seq(n, _ => initial), seq(n, _ => []), []);
    }

    /** sendto: the request reaches server i. */
    method Send(i: nat, sn: nat, q: Q)
      requires i < |net.pending|
      modifies this
      ensures net == old(net).(pending := old(net.pending)[i := old(net.pending[i]) + [Request(sn, q)]])
    {
      net := net.(pending := net.pending[i := net.pending[i] + [Request(sn, q)]]);
    }

    /** recvfrom: servers handle any requests in any order, then any reply under way is delivered. */
    method Receive() returns (reply: Reply<R>, ghost steps: seq<(nat, nat)>, ghost mid: Net<S, Q, R>, k: nat)
      requires Shaped(net) && InTransit(net) > 0
      modifies this
      ensures Runs(handler, old(net), steps, mid) && k < |mid.replies|
      ensures reply == mid.replies[k] && net == mid.(replies := Drop(mid.replies, k))
    {
      steps := [];
      var turns: nat := *;
      while turns > 0 || net.replies == []
        invariant Shaped(net) && InTransit(net) == InTransit(old(net)) && Runs(handler, old(net), steps, net)
        decreases turns, Waiting(net.pending)
      {
        if Waiting(net.pending) > 0 {
          SomeServerWaits(net.pending);
          var i :| 0 <= i < |net.pending| && |net.pending[i]| > 0;
          var j :| 0 <= j < |net.pending[i]|;
          RunsSnoc(handler, old(net), steps, net, i, j);
          HandleConserves(handler, net, i, j, 0);
          net := Handle(handler, net, i, j);
          steps := steps + [(i, j)];
        }
        turns := if turns > 0 then turns - 1 else 0;
      }
      k :| 0 <= k < |net.replies|;
      mid := net;
      reply := net.replies[k];
      net := net.(replies := Drop(net.replies, k));
    }
  }
}
