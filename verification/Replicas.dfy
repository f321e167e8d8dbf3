/** The servers behind the network: file systems over caches and disks stand in for the states that the
    replicated call reasons about. */
module Replicas {
  import opened LogicalFs
  import opened FileSystem
  import opened Service
  import N = Network
  import R = Represent

  type Message = N.Request<Request>
  type Answer = N.Reply<Response>
  type ServerNet = N.Net<Nodes, Request, Response>

  /** Servers share nothing, and each file system has blocks enough. */
  ghost predicate Standing(servers: seq<Fs>)
    reads servers, set i, o | 0 <= i < |servers| && o in servers[i].Repr() :: o
  {
    && (forall i | 0 <= i < |servers| :: servers[i].Valid() && R.ENOUGH_BLOCKS <= servers[i].disk.numBlocks)
    && (forall i, j | 0 <= i < j < |servers| :: Apart(servers[i], servers[j]))
  }

  ghost predicate Apart(a: Fs, b: Fs) {
    a != b && a !in b.Repr() && b !in a.Repr() && a.Repr() !! b.Repr()
  }

  /** What the network model sees of them. */
  ghost function Trees(servers: seq<Fs>): (r: seq<Nodes>)
    reads servers
    ensures |r| == |servers| && forall i | 0 <= i < |servers| :: r[i] == servers[i].nodes
  {
    seq(|servers|, i requires 0 <= i < |servers| reads servers => servers[i].nodes)
  }

  predicate AllSteady(pending: seq<seq<Message>>) {
    forall i, k | 0 <= i < |pending| && 0 <= k < |pending[i]| :: Steady(pending[i][k].q)
  }

  /** The handler call of one server on a request that is safe whatever its tree. */
  method ServeOne(fs: Fs, q: Request) returns (res: Response)
    requires fs.Valid() && R.ENOUGH_BLOCKS <= fs.disk.numBlocks && Steady(q)
    modifies fs, fs.Repr()
    ensures fs.Valid() && (fs.nodes, res) == Serving(old(fs.nodes), q)
  {
    hide Fs.Valid, Serve, GoneAstray;
    var out := Handle(fs, q);
    res := out.res;
  }

  /** thread_consumer: server i takes its k-th waiting request and answers it under its serial number. */
  method Consume(servers: seq<Fs>, pending: seq<seq<Message>>, replies: seq<Answer>, i: nat, k: nat)
    returns (pending': seq<seq<Message>>, replies': seq<Answer>)
    requires Standing(servers) && AllSteady(pending)
    requires |servers| == |pending| && i < |pending| && k < |pending[i]|
    modifies servers[i], servers[i].Repr()
    ensures Standing(servers) && AllSteady(pending')
    ensures N.Net(Trees(servers), pending', replies') ==
            N.Handle(Serving, N.Net(old(Trees(servers)), pending, replies), i, k)
  {
    hide Fs.Valid, Fs.Consistent, Steady, Serving, WellFormed;
    var m := pending[i][k];
    var res := ServeOne(servers[i], m.q);
    pending' := pending[i := N.Drop(pending[i], k)];
    replies' := replies + [N.Reply(m.sn, res)];
    forall j | 0 <= j < |servers| && j != i ensures servers[j].Valid() && servers[j].nodes == old(servers[j].nodes) {
      assert Apart(servers[if i < j then i else j], servers[if i < j then j else i]);
    }
    assert Trees(servers) == old(Trees(servers))[i := servers[i].nodes];
  }

  /** Any run of handler calls that the network model allows is a run of these servers, with the same
      answers and the same trees. */
  method Replay(servers: seq<Fs>, pending: seq<seq<Message>>, replies: seq<Answer>, steps: seq<(nat, nat)>, ghost end: ServerNet)
    returns (pending': seq<seq<Message>>, replies': seq<Answer>)
    requires Standing(servers) && AllSteady(pending) && |servers| == |pending|
    requires N.Runs(Serving, N.Net(Trees(servers), pending, replies), steps, end)
    modifies servers, set i, o | 0 <= i < |servers| && o in servers[i].Repr() :: o
    ensures Standing(servers) && AllSteady(pending')
    ensures N.Net(Trees(servers), pending', replies') == end
  {
    pending', replies' := pending, replies;
    var n := 0;
    while n < |steps|
      invariant n <= |steps| && Standing(servers) && AllSteady(pending') && |servers| == |pending'|
      invariant N.Runs(Serving, N.Net(Trees(servers), pending', replies'), steps[n..], end)
    {
      pending', replies' := Consume(servers, pending', replies', steps[n].0, steps[n].1);
      assert steps[n..][1..] == steps[n + 1..];
      n := n + 1;
    }
  }
}
