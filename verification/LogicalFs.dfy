/** The file system as its clients see it: numbered nodes holding bytes or named entries. */
module LogicalFs {
  import opened Options
  import opened Bytes

  const MAX_NODES: nat := 64
  const MAX_DATA: nat := 5120
  const MAX_NAME: nat := 13
  const ROOT: nat := 1

  type Name = seq<byte>

  datatype DirEntry = DirEntry(name: Name, id: nat)

  /** Node 0 is reserved; numbers are handed out in increasing order and never taken back. */
  datatype Node = Reserved | File(data: seq<byte>) | Dir(entries: seq<DirEntry>)

  type Nodes = seq<Node>

  const INITIAL: Nodes := [Reserved, Dir([])]

  // ----- operations -----

  predicate GoodName(name: Name) {
    0 < |name| <= MAX_NAME && NoNul(name)
  }

  /** The inode of the first entry with a given name. */
  function Lookup(entries: seq<DirEntry>, name: Name): Option<nat> {
    if entries == [] then None
    else if entries[0].name == name then Some(entries[0].id)
    else Lookup(entries[1..], name)
  }

  predicate CanCreate(nodes: Nodes, dir: nat, name: Name) {
    && dir < |nodes| < MAX_NODES && nodes[dir].Dir? && GoodName(name)
    && Lookup(nodes[dir].entries, name) == None
  }

  /** fs_create (leaf = an empty file) and fs_mkdir (leaf = an empty directory). */
  function AfterCreate(nodes: Nodes, dir: nat, name: Name, leaf: Node): Nodes
    requires dir < |nodes| && nodes[dir].Dir?
  {
    nodes[dir := Dir(nodes[dir].entries + [DirEntry(name, |nodes|)])] + [leaf]
  }

  function Min(a: nat, b: nat): nat {
    if a <= b then a else b
  }

  /** The offset at which a write really starts. */
  function Start(was: seq<byte>, offset: nat): nat {
    Min(offset, |was|)
  }

  /** `was` with `data` written over it at `offset`, or at its end when `offset` is past it. */
  function Splice(was: seq<byte>, offset: nat, data: seq<byte>): (r: seq<byte>)
    ensures |r| == if Start(was, offset) + |data| <= |was| then |was| else Start(was, offset) + |data|
  {
    var o := Start(was, offset);
    was[..o] + data + (if o + |data| <= |was| then was[o + |data|..] else [])
  }

  predicate CanWrite(nodes: Nodes, file: nat, offset: nat, data: seq<byte>) {
    && file < |nodes| && nodes[file].File?
    && |Splice(nodes[file].data, offset, data)| <= MAX_DATA
  }

  function AfterWrite(nodes: Nodes, file: nat, offset: nat, data: seq<byte>): Nodes
    requires file < |nodes| && nodes[file].File?
  {
    nodes[file := File(Splice(nodes[file].data, offset, data))]
  }

  /** What fs_read delivers. */
  function Slice(data: seq<byte>, offset: nat, count: nat): seq<byte> {
    if offset >= |data| then [] else data[offset..offset + Min(count, |data| - offset)]
  }

  datatype Op =
    | Create(dir: nat, name: Name)
    | Mkdir(dir: nat, name: Name)
    | Write(file: nat, offset: nat, data: seq<byte>)

  function Step(nodes: Nodes, op: Op): Nodes {
    match op
    case Create(dir, name) => if CanCreate(nodes, dir, name) then AfterCreate(nodes, dir, name, File([])) else nodes
    case Mkdir(dir, name) => if CanCreate(nodes, dir, name) then AfterCreate(nodes, dir, name, Dir([])) else nodes
    case Write(file, offset, data) =>
      if CanWrite(nodes, file, offset, data) then AfterWrite(nodes, file, offset, data) else nodes
  }

  function Run(nodes: Nodes, ops: seq<Op>): Nodes
    decreases |ops|
  {
    if ops == [] then nodes else Run(Step(nodes, ops[0]), ops[1..])
  }

  // ----- the invariant -----

  ghost predicate Names(nodes: Nodes, d: nat, e: nat, id: nat) {
    d < |nodes| && nodes[d].Dir? && e < |nodes[d].entries| && nodes[d].entries[e].id == id
  }

  ghost predicate Named(nodes: Nodes, id: nat) {
    exists d: nat, e: nat :: Names(nodes, d, e, id)
  }

  ghost predicate DistinctNames(entries: seq<DirEntry>) {
    forall i, j | 0 <= i < j < |entries| :: entries[i].name != entries[j].name
  }

  /** Directory entries in all. */
  function TotalEntries(nodes: Nodes): nat {
    if nodes == [] then 0
    else TotalEntries(nodes[..|nodes| - 1]) + EntryCount(nodes[|nodes| - 1])
  }

  function EntryCount(n: Node): nat {
    if n.Dir? then |n.entries| else 0
  }

  ghost predicate WellFormed(nodes: Nodes) {
    && 2 <= |nodes| <= MAX_NODES
    && nodes[0].Reserved? && nodes[ROOT].Dir?
    && (forall id | 1 <= id < |nodes| :: !nodes[id].Reserved?)
    && (forall id | 0 <= id < |nodes| && nodes[id].File? :: |nodes[id].data| <= MAX_DATA)
    && (forall d | 0 <= d < |nodes| && nodes[d].Dir? :: DistinctNames(nodes[d].entries))
    && (forall d, e | 0 <= d < |nodes| && nodes[d].Dir? && 0 <= e < |nodes[d].entries| ::
         GoodName(nodes[d].entries[e].name) && d < nodes[d].entries[e].id < |nodes|)
    && (forall d: nat, e: nat, d': nat, e': nat, id: nat ::
         Names(nodes, d, e, id) && Names(nodes, d', e', id) ==> d == d' && e == e')
    && (forall id | 2 <= id < |nodes| :: Named(nodes, id))
    && TotalEntries(nodes) == |nodes| - 2
  }

  lemma InitialWellFormed()
    ensures WellFormed(INITIAL)
  {
    assert INITIAL[..1] == [Reserved] && [Reserved][..0] == [];
    assert TotalEntries([Reserved]) == 0;
  }

  lemma {:induction false} TotalAfterUpdate(nodes: Nodes, i: nat, n: Node)
    requires i < |nodes|
    ensures TotalEntries(nodes[i := n]) == TotalEntries(nodes) - EntryCount(nodes[i]) + EntryCount(n)
  {
    var k := |nodes| - 1;
    if i == k {
      assert nodes[i := n][..k] == nodes[..k];
    } else {
      assert nodes[i := n][..k] == nodes[..k][i := n];
      TotalAfterUpdate(nodes[..k], i, n);
    }
  }

  lemma TotalAfterAppend(nodes: Nodes, n: Node)
    ensures TotalEntries(nodes + [n]) == TotalEntries(nodes) + EntryCount(n)
  {
    assert (nodes + [n])[..|nodes|] == nodes;
  }

  lemma {:induction false} EntriesBelowTotal(nodes: Nodes, d: nat)
    requires d < |nodes|
    ensures EntryCount(nodes[d]) <= TotalEntries(nodes)
  {
    if d < |nodes| - 1 {
      EntriesBelowTotal(nodes[..|nodes| - 1], d);
    }
  }

  /** The inode table bounds every directory: it never needs a third block. */
  lemma DirectoriesAreSmall(nodes: Nodes, d: nat)
    requires WellFormed(nodes) && d < |nodes| && nodes[d].Dir?
    ensures |nodes[d].entries| <= |nodes| - 2 <= 62
  {
    EntriesBelowTotal(nodes, d);
  }

  lemma {:induction false} LookupIsFirst(entries: seq<DirEntry>, k: nat, name: Name)
    requires k < |entries| && entries[k].name == name
    requires forall j | 0 <= j < k :: entries[j].name != name
    ensures Lookup(entries, name) == Some(entries[k].id)
  {
    if k > 0 {
      LookupIsFirst(entries[1..], k - 1, name);
    }
  }

  lemma {:induction false} LookupAbsent(entries: seq<DirEntry>, name: Name)
    ensures Lookup(entries, name) == None <==> forall j | 0 <= j < |entries| :: entries[j].name != name
  {
    if entries != [] {
      LookupAbsent(entries[1..], name);
      if Lookup(entries[1..], name) == None {
        forall j | 0 < j < |entries| ensures entries[j].name != name {
          assert entries[j] == entries[1..][j - 1];
        }
      }
    }
  }

  lemma {:induction false} LookupFinds(entries: seq<DirEntry>, name: Name) returns (k: nat)
    requires Lookup(entries, name).Some?
    ensures k < |entries| && entries[k] == DirEntry(name, Lookup(entries, name).value)
  {
    if entries[0].name == name {
      k := 0;
    } else {
      k := LookupFinds(entries[1..], name);
      k := k + 1;
    }
  }

  lemma CreateKeepsWellFormed(nodes: Nodes, dir: nat, name: Name, leaf: Node)
    requires WellFormed(nodes) && CanCreate(nodes, dir, name)
    requires leaf == File([]) || leaf == Dir([])
    ensures WellFormed(AfterCreate(nodes, dir, name, leaf))
  {
    var es := nodes[dir].entries + [DirEntry(name, |nodes|)];
    var mid := nodes[dir := Dir(es)];
    var r := AfterCreate(nodes, dir, name, leaf);
    TotalAfterUpdate(nodes, dir, Dir(es));
    TotalAfterAppend(mid, leaf);
    LookupAbsent(nodes[dir].entries, name);
    NamesAfterCreate(nodes, dir, name, leaf);
    forall id | 2 <= id < |r| ensures Named(r, id) {
      if id < |nodes| {
        assert Named(nodes, id);
        var d: nat, e: nat :| Names(nodes, d, e, id);
        assert Names(r, d, e, id);
      } else {
        assert Names(r, dir, |nodes[dir].entries|, id);
      }
    }
  }

  /** Exactly one new naming appears. */
  lemma NamesAfterCreate(nodes: Nodes, dir: nat, name: Name, leaf: Node)
    requires dir < |nodes| && nodes[dir].Dir? && EntryCount(leaf) == 0
    ensures forall d: nat, e: nat, id: nat :: Names(AfterCreate(nodes, dir, name, leaf), d, e, id) <==>
              Names(nodes, d, e, id) || (d == dir && e == |nodes[dir].entries| && id == |nodes|)
  {
  }

  lemma WriteKeepsWellFormed(nodes: Nodes, file: nat, offset: nat, data: seq<byte>)
    requires WellFormed(nodes) && CanWrite(nodes, file, offset, data)
    ensures WellFormed(AfterWrite(nodes, file, offset, data))
  {
    var r := AfterWrite(nodes, file, offset, data);
    TotalAfterUpdate(nodes, file, r[file]);
    forall d: nat, e: nat, id: nat ensures Names(r, d, e, id) == Names(nodes, d, e, id) {
    }
    forall id | 2 <= id < |r| ensures Named(r, id) {
      assert Named(nodes, id);
      var d: nat, e: nat :| Names(nodes, d, e, id);
      assert Names(r, d, e, id);
    }
  }

  /** Every run from a fresh format keeps the tree well formed: each node but 0 and 1 is named
      exactly once, by a directory with a smaller number. */
  lemma {:induction false} RunKeepsWellFormed(nodes: Nodes, ops: seq<Op>)
    requires WellFormed(nodes)
    ensures WellFormed(Run(nodes, ops))
    decreases |ops|
  {
    if ops != [] {
      var op := ops[0];
      match op {
        case Create(dir, name) =>
          if CanCreate(nodes, dir, name) {
            CreateKeepsWellFormed(nodes, dir, name, File([]));
          }
        case Mkdir(dir, name) =>
          if CanCreate(nodes, dir, name) {
            CreateKeepsWellFormed(nodes, dir, name, Dir([]));
          }
        case Write(file, offset, data) =>
          if CanWrite(nodes, file, offset, data) {
            WriteKeepsWellFormed(nodes, file, offset, data);
          }
      }
      RunKeepsWellFormed(Step(nodes, op), ops[1..]);
    }
  }

  // ----- reading what was written -----

  /** A read of the range just written returns the data; bytes outside it are as before. */
  lemma ReadAfterWrite(was: seq<byte>, offset: nat, data: seq<byte>, at: nat)
    requires at < |Splice(was, offset, data)|
    ensures var o := Start(was, offset);
            Splice(was, offset, data)[at] == if o <= at < o + |data| then data[at - o] else was[at]
    ensures Slice(Splice(was, offset, data), Start(was, offset), |data|) == data
  {
  }
}
