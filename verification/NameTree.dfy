/** Paths: the directories form a tree rooted at node 1, and lookup agrees with it. */
module NameTree {
  import opened Options
  import opened Bytes
  import opened LogicalFs

  datatype Outcome = Found(id: nat) | Missing | NotDir

  /** Follows a sequence of names from a directory. */
  function Walk(nodes: Nodes, dir: nat, names: seq<Name>): Outcome
    decreases |names|
  {
    if names == [] then Found(dir)
    else if dir >= |nodes| || !nodes[dir].Dir? then NotDir
    else
      match Lookup(nodes[dir].entries, names[0])
      case None => Missing
      case Some(id) => Walk(nodes, id, names[1..])
  }

  /** The last step of a walk. */
  lemma {:induction false} WalkSnoc(nodes: Nodes, dir: nat, names: seq<Name>, last: Name)
    ensures Walk(nodes, dir, names + [last]) ==
              match Walk(nodes, dir, names)
              case Found(d) => Walk(nodes, d, [last])
              case other => other
    decreases |names|
  {
    var all := names + [last];
    if names == [] {
      assert all == [last];
    } else {
      assert all[0] == names[0] && all[1..] == names[1..] + [last];
      if dir < |nodes| && nodes[dir].Dir? && Lookup(nodes[dir].entries, names[0]).Some? {
        WalkSnoc(nodes, Lookup(nodes[dir].entries, names[0]).value, names[1..], last);
      }
    }
  }

  /** A walk never leaves the allocated nodes, and goes to ever larger numbers. */
  lemma {:induction false} WalkStays(nodes: Nodes, dir: nat, names: seq<Name>)
    requires WellFormed(nodes) && 1 <= dir < |nodes|
    ensures Walk(nodes, dir, names).Found? ==>
              dir + |names| <= Walk(nodes, dir, names).id < |nodes|
    decreases |names|
  {
    if names != [] && nodes[dir].Dir? && Lookup(nodes[dir].entries, names[0]).Some? {
      var k := LookupFinds(nodes[dir].entries, names[0]);
      WalkStays(nodes, nodes[dir].entries[k].id, names[1..]);
    }
  }

  /** Some path leads to every allocated node but 0. */
  lemma {:induction false} EveryNodeHasAPath(nodes: Nodes, id: nat) returns (names: seq<Name>)
    requires WellFormed(nodes) && 1 <= id < |nodes|
    ensures Walk(nodes, ROOT, names) == Found(id)
    decreases id
  {
    if id == ROOT {
      names := [];
    } else {
      assert Named(nodes, id);
      var d: nat, e: nat :| Names(nodes, d, e, id);
      var entry := nodes[d].entries[e];
      LookupIsFirst(nodes[d].entries, e, entry.name);
      names := EveryNodeHasAPath(nodes, d);
      WalkSnoc(nodes, ROOT, names, entry.name);
      assert Walk(nodes, d, [entry.name]) == Walk(nodes, id, []);
      names := names + [entry.name];
    }
  }

  /** And only one: the directories are a tree. */
  lemma {:induction false} PathsAreUnique(nodes: Nodes, p: seq<Name>, q: seq<Name>, id: nat)
    requires WellFormed(nodes)
    requires Walk(nodes, ROOT, p) == Found(id) && Walk(nodes, ROOT, q) == Found(id)
    ensures p == q
    decreases |p|
  {
    if p == [] || q == [] {
      WalkStays(nodes, ROOT, p);
      WalkStays(nodes, ROOT, q);
    } else {
      var d, e := LastStep(nodes, p, id);
      var d', e' := LastStep(nodes, q, id);
      assert Names(nodes, d, e, id) && Names(nodes, d', e', id);
      PathsAreUnique(nodes, p[..|p| - 1], q[..|q| - 1], d);
      assert p == p[..|p| - 1] + [p[|p| - 1]] && q == q[..|q| - 1] + [q[|q| - 1]];
    }
  }

  lemma LastStep(nodes: Nodes, p: seq<Name>, id: nat) returns (d: nat, e: nat)
    requires WellFormed(nodes) && p != [] && Walk(nodes, ROOT, p) == Found(id)
    ensures Walk(nodes, ROOT, p[..|p| - 1]) == Found(d)
    ensures Names(nodes, d, e, id) && nodes[d].entries[e].name == p[|p| - 1]
  {
    var front, last := p[..|p| - 1], p[|p| - 1];
    assert p == front + [last];
    WalkSnoc(nodes, ROOT, front, last);
    d := Walk(nodes, ROOT, front).id;
    WalkStays(nodes, ROOT, front);
    e := LookupFinds(nodes[d].entries, last);
    assert Walk(nodes, d, [last]) == Walk(nodes, Lookup(nodes[d].entries, last).value, []);
  }

  /** Creating a name adds the one path that ends in it and changes no other successful walk. */
  lemma {:induction false} WalkAfterCreate(nodes: Nodes, dir: nat, name: Name, leaf: Node,
                                          q: seq<Name>, id: nat)
    requires WellFormed(nodes) && CanCreate(nodes, dir, name)
    requires leaf == File([]) || leaf == Dir([])
    ensures Walk(AfterCreate(nodes, dir, name, leaf), ROOT, q) == Found(id) <==>
              || Walk(nodes, ROOT, q) == Found(id)
              || (id == |nodes| && q != [] && q[|q| - 1] == name && Walk(nodes, ROOT, q[..|q| - 1]) == Found(dir))
    decreases |q|
  {
    var r := AfterCreate(nodes, dir, name, leaf);
    if q != [] {
      var front, last := q[..|q| - 1], q[|q| - 1];
      assert q == front + [last];
      WalkSnoc(nodes, ROOT, front, last);
      WalkSnoc(r, ROOT, front, last);
      WalkStays(nodes, ROOT, front);
      if Walk(nodes, ROOT, front).Found? {
        var d := Walk(nodes, ROOT, front).id;
        WalkAfterCreate(nodes, dir, name, leaf, front, d);
        assert Walk(r, ROOT, front) == Found(d);
        LookupAfterCreate(nodes, dir, name, leaf, d, last);
        StepFrom(nodes, d, last);
        StepFrom(r, d, last);
      } else if Walk(r, ROOT, front).Found? {
        var d := Walk(r, ROOT, front).id;
        WalkAfterCreate(nodes, dir, name, leaf, front, d);
        LookupAfterCreate(nodes, dir, name, leaf, d, last);
        StepFrom(r, d, last);
      }
    }
  }

  lemma StepFrom(nodes: Nodes, d: nat, last: Name)
    ensures Walk(nodes, d, [last]) ==
              if d >= |nodes| || !nodes[d].Dir? then NotDir
              else match Lookup(nodes[d].entries, last) case None => Missing case Some(id) => Found(id)
  {
    if d < |nodes| && nodes[d].Dir? && Lookup(nodes[d].entries, last).Some? {
      assert Walk(nodes, Lookup(nodes[d].entries, last).value, []) == Found(Lookup(nodes[d].entries, last).value);
    }
  }

  lemma LookupAfterCreate(nodes: Nodes, dir: nat, name: Name, leaf: Node, d: nat, last: Name)
    requires CanCreate(nodes, dir, name) && (leaf == File([]) || leaf == Dir([]))
    requires d <= |nodes|
    ensures var r := AfterCreate(nodes, dir, name, leaf);
            d < |nodes| ==> r[d].Dir? == nodes[d].Dir?
    ensures var r := AfterCreate(nodes, dir, name, leaf);
            d < |nodes| && nodes[d].Dir? ==>
              Lookup(r[d].entries, last) ==
                if d == dir && last == name then Some(|nodes|) else Lookup(nodes[d].entries, last)
    ensures var r := AfterCreate(nodes, dir, name, leaf);
            d == |nodes| && r[d].Dir? ==> Lookup(r[d].entries, last) == None
  {
    if d == dir {
      LookupAppend(nodes[dir].entries, DirEntry(name, |nodes|), last);
    }
  }

  lemma {:induction false} LookupAppend(entries: seq<DirEntry>, e: DirEntry, name: Name)
    ensures Lookup(entries + [e], name) ==
              if Lookup(entries, name).Some? then Lookup(entries, name)
              else if e.name == name then Some(e.id) else None
  {
    if entries == [] {
      assert entries + [e] == [e];
    } else {
      assert (entries + [e])[1..] == entries[1..] + [e];
      LookupAppend(entries[1..], e, name);
    }
  }

  // ----- path strings -----

  const SLASH: byte := 47

  /** The length of the token at the start of a string. */
  function TokenLen(s: seq<byte>): (n: nat)
    ensures n <= |s| && (n < |s| ==> s[n] == SLASH)
    ensures forall i | 0 <= i < n :: s[i] != SLASH
  {
    if s == [] || s[0] == SLASH then 0 else 1 + TokenLen(s[1..])
  }

  /** The tokens that strtok(_, "/") yields: the non-empty stretches between slashes. */
  function Components(s: seq<byte>): seq<Name>
    decreases |s|
  {
    if s == [] then []
    else if s[0] == SLASH then Components(s[1..])
    else [s[..TokenLen(s)]] + Components(s[TokenLen(s)..])
  }

  /** One call of strtok(_, "/"): the next token (empty when there is none) and what follows it. */
  function StrTok(s: seq<byte>): (r: (seq<byte>, seq<byte>))
    ensures Components(s) == if r.0 == [] then [] else [r.0] + Components(r.1)
    ensures |r.1| + |r.0| <= |s| && (r.0 != [] ==> |r.1| < |s|)
    decreases |s|
  {
    if s == [] then ([], [])
    else if s[0] == SLASH then StrTok(s[1..])
    else (s[..TokenLen(s)], s[TokenLen(s)..])
  }

  lemma {:induction false} TokenLenIs(s: seq<byte>, n: nat)
    requires n <= |s| && (n < |s| ==> s[n] == SLASH)
    requires forall i | 0 <= i < n :: s[i] != SLASH
    ensures TokenLen(s) == n
  {
  }

  /** Appending "/name" to a path appends one component. */
  lemma {:induction false} ComponentsAppend(p: seq<byte>, name: Name)
    requires name != [] && SLASH !in name
    ensures Components(p + [SLASH] + name) == Components(p) + [name]
    decreases |p|
  {
    var s := p + [SLASH] + name;
    if p == [] {
      assert s[1..] == name;
      TokenLenIs(name, |name|);
      assert name[..|name|] == name && name[|name|..] == [];
      assert Components(name) == [name] + Components([]);
    } else if p[0] == SLASH {
      assert s[1..] == p[1..] + [SLASH] + name;
      ComponentsAppend(p[1..], name);
    } else {
      var n := TokenLen(p);
      assert forall i | 0 <= i < n :: s[i] == p[i];
      assert s[n] == SLASH;
      TokenLenIs(s, n);
      assert s[..n] == p[..n] && s[n..] == p[n..] + [SLASH] + name;
      ComponentsAppend(p[n..], name);
    }
  }

  predicate Absolute(path: seq<byte>) {
    path != [] && path[0] == SLASH
  }

  /** Where an absolute path leads. */
  function Resolve(nodes: Nodes, path: seq<byte>): Outcome {
    Walk(nodes, ROOT, Components(path))
  }

  lemma NewPathResolves(nodes: Nodes, p: seq<byte>, dir: nat, name: Name, leaf: Node)
    requires WellFormed(nodes) && CanCreate(nodes, dir, name) && SLASH !in name
    requires leaf == File([]) || leaf == Dir([])
    requires Resolve(nodes, p) == Found(dir)
    ensures Resolve(AfterCreate(nodes, dir, name, leaf), p + [SLASH] + name) == Found(|nodes|)
  {
    ComponentsAppend(p, name);
    var full := Components(p) + [name];
    assert full[..|full| - 1] == Components(p);
    WalkAfterCreate(nodes, dir, name, leaf, full, |nodes|);
  }

  /** Creating a slash-free name in the directory at `p` makes "p/name" resolve to the new node and
      leaves every other successful lookup as it was. */
  lemma ResolveAfterCreate(nodes: Nodes, p: seq<byte>, dir: nat, name: Name, leaf: Node, q: seq<byte>)
    requires WellFormed(nodes) && CanCreate(nodes, dir, name) && SLASH !in name
    requires leaf == File([]) || leaf == Dir([])
    requires Resolve(nodes, p) == Found(dir)
    ensures Resolve(AfterCreate(nodes, dir, name, leaf), p + [SLASH] + name) == Found(|nodes|)
    ensures Resolve(nodes, q).Found? ==> Resolve(AfterCreate(nodes, dir, name, leaf), q) == Resolve(nodes, q)
    ensures Resolve(AfterCreate(nodes, dir, name, leaf), q).Found? && !Resolve(nodes, q).Found? ==>
              Components(q) == Components(p) + [name]
  {
    var r := AfterCreate(nodes, dir, name, leaf);
    NewPathResolves(nodes, p, dir, name, leaf);
    var names := Components(q);
    if Resolve(nodes, q).Found? {
      WalkAfterCreate(nodes, dir, name, leaf, names, Resolve(nodes, q).id);
    } else if Resolve(r, q).Found? {
      WalkAfterCreate(nodes, dir, name, leaf, names, Resolve(r, q).id);
      PathsAreUnique(nodes, names[..|names| - 1], Components(p), dir);
      assert names == names[..|names| - 1] + [names[|names| - 1]];
    }
  }

  /** A write moves nothing in the tree. */
  lemma {:induction false} WalkAfterWrite(nodes: Nodes, file: nat, offset: nat, data: seq<byte>,
                                         dir: nat, names: seq<Name>)
    requires file < |nodes| && nodes[file].File?
    ensures Walk(AfterWrite(nodes, file, offset, data), dir, names) == Walk(nodes, dir, names)
    decreases |names|
  {
    if names != [] && dir < |nodes| && nodes[dir].Dir? && Lookup(nodes[dir].entries, names[0]).Some? {
      WalkAfterWrite(nodes, file, offset, data, Lookup(nodes[dir].entries, names[0]).value, names[1..]);
    }
  }
}
