/** The request handlers of the server, and what they compute in terms of the logical file system. */
module Service {
  import opened Bytes
  import opened Layout
  import opened LogicalFs
  import opened NameTree
  import opened FileSystem
  import opened Paths
  import R = Represent

  const MAX_READ_DATA: nat := 1024
  const MAX_WRITE_DATA: nat := 1024

  /** Requests as the stubs of the client are called; Serve cuts paths and names to what the messages and
      the handlers leave of them. File handles are ints that the handlers narrow to 16 bits. */
  datatype Request =
    | PingReq
    | LookupReq(path: seq<byte>)
    | ReadReq(handle: int, offset: u32, count: u32)
    | WriteReq(handle: int, offset: u32, count: u32, data: seq<byte>)
    | CreateReq(dir: int, name: seq<byte>)
    | MkdirReq(dir: int, name: seq<byte>)
    | ReaddirReq(dir: int, cmax: u32)
    | CopyReq

  datatype Response =
    | Error
    | Pong
    | FileIs(file: nat, size: nat)
    | Contents(data: seq<byte>)
    | Written(size: nat)
    | Made(file: nat)
    | Listing(entries: seq<(Name, nat)>)

  /** A handler replies, or it ends the server process, or the memory that it reads is not modelled. */
  datatype Outcome = Reply(res: Response) | Exit | Unknown

  /** What a well-behaved client sends: terminated strings, a path with a component to look up, and
      as much data as it says. */
  predicate Proper(q: Request) {
    match q
    case LookupReq(path) => NoNul(path) && Components(Sent(path)) != []
    case WriteReq(_, _, count, data) => count <= |data|
    case CreateReq(_, name) => NoNul(name)
    case MkdirReq(_, name) => NoNul(name)
    case _ => true
  }

  /** The OP_WRITE rows of the service table. */
  predicate IsWrite(q: Request) {
    q.WriteReq? || q.CreateReq? || q.MkdirReq? || q.CopyReq?
  }

  /** `(inodeid_t) fhandle`. */
  function Narrow(handle: int): (id: nat)
    ensures id < 0x1_0000 && (0 <= handle < 0x1_0000 ==> id == handle)
    ensures exists k: int :: handle == id + k * 0x1_0000
  {
    assert handle == handle % 0x1_0000 + handle / 0x1_0000 * 0x1_0000;
    handle % 0x1_0000
  }

  function SizeOf(n: Node): nat {
    match n case File(data) => |data| case Dir(entries) => DENTRY_BYTES * |entries| case Reserved => 0
  }

  /** `unsigned` passed as `int`. */
  function AsInt(n: u32): (i: int)
    ensures -0x8000_0000 <= i < 0x8000_0000 && (i == n || i == n - U32_MOD)
  {
    if n < 0x8000_0000 then n else n - U32_MOD
  }

  /** A listing over more than one page. */
  predicate Crowded(nodes: Nodes, q: Request) {
    q.ReaddirReq? &&
    var d, max := Narrow(q.dir), AsInt(q.cmax);
    max >= 0 && d < |nodes| && nodes[d].Dir? && Min(|nodes[d].entries|, max) > DIR_PAGE_ENTRIES
  }

  /** A request that is safe whatever the tree: it asks for at most one page of entries. */
  predicate Steady(q: Request) {
    Proper(q) && (q.ReaddirReq? ==> AsInt(q.cmax) <= DIR_PAGE_ENTRIES)
  }

  /** Names and types of the first n entries of a directory. */
  function FirstEntries(nodes: Nodes, dir: nat, n: nat): seq<(Name, nat)>
    requires dir < |nodes| && nodes[dir].Dir? && n <= |nodes[dir].entries|
  {
    seq(n, i requires 0 <= i < n => (nodes[dir].entries[i].name, TypeOfNode(nodes, nodes[dir].entries[i].id)))
  }

  function TypeOfNode(nodes: Nodes, id: nat): nat {
    if id < |nodes| && nodes[id].Dir? then FS_DIR else FS_FILE
  }

  /** What one server does to its file system and answers, with no cache, block or bitmap in sight. */
  function Serve(nodes: Nodes, q: Request): (Nodes, Response)
    requires Proper(q) && !Crowded(nodes, q)
  {
    match q
    case PingReq => (nodes, Pong)
    case LookupReq(path) =>
      var p := Sent(path);
      if Absolute(p) && Resolve(nodes, p).Found? && Resolve(nodes, p).id < |nodes| then
        (nodes, FileIs(Resolve(nodes, p).id, SizeOf(nodes[Resolve(nodes, p).id])))
      else (nodes, Error)
    case ReadReq(handle, offset, count) =>
      var file := Narrow(handle);
      if count <= MAX_READ_DATA && file < |nodes| && nodes[file].File? then
        (nodes, Contents(Slice(nodes[file].data, offset, count)))
      else (nodes, Error)
    case WriteReq(handle, offset, count, data) =>
      var file := Narrow(handle);
      if count <= MAX_WRITE_DATA && CanWrite(nodes, file, offset, data[..count]) then
        var after := AfterWrite(nodes, file, offset, data[..count]);
        (after, Written(|after[file].data|))
      else (nodes, Error)
    case CreateReq(dir, name) =>
      if CanCreate(nodes, Narrow(dir), Stem(name)) then
        (AfterCreate(nodes, Narrow(dir), Stem(name), File([])), Made(|nodes|))
      else (nodes, Error)
    case MkdirReq(dir, name) =>
      if CanCreate(nodes, Narrow(dir), Stem(name)) then
        (AfterCreate(nodes, Narrow(dir), Stem(name), Dir([])), Made(|nodes|))
      else (nodes, Error)
    case ReaddirReq(dir, cmax) =>
      var d, max := Narrow(dir), AsInt(cmax);
      if max < 0 || d >= |nodes| || !nodes[d].Dir? then (nodes, Error)
      else (nodes, Listing(FirstEntries(nodes, d, Min(|nodes[d].entries|, max))))
    case CopyReq => (nodes, Error)
  }

  /** Serve as a total function. Other requests than steady ones never meet it: clients do not send them. */
  function Serving(nodes: Nodes, q: Request): (Nodes, Response) {
    if Steady(q) then Serve(nodes, q) else (nodes, Error)
  }

  /** Served requests keep the tree well formed, and the handlers marked OP_READ change nothing. */
  lemma ServeKeepsWellFormed(nodes: Nodes, q: Request)
    requires WellFormed(nodes) && Proper(q) && !Crowded(nodes, q)
    ensures WellFormed(Serve(nodes, q).0)
    ensures !IsWrite(q) ==> Serve(nodes, q).0 == nodes
  {
    match q
    case WriteReq(handle, offset, count, data) =>
      if CanWrite(nodes, Narrow(handle), offset, data[..count]) {
        WriteKeepsWellFormed(nodes, Narrow(handle), offset, data[..count]);
      }
    case CreateReq(dir, name) =>
      if CanCreate(nodes, Narrow(dir), Stem(name)) {
        CreateKeepsWellFormed(nodes, Narrow(dir), Stem(name), File([]));
      }
    case MkdirReq(dir, name) =>
      if CanCreate(nodes, Narrow(dir), Stem(name)) {
        CreateKeepsWellFormed(nodes, Narrow(dir), Stem(name), Dir([]));
      }
    case _ =>
  }

  /** snfs_lookup: the path is what has come through the message. */
  method HandleLookup(fs: Fs, path: seq<byte>) returns (res: Response)
    requires fs.Valid() && Proper(LookupReq(path))
    modifies fs, fs.Repr()
    ensures fs.Valid() && (fs.nodes, res) == Serve(old(fs.nodes), LookupReq(path))
  {
    hide Represent.LaidOut, Represent.Represents, DiskModel.Model, DiskModel.CacheKeys, DiskModel.OnDisk;
    var r, id := fs.LookupPath(Sent(path), 0);
    if r != 1 {
      return Error;
    }
    RootIsThere(fs);
    WalkStays(fs.nodes, ROOT, Components(Sent(path)));
    var status, _, size := fs.GetAttrs(id);
    res := if status == Done then FileIs(id, size) else Error;
  }

  lemma RootIsThere(fs: Fs)
    requires fs.Valid()
    ensures WellFormed(fs.nodes)
  {
  }

  /** snfs_read. */
  method HandleRead(fs: Fs, handle: int, offset: u32, count: u32) returns (res: Response)
    requires fs.Valid()
    modifies fs, fs.Repr()
    ensures fs.Valid() && (fs.nodes, res) == Serve(old(fs.nodes), ReadReq(handle, offset, count))
  {
    hide WellFormed, Represent.LaidOut, Represent.Represents, DiskModel.Model, DiskModel.CacheKeys, DiskModel.OnDisk;
    res := Error;
    if count <= MAX_READ_DATA {
      var status, data := fs.Read(Narrow(handle), offset, count);
      if status == Done {
        res := Contents(data);
      }
    }
  }

  /** snfs_write: its bound on count keeps fs_write from ever leaving the process. */
  method HandleWrite(fs: Fs, handle: int, offset: u32, count: u32, data: seq<byte>) returns (res: Response, exited: bool)
    requires fs.Valid() && R.ENOUGH_BLOCKS <= fs.disk.numBlocks && count <= |data|
    modifies fs, fs.Repr()
    ensures fs.Valid() && !exited
    ensures (fs.nodes, res) == Serve(old(fs.nodes), WriteReq(handle, offset, count, data))
  {
    hide WellFormed, Represent.LaidOut, Represent.Represents, DiskModel.Model, DiskModel.CacheKeys, DiskModel.OnDisk;
    res, exited := Error, false;
    if count <= MAX_WRITE_DATA {
      var file := Narrow(handle);
      SmallFiles(fs, file);
      var status := fs.Write(file, offset, count, data);
      exited := status == Aborted;
      if status == Done {
        var got, _, size := fs.GetAttrs(file);
        if got == Done {
          res := Written(size);
        }
      }
    }
  }

  lemma SmallFiles(fs: Fs, file: nat)
    requires fs.Valid()
    ensures file < |fs.nodes| && fs.nodes[file].File? ==> 1 <= file && |fs.nodes[file].data| <= MAX_DATA
  {
    hide DiskModel.Model, DiskModel.CacheKeys, DiskModel.OnDisk;
    if file < |fs.nodes| {
      fs.TypeOf(file);
    }
  }

  /** snfs_create and snfs_mkdir: both cut the name to 13 bytes before they use it. */
  method HandleMake(fs: Fs, q: Request) returns (res: Response)
    requires fs.Valid() && R.ENOUGH_BLOCKS <= fs.disk.numBlocks && Proper(q) && (q.CreateReq? || q.MkdirReq?)
    modifies fs, fs.Repr()
    ensures fs.Valid() && (fs.nodes, res) == Serve(old(fs.nodes), q)
  {
    hide WellFormed, Represent.LaidOut, Represent.Represents, DiskModel.Model, DiskModel.CacheKeys, DiskModel.OnDisk;
    var status, id;
    if q.CreateReq? {
      status, id := fs.Create(Narrow(q.dir), Stem(q.name));
    } else {
      status, id := fs.Mkdir(Narrow(q.dir), Stem(q.name));
    }
    res := if status == Done then Made(id) else Error;
  }

  /** The switch in snfs_readdir over the type of an entry. */
  predicate KnownTypes(listing: seq<(Name, nat)>) {
    forall i | 0 <= i < |listing| :: listing[i].1 == FS_DIR || listing[i].1 == FS_FILE
  }

  /** The loop of snfs_readdir over the entries: one of unknown type ends the process. */
  method FillIn(listing: seq<(Name, nat)>) returns (ok: bool)
    ensures ok == KnownTypes(listing)
  {
    for i := 0 to |listing|
      invariant KnownTypes(listing[..i])
    {
      if listing[i].1 != FS_DIR && listing[i].1 != FS_FILE {
        return false;
      }
    }
    assert listing[..|listing|] == listing;
    ok := true;
  }

  function Answer(r: Listed): Outcome {
    match r
    case Refused => Reply(Error)
    case Exact(listing) => Reply(Listing(listing))
    case Mixed(listing, _) => if KnownTypes(listing) then Reply(Listing(listing)) else Exit
    case Wild(_) => Unknown
  }

  /** What becomes of a crowded listing: the handler goes by what fs_readdir made of the wrong block. */
  ghost predicate GoneAstray(fs: Fs, q: Request, tab: seq<Inode>, view: R.Blocks, flat: bool, out: Outcome)
    reads fs, fs.Repr()
  {
    Crowded(fs.nodes, q) &&
    var d := Narrow(q.dir);
    var total := Min(|fs.nodes[d].entries|, AsInt(q.cmax));
    exists r: Listed | r.Mixed? || r.Wild? ::
      && out == Answer(r) && fs.Astray(r, d, total, tab, view)
      && (d == ROOT && flat ==> r.block == 0)
      && (r.Mixed? && (r.block < META_BLOCKS || fs.TwoBlocks(tab, fs.TakesOver(d))) ==> !fs.Valid())
  }

  /** The outcome is the reply of the logical file system, and the state is its state. */
  ghost predicate Answers(fs: Fs, was: Nodes, q: Request, out: Outcome)
    reads fs, fs.Repr()
  {
    fs.Valid() && Proper(q) && !Crowded(was, q) && out.Reply? && (fs.nodes, out.res) == Serve(was, q)
  }

  /** snfs_readdir. */
  method HandleReaddir(fs: Fs, dir: int, cmax: u32) returns (out: Outcome)
    requires fs.Valid()
    modifies fs, fs.Repr()
    ensures fs.nodes == old(fs.nodes)
    ensures if !Crowded(fs.nodes, ReaddirReq(dir, cmax)) then Answers(fs, fs.nodes, ReaddirReq(dir, cmax), out)
            else
              GoneAstray(fs, ReaddirReq(dir, cmax), old(fs.inodeTab[..]), old(fs.dc.view), old(fs.ic.Flat(ROOT)), out)
  {
    hide WellFormed, Represent.LaidOut, Represent.Represents, DiskModel.Model, DiskModel.CacheKeys, DiskModel.OnDisk, Fs.Astray;
    var r := fs.Readdir(Narrow(dir), AsInt(cmax));
    match r
    case Refused => out := Reply(Error);
    case Exact(listing) =>
      ListingIs(fs, listing, Narrow(dir), Min(|fs.nodes[Narrow(dir)].entries|, AsInt(cmax)));
      var ok := FillIn(listing);
      out := Reply(Listing(listing));
    case Mixed(listing, _) =>
      var ok := FillIn(listing);
      out := if ok then Reply(Listing(listing)) else Exit;
      assert out == Answer(r);
    case Wild(_) =>
      out := Unknown;
      assert out == Answer(r);
  }

  lemma ListingIs(fs: Fs, listing: seq<(Name, nat)>, dir: nat, n: nat)
    requires dir < |fs.nodes| && fs.nodes[dir].Dir? && n <= |fs.nodes[dir].entries| && fs.Lists(listing, dir, n)
    ensures listing == FirstEntries(fs.nodes, dir, n)
  {
    forall i | 0 <= i < n ensures listing[i] == FirstEntries(fs.nodes, dir, n)[i] {
      assert listing[i] == (listing[i].0, listing[i].1);
    }
  }

  /** The dispatch of thread_consumer: a server over caches, bitmaps and blocks answers every request,
      and changes, exactly as the logical file system does, but for a listing over more than one page. */
  method Handle(fs: Fs, q: Request) returns (out: Outcome)
    requires fs.Valid() && R.ENOUGH_BLOCKS <= fs.disk.numBlocks && Proper(q)
    modifies fs, fs.Repr()
    ensures if !Crowded(old(fs.nodes), q) then Answers(fs, old(fs.nodes), q, out)
            else
              fs.nodes == old(fs.nodes) &&
              GoneAstray(fs, q, old(fs.inodeTab[..]), old(fs.dc.view), old(fs.ic.Flat(ROOT)), out)
  {
    hide GoneAstray, Fs.Valid, WellFormed;
    var res: Response;
    match q {
      case PingReq => res := Pong;
      case LookupReq(path) => res := HandleLookup(fs, path);
      case ReadReq(handle, offset, count) => res := HandleRead(fs, handle, offset, count);
      case WriteReq(handle, offset, count, data) =>
        var exited: bool;
        res, exited := HandleWrite(fs, handle, offset, count, data);
      case CreateReq(_, _) => res := HandleMake(fs, q);
      case MkdirReq(_, _) => res := HandleMake(fs, q);
      case ReaddirReq(dir, cmax) =>
        out := HandleReaddir(fs, dir, cmax);
        return;
      case CopyReq => res := Error;
    }
    out := Reply(res);
  }

  /** It happens: after 33 creates in the root of a fresh file system, the request that my_listdir sends
      ends the server. */
  method CrowdEndsServer(numBlocks: nat) returns (out: Outcome)
    requires R.ENOUGH_BLOCKS <= numBlocks
    ensures out == Exit
  {
    hide Fs.Valid, Fs.Saved, GoneAstray, ClearFrom, Serve, Crowd;
    var fs := GatherCrowd(numBlocks);
    ghost var tab, view := fs.inodeTab[..], fs.dc.view;
    CrowdStored(fs);
    out := Handle(fs, ReaddirReq(ROOT, 64));
    CrowdExits(fs, tab, view, out);
  }

  lemma CrowdStored(fs: Fs)
    requires fs.Valid() && fs.Saved() && fs.nodes == Crowd(33) && ClearFrom(fs.blkBmap[..], META_BLOCKS + 33)
    ensures fs.inodeTab[..] != [] && fs.inodeTab[..][0].itype == 0
    ensures |fs.dc.view| > 0 && |fs.dc.view[0]| == BLOCK_SIZE && ClearFrom(fs.dc.view[0], META_BLOCKS + 33)
    ensures Crowded(fs.nodes, ReaddirReq(ROOT, 64)) && Narrow(ROOT) == ROOT && |fs.nodes[ROOT].entries| == 33
  {
    hide WellFormed, Represent.LaidOut, Represent.Represents, DiskModel.CacheKeys, DiskModel.OnDisk, ClearFrom, Crowd;
  }

  lemma CrowdExits(fs: Fs, tab: seq<Inode>, view: R.Blocks, out: Outcome)
    requires fs.nodes == Crowd(33) && GoneAstray(fs, ReaddirReq(ROOT, 64), tab, view, true, out)
    requires |tab| > 0 && tab[0].itype == 0 && |view| > 0 && |view[0]| == BLOCK_SIZE && ClearFrom(view[0], META_BLOCKS + 33)
    ensures out == Exit
  {
    hide Fs.Astray, Fs.Valid, ClearFrom;
    var r: Listed :| (r.Mixed? || r.Wild?) && out == Answer(r) && fs.Astray(r, ROOT, 33, tab, view) && r.block == 0;
    CrowdAstray(fs, r, tab, view);
  }
}
