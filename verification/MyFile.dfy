/** The client's file descriptors: reads and writes of any length, in requests of at most 1024
    bytes, over the replicated call. */
module MyFile {
  import opened Bytes
  import opened Layout
  import opened LogicalFs
  import opened NameTree
  import opened Paths
  import opened Service
  import opened Replication
  import Network

  type Remote = Client<Nodes, Request, Response>

  /** A client of servers that run the handlers of the file system. */
  ghost predicate Speaks(client: Remote)
    reads client, client.cluster
  {
    client.Valid() && client.cluster.handler == Serving && client.isWrite == IsWrite && WellFormed(client.ref)
  }

  lemma HandlersFitTheCall()
    ensures ReadsArePure(Serving, IsWrite)
  {
    forall nodes: Nodes, q: Request | !IsWrite(q) ensures Serving(nodes, q).0 == nodes {
    }
  }

  /** my_init_lib against n servers that have just formatted their file systems. */
  method Connect(n: nat, readServers: nat) returns (client: Remote)
    requires 0 < n && 0 < readServers
    ensures Speaks(client) && client.ref == INITIAL && fresh(client) && fresh(client.cluster)
  {
    HandlersFitTheCall();
    InitialWellFormed();
    var cluster := new Network.Cluster<Nodes, Request, Response>(Serving, INITIAL, n);
    client := new Client(cluster, INITIAL, readServers, IsWrite, (r: Response) => if r.Error? then 1 else 0);
  }

  // ----- writing in chunks -----

  /** Writing a piece and then the next piece right after it is one write, even past the end. */
  lemma SpliceTwice(was: seq<byte>, offset: nat, a: seq<byte>, b: seq<byte>)
    ensures Splice(Splice(was, offset, a), offset + |a|, b) == Splice(was, offset, a + b)
  {
    var o, mid := Start(was, offset), Splice(was, offset, a);
    assert Start(mid, offset + |a|) == o + |a|;
    assert mid[..o + |a|] == was[..o] + a;
    if o + |a| + |b| <= |was| {
      assert mid[o + |a| + |b|..] == was[o + |a| + |b|..];
    }
  }

  /** The file system with data written into a file; other nodes cannot be written. */
  function Stored(nodes: Nodes, file: nat, offset: nat, data: seq<byte>): Nodes
    requires file < |nodes|
  {
    if nodes[file].File? then AfterWrite(nodes, file, offset, data) else nodes
  }

  lemma StoredNothing(nodes: Nodes, file: nat, offset: nat)
    requires file < |nodes|
    ensures Stored(nodes, file, offset, []) == nodes
  {
    if nodes[file].File? {
      assert Splice(nodes[file].data, offset, []) == nodes[file].data;
    }
  }

  /** How many of n bytes get stored: all of them if they fit in a file, else the whole chunks that do. */
  function Accepted(nodes: Nodes, file: nat, offset: nat, n: nat): (k: nat)
    requires WellFormed(nodes) && file < |nodes|
    ensures k <= n
  {
    if !nodes[file].File? then 0
    else
      var room := MAX_DATA - Start(nodes[file].data, offset);
      if n <= room then n else room / MAX_WRITE_DATA * MAX_WRITE_DATA
  }

  /** A write is accepted whole exactly when one single request of that size would have been. */
  lemma AcceptedWhole(nodes: Nodes, file: nat, offset: nat, data: seq<byte>)
    requires WellFormed(nodes) && file < |nodes| && data != []
    ensures Accepted(nodes, file, offset, |data|) == |data| <==> CanWrite(nodes, file, offset, data)
  {
  }

  /** One more chunk, after a prefix of the data made of whole chunks. */
  lemma NextChunk(nodes: Nodes, file: nat, offset: nat, data: seq<byte>, done: nat, w: nat)
    requires WellFormed(nodes) && file < |nodes| && (nodes[file].File? ==> offset <= |nodes[file].data|)
    requires done < |data| && done % MAX_WRITE_DATA == 0 && w == Min(|data| - done, MAX_WRITE_DATA)
    requires done <= Accepted(nodes, file, offset, |data|) && offset <= MAX_DATA
    ensures var now := Stored(nodes, file, offset, data[..done]);
            var (next, res) := Serving(now, WriteReq(file, offset + done, w, data[done..done + w]));
            if done + w <= Accepted(nodes, file, offset, |data|) then
              && next == Stored(nodes, file, offset, data[..done + w])
              && next[file].File? && res == Written(|next[file].data|)
              && |next| == |now| && now[file].File? && offset + done + w <= |next[file].data|
              && |now[file].data| <= |next[file].data| <= MAX_DATA
            else next == now && res == Error && done == Accepted(nodes, file, offset, |data|)
  {
    hide Stored, Serving, WellFormed;
    if done + w <= Accepted(nodes, file, offset, |data|) {
      ChunkFits(nodes, file, offset, data, done, w);
    } else {
      ChunkRefused(nodes, file, offset, data, done, w);
    }
  }

  lemma ChunkFits(nodes: Nodes, file: nat, offset: nat, data: seq<byte>, done: nat, w: nat)
    requires WellFormed(nodes) && file < |nodes| && (nodes[file].File? ==> offset <= |nodes[file].data|)
    requires done < |data| && w == Min(|data| - done, MAX_WRITE_DATA)
    requires done + w <= Accepted(nodes, file, offset, |data|) && offset <= MAX_DATA
    ensures var now := Stored(nodes, file, offset, data[..done]);
            var (next, res) := Serving(now, WriteReq(file, offset + done, w, data[done..done + w]));
            && next == Stored(nodes, file, offset, data[..done + w])
            && next[file].File? && res == Written(|next[file].data|)
            && |next| == |now| && now[file].File? && offset + done + w <= |next[file].data|
            && |now[file].data| <= |next[file].data| <= MAX_DATA
  {
    var piece := data[done..done + w];
    assert piece[..w] == piece && data[..done] + piece == data[..done + w];
    SpliceTwice(nodes[file].data, offset, data[..done], piece);
  }

  lemma ChunkRefused(nodes: Nodes, file: nat, offset: nat, data: seq<byte>, done: nat, w: nat)
    requires WellFormed(nodes) && file < |nodes| && (nodes[file].File? ==> offset <= |nodes[file].data|)
    requires done < |data| && done % MAX_WRITE_DATA == 0 && w == Min(|data| - done, MAX_WRITE_DATA)
    requires done <= Accepted(nodes, file, offset, |data|) < done + w && offset <= MAX_DATA
    ensures var now := Stored(nodes, file, offset, data[..done]);
            && Serving(now, WriteReq(file, offset + done, w, data[done..done + w])) == (now, Error)
            && done == Accepted(nodes, file, offset, |data|)
  {
  }

  // ----- reading in chunks -----

  /** What my_read sets out to deliver: the test for the end of the file is done in 32 bits. */
  function Wanted(size: u32, readOffset: nat, numBytes: u32): nat
    requires readOffset <= size
  {
    if size < (readOffset + numBytes) % U32_MOD then size - readOffset else numBytes
  }

  lemma WantedIs(size: u32, readOffset: nat, numBytes: u32)
    requires readOffset < size
    ensures Wanted(size, readOffset, numBytes) == if size < (readOffset + numBytes) % U32_MOD then size - readOffset else numBytes
    ensures Wanted(size, readOffset, numBytes) == 0 <==> numBytes == 0
  {
  }

  /** A read may deliver bytes, report an error, or never come back. */
  datatype ReadResult = Bytes(data: seq<byte>) | Failed | Spinning

  /** The variables of the read loop, and one round of it over a file holding `data`. */
  datatype Loop = Loop(offset: nat, remaining: nat)

  function Round(data: seq<byte>, l: Loop): Loop {
    var got := |Slice(data, l.offset, Min(l.remaining, MAX_READ_DATA))|;
    Loop(l.offset + got, l.remaining - got)
  }

  function Rounds(data: seq<byte>, l: Loop, k: nat): Loop
    decreases k
  {
    if k == 0 then l else Rounds(data, Round(data, l), k - 1)
  }

  ghost predicate Ends(data: seq<byte>, l: Loop) {
    exists k: nat :: Rounds(data, l, k).remaining == 0
  }

  /** The loop ends exactly when the file holds all the bytes it was promised; otherwise it asks the
      server for the bytes past the end of the file forever. */
  lemma ReadLoopEnds(data: seq<byte>, l: Loop)
    requires l.offset <= |data|
    ensures Ends(data, l) <==> l.offset + l.remaining <= |data|
  {
    if l.offset + l.remaining <= |data| {
      EnoughRounds(data, l);
    }
    forall k: nat ensures l.offset + l.remaining > |data| ==> Rounds(data, l, k).remaining > 0 {
      if l.offset + l.remaining > |data| {
        NeverEnough(data, l, k);
      }
    }
  }

  lemma {:induction false} EnoughRounds(data: seq<byte>, l: Loop)
    requires l.offset + l.remaining <= |data|
    ensures Ends(data, l)
    decreases l.remaining
  {
    if l.remaining == 0 {
      assert Rounds(data, l, 0).remaining == 0;
    } else {
      EnoughRounds(data, Round(data, l));
      var k: nat :| Rounds(data, Round(data, l), k).remaining == 0;
      assert Rounds(data, l, k + 1).remaining == 0;
    }
  }

  lemma {:induction false} NeverEnough(data: seq<byte>, l: Loop, k: nat)
    requires l.offset <= |data| < l.offset + l.remaining
    ensures Rounds(data, l, k).remaining >= l.offset + l.remaining - |data| > 0
    decreases k
  {
    if k > 0 {
      NeverEnough(data, Round(data, l), k - 1);
    }
  }

  /** A chunk read right after a slice extends the slice by what the chunk brought. */
  lemma SliceGrows(data: seq<byte>, offset: nat, done: nat, n: nat)
    requires offset + done <= |data|
    ensures |Slice(data, offset + done, n)| == Min(n, |data| - (offset + done))
    ensures Slice(data, offset, done) + Slice(data, offset + done, n) ==
            Slice(data, offset, done + |Slice(data, offset + done, n)|)
  {
  }

  lemma FirstSlice(data: seq<byte>, offset: nat)
    ensures Slice(data, offset, 0) == []
  {
  }

  /** One chunk read from a file of the logical file system. */
  lemma ReadChunk(nodes: Nodes, file: nat, offset: nat, n: nat)
    requires WellFormed(nodes) && file < |nodes| && n <= MAX_READ_DATA
    requires if nodes[file].File? then offset <= |nodes[file].data| else offset == 0
    ensures offset < U32_MOD
    ensures Serving(nodes, ReadReq(file, offset, n)) ==
            (nodes, if nodes[file].File? then Contents(Slice(nodes[file].data, offset, n)) else Error)
  {
  }

  /** When the 32-bit sum wraps around, more is wanted than any file holds. */
  lemma WantedFromShortFiles(have: nat, size: u32, readOffset: nat, numBytes: u32)
    requires readOffset <= have <= MAX_DATA && readOffset <= size
    requires readOffset + Wanted(size, readOffset, numBytes) <= have
    ensures readOffset + Wanted(size, readOffset, numBytes) <= size
  {
  }

  /** What my_read comes to, for a file (or other node) as the servers hold it. */
  ghost function ReadOutcome(node: Node, size: u32, readOffset: nat, numBytes: u32): ReadResult
    requires readOffset <= size
  {
    var want := Wanted(size, readOffset, numBytes);
    if readOffset == size || numBytes == 0 then Bytes([])
    else if !node.File? then Failed
    else if Ends(node.data, Loop(readOffset, want)) then Bytes(Slice(node.data, readOffset, want))
    else Spinning
  }

  /** When my_read returns: at the recorded end, or when the file holds the bytes it sets out to read. */
  lemma ReadReturnsIff(data: seq<byte>, size: u32, readOffset: nat, numBytes: u32)
    requires readOffset <= size && readOffset <= |data|
    ensures ReadOutcome(File(data), size, readOffset, numBytes) != Spinning <==>
              readOffset == size || readOffset + Wanted(size, readOffset, numBytes) <= |data|
  {
    ReadLoopEnds(data, Loop(readOffset, Wanted(size, readOffset, numBytes)));
  }

  /** A descriptor that knows its file's size, or less: my_read returns exactly at the recorded end and
      when offset and count do not wrap around in 32 bits. */
  lemma ReadsReturn(data: seq<byte>, size: u32, readOffset: nat, numBytes: u32)
    requires readOffset <= size <= |data| <= MAX_DATA && 0 < numBytes
    ensures ReadOutcome(File(data), size, readOffset, numBytes) != Spinning <==>
              readOffset == size || readOffset + numBytes < U32_MOD
  {
    ReadReturnsIff(data, size, readOffset, numBytes);
  }

  /** Halfway through a file of 100 bytes, a request for 2^32 - 50 more never comes back. */
  lemma WrappingRead(data: seq<byte>)
    requires |data| == 100
    ensures ReadOutcome(File(data), 100, 50, U32_MOD - 50) == Spinning
  {
    ReadReturnsIff(data, 100, 50, U32_MOD - 50);
  }

  /** A file just created in a directory that is not empty: the recorded size is the directory's, and
      the first read asks for bytes that are not there, forever. */
  lemma FirstReadOfNewFile(size: u32, numBytes: u32)
    requires 0 < numBytes
    ensures ReadOutcome(File([]), size, 0, numBytes) == if size == 0 then Bytes([]) else Spinning
  {
    ReadReturnsIff([], size, 0, numBytes);
  }

  /** Write from the start, close, open again, read as much: the data comes back. */
  lemma WriteReopenRead(nodes: Nodes, file: nat, data: seq<byte>)
    requires WellFormed(nodes) && file < |nodes| && Accepted(nodes, file, 0, |data|) == |data| > 0
    ensures nodes[file].File? && Stored(nodes, file, 0, data)[file].File?
    ensures var node := Stored(nodes, file, 0, data)[file];
            |node.data| < U32_MOD && |data| < U32_MOD && ReadOutcome(node, |node.data|, 0, |data|) == Bytes(data)
  {
    var now := Stored(nodes, file, 0, data)[file].data;
    ReadLoopEnds(now, Loop(0, Wanted(|now|, 0, |data|)));
    if |data| > 0 {
      ReadAfterWrite(nodes[file].data, 0, data, 0);
    }
  }

  // ----- descriptors -----

  /** A request and its reply: the replicas answer as one logical file system would. */
  method Call(client: Remote, q: Request) returns (res: Response)
    requires Speaks(client) && Steady(q)
    modifies client, client.cluster
    ensures Speaks(client) && (client.ref, res) == Serving(old(client.ref), q)
  {
    ghost var before := client.ref;
    var aborted;
    res, aborted := client.RemoteCall(q, IsWrite(q));
    ServeKeepsWellFormed(before, q);
  }

  /** Nodes stay, files stay files and never shrink. */
  predicate Extends(a: Nodes, b: Nodes) {
    && |a| <= |b|
    && forall id | 0 <= id < |a| ::
         match a[id]
         case File(data) => b[id].File? && |data| <= |b[id].data|
         case Dir(_) => b[id].Dir?
         case Reserved => b[id].Reserved?
  }

  /** No request takes anything away from another open file. */
  lemma RequestsExtend(nodes: Nodes, q: Request)
    ensures Extends(nodes, Serving(nodes, q).0)
  {
    if q.WriteReq? && Proper(q) {
      var file, data := Narrow(q.handle), q.data[..q.count];
      if CanWrite(nodes, file, q.offset, data) {
        assert |Splice(nodes[file].data, q.offset, data)| >= |nodes[file].data|;
      }
    }
  }

  class OpenFile {
    const client: Remote
    const fileId: nat
    var size: u32
    var readOffset: nat
    var writeOffset: nat

    ghost predicate Attached()
      reads this, client, client.cluster
    {
      && Speaks(client) && fileId < |client.ref|
      && match client.ref[fileId]
         case File(data) => readOffset <= |data| && writeOffset <= |data|
         case _ => readOffset == 0 && writeOffset == 0
    }

    ghost predicate Valid()
      reads this, client, client.cluster
    {
      Attached() && readOffset <= size
    }

    /** A descriptor stays good while others are used. */
    twostate lemma StaysValid()
      requires old(Valid()) && Speaks(client) && Extends(old(client.ref), client.ref)
      requires size == old(size) && readOffset == old(readOffset) && writeOffset == old(writeOffset)
      ensures Valid()
    {
    }

    /** The bytes of the file on the servers. */
    ghost function Data(): seq<byte>
      requires Attached()
      reads this, client, client.cluster
    {
      if client.ref[fileId].File? then client.ref[fileId].data else []
    }

    lemma DataIsSmall()
      requires Attached()
      ensures |Data()| <= MAX_DATA
    {
    }

    constructor (client: Remote, fileId: nat, size: u32)
      requires Speaks(client) && fileId < |client.ref|
      ensures Valid() && this.client == client && this.fileId == fileId && this.size == size
      ensures readOffset == 0 && writeOffset == 0
    {
      this.client, this.fileId, this.size, readOffset, writeOffset := client, fileId, size, 0, 0;
    }

    /** my_write: -1 or the number of bytes written. */
    method Write(data: seq<byte>) returns (ret: int)
      requires Valid() && |data| < U32_MOD
      modifies this`size, this`writeOffset, client, client.cluster
      ensures Valid()
      ensures var k := Accepted(old(client.ref), fileId, old(writeOffset), |data|);
              && client.ref == Stored(old(client.ref), fileId, old(writeOffset), data[..k])
              && writeOffset == old(writeOffset) + k
              && size == (if k == 0 then old(size) else |Data()|)
              && ret == (if k == |data| then k else -1)
    {
      hide Serving, Stored, Accepted, WellFormed, Idle, ReadsArePure;
      ghost var was := client.ref;
      var numBytes, counter := |data|, 0;
      var wBytes := if numBytes > MAX_WRITE_DATA then MAX_WRITE_DATA else numBytes;
      DataIsSmall();
      StoredNothing(was, fileId, writeOffset);
      while numBytes > 0
        invariant 0 <= counter <= |data| && counter + numBytes == |data|
        invariant Valid() && fileId < |was| && WellFormed(was)
        invariant numBytes > 0 ==> wBytes == Min(|data|, MAX_WRITE_DATA)
        invariant numBytes == 0 || counter % MAX_WRITE_DATA == 0
        invariant client.ref == Stored(was, fileId, old(writeOffset), data[..counter])
        invariant writeOffset == old(writeOffset) + counter
        invariant size == if counter == 0 then old(size) else |Data()|
        invariant counter <= Accepted(was, fileId, old(writeOffset), |data|)
      {
        if wBytes > numBytes {
          wBytes := numBytes;
        }
        var ok := StorePiece(was, old(writeOffset), data, counter, wBytes);
        if !ok {
          return -1;
        }
        numBytes, counter := numBytes - wBytes, counter + wBytes;
      }
      ret := counter;
    }

    /** One snfs_write at the write offset. */
    method StorePiece(ghost was: Nodes, ghost offset: nat, data: seq<byte>, counter: nat, w: nat) returns (ok: bool)
      requires Valid() && WellFormed(was) && fileId < |was| && offset <= MAX_DATA
      requires was[fileId].File? ==> offset <= |was[fileId].data|
      requires counter < |data| && counter % MAX_WRITE_DATA == 0 && w == Min(|data| - counter, MAX_WRITE_DATA)
      requires counter <= Accepted(was, fileId, offset, |data|) && writeOffset == offset + counter
      requires client.ref == Stored(was, fileId, offset, data[..counter])
      modifies this`size, this`writeOffset, client, client.cluster
      ensures Valid() && ok == (counter + w <= Accepted(was, fileId, offset, |data|))
      ensures ok ==> client.ref == Stored(was, fileId, offset, data[..counter + w])
      ensures ok ==> writeOffset == offset + counter + w && size == |Data()|
      ensures !ok ==> client.ref == old(client.ref) && writeOffset == old(writeOffset) && size == old(size)
      ensures !ok ==> counter == Accepted(was, fileId, offset, |data|)
    {
      hide Serving, Stored, Accepted, WellFormed, Idle, ReadsArePure;
      DataIsSmall();
      NextChunk(was, fileId, offset, data, counter, w);
      var res := Call(client, WriteReq(fileId, writeOffset, w, data[counter..counter + w]));
      ok := !res.Error?;
      if ok {
        size, writeOffset := res.size, writeOffset + w;
      }
    }

    /** One snfs_read at the read offset. */
    method Fetch(n: nat) returns (ok: bool, bytes: seq<byte>)
      requires Attached() && n <= MAX_READ_DATA
      modifies client, client.cluster
      ensures Attached() && client.ref == old(client.ref)
      ensures ok == client.ref[fileId].File? && (ok ==> bytes == Slice(Data(), readOffset, n))
    {
      hide Serving, WellFormed, Idle, ReadsArePure, Slice;
      ReadChunk(client.ref, fileId, readOffset, n);
      var res := Call(client, ReadReq(fileId, readOffset, n));
      ok := !res.Error?;
      bytes := if ok then res.data else [];
    }

    /** my_read: exactly the bytes from the read offset up to what was asked for or the recorded size,
        provided the file is that long. */
    method Read(numBytes: u32) returns (result: ReadResult)
      requires Valid()
      modifies this`readOffset, client, client.cluster
      ensures Attached() && client.ref == old(client.ref) && (result != Spinning ==> Valid())
      ensures result == ReadOutcome(client.ref[fileId], size, old(readOffset), numBytes)
      ensures var want := Wanted(size, old(readOffset), numBytes);
              if old(readOffset) == size || numBytes == 0 then
                result == Bytes([]) && readOffset == old(readOffset)
              else if !client.ref[fileId].File? then
                result == Failed && readOffset == old(readOffset)
              else if Ends(Data(), Loop(old(readOffset), want)) then
                result == Bytes(Slice(Data(), old(readOffset), want)) && readOffset == old(readOffset) + want
              else result == Spinning && readOffset == |Data()|
    {
      hide WellFormed, Idle, ReadsArePure, Ends, Slice, Speaks, Wanted;
      if readOffset == size {
        return Bytes([]);
      }
      DataIsSmall();
      WantedIs(size, readOffset, numBytes);
      var remaining := numBytes;
      if size < (readOffset + numBytes) % U32_MOD {
        remaining := size - readOffset;
      }
      result := ReadLoop(remaining);
      if result.Bytes? && remaining > 0 {
        StaysBelowSize(old(readOffset), numBytes);
      }
    }

    lemma StaysBelowSize(from: nat, numBytes: u32)
      requires Attached() && client.ref[fileId].File? && from < size && from <= |Data()| <= MAX_DATA
      requires Ends(Data(), Loop(from, Wanted(size, from, numBytes)))
      ensures from + Wanted(size, from, numBytes) <= size
    {
      ReadLoopEnds(Data(), Loop(from, Wanted(size, from, numBytes)));
      WantedFromShortFiles(|Data()|, size, from, numBytes);
    }

    /** The loop of my_read. */
    method ReadLoop(want: nat) returns (result: ReadResult)
      requires Attached()
      modifies this`readOffset, client, client.cluster
      ensures Attached() && client.ref == old(client.ref)
      ensures if want == 0 then result == Bytes([]) && readOffset == old(readOffset)
              else if !client.ref[fileId].File? then result == Failed && readOffset == old(readOffset)
              else if Ends(Data(), Loop(old(readOffset), want)) then
                result == Bytes(Slice(Data(), old(readOffset), want)) && readOffset == old(readOffset) + want
              else result == Spinning && readOffset == |Data()|
    {
      hide WellFormed, Idle, ReadsArePure, Ends, Slice;
      ghost var data, o := Data(), readOffset;
      FirstSlice(data, o);
      var remaining, buffer := want, [];
      ReadLoopEnds(data, Loop(o, want));
      var rBytes := if remaining > MAX_READ_DATA then MAX_READ_DATA else remaining;
      while remaining > 0
        invariant Attached() && client.ref == old(client.ref)
        invariant 0 <= remaining <= want && readOffset + remaining == o + want
        invariant buffer == Slice(data, o, want - remaining)
        invariant rBytes <= MAX_READ_DATA && (remaining > 0 ==> rBytes > 0)
      {
        if rBytes > remaining {
          rBytes := remaining;
        }
        var ok, bytes := Fetch(rBytes);
        if !ok {
          return Failed;
        }
        SliceGrows(data, o, want - remaining, rBytes);
        var nread := |bytes|;
        if nread == 0 {
          return Spinning;
        }
        readOffset, remaining, buffer := readOffset + nread, remaining - nread, buffer + bytes;
      }
      result := Bytes(buffer);
    }
  }

  // ----- opening -----

  /** The first 14 bytes of the path name a node: that is what a lookup goes by. */
  predicate Leads(nodes: Nodes, path: seq<byte>) {
    Absolute(Sent(path)) && Resolve(nodes, Sent(path)).Found? && Resolve(nodes, Sent(path)).id < |nodes|
  }

  function Led(nodes: Nodes, path: seq<byte>): (id: nat)
    requires Leads(nodes, path)
    ensures id < |nodes|
  {
    Resolve(nodes, Sent(path)).id
  }

  lemma LookupAnswers(nodes: Nodes, path: seq<byte>)
    requires WellFormed(nodes) && NoNul(path) && Components(Sent(path)) != []
    ensures Steady(LookupReq(path))
    ensures Serving(nodes, LookupReq(path)) ==
            (nodes, if Leads(nodes, path) then FileIs(Led(nodes, path), SizeOf(nodes[Led(nodes, path)])) else Error)
    ensures Leads(nodes, path) ==> SizeOf(nodes[Led(nodes, path)]) < U32_MOD && Narrow(Led(nodes, path)) == Led(nodes, path)
    ensures Leads(nodes, path) ==> !nodes[Led(nodes, path)].Reserved?
  {
    if Leads(nodes, path) {
      WalkStays(nodes, ROOT, Components(Sent(path)));
      if nodes[Led(nodes, path)].Dir? {
        DirectoriesAreSmall(nodes, Led(nodes, path));
      }
    }
  }

  lemma CreateAnswers(nodes: Nodes, dir: int, name: seq<byte>)
    requires NoNul(name)
    ensures Steady(CreateReq(dir, name))
    ensures Serving(nodes, CreateReq(dir, name)) ==
            if CanCreate(nodes, Narrow(dir), Stem(name))
            then (AfterCreate(nodes, Narrow(dir), Stem(name), File([])), Made(|nodes|))
            else (nodes, Error)
  {
  }

  /** The directory that a create goes to. A failed lookup leaves 0, which is no directory. */
  function Parent(nodes: Nodes, path: seq<byte>): nat
    requires path != []
  {
    if |Components(path)| <= 1 then ROOT
    else if Leads(nodes, DirOf(path)) then Led(nodes, DirOf(path))
    else 0
  }

  /** The size that my_open records for a file it creates: the last one that a lookup reported. */
  function RecordedSize(nodes: Nodes, path: seq<byte>): nat
    requires path != []
  {
    if |Components(path)| > 1 && Leads(nodes, DirOf(path)) then SizeOf(nodes[Led(nodes, DirOf(path))]) else 0
  }

  predicate CanMake(nodes: Nodes, path: seq<byte>)
    requires path != []
  {
    CanCreate(nodes, Parent(nodes, path), Stem(LeafOf(path)))
  }

  /** my_open. What it opens, and where it creates what, goes by the 14 bytes of the path and of its
      directory part that the lookups carry. */
  method Open(client: Remote, path: seq<byte>, create: bool) returns (f: OpenFile?)
    requires Speaks(client) && NoNul(path) && Components(path) != []
    modifies client, client.cluster
    ensures Speaks(client)
    ensures f != null ==> fresh(f) && f.Valid() && f.client == client && f.readOffset == 0 && f.writeOffset == 0
    ensures f != null <==> Parses(path) && (Leads(old(client.ref), path) || (create && CanMake(old(client.ref), path)))
    ensures f == null ==> client.ref == old(client.ref)
    ensures f != null && Leads(old(client.ref), path) ==>
              && client.ref == old(client.ref)
              && f.fileId == Led(client.ref, path) && f.size == SizeOf(client.ref[f.fileId])
    ensures f != null && !Leads(old(client.ref), path) ==>
              && client.ref == AfterCreate(old(client.ref), Parent(old(client.ref), path), Stem(LeafOf(path)), File([]))
              && f.fileId == |old(client.ref)| && f.size == RecordedSize(old(client.ref), path)
  {
    hide WellFormed, Idle, ReadsArePure, Serving, Serve, Steady, Narrow, Components, Filled, Leads, Parses;
    var parsed := MyParse(path);
    if !parsed {
      return null;
    }
    SplitNoNul(path);
    LookupAnswers(client.ref, path);
    LookupAnswers(client.ref, DirOf(path));
    var leaf, dirPath, i := SplitPath(path);
    var res := Call(client, LookupReq(path));
    if res.FileIs? {
      f := new OpenFile(client, res.file, res.size);
      return;
    }
    f := OpenMissing(client, path, leaf, dirPath, i, create);
  }

  /** my_open after its first lookup has failed: a second one for the directory, and the create. */
  method OpenMissing(client: Remote, path: seq<byte>, leaf: seq<byte>, dirPath: seq<byte>, i: nat, create: bool)
    returns (f: OpenFile?)
    requires Speaks(client) && NoNul(path) && path != [] && !Leads(client.ref, path)
    requires leaf == LeafOf(path) && dirPath == DirOf(path) && i == |Components(path)| && i > 0
    requires NoNul(leaf) && NoNul(dirPath) && Components(Sent(dirPath)) != []
    modifies client, client.cluster
    ensures Speaks(client)
    ensures f != null ==> fresh(f) && f.Valid() && f.client == client && f.readOffset == 0 && f.writeOffset == 0
    ensures f != null <==> create && CanMake(old(client.ref), path)
    ensures f == null ==> client.ref == old(client.ref)
    ensures f != null ==>
              && client.ref == AfterCreate(old(client.ref), Parent(old(client.ref), path), Stem(LeafOf(path)), File([]))
              && f.fileId == |old(client.ref)| && f.size == RecordedSize(old(client.ref), path)
  {
    hide WellFormed, Idle, ReadsArePure, Serving, Serve, Steady, Narrow, Components, Filled, Leads;
    LookupAnswers(client.ref, dirPath);
    NarrowNumbers();
    var dir: int, size: u32 := 0, 0;
    var parent := Call(client, LookupReq(dirPath));
    if parent.FileIs? {
      dir, size := parent.file, parent.size;
    }
    if i == 1 {
      dir := ROOT;
    }
    if !create {
      return null;
    }
    CreateAnswers(client.ref, dir, leaf);
    var made := Call(client, CreateReq(dir, leaf));
    if made.Error? {
      return null;
    }
    f := new OpenFile(client, made.file, size);
  }

  lemma NarrowNumbers()
    ensures Narrow(0) == 0 && Narrow(ROOT) == ROOT && Narrow(2) == 2
  {
  }

  // ----- whole sessions -----

  /** After the create of my_open, a lookup of the same path finds the new file exactly when the path is
      safe; it finds nothing else. */
  lemma CreatedIsFound(nodes: Nodes, path: seq<byte>)
    requires WellFormed(nodes) && Parses(path) && Components(path) != []
    requires !Leads(nodes, path) && CanMake(nodes, path)
    ensures var after := AfterCreate(nodes, Parent(nodes, path), Stem(LeafOf(path)), File([]));
            && (Leads(after, path) <==> Safe(path))
            && (Leads(after, path) ==> Led(after, path) == |nodes|)
  {
    hide Components, Filled;
    var dir, name := Parent(nodes, path), Stem(LeafOf(path));
    var after, names := AfterCreate(nodes, dir, name, File([])), Components(Sent(path));
    ReopensIff(path);
    SentIsAPath(path);
    assert Walk(nodes, ROOT, Above(path)) == Found(dir);
    WalkStays(nodes, ROOT, names);
    assert !Walk(nodes, ROOT, names).Found?;
    if Walk(after, ROOT, names).Found? {
      WalkAfterCreate(nodes, dir, name, File([]), names, Walk(after, ROOT, names).id);
      PathsAreUnique(nodes, names[..|names| - 1], Above(path), dir);
      assert names == names[..|names| - 1] + [names[|names| - 1]];
    }
    if names == Above(path) + [name] {
      assert names[..|names| - 1] == Above(path);
      WalkAfterCreate(nodes, dir, name, File([]), names, |nodes|);
    }
  }

  lemma StillLeads(nodes: Nodes, path: seq<byte>, file: nat, offset: nat, data: seq<byte>)
    requires file < |nodes|
    ensures var after := Stored(nodes, file, offset, data);
            Leads(after, path) == Leads(nodes, path) && (Leads(nodes, path) ==> Led(after, path) == Led(nodes, path))
  {
    if nodes[file].File? {
      WalkAfterWrite(nodes, file, offset, data, ROOT, Components(Sent(path)));
    }
  }

  /** Whether what is written through a path can be read back through it: a file is found there, or one
      can be made and the path is safe. */
  predicate Lasts(nodes: Nodes, path: seq<byte>)
    requires Components(path) != []
  {
    Parses(path) && if Leads(nodes, path) then nodes[Led(nodes, path)].File? else CanMake(nodes, path) && Safe(path)
  }

  /** my_open, my_write, my_close, my_open, my_read over the replicated servers. */
  method WriteThenRead(client: Remote, path: seq<byte>, data: seq<byte>) returns (result: ReadResult)
    requires Speaks(client) && NoNul(path) && Components(path) != [] && 0 < |data| <= MAX_DATA
    modifies client, client.cluster
    ensures Speaks(client) && (result == Bytes(data) <==> Lasts(old(client.ref), path))
  {
    hide WellFormed, Idle, ReadsArePure, Serving, Stored, Steady, Leads, Led, Parses, Safe, Components, CanMake, Accepted;
    ghost var before := client.ref;
    SpeakersAreWellFormed(client);
    var f := Open(client, path, true);
    if f == null {
      return Failed;
    }
    if !Leads(before, path) {
      CreatedIsFound(before, path);
    }
    ghost var made := client.ref;
    SpeakersAreWellFormed(client);
    var ret := f.Write(data);
    result := ReadBack(client, path, made, f.fileId, data);
  }

  /** The second half of that session: `made` is the tree before the write. */
  method ReadBack(client: Remote, path: seq<byte>, ghost made: Nodes, ghost file: nat, data: seq<byte>) returns (result: ReadResult)
    requires Speaks(client) && NoNul(path) && Components(path) != [] && Parses(path) && 0 < |data| <= MAX_DATA
    requires WellFormed(made) && file < |made| && (Leads(made, path) ==> Led(made, path) == file)
    requires client.ref == Stored(made, file, 0, data[..Accepted(made, file, 0, |data|)])
    modifies client, client.cluster
    ensures Speaks(client) && (result == Bytes(data) <==> Leads(made, path) && made[file].File?)
  {
    hide WellFormed, Idle, ReadsArePure, Serving, Stored, Steady, Leads, Parses, Components, Accepted, Ends, Slice, ReadOutcome;
    StillLeads(made, path, file, 0, data[..Accepted(made, file, 0, |data|)]);
    OutcomeIs(made, file, data, client.ref);
    var g := Open(client, path, false);
    if g == null {
      return Failed;
    }
    result := g.Read(|data|);
  }

  lemma SpeakersAreWellFormed(client: Remote)
    requires Speaks(client)
    ensures WellFormed(client.ref)
  {
  }

  /** Any file takes up to 5120 bytes from its start on; other nodes take nothing. */
  lemma AllFits(nodes: Nodes, file: nat, n: nat)
    requires WellFormed(nodes) && file < |nodes| && n <= MAX_DATA
    ensures Accepted(nodes, file, 0, n) == if nodes[file].File? then n else 0
  {
  }

  /** What reading from the start comes to after writing there. */
  lemma OutcomeIs(nodes: Nodes, file: nat, data: seq<byte>, now: Nodes)
    requires WellFormed(nodes) && file < |nodes| && 0 < |data| <= MAX_DATA
    requires now == Stored(nodes, file, 0, data[..Accepted(nodes, file, 0, |data|)])
    ensures file < |now| && |data| < U32_MOD && SizeOf(now[file]) < U32_MOD
    ensures ReadOutcome(now[file], SizeOf(now[file]), 0, |data|) == Bytes(data) <==> nodes[file].File?
  {
    AllFits(nodes, file, |data|);
    if nodes[file].File? {
      assert data[..|data|] == data;
      WriteReopenRead(nodes, file, data);
    } else {
      assert data[..0] == [];
      StoredNothing(nodes, file, 0);
      if nodes[file].Dir? {
        DirectoriesAreSmall(nodes, file);
      }
    }
  }

  /** A new file read before it has been written: below the root the call never comes back, unless the
      directory was empty. */
  method ReadNewFile(client: Remote, path: seq<byte>, n: u32) returns (result: ReadResult)
    requires Speaks(client) && NoNul(path) && Components(path) != [] && Parses(path) && 0 < n
    requires !Leads(client.ref, path) && CanMake(client.ref, path)
    modifies client, client.cluster
    ensures result == if |Components(path)| == 1 || old(client.ref)[Parent(old(client.ref), path)].entries == []
                      then Bytes([]) else Spinning
  {
    hide WellFormed, Idle, ReadsArePure, Serving, ReadOutcome, Steady, Components, Filled;
    ghost var before := client.ref;
    SpeakersAreWellFormed(client);
    RecordedNothing(before, path);
    var f := Open(client, path, true);
    FirstReadOfNewFile(f.size, n);
    result := f.Read(n);
  }

  lemma RecordedNothing(nodes: Nodes, path: seq<byte>)
    requires WellFormed(nodes) && path != [] && Components(path) != [] && CanMake(nodes, path)
    ensures RecordedSize(nodes, path) == 0 <==>
              |Components(path)| == 1 || nodes[Parent(nodes, path)].entries == []
  {
    hide Components, Filled;
  }

  // ----- two short runs -----

  const D: Name := [100]
  const ABCDEFG: Name := [97, 98, 99, 100, 101, 102, 103]
  const HIJKLMN: Name := [104, 105, 106, 107, 108, 109, 110]

  /** A directory made in an empty root. */
  lemma OneDir(one: Nodes, a: Name, c: Name)
    requires one == AfterCreate(INITIAL, ROOT, a, Dir([]))
    ensures Walk(one, ROOT, [a]) == Found(2) && Walk(one, ROOT, [a, c]) == Missing
  {
    assert one[ROOT].entries == [DirEntry(a, 2)];
    StepFrom(one, ROOT, a);
    WalkSnoc(one, ROOT, [a], c);
    assert [a] + [c] == [a, c];
    StepFrom(one, 2, c);
  }

  /** On a fresh server, mkdir /d, create /d/f, then open /d/g with O_CREATE and read a byte. */
  method FirstReadHangs() returns (result: ReadResult)
    ensures result == Spinning
  {
    hide WellFormed, Idle, ReadsArePure, ReadOutcome, Serve, Narrow, Components, Filled, Parses, Leads;
    NarrowNumbers();
    var client := Connect(1, 1);
    MakeAnswers(client.ref, 1, D);
    var made := Call(client, MkdirReq(1, D));
    ghost var one := client.ref;
    CreateAnswers(one, 2, [102]);
    made := Call(client, CreateReq(2, [102]));
    var path := [SLASH] + D + [SLASH] + [103];
    GIsMissing(one, client.ref, path);
    result := ReadNewFile(client, path, 1);
  }

  lemma MakeAnswers(nodes: Nodes, dir: int, name: seq<byte>)
    requires NoNul(name)
    ensures Steady(MkdirReq(dir, name)) && Narrow(1) == 1
    ensures Serving(nodes, MkdirReq(dir, name)) ==
            if CanCreate(nodes, Narrow(dir), Stem(name))
            then (AfterCreate(nodes, Narrow(dir), Stem(name), Dir([])), Made(|nodes|))
            else (nodes, Error)
  {
  }

  lemma GIsMissing(one: Nodes, two: Nodes, path: seq<byte>)
    requires one == AfterCreate(INITIAL, ROOT, D, Dir([])) && two == AfterCreate(one, 2, [102], File([]))
    requires path == [SLASH] + D + [SLASH] + [103]
    ensures NoNul(path) && |Components(path)| == 2 && Parses(path) && !Leads(two, path) && CanMake(two, path)
    ensures two[Parent(two, path)].entries != []
  {
    hide Components, Filled;
    TwoParts(D, [103], path);
    OneDir(one, D, [103]);
    assert two[ROOT].entries == [DirEntry(D, 2)] && two[2].entries == [DirEntry([102], 3)];
    StepFrom(two, ROOT, D);
    WalkSnoc(two, ROOT, [D], [103]);
    assert [D] + [[103]] == [D, [103]];
    StepFrom(two, 2, [103]);
  }

  /** On a fresh server, mkdir /abcdefg, then open /abcdefg/hijklmn with O_CREATE, which makes the file.
      Open does not find it again, and refuses to make it again. */
  method LongPathIsLost() returns (first: bool, again: bool, remade: bool)
    ensures first && !again && !remade
  {
    hide WellFormed, Idle, ReadsArePure, Serve, Narrow, Components, Filled, Parses, Leads, Safe;
    NarrowNumbers();
    var client := Connect(1, 1);
    MakeAnswers(client.ref, 1, ABCDEFG);
    var made := Call(client, MkdirReq(1, ABCDEFG));
    ghost var one := client.ref;
    var path := [SLASH] + ABCDEFG + [SLASH] + HIJKLMN;
    LongIsMissing(one, path);
    SpeakersAreWellFormed(client);
    CreatedIsFound(one, path);
    var f := Open(client, path, true);
    ghost var two := client.ref;
    var g := Open(client, path, false);
    var h := Open(client, path, true);
    first, again, remade := f != null, g != null, h != null;
  }

  lemma LongIsMissing(one: Nodes, path: seq<byte>)
    requires one == AfterCreate(INITIAL, ROOT, ABCDEFG, Dir([])) && path == [SLASH] + ABCDEFG + [SLASH] + HIJKLMN
    ensures NoNul(path) && Components(path) != [] && Parses(path) && !Safe(path)
    ensures !Leads(one, path) && CanMake(one, path) && Parent(one, path) == 2 && Stem(LeafOf(path)) == HIJKLMN
    ensures !CanMake(AfterCreate(one, 2, HIJKLMN, File([])), path)
  {
    hide Components, Filled, Join, Parses, Safe, Leads, CanMake, LeafOf, DirOf, Parent;
    LongIsUnsafe(path);
    TakenNow(one, AfterCreate(one, 2, HIJKLMN, File([])), path);
    CutIsMissing(one, path);
    DirIsThere(one, path);
  }

  lemma LongIsUnsafe(path: seq<byte>)
    requires path == [SLASH] + ABCDEFG + [SLASH] + HIJKLMN
    ensures NoNul(path) && Components(path) != [] && Parses(path) && !Safe(path)
  {
    hide Components, Filled, Join, Parses, Safe, LeafOf, DirOf;
    assert NoNul(ABCDEFG) && NoNul(HIJKLMN);
    TwoParts(ABCDEFG, HIJKLMN, path);
  }

  lemma CutIsMissing(one: Nodes, path: seq<byte>)
    requires one == AfterCreate(INITIAL, ROOT, ABCDEFG, Dir([])) && path == [SLASH] + ABCDEFG + [SLASH] + HIJKLMN
    ensures !Leads(one, path)
  {
    hide Components, Filled;
    var c := HIJKLMN[..5];
    assert Sent(path) == [SLASH] + ABCDEFG + [SLASH] + c;
    TwoComponents(ABCDEFG, c, Sent(path));
    OneDir(one, ABCDEFG, c);
  }

  lemma DirIsThere(one: Nodes, path: seq<byte>)
    requires one == AfterCreate(INITIAL, ROOT, ABCDEFG, Dir([])) && path == [SLASH] + ABCDEFG + [SLASH] + HIJKLMN
    ensures path != [] && CanMake(one, path) && Parent(one, path) == 2 && Stem(LeafOf(path)) == HIJKLMN
  {
    hide Components, Filled;
    TwoParts(ABCDEFG, HIJKLMN, path);
    OneDir(one, ABCDEFG, HIJKLMN);
  }

  lemma TakenNow(one: Nodes, two: Nodes, path: seq<byte>)
    requires one == AfterCreate(INITIAL, ROOT, ABCDEFG, Dir([])) && two == AfterCreate(one, 2, HIJKLMN, File([]))
    requires path == [SLASH] + ABCDEFG + [SLASH] + HIJKLMN
    ensures path != [] && !CanMake(two, path)
  {
    hide Components, Filled;
    TwoParts(ABCDEFG, HIJKLMN, path);
    assert two[ROOT].entries == [DirEntry(ABCDEFG, 2)] && two[2].entries == [DirEntry(HIJKLMN, 3)];
    StepFrom(two, ROOT, ABCDEFG);
  }
}
