# SNFS: a verified model

A Dafny model of the SNFS distributed file system and of the thread library it runs on, with proofs of the
properties that hold it together. `dafny verify dfyconfig.toml` checks everything.

## The file system and its caches

Bottom up, each level is proved against the one below it, and a reader of an upper level never meets a lower one.

* `BlockStore` is the disk as one byte array. `Cache` says once what a write-back LRU cache means (the level
  below with the cached values laid over it) and `BlockCache`, `DirCache` and `InodeCache` are the three caches of
  `fs.c`, with slots updated in place. Cache sizes are parameters and every clock reading is arbitrary. A read
  returns the last contents written, and evictions and expiry flushes never change what is visible.
  `Lru` shows which blocks a read-only run leaves in the cache, and how long a slot keeps its entry.
* `Layout`, `Represent`, `FileBytes` and `DiskModel` say when bitmaps, inode table and blocks stand for a tree of
  files: encodings that read back, disjoint ownership of blocks, a free block whenever one is needed.
* `LogicalFs` is the specification: nodes that hold bytes or named entries. `NameTree` proves that the
  directories form a tree and that path lookup follows it.
* `FileSystem` is `fs.c` itself: a class with the bitmaps, the inode table and the caches as fields, whose
  methods act on the tree exactly as the specification says. `Valid` includes that nothing is dirty and that the
  disk alone stands for the tree, so every method also promises durability.
* `Service` adds the request handlers, and `Replicas` sets N such servers behind the network model.

## Replication, client, locking

* `Network` has the replicas and the messages under way; `Replication` is `remote_call`: mutations to all
  replicas, reads to M of them in turn, stale replies dropped. Every reply is the one that a single server would
  give after all earlier mutations.
* `Paths` is what my_open makes of a path: its check, its split, and the bytes of it that reach a server.
* `MyFile` has my_open and the chunk loops of the client library on top of that, so its statements reach from a path
  or a file descriptor to the logical file system. The loop of `my_read` can run forever; the model returns `Spinning`
  in that case, and the condition is proved in both directions.
* `RwLock` is the server's readers-writers lock, each statement of each thread a step.

## Threads

* `ThreadQueue` has the linked queues that share one spare element, in the heap. Ghost fields give the contents of
  a queue and what the scheduler uses it for.
* `Scheduling` is the scheduler as a state machine; monitor_wait has two program points because the unlock inside
  it can preempt its caller. A thread record also says where the thread resumes (`pc`) and which locks it is
  between taking and releasing (`held`); the source keeps the first in the saved context and the second nowhere.
  A monitor is a lock with a queue of waiters.
* `Conservation` and `Safety` have the invariant and its preservation, `SchedulerLaws` and `Epoch` what follows.
  `Effects`, `Handover` and `Blocking` say without the functions of the model what the calls are for: which quantum and
  priority a thread is left with, when a thread that queues or waits gets its lock, how long a sleep lasts, and which
  exit ends a join.
* `UserThreads` is the library as it is written, on those linked queues and with thread records updated in place;
  each of its calls ends in exactly the state of the corresponding step. `Rebuilding` has the invariants of the loops
  that empty a list into a new one.

## Where the code and its comments part

The code is followed everywhere.

* `sthread_user_nice` is said to return the priority after the quantum has run out; it computes the one after a
  yield. `SchedulerLaws.NiceForecastsYield` and `SchedulerLaws.NiceForecastsExhaustion` say when either is right,
  `SchedulerLaws.NiceMisleadsMain` and `SchedulerLaws.NiceMisleadsStatic` show threads for which it is not.
* `my_open` records the size of the directory for a file that it creates below the root; a read before any write
  then asks for bytes that the file does not have, forever, unless that directory was empty.
  See `MyFile.FirstReadOfNewFile`, `MyFile.ReadNewFile` and, for a run from a fresh server, `MyFile.FirstReadHangs`.
* The signal in `rw_write_unlock` is said to wake readers and writers, and the one of the last reader to wake writers;
  each wakes one thread. A writer is left asleep beside a free lock exactly if that thread is a reader and a writer
  waits. See `RwLock.SignalOutcome` and, for a run,
  `RwLock.WriterLeftAsleep`.
* `sthread_user_join` reports threads that wait for a lock as not found. See `SchedulerLaws.JoinSees` and
  `SchedulerLaws.JoinMissesWaiter`.
* The server asks for 16384 blocks although the bitmap has 4096 bits; `Represent.FreeBlockExists` says why the
  search never gets there.
* The inode pointer that `fs_readdir` keeps goes to another inode under it, exactly when more than one page is
  listed. The second page is then a block of that inode, and the handler ends the process if an entry found there has
  no known type. See `FileSystem.Fs.Readdir`, `Lru.SlotLasts` and, for a run, `FileSystem.ListCrowd` and
  `Service.CrowdEndsServer`.
* A path may have 199 bytes, but a lookup message holds 14. A file created through a longer path is not found again
  through it. See `Paths.SentWhole`, `Paths.ReopensIff`, `MyFile.WriteThenRead` and, for a run, `MyFile.LongPathIsLost`.
* The split in `my_open` never clears its buffer, so a component keeps the tail of a longer one before it. See
  `Paths.SplitsRight` and `Paths.SplitsWrong`.
* `myparse` means to refuse a slash at the end of a path and looks one byte too far. See `Paths.MyParse`.
* `my_read` adds offset and count in 32 bits; when the sum wraps around it asks for more than the file holds, forever.
  See `MyFile.ReadsReturn` and `MyFile.WrappingRead`.

## Model

| member | source | states |
|---|---|---|
| `Bytes.SetBit` | snfs_server/fs.c:125 | Setting bit n of a bitmap sets that bit and no other bit of the map. |
| `Bytes.WithBitIsOr` | snfs_server/fs.c:125 | The arithmetic form of `b \| (1 << k)` has exactly the bits of b and bit k. |
| `Bytes.FindFree` | snfs_server/fs.c:133-139 | Finds the lowest clear bit below `size`, and fails exactly when all those bits are set; it never looks past the map as long as some bit of the map is clear, even when `size` exceeds the number of bits. |
| `Bytes.WordRoundTrip` | snfs_server/fs.c:51-56 | The four little-endian bytes of a word read back as that word. |
| `Bytes.CStrOf` | snfs_server/fs.c:651-661 | A name stored with its terminator reads back as that name. |
| `BlockStore.Blocks.New` | snfs_server/block.c:41-52 | A new disk is all zeroes; none is made when its size is zero. |
| `BlockStore.Blocks.Read` | snfs_server/block.c:73-87 | Returns the last contents of the block, or fails exactly when the number is out of range. |
| `BlockStore.Blocks.Write` | snfs_server/block.c:90-105 | The byte array changes at one block and nowhere else; out of range nothing changes. |
| `Cache.FlushKeepsView` | snfs_server/fs.c:166-172 | Writing a dirty entry back moves its value into the level below and leaves the combined contents as they were. |
| `Cache.FillKeepsView` | snfs_server/fs.c:197-203 | Loading an absent address into a slot that is not dirty changes no visible contents. |
| `Cache.TouchKeepsView` | snfs_server/fs.c:190-194 | A hit changes only the stamp and no visible contents. |
| `Cache.StoreInPlace` | snfs_server/fs.c:210-215 | A write hit makes the new value the visible one for that address and for no other. |
| `Cache.StoreAfresh` | snfs_server/fs.c:218-224 | A write miss into a slot that is not dirty makes the new value the visible one for that address and for no other. |
| `Cache.StoreBelow` | snfs_server/fs.c:399-411 | Writing below the cache is visible when the address is not cached. |
| `Cache.CleanMeansStored` | snfs_server/fs.c:399-404 | With nothing dirty the level below holds all visible contents. |
| `Cache.EmptyIsTransparent` | snfs_server/fs.c:448-455 | A cache with no valid entry shows exactly the level below. |
| `Cache.Victim` | snfs_server/fs.c:154-164 | The victim is the first invalid slot, else the least recently used clean one, else the least recently used dirty one. |
| `Cache.StampNewest` | snfs_server/fs.c:190-194 | Stamping a slot with the next clock value keeps valid stamps distinct and not ahead of the clock. |
| `Cache.SettledKeepsKeys` | snfs_server/fs.c:174-184 | Flushes never change which addresses are cached. |
| `BlockCache.BCache.Flush` | snfs_server/fs.c:166-172 | The slot ends up clean, other slots and the visible contents stay. |
| `BlockCache.BCache.FlushExpired` | snfs_server/fs.c:174-181 | What has been dirty for ten seconds at the clock reading is written back and turns clean, no other slot changes, and the visible contents stay. |
| `BlockCache.BCache.FlushAll` | snfs_server/fs.c:183-184 | Afterwards the disk holds exactly the visible contents. |
| `BlockCache.BCache.Evict` | snfs_server/fs.c:197 | The chosen victim is written back first, and the set of cached addresses is as before. |
| `BlockCache.BCache.Read` | snfs_server/fs.c:187-204 | For any clock readings returns the last contents written to that block; the visible map is unchanged. On a clean cache it is one LRU read step. |
| `BlockCache.BCache.Write` | snfs_server/fs.c:207-225 | The visible map changes at that block to that value, nowhere else, through any evictions and expiry flushes. |
| `BlockCache.BCache.WritePast` | snfs_server/fs.c:406-410 | Writing directly to the disk a block that is not cached updates disk and visible contents alike. |
| `DirCache.DCache.Flush` | snfs_server/fs.c:322-328 | A dirty page goes into the block cache; the contents seen through both caches stay. |
| `DirCache.DCache.FlushExpired` | snfs_server/fs.c:330-337 | Likewise: exactly the pages that have been dirty for ten seconds go into the block cache. |
| `DirCache.DCache.FlushAll` | snfs_server/fs.c:339-340 | Afterwards the block cache shows all that the directory cache showed. |
| `DirCache.DCache.Read` | snfs_server/fs.c:342-361 | With one directory per page, the pair of caches over the disk returns the last contents written to that block and changes nothing visible. |
| `DirCache.DCache.Write` | snfs_server/fs.c:363-383 | The map seen through both caches changes at that block only. |
| `DirCache.DCache.ReadData` | snfs_server/fs.c:548 | A file block read under the directory cache, past pages of other owners, returns its visible contents. |
| `DirCache.DCache.WriteData` | snfs_server/fs.c:603 | A file block written under the directory cache changes the visible map at that block only. |
| `DirCache.DCache.WritePast` | snfs_server/fs.c:406-410 | A metadata block written straight to the disk is what every level shows from then on. |
| `DirCache.CachedHasPage` | snfs_server/fs.c:92-100 | Every cached page block has an owning directory in its key. |
| `InodeCache.ICache.Get` | snfs_server/fs.c:266-282 | The returned slot holds that inode, is the old slot on a hit, and no table entry changes in what counts. |
| `InodeCache.ICache.Dirty` | snfs_server/fs.c:285-294 | After the caller has changed the cached inode, the table entry equals it and the cache is coherent again. |
| `InodeCache.ICache.Invalidate` | snfs_server/fs.c:297-302 | The entry is gone, after being written back if it was dirty. |
| `InodeCache.ICache.FlushExpired` | snfs_server/fs.c:253-260 | Likewise: exactly the inodes that have been dirty for ten seconds go into the table. |
| `InodeCache.ICache.FlushAll` | snfs_server/fs.c:262-263 | Every entry is clean and the table is the same in what counts. |
| `InodeCache.ICache.Poke` | snfs_server/fs.c:584-588 | Writing through the pointer that ic_get returned keeps the cache coherent as long as only pointers beyond the contents change. |
| `Lru.HoldsMostRecent` | snfs_server/fs.c:187-204 | In a read-only run from an empty cache an address is cached exactly when it is among the most recent distinct ones, up to the capacity. |
| `Lru.RunTracks` | snfs_server/fs.c:187-204 | After every prefix of such a run the cache tracks exactly the recency list of that prefix. |
| `Lru.SinceRead` | snfs_server/fs.c:187-204 | One more read keeps the account of a watched slot: it holds its entry exactly while fewer other addresses than slots have been read since. |
| `Lru.SlotLasts` | snfs_server/fs.c:187-204 | From any clean cache state with distinct stamps the slot used last still holds its entry after further reads exactly when those named fewer distinct other addresses than there are slots. |
| `Lru.SinceNext` | snfs_server/fs.c:187-204 | The read that drives a watched entry out leaves its own inode in that slot, read last. |
| `Layout.InodeRoundTrip` | snfs_server/fs.c:51-56 | An inode record stored in its block reads back as itself. |
| `Layout.TableRoundTrip` | snfs_server/fs.c:394-395 | Every inode of the table survives storing and loading. |
| `Layout.EntryRoundTrip` | snfs_server/fs.c:660-663 | A directory entry written into a page reads back, and the other 31 entries are untouched. |
| `LogicalFs.InitialWellFormed` | snfs_server/fs.c:458-477 | The tree after a format satisfies the name-tree invariant. |
| `LogicalFs.CreateKeepsWellFormed` | snfs_server/fs.c:627-675 | A permitted create or mkdir keeps it: each node but 0 and 1 named exactly once, by a directory with a smaller number, names distinct, entries = nodes - 2. |
| `LogicalFs.WriteKeepsWellFormed` | snfs_server/fs.c:559-625 | A permitted write keeps it. |
| `LogicalFs.RunKeepsWellFormed` | snfs_server/fs.c:458-725 | Any run of operations keeps it. |
| `LogicalFs.NamesAfterCreate` | snfs_server/fs.c:657-668 | A create adds exactly one naming. |
| `LogicalFs.DirectoriesAreSmall` | snfs_server/fs.c:646-658 | No directory ever has more than 62 entries, so two blocks suffice. |
| `LogicalFs.ReadAfterWrite` | snfs_server/fs.c:526-625 | A read of the range just written returns the data; every other byte is as before. |
| `LogicalFs.LookupAbsent` | snfs_server/fs.c:426-440 | The search fails exactly when no entry has the name. |
| `NameTree.EveryNodeHasAPath` | snfs_server/fs.c:499-524 | Every node is reachable from the root. |
| `NameTree.PathsAreUnique` | snfs_server/fs.c:499-524 | Two component lists that lead to the same node are equal: the directories form a tree. |
| `NameTree.WalkStays` | snfs_server/fs.c:499-524 | A walk goes strictly upwards in numbers and stays inside the table. |
| `NameTree.WalkSnoc` | snfs_server/fs.c:511-522 | Walking one more component is one more search in the directory reached. |
| `NameTree.WalkAfterCreate` | snfs_server/fs.c:627-675 | After a create a path leads to a node exactly when it did before or is the new name under the directory. |
| `NameTree.ComponentsAppend` | snfs_server/fs.c:509-521 | Splitting "p/name" gives the components of p and then name. |
| `NameTree.StrTok` | snfs_server/fs.c:509-521 | Each strtok call takes off the next component, skipping any run of slashes. |
| `NameTree.ResolveAfterCreate` | snfs_server/fs.c:499-524 | Creating a slash-free name in the directory at p makes p/name resolve to the new node; other successful lookups stay, and the only new one is that path. |
| `NameTree.WalkAfterWrite` | snfs_server/fs.c:559-625 | Writes never change where a path leads. |
| `Represent.OneOwner` | snfs_server/fs.c:578-591 | No block belongs to two inodes. |
| `Represent.RepresentsFrame` | snfs_server/fs.c:526-557 | What an inode stands for depends only on its used pointers and the blocks under them. |
| `Represent.LaidOutFrame` | snfs_server/fs.c:578-591 | Changes beyond the used pointers keep ownership disjoint and marked. |
| `Represent.TakeBlock` | snfs_server/fs.c:583-591 | Taking a block that the bitmap shows free keeps all used pointers distinct, in the data area, in range and marked. |
| `Represent.FreeBlockExists` | snfs_server/fs.c:583-591 | On a disk of at least 640 blocks an inode that needs one more block always finds a free one below 640, so the 4096-bit map is never passed although the disk has 16384 blocks. |
| `Represent.CodeIsInjective` | snfs_server/fs.c:48-68 | At most 640 blocks can be claimed: claims map one to one into 64 times 10 pointers. |
| `Represent.LeakIsHarmless` | snfs_server/fs.c:583-590 | Blocks marked by an allocation that failed later break nothing but the supply of free blocks. |
| `FileBytes.WroteBlock` | snfs_server/fs.c:598-615 | One turn of either copy loop of fs_write advances the splice by exactly the bytes it copied, whatever lies beyond the end of the file. |
| `FileBytes.WriteComplete` | snfs_server/fs.c:617-620 | When all bytes are placed and the size is set, the inode stands for the spliced contents. |
| `FileBytes.BlockSlice` | snfs_server/fs.c:546-554 | The piece copied from one block is the matching slice of the file. |
| `FileBytes.Sizing` | snfs_server/fs.c:569-582 | The 32-bit test for enough pointers refuses exactly the writes that would not fit; when offset + count wraps around it asks for no block, and the file would be too long. |
| `DiskModel.ModelAfterWrite` | snfs_server/fs.c:559-625 | Rewriting only blocks of one file changes that file and no other node. |
| `DiskModel.ModelAfterCreate` | snfs_server/fs.c:657-672 | Adding the entry, the inode and the bit gives exactly the tree with one more node. |
| `DiskModel.FormattedModel` | snfs_server/fs.c:458-477 | A formatted disk stands for the empty tree. |
| `DiskModel.StoredIsOnDisk` | snfs_server/fs.c:399-411 | Once bitmaps and table are written the disk alone determines the tree. |
| `FileSystem.Fs.New` | snfs_server/fs.c:448-456 | A new file system is blank, with empty caches. |
| `FileSystem.Fs.Format` | snfs_server/fs.c:458-477 | Formatting a fresh file system leaves the tree with only a root, stored. |
| `FileSystem.Fs.Load` | snfs_server/fs.c:389-397 | The memory copies of bitmaps and table are those on the disk. |
| `FileSystem.Fs.FlushCaches` | snfs_server/fs.c:401-404 | Flushing inodes, pages, then blocks leaves all three caches clean and the disk equal to what the caches showed; the order pages before blocks is what makes it so. |
| `FileSystem.Fs.StoreFsdata` | snfs_server/fs.c:399-411 | Afterwards the disk shows data blocks as the caches did and the memory bitmaps and table as metadata. |
| `FileSystem.Fs.Commit` | snfs_server/fs.c:622 | Storing ends an operation with nothing dirty and a disk that stands for the tree. |
| `FileSystem.Fs.Remount` | snfs_server/fs.c:448-456 | Throwing the caches away and loading the disk again gives the same tree, at every operation boundary. |
| `FileSystem.Fs.NoMetaCached` | snfs_server/fs.c:401-410 | Metadata blocks are never in the block cache, and a cached page belongs to exactly one directory, which owns the block. |
| `FileSystem.Fs.GetAttrs` | snfs_server/fs.c:479-497 | Reports type and size of every allocated node but the reserved one, for which the process ends. |
| `FileSystem.Fs.Read` | snfs_server/fs.c:526-557 | Returns exactly the requested slice of the file, clipped at its end; fails exactly for what is not a file. |
| `FileSystem.Fs.AllocBlocks` | snfs_server/fs.c:583-590 | Claims pairwise distinct free blocks in range and marks them; fails only on a disk of fewer than 640 blocks, and then leaves everything laid out. |
| `FileSystem.Fs.FindBlock` | snfs_server/fs.c:585 | The block found is free and inside bitmap and disk; on 640 blocks or more there is one. |
| `FileSystem.Fs.Write` | snfs_server/fs.c:559-625 | On success the file is old[..o] + data + old[o+count..] with o the smaller of offset and old size, and no other node changes; otherwise nothing readable changes. The exit happens exactly when the start plus count reaches 2^32. It fails although the data fits only on a disk of fewer than 640 blocks. |
| `FileSystem.Fs.DirSearch` | snfs_server/fs.c:426-440 | Finds the number of the first entry with the name, or that there is none, and the slot that ic_get returned holds the directory throughout. |
| `FileSystem.Fs.GrowDir` | snfs_server/fs.c:646-655 | Gives a directory whose pages are full one more owned page, without touching the contents. |
| `FileSystem.Fs.Create` | snfs_server/fs.c:627-675 | Succeeds exactly when name, directory and table allow it and a block is found; then the tree gains one empty file numbered after all others. A failure changes nothing visible. |
| `FileSystem.Fs.Mkdir` | snfs_server/fs.c:677-725 | As Create, with an empty directory. |
| `FileSystem.Fs.FindInode` | snfs_server/fs.c:641-644 | The free inode found is always the one after all allocated ones. |
| `FileSystem.Fs.LookupPath` | snfs_server/fs.c:499-524 | Returns 1 with the node that the walk of the components reaches, 0 when a name is missing, -1 when a component is no directory or the path is not absolute; with no component at all it returns 1 and no node. |
| `FileSystem.Fs.NextIsNew` | snfs_server/fs.c:740-751 | Which inode has the slot that fs_readdir keeps after k entries: the directory for the first three, then every fourth inode fetched takes it over; none comes twice. |
| `FileSystem.Fs.Readdir` | snfs_server/fs.c:727-753 | Lists exactly the first entries with names and types when they fit one page, and stays valid. Exactly when more than 32 are to be listed the second page is the second block of the inode of the 32nd entry, and the file system is no longer valid if that block is metadata or in use by that inode. |
| `FileSystem.Fs.SecondBlockOfFile` | snfs_server/fs.c:740-751 | If that inode is a file of more than 512 bytes, its bytes from 512 on are what is read as entries. |
| `FileSystem.Fs.StrayBreaks` | snfs_server/fs.c:744 | A page cached for a directory that does not own it: the file system is not valid. |
| `FileSystem.BitmapAsPage` | snfs_server/fs.c:744-747 | A block bitmap with no bit from 104 on set, read as a page, has a first entry that names inode 0. |
| `FileSystem.GatherCrowd` | snfs_server/fs.c:627-675 | 33 creates on a fresh file system mark at most 33 more blocks, and give no inode but the root a second block. |
| `FileSystem.ListCrowd` | snfs_server/fs.c:727-753 | Listing 64 entries after that reads the block bitmap as the second page: the 33rd entry has type 0, and a metadata block is in the page cache. |
| `Service.ServeKeepsWellFormed` | snfs_server/server.c:121-135 | Handlers keep the tree well formed, and those marked as reads change nothing. |
| `Service.Narrow` | snfs_server/snfs.c:95 | A handle is read modulo 2^16, so that of a real inode is unchanged. |
| `Service.AsInt` | snfs_server/snfs.c:187 | An unsigned count passed as int is that count, or that less 2^32. |
| `Service.HandleLookup` | snfs_server/snfs.c:66-88 | Answers as the lookup of the logical tree does for the first 14 bytes of the path. |
| `Service.HandleRead` | snfs_server/snfs.c:91-110 | Answers at most 1024 bytes of the file, as the logical file system does. |
| `Service.HandleWrite` | snfs_server/snfs.c:113-135 | Stores as the logical file system does; with its bound on count the exit of fs_write cannot be reached. |
| `Service.HandleMake` | snfs_server/snfs.c:138-180 | Create and mkdir requests act as on the logical file system with the name cut to 13 bytes. |
| `Service.HandleReaddir` | snfs_server/snfs.c:182-217 | Answers with names and kinds of the first entries when they fit one page, and fails exactly when there is no such directory; for more, it replies or ends the process by the types of the entries of the wrong block. |
| `Service.Handle` | snfs_server/server.c:236-243 | A server over caches, bitmaps and 640 or more blocks answers every request, and changes, exactly as the logical file system, unless it is a listing over more than one page. |
| `Service.CrowdEndsServer` | snfs_server/snfs.c:197-215 | After 33 creates in the root of a fresh file system the listing that my_listdir asks for ends the server process. |
| `Replicas.Consume` | snfs_server/server.c:205-253 | One handler call of one of N real servers, with its caches and disk, on a request for at most one page of entries, is that step of the network model on their trees, and no other server changes. |
| `Replicas.Replay` | snfs_server/server.c:205-253 | Every run of such calls that the network model allows is a run of N real servers, with the same replies and trees. |
| `Network.HandleConserves` | snfs_server/server.c:233-245 | Handling a request turns it into one reply with its serial number: nothing is lost or made. |
| `Network.RunsSnoc` | snfs_server/server.c:233-245 | Runs of handler calls extend one call at a time. |
| `Network.Cluster.Receive` | snfs_lib/snfs_api.c:100-117 | Any handler calls in any order happen first, then any reply under way is delivered. |
| `Network.OutstandingInTransit` | snfs_lib/snfs_api.c:100-117 | Messages of one call never outnumber the messages under way. |
| `Replication.HandleWhileWriting` | snfs_lib/snfs_api.c:89-117 | While a mutation is under way each replica has yet to run it or has run it once, old reads notwithstanding. |
| `Replication.HandleWhileReading` | snfs_lib/snfs_api.c:153-168 | While a read is under way every replica keeps the reference state and every answer to this read is the reference answer. |
| `Replication.RunsWhileWriting` | snfs_lib/snfs_api.c:100-117 | That holds over any handler calls between two receptions, and no message disappears. |
| `Replication.RunsWhileReading` | snfs_lib/snfs_api.c:153-168 | Likewise for reads. |
| `Replication.DeliverWhileWriting` | snfs_lib/snfs_api.c:100-117 | A delivered reply with the serial number of the mutation is the reference answer. |
| `Replication.AfterReceive` | snfs_lib/snfs_api.c:153-168 | One reception during a read keeps its invariant, and an accepted reply is the reference answer. |
| `Replication.WritingEnds` | snfs_lib/snfs_api.c:100-117 | When all replies are in, all replicas have the same state: that of a single server after the mutation. |
| `Replication.Client.Mutate` | snfs_lib/snfs_api.c:82-131 | Waiting for all replies ends, the statuses never differ, and the first response is the reference answer. |
| `Replication.Client.FirstReply` | snfs_lib/snfs_api.c:153-168 | Waiting for the first matching reply ends; stale ones are discarded. |
| `Replication.Client.SendSome` | snfs_lib/snfs_api.c:138-150 | The request reaches exactly M servers, the next ones in turn, and they join the list of servers contacted. |
| `Replication.Client.RemoteCall` | snfs_lib/snfs_api.c:69-170 | Every reply equals what one reference server would answer after all earlier mutations, for any number of replicas, and the client never aborts. A read contacts the next M servers and moves the index on by M modulo N. |
| `Replication.ContactsGoRound` | snfs_lib/snfs_api.c:141-150 | The k-th contact over any run of reads is server (start + k) mod N. |
| `Replication.EveryServerInTurn` | snfs_lib/snfs_api.c:141-150 | Among any N contacts in a row every server is contacted exactly once. |
| `Replication.Client.ReadsGoRound` | snfs_lib/snfs_api.c:141-150 | Among any N contacts in a row, over all reads a client has made, every server was contacted exactly once. |
| `Paths.MyParse` | snfs_lib/myfs.c:368-407 | Accepts exactly the paths from the root of less than 200 bytes, without spaces or double slashes, with components of at most 13 bytes; a slash at the end passes. |
| `Paths.JoinedAgain` | snfs_lib/myfs.c:389-404 | Such a path is its components with a slash before each, and perhaps one after the last. |
| `Paths.SplitPath` | snfs_lib/myfs.c:91-105 | The loop over the tokens computes the name and the directory part that the other rows are about. |
| `Paths.FilledIsLast` | snfs_lib/myfs.c:94-99 | The buffer holds just the last component exactly when no earlier one is longer. |
| `Paths.SplitsRight` | snfs_lib/myfs.c:90-105 | The name is the last component exactly when no earlier one is longer, or for a single component when no slash follows it; then the directory part has the components before it. |
| `Paths.SplitsWrong` | snfs_lib/myfs.c:94-101 | Of /teste/a the split makes the name aeste and the directory /t. |
| `Paths.SentWhole` | snfs_lib/snfs_api.c:265-276 | The 14 bytes of the message name the same components as the path exactly when the path, but for a slash at its end, has at most 14 bytes. |
| `Paths.ReopensIff` | snfs_lib/myfs.c:90-130 | The lookup of a path names the place where a create through it goes exactly when the path is safe: at most 14 bytes and no component longer than the last, or for a single one no slash after it unless it has 13 bytes. |
| `MyFile.SpliceTwice` | snfs_lib/myfs.c:215-227 | A piece and then the next piece right after it are one write, even past the end of the file. |
| `MyFile.AcceptedWhole` | snfs_lib/myfs.c:193-230 | All of a write is accepted exactly when one single request of that size would have been. |
| `MyFile.NextChunk` | snfs_lib/myfs.c:215-227 | After a prefix of whole chunks the next request stores its chunk, or is refused and then the prefix is all that fits. |
| `MyFile.ReadLoopEnds` | snfs_lib/myfs.c:176-188 | The read loop ends exactly when the file holds all the bytes it was promised; otherwise it asks forever. |
| `MyFile.ReadReturnsIff` | snfs_lib/myfs.c:145-191 | my_read returns exactly at the recorded end or when the file holds all the bytes it sets out to deliver. |
| `MyFile.ReadsReturn` | snfs_lib/myfs.c:145-191 | With a recorded size no larger than the file, my_read returns exactly at the recorded end or when offset + count does not wrap around in 32 bits. |
| `MyFile.WrappingRead` | snfs_lib/myfs.c:159-188 | Halfway through a file of 100 bytes a request for 2^32 - 50 bytes never returns. |
| `MyFile.FirstReadOfNewFile` | snfs_lib/myfs.c:113-137 | After a create that recorded the size of the directory, the first read returns exactly when that size is 0. |
| `MyFile.ReadNewFile` | snfs_lib/myfs.c:110-191 | Reading from a file that open has just created returns no bytes if it is in the root or its directory was empty, and never returns otherwise. |
| `MyFile.FirstReadHangs` | snfs_lib/myfs.c:110-191 | So it goes on a freshly formatted server after making /d and /d/f, opening /d/g and asking for one byte. |
| `MyFile.WriteReopenRead` | snfs_lib/myfs.c:145-230 | Write, close, open, read gives back the data. |
| `MyFile.CreatedIsFound` | snfs_lib/myfs.c:110-130 | After the create of my_open a lookup of the same path finds the new file exactly when the path is safe, and otherwise nothing. |
| `MyFile.WriteThenRead` | snfs_lib/myfs.c:57-230 | Open with O_CREATE, write, open again and read, over any number of replicas, gives back the data exactly when the lookup finds a file, or one can be made and the path is safe. |
| `MyFile.LongPathIsLost` | snfs_lib/myfs.c:110-130 | On a fresh server /abcdefg/hijklmn is created by open below a new directory, then not found by open, and not created again. |
| `MyFile.RequestsExtend` | snfs_lib/myfs.c:145-230 | No request removes a node, changes its kind or shrinks a file, so other descriptors stay good. |
| `MyFile.OpenFile.StaysValid` | snfs_lib/myfs.c:131-139 | A descriptor stays good while others are used. |
| `MyFile.Connect` | snfs_lib/myfs.c:38-55 | Against freshly formatted servers the client starts with the empty tree. |
| `MyFile.Open` | snfs_lib/myfs.c:57-143 | Opens what the first 14 bytes of the path name, with its size; else, with O_CREATE, creates what the split leaves of the last component in what the first 14 bytes of the directory part name, recording the size of that directory, or 0 at the root. In all other cases, a missing directory among them, it fails and changes nothing. |
| `MyFile.OpenFile.Write` | snfs_lib/myfs.c:193-230 | The pieces have the effect of one write at the write offset of as many bytes as fit in whole pieces; the result is the count, or -1 exactly when some do not fit. |
| `MyFile.OpenFile.Read` | snfs_lib/myfs.c:145-191 | Returns exactly the bytes from the read offset up to the request or the recorded size; never returns exactly when the file is shorter than that. |
| `ThreadQueue.Library.CreateQueue` | sthread_lib/queue.c:10-17 | The new queue is empty, and all queues stay linked and apart although the spare element is forgotten. |
| `ThreadQueue.Library.DeleteQueue` | sthread_lib/queue.c:19-29 | Frees exactly the elements of that queue, none of which another queue reaches. |
| `ThreadQueue.Library.NewElement` | sthread_lib/queue.c:33-43 | The element used belongs to no queue. |
| `ThreadQueue.Library.Insert` | sthread_lib/queue.c:31-52 | Appends to that queue; all others keep links and contents, even if the stale `last` of an empty queue points into one. |
| `ThreadQueue.Library.Remove` | sthread_lib/queue.c:68-82 | Takes the head off that queue; all others keep links and contents, and no live queue reaches a freed element. |
| `ThreadQueue.Library.IsEmpty` | sthread_lib/queue.c:55-58 | Tells exactly whether the queue is empty. |
| `ThreadQueue.Library.First` | sthread_lib/queue.c:61-65 | Returns the head of a queue that is not empty. |
| `ThreadQueue.Library.Find` | sthread_lib/sthread_user.c:432-445 | The walk along the links finds a thread exactly when it is in the queue. |
| `Scheduling.Best` | sthread_lib/sthread_user.c:96-102 | The least non-empty priority, or -1 exactly when all queues are empty. |
| `Conservation.DispatchIsSound` | sthread_lib/sthread_user.c:86-92 | A switch keeps every thread in its places, leaves nobody better in the active queues, and takes the head of the best one. |
| `Conservation.ChosenFromBefore` | sthread_lib/sthread_user.c:86-113 | A choice made after threads have only joined the ends of queues is a choice from the queues before. |
| `Conservation.SwapIsSound` | sthread_lib/sthread_user.c:109-113 | Swapping the queue sets keeps the invariant. |
| `Conservation.PutBackIsSound` | sthread_lib/sthread_user.c:302-304 | Putting the running thread back keeps the invariant. |
| `Conservation.ExpireIsSound` | sthread_lib/sthread_user.c:313 | Expiring the running thread keeps the invariant. |
| `Conservation.WakingIsSound` | sthread_lib/sthread_user.c:283-289 | Waking one blocked thread keeps the invariant. |
| `Conservation.HandOffIsSound` | sthread_lib/sthread_user.c:536-551 | Handing a lock to the head of its queue keeps the invariant; also while the caller is inside its own monitor_wait. |
| `Conservation.HeadWaits` | sthread_lib/sthread_user.c:538 | The thread that gets a lock has been waiting for that very lock, in one of its queues once. |
| `Conservation.ParkIsSound` | sthread_lib/sthread_user.c:602-605 | Joining the waiters while still running gives the one extra entry, and nothing else. |
| `Conservation.FinishIsSound` | sthread_lib/sthread_user.c:610-615 | The block at the end of monitor_wait gives the extra entry back. |
| `Conservation.SignalIsSound` | sthread_lib/sthread_user.c:625-640 | A signal by the owner keeps the invariant. |
| `Safety.TickIsSound` | sthread_lib/sthread_user.c:276-321 | A clock tick keeps the invariant and ends with nobody in the active queues outranking the running thread. |
| `Safety.YieldIsSound` | sthread_lib/sthread_user.c:328-351 | So does a yield. |
| `Safety.ExitIsSound` | sthread_lib/sthread_user.c:233-271 | So does an exit, unless the program ends. |
| `Safety.WaitIsSound` | sthread_lib/sthread_user.c:596-616 | So does a wait, through both of its program points. |
| `Safety.StepKeepsInv` | sthread_lib/sthread_user.c:182-643 | Every step keeps the invariant. Each step that gives up the processor gives it to the first thread of the best non-empty queue of the old active queues with threads appended or, if those are empty, of the old expired ones with threads appended; each other step keeps the thread running. |
| `Safety.StartIsSound` | sthread_lib/sthread_user.c:147-175 | The initial state satisfies the invariant. |
| `Safety.RunsKeepInv` | sthread_lib/sthread_user.c:182-643 | Every run keeps the invariant. |
| `SchedulerLaws.ThreadsAreConserved` | sthread_lib/sthread_user.c:182-643 | In every reachable state a thread has exactly one place; one preempted inside the unlock of monitor_wait has exactly one runnable entry more. |
| `SchedulerLaws.LocksExclude` | sthread_lib/sthread_user.c:505-564 | At most one thread is between the return of lock and its unlock, and a free mutex keeps nobody waiting. |
| `SchedulerLaws.ReturnsAsOwner` | sthread_lib/sthread_user.c:596-616 | lock and monitor_wait return only to the owner, also through the preempted unlock. |
| `SchedulerLaws.StepsKeepOthers` | sthread_lib/sthread_user.c:182-643 | A step of one thread leaves any other as it is, or resumes it, except a tick at which that one is due and the exit of the thread that it joins. |
| `SchedulerLaws.LocksInOrder` | sthread_lib/sthread_user.c:505-643 | A step can only take a free lock, queue at its end, free it when nobody queues, or hand it to the head of its queue. |
| `SchedulerLaws.LocksExactly` | sthread_lib/sthread_user.c:505-643 | What every operation makes of a lock: lock takes it or queues, unlock and wait pass it on, signal moves the first waiter to the end of the queue, by the owner alone; no other operation and no other lock. |
| `SchedulerLaws.NoOvertaking` | sthread_lib/sthread_user.c:505-564 | Over any run threads get a lock in the order in which they queued for it. |
| `SchedulerLaws.BasesAreFixed` | sthread_lib/sthread_user.c:35-38 | No operation changes a base priority. |
| `SchedulerLaws.PrioritiesKeepTheirKind` | sthread_lib/sthread_user.c:118-134 | Over any run a static thread keeps its priority with a quantum of 0 to 5, a dynamic one stays in 5 to 14 with a quantum of 1 to 9. |
| `SchedulerLaws.NiceForecastsYield` | sthread_lib/sthread_user.c:215-226 | The forecast is the priority after a yield exactly for dynamic threads. |
| `SchedulerLaws.NiceForecastsExhaustion` | sthread_lib/sthread_user.c:210-226 | The comment promises the priority after the quantum runs out; that is right exactly when both results are cut off at the same end of the range. |
| `SchedulerLaws.NiceMisleadsMain` | sthread_lib/sthread_user.c:210-226 | For the initial thread the forecast is 5 and the priority after the quantum has run out is 7. |
| `SchedulerLaws.NiceMisleadsStatic` | sthread_lib/sthread_user.c:210-226 | A static thread, created and put in by the next tick, is told 5 and keeps 3. |
| `SchedulerLaws.JoinSees` | sthread_lib/sthread_user.c:429-447 | A join finds every thread that has not ended, except exactly those that wait for a lock or a monitor with no runnable entry. |
| `SchedulerLaws.JoinMissesWaiter` | sthread_lib/sthread_user.c:429-447 | From the initial state five calls lead to a thread that waits for a mutex and that the running thread may join but does not find. |
| `Handover.SignalMoves` | sthread_lib/sthread_user.c:618-643 | With waiters the owner's signal moves the longest waiter to the end of the queue and changes nothing else; without, or from another thread, it changes nothing. |
| `Handover.StrangersReleaseNothing` | sthread_lib/sthread_user.c:527-532 | Unlock and wait by a thread that is not the owner change nothing. |
| `Handover.FreeLockIsTaken` | sthread_lib/sthread_user.c:505-510 | Locking a free lock gives it to the caller, who goes on; nothing else changes. |
| `Handover.ReleaseGoesOn` | sthread_lib/sthread_user.c:536-564 | When the thread that gets the lock has no better priority the caller of unlock goes on, and the other one is last in its active queue. |
| `Handover.ReleaseSwitches` | sthread_lib/sthread_user.c:553-560 | When it has a better one, and nobody better was active, it runs at once, and the caller is last in its active queue. |
| `Handover.ReleaseKeepsOnTop` | sthread_lib/sthread_user.c:527-564 | Any unlock leaves nobody active who is better than the running thread, if nobody was before. |
| `Handover.TurnInQueue` | sthread_lib/sthread_user.c:505-643 | Over any run a thread with i others before it in the queue of a lock owns the lock once it has been given up i + 1 times, and stands i - n places down after n times. |
| `Handover.TurnAmongWaiters` | sthread_lib/sthread_user.c:596-643 | Over any run a waiter with i others before it stands i - n places down after n signals. |
| `Handover.SignalledWaiterOwns` | sthread_lib/sthread_user.c:596-643 | A waiter that is signalled while q threads queue for the mutex owns the monitor after it has been given up q + 1 times. |
| `Effects.YieldTunes` | sthread_lib/sthread_user.c:118-134 | A dynamic thread that yields gets 5 ticks and half of those it had left, and its base less those left plus its nice value, cut to 5..14, as priority; a static one keeps both. It runs or is active. |
| `Effects.LockingTunes` | sthread_lib/sthread_user.c:512-523 | A thread that blocks for a lock gets the same. |
| `Effects.WaitingTunes` | sthread_lib/sthread_user.c:600-616 | An owner that waits in its monitor gets the same. |
| `Effects.TickCharges` | sthread_lib/sthread_user.c:297-309 | A tick takes one tick of the running thread; it stays active, and goes on unless some thread of a better priority is. |
| `Effects.QuantumRunsOut` | sthread_lib/sthread_user.c:311-320 | The tick that uses up the last one leaves a dynamic thread 5 ticks and the priority of its base and nice values, and expires it while others are active. |
| `Effects.CreateAppends` | sthread_lib/sthread_user.c:182-203 | A new thread has 5 ticks, the priority asked for cut to 0..14, and the last place in that active queue; nothing else changes. |
| `Effects.NiceSets` | sthread_lib/sthread_user.c:215-226 | The nice value is cut to 0..10 and nothing else changes; the forecast is cut to 5..14. |
| `Blocking.ListsMove` | sthread_lib/sthread_user.c:182-643 | Only a tick takes sleepers and moves the clock, only an exit takes joiners, only a join of that thread takes a zombie, and the dead stay dead. |
| `Blocking.StaysBlocked` | sthread_lib/sthread_user.c:182-643 | No step changes a sleeper or a joiner but the tick at which it is due and the exit of the thread that it joins. |
| `Blocking.ShortSleep` | sthread_lib/sthread_user.c:463-467 | sleep returns at once, with nothing changed, exactly for times between -10 and 10. |
| `Blocking.SleepLasts` | sthread_lib/sthread_user.c:463-481 | Over any run a thread that calls sleep(time) at clock c sleeps in every state before clock c + n, where 10n <= time < 10(n + 1), n >= 1; for time <= -10, before the next tick. |
| `Blocking.SleepEnds` | sthread_lib/sthread_user.c:279-294 | The tick that brings the clock to c + n makes it ready with a fresh quantum: it runs or is active. |
| `Blocking.WakeInOrder` | sthread_lib/sthread_user.c:279-294 | Of two threads of one priority that wake at the same tick the one that went to sleep first is ahead. |
| `Blocking.JoinLasts` | sthread_lib/sthread_user.c:449-457 | Over any run a thread that blocks in a join of u stays there until an exit while u runs; no other exit frees it. |
| `Blocking.JoinEnds` | sthread_lib/sthread_user.c:238-257 | That exit makes it ready, to run or be active, and buries u. |
| `Blocking.ExitFrees` | sthread_lib/sthread_user.c:238-252 | Everybody who joins the thread that exits becomes ready, and the program goes on. |
| `Blocking.ExitBuries` | sthread_lib/sthread_user.c:238-257 | Nobody else leaves a join; the thread that exits is dead if somebody joined it and a zombie otherwise. |
| `Blocking.ExitFinishes` | sthread_lib/sthread_user.c:259-263 | The program ends exactly when nobody joined the thread and all run queues are empty. |
| `Blocking.FreedInOrder` | sthread_lib/sthread_user.c:238-252 | Of two threads of one priority that join the one that exits the one that joined first is ahead. |
| `Blocking.LateJoinFindsZombie` | sthread_lib/sthread_user.c:411-427 | Over any run a thread that nobody joined stays a zombie until the first join of it, which returns at once and moves it to the dead; nothing else changes. |
| `Epoch.TickCountsDown` | sthread_lib/sthread_user.c:276-321 | A tick that does not swap the queues lowers the measure by exactly 1. |
| `Epoch.EpochEnds` | sthread_lib/sthread_user.c:276-321 | In a run of ticks alone a swap comes within as many ticks as the measure says. |
| `Epoch.ActiveThreadsRun` | sthread_lib/sthread_user.c:276-321 | Every active thread runs before that swap. |
| `Epoch.ExpiredThreadsRun` | sthread_lib/sthread_user.c:276-321 | Every expired thread runs after that swap and before the next. |
| `Epoch.WakeCosts` | sthread_lib/sthread_user.c:279-294 | Waking sleepers does not change the measure. |
| `Rebuilding.WakingEnds` | sthread_lib/sthread_user.c:279-294 | Sorting the sleepers one by one into run queues and a new list comes to waking all that are due at once, in order. |
| `Rebuilding.FreeingEnds` | sthread_lib/sthread_user.c:238-252 | Likewise for those who join the thread that exits, who is a zombie exactly when nobody did. |
| `Rebuilding.SortingEnds` | sthread_lib/sthread_user.c:411-427 | Likewise for the zombies a join goes through. |
| `UserThreads.Levels.BestPriority` | sthread_lib/sthread_user.c:96-102 | The loop over linked queues finds the least non-empty priority. |
| `UserThreads.Levels.Search` | sthread_lib/sthread_user.c:432-445 | The search loops find a thread exactly when one of the linked queues holds it. |
| `UserThreads.Scheduler.OneQueueChanged` | sthread_lib/sthread_user.c:81-92 | A change to one linked queue changes that one component of the state and nothing else, because no two queues of the library are the same. |
| `UserThreads.Scheduler.PopBest` | sthread_lib/sthread_user.c:86-92 | Takes the head element off the first linked queue that is not empty. |
| `UserThreads.Scheduler.ReplaceSleeping` | sthread_lib/sthread_user.c:291-292 | The rebuilt list takes the place of the emptied one, which is deleted without freeing a thread. |
| `UserThreads.Scheduler.constructor` | sthread_lib/sthread_user.c:147-175 | The library starts in the initial state. |
| `UserThreads.Scheduler.CreateWithPriority` | sthread_lib/sthread_user.c:182-203 | The whole state is that of the create step. |
| `UserThreads.Scheduler.SetNice` | sthread_lib/sthread_user.c:215-226 | The whole state and the forecast are those of the nice step. |
| `UserThreads.Scheduler.YieldProcessor` | sthread_lib/sthread_user.c:328-351 | The whole state is that of the yield step; the branch for an empty queue is never taken. |
| `UserThreads.Scheduler.WakeSleepers` | sthread_lib/sthread_user.c:279-294 | The loop that rebuilds the list of sleepers wakes exactly those whose time has come, in order. |
| `UserThreads.Scheduler.Dispatcher` | sthread_lib/sthread_user.c:276-321 | The whole state is that of the tick step. |
| `UserThreads.Scheduler.ExitThread` | sthread_lib/sthread_user.c:233-271 | The whole state is that of the exit step. |
| `UserThreads.Scheduler.JoinThread` | sthread_lib/sthread_user.c:408-461 | The whole state is that of the join step; the result tells zombie or visible from not found. |
| `UserThreads.Scheduler.LookAmongZombies` | sthread_lib/sthread_user.c:411-427 | The loop moves exactly the joined zombie to the dead. |
| `UserThreads.Scheduler.SleepFor` | sthread_lib/sthread_user.c:463-481 | The whole state is that of the sleep step. |
| `UserThreads.Scheduler.AcquireLock` | sthread_lib/sthread_user.c:505-525 | The whole state is that of the lock step. |
| `UserThreads.Scheduler.ReleaseLock` | sthread_lib/sthread_user.c:527-564 | The whole state is that of the unlock step; a caller that is not the owner changes nothing. |
| `UserThreads.Scheduler.MonitorWait` | sthread_lib/sthread_user.c:596-616 | The whole state is that of the first part of wait. |
| `UserThreads.Scheduler.ResumeInWait` | sthread_lib/sthread_user.c:610-615 | The whole state is that of the second part of wait. |
| `UserThreads.Scheduler.MonitorSignal` | sthread_lib/sthread_user.c:618-643 | The whole state is that of the signal step. |
| `RwLock.MonitorAsScheduled` | snfs_server/server.c:76-112 | The monitor behaves in these steps as the scheduler makes it behave. |
| `RwLock.StepKeepsInv` | snfs_server/server.c:76-112 | Every statement of every thread keeps counters, ownership and exclusion. |
| `RwLock.RunsKeepInv` | snfs_server/server.c:76-112 | So does every interleaving, for any number of threads. |
| `RwLock.WritersExclude` | snfs_server/server.c:76-112 | While a write handler runs no other handler runs, and the three counters are the numbers of threads in their phases. |
| `RwLock.ReadersGiveWay` | snfs_server/server.c:76-84 | A reader is admitted only while no writer waits or writes. |
| `RwLock.StepKeepsOrder` | snfs_server/server.c:76-112 | Every statement keeps each blocked thread in exactly one of the queue, the list of waiters, or the monitor. |
| `RwLock.MonitorIsTheSchedulers` | snfs_server/server.c:76-112 | Enter, exit, wait and signal on the monitor are exactly what the calls of the scheduler make of it. |
| `RwLock.SignalOutcome` | snfs_server/server.c:86-112 | When a writer, or the last reader, signals with an empty monitor queue, then after its exit and the steps of the woken thread the lock is free and a writer still asleep exactly if the longest waiter was a reader and a writer was waiting. If the longest waiter was a writer, it writes; if a reader and no writer waits, it reads. |
| `RwLock.OthersReadOn` | snfs_server/server.c:86-94 | A reader that leaves others reading signals nobody: the waiters stay as they are. |
| `RwLock.WriterLeftAsleep` | snfs_server/server.c:106-112 | From the start a writer, a reader and a second writer reach such a state: the lock is free, and reader and second writer both sleep. |

## Left out

- FileSystem.Fs.Readdir: nothing is said beyond the block number when the wrong block is out of range, some other directory's cached page, or holds an unterminated name or a number that is no inode's; which block it is, is said only if that inode uses its second pointer or no inode but the root has one.
- FileSystem.Fs.Format: only on a file system that fs_new has just made; formatting again keeps old bits set in the source.
- FileSystem.Fs.New: at least the ten metadata blocks; on a smaller disk the source ignores failed block operations.
- FileSystem.Fs.LookupPath: for a path without components the number returned is whatever the caller's variable held, as in the source.
- BlockStore.Blocks.New: the product of number and size of blocks does not wrap around.
- BlockCache.BCache.Read: the counter behind the LRU stamps is unbounded, so its wrap-around is not modelled.
- DirCache.DCache.Read: asks that no other directory has the block cached; `FileSystem.Fs.NoMetaCached` and `Represent.OneOwner` show that callers keep to it.
- Service.Handle: handlers receive well-formed C strings with a component to look up; handlers run one at a time, so concurrent readers inside the caches are not modelled.
- Replicas.Replay: requests that ask for more than one page of entries, such as those of my_listdir, are left out of the network model, because they can end a server; `Service.Handle` covers them for a single one.
- Replication.Client.RemoteCall: one client, at least one server, no lost or doubled datagrams, deterministic handlers, unbounded serial numbers; handler calls that happen while the client is sending are placed at its next reception.
- MyFile.Open: the path has a component; the list of open descriptors and its limit are not modelled, nor that a path of 200 bytes or more overflows a buffer before it is refused.
- MyFile.OpenFile.Read: errors of the transport are not modelled; a request fails only if the server refuses it.
- ThreadQueue.Library.DeleteQueue: freed elements are only recorded as such, and the threads it also frees, which the scheduler never leaves in such a queue, are not.
- UserThreads.Scheduler.Dispatcher: thread records are entries of a table, without addresses; the list of blocked threads, kept in the source for the dump only, is omitted.
- UserThreads.Scheduler.JoinThread: the value that join hands over is omitted, because exit stores it in the joiner while join reads it from the other thread.
- UserThreads.Scheduler.AcquireLock: a thread that blocks needs another one that is ready, as in the source, and no clock interrupt falls inside a library call.
- RwLock.WritersExclude: nothing is claimed about starvation.
- RwLock.SignalOutcome: for an empty monitor queue; with threads queued the outcome depends on them.
- Sockets, signals, timers, stack switching, failing malloc, printing and dumps.
- The request ring between producer and consumers, the pthread variant, message formats beyond what they cut off, my_listdir, my_mkdir and my_close.
- fs_copy, which the source does not implement, and loading or storing a disk image.
