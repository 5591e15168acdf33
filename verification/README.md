# A verified model of the network file system

The system is a network file system: a naming server keeps one trie of paths per
storage server behind a small LRU cache, storage servers hold the files, and
every storage server is mirrored on two others. This project models its hard
parts in Dafny and proves what they promise over all inputs, all runs and all
reachable states.

| file | part of the system |
|---|---|
| `Paths.dfy` | path strings and their components, for the naming server and for the operating system |
| `PathSets.dfy`, `Tries.dfy` | prefix-closed path sets, and the heap trie that represents them |
| `Cache.dfy`, `LruOrder.dfy` | the LRU queue in its array, and what it holds after any lookups |
| `Metadata.dfy` | lookups, creates, removes, registrations and re-indexes as a state machine |
| `TableLaws.dfy` | what a search finds after each command |
| `Ownership.dfy` | who owns a path over every run, and exactly which runs keep the cache coherent |
| `Uncached.dfy` | the same without a cache, and why no client can tell |
| `TrieTables.dfy`, `NamingServer.dfy` | the same on the heap: cache and tries as mutable objects |
| `Locks.dfy`, `LockProtocol.dfy`, `LockTable.dfy` | the readers / writer / deleter lock, its protocol for any number of threads, and the lock table |
| `LockLaws.dfy`, `LockRequests.dfy` | who gets in and who is woken, told of threads, and exclusion told of requests |
| `Files.dfy`, `Wire.dfy`, `TreeCopy.dfy` | trees, file systems, message texts, and both ends of the tree copy as functions |
| `CopyProtocol.dfy`, `Streams.dfy` | the copy as two processes and a channel, and its loops |
| `StreamLaws.dfy` | what is sent when acknowledgements are missing, and the texts themselves |
| `Conflicts.dfy` | what a copy does when it meets an entry of the other kind |
| `LocalCopy.dfy` | the copy within one server, reading from the disk it writes to |
| `Listing.dfy`, `Reassembly.dfy`, `Indexer.dfy` | the recursive lister, the byte stream and its reassembly, and the trie at the end |
| `MirrorPaths.dfy` | the routes by which a path reaches its mirror |
| `Disks.dfy`, `Replication.dfy` | disks, backup commands in flight, mirrors and the index |
| `DiskLaws.dfy`, `ReplicationLaws.dfy` | what a command leaves on a disk, and that it reaches both backups |
| `Placement.dfy` | choice of backups at registration, and failover |
| `Deployment.dfy` | from registrations through the initial copies to exact mirrors and an exact index |
| `Routing.dfy` | the naming server's part in replication |
| `ListPacker.dfy` | packing a folder listing into messages |
| `Collections.dfy` | facts about finite sets and sequences |

`dafny verify dfyconfig.toml` checks everything.

How the parts fit together:

- The heap trie refines a prefix-closed set of paths (`Tries.Trie`), the cache
  array refines a queue (`Cache.LRUCache`), and the naming server that owns both
  (`NamingServer.Server`) refines the state machine of `Metadata`, for which
  coherence and unique ownership hold over every run. So the heap server picks,
  request by request, the storage servers that a search without a cache picks
  (`NamingServer.Server.Serve`). Ownership needs no coherence and holds over
  every run (`Ownership.UniqueOwnership`, `NamingServer.Server.ServeAny`).
- The lister's stream, cut anywhere, is reassembled into the lines that were
  listed, and adding them to the heap trie yields exactly the visible tree
  (`Indexer.IndexingExact`, `Indexer.IndexNewServer`).
- A tree sent between servers is rebuilt exactly, whatever its contents look
  like and however content is split (`CopyProtocol.CopyCorrect`), and every
  transfer that meets a conflict has a known fate (`CopyProtocol.CopyFate`). The
  local copy means the same (`LocalCopy.RoutesAgree`), and backup copies end up
  at the mirror path (`MirrorPaths.CopyReachesMirror`).
- Backup commands in flight complete each mirror to the primary's tree
  (`Replication.ReplicationCorrect`), so index, primary and mirror agree once
  the channels are empty (`Replication.ThreeCopiesAgree`). Placement provides the
  two distinct backups this needs, the copies it orders make the exact mirrors to
  start from, and the listings an exact index if and only if every shown folder
  is within the fan-out limit (`Deployment.CopiesMakeFresh`). The index is that
  of the naming server (`Routing.RunIsPlain`).

Where the code does not meet a property on all inputs, the exact condition is
proved:

- A create caches its path before the outcome is known and without looking for
  an existing entry (`naming_server.c:851`). `Metadata.CreateExact` says exactly
  when coherence survives, `Ownership.CoherenceExact` says so for whole runs, and
  `Metadata.TouchExistingDuplicates` shows the failing family; after every failed
  create of a new path a lookup still answers (`TableLaws.CreateIsAnswered`).
- A shown folder with more than 256 visible entries is not indexed completely
  (`Listing.IndexMeaning`, `Replication.IndexedTracks`,
  `Replication.CreateTracks`); 257 files are enough
  (`Listing.OverfullFolderIsCut`, `Replication.OverfullServer`).
- A copy onto an existing entry of the other kind does not graft the tree
  (`CopyProtocol.CopyExactly`, `LocalCopy.CopiedExactly`). Over the network it
  deadlocks if and only if a file with content meets a folder or lies below a
  file: the receiver acknowledges the size, gives the file up and takes the
  content for a header, and the sender waits for ever
  (`Conflicts.CompletesExactly`, `Conflicts.ConflictDeadlocks`,
  `Conflicts.FileOntoFolder`, `Conflicts.FolderOntoFile`). Where that content
  begins with `END` and a newline, the receiver closes the connection instead and
  the sender does not wait (`Conflicts.EndMarkerCuts`). Where it begins with
  `FILE ` or `DIR `, timing can decide (`Conflicts.TimingDecides`).
- A file or folder copied by copysame into the folder where it lies loses the
  content of every file (`LocalCopy.SelfCopy`, `LocalCopy.CopyOntoItself`).
- A write whose file cannot be opened returns with the lock held
  (`storage_server.c:57-62`, `storage_server.c:113-119`).
  `LockProtocol.EveryRequestServed`, `LockProtocol.AbandonedLockIsDead` and
  `LockProtocol.AbandonedRun` say what follows.
- A mirror that held something the primary lacks, or something of the other kind,
  is not exact after the initial copy, and in the second case the copy may hang
  (`Deployment.InitialCopyExact`, `Deployment.StaleFileStays`,
  `Deployment.FolderInTheWay`, `Deployment.FolderInTheWayHangs`).
- With fewer than three servers, or a server down together with both its
  backups, failover finds nothing (`Placement.RedundantExact`).

Documentation and code disagree in two places, and the model follows the code:
the README of the system calls the backup folder `backupforss`, the code uses
`backupfolderforss`; and `naming_server.c:107` spells it `backfolderforss` in a
`mkdirb` command that has no part in the mirror paths.

## Model

| member | source | states |
|---|---|---|
| `Paths.SplitConcat` | tries.c:115-131 | parsing is a homomorphism: the components of `a/b` are those of `a` followed by those of `b`, for every set of skipped components |
| `Paths.ParsePath` | tries.c:115-131 | the token loop yields the components between slashes without empty ones and `~` |
| `Paths.ParseJoin` | tries.c:115-131 | round trip: joining names with slashes and parsing gives the names back |
| `Paths.CanonicalInjective` | naming_server.c:295-302 | on canonical paths the cache's string comparison and the trie's component comparison agree |
| `Paths.CutLastIsParent` | naming_server.c:830-834 | cutting a canonical path at its last slash gives the canonical parent, and what was cut off is its last component |
| `Paths.OneComponent` | tries.c:115-131 | a text without slashes is one component, except that the naming server drops the empty one and `~`, and the file system the empty one and `.` |
| `PathSets.AddFromIsAdded` | tries.c:136-164 | walking down and extending node by node amounts to: all prefixes are added, or nothing when the deepest existing node is full |
| `PathSets.AddedClosed` | tries.c:136-164 | an add keeps the path set closed under prefixes |
| `PathSets.RemovedClosed` | tries.c:256-279 | a delete keeps the path set closed under prefixes |
| `PathSets.AddedChild` | tries.c:136-164 | below an indexed parent an add adds exactly one path, or nothing exactly when the parent is full and the path is new |
| `Tries.TrieNode.constructor` | tries.c:5-12 | a new node is a leaf with 256 empty slots |
| `Tries.Shape.SiblingsDistinct` | tries.c:142-161 | two slots of a node never hold the same name |
| `Tries.Shape.FullSlots` | tries.c:152-161 | a node has no free slot exactly when the path set has 256 children there, holes included |
| `Tries.Shape.PrunedOk` | tries.c:263-278 | unlinking one slot keeps the tree shape and leaves exactly the paths outside the subtree |
| `Tries.Trie.constructor` | naming_server.c:149 | a new root node stands for the empty path alone |
| `Tries.Trie.FindChild` | tries.c:144-150 | the slot loop finds the child of a name if there is one |
| `Tries.Trie.Search` | tries.c:226-253 | search succeeds exactly on the paths of the set |
| `Tries.Trie.SearchComponents` | naming_server.c:335-354 | the naming server's own search loop succeeds exactly on the paths of the set |
| `Tries.Trie.Link` | tries.c:152-161 | a child goes into the first free slot; a full node takes nothing |
| `Tries.Trie.Add` | tries.c:136-164 | the heap trie after an add represents the extended set, shape and leaf flags are kept, only new nodes are taken, and the root slot keeps its name |
| `Tries.Trie.Delete` | tries.c:256-279 | the heap trie after a delete represents the set without the subtree, and below a root folder the root slot keeps its name |
| `Tries.Trie.PackedRoot` | naming_server.c:149-150 | after indexing one root folder, slot 0 below slot 0 carries its name |
| `Tries.Trie.ContentsClosed` | tries.c:226-245 | every valid heap trie represents a prefix-closed set |
| `Tries.Trie.RootName` | naming_server.c:164 | the dereference through two first slots is defined and yields the server's root name |
| `Cache.LRUCache.constructor` | naming_server.c:286-292 | the cache starts empty |
| `Cache.LRUCache.Search` | naming_server.c:295-302 | the scan returns the position of the first entry with the key, or -1 |
| `Cache.LRUCache.EvictLru` | naming_server.c:305-313 | the shifting loop drops exactly the front entry and keeps the order of the rest |
| `Cache.LRUCache.Add` | naming_server.c:316-323 | a new entry goes to the back, after an eviction if the queue is full |
| `Cache.LRUCache.MoveToBack` | naming_server.c:326-332 | the entry moves to the back and the others keep their order |
| `Cache.LRUCache.Delete` | naming_server.c:458-483 | the first entry with the key goes, the others keep their order |
| `LruOrder.RecentKeys` | naming_server.c:486-519 | reference order: each key of a history occurs once |
| `LruOrder.RecentOrder` | naming_server.c:486-519 | reference order: keys are sorted by their last use |
| `LruOrder.LruExact` | naming_server.c:486-519 | for every capacity, after any lookups over fixed tries the queue is exactly the last `capacity` distinct answered keys by last use, each with the index the tries give |
| `Metadata.FirstMatch` | naming_server.c:356-363 | the first server in order whose trie holds the path, or -1 if none does |
| `Metadata.OwnerIsUnique` | naming_server.c:161-179 | a path of two or more components is found at a server exactly when that server's trie holds it, whatever the order |
| `Metadata.CachedIsUncached` | naming_server.c:486-519 | in a coherent state the cached answer is the search's answer |
| `Metadata.CreateExact` | naming_server.c:829-902 | a create keeps the cache coherent if and only if its key is not cached twice and it is really indexed afterwards; ownership and capacity are always kept |
| `Metadata.RemoveExact` | naming_server.c:917-1036 | a remove keeps the cache coherent if and only if no cached path lies below a deleted one; ownership and capacity are always kept; only the removal of a server's root folder is excluded |
| `Metadata.ReindexExact` | naming_server.c:674-678 | a re-index keeps the cache coherent if and only if no cached path of that server disappears |
| `Metadata.RegisterKeeps` | naming_server.c:161-179 | a registration keeps ownership and coherence; a known root changes nothing |
| `Metadata.StepKeeps` | naming_server.c:829-1036 | every allowed command keeps ownership, coherence and the size bound |
| `Metadata.CacheCoherence` | naming_server.c:486-519 | after every run of lookups, creates of unindexed paths, removes of childless paths, failed removes, registrations, restarts and growing re-indexes, keys are distinct and within capacity, and the cached answer is the uncached one and names the unique owner |
| `Metadata.TouchExistingDuplicates` | naming_server.c:851 | touching an existing cached file leaves its key in the cache twice, for all names |
| `TableLaws.RefusedExact` | naming_server.c:829-849 | among canonical paths only `.` itself is refused |
| `TableLaws.CreateTables` | naming_server.c:829-902 | after a create each server holds what it held, and the new path too if and only if it holds the parent, agrees and has room below it |
| `TableLaws.CreateIsAnswered` | naming_server.c:851 | after a create of a new path a lookup answers the parent's server, whatever that server said; the search answers it if and only if the create succeeded and found room |
| `TableLaws.RemoveTables` | naming_server.c:917-1036 | after a successful remove nobody holds the path or anything below it, and nothing else is gone |
| `TableLaws.RegisterTables` | naming_server.c:161-179 | what lies below a new root is found at the new server and nowhere else, every older table stands, and a known root changes nothing |
| `TableLaws.ReindexTables` | naming_server.c:674-678 | after a re-index a path below that root is found there if and only if it was listed, and every other path as before |
| `TableLaws.DeletedExact` | naming_server.c:458-483 | dropping a cached path takes its entry out and leaves what was before and after it |
| `Ownership.StepSound` | naming_server.c:829-1036 | every canonical command with any verdict, every registration and every re-index keeps unique ownership, even where the cache becomes incoherent |
| `Ownership.UniqueOwnership` | naming_server.c:161-179 | after every run from the empty server: roots differ, a path of two or more components is in at most one trie, and the first match is that trie whatever the order |
| `Ownership.CoherenceExact` | naming_server.c:849-902 | a run is coherent before and after every command if and only if every create, remove and re-index meets its exact condition when it comes |
| `Ownership.LegalIsSafe` | naming_server.c:849-902 | the runs of ordinary use meet these conditions |
| `Uncached.SameStep` | naming_server.c:829-1036 | in a coherent state a command changes tries and roots as it would without a cache |
| `Uncached.CacheInvisible` | naming_server.c:486-519 | over every run that meets the exact coherence conditions, the servers picked through the cache and the tries at the end are those of a naming server without a cache |
| `TrieTables.TrieTable.Search` | naming_server.c:356-363 | the search over the heap tries gives the first match of their path sets |
| `TrieTables.TrieTable.AddAt` | naming_server.c:902 | adding to one server's trie changes that server's set alone; no nodes are shared and every root slot stands |
| `TrieTables.TrieTable.DeleteAt` | naming_server.c:1036 | deleting from one server's trie changes that server's set alone; every root slot stands |
| `TrieTables.TrieTable.Knows` | naming_server.c:161-173 | the comparison through the root slots finds a name exactly when it is registered |
| `TrieTables.TrieTable.Register` | naming_server.c:149-179 | the listing is indexed into a new trie, which is stored exactly when its root name is new |
| `TrieTables.TrieTable.ReindexAt` | naming_server.c:674-678 | a new trie built from the new listing replaces the server's old one |
| `NamingServer.Server.SearchStorageServer` | naming_server.c:486-519 | lookup over cache and heap tries: the answer and the touched cache of the metadata model |
| `NamingServer.Server.Create` | naming_server.c:829-902 | the create branch on the heap refines the metadata model |
| `NamingServer.Server.Remove` | naming_server.c:917-1036 | the remove branch on the heap refines the metadata model |
| `NamingServer.Server.Register` | naming_server.c:149-179 | registration on the heap refines the metadata model |
| `NamingServer.Server.Reindex` | naming_server.c:674-678 | re-indexing on the heap refines the metadata model |
| `NamingServer.Server.Handle` | naming_server.c:829-1060 | one request of any kind on the heap: its effect on the tables and the server picked |
| `NamingServer.Server.Serve` | naming_server.c:829-1060 | every run of requests on cache array and heap tries that meets the exact coherence conditions picks the servers, and ends with the tables, of the cacheless specification |
| `NamingServer.Server.ServeAny` | naming_server.c:829-1060 | every run of canonical requests on cache array and heap tries keeps unique ownership, coherent or not |
| `Locks.FileLock.constructor` | lock.c:6-13 | a new lock has no reader, writer or deleter |
| `Locks.FileLock.TryRead` | lock.c:22-33 | a reader enters exactly when nobody writes or deletes |
| `Locks.FileLock.TryWrite` | lock.c:50-64 | a writer enters exactly when nobody reads, writes or deletes |
| `Locks.FileLock.TryDelete` | lock.c:75-88 | a deleter enters exactly when nobody reads, writes or deletes |
| `Locks.FileLock.ReleaseRead` | lock.c:36-47 | the last reader wakes one waiter, the others nobody |
| `Locks.FileLock.ReleaseWrite` | lock.c:67-72 | a writer wakes one waiter |
| `Locks.FileLock.ReleaseDelete` | lock.c:91-96 | a deleter wakes all waiters |
| `LockProtocol.StepKeeps` | lock.c:22-96 | every step of any number of threads keeps: the counters count the threads inside, and waiters imply a holder or a woken thread |
| `LockProtocol.MutualExclusion` | lock.c:22-96 | in every run two threads are inside together only as readers, and `readers` is the number of readers inside |
| `LockProtocol.RankDecreases` | lock.c:22-96 | every step but a spurious wake-up lowers the rank of unfinished threads, then arriving and woken ones |
| `LockProtocol.EveryRequestServed` | lock.c:22-96 | every run of n requests without spurious wake-ups has at most n(n+2) steps, and where it can go no further all requests are served if and only if no holder returned without releasing |
| `LockProtocol.AbandonedLockIsDead` | storage_server.c:57-62 | after a holder returned without releasing no further request is ever served |
| `LockProtocol.AbandonedRun` | storage_server.c:46-62 | a failing run: the first writer cannot open its file, and the second can never go on |
| `LockProtocol.Perform` | lock.c:22-96 | the lock object follows every step of the protocol |
| `LockLaws.AttemptExact` | lock.c:22-88 | in every safe state a thread about to enter gets in if and only if nobody is inside, or it reads and so does everybody inside; nobody else moves |
| `LockLaws.ReleaseExact` | lock.c:36-96 | who is woken by a release, told of the threads: one waiter by a writer and by the last reader inside, none by an earlier reader, all by a deleter |
| `LockLaws.ReadersShare` | lock.c:22-33 | for every n there is a run that ends with n readers inside together |
| `LockLaws.WhatCanHappen` | lock.c:22-96 | which steps each thread can take in which phase; a signal may pick any waiter, and a waiter may wake up at any time |
| `LockTable.Table.LookupOrInit` | storage_server.c:24-53 | the table keeps distinct paths with distinct locks at stable indices and grows by one fresh lock for an unknown path |
| `LockTable.Table.Follow` | storage_server.c:46-53 | table and lock objects follow every arrival and every lock step of the system |
| `LockTable.EventKeeps` | storage_server.c:46-53 | every arrival and every lock step keeps the table injective and every lock's invariant |
| `LockTable.PathExclusion` | storage_server.c:24-35 | in every history two threads inside on the same path string are both readers |
| `LockRequests.ThreadsAreRequests` | storage_server.c:24-53 | for every history the threads on a path's lock are, in order and kind, exactly the requests for that path, filtered from the history alone |
| `LockRequests.RequestsExclude` | storage_server.c:46-53 | of two different requests for one path, one of them a writer or deleter, at most one is inside |
| `LockRequests.RequestHasThread` | storage_server.c:24-53 | every request of a history has its thread, of the kind asked for, on the lock of the path asked for |
| `LockRequests.FirstIsServed` | storage_server.c:24-53 | the first request of a history, of any kind, can enter at once |
| `Files.GraftMeaning` | helper.c:885-932 | path by path: the walk's effect is the tree at and below the target and the old file system elsewhere |
| `Files.AgreesConflictFree` | helper.c:934-949 | if the target has the right kind wherever it has something, no step of the copy meets a conflict |
| `Files.ConflictFreeAgrees` | helper.c:934-949 | if no step of the copy meets a conflict, the target has the right kind wherever it has something |
| `Wire.ScanLine` | helper.c:1027-1029 | a word without white space is read back whole from its line |
| `Wire.ReadSize` | helper.c:951-961 | the decimal size line is read back as the size |
| `TreeCopy.TargetResolves` | helper.c:1051-1070 | both receiver variants resolve a header to base plus relative path, with or without stripping `./` |
| `TreeCopy.FollowChunks` | helper.c:966-1002 | content sent in chunks of at most 1024 bytes is written completely, with one acknowledgement a chunk |
| `TreeCopy.FollowScript` | helper.c:774-832 | decoding the message script of any tree, whatever it meets at the destination: everything arrives, or the transfer goes astray at the first file with content that cannot be opened |
| `TreeCopy.FollowGraft` | helper.c:811-829 | without conflicts the script grafts exactly that tree: every message is understood, every parent exists before its child, every operation succeeds |
| `CopyProtocol.OneOutstanding` | helper.c:760-772 | with or without conflicts, at most one message or acknowledgement is outstanding, acknowledgements are exact, and neither side fails |
| `CopyProtocol.StepKeeps` | helper.c:794-829 | every step of sender and receiver, and every split of content, keeps the protocol invariant, up to the end, to a jam or to a connection closed too early |
| `CopyProtocol.RankDecreases` | helper.c:857-879 | every step of every transfer whatsoever lowers the remaining work |
| `CopyProtocol.CutAnyway` | helper.c:970-985 | however the bytes of a chunk are cut on the way, they can be received piece by piece, to the same effect as at once |
| `CopyProtocol.EveryRunEnds` | helper.c:857-879 | every run is bounded by the work of its script, with or without conflicts |
| `CopyProtocol.NoDeadlock` | helper.c:1012-1076 | until both ends have finished, or the sender has found the connection closed, some step is possible, unless the transfer has jammed |
| `CopyProtocol.CopyCorrect` | helper.c:774-1076 | every run of a conflict-free copy is bounded, never stuck before the end, and ends with the destination equal to the old one with the source grafted, nothing else changed |
| `CopyProtocol.CopyFate` | helper.c:957-964 | every run that cannot be continued, conflict or not: both ends have finished, or the receiver took content for the end marker and closed the connection so that the sender gave up, or the sender waits for ever |
| `CopyProtocol.CopyExactly` | helper.c:934-1010 | a finished run has grafted the tree if and only if no existing entry was of the other kind |
| `Conflicts.SentOpens` | helper.c:959-964 | everything arrives if and only if, path by path, no file with content meets a folder and nothing on the way to it is a file; contents do not matter otherwise |
| `Conflicts.CompletesExactly` | helper.c:857-879 | every run that cannot be continued has completed if that holds, and only if unless a file that cannot be opened looks like a header; otherwise the sender waits for ever unless such a file looks like the end marker |
| `Conflicts.ConflictDeadlocks` | helper.c:871-879 | a transfer in which a file with content meets a folder or lies below a file is bounded, never completes, and ends with the sender waiting for an acknowledgement; only files that cannot be opened need look like no header |
| `Conflicts.FileOntoFolder` | helper.c:957-964 | a failing input: a file holding `x` sent onto a folder of the same name, for all names |
| `Conflicts.FolderOntoFile` | helper.c:934-941 | another: a folder with a file holding `x` sent onto a file of the same name |
| `Conflicts.EndMarkerCuts` | helper.c:1046-1049 | content beginning with `END` and a newline that nobody opened a file for: the receiver finishes and closes, nothing is copied, and the sender does not wait |
| `Conflicts.TimingDecides` | helper.c:1051-1073 | content that nobody opened a file for and that fills a buffer beginning with `DIR `: one run of the transfer completes and another cannot, so no condition beforehand decides |
| `Streams.Outbox.SendFile` | helper.c:835-882 | header, size and content chunks, each followed by its acknowledgement; the first one that is missing or wrong stops the file |
| `Streams.Outbox.SendDirectory` | helper.c:885-932 | header and entries in order, whatever the acknowledgements are; a failed header stops the folder, a failed entry does not stop the next |
| `Streams.AckedWalk` | helper.c:835-932 | with every acknowledgement good, what is sent is exactly the pre-order walk |
| `StreamLaws.StoppedFile` | helper.c:835-882 | with the first bad or missing acknowledgement at position i, a file is the first i + 1 messages of its walk and nothing more |
| `StreamLaws.EveryEntryAnnounced` | helper.c:885-932 | once a folder is acknowledged every entry in it is announced, whatever becomes of the others; before, none is |
| `StreamLaws.OnlyTheWalk` | helper.c:835-932 | whatever the acknowledgements are, what is sent is part of the walk, in its order |
| `StreamLaws.ReadNextDigit` | helper.c:951-961 | a size line with one more digit is ten times the number plus the digit |
| `StreamLaws.SmallScript` | helper.c:774-932 | the six messages for a folder with one short file, spelled out |
| `Streams.Inbox.RecvChunk` | helper.c:970-985 | however `recv` splits it, the chunk loop collects exactly the bytes asked for, or all there are if the connection ends before |
| `Streams.ReceiveContent` | helper.c:966-1002 | exactly `size` bytes are written and the rest is left unread; if the connection ends before, exactly the full chunks are written; one acknowledgement a chunk |
| `LocalCopy.CopiedIsGraft` | helper.c:522-555 | a conflict-free local copy is the graft |
| `LocalCopy.CopiedExactly` | helper.c:490-555 | the local copy grafts the tree if and only if there is no conflict |
| `LocalCopy.Disk.CopyFile` | helper.c:490-520 | the file copy reads the source from the disk it writes to: the content is placed, nothing happens when a file cannot be opened, and a file copied onto itself is emptied |
| `LocalCopy.Disk.CopyDirectory` | helper.c:522-555 | the recursive copy loop, reading from the disk it writes to |
| `LocalCopy.Disk.CopySame` | helper.c:557-589 | copysame places the source at destination/basename; a missing source is refused |
| `LocalCopy.NothingToRead` | helper.c:522-555 | a missing source folder leaves an empty folder where one could be made, a missing source file nothing |
| `LocalCopy.LiveIsCopied` | helper.c:490-555 | as long as nothing written comes to lie in the source, reading it while writing is reading it beforehand |
| `LocalCopy.OutsideIsClear` | helper.c:569-579 | so it is for a destination outside the source from which the copy does not reach back into it |
| `LocalCopy.SelfCopy` | helper.c:490-555 | a copy into the folder where the source lies empties every file of it, path by path, and changes nothing else |
| `LocalCopy.CopyOntoItself` | helper.c:557-589 | so it leaves the disk alone if and only if every file of the source was empty |
| `LocalCopy.SentIsCopied` | helper.c:490-555 | conflicts included, what arrives over the network is what the local copy leaves, as long as the transfer ends |
| `LocalCopy.RoutesAgree` | naming_server.c:637-650 | every run of copydifferent, announcing its source with the sender's own skip, that completes, with or without conflicts, leaves the file system that copysame leaves when it reads the same tree from the disk it writes to |
| `Listing.VisibleSetIff` | helper.c:452 | a path is listed exactly when it is in the tree below the root and has no hidden component |
| `Listing.DotHides` | helper.c:452 | an entry contributes no line if its name starts with a dot, and otherwise at least its own path |
| `Listing.IndexMeaning` | helper.c:432-477 | indexing makes the trie hold exactly the root's prefixes and the visible tree, whatever part it held before, if and only if no folder that is shown shows more than 256 entries |
| `Listing.IndexableExact` | tries.h:10 | a visible tree fits a trie if and only if no folder that is shown shows more than 256 entries; what is inside hidden folders does not count |
| `Listing.OverfullFolderIsCut` | tries.c:152-161 | a failing input: a folder of 257 files is not indexed completely |
| `Listing.ManyFilesIndexable` | tries.h:10 | a folder of n files is within the limit if and only if n is at most 256 |
| `Listing.AddedNarrow` | tries.c:152-161 | no add ever gives a node more than 256 children |
| `Reassembly.AbsorbConcat` | naming_server.c:67-95 | a line that straddles two pieces is completed by the second; the end marker stops everything after it |
| `Reassembly.ReceiveWhole` | naming_server.c:56-103 | however the stream is cut, without overflow of the buffer the pieces yield what the whole stream yields |
| `Reassembly.StreamDecodes` | helper.c:479-488 | the lines come back from the stream up to the end marker, whatever follows |
| `Reassembly.MarkedIff` | naming_server.c:75-79 | the end marker counts wherever it stands in a line |
| `Reassembly.FeedCuts` | naming_server.c:65 | the buffer takes as much of a piece as leaves it at 2047 characters |
| `Indexer.Lister.IndexSubFolders` | helper.c:432-477 | the recursive lister sends the folder, then each visible entry followed by its own listing |
| `Indexer.Lister.IndexSubFolder` | helper.c:479-488 | the listing is followed by the end marker |
| `Indexer.AddCompleteLines` | naming_server.c:70-95 | the inner loop adds exactly the complete lines to the heap trie and keeps the partial one |
| `Indexer.IndexHelper` | naming_server.c:56-103 | the receive loop, with its truncating buffer, adds exactly the received lines to the heap trie |
| `Indexer.ListingArrives` | naming_server.c:56-103 | for every cutting that fits the buffer the lines received are the lines listed |
| `Indexer.IndexingExact` | naming_server.c:56-103 | lister, stream, reassembly and trie together: exactly the visible tree, if and only if no folder that is shown shows more than 256 entries |
| `Indexer.ListedRooted` | naming_server.c:149-150 | what listing `./root` leaves in a new trie is rooted there, as ownership requires, for every tree, also where a full node has cut it |
| `Indexer.IndexNewServer` | naming_server.c:149-150 | a registering server's heap trie holds what its listing leaves, its root slot holds its name, and it is exactly the visible tree if and only if no folder that is shown shows more than 256 entries |
| `MirrorPaths.ProperResolves` | storage_server.c:380-381 | a canonical path without dots resolves to its components after `.`, with or without its `./` |
| `MirrorPaths.RootSkip` | helper.c:811-814 | a root folder sent to a backup keeps its full path |
| `MirrorPaths.SkipToName` | helper.c:811-822 | what an ordinary copydifferent announces for its source is the source's base name, for every source |
| `MirrorPaths.SkipBelow` | helper.c:811-822 | and for everything below the source the base name followed by the rest of the path |
| `MirrorPaths.SkipForBackup` | helper.c:1179-1182 | copydifferentb drops the folders before the base name, except that a root folder keeps its full path |
| `MirrorPaths.RoutesAgree` | helper.c:811-822 | `*b` commands, first copy, lcopy and copydifferentb all put a path at `./backupfolderforss/B/` plus the path without `./` |
| `MirrorPaths.CopyReachesMirror` | naming_server.c:685-690 | a finished backup copy over the wire has grafted its source at the mirror path |
| `Disks.SucceedsAgree` | helper.c:145-206 | a command succeeds on a mirror exactly when it succeeds on what is mirrored |
| `DiskLaws.OnlyThere` | helper.c:145-206 | no command changes any other path, and one that fails changes nothing |
| `DiskLaws.FolderTakes` | helper.c:154 | a folder takes a new folder or file under every missing name, and nothing else takes either |
| `DiskLaws.FolderMade` | helper.c:154 | what mkdir makes is a folder: it cannot be made again or opened, and it takes folders and files |
| `DiskLaws.FolderRemoved` | helper.c:176 | mkdir followed by rmdir or remove gives back the disk |
| `DiskLaws.FileTouched` | helper.c:197 | a touched file is there and empty, also if it was there before, and nothing can be made below it |
| `DiskLaws.TouchUndone` | helper.c:284 | touch of a new path followed by remove gives back the disk |
| `DiskLaws.RemovalExact` | helper.c:176 | a folder can be removed if and only if nothing is in it; what is removed is gone |
| `Replication.StorageServer.Listen` | storage_server.c:376-416 | the loop over backup commands leaves the replayed disk, and reports no failure exactly when every command succeeds in turn |
| `Replication.StepKeeps` | naming_server.c:877-902 | every client command and every delivery keeps: commands in flight complete each mirror to the primary's tree, and none of them fails |
| `Replication.ReplicationCorrect` | naming_server.c:995-1036 | in every reachable state the commands in flight complete every mirror and will succeed; an empty channel means an exact mirror |
| `Replication.Drains` | storage_server.c:376-416 | a channel can always be drained, and then the mirrors behind it are exact |
| `Replication.RemoveTracks` | naming_server.c:1036 | the subtree delete in the trie matches the disk's remove, since what is removed has nothing below it; hidden files may lie beside it |
| `Replication.CreateTracks` | naming_server.c:902 | a create keeps the trie equal to the shown part of the disk if and only if the path is not new, is hidden, or its folder is not full in the trie |
| `Replication.IndexStep` | naming_server.c:877-902 | a step keeps every server's trie equal to the shown part of its disk if and only if a new shown path finds a free slot |
| `Replication.RunIndexed` | naming_server.c:877-902 | over a run the index is exact before and after every step if and only if every new shown path found a free slot when it came |
| `Replication.IndexedTracks` | helper.c:452 | what the lister's lines leave in a new trie is an exact index of the disk, whatever hidden entries it holds, if and only if no folder that is shown shows more than 256 entries |
| `Replication.OverfullServer` | tries.c:152-161 | a failing input: a server with 257 files in its root folder |
| `Replication.ThreeCopiesAgree` | naming_server.c:877-902 | with the channel drained, primary and mirror hold the same at every path below the root, and a shown path is in the trie exactly when it is there |
| `ReplicationLaws.ClientActs` | naming_server.c:877-1036 | a command takes effect, at its path alone, if and only if its server is found and its disk can perform it, and then goes to the first and second backup and nobody else |
| `ReplicationLaws.ReachesBackups` | storage_server.c:376-416 | once the channel is drained both backups hold at the mirror path what the command left at the primary |
| `Routing.PicksPrimary` | naming_server.c:829-849 | the server that serves a command is the one a search of the tries picks, or none |
| `Routing.ClientIsPlain` | naming_server.c:877-902 | a client command changes the tries as it does in the metadata model, with the storage server's verdict |
| `Routing.RunIsPlain` | naming_server.c:829-1036 | over every run of the replicated system the tries are those of the cacheless naming server, and ownership stays unique |
| `Routing.ListingsOwned` | naming_server.c:149-179 | the listings of servers with different roots are where ownership starts, also where a full node has cut them |
| `Placement.RegisterKeeps` | naming_server.c:161-218 | a registration, new or repeated, keeps names distinct and every server backed up from the third server on |
| `Placement.EveryServerBackedUp` | naming_server.c:186-214 | for every table size and history, with three or more servers each has two distinct backups other than itself and a full copy was ordered to each |
| `Placement.PlacementExact` | naming_server.c:186-214 | after every history with three or more servers: which two backups each server has, by its place in the order of registration, and a full copy was ordered between two servers if and only if they are at most two places apart |
| `Placement.ComesBack` | naming_server.c:161-173 | a server that registers again is up, keeps its backups, and changes nothing else |
| `Placement.NewcomerStored` | naming_server.c:175-179 | a new server is stored last and is up if there is room; otherwise nothing changes |
| `Placement.CrashAndRecover` | naming_server.c:365-420 | a crash or recovery concerns one server, and only whether it is up |
| `Placement.RedundantExact` | naming_server.c:435-456 | no server is found if and only if the server and both its backups are down, or it is down and there are fewer than three; a found one is up |
| `Placement.FirstLive` | naming_server.c:435-456 | the answer is the first live one of the server itself, its first and its second backup, and never anything else |
| `Placement.TwoCrashes` | naming_server.c:1064-1068 | in every reachable state with at most two of three or more servers down, a live server is found |
| `Placement.Table.Place` | naming_server.c:186-214 | the placement assignments and the ordered copies |
| `Placement.Table.Register` | naming_server.c:161-218 | name check, store and placement on the fixed-size table refine the registration step; without room nothing is stored, and the index is incremented all the same |
| `Placement.Table.RedundantSS` | naming_server.c:435-456 | the failover search on the table |
| `Deployment.PlacementServes` | naming_server.c:186-214 | every placement reached by registrations meets what replication requires |
| `Deployment.BackupsOf` | naming_server.c:186-214 | the backups that replication sends to are the two that placement wrote down |
| `Deployment.InitialCopyBacks` | naming_server.c:116-124 | every run of a conflict-free first copy to a backup, taken as far as it goes, places the server's tree at its mirror path |
| `Deployment.InitialCopyExact` | storage_server.c:712-714 | every run of the first copy, taken as far as it goes, makes an exact mirror if and only if the old mirror, which is never removed, held nothing that the primary lacks and nothing of the other kind |
| `Deployment.MirrorNeedsClearing` | storage_server.c:712-714 | otherwise the mirror is exact in no state of any run |
| `Deployment.StaleFileStays` | storage_server.c:712-714 | a failing input: a file of the old mirror that the primary has removed meanwhile |
| `Deployment.FolderInTheWay` | helper.c:959-964 | another: a folder of the old mirror where the primary has a file now |
| `Deployment.FolderInTheWayHangs` | helper.c:871-879 | and there the copy ends with the sender waiting |
| `Deployment.CopiesMakeFresh` | naming_server.c:186-214 | after every history of registrations the copies it ordered, each run in any way as far as it goes, make every mirror exact on disks whose old mirrors are in nobody's way; and what the listings leave is an exact index of every server if and only if no folder that is shown shows more than 256 entries |
| `Deployment.HistoryInRange` | naming_server.c:186-214 | every copy a history orders is between two different servers it registered |
| `ListPacker.ListFile` | helper.c:234-269 | the sends together are the lines in order, no line is split, each send is under 1024 bytes, and a send happens only when the next line does not fit |
| `ListPacker.FormatShows` | helper.c:245-252 | a line is the colour of the entry's kind, its name and the reset code |
| `ListPacker.FormatInjective` | helper.c:245-252 | name and kind can be told from the line |

## Left out

- NamingServer.Server.Create: paths have fewer than 256 components, because `ParsePath` fills an array of 256 entries without a bound check.
- NamingServer.Server.Remove: successful removes have between 3 and 255 components; removing a server's root folder would break the root-slot chain that the code dereferences.
- TrieTables.TrieTable.DeleteAt: as NamingServer.Server.Remove.
- Metadata.RemoveExact: a successful removal of a server's root folder is excluded, because the server would then own nothing and its trie would have no root slot.
- NamingServer.Server.Register: an eleventh new server is not modelled; the code then still increments the index past the table. The listing must be rooted in one folder below `.`, which `Indexer.IndexNewServer` proves of a lister's stream.
- NamingServer.Server.SearchStorageServer: only the returned index matters; the ping of `naming_server.c:498`, which re-reads a slot after the shift, is not modelled.
- Metadata.CacheCoherence: commands are sequential, paths canonical (rooted at `.`, no empty or `~` component, no trailing slash), creates that reach a server succeed on unindexed paths with room, removes are of childless paths, re-indexes grow; `Ownership.CoherenceExact` gives the exact condition for every other run. Concurrent client threads on the cache (`naming_server.c:464`, `naming_server.c:851`, `naming_server.c:938`) are not modelled.
- Ownership.UniqueOwnership: commands are sequential, paths canonical, and a server's root folder is not removed.
- Uncached.CacheInvisible: holds for the runs that `Ownership.CoherenceExact` shows coherent; in others the cache does answer differently.
- NamingServer.Server.Serve: as Uncached.CacheInvisible, within the limits of the fixed-size arrays.
- CopyProtocol.CopyCorrect: delivery is reliable and in order, headers are shorter than 1024 bytes and arrive in one `recv`, names and paths have no white space; only content is split.
- CopyProtocol.CopyFate: says nothing of a file that cannot be opened and whose content begins with `FILE ` or `DIR `, which the receiver takes for a header. Such runs are bounded (`CopyProtocol.EveryRunEnds`) and do not graft the tree (`CopyProtocol.CopyExactly`), but how they come out depends on timing once the content fills a buffer (`Conflicts.TimingDecides`), and on an uninitialised name where no word follows. Content that the header loop reads arrives in one `recv` of up to 1023 bytes: cut elsewhere, a later piece could begin with one of the words. What a sender still sends into a closed connection is not modelled.
- Conflicts.CompletesExactly: as CopyProtocol.CopyFate; the file system is an ordinary one, in which everything lies in a folder.
- Conflicts.ConflictDeadlocks: no content of a file that cannot be opened begins with `FILE `, `DIR `, or `END` and a newline.
- Streams.Outbox.SendDirectory: every entry of the source can be read; entries that are neither files nor folders do not occur.
- LocalCopy.RoutesAgree: the destination exists and is not a backup folder, nothing of the copy comes to lie in the source, and no content of a file that cannot be opened begins with `FILE ` or `DIR `.
- LocalCopy.Disk.CopyDirectory: the order and the kinds in which `readdir` enumerates the source are given as a tree.
- LocalCopy.Disk.CopySame: the source is a file or a folder; the reply to other file types is not modelled.
- Indexer.IndexHelper: paths have fewer than 256 components, for the reason given above.
- Indexer.IndexingExact: no path contains a newline or the end marker, and each piece fits the 2048-byte buffer together with what the previous one left over; bytes beyond that are lost, as in the code.
- Indexer.Lister.IndexSubFolders: paths fit the lister's 2048-byte buffer and folders can be opened.
- LockProtocol.EveryRequestServed: no spurious wake-ups; `sleep` calls have no effect on the protocol.
- LockTable.PathExclusion: looking a lock up and creating it is one step, there are fewer than 1024 distinct paths, and paths are values rather than the pointer kept by `init_lock`.
- Replication.ReplicationCorrect: backups are up and one command is one message; `copy`, whose reply to `copydifferentb` is never read, and writes, whose copy may overtake commands in flight, take no part in the state machine.
- Deployment.CopiesMakeFresh: the trees do not change while the initial copies are made; for the index, no name is `~`, which the parser drops.
- Deployment.InitialCopyExact: the backup folder exists or can be made, and paths and names fit the messages, as for every copy.
- MirrorPaths.RoutesAgree: server roots are single folders below `.`, and `.` and `..` do not occur inside a path.
- Placement.TwoCrashes: whether a server is up is given by an oracle; the socket exchange of `isSSUp` is not modelled. Which data a backup serves after failover is not modelled either, because the client resends the original path.
- ListPacker.ListFile: every formatted line is shorter than the buffer.
- Socket setup, accept loops, signal handlers, logging and error tables.
- Streaming, playing and pausing, and the formatting of file metadata.
- Printing and counting of tries.
- `write_file_async`, whose buffer starts uninitialised, beyond its locking.
- Memory-level behaviour: `strdup`, `free` and uninitialised buffers; strings are values.
