# CuckooFS metadata core: a verified model

CuckooFS keeps the metadata of a file system in a cluster of PostgreSQL servers: one coordinator and several
workers.  Directories are replicated on every server, inode rows are spread over shards by a hash of their name.
This project models the parts of it that are protocols, or fast forms of something simple, and proves what they
are for.

| files | what they model |
|---|---|
| `TwoPhaseCommit`, `TransactionCleanup`, `RemoteComm`, `EmptyReply` | the distributed commit: coordinator backends, workers, crashes, lost and repeated messages, and the daemon that compares four sets to finish what was left over |
| `Paths`, `PathParse`, `PathLocks`, `BatchLocks`, `PathMeaning`, `OpenWalk` | the order of paths, the walk over a transaction's tree of directories, and the order in which a batch takes directory locks |
| `NamespaceTables`, `Placement`, `Namespace`, `Rename`, `NamespaceRuns`, `MetaHandle` | mkdir, create, unlink, rmdir and rename over replicated directory tables and sharded rows |
| `GroupedCreate`, `ShardedCreate`, `ReadDir` | create shard by shard, in groups with subtransactions and retry; paging through a directory |
| `ShmemBitmap`, `ShmemSizes`, `ShmemAllocator`, `ShmemHeap` | the lock-free allocator over 64-bit page words |
| `RwLock`, `DirHashEviction`, `DirCacheRuns`, `DirCache` | the packed read-write lock, eviction from the directory hash, and the cache in front of the directory table |
| `ReadStream`, `FileLock` | the read-ahead pipeline and the per-inode file lock |
| `ConnectionPool`, `SerializedData`, `BatchReply`, `ShardRouting` | batching of requests, framed serialization, splitting of batch replies, and routing by shard |

Protocols between processes or threads (commit and cleanup, allocator, read-write lock, eviction, read-ahead,
connection pool, file lock) are step relations: a state, one step per atomic action of the code, and theorems over
every run.  Code that runs in one process is a class or a method with the loops of the original, proved against
functions that say what is computed.  PostgreSQL tables are maps, a transaction that raises an error leaves them as
they were, a section under an LWLock or a mutex is one step.  Random choices of the environment (which message
arrives, which entry is evicted, whether there is room) are left open, so the theorems hold for all of them.
Inode ids are taken to be new.  The 32-bit hash of a part id is one function, the same for client and server, and
both read the bytes of a name as signed characters.

Where the code does less than one would expect, the exact condition under which it does what it promises is proved,
with an example next to it:

- Unlink of a directory deletes its row and only then reports an error, so the directory stays in the directory table
  without a row (`Namespace.UnlinkKeepsIff`, `Namespace.UnlinkOfDirectory`).
- Rename ignores the verdict on its paths.  A source with a trailing separator gives the new name the id of the parent
  directory; a destination without the leading separator ends up beside the root (`Rename.RenameSoundIff`,
  `Rename.RenameFromTrailingPath`, `Rename.RenameToRelativePath`).
- Two requests of one batch that miss the same ancestor take its lock twice (`BatchLocks.LocksIncreaseIff`,
  `BatchLocks.TwoLookupsRelock`).
- In a batch of open or close, a request for something that is not a directory lets a later request below it through,
  which alone would be refused (`OpenWalk.AnsweredAsAloneIff`, `OpenWalk.OpenBelowFile`).
- A writer that answers PREPARE with an empty result is skipped and stays without a record
  (`RemoteComm.Backend.RemoteCommandPrepare`); if it has prepared, cleanup rolls back what the coordinator committed
  (`EmptyReply.AgreesIff`, `EmptyReply.EmptyReplyBreaks`).
- The allocator computes offsets in 32 bits, which is right up to 4096 pages (`ShmemSizes.ShiftsDistinctIff`), and
  does not notice a region smaller than its control block (`ShmemSizes.RegionFitsIff`).  The test for a full page
  compares an offset from the start of the region with the page size; it only influences hints.
- Release of a read-write lock drops the newest handle of any mode, also a declaration (`RwLock.ReleaseKeepsIff`,
  `RwLock.ReleaseOfDeclaration`).
- A lookup without a lock reads the id of its entry after it has let the partition go; the entry may be another one by
  then (`DirHashEviction.ReadsOwnIff`, `DirHashEviction.UnlockedReadGoesWrong`).
- A transaction that looks a key up, or makes it, after writing it can leave a wrong answer in the cache when it aborts
  (`DirCacheRuns.AbortCoherentIff`, `DirCache.LookupAfterWriteThenAbort`, `DirCache.MakeAfterRemoveThenAbort`); one
  that writes a key twice without its lock can do so when it commits (`DirCacheRuns.CommitCoherentIff`,
  `DirCache.SecondWriteThenCommit`).
- A buffer that may grow adds sizes in 32 bits.  Beyond 2^31 bytes enlarging it never ends, or, once the sum wraps,
  reports room that is not there (`SerializedData.GrownReachesIff`, `SerializedData.AskGrown`).
- For a path with a trailing separator the client hashes another name than the server
  (`ShardRouting.NamesAgreeIff`, `ShardRouting.PathRoutesIff`, `ShardRouting.TrailingSlashDiffers`).

The initial directory table is empty; a mkdir of the root makes the root, as in the code.

## Model

| member | source | states |
|---|---|---|
| `TwoPhaseCommit.NextKeeps` | cuckoo/transaction/transaction_cleanup.c:294-409 | every step of every backend, server, crash, lost or repeated message and cleanup process keeps the invariant that a commit command exists only for a committed gid, and a rollback command only for a gid that can never commit |
| `TwoPhaseCommit.RunKeepsInv` | cuckoo/distributed_backend/remote_comm_cuckoo.c:336-604 | the invariant holds in every state of every run |
| `TwoPhaseCommit.TakeBKeeps` | cuckoo/transaction/transaction_cleanup.c:261-276 | because set B is taken after set A, a prepared gid missing from B has no backend left that could still commit it |
| `TwoPhaseCommit.TakeCKeeps` | cuckoo/transaction/transaction_cleanup.c:305-402 | because set C is taken after set B, a committed gid that is still prepared still has its record in C |
| `TwoPhaseCommit.TakeDKeeps` | cuckoo/transaction/transaction_cleanup.c:305-402 | because set D is taken after set C, a recorded gid that D lacks is finished on that server for good |
| `TwoPhaseCommit.RunStable` | cuckoo/transaction/transaction.c:142-174 | over any stretch of a run verdicts of servers and coordinators, used gids and processed prepares never go away |
| `TwoPhaseCommit.RunAgrees` | cuckoo/transaction/transaction_cleanup.c:294-409 | in every state of every run no server has committed a prepared gid whose coordinator did not commit, and none has rolled back one whose coordinator did |
| `TwoPhaseCommit.VerdictsAgreeForever` | cuckoo/transaction/transaction_cleanup.c:294-409 | a rollback on a server at any moment and a coordinator's commit at any other moment, earlier or later, exclude each other; a server's commit is followed by the coordinator's commit at every later moment |
| `TwoPhaseCommit.RecordOutlivesPrepared` | cuckoo/transaction/transaction_cleanup.c:305-402 | a record is never deleted while its gid is prepared on that server, nor is the gid ever prepared there again |
| `TransactionCleanup.Daemon.CommitOrRollbackPreparedTransaction` | cuckoo/transaction/transaction_cleanup.c:278-292 | the command finishes exactly that gid on that server, and leaves the network as it was |
| `TransactionCleanup.Daemon.TakeSets` | cuckoo/transaction/transaction_cleanup.c:231-276 | the four sets in the order A, B, C, D; undisturbed, A and D are equal |
| `TransactionCleanup.Daemon.ScanRecord` | cuckoo/transaction/transaction_cleanup.c:305-402 | one record is skipped when in progress, committed when prepared, and otherwise marked for deletion |
| `TransactionCleanup.Daemon.ScanRecords` | cuckoo/transaction/transaction_cleanup.c:305-402 | the first loop commits exactly the recorded, prepared gids that are not in progress and marks exactly the records that are neither prepared nor in progress |
| `TransactionCleanup.Daemon.SweepPrepared` | cuckoo/transaction/transaction_cleanup.c:305-402 | the second loop rolls back exactly the remaining prepared gids that are not in progress |
| `TransactionCleanup.Daemon.CleanupPreparedTransactions` | cuckoo/transaction/transaction_cleanup.c:294-409 | one undisturbed round finishes every prepared gid of this coordinator that is not in progress as the coordinator decided, marks exactly the unneeded records, and changes nothing else |
| `TransactionCleanup.Cleanup2PC` | cuckoo/transaction/transaction_cleanup.c:164-201 | one cleanup transaction over all servers, skipping those that do not answer, is a run of cluster steps that ends with the verdicts of a round over each server reached and the marked records gone |
| `TransactionCleanup.FirstRoundFinishes` | cuckoo/transaction/transaction_cleanup.c:305-402 | with no transaction in progress, one cleanup leaves none of the coordinator's gids prepared on any server it reaches, each finished as decided, and keeps the records of those it committed |
| `TransactionCleanup.SecondRoundForgets` | cuckoo/transaction/transaction_cleanup.c:305-402 | with nothing left prepared on a server, the next cleanup that reaches it empties its records and changes nothing there |
| `TransactionCleanup.CleanupTwice` | cuckoo/transaction/transaction_cleanup.c:164-201 | two cleanups in a row, from any state of the invariant without transactions in progress, leave nothing prepared and no record on every server that answers, with every gid finished as decided, and change nothing for the others |
| `RemoteComm.Backend.GetForeignServerConnection` | cuckoo/metadb/foreign_server.c:417-501 | every broken connection is replaced by one in no transaction and the others keep their state; it is an error exactly when one cannot be opened again |
| `RemoteComm.Backend.CountWriters` | cuckoo/distributed_backend/remote_comm_cuckoo.c:336-421 | the number of distinct servers that wrote, the local one included |
| `RemoteComm.Backend.SendPrepares` | cuckoo/distributed_backend/remote_comm_cuckoo.c:336-421 | PREPARE goes to the writers in an order the protocol accepts; the loop succeeds exactly when all writers could be reached, and then all were sent to |
| `RemoteComm.Backend.FetchPrepareReplies` | cuckoo/distributed_backend/remote_comm_cuckoo.c:336-421 | the records written are exactly those of the writers that answered with success, and these connections become prepared |
| `RemoteComm.Backend.RemoteCommandPrepare` | cuckoo/distributed_backend/remote_comm_cuckoo.c:336-421 | the protocol is entered exactly when all connections are there and two or more servers wrote; on success the local commit is in order if and only if no writer answered with an empty result |
| `RemoteComm.Backend.SendCommits` | cuckoo/distributed_backend/remote_comm_cuckoo.c:423-516 | COMMIT PREPARED goes to a server if and only if its connection is prepared and every connection up to it could be reached |
| `RemoteComm.Backend.FetchCommitReplies` | cuckoo/distributed_backend/remote_comm_cuckoo.c:423-516 | a connection leaves its transaction if and only if it answered with success and no earlier one answered with an error |
| `RemoteComm.Backend.RemoteCommandCommit` | cuckoo/distributed_backend/remote_comm_cuckoo.c:423-516 | after the local commit the messages sent are accepted by the protocol up to its end, and go exactly to the prepared connections reached before the first failure; when a connection cannot be opened again nothing is sent and the gid stays |
| `RemoteComm.Backend.SendRollbacks` | cuckoo/distributed_backend/remote_comm_cuckoo.c:518-604 | ROLLBACK PREPARED goes to exactly the prepared connections that can be reached |
| `RemoteComm.Backend.FetchRollbackReplies` | cuckoo/distributed_backend/remote_comm_cuckoo.c:518-604 | every connection leaves its transaction; success means that no reply was an error |
| `RemoteComm.Backend.RemoteCommandAbort` | cuckoo/distributed_backend/remote_comm_cuckoo.c:518-604 | on abort the messages are accepted by the protocol up to its end; the result says exactly whether every connection was reached and none answered with an error; when a connection cannot be opened again nothing is sent |
| `EmptyReply.OrdinaryCommit` | cuckoo/distributed_backend/remote_comm_cuckoo.c:389-420 | with a record for every PREPARE the local commit is a step of the protocol |
| `EmptyReply.HarmlessKeepsInv` | cuckoo/distributed_backend/remote_comm_cuckoo.c:389-420 | a commit with missing records keeps the invariant when no server without a record is prepared or still has its PREPARE on the way |
| `EmptyReply.HarmfulBreaks` | cuckoo/distributed_backend/remote_comm_cuckoo.c:389-420 | from any other such commit there is a run of cleanup steps that rolls a server back although the coordinator committed |
| `EmptyReply.AgreesIff` | cuckoo/distributed_backend/remote_comm_cuckoo.c:389-420 | after a commit with whatever records there are, servers and coordinator agree in every continuation if and only if no server without a record is prepared or still has its PREPARE on the way |
| `EmptyReply.EmptyReplyBreaks` | cuckoo/distributed_backend/remote_comm_cuckoo.c:393-395 | a run from the initial state in which one of two writers answers with nothing, the coordinator commits, and cleanup rolls that writer back |
| `Paths.PathCmp` | cuckoo/utils/utils_standalone.c:24-41 | the byte loop of pathcmp decides the lexicographic order in which the end of a path comes first, then the separator, then the other bytes; its sign is negative, zero or positive accordingly |
| `Paths.LessIrreflexive` | cuckoo/utils/utils_standalone.c:24-41 | no path sorts before itself |
| `Paths.LessTransitive` | cuckoo/utils/utils_standalone.c:24-41 | the order is transitive |
| `Paths.LessTotal` | cuckoo/utils/utils_standalone.c:24-41 | any two different paths are ordered |
| `Paths.ComponentsOrder` | cuckoo/utils/utils_standalone.c:24-41 | pathcmp orders paths as it orders their lists of components, so a sorted batch walks directories in order |
| `Paths.AncestorFirst` | cuckoo/utils/utils_standalone.c:24-41 | ancestors sort first |
| `Paths.SubtreeContiguous` | cuckoo/utils/utils_standalone.c:24-41 | what sorts between a directory and something below it is below it too |
| `Paths.StringAncestor` | cuckoo/utils/utils_standalone.c:24-41 | being an ancestor as a string is being a prefix as a list of components |
| `PathParse.DescendTree` | cuckoo/utils/path_parse.c:127-233 | a walk keeps what the transaction's tree says true to the directory table and adds only existing directories of the path |
| `PathParse.DescendFailure` | cuckoo/utils/path_parse.c:127-233 | a walk fails as invalid only when the path leads nowhere, and otherwise with a conflict at a directory this transaction removes or moves |
| `PathParse.PathParser.Enter` | cuckoo/utils/path_parse.c:131-233 | stepping into a directory takes its id from the tree, or from the table with a new shared lock |
| `PathParse.PathParser.WalkParents` | cuckoo/utils/path_parse.c:127-233 | the byte loop over the ancestors does what the walk over the components means |
| `PathParse.PathParser.FinishTarget` | cuckoo/utils/path_parse.c:180-285 | a target to be made, to be removed or only named is looked up, locked and entered into the tree as the flags ask |
| `PathParse.PathParser.TreeInsert` | cuckoo/utils/path_parse.c:107-285 | the whole call on the path's bytes returns the code, parent, name and id, and leaves the tree and the locks, of the walk over its components |
| `PathMeaning.ParseParent` | cuckoo/utils/path_parse.c:107-335 | create, stat and unlink find the entry of a path exactly when the directory table leads to its parent, whatever the tree holds from earlier requests |
| `PathMeaning.ParseMkdir` | cuckoo/utils/path_parse.c:187-234 | mkdir reports a missing parent, an existing directory, or success exactly as the directory table answers, and the tree stays true to the table with the new directory |
| `PathMeaning.ParseLeaving` | cuckoo/utils/path_parse.c:239-285 | rmdir finds its directory exactly when it exists and is not the root |
| `PathMeaning.MoveSrcFirst` | cuckoo/metadb/meta_handle.c:1397-1427 | with the source walked first both walks of a directory rename succeed exactly when the source exists, the destination is free and has a parent, and is not below the source |
| `PathMeaning.MoveDstFirst` | cuckoo/metadb/meta_handle.c:1397-1427 | the same exact condition with the destination walked first |
| `OpenWalk.OpenParser.Enter` | cuckoo/utils/path_parse.c:131-168 | a node without a lock is locked by its own id; a missing directory ends the walk |
| `OpenWalk.OpenParser.Finish` | cuckoo/utils/path_parse.c:286-334 | the target gets a shared lock if it is a directory, and otherwise a node without an id, or an error when it must be one |
| `OpenWalk.OpenParser.TreeInsert` | cuckoo/utils/path_parse.c:107-335 | the call with the flag for a shared lock on the target does to tree and locks what the walk over the components says |
| `OpenWalk.VisitMeaning` | cuckoo/utils/path_parse.c:127-168 | a walk gets to a directory if and only if the path leads there or an earlier request left its node in the tree, and every node has the id its path leads to |
| `OpenWalk.OpenMeaning` | cuckoo/utils/path_parse.c:107-335 | the call fails as invalid exactly when the parent is neither a directory nor in the tree; otherwise it returns the ids the directory table gives |
| `OpenWalk.OpenEach` | cuckoo/metadb/meta_handle.c:694-745 | the loop of open and of close over a batch answers each request in the tree its predecessors left |
| `OpenWalk.CodeAt` | cuckoo/metadb/meta_handle.c:694-745 | a request of a batch gets through if and only if its parent is a directory or an earlier request that got through asked for the parent |
| `OpenWalk.AnsweredAsAloneIff` | cuckoo/metadb/meta_handle.c:694-745 | every request is answered as it would be alone if and only if none asks for an entry below something that is not a directory and that an earlier request asked for in an existing directory |
| `OpenWalk.DifferentAnswer` | cuckoo/utils/path_parse.c:286-334 | a request answered differently goes on, in a directory without an id, instead of being refused |
| `OpenWalk.OpenBelowFile` | cuckoo/utils/path_parse.c:286-334 | opening /a, which is not a directory, and /a/b in one batch: the second walk succeeds |
| `PathLocks.BatchLocksIncrease` | cuckoo/metadb/meta_handle.c:115-147 | the locks a sorted batch takes on one server never go down in the order, and strictly increase if and only if no lock is that of a directory found missing twice |
| `BatchLocks.LocksIncreaseIff` | cuckoo/metadb/meta_handle.c:115-147 | said of the requests and the directory table alone: the locks strictly increase if and only if no two requests miss the same ancestor |
| `BatchLocks.ResolvedBatchWaits` | cuckoo/utils/path_parse.c:127-233 | when all ancestors resolve the locks strictly increase, so at each one the batch waits only for a lock above all it holds |
| `BatchLocks.NoDeadlock` | cuckoo/metadb/meta_handle.c:115-147 | any number of batches of mkdir, create, stat and unlink, each anywhere in taking its locks, never wait for each other in a circle when their ancestors resolve |
| `BatchLocks.TwoLookupsRelock` | cuckoo/utils/path_parse.c:131-168 | two lookups below a directory that does not exist take its lock twice |
| `PathLocks.NoWaitCycle` | cuckoo/metadb/meta_handle.c:115-147 | waiters that each wait for a lock above all they hold form no circle |
| `NamespaceTables.AddDirKeeps` | cuckoo/metadb/meta_handle.c:99-383 | making a directory under an existing parent keeps the directories a tree under the root, rows and directories in agreement and inode ids unique |
| `NamespaceTables.RemoveDirKeeps` | cuckoo/metadb/meta_handle.c:1167-1374 | removing a directory that no row has as parent keeps all of it |
| `NamespaceTables.MoveDirKeeps` | cuckoo/metadb/meta_handle.c:1376-1720 | moving a directory to a place not below itself keeps all of it; in particular no cycle appears |
| `NamespaceTables.MoveFileKeepsIff` | cuckoo/metadb/meta_handle.c:1578-1720 | moving a file's row keeps all of it if and only if the new place is below a directory |
| `NamespaceTables.RemoveRowKeepsIff` | cuckoo/metadb/meta_handle.c:965-991 | deleting a row keeps all of it if and only if it is not the row of a directory |
| `NamespaceTables.WrongIdBreaks` | cuckoo/metadb/meta_handle.c:1429-1443 | linking the new name to any other directory's id breaks the tree |
| `Placement.StoresInsert` | cuckoo/metadb/meta_handle.c:312-383 | inserting a row at the shard and part of its name keeps the shards holding exactly the rows by entry |
| `Placement.StoresRemove` | cuckoo/metadb/meta_handle.c:1329-1374 | so does deleting it there |
| `Placement.WorkersSeeAll` | cuckoo/metadb/meta_handle.c:1274-1327 | the scans of all workers over their shards together find an entry below a directory exactly when there is one |
| `Placement.LayoutOfOk` | cuckoo/metadb/shard_table.c:45-84 | every shard table the coordinator builds gives each entry one place, from which the entry is read back, on one of the workers |
| `Namespace.PlanKeeps` | cuckoo/metadb/meta_handle.c:99-383 | a whole batch of mkdir keeps the tables sound unless it meets a file of the same name |
| `Namespace.MkdirStays` | cuckoo/metadb/meta_handle.c:99-285 | a batch of mkdir leaves every existing path leading to the same directory |
| `Namespace.MkdirMeaning` | cuckoo/metadb/meta_handle.c:99-285 | after the batch every directory reported as made is reached by its path under the id it was given, and one reported as existing is there |
| `Namespace.CreateKeeps` | cuckoo/metadb/meta_handle.c:385-454 | a batch of create keeps the tables sound |
| `Namespace.CreateRows` | cuckoo/metadb/meta_handle.c:385-454 | a batch of create keeps every older row and adds exactly the entries its requests reach |
| `Namespace.CreateMeaning` | cuckoo/metadb/meta_handle.c:385-454 | a request reports success exactly for a new file, whose row then carries its id, and otherwise the row is there |
| `Namespace.UnlinkRows` | cuckoo/metadb/meta_handle.c:901-996 | a batch of unlink removes exactly the entries its requests reach and changes no other row |
| `Namespace.UnlinkKeepsIff` | cuckoo/metadb/meta_handle.c:965-991 | it keeps the tables sound if and only if no request names a directory, and an error is reported if and only if one does |
| `Namespace.UnlinkOfDirectory` | cuckoo/metadb/meta_handle.c:965-991 | in every sound layout, unlink of the directory /a on the worker of its row takes the row away, reports an error, and leaves /a in the directory table |
| `Rename.CheckPathExists` | cuckoo/utils/path_parse.c:59-90 | the directory a path leads to in the table, where a trailing separator is ignored; a path without the leading separator is an error |
| `Rename.MoveDirSoundIff` | cuckoo/metadb/meta_handle.c:1429-1443 | a directory rename leaves the tables sound if and only if the source has no trailing separator and the destination starts with the separator |
| `Rename.MoveFileSoundIff` | cuckoo/metadb/meta_handle.c:1449-1576 | a file rename leaves them sound if and only if the destination starts with the separator |
| `Rename.RenameSoundIff` | cuckoo/metadb/meta_handle.c:1376-1576 | both cases together |
| `Rename.RenameToRelativePath` | cuckoo/metadb/meta_handle.c:1382-1383 | renaming the directory /a to b succeeds and puts it beside the root |
| `Rename.RenameFromTrailingPath` | cuckoo/metadb/meta_handle.c:1390-1427 | renaming /a/ to /b gives /b the id of /a, which then has two names |
| `NamespaceRuns.ApplyKeepsIff` | cuckoo/metadb/meta_handle.c:1167-1720 | every transaction keeps the tables sound for proper requests; for unlink and rename the condition is exact |
| `NamespaceRuns.RunSound` | cuckoo/metadb/meta_handle.c:99-383 | over any run of proper mkdir, create, unlink, rmdir and rename transactions from the empty cluster the directories stay a tree under the root, every directory has its row, and no row is without a parent directory |
| `NamespaceRuns.NoCycle` | cuckoo/metadb/meta_handle.c:1376-1576 | in such tables no path leads from a directory back to itself |
| `MetaHandle.InsertDirs` | cuckoo/metadb/meta_handle.c:287-310 | a server's inserts succeed exactly when every directory is new at its turn, and then give the coordinator's table |
| `MetaHandle.InsertRows` | cuckoo/metadb/meta_handle.c:312-383 | the inserts into the shards succeed exactly when every place is free at its turn |
| `MetaHandle.PlacedRowsMeaning` | cuckoo/metadb/meta_handle.c:312-383 | they fail exactly when a new directory has the name of a file, and otherwise the shards hold exactly the new rows by entry |
| `MetaHandle.Cluster.PlanMkdir` | cuckoo/metadb/meta_handle.c:104-149 | walking the batch in one tree gives what its requests mean one after the other |
| `MetaHandle.Cluster.ReplicateDirs` | cuckoo/metadb/meta_handle.c:153-166 | every server ends with the coordinator's directory table |
| `MetaHandle.Cluster.Mkdir` | cuckoo/metadb/meta_handle.c:99-285 | mkdir either does what its requests mean, identically on every server and with each row on its owning shard, or changes nothing, exactly when a name belongs to a file |
| `MetaHandle.Cluster.Create` | cuckoo/metadb/meta_handle.c:385-581 | create on a worker, with its walks first and its inserts per shard and in groups, in whatever order the shards come, does what its requests mean one after the other and keeps the tables sound |
| `MetaHandle.Cluster.Unlink` | cuckoo/metadb/meta_handle.c:901-996 | so does unlink, with the exact condition for soundness |
| `MetaHandle.Cluster.RemoveEverywhere` | cuckoo/metadb/meta_handle.c:1274-1327 | all servers drop the directory exactly when no worker has an entry below it |
| `MetaHandle.Cluster.Rmdir` | cuckoo/metadb/meta_handle.c:1167-1272 | rmdir removes the directory from every server, with its row, exactly when it exists, is not the root and has no entries, and otherwise changes nothing |
| `MetaHandle.Cluster.FindBoth` | cuckoo/metadb/meta_handle.c:1397-1427 | the two walks in pathcmp order find both places exactly under the condition of the rename |
| `MetaHandle.Cluster.MoveEverywhere` | cuckoo/metadb/meta_handle.c:1578-1684 | every server ends with the same moved directory entry |
| `MetaHandle.Cluster.MoveRow` | cuckoo/metadb/meta_handle.c:1686-1720 | the row goes from the old shard to the new one exactly when it exists and the new place is free |
| `MetaHandle.Cluster.RenameTables` | cuckoo/metadb/meta_handle.c:1376-1576 | rename succeeds exactly when the source is there, the destination has a parent and is free, and a directory does not go below itself; otherwise nothing changes |
| `MetaHandle.Cluster.Rename` | cuckoo/metadb/meta_handle.c:1376-1576 | the tables are sound afterwards if and only if a successful rename had no trailing separator in its source and a leading one in its destination |
| `GroupedCreate.RowsStay` | cuckoo/metadb/meta_handle.c:457-581 | inserting one at a time never changes a row and leaves every request's key with the inode it reports |
| `GroupedCreate.DuplicatesAgree` | cuckoo/metadb/meta_handle.c:457-581 | of two requests for one key the second reports that the file exists, and both report the same inode |
| `GroupedCreate.TryGroup` | cuckoo/metadb/meta_handle.c:457-581 | one subtransaction either inserts its whole group or leaves the table unchanged and names a request that must fail |
| `GroupedCreate.CreateInGroups` | cuckoo/metadb/meta_handle.c:457-581 | the groups with rollback and retry end, and give the table, the codes and the inode ids of inserting one request at a time |
| `ShardedCreate.SameCode` | cuckoo/metadb/meta_handle.c:443-454 | among the requests of its shard alone a request gets the code and the inode id it gets in the whole batch |
| `ShardedCreate.CreatePerShard` | cuckoo/metadb/meta_handle.c:443-581 | the shards one after the other, in any order and each in groups, give the rows and the answers of inserting the whole batch one request at a time |
| `ShardedCreate.CreateIsRowsAfter` | cuckoo/metadb/meta_handle.c:385-454 | the rows a batch of create means are those of inserting, one at a time, the requests that reach an entry |
| `ShardedCreate.CreateResults` | cuckoo/metadb/meta_handle.c:385-581 | the answers of the shards, put beside the verdicts of the walks, are the results of the batch |
| `ShardedCreate.CreateFound` | cuckoo/metadb/meta_handle.c:443-581 | rows and results after the inserts are those the batch means |
| `ReadDir.ResumedScans` | cuckoo/metadb/meta_handle.c:998-1142 | the two index scans of a resumed page give exactly the entries behind the last one, in index order |
| `ReadDir.BehindIsRest` | cuckoo/metadb/meta_handle.c:998-1142 | what is behind the k-th entry is the rest of the entries |
| `ReadDir.ScanOnce` | cuckoo/metadb/meta_handle.c:998-1142 | one scan delivers part of the page and leaves exactly the rest pending |
| `ReadDir.ReadPage` | cuckoo/metadb/meta_handle.c:998-1142 | a page is the next entries up to its size, and its cursor leads to exactly the rest |
| `ReadDir.ReadDirectory` | cuckoo/metadb/meta_handle.c:998-1142 | reading on, whatever the page sizes from 1 up, ends with every entry once, in shard, part id and name order |
| `ReadDir.EntriesComplete` | cuckoo/metadb/meta_handle.c:998-1142 | the entries are exactly the directory's rows in the worker's shards |
| `ReadDir.EntriesDistinct` | cuckoo/metadb/meta_handle.c:1911-1923 | no entry comes twice when every name has one shard |
| `ReadDir.StoredIsSharded` | cuckoo/metadb/meta_handle.c:1911-1923 | rows stored as the handlers of the namespace store them are each in the shard of their name |
| `ReadDir.EveryEntryOnce` | cuckoo/metadb/meta_handle.c:998-1142 | in the shards of any table the coordinator builds, with rows in the shard of their name and in index order, reading a directory gives exactly its entries on the worker, each once |
| `ShmemBitmap.FoldToLevel` | cuckoo/utils/cuckoo_shmem_allocator.c:105-110 | the shift-and-or loop computes the fold of a page word to a level |
| `ShmemBitmap.FoldMeaning` | cuckoo/utils/cuckoo_shmem_allocator.c:105-110 | a bit of the folded word is clear exactly when the whole aligned block it stands for is free |
| `ShmemBitmap.FullLevelHasNoBlock` | cuckoo/utils/cuckoo_shmem_allocator.c:112-113 | a full folded word means that no aligned block of the level is free |
| `ShmemBitmap.ClearBlockBitIsFree` | cuckoo/utils/cuckoo_shmem_allocator.c:115-120 | otherwise any clear block bit starts a free aligned block |
| `ShmemBitmap.DisjointBlocksAreDisjointIntervals` | cuckoo/utils/cuckoo_shmem_allocator.c:45-58 | two aligned blocks without a common bit do not overlap as intervals |
| `ShmemSizes.NextPowerOfTwoIsLeast` | cuckoo/utils/cuckoo_shmem_allocator.c:34-43 | the count of leading zeros gives the least power of two not below its argument |
| `ShmemSizes.RequestFitsItsLevel` | cuckoo/utils/cuckoo_shmem_allocator.c:62-75 | a supported request gets the smallest level whose blocks hold the header and the requested bytes |
| `ShmemSizes.FreeLevelInverts` | cuckoo/utils/cuckoo_shmem_allocator.c:187-193 | Free finds a level for a capacity if and only if Malloc stores that capacity for that level |
| `ShmemSizes.ShiftInverts` | cuckoo/utils/cuckoo_shmem_allocator.c:195-197 | up to 4096 pages no offset wraps, page and bit are read back from the offset, and the block lies inside the pages |
| `ShmemSizes.ShiftAligned` | cuckoo/utils/cuckoo_shmem_allocator.c:101-117 | a block is aligned to its capacity |
| `ShmemSizes.ShiftsDistinctIff` | cuckoo/utils/cuckoo_shmem_allocator.c:101-117 | with 32-bit products the offsets of different blocks are different if and only if there are at most 4096 pages |
| `ShmemSizes.DisjointBlocksDisjointBytes` | cuckoo/utils/cuckoo_shmem_allocator.c:101-117 | blocks without a common bit occupy disjoint bytes |
| `ShmemSizes.RegionFitsIff` | cuckoo/utils/cuckoo_shmem_allocator.c:11-27 | control block, page words and pages fit into the region if and only if the region holds at least the control block; below that the size wraps and Init still finds pages |
| `ShmemAllocator.PickIsFree` | cuckoo/utils/cuckoo_shmem_allocator.c:93-121 | the block a scan picks is aligned and free in the word it was picked from |
| `ShmemAllocator.NextKeeps` | cuckoo/utils/cuckoo_shmem_allocator.c:60-213 | every atomic step of every process keeps each page word the disjoint union of the live blocks' masks and every live block with one owner |
| `ShmemAllocator.RunKeepsInv` | cuckoo/utils/cuckoo_shmem_allocator.c:60-213 | this holds in every state of every interleaving |
| `ShmemAllocator.FreeFindsItsBlock` | cuckoo/utils/cuckoo_shmem_allocator.c:183-213 | Free clears exactly the bits of the block it was called on |
| `ShmemAllocator.LiveBlocksNeverOverlap` | cuckoo/utils/cuckoo_shmem_allocator.c:60-213 | under any interleaving two live blocks occupy disjoint bytes inside the pages |
| `ShmemAllocator.WordsAreTheLiveBlocks` | cuckoo/utils/cuckoo_shmem_allocator.c:60-213 | a bit is set if and only if a live block covers it, and a block is live if and only if its caller or a process inside a call has it |
| `ShmemAllocator.QuietWordsAreTheCallers` | cuckoo/utils/cuckoo_shmem_allocator.c:60-213 | when no call is in progress every set bit belongs to a block some caller owns |
| `ShmemHeap.PickBlock` | cuckoo/utils/cuckoo_shmem_allocator.c:93-121 | searching one page word finds a free aligned block exactly when there is one |
| `ShmemHeap.Allocator.Scan` | cuckoo/utils/cuckoo_shmem_allocator.c:77-177 | one scan finds a block exactly when a page from its start on has one, and takes exactly its bits |
| `ShmemHeap.Allocator.Malloc` | cuckoo/utils/cuckoo_shmem_allocator.c:60-181 | run alone, Malloc returns 0 exactly when the request is too large or no page has a free aligned block of its level, whatever the hints say; otherwise it sets the bits of one free block and writes its header |
| `ShmemHeap.Allocator.Free` | cuckoo/utils/cuckoo_shmem_allocator.c:183-213 | Free clears exactly the block's bits, and nothing when the header is not one that Malloc writes |
| `ShmemHeap.FreeUndoesMalloc` | cuckoo/utils/cuckoo_shmem_allocator.c:183-213 | freeing what Malloc returned restores every page word |
| `ReadStream.RunKeepsInv` | common/src/read_stream/read_stream.cpp:48-114 | under any interleaving of pushers, reader and stop, each pipe holds the block the reader takes from it next or is drained, and threads stop only when nothing more can come |
| `ReadStream.DeliveredIsPrefix` | common/src/read_stream/read_stream.cpp:158-183 | the bytes returned so far are a prefix of the file |
| `ReadStream.ShortReturnIsEnd` | common/src/read_stream/read_stream.cpp:158-215 | a short return without error and without stop means that the whole file was delivered |
| `ReadStream.NothingAfterError` | common/src/read_stream/read_stream.cpp:158-183 | after an error or a stop no further byte is returned |
| `RwLock.Unpack` | cuckoo/utils/rwlock.c:12-25 | shared count, exclusive bit, reference count and flag are read back from the packed word |
| `RwLock.NextKeeps` | cuckoo/utils/rwlock.c:47-181 | every atomic step of every process keeps each word equal to the counts of all handles and waiters |
| `RwLock.RunKeepsInv` | cuckoo/utils/rwlock.c:47-181 | this holds in every state of every run whose callers release what they acquired, below 2^24 references per lock |
| `RwLock.WordIsTheCounts` | cuckoo/utils/rwlock.c:47-181 | in every reachable state the word is exactly the shared, exclusive and reference counts over all processes, and an exclusive holder is the only holder |
| `RwLock.DestroyableMeaning` | cuckoo/utils/rwlock.c:122-126 | a lock is destroyable exactly when no process has declared it, waits for it, holds it or is letting it go |
| `RwLock.FlagHolds` | cuckoo/utils/rwlock.c:47-78 | while a waiter's flag is up no shared attempt succeeds, and it stays up until an exclusive attempt does |
| `RwLock.NoSharedPastFlag` | cuckoo/utils/rwlock.c:47-153 | over any run, between an exclusive waiter's flag and the next exclusive acquire no shared acquire succeeds |
| `RwLock.ReleaseKeepsIff` | cuckoo/utils/rwlock.c:155-181 | Release keeps the words equal to the counts if and only if the newest handle on the lock is an acquired one |
| `RwLock.ReleaseOfDeclaration` | cuckoo/utils/rwlock.c:163-168 | a release by a process that only declared the lock takes a shared hold off the word that nobody has |
| `RwLock.FindNewest` | cuckoo/utils/rwlock.c:105-120 | the backward scan finds the newest matching handle, or none exactly when there is none |
| `RwLock.ShareIsCounts` | cuckoo/utils/rwlock.c:193-204 | what a list of handles holds of a word is the packed count of its handles |
| `RwLock.Backend.Declare` | cuckoo/utils/rwlock.c:87-97 | takes one reference and records it, unless the list is full |
| `RwLock.Backend.Undeclare` | cuckoo/utils/rwlock.c:105-120 | drops the newest declaration of the lock and exactly its reference, or reports that there is none |
| `RwLock.Backend.Release` | cuckoo/utils/rwlock.c:155-181 | drops the newest handle of any mode and what an acquired handle holds |
| `RwLock.Backend.ReleaseAll` | cuckoo/utils/rwlock.c:193-204 | ends with no handle, and every word is less exactly this process's share |
| `DirHashEviction.RunKeepsInv` | cuckoo/dir_path_shmem/dir_path_hash.c:406-470 | under any interleaving of lookups, lock operations and evictions every lock in use belongs to one hash entry |
| `DirHashEviction.VictimIsUnused` | cuckoo/dir_path_shmem/dir_path_hash.c:562-616 | no process has declared, waits for, holds or lets go the lock of an entry that is evicted, no backend looks at it inside the partition, and none that declared its lock is still to read it |
| `DirHashEviction.NoEvictionInUse` | cuckoo/dir_path_shmem/dir_path_hash.c:562-616 | over every run no entry is evicted while any backend refers to its lock |
| `DirHashEviction.LocksHaveEntries` | cuckoo/dir_path_shmem/dir_path_hash.c:406-470 | over every run a lock that is declared, waited for or held belongs to exactly one entry |
| `DirHashEviction.FreeMemoryIsZero` | cuckoo/dir_path_shmem/dir_path_hash.c:618-660 | the word of a lock without an entry is zero, so an entry made again without initialisation has a free lock |
| `DirHashEviction.LockedReadsOwn` | cuckoo/dir_path_shmem/dir_path_hash.c:395-473 | over every run a backend that declared the lock before it let the partition go reads the entry it looked up |
| `DirHashEviction.EntryStays` | cuckoo/dir_path_shmem/dir_path_hash.c:562-616 | an entry keeps its memory until it is evicted |
| `DirHashEviction.UnlockedReadGoesWrong` | cuckoo/utils/path_parse.c:73-73 | a run in which a lookup without a lock reads, after it left the partition, the entry of another key |
| `DirHashEviction.ReadsOwnIff` | cuckoo/dir_path_shmem/dir_path_hash.c:451-472 | the item read outside the partition is the one looked up in every run if and only if the caller asked for a lock |
| `DirCache.DirectoryCache.Search` | cuckoo/dir_path_shmem/dir_path_hash.c:395-473 | the answer comes from the cache or the table; the cache stays coherent with the committed table if and only if the kept answer is the committed one |
| `DirCache.DirectoryCache.Insert` | cuckoo/dir_path_shmem/dir_path_hash.c:304-392 | fails exactly when the directory is in the table; the cache stays coherent with the committed table if and only if the answer was cached, the call failed, the answer was not kept, or the committed table does not have the key |
| `DirCache.DirectoryCache.Delete` | cuckoo/dir_path_shmem/dir_path_hash.c:474-541 | fails exactly when the directory is not in the table; coherence is always kept |
| `DirCache.DirectoryCache.Commit` | cuckoo/dir_path_shmem/dir_path_hash.c:618-660 | applies the log, whatever is evicted and wherever there is no room; the cache is then coherent when the log has the table's answers and unlogged keys had them or none |
| `DirCache.DirectoryCache.Abort` | cuckoo/dir_path_shmem/dir_path_hash.c:662-662 | drops the writes and leaves the cache as it is |
| `DirCache.DirectoryCache.Transaction` | cuckoo/metadb/directory_table.c:35-123 | any list of requests, committed or aborted, ends with exactly the table the requests make; the cache ends coherent under the exact conditions of AbortCoherentIff and CommitCoherentIff |
| `DirCache.LookupAfterWriteThenAbort` | cuckoo/dir_path_shmem/dir_path_hash.c:395-473 | a lookup after a delete, then an abort, leaves an existing directory cached as absent |
| `DirCache.MakeAfterRemoveThenAbort` | cuckoo/dir_path_shmem/dir_path_hash.c:304-392 | so does making a directory again after removing it |
| `DirCache.SecondWriteThenCommit` | cuckoo/dir_path_shmem/dir_path_hash.c:618-660 | two writes of a key without its lock can leave a wrong answer cached after a commit |
| `DirCacheRuns.RunTable` | cuckoo/metadb/directory_table.c:35-123 | whatever the cache holds, the requests fail or succeed and change the table as without it |
| `DirCacheRuns.AbortCoherentIff` | cuckoo/dir_path_shmem/dir_path_hash.c:662-662 | an abort leaves the cache coherent, whatever it held and whatever is evicted, if and only if every key is looked up, or made, while it is as committed or was looked up before under its lock |
| `DirCacheRuns.CommitCoherentIff` | cuckoo/dir_path_shmem/dir_path_hash.c:618-660 | a commit leaves the cache coherent with the new table, whatever it held and whatever is evicted, if and only if no key's last write is a second one without the key's lock |
| `ConnectionPool.Classify` | cuckoo/connection_pool/pg_connection_pool.cpp:90-133 | a job without operations is dropped; one joins a batch exactly when it allows that and all its operations have one type that can be batched |
| `ConnectionPool.BatchTypeInjective` | cuckoo/include/connection_pool/pg_connection_pool.h:35-54 | exactly mkdir, create, stat, open, close and unlink can be batched, each in a batch of its own |
| `ConnectionPool.NextKeeps` | cuckoo/connection_pool/pg_connection_pool.cpp:9-133 | every step of dispatchers, pool manager and connections keeps jobs, tasks and their places in order |
| `ConnectionPool.RunKeepsInv` | cuckoo/connection_pool/pg_connection_pool.cpp:9-133 | this holds in every state of every interleaving |
| `ConnectionPool.EveryJobOnce` | cuckoo/connection_pool/pg_connection_pool.cpp:90-133 | a dispatched job is in exactly one place of exactly one task |
| `ConnectionPool.EveryTaskInOnePlace` | cuckoo/connection_pool/pg_connection_pool.cpp:9-43 | a task is queued once, held by the manager or given to one connection, never two of these; no batch exceeds its maximum |
| `ConnectionPool.NoJoinAfterHandOver` | cuckoo/connection_pool/pg_connection_pool.cpp:9-43 | no job joins a task after it was handed over, and its connection stays the same |
| `ConnectionPool.RunOnce` | cuckoo/connection_pool/pg_connection.cpp:334-355 | a connection that replies has a task with jobs, handed to it and not run before |
| `SerializedData.LengthRoundTrip` | remote_connection_def/remote_connection_utils/serialized_data.h:77-92 | every 32-bit length is read back from its field |
| `SerializedData.SameBytesEverywhere` | remote_connection_def/remote_connection_utils/serialized_data.h:77-92 | whatever the machine's byte order, the bytes written are the little-endian ones and are read back |
| `SerializedData.EncodeConcat` | remote_connection_def/remote_connection_utils/serialized_data.h:147-154 | the frames of two lists of items in a row are the frames of the joined list |
| `SerializedData.NextSeveralItemSize` | remote_connection_def/remote_connection_utils/serialized_data.h:157-175 | the loop returns the size of the next items, or corrupt exactly when they are unaligned or do not fit, whatever lies beyond the data |
| `SerializedData.ItemsSizeOfFrames` | remote_connection_def/remote_connection_utils/serialized_data.h:157-175 | over well-formed frames the size is that of the items themselves, wherever they stand |
| `SerializedData.NewCapacity` | remote_connection_def/remote_connection_utils/serialized_data.h:178-194 | when some 32-bit doubling suffices the loop ends with the first that does |
| `SerializedData.NeverEnough` | remote_connection_def/remote_connection_utils/serialized_data.h:178-194 | otherwise no number of doublings suffices: the capacity wraps to zero and stays there |
| `SerializedData.GrownReachesIff` | remote_connection_def/remote_connection_utils/serialized_data.h:178-194 | for a buffer that started without memory the loop ends if and only if the size is at most 2^31 |
| `SerializedData.AskGrown` | remote_connection_def/remote_connection_utils/serialized_data.h:134-194 | such a buffer gets any size up to 2^31; above, the call never ends when the 32-bit size is above 2^31 too, and otherwise is told that there is room where there is none |
| `SerializedData.Init` | remote_connection_def/remote_connection_utils/serialized_data.h:95-132 | a buffer is set up over the caller's memory or without any, and refused exactly when capacity or contents are not aligned |
| `SerializedData.Buffer.Enlarge` | remote_connection_def/remote_connection_utils/serialized_data.h:178-194 | for every capacity and every size, seen modulo 2^32: there is room, or the call is refused, never ends, or claims room that is not there |
| `SerializedData.Buffer.ApplyForSegment` | remote_connection_def/remote_connection_utils/serialized_data.h:134-145 | when there is room, appends one frame whose length is the size rounded up to the alignment; otherwise says which of the other cases it is |
| `SerializedData.Buffer.Append` | remote_connection_def/remote_connection_utils/serialized_data.h:147-154 | when there is room, appends all frames of another buffer; otherwise says which of the other cases it is |
| `SerializedData.SegmentIsItem` | remote_connection_def/remote_connection_utils/serialized_data.h:134-145 | a buffer holding the frames of some items holds, after one more segment, those of one more item |
| `BatchReply.FlattenAt` | cuckoo/connection_pool/pg_connection.cpp:66-97 | a job's parameters stand together in the batch, in its own order, after those of the jobs before it |
| `BatchReply.AttachmentsInARow` | cuckoo/connection_pool/pg_connection.cpp:66-97 | the concatenated attachments are the frames of all parameters in a row |
| `BatchReply.Process` | cuckoo/metadb/meta_serialize_interface.c:19-107 | however the handler sorts its references, each answer lands beside its own parameter |
| `BatchReply.SplitReply` | cuckoo/connection_pool/pg_connection.cpp:145-171 | the offset loop cuts one slice per job, or reports a corrupt reply exactly when it does not hold enough items |
| `BatchReply.CutFrames` | cuckoo/connection_pool/pg_connection.cpp:145-171 | on a reply that frames one answer per parameter the loop succeeds, every slice holds exactly its job's frames, and the slices cover the reply |
| `BatchReply.RunBatch` | cuckoo/connection_pool/pg_connection.cpp:66-171 | every job receives exactly the answers to its own parameters in its own order, and together the slices are the reply, for every order the handler may sort into |
| `BatchReply.OwnAnswer` | cuckoo/metadb/meta_serialize_interface.c:19-107 | the item at a job's own place in the reply is what the handler answered, at the position where it had sorted that parameter, to that parameter |
| `ShardRouting.HashPartId` | cuckoo/metadb/meta_handle.c:1911-1918 | the loop in 16-bit arithmetic computes the part id of a name, below the number of parts |
| `ShardRouting.CombineInverts` | cuckoo/metadb/meta_handle.c:1920-1923 | parent and part are read back from the combined id, and one parent's ids are one range |
| `ShardRouting.ShardIgnoresParent` | cuckoo/utils/utils.c:42-55 | the hash that selects a row's shard does not depend on the parent directory |
| `ShardRouting.RangePointsIncrease` | cuckoo/metadb/shard_table.c:45-84 | for every admissible shard count the range points strictly increase |
| `ShardRouting.BuildShardTable` | cuckoo/metadb/shard_table.c:45-84 | a table is built exactly for admissible counts with servers, covers 0 to INT32_MAX, and hands the shards out in turn |
| `ShardRouting.SearchShard` | cuckoo/metadb/shard_table.c:240-266 | binary search finds the only covering shard, reports an error exactly above the last point, and in a built table always succeeds |
| `ShardRouting.RenewShardTable` | cuckoo/metadb/shard_table.c:152-226 | each row sent starts just above the end of the one before |
| `ShardRouting.FetchShardTable` | cuckoo_client/src/router.cpp:19-66 | the client accepts exactly the gapless rows that end at INT32_MAX, and then maps the end of every range to its server |
| `ShardRouting.SentIsAccepted` | cuckoo_client/src/router.cpp:19-66 | it accepts every table the coordinator sends and then holds the same shards |
| `ShardRouting.SameShard` | cuckoo_client/src/router.cpp:74-107 | for every hash value lower_bound finds exactly the server's covering shard |
| `ShardRouting.ClientName` | cuckoo_client/src/router.cpp:74-107 | a path without leading separator is refused; the client's name is the server's if and only if the path has no trailing separator or is the root |
| `ShardRouting.NamesAgreeIff` | cuckoo_client/src/router.cpp:74-107 | client and server hash the same name if and only if the path has no trailing separator or is the root |
| `ShardRouting.ClientAndServerAgree` | cuckoo_client/src/utils.cpp:21-41 | for every name, every parent and every built table the client asks exactly the server that holds the row |
| `ShardRouting.PathRoutesIff` | cuckoo_client/src/router.cpp:74-107 | for every path the client asks the server that holds the row if and only if the shards of the two names are on one server, and so always without a trailing separator |
| `ShardRouting.TrailingSlashDiffers` | cuckoo_client/src/router.cpp:74-107 | for /a/ the client hashes a/ and the server the empty name, with different part ids |
| `FileLock.RunKeepsInv` | cuckoo_store/src/util/file_lock.cpp:9-98 | under any interleaving of tries, waits, wake-ups and releases by well-behaved callers the table is true to the holders and waiters |
| `FileLock.LockStateMeaning` | cuckoo_store/src/util/file_lock.cpp:9-87 | in every reachable state an inode has shared holders or one exclusive holder, its signed count says which, and its entry exists exactly while someone holds or waits |
| `FileLock.TestLockedMeaning` | cuckoo_store/src/util/file_lock.cpp:89-98 | TestLocked says for an exclusive lock whether anybody holds or waits, for a shared one whether somebody holds it exclusively |
| `FileLock.GetMeaning` | cuckoo_store/src/util/file_lock.cpp:44-87 | a request is granted at once exactly when the holders admit it, and otherwise waits exactly when asked to |

## Left out

- libpq, brpc, ZooKeeper, OBS, FUSE, the FlatBuffers encoding of payloads and PostgreSQL itself, which appear only as messages, maps and atomic sections.
- Fields of inode rows other than id, kind and link count, and the handlers that only read or update them: stat, open, close, opendir, utimens, chown, chmod.
- Creating with an update of existing rows, which no caller asks for.
- Transactions that mix walks with a shared lock on the target (`OpenWalk`) and walks that make or remove directories (`PathParse`); no handler does both.
- Sorting itself: batches are given in any order, or as a sorted list where the order matters.
- The reload of the shard cache, changes of the shard table while requests run, and the routing of requests that a worker refuses.
- Explicit transactions of a client, prepared transactions replayed into the directory cache, and clearing the directory hash.
- Interleavings of namespace transactions: each one is taken as atomic, which the directory locks and the distributed commit are for.
- Waiting itself: that condition variables wake up and spin loops end, except where an operation is proved to end.
- The disk cache, the object store, the Python cluster manager and the client's own readdir.
- TwoPhaseCommit.RunAgrees: speaks of prepared gids, because a writer whose connection breaks before PREPARE drops out of the transaction without a trace.
- TransactionCleanup.Cleanup2PC: a server fails at the first query of its round or not at all; rounds given up later are steps of TwoPhaseCommit. The count it returns is not modelled.
- PathParse.PathParser.FinishTarget: the flag for a shared lock on the target is modelled in OpenWalk instead.
- PathParse.PathParser.TreeInsert: an empty path is not modelled, as the code then reads beyond the end of the string.
- MetaHandle.Cluster.Rename: an empty destination is not modelled, for the same reason.
- ShmemAllocator.RunKeepsInv: callers free only what they own, and there are at most 4096 pages.
- RwLock.RunKeepsInv: callers release only what they acquired, and there are fewer than 2^24 references to a lock.
- DirCache.DirectoryCache.Transaction: transactions of one server run one at a time; what others do meanwhile is that entries without a lock are evicted.
- OpenWalk.OpenEach: what is done with the rows afterwards is not modelled; a walk without a parent id ends with a missing file or a wrong worker.
- SerializedData.Buffer.Append: after a claim of room that is not there, the memory written beyond the buffer is not modelled.
- ReadDir.ReadDirectory: the tables do not change between pages, and pages have room for at least one entry.
- ShardRouting.CombineInverts: directory ids are taken to be below 2^51, so that combining them with a part id loses no bits.
