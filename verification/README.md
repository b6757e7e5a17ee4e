# Pairly: version history, file tree, execution lock and WebSocket hubs

Pairly is a collaborative code editor: rooms hold a tree of files, every file is a Yjs document that
several people edit at once, saved states are versioned, and a room's tree can be written to disk and
run in a container. This project models the stateful core of its backend, and the browser's own
version of the tree, and proves what that core keeps.

| modules | what they model |
|---|---|
| `Forest`, `ForestCover` | parent links with no guard against cycles: reachability, subtrees, chains that end, what a traversal meets |
| `FilesTable`, `StatementEffects`, `ForestRuns`, `ForestLimits`, `RoomIsolation` | the Postgres table `files`: the recursive subtree query with its working table and `UNION ALL` (section 7.8.2, "Recursive Queries", of the PostgreSQL 16 manual), each statement, every run of statements, runs that show what the tree does not promise, and what one room's statements can do to another's rows |
| `TreeBuilder`, `TreeWalk`, `Disk`, `Materialise`, `WalkOutcome`, `Containment`, `Reconstruct` | the executor: `buildTree` on the heap in any map order, `printTree`, `walkTree`, the directories and files written, exactly when a walk succeeds and when paths stay inside the temp directory, the entry path |
| `ExplorerTree` | the browser's `createTree` and `collect`, and how their tree differs from the executor's |
| `EditLog`, `MongoStore`, `VersionHistory`, `HistoryServer`, `HistoryLimits` | saving, deduplication, version numbers, the Kafka log, the snapshot cache, replay and backfill as interleaved steps; the handlers and goroutines as code; runs that show where the history goes wrong |
| `Channels`, `ExecutionLock`, `Executor` | key and channel names; the lock of all executors as a timed transition system; the handler, the run goroutine and its deferred calls as code |
| `Hubs`, `HubServer`, `FanOut` | connection maps, Redis subscriptions and gauges of a pod; the hub classes as code; what one publish delivers |
| `CrossStore`, `Names` | Postgres rows against Mongo documents and snapshots through the room and file handlers, and how these read names and languages |
| `UserColor` | the hash that picks a user's cursor colour |

A store is a map or a sequence, a goroutine's pending effect is an element of a multiset, and a Redis
or broker failure is a parameter of the step it hits. Code that changes things in place is a class or a
loop, tied by its `ensures` to a function of the old state; the properties are then proved of that
function over every run. A Yjs update is the set of operations it carries, applying one is a union, and
the text of a document is an arbitrary function of its operations.

## What the proofs say, in short

- **History.** In every interleaving of saves, publishes, snapshot writes, reads and backfills, versions
  are issued consecutively and every event and snapshot of a save carries the state accepted at its
  version. For states that grow and have different texts, a file's snapshots and pending backfills are exact
  throughout if and only if each read that missed the cache asked for an accepted version whose own event was
  the first in the log to reach it. While they are exact, deduplication loses nothing, saves in flight
  included, if and only if nothing is cached or the newest cached version is the stored one. Once a file's
  snapshots have settled, and provided each missed read of the stored version was sound, it loses nothing if and
  only if nothing is cached, the newest cached version is not beyond the stored one, or the two texts are the same.
- **Tree.** A run of statements keeps a forest if and only if every move was outside the moved
  subtree when it was made, which no code checks. The subtree query ends if and only if its start is on
  no cycle, and then returns each row of the subtree once. The executor's walk ends on every list of
  files, cyclic links included, and meets each file once whose chain of folders ends. Among slash-free
  names it succeeds if and only if no file's path is a directory's and no folder's a file's.
- **Lock.** At most one live run a file, in every state of a run of any number of executors, if and only if no
  request for the file came while it had a live run older than 30 s. The lock is then held exactly while a run
  is live and within its 30 s, but for locks whose delete failed or whose pod crashed.
- **Hubs.** No empty sets, one subscription a key, closed for good. In every run of handlers that register once
  and unregister at most once, shutdowns anywhere, the connection gauge is the number of connections less the
  unregisters that came after their hub's shutdown. A message is never written twice and, without a failed
  subscription, exactly once.

## Where the code does less than its comments or its users may expect

- The comment on `ToggleFolder` (`backend/internal/postgres/files.go:184-186`) says a deleted folder is
  restored with its full structure. The links are, but the flags are not: toggling twice restores the table
  only if the whole subtree carried one flag (`ForestRuns.ToggleTwiceRestoresIffUniform`,
  `ForestLimits.TogglePairLosesFlag`).
- A folder may be moved below itself; so may a file, since a parent need not be a folder. While the cycle
  stands, the subtree queries of its members do not end (`ForestRuns.StepKeepsForest`, `FilesTable.QueryEndsIffOffCycle`,
  `ForestLimits.MovedBelowItself`).
- Renaming a folder without naming its parent moves it to the top level. Moving a file without
  repeating its name clears the name, and creating one whose name is all white space leaves it without one. One
  such file makes every execution in its room fail (`FilesTable.FilesTable.UpdateFolder`, `Names.TrimSpaceTrims`,
  `WalkOutcome.MoveWithoutNameFails`, `Reconstruct.ReconstructFileTree`).
- Names may hold slashes. Then the outcome of a walk can depend on the map order (`WalkOutcome.OrderMatters`), and a
  file can belong outside the temp directory (`Containment.ClimbingName`; exactly when,
  `Containment.ContainedIffNeverClimbs`).
- The file handlers take the room from the request and never compare it with the file's, and nothing makes a
  parent belong to its child's room. For either reason a request can change another room's rows
  (`RoomIsolation.RequestsSpareIff`, `RoomIsolation.DeleteSparesIff`, `ForestLimits.DeletedUnderOtherRoom`,
  `ForestLimits.ParentInOtherRoom`).
- A history read looks at neither the file nor its room, and its backfill can leave a snapshot of a file that is
  gone; so can a save under another room's name once that file's room is deleted (`CrossStore.ReadAfterDelete`,
  `CrossStore.SaveUnderOtherRoom`, `CrossStore.SnapshotsOwnedIff`).
- A file whose parent is missing is promoted to the top by the executor and dropped by the browser
  (`ExplorerTree.SameNodesIffNoOrphans`, `ForestLimits.RestoredFolderIsDropped`).
- The comment in `backend/internal/kafka/producer.go:81` relies on events being logged in version order, but
  two saves publish from independent goroutines. Replay needs less than order, and the exact condition is
  `EditLog.ReplayRightIffOwnEventFirst`; when an event is lost, its version reads as a later one
  (`HistoryLimits.LostEventMisreads`).
- Asking for a version that does not exist yet caches the current text under it. That entry then counts as the
  newest, and a later save of the same text is skipped although the stored text differs
  (`HistoryLimits.FutureVersionPoisonsDedup`; exactly when, `VersionHistory.MissedReadExactIff` and
  `VersionHistory.QuiescentDedupIff`). So does reading a version before its event is logged, if the backfill lands
  after the right snapshot (`HistoryLimits.BackfillOverwrites`, `VersionHistory.RunKeepsKeyIff`). A save may also be
  skipped while a snapshot is on its way (`HistoryLimits.SkippedWhileInFlight`, `VersionHistory.DedupGuardIff`).
- The comment on `SaveSnapshot` (`backend/internal/mongo/snapshots.go:33-35`) says a second write of a version
  carries identical data. A backfill need not: it keeps the snapshots exact only if the replay was right
  (`VersionHistory.StepKeepsSnapsExact`).
- The deferred `DEL` names no owner. A run that outlives its lock deletes that of the next
  (`ExecutionLock.LateDeleteFreesForeignLock`), and 30 s after the graceful stop a run may still be in flight
  (`ExecutionLock.TimeoutLeavesRun`).
- Unregisters deferred past a shutdown take the connection gauge below zero (`Hubs.GaugeOfNewPod`,
  `Hubs.UnregisterBetweenShutdowns`), and a room that empties without ever having been subscribed stays on the gauge
  of active rooms (`Hubs.FailedSubscribeLeaks`).

## Model

| member | source | states |
|---|---|---|
| FilesTable.JoinChildren | backend/internal/postgres/files.go:191-193 | one round of the recursive term returns a row once for every occurrence of its parent in the working table |
| FilesTable.SubtreeQuery | backend/internal/postgres/files.go:188-194 | from a start on no cycle the working-table iteration ends and returns every descendant-or-self exactly once, so `UNION ALL` agrees with set reachability |
| FilesTable.QueryEndsIffOffCycle | backend/internal/postgres/files.go:189-194 | some round is empty iff the start is on no cycle; cycles elsewhere do not matter |
| FilesTable.RoundsAreSubtree | backend/internal/postgres/files.go:248-255 | the rounds before an empty one make up the whole subtree |
| FilesTable.FilesTable.Create | backend/internal/postgres/files.go:86-102 | succeeds iff room and parent exist, a folder has no language and name and language fit their columns; the new row is active and nothing else changes |
| FilesTable.FilesTable.UpdateFile | backend/internal/postgres/files.go:111-131 | only active files, existing parents and texts that fit; a missing parent leaves the parent as it was; errors change nothing |
| FilesTable.FilesTable.UpdateFolder | backend/internal/postgres/files.go:139-158 | only active folders, existing parents and names that fit; an empty name keeps the name; a missing parent moves the folder to the top |
| FilesTable.FilesTable.MoveFolder | backend/internal/postgres/files.go:225-243 | only active folders; replaces the parent and nothing else |
| FilesTable.FilesTable.ToggleFile | backend/internal/postgres/files.go:160-182 | flips one file and clears its parent |
| FilesTable.FilesTable.ToggleFolder | backend/internal/postgres/files.go:184-223 | touches each row of the subtree once and leaves the table of the toggle statement |
| FilesTable.FilesTable.GetFileDescendantIDs | backend/internal/postgres/files.go:245-271 | every non-folder of the subtree exactly once, and nothing else |
| FilesTable.FilesTable.PermanentDeleteFile | backend/internal/postgres/files.go:273-289 | removes the same subtree that the other two queries select |
| FilesTable.FilesTable.CascadeRoom | backend/migrations/000007_add_cascade.up.sql:4-8 | deleting a room deletes its files and clears the parents of files of other rooms below them |
| StatementEffects.TextsStored | backend/migrations/000004_create_files.up.sql:4-5 | a text within the limit is stored as it is, of a longer one only spaces are cut, anything else and NUL are refused |
| StatementEffects.TooLongIsRefused | backend/migrations/000004_create_files.up.sql:4-5 | a visible 256th character of a name or 51st of a language leaves the table as it was |
| StatementEffects.CreateStores | backend/internal/postgres/files.go:86-102 | column by column: an active row with what was asked for, or no change if the id is taken, the parent missing or a folder given a language |
| StatementEffects.UpdateFileStores | backend/internal/postgres/files.go:111-131 | column by column: name and language of an active file, and its parent if one is given; no other row changes |
| StatementEffects.UpdateFolderStores | backend/internal/postgres/files.go:139-158 | column by column: an active folder's name if one is given, and its parent even if none is |
| StatementEffects.MoveFolderStores | backend/internal/postgres/files.go:225-243 | column by column: an active folder's parent |
| StatementEffects.ToggleFileFlips | backend/internal/postgres/files.go:160-182 | a file's flag is negated and its parent cleared, active or not; no other column or row changes |
| StatementEffects.ToggleFileTwice | backend/internal/postgres/files.go:160-162 | deleting and restoring a file gives back all of it but its parent |
| StatementEffects.CascadeDeletesRoom | backend/migrations/000007_add_cascade.up.sql:4-8 | exactly the room's rows go, and rows of other rooms that were below one lose their parent and nothing else |
| Forest.LongChainEndsOnCycle | backend/internal/postgres/files.go:189-194 | a chain of parents longer than the table has run into a cycle |
| Forest.AcyclicIffGrounded | backend/internal/postgres/files.go:188-202 | a table has no cycle iff every chain of parents ends |
| Forest.RelinkAcyclic | backend/internal/postgres/files.go:225-243 | re-parenting one node keeps a forest iff the new parent is outside its subtree |
| ForestRuns.ParentsKeepExisting | backend/migrations/000008_add_file_tree.up.sql:1-1 | every statement keeps the foreign key of `parent_id` |
| ForestRuns.StepKeepsForest | backend/internal/postgres/files.go:86-289 | create, toggle and delete always keep a forest; a move does iff it is safe |
| ForestRuns.RunKeepsForest | backend/internal/postgres/files.go:86-289 | every run: a forest in every state iff every move was safe when made; then no subtree query diverges |
| ForestRuns.FilesMoveSafely | backend/internal/rooms/files_handler.go:128-197 | while clients name only folders as parents, parents stay folders and moving a file is always safe |
| ForestRuns.ToggleIsUniform | backend/internal/postgres/files.go:184-202 | a toggle that ends leaves the subtree at the negation of its root's flag; no link and no row outside changes |
| ForestRuns.ToggleTwiceRestoresIffUniform | backend/internal/postgres/files.go:184-186 | toggling twice restores the table iff the subtree carried one flag, or the toggle never took effect |
| ForestRuns.DeleteRemovesSubtree | backend/internal/postgres/files.go:275-285 | a permanent delete that ends removes exactly the subtree, and `ON DELETE SET NULL` never fires |
| ForestLimits.MovedBelowItself | backend/internal/rooms/files_handler.go:128-175 | a run from the empty table after which a folder lies below itself and its subtree query does not end, until a later move ends it |
| ForestLimits.TogglePairLosesFlag | backend/internal/postgres/files.go:184-202 | a run after which toggling a folder twice restores a subfolder that had been deleted on its own |
| ForestLimits.RestoredFolderIsDropped | backend/internal/executor/builder.go:174-187 | a run after which an active folder is at the top of the executor's tree and missing from the browser's |
| ForestLimits.ParentInOtherRoom | backend/internal/rooms/files_handler.go:98-105 | a run from the empty table that puts a row under another room's folder, whose deletion then removes it |
| ForestLimits.DeletedUnderOtherRoom | backend/internal/rooms/files_handler.go:248-288 | a run whose tree stays in its room and whose folder is still removed by a delete under another room's name |
| RoomIsolation.StepKeepsRooms | backend/internal/rooms/files_handler.go:98-105 | a statement keeps every parent in its child's room iff it puts no row under another room's |
| RoomIsolation.RunKeepsRooms | backend/internal/postgres/files.go:86-289 | every run: trees stay in their rooms throughout iff no statement did so |
| RoomIsolation.DeleteSparesIff | backend/internal/rooms/files_handler.go:248-288 | a permanent delete under a room spares the other rooms iff the whole subtree belongs to that room |
| RoomIsolation.ToggleSparesIff | backend/internal/rooms/files_handler.go:199-246 | a folder toggle under a room spares the others iff their rows in the subtree already carry the new flag |
| RoomIsolation.ChangeSparesIff | backend/internal/rooms/files_handler.go:128-246 | an update, move or file toggle under a room spares the others iff the row belongs to that room or does not change |
| RoomIsolation.RequestsSpareIff | backend/internal/rooms/files_handler.go:199-288 | while trees stay in their rooms, a delete or folder toggle under a room spares the others iff the file it names belongs to that room |
| ForestCover.RootsCoverGrounded | backend/internal/executor/builder.go:174-187 | what hangs below the roots is exactly the nodes whose chain ends |
| ForestCover.CoverSplit | backend/internal/executor/builder.go:203-231 | starts that do not lie below one another have disjoint parts: nothing is met twice |
| TreeBuilder.MakeNodes | backend/internal/executor/builder.go:168-172 | one fresh node an id, the last file of an id winning |
| TreeBuilder.LastFileWins | backend/internal/executor/builder.go:168-172 | the row of an id is that of the last file with it |
| TreeBuilder.PlaceNode | backend/internal/executor/builder.go:176-187 | puts a node under its parent, or among the roots if the parent is nil or missing, once |
| TreeBuilder.BuildTree | backend/internal/executor/builder.go:167-190 | for every map order: each node carries exactly its children, the roots are exactly the nodes with a nil or missing parent |
| TreeBuilder.PrintTree | backend/internal/executor/builder.go:192-201 | ends and meets each node below the given ones exactly once |
| TreeWalk.ShownStep | backend/internal/executor/builder.go:211-218 | a file is shown iff it is a root or its parent is a shown folder |
| TreeWalk.VisitNode | backend/internal/executor/builder.go:205-226 | notes the entry path iff the node is the requested one and makes or writes the node at its own path |
| TreeWalk.WalkTree | backend/internal/executor/builder.go:203-231 | a complete walk visits exactly the shown nodes below its starts, each once and after its parent; one that fails has visited a part of them |
| Materialise.PathIsNames | backend/internal/executor/builder.go:205-205 | with ordinary names a node's path is the base followed by the names from root to node |
| Materialise.PathsDistinct | backend/internal/executor/builder.go:203-231 | visited nodes have distinct paths |
| Materialise.WalkMaterialises | backend/internal/executor/builder.go:203-231 | no call of the walk fails, nothing is overwritten, and every visited path reads back as a directory or as the text that was decoded for the file, empty if none was |
| Materialise.PathsSoundIffNamesOk | backend/internal/executor/builder.go:203-205 | shown names are ordinary and differ among siblings iff they hold no slash and every shown node has its own path inside the base |
| WalkOutcome.SpecialNameFails | backend/internal/executor/builder.go:219-227 | every walk that comes to a file named "", "." or ".." fails, wherever the file is and whatever else is visited |
| WalkOutcome.MoveWithoutNameFails | backend/internal/rooms/files_handler.go:139-191 | after a move that repeats no name every walk that comes to the file fails |
| WalkOutcome.WalkSucceedsIff | backend/internal/executor/builder.go:203-231 | over slash-free names, on any disk and in any map order, a walk succeeds iff no file it visits has a directory's path and no folder a file's; then the disk holds exactly what was there and what was visited |
| WalkOutcome.OrderMatters | backend/internal/executor/builder.go:176-187 | a folder "a" and a file "a/b" beside it: written if the folder comes first in the map order, failing if the file does |
| WalkOutcome.LastWriteWins | backend/internal/executor/builder.go:219-227 | on any disk and with any names, a path that several files share holds the text of the last one visited |
| WalkOutcome.WalkPersists | backend/internal/executor/builder.go:213-227 | whatever a walk writes, everything on the disk stays there and directories stay directories |
| WalkOutcome.WalkStaysInside | backend/internal/executor/builder.go:203-231 | if every shown path lies inside the temp directory, a walk touches nothing else |
| Containment.ContainedIffNeverClimbs | backend/internal/executor/builder.go:205-205 | names of any form: a file stays inside the temp directory, whatever that is called, iff its chain of names never climbs above it |
| Containment.SoundEverywhereIff | backend/internal/executor/builder.go:203-231 | names of any form: paths are sound for every temp directory iff no chain climbs and the cleaned relative paths are non-empty and all different |
| Containment.ClimbingName | backend/internal/executor/builder.go:205-205 | a top-level file named "../x" belongs beside the temp directory |
| Disk.RenderAppend | backend/internal/executor/builder.go:160-160 | the path string below a directory is the directory, a slash and the slash-joined names |
| Disk.TrimRendered | backend/internal/executor/builder.go:160-160 | stripping the directory and its slash leaves the slash-joined names |
| Disk.MkdirMakes | backend/internal/executor/builder.go:212-214 | making a directory fails iff a file lies on the way, and otherwise makes what is missing and keeps the rest |
| Disk.WriteReplaces | backend/internal/executor/builder.go:224-226 | writing a file fails iff there is no directory to write into or the target is one, and otherwise replaces that file and keeps the rest |
| Disk.FreshEntry | backend/internal/executor/builder.go:211-226 | making or writing a new entry of an existing directory succeeds and changes nothing else |
| Reconstruct.BasePath | backend/internal/executor/builder.go:144-145 | the temp directory is the component list of its own string |
| Reconstruct.NewTempDirIsUnused | backend/internal/executor/builder.go:144-145 | wherever /tmp is a directory the temp directory of a new execution can be made |
| Reconstruct.ActiveAreListed | backend/internal/executor/builder.go:59-68 | exactly the active files are built, in the listed order |
| Reconstruct.LanguageIsListed | backend/internal/executor/builder.go:61-64 | the returned language is that of the last listed file with the id, active or not |
| Reconstruct.EntryIsNames | backend/internal/executor/builder.go:152-160 | the entry path is the slash-joined names from root to the requested file |
| Reconstruct.WriteTree | backend/internal/executor/builder.go:131-158 | with ordinary names the walk leaves every shown file's text and all that was there; among slash-free names it succeeds iff no paths clash; with a file named "", "." or ".." it fails |
| Reconstruct.FailureCleans | backend/internal/executor/builder.go:153-158 | after a failure nothing is left in the temp directory and the rest of the disk is still there, untouched if every shown path lies inside |
| Reconstruct.ReconstructFileTree | backend/internal/executor/builder.go:28-165 | the whole: language, entry path and disk on success, nothing left below the temp directory on failure, nothing touched if a document cannot be decoded; success iff no paths clash; one file named "", "." or ".." makes every execution in the room fail |
| Reconstruct.PrintedIsPermutation | backend/internal/executor/builder.go:167-201 | on a forest the nodes under the roots are a permutation of the input files |
| ExplorerTree.SortSorts | frontend/src/utils/buildTree.ts:32-35 | folders come before files, and within each kind names are in order, for any total order of names |
| ExplorerTree.SortKeepsTies | frontend/src/utils/buildTree.ts:32-35 | the sort is stable: files that compare equal keep the order in which they were listed |
| ExplorerTree.GroupShrinks | frontend/src/utils/buildTree.ts:29-45 | what a file's own group shows is strictly less than what the group it is in shows: the recursion ends on every parent map |
| ExplorerTree.CollectContains | frontend/src/utils/buildTree.ts:29-45 | the tree of a key contains exactly the files below it, each once |
| ExplorerTree.CollectInOrder | frontend/src/utils/buildTree.ts:29-45 | in every sibling list folders come before files and names are in order within each kind; every node sits under its own parent |
| ExplorerTree.CreateTree | frontend/src/utils/buildTree.ts:11-27 | for every parent map, cyclic ones included: ends, contains what hangs below null once, in order |
| ExplorerTree.ShownIffReachesNull | frontend/src/utils/buildTree.ts:11-45 | a file is in the tree iff its chain reaches a null parent within the list |
| ExplorerTree.SameNodesIffNoOrphans | backend/internal/executor/builder.go:167-190 | browser and executor show the same nodes iff no file has a missing parent |
| EditLog.ReplayYjsToVersion | backend/internal/rooms/history_handler.go:214-252 | ends with the join of the file's blobs up to and including the first to reach the target, or the watermark; no assumption on order |
| EditLog.ReadsBelowWatermark | backend/internal/rooms/history_handler.go:225-229 | exactly the messages that can be fetched and lie below the watermark are looked at, and the first one if the topic has ever held any |
| EditLog.ReplayYjsToVersionWithTimeout | backend/internal/rooms/history_handler.go:293-329 | the same for what can be read before the deadline |
| EditLog.ReadHistoryEntries | backend/internal/rooms/history_handler.go:174-212 | lists version, time and user of the file's events in log order, up to the one that reaches a positive bound |
| EditLog.ReadHistoryEntriesWithTimeout | backend/internal/rooms/history_handler.go:254-291 | the same for what can be read before the deadline |
| EditLog.EventsInLogOrder | backend/internal/rooms/history_handler.go:182-209 | the history list shows exactly the file's events among those read, in log order |
| EditLog.ReplayJoinsListedEntries | backend/internal/rooms/history_handler.go:174-252 | a replay joins exactly the events that the list up to that version shows |
| EditLog.ReplaySettles | backend/internal/rooms/history_handler.go:214-329 | once reached, later appends and the choice of variant do not change a replay |
| EditLog.RepeatChangesNothing | backend/internal/rooms/history_handler.go:214-252 | a redelivered earlier message does not change a replay |
| EditLog.ReplayGivesReachedVersion | backend/internal/rooms/history_handler.go:234-248 | if states grow, a replay gives the state of the version that stopped it, in any log order |
| EditLog.OrderedLogReachesTarget | backend/internal/rooms/history_handler.go:246-248 | in version order and with the target's event below the watermark, that event stops the replay |
| EditLog.ReplayExactIffContained | backend/internal/rooms/history_handler.go:214-252 | stopped by its own event, a replay is exact iff every event read before is contained |
| EditLog.ReplayIsHighest | backend/internal/rooms/history_handler.go:234-248 | if states grow, a replay gives the state of the highest version it has read, or nothing |
| EditLog.ReplayRightIffOwnEventFirst | backend/internal/rooms/history_handler.go:214-252 | for strictly growing states and every target: a replay is right iff the first event to reach the target is its own; beyond the last accepted version it never is |
| MongoStore.DocumentRepository.SaveDocument | backend/internal/mongo/documents.go:59-75 | atomic set and increment with upsert; returns the new version |
| MongoStore.SnapshotRepository.GetLatestSnapshot | backend/internal/mongo/snapshots.go:89-101 | the snapshot of the highest cached version of the file, or none if there is none |
| MongoStore.NewestAfterWrite | backend/internal/mongo/snapshots.go:36-101 | writing below the newest version leaves the newest text, writing at or above replaces it |
| VersionHistory.StepKeepsInv | backend/internal/rooms/files_handler.go:340-408 | every step keeps: document version counts accepted states, events and pending snapshots carry the accepted state, nothing accepted is forgotten |
| VersionHistory.RunKeepsInv | backend/internal/rooms/files_handler.go:340-408 | the same over every interleaving |
| VersionHistory.AcceptedSaveSpawns | backend/internal/rooms/files_handler.go:352-408 | an accepted save stores the state under the next version, and its two goroutines hold the request's state, stamp, room and text under that version |
| VersionHistory.VersionsAreConsecutive | backend/internal/rooms/files_handler.go:352-353 | in every run the versions issued for a file continue its count without gap or repetition |
| VersionHistory.StepKeepsSnapsExact | backend/internal/rooms/history_handler.go:122-132 | a step keeps every snapshot of a file equal to its version's text iff it does not write a wrong backfill of that file |
| VersionHistory.RunKeepsSnapsExact | backend/internal/rooms/files_handler.go:369-408 | over every interleaving, blobs incomparable, effects failing, other files at will: a file's snapshots are exact throughout iff each of its backfills was |
| VersionHistory.ReplayIsExact | backend/internal/rooms/history_handler.go:112-120 | a replay stopped by the target's own event gives exactly the text accepted at that version |
| VersionHistory.ReachedReplayIsExact | backend/internal/rooms/history_handler.go:214-252 | if the version's event can be fetched below the watermark, in a log in version order and with growing states, the replay gives the accepted text |
| VersionHistory.HitEqualsMiss | backend/internal/rooms/history_handler.go:97-143 | the same answer on a cache hit and on a miss |
| VersionHistory.StepKeepsFaithful | backend/internal/rooms/history_handler.go:97-143 | for one file: saves of containing states and reads of reached versions keep every snapshot and pending backfill exact |
| VersionHistory.RunKeepsFaithful | backend/internal/rooms/history_handler.go:97-143 | the same over every such run |
| VersionHistory.CacheAgreesWithReplay | backend/internal/rooms/history_handler.go:97-143 | after every run that is clean for the file, in a log in version order with the version's event: replayed, cached and accepted text are one |
| VersionHistory.MissedReadExactIff | backend/internal/rooms/history_handler.go:97-132 | a missed read caches the right text iff the version has been accepted and its own event is the first to reach it; beyond the last accepted version never, for any text |
| VersionHistory.StepKeepsHistoryIff | backend/internal/rooms/history_handler.go:97-132 | one step keeps a file's snapshots and pending backfills exact iff it is no missed read whose guard fails |
| VersionHistory.RunKeepsHistoryIff | backend/internal/rooms/history_handler.go:97-132 | every interleaving in which a file's states grow and have different texts: its history is exact throughout iff the guard held at each missed read |
| VersionHistory.RunKeepsKeyIff | backend/internal/rooms/history_handler.go:97-132 | the same for one version: its snapshot, written or pending, is exact throughout iff the guard held at each missed read of it, whatever other versions were read |
| VersionHistory.InjectiveTextsTellApart | backend/internal/rooms/history_handler.go:234-251 | strictly growing states with an injective text meet that hypothesis |
| VersionHistory.RunKeepsPlausible | backend/internal/rooms/files_handler.go:340-408 | in every run each snapshot, written or pending, has a positive version and a text that some state has |
| VersionHistory.DedupLosslessIff | backend/internal/rooms/files_handler.go:340-350 | in every reachable state a dedup skip loses nothing iff nothing is cached or the newest cached text is the stored one |
| VersionHistory.QuiescentDedupIff | backend/internal/rooms/files_handler.go:340-408 | every run whose reads of the stored version were sound, settled: a skip loses nothing iff nothing is cached, the newest cached version is not beyond the stored one, or its text is the stored one |
| VersionHistory.DedupGuardIff | backend/internal/rooms/files_handler.go:340-350 | at any moment, saves in flight included: with exact snapshots and states of different texts, a skip loses nothing iff nothing is cached or the newest cached version is the stored one |
| VersionHistory.DedupGuardOfRun | backend/internal/rooms/files_handler.go:340-408 | the same after every run whose missed reads of the file were sound |
| VersionHistory.SettledDedupIsLossless | backend/internal/rooms/files_handler.go:340-350 | with no snapshot of the file pending or lost and all exact, the newest cached text is the stored document's |
| VersionHistory.QuiescentCacheIsCurrent | backend/internal/rooms/files_handler.go:340-408 | the same for every run from empty stores whose backfills of the file were exact |
| VersionHistory.BackfillAndDedup | backend/internal/rooms/history_handler.go:122-132 | an exact backfill changes the newest text only above the newest cached version |
| VersionHistory.SettledBackfillKeepsDedup | backend/internal/rooms/history_handler.go:122-132 | once settled, a backfill leaves the next dedup decision unchanged |
| HistoryServer.Server.BeginSave | backend/internal/rooms/files_handler.go:321-350 | not found, bad request, unchanged iff dedup says so, or pending |
| HistoryServer.Server.CommitSave | backend/internal/rooms/files_handler.go:352-409 | stores the state, issues the version and starts both goroutines with it; a failing store drops the save |
| HistoryServer.Server.StartGoroutines | backend/internal/rooms/files_handler.go:366-408 | event and snapshot carry the accepted state, text and version |
| HistoryServer.Server.DeliverEvent | backend/internal/rooms/files_handler.go:376-383 | one delivery appends the event to the log |
| HistoryServer.Server.EndPublish | backend/internal/rooms/files_handler.go:383-389 | the event is lost iff it was never delivered |
| HistoryServer.Server.CacheText | backend/internal/rooms/files_handler.go:392-408 | writes the captured text under the captured version, or loses it |
| HistoryServer.Server.GetHistoryAtVersion | backend/internal/rooms/history_handler.go:59-144 | invalid version, cached text, or replayed text with a backfill of that text started; on a miss the accepted text if the version's event lies within reach, in a log in version order and with growing states |
| HistoryServer.Server.Backfill | backend/internal/rooms/history_handler.go:122-132 | writes the replayed text under the requested version, unless the write fails |
| HistoryServer.Server.LoadState | backend/internal/rooms/files_handler.go:438-471 | the last accepted state, or no content if none was accepted |
| HistoryLimits.AgreementIsReached | backend/internal/rooms/history_handler.go:97-143 | a run that meets every hypothesis of the agreement and deduplication theorems, a backfill pending |
| HistoryLimits.SkippedWhileInFlight | backend/internal/rooms/files_handler.go:340-350 | a run in which a save is skipped though the stored text differs, a snapshot being on its way |
| HistoryLimits.FutureVersionPoisonsDedup | backend/internal/rooms/history_handler.go:97-132 | a settled run in which reading version 7 of a file at version 2 makes dedup skip a change |
| HistoryLimits.BackfillOverwrites | backend/internal/rooms/history_handler.go:122-132 | a settled run, newest cached and stored version both 2, in which a backfill read too early has overwritten the right snapshot and a change is skipped |
| HistoryLimits.LostEventMisreads | backend/internal/rooms/files_handler.go:383-386 | a run in which a lost event makes its version read as the next one |
| Channels.ChannelKeyInjective | backend/internal/websocket/hub.go:31-33 | different files of colon-free rooms have different channels |
| Channels.RoomChannelInjective | backend/cmd/executor/main.go:61-63 | different colon-free rooms have different channels |
| Channels.ChannelsDisjoint | backend/internal/websocket/room_hub.go:71-83 | a file's channel is never a room's |
| Channels.LockKeyInjective | backend/cmd/executor/main.go:57-59 | different files of colon-free rooms have different locks |
| Channels.ColonsCollide | backend/cmd/executor/main.go:57-63 | ids with colons do share locks and channels |
| ExecutionLock.StepKeepsOneIff | backend/cmd/executor/main.go:65-90 | one step: a second run becomes live on a file iff the step is a request for it while it has a live run older than 30 s |
| ExecutionLock.MutualExclusion | backend/cmd/executor/main.go:65-115 | in every run of any number of executors: at most one live run of a file in every state iff no request for it came while it had a live run older than 30 s |
| ExecutionLock.LockHeldWhileLive | backend/cmd/executor/main.go:65-115 | in such a run the lock is held while its run is live and within its 30 s, and by nobody else but for locks whose delete failed or whose pod crashed |
| ExecutionLock.TimelyRunsExclude | backend/cmd/executor/main.go:110-115 | when every run of a file reaches its delete within 30 s: at most one is live, and, if no delete failed and no pod crashed, the lock is held exactly while one is |
| ExecutionLock.LockLastsThirtySeconds | backend/cmd/executor/main.go:69-77 | while a run is live a second request for its file is accepted from 30 s on and not before |
| ExecutionLock.NoInterference | backend/cmd/executor/main.go:57-90 | accepting or releasing a run of one file leaves every other file's lock as it was |
| ExecutionLock.StepKeepsGroup | backend/cmd/executor/main.go:83-96 | every step keeps the wait group equal to the number of the pod's accepted, unfinished runs |
| ExecutionLock.DrainedShutdown | backend/cmd/executor/main.go:345-364 | when the wait returns no accepted run is in flight, and each finished run attempted one terminal event and one delete |
| ExecutionLock.OverrunLetsAnotherIn | backend/cmd/executor/main.go:69-69 | a run that lives for 30 s: two live runs on one file |
| ExecutionLock.LateDeleteFreesForeignLock | backend/cmd/executor/main.go:110-115 | its ownerless delete lets a third run in within the second's 30 s |
| ExecutionLock.TimeoutLeavesRun | backend/cmd/executor/main.go:359-364 | after the shutdown timeout an accepted run can be in flight |
| Executor.RedisStore.SetNX | backend/internal/redis/redis.go:74-85 | sets the key iff it is absent or expired and says so; an error changes nothing |
| Executor.ExecutorServer.Execute | backend/cmd/executor/main.go:65-90 | accepted iff the lock was free; the lock set for 30 s, the run counted and then started, in that order; the two refusals told apart |
| Executor.ExecutorServer.RunExecution | backend/cmd/executor/main.go:92-198 | exactly one terminal event, of the right kind, on the room's channel; a completed run's result stored and its event published; no temp directory left; all in order, the lock's delete and then Done last |
| Executor.ExecutorServer.RunInTempDir | backend/cmd/executor/main.go:117-198 | a completed run is reported, stored and published, a failed one reported; then its temp directory is removed |
| Executor.ExecutorServer.Deferred | backend/cmd/executor/main.go:96-115 | the lock is deleted and then the wait group is told |
| Executor.ExecutorServer.PublishError | backend/cmd/executor/main.go:200-210 | one error event on the room's channel |
| Hubs.CallKeepsPod | backend/internal/websocket/hub.go:35-131 | every call keeps: no empty sets, subscribed keys occupied and open at Redis once, gauges right up to counted drift |
| Hubs.RunKeepsPod | backend/internal/websocket/room_hub.go:34-139 | the same over every run with any failed subscription |
| Hubs.ClosedIsAbsorbing | backend/internal/websocket/hub.go:40-42 | a closed hub stays closed and empty, late unregisters included |
| Hubs.ConnectionGaugeExact | backend/internal/websocket/hub.go:35-131 | every disciplined run, shutdowns anywhere: the gauge equals the registered connections of both hubs less the unregisters made on a hub already shut down |
| Hubs.GaugeOfNewPod | backend/internal/websocket/room_hub.go:34-139 | from a new pod: exact until a hub is shut down, and once both are, below zero by the late unregisters |
| Hubs.RoomGaugeExact | backend/internal/websocket/room_hub.go:34-68 | with no failed subscription the room gauge equals the number of occupied rooms, shutdown included |
| Hubs.UnregisterBetweenShutdowns | backend/cmd/server/main.go:220-221 | one unregister between the two shutdowns leaves the gauge at minus one |
| Hubs.FailedSubscribeLeaks | backend/internal/websocket/room_hub.go:54-68 | a failed subscription leaves the room gauge one too high |
| HubServer.HubServer.Register | backend/internal/websocket/room_hub.go:34-52 | refused iff closed; otherwise the machine's step, the gauges and, on the room hub, one more join |
| HubServer.HubServer.SubscribeRedis | backend/internal/websocket/hub.go:79-84 | opens and records the subscription, or neither |
| HubServer.HubServer.Unregister | backend/internal/websocket/room_hub.go:54-69 | the machine's step and gauges, for either hub |
| HubServer.HubServer.Deliver | backend/internal/websocket/hub.go:86-99 | writes to each connection under the key exactly once |
| HubServer.HubServer.ReceivePublish | backend/internal/websocket/hub.go:86-99 | what one publish on a key's channel writes on a pod is exactly the copies that the fan-out theorems count |
| HubServer.HubServer.AllConns | backend/internal/websocket/hub.go:105-110 | collects every connection of every room, as many as are registered |
| HubServer.HubServer.Shutdown | backend/internal/websocket/room_hub.go:106-139 | closes and empties the hub and takes its connections and rooms off the gauges |
| FanOut.NeverTwice | backend/internal/websocket/hub.go:49-51 | after every run a publish is written at most once to a connection, and once iff its key is subscribed |
| FanOut.ExactlyOncePerKey | backend/internal/websocket/hub.go:71-100 | without a failed subscription: once to every connection under the key, never to another |
| FanOut.FileMessageExactlyOnce | backend/internal/websocket/hub.go:31-100 | a file's message reaches each connection of that file once, no other file's and no room's |
| FanOut.RoomMessageExactlyOnce | backend/internal/websocket/room_hub.go:71-104 | a room's message reaches each connection of that room once and no other |
| FanOut.RegisteredIsReached | backend/internal/websocket/hub.go:35-53 | a connection registered for a file of a colon-free room gets that file's message |
| CrossStore.RequestKeepsCorrespondence | backend/internal/rooms/files_handler.go:98-116 | every request keeps the documents' ids equal to those of the non-folder rows, room by room |
| CrossStore.DocumentsMatchRows | backend/internal/rooms/rooms_handler.go:26-129 | the same in every reachable state, cycles and parents in other rooms included |
| CrossStore.RequestKeepsSnapshotsIff | backend/internal/rooms/history_handler.go:97-132 | a request keeps every snapshot with a document of its own room iff a save names the file's room and a backfilling read an existing non-folder file and its room |
| CrossStore.SnapshotsOwnedIff | backend/internal/rooms/history_handler.go:97-132 | in every run of requests, history reads included, no snapshot is without a document of its room iff all of them do |
| CrossStore.ReadAfterDelete | backend/internal/rooms/history_handler.go:97-132 | a file created, deleted for good and then read leaves a snapshot without a document |
| CrossStore.SaveUnderOtherRoom | backend/internal/rooms/files_handler.go:321-408 | a save under another room's name leaves a snapshot that outlives the file's room |
| CrossStore.NewRoomHasMainFile | backend/internal/postgres/rooms.go:48-53 | a new room has one file: an active main.py in Python at the top, with an empty document |
| CrossStore.RequestedRowIs | backend/internal/rooms/files_handler.go:90-105 | field by field: the trimmed name, the parent, and for a file the given language or that of its extension |
| CrossStore.RequestedUpdateIs | backend/internal/rooms/files_handler.go:165-190 | field by field: which statement an update request makes, with which name, language and parent |
| CrossStore.SaveStores | backend/internal/rooms/files_handler.go:352-408 | a stored save sets the document's state and next version, caches its text under that version, and changes nothing else |
| CrossStore.FirstReadSticks | backend/internal/rooms/history_handler.go:97-140 | a read from version 1 on caches the replayed text under the request's room where nothing is cached; no later read of that version changes it |
| CrossStore.DeleteKeepsOthers | backend/internal/rooms/files_handler.go:263-284 | a permanent delete that ends removes the documents and snapshots of the subtree's files and keeps all others |
| CrossStore.DeleteRoomKeepsOthers | backend/internal/rooms/rooms_handler.go:112-125 | deleting a room removes the documents and snapshots filed under it and keeps all others |
| CrossStore.Backend.CreateRoom | backend/internal/rooms/rooms_handler.go:19-46 | a room with its default file and that file's document |
| CrossStore.Backend.CreateFile | backend/internal/rooms/files_handler.go:61-117 | bad request by the name's length; otherwise the trimmed name and the chosen language, a row, and a document iff it is no folder; failure changes nothing |
| CrossStore.Backend.UpdateFile | backend/internal/rooms/files_handler.go:128-197 | bad request, not found, failed, or the statement that the row's kind, the trimmed name and the chosen language call for |
| CrossStore.Backend.ToggleFile | backend/internal/rooms/files_handler.go:199-246 | not found, or the folder or file toggle that the row's kind calls for |
| CrossStore.Backend.SaveState | backend/internal/rooms/files_handler.go:321-408 | not found, bad request, unchanged iff dedup says so, or the state stored and its text cached under the new version |
| CrossStore.Backend.GetHistoryAtVersion | backend/internal/rooms/history_handler.go:59-144 | invalid version, the cached text, or the replayed one, which is then cached under the requested room and version |
| CrossStore.Backend.PermanentDeleteFile | backend/internal/rooms/files_handler.go:268-284 | removes the documents and snapshots of exactly the rows that the delete removes |
| CrossStore.Backend.DeleteRoom | backend/internal/rooms/rooms_handler.go:112-129 | removes the room's documents and snapshots, its row and, by cascade, its files |
| Names.TrimSpaceTrims | backend/internal/rooms/files_handler.go:98-101 | a stored name is the part of the requested one between its outer white space, and empty iff that was all white space |
| Names.SpaceCodes | backend/internal/rooms/files_handler.go:100-100 | which characters count as white space, by code point |
| Names.ExtOfSuffix | backend/internal/rooms/helpers_handler.go:64-65 | a suffix without dot or slash after a dot is the extension |
| Names.KnownLanguages | backend/internal/rooms/helpers_handler.go:64-103 | the language of each known extension, and of none |
| UserColor.PolynomialAppend | frontend/src/hooks/useRoomSocket.ts:10-16 | one more code unit multiplies the base-31 polynomial by 31 and adds the unit |
| UserColor.HashUserId | frontend/src/hooks/useRoomSocket.ts:10-16 | the base-31 polynomial of the UTF-16 units modulo 2^32 (ToUint32, section 7.1.7 of ECMA-262), every intermediate below 2^53 |
| UserColor.GetUserColor | frontend/src/hooks/useRoomSocket.ts:5-20 | one of the seven colours, picked by the polynomial modulo 2^32 and then 7 |

## Left out

- EditLog.ReplayYjsToVersion: the update bytes are sets of operations, of which the text is any function, so operations that Yjs holds back are covered; a blob that Yjs cannot decode is not modelled.
- EditLog.ReplayYjsToVersionWithTimeout: as for `ReplayYjsToVersion`.
- ExecutionLock.MutualExclusion: a `SET NX` that takes effect although its reply is an error is not modelled.
- Executor.RedisStore.SetNX: as for `MutualExclusion`.
- Executor.ExecutorServer.RunExecution: proved as the steps of one run with nothing in between; other runs interleave in `ExecutionLock`. Of a result only its output is kept, and publishing its event, which a goroutine of its own does, is done in place.
- HubServer.HubServer.Register: one class stands for both hubs, told apart by `which`.
- HubServer.HubServer.Deliver: a delivery is one atomic step; data races on the connection map during a broadcast are not modelled.
- CrossStore.Backend.SaveState: handlers run one at a time, no store fails, and the goroutine that caches a save or a read ends before the next request; the log, and saves that race, are in `HistoryServer`.
- CrossStore.Backend.ToggleFile: as a method it is given for ids off a cycle only, since on one its query does not end; `Handle` leaves the stores unchanged there.
- CrossStore.Backend.PermanentDeleteFile: as for `ToggleFile`.
- ExplorerTree.CreateTree: `localeCompare` is an arbitrary total order, and the sort is a stable insertion sort.
- WalkOutcome.WalkSucceedsIff: with slashes in names the outcome depends on the map order, so the exact condition is for slash-free names.
- Reconstruct.ReconstructFileTree: documents are decoded texts or one failure; file-name limits of the operating system and disk errors other than a name in the way are left out.
- Deleting a file while saves of it are pending, after which its document is made anew from version 1.
- A topic with several partitions: the readers read partition 0 only.
- Timestamps of rows, authors, roles, membership and authentication; the caller is taken to be authorised.
- Yjs itself, Docker containers, logs, traces and metrics other than the two gauges, configuration, generated gRPC code and drivers.
- `NotifyHub`: the same machine as `Hub` without gauges, so it would only repeat.
- The React components and the rest of the browser code.
