# Engram in Dafny

Engram is a store that several agents share. This project models the parts of it where correctness is hard
to see by reading, and proves what they promise:

- **The storage engine's write-ahead log** (`Wal`, `WalBatcher`, `Recovery`): the byte format, the batching
  loop, what a crash at any byte leaves behind, and what replay rebuilds.
- **Its keys, pages and cache** (`ContextKeys`, `Paging`, `Listing`, `StorageCache`, `StorageRuns`): an order-preserving index key,
  cursor pagination in both directions, and a write-through cache with the exact calls on which callers can
  tell it from the database.
- **The lock managers** (`EnhancedLocks`, `LockRuns`, `LockIndex`, `Waiters`, `Deadlock`, `SimpleLocks`): TTL locks with
  takeover, rollback and two-phase cleanup, the hand-off to waiting requests, and sorted acquisition of
  several locks. Each mutex section is one step of a state machine, and every theorem covers every
  interleaving of those steps with the pending persistence goroutines and cleanups.
- **The search index** (`SearchWords`, `SearchKeys`, `SearchIndex`, `SearchQuery`, `SearchStages`,
  `SearchBackend`, `SearchPages`): an inverted index over an ordered store that answers like a plain filter.
- **The event router** (`Router`): a two-way subscription index and bounded, lossy, ordered delivery.
- **The MCP message stores** (`McpKeys`, `McpStores`, `McpAgreement`): one interface on sorted slices and on
  encoded keys, and exactly when the two agree.

`Lex`, `Text`, `Bytes`, `Kv`, `Seqs`, `Options` and `Records` hold the shared vocabulary: byte-string order,
colon-separated fields and decimal numbers, fixed-width integers, and Badger as an ordered map with an iterator.

A Go string is a `string` with one character per byte. Clock readings, fresh UUIDs, the JSON codec (decoding
undoes encoding), `strings.ToLower`, storage outcomes and goroutine schedules are parameters or arbitrary
choices; ranging over a Go map picks elements in an arbitrary order. Code that updates state in place is a
class or a method with loops, proved against a specification function or a property stated outright; the
laws are lemmas about those specifications.

## What the proofs found

Where a law turned out false of the code, the code is modelled as it is and the law is proved with its
exact condition, or the failing input is given beside the theorem.

- The log's length field is 32 bits wide and an oversized payload's length is cut down silently: a log reads back
  exactly when every payload is shorter than 2^32 bytes (`Wal.RoundTripExactlyWhenFits`).
- Releases are not logged: recovery rebuilds the live database exactly when no lock was released after its last
  store; such a lock comes back (`Recovery.RebuildsLiveDatabase`).
- The drain loop re-reads its shrinking bound and takes at most half of the room left (`WalBatcher.Drain`).
- Not telling an empty metadata map from a missing one in an answer, the cache can be told from the database in exactly
  two ways (`StorageCache.Storage.ServeOne`). `omitempty` drops an empty map, so a cached context with an empty map
  accepts new metadata where the stored one panics on a nil map (`StorageCache.EmptyMapRun`). And an update edits the cached context before that panic, which the servers
  recover from, so later reads answer with edits that were never stored (`StorageCache.PanicRun`).
- `GetWorkUnit` fills the cache on a miss and then reports "not found" (`StorageCache.Storage.GetWorkUnit`).
- Index keys order negative times after positive ones (`ContextKeys.TimeKeyOrder`), and contexts with a colon leak into
  each other's scans (`ContextKeys.PrefixScanLeaks`, `SearchKeys.ColonLeaks`).
- A page limit of zero never makes progress (`Paging.ZeroLimitStandsStill`).
- A negative TTL lets cleanup delete a lock it never saw (`LockRuns.NegativeTtlBreaksCleanup`); `LockRuns.SeenStep` says
  exactly which steps can cause it.
- A second waiter for a path displaces the first, which is then never signalled (`Waiters.DisplacedIsNeverSignalled`).
- A waiting request that is handed to a goroutine and served after its caller gave up leaves a lock outside any call,
  and that can close a waits-for cycle (`Deadlock.OrphanClosesACycle`); `Deadlock.TidyStep` says which steps do it.
- The MCP stores disagree exactly on equal times that did not arrive in descending order of id
  (`McpAgreement.StoresAgreeExactly`).
- Indexing a changed unit again removes none of its old keys, so it stays findable by what it no longer carries
  (`SearchIndex.OnceCarriedStaysFound`); the search theorem is about units that do not change.
- Search results with equal times have no fixed order, so pages may overlap (`SearchPages.OrderUniqueExactly`).

## Model

| member | source | states |
|---|---|---|
| `Wal.LogFile.Start` | internal/storage/badger/storage.go:328-343 | an empty file becomes the file of no records; any other file is left alone |
| `Wal.LogFile.SyncBatch` | internal/storage/badger/storage.go:491-544 | a batch appends exactly the encoding of its records in order |
| `Wal.LogFile.ReplayLog` | internal/storage/badger/storage.go:232-325 | the read loop applies and reports what the recursive parser of the format says, for any bytes |
| `Wal.EncodeConcat` | internal/storage/badger/storage.go:513-525 | encoding distributes over concatenation of record lists |
| `Wal.BatchingIsInvisible` | internal/storage/badger/storage.go:491-544 | however records are grouped into batches the bytes of the file are the same |
| `Wal.ParseTorn` | internal/storage/badger/storage.go:262-285 | a record cut anywhere after its first byte is an error and is not applied |
| `Wal.CutEntries` | internal/storage/badger/storage.go:262-285 | cutting the encoded records anywhere parses to exactly the records wholly before the cut |
| `Wal.CrashSafety` | internal/storage/badger/storage.go:232-325 | for every record list and every cut of the file, replay applies exactly the records wholly before the cut, in order, and succeeds exactly at 0, after the magic, or on a record boundary |
| `Wal.WhollyBeforeUnique` | internal/storage/badger/storage.go:262-285 | the number of records wholly before a cut is determined by the cut |
| `Wal.RoundTripExactlyWhenFits` | internal/storage/badger/storage.go:491-544 | the uncut file gives back all records if and only if every payload length fits 32 bits |
| `Wal.FileInjective` | internal/storage/badger/storage.go:491-544 | two different record lists never have the same file |
| `Wal.CleanCutIsAFile` | internal/storage/badger/storage.go:232-325 | a cut on which replay succeeds is itself the file of the records replayed, so appending may go on |
| `Wal.FileStart` | internal/storage/badger/storage.go:41-43 | a file starts with the four bytes of the magic number, lowest first |
| `Wal.RecordLayout` | internal/storage/badger/storage.go:513-525 | a record is its type byte, eight bytes of time, four bytes of length, lowest first, and its data |
| `Wal.ReplaySucceedsExactly` | internal/storage/badger/storage.go:232-325 | on any bytes replay succeeds if and only if the file is empty or is the file of the records it applies; a wrong magic number applies nothing, and otherwise it stops where no whole record follows |
| `WalBatcher.Drain` | internal/storage/badger/storage.go:469-486 | the drain loop ends, conserves order and records, stays below the batch size, and takes half of the room rounded up or all that is queued |
| `WalBatcher.Select` | internal/storage/badger/storage.go:432-466 | each case of the select conserves the records in order and leaves the batch below the batch size |
| `WalBatcher.OneTurn` | internal/storage/badger/storage.go:431-487 | one turn of the loop conserves written, batched and queued records in order, whatever arrives meanwhile |
| `WalBatcher.ProcessWal` | internal/storage/badger/storage.go:420-488 | over every schedule written ++ batch ++ queue is what was submitted, batches never exceed the batch size, and after shutdown only queued records are unwritten |
| `WalBatcher.AnyCutReplaysAPrefix` | internal/storage/badger/storage.go:232-325 | after any schedule and any cut of the file, replay applies a prefix of what was submitted |
| `Recovery.ApplyLog` | internal/storage/badger/storage.go:287-320 | the replay loop, with its per-record transactions and skipped records, computes the left-to-right replay |
| `Recovery.LastWriteWins` | internal/storage/badger/storage.go:289-320 | replay over any database gives each written key the value of its last record and keeps every other key |
| `Recovery.ReplayAfterPartialReplay` | internal/storage/badger/storage.go:232-325 | replaying the whole log after any part of a replay ends in the same database; a second replay changes nothing |
| `Recovery.ReplayRepeatsCommit` | internal/storage/badger/storage.go:611-655 | a logged transaction replays to the writes it committed |
| `Recovery.JunkIsSkipped` | internal/storage/badger/storage.go:289-320 | a record of unknown type or one that does not decode is skipped and the replay goes on |
| `Recovery.RebuildsLocks` | internal/storage/badger/storage.go:1121-1254 | for every lock path, held locks are rebuilt, never stored ones are absent, and released ones reappear as last stored |
| `Recovery.RebuildsLiveDatabase` | internal/storage/badger/storage.go:289-320 | the flushed log of a sequential run rebuilds the live database exactly, if and only if no lock was released after its last store |
| `Recovery.RecoveryFromAnyPoint` | internal/storage/badger/storage.go:232-325 | recovery from the database of any earlier point of the run ends where recovery from nothing does |
| `Recovery.AnyCutRebuildsAPrefixOfTheRun` | internal/storage/badger/storage.go:232-325 | cutting a run's log file at any byte and replaying it rebuilds some initial part of that run |
| `ContextKeys.TimeKeyInjective` | internal/storage/badger/storage.go:679-691 | the context-time key determines context and time, whatever bytes the context holds |
| `ContextKeys.TimeKeyOrder` | internal/storage/badger/storage.go:679-691 | byte order is time order within a context if and only if both times have the same sign |
| `ContextKeys.PrefixScanExact` | internal/storage/badger/storage.go:773-773 | with colon-free contexts a prefix scan meets the context's keys and no others |
| `ContextKeys.PrefixScanMeets` | internal/storage/badger/storage.go:679-691 | for any two contexts a scan for one meets a key of the other if and only if they are equal or one goes on from the other after a colon |
| `ContextKeys.PrefixScanLeaks` | internal/storage/badger/storage.go:773-773 | a context with a colon is met by the scan for the part before the colon, whatever the two parts are |
| `ContextKeys.KindsApart` | internal/storage/badger/storage.go:31-37 | keys of units, contexts, locks and the time index never coincide |
| `Paging.ListWorkUnits` | internal/storage/badger/storage.go:759-861 | for any cursor and direction the page and next cursor are those of the specified scan |
| `Paging.PageIsASlice` | internal/storage/badger/storage.go:800-851 | a page is the front of what is left, and without a next cursor nothing is left |
| `Paging.FetchAll` | internal/storage/badger/storage.go:759-861 | following cursors from "" ends and the pages concatenate to the context's resolvable entries once each, or to the exact reversal; every page but the last is full |
| `Paging.EntriesInTimeOrder` | internal/storage/badger/storage.go:759-861 | those entries are the context's own, in ascending time from the epoch on |
| `Paging.ZeroLimitStandsStill` | internal/storage/badger/storage.go:802-851 | a zero limit returns an empty page and a cursor to the same entry |
| `Listing.LiveTimeEntry` | internal/storage/badger/storage.go:611-655 | after every run a time index entry holds the id of the last unit stored in its context at its time |
| `Listing.LiveUnit` | internal/storage/badger/storage.go:611-655 | after every run a unit's record is the last one stored with its id |
| `Listing.LiveTimeKeys` | internal/storage/badger/storage.go:645-648 | the time index has no other keys |
| `Listing.ListingAfterRun` | internal/storage/badger/storage.go:759-861 | after every run a context lists, at exactly the times at which it has units and in their order, the last unit stored at each, as far as the lookup has it |
| `Listing.TimesAscend` | internal/storage/badger/storage.go:679-691 | those times ascend when none is before the epoch |
| `Listing.ListContext` | internal/storage/badger/storage.go:759-861 | fetching all pages from the engine after a run gives that listing, or its reversal |
| `Listing.StoreAndList` | internal/storage/badger/storage.go:611-861 | units stored through the engine are listed so |
| `Listing.ListsOwnUnits` | internal/storage/badger/storage.go:759-861 | with fresh ids what is listed at a time of a context is the very unit stored with that context and time |
| `Listing.StoredIsListed` | internal/storage/badger/storage.go:611-655 | every stored unit shows in its context unless a later one has the very same time |
| `StorageCache.Storage.SetContext` | internal/storage/badger/storage.go:1315-1329 | the new entry is added and, over capacity, one entry is evicted, whichever it is |
| `StorageCache.Storage.SetLock` | internal/storage/badger/storage.go:1341-1355 | the same for cached locks |
| `StorageCache.Storage.SetUnit` | internal/storage/badger/storage.go:1288-1303 | the same for cached work units |
| `StorageCache.Storage.GetContext` | internal/storage/badger/storage.go:1030-1081 | answers the cached copy or else the stored record, caches what it read, and keeps every cached record equal to its stored one |
| `StorageCache.Storage.GetLock` | internal/storage/badger/storage.go:1162-1213 | answers exactly as the database alone would and keeps the cache coherent |
| `StorageCache.Storage.GetWorkUnit` | internal/storage/badger/storage.go:694-756 | answers from the cache alone, even when the miss has just put the stored unit into the cache |
| `StorageCache.Storage.StoreWorkUnitInternal` | internal/storage/badger/storage.go:611-675 | writes the unit and its time index entry only, and every cached record still equals its stored one |
| `StorageCache.Storage.StoreContextInternal` | internal/storage/badger/storage.go:989-1027 | writes the context's key only, and every cached record still equals its stored one |
| `StorageCache.Storage.StoreLockInternal` | internal/storage/badger/storage.go:1121-1159 | writes the lock's key only, and every cached record still equals its stored one |
| `StorageCache.Storage.AcquireLock` | internal/storage/badger/storage.go:1084-1118 | answer and new database are those of the engine without a cache, whose outcomes and exclusion the `StorageRuns` rows state |
| `StorageCache.Storage.ReleaseLock` | internal/storage/badger/storage.go:1216-1254 | answer and new database are those of the engine without a cache |
| `StorageCache.Storage.UpdateContext` | internal/storage/badger/storage.go:864-986 | what is answered, stored and cached; after a panic the cache still agrees with the database if and only if the copy is not cached or the edits change nothing |
| `StorageCache.MergeNames` | internal/storage/badger/storage.go:880-912 | the add and remove loops compute the merged list of names |
| `StorageCache.AddMissingMembers` | internal/storage/badger/storage.go:880-894 | adding keeps the old list as a front, adds exactly the missing names, and creates no repeats |
| `StorageCache.WithoutMembers` | internal/storage/badger/storage.go:895-912 | removing drops exactly the removed names |
| `StorageCache.Storage.ServeOne` | internal/storage/badger/storage.go:864-1254 | on a coherent cache a call answers, writes and leaves the cache as it should if and only if it is not one of the two kinds that show the cache |
| `StorageCache.Storage.Serve` | internal/storage/badger/storage.go:864-1386 | every sequential run, going on after panics, agrees with the engine without a cache up to the first call that shows the cache, whatever is evicted, within capacity; without empty metadata maps in requests the answers are the very same |
| `StorageCache.CacheShowsOnlyOnEmptyMap` | internal/storage/badger/storage.go:949-952 | an update of a copy and one of its stored form end differently if and only if the copy has an empty allocated map and the request brings metadata; otherwise they store the same bytes |
| `StorageCache.UpdateShows` | internal/storage/badger/storage.go:864-986 | the same for the copy an update finds in any coherent state |
| `StorageCache.EmptyMapRun` | internal/storage/badger/storage.go:864-986 | from the empty database, creating with an empty map and then adding metadata stores it with a cache and panics without one |
| `StorageCache.PanicRun` | internal/storage/badger/storage.go:864-986 | from the empty database, a rename that panics on a nil map is answered by the next read with a cache and not without one |
| `StorageRuns.AcquireOutcome` | internal/storage/badger/storage.go:1084-1118 | another agent's unexpired lock is refused and nothing changes; the holder's is extended under its id; otherwise the agent gets a new lock with the new id and expiry; no other key changes |
| `StorageRuns.ReleaseOutcome` | internal/storage/badger/storage.go:1216-1254 | a release deletes the lock if and only if holder and id match, and changes nothing else |
| `StorageRuns.CreateOutcome` | internal/storage/badger/storage.go:962-985 | creating puts each part of the request into its own field and stores it |
| `StorageRuns.UpdateOutcome` | internal/storage/badger/storage.go:872-961 | updating panics if and only if metadata comes to a nil map; else names are added and removed, the request's metadata wins, and id and creation time stay |
| `StorageRuns.StorageExclusion` | internal/storage/badger/storage.go:1084-1254 | over every run a stored lock's path is granted to another agent only if the holder released it with its id or it was asked for at or after the stored expiry |
| `EnhancedLocks.LockManager.TryAcquireLock` | internal/lockmanager/lockmanager_enhanced.go:358-450 | limit, extension, contention and takeover act on both maps as the transition function says |
| `EnhancedLocks.LockManager.ReleaseLock` | internal/lockmanager/lockmanager_enhanced.go:623-664 | the transition function of the run theorems, whose outcome `LockIndex.FreeOutcome` states |
| `EnhancedLocks.LockManager.ExtendLock` | internal/lockmanager/lockmanager_enhanced.go:836-869 | only the holder with the right id extends an unexpired lock, and nothing else changes |
| `EnhancedLocks.LockManager.RollbackLock` | internal/lockmanager/lockmanager_enhanced.go:490-500 | a rollback removes its own lock or nothing |
| `EnhancedLocks.LockManager.CleanupScan` | internal/lockmanager/lockmanager_enhanced.go:200-209 | the scan remembers exactly the expired locks with holder and id, in some order |
| `EnhancedLocks.LockManager.CleanupSweep` | internal/lockmanager/lockmanager_enhanced.go:211-242 | the write pass removes what is still expired, path by path |
| `EnhancedLocks.PersistWithRetries` | internal/lockmanager/lockmanager_enhanced.go:456-480 | at most MaxRetries + 1 attempts, stopping at the first success, and failing exactly when all fail |
| `LockRuns.StepInv` | internal/lockmanager/lockmanager_enhanced.go:194-243 | every step keeps index, limit, id freshness and clock invariants |
| `LockRuns.Perform` | internal/lockmanager/lockmanager_enhanced.go:194-895 | a manager that executes any legal run of events ends with the table the run says |
| `LockRuns.LockStep` | internal/lockmanager/lockmanager_enhanced.go:358-517 | one step leaves a lock with its id and holder, or removes it because it was freed by its id or had expired |
| `LockRuns.AgentLimit` | internal/lockmanager/lockmanager_enhanced.go:376-450 | in every reachable state held paths are indexed, no set is empty and no agent holds more than MaxLocksPerAgent locks |
| `LockRuns.LeavingIsDying` | internal/lockmanager/lockmanager_enhanced.go:433-442 | an id that leaves its path is nowhere in the table |
| `LockRuns.StaleIdsAreDead` | internal/lockmanager/lockmanager_enhanced.go:644-664 | over all continuations a dead id never returns and no release, extension or rollback with it changes the table |
| `LockRuns.KeptUntilExpiry` | internal/lockmanager/lockmanager_enhanced.go:358-517 | a lock never freed by its id stays with its holder until its current expiry |
| `LockRuns.ExclusiveGrants` | internal/lockmanager/lockmanager_enhanced.go:358-517 | under any interleaving no other agent is granted a held path before the lock's current expiry unless it was freed by its own id |
| `LockRuns.SweepUsesTheHolder` | internal/lockmanager/lockmanager_enhanced.go:211-226 | the agent remembered by the scan is the holder whose index entry must go |
| `LockRuns.SeenStep` | internal/lockmanager/lockmanager_enhanced.go:358-450 | a step brings an expired lock other than the one seen to a scanned path if and only if it sets an expiry before the cutoff on another lock there |
| `LockRuns.ScansStep` | internal/lockmanager/lockmanager_enhanced.go:194-243 | the same for all pending scans at once |
| `LockRuns.MatchThroughoutExactly` | internal/lockmanager/lockmanager_enhanced.go:194-243 | the pending scans match the table throughout a run if and only if no step of it backdates |
| `LockRuns.ForwardNeverBackdates` | internal/lockmanager/lockmanager_enhanced.go:358-450 | with non-negative TTLs and extensions no step does |
| `LockRuns.SweepSoundExactly` | internal/lockmanager/lockmanager_enhanced.go:211-242 | a write pass deletes only what its scan saw if and only if what is expired at the scanned paths is what the scan saw |
| `LockRuns.CleanupIsSound` | internal/lockmanager/lockmanager_enhanced.go:194-243 | in every reachable state a pending write pass deletes only the very locks its scan saw if and only if no other expired lock sits at a scanned path; that is so, with the right index entries removed, when no step backdated a lock |
| `LockRuns.NegativeTtlBreaksCleanup` | internal/lockmanager/lockmanager_enhanced.go:194-243 | for every configuration a concrete run with a negative TTL deletes another lock and leaves its index entry |
| `LockIndex.AcquireOutcome` | internal/lockmanager/lockmanager_enhanced.go:358-454 | which acquisitions are refused, and for the others the handle, expiry, id, index entry and persistence goroutine |
| `LockIndex.FreeOutcome` | internal/lockmanager/lockmanager_enhanced.go:623-664 | a release by the holder with the id removes the lock and its path from the holder's set and nothing else; any other changes nothing |
| `LockIndex.RollbackOutcome` | internal/lockmanager/lockmanager_enhanced.go:489-503 | the same for the rollback of a lock with its own id |
| `LockIndex.ProlongOutcome` | internal/lockmanager/lockmanager_enhanced.go:836-869 | a prolongation by the holder with the id of an unexpired lock sets the expiry to the extension from now; any other changes nothing |
| `LockIndex.CleanupRemovesTheExpired` | internal/lockmanager/lockmanager_enhanced.go:194-243 | an uninterrupted cleanup removes exactly the expired locks, each from its holder's set |
| `LockIndex.EntryStep` | internal/lockmanager/lockmanager_enhanced.go:194-664 | after any step a path is in an agent's set if and only if the agent holds it, or it was there before and the step did not clear it |
| `LockIndex.IndexExactly` | internal/lockmanager/lockmanager_enhanced.go:428-450 | over every run a path is in an agent's set if and only if the agent holds it or it is a stale entry left by a takeover |
| `LockIndex.OrderlyIndexIsExact` | internal/lockmanager/lockmanager_enhanced.go:441-450 | without takeovers an agent's set is exactly the paths it holds |
| `LockIndex.LimitMetExactly` | internal/lockmanager/lockmanager_enhanced.go:376-382 | then the limit is met if and only if the agent holds that many locks |
| `Waiters.WaiterTable.RegisterRequest` | internal/lockmanager/lockmanager_enhanced.go:547-563 | a request takes the path's slot and displaces the one there |
| `Waiters.WaiterTable.NotifyWaiting` | internal/lockmanager/lockmanager_enhanced.go:255-274 | the waiting request leaves the map and gets a result into its channel, as `Waiters.WaitingStep` states |
| `Waiters.Classify` | internal/lockmanager/lockmanager_enhanced.go:299-315 | the first loop separates exactly the timed out from the acquirable requests |
| `Waiters.WaiterTable.CheckWaiting` | internal/lockmanager/lockmanager_enhanced.go:292-355 | timed out requests leave signalled, acquirable ones leave handed over, the others stay, in any order |
| `Waiters.WaiterTable.FinishRequest` | internal/lockmanager/lockmanager_enhanced.go:566-573 | only a request still in its slot is removed and cancelled |
| `Waiters.StepInv` | internal/lockmanager/lockmanager_enhanced.go:255-355 | every step keeps each request's hand-off state linear |
| `Waiters.HandOffIsLinear` | internal/lockmanager/lockmanager_enhanced.go:255-355 | in every interleaving a request leaves once and is signalled once at most, no send is dropped, and no handed request is cancelled |
| `Waiters.WaitingStep` | internal/lockmanager/lockmanager_enhanced.go:255-355 | a notification and a timeout put a result into a waiting request's channel, a free path hands it to a goroutine that can deliver, and any other step but its displacement and its own end leaves it waiting |
| `Waiters.RegisterStep` | internal/lockmanager/lockmanager_enhanced.go:547-563 | a registered request waits in its path's slot, unsignalled, with its deadline |
| `Waiters.DeliverStep` | internal/lockmanager/lockmanager_enhanced.go:345-353 | a goroutine can always deliver, and its result reaches the channel |
| `Waiters.NobodyIsForgotten` | internal/lockmanager/lockmanager_enhanced.go:255-355 | over every run a request out of the map has been signalled, is about to be, was cancelled by its own waiter, or was displaced by a later request |
| `Waiters.RegisteringDisplaces` | internal/lockmanager/lockmanager_enhanced.go:560-563 | registering for an occupied path takes the earlier request out unsignalled |
| `Waiters.DisplacedIsNeverSignalled` | internal/lockmanager/lockmanager_enhanced.go:560-563 | in no continuation does a displaced request get a signal |
| `Deadlock.ReleaseAllEffect` | internal/lockmanager/lockmanager_enhanced.go:758-765 | the roll back loop removes exactly the agent's locks it has ids for |
| `Deadlock.WaitsUpwards` | internal/lockmanager/lockmanager_enhanced.go:744-772 | in a tidy state each agent waits for a path above those it holds |
| `Deadlock.NoCycle` | internal/lockmanager/lockmanager_enhanced.go:744-772 | a tidy state has no waits-for cycle of any length |
| `Deadlock.HandedWhileWaiting` | internal/lockmanager/lockmanager_enhanced.go:292-355 | in every run a request is handed over only for an agent waiting for that path at that moment, while nobody holds it |
| `Deadlock.TidyStep` | internal/lockmanager/lockmanager_enhanced.go:520-620 | a step keeps the state tidy if and only if it orphans no lock |
| `Deadlock.DeadlockFree` | internal/lockmanager/lockmanager_enhanced.go:520-772 | for any number of agents and any run without orphaned locks the waits-for graph has no cycle |
| `Deadlock.OrphanClosesACycle` | internal/lockmanager/lockmanager_enhanced.go:292-620 | for every limit but one lock per agent, a concrete run in which a waiter gives up after its request was handed over ends in a waits-for cycle |
| `SimpleLocks.BasicLockManager.AcquireLock` | internal/lockmanager/lockmanager.go:141-212 | extension, contention and takeover act on the table as the transition function says |
| `SimpleLocks.BasicLockManager.ReleaseLock` | internal/lockmanager/lockmanager.go:215-260 | only the holder with the right id removes a lock |
| `SimpleLocks.BasicLockManager.RollbackLock` | internal/lockmanager/lockmanager.go:188-201 | a rollback removes its own lock or nothing |
| `SimpleLocks.BasicLockManager.CleanupScan` | internal/lockmanager/lockmanager.go:112-123 | the scan finds exactly the expired paths |
| `SimpleLocks.BasicLockManager.CleanupSweep` | internal/lockmanager/lockmanager.go:125-138 | the write pass removes what is still expired, path by path |
| `SimpleLocks.EnhancedRunsRefineBasic` | internal/lockmanager/lockmanager.go:112-260 | every run of the enhanced manager in which the limit is not met and nothing is extended by id is, on the lock table, the basic manager's run of the same events |
| `SimpleLocks.AcquireKeepsOwned` | internal/lockmanager/lockmanager.go:281-307 | an acquisition extends the owned paths or is refused at a path that is none of them |
| `SimpleLocks.BasicLockManager.ReleaseAcquired` | internal/lockmanager/lockmanager.go:296-301 | the roll back removes every acquired path, duplicates included, and touches no other |
| `SimpleLocks.BasicLockManager.AcquireMultipleLocks` | internal/lockmanager/lockmanager.go:281-307 | success exactly when no requested path is held by another agent at its turn; it returns the live id of every path in sorted order; failure leaves none of the earlier paths and every other path unchanged |
| `SearchWords.SplitIntoWords` | internal/search/search.go:284-312 | returns exactly the maximal runs of letters and digits of the lower-cased text, each once |
| `SearchWords.IsTextPayload` | internal/search/search.go:315-330 | true exactly when the first 512 bytes hold no control byte but tab and line ends |
| `SearchKeys.PrefixExact` | internal/search/badger_backend.go:196-240 | a prefix scan for any value meets exactly the keys written for that value |
| `SearchKeys.FieldKeyExact` | internal/search/badger_backend.go:659-663 | a lookup key determines index, value and id |
| `SearchKeys.ColonLeaks` | internal/search/badger_backend.go:642-657 | a colon in a unit's field lets it into the scan for the part before the colon |
| `SearchKeys.FieldKeyGivesIdBack` | internal/search/badger_backend.go:581-590 | the last part of a key is the unit's id |
| `SearchKeys.StampKeyReadsBack` | internal/search/badger_backend.go:870-887 | a time stamp key ends in the id of its unit and no other, and its third part reads back as the unit's time |
| `SearchIndex.PutWords` | internal/search/badger_backend.go:226-240 | exactly the words of three bytes and more get keys |
| `SearchIndex.PutMeta` | internal/search/badger_backend.go:242-264 | whatever order the map is ranged in, exactly the metadata keys and the words of the values are written |
| `SearchIndex.IndexUnit` | internal/search/badger_backend.go:174-264 | indexing a unit writes exactly the unit's keys and leaves every other key alone |
| `SearchIndex.IndexOneMore` | internal/search/badger_backend.go:164-298 | the index of a set of units becomes the index of that set with the unit added |
| `SearchIndex.LookupExact` | internal/search/badger_backend.go:659-668 | a lookup answers whether the unit with that id carries the value |
| `SearchIndex.OnceCarriedStaysFound` | internal/search/badger_backend.go:164-298 | what any indexed version of a unit carried stays findable under its id, whatever versions follow |
| `SearchIndex.ScanExact` | internal/search/badger_backend.go:642-657 | a scan finds the ids of exactly the units that carry the value |
| `SearchQuery.ScanKeys` | internal/search/badger_backend.go:577-590 | the iterator loop meets every stored key with the prefix once and no other |
| `SearchQuery.MentionsExactly` | internal/search/badger_backend.go:225-264 | the words indexed for a unit are those of three bytes and more in its text payload and metadata values |
| `SearchQuery.Intersect` | internal/search/badger_backend.go:597-632 | from any first list and in any order, with the early exit and the skipped equal lists, the result is what all lists share |
| `SearchQuery.TextMatches` | internal/search/badger_backend.go:564-639 | an id is matched exactly when some query word has a hit and every query word with a hit hits it |
| `SearchQuery.CollectAny` | internal/search/badger_backend.go:673-690 | collects the ids found for any of the values |
| `SearchQuery.KeepAny` | internal/search/badger_backend.go:691-705 | keeps exactly the ids that one of the values is indexed for |
| `SearchQuery.KeepAll` | internal/search/badger_backend.go:797-816 | keeps exactly the ids that all metadata entries are indexed for |
| `SearchStages.TextFoundExact` | internal/search/badger_backend.go:564-639 | the text stage finds the ids of exactly the units that mention every query word some unit mentions |
| `SearchStages.OneOfExact` | internal/search/badger_backend.go:641-742 | collecting and filtering by context, agents or types accept the same ids: those of the units that pass |
| `SearchStages.CollectMeta` | internal/search/badger_backend.go:745-797 | whichever metadata filter collects first, the ids are those of the units with all the entries |
| `SearchStages.Collect` | internal/search/badger_backend.go:564-795 | the first filter given collects the ids of exactly the units it accepts |
| `SearchStages.Narrow` | internal/search/badger_backend.go:658-817 | a later filter keeps the ids of exactly the units it accepts |
| `SearchStages.Stage` | internal/search/badger_backend.go:641-817 | after each stage the ids are those of the units that pass the filters so far, or none if none was given |
| `SearchStages.AllIds` | internal/search/badger_backend.go:822-853 | without filters every stored unit is listed once and the count is their number |
| `SearchStages.MatchedIds` | internal/search/badger_backend.go:558-853 | the matched ids are those of the units that pass all given filters, and the total is their number |
| `SearchBackend.SortByTimestampDesc` | internal/search/search.go:776-788 | the exchange sort leaves a permutation in descending time |
| `SearchBackend.LatestStamp` | internal/search/badger_backend.go:860-889 | the latest time among the time stamp keys that end in the id |
| `SearchBackend.LatestIsTime` | internal/search/badger_backend.go:860-889 | that time is the unit's own |
| `SearchBackend.OrderIds` | internal/search/badger_backend.go:855-906 | the matched ids, each once, with their times, newest first |
| `SearchBackend.Backend.IndexBatch` | internal/search/badger_backend.go:164-298 | whatever the batches, the index is that of the set of units with an id indexed so far |
| `SearchBackend.Backend.Search` | internal/search/badger_backend.go:543-952 | the answer is a page of the plain filter's units in a newest-first order, with their number as total and, on request, the stored units; a negative offset into a non-empty answer panics |
| `SearchPages.OrderUniqueExactly` | internal/search/search.go:776-788 | an answer has a single newest-first order if and only if no two of its units share a time |
| `SearchPages.FetchPages` | internal/search/badger_backend.go:908-920 | with distinct times, pages at offsets 0, L, 2L, ... concatenate to the whole answer newest first |
| `Router.EventRouter.Subscribe` | internal/router/router.go:149-178 | registers the subscription and keeps the index exact |
| `Router.EventRouter.Unsubscribe` | internal/router/router.go:181-204 | removes the subscription and keeps the index exact without empty sets |
| `Router.EventRouter.UpdateSubscription` | internal/router/router.go:207-242 | moves the subscription to its new contexts and keeps its channel |
| `Router.EventRouter.RouteEvent` | internal/router/router.go:94-146 | routing through the index, in any order, is routing to everyone who lists the context; what that delivers, `Router.RoutingDelivers` states |
| `Router.EventRouter.PerformCleanup` | internal/router/router.go:260-283 | removes exactly the subscriptions idle for more than five minutes |
| `Router.EventRouter.Shutdown` | internal/router/router.go:286-302 | leaves no subscription and no index entry |
| `Router.EventRouter.Perform` | internal/router/router.go:94-302 | over every run with fresh ids the index is exact: an id is in a context's set if and only if it is registered and lists it, and no set is empty |
| `Router.IndexDetermined` | internal/router/router.go:149-242 | the subscriptions determine the index |
| `Router.RunFaithful` | internal/router/router.go:94-146 | what a subscriber was offered, received and has buffered follows from the operations alone |
| `Router.DeliveryIsOrdered` | internal/router/router.go:94-146 | over every run deliveries are an in-order, duplicate-free selection of the events routed to the contexts listed at the time |
| `Router.LostOnlyWhenFull` | internal/router/router.go:131-145 | an event is lost to a subscriber if and only if its buffer is full at that moment |
| `Router.RoutingDelivers` | internal/router/router.go:94-146 | after every run an event that names a context is appended to the channel of every subscription that lists it and has room, and to no other; an absent event or one without a context changes nothing |
| `Router.CleanupExactly` | internal/router/router.go:260-283 | after every run a cleanup removes a subscription if and only if it was last subscribed, changed or sent an event it had room for more than five minutes before |
| `Router.RegisteredExactly` | internal/router/router.go:149-302 | after every run exactly those are registered who subscribed and have not since unsubscribed, been idle at a cleanup, or met a shutdown |
| `McpKeys.TimeKeyGivesIdBack` | apps/mcp/internal/badger_storage.go:366-392 | a time key gives its message id back |
| `McpKeys.TimeKeyOrder` | apps/mcp/internal/badger_storage.go:366-368 | zero-padded time keys of a context order by time, then by id |
| `McpKeys.TimePrefixExact` | apps/mcp/internal/badger_storage.go:371-373 | a prefix scan meets the time keys of its own context only |
| `McpStores.MemoryStore.StoreMessage` | apps/mcp/internal/memory_storage.go:29-63 | stores the message and re-sorts its context's index stably |
| `McpStores.MemoryStore.GetRecentMessages` | apps/mcp/internal/memory_storage.go:66-93 | the loop returns the messages behind the front of the index |
| `McpStores.MemoryStore.SearchMessages` | apps/mcp/internal/memory_storage.go:96-156 | the loop with its early exit returns the front of all matches, then the offset is applied |
| `McpStores.BadgerStore.StoreMessage` | apps/mcp/internal/badger_storage.go:53-96 | writes the message under its key and its time and type keys |
| `McpStores.BadgerStore.GetRecentMessages` | apps/mcp/internal/badger_storage.go:99-168 | returns the front of what a reverse scan of the time index resolves |
| `McpStores.BadgerStore.SearchMessages` | apps/mcp/internal/badger_storage.go:243-306 | the iterator loop with its early exit returns the front of all matches, then the offset is applied |
| `McpAgreement.MemoryIndexIsNewestFirst` | apps/mcp/internal/memory_storage.go:41-52 | after any stores the memory index lists the context's messages newest first, equal times in order of arrival |
| `McpAgreement.BadgerListInKeyOrder` | apps/mcp/internal/badger_storage.go:99-168 | after any stores the Badger store lists exactly the context's messages by time and then id, both descending |
| `McpAgreement.StoresAgreeExactly` | apps/mcp/internal/badger_storage.go:99-168 | the two stores list the same sequence if and only if equal times arrived in descending order of id |
| `McpAgreement.StoresAnswerAlike` | apps/mcp/internal/memory_storage.go:66-156 | with distinct times per context both stores answer every recent-messages and type-free search call alike |
| `McpAgreement.TypeIndexExactly` | apps/mcp/internal/badger_storage.go:83-87 | the type index holds exactly one key per message, with its context, type, time and id |
| `McpAgreement.FoundExactly` | apps/mcp/internal/memory_storage.go:126-155 | a search answers the matches in order, as many as the limit, from the offset on when that lies inside |
| `McpAgreement.AskBoth` | apps/mcp/internal/memory_storage.go:29-156 | the two store objects, filled with the same messages, return the same newest messages and the same matches, position by position |

## Left out

- HTTP, WebSocket, SSE and stdio layers, the client library, configuration, metrics, logging: plumbing without a hard property.
- Weaviate and embedding backends, Badger's own internals, garbage collection and compaction: behaviour of other systems; a transaction here commits atomically and succeeds.
- Failed commits, failed syncs and partial writes of the log other than a cut at some byte.
- Races between concurrent storage calls, and between a router send and the closing of its channel: `routeEvent` and storage calls are atomic steps.
- JSON itself: a codec whose decoding undoes encoding, up to `omitempty` on a context's metadata map.
- StorageCache.Storage.UpdateContext: contexts are values except for the in-place edit before a panic, so a caller that keeps a returned context and edits it behind the cache's back is not modelled.
- Paging.FetchAll: the lookup is fixed while pages are fetched, although `GetWorkUnit` fills the cache as it goes; a negative limit, on which Go's `make` panics, is not a `nat`.
- WalBatcher.ProcessWal: a batch size of zero is excluded (the loop would then write every record on its own).
- Deadlock.DeadlockFree: assumes that no step orphans a lock; `TidyStep` and `OrphanClosesACycle` say why, and locks taken outside `AcquireMultipleLocks` are not in the graph. A waiting call may retry at any time, not only after a signal, which only adds runs.
- SearchBackend.Backend.IndexBatch: relationship keys are not written.
- McpStores.MemoryStore.StoreMessage: the type index, which only typed searches read, is not kept.
- The manager's and the storage's lock ids are separate, and nothing is claimed about storage mirroring the lock table.
- Delays between retries (floating-point backoff and jitter): only the number of attempts is modelled.
- Search with units that lack a time stamp (the clock is read), relationship keys and `FindByRelationship`, and integer overflow of offset plus limit.
- The older search in `internal/search/search.go`, which hard-codes some answers; only that file's helpers are modelled.
- Typed MCP searches (the memory store ranges over a map, so their order is arbitrary), message ids stored twice, and `GetMessage`.
- A receiver blocked on an unbuffered router channel: a channel of capacity zero loses every event here.
- The batching of `processIndexQueue`: any sequence of batches is covered instead.
- Loading locks at start-up (the code starts with an empty table), listing and counting locks, and the notifier's broadcast, a fan-out like the router's.
