# Verified model of the Filscan chain backend

Filscan is a block explorer for Filecoin. Its backend follows the chain of a Lotus node, keeps
the newest tipsets in memory until enough others confirm them, stores confirmed tipsets in
MongoDB, walks from the first confirmed tipset down to genesis, keeps a rolling cache of miner
power, and accounts for mining rewards. This project models those four stateful components and
proves what they guarantee over whole runs. Check it with `dafny verify dfyconfig.toml`
(Dafny 4.11).

## The parts

| file | what it holds |
|---|---|
| `Chain.dfy` | tipsets, the store a node serves, lineage down to genesis |
| `TipsetCache.dfy` | the deque of unconfirmed tipsets: specification and class |
| `Pipeline.dfy` | finality of confirmed tipsets over any feed of notifications |
| `SyncedPaths.dfy`, `PathList.dfy` | synced intervals and their merging, on values and as objects that share their end marks |
| `SyncMachine.dfy`, `WalkOrder.dfy`, `Documents.dfy`, `Claims.dfy` | the two threads on the interval list, step by step: invariant and progress, order of visits, the documents that the walker deletes, and what the documents claim |
| `WholeRun.dfy` | pipeline and threads together, from start-up on |
| `Filscaner.dfy` | the handlers and the walk as code; every action is a step of the machine, and each thread may act between any two actions of the other |
| `MinerRows.dfy`, `MinerTable.dfy`, `MinerView.dfy`, `TopMiners.dfy`, `MinerCache.dfy` | buckets and rows, outcomes of an update, as-of view over runs and from start-up, choice of miners, and the class with its arrays |
| `Rewards.dfy`, `RewardRecords.dfy`, `RewardRounds.dfy`, `RewardLoop.dfy`, `TokenUtil.dfy` | reward records and batches, what the records say about their blocks, the outer loop, the crediting loop as code, released and future rewards |

A method is tied to its specification by its `ensures`; the theorems are about the specification.
`Filscaner.Valid` says that the object is exactly where `SyncMachine.Run` is after the recorded
steps, so every theorem about runs of the machine holds of the object.

Tipsets are values `(key, parents, height)` in a store where a parent is strictly lower than its
child and only genesis has no parents. Every sequence of tipsets is ordered newest first. Requests to the
node and calls to the database may fail at any time: each thread, and each miner cache, has a sequence of
replies (`Chain.Replies`) that says which of its calls are answered, and counts the calls it has made, so that
a method can promise what it does when they are. Every critical section and every database
call is one atomic step, and the steps of the two threads interleave in any order.

## What comes out

* **Finality.** Deque plus confirmed history is one chain, and nothing confirmed is rolled back,
  *exactly* as long as every fork point is still cached or the chain simply grows and the node
  answers. A fork below the deque, or one lost request on a plain extension, breaks it for good
  (`DeepForkRollsBack`, `LostRequestTearsHistory`). That the parent of the last applied tipset is
  cached at every point has its own exact condition, `Secure`: before anything is confirmed, a
  skipped sibling can lose it (`SkippedSiblingLosesParent`).
* **Confirmation.** At any point of any run, a tipset is confirmed only with exactly `max_size` linked
  tipsets cached above it (`RunsConfirmWhenFull`). A plain extension grows the deque by one until it is full
  and confirms the oldest tipset from then on (`PlainExtension`); a fork point at depth d costs exactly the
  d tipsets above it (`OneNotification`).
* **Synchronisation.** Whatever the interleaving and whatever fails, an interval in the list or in
  the database covers only tipsets that are stored, in a thread's hands, in the pending batch, or
  given up by a thread after a failed call. At genesis everything below the start is stored, and
  everything confirmed *exactly* if what failing calls of the head thread gave up has been stored all
  the same (`FromStartUp`). The branch that the source calls impossible (fs_syncer.go:36) is
  unreachable.
* **Claims.** The head thread writes the interval before it stores the tipset, so the database claims
  each newly confirmed tipset before it is stored. Every claim is stored *or about to be*, throughout
  a run, *exactly* as long as no call fails that gives up a tipset which a document covers, and no
  interval is written over a tipset given up before (`HonestThroughout`); a failed walker followed by a
  confirmation is enough to break it (`FailedWalkLeavesClaim`). Without failing calls all documents can
  be trusted at the next start (`TrustedAfterStop`).
* **Documents.** A walker whose calls all succeed is stopped before genesis only for want of a document
  to delete. From disjoint loaded intervals that happens *exactly* when one of them consists of the
  first safe tipset alone and has the only document under its heights (`StrandedIff`,
  `ReloadedTipsetStrands`). The walk as code returns normally *exactly* if all its calls are answered
  (`SyncToGenesis`, `TaskSyncToGenesis`), as long as every interval has its document.
* **Merging** covers the union of both intervals except when one is strictly inside the other: then
  the outer one loses exactly what lies below the inner one's tail, which the walk stores again. Intervals that are not adjacent by key
  are merged on their heights alone, so that intervals on different branches merge as well
  (`BranchesMerge`).
* **Miner cache.** Start-up builds the as-of view of the database for the hourly cache, whatever the
  age of the states that come in; for the daily one exactly when no top miner has a state of the
  present day. From there on the cache answers like an as-of query over everything recorded
  *exactly* as long as every update it takes in comes no later than `next_refresh_time()`, miners come
  in with their newest state while the database has all of the history that their buckets should show,
  and the window is not moved onto a state that a row should show (`LateUpdateLosesView`,
  `BehindNewestLosesView`; a late state that is turned away does no harm, `LateNewcomerIsHarmless`).
  The database may lag in any way; since states wait in a write buffer, and a flush before it is full
  drops them (filscaner/fs_models.go:29-67), it usually does, and a newcomer's row then has gaps
  (`LaggingDatabaseLosesView`). The set of miners is a true top-N over first-time miners *exactly*
  as long as none is passed over because the database reports a newer state (`TopOfAllMiners`,
  `StrongMinerPassedOver`). After an update of a kept miner the remembered minimum can be stale, and
  then a stronger newcomer is turned away (`StaleMinimumTurnsAway`). In a full table a new miner with more
  power than the remembered minimum is kept *exactly* if its state is for the newest bucket, the database
  does not answer, or it has no newer state (`Cache.Update`).
* **Rewards.** Every record counts exactly the blocks of its height, miner by miner, and each block is paid the
  reward at the coins that remained when its height was reached (`RecordsOfBatch`, `RoundsStayFair`). Remaining plus released stays constant over any rounds, although every round counts and
  pays the last height of the round before once more (`LastHeightIsCreditedAgain`); at an idle head
  the loop never waits and pays the same blocks on every round (`IdleHeadIsPaidAgain`). The linear
  estimate of released rewards is an upper bound, and it is exact exactly while the reward stays the
  same.

Where comments or names and code differ, the model follows the code:

* `future_block_rewards` is documented as returning the released amount
  (filscaner/fs_token_util.go:19); its second result is the *balance plus* the predicted sum
  (lines 27 and 58).
* The note at filscaner/fs_miner_cache.go:318 asks why the first update of the daily cache shifts
  the window: its window starts one bucket earlier than the hourly one (`StartWindows`).
* The exit at filscaner/fs_syncer.go:36 is called impossible; it is, because loaded intervals lie on
  one chain and the head thread never moves the front tail.

## Model

| member | source | states |
|---|---|---|
| Pipeline.FinalityOfRuns | filscaner/fs_syncer.go:191-221 | over any announced run, deque plus history stays one chain, with the last tipset's parent cached once something is confirmed, at every point, if and only if every fork point is still cached or the notification extends the last applied tipset and is answered |
| Pipeline.FirmnessOfRuns | filscaner/fs_syncer.go:175-221 | the same with the last tipset's parent cached at every point from the fill on, if and only if every notification has its fork point cached, or is answered and extends the last one or is not skipped while nothing is confirmed |
| Pipeline.ApplyAnchors | filscaner/fs_syncer.go:175-221 | after a notification the deque holds the parent of the tipset just applied if and only if it held it already, or the notification is answered and not skipped for its height; the first one has to be answered |
| Pipeline.SkippedSiblingLosesParent | filscaner/fs_syncer.go:191-197 | a concrete skipped sibling leaves the last applied tipset without its parent in the deque |
| Pipeline.ApplyKeepsFinality | filscaner/fs_syncer.go:175-221 | one notification, skipped same-height ones and failed requests included, keeps finality if and only if it is bounded in that sense |
| Pipeline.NeverRolledBack | filscaner/fs_tipset_cache.go:62-102 | in a bounded run, whatever is confirmed at any point stays in the history and is an ancestor of every tipset applied later |
| Pipeline.HistoryGrows | filscaner/fs_syncer.go:218-220 | on any feed, the confirmed history only grows at its newest end |
| Pipeline.ConfirmedIsAncestor | filscaner/fs_syncer.go:218-220 | while final, every confirmed tipset is an ancestor of the last applied one |
| Pipeline.FillIsFinal | filscaner/fs_syncer.go:106-123 | the first fill, however early a request fails, leaves a chain of the newest ancestors, from the parent down to a full deque, to genesis or to the first failed request, and confirms nothing |
| Pipeline.UncachedIsOld | filscaner/fs_tipset_cache.go:75-86 | an announced fork point that is not cached lies at or below the newest confirmed tipset |
| Pipeline.PushConserves | filscaner/fs_tipset_cache.go:62-102 | a push moves tipsets from the deque to the history without losing or reordering any; only what lies above the fork point goes |
| Pipeline.PushKeepsChain | filscaner/fs_tipset_cache.go:62-102 | a push leaves deque plus history one chain if and only if nothing is confirmed yet, the tipset is already in front, or its parent is cached or the last confirmed one |
| Pipeline.PushKeepsDescending | filscaner/fs_tipset_cache.go:62-102 | a push of any tipset leaves a linked deque linked, with strictly descending heights |
| Pipeline.OneNotification | filscaner/fs_syncer.go:191-221 | one notification on a linked deque: ignored, it changes nothing but the last applied tipset; otherwise, with the parent's own parent cached at depth d, deque plus history is the parent on everything from d on, and one tipset is confirmed if that is one too many; with it nowhere, the deque starts over |
| Pipeline.PlainExtension | filscaner/fs_tipset_cache.go:62-102 | an answered extension of a deque that is not full adds the parent in front and confirms nothing; of a full one, it confirms the oldest tipset |
| Pipeline.ConfirmsWhenFull | filscaner/fs_tipset_cache.go:95-101 | one notification confirms at most one tipset, and only with exactly max_size linked tipsets cached above it; the deque never outgrows max_size |
| Pipeline.RunsConfirmWhenFull | filscaner/fs_tipset_cache.go:95-101 | the same at every point of every run |
| Pipeline.DequeStaysChain | filscaner/fs_syncer.go:175-221 | on any feed, whatever is announced and whatever requests fail, the deque stays linked, with strictly descending heights |
| Pipeline.QueriesOnRuns | filscaner/fs_tipset_cache.go:213-234 | at any point of any run from the start an interval query is the exact height filter in ascending order, and a block at position i has i + 1 confirmations |
| Pipeline.DeepForkRollsBack | filscaner/fs_tipset_cache.go:75-86 | a concrete fork below the deque leaves a confirmed tipset off the chain |
| Pipeline.LostRequestTearsHistory | filscaner/fs_syncer.go:199-204 | a concrete plain extension with one failed request leaves a gap in the history |
| TipsetCache.Depth | filscaner/fs_tipset_cache.go:75-86 | the number of elements that the fork loop removes: everything before the parent, or all |
| TipsetCache.Cache.PushFront | filscaner/fs_tipset_cache.go:62-102 | new deque and evicted tipset are those of the specification; a nil argument changes nothing |
| TipsetCache.Cache.PushBack | filscaner/fs_tipset_cache.go:46-60 | appends unless nil or equal to the last element |
| TipsetCache.Cache.FindTipsetHeight | filscaner/fs_tipset_cache.go:198-211 | the oldest cached tipset of that height, or none if there is none |
| TipsetCache.Cache.FindTipsetInHeight | filscaner/fs_tipset_cache.go:213-234 | on a descending deque the early break changes nothing: the result is the ascending height filter |
| TipsetCache.InHeightExact | filscaner/fs_tipset_cache.go:213-234 | that filter holds exactly the cached tipsets with a height in the interval, in ascending order |
| TipsetCache.ConfirmationsOf | controllers/filscan_tipset_controller.go:183-193 | the interval from a cached tipset at position i up to the front holds i + 1 tipsets |
| TipsetCache.Cache.ConfirmCount | controllers/filscan_tipset_controller.go:183-193 | a cached block at position i has i + 1 confirmations |
| SyncedPaths.MergeExact | filscaner/fs_sync_models.go:107-126 | a successful merge covers nothing new, and exactly the union if and only if neither interval is strictly inside the other; then exactly what lies below the inner tail is lost |
| SyncedPaths.RefusedIffApart | filscaner/fs_sync_models.go:107-126 | a merge is refused if and only if the intervals have a tipset of the chain between them |
| SyncedPaths.BranchesMerge | filscaner/fs_sync_models.go:107-126 | concrete intervals on two branches merge into one that claims a tipset which is no ancestor of its head |
| PathList.SyncedPath.TryMergeWith | filscaner/fs_sync_models.go:107-126 | the object outcome is that of the specification; the end marks are shared, not copied, and the other path is untouched |
| PathList.SyncedPath.ModelsUpsert | filscaner/fs_sync_models.go:141-151 | writes the interval under the heights of its last write, then remembers the new ones; a failed write changes nothing |
| PathList.SyncedPathList.PushNewPath | filscaner/fs_sync_models.go:170-180 | a one-tipset interval comes first and gets a document if the write succeeds |
| PathList.SyncedPathList.TryMergeFrontWithNext | filscaner/fs_sync_models.go:182-200 | merges the second interval into the first and forgets it, or changes nothing; no other interval changes |
| PathList.SyncedPathList.ModelsUpsertFront | filscaner/fs_sync_models.go:202-208 | writes the front interval only |
| PathList.SyncedPathList.InsertTailParent | filscaner/fs_sync_models.go:261-274 | moves the front tail to its parent, refuses anything else, opens an interval in an empty list |
| PathList.SyncedPathList.InsertHeadChild | filscaner/fs_sync_models.go:276-290 | moves the front head to its child, refuses anything else, opens an interval in an empty list |
| PathList.SyncedTipset.UpdateWithParent | filscaner/fs_sync_models.go:54-60 | a mark moves to a tipset if and only if that is its parent |
| PathList.SyncedTipset.UpdateWithChild | filscaner/fs_sync_models.go:62-68 | a mark moves to a tipset if and only if that is its child |
| PathList.Collection.Remove | filscaner/fs_sync_models.go:128-132 | removes one matching document if the call is answered, and fails if there is none |
| SyncMachine.StepKeepsInv | filscaner/fs_syncer.go:25-98 | every step of either thread, successful or failed, keeps all intervals of list and database on the chain and vouched for, and never forgets a tipset |
| SyncMachine.AnyInterleaving | filscaner/fs_syncer.go:33-85 | the same over any interleaving of walker and head thread |
| SyncMachine.ClaimsNearlyStored | filscaner/fs_syncer.go:50-66 | a database interval is ahead of the stored data by at most the pending batch and one tipset in the hands of each thread (26 in all, 25 at the loop head, 1 right after a flush and once the walker has ended), apart from tipsets given up after a failed call |
| SyncMachine.FlushWhenDue | filscaner/fs_syncer.go:46-52 | the walker flushes after a merge, at genesis and with exactly 25 tipsets in the batch, and otherwise goes on from the tipset it fetched |
| Claims.StepKeepsStored | filscaner/fs_syncer.go:61-66 | if all documents are stored, they are after a step if and only if it does not write the front interval, or finds nothing unstored inside it |
| Claims.StoredThroughout | filscaner/fs_syncer.go:233-258 | over any run all documents are stored at every moment if and only if every step that writes the front interval is of this kind |
| Claims.StepKeepsHonest | filscaner/fs_syncer.go:33-98 | every claim is stored or in a running thread's hands after a step if and only if a failing call gives up nothing that a document covers, and an interval is not written over what was given up before |
| Claims.HonestThroughout | filscaner/fs_syncer.go:33-98 | the same over any run of both threads, at every moment |
| Claims.LostIsDroppedByRun | filscaner/fs_syncer.go:33-98 | what has been given up is just what the failing calls of the run gave up |
| Claims.NothingDropped | filscaner/fs_syncer.go:242-257 | if the walker is alive and no call of the head thread failed, nothing was given up |
| Claims.StoredAtRest | filscaner/fs_syncer.go:33-98 | without failing calls all documents are stored whenever nothing is left in hand |
| Claims.FailedWalkLeavesClaim | filscaner/fs_syncer.go:39-42 | a concrete walker fails after extending the front interval, and the head thread then publishes a claim that nobody stores |
| SyncMachine.WalkIsComplete | filscaner/fs_syncer.go:25-103 | with the walker at genesis the batch is empty, the front tail is genesis, and every tipset from the starting height down is stored |
| SyncMachine.WalkerProgresses | filscaner/fs_syncer.go:25-98 | every successful step before genesis leaves fewer intervals, or a lower cursor, or a later phase; the link check at line 35 never fails |
| SyncMachine.TailDescends | filscaner/fs_syncer.go:35-37 | the fetched parent of the cursor is accepted as the new tail and adds only itself to the covered tipsets |
| SyncMachine.HeadAscends | filscaner/fs_syncer.go:242-245 | an accepted safe tipset adds only itself to the tipsets covered by the front interval |
| WalkOrder.VisitsOnce | filscaner/fs_syncer.go:25-98 | with disjoint intervals in descending order, tipsets are fetched in strictly descending order, and of each interval at most its head; at genesis every uncovered ancestor has been fetched |
| WalkOrder.WalkKeepsOrder | filscaner/fs_syncer.go:25-98 | every walker step keeps the order of visits and the count of revisits |
| WalkOrder.StartOrder | filscaner/fs_tasks.go:68-69 | the first safe tipset above the loaded intervals starts such a walk |
| Documents.StrandedIff | filscaner/fs_syncer.go:69-74 | from disjoint loaded intervals with their documents, no run whose walker calls all succeed ever stops the walker before genesis if and only if there is nothing to walk, or no loaded interval consists of the first safe tipset alone, or there is a second document under its heights |
| Documents.NeverStranded | filscaner/fs_syncer.go:25-98 | while every interval below the front has a document of its own that the front does not write over, a walker whose calls succeed is never stopped before genesis, whatever the head thread does and whichever of its calls fail |
| Documents.StartMirrors | filscaner/fs_sync_models.go:170-180 | the walk starts in that state if and only if there is a spare document under the first safe tipset's heights or no loaded interval under them, even if its own document could not be written |
| Documents.StepKeepsMirror | filscaner/fs_sync_models.go:128-151 | every step of either thread, successful or failed, keeps that state |
| Documents.RetireFinds | filscaner/fs_syncer.go:70-74 | in that state, the document of a merged interval is found |
| Documents.LoadedStartStrands | filscaner/fs_syncer.go:50-74 | whenever the first loaded interval consists of the first safe tipset and has the only document under its heights, six successful walker steps end the walk |
| Documents.ReloadedTipsetStrands | filscaner/fs_syncer.go:50-74 | a concrete start of this kind |
| WholeRun.FromStartUp | filscaner/fs_syncer.go:12-245 | from start-up with trusted intervals, every run with bounded forks is sound; with the walker at genesis and nothing in hand, the whole chain below the last confirmed tipset is stored if and only if everything that failing calls gave up is, and in any case if no call of the head thread failed |
| WholeRun.RunStaysSound | filscaner/fs_syncer.go:218-245 | along such a run finality, the interval invariant, and front head = last confirmed tipset all hold at every point |
| WholeRun.SafeStaysInStep | filscaner/fs_sync_models.go:276-290 | with loaded heads not above the first safe tipset, no safe tipset is ever rejected |
| WholeRun.ConfirmsInOrder | filscaner/fs_syncer.go:218-220 | a notification confirms at most one tipset, a child of the last confirmed one |
| WholeRun.EverythingConfirmedIsStored | filscaner/fs_syncer.go:25-103 | at genesis everything from the last confirmed tipset down is stored, in the head thread's hand, or given up by it; with nothing in hand all is stored if and only if everything given up is |
| WholeRun.TrustedAfterStop | filscaner/fs_sync_models.go:228-247 | from a trusted start, a run without failing calls that is stopped with nothing in hand leaves documents that the next start can trust |
| WholeRun.HeaderIsRun | filscaner/fs_loops.go:20-34 | one handled notification together with the steps for its safe tipset, and any steps of the walker in between, is a run of events |
| Filscaner.Filscaner.SyncToGenesis | filscaner/fs_syncer.go:12-104 | terminates while the head thread takes any steps in between; a normal return is at genesis, with an empty batch, everything from the start down stored and the invariant kept; with a document for every interval it returns normally if and only if all its calls are answered, and otherwise the walker has ended |
| Filscaner.Filscaner.DescendAndMerge | filscaner/fs_syncer.go:25-48 | one round fetches, links, batches and merges: fewer intervals or a lower cursor; with a document for every interval, the only other exit is a call that is not answered |
| Filscaner.Filscaner.FlushBatch | filscaner/fs_syncer.go:49-86 | stores the batch before the interval, deletes the merged document, continues from the front tail; with a document for every interval it succeeds if and only if its calls are answered |
| Filscaner.Filscaner.AfterFlush | filscaner/fs_syncer.go:76-88 | after a merge the document is deleted and the walk continues from the front tail, otherwise from the parent; with a document for every interval it fails only on a call that is not answered |
| Filscaner.Filscaner.HeadThread | filscaner/fs_syncer.go:233-258 | any number of head actions leave the walker's place, batch, tail and number of intervals alone |
| Filscaner.Filscaner.WalkerThread | filscaner/fs_syncer.go:25-98 | any number of walker actions leave the head thread's place and the pipeline alone, and are steps of the machine, all successful if and only if the calls behind them are answered |
| Filscaner.Filscaner.SyncTipsetCacheFallThrough | filscaner/fs_syncer.go:106-123 | fills the deque with a prefix of the ancestors; if all requests are answered, with as many as fit or as there are |
| Filscaner.Filscaner.BuildPersistenceData | filscaner/fs_syncer.go:159-173 | succeeds if and only if the child links to the parent, has blocks, and the request is answered |
| Filscaner.Filscaner.HandleFirstApplTipset | filscaner/fs_syncer.go:175-189 | the first notification is the pipeline's fill, complete if all requests are answered; the process ends if and only if the first request is not answered or the parent unknown |
| Filscaner.Filscaner.HandleSecodApplTipset | filscaner/fs_syncer.go:191-221 | a later notification is one pipeline step, carried out if and only if it has the height of the one before or both requests are answered for a known parent; its evicted tipset goes to the safe handler |
| Filscaner.Filscaner.HandleFirstSafeTipset | filscaner/fs_syncer.go:223-231 | stores the first safe tipset, opens its interval and starts the walker, whether or not the document can be written; if and only if the first write is not answered, the handler stays installed and nothing changes |
| Filscaner.Filscaner.HandleSecodSafeTipset | filscaner/fs_syncer.go:233-258 | takes, publishes, stores, in this order, with any walker actions in between; all steps succeed if and only if its calls are answered, and after a failure nothing is left in hand |
| Filscaner.Filscaner.HandleNewHeaders | filscaner/fs_loops.go:20-34 | a batch of notifications, the walker acting at any time, is a run of the machine with one header event for each applied tipset, in order; if all calls of the head thread are answered, the process ends only at a tipset of unknown parents, every event was delivered all that it asked for, and no step of the safe handler failed |
| Filscaner.Filscaner.DisplayNotifi | filscaner/fs_loops.go:10-18 | logging ends the process if and only if the parent is unknown or one of the two requests is not answered |
| Filscaner.AppliedAre | filscaner/fs_loops.go:22-33 | exactly the apply notifications of a batch count, each once and in order |
| Filscaner.Filscaner.TaskSyncToGenesis | filscaner/fs_tasks.go:68-85 | from the first safe tipset on, a normal return has everything below it stored; if the loaded intervals have their documents with one to spare and the first write is answered, it returns normally if and only if all calls of the walk are answered |
| MinerView.ViewOfRuns | filscaner/fs_miner_cache.go:315-364 | over any run of updates in any order of times, with any answers of a database that may lag behind in any way, every tracked bucket holds the newest recorded state by its end, throughout, if and only if every update meets the condition of `UpdateKeepsView`; what is stored for a miner that comes in must have been recorded |
| MinerView.UpdateKeepsView | filscaner/fs_miner_cache.go:315-364 | one update keeps that if and only if a state that is taken in comes by the next refresh time, a miner that comes in loses no recorded state of the window to an older state, an unanswered query or a lagging database, and a moved window does not reach a recorded state that a row should show; all of it known before the update |
| MinerView.CaughtUp | filscaner/fs_miner_cache.go:218-275 | where the database has all recorded states of a miner that comes in, the condition on its history is that none is missed by its time or by an unanswered query |
| MinerView.LaggingDatabaseLosesView | filscaner/fs_models.go:29-67 | a concrete miner that comes in while its earlier state waits in the write buffer has an empty bucket that should show it |
| MinerView.PromptRunsKeepView | filscaner/fs_miner_cache.go:285-287 | from a cache that has seen everything recorded, if every update comes by the next refresh time and miners come in losing nothing, the view is kept however the times are ordered |
| MinerView.LateUpdateLosesView | filscaner/fs_miner_cache.go:323-327 | a concrete late state of a tracked miner: the window moves one bucket, the row shows the future |
| MinerView.BehindNewestLosesView | filscaner/fs_miner_cache.go:340-346 | a concrete miner that finds a free place with a state behind its newest one |
| MinerView.LateNewcomerIsHarmless | filscaner/fs_miner_cache.go:347-360 | a concrete late newcomer that is turned away leaves every tracked row right |
| MinerView.StartUpView | filscaner/fs_miner_cache.go:218-275 | entering miners at bucket 0 with states of any age, however far their history is loaded, gives the as-of view of the database if and only if no state is past the window and no stored state is missed |
| MinerView.HourlyStartsAsOf | filscaner/fs_miner_cache.go:41-93 | the hourly cache starts as the as-of view of the database |
| MinerView.DailyStartsAsOf | filscaner/fs_miner_cache.go:95-103 | the daily cache does so if and only if no top miner has a state later than the last midnight |
| MinerTable.UpdateKeepsTable | filscaner/fs_miner_cache.go:315-364 | every outcome, with answered or failed queries, keeps rows full, of one miner each, bucket 0 filled, nils last, times descending; never too many miners; min and max stay keys |
| MinerTable.NewcomerOutcome | filscaner/fs_miner_cache.go:340-361 | a new miner is kept if there is a free place, or if it has more power than the remembered minimum, which leaves, unless its state is for an older bucket and the database reports a newer one; with no more power it is turned away; nobody else comes or goes |
| MinerTable.OthersStay | filscaner/fs_miner_cache.go:315-364 | an update changes no other miner's row except by the shift, which happens if and only if the time is past the newest bucket |
| MinerTable.HistoryStep | filscaner/fs_miner_cache.go:246-271 | one history query carried forward extends the loaded part of every new row by one bucket, whatever the age of the states that came in, and touches no other row |
| MinerTable.AllEnter | filscaner/fs_miner_cache.go:407-413 | new miners for whom there is room all come in, in any order |
| MinerTable.HistoryKeepsExtremes | filscaner/fs_miner_cache.go:246-271 | loading history changes no latest state, minimum or maximum, as long as no stored state in the buckets loaded is newer than the one a miner came in with |
| MinerRows.UpdateIsAsOf | filscaner/fs_miner_cache.go:306-346 | a tracked row with a possible shift keeps the as-of view if and only if the time does not exceed the next refresh time and the window is not moved onto a newer recorded state of the miner |
| MinerRows.PutIsAsOf | filscaner/fs_miner_cache.go:397-405 | a state put at its bucket and carried forward until a newer one keeps the as-of view |
| MinerRows.PutsInAnyOrder | filscaner/fs_miner_cache.go:397-405 | states of different times can be put in either order; of two states of one time the first stays |
| MinerRows.ShiftIsAsOf | filscaner/fs_miner_cache.go:306-313 | moving the window keeps a row's as-of view if and only if it does not reach a recorded state of the miner |
| MinerRows.LoadOneBucket | filscaner/fs_miner_cache.go:246-271 | after the query for a bucket, it and all older ones hold the newest stored state by their ends, the unloaded ones carry it forward, and the buckets up to the entering one hold the later of it and the entering state, whatever its age |
| MinerRows.LoadedIsAsOf | filscaner/fs_miner_cache.go:218-275 | a row loaded completely or in part from a database that may lag, of a recorded state or one that fits its bucket, is the as-of view of everything recorded if and only if the state is not past its bucket's end and no recorded state is lost |
| MinerRows.TimeToIndexIsSearch | filscaner/fs_miner_cache.go:289-304 | for every time, window and bucket length, the ceiling division finds the bucket that a search from the oldest one on would find |
| MinerRows.SlotFits | filscaner/fs_miner_cache.go:289-304 | the index is the largest bucket that ends no earlier than the time; a shift is asked for only beyond bucket 0 |
| MinerRows.SlotsDescend | filscaner/fs_miner_cache.go:289-304 | later times never get a larger index |
| MinerRows.SlotAfterShift | filscaner/fs_miner_cache.go:289-313 | after a shift the index of an in-window time is min(old + 1, n - 1) |
| MinerRows.StartWindows | filscaner/fs_miner_cache.go:41-97 | the hourly window holds the time of start-up, the daily one moves on at once unless it is midnight |
| TopMiners.KeepsTheStrongest | filscaner/fs_miner_cache.go:330-430 | from an empty cache over any sequence of first-time miners, those passed over for a newer stored state aside, nobody turned away or displaced beats anybody kept, and every place is taken if anybody was |
| TopMiners.TopOfAllMiners | filscaner/fs_miner_cache.go:347-360 | over any such run, the strongest of all miners seen are kept at every moment if and only if none is passed over |
| TopMiners.UpdateKeepsTopOfAll | filscaner/fs_miner_cache.go:347-360 | one first-time miner leaves the strongest of all seen if and only if it is not passed over |
| TopMiners.StrongMinerPassedOver | filscaner/fs_miner_cache.go:351-353 | a concrete miner with five times the power of the one kept is passed over |
| TopMiners.SetAllKeepsTop | filscaner/fs_miner_cache.go:389-430 | many first-time miners set one after the other, in any order, with or without room for all, leave the strongest |
| TopMiners.StartUpKeepsTop | filscaner/fs_miner_cache.go:85-103 | start-up leaves the strongest of the miners that come in, however far their history is loaded |
| TopMiners.TopPowerIsTop | filscaner/fs_models.go:252-314 | if those are the answer of the top-power query, nobody in the database beats a kept miner |
| TopMiners.RunsFromStartUp | filscaner/fs_miner_cache.go:26-103 | from the hourly cache that start-up builds, over any run and with a database that may lag from then on: the as-of view exactly as long as every update meets its condition, and the strongest over first-time miners not passed over |
| TopMiners.UpdateKeepsTop | filscaner/fs_miner_cache.go:366-430 | one first-time miner keeps this and the true minimum, whatever the order in which the map is scanned |
| TopMiners.MinimumAfterUpdate | filscaner/fs_miner_cache.go:329-331 | after an update of a kept miner the remembered minimum is true if and only if the order between the two miners is as it was |
| TopMiners.StaleMinimumTurnsAway | filscaner/fs_miner_cache.go:349-361 | a concrete table in which a stale minimum turns away a newcomer stronger than a kept miner |
| MinerCache.Cache.Update | filscaner/fs_miner_cache.go:315-364 | the arrays are an outcome of the specified update and no two miners share a row; the result says whether all history queries were answered; a new miner with more power than the minimum of a full table is kept if and only if its state is for the newest bucket, the question goes unanswered or the database has no newer state |
| MinerCache.Cache.MayEnter | filscaner/fs_miner_cache.go:340-353 | the database is asked if and only if a stronger miner with a state for an older bucket meets a full table; whether it enters follows from the answer |
| MinerCache.Cache.LoadBuckets | filscaner/fs_miner_cache.go:246-271 | one query for each older bucket, oldest first, up to the first that is not answered; succeeds if and only if all are |
| MinerCache.Cache.DoOffset | filscaner/fs_miner_cache.go:306-313 | every row is shifted once, in any map order, and the window moves by one bucket |
| MinerCache.Cache.SetMinersAtIndex | filscaner/fs_miner_cache.go:389-430 | each incoming miner is set once, in any map order |
| MinerCache.Cache.SetMinerAtIndex | filscaner/fs_miner_cache.go:394-429 | a tracked miner's row takes the state in; a new one gets a row, the minimum's row, or none |
| MinerCache.Cache.ReplaceMinRow | filscaner/fs_miner_cache.go:414-427 | the weakest row is reused in place for the new miner and removed from the old one; no other row changes |
| MinerCache.Cache.RefreshMinMax | filscaner/fs_miner_cache.go:366-387 | min and max are miners with the least and the greatest latest power |
| MinerCache.Cache.ModelsSetIndexAndLoadHistory | filscaner/fs_miner_cache.go:218-275 | every answered bucket is set like the miners themselves, oldest first, with or without room for all; if all find a place, their rows hold the newest stored states from the last answered bucket on; every bucket was answered exactly on success |
| MinerCache.InitMinersCaches | filscaner/fs_miner_cache.go:26-106 | succeeds if and only if the top-power query and the 23 and 29 history queries are answered (none are needed without miners); then the hourly cache is the as-of view of the database, the daily one exactly if no top miner has a state of the present day, and both keep the strongest |
| MinerCache.Cache.NextRefreshTime | filscaner/fs_miner_cache.go:285-287 | the end of the newest bucket after one shift |
| MinerCache.ShiftRow | filscaner/fs_miner_cache.go:308-310 | every cell takes the next newer one, in place |
| MinerCache.PutInRow | filscaner/fs_miner_cache.go:397-405 | in place, with the early break, on a row in order: all cells up to the index that are empty or older become the state |
| MinerCache.StartRow | filscaner/fs_miner_cache.go:416-424 | a reused row holds the new state up to its bucket and nil beyond |
| MinerCache.ModelsMinerStateInTime | filscaner/fs_models.go:119-148 | if answered, for each miner asked for, its newest state inside the window |
| MinerCache.ModelsMinerStateExistNewer | filscaner/fs_models.go:150-158 | a yes means that the database answers and has a newer state; a failed query says no |
| Rewards.LoopConserves | models/miner_rewards.go:112-192 | over any number of height-sorted batches, remaining plus released is unchanged and the block count grows by the blocks read |
| Rewards.BatchConserves | models/miner_rewards.go:147-188 | the same over one batch at every block, and every record splits its reward evenly |
| Rewards.NextConserves | models/miner_rewards.go:151-188 | the same for one block, of a new or the current height |
| Rewards.TotalsCarryOn | models/miner_rewards.go:151-186 | in any order of blocks, a new height carries on the totals of the height below or of the last record and is paid the reward at the coins then remaining; every block adds one to the count and its reward to the released total |
| Rewards.AddedStaysUniform | models/miner_rewards.go:69-88 | tipset reward = sum of miner rewards = blocks times one reward, and block count = sum of miner blocks, survive another block |
| Rewards.LatestRewardIsExact | models/miner_rewards.go:289-304 | the division that recovers one block's reward from a record has no remainder |
| RewardRecords.RecordsOfBatch | models/miner_rewards.go:147-188 | after any height-sorted batch there is a record for exactly the heights with blocks; each counts its blocks, miner by miner, has their greatest time stamp and the number of all blocks up to it, and pays every block the reward at the coins that remained when its height was reached |
| RewardRecords.BatchIsRecorded | models/miner_rewards.go:147-188 | the same together with conservation, at every block of the batch |
| RewardRecords.LastIsFair | models/miner_rewards.go:159-186 | the last record of a batch pays its blocks the reward at the coins that remained before it |
| RewardRounds.RoundsConserve | models/miner_rewards.go:134-191 | over any number of rounds of the outer loop, each from the height of the last record on a collection that may grow, remaining plus released is unchanged and the block count grows by the blocks read |
| RewardRounds.RoundReads | models/miner_rewards.go:99-110 | a round reads all blocks of the 201 heights from that of the last record on, and no others |
| RewardRounds.RoundsStayFair | models/miner_rewards.go:134-191 | at the end of any number of rounds that read something, the last record pays each of its blocks the reward at the coins that remained when its height was reached |
| RewardRounds.LastHeightIsCreditedAgain | models/miner_rewards.go:99-188 | of two rounds in a row the second reads and counts every block of the first one's last height once more |
| RewardRounds.IdleRoundPays | models/miner_rewards.go:134-188 | a round that finds only the last height's blocks counts and pays each of them again by the current reward |
| RewardRounds.IdleHeadIsPaidAgain | models/miner_rewards.go:134-191 | with nothing above the last height, n rounds count its blocks n times more, and none waits |
| RewardLoop.TipsetBlockRewards.AddMinedBlock | models/miner_rewards.go:69-88 | the block counts for its own miner, who gets the reward; all other miners are untouched, and the miners' sum grows by the reward |
| RewardLoop.Walker.WalkBatch | models/miner_rewards.go:147-188 | the loop over objects mirrors the specified walk, every height has a record of its own that counts and pays its blocks as above, and remaining plus released is unchanged |
| RewardLoop.Walker.LoopWalkThroughTipsetRewards | models/miner_rewards.go:112-192 | the outer loop on objects is the specified rounds |
| TokenUtil.EstimateIsUpperBound | filscaner/fs_token_util.go:69-85 | for every declining reward schedule, the linear estimate from a checkpoint is never below the exact release after k heights |
| TokenUtil.ReleaseStaysWithin | filscaner/fs_loops.go:161-165 | the exact release lies between the checkpoint and the total |
| TokenUtil.EstimateIsExact | filscaner/fs_token_util.go:69-85 | it is exact if and only if the tipset reward is the same at every height passed |
| TokenUtil.NoCheckpointCountsFromGenesis | filscaner/fs_token_util.go:69-85 | without a checkpoint the estimate is the first height's reward for every height since genesis, never below the exact release |
| TokenUtil.EachHeightPays | filscaner/fs_loops.go:161-165 | each step of the exact release pays, for all blocks of a height, the reward at the coins then remaining |
| TokenUtil.ReleaseUpTo | filscaner/fs_loops.go:150-165 | the release loop takes one exact step for each height from the checkpoint to the head |
| TokenUtil.ReleaseConserves | filscaner/fs_loops.go:161-165 | remaining plus released is unchanged by any number of steps |
| TokenUtil.StepsDecline | filscaner/fs_loops.go:161-165 | no step releases more than the first, and the coffer is never overdrawn |
| TokenUtil.FutureBlockRewards | filscaner/fs_token_util.go:20-60 | each period pays what the coffer loses in it; coffer plus payments is the initial balance, and the second result is balance plus payments; whole days leave the coffer of that many days, and any period of a block or more pays at least the first day's reward |
| TokenUtil.DaysCoverBlocks | filscaner/fs_token_util.go:43 | a period runs the fewest days of 2880 blocks that cover its blocks: every started day counts |
| TokenUtil.EachDayPays | filscaner/fs_token_util.go:43-55 | a day takes, for each of its 2880 blocks, the reward at the coins in the coffer at its start |
| TokenUtil.FirstPeriodPays | filscaner/fs_token_util.go:40-56 | a period of at least one block pays at least the first day's reward |
| TokenUtil.PeriodRewardsDecline | filscaner/fs_token_util.go:40-56 | no period pays more than an earlier one |
| TokenUtil.CofferDeclines | filscaner/fs_token_util.go:43-55 | the coffer never grows and is never overdrawn, and a day's reward never grows |

## Left out

Assumptions that the theorems state and the code does not check:

- Reconnect gaps of `run_syncer` (filscaner/fs_tasks.go:15-50) break the announcement rule (`Announced`): a new tipset's parent is the last applied tipset or one of its ancestors. Reverts are ignored, as in the code.
- The merge loop of `models_load` (filscaner/fs_sync_models.go:249-254) never recomputes its condition, and its query sorts by a field that stored documents do not have; the loaded list is an input, and its intervals are trusted to lie on the chain and to be stored.
- Loaded heads are not above the first safe tipset (`Possible`); otherwise a merge can raise the front head and later safe tipsets are dropped.
- The node answers by key, truthfully and consistently; a tipset's key is never empty.
- What the database holds for a miner that comes in has been recorded (`MinerView.Sound`), and recorded states are stamped later than time 0.
- Reward schedules are a parameter: non-negative, monotone, and small enough not to overdraw the balance (`Declining`).

What the model does not capture:

- Filscaner.Filscaner.TaskSyncToGenesis: the goroutine is a call that returns the walk's result; the head thread's interval actions go on inside it, while notifications and the deque are interleaved with it on the machine (`WholeRun.FromStartUp`) and in `HandleNewHeaders`. The error of `push_new_path` is ignored, as in the code.
- Filscaner.Filscaner.HandleFirstApplTipset: a nil dereference after a failed first request is the outcome `alive == false`, and nothing is said about the state then; the same holds for the logging in `display_notifi_`.
- MinerCache.Cache.ModelsSetIndexAndLoadHistory: the start of the window is assumed not to be negative, because the code converts it to an unsigned number.
- MinerCache.InitMinersCaches: the answer of the top-power query is an input; it takes the newest state of a miner by tipset height, which is taken to be the newest by time, and the database is assumed to hold nothing stamped at or after the time of start-up.
- MinerCache.ModelsMinerStateInTime: the aggregation pipeline is its meaning; states with time 0 are never found, because the query asks for times greater than 0.
- Calls that are answered in part, and the cause of a failure: a call is answered or not, by a reply fixed in advance for each thread and each cache, which stands for any outcome.
- Filscaner.Filscaner.HeadThread: how many actions either thread takes between two of the other's is left open, and so is which tipset the head thread takes next.
- Miner states, per-miner rewards and big integers are values; the one big integer shared by all records and the dropped last element of each stored batch in `loop_init_block_rewards` (filscaner/fs_loops.go:168-185) are not modelled, only its arithmetic.
- 64-bit wrap-around of heights, times and counters; heights are naturals and window times are integers.
- Messages, receipts and block rewards that travel with a cached tipset, and the channel that announces miners.
- A nil tipset inside a notification or a cached element, and the unused branches behind constant conditions.
- MongoDB picks the first matching document; a failed write leaves the database as it was.
- The set of tipsets given up is history only: the code neither records nor retries what a failed call drops, in the head thread or in the walker; the run theorems speak of the failing calls instead (`Claims.Dropped`).
- The reward loop's collection is a sequence in order of height; the upsert of the records it builds is left to the database.
- The totals of `index()` with their formatting, `recent_refresh_time`, and the power-of-ten helpers.
- Offset and count queries, address queries and pagination over cache and database, the superseded tipset queue, and the HTTP and protobuf layers: they only read or reshape the state that is modelled here.
- The miner upsert buffer (filscaner/fs_models.go:29-67) itself, which delays writes and drops what a flush finds before it is full: the miner cache is modelled over a database that holds any part of what has been recorded.
