# The bucket list of kinesis-core, modelled in Dafny

The bucket list stands in for the whole ledger. Each closed ledger adds a batch of created (INIT), updated (LIVE)
and deleted (DEAD) entries to level 0; older levels take over their younger neighbour's `snap` through merges that
are started at one spill and promoted at the next one, on a schedule of powers of four. This project models that
machinery (schedule, streaming merge, deferred merges, restart, merge cache with garbage collection, replay into a
database) and proves that reading the list youngest first always gives the ledger that the batches make up. Four
algorithms of `lib/util` follow: the block exchange of `getopt_long.c`, the base 16/32/64 codec, portable 128-bit
arithmetic and streaming SipHash-2-4.

`dafny verify dfyconfig.toml` verifies the project.

## How it is built

| files | what they hold |
|---|---|
| `LedgerCmp`, `Lifecycle`, `Bucket`, `Batch` | keys and their order; entries as arrows between absent and present; buckets, the keywise merge, fresh buckets |
| `Schedule`, `SpillingList` | the spill arithmetic; `addBatch` as one closed form over levels whose slots hold anything |
| `BucketListState`, `BucketListRefinement`, `BucketListLawful`, `BucketListRun` | the invariant of reachable lists, one batch as one lifecycle step per key, whole runs |
| `Genesis` | runs from the empty list: the oldest entry of a key is its creation, and the whole list merged into one bucket |
| `BucketList`, `Restart` | the list object with its in-place loops; restarting merges from stored futures or from currs and snaps alone |
| `Sizes` | which ledgers each slot holds, and the calculation of that from the ledger number |
| `BucketIterators`, `BucketMerge`, `MergeLaws` | the streaming merge over iterators, refined to the keywise merge; laws of merging |
| `Replay`, `ReplayList` | `BucketApplicator`, `ApplyBucketsWork`, `loadCompleteLedgerState` |
| `BucketMergeMap`, `BucketManager`, `FutureBucket` | the merge map, the bucket store with its merge cache, the five-state future bucket |
| `References`, `LevelFutures` | garbage collection over list, last closed ledger and publish queue; the list's futures as the manager serves them |
| `Getopt`, `BaseN`, `Uint128`, `SipHash` | the four algorithms of `lib/util` |
| `Arithmetic`, `Bits`, `Shifts`, `Wrappers` | division, powers of two, bits, `Option` |

Every slot of the list holds either a bucket or the exception that its merge raises, so "no merge ever throws" is a
theorem and not an assumption. `addBatch` is stated once, as a closed form over any kind of slot (`SpillingList.Add`);
the imperative `BucketList.AddBatch` is proved equal to it, the reading theorem uses it with buckets as slots, and
the size theorem with sequences of ledger numbers.

Assumptions, where the source makes them too: ledgers are consecutive from 1; ledger + half fits 32 bits, so numbers
are unbounded; a batch creates absent keys, updates and deletes present ones and names no key twice
(src/bucket/Bucket.cpp:136-142); protocol versions start at 11 and never decrease; the number of levels is any
number from 2 on; two buckets with the same hash are the same bucket.

## Where the code does not do what one might expect

- `part_div` casts its third digit to 64 bits: the digits make up the value exactly if value < 2^64 * div^2
  (`Uint128.PartDiv`), and no three binary digits make up 2^127 (`Uint128.PartDivLosesDigits`).
- `MergeKey` does not hold the version limit, so `getMergeFuture` can hand out a merge started under another limit:
  two futures of one key agree exactly if the merge's version exceeds both limits or neither
  (`FutureBuckets.FuturesAgree`, `BucketManagers.LimitMatters`).
- `FutureBucket::resolve` clears its inputs before it waits: the state afterwards satisfies `checkState` exactly if the
  inputs clash on no key, the shadows are supported and the version is within the limit
  (`FutureBuckets.FutureBucket.Resolve`, `FutureBuckets.ClashDoesNotResolve`). In the runs of a list that is always so
  (`LevelFutures.PrepareLevel`).
- `getReferencedBuckets` looks for outputs that use a queued bucket only if that bucket was not referenced before its
  turn in the queue (`BucketManagers.ReferencedIff`, `BucketManagers.QueuedBucket`, `BucketManagers.QueueForgetsOutputs`).
- Merging with tombstones dropped applies as the two inputs do exactly if no dropped deletion was needed
  (`MergeLaws.MergeAppliesBoth`, `MergeLaws.DroppedDeletionMatters`).

## Model

| member | source | states |
|---|---|---|
| LedgerCmp.KeyLessTotal | src/bucket/LedgerCmp.h:13-88 | of two keys exactly one of less, equal and greater holds, across entry types and field by field |
| LedgerCmp.KeyLessTransitive | src/bucket/LedgerCmp.h:13-88 | the key order is transitive |
| LedgerCmp.EntryLessIsStrictTotalOrder | src/bucket/LedgerCmp.h:90-148 | bucket records are strictly totally ordered up to identity, metadata first |
| Lifecycle.ComposeIsSequencing | src/bucket/Bucket.cpp:476-602 | wherever two entries for a key are legal one after the other, the merge table does not throw and its entry takes the same step |
| Lifecycle.ComposeIsAssociative | src/bucket/Bucket.cpp:476-602 | the merge table is associative on compatible entries, kinds included |
| Batches.FreshIsTheBatch | src/bucket/Bucket.cpp:107-178 | a fresh bucket exists exactly if no key occurs twice in the batch; it is sorted and says of each key what the batch says |
| Batches.BatchSteps | src/bucket/Bucket.cpp:107-178 | closing a ledger with a batch is one legal lifecycle step on every key |
| Buckets.MergeChangesSorted | src/bucket/Bucket.cpp:604-665 | the keys of a merge are strictly increasing |
| Buckets.MergeChangesKeywise | src/bucket/Bucket.cpp:434-602 | the one-pass merge is, on every key, composition of the two entries followed by elision |
| Buckets.MergeChangesAccepts | src/bucket/Bucket.cpp:497-544 | a merge whose inputs clash on no key is not rejected |
| Buckets.MergeOutcome | src/bucket/Bucket.cpp:362-672 | for all well-formed inputs and every protocol: a merge succeeds if and only if its version is within the limit, its shadows are supported and its inputs clash on no key; each of the three errors exactly when due; the version and every key of the result |
| BucketIterators.BucketInputIterator.LoadEntry | src/bucket/BucketInputIterator.cpp:15-53 | the next entry is delivered after an optional metadata record at the start; it fails exactly on a malformed record |
| BucketIterators.Open | src/bucket/BucketInputIterator.cpp:90-107 | the file of a well-formed bucket opens without error and delivers its version and all its entries |
| BucketIterators.Advance | src/bucket/BucketInputIterator.cpp:114-126 | stepping delivers the next entry of the bucket, to the end |
| BucketIterators.BucketOutputIterator.constructor | src/bucket/BucketOutputIterator.cpp:38-66 | the metadata record comes first, exactly from protocol 11 on |
| BucketIterators.BucketOutputIterator.Put | src/bucket/BucketOutputIterator.cpp:68-112 | one-entry buffer: illegal records and a second metadata record are refused, tombstones dropped where they are not kept, and of the others one is appended or replaces the last one of the same identity; only these must come in order |
| BucketIterators.BucketOutputIterator.GetFile | src/bucket/BucketOutputIterator.cpp:114-141 | the file holds everything put, the buffered record included |
| BucketMerge.ScanDecides | src/bucket/Bucket.cpp:266-284 | the first entry not below a key decides whether a sorted bucket holds the key |
| BucketMerge.ScanShadow | src/bucket/Bucket.cpp:266-284 | the forward scan of a shadow iterator answers exactly whether the shadow holds the key, and never has to go back |
| BucketMerge.IsShadowed | src/bucket/Bucket.cpp:266-284 | scanning all shadow iterators answers exactly whether some shadow holds the key |
| BucketMerge.MaybePut | src/bucket/Bucket.cpp:215-287 | an entry is put unless it is a shadowed one of a kind that may be elided |
| BucketMerge.MergeCasesWithDefaultAcceptance | src/bucket/Bucket.cpp:434-472 | takes the smaller or only entry, or leaves two entries of equal key; progress and error as in the keywise merge |
| BucketMerge.MergeEntries | src/bucket/Bucket.cpp:497-602 | the case table is composition of arrows and throws exactly on a clash |
| BucketMerge.MergeCasesWithEqualKeys | src/bucket/Bucket.cpp:476-602 | consumes both entries and emits their composition, or throws what the keywise merge throws |
| BucketMerge.CalculateMergeProtocolVersion | src/bucket/Bucket.cpp:362-428 | the version is the maximum of the inputs and of the shadows older than their removal; both version errors, exactly when due |
| BucketMerge.MergeLoop | src/bucket/Bucket.cpp:638-665 | the loop ends with exactly the entries of the keywise merge written after the metadata, or with the same error |
| BucketMerge.MergeBuckets | src/bucket/Bucket.cpp:604-672 | for all well-formed inputs the streaming merge writes the file of the keywise merge or throws what that throws; no assertion on order fires |
| MergeLaws.ApplySorted | src/bucket/BucketApplicator.cpp:76-183 | applying a bucket has on every key the effect of its entry |
| MergeLaws.MergeAppliesBoth | src/bucket/Bucket.cpp:604-665 | applying a merge equals applying old then new, if and only if tombstones are kept or no dropped one was needed |
| MergeLaws.DroppedDeletionMatters | src/bucket/BucketList.cpp:406-410 | two buckets and a ledger for which the merge without tombstones leaves a key that the buckets delete |
| MergeLaws.MergeIsAssociative | src/bucket/Bucket.cpp:476-665 | merge(merge(a,b),c) and merge(a,merge(b,c)) are the same bucket, kinds and version included, and neither throws |
| Schedule.SpillsAtMultiplesOfHalf | src/bucket/BucketList.cpp:393-404 | a level spills exactly at the multiples of its half size, the last level never |
| Schedule.SpillsAreNested | src/bucket/BucketList.cpp:393-404 | a level that spills is fed by a level that spills at the same ledger |
| Schedule.EmptyCurrRuleForeseesSnap | src/bucket/BucketList.cpp:77-101 | the empty-curr rule says, when a merge starts, whether the level will have snapped by its promotion, and keeps its answer until then |
| SpillingList.MaxMergeLevelBoundsCommits | src/bucket/BucketList.cpp:453-465 | `getMaxMergeLevel` is exactly the highest level that the ledger commits |
| SpillingList.GateAvoidsWaiting | src/catchup/ApplyCheckpointWork.cpp:306-312 | the catchup gate is open exactly if closing the next ledger promotes no unfinished merge |
| SpillingList.AddKeepsAlike | src/bucket/BucketList.cpp:467-587 | lists that differ only in which merges are finished stay so under `addBatch` |
| SpillingList.ResolveIsAlike | src/bucket/BucketList.cpp:424-435 | resolving finished futures changes no outcome |
| BucketLists.BucketList.constructor | src/bucket/BucketList.cpp:663-669 | the new list is empty on every level |
| BucketLists.BucketList.Snap | src/bucket/BucketList.cpp:177-183 | curr moves to snap, nothing else changes |
| BucketLists.BucketList.Commit | src/bucket/BucketList.cpp:109-117 | the future, if any, becomes curr and is cleared; no merge is left |
| BucketLists.BucketList.Prepare | src/bucket/BucketList.cpp:153-175 | the merge is started from the snap, curr or nothing by the empty-curr rule, and shadows by the version of the snap |
| BucketLists.BucketList.ResolveAnyReadyFutures | src/bucket/BucketList.cpp:424-435 | exactly the finished merges are replaced by their outputs |
| BucketLists.BucketList.GetMaxMergeLevel | src/bucket/BucketList.cpp:453-465 | the scan finds the first level that does not spill |
| BucketLists.BucketList.CollectShadows | src/bucket/BucketList.cpp:477-482 | the shadows are curr and snap of every level, youngest first |
| BucketLists.BucketList.AddBatch | src/bucket/BucketList.cpp:467-587 | the in-place loop from the oldest level down computes the closed form over the old list; the assertions on pending merges and on the shadow count hold |
| BucketLists.BucketList.RestartMerges | src/bucket/BucketList.cpp:589-658 | the in-place loop, with hashed, clear and live futures, computes `Restart.RestartFrom`, throwing exactly when that says so |
| BucketListState.LookupIsState | src/bucket/BucketList.cpp:467-587 | where a key's entries form a legal lifecycle, reading youngest first finds its final state at every depth |
| BucketListState.InitialIsLawful | src/bucket/BucketList.cpp:663-669 | the empty list satisfies the invariant and holds no key |
| BucketListRefinement.Curr0After | src/bucket/BucketList.cpp:566-573 | level 0 takes in the batch by composition on every key, without clash |
| BucketListRefinement.TailStep | src/bucket/BucketList.cpp:514-573 | through all levels with their snaps, promotions and pending merges, adding a batch is one step on the key |
| BucketListRefinement.BottomStep | src/bucket/BucketList.cpp:406-410 | dropping tombstones on the last level changes no key's state |
| BucketListRefinement.StateStep | src/bucket/BucketList.cpp:467-587 | the state of every key after `addBatch` is one lifecycle step from its state before |
| BucketListLawful.ShapeAfter | src/bucket/BucketList.cpp:514-573 | which slots are in use and which futures are pending follows from the ledger number |
| BucketListLawful.VersionsAfter | src/bucket/BucketList.cpp:514-573 | older slots keep carrying older versions |
| BucketListLawful.StartedNoClash | src/bucket/Bucket.cpp:497-544 | the inputs of every merge that is started clash on no key |
| BucketListLawful.ElidedIsCovered | src/bucket/Bucket.cpp:215-287 | an update that a shadow elides is hidden by a younger entry and stays so |
| BucketListLawful.NoShadowOnLastLevel | src/bucket/Bucket.cpp:215-287 | nothing is elided on the last level |
| BucketListLawful.PendingStarted | src/bucket/BucketList.cpp:153-175 | a merge that is started does not throw, and its outcome stands on every key for its two inputs |
| BucketListLawful.AddKeepsLawful | src/bucket/BucketList.cpp:467-587 | `addBatch` keeps the whole invariant of reachable lists |
| BucketListRun.BatchAccepted | src/bucket/Bucket.cpp:136-178 | a batch the ledger can close with is one the list can take in |
| BucketListRun.AddBatchRepresents | src/bucket/BucketList.cpp:467-587 | a list that represents a ledger represents the next ledger after its batch, whenever merges finish |
| BucketListRun.RunRepresents | src/bucket/BucketList.cpp:467-587 | the same for every run, by induction on its batches |
| BucketListRun.RunReadsAsLedger | src/bucket/BucketList.cpp:467-587 | after every run under protocols from 11 on, shadows included, reading youngest first equals the map folded from the batches |
| BucketListRun.RunFromGenesis | src/bucket/BucketList.cpp:467-587 | in particular for every run from the empty list |
| BucketListRun.RunNeverThrows | src/bucket/Bucket.cpp:497-544 | in no such run does any slot or pending merge hold an exception |
| Genesis.RunFounded | src/bucket/Bucket.cpp:497-545 | in every run from a list whose last level holds only creations it goes on to do so, so the oldest entry of every key is an INIT |
| Genesis.MergeOntoCreations | src/bucket/Bucket.cpp:547-602 | merging a bucket onto creations takes its lifecycle step on every key, never throws and gives creations |
| Genesis.RunMergesToLedger | src/bucket/Bucket.cpp:604-672 | in every run from genesis, merging all slots into one bucket never throws and gives exactly INIT(k, v) for each entry of the folded ledger |
| Genesis.RunsMergeAlike | src/bucket/Bucket.cpp:604-672 | two runs from genesis that make up the same ledger, with any number of levels, batches and finished merges, merge to the same entries |
| Restart.RunResumable | src/bucket/BucketList.cpp:153-175 | in every run, protocol 11 included, each future that needs no shadows is the plain merge of slots still in the list |
| Restart.GenesisResumable | src/bucket/BucketList.cpp:663-669 | the new list meets what a restart relies on, so the theorems below hold of every run from genesis |
| Restart.MadeLiveFuture | src/bucket/FutureBucket.cpp:403-435 | a stored merge that is made live has its former outcome if and only if the limit admits the version of the snap it takes in |
| Restart.RestartGivesBackFutures | src/bucket/BucketList.cpp:589-658 | whichever futures are stored: the restart does not throw if and only if every merge that needs shadows is among them, and then every level has a merge of the same outcome if and only if the limit admits the stored ones |
| Restart.RunKeepsAlike | src/bucket/BucketList.cpp:467-587 | runs from such lists stay alike, whenever merges finish |
| Restart.RestartIsInvisible | src/bucket/BucketList.cpp:589-658 | a node stopped after any ledger and restarted, from all its futures or only from those that publishing keeps (src/history/HistoryArchive.cpp:388-399), has after every later ledger the list hash of one that never stopped |
| Sizes.RunHolds | src/bucket/BucketList.cpp:467-587 | in every run the levels together hold each ledger from 1 on exactly once, the older the deeper |
| Sizes.SlotsAreRanges | src/bucket/BucketList.cpp:323-360 | every slot holds consecutive ledgers that end where those of the younger slots begin |
| Sizes.SizeOfCurr | src/bucket/BucketList.cpp:250-295 | the recursive calculation equals the number of ledgers in that curr of the simulated run; no subtraction goes below zero |
| Sizes.SizeOfSnap | src/bucket/BucketList.cpp:297-321 | the same for snap |
| Sizes.SizeOfLevelsBelow | src/bucket/BucketList.cpp:287-292 | the summing loop counts the ledgers of all younger levels |
| Sizes.OldestLedgerInCurr | src/bucket/BucketList.cpp:323-341 | the oldest ledger of a curr, or the 32-bit maximum exactly if it is empty |
| Sizes.OldestLedgerInSnap | src/bucket/BucketList.cpp:343-360 | the oldest ledger of a snap, or the 32-bit maximum exactly if it is empty |
| Replay.Database.Create | src/bucket/BucketApplicator.cpp:109-148 | a create meets an absent key, or the database is no longer consistent |
| Replay.BucketApplicator.ApplyEntry | src/bucket/BucketApplicator.cpp:102-167 | the choice of create, update and erase puts the entry's value and fits exactly as the origin's versions say |
| Replay.BucketApplicator.Advance | src/bucket/BucketApplicator.cpp:76-183 | each call applies the next entries once and in order, at most one more than the batch size |
| Replay.ApplyBucketsWork.StartLevel | src/catchup/ApplyBucketsWork.cpp:165-202 | starting a level plans its snap, then its curr, from the first differing bucket on |
| Replay.ApplyBucketsWork.OnRun | src/catchup/ApplyBucketsWork.cpp:204-277 | no step loses, repeats or reorders an entry of the plan, and every step makes progress |
| Replay.ApplyBucketsWork.Run | src/catchup/ApplyBucketsWork.cpp:204-277 | whatever the batch size, the work ends with the whole plan applied; consistent exactly if every operation fits |
| ReplayList.PlanReplays | src/catchup/ApplyBucketsWork.cpp:165-277 | from any level on, the plan of a reachable list fits and brings the database up to the younger levels |
| ReplayList.ReplayRebuildsLedger | src/catchup/ApplyBucketsWork.cpp:165-277 | replaying a reachable list into an empty database ends in the folded map, each create on an absent and each update or erase on a present key |
| ReplayList.StoredCanBeReplayed | src/bucket/BucketApplicator.cpp:19-40 | no bucket of a reachable list is newer than the protocol it has reached |
| ReplayList.ReplayIntoEmptyDatabase | src/catchup/ApplyBucketsWork.cpp:165-277 | the work on an empty local list applies the plan that the theorem speaks about |
| ReplayList.LoadEntriesFromBucket | src/bucket/BucketManagerImpl.cpp:874-917 | a bucket is loaded into the map, failing exactly if a deletion does not find its key |
| ReplayList.LoadGivesLedger | src/bucket/BucketManagerImpl.cpp:874-947 | loading a reachable list never fails and gives the folded map |
| ReplayList.LoadCompleteLedgerState | src/bucket/BucketManagerImpl.cpp:919-947 | the loop loads oldest level first, snap before curr |
| BucketMergeMaps.Multiplicities | src/bucket/BucketMergeMap.cpp:31-104 | both multimaps count the same recorded merges |
| BucketMergeMaps.ForgettingIsExact | src/bucket/BucketMergeMap.cpp:45-104 | forgetting an output removes all its traces and none of any other output |
| BucketMergeMaps.Record | src/bucket/BucketMergeMap.cpp:31-43 | recording keeps the three maps those of the recorded merges |
| BucketMergeMaps.ForgetAll | src/bucket/BucketMergeMap.cpp:45-104 | forgetting keeps them those of the merges left, and returns exactly the keys forgotten |
| BucketMergeMaps.BucketMergeMap.RecordMerge | src/bucket/BucketMergeMap.cpp:31-43 | one more merge is remembered |
| BucketMergeMaps.BucketMergeMap.ForgetAllMergesProducing | src/bucket/BucketMergeMap.cpp:45-104 | exactly the merges with this output are forgotten |
| BucketMergeMaps.BucketMergeMap.FindMergeFor | src/bucket/BucketMergeMap.cpp:106-117 | where a key always has one output, that output is found exactly while it is remembered |
| BucketMergeMaps.BucketMergeMap.GetOutputsUsingInput | src/bucket/BucketMergeMap.cpp:119-131 | exactly the outputs of remembered merges that use the input |
| BucketManagers.OutcomeDependsOnLimit | src/bucket/Bucket.cpp:362-428 | the outcome of a merge under two limits is the same if and only if its version exceeds both or neither |
| BucketManagers.LimitMatters | src/bucket/MergeKey.cpp:28-35 | a key whose outcome differs under two limits |
| BucketManagers.BucketManager.GetBucketByHash | src/bucket/BucketManagerImpl.cpp:454-483 | the empty bucket, or one whose file exists, which is then in memory |
| BucketManagers.BucketManager.GetMergeFuture | src/bucket/BucketManagerImpl.cpp:485-527 | the running merge, or the output while it is known, and that output is what the merge of the key yields |
| BucketManagers.BucketManager.PutMergeFuture | src/bucket/BucketManagerImpl.cpp:529-541 | the future is kept unless one is there |
| BucketManagers.BucketManager.AdoptFileAsBucket | src/bucket/BucketManagerImpl.cpp:362-433 | the merge moves from live to finished and its output into the store |
| BucketManagers.BucketManager.NoteEmptyMergeOutput | src/bucket/BucketManagerImpl.cpp:435-452 | a merge with empty output is live no more and not recorded |
| BucketManagers.BucketManager.FinishMerge | src/bucket/FutureBucket.cpp:348-394 | the end of a background merge: what it yields is recorded and stored, a failure leaves everything as it is |
| BucketManagers.BucketManager.ProjectQueue | src/bucket/BucketManagerImpl.cpp:601-619 | the loop over the publish queue collects what `Referenced` says |
| BucketManagers.ReferencedIff | src/bucket/BucketManagerImpl.cpp:552-621 | a bucket is referenced if and only if the list, the last closed ledger or the queue names it, or a known merge makes it from a queued bucket that was not referenced when its turn came |
| BucketManagers.QueuedBucket | src/bucket/BucketManagerImpl.cpp:601-619 | for any queue and position: a queued bucket not referenced before its turn keeps all outputs that use it, and one referenced before contributes nothing |
| BucketManagers.QueueForgetsOutputs | src/bucket/BucketManagerImpl.cpp:601-619 | two buckets and their merge for which the output is kept if only the queue holds an input, and not kept if the list holds it too |
| BucketManagers.BucketManager.Sweep | src/bucket/BucketManagerImpl.cpp:660-724 | exactly the unreferenced, unpinned buckets are dropped with their records and files; no running merge is cancelled, every remembered output stays in memory |
| BucketManagers.ForgottenNotLive | src/bucket/BucketManagerImpl.cpp:693-717 | the unexpected live future that the mop-up looks for does not exist |
| References.AllHashesIff | src/history/HistoryArchive.cpp:271-284 | the buckets of some levels are exactly their currs, their snaps and what their futures hold or will need |
| References.AllBuckets | src/history/HistoryArchive.cpp:271-284 | the loop over the levels collects all their buckets |
| References.GetReferencedBuckets | src/bucket/BucketManagerImpl.cpp:552-621 | from the objects of the list, of the last closed ledger and from the queue, exactly what `ReferencedIff` describes |
| References.ForgetUnreferencedBuckets | src/bucket/BucketManagerImpl.cpp:654-724 | what is collected, and that every bucket of a level of the list or of the last closed ledger and every queued bucket stays in memory and on disk if it was there; the futures can be made live exactly if they could before |
| FutureBuckets.FutureBucket.Merge | src/bucket/FutureBucket.cpp:32-65 | a future bucket with inputs is merging at once; it throws exactly on shadows that the snap's version no longer supports |
| FutureBuckets.FutureBucket.StartMerge | src/bucket/FutureBucket.cpp:305-401 | attaches to a running or finished merge of the same inputs, or starts one; the state satisfies `checkState` |
| FutureBuckets.ResolvesIff | src/bucket/FutureBucket.cpp:244-273 | a live future bucket with well-formed inputs resolves if and only if it has its output, or its inputs clash on no key, its shadows are supported and its version is within the limit its merge was started under |
| FutureBuckets.ClashDoesNotResolve | src/bucket/Bucket.cpp:554-561 | two well-formed buckets whose future bucket fails to resolve and is left in a state that `checkState` does not accept |
| FutureBuckets.FutureBucket.Resolve | src/bucket/FutureBucket.cpp:244-273 | gives the outcome of the merge; afterwards `checkState` holds if and only if the condition of `ResolvesIff` held before |
| FutureBuckets.FutureBucket.MakeLive | src/bucket/FutureBucket.cpp:403-435 | hashes become buckets exactly if all are available; inputs get a future of their merge |
| FutureBuckets.FutureBucket.Clear | src/bucket/FutureBucket.cpp:177-205 | clears from whatever state |
| FutureBuckets.FutureBucket.SaveTo | src/bucket/FutureBucket.h:156-182 | saving projects to hashes and always gives an archive that loads |
| FutureBuckets.FutureBucket.LoadFrom | src/bucket/FutureBucket.h:130-154 | loading accepts exactly the hash states with their hashes and gives a reachable state |
| FutureBuckets.FutureBucket.GetHashes | src/bucket/FutureBucket.cpp:437-459 | every bucket held or needed is among the hashes, and no other |
| FutureBuckets.FuturesAgree | src/bucket/BucketManagerImpl.cpp:485-527 | two futures of one key resolve alike if and only if the merge's version is within both limits or neither |
| FutureBuckets.SaveLoad | src/bucket/FutureBucket.h:130-182 | saving after loading is idempotent, and a future bucket that is not live is given back exactly |
| FutureBuckets.SaveLoadMakeLive | src/bucket/FutureBucket.cpp:403-435 | saved, loaded and made live, a future bucket resolves to the same, if and only if both limits allow the merge or neither does |
| FutureBuckets.ResolvesAsNext | src/bucket/FutureBucket.cpp:244-273 | a future bucket resolves to what the list theorems take its level's future to be, under the same condition |
| LevelFutures.LevelMerge | src/bucket/BucketList.cpp:153-175 | the version of a merge that a reachable list has pending is that of the snap it takes in; the limit it was started under admits it, and its shadows are supported |
| LevelFutures.PrepareLevel | src/bucket/BucketList.cpp:153-175 | whoever started the merge of a level first, the future bucket that the manager serves resolves to the future of the list theorems, and every running merge keeps a sufficient limit |
| LevelFutures.MakeLevelLive | src/bucket/FutureBucket.cpp:403-435 | at a restart whose limit admits the merge, a stored future, as inputs or as output, becomes live exactly if its buckets are available, then resolves to the future of the list theorems, and every running merge keeps a sufficient limit |
| LevelFutures.FinishLevelMerge | src/bucket/FutureBucket.cpp:348-394 | merges that end keep that so, and none fails for its version |
| LevelFutures.RunAdmitted | src/bucket/BucketList.cpp:153-175 | after every run the limit of every pending merge admits it |
| LevelFutures.RunLevelResolves | src/bucket/FutureBucket.cpp:244-273 | after every run, every future that a level gets from the manager, started by whomever, resolves to what the list expects of the level |
| Getopt.GcdOfIsGcd | lib/util/getopt_long.c:104-120 | the Euclid recursion gives a common divisor that is an integer combination of both numbers |
| Getopt.IsGcdMeansGreatest | lib/util/getopt_long.c:104-120 | such a divisor is a multiple of every common divisor |
| Getopt.Gcd | lib/util/getopt_long.c:104-120 | the loop returns the greatest common divisor |
| Getopt.CyclesPartition | lib/util/getopt_long.c:134-156 | the gcd-many cycles of length (m+n)/gcd are simple and closed, and each is exactly one remainder class: disjoint, covering both blocks |
| Getopt.RunCycle | lib/util/getopt_long.c:143-155 | one cycle of swaps moves every element of the cycle one step and touches nothing else |
| Getopt.PermuteArgs | lib/util/getopt_long.c:122-157 | for all positive block lengths the array holds the second block followed by the first, orders kept, the rest untouched |
| BaseN.AlphabetDecodes | lib/util/basen.h:84-164 | a character decodes to a digit if and only if it is the alphabet's character for it |
| BaseN.ExtractPartialBits | lib/util/basen.h:62-70 | the digit is the bits of the byte from start_bit on |
| BaseN.ExtractOverlappingBits | lib/util/basen.h:72-80 | the digit is the last bits of one byte and the first of the next |
| BaseN.EncodeGroups | lib/util/basen.h:211-247 | the digits are the bits of the data in order, filled up with zeros |
| BaseN.Pad | lib/util/basen.h:249-253 | padding ends after exactly as many characters as complete the round |
| BaseN.Encode | lib/util/basen.h:211-254 | the text spells the data's bits and has the padded length of sections 8, 6 and 4 of RFC 4648 |
| BaseN.LengthIsRounds | lib/util/basen.h:249-253 | digits and padding together make up whole rounds of 2, 8 or 4 characters |
| BaseN.PutGroup | lib/util/basen.h:184-206 | the bits of a value are added behind those already decoded, within a byte or across two |
| BaseN.Decode | lib/util/basen.h:166-209 | for every text, the bytes are the bits of its digits up to the last whole byte; spaces and unknown characters are skipped |
| BaseN.RoundTrip | lib/util/basen.h:166-254 | decoding what encodes data gives the data back, for all byte sequences and each base |
| Uint128.AddIsModular | lib/util/uint128_t.h:294-301 | addition with carry is exact modulo 2^128 |
| Uint128.SubIsModular | lib/util/uint128_t.h:303-308 | subtraction with borrow is exact, plus 2^128 exactly if it would go below zero |
| Uint128.Less | lib/util/uint128_t.h:578-584 | comparison of the words compares the values |
| Uint128.ShlIsModular | lib/util/uint128_t.h:614-627 | shifting left multiplies by the power of two modulo 2^128, for every shift count modulo 128 |
| Uint128.ShrIsQuotient | lib/util/uint128_t.h:586-595 | shifting right divides by the power of two |
| Uint128.MulIsModular | lib/util/uint128_t.h:597-612 | the product from 32-bit partial products is exact modulo 2^128 |
| Uint128.ClzBounds | lib/util/uint128_t.h:566-574 | leading zeros bound the value between two powers of two |
| Uint128.SlowDiv | lib/util/uint128_t.h:629-656 | quotient * divisor + remainder = dividend and remainder < divisor, for every dividend and non-zero divisor; the third early return is never taken |
| Uint128.Div | lib/util/uint128_t.h:658-666 | the quotient, or an error exactly for divisor 0 |
| Uint128.Mod | lib/util/uint128_t.h:668-675 | the remainder, or an error exactly for divisor 0 |
| Uint128.PartDiv | lib/util/uint128_t.h:677-685 | the three digits; they make up the value if and only if value < 2^64 * div^2 |
| Uint128.PartDivLosesDigits | lib/util/uint128_t.h:677-685 | a value that no three digits to the base 2 make up |
| SipHash.LoadIsLittleEndian | lib/util/siphash.h:25-34 | eight bytes are loaded as their little-endian word |
| SipHash.RoundKeepsWords | lib/util/siphash.h:36-53 | a round keeps its four words below 2^64 |
| SipHash.BlockKeepsWords | lib/util/siphash.h:55-64 | absorbing a word keeps four 64-bit words |
| SipHash.WordBound | lib/util/siphash.h:25-34 | the word of n bytes takes 8n bits |
| SipHash.FeedPieces | lib/util/siphash.h:70-97 | however a message is cut in two, the pieces one after the other give the same state |
| SipHash.HashPieces | lib/util/siphash.h:70-97 | a message given in any number of pieces has the hash of the whole message |
| SipHash.FeedWord | lib/util/siphash.h:76-86 | the word-at-a-time path does what eight steps of the byte-at-a-time path do |
| SipHash.DigestIsHash | lib/util/siphash.cpp:24-60 | the digest of any fed message is SipHash-2-4 of the whole message, chunked, padded and with its length |
| SipHash.ParseKeepsBytes | lib/util/siphash.h:70-97 | the chunks are the message in order, eight bytes each, none lost |
| SipHash.SipHash24.constructor | lib/util/siphash.cpp:5-18 | the state for the key: four 64-bit words, from the key's bytes |
| SipHash.SipHash24.Compress | lib/util/siphash.h:36-53 | the in-place updates are one SipRound |
| SipHash.SipHash24.DigestBlock | lib/util/siphash.h:55-64 | two rounds around the word, which is then reset |
| SipHash.SipHash24.Update | lib/util/siphash.h:70-97 | the state after the call is that of feeding the bytes one at a time; the vector stays four 64-bit words, and only the bytes put in are not null |
| SipHash.SipHash24.CheckNull | lib/util/siphash.cpp:37-47 | the zero-byte assertions hold in every reachable state |
| SipHash.SipHash24.Digest | lib/util/siphash.cpp:24-60 | the digest of the state, a 64-bit word |

## Left out

- Files, fsync, renames, locks, temporary directories, XDR streams, metrics and logging: a bucket is its version and its entries, a store is a set of buckets.
- SHA-256 and hex strings: a bucket stands for its own hash, so hashes are injective.
- Threads: a merge has its outcome from the start, and which merges are finished at each ledger is an arbitrary parameter; each method of the manager is one step under its lock, in any order.
- Shutting down in the middle of a merge, and the configuration switches for artificial delays and reduced counts.
- Ledger entry contents: a key carries one value; entry types and key fields appear only in the order of keys.
- Protocols before 11: `Buckets.MergeOutcome` and `BucketMerge.MergeBuckets` cover their merges, the theorems about runs start at protocol 11.
- The filter on entry types and the removal of the root account in `ApplyBucketsWork`: the filter is always true.
- 32-bit wrap-around of ledger numbers: numbers are unbounded.
- `DISABLE_BUCKET_GC`, `MODE_ENABLES_BUCKETLIST` and `cleanupStaleFiles`: the bucket list is enabled, and garbage collection always removes the files of the buckets it drops.
- The rest of getopt, and the printing, parsing and signed variants in uint128_t.h: they would only add easy members.
- CatchupManagerImpl, CatchupRange and the history archive code: not part of this model.
- BucketListLawful.ElidedIsCovered: speaks of the levels above the last one, because nothing is elided on the last one (`BucketListLawful.NoShadowOnLastLevel`).
