# Verified models of the serving core

Dafny models of the parts of this repository whose correctness rests on more than one function, with proofs for
all inputs and all runs. `dafny verify dfyconfig.toml` checks everything.

* **Prefix cache** (`PrefixCacheSpec`, `RadixArena`, `CompressedRadixCacheTree`, `RadixCachePins`). The compressed
  radix tree as a class over mutable nodes. It refines a plain map from block prefixes to payloads together with a
  list of outstanding pins; whole runs are reasoned about on that map. The cache manager's slots pin and release
  its leaves.
* **Prefill/Decode hand-off** (`MemoryBudget`, `PdLedger`, `LanguageRole`, `PdCoordinator`, `PdSystem`,
  `PdTheorems`, `PdLeak`, `PdRuntime`). The worker's operations are methods proved against functions of
  its state; the coordinator is a state machine over those functions, one step per locked section or remote call,
  for any number of concurrent submits and cancels, with cancels that reach the workers at any time, a clock, queues
  that fill up, and calls that fail, get lost, or are executed late.
* **Measurement and audit** (`MpsOverlap`, `LeaseTraceAudit`). The sweep over GPU kernels and the lease-trace audit
  against definitions by sets of instants, addresses and events.
* **Text** (`BytePairEncoding`, `Tiktoken`, `Utf8Grammar`, `Utf8Stream`, `ChatUtf8`). Byte-pair encoding against
  the naive algorithm, and two streaming UTF-8 decoders against the grammar in section 4 of RFC 3629.
* **Codecs** (`WireIo`, `PdPayload`, `TensorBundle`).
* **Shutdown** (`DeploymentLifecycle`). Processes may exit between any two observations and every call may fail;
  what a process is there for is kept apart from the name it was started under.
* **Rotary layouts** (`RotaryLayout`). Weight permutation and the two rotations over the reals.

Small shared modules: `ByteStrings`, `Division`, `Numbers`, `Options`, `Sequences`.

## What the proofs found

* A prefill or decode call that the worker refuses before it takes the reservation over leaves that reservation at
  the worker: the coordinator has already dropped its note of it and never calls unreserve. For a decode call these
  are a lost data owner, a passed deadline and a known cancel; for a prefill call a lost owner, an old generation, and
  a bundle that cannot be read or asks for other bytes. A worker with 16 waiting commands answers every call with a
  failure at once, and that too is taken for an answer: a prefill or decode call turned away like this leaves its
  reservation, an unreserve call the reservation it should return, a release call the hold
  (`PdLedger.DecodeLeavesIffTurnedAway`, `PdLedger.PrefillLeavesIffTurnedAway`, `PdLedger.ReturnsUnlessFull`).
  `PdTheorems.PrefillBudgetReturnsIff` and `PdTheorems.DecodeBudgetReturnsIff` show that these are the only ways to
  lose bytes when all calls are answered. `PdLeak.CancelBeforeDecodeLeaks` is a run in which an ordinary client cancel
  does it, `PdLeak.FullQueueLeaks` one in which a full queue does.
* Shutdown tells importers by their names. A worker whose model id is `api` or `kv-owner` (or `ipc-event-owner`, where
  there is an event owner) does not protect the exporter; the configuration check accepts such ids. Every run is safe
  if and only if there is no such name (`DeploymentLifecycle.ShutdownCoordinator.Run`, `DeploymentLifecycle.UnsafeRun`,
  `DeploymentLifecycle.NoneMisnamedIffNamesFree`).
* Unpinning a node that was never pinned is refused only if no pin runs through it: on a pinned path it takes
  another pin's counts, and no list of pins explains the counts that remain
  (`CompressedRadixCacheTree.Tree.UnpinPath`, `RadixArena.UnpinnedTooOften`).
* A pool's capacity may be set below its peak, after which the budget's own invariant on peaks fails
  (`MemoryBudget.NodeMemoryBudget.SetCapacity`).
* The chat buffer drops bytes it takes out while nobody listens (`ChatUtf8.Utf8StreamBuffer.PushPiece`); and after
  a malformed byte it stays stuck where the drain goes on, so the two agree exactly on beginnings of well-formed text.

## Reading the models

* Ticks, ids, generations and times are unbounded integers, except where a width matters: wire fields, memory
  counters and the rank sentinel 2^31 - 1 are modelled with their widths.
* Model runs, GPU calls, clocks and remote processes are arbitrary choices; checksums are function parameters.
* A worker's queue is counted in the coordinator model, not listed: a call is turned away or executed in one step, and
  other calls fill and empty the queue at any time.
* The coordinator model has one prefill and one decode worker; placement among several is a choice that no proved
  property depends on. A call that times out may still be executed at any later time.

## Model

| member | source | states |
|---|---|---|
| `CompressedRadixCacheTree.Tree.ProbePrefix` | infMain/include/base/compressed_radix_cache_tree.h:87-111 | probing changes nothing and returns the longest stored block prefix of the tokens with its payload for every layer |
| `CompressedRadixCacheTree.Tree.MatchPrefix` | infMain/include/base/compressed_radix_cache_tree.h:113-159 | matching returns the same prefix and payloads; it may split one node, which leaves the stored map, the pins and the path of every node as they were; exactly the nodes on the way are refreshed, and the leaf it returns spells the matched blocks and is the most recently used |
| `CompressedRadixCacheTree.Tree.Insert` | infMain/include/base/compressed_radix_cache_tree.h:161-215 | accepted exactly when every layer has a payload for every full block; then precisely the missing prefixes of the tokens enter the map, nothing stored is overwritten, every node keeps its path, exactly the nodes on the way are refreshed, and the reported block counts are those |
| `CompressedRadixCacheTree.Tree.SplitNode` | infMain/include/base/compressed_radix_cache_tree.h:357-411 | a node inserted above a subtree takes over the front of its segment and all its pins; map and pins are unchanged |
| `CompressedRadixCacheTree.Tree.AppendChild` | infMain/include/base/compressed_radix_cache_tree.h:413-447 | the new leaf adds the rest of the query to the map and touches nothing else; every other node stays, with its path |
| `CompressedRadixCacheTree.Tree.Walk` | infMain/include/base/compressed_radix_cache_tree.h:118-147 | the shared walk stops at the longest stored prefix and refreshes exactly the nodes on its way |
| `CompressedRadixCacheTree.Tree.Descend` | infMain/include/base/compressed_radix_cache_tree.h:169-204 | insertion arrives at a node that ends at the longest stored prefix, splitting at most once; every node keeps its path, and exactly the nodes on the way are refreshed |
| `CompressedRadixCacheTree.Tree.CollectBlockIds` | infMain/include/base/compressed_radix_cache_tree.h:240-258 | the payloads collected from a node up to the root are those stored for its path, in order |
| `CompressedRadixCacheTree.CommonPrefixBlocks` | infMain/include/base/compressed_radix_cache_tree.h:337-355 | the count of equal leading blocks is exact: that many agree and the next pair, if there is one, differs |
| `CompressedRadixCacheTree.Tree.PinPath` | infMain/include/base/compressed_radix_cache_tree.h:217-225 | one more pin of the leaf's prefix is outstanding; null and the root are refused without effect |
| `CompressedRadixCacheTree.Tree.UnpinPath` | infMain/include/base/compressed_radix_cache_tree.h:227-238 | refused exactly when the leaf's count is zero; for an outstanding pin it always succeeds and removes that pin |
| `CompressedRadixCacheTree.Tree.EraseLeaf` | infMain/include/base/compressed_radix_cache_tree.h:276-303 | succeeds exactly for an unpinned leaf other than the root; then the prefixes of that leaf, and no others, leave the map and their payloads are returned; every other node keeps its path, and no node that a pin runs through leaves |
| `CompressedRadixCacheTree.Tree.EvictableBlocks` | infMain/include/base/compressed_radix_cache_tree.h:272-274 | the number of stored prefixes that no outstanding pin runs through |
| `CompressedRadixCacheTree.Tree.NodeCount` | infMain/include/base/compressed_radix_cache_tree.h:314-314 | the number of nodes of the tree |
| `CompressedRadixCacheTree.Tree.CollectEvictableLeaves` | infMain/include/base/compressed_radix_cache_tree.h:260-270 | exactly the unpinned leaves, least recently used first |
| `CompressedRadixCacheTree.Tree.EvictOldest` | infMain/source/base/kv_cache_manager.cpp:1069-1074 | one round erases the least recently used evictable leaf; it finds none only if no block is evictable; nodes on pinned paths stay, with their paths |
| `CompressedRadixCacheTree.Tree.EvictBlocks` | infMain/source/base/kv_cache_manager.cpp:1066-1086 | repeated eviction never fails, ends, frees as many blocks as it reports, never touches a pinned prefix or a node on a pinned path, and stops short only when nothing evictable is left |
| `CompressedRadixCacheTree.Tree.ClearAndCollectBlockIds` | infMain/include/base/compressed_radix_cache_tree.h:305-312 | every stored payload is handed back once and the map is empty; outstanding pins are forgotten, and every node but the root is gone |
| `CompressedRadixCacheTree.Tree.Create` | infMain/include/base/compressed_radix_cache_tree.h:67-78 | positive block size and layer count are demanded; the new tree is empty |
| `RadixCachePins.PinnedHandleStays` | infMain/include/base/compressed_radix_cache_tree.h:217-303 | over every run of operations a node whose path stays pinned stays in the tree, with that path |
| `RadixCachePins.KVCacheManager.MaybeUnpinRadixCachePath` | infMain/source/base/kv_cache_manager.cpp:1023-1032 | releasing the leaf a slot has pinned never fails, whatever was matched, published or evicted since |
| `RadixCachePins.KVCacheManager.FinishRestore` | infMain/source/base/kv_cache_manager.cpp:942-961 | a slot is attached exactly if its pages are acquired and its whole prefix is stored; its leaf spells that prefix, and all other slots keep theirs |
| `RadixCachePins.KVCacheManager.PublishRadixCache` | infMain/source/base/kv_cache_manager.cpp:551-596 | publishing leaves every slot with the leaf and prefix it has pinned |
| `RadixCachePins.KVCacheManager.EvictRadixCacheBlocks` | infMain/source/base/kv_cache_manager.cpp:1065-1086 | eviction leaves every slot with the leaf and prefix it has pinned |
| `RadixCachePins.KVCacheManager.ClearRadixCache` | infMain/source/base/kv_cache_manager.cpp:598-624 | all slots let go before the tree is cleared, so no slot keeps a node that is gone; every stored payload is handed back once |
| `RadixCachePins.KVCacheManager.ReleaseSlots` | infMain/source/base/kv_cache_manager.cpp:612-616 | once all slots have let go no pin is outstanding, and what is stored is unchanged |
| `RadixCachePins.KVCacheManager.SlotIsServed` | infMain/source/base/kv_cache_manager.cpp:942-961 | the prefix a slot has pinned is stored in full |
| `RadixArena.SplitKeeps` | infMain/include/base/compressed_radix_cache_tree.h:357-411 | shape, index and pin counts survive a split, with contents and pins unchanged |
| `RadixArena.AppendKeeps` | infMain/include/base/compressed_radix_cache_tree.h:413-447 | a new leaf keeps the invariant and its map is the insert of the query |
| `RadixArena.RemoveKeeps` | infMain/include/base/compressed_radix_cache_tree.h:276-303 | removing an unpinned leaf keeps the invariant and its map is the erase of the leaf's prefixes |
| `RadixArena.PinKeeps` | infMain/include/base/compressed_radix_cache_tree.h:217-225 | after one increment on every node of the path each count is again the number of pins at or below the node |
| `RadixArena.UnpinKeeps` | infMain/include/base/compressed_radix_cache_tree.h:227-238 | the same for the decrements of an outstanding pin |
| `RadixArena.UnpinnedTooOften` | infMain/include/base/compressed_radix_cache_tree.h:227-238 | counting down the path of a node that is not itself pinned, which the code does when other pins run through it, leaves counts that no list of pins explains |
| `RadixArena.PinsAcrossSplit` | infMain/include/base/compressed_radix_cache_tree.h:375-411 | a pin that runs through the front of a segment runs through its node, so the inserted ancestor inherits the count |
| `RadixArena.SegmentMatch` | infMain/include/base/compressed_radix_cache_tree.h:122-140 | comparing a child's segment with the query decides which longer prefixes are stored |
| `RadixArena.TouchedOnce` | infMain/include/base/compressed_radix_cache_tree.h:118-147 | consuming a child's blocks adds that node, and no other, to the nodes on the walk |
| `RadixArena.EvictionStops` | infMain/include/base/compressed_radix_cache_tree.h:476-503 | there is an evictable leaf exactly when some stored block is evictable |
| `PrefixCacheSpec.PinnedPrefixSurvives` | infMain/include/base/compressed_radix_cache_tree.h:217-303 | over every run of inserts, matches, pins, unpins and erases a prefix that stays pinned keeps matching in full with the same payloads |
| `PrefixCacheSpec.BlocksConserved` | infMain/include/base/compressed_radix_cache_tree.h:161-303 | over every run the stored blocks per layer are those at its start plus all inserted minus all erased |
| `PrefixCacheSpec.LongestIsGreatest` | infMain/include/base/compressed_radix_cache_tree.h:113-159 | the match is greatest: a front of the query is stored if and only if it is no longer |
| `PrefixCacheSpec.EraseEffect` | infMain/include/base/compressed_radix_cache_tree.h:276-303 | erasing evictable prefixes lowers the evictable count by their number and leaves pinned prefixes alone |
| `PrefixCacheSpec.InsertedSize` | infMain/include/base/compressed_radix_cache_tree.h:161-215 | an insert adds as many blocks as the query has beyond its longest stored prefix |
| `MemoryBudget.NodeMemoryBudget.SetCapacity` | infMain/source/serving/node_memory_budget.cpp:9-14 | accepted exactly when not frozen and at least what is used; the invariant on peaks survives exactly if an accepted capacity also covers the peak, which the code does not check |
| `MemoryBudget.NodeMemoryBudget.Reserve` | infMain/source/serving/node_memory_budget.cpp:16-32 | granted exactly when every pool can take its share, including sums that overflow a machine word; a refusal changes nothing |
| `MemoryBudget.NodeMemoryBudget.Release` | infMain/source/serving/node_memory_budget.cpp:34-46 | releasing covered demands subtracts them; the terminating branches are unreachable |
| `MemoryBudget.PlusMinus` | infMain/source/serving/node_memory_budget.cpp:16-46 | release undoes reserve |
| `PdLedger.StepsKeepBalance` | demo/pbe_vlm_language_role.cpp:624-1068 | each queued operation, on success and on every failure, a prefill that fails once its hold is entered included, keeps used bytes equal to persistent demands plus reservations plus holds |
| `PdLedger.DecodeLeavesIffTurnedAway` | demo/pbe_vlm_language_role.cpp:889-911 | an answered decode call leaves the reservation it names behind if and only if the queue is full, the data owner is gone, the call names no request, its deadline has passed, or the worker knows of a cancel |
| `PdLedger.PrefillLeavesIffTurnedAway` | demo/pbe_vlm_language_role.cpp:705-869 | an answered prefill call leaves its reservation behind if and only if the queue is full, it fails the first checks, is a duplicate or of an old generation, its bundle cannot be read, or the bundle asks for other bytes than were reserved; it leaves a hold exactly when it takes the reservation over in time and is not broken off before the hold is entered |
| `PdLedger.ReturnsUnlessFull` | demo/pbe_vlm_language_role.cpp:687-703 | an answered unreserve or release call gives back what it names if and only if the queue is not full |
| `PdLedger.CancelRefusesDecode` | demo/pbe_vlm_language_role.cpp:554-563 | once a cancel is accepted the worker refuses every decode of that generation and of older ones |
| `PdLedger.RecordedIsCovered` | demo/pbe_vlm_language_role.cpp:624-1068 | whatever is recorded is covered by what is used, so no release can underflow |
| `PdLedger.NothingKept` | demo/pbe_vlm_language_role.cpp:519-540 | a worker with no reservations and no holds uses exactly its persistent bytes |
| `LanguageRole.LanguageRole.PDReserve` | demo/pbe_vlm_language_role.cpp:624-685 | granted exactly when the request is valid and timely, not cancelled, and either already reserved for the same role or covered by every pool; a new grant is entered with its role, deadline and demands, a refusal has no effect |
| `LanguageRole.LanguageRole.PDUnreserve` | demo/pbe_vlm_language_role.cpp:687-703 | releases under the right id, answers an unknown key as already released, refuses a wrong id without effect |
| `LanguageRole.LanguageRole.ConsumePDReservation` | demo/pbe_vlm_language_role.cpp:1817-1838 | succeeds exactly for the same id, role and demands before the deadline; a matching but expired reservation is given back; any mismatch changes nothing |
| `LanguageRole.LanguageRole.PDPrefill` | demo/pbe_vlm_language_role.cpp:705-887 | a successful prefill turns the reservation into a hold; a failed one returns it, keeps the hold if that had been entered, or leaves the reservation exactly when the worker refused the call before taking it over; the bundle lease never outlives the call |
| `LanguageRole.LanguageRole.PDDecode` | demo/pbe_vlm_language_role.cpp:889-1054 | a matching reservation is returned however the call ends, except exactly when the call is refused at its first checks |
| `LanguageRole.LanguageRole.PDRelease` | demo/pbe_vlm_language_role.cpp:1056-1068 | gives a hold back exactly once |
| `LanguageRole.LanguageRole.Offer` | demo/pbe_vlm_language_role.cpp:2108-2121 | a command is queued exactly if fewer than 16 wait; otherwise nothing changes |
| `LanguageRole.LanguageRole.Serve` | demo/pbe_vlm_language_role.cpp:1997-2070 | the oldest command is taken and does to the worker, and is answered, what its operation says |
| `LanguageRole.LanguageRole.Infer` | demo/pbe_vlm_language_role.cpp:1150-1345 | on every path all bytes and all leases of a batch are given back, and only the admitted generations change |
| `LanguageRole.LanguageRole.AdmitOne` | demo/pbe_vlm_language_role.cpp:1158-1310 | an admitted request adds its bytes and one new lease, any other outcome adds nothing |
| `LanguageRole.LanguageRole.ReleaseBatch` | demo/pbe_vlm_language_role.cpp:332-353 | each lease and each reservation of a batch is released once |
| `LanguageRole.LanguageRole.AdmitGeneration` | demo/pbe_vlm_language_role.cpp:1840-1851 | a generation is admitted exactly when newer than the latest of its id |
| `LanguageRole.LanguageRole.Cancel` | demo/pbe_vlm_language_role.cpp:554-563 | marks every generation up to the given one as cancelled and nothing else |
| `PdCoordinator.OneTerminal` | python/pbe_roles/pd_runtime.py:14-22 | on a path through the transition table only the last record can be terminal, and records chain |
| `PdCoordinator.StepKeepsLInv` | python/pbe_roles/pd_runtime.py:263-397 | every step of a submit call, whether its calls are executed, turned away by a full queue, failed or not answered, keeps its invariant: legal transitions only, reservations accounted for, workers in agreement |
| `PdCoordinator.CheckKeeps` | python/pbe_roles/pd_runtime.py:173-180 | the activity check either goes on or enters the matching handler |
| `PdCoordinator.OutcomeKeeps` | python/pbe_roles/pd_runtime.py:345-361 | recording the outcome is always a legal last transition |
| `PdCoordinator.PrefillKeeps` | python/pbe_roles/pd_runtime.py:315-323 | the prefill call: not answered, turned away by the queue, refused, failed with or without its hold, or good |
| `PdCoordinator.DecodeKeeps` | python/pbe_roles/pd_runtime.py:328-338 | the decode call: not answered, turned away by the queue, refused, failed or good |
| `PdCoordinator.UnreserveDKeeps` | python/pbe_roles/pd_runtime.py:368-377 | clean-up of the decode reservation: returned, turned away by the queue, or not answered |
| `PdSystem.RunKeepsInv` | python/pbe_roles/pd_runtime.py:154-400 | every state of every interleaving of submits, cancels, full queues and late executions satisfies the system invariant |
| `PdSystem.AdvanceKeepsReqs` | python/pbe_roles/pd_runtime.py:263-397 | one request's step changes only its own entries at the workers and keeps all other requests' invariants |
| `PdSystem.AdmitFits` | python/pbe_roles/pd_runtime.py:256-262 | an admitted key is new and later than every earlier one with its id |
| `PdSystem.CancelKeeps` | python/pbe_roles/pd_runtime.py:192-204 | an accepted cancel keeps the invariant and marks active keys only |
| `PdTheorems.EveryRequestHasOneOutcome` | python/pbe_roles/pd_runtime.py:124-143 | each request's records are one path through the table; a finished request has exactly one terminal record, the last |
| `PdTheorems.AdmissionsIncrease` | python/pbe_roles/pd_runtime.py:249-262 | generations admitted for an id strictly increase, and cancelled keys are always active keys |
| `PdTheorems.TimelyCancelDecides` | python/pbe_roles/pd_runtime.py:339-361 | a cancel accepted up to the check after decoding rules out the ends finished and failed |
| `PdTheorems.ReservationsAccounted` | python/pbe_roles/pd_runtime.py:365-377 | each acknowledged reservation was used by an answered call or handed to one unreserve call, never both and never neither |
| `PdTheorems.PrefillBudgetReturnsIff` | python/pbe_roles/pd_runtime.py:291-384 | with all calls answered, the prefill worker's budget ends as it began if and only if no step of the run was a prefill, unreserve or release call that the worker, as it then stood, turned away |
| `PdTheorems.DecodeBudgetReturnsIff` | python/pbe_roles/pd_runtime.py:291-384 | the same for the decode worker and its decode and unreserve calls |
| `PdTheorems.LeftBehind` | python/pbe_roles/pd_runtime.py:315-384 | a request that is over, with all its calls answered, has left a reservation or a hold behind exactly where one of its calls was turned away |
| `PdTheorems.TurnedAwaySometime` | python/pbe_roles/pd_runtime.py:315-384 | a request notes that a call was turned away if and only if some step of the run was such a call |
| `PdTheorems.LateFailureIsHeld` | demo/pbe_vlm_language_role.cpp:862-887 | a prefill that fails once its hold is entered leaves its bytes held, with the coordinator bound to release them |
| `PdTheorems.ReleaseGivesBack` | python/pbe_roles/pd_runtime.py:378-384 | the answered release gives such bytes back unless the queue is full |
| `PdLeak.CancelBeforeDecodeLeaks` | python/pbe_roles/pd_runtime.py:335-338 | a concrete run from reservations the workers grant: the decode worker would take the call, is told of a cancel, and refuses it; the request ends cancelled with all calls answered, and the reservation stays |
| `PdLeak.FullQueueLeaks` | python/pbe_roles/pd_runtime.py:368-377 | a concrete run in which no prefill or decode call is answered at all: after a client cancel a full queue turns the unreserve call away, every call is answered, the queue empties, and the reservation stays |
| `PdLeak.OtherwiseGivenBack` | demo/pbe_vlm_language_role.cpp:889-911 | from the same state, had the cancel not arrived, every decode call in time would have given the reservation back |
| `PdRuntime.PDRequestState.Transition` | python/pbe_roles/pd_runtime.py:124-143 | accepted exactly along the table; a refusal changes nothing and the records stay a path |
| `PdRuntime.ProductionPDCoordinator.Begin` | python/pbe_roles/pd_runtime.py:249-262 | a stale generation is rejected with the tables untouched; any other becomes active under a new key |
| `PdRuntime.ProductionPDCoordinator.CheckActive` | python/pbe_roles/pd_runtime.py:173-180 | a cancel is seen before the deadline |
| `PdRuntime.ProductionPDCoordinator.Cancel` | python/pbe_roles/pd_runtime.py:192-204 | accepted exactly for active keys |
| `PdRuntime.ProductionPDCoordinator.End` | python/pbe_roles/pd_runtime.py:395-397 | the key leaves both tables |
| `MpsOverlap.OverlapSummary` | tools/serving/summarize_mps_evidence.py:54-96 | both totals are sizes of sets of instants, the pair count is the number of overlapping pairs of different processes, and the reported pair is the first longest one |
| `MpsOverlap.Expire` | tools/serving/summarize_mps_evidence.py:62-69 | after expiring, exactly the kernels that outlast the new start are active and the totals are exact up to the sweep position |
| `MpsOverlap.MeetActive` | tools/serving/summarize_mps_evidence.py:75-82 | pairing the new kernel with the active ones counts its overlapping pairs and keeps the first longest |
| `MpsOverlap.Drain` | tools/serving/summarize_mps_evidence.py:85-91 | after the last arrival the totals become those of all instants |
| `MpsOverlap.Passes` | tools/serving/summarize_mps_evidence.py:64-74 | over a stretch without events each total grows by its whole length or not at all |
| `MpsOverlap.SeveralPids` | tools/serving/summarize_mps_evidence.py:66-67 | more than one distinct process number means two active kernels of different processes |
| `MpsOverlap.LongestStep` | tools/serving/summarize_mps_evidence.py:78-82 | one comparison keeps the first longest pair among those met |
| `LeaseTraceAudit.AuditTrace` | tools/serving/validate_kv_reuse.py:19-58 | accepts exactly the sound traces: disjoint live leases at every moment, releases matching live identical leases, one epoch, nothing live at the end, some reuse |
| `LeaseTraceAudit.OnAcquire` | tools/serving/validate_kv_reuse.py:35-49 | an acquire is entered or the trace is not sound |
| `LeaseTraceAudit.OnRelease` | tools/serving/validate_kv_reuse.py:50-54 | a release is entered or the trace is not sound |
| `LeaseTraceAudit.AsManyReleases` | tools/serving/validate_kv_reuse.py:51-57 | a sound trace releases as often as it acquires |
| `LeaseTraceAudit.PeakIsTrueMaximum` | tools/serving/validate_kv_reuse.py:49-57 | the peak is the largest number of addresses live at any time, so at most the arena size |
| `LeaseTraceAudit.BytesAreAddresses` | tools/serving/validate_kv_reuse.py:49-49 | leases that share no byte sum to the number of addresses they cover |
| `BytePairEncoding.BytePairMerge` | infMain/include/base/tiktoken.h:18-93 | the loop with cached ranks computes the naive algorithm: merge the leftmost lowest-ranked pair until none is left |
| `BytePairEncoding.MergeAt` | infMain/include/base/tiktoken.h:65-82 | after one merge every cached rank is again the rank of its pair |
| `BytePairEncoding.FindLowest` | infMain/include/base/tiktoken.h:57-63 | the scan finds the leftmost lowest rank, or there is none |
| `BytePairEncoding.Prepare` | infMain/include/base/tiktoken.h:23-52 | the initial cuts are single bytes with the ranks of all adjacent pairs |
| `BytePairEncoding.NaivePartitions` | infMain/include/base/tiktoken.h:53-86 | the pieces join to the input, and no adjacent pair of the result is in the table |
| `Tiktoken.BytePairEncode` | infMain/include/base/tiktoken.h:95-109 | one lookup per piece of the naive result; fails exactly when some piece is not in the table |
| `Tiktoken.Tokenizer.EncodeSinglePiece` | infMain/include/base/tiktoken.h:155-161 | the whole text's number if it has one, else the encoding of its pieces |
| `Tiktoken.Tokenizer.Decode` | infMain/include/base/tiktoken.h:245-264 | the texts of the tokens in a row, special tokens as fall-back, or the first unknown token |
| `Tiktoken.TotalIffAllBytes` | infMain/include/base/tiktoken.h:95-109 | every non-empty text encodes if and only if every single byte is in the table |
| `Tiktoken.RoundTripIffFaithful` | infMain/include/base/tiktoken.h:155-161 | decoding undoes encoding for every encodable text if and only if the decoder returns each entry for its number |
| `Tiktoken.FaithfulIffInjective` | infMain/include/base/tiktoken.h:137-140 | that is so exactly when no two table entries share a number |
| `Tiktoken.Invert` | infMain/include/base/tiktoken.h:137-144 | each number decodes to some entry that has it |
| `Utf8Stream.Pending.Drain` | infMain/include/base/utf8_stream.h:8-33 | the drain of the pending bytes, as a function of them and the final flag |
| `Utf8Stream.ChunkIndependent` | infMain/include/base/utf8_stream.h:8-33 | however the bytes are cut, the stream equals one final drain of the whole |
| `Utf8Stream.OutputWellFormed` | infMain/include/base/utf8_stream.h:8-33 | the output is always well formed (section 4 of RFC 3629) |
| `Utf8Stream.UnchangedIffWellFormed` | infMain/include/base/utf8_stream.h:8-33 | a final drain returns its input unchanged if and only if the input is well formed |
| `Utf8Stream.WellFormedPasses` | infMain/include/base/utf8_stream.h:28-29 | well-formed input passes and leaves nothing pending |
| `Utf8Stream.PendingIsPartial` | infMain/include/base/utf8_stream.h:24-31 | at most three bytes stay pending, all of one unfinished character, and none after a final drain |
| `Utf8Grammar.CharByLength` | infMain/include/base/utf8_stream.h:13-23 | the byte tests accept exactly the characters of the grammar |
| `Utf8Grammar.PartialExtends` | infMain/include/base/utf8_stream.h:24-27 | what is held back can always be completed to a character |
| `ChatUtf8.LongestValidUtf8Prefix` | demo/chat_qwen.cpp:244-311 | the returned length is that of the longest well-formed prefix |
| `ChatUtf8.Utf8StreamBuffer.PushPiece` | demo/chat_qwen.cpp:32-45 | the longest valid prefix leaves the buffer; it is recorded only when there is a listener |
| `ChatUtf8.AgreeIffExtendable` | demo/chat_qwen.cpp:244-311 | the two decoders do the same to some bytes if and only if these begin some well-formed text |
| `ChatUtf8.AgreeOnAllCuttings` | infMain/include/base/utf8_stream.h:8-33 | they agree at every step of every cutting of a text if and only if it begins some well-formed text |
| `PdPayload.Pack` | demo/pbe_vlm_language_role.cpp:157-186 | the packed bytes, field by field |
| `PdPayload.Unpack` | demo/pbe_vlm_language_role.cpp:188-236 | accepts exactly the packings of well-formed values and yields the value that was packed |
| `PdPayload.RoundTripIffWellFormed` | demo/pbe_vlm_language_role.cpp:157-236 | a value survives packing and unpacking if and only if it is well formed |
| `PdPayload.PackParse` | demo/pbe_vlm_language_role.cpp:188-236 | every accepted byte string is the packing of what it decodes to: no second encoding, no trailing bytes |
| `WireIo.Put` | infMain/include/data/wire_io.h:14-18 | little-endian bytes, least significant first |
| `WireIo.Get` | infMain/include/data/wire_io.h:23-32 | reads what was put and moves past it, or stays when too few bytes are left |
| `WireIo.GetPutNats` | infMain/include/data/wire_io.h:14-32 | fields written in a row read back |
| `TensorBundle.Encode` | python/pbe_data_client/tensor_bundle.py:6-19 | succeeds exactly when everything fits its field, for every positive alignment; no padding is negative and the final length assertion holds |
| `TensorBundle.Decode` | python/pbe_data_client/tensor_bundle.py:20-25 | the entries of the bundle, or a failure, as a function of the bytes |
| `TensorBundle.RegionsAreSeparate` | python/pbe_data_client/tensor_bundle.py:7-10 | payload regions are aligned, disjoint, in order, after the metadata and within the bundle |
| `TensorBundle.PayloadAt` | python/pbe_data_client/tensor_bundle.py:16-17 | each payload stands at its recorded offset |
| `TensorBundle.RoundTrip` | python/pbe_data_client/tensor_bundle.py:6-25 | decoding an encoded bundle yields names, type codes, shapes and payloads, for any checksum function |
| `TensorBundle.TextNamesSurvive` | python/pbe_data_client/tensor_bundle.py:6-25 | with UTF-8 names exactly the bundles whose names are well formed decode |
| `TensorBundle.PaddingIsAlign` | python/pbe_data_client/tensor_bundle.py:8-15 | the padding computed from the length written so far reaches the planned start |
| `DeploymentLifecycle.ShutdownCoordinator.Run` | tools/serving/deployment_lifecycle.py:59-71 | phases in order; drain before and cancel after the first fault; exporters stopped only when no importer with an ordinary name lives, so only when unused if no importer has a reserved name; an exporter that outlives it all was stopped unless an importer was seen; a graceful report means every child has exited and all workers confirmed and exited 0 before the owner was contacted; a live owner beside a live importer is quarantined |
| `DeploymentLifecycle.ShutdownCoordinator.Force` | tools/serving/deployment_lifecycle.py:73-93 | a forced process is never an exporter whose importers can be seen to live, and forcing makes the shutdown non-graceful |
| `DeploymentLifecycle.ShutdownCoordinator.StopWorker` | tools/serving/deployment_lifecycle.py:118-133 | graceful only if the worker confirmed synchronisation and exited with 0 |
| `DeploymentLifecycle.ShutdownCoordinator.StopAuxiliary` | tools/serving/deployment_lifecycle.py:135-148 | an event owner that outlives it was forced, unless an importer was seen |
| `DeploymentLifecycle.ShutdownCoordinator.StopOneOwner` | tools/serving/deployment_lifecycle.py:151-176 | the owner is contacted or killed unless an importer was seen, and then it is quarantined |
| `DeploymentLifecycle.ShutdownCoordinator.Advance` | tools/serving/deployment_lifecycle.py:53-57 | only the next phase can be entered |
| `DeploymentLifecycle.EveryoneGone` | tools/serving/deployment_lifecycle.py:59-71 | the phases together leave no process out |
| `DeploymentLifecycle.LiveImporterProtectsOwner` | tools/serving/deployment_lifecycle.py:151-163 | in a safe run, while an importer lives at the end no owner was ever contacted or killed |
| `DeploymentLifecycle.GuardSufficesIffNoneMisnamed` | tools/serving/deployment_lifecycle.py:139-163 | the name test keeps every exporter from being stopped in use if and only if no importer carries a reserved name |
| `DeploymentLifecycle.NoneMisnamedIffNamesFree` | tools/serving/deploy_multi_model.py:103-106 | reserved are the names of the API and the owner, and the event owner's if there is one |
| `DeploymentLifecycle.WorkerCalledApi` | tools/serving/deploy_multi_model.py:331-332 | a worker whose model id is api is enough for the owner to be contacted while that worker is alive |
| `DeploymentLifecycle.UnsafeRun` | tools/serving/deployment_lifecycle.py:59-71 | for every domain with a misnamed importer there is a whole run that stops an exporter in use |
| `RotaryLayout.PermutationsInverse` | tools/export_llama.py:573-574 | the two row permutations are inverse, and defined exactly when every head has the same even number of rows |
| `RotaryLayout.PairsByHead` | tools/export_llama.py:370-371 | the permutation works head by head |
| `RotaryLayout.PairsCarryRotation` | tools/export_qwen3/model.py:35-51 | it carries the half-split rotation to the interleaved one with the same angles |
| `RotaryLayout.PairsKeepDot` | tools/model.py:57-82 | it keeps dot products |
| `RotaryLayout.PermutedWeights` | tools/export_llama.py:573-583 | permuted weights give permuted activations |
| `RotaryLayout.ScoresUnchanged` | tools/model.py:57-82 | converting query and key weights and switching rotations changes no attention score |

## Left out

- `serving::Scheduler`, `GlobalChunkAllocator`, `PageDirectory` and the other classes the repository only declares: no bodies to model.
- CUDA, MPS control, IPC mapping, tensor kernels, sampling, sockets and JSON: calls that succeed or fail arbitrarily.
- Minimal compression of the radix tree: erasing a leaf does not merge a single child, so none is claimed.
- CompressedRadixCacheTree.Tree.UnpinPath: for a node that is not itself pinned but lies on a pinned path, success and the new counts are stated but not the tree's invariant, which then fails (`RadixArena.UnpinnedTooOften`).
- RadixCachePins.KVCacheManager.PublishRadixCache: the page directory, which decides whether a publication is made and under which ids.
- CompressedRadixCacheTree.Tree.EvictBlocks: the page directory and recovery bookkeeping of the cache manager around each eviction.
- LanguageRole.LanguageRole.Infer: which requests succeed and their tokens; the model keeps the admission, the early exits and what is returned.
- LanguageRole.LanguageRole.PDDecode: the token count is not checked by the code; the bytes a non-positive count would ask for are left arbitrary.
- PdSystem.RunKeepsInv: a worker looks at a call once, at the head of it, as far as owner, cancels and generations go; cancels that arrive while the model runs are among its arbitrary failures.
- PdTheorems.PrefillBudgetReturnsIff: liveness; that a submit call ends rests on remote timeouts.
- The coordinator's submit body is modelled as a step relation on values rather than as one method, because its interleaving with cancels is the point; the locked sections themselves are methods in `PdRuntime`.
- Round-robin placement, worker health records and the role registry: they follow from their definitions.
- The per-process kernel counts of the sweep's summary and the examples listed by the audit: they follow from their definitions.
- LeaseTraceAudit.AuditTrace: lines that are not JSON objects or lack fields; every event is given parsed.
- LeaseTraceAudit.PeakIsTrueMaximum: needs leases of non-negative size inside the arena, as its statement says; the audit itself checks neither.
- Splitting text with regular expressions and special-token search before byte-pair encoding: needs a model of RE2.
- BytePairEncoding.BytePairMerge: for the empty piece the code does not terminate, so a non-empty piece is required.
- Tiktoken.FaithfulIffInjective: for tables without the empty string; with it, only RoundTripIffFaithful applies.
- TensorBundle.Encode: all of Python's exceptions are one failure result; which is raised first is not modelled.
- DeploymentLifecycle.ShutdownCoordinator.Run: the report's event texts.
- RotaryLayout.ScoresUnchanged: rounding of floats and reduced-precision types.
- Exporters, benchmarks, plotting, and hex parsing: no property spans several functions.
