# FlagCX: concurrent, distributed and index-keeping logic, verified

FlagCX is a communication library for mixed clusters of accelerators. This project models the parts of
it whose correctness depends on interleavings, on agreement between ranks or on arithmetic, and proves
what they promise. Device, network, bootstrap and operating system calls are answers chosen freely.

* **RMA proxy** (`NetTransport`, `Scoreboards`, `Visibility`, `Rma*`). One progress thread and any number
  of producers share a bounded ring per peer. `RmaPeer` is the peer state and its steps as functions;
  `RmaProxy` is the state machine over all peers, whose actions are the lock-protected regions of the
  producers and the steps of the progress pass in any interleaving; `RmaTheorems`, `RmaVisible` and
  `RmaQuiesceRuns` state what holds in every run. `Scoreboards.Scoreboard`, `RmaRing.Ring` and
  `RmaGroupRefs.ReleaseGroup` are the same state updated in place, with wrapped 32-bit indices, an array
  indexed modulo the capacity and an atomic reference count; each method is proved equal to its function.
* **One-sided registration** (`Convergence`, `PublishSlot`, `Registration`, `Connections`).
  `Registration` runs the program of n ranks from collective to collective with arbitrary rank-local
  failures. `Connections.OneSide` is one rank's handles over a `Provider` whose methods demand that a
  mesh is closed only when nothing is registered on it and that a registration is released once.
* **P2P worker pool** (`P2pTransfer`, `P2pLoad`, `P2pBooks`, `P2pWorkers`, `P2pScheduler`). Slices are
  cut, queued, posted under queue-pair and completion-queue credit, completed or failed.
  `P2pWorkers.WorkerPool.Valid()` is the pool's bookkeeping; every turn of every thread keeps it.
* **Memory-region registry** (`MrTable`, `MrRegistry`). `MrTable` is the registry as a map;
  `MrRegistry.Registry` is the sorted array with its id index, proved equal to it.
* **Cluster schedule and split** (`C2cSchedule`, `ClusterSplit`, `ClusterTables`), **ordering keys**
  (`OrderingKey`) and the **grid barrier** (`GridSync`).

Where the code does not do what it is meant to in all cases, a lemma gives the exact condition:

* `flagcxHeteroFlushRma` can answer success although a covered operation failed, until the pending error
  is published (`FlushSuccessAfterFailure`). They all succeeded if no error is pending or the peer's
  scoreboard has seen none; for a flush of everything accepted exactly in the latter case
  (`FlushMeansSucceeded`).
* An operation that the adaptor's test ends with `flagcxInProgress` is retired but never published, so
  flushes of it or of anything later cannot succeed (`InProgressStrands`, `InProgressIsReachable`). A
  sequence is published exactly when it and all before it were retired with another result
  (`PublishedPrefix`), and an idle peer has published everything exactly when none had that one
  (`IdlePublishesExactly`).
* The ring's empty test compares wrapped indices without wrapping; it is right exactly when the ring is
  empty or no wrap of the 32-bit indices lies inside it (`EmptyTestExact`). The issue loop, the drain and
  the wait of the quiesce use that test: descriptors enqueued across the wrap are never issued, drained or
  waited for (`StuckForever`, `WrapStrandsDescriptor`), and a drain or a quiesce retires everything
  exactly when no wrap lies inside the ring (`DrainedNothingStranded`, `QuiesceIsStable`), as for every
  peer with fewer than 2^32 descriptors (`FewOperationsAllRetired`).
* The quiesce can also return while a descriptor is between the ring and the in-progress count
  (`QuiesceTooEarly`); everything is retired exactly when its last read does not fall between two stores
  of an action (`QuiesceReads`).
* A failed registration leaves every entry alone except when a P2P owner registers again under a
  conflicting id and a new handle, which has replaced the old one by then (`FailedRegister`).
* The registry's id counter wraps when a caller brings the largest id (`OrderedUnlessWrapped`,
  `LargestIdWraps`), and then ids come back (`WrappedIdsComeBack`).
* A registration refused by the id index leaves its id in the caller's extension; retried with it, it
  succeeds exactly when no larger id was registered in between (`RetryExact`, `OvertakenRetry`).
* The sub-cluster split keeps ids in range exactly when the remainder is at most the quotient
  (`SplitInRange`); five ranks split three ways break it.
* Slices carry all bytes of a transfer exactly when the last one fits a 32-bit length (`CarriesAll`);
  4 GiB without a block size are sent as one empty slice (`FourGigabytesLost`).

## Model

| member | source | states |
|---|---|---|
| RmaTheorems.PublishedPrefix | flagcx/core/flagcx_hetero.cc:637-668 | in any run a sequence is published if and only if it and all before it are retired with a result other than in-progress; doneSeqs never decreases, and what it covers has been retired exactly once with a result that never changes |
| RmaTheorems.IdlePublishesExactly | flagcx/core/flagcx_hetero.cc:637-709 | a peer with an empty ring and nothing in progress has published everything if and only if no operation was retired as in-progress; otherwise it stops right before the first such one |
| RmaTheorems.FlushMeansRetired | flagcx/core/flagcx_hetero.cc:1808-1828 | a flush answers success if and only if it is for sequence 0, or no error is published and every operation up to its sequence is retired with a result other than in-progress, and then this holds in every later state |
| RmaTheorems.FlushMeansSucceeded | flagcx/core/flagcx_hetero.cc:1808-1828 | after a successful flush all operations up to its sequence succeeded if no error is pending or the scoreboard has no error; after one of everything accepted they did if and only if the scoreboard has none; for any sequence, if and only if the first failure comes later |
| RmaTheorems.NoPendingErrorNoFailure | flagcx/core/flagcx_hetero.cc:610-613 | while no error is pending, every retired operation of every peer succeeded |
| RmaFlushGap.FlushSuccessAfterFailure | flagcx/core/flagcx_hetero.cc:1808-1828 | a reachable state in which flushing sequence 1 answers success although operation 1 failed |
| RmaTheorems.InProgressStrands | flagcx/core/flagcx_hetero.cc:670-709 | a descriptor retired with an in-progress result, and everything after it, is never published, in any later state |
| RmaFlushGap.InProgressIsReachable | flagcx/core/flagcx_hetero.cc:1026-1056 | a reachable state in which the only operation was retired as in-progress, the peer is idle and nothing is published |
| RmaTheorems.CounterCountsOperations | flagcx/core/flagcx_hetero.cc:670-709 | the completion counter is the number of successful API operations, a grouped operation counting once through its release |
| RmaTheorems.ReleaseWaitsForMembers | flagcx/core/flagcx_hetero.cc:1116-1134 | a posted release is not a member of its own group, and every data member of the group had succeeded |
| RmaTheorems.FailedGroupNeverReleases | flagcx/core/flagcx_hetero.cc:1116-1134 | once a data member failed, its release is never posted in any later state and never retired as a success |
| RmaVisible.GetVisibility | flagcx/core/flagcx_hetero.cc:879-994 | in any run, behind every flush-requiring GET that succeeded lie two earlier actions: one began a flush of its domain while the GET was in progress, data-complete and not visible, and the other brought the success of that same flush, which nothing replaced in between |
| RmaVisible.PendingOrigin | flagcx/core/flagcx_hetero.cc:933-994 | a flush pending in any state of a run was begun by an earlier action over exactly the GETs then data-complete and not visible, and its range has not changed since |
| RmaVisible.ActionFlushes | flagcx/core/flagcx_hetero.cc:879-994 | only the post of a visibility flush begins one, and only its post or its completion with success adds GETs to the flushed ones |
| RmaTheorems.SuccessIsFlushed | flagcx/core/flagcx_hetero.cc:879-994 | in every state visible <= target <= dataCompleted <= issued for every domain, and a flush-requiring GET that succeeded is among the flushed ones |
| RmaTheorems.SnapshotIsComplete | flagcx/core/flagcx_hetero.cc:933-970 | the snapshot of a flush is exactly the GETs of the domain not yet visible up to the data watermark, each with its data complete |
| RmaGets.LateGetNotCovered | flagcx/core/flagcx_hetero.cc:887-917 | a GET whose data completes after the snapshot is neither failed nor made visible by that flush |
| RmaGets.FinishFlushExact | flagcx/core/flagcx_hetero.cc:887-917 | a finished flush moves visible to its target and no further; a failed one turns exactly the covered successes into its error |
| RmaGets.TrackGetSucceeds | flagcx/core/flagcx_hetero.cc:772-862 | after pruning, a GET always finds or gets a domain: the domain table cannot be full |
| RmaGets.PruneKeepsGets | flagcx/core/flagcx_hetero.cc:814-845 | pruning keeps the visibility invariant and leaves only domains a GET in progress refers to |
| RmaTheorems.IpcBarrier | flagcx/core/flagcx_hetero.cc:1136-1164 | an IPC GET is never posted to the adaptor, succeeds only after all earlier operations are retired, and nothing after it is posted before it is retired |
| RmaTheorems.NothingPostedAfterError | flagcx/core/flagcx_hetero.cc:1102-1115 | from the moment an error is pending no descriptor is posted on any peer, in any later state |
| RmaTheorems.ErrorPublishedIdle | flagcx/core/flagcx_hetero.cc:1333-1403 | the progress loop publishes rmaError only when every peer has no request in flight |
| RmaTheorems.DrainedNothingStranded | flagcx/core/flagcx_hetero.cc:1315-1331 | no producer can add to a peer that is or was drained; once its requests are back nothing was retired twice, and the ring is empty, with every accepted descriptor retired, if and only if no index wrap lay inside the ring when the drain began; otherwise exactly the descriptors in the ring are never retired |
| RmaTheorems.StuckForever | flagcx/core/flagcx_hetero.cc:1106 | once an index wrap lies inside the ring of a peer nothing leaves that ring in any later state, and no flush of it succeeds |
| RmaTheorems.QuiesceIsStable | flagcx/core/flagcx_hetero.cc:1758-1789 | a peer that passes the test behind the quiesce barrier accepts nothing more; it is idle if and only if no index wrap lies inside its ring, and then it stays idle with everything retired |
| RmaTheorems.QuietIsFinal | flagcx/core/flagcx_hetero.cc:1758-1789 | what a closed peer that passes the test has retired in all later states: everything if and only if no wrap lies inside the ring, otherwise what had left the ring |
| RmaTheorems.FewOperationsAllRetired | flagcx/core/flagcx_hetero.cc:1758-1789 | for a peer that was handed fewer than 2^32 descriptors drain and quiesce mean that every one of them is retired |
| RmaWrapGap.WrapStrandsDescriptor | flagcx/core/flagcx_hetero.cc:1315-1331 | a reachable state after 2^32 operations of one peer: drained, behind the barrier and passing the quiesce test, with its last descriptor in the ring |
| RmaQuiesce.QuietReadsExact | flagcx/core/flagcx_hetero.cc:1775-1789 | in any sequence of stores, when the wait ends and no wrap is involved, what the progress thread has in hand is exactly what is not retired |
| RmaQuiesceRuns.ActionExpands | flagcx/core/flagcx_hetero.cc:1102-1331 | every action of producers and progress thread is, for every peer, nothing, one store of a producer, or two stores of the progress thread with something in hand between them |
| RmaQuiesceRuns.RunExpands | flagcx/core/flagcx_hetero.cc:1333-1403 | so every run of the proxy expands to stores on the words of every peer, with the states of the run at known places |
| RmaQuiesceRuns.QuiesceReads | flagcx/core/flagcx_hetero.cc:1758-1789 | in any expanded run, when the wait behind the barrier reads the indices at one store and the count at a later one and finds nothing, without a wrap: everything is retired if and only if the last read lies at a state of the run and not inside an action; otherwise what is not retired is what the progress thread has in hand |
| RmaQuiesceRuns.QuiesceTooEarly | flagcx/core/flagcx_hetero.cc:1300-1304 | a reachable run in which both reads behind the barrier find nothing and the only descriptor is in progress in the next state |
| RmaQuiesce.IssueStores | flagcx/core/flagcx_hetero.cc:1102-1310 | an iteration of the issue loop leaves the words alone, or takes from the ring and then counts or retires what it took |
| RmaQuiesce.PollStores | flagcx/core/flagcx_hetero.cc:1044-1079 | a completion leaves the in-progress count first and is retired then |
| RmaQuiesce.DrainStores | flagcx/core/flagcx_hetero.cc:1315-1331 | a drained descriptor leaves the ring first and is retired then |
| RmaRuns.RunInv | flagcx/core/flagcx_hetero.cc:1333-1403 | every state of every run, from any interleaving of producers and progress steps with the ring tested as the code tests it, satisfies the peer and proxy invariants |
| RmaProxy.ActionKeepsInv | flagcx/core/flagcx_hetero.cc:1333-1403 | each of the actions of producers, progress pass, drain, error and quiesce keeps the invariant of the whole proxy, with drain and issue ending where the wrapped test answers empty |
| RmaProxy.PostingCanGoOn | flagcx/core/flagcx_hetero.cc:1106-1115 | a ring found not to be empty still holds a descriptor when the iteration comes to it, whatever producers did in between |
| RmaSteps.EnqueueBatchKeeps | flagcx/core/flagcx_hetero.cc:316-394 | a batch is published as a whole or changes nothing; with room in the ring it is refused exactly while the scoreboard window is full, and then as in-progress |
| RmaSteps.EnqueueReleaseKeeps | flagcx/core/flagcx_hetero.cc:399-504 | data members and their release are published and sealed together, or the peer is as before; the members are exactly the data descriptors |
| RmaSteps.InitGroupKeeps | flagcx/core/flagcx_hetero.cc:2155-2160 | making a new group known keeps the invariant |
| RmaAccept.TrackAllExact | flagcx/core/flagcx_hetero.cc:346-372 | tracking a run succeeds exactly when its last sequence fits the window, and then every entry is pending and its group counts its members |
| RmaAccept.CancelUndoesTrack | flagcx/adaptor/net/net_transport.cc:514-555 | cancelling the newest tracked entry restores the scoreboard, group counts included |
| RmaProgress.GateExact | flagcx/core/flagcx_hetero.cc:1116-1134 | the gate of a release is open exactly when all data members of its group succeeded, and the group test reports done exactly when all are retired |
| RmaProgress.PollFlightKeeps | flagcx/core/flagcx_hetero.cc:996-1053 | polling one native request keeps the invariant and posts nothing; without failures before it there are none after it unless it raises an error |
| RmaProgress.RetireVisibleKeeps | flagcx/core/flagcx_hetero.cc:1066-1091 | so does retiring a GET that has become visible |
| RmaProgress.StartFlushKeeps | flagcx/core/flagcx_hetero.cc:933-994 | posting a visibility flush, with any answer of the adaptor, keeps the invariant |
| RmaProgress.FinishFlushKeeps | flagcx/core/flagcx_hetero.cc:887-917 | finishing a flush keeps the invariant, posts nothing and hides no failure |
| RmaIssue.IssueKeeps | flagcx/core/flagcx_hetero.cc:1102-1310 | every iteration of the issue loop keeps the invariant, and an iteration after which the loop goes on has raised no error |
| RmaIssue.DecideExact | flagcx/core/flagcx_hetero.cc:1102-1310 | what each choice of the issue loop presupposes: room for a post, an open gate for a release, everything before an IPC GET, only PUTs in a batch |
| RmaIssue.DeniedMeansFailure | flagcx/core/flagcx_hetero.cc:1116-1134 | a finished group whose release is not allowed has a failed member |
| RmaIssue.DrainRingKeeps | flagcx/core/flagcx_hetero.cc:1315-1331 | draining retires every ring entry with an error if no index wrap lies inside the ring, and does nothing at all otherwise; it posts nothing |
| RmaIssue.LooksEmptyExact | flagcx/core/flagcx_hetero.cc:192-197 | the empty test answers empty if and only if the ring is empty or the index wrap lies inside it |
| RmaBoard.AdvanceExact | flagcx/adaptor/net/net_transport.cc:595-611 | publishing removes exactly the contiguous retired prefix and nothing else |
| RmaBoard.RetireKeepsBoard | flagcx/core/flagcx_hetero.cc:637-709 | retiring any outstanding sequence, in any order, keeps the scoreboard in step with the accepted sequences and never lowers doneSeqs |
| RmaBoard.RetireKeepsGroups | flagcx/adaptor/net/net_transport.cc:101-115 | and keeps every group's pending count equal to its unretired members |
| Scoreboards.Scoreboard.TrackSubmit | flagcx/adaptor/net/net_transport.cc:458-512 | the array indexed modulo capacity does what the window as a map does, refusals included |
| Scoreboards.Scoreboard.TrackCancel | flagcx/adaptor/net/net_transport.cc:514-555 | the same for cancelling |
| Scoreboards.Scoreboard.TrackCompletion | flagcx/adaptor/net/net_transport.cc:557-614 | the same for completing; next moves by what is reported as advanced |
| Scoreboards.Scoreboard.PublishPrefix | flagcx/adaptor/net/net_transport.cc:595-611 | the publishing loop removes the contiguous retired prefix |
| Scoreboards.SlotOf | flagcx/adaptor/net/net_transport.cc:470-480 | inside the window a slot is free exactly when its sequence is untracked |
| RmaIndex.WrappedDistance | flagcx/core/flagcx_hetero.cc:185-190 | the difference of two wrapped 32-bit indices is the number of entries |
| RmaRing.MaskOfWrapped | flagcx/core/flagcx_hetero.cc:374-377 | the index mask of a power-of-two ring sees the unwrapped index |
| RmaIndex.EmptyTestExact | flagcx/core/flagcx_hetero.cc:192-197 | the comparison of wrapped indices answers empty if and only if the ring is empty or a wrap lies between the indices, and so is right if and only if the ring is empty or no wrap does |
| RmaIndex.EmptyTestMissesWrap | flagcx/core/flagcx_hetero.cc:192-197 | the first descriptor enqueued across the wrap is taken for an empty ring |
| RmaIndex.LapsAreOrdered | flagcx/core/flagcx_hetero.cc:192-197 | consuming puts no wrap between the indices, and producing takes none away |
| RmaRing.Ring.Full | flagcx/core/flagcx_hetero.cc:185-190 | the full test on wrapped indices answers whether queueSize entries are held |
| RmaRing.Ring.EnqueueBatch | flagcx/core/flagcx_hetero.cc:316-394 | one attempt on the concrete ring has the result and the effect of the transactional step |
| RmaRing.Ring.Enqueue | flagcx/core/flagcx_hetero.cc:265-314 | the same for a single descriptor |
| RmaRing.Ring.EnqueueReleaseGroup | flagcx/core/flagcx_hetero.cc:399-504 | the same for data descriptors with their release, rollback after a refused seal included |
| RmaRing.Ring.Rollback | flagcx/core/flagcx_hetero.cc:354-365 | cancelling a tracked run from its newest entry restores scoreboard and opSeqs |
| RmaRing.Ring.CompleteDesc | flagcx/core/flagcx_hetero.cc:637-709 | retires a descriptor on the concrete state: doneSeqs only grows, successes of API operations are counted, any error is raised |
| RmaRing.Ring.DrainRing | flagcx/core/flagcx_hetero.cc:1315-1331 | the loop on wrapped indices has exactly the effect of the drain of the peer |
| RmaRing.Ring.OpenGroup | flagcx/core/flagcx_hetero.cc:2155-2160 | adding a group to the concrete scoreboard has the effect of the step |
| RmaRing.FirstRefusalDecides | flagcx/core/flagcx_hetero.cc:346-372 | the first refused descriptor decides the answer for the whole run |
| RmaBatch.BatchPut | flagcx/core/flagcx_hetero.cc:2092-2114 | the chunks published and the rest are the batch in order; each chunk was published whole, at the first try after the one before it at which the peer accepted it, and all but the last fill the ring; nothing is left exactly on success, otherwise the next chunk was refused or is still waiting |
| RmaBatch.EnqueueChunk | flagcx/core/flagcx_hetero.cc:316-394 | a chunk is retried exactly while the answer is in-progress, and the first other answer decides |
| RmaGroupRefs.ReleaseGroup.Release | flagcx/core/flagcx_hetero.cc:68-72 | the last reference frees the group, no other does |
| RmaGroupRefs.ReleaseGroup.PutSignal | flagcx/core/flagcx_hetero.cc:2142-2204 | on success exactly the descriptors hold the group; on any failure nobody does and it was freed once |
| RmaGroupRefs.ReleaseInAnyOrder | flagcx/core/flagcx_hetero.cc:68-89 | in whatever order the holders let go, the group is freed exactly once, by the last one |
| Convergence.ConvergeStatus | flagcx/flagcx.cc:390-425 | every rank receives the first failure in rank order, or success if and only if all succeeded |
| Convergence.ConvergeRound | flagcx/flagcx.cc:430-464 | the common outcome is the first failure and the conjunction of the ready flags; ranks in different rounds get an internal error |
| Convergence.RoundMatches | flagcx/flagcx.cc:563-612 | in each mesh round rank a connects to b if and only if b accepts from a |
| Convergence.EveryPairOnce | flagcx/flagcx.cc:563-612 | over n rounds every ordered pair of ranks connects exactly once, a rank with itself included |
| PublishSlot.SelectedIsFree | flagcx/flagcx.cc:1003-1041 | the chosen slot is live on no rank; slot 0 is chosen only when nothing is live anywhere, any other one only while all ranks hold the connection owner |
| PublishSlot.SelectCommonPublishSlot | flagcx/flagcx.cc:1003-1041 | the search answers the first slot free on all ranks, and refuses when the ranks disagree about slot 0 |
| Registration.AllOrNothing | flagcx/flagcx.cc:1525-1804 | whatever fails on whichever rank: all ranks wait in the same collective with untouched tables, or all have returned the same status and have published at the same index, live on no rank before, or all referenced the same existing handle, or none has changed its table |
| Registration.NeverStuck | flagcx/flagcx.cc:430-464 | in every state of every run no rank is alone in a collective: until all return, all wait in one of the same kind, and in a round in the same context and round |
| Registration.StepKeepsLockstep | flagcx/flagcx.cc:1525-1804 | every collective, with any local results before it, keeps the ranks in lockstep |
| Registration.ChosenSlotFree | flagcx/flagcx.cc:1171-1237 | the slot each rank computes from the gathered occupancy is free in its own table |
| Connections.OneSide.Register | flagcx/flagcx.cc:1640-1804 | publishes exactly when all common outcomes are good; otherwise the table is unchanged and a registration that cannot be released is retained |
| Connections.OneSide.RegisterShared | flagcx/flagcx.cc:1976-2089 | the network part of signal and staging registration uses the mesh of slot 0, and publishes exactly when all common outcomes are good |
| Connections.OneSide.RegisterSignal | flagcx/flagcx.cc:1912-2098 | succeeds exactly when the IPC mapping or the network registration does, and records the buffer then; a call without buffer, without a heterogeneous part, with an unknown pointer type or on a registered signal is answered as it should be and changes nothing |
| Connections.OneSide.DeregisterSignal | flagcx/flagcx.cc:2115-2146 | releases network and IPC state together; a refused release keeps both |
| Connections.OneSide.DeregisterWindow | flagcx/flagcx.cc:1822-1874 | drops one reference; the last one releases the registration, never the mesh, and a refused release changes nothing |
| Connections.OneSide.DeregisterAll | flagcx/flagcx.cc:1876-1910 | succeeds exactly when no handle and no retained cleanup is left, and then nothing is registered any more; the connection owner goes last |
| Connections.OneSide.RetryPending | flagcx/flagcx.cc:968-988 | retries retained cleanups from the newest, and keeps the ones from the first that still fails |
| Connections.OneSide.CleanupHandle | flagcx/flagcx.cc:939-960 | releases the registration before closing the mesh it owns; a refused release discards nothing |
| Connections.OneSide.DeregisterShared | flagcx/flagcx.cc:2115-2130 | a refused release keeps the signal or staging handle |
| Connections.OnlyOwnRegistrations | flagcx/flagcx.cc:939-960 | a mesh about to be closed carries no registration of any published, signal, staging or retained handle |
| Connections.NothingLeft | flagcx/flagcx.cc:1876-1910 | without data handles and retained cleanups no registration is live |
| P2pWorkers.WorkerPool.Submit | flagcx/core/flagcx_p2p.cc:883-917 | a refused or waiting submit changes nothing; an accepted one appends its slices to the connection's queue and counts them |
| P2pWorkers.WorkerPool.PostBatch | flagcx/core/flagcx_p2p.cc:1105-1124 | one post moves the accepted prefix onto the wire with one credit each; the failed suffix is marked failed, counted processed and gives its credits back |
| P2pWorkers.WorkerPool.PostComm | flagcx/core/flagcx_p2p.cc:1042-1129 | takes slices from the front of one queue only, and stops only when nothing waits, the completion queue is full or every queue pair is full |
| P2pWorkers.WorkerPool.PostSend | flagcx/core/flagcx_p2p.cc:1015-1129 | takes over everything submitted, keeps each connection's order, never exceeds a queue pair's depth, and ends with nothing left that could be posted; a failed worker does nothing |
| P2pWorkers.WorkerPool.ChooseQp | flagcx/core/flagcx_p2p.cc:1082-1099 | chooses the first queue pair with room in turn from the cursor; none exactly when all are full |
| P2pWorkers.WorkerPool.SliceBatch | flagcx/adaptor/net/ibrc_p2p_adaptor.cc:950-972 | fails exactly a suffix of the batch and returns its credits |
| P2pWorkers.WorkerPool.PollCq | flagcx/core/flagcx_p2p.cc:1168-1222 | every completion takes its slice off the wire and marks it once by its status; a queue that cannot be polled fails the worker |
| P2pWorkers.WorkerPool.FailWorker | flagcx/core/flagcx_p2p.cc:953-1013 | everything waiting fails; slices on the wire fail only in a pass that leaves no abort busy, and then every queue pair they flew on is destroyed |
| P2pWorkers.WorkerPool.TrackComms | flagcx/core/flagcx_p2p.cc:957-977 | the snapshot is empty exactly when nothing is on the wire and nothing was left from an earlier pass |
| P2pWorkers.WorkerPool.RegisterQp | flagcx/core/flagcx_p2p.cc:822-857 | a new entry joins its owner's list without credits in use; the first known depth is kept |
| P2pWorkers.WorkerPool.DestroyQps | flagcx/adaptor/net/ibrc_p2p_adaptor.cc:432-442 | destroys the queue pairs of one connection up to the first refusal, each unregistered before |
| P2pWorkers.WorkerPool.DrainedMayClose | flagcx/core/flagcx_p2p.cc:1485-1506 | once the transfers of a connection are done by their counters, nothing of it flies, which is what closing it asks for |
| P2pWorkers.WorkerPool.Conservation | flagcx/core/flagcx_p2p.cc:883-1222 | submitted less processed is the number of queued and flying slices over all workers |
| P2pWorkers.WorkerPool.OnePlace | flagcx/core/flagcx_p2p.cc:883-1222 | an accepted slice is held in exactly one place, or has been marked exactly once |
| P2pWorkers.WorkerPool.DoneWhenMarked | flagcx/include/flagcx_p2p.h:97-117 | a transfer is done by its task's counter if and only if none of its slices is held any more |
| P2pWorkers.WorkerPool.AliveWhileWorking | flagcx/core/flagcx_p2p.cc:1032-1037 | while a worker has not failed, every slice it has on the wire flies on a live queue pair it knows |
| P2pLoad.WaitingIsApart | flagcx/core/flagcx_p2p.cc:1071-1124 | balanced books imply that no slice waits twice or waits while it flies |
| P2pBooks.PostCredit | flagcx/core/flagcx_p2p.cc:1107-1108 | posting a batch keeps every entry's depth equal to the slices flying on it |
| P2pBooks.LandCredit | flagcx/core/flagcx_p2p.cc:1190-1219 | a slice that leaves the wire frees exactly one credit of the entry it flew on |
| P2pBooks.KeepBusy | flagcx/core/flagcx_p2p.cc:978-993 | when every tracked connection is aborted, all queue pairs of the worker's flying slices are destroyed; otherwise each of them is destroyed or its connection is still tracked |
| P2pTransfer.TransferTask.BuildSlices | flagcx/core/flagcx_p2p.cc:482-509 | appends exactly the slices of the closed form, each counted |
| P2pTransfer.TilesOnce | flagcx/core/flagcx_p2p.cc:482-509 | every byte of the transfer lies in exactly one slice, at the same offset of source and destination |
| P2pTransfer.LastBounds | flagcx/core/flagcx_p2p.cc:497-501 | the last slice is at most a block and a fragment long, and longer than a fragment when there are two or more; together the slices make up the length |
| P2pTransfer.CarriesAll | flagcx/core/flagcx_p2p.cc:491-503 | the 32-bit lengths add up to the transfer if and only if the last slice fits 32 bits |
| P2pTransfer.FourGigabytesLost | flagcx/core/flagcx_p2p.cc:491-503 | a transfer of 2^32 bytes is carried whole if and only if there is a block size and block and fragment limit stay below that length; otherwise it is one slice of length 0 |
| P2pTransfer.ShortTransfersFit | flagcx/core/flagcx_p2p.cc:491-503 | no length is truncated for transfers up to UINT32_MAX bytes |
| P2pTransfer.TransferTask.BuildAndSubmit | flagcx/core/flagcx_p2p.cc:1336-1384 | hands over the slices of all pieces, or leaves every slice built marked failed |
| P2pTransfer.PendingSliceQueue.Append | flagcx/core/flagcx_p2p.cc:525-562 | clearing and compacting keep the contents in order, and the dead prefix below 4096 or below half of the whole |
| P2pScheduler.WorkerForAddress | flagcx/core/include/p2p_scheduler.h:18-32 | a worker in range for every address, and none exactly for a null address or an empty pool |
| MrTable.RegisterKeepsOk | flagcx/core/flagcx_mr_registry.cc:287-528 | registering keeps regions disjoint and unwrapped, every entry owned, P2P ids distinct and below the counter |
| MrTable.DeregisterKeepsOk | flagcx/core/flagcx_mr_registry.cc:530-600 | so does deregistering |
| MrTable.FailedRegister | flagcx/core/flagcx_mr_registry.cc:329-400 | a failed registration leaves all entries unchanged if and only if it is not a P2P owner's second registration with another handle |
| MrTable.FailedRegisterCanChangeHandle | flagcx/core/flagcx_mr_registry.cc:329-400 | an input for which a failed registration has replaced the handle |
| MrTable.OrderedUnlessWrapped | flagcx/core/flagcx_mr_registry.cc:287-528 | a registration that reaches the id assignment keeps the table in order if and only if the counter does not wrap |
| MrTable.LargestIdWraps | flagcx/core/flagcx_mr_registry.cc:287-528 | on an empty registry a P2P owner with the largest id is accepted and leaves the counter at 0 |
| MrTable.AfterTheWrap | flagcx/core/flagcx_mr_registry.cc:388-410 | right after a wrap the next P2P registration without an id is given 0, and succeeds if and only if no P2P region is registered and the index has room |
| MrTable.WrappedIdsComeBack | flagcx/core/flagcx_mr_registry.cc:287-528 | a run in which the registry chooses 1, wraps, and then chooses 0 and 1 again |
| MrTable.RetryExact | flagcx/core/flagcx_mr_registry.cc:388-410 | a refused P2P registration leaves the id it was given in the caller's extension; made again with it at any later time, it succeeds, with that id, if and only if every registered P2P id is smaller by then |
| MrTable.OvertakenRetry | flagcx/core/flagcx_mr_registry.cc:388-410 | an input on which the retry fails because another registration came in between, while it would succeed without the old id |
| MrTable.GivenIdsAdvance | flagcx/core/flagcx_mr_registry.cc:287-528 | an id chosen by the registry is at least the counter before and below the counter after |
| MrTable.IdsNeverReused | flagcx/core/flagcx_mr_registry.cc:761-797 | over any run of registrations, deregistrations and re-creations in which the 64-bit id counter does not wrap, the ids the registry chooses strictly increase |
| MrRegistry.Registry.Register | flagcx/core/flagcx_mr_registry.cc:287-528 | the array and its index after a registration, failed ones and rollbacks included, are those of the map, and the caller is left with the extension the map step leaves it |
| MrRegistry.Registry.Deregister | flagcx/core/flagcx_mr_registry.cc:530-600 | the same for a deregistration |
| MrRegistry.Registry.Lookup | flagcx/core/flagcx_mr_registry.cc:604-635 | finds the region that contains an address exactly when there is one, and there is at most one |
| MrRegistry.Registry.FindExact | flagcx/core/flagcx_mr_registry.cc:637-657 | finds the region with that base address exactly when there is one |
| MrRegistry.Registry.LookupById | flagcx/core/flagcx_mr_registry.cc:659-686 | finds the region of a P2P id exactly when there is one |
| MrRegistry.Registry.BsearchContaining | flagcx/core/flagcx_mr_registry.cc:40-53 | the largest index whose base is not above the address |
| MrRegistry.Registry.BsearchExact | flagcx/core/flagcx_mr_registry.cc:59-72 | the index of a base address, or none exactly when it is absent |
| MrRegistry.Registry.FindInsertionPoint | flagcx/core/flagcx_mr_registry.cc:78-89 | everything before it lies below the address and everything from it on above |
| MrRegistry.Registry.AppendId | flagcx/core/flagcx_mr_registry.cc:175-199 | appends only ids above the last one and keeps the index in bijection with the P2P entries |
| MrRegistry.Registry.RemoveId | flagcx/core/flagcx_mr_registry.cc:205-223 | removes the id found and nothing else |
| MrRegistry.NeighboursDecideOverlap | flagcx/core/flagcx_mr_registry.cc:428-455 | a new region overlaps some entry if and only if it overlaps one of its two neighbours |
| MrRegistry.GlobalRegistry.Init | flagcx/core/flagcx_mr_registry.cc:768-781 | the first use creates a registry that continues the process-wide id counter |
| MrRegistry.GlobalRegistry.Release | flagcx/core/flagcx_mr_registry.cc:783-797 | the last release destroys it and keeps the counter; a release too many is refused |
| C2cSchedule.BuildSchedule | flagcx/flagcx.cc:3582-3602 | the loop fills exactly n entries, and the cluster sends to and receives from every cluster in exactly one round |
| C2cSchedule.DeltasDistinct | flagcx/flagcx.cc:3598-3600 | triangular numbers are distinct modulo a power of two |
| C2cSchedule.DeltasFit | flagcx/flagcx.cc:3589-3596 | at no step of the loop there are more entries than clusters |
| C2cSchedule.DeltasArePermutation | flagcx/flagcx.cc:3582-3602 | over the whole loop every delta below n appears exactly once |
| C2cSchedule.RoundsMatch | flagcx/flagcx.cc:3590-3594 | in each round cluster a sends to b if and only if b receives from a |
| C2cSchedule.Pow2UpIsLeast | flagcx/service/include/utils.h:720-746 | pow2Up is the least power of two not below its argument |
| C2cSchedule.MaskIsMod | flagcx/flagcx.cc:3600 | masking with 2^m - 1 is the remainder modulo 2^m |
| ClusterSplit.SplitInRange | flagcx/core/cluster.cc:108-134 | all sub-cluster numbers are below the split count if and only if the remainder is at most the quotient |
| ClusterSplit.FiveSplitThree | flagcx/core/cluster.cc:108-134 | five ranks split three ways give sub-cluster number 3 of 3 |
| ClusterSplit.SplitIsPartition | flagcx/core/cluster.cc:108-134 | within that bound the computed sub-cluster, rank and size are those of the part the rank lies in |
| ClusterSplit.SplitsArePartition | flagcx/core/cluster.cc:108-134 | the same over all clusters of the communicator |
| ClusterTables.Collect | flagcx/core/cluster.cc:23-139 | the scan and the split compute root, rank, size and number of the cluster from the vendor list, and refuse exactly the invalid split lists |
| ClusterTables.CollectOfBlocks | flagcx/core/cluster.cc:37-81 | for vendors in consecutive blocks the numbers are those of the blocks |
| ClusterTables.CollectOfParts | flagcx/core/cluster.cc:83-136 | with small remainders the split numbers are those of the parts |
| ClusterTables.ClusterSizes | flagcx/flagcx.cc:3556-3566 | the loop recovers the part sizes, which sum to the number of ranks |
| ClusterTables.BuildHomoRankList | flagcx/flagcx.cc:3371-3392 | succeeds exactly when the cluster ranks number the members from 0 on without gap or repetition, and lists them |
| ClusterTables.ListSucceeds | flagcx/flagcx.cc:3371-3392 | for a partition into parts that condition holds for every cluster |
| ClusterTables.NumbersAreParts | flagcx/core/cluster.cc:23-139 | for vendors in consecutive blocks and a split list with small remainders, what every rank works out is its place in one division of the ranks |
| ClusterTables.GatheredIsDivided | flagcx/flagcx.cc:3529-3542 | the numbers gathered from all ranks form that division, and every rank knows the size of its own part and the number of parts |
| ClusterTables.InitTables | flagcx/flagcx.cc:3529-3566 | end to end, from the vendors of all ranks: the cluster sizes are those of the parts and sum to the number of ranks, and the member list of the rank's cluster is built and holds the consecutive ranks of its part |
| OrderingKey.OrderingKey | flagcx/core/coll_proxy_transport.cc:9-24 | the edge's packed identity can be read back from the key, which is never zero |
| OrderingKey.MixIsBijection | flagcx/core/coll_proxy_transport.cc:18-22 | the mixing steps are a bijection on 64-bit words, with the given inverse on both sides |
| OrderingKey.KeysCollideExactly | flagcx/core/coll_proxy_transport.cc:9-24 | two edges share a key if and only if they agree in the low 5 channel bits and the low 24 bits of both ranks |
| OrderingKey.PackIsInjective | flagcx/core/coll_proxy_transport.cc:12-14 | the packed fields do not overlap |
| GridSync.NobodyLeavesEarly | bindings/ir/flagcx_device_scalar_ir_impl.h:88-113 | in any interleaving no block has left its k-th call before every block has arrived at its k-th, and no block is more than one call ahead |
| GridSync.FlipsWhenAllArrived | bindings/ir/flagcx_device_scalar_ir_impl.h:94-99 | when a block is about to flip the sense the counter is zero and all other blocks spin in the same call |
| GridSync.NeverHangs | bindings/ir/flagcx_device_scalar_ir_impl.h:88-113 | once all blocks have made a call, at most three accesses a block bring all of them out of it, whatever happened before |
| GridSync.SomeoneInsideMoves | bindings/ir/flagcx_device_scalar_ir_impl.h:100-111 | while some block is in the call, one of those in it can move |
| GridSync.StepKeeps | bindings/ir/flagcx_device_scalar_ir_impl.h:88-113 | every access of every block keeps the barrier's invariant |

## Left out

RMA proxy:

- RmaTheorems.QuiesceIsStable: takes the test of the quiesce at a state of the run; reads that fall between the stores of an action are in RmaQuiesceRuns. While the loop is between its ring test and the iteration, a wrap may still be crossed by one more batch; of that state nothing further is claimed.
- RmaQuiesceRuns.QuiesceReads: the stores inside an action are those of the indices and the count; the boards and queues change with the whole action.
- Stream readiness: a non-stream enqueue overwrites the single ready word of a peer, so no per-descriptor readiness is claimed; whether the head is ready is a free answer.
- Memory is sequentially consistent; lock-protected regions and single atomic accesses are the steps.
- Enqueue loops: each attempt under the producer lock is one step, and a retried attempt is a later step; that a blocked producer eventually gets through is not claimed.
- A release group is named by its id; its reference count is modelled in RmaGroupRefs apart from the ring.
- The source and destination memory indices of a GET are one key of its visibility domain; a data-complete flag stands for the stage of a GET.
- rmaError set by a failed worker start or by the kernel proxy is one external action, and idleness is claimed for the progress loop's own publication only.
- The occupancy of handle slots is a matrix, one row a rank, in place of one flat byte array.
- IPC mappings, signal slots, counters in device memory, PutValue and the persistent kernel proxy.

Registration and connections:

- A gather and the agreement on its result are one collective; the exchange of registration data (flagcx/flagcx.cc:847-894) is five of them, and the addresses and keys it gathers are not modelled.
- Connections.OneSide.RegisterSignal: a network handle without a recorded buffer, for which the code has a branch, cannot come about in the model. The quiet success of a staging registration without an adaptor is left out.
- Bootstrap collectives are reliable, and all ranks agree on capabilities and on the number of contexts.
- Connections.OneSide.Register: the tokens that identify a mesh whose cleanup failed, the sockets within a mesh, and VMM and DMA-BUF export ranges are not in it.
- The barrier handle, and window and device-communicator bookkeeping above the handle table.

P2P worker pool:

- The tables of the workers are kept as one table by connection, as every connection belongs to one worker; the iteration order over connections is arbitrary. Connection numbers stand for addresses and are not reused.
- The second test of the failed flag under the queue lock in submitPostSend is one step with the first; a slice accepted between two passes over a failed worker is failed by the next pass.
- P2pWorkers.WorkerPool.DestroyQps: asks that a connection is closed only after its transfers are drained (flagcx/core/flagcx_p2p.cc:1485-1506), which DrainedMayClose ties to their counters; that no transfer is submitted between the drain and the close is the caller's part.
- P2pWorkers.WorkerPool.PollCq: takes it from the device that a completion names a work request on the wire, once.
- P2pWorkers.WorkerPool.SliceBatch: null slices, which the pool never passes.
- PendingSliceQueue is verified on its own; in the pool a queue is its contents.
- P2pWorkers.WorkerPool.PostSend: does not say that a worker eventually gets completions, only that nothing postable is left.
- submitted and processed are unbounded counters; suspension of idle workers, CPU pinning, tracing and the ACCL path.
- P2pTransfer.TransferTask.BuildSlices: takes block size and fragment limit below 2^32, as the only caller unpacks them from the halves of one word.

Registry:

- Extensions of the COLL and RMA owners are payload; FindByHandle, the reader-writer lock and allocation sizes. Whether an array can grow is a free answer.

Other:

- Cluster split lists come parsed; reading the environment and naming vendors.
- The rest of the collective proxy transport (its scoreboard is the one modelled), the device-side dispatch wrappers, topology, tuning, runners and the cost model.
- The debug spin limit of the grid barrier, which traps instead of waiting.
