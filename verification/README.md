# AlloyFS in Dafny

A model of the parts of AlloyFS that are hard to get right, with proofs about every input, every run
or every reachable state: two-way synchronisation, the kernel transport, the event stream, advisory
locks, the connection multiplexer, cached reads, event coalescing, the two wire formats, symlink
rewriting, the auto-download cache and the renaming tables.

Every `.dfy` file holds one module. `dafny verify dfyconfig.toml` checks them all.

## How the model is built

**Synchronisation** (`Reconcile`, `SyncWorld`, `SyncInvariant`, `SyncSteps`, `SyncPushSteps`,
`SyncConflictSteps`, `SyncDeletes`, `SyncConverge`, `SyncEdits`, `SyncHandlers`, `SyncEngine`). A `World` is both file
trees, the server's versions, the baseline and the engine's own-echo expectations. `Reconcile.Plan` is
the planner's loop; `SyncEngine.Engine` carries the engine's fields and methods, each proved equal to a
function of `SyncWorld`; the theorems are about those functions. They assume what `Ready` says: both
trees are closed under parents, no path is a file in one place and a directory in another, and the
names for conflict copies are unused. Expectations left over from earlier are not assumed away:
`Blocked` says which of them matter, and convergence is proved equivalent to there being none. Every transfer succeeds unless the server would refuse it (a missing parent, a directory that is
not empty), and those refusals are modelled. The promise "no directory is missing on one side while
something under it changed on the other" turns out not to be needed for convergence. For edits it is
exactly what matters, and only in one direction: `LocalEditFate` and `RemoteEditFate` say which edits
survive, as equivalences.

**Kernel transport** (`KernelConn`, `KernelConnProof`, `KernelOutcomes`). A state machine whose steps are the stretches
between lock releases: submit, be killed, reclaim, return, take, copy, fault, requeue, answer, abort.
Each request carries its reference count, and a flag records any touch of a freed one.

**Event stream** (`EventHub`, `EventStream`). The ring log as an object, and a state machine in which
publishing is append-then-send and subscribing is open-then-read, with any number of publishers between
their two halves and a live channel that may lag.

**Locks** (`Locks`, `LocksProof`) and **multiplexer** (`Mux`, `MuxOutcomes`). The lock table as an object and its tasks
as a state machine; requests, responses, time-outs and teardown as a state machine.

**Cached reads** (`ReadAhead`, `RemoteFs`). The window and the retained ring of each handle, and a mount
whose reads must equal a plain read of the server's file.

**Coalescing** (`Coalesce`, `CoalesceProof`, `CoalesceRename`). The window as an object; the meaning of
a history is defined separately, from whether the path exists before and after.

**Formats** (`LittleEndian`, `Dirents`, `FrameCodec`) and **symlinks** (`Symlinks`). Writers and readers
are modelled on both sides and composed.

**Tables** (`AutoCache`, `InodeTable`, `SyncManifest`). Objects with preserved invariants, for any
iteration order of the maps they walk.

## Where the code falls short of a stronger promise

Each of these has an exact condition in the model.

- An edit under a directory deleted on the other side: `SyncEdits.LocalEditFate` says the local edit is
  lost, `SyncEdits.RemoteEditFate` says a remote one never is; `SyncEdits.DirectoryDeleteLosesEdit` is
  a concrete case.
- An expectation of the engine's own change that matches by accident swallows a push or a remote
  delete: `SyncConverge.Convergence` says exactly when a pass is complete,
  `SyncConverge.LeftoverBlocks` is a concrete case, and `SyncConverge.LeftoverInsideIsHarmless` one
  that does no harm.
- A multi-chunk write that stops half way leaves caches in place: `RemoteFs.Mount.Write` says when they
  are then still right, `RemoteFs.SafeBeforehand` what can be told before the write, and
  `RemoteFs.RefusedSecondChunk` is a concrete stale cache.
- A frame that only compression made small enough is sent but not accepted:
  `FrameCodec.RoundTripExactly`.
- A directory entry whose name is empty, longer than 255 bytes or too long for one reply ends the
  listing: `Dirents.ListDirectory`.
- A target that names the link's own directory with a trailing slash, or whose next component starts
  like a drive letter, is rewritten to something the server refuses: `Symlinks.RewriteThenResolve`,
  `Symlinks.TrailingSlashRefused`.
- Renaming over a cached file leaves its size in the total: `AutoCache.Cache.Rename`, with
  `AutoCache.OverwriteDrifts` as a concrete case. Renaming over a known path leaves two inodes with one
  path: `InodeTable.Table.Rename`.

## Model

| member | source | states |
|---|---|---|
| `Reconcile.PlanRow` | crates/alloyfs-client/src/sync/reconcile.rs:66-141 | one turn of the planner's loop makes the decision of the three-way table |
| `Reconcile.Plan` | crates/alloyfs-client/src/sync/reconcile.rs:54-144 | the loop yields exactly the decided rows, one per path, in strictly ascending path order |
| `Reconcile.PlanIsExact` | crates/alloyfs-client/src/sync/reconcile.rs:54-144 | an action is planned if and only if its own path's baseline, local and remote state decide it, and no path is planned twice |
| `Reconcile.EqualVersionPlansNothing` | crates/alloyfs-client/src/sync/reconcile.rs:76-92 | an equal nonzero server version with an unchanged local file plans nothing, whatever the remote size and mtime |
| `Reconcile.PartitionOrders` | crates/alloyfs-client/src/sync/engine.rs:817-827 | the forward and the reversed part together hold every action once, ascending and descending |
| `Reconcile.ParentsFirstChildrenFirst` | crates/alloyfs-client/src/sync/engine.rs:817-827 | in every plan creations handle a directory before what is in it and deletions after |
| `Reconcile.PlanMirrors` | crates/alloyfs-client/src/sync/reconcile.rs:54-144 | with all versions zero, swapping the two sides swaps every action of the plan |
| `SyncConverge.PassEnds` | crates/alloyfs-client/src/sync/engine.rs:800-856 | where every path stands after a whole pass, in terms of what was decided for it |
| `SyncConverge.Convergence` | crates/alloyfs-client/src/sync/engine.rs:800-856 | after one undisturbed pass every path is in step and a second plan is empty, if and only if no push or remote delete was blocked by a leftover expectation |
| `SyncConverge.PassSyncs` | crates/alloyfs-client/src/sync/engine.rs:800-856 | path by path: in step afterwards if and only if its change was not stuck behind a blocked one |
| `SyncConverge.SyncedMeansEqual` | crates/alloyfs-client/src/sync/reconcile.rs:60-104 | in step means: both sides and the baseline have the file with equal size and mtime, or an equal server version proves it unchanged |
| `SyncConverge.LeftoverBlocks` | crates/alloyfs-client/src/sync/engine.rs:281-299 | a concrete world in which a leftover expectation keeps a pass from pushing a new file |
| `SyncConverge.LeftoverInsideIsHarmless` | crates/alloyfs-client/src/sync/engine.rs:670-708 | a concrete leftover expectation inside a new directory, which is sent along without that test |
| `SyncSteps.StepPull` | crates/alloyfs-client/src/sync/engine.rs:370-447 | downloading one path, with its missing directories, keeps the pass invariant of every path |
| `SyncPushSteps.StepPush` | crates/alloyfs-client/src/sync/engine.rs:489-553 | uploading a file or a whole new directory keeps the pass invariant, also when the server refuses because the parent is gone |
| `SyncPushSteps.ChildrenStep` | crates/alloyfs-client/src/sync/engine.rs:670-708 | sending the contents of a new directory early leaves each child where its own action would |
| `SyncConflictSteps.StepAdopt` | crates/alloyfs-client/src/sync/engine.rs:831-856 | adopting an equal pair only records it |
| `SyncConflictSteps.StepConflict` | crates/alloyfs-client/src/sync/engine.rs:725-796 | resolving a conflict keeps the pass invariant of every path |
| `SyncConflictSteps.ResolvedByPolicy` | crates/alloyfs-client/src/sync/engine.rs:727-732 | the local or the remote file wins as its policy says; under `Newer` the local one if and only if its mtime is greater, so a tie goes to the remote; the other content is in the copy |
| `SyncDeletes.StepDeleteLocal` | crates/alloyfs-client/src/sync/engine.rs:449-485 | deleting locally removes the path and everything under it, on both sides and in the baseline |
| `SyncDeletes.StepDeleteRemote` | crates/alloyfs-client/src/sync/engine.rs:555-604 | deleting remotely removes the path, or leaves a directory that has content again |
| `SyncSteps.KeepNameInjective` | crates/alloyfs-client/src/sync/transfer.rs:133-139 | copies of different conflicts never share a name |
| `SyncEdits.LocalEditFate` | crates/alloyfs-client/src/sync/engine.rs:725-856 | a local edit is on both sides afterwards if and only if no directory above it was deleted remotely, it does not collide in size and mtime with a different remote edit, it did not lose a conflict on a conflict copy, and its push was not stuck |
| `SyncEdits.RemoteEditFate` | crates/alloyfs-client/src/sync/engine.rs:725-856 | the same for a remote edit, which a local directory deletion never loses |
| `SyncEdits.ConflictFate` | crates/alloyfs-client/src/sync/engine.rs:725-796 | every conflict of a pass ends as its policy says, on both sides and in the copy |
| `SyncEdits.DeletionFate` | crates/alloyfs-client/src/sync/engine.rs:449-604 | a file deleted on one side and untouched on the other is gone from both sides and the baseline |
| `SyncEdits.NewDirectoryFate` | crates/alloyfs-client/src/sync/engine.rs:370-553 | a directory new on one side exists on both, unless one above it was deleted or its push was stuck |
| `SyncEdits.UntouchedFate` | crates/alloyfs-client/src/sync/engine.rs:800-856 | what nobody changed stays exactly as it is |
| `SyncEdits.DirectoryDeleteLosesEdit` | crates/alloyfs-client/src/sync/engine.rs:466-477 | a concrete edit in a remotely deleted directory is gone from both sides |
| `SyncHandlers.PullIsSafe` | crates/alloyfs-client/src/sync/engine.rs:370-419 | in any state: a remote change meets a local edit and both contents are kept on both sides as the policy says, or an equal-looking pair is only recorded, or an unedited file is downloaded and expected as the engine's own change |
| `SyncHandlers.PushIsSafe` | crates/alloyfs-client/src/sync/engine.rs:489-553 | in any state: a local change meets a remote edit and both contents are kept, or it is uploaded; the engine's own change is ignored |
| `SyncHandlers.RemoveLocalSparesEdits` | crates/alloyfs-client/src/sync/engine.rs:449-485 | a local file that differs from its baseline survives a remote delete; any other is removed and that is expected |
| `SyncHandlers.PushRemovedSparesEdits` | crates/alloyfs-client/src/sync/engine.rs:555-604 | a remote file edited since the baseline survives a local delete and is downloaded again; any other is removed |
| `SyncEngine.Engine.PullFile` | crates/alloyfs-client/src/sync/engine.rs:422-447 | a remote file with nothing in its way is downloaded with its missing directories and recorded, and nothing else changes; in every case the effect is that of `SyncWorld.Pull` |
| `SyncEngine.Engine.PullIfNeeded` | crates/alloyfs-client/src/sync/engine.rs:370-419 | a local edit is merged, never overwritten: both contents on both sides, or a recorded equal pair; without one the file is downloaded |
| `SyncEngine.Engine.DeleteLocalPath` | crates/alloyfs-client/src/sync/engine.rs:449-485 | an unedited directory goes locally and from the baseline with everything in it; in every case the effect is that of `SyncWorld.RemoveLocal` |
| `SyncEngine.Engine.PushNewDirContents` | crates/alloyfs-client/src/sync/engine.rs:670-708 | the loop over a new directory's contents, parents first, does what `SyncWorld.PushChildren` says, the function `SyncPushSteps.ChildrenStep` is about |
| `SyncEngine.Engine.PushLocalChange` | crates/alloyfs-client/src/sync/engine.rs:489-553 | a remote edit is merged, never overwritten; without one the file is uploaded; the engine's own change is ignored |
| `SyncEngine.Engine.PushLocalRemoved` | crates/alloyfs-client/src/sync/engine.rs:555-604 | an unedited remote path that is no full directory goes from the server and the baseline; in every case the effect is that of `SyncWorld.PushRemoved`, refusals included |
| `SyncEngine.Engine.ResolveConflict` | crates/alloyfs-client/src/sync/engine.rs:725-796 | the file the policy names ends on both sides and the other content next to it on both sides, and nothing else changes |
| `SyncEngine.Engine.Reconcile` | crates/alloyfs-client/src/sync/engine.rs:800-829 | a whole pass over the fields: nothing is left to plan if and only if nothing was blocked, every conflict ends as its policy says, and every edit on either side is kept except those that can be told beforehand |
| `KernelConnProof.EveryRun` | kernel/alloyfs/alloyfs_conn.c:59-335 | every run of submit, read, fault, write, kill, return and abort steps keeps the invariant |
| `KernelConnProof.RefcountsAreExact` | kernel/alloyfs/alloyfs_conn.c:38-174 | in every reachable state a count equals caller plus queue plus readers plus writers, nothing freed is touched, and each request is freed exactly once, when the last holder lets go |
| `KernelConnProof.NoSleeperStranded` | kernel/alloyfs/alloyfs_conn.c:130-167 | a waiting caller is answered, queued on a live connection, or held by exactly one writer about to answer it; a request completes at most once |
| `KernelConnProof.RepliesReachTheirCaller` | kernel/alloyfs/alloyfs_conn.c:306-334 | what a caller gets was written for its own number, or is the abort |
| `KernelOutcomes.CallersAreToldTheTruth` | kernel/alloyfs/alloyfs_conn.c:143-174 | in every run a returned caller got the reply to its own number, unless the run has an abort or a signal for it; an abort is reported only after one, an interruption only after a signal |
| `KernelOutcomes.FinishedCarriesReply` | kernel/alloyfs/alloyfs_conn.c:306-334 | in every run a request whose writer is past the completion carries the reply to its own number |
| `KernelOutcomes.FaultedIsReadNext` | kernel/alloyfs/alloyfs_conn.c:252-263 | a request whose copy faulted is the next to be read |
| `KernelOutcomes.SubmittedLastReadFirst` | kernel/alloyfs/alloyfs_conn.c:134-138 | requests queue up at the end and are read from the front |
| `KernelConnProof.AbortIsFinal` | kernel/alloyfs/alloyfs_conn.c:59-78 | after an abort both queues are empty for the rest of the run |
| `EventHub.Hub.Append` | crates/alloyfs-agent/src/watch.rs:101-129 | numbering and logging a batch under the lock |
| `EventHub.Hub.ReadLog` | crates/alloyfs-agent/src/watch.rs:86-98 | the catch-up filter or the refusal |
| `EventHub.AppendKeepsRing` | crates/alloyfs-agent/src/watch.rs:101-129 | the ring always holds the last events of the history, consecutively numbered up to the current number |
| `EventHub.TooOldExactly` | crates/alloyfs-agent/src/watch.rs:81-98 | a subscriber is refused if and only if an event it needs has left the ring; otherwise it gets every later event |
| `EventStream.EveryRun` | crates/alloyfs-agent/src/ops.rs:313-362 | every interleaving of publishers and the subscriber keeps every owed event on its way, delivered, or followed by a resync sent after it was published |
| `EventStream.StreamHasNoGap` | crates/alloyfs-agent/src/ops.rs:313-362 | once drained, every event after the requested one was delivered or a resync was sent after that very event, and nothing was invented |
| `EventStream.ResyncExactly` | crates/alloyfs-agent/src/ops.rs:334-342 | in every run a resync was sent if and only if the subscriber once received with more than 256 batches waiting |
| `EventStream.KeepingUpGetsEverything` | crates/alloyfs-agent/src/ops.rs:313-362 | a drained subscriber that never fell that far behind has every owed event that is not its own, and no resync |
| `EventStream.LastBatchesStay` | crates/alloyfs-agent/src/ops.rs:334-342 | after a resync the last 256 batches are still to come |
| `EventStream.RefusedOnlyIfLost` | crates/alloyfs-agent/src/watch.rs:81-98 | in every reachable state refusal means a needed event is lost |
| `Locks.LockManager.Lock` | crates/alloyfs-agent/src/locks.rs:51-86 | granted if and only if no other handle holds the path exclusively and, for an exclusive lock, none holds it at all; otherwise refused exactly when the caller does not wait |
| `Locks.LockManager.WakeWaiters` | crates/alloyfs-agent/src/locks.rs:117-132 | the wake loop takes exactly the prefix that can run |
| `Locks.LockManager.Unlock` | crates/alloyfs-agent/src/locks.rs:88-99 | exactly the handle's hold goes, and the woken waiters leave the front of the queue |
| `Locks.LockManager.ReleaseSession` | crates/alloyfs-agent/src/locks.rs:101-115 | on every path exactly the session's holds go and none of its waits stay, whatever the order; the result is how many locks it held |
| `LocksProof.EveryRun` | crates/alloyfs-agent/src/locks.rs:51-132 | every run of lock, unlock and session release keeps the invariant |
| `LocksProof.MutualExclusion` | crates/alloyfs-agent/src/locks.rs:51-132 | every path has only shared holders or one exclusive holder, and one hold per handle |
| `LocksProof.NoLostWakeup` | crates/alloyfs-agent/src/locks.rs:51-132 | nobody sleeps behind a free lock: it is held, or a woken task will retry and then hold it |
| `LocksProof.WakePrefix` | crates/alloyfs-agent/src/locks.rs:117-132 | the woken waiters are the longest compatible run at the front, cut after an exclusive one |
| `Mux.EveryRun` | crates/alloyfs-transport/src/mux.rs:116-251 | every interleaving keeps callers, channels and the map in step |
| `Mux.ResponsesReachTheirCaller` | crates/alloyfs-transport/src/mux.rs:116-150 | a response reaches only the caller with its number, and at most one |
| `Mux.NobodyParkedAfterTeardown` | crates/alloyfs-transport/src/mux.rs:229-251 | after teardown every parked caller can run, and an entry left in the map is removed by its owner's re-check |
| `Mux.ParkedCallersAreReachable` | crates/alloyfs-transport/src/mux.rs:179-251 | before teardown a parked caller is resolved or a response can still reach it |
| `MuxOutcomes.RequestsEndForAReason` | crates/alloyfs-transport/src/mux.rs:179-251 | in every run a request ends with a response unless the connection closed, sending failed, it timed out or was given up, and each is reported only when it happened |
| `ReadAhead.Reader.Observe` | crates/alloyfs-client/src/readahead.rs:114-143 | position tracking, when to prefetch, and the reset on a far seek |
| `ReadAhead.Reader.Retain` | crates/alloyfs-client/src/readahead.rs:157-169 | the retained ring replaces in place or drops its oldest |
| `ReadAhead.Reader.Missing` | crates/alloyfs-client/src/readahead.rs:171-176 | exactly the blocks of the window below the given end not in flight, ascending |
| `RemoteFs.Assemble` | crates/alloyfs-client/src/remote_fs.rs:549-564 | gluing blocks and stopping at a short one gives the file's bytes |
| `RemoteFs.ReadTracked` | crates/alloyfs-client/src/remote_fs.rs:484-578 | whatever is cached and whichever prefetches fail, the result is the plain read |
| `RemoteFs.ReadDirect` | crates/alloyfs-client/src/remote_fs.rs:582-615 | the chunked read of an untracked handle is the plain read |
| `RemoteFs.Mount.Read` | crates/alloyfs-client/src/remote_fs.rs:469-578 | every successful read on any handle returns exactly the server's bytes, and caches stay coherent |
| `RemoteFs.SendChunks` | crates/alloyfs-client/src/remote_fs.rs:640-680 | a prefix of the data lands, all of it exactly when the write succeeds |
| `RemoteFs.Mount.Write` | crates/alloyfs-client/src/remote_fs.rs:619-688 | a completed write is the positional write and leaves every cache coherent; one that stops half way leaves them coherent if and only if no handle of the path caches a block the landed bytes changed |
| `RemoteFs.Mount.MarkPathWritten` | crates/alloyfs-client/src/remote_fs.rs:692-702 | every handle of the path is emptied |
| `RemoteFs.Mount.SetSize` | crates/alloyfs-client/src/remote_fs.rs:821-841 | truncating keeps a prefix, extending adds zeros, and every cache stays coherent |
| `RemoteFs.StaleExactly` | crates/alloyfs-client/src/remote_fs.rs:655-664 | the same for one cache: it is right if and only if the landed bytes changed no block it holds |
| `RemoteFs.SafeBeforehand` | crates/alloyfs-client/src/remote_fs.rs:640-680 | a cache survives the write however the server makes it fail if and only if all of the data but its last byte changes no cached block |
| `RemoteFs.RefusedSecondChunk` | crates/alloyfs-client/src/remote_fs.rs:655-664 | a concrete cache that goes stale when the second chunk of a write is refused |
| `Coalesce.Coalescer.Ingest` | crates/alloyfs-common/src/coalesce.rs:68-166 | folding one raw report into the window, halves and pairs of renames included |
| `Coalesce.Coalescer.TakeBatch` | crates/alloyfs-common/src/coalesce.rs:168-198 | draining: renames first, then the rest by path |
| `CoalesceProof.FoldIsNetEffect` | crates/alloyfs-common/src/coalesce.rs:220-244 | merging a well-formed history of one path gives the net effect of existing before and after |
| `CoalesceProof.BatchIsNetEffect` | crates/alloyfs-common/src/coalesce.rs:68-244 | the batch holds exactly that net effect of every path never renamed, whatever happens on other paths |
| `CoalesceProof.DegradedRenamesAreNetEffect` | crates/alloyfs-common/src/coalesce.rs:84-130 | renames across the exclude border and halves without their pair count as the creation or removal they look like |
| `CoalesceProof.BatchInOrder` | crates/alloyfs-common/src/coalesce.rs:168-198 | renames lead the batch in order, the rest follows by path |
| `CoalesceRename.RenameReportedOnce` | crates/alloyfs-common/src/coalesce.rs:77-137 | a rename reported as a pair and any number of halves, in any order, is in the batch once, and later writes of the target once |
| `CoalesceRename.ExcludedNeverReported` | crates/alloyfs-common/src/coalesce.rs:168-217 | no sequence of reports puts an excluded path in a batch |
| `LittleEndian.FromToLE` | crates/alloyfs-proto/src/frame.rs:87-87 | a number that fits its width is read back |
| `Dirents.PushDirent` | crates/alloyfs-mount-kernel/src/abi.rs:350-362 | a record is appended, padded to eight bytes, exactly when its name is legal and it fits |
| `Dirents.ParseEncodeAll` | kernel/alloyfs/alloyfs_main.c:218-236 | the kernel's parse of a page is exactly the records written |
| `Dirents.OpReaddir` | crates/alloyfs-mount-kernel/src/server.rs:227-246 | one page holds as many children as fit from the cursor on; an error only if a child is left and none can be sent |
| `Dirents.ReadRecord` | kernel/alloyfs/alloyfs_main.c:219-231 | one record is checked and read without leaving the reply |
| `Dirents.WalkReply` | kernel/alloyfs/alloyfs_main.c:218-236 | the inner loop on any bytes: the legal records up to the consumer's room, and the cursor after the last |
| `Dirents.ReaddirRemote` | kernel/alloyfs/alloyfs_main.c:198-240 | for every reply size, one call hands out the children from the cursor on, each once and in order, and terminates |
| `Dirents.ListDirectory` | kernel/alloyfs/alloyfs_main.c:198-240 | for every reply size and however the consumer cuts it up, the listing has every child once and in order with its name, inode and type, and is complete if and only if every child can be sent: from 280 bytes on, if every name is 1 to 255 bytes |
| `FrameCodec.Reader.Decode` | crates/alloyfs-proto/src/frame.rs:35-69 | one decoding attempt, consuming a frame's bytes and no more |
| `FrameCodec.Reader.ReadStream` | crates/alloyfs-proto/src/frame.rs:35-69 | where the bytes are cut into chunks makes no difference |
| `FrameCodec.DrainExtends` | crates/alloyfs-proto/src/frame.rs:35-69 | for any bytes, decoding a prefix and then the rest is decoding the whole; an error is final |
| `FrameCodec.RoundTripExactly` | crates/alloyfs-proto/src/frame.rs:35-90 | an encoded message is decoded back if and only if its plain form is within the frame limit |
| `FrameCodec.PlainFrame` | crates/alloyfs-proto/src/frame.rs:75-90 | without compression a frame is its size and its plain form, refused above one mebibyte |
| `FrameCodec.SqueezedFrame` | crates/alloyfs-proto/src/frame.rs:77-82 | from 512 bytes on a message is compressed if that makes it smaller |
| `FrameCodec.PrefixWaits` | crates/alloyfs-proto/src/frame.rs:36-48 | an incomplete frame is left alone |
| `FrameCodec.StreamRoundTrip` | crates/alloyfs-proto/src/frame.rs:35-90 | a stream of messages decodes to those messages with nothing left over |
| `FrameCodec.ReadMessages` | crates/alloyfs-proto/src/frame.rs:35-90 | a connection carrying encoded messages, cut into chunks anywhere, is read as those messages with no error and an empty buffer |
| `FrameCodec.LawfulExists` | crates/alloyfs-proto/src/frame.rs:35-90 | a codec that meets the assumed laws |
| `Symlinks.LandsInside` | crates/alloyfs-agent/src/fsutil.rs:46-79 | the stack walk computes the landing or the refusal |
| `Symlinks.AcceptedExactly` | crates/alloyfs-agent/src/fsutil.rs:46-79 | a target is accepted if and only if it is not empty, starts with no slash of either kind and no drive letter, and no prefix of its walk climbs above the export |
| `Symlinks.OutsideIsUnchanged` | crates/alloyfs-client/src/symlink.rs:14-21 | a target that does not start with the mount root and a slash is sent as it is |
| `Symlinks.RewriteThenResolve` | crates/alloyfs-client/src/symlink.rs:14-47 | for every target inside the mount, what the server makes of the rewritten one, acceptance as an equivalence, up to ASCII case |
| `Symlinks.RewriteIsFaithful` | crates/alloyfs-client/src/symlink.rs:14-47 | for ordinary components the link lands on the path the target named |
| `Symlinks.TrailingSlashRefused` | crates/alloyfs-client/src/symlink.rs:14-47 | a concrete target inside the mount that is rewritten to nothing and refused by the server |
| `AutoCache.Cache.constructor` | crates/alloyfs-client/src/autocache.rs:75-148 | only recorded files with an intact blob are loaded, all of those that are pinned or fit, the total is exact, and what has to go goes by last use |
| `AutoCache.Cache.FreshFor` | crates/alloyfs-client/src/autocache.rs:166-182 | freshness, and a hit becomes the latest use |
| `AutoCache.Cache.Evict` | crates/alloyfs-client/src/autocache.rs:213-221 | oldest victims first and no more than needed; no subtraction underflows |
| `AutoCache.Cache.Commit` | crates/alloyfs-client/src/autocache.rs:196-243 | the total keeps covering what is cached, the budget holds unless at most one file is unpinned, and nothing that survives was used before something evicted |
| `AutoCache.Cache.Invalidate` | crates/alloyfs-client/src/autocache.rs:262-269 | forgetting a file takes exactly its size off the total |
| `AutoCache.Cache.Rename` | crates/alloyfs-client/src/autocache.rs:276-306 | between disjoint paths, in any order: the total drifts by exactly the sizes of the cached files hit, hence not at all if and only if those are empty, and every entry's new place is known |
| `AutoCache.OverwriteDrifts` | crates/alloyfs-client/src/autocache.rs:298-298 | a concrete cache whose total is too high after a rename |
| `InodeTable.Table.GetOrAlloc` | crates/alloyfs-client/src/inode.rs:32-44 | a path keeps its number, a new one gets a number never used |
| `InodeTable.Table.Rename` | crates/alloyfs-client/src/inode.rs:56-80 | for any order every inode's path moves and every path points back; the maps stay inverse when no renamed path hits a known one, and between disjoint paths only then |
| `InodeTable.Table.Forget` | crates/alloyfs-client/src/inode.rs:82-89 | the inode goes, the root stays, the rest still points back |
| `InodeTable.RenameBack` | crates/alloyfs-client/src/inode.rs:56-80 | for any two paths, renaming back restores every inode's path if and only if nothing unrelated was at or under the target |
| `InodeTable.RenameThereAndBack` | crates/alloyfs-client/src/inode.rs:56-80 | two renames of the table between disjoint paths leave both maps as they were if and only if nothing was at or under the target |
| `SyncManifest.Manifest.RenamePrefix` | crates/alloyfs-client/src/sync/manifest.rs:75-94 | the subtree's entries move, others stay unless one lands on them, and nothing else appears |
| `SyncManifest.RenameBackRestores` | crates/alloyfs-client/src/sync/manifest.rs:75-94 | renaming back restores the baseline if and only if nothing was recorded at or under the target |

## Left out

- Symlinks, excluded and internal paths, and changes of kind in synchronisation: the planner does not handle them cleanly.
- Network and disk failures during a pass, and the retry queue: every transfer succeeds unless the server refuses it.
- A directory's own size and mtime in synchronisation are taken as zero, as the engine records them.
- `create_dir_all` is all or nothing: directories it made before failing are not modelled.
- Applying single remote events between passes, renames pushed by the watcher, and the executor's queue.
- Wall-clock behaviour: debounce, time-outs and leases are steps that may happen at any time, or are left out; the stamp in a conflict copy's name is a parameter.
- KernelConnProof.EveryRun: takes an abort as one step, because the claims are about the queues the lock guards; the code answers the collected requests one by one after dropping the lock, and a caller killed between two of those answers, which unlinks itself from the list being walked, is not covered; the wrap-around of request numbers is left out.
- Statistics counters, log messages, polling and module setup.
- Mux.EveryRun: does not model `ping`, because it has no re-check after a close; numbers do not wrap around, there or in the hub.
- A waiter reaped by a session release may retry and still take the lock; the model lets it.
- The age bound of pending events, and turning absolute paths into relative ones.
- RemoteFs.Mount.Read: does not model the auto-cache fast path, the local overlay, poisoned handles, version checks and renames, because they replace the read instead of changing it; operations run one at a time and other clients do not write.
- Dirents.ListDirectory: takes a listing that does not change between its calls, because the listing cache and its age depend on the clock; bytes are little-endian on both sides.
- FrameCodec.RoundTripExactly: takes messages of less than four gibibytes serialized, because the compressor's length field has 32 bits; the serializer and the compressor are parameters with inverse laws.
- Symlinks.RewriteThenResolve: upper-casing is ASCII only, because Unicode case mapping has no model here; a mount root with other letters is compared exactly.
- AutoCache.Cache.Rename: says how far the total drifts only between disjoint paths, or when nothing is hit, because a rename into itself, which file systems refuse, depends on the order of moves.
- InodeTable.Table.Rename: says that a hit breaks the inverse only between disjoint paths, because a rename into itself, which file systems refuse, depends on the order of moves.
- RemoteFs.Mount.MarkPathWritten: does not drop the path's auto-cache entry, because the mount is modelled without that cache; `AutoCache.Cache.Invalidate` is that step.
- InodeTable.Table.GetOrAlloc: does not model two racing allocations of one path, because operations run one at a time.
- Real file I/O, sockets, dialing, FUSE and WinFsp adapters, configuration and the command line.
- Dentry and notification handling in the kernel module: it depends on kernel functions that are not part of this model.
