# Gamescope verification model

A Dafny model of the parts of Gamescope whose correctness rests on bookkeeping, and proofs about it: GPU
submission and its buffers, reference counts and buffer locks, the colour tables, two hand-over protocols between
threads, the vblank scheduler, and three transformations of bytes and text. `dafny verify dfyconfig.toml` checks
the whole project.

One module models one component, in this shape: functions give the state after each operation, a class whose
methods follow the original's statements is proved against these functions, and lemmas prove what the component is
for. Where several threads are involved the steps that others can come between are separate events, down to the
atomic operation or the section under a mutex, and the results hold in every state of every interleaving of them.

- `CmdPool` is the command-buffer pool keyed by timeline sequence numbers. A submission takes its number, enters the
  queue of the GPU and files its buffer in three steps; `submit` holds the mutex over them, ReShade's direct
  submissions do not. The GPU completes its queue in order. `CmdPoolRuns` holds the results about its runs.
- `UploadBuffer` is the ring of upload memory, `Barriers` the per-command-buffer texture states that decide which
  image barriers are recorded.
- `RefCount` is the object with a public and a private count, one event per atomic operation, and the handle on it.
  `FbLocks` chains texture, framebuffer and client buffer lock, with the release point of explicit sync, one operation
  after the other; `ReleasePoints` takes the framebuffer's `DecRef` apart where several threads drop references.
- `Lut1D`, `Lut3D` and `ColorTransform` are the shaper, its inverse, both interpolations and the loop that fills the
  table; `TableAgreement` is when shaper and table agree with the transform they stand for; `ToneCurve` is the EETF of
  section 5.4.1 of Report ITU-R BT.2390-8. They compute over the reals.
- `AsyncWaiter` is the poll thread that keeps waitables alive; `PipewireBuffers` the capture buffers that move
  between the PipeWire thread and the compositor.
- `VBlank` is the scheduler with its draw-time filter, on 64-bit integers. The one difference that can wrap around does.
- `ConfigFile` reads and writes the device settings, `Utf8`, `Ime` and `ImeKeyboard` type text through a generated
  keymap, and `Edid`, `EdidHdr` and `EdidPatch` patch EDIDs.
- `Options` is the optional value the others share, `ThreadIds` the numbers of threads.

Some of the properties one would expect do not hold as they stand. In these cases the model keeps the code's
behaviour, a lemma shows a run or an input where it fails, and another lemma says exactly when it holds:

- The poll thread can drop its reference to a waitable that is still polled, because `RemoveWaitable` gives up its
  lock before `epoll_ctl` (`AsyncWaiter.RemovalCanBeSweptHalfway`, `AsyncWaiter.SweepIsSafeIffClean`).
- The second half of a buffer removal can read a buffer the compositor has deleted in between
  (`PipewireBuffers.RemovalCanReachADeletedBuffer`, `PipewireBuffers.RemovalIsSafeIff`), and a buffer that is
  overwritten in the in slot leaks (`PipewireBuffers.SecondPushLoses`, `PipewireBuffers.RemovedCanBeDeletedIff`).
- A wait recycles a command buffer the GPU still has to execute when a direct submission overtook it on the way into
  the queue (`CmdPoolRuns.DirectSubmissionCanOvertake`, `CmdPoolRuns.EarlyRecyclingIff`).
- Shaper and table differ from the transform at a lattice colour when a curve starts or ends between two lattice
  values (`TableAgreement.AlwaysAgreesIff`, `TableAgreement.OwnCurvesAgreeIff`).
- Metadata written into an empty data block at the end of the data blocks runs over the timings
  (`EdidPatch.TimingsCanBeOverwritten`, `EdidPatch.TimingsAreSafeIff`).
- A `DecRef` that is not the last can put its release point back into a framebuffer that has been deleted meanwhile, let
  go of a newer point, or leave a point behind that nobody releases (`ReleasePoints.PutBackCanComeTooLate`,
  `ReleasePoints.DecRefIsSafeIff`, `ReleasePoints.NewPointIsDroppedIff`, `ReleasePoints.KeptTooLongIff`).
- An image that was first used on another queue family is transferred from there by every barrier
  (`Barriers.SourceIsOwnFamilyIff`).
- The comment on the red zone promises a scaling to the refresh rate; the factor cancels out
  (`VBlank.RedZoneIsNeverScaled`, `VBlank.RedZoneIsScaledRightIff`), and a refresh shorter than the red zone is woken
  up for more than one refresh early (`VBlank.VBlankTimer.AtMostOneRefreshEarlyIff`).
- The tone curve falls near black when the normalised minimum luminance exceeds a quarter, and overshoots target
  white when it is positive (`ToneCurve.CurveRisesIffQuarter`, `ToneCurve.CurveEnds`). Where the target spans less than
  a third of the source it crushes source black (`ToneCurve.BlackIsMetIff`).
- A text with more than 47 different runs of characters is typed wrong (`Ime.DifferentRunsAreTypedRightIff`), and the
  wrap-around of the 32-bit keycode index repeats a keycode (`Ime.WrapRepeatsAKeycode`, `Ime.QueueIsDistinctIff`).
- Rotating an EDID mixes the upper bits of the blanking times (`Edid.RotationKeepsBlankingIff`).
- An external image that is discarded before anything else is never released
  (`Barriers.DiscardedExternalImageIsNeverReleased`); no caller does that today, `discardImage` is only called on
  images that are not external (src/reshade_effect_manager.cpp:1801 and 1805). And a reset of the upload buffer
  overlaps ranges that are still being recorded (`UploadBuffer.ResetWhileRecordingOverlaps`).

## Model

| member | source | states |
|---|---|---|
| `CmdPool.CommandBufferPool.CommandBuffer` | src/rendervulkan.cpp:1252-1286 | takes the buffer recycled last, or allocates a new one when none is unused, or returns none when allocation fails; nothing else changes |
| `CmdPoolRuns.CommandBufferIsItsSteps` | src/rendervulkan.cpp:1252-1286 | a call nothing comes between is the step that takes an unused buffer, followed by the one that allocates where there was none: same pool, same buffer |
| `CmdPoolRuns.UnusedComeFirst` | src/rendervulkan.cpp:1257-1262 | a non-empty unused list always yields its last buffer, whether the driver would allocate or not; only with an empty one does the number of buffers ever made grow |
| `CmdPool.CommandBufferPool.QueueSubmit` | src/rendervulkan.cpp:1344-1345 | gives the submission to the GPU behind all earlier ones |
| `CmdPool.CommandBufferPool.SubmitInternal` | src/rendervulkan.cpp:1288-1348 | takes the next point of the timeline, enters the queue with it and files nothing, so a direct call leaves a gap in the pending keys |
| `CmdPool.CommandBufferPool.Submit` | src/rendervulkan.cpp:1350-1364 | files the buffer under the sequence number it returns |
| `CmdPoolRuns.SubmitIsItsSteps` | src/rendervulkan.cpp:1350-1364 | undisturbed, numbering, entering the queue and filing are one `submit` |
| `CmdPoolRuns.DirectSubmissionIsItsSteps` | src/reshade_effect_manager.cpp:1239 | and a direct submission is the first two of them |
| `CmdPool.CommandBufferPool.ResetCmdBuffers` | src/rendervulkan.cpp:1538-1599 | when the sequence is pending, moves every buffer up to it to the unused list in key order and drops those keys, otherwise changes nothing; both CORRUPTION aborts are proved unreachable |
| `CmdPool.CommandBufferPool.RecycleUpTo` | src/rendervulkan.cpp:1572-1596 | the iterator loop ends at the target entry, visits every earlier one once and empties exactly those |
| `CmdPoolRuns.StepKeepsInv` | src/rendervulkan.cpp:1252-1599 | every step of every thread keeps all invariants of the pool; numbering, enqueueing and filing are steps of their own |
| `CmdPoolRuns.RunKeepsInv` | src/rendervulkan.cpp:1252-1599 | the invariants hold along every interleaving that starts where they hold |
| `CmdPoolRuns.ReachableKeepsInv` | src/rendervulkan.cpp:1252-1599 | and so in every state that threads and GPU can reach |
| `CmdPoolRuns.PendingIsSuffixOfSubmissions` | src/rendervulkan.cpp:1350-1364 | under any interleaving the pending keys are a suffix of the numbers `submit` has returned |
| `CmdPoolRuns.BuffersHaveOnePlace` | src/rendervulkan.cpp:1252-1599 | every buffer ever allocated is in exactly one of held, pending, unused and freed, under one key only and unused only once; an unused one has completed its last submission if the queue got its submissions in the order of their numbers |
| `CmdPoolRuns.SubmissionsStayInOrder` | src/rendervulkan.cpp:1350-1364 | submissions made through `submit` enter the queue in the order of their numbers |
| `CmdPoolRuns.OvertakenOnlyDirectly` | src/reshade_effect_manager.cpp:1214 | what goes ahead of such a submission with a larger number was not made through `submit`: it is a direct one, which takes no mutex |
| `CmdPoolRuns.EarlyRecyclingIff` | src/rendervulkan.cpp:1538-1599 | from any state on a pending buffer can be recycled while the GPU still has to execute it exactly when it has not completed and a larger number went ahead of it into the queue |
| `CmdPoolRuns.OvertakenIsRecycledEarly` | src/rendervulkan.cpp:1506-1599 | the continuation that does: a wait for the overtaken number returns at once and collects it |
| `CmdPoolRuns.InTurnIsNotRecycledEarly` | src/rendervulkan.cpp:1538-1599 | no continuation recycles a submission early that has completed or was not overtaken |
| `CmdPoolRuns.DirectSubmissionCanOvertake` | src/reshade_effect_manager.cpp:1239 | the run in which a direct submission takes the next number and enters the queue first |
| `CmdPoolRuns.CollectionIsComplete` | src/rendervulkan.cpp:1538-1599 | a collection for s leaves no pending key up to s exactly when s was returned by `submit`, even if another thread collected s first, or nothing up to s was pending; for any other s it does nothing |
| `CmdPoolRuns.CollectedForGood` | src/rendervulkan.cpp:1350-1364 | once n has been given out, no key up to n is pending and no `submit` up to n is still to be filed, none is ever pending again |
| `CmdPoolRuns.WaitCollectsForGood` | src/rendervulkan.cpp:1506-1531 | `wait(s)` on a number `submit` returned ends with no pending key up to s, also when another thread collected s first |
| `CmdPoolRuns.WaitCollectsIffAsked` | src/rendervulkan.cpp:1506-1531 | `wait(s, false)` recycles nothing; `wait(s, true)` collects for s |
| `CmdPoolRuns.GarbageCollectIsAtCounter` | src/rendervulkan.cpp:1366-1379 | `garbageCollect` collects for the point the GPU has reached |
| `UploadBuffer.Align` | src/rendervulkan.hpp:749-752 | the least multiple of 16 that is not below the argument |
| `UploadBuffer.UploadRing.UploadBufferData` | src/rendervulkan.hpp:815-831 | hands out the aligned range at the offset, after a wait for everything submitted when it would not fit |
| `UploadBuffer.FittingUploadGoesBehind` | src/rendervulkan.hpp:819-829 | what fits behind the aligned offset starts there, moves the offset behind itself and waits for nothing |
| `UploadBuffer.OtherUploadStartsOver` | src/rendervulkan.hpp:821-825 | anything else starts over at 0 after a wait for all that was submitted |
| `UploadBuffer.UploadsArePacked` | src/rendervulkan.hpp:815-831 | uploads that fit together lie one behind the other from 0 on, each at the next multiple of 16, without a wait |
| `UploadBuffer.UploadRing.Wait` | src/rendervulkan.cpp:1506-1536 | starts the buffer over exactly when the newest submission is waited for |
| `UploadBuffer.UploadRing.Submit` | src/rendervulkan.cpp:1350-1364 | ties the ranges recorded for a command buffer to its submission |
| `UploadBuffer.SubmitTakesItsRanges` | src/rendervulkan.cpp:1350-1364 | exactly the ranges of the command buffer that had no submission get the new one |
| `UploadBuffer.WaitKeepsInv` | src/rendervulkan.cpp:1506-1536 | waiting for everything submitted leaves no live range behind the new offset |
| `UploadBuffer.UploadKeepsInv` | src/rendervulkan.hpp:815-831 | an upload keeps all ranges sound, whether it wraps or not |
| `UploadBuffer.RangesNeverOverlap` | src/rendervulkan.hpp:815-831 | over any run of uploads, submissions, waits and wraps each range is 16-aligned, in bounds and disjoint from every range the GPU may still read |
| `UploadBuffer.ResetIsSafeIffAllSubmitted` | src/rendervulkan.cpp:1506-1536 | the ranges handed out after a reset are safe for every size exactly when every earlier range had been submitted |
| `UploadBuffer.ResetWhileRecordingOverlaps` | src/rendervulkan.cpp:1506-1536 | the run in which a range still being recorded is handed out twice |
| `Barriers.Recorder.PrepareSrcImage` | src/rendervulkan.cpp:1916-1926 | first mention as a source marks an external image for import and export; later mentions change nothing |
| `Barriers.Recorder.PrepareDestImage` | src/rendervulkan.cpp:1928-1937 | first mention as a destination discards the contents and marks the image for export or presentation |
| `Barriers.Recorder.DiscardImage` | src/rendervulkan.cpp:1939-1945 | first mention as discarded only discards |
| `Barriers.Recorder.MarkDirty` | src/rendervulkan.cpp:1947-1953 | marks a prepared image as written |
| `Barriers.Recorder.InsertBarrier` | src/rendervulkan.cpp:1955-2009 | one barrier per image that needs one, with the accesses, layouts and queues of the source, settles the images it covers and lets them remember the recorder's queue family where they remember none, whatever the order of the hash map |
| `Barriers.FamilyIsTheFirst` | src/rendervulkan.cpp:1983-1984 | an image keeps the queue family it remembers, and remembers one from the first barrier on it |
| `Barriers.SourceIsOwnFamilyIff` | src/rendervulkan.cpp:1993-1994 | a barrier stays within the recorder's own family exactly when no recorder of another family had a barrier on the image before; otherwise each barrier names that first family as its source |
| `Barriers.Recorder.Dispatch` | src/rendervulkan.cpp:1706-1858 | prepares the bound sources, then the target, then a barrier, then the use that dirties the target |
| `Barriers.Recorder.CopyImage` | src/rendervulkan.cpp:1860-1889 | prepares both images, then a barrier, then the copy that dirties the destination |
| `Barriers.Recorder.CopyBufferToImage` | src/rendervulkan.cpp:1891-1914 | the same for a copy from a buffer |
| `Barriers.Recorder.End` | src/rendervulkan.cpp:1633-1637 | the flushing barrier of the end of a recording |
| `Barriers.Recorder.Reset` | src/rendervulkan.cpp:1611-1619 | forgets every image state |
| `Barriers.OperationsAgree` | src/rendervulkan.cpp:1706-2009 | for every image, flags and recorded history agree after any sequence of operations |
| `Barriers.OperationRecords` | src/rendervulkan.cpp:1706-1914 | each operation appends one barrier command and its use; from the commands so far and the first mention alone: an image gets its barrier when it is first met as a destination or discarded, which makes the old layout Undefined, when it comes from another process, or when it was written since its last one, and no other image does |
| `Barriers.EndRecords` | src/rendervulkan.cpp:1633-1637 | the last command flushes the written images, releases the external ones and hands the output over for presentation, with the layouts and queues these need, and mentions no other |
| `Barriers.FirstBarrierDiscardsIff` | src/rendervulkan.cpp:1990-1992 | in a finished recording the first command that mentions an image first met as a destination or discarded is a barrier with old layout Undefined; one first met as a source is never discarded |
| `Barriers.NoImportAtEnd` | src/rendervulkan.cpp:1955-1972 | the assert of `insertBarrier` never fires: no image still needs its import at the end |
| `Barriers.WritesAreFlushedBeforeUse` | src/rendervulkan.cpp:1955-2009 | between a write and the next use of the image lies a barrier on it with write access as its source |
| `Barriers.WritesAreFlushedAtEnd` | src/rendervulkan.cpp:1633-1637 | a last write is followed by such a barrier before the recording ends |
| `Barriers.ContentsAreNeverDiscardedLate` | src/rendervulkan.cpp:1928-1945 | no barrier discards the contents of an image after an earlier barrier on it, or a use of it other than sampling as a colour table |
| `Barriers.SourcesAreAcquiredBeforeUse` | src/rendervulkan.cpp:1916-1926 | an external image first mentioned as a source is acquired from the foreign queue before its first use, once |
| `Barriers.ReleasedExactlyOnceAtEnd` | src/rendervulkan.cpp:1633-1637 | the last command releases an external image, and no other command does, exactly when its first mention prepared it; the same for presentation of an output image |
| `Barriers.UsesAlternateWithBarriers` | src/rendervulkan.cpp:1706-1914 | a pipeline barrier lies between any two dispatches or copies |
| `Barriers.DiscardedExternalImageIsNeverReleased` | src/rendervulkan.cpp:1939-1945 | an external image that were discarded first would be neither acquired nor released |
| `RefCount.RcObject.IncRef` | src/rc.h:15-21 | counts up modulo 2^32 and takes a private reference on the first one |
| `RefCount.RcObject.DecRef` | src/rc.h:23-29 | counts down modulo 2^32 and gives the private reference back with the last one |
| `RefCount.RcObject.IncRefPrivate` | src/rc.h:31-34 | counts up modulo 2^32 |
| `RefCount.RcObject.DecRefPrivate` | src/rc.h:36-46 | counts down; at zero adds the bias and deletes once |
| `RefCount.Rc.constructor` | src/rc.h:107-111 | a handle from a pointer holds one reference |
| `RefCount.Rc.Assign` | src/rc.h:146-152 | copy assignment moves one reference between the objects, also on self-assignment |
| `RefCount.Rc.MoveAssign` | src/rc.h:163-169 | move assignment drops the old target and leaves the other handle empty |
| `RefCount.Rc.Clear` | src/rc.h:139-144 | assignment of null drops the reference |
| `RefCount.MakingIsIncRef` | src/rc.h:15-34 | making a handle in any reachable state, when nothing comes between its increments, is the call of `RcObject` |
| `RefCount.DroppingIsDecRef` | src/rc.h:23-46 | and dropping a public one, with the deletion that follows, is its `DecRef` |
| `RefCount.DroppingIsDecRefPrivate` | src/rc.h:36-46 | a private one its `DecRefPrivate` |
| `RefCount.HandlesFollowEvents` | src/rc.h:97-169 | handles come by being made, go by being dropped, change hands by being moved, and stay otherwise |
| `RefCount.StepKeepsInv` | src/rc.h:15-46 | each atomic step of each thread keeps the counters in step with the handles |
| `RefCount.RunKeepsInv` | src/rc.h:15-46 | the counters agree with the handles in every reachable state |
| `RefCount.CountersAreExact` | src/rc.h:15-46 | between operations the public count is the number of public handles and the private count that of private ones, plus one for all public handles together, plus the bias after deletion |
| `RefCount.DeletedOnceAndUnreferenced` | src/rc.h:36-46 | a thread that deletes finds no handle left and no other deletion |
| `RefCount.UnreferencedIsDeleted` | src/rc.h:36-46 | a live object has no handles and no operation in progress exactly when a thread is about to delete it, and then both counts are 0 |
| `RefCount.BiasIsNeeded` | src/rc.h:36-46 | without the 0x80000000 bias a handle made and dropped in the destructor would delete again |
| `FbLocks.Framebuffer.IncRef` | src/backend.cpp:80-90 | locks the client buffer with the first public reference |
| `FbLocks.Framebuffer.DecRef` | src/backend.cpp:91-111 | unlocks the client buffer with the last public reference and lets the release point go, or keeps it |
| `FbLocks.Framebuffer.SetBuffer` | src/backend.cpp:113-128 | sets the buffer, locks it when referenced, and drops the release point; the same buffer again changes nothing |
| `FbLocks.SetBufferLocks` | src/backend.cpp:113-128 | afterwards the framebuffer has that buffer, as many references as before, and exactly one lock on it when there are any |
| `FbLocks.Framebuffer.SetReleasePoint` | src/backend.cpp:130-141 | keeps the point and gives up lock and buffer when referenced |
| `FbLocks.Framebuffer.DecRefPrivate` | src/rc.h:36-46 | deletes the framebuffer with the last private reference |
| `FbLocks.VulkanTexture.IncRef` | src/rendervulkan.cpp:2713-2721 | forwards the first public reference to the framebuffer |
| `FbLocks.VulkanTexture.DecRef` | src/rendervulkan.cpp:2722-2733 | forwards the last public reference to a framebuffer that is still alive |
| `FbLocks.TextureDecRefIsSafe` | src/rendervulkan.cpp:2722-2733 | a dying texture forwards its last reference to a framebuffer that has not been deleted |
| `FbLocks.EveryEventIsSafe` | src/backend.cpp:80-141 | no enabled operation touches a deleted object or a count of zero |
| `FbLocks.StepKeepsInv` | src/backend.cpp:80-141 | every operation keeps counts and locks in step |
| `FbLocks.RunKeepsInv` | src/backend.cpp:80-141 | counts and locks are in step in every reachable state |
| `FbLocks.LocksFollowReferences` | src/backend.cpp:80-141 | the public count is the direct handles plus the owning textures in use, and exactly one lock is held when it is positive and a buffer is set, none otherwise |
| `FbLocks.ClientBufferFollows` | src/backend.cpp:113-141 | the client buffer is the one set last, until a release point is given to a referenced framebuffer; no other operation changes it |
| `FbLocks.HandlesFollow` | src/backend.cpp:80-141 | handles, textures and their attachments come and go with the operations on them, one at a time, and with no others |
| `FbLocks.NothingFreedIsTouched` | src/rendervulkan.cpp:2713-2733 | over every run nothing deleted is used |
| `FbLocks.ReleasePointLifetime` | src/backend.cpp:91-111 | a release point is let go, once, when the last reference goes, a first buffer is set or a new point replaces it, and stays otherwise |
| `FbLocks.ExplicitSyncUnlocksEarly` | src/backend.cpp:130-141 | a release point given to a referenced framebuffer ends the lock at once |
| `FbLocks.AttachOnlyUnsharedTextures` | src/rendervulkan.cpp:2713-2733 | attaching the framebuffer keeps the counts right exactly when the texture has no public reference yet |
| `ReleasePoints.StepKeepsInv` | src/backend.cpp:91-141 | each step of each thread keeps the counts and the places of all release points |
| `ReleasePoints.PointsHaveOnePlace` | src/backend.cpp:91-141 | however the steps of several DecRefs interleave, a point that was ever set is stored, moved out by one thread, or released |
| `ReleasePoints.UndisturbedIsAtomic` | src/backend.cpp:91-111 | the three steps of a DecRef that nothing comes between are safe and are the DecRef of `FbLocks` |
| `ReleasePoints.DecRefIsSafeIff` | src/backend.cpp:99-103 | a DecRef that moved a point out ends without touching a deleted framebuffer, whatever the others do, exactly when its reference is the last of all |
| `ReleasePoints.PutBackCanComeTooLate` | src/backend.cpp:95-103 | a reachable run in which the point is put back into a deleted framebuffer |
| `ReleasePoints.KeptTooLongIff` | src/backend.cpp:95-103 | a point moved out can outlive the last public reference unreleased exactly when somebody else has a reference that is not being dropped |
| `ReleasePoints.NewPointIsDroppedIff` | src/backend.cpp:101-132 | putting a point back can release one that was set in between, while the framebuffer is still referenced, exactly then, too |
| `Lut1D.FindNonFlatStartIndex` | src/color_helpers.cpp:520-534 | the last entry of the flat start, or 0 for a table that is flat throughout |
| `Lut1D.ForwardOfInverse` | src/color_helpers.cpp:419-517 | forward(inverse(v)) is v clamped to the range of the table, with any flat spots |
| `Lut1D.ForwardAtSample` | src/color_helpers.cpp:419-458 | forward takes a sample position to its entry |
| `Lut1D.ForwardOutside` | src/color_helpers.cpp:419-458 | and what lies outside of [0, 1] to the first or the last entry |
| `Lut1D.InverseIsMonotone` | src/color_helpers.cpp:469-517 | the inverse is monotone and stays in [0, 1] |
| `Lut1D.InverseOfForward` | src/color_helpers.cpp:419-517 | inverse(forward(x)) is x past the flat start and the end of the flat start before it |
| `Lut1D.InverseOfInterpolation` | src/color_helpers.cpp:469-517 | the same counted in entries of the table |
| `Lut1D.InvertibleIffIncreasing` | src/color_helpers.cpp:469-517 | the inverse is a left inverse past the flat start exactly when the table increases strictly there |
| `Lut3D.TetrahedralIsTheWalk` | src/color_helpers.cpp:361-412 | all six branches, ties included, compute the walk along the axes in the order of the fractions |
| `Lut3D.TetrahedralStaysWithin` | src/color_helpers.cpp:361-412 | the weights are non-negative and sum to 1: the result stays within the corners of the cell |
| `Lut3D.TetrahedralOfAffine` | src/color_helpers.cpp:361-412 | exact on affine cells |
| `Lut3D.TrilinearOfAffine` | src/color_helpers.cpp:200-229 | exact on affine cells |
| `Lut3D.EdgeAgrees` | src/color_helpers.cpp:244-412 | both interpolations agree on the edges of a cell |
| `Lut3D.AgreeIffOnEdge` | src/color_helpers.cpp:244-412 | they agree for every table exactly on the edges |
| `Lut3D.LookupStaysWithinTable` | src/color_helpers.cpp:311-412 | no lookup, for any input, leaves the range of the table |
| `Lut3D.LookupsAgreeOnEdges` | src/color_helpers.cpp:244-412 | on the edges of its cells the two lookups into any table agree |
| `Lut3D.LookupOfAffineTable` | src/color_helpers.cpp:244-412 | both lookups reproduce an affine table at every clamped input |
| `Lut3D.IndexInBounds` | src/color_helpers.cpp:195-198 | every lattice point has an index inside the table |
| `Lut3D.IndexIsInjective` | src/color_helpers.cpp:195-198 | no two lattice points share an index |
| `ColorTransform.FillEdges` | src/color_helpers.cpp:759-769 | the axis colours are the lattice positions, through the inverse of the shaper when there is one |
| `ColorTransform.Lut3d.WriteEntry` | src/color_helpers.cpp:777-825 | one turn of the innermost loop writes the wanted colour of its lattice point at the next index |
| `ColorTransform.Lut3d.Fill` | src/color_helpers.cpp:771-828 | all dim^3 entries are written, each once and in storage order, in bounds, with the wanted colour of their lattice point |
| `ColorTransform.Lut1d.Finalize` | src/color_helpers.cpp:536-541 | each channel gets the end of its flat start |
| `ColorTransform.Lut1d.Sample` | src/color_helpers.cpp:705-720 | the shaping function sampled at equal distances, then finalised |
| `ColorTransform.CalcColorTransform` | src/color_helpers.cpp:690-828 | the shaper is sampled and finalised, and the table filled through its inverse |
| `ColorTransform.LookIsAppliedFirst` | src/color_helpers.cpp:777-825 | where a lattice colour falls on a point of a non-empty look, the entry and both lookups give the transform of the entry of the look at that point |
| `ColorTransform.AffineLookIsItsFunction` | src/color_helpers.cpp:777-825 | with an affine look they give the transform of its function of the colour, at every lattice colour |
| `ColorTransform.NoLookIsTheColour` | src/color_helpers.cpp:781-783 | without a look, or with an empty one, the transform of the colour itself |
| `ColorTransform.LatticeColourIsShapedBack` | src/color_helpers.cpp:759-769 | shaping the colour of a lattice point leads back to the lattice point |
| `ColorTransform.TableAgreesOnLattice` | src/color_helpers.cpp:759-828 | for any transform, look and non-decreasing shaper whose range holds [0, 1], shaper and lookup together give exactly the transform at every lattice colour |
| `TableAgreement.ShapesBackIff` | src/color_helpers.cpp:759-769 | shaping leads back to the lattice point from every lattice colour exactly when each curve reaches all of [0, 1] |
| `TableAgreement.AlwaysAgreesIff` | src/color_helpers.cpp:759-828 | for every transform and look the pair is exact at all lattice colours, by either interpolation, exactly when each curve is flat, or starts and ends on lattice values or beyond them |
| `TableAgreement.FittingAgrees` | src/color_helpers.cpp:759-828 | such a shaper agrees at each lattice colour though it may be shaped to another lattice point |
| `TableAgreement.MisfitDisagrees` | src/color_helpers.cpp:759-828 | any other curve leads one end of its axis between two lattice points of different colours, whose entries do not average to the one wanted |
| `TableAgreement.SeparableAgreesIff` | src/color_helpers.cpp:759-828 | one transform is enough to tell: with any that works channel by channel and keeps the axis colours apart, the table is exact on the lattice exactly when the shaper fits |
| `TableAgreement.OwnCurvesAgreeIff` | src/color_helpers.cpp:690-828 | even for the transform that is the shaper's own curve |
| `TableAgreement.CalculatedAgreesIff` | src/color_helpers.cpp:700-720 | for a shaping function that does not fall over the sampled greys, the shaper made of it is right for every transform and look exactly when each channel is flat or takes black and white to lattice values or beyond |
| `TableAgreement.CalculatedPairAgrees` | src/color_helpers.cpp:690-828 | shaper and table as they are calculated agree with the transform at every lattice colour when the shaping function takes black to 0 or below and white to 1 or above |
| `ToneCurve.Eetf2390.InitPq` | src/color_helpers.h:123-131 | the fields are the normalised luminances and the knee of the report |
| `ToneCurve.SplineIsCubic` | src/color_helpers.h:190-199 | with ks = 1.5 maxLum - 0.5 the Hermite spline is maxLum - (1 - maxLum)/2 (1 - t)^3 |
| `ToneCurve.RollOffRises` | src/color_helpers.h:144-145 | the roll-off is strictly increasing and 1-Lipschitz over the source range, so continuous across the knee |
| `ToneCurve.RollOffEnds` | src/color_helpers.h:144-145 | black stays black for maxLum of a third or more and falls below otherwise; white lands on the smaller of maxLum and 1 |
| `ToneCurve.PedestalRises` | src/color_helpers.h:147-150 | the pedestal preserves order where it is no steeper than 1 |
| `ToneCurve.PedestalFalls` | src/color_helpers.h:147-150 | and reverses it over every short step where it is steeper |
| `ToneCurve.CurveRisesIff` | src/color_helpers.h:139-154 | `apply_pq` is non-decreasing over the source range exactly when 4 minLum (1 - E2(0))^3 <= 1 |
| `ToneCurve.CurveRisesIffQuarter` | src/color_helpers.h:139-154 | for maxLum of a third or more: exactly when minLum <= 1/4 |
| `ToneCurve.CurveIsGentleIff` | src/color_helpers.h:139-154 | for maxLum above a third: `apply_pq` neither falls nor adds contrast anywhere over the source range, so is continuous, exactly when 0 <= minLum <= 1/4 |
| `ToneCurve.RaisedCurveIsGentle` | src/color_helpers.h:139-154 | for any maxLum: a curve that does not fall and whose target black is not below source black adds no contrast |
| `ToneCurve.BlackIsMetIff` | src/color_helpers.h:123-154 | source black maps to target black exactly when maxLum is at least a third or the pedestal makes up for the roll-off; a curve that does not fall maps it below target black otherwise |
| `ToneCurve.CurveEnds` | src/color_helpers.h:123-154 | source white overshoots target white by the rest of the pedestal, and meets it exactly when the blacks agree |
| `ConfigFile.ReadConfigFile` | src/InputDeviceDBus.cpp:690-722 | the line loop computes the parse of the whole file; no file gives the empty map |
| `ConfigFile.TrimLine` | src/InputDeviceDBus.cpp:701-703 | both trimming loops together trim the line |
| `ConfigFile.TrimIsTheMiddle` | src/InputDeviceDBus.cpp:701-703 | only spaces go, and only at the ends |
| `ConfigFile.StepOnAssignment` | src/InputDeviceDBus.cpp:704-719 | whatever spaces surround an assignment, its key is what stands before the first `=`, its value what stands behind; outside of a section it is ignored |
| `ConfigFile.StepOnSection` | src/InputDeviceDBus.cpp:707-711 | a name in brackets, with any spaces around, starts its section |
| `ConfigFile.StepOnOther` | src/InputDeviceDBus.cpp:704-715 | comments, empty lines and lines that are neither leave everything as it is |
| `ConfigFile.GetLine` | src/InputDeviceDBus.cpp:699 | one getline: the first line and the rest |
| `ConfigFile.WriteSection` | src/InputDeviceDBus.cpp:733-735 | the lines of one section list its entries, each once |
| `ConfigFile.WriteConfigFile` | src/InputDeviceDBus.cpp:724-737 | the file lists the whole map, each section and key once, in the order the keys are taken |
| `ConfigFile.SaveDeviceConfig` | src/InputDeviceDBus.cpp:739-760 | for any numbers, NaN and infinities included, reading the saved file back gives the old map with the six settings of the device replaced exactly when the device name is not empty and has no newline; then every other section is unchanged |
| `ConfigFile.SettingsAreReadBack` | src/InputDeviceDBus.cpp:742-757 | each of the six keys of the device reads back as its own setting, and every other key as before |
| `ConfigFile.ParseIsWellFormed` | src/InputDeviceDBus.cpp:690-722 | whatever the file holds, the map read is well formed |
| `ConfigFile.ParseOfPrint` | src/InputDeviceDBus.cpp:690-737 | a well-formed map is read back as it was, whatever the order of printing |
| `ConfigFile.RoundTripIff` | src/InputDeviceDBus.cpp:690-737 | a map survives printing and parsing exactly when it is well formed |
| `Utf8.Utf8Decode` | src/ime.cpp:46-64 | on text that does not end inside a character, the shift-and-or loop decodes the first character and moves behind it |
| `Utf8.DecodeOfEncode` | src/ime.cpp:28-64 | decoding undoes the encoding of section 3 of RFC 3629 for every scalar value, whatever follows |
| `Utf8.EncodeOfDecode` | src/ime.cpp:28-64 | and encoding undoes decoding on everything the grammar of section 4 of RFC 3629 allows |
| `Utf8.StrayByteIsInvalid` | src/ime.cpp:46-64 | a byte that starts no character by section 3 of RFC 3629 is U+FFFD by itself, and decoding goes on behind it |
| `Utf8.DecodeAllOfEncodeAll` | src/ime.cpp:374-378 | the decoding loop over an encoded text gives its characters back |
| `ImeKeyboard.EmulatedKeyboard.ReleaseKeyIfNeeded` | src/ime.cpp:261-284 | afterwards no key and no modifier is down, and only what was held is released |
| `ImeKeyboard.EmulatedKeyboard.PressKey` | src/ime.cpp:286-313 | releases first, then presses the modifiers the seat lacks, then the key; exactly these are down |
| `ImeKeyboard.ReleasedIsClean` | src/ime.cpp:261-284 | each press is matched by one release |
| `ImeKeyboard.PressedIsClean` | src/ime.cpp:286-313 | no key goes down twice |
| `ImeKeyboard.SeatAndEmulated` | src/ime.cpp:292-304 | the modifiers of the seat and the emulated ones together hold the wanted ones, and share none |
| `Ime.InputMethod.KeycodeFromCh` | src/ime.cpp:145-168 | reuses the latest keycode for a repeated keysym, otherwise gives out the next of the cycle and keeps at most 47 |
| `Ime.KeysymStandsForIt` | src/ime.cpp:127-143 | to a client that knows the euro sign, the Unicode range of keysyms and those of xkbcommon, the keysym of a character stands for that character |
| `Ime.ExceptionsAreTypable` | src/ime.cpp:127-143 | the characters xkbcommon would give another keysym, or none, have one that does not depend on it |
| `Ime.KeycodesAreOfPrintingKeys` | src/ime.cpp:68-77 | the keycodes rise from 2 to 53 and leave out exactly backspace, tab, enter, control and shift |
| `Ime.InputMethod.CollectKeycodes` | src/ime.cpp:374-385 | the decoding loop collects one keycode per typable character of any text that does not end inside a character |
| `Ime.InputMethod.TypeText` | src/ime.cpp:363-406 | collects the keycodes, generates the keymap of the queue, and presses one key after the other |
| `Ime.InputMethod.PressAll` | src/ime.cpp:399-402 | each key is released before the next goes down |
| `Ime.InputMethod.ResetKeyboard` | src/ime.cpp:547-556 | forgets all assignments and leaves nothing down |
| `Ime.QueueIsDistinctIff` | src/ime.cpp:145-168 | after any assignments the queue has at most 47 entries, and their keycodes are distinct exactly when the 32-bit index has not wrapped around between them: n <= 2^32, or n mod 2^32 is 0 or at least 47 |
| `Ime.QueueIsDistinct` | src/ime.cpp:145-168 | so up to 2^32 assignments no two entries share a keycode |
| `Ime.WrapRepeatsAKeycode` | src/ime.cpp:165 | and the next assignment repeats a keycode that is still in the queue |
| `Ime.CollectTracks` | src/ime.cpp:145-168 | every typable character uses an assignment of its own keysym, and a new one starts only with a new run |
| `Ime.PlacesCountRuns` | src/ime.cpp:145-168 | as many assignments are used as there are runs of equal keysyms |
| `Ime.LookupIsLatest` | src/ime.cpp:183-258 | in the generated keymap a keycode stands for the latest assignment that got it |
| `Ime.ActionsAreFound` | src/ime.cpp:183-258 | the action keys stand for themselves in every generated keymap |
| `Ime.TypedRightIff` | src/ime.cpp:363-404 | every character comes out as itself exactly when each run has the keysym of the latest run with its keycode |
| `Ime.FewRunsAreTypedRight` | src/ime.cpp:363-404 | which holds for every text with at most 47 runs, unless the index wraps around within the queue |
| `Ime.ManyRunsAreTypedWrong` | src/ime.cpp:363-404 | and fails for every text of more than 47 different runs, wherever the index stands |
| `Ime.DifferentRunsAreTypedRightIff` | src/ime.cpp:363-404 | so a text whose runs are all different is typed right exactly with at most 47 of them, unless the index wraps around within the queue |
| `AsyncWaiter.Waiter.AddWaitable` | src/waitable.h:415-434 | registers and keeps a live waitable that is not polled yet, and refuses any other |
| `AsyncWaiter.Waiter.RemoveWaitable` | src/waitable.h:436-448 | puts a live waitable on the removed list and stops polling it |
| `AsyncWaiter.Waiter.Sweep` | src/waitable.h:458-464 | erases every entry of every removed waitable |
| `AsyncWaiter.CallsAreTheirSteps` | src/waitable.h:415-448 | a call that nothing comes in between is its two steps in a row |
| `AsyncWaiter.StepKeepsInv` | src/waitable.h:415-466 | each step keeps every polled waitable referenced, provided sweeps are clean |
| `AsyncWaiter.BatchesAreKeptAlive` | src/waitable.h:450-466 | over any such run the waiter holds a reference to every waitable of the batch until the turn ends |
| `AsyncWaiter.SettledSweepIsClean` | src/waitable.h:436-466 | a sweep is clean when no removal is half done and nothing was added again since its removal |
| `AsyncWaiter.SweepIsSafeIffClean` | src/waitable.h:436-466 | no continuation runs a handler on a dead object exactly when the sweep is clean |
| `AsyncWaiter.DirtySweepGoesWrong` | src/waitable.h:436-466 | the continuation that does after a sweep that is not clean |
| `AsyncWaiter.RemovalCanBeSweptHalfway` | src/waitable.h:443-447 | such a sweep can happen: the lock is given up before epoll_ctl |
| `AsyncWaiter.KeptUntilSwept` | src/waitable.h:415-466 | a waitable stays referenced from its addition to a sweep |
| `AsyncWaiter.RemovedIsLetGo` | src/waitable.h:458-464 | the first sweep after its removal lets go of it |
| `VBlank.RedZoneIsNeverScaled` | src/vblankmanager.cpp:116-118 | the red zone of an external display is the unscaled one at every refresh rate, contrary to the comment |
| `VBlank.RedZoneIsScaledRightIff` | src/vblankmanager.cpp:106-118 | it is the one the comment intends, redZone * 60000 / mHz and at most redZone, exactly up to 60 Hz |
| `VBlank.ScalingFitsIff` | src/vblankmanager.cpp:118 | the product of the scaling stays below 2^64 exactly up to 186330748 mHz |
| `VBlank.RateIsBounded` | src/refresh_rate.h:42-52 | which every refresh that holds the red zone is far below |
| `VBlank.IntervalTimesRate` | src/refresh_rate.h:42-52 | interval times rate is 10^12 up to half a nanosecond a refresh, for every rate whose interval fits 32 bits |
| `VBlank.VBlankTimer.DrawTimeIs` | src/vblankmanager.cpp:122-125 | the draw time is the last one, but at least 2.4 ms while compositing |
| `VBlank.VBlankTimer.OffsetWithVrr` | src/vblankmanager.cpp:157-177 | under VRR the wakeup leaves 0.3 ms for the flush and 2.4 ms more while compositing |
| `VBlank.VBlankTimer.SpikeHasItsTime` | src/vblankmanager.cpp:136-156 | a draw time far above the rolling one gets its whole time and the red zone before the next vblank, where a refresh has room for them |
| `VBlank.VBlankTimer.GetNextVBlank` | src/vblankmanager.cpp:83-94 | the catch-up loop ends at the earliest grid point at or after now |
| `VBlank.VBlankTimer.NewRolling` | src/vblankmanager.cpp:127-145 | the filter of the draw time, with its signed comparison and its clamp, whose unsigned difference wraps around for a refresh shorter than the red zone |
| `VBlank.VBlankTimer.OffsetFixedRate` | src/vblankmanager.cpp:104-156 | the offset is the new rolling draw time plus the red zone; a pre-emptive call leaves the rolling time alone |
| `VBlank.VBlankTimer.AtMostOneRefreshEarlyIff` | src/vblankmanager.cpp:143-152 | the offset is at most one refresh exactly when a refresh holds the red zone |
| `VBlank.VBlankTimer.OffsetVrr` | src/vblankmanager.cpp:157-177 | the offset under VRR, and the reset of the rolling time |
| `VBlank.VBlankTimer.CalcNextWakeupTime` | src/vblankmanager.cpp:96-188 | the target is last + k intervals with k >= 1, the wakeup the earliest one not in the past, target - wakeup the offset, and without VRR at most one interval exactly when that holds the red zone |
| `VBlank.VBlankTimer.ArmNextVBlank` | src/vblankmanager.cpp:226-244 | a pre-emptive re-arm does nothing when armed and never moves the rolling draw time |
| `VBlank.VBlankTimer.OnPollIn` | src/vblankmanager.cpp:256-286 | the armed schedule becomes pending once |
| `VBlank.VBlankTimer.ProcessVBlank` | src/vblankmanager.cpp:190-193 | hands out the pending vblank and clears it |
| `VBlank.VBlankTimer.MarkVBlank` | src/vblankmanager.cpp:195-203 | takes the new vblank and, when asked to, re-arms from it and moves the rolling draw time |
| `VBlank.OnlyFullArmsCount` | src/vblankmanager.cpp:147-150 | after any mix of re-arms the rolling draw time depends only on how many were not pre-emptive |
| `VBlank.RollingApproaches` | src/vblankmanager.cpp:122-150 | for any draw time each full re-arm gets strictly closer to one settling point |
| `VBlank.RollingSettles` | src/vblankmanager.cpp:122-150 | with a constant draw time the rolling time reaches a point at most 49 ns below the smaller of draw time and cap after finitely many re-arms and stays there |
| `VBlank.SpikesAreFollowed` | src/vblankmanager.cpp:136-139 | a draw time more than half the red zone above is taken over at once, up to the cap |
| `Edid.SetBitsAreReadBack` | src/edid.cpp:32-57 | what `set_bit_range` writes `get_bit_range` reads |
| `Edid.OtherBitsAreKept` | src/edid.cpp:44-57 | the bits outside of the range do not change |
| `Edid.PatchChecksum` | src/edid.cpp:60-69 | the last byte of the block becomes minus the sum of the others |
| `Edid.ValidateChecksum` | src/edid.cpp:71-81 | whether the block sums to 0 modulo 256 |
| `Edid.ChecksummedIsValid` | src/edid.cpp:60-81 | a patched block validates, and patching changes nothing exactly when it validated before |
| `Edid.Rotate` | src/edid.cpp:99-120 | the bytes the rotation branch swaps, and the checksum |
| `Edid.RotationSwapsSizes` | src/edid.cpp:99-120 | decoded width and height of the first timing and the physical sizes swap, and the block validates |
| `Edid.RotatingTwiceIff` | src/edid.cpp:99-120 | rotating twice is the identity exactly for a valid base block |
| `Edid.RotationKeepsBlankingIff` | src/edid.cpp:113-114 | the blanking times survive exactly when the nibbles that share bytes with the sizes are equal |
| `EdidHdr.MetadataFitsIff` | src/edid.cpp:190-204 | the five bytes copied lie inside of their data block exactly when the block is not empty |
| `EdidHdr.HdrIff` | src/edid.cpp:175-208 | metadata is replaced in a block exactly when the bits of its header and tag say extended, 6, and a size of 0 or at least 6 |
| `EdidHdr.BlocksAreChained` | src/edid.cpp:175-208 | the walk goes from each block to the byte behind it, by the lower five bits of its header, and ends where the next does not fit |
| `EdidHdr.FindsIff` | src/edid.cpp:175-208 | a block is found exactly when one of these is of that kind |
| `EdidHdr.WalkChangesMetadataOnly` | src/edid.cpp:175-208 | the walk changes bytes of HDR static metadata only |
| `EdidHdr.WalkKeepsBlocks` | src/edid.cpp:175-208 | the walk over the result goes the same way: same offsets, end and metadata bytes, also through empty blocks |
| `EdidHdr.PatchedWalksOn` | src/edid.cpp:190-207 | after each block the rest of the walk goes the same way whether its metadata was replaced or not |
| `EdidHdr.LastMetadata` | src/edid.cpp:190-204 | the bytes up to the end of all metadata are the last ones of what is written |
| `EdidHdr.WalkReplacesAll` | src/edid.cpp:190-204 | every HDR static metadata block ends up with the new values |
| `EdidPatch.Memcpy` | src/edid.cpp:201 | five bytes are replaced and no others |
| `EdidPatch.WalkInPlace` | src/edid.cpp:175-208 | the walk over the data blocks of an extension, and whether one was found, for any blocks within the buffer |
| `EdidPatch.PatchOne` | src/edid.cpp:155-243 | one turn of the loop over the extensions, up to the insertion of a new block |
| `EdidPatch.PatchEdid` | src/edid.cpp:91-254 | the whole function on a copy of the buffer, up to the insertion of a new block |
| `EdidPatch.PatchExtensionIsGood` | src/edid.cpp:155-243 | where the walk stays ahead of the timings, a patched extension changes in metadata and checksum only, keeps its blocks, holds the new values and validates |
| `EdidPatch.PatchExtensionIsLocal` | src/edid.cpp:155-243 | there nothing outside of the extension changes |
| `EdidPatch.PatchingIsConfined` | src/edid.cpp:91-254 | of a whole EDID of such extensions only metadata and checksums change, the metadata to the new block of EOTFs and luminances, and the base block only by the rotation |
| `EdidPatch.HdrBlocksAreReplaced` | src/edid.cpp:141-208 | every non-empty HDR block of every extension gone into ends up with the bits of SDR, traditional HDR and ST 2084 and no others, type 1, both luminances and a minimum of 0, byte for byte |
| `EdidPatch.OtherExtensionsStay` | src/edid.cpp:153-173 | a block that is no CTA extension, has no data blocks or has flags set does not change |
| `EdidPatch.NoPatchIff` | src/edid.cpp:91-127 | nothing is patched exactly for an empty buffer or where neither HDR nor a rotation is asked for |
| `EdidPatch.SoundIsDefined` | src/edid.cpp:155-208 | on such extensions the walk never leaves the buffer |
| `EdidPatch.NeedsInsertionIff` | src/edid.cpp:210-237 | a new block is inserted exactly when the first CTA extension gone into has no HDR static metadata |
| `EdidPatch.TimingsAreSafeIff` | src/edid.cpp:141-204 | whatever the luminances, the walk spares the timings and all that follows exactly when all metadata ends before them, or only its last byte, a 0, reaches in and replaces a 0 |
| `EdidPatch.TimingsCanBeOverwritten` | src/edid.cpp:190-204 | an EDID whose timings are overwritten, for any luminances |
| `EdidPatch.GenerateSimpleEdid` | src/edid.cpp:324-356 | the size is written into the first timing of the template and the checksum fixed |
| `EdidPatch.GeneratedSizeIsDecoded` | src/edid.cpp:324-356 | the result decodes to the size asked for, at most 3840 each way, keeps the blanking and validates |
| `PipewireBuffers.Exchange.DestroyBuffer` | src/pipewire.cpp:37-65 | clears both slots of a detached buffer and deletes it |
| `PipewireBuffers.Exchange.RequestBuffer` | src/pipewire.cpp:168-183 | marks the buffer and puts it in the out slot, which is empty |
| `PipewireBuffers.Exchange.TakeBuffer` | src/pipewire.cpp:750-757 | empties the out slot into the compositor |
| `PipewireBuffers.Exchange.DropStale` | src/steamcompmgr.cpp:2319-2325 | the compositor deletes a buffer PipeWire has removed |
| `PipewireBuffers.Exchange.PushBuffer` | src/pipewire.cpp:759-767 | puts the buffer in the in slot, losing one that was still there |
| `PipewireBuffers.Exchange.DispatchNudge` | src/pipewire.cpp:295-312 | gives the buffer back to the stream, or deletes it when it was removed meanwhile |
| `PipewireBuffers.Exchange.RemoveFirstHalf` | src/pipewire.cpp:589-593 | detaches the buffer |
| `PipewireBuffers.Exchange.RemoveSecondHalf` | src/pipewire.cpp:595-598 | deletes it unless it is being copied |
| `PipewireBuffers.StepKeepsInv` | src/pipewire.cpp:168-312 | every step of both threads keeps the places of all buffers |
| `PipewireBuffers.EveryBufferHasOnePlace` | src/pipewire.cpp:168-312 | each live buffer is in exactly one place, and `copying` is false exactly in the stream |
| `PipewireBuffers.OutSlotAssertHolds` | src/pipewire.cpp:179-182 | the out slot is empty whenever a buffer is requested |
| `PipewireBuffers.DeletionIsOrderly` | src/pipewire.cpp:37-65 | a buffer is deleted once, after its removal, with no slot left pointing at it, and never by the PipeWire thread while the compositor has it |
| `PipewireBuffers.DestroyedStaysDestroyed` | src/pipewire.cpp:37-65 | a deleted buffer never comes back |
| `PipewireBuffers.RemovedCanBeDeletedIff` | src/pipewire.cpp:302-311 | a removed buffer that still exists is deleted by some safe continuation exactly when it has not been lost |
| `PipewireBuffers.OnlyTheSecondHalfIsUnsafe` | src/pipewire.cpp:589-598 | no step other than the second half of a removal can touch a deleted buffer |
| `PipewireBuffers.RemovalIsSafeIff` | src/pipewire.cpp:589-598 | a removal of b is safe, whatever happens between its halves, exactly when as it begins the compositor does not hold b and b is not in the out slot |
| `PipewireBuffers.RemovalCanReachADeletedBuffer` | src/pipewire.cpp:589-598 | a reachable run in which the second half touches a deleted buffer |
| `PipewireBuffers.PushLosesIff` | src/pipewire.cpp:759-767 | a push loses a buffer exactly when the previous one has not been taken |
| `PipewireBuffers.SecondPushLoses` | src/pipewire.cpp:750-767 | a reachable run that loses a buffer: two taken and pushed before the PipeWire thread looks |
| `PipewireBuffers.LostIsLeaked` | src/pipewire.cpp:759-767 | a lost buffer is never deleted |

## Left out

- Vulkan, Wayland, DRM, PipeWire, xkbcommon, libinput and kernel calls: foreign code; where a component depends on
  one it is a parameter or an event (the GPU counter, locks and unlocks, ready descriptors, the keysym of a character).
- The sequence numbers of `CmdPool` and `UploadBuffer` are unbounded; a 64-bit counter of submissions does not wrap.
- CmdPool.CommandBufferPool.SubmitInternal: does not model the semaphores a submission waits for and signals besides
  its own point of the timeline; VkQueueSubmit calls of different threads do not overlap.
- CmdPoolRuns.BuffersHaveOnePlace: an unused buffer has completed its last submission only where no direct submission
  overtook another; `CmdPoolRuns.EarlyRecyclingIff` says what happens where one did.
- UploadBuffer.RangesNeverOverlap: one thread uploads, and a reset happens only when all earlier ranges are submitted;
  the offset is not protected against two uploading threads. The GPU completes submissions in the order of their
  numbers there, so the uploading thread is also the only one that submits directly.
- Barriers.Recorder.InsertBarrier: barriers ReShade records by itself and the multi-planar views of an image are not
  modelled, nor recorders of several queue families at a time.
- Barriers.ContentsAreNeverDiscardedLate: sampling an image as a colour table does not count as a use, because the
  code does not prepare colour tables; one that became a destination later would be discarded.
- RefCount.RunKeepsInv: there are fewer than 2^31 handles and operations in progress at any time; with more the
  bias and the counts would run into each other.
- FbLocks.RunKeepsInv: one framebuffer with any number of textures, operations one after the other, and the
  framebuffer attached while the texture has no public reference.
- ReleasePoints.StepKeepsInv: each move of the shared pointer is one step, and so is a decrement of the public count
  with the private one behind it (`RefCount` has these apart); `SetBuffer` and the locks are left out there.
- Rounding, NaN and infinities in the colour code; the values of the transfer functions, primaries, gamut mapping and
  the look of night mode, which together are the arbitrary transform of `ColorTransform`.
- ColorTransform.TableAgreesOnLattice: says nothing between lattice points beyond the range of the table, and tables
  have at least two entries an edge.
- ColorTransform.FillEdges: the division for a table of edge size 1 is left undefined, as in the code.
- ToneCurve.CurveRisesIff: maxLum == 1, where the code divides by zero without a guard, and an empty source range are
  not covered; the conversions between nits and PQ are left out.
- ConfigFile.ReadConfigFile: characters beyond ASCII are never spaces; whether the file can be opened is a parameter
  when reading, and writing always succeeds.
- ConfigFile.SaveDeviceConfig: the numbers are given as the texts std::to_string makes of them; LoadDeviceConfig, the
  D-Bus interface and the device map are left out.
- Utf8.Utf8Decode: text that ends inside of a character, which the code would read past, is excluded; any other
  bytes are decoded as the code does.
- Ime.InputMethod.TypeText: a keymap that xkbcommon cannot compile, perform_action, the timers and the search for a
  key in the keymap in use, whose result is a parameter.
- AsyncWaiter: shutdown, the nudge descriptor, raw-pointer waiters without tracking, and errors of epoll other than
  adding what is already polled.
- VBlank.VBlankTimer.CalcNextWakeupTime: clock values up to 126 years, draw times up to half a year, refresh rates up
  to 186 kHz, and an offset that does not reach back before time 0; the nudge thread and its pipe, statistics and
  debug output are left out.
- EdidPatch.PatchEdid: the path that makes room for a new data block ends in an outcome of its own, and so does a walk
  that leaves the buffer, which the code does not guard against. The encoding of luminances is a parameter, and so
  is the template of `EdidPatch.GenerateSimpleEdid`.
- EdidPatch.PatchingIsConfined: extensions whose timings start beyond the extension, or whose last data block is an
  extended one so empty that its tag or its metadata lies in the timings, are walked as the code does but not
  covered; `EdidPatch.TimingsAreSafeIff` says when the walk spares what follows.
- PipewireBuffers.Exchange.RequestBuffer: taking the buffer from the stream and marking it is one step; between the two
  a removal would still see it unmarked. The pixels, formats and the life of the stream are left out.
- The backends, the window management, the WSI layer, mode generation, option parsing, scripting and overlays:
  they would add easy members or need code outside of this model.
