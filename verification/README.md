# A Dafny model of unvme-cli

unvme-cli is a user-space NVMe driver with a command line in front of it. This project models the parts of it in
which many threads, a device and a reset meet, and the parts of its command-line library that rearrange or index
data in place, and proves what those parts keep. `dafny verify dfyconfig.toml` checks the whole project (Dafny 4.11).

**Commands and completions.** Ids come from a lock-free bitmap (`Bits`, `CidBitmap`); commands, requests and the
shared conflict slot are counted (`CommandPool`, `CmdRefs`). The device posts entries to a ring whose phase tag tells new from
old (`PhaseRing`); they are routed to commands by id, and a reset cancels what is left (`Completion`, `Cancel`).
`CmdLifecycle` takes the completing threads apart into single loads and stores and says exactly in which schedules
every completion goes where it was meant to. Completions travel through per-thread rings (`VcqRing`, `Vcq`) whose
ids come from a lock-free stack (`IdPool`).

**Controllers and queues.** The controller's state word and its guarded setters (`CtrlState`), the device handle
across teardown and re-initialisation (`DeviceHandle`), the reference counts of queue instances across deletion and
re-creation (`QueueRefs`), and the snapshot and restoration of a controller's configuration around a reset
(`CtxSpec`, `CtxRestore`).

**The command-line library.** The in-place exchange of two blocks of the argument vector (`Permute`); the option
scanner, what a call makes of the words it reads and what a whole parse does to the vector (`GetoptLex`, `GetoptSpec`,
`GetoptReading`, `GetoptParse`, `GetoptModes`, `Getopt`); the chained hash table with its linked chains, expansion and
iteration (`HashSpec`, `HashIndex`, `HashIteration`, `HashNodes`, `HashTable`); the merge sort (`MergeSort`).

**Two codecs.** Storage and reference tags (`TagPack`) and extended logical blocks (`Interleave`).

Code that changes data in place is a class or a method over arrays, proved equal to a function on values; what the
source promises is then proved about that function. Concurrent code is a state machine whose steps are the single
atomic operations of the source, with any number of threads in any order.

Where a promised property fails for some inputs or schedules, the code is modelled as it is, a lemma shows the
failure, and another gives the condition under which the property holds, in both directions:
`GetoptParse.ParseEndsIff` (a cluster such as `-a-` is scanned for ever), `CmdLifecycle.SoundIff` and
`CmdLifecycle.CompletesOnceIff` (the timeout sweep does not take the completion queue's lock, a reset may find a
command that is being posted, and a push may swap on a later post), `CommandPool.ConservedIff` (re-initialisation
zeroes the count whatever is out), `CmdRefs.GetReturnsItsUseIff`, `QueueRefs.CountedIff` and `QueueRefs.SafeIff` (a
deletion does not ask whether the driver still has a claim), `CtxSpec.RefsComeBackIff` (nor does a reset),
`QueueRefs.ReachableIff` (a create that overlaps a final put is lost), `Interleave.InBoundsIff` (an offset below the
page size may leave too little room), `IdPool.SoundIff` (a stale link makes a compare-and-swap expose an id that is in
use) and `DeviceHandle.ConsistentIff` (partial teardown ignores whether the state could be changed).

Code and documentation disagree in a few places; the model follows the code:

- lib/libunvmed.h:941-956 says that only RESETTING is waited out when invalidation starts; the code also waits in
  VF_ENABLED (`CtrlState.AttemptIsExact`). It also calls the returned value the previous state; it is the state
  read before the first attempt, which can be an older one (`CtrlState.ReturnedStateCanBeStale`).
- lib/libunvmed.h:922-935 says that a fallback reports the original error; the code reports ENODEV.
- lib/libunvmed.c:2415-2424 says that another path closes the handle when the state has no edge to TEARDOWN; no other
  path does when the instance is then freed (`DeviceHandle.ReleaseCanLeak`).
- lib/libunvmed.c:3318-3323 writes the configuration register without the command set selection it was given, so
  restoration brings back every setting but that one (`CtxSpec.SettingsComeBackIff`).

## Model

| member | source | states |
|---|---|---|
| CidBitmap.GrantIsFresh | lib/libunvmed-cmds.c:26-72 | a successful swap hands out an id that nobody holds and that is below the size, and changes no other bit |
| CidBitmap.FreeIsExact | lib/libunvmed-cmds.c:102-123 | freeing an id clears its bit and no other, whatever other threads do between load and swap |
| CidBitmap.RunKeeps | lib/libunvmed-cmds.c:26-123 | every interleaving of alloc, explicit alloc and free at load/swap granularity keeps bits and holders in agreement |
| CidBitmap.EveryRunHoldsEachIdOnce | lib/libunvmed-cmds.c:26-123 | in every reachable state no id is held twice, ids held are below the size, and a bit is set exactly for ids held and padding |
| CidBitmap.PickOfFreeTakes | lib/libunvmed-cmds.c:74-100 | whatever others do, an explicit allocation is refused only if the id was held at some time: a lost swap is tried again |
| CidBitmap.FreeGivesBack | lib/libunvmed-cmds.c:102-123 | a free ends only by giving its id back |
| CidBitmap.AllocStaysAtHint | lib/libunvmed-cmds.c:26-49 | an allocation stays at the hinted byte, however often it loses its swap, until that is full or it has an id |
| CidBitmap.AllocFindsQuietByte | lib/libunvmed-cmds.c:51-72 | an allocation fails only if every byte with a free bit was changed by others while it ran |
| CidBitmap.HintFollows | lib/libunvmed-cmds.c:51-67 | an id found by the second scan leaves the hint at its byte |
| CidBitmap.InitialInv | lib/libunvmed.c:1888-1908 | the freshly initialised bitmap has exactly its padding bits set |
| CommandPool.Bitmap.constructor | lib/libunvmed.c:1888-1908 | no id of a new bitmap is in use although the padding bits are set |
| CommandPool.Bitmap.Alloc | lib/libunvmed-cmds.c:26-72 | takes the lowest free id of the hinted byte, else the lowest of all, and leaves the hint at its byte; fails only if every id is in use |
| CommandPool.Bitmap.AllocN | lib/libunvmed-cmds.c:74-100 | succeeds exactly for an id in range that is free, and takes only that id |
| CommandPool.Bitmap.Free | lib/libunvmed-cmds.c:102-123 | gives back one id and no other |
| CommandPool.Commands.AllocConflict | lib/libunvmed-cmds.c:218-268 | refused while the conflict slot is in use; otherwise the slot holds a command with one reference, ALLOCATED, the requested id and the caller's virtual queue, a request is taken, and neither an id nor another slot changes |
| CommandPool.Commands.AllocAny | lib/libunvmed-cmds.c:270-338 | EBUSY exactly if every id is in use; otherwise a free id is occupied by a command with one reference, that id and the caller's virtual queue, or given back when no request is left; no other slot changes |
| CommandPool.Commands.AllocAt | lib/libunvmed-cmds.c:270-338 | an explicit id is occupied if free, goes to the conflict slot under that id if taken, and is refused out of range; the command has one reference and the caller's virtual queue, and no other slot changes |
| CommandPool.Commands.Get | lib/libunvmed-cmds.c:453-467 | raises the count by one exactly of a command that somebody holds and changes nothing else; never revives one |
| CommandPool.Commands.Release | lib/libunvmed-cmds.c:416-442 | clears the slot, returns the request, and returns the id only of a command that owned it |
| CommandPool.Commands.Put | lib/libunvmed-cmds.c:469-478 | drops one reference, releases at zero, and keeps the conservation law |
| CommandPool.AllocAtIsExact | lib/libunvmed-cmds.c:218-338 | an allocation with an id fails with EINVAL, EBUSY or for want of a request exactly then and changes nothing; otherwise its command is in the slot the id calls for, with the caller's id and virtual queue |
| CommandPool.PutIsExact | lib/libunvmed-cmds.c:416-478 | a put drops one reference of one command, which is cleared with the last one and otherwise stays as it is; no other slot changes |
| CommandPool.EveryRunKeepsCommands | lib/libunvmed-cmds.c:218-478 | a command that is in use throughout a run keeps the id it was given, its virtual queue and its kind, the conflict command included |
| CommandPool.OccupiedKeeps | lib/libunvmed-cmds.c:315-337 | occupying an id, or failing to, keeps commands counted = ids and conflict slot in use = requests taken |
| CommandPool.ConflictingKeeps | lib/libunvmed-cmds.c:218-268 | so does the conflict slot, and no id changes hands |
| CommandPool.PutKeeps | lib/libunvmed-cmds.c:416-478 | releasing a conflict command leaves the resident and its bit alone; releasing a resident returns exactly its id |
| CommandPool.ApplyKeepsIff | lib/libunvmed-cmds.c:218-478 | every allocation, get, put and state change keeps the conservation law; re-initialising the instance does if and only if no command is out and the size stays |
| CommandPool.EveryRunConserves | lib/libunvmed-cmds.c:218-478 | between two initialisations, through every success and failure path of every run, nr_cmds = ids in use + conflict slot in use = requests taken |
| CommandPool.ReinitKeepsIff | lib/libunvmed.c:2143-2194 | zeroing the count of a reused instance keeps the counts right if and only if no command is out; the kept structures match the queue if and only if its size stays |
| CommandPool.ConservedIff | lib/libunvmed.c:2143-2194 | over whole runs, re-initialisations included, the law holds throughout if and only if each of them finds no command out and the same size |
| CmdRefs.EveryRunCounts | lib/libunvmed-cmds.c:453-478 | in every interleaving of loads, swaps, puts and allocations the count is the number of references to the current use, and nobody refers to an earlier one |
| CmdRefs.SwapIsExact | lib/libunvmed-cmds.c:453-467 | a get returns nothing exactly if the count it loaded was zero, and loads again after a lost swap |
| CmdRefs.GetOfHeldGets | lib/libunvmed-cmds.c:453-467 | whatever others do, a get of a command that stays held is under way or has returned it |
| CmdRefs.GetReturnsItsUseIff | lib/libunvmed-cmds.c:453-467 | a get returns the use whose count it loaded if and only if the command was not freed and allocated again before its swap |
| CmdRefs.GetAcrossAllocation | lib/libunvmed-cmds.c:453-467 | a get whose command is put and allocated again in between returns the new use |
| PhaseRing.PostHolds | lib/libunvmed.c:2772-2817 | posting entry k at slot k mod qsize with the tag of its pass extends the stream the ring holds |
| PhaseRing.StepCounts | lib/libunvmed.c:2800-2803 | advancing head and phase is counting: head = c mod qsize, phase = (c / qsize) mod 2 |
| PhaseRing.FreshExactly | lib/libunvmed.c:2783-2784 | the tag test accepts exactly the entries that were posted and not consumed |
| PhaseRing.WalkFollowsStream | lib/libunvmed.c:2772-2817 | the walk visits exactly entries c..p of the stream, in order, and leaves head and phase ready for entry p |
| Completion.DeliverAllShares | lib/libunvmed.c:3985-4023 | for any entries, duplicates and unknown ids included, each submitted command gets its share and no more, all others nothing; with a waiter it is then COMPLETED and holds the entry, without one TO_BE_COMPLETED |
| Completion.TwoEntriesCompleteOneEach | lib/libunvmed.c:3985-4023 | of a resident and a conflict command under one id, the first entry completes the resident and the second the conflict command |
| Completion.AbortBelowEffect | lib/libunvmed.c:2819-2831 | the abort loop completes each waiting command below its bound exactly once and touches no other |
| Completion.CancelCompletesOnce | lib/libunvmed.c:2757-2836 | after cancellation no covered command is SUBMITTED or ALLOCATED; one that was SUBMITTED got exactly one completion, the device's if pending, else the host's; whoever waits on it finds it COMPLETED with that entry |
| Completion.CancelSparesOthers | lib/libunvmed.c:2757-2836 | cancellation of a queue aborts no command of another queue, nor the structure behind its last id |
| Cancel.CancelServesThePending | lib/libunvmed.c:2757-2836 | the same from the device's stream on: the drain visits exactly the pending entries, whatever the head and phase |
| Cancel.Driver.CompleteCmd | lib/libunvmed.c:2683-2727 | a command with a waiter is COMPLETED and holds its entry, any other TO_BE_COMPLETED with the entry queued and its own field as it was; no other command changes |
| Cancel.Driver.DeliverEntry | lib/libunvmed.c:3985-4023 | routes an entry to the resident if it is submitted, else to a submitted conflict command with that id, which it completes as its waiter needs, else drops it |
| Cancel.Driver.Drain | lib/libunvmed.c:3085-3116 | delivers the new entries of the ring in order and ends within one turn of it for any contents |
| Cancel.Driver.AbortCmd | lib/libunvmed.c:2745-2755 | completes a command as aborted exactly if it is SUBMITTED or ALLOCATED |
| Cancel.Driver.CancelSq | lib/libunvmed.c:2757-2836 | drain, then abort of the first qsize-1 ids and the conflict slot, with head and phase behind what was drained |
| CmdLifecycle.StepKeeps | lib/libunvmed.c:3985-4061 | a load, store, swap or issuer step that stays out of open look-to-store windows keeps every use at one completion |
| CmdLifecycle.ReapAlone | lib/libunvmed.c:3985-4061 | the steps of a reaper that nobody interrupts complete exactly the command an entry belongs to, in the state its waiter needs, or nothing |
| CmdLifecycle.PushAlone | lib/libunvmed-vcq.c:174-202 | those of a cross-thread push complete the same command for its virtual queue |
| CmdLifecycle.SweepAlone | lib/libunvmed.c:2029-2041 | those of a timeout sweep complete exactly a submitted resident, those of a reset any command submitted or allocated |
| CmdLifecycle.ExclusiveRunsCompleteOnce | lib/libunvmed.c:1949-2078 | across posts, reaped entries, timeouts, cross-thread pushes and cancels, no use is completed twice if nobody claims, posts, re-issues, consumes or frees a command inside an open window; a completion counts for the use it lands on |
| CmdLifecycle.SoundIff | lib/libunvmed.c:2692-2727 | in finished schedules every completion finds the command waiting in the use it was decided for if and only if nobody enters an open window and no push swaps on another use than the one it looked at |
| CmdLifecycle.SteadyRunsSwapFresh | lib/libunvmed-vcq.c:174-202 | no push swaps on another use if nobody allocates or posts a command while a push has it looked up |
| CmdLifecycle.PushAcrossStrays | lib/libunvmed-vcq.c:174-202 | a push that looked at one post completes the next one of the same id, outside every window |
| CmdLifecycle.IntrusionSpoils | lib/libunvmed.c:2692-2727 | a claim, post, re-issue, consumption or free inside an open window makes a later store land on something else |
| CmdLifecycle.SpoiledStays | lib/libunvmed.c:2692-2727 | and nothing that follows prevents it |
| CmdLifecycle.DoomStays | lib/libunvmed.c:2692-2724 | with issuers off, two completions of one use under way stay under way |
| CmdLifecycle.OverlapDooms | lib/libunvmed.c:2692-2724 | with issuers off, a look or swap inside a window puts two completions of one use under way |
| CmdLifecycle.CompletesOnceIff | lib/libunvmed.c:1949-2078 | while issuers keep off open windows, at-most-once holds if and only if no claim enters one |
| CmdLifecycle.AtomicRunsAreExclusive | lib/libunvmed.c:3085-3116 | taken as atomic steps, look and store meet the condition |
| CmdLifecycle.CasKeeps | lib/libunvmed-vcq.c:174-202 | the swap of a cross-thread push, outside windows, completes a use that is submitted at that moment and not completed before |
| CmdLifecycle.TimeoutRaceCompletesTwice | lib/libunvmed.c:2029-2041 | a reaper and the timeout sweep that both see a command submitted complete one post twice |
| CmdLifecycle.PostInsideCancelCompletesTwice | lib/libunvmed.c:2819-2831 | a reset that sees a command allocated, a post, and a timeout sweep that sees it submitted: the one post gets both completions |
| VcqRing.StepIsQueueStep | lib/libunvmed-vcq.c:127-220 | seen from outside every atomic step adds one entry behind, takes the first, or does nothing |
| VcqRing.RefusalsAreExact | lib/libunvmed-vcq.c:136-139 | EAGAIN exactly when qsize-1 entries are held at that instant, ENOENT exactly when none is |
| VcqRing.EveryRunIsFifo | lib/libunvmed-vcq.c:127-220 | popped ++ in-ring = published pushes in order, at most qsize-1 held, and the slots hold exactly those entries |
| VcqRing.EveryRunIsRaceFree | lib/libunvmed-vcq.c:127-220 | one producer at a time is inside, and it never writes a slot the consumer may be reading |
| VcqRing.FullIsExact | lib/libunvmed-vcq.c:136-139 | the full test is true exactly with qsize-1 entries |
| VcqRing.EmptyIsExact | lib/libunvmed-vcq.c:213-214 | the empty test is true exactly with none |
| Vcq.PushAlone | lib/libunvmed-vcq.c:127-147 | the atomic steps of one uninterrupted push amount to appending the entry, or to nothing when full |
| Vcq.PopAlone | lib/libunvmed-vcq.c:204-220 | those of one uninterrupted pop amount to taking the first entry, or to nothing when empty |
| Vcq.Queue.constructor | lib/libunvmed-vcq.c:83-111 | a new queue is empty |
| Vcq.Queue.Push | lib/libunvmed-vcq.c:127-147 | appends, or refuses exactly when full |
| Vcq.Queue.Pop | lib/libunvmed-vcq.c:204-220 | takes the oldest entry, or reports none exactly when empty |
| Vcq.Queue.RunN | lib/libunvmed-vcq.c:222-250 | without waiting, takes the oldest min(n, held) entries in order |
| IdPool.InitialInv | lib/libunvmed-vcq.c:37-46 | the pool starts with every id from 1 on linked once |
| IdPool.StepKeepsIff | lib/libunvmed-vcq.c:48-74 | a load, link or swap keeps every id in exactly one place unless it is a swap over a link that has changed |
| IdPool.SoundIff | lib/libunvmed-vcq.c:48-74 | an interleaving keeps the pool sound throughout if and only if no pop in it is stale |
| IdPool.UndisturbedRunsAreSound | lib/libunvmed-vcq.c:48-74 | it suffices that no id is released while another thread's acquire has it loaded |
| IdPool.AcquireTakesTop | lib/libunvmed-vcq.c:48-63 | an uninterrupted acquire grants the top id and leaves the rest in order |
| IdPool.ReleasePushes | lib/libunvmed-vcq.c:65-73 | an uninterrupted release puts the id on top |
| IdPool.AcquireEndsWithId | lib/libunvmed-vcq.c:48-64 | whatever others do, an acquire reports that no id is left only if the stack was empty at some time |
| IdPool.ReleaseEndsOnTop | lib/libunvmed-vcq.c:66-74 | a release ends only with its id on top, linked to what was there |
| IdPool.StaleSwapExposesHeldId | lib/libunvmed-vcq.c:52-55 | acquire, acquire and release inside another thread's window put a held id on top of the stack |
| IdPool.StaleSwapFromStart | lib/libunvmed-vcq.c:37-74 | and that run is possible from the pool as it starts |
| QueueRefs.StepKeepsIff | lib/libunvmed.c:657-761 | every load, swap, put, unlink, free, create and deletion keeps the count equal to claims plus holders, unless it is a deletion that finds no claim |
| QueueRefs.CountedIff | lib/libunvmed.c:657-761 | in any interleaving counts are right throughout, and no lookup or final put is at a freed instance, if and only if every deletion finds a claim |
| QueueRefs.SwapIsExact | lib/libunvmed.c:670-679 | a lookup ends without a reference exactly if the count it loaded was not positive, with one exactly if the count has not changed, and otherwise starts over |
| QueueRefs.LookupOfLiveGets | lib/libunvmed.c:657-683 | whatever others do, a lookup that entered an instance whose count stays positive is under way or got its reference |
| QueueRefs.UndisturbedRetryGets | lib/libunvmed.c:670-679 | a load and a swap that nobody interrupts get it, however often the lookup lost before |
| QueueRefs.FindIsExact | lib/libunvmed.c:657-683 | a lookup that takes no reference finds exactly the instance in the table, unless its count is zero |
| QueueRefs.SafeIff | lib/libunvmed.c:3751-3759 | nobody at all, deletions under way included, is ever at a freed instance if and only if besides no instance is freed between a deletion's lookup and its put |
| QueueRefs.FinishedDeletionsWereLive | lib/libunvmed.c:3751-3759 | in claimed runs no finished deletion put a freed instance |
| QueueRefs.SecondDeletionDangles | lib/libunvmed.c:3751-3759 | of two deletions that find one queue, the slower is left at a freed instance |
| QueueRefs.ClaimsCount | lib/libunvmed.c:3751-3759 | claims rise by creation and adoption and fall by deletions that find one |
| QueueRefs.ClaimedRunsAreSafe | lib/libunvmed.c:657-761 | in such runs an instance is freed at most once, and never while anybody refers to it |
| QueueRefs.SecondDeletionFreesHeld | lib/libunvmed.c:3793-3817 | a queue deleted while held outside, then deleted again by a reset, is freed while it is held |
| QueueRefs.NeverRevived | lib/libunvmed.c:670-679 | a count that reached zero never rises above it, whatever lookups were under way |
| QueueRefs.FreedOnce | lib/libunvmed.c:2214-2235 | while counts are right, an instance is freed at most once, and only when nobody refers to it |
| QueueRefs.StepReaches | lib/libunvmed.c:2173-2178 | a step loses a live queue exactly if it clears or overwrites the entry that names it |
| QueueRefs.ReachableIff | lib/libunvmed.c:2120-2235 | every live queue stays findable throughout a run if and only if no step clears or overwrites a live entry |
| QueueRefs.OrderlyRunsReach | lib/libunvmed.c:3751-3759 | creation after deletion that does not overlap a final put loses no queue |
| QueueRefs.OverlappingCreateIsLost | lib/libunvmed.c:2214-2235 | a create between a final put's decrement and its unlink leaves a live instance that no lookup finds |
| CtrlState.EveryRunIsAWalk | lib/libunvmed.c:57-237 | every sequence of plain, compare and fallback setters moves along edges of the matrix only |
| CtrlState.EveryWalkIsARun | lib/libunvmed.c:57-205 | every walk along edges is a run: asking for its states in turn passes through exactly those |
| CtrlState.OrdinaryLife | lib/libunvmed.c:57-132 | enabling, resetting, failing and tearing down a controller is such a walk |
| CtrlState.VfLife | lib/libunvmed.c:134-196 | so is invalidating, tearing down, recovering and enabling a VF again |
| CtrlState.EntersIff | lib/libunvmed.c:57-205 | the states from which each state can be entered |
| CtrlState.SettersAreExact | lib/libunvmed.c:412-439 | a compare-and-set changes the state exactly from the mask along an edge; a fallback succeeds exactly if its own state is reached, and falls back exactly from the mask |
| CtrlState.EveryRunKeepsOneBit | lib/libunvmed.c:57-237 | the state word has exactly one bit set at all times |
| CtrlState.InvalidatedComesBackOnlyByRecovery | lib/libunvmed.c:57-205 | after VF_INVALIDATED no active state recurs before TEARDOWN, VF_RECOVERING, VF_RECOVERED, VF_ENABLED came in a row |
| CtrlState.AttemptIsExact | lib/libunvmed.c:5367-5389 | invalidation commits from exactly four states, waits exactly in RESETTING and VF_ENABLED, and gives up in the others |
| CtrlState.ReturnedStateCanBeStale | lib/libunvmed.c:5378-5388 | a reset seen by the first read can be over when the commit comes |
| CtrlState.Ctrl.SetLocked | lib/libunvmed.c:57-205 | changes the state exactly along an edge; EALREADY and EINVAL otherwise |
| CtrlState.Ctrl.CompareSet | lib/libunvmed.c:207-226 | like the plain setter from a state in the mask, EAGAIN and no change from any other |
| CtrlState.Ctrl.SetOrFallback | lib/libunvmed.c:412-439 | true exactly when the controller ends in the requested state by its own or already; the fallback applies only from the mask |
| CtrlState.Ctrl.CheckResetAllowed | lib/libunvmed.c:5331-5365 | allowed exactly for an ENABLED VF; a VF that is INVALIDATING or FATAL is finalised, no other state changes |
| CtrlState.Ctrl.StartInvalidating | lib/libunvmed.c:5367-5389 | among other threads' changes the first attempt that finds neither RESETTING nor VF_ENABLED decides: it commits exactly from DISABLED, ENABLING, ENABLED and FATAL and returns the state read first, gives up with EALREADY exactly in VF_INVALIDATING and with EINVAL exactly in quarantine, leaving the state; it spins exactly if there is no such attempt |
| DeviceHandle.CallIsConsistentIff | lib/libunvmed.c:1302-1502 | a call keeps "open exactly outside TEARDOWN" if and only if it is orderly, on every failure path |
| DeviceHandle.ConsistentIff | lib/libunvmed.c:1302-1502 | over whole runs of init, reinit, both frees and other setters, the same if and only if |
| DeviceHandle.SecondTeardownClosesAgain | lib/libunvmed.c:2377-2408 | a second partial teardown closes the handle twice |
| DeviceHandle.ReleaseCanLeak | lib/libunvmed.c:2413-2466 | release leaves the handle open exactly from ENABLING, VF_INVALIDATING, VF_RECOVERED and VF_ENABLED |
| DeviceHandle.Controller.Init | lib/libunvmed.c:1393-1502 | a fresh instance is DISABLED, one out of TEARDOWN is VF_RECOVERED, any other is handed out as it is; success exactly if every foreign call succeeds, and every failure closes what it opened and leaves the state |
| DeviceHandle.Controller.ReinitCtrl | lib/libunvmed.c:1302-1371 | succeeds exactly for a VF whose calls all succeed, in VF_RECOVERED with the handle open; otherwise ends in TEARDOWN with it closed |
| DeviceHandle.Controller.FreeVf | lib/libunvmed.c:2377-2408 | closes the handle whether or not TEARDOWN was reached |
| DeviceHandle.Controller.Free | lib/libunvmed.c:2413-2466 | closes the handle exactly if this call reached TEARDOWN |
| CtxSpec.RestoreRebuilds | lib/libunvmed.c:4788-4935 | snapshot, reset, free and restore bring back every queue with its parameters, whoever holds references; each queue is put once and claimed again |
| CtxSpec.SettingsComeBackIff | lib/libunvmed.c:3318-3323 | every setting comes back if and only if the command set selection was zero |
| CtxSpec.RefsComeBackIff | lib/libunvmed.c:2932-2955 | every reference comes back if and only if no queue was deleted while held: such a queue loses a holder's reference to the reset and comes back as the driver's |
| CtxSpec.RebuiltInOrder | lib/libunvmed.c:4883-4920 | no submission queue is created before its completion queue, no I/O queue before the controller is enabled |
| CtxSpec.RestoreCtrl | lib/libunvmed.c:3220-3265 | the first entry rebuilds the admin queues and their interrupt setting and enables the controller |
| CtxSpec.RestoreCqs | lib/libunvmed.c:3414-3528 | replaying the completion queue entries recreates exactly those queues |
| CtxSpec.RestoreSqs | lib/libunvmed.c:3639-3749 | replaying the submission queue entries on existing completion queues recreates exactly those queues |
| CtxSpec.RestoreOneIff | lib/libunvmed.c:4883-4920 | an entry is refused exactly for a controller that is not DISABLED, queues in use, sizes, a vector the controller does not have, or a missing completion queue; what a refusal leaves |
| CtxSpec.RestoreStops | lib/libunvmed.c:4922-4935 | the list is replayed up to the first entry that is refused, and no further |
| CtxSpec.CqsComeBackIff | lib/libunvmed.c:3414-3528 | the completion queues come back if and only if there is a vector for each |
| CtxSpec.SqsComeBackIff | lib/libunvmed.c:3639-3749 | the submission queues come back if and only if the completion queue of each is there |
| CtxSpec.NssComeBack | lib/libunvmed.c:4883-4920 | whether or not the driver still knew them, the namespaces of the list are known and on afterwards besides those that were |
| CtxSpec.AqaRoundTrip | lib/libunvmed.c:3199-3218 | the admin queue sizes survive the register's two zero-based fields |
| CtxRestore.Context.Init | lib/libunvmed.c:4788-4881 | the list is the snapshot, controller first, queues by ascending id; a second one is refused |
| CtxRestore.Context.Restore | lib/libunvmed.c:4922-4935 | replays the list in order up to the first failure, and uses it up either way |
| Permute.Gcd | argtable3/argtable3.c:1493-1506 | a common divisor that is an integer combination of both arguments |
| Permute.BezoutIsGreatest | argtable3/argtable3.c:1493-1506 | which makes it the greatest |
| Permute.CyclesPartition | argtable3/argtable3.c:1523-1542 | gcd-many cycles of n/gcd steps return to their start, never meet and cover the range |
| Permute.CycleShape | argtable3/argtable3.c:1520-1527 | the computed number and length of cycles form such a partition |
| Permute.PermuteCycle | argtable3/argtable3.c:1529-1542 | swapping through the start carries every element of one cycle to its place |
| Permute.PermuteArgs | argtable3/argtable3.c:1513-1543 | exchanges the two blocks, each in its order, and touches nothing else |
| GetoptLex.TryLong | argtable3/argtable3.c:1550-1709 | takes at most the next word, never reports the end, and misses only where a short option may follow |
| GetoptLex.WordStep | argtable3/argtable3.c:1837-1931 | a scan consumes at least the word or one of its letters, except a lone dash, which consumes nothing |
| GetoptReading.RequiredArgumentRead | argtable3/argtable3.c:1913-1931 | a letter with one colon: the rest of its word is the argument, else exactly the next word, and two words are consumed; else the argument is missing |
| GetoptReading.OptionalArgumentRead | argtable3/argtable3.c:1913-1931 | a letter with two colons: the rest of its word or nothing, never the next word |
| GetoptReading.PlainLetterRead | argtable3/argtable3.c:1910-1912 | a letter without a colon takes no argument; its word is consumed with the last letter |
| GetoptReading.UnknownLetterRead | argtable3/argtable3.c:1867-1889 | an undeclared letter or a colon is reported and passed over |
| GetoptReading.ClosingDashRead | argtable3/argtable3.c:1849-1852 | a dash at the end of a cluster is refused and consumes nothing |
| GetoptReading.EveryKeyIsOne | argtable3/argtable3.c:1591-1630 | a name stands for an option, or is ambiguous, or names none |
| GetoptReading.LongOptionRead | argtable3/argtable3.c:1631-1709 | a long option by its whole name or an abbreviation without a rival: the text behind `=`, the next word, or no argument, as its table entry says |
| GetoptReading.LongOptionRefused | argtable3/argtable3.c:1619-1630 | an ambiguous abbreviation, or an unknown name where no letter can be meant, is reported and consumed |
| GetoptReading.LongOptionBehindW | argtable3/argtable3.c:1890-1909 | `-Wname` and `-W name` are read as `--name` |
| GetoptReading.NameBehindWRefused | argtable3/argtable3.c:1890-1909 | a name behind `W` that is ambiguous or unknown is reported |
| GetoptReading.NothingBehindW | argtable3/argtable3.c:1890-1900 | so is a `W` with nothing behind it |
| GetoptParse.PartitionIsStable | argtable3/argtable3.c:1715-1932 | the words are a shuffle of the options with their arguments and the operands: each part keeps its order, none is lost |
| GetoptParse.OperandsLookLikeOperands | argtable3/argtable3.c:1817-1834 | no operand looks like an option, except those behind the `--` that closes the options, which are exactly the words behind it |
| GetoptParse.ParseIsStablePartition | argtable3/argtable3.c:1715-1932 | repeated calls end with program name, options in order, operands in order, and optind on the first operand |
| GetoptReading.ArgumentIsNoOperand | argtable3/argtable3.c:1913-1931 | in that partition the word behind a letter with one colon is an option's argument and no operand |
| GetoptReading.NextWordIsNotTaken | argtable3/argtable3.c:1910-1931 | the word behind any other letter is not taken with it |
| GetoptReading.ArgumentOfA | argtable3/argtable3.c:1913-1931 | `-a x` is an option with its argument under `a:`, and an option and an operand under `a::` |
| GetoptParse.ParseEndsIff | argtable3/argtable3.c:1715-1932 | repeated calls come to an end if and only if no scanned word gets stuck |
| GetoptParse.StuckShape | argtable3/argtable3.c:1843-1852 | a word gets stuck exactly if it is a cluster of argument-less letters closed by a dash and, in long-only mode, no rest of it is a long option |
| GetoptParse.DashClusterLoops | argtable3/argtable3.c:1849-1852 | `-a-` is scanned for ever |
| GetoptModes.ModeParseIff | argtable3/argtable3.c:1785-1799 | stopping at the first operand or returning operands in order: calls end if and only if no scanned word gets stuck; the vector is unchanged and the operands were returned in order |
| GetoptModes.StandsOnOperand | argtable3/argtable3.c:1785-1834 | such a parse stops behind a closing `--`, at the end, or on the first operand if it does not return operands |
| Getopt.FindLong | argtable3/argtable3.c:1591-1630 | the loop finds an exact name, else the first abbreviation unless another clashes |
| Getopt.Scanning.ParseLong | argtable3/argtable3.c:1550-1709 | consumes the word and a detached argument, or nothing on a miss |
| Getopt.Scanning.ScanWord | argtable3/argtable3.c:1837-1931 | one call inside a word moves place, optind and optarg as the reading of the word says, which the members of GetoptReading state on option string, table and words |
| Getopt.Scanning.SkipOperand | argtable3/argtable3.c:1800-1812 | steps over an operand; options seen since the last one move in front of all operands so far |
| Getopt.Scanning.Conclude | argtable3/argtable3.c:1760-1777 | operands behind options, optind on the first operand |
| Getopt.Scanning.GetoptLong | argtable3/argtable3.c:1715-1932 | one call, from any static state a previous call left, is the function that readings and whole parses are proved about |
| Getopt.Scanning.ParseTagged | argtable3/argtable3.c:5185-5207 | the loop ends, and the vector is the stable partition with optind between the parts, or in the other modes as it was with optind where the parse stopped |
| HashSpec.ValuesOfAll | argtable3/argtable3.c:571-573 | with every entry in bucket hash mod length, a key's bucket holds all its entries |
| HashSpec.RehashedValues | argtable3/argtable3.c:608-641 | expansion keeps every entry in its right bucket, and reverses those of one key |
| HashNodes.CutSpells | argtable3/argtable3.c:699-713 | leading one link around a node leaves all other chains linked as they were |
| HashNodes.MoveSpells | argtable3/argtable3.c:627-634 | moving a node keeps both tables linked and apart |
| HashIndex.InsertedRefines | argtable3/argtable3.c:647-668 | inserting a new key refines adding it to the map, across an expansion |
| HashIndex.RemovedRefines | argtable3/argtable3.c:687-715 | removal refines removing the key from the map |
| HashIndex.FoundRefines | argtable3/argtable3.c:670-685 | a lookup answers as the map does |
| HashIndex.RegisteredRefines | argtable3/argtable3.c:4802-4843 | registration refines overwriting the map's entry |
| HashIndex.EveryRunRefines | argtable3/argtable3.c:571-715 | no sequence of operations, with whatever expansions, tells the table from the map |
| HashIndex.DuplicatesSwapOnExpansion | argtable3/argtable3.c:623-634 | two insertions under one key change places on expansion |
| HashIteration.WalkVisitsEach | argtable3/argtable3.c:747-846 | with arbitrary removals on the way every entry is visited once, and exactly the others remain |
| HashIteration.IterationIsExact | argtable3/argtable3.c:747-846 | and the table then refines the map without the removed keys |
| HashIteration.VisitedArePairs | argtable3/argtable3.c:747-817 | the entries visited are exactly the pairs of the map |
| HashTable.Hashtable.Create | argtable3/argtable3.c:575-606 | the least listed length above the request, or null beyond 2^30; the new table holds the empty map |
| HashTable.Hashtable.Expand | argtable3/argtable3.c:608-641 | relinks every node, head first, into a table of the next length, or does nothing at the last one; the old chains' order by bucket decides the new one |
| HashTable.Hashtable.MoveHead | argtable3/argtable3.c:627-634 | relinking a bucket's head moves one node between two tables and disturbs no other link |
| HashTable.Hashtable.Unlink | argtable3/argtable3.c:699-713 | after the assignment through pE heads and links spell out the chains without the node |
| HashTable.Hashtable.Insert | argtable3/argtable3.c:647-668 | expands at the load limit, then links a new node at the head of its chain |
| HashTable.Hashtable.Search | argtable3/argtable3.c:670-685 | follows the links to the first node with hash and key |
| HashTable.Hashtable.Remove | argtable3/argtable3.c:687-715 | leads the link before the first node with hash and key, or the bucket's head, around it |
| HashTable.Hashtable.Register | argtable3/argtable3.c:4802-4843 | a table that holds a map holds it with the entry overwritten |
| HashTable.Hashtable.Unregister | argtable3/argtable3.c:4845-4847 | a table that holds a map holds it without the key |
| HashTable.Iterator.constructor | argtable3/argtable3.c:747-768 | starts on the first entry, or at the end of an empty table |
| HashTable.Iterator.Advance | argtable3/argtable3.c:782-817 | follows the link, or goes to the head of the next bucket, and keeps the node before as parent |
| HashTable.Iterator.RemoveCurrent | argtable3/argtable3.c:819-846 | unlinks the current node through its parent and stands on the successor, whose parent is the removed node's |
| HashTable.Iterator.StepFromRemoved | argtable3/argtable3.c:836-843 | advancing from a removed node does not leave it behind as the parent |
| MergeSort.MergedClass | argtable3/argtable3.c:440-449 | among equal elements those of the right half come first |
| MergeSort.SortedPermutes | argtable3/argtable3.c:456-469 | the result is a permutation |
| MergeSort.SortedAscends | argtable3/argtable3.c:456-469 | in ascending order |
| MergeSort.SortedReversesEquals | argtable3/argtable3.c:456-469 | equal elements come out in exactly the reverse of their input order |
| MergeSort.SortIsStableOnReverse | argtable3/argtable3.c:456-469 | the result is the stable sort of the reversed input, and nothing else is |
| MergeSort.Merge | argtable3/argtable3.c:404-454 | in place, the two halves merged and the rest of the array unchanged |
| MergeSort.Mgsort | argtable3/argtable3.c:456-469 | in place, the range sorted and the rest of the array unchanged |
| TagPack.ChunkIsOr | lib/libunvmed-cmds.c:155-180 | any field of the packed number is the bitwise or of what each tag contributes to it |
| TagPack.SetTags | lib/libunvmed-cmds.c:130-187 | for legal tags, cdw2:cdw3:cdw14 as one number is stag * 2^(W - sts) + rtag; refused without a namespace or for a reserved format |
| TagPack.TagsRecoverable | lib/libunvmed-cmds.c:130-187 | both tags can be read back, and the number fits W bits |
| Interleave.InBoundsIff | src/unvmed-cmds.c:3003-3010 | every copy is inside the allocated buffer if and only if offset and size fit it; an offset below the page size does not suffice |
| Interleave.HalfPageFits | src/unvmed-cmds.c:2982-2986 | offsets in the first half of a page fit for every size |
| Interleave.LateOffsetDoesNotFit | src/unvmed-cmds.c:2982-3003 | a short transfer at a late offset gets one page and passes its end |
| Interleave.LateOffsetCopiesOutside | src/unvmed-cmds.c:2982-3003 | so that the copies of a single block end outside |
| Interleave.OneBlockAt4000 | src/unvmed-cmds.c:2982-3003 | for instance 512 + 8 bytes at offset 4000 of 4096 |
| Interleave.WriteExtended | src/unvmed-cmds.c:3045-3052 | blocks and metadata alternate from the offset on, in a buffer of the allocated length that fits them; nothing else is written |
| Interleave.ReadExtended | src/unvmed-cmds.c:2831-2838 | the blocks and the metadata pieces are gathered from such a buffer into their own |
| Interleave.RoundTrip | src/unvmed-cmds.c:2831-2838 | separating what was interleaved gives back data and metadata for all counts and sizes |
| Interleave.ReadAfterWrite | src/unvmed-cmds.c:3045-3052 | a read at the offset of a write returns what was written |

## Left out

- VFIO and IOMMU mapping, sysfs and PCI access, register polling, eventfd, futex and thread creation: calls into the
  operating system and libvfn. The request pool is `qsize - 1` tokens; other foreign calls are outcomes passed in.
- PRP and SGL building and data buffers: commands carry no data. Command setup, printing, logging, the socket between
  client and daemon, help text and option tables.
- The refusal of a push (ENODEV) when the issuing thread's virtual queue is gone.
- The polled completion path and the controller-wide command counter: the path completes any command that is not
  INIT, and the counter also falls for commands that were never posted, so neither keeps the laws proved here.
- Timers and interrupt vectors: whether a command has expired is a free choice of the timeout step; re-arming is not
  modelled.
- The regular expression engine, date and floating-point options, dynamic strings, and memory release in the hash
  table. The load limit is an arbitrary function of the length, the hash function an arbitrary function of the key.
- Weak memory: each atomic operation takes effect at once and in order. A compare-and-swap that fails reloads.
- CommandPool.Bitmap.Alloc: one call at a time; the second scan does not retry a lost swap, so among other threads a
  failure does not mean that every id is in use. That ids are never handed out twice is proved for all interleavings.
- CidBitmap.EveryRunHoldsEachIdOnce: a thread frees only an id that is held and that no other thread is freeing.
- VcqRing.EveryRunIsFifo: for queue sizes up to 65536, the range of the 16-bit counters.
- Completion.DeliverAllShares: the device names ids for which the queue has a command structure; the source does not
  check the id of an entry against the queue's size, and a reused instance keeps its structures when the size changes.
  The same holds for the members of Cancel and for Completion.CancelCompletesOnce.
- CmdLifecycle.ExclusiveRunsCompleteOnce: the two stores that complete a command with a waiter are one step.
- QueueRefs.CountedIff: the lookup that takes no reference is modelled for deletion only; its other callers rely on the
  queue being quiesced. Submission and completion queues follow the same code, so one queue id stands for both.
- QueueRefs.SwapIsExact: a lookup that loads a negative count ends without a reference, as in the source, which however
  still returns the instance; in runs whose deletions find a claim no count is negative.
- CtxSpec.RestoreRebuilds: device commands succeed; the completion queue that a deleted and still held submission queue
  names is taken to exist; admin queue sizes from 1 to 4096, the range of the register;
  a namespace is its id and whether it is enabled.
- DeviceHandle.ConsistentIff: calls do not overlap, and the callbacks of a re-initialisation do not change the state.
- Getopt.Scanning.ParseTagged: error messages and the POSIXLY_CORRECT lookup are left out, the latter being part of
  the configuration; `place` is the unread text rather than a pointer into the vector, and the value of a long option
  is kept apart from the special results, so that an option with the value -1 does not end the parse.
- HashTable.Hashtable.Insert: the entry count is unbounded, and the memory of removed nodes is not returned.
- MergeSort.Merge: the scratch memory is a sequence, and the leftover of one half is copied by the same loop.
- TagPack.SetTags: a shift by 64, which a tag size of 16 bits reaches and C leaves undefined, either leaves its
  operand or gives zero; the result is proved for both.
- Interleave.WriteExtended: for data and metadata of exactly (nlb + 1) blocks and pieces; the source only warns about
  other sizes. The source buffers are sequences, since the loops do not change them.
