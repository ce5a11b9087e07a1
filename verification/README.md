# Verified models of TPT Torus

TPT Torus is an asynchronous I/O layer over completion queues. This project models the parts of it
that keep track of submissions, completions, buffers and slots, and proves what they guarantee
over every run. Check it with `dafny verify dfyconfig.toml`.

## How the models are built

Every concurrent component comes in two files. The first is a step machine: one step per lock
section or per atomic operation, any number of actors, and theorems about all runs from the start
state (`Runs(Start(), trace)`), for every interleaving. The second is the component as the program
writes it: classes with the program's fields, loops, arrays and wrapping counters. Its methods
record which machine step each piece of code performs and call `Interfere` wherever others can run,
so the code is proved to take exactly its own steps of the machine, and the theorems about runs are
theorems about the code. Sequential components have a specification by functions and a class proved
against it.

| files | component |
|---|---|
| `WakerProtocol.dfy`, `WakerTheorems.dfy`, `AsyncApi.dfy` | waker registry, reaper thread, futures |
| `UringLowering.dfy`, `Uring.dfy`, `UringObject.dfy` | io_uring backend with a kernel that takes entries, posts completions and picks buffers |
| `Kqueue.dfy`, `KqueueObject.dfy` | kqueue backend: submitter, reactor, file workers, kernel registry |
| `DmaPool.dfy`, `DmaPoolObject.dfy` | lock-free DMA buffer pool and its peak statistic |
| `Lease.dfy` | lease registry: ordered interval map and in-flight counts |
| `Cgroup.dfy` | concurrent resource limiter |
| `RingIndex.dfy`, `Rings.dfy` | power-of-two rings under wrapping counters, the virtual rings |
| `AsyncTokio.dfy`, `TokioReader.dfy`, `TokioWriter.dfy` | tokio reader and writer adapters over positional files |
| `TorusPool.dfy` | round-robin pool |
| `Words.dfy`, `Counting.dfy`, `Flows.dfy`, `Results.dfy` | machine integers and bit masks, counting, flows, completions |

## Where the code does less than it promises

The models follow the code. Each point below is a theorem, with the condition under which it
happens and, where it takes a schedule to get there, a run from the start state that does.

- The Init arm of `poll` submits first, registers its waker afterwards and never looks again. A
  future it parked is left unwoken if and only if the reaper's wake half for its id ran after its
  submission and before its registration (`InitArmIsWokenUnlessOvertaken`). `OvertakenRegistration`
  is such a run, `StrandedSleepsOn` says that nobody ever wakes the future later,
  `WakeUpLostForEver` puts the two together, and `NextPollIsReady` says that one more poll would
  find the result. The Waiting arm loses no wake-up (`WaitingArmIsWoken`).
- A drop leaks its operation's result if and only if the result is not in the table when the drop
  looks for it (`DropLeaksIff`); it then stays there for good (`LateResultLeaks`,
  `LateResultExists`).
- `submit` on io_uring stores the new tail before it enters the kernel, so a flow whose submission
  is refused stays published. A call's `enter` makes the kernel take that call's own entries if and
  only if nothing was left in the ring when it began (`OwnEntriesIffDrained`,
  `FailedEntryRunsInstead`), no call ever catches up with what is left (`BacklogNeverShrinks`), and its completion ends up in the results table of a future that has
  long reported failure: if and only if it was published, completed and dispatched
  (`RefusedResult`, `RefusedResultExists`).
- A masked distance cannot tell a full ring from an empty one. "Full" tests never succeed
  (`MaskedBelow`, `HasRoom`, `PublishFlows`), a batch larger than the submission ring overwrites its
  own first entries (`SubmitRefinesFifo`), and a completion ring that has filled once, as it can for
  every size (`SomeRunFillsTheRing`), is never drained again (`FullRingIsStuck`, `Drain`).
- `consume` on the virtual completion ring advances the head before it reads the slot; it returns
  the newest entry instead of the oldest if and only if the producer fills the ring in between, as
  it can for every size of ring (`Consume`, `LeftSlotAfter`).
- The io_uring counter is raised by the size of the batch, whatever number of entries the kernel
  reports having taken; it is off for good exactly if some call took fewer (`ShortIffNotAllTaken`,
  `SomeRunComesUpShort`).
- Lengths are cut to 32 bits on io_uring, so the kernel does what a flow asks for if and only if its
  length is below 2^32 and, for a fixed transfer, fits the region (`LoweringKeepsMeaning`); a read of
  2^32 bytes reads none, which looks like the end of the file (`HugeReadReadsNothing`).
- The raw system calls of io_uring return -1 for every error, and the code takes that for the
  negated error number, so it reports number 1 whatever went wrong (`EnterKernel`,
  `RegisterBuffers`). Failed file operations and closes on kqueue complete with the raw -1 and are
  reported as number 1 too (`ErrorNumbers`).
- On kqueue, registering over an armed event of the same descriptor and direction, or closing a
  descriptor with an armed event, loses the earlier operation: it is never answered and the counter
  never returns to zero (`NothingLostIffCareful`, `LostIsNeverAnswered`, `SomeRunLosesAnOperation`);
  every other operation can still be answered (`AnswerableIffNotLost`).
- `try_reserve` does not take its increment back when it loses the race; the leak is permanent, and
  for every limit two threads can shut the limiter for good with nothing held (`LeakIsExact`,
  `RaceCanShutTheLimiter`).
- `register` with length zero at an existing base replaces that region (`ReplacementIsExact`), and
  `checkout` accepts any length for a region that ends at the top of the address space
  (`LocateIsExact`); there the fixed-buffer form of an operation is refused although the lease was
  checked out (`TopOfMemory`).
- `alloc_aligned` claims a slot before it looks at its address. An allocation that answers `None` has
  found every slot owned or misaligned when it tried it (`NoneMeansTaken`), but the owner may be such
  a probe: a plain `alloc` can come back empty-handed although no handle has ever existed
  (`SomeRunRefusesForNoHandle`).
- A tokio adapter keeps `submitted` set if and only if one of its polls reported the failure of a
  submitted operation, or panicked, and then every later poll is pending for ever (`DeadIffLoss`,
  `DeadForEver`; `SomeRunLosesTheReader`, `SomeRunLosesTheWriter` and `SomeRunPanics` get there). A
  reader that has not panicked and has no completion left to take has delivered the file's bytes if
  and only if every completion was written to the scratch buffer, or that happened to hold the same
  bytes (`StreamIsContiguous`). A poll that asks for more than the buffer's allocation holds moves
  it under an operation in flight, and then what is delivered can be stale (`MovedBufferIsStale`). A
  poll with less room than the read in flight can bring bytes can panic, and no other poll can
  (`PanicsIff`, `NextPollPanicsIff`); polls of one length do neither (`SteadyIsSafe`). The writer
  hands the backend a reference to a buffer it has borrowed for one poll: what the caller is told is
  written is in the file if and only if those bytes were still in the buffer when the backend read
  it (`PrefixesAreContiguous`, `SomeRunWritesOtherBytes`), and the count it is told can exceed the
  buffer of the poll that reports it if and only if that is shorter than the one submitted
  (`CountFitsIff`, `SomeRunCountsTooFar`). The two statements about bytes are about runs in which no
  refused operation is left with the backend. That is sufficient, not necessary, as a left-over
  operation may be harmless; without it both streams can fail (`StrayReadIsDelivered`,
  `StrayWriteOverwrites`).
- Round-robin stays within one attempt for ever only if the number of instances divides 2^32
  (`FairForeverIffDivides`).

## Model

| member | source | states |
|---|---|---|
| WakerTheorems.ExactlyOnce | tpt-torus-core/src/async_api.rs:84-101 | over every run, each completion the backend produced, for an accepted or for a refused flow, is in exactly one place: unreaped, undispatched, in the results table, taken by the future that submitted the flow, or discarded by that future's drop; its value is unchanged wherever it is |
| WakerTheorems.Routing | tpt-torus-core/src/async_api.rs:427-474 | a future that became ready returns the completion of the flow it submitted itself, and submitted once |
| WakerTheorems.DispatchIsFifo | tpt-torus-core/src/async_api.rs:133-149 | over every run, the completions dispatched, then those in the reaper's batch, then those queued are the ones the backend produced, in the order in which it did |
| WakerTheorems.WaitingArmIsWoken | tpt-torus-core/src/async_api.rs:456-470 | a delivered future parked by the Waiting arm has either been woken since its last poll or the reaper is about to wake its latest waker, and never both |
| WakerTheorems.InitArmIsWokenUnlessOvertaken | tpt-torus-core/src/async_api.rs:433-455 | a delivered future parked by the Init arm is unwoken with no wake-up due if and only if, in the run, the reaper's wake half for its id lies after its submission and before its registration |
| WakerTheorems.OvertakenRegistration | tpt-torus-core/src/async_api.rs:443-449 | the overtaking run exists |
| WakerTheorems.StrandedSleepsOn | tpt-torus-core/src/async_api.rs:84-90 | whatever everybody else does, a stranded future stays delivered and unwoken |
| WakerTheorems.WakeUpLostForEver | tpt-torus-core/src/async_api.rs:433-455 | there is a run after which, in every continuation that does not poll the future unasked, its result waits and it is never woken |
| WakerTheorems.NextPollIsReady | tpt-torus-core/src/async_api.rs:456-470 | with anything interleaved, the first poll after delivery returns the delivered completion |
| WakerTheorems.DropLeaksIff | tpt-torus-core/src/async_api.rs:479-484 | for every drop and everything that follows it, once the completion has been dispatched it is in the table for good if and only if it was not in the table when the drop looked |
| WakerTheorems.LateResultLeaks | tpt-torus-core/src/async_api.rs:84-101 | a result in the table for a dropped or refused future is never taken nor discarded |
| WakerTheorems.LateResultExists | tpt-torus-core/src/async_api.rs:479-484 | a run with a drop before the completion ends with the result in the table |
| WakerTheorems.RefusedResult | tpt-torus-backend-uring/src/lib.rs:736-758 | a refused future's result is in the table if and only if the refusing backend had published the flow, has completed it, and the completion was dispatched |
| WakerTheorems.RefusedResultExists | tpt-torus-core/src/async_api.rs:433-455 | such a run exists |
| WakerTheorems.TablesHoldOnlyLiveIds | tpt-torus-core/src/async_api.rs:58-101 | registered wakers belong to waiting futures and are their latest ones; results in the table belong to waiting, half-dropped, dropped or refused futures |
| WakerTheorems.IdsNeverShared | tpt-torus-core/src/async_api.rs:74-76 | no two futures hold the same id and the flow of none reaches the backend twice |
| WakerTheorems.AllocIdsUnique | tpt-torus-core/src/async_api.rs:74-76 | the ids of the first n allocations are distinct if and only if n is at most 2^64 |
| WakerProtocol.StepKeepsInv | tpt-torus-core/src/async_api.rs:58-101 | every lock section of registry, reaper and futures keeps the protocol invariant |
| AsyncApi.ReadFuture.Poll | tpt-torus-core/src/async_api.rs:427-475 | a poll takes exactly the lock sections of its arm, with others interleaved; a refusal is reported as it is, and a ready future answers the value the backend produced for this operation: `Ok(v)` for v at least 0, the error number -v for a failure whose number fits 32 bits |
| AsyncApi.ReadFuture.Drop | tpt-torus-core/src/async_api.rs:478-484 | dropping removes waker and result of a waiting future, in two lock sections, and nothing otherwise |
| AsyncApi.ReaperRound | tpt-torus-core/src/async_api.rs:133-149 | one round of the reaper delivers and wakes every reaped completion, once and in order |
| AsyncApi.Complete | tpt-torus-core/src/async_api.rs:84-90 | insertion of the result, then removal and wake, with others in between |
| Results.ErrnoSurvives | tpt-torus-core/src/result.rs:40-46 | an error number comes back unchanged if and only if it fits 32 signed bits |
| Results.OutcomeIsExact | tpt-torus-core/src/result.rs:22-46 | a raw value of at least 0 is answered as that many bytes; a negative one as the 32-bit number that agrees with its negation modulo 2^32, so as the number itself if it fits |
| UringLowering.FixedIffRegionBase | tpt-torus-backend-uring/src/lib.rs:213-219 | after registration of a lease registry, a file operation becomes a fixed one if and only if its buffer is the base of one of the first 65536 regions, and its index names that region's entry |
| UringLowering.LoweringKeepsMeaning | tpt-torus-backend-uring/src/lib.rs:549-642 | the kernel does what the flow asked for, at its full length, if and only if the length is below 2^32 and a fixed transfer fits its region |
| UringLowering.WhatTheKernelDoes | tpt-torus-backend-uring/src/lib.rs:549-642 | in any case it carries out the operation cut to 32 bits, or refuses a fixed one longer than its region |
| UringLowering.CallsKeepMeaning | tpt-torus-backend-uring/src/lib.rs:287-512 | by the numbers of the kernel's interface, the multi-shot accept accepts many, the multi-shot receive selects buffers of its group for many, and a cancellation cancels the operation with the target's tag, each under its own user data |
| UringLowering.BatchKeepsMeaning | tpt-torus-backend-uring/src/lib.rs:529-742 | entry i of a batch carries the user data of flow i and means what flow i asks for under the same condition |
| UringLowering.HugeReadReadsNothing | tpt-torus-backend-uring/src/lib.rs:563-565 | a read of 2^32 bytes is carried out as a read of none |
| UringLowering.CheckedOutMeansTheSame | tpt-torus-backend-uring/src/lib.rs:549-582 | after a successful checkout at a region's base, the fixed form does what the plain form does if and only if the 32-bit length fits the region, and what was asked if and only if the whole length fits both; a buffer that does not run past the top of the address space always fits its region |
| UringLowering.TopOfMemory | tpt-torus-core/src/lease.rs:111-135 | a checkout at the top of the address space that succeeds and whose fixed form the kernel refuses |
| UringLowering.TableIsExact | tpt-torus-backend-uring/src/lib.rs:253-258 | the registered table maps exactly the listed bases, each to its own position |
| UringLowering.FillIsExact | tpt-torus-backend-uring/src/lib.rs:545-736 | an arm's assignments make the right entry of a used slot if and only if the fields it leaves alone are zero there |
| UringLowering.StaleFieldsWouldArm | tpt-torus-backend-uring/src/lib.rs:545-547 | without the zeroing a plain receive in a slot used by a multi-shot one would be multi-shot |
| UringLowering.NoStrayFields | tpt-torus-backend-uring/src/lib.rs:545-547 | in a zeroed slot a flow's entry carries its user data and no flag, multi-shot bit or buffer index it did not ask for |
| Uring.InFlightIsExact | tpt-torus-backend-uring/src/lib.rs:751-803 | between calls the counter is armed operations plus unreaped disarming completions plus entries the kernel left behind; intermediate multi-shot completions do not count |
| Uring.ReapNeverUnderflows | tpt-torus-backend-uring/src/lib.rs:803 | a reap never takes off more than the counter holds |
| Uring.EveryEntryEndsOnce | tpt-torus-backend-uring/src/lib.rs:762-803 | an accepted entry is answered under its own user data, is armed until its one disarming completion, and has no other completion unless it is multi-shot |
| Uring.BuffersAreConserved | tpt-torus-backend-uring/src/lib.rs:411-445 | ring tail minus kernel head (mod 2^16) plus buffers in completions plus buffers about to be returned is the ring size; with nothing waiting the pool is full again |
| Uring.OnlyTheseAreMultishot | tpt-torus-backend-uring/src/lib.rs:287-392 | the multi-shot accept and receive are multi-shot to the kernel, only the latter takes buffers, and neither a cancellation nor any plain flow is multi-shot |
| Uring.ReapEndsEmptyOrFull | tpt-torus-backend-uring/src/lib.rs:776-782 | a reap drained everything if and only if fewer completions than ring entries were waiting |
| Uring.FullRingIsStuck | tpt-torus-backend-uring/src/lib.rs:780 | once the completion ring is full, nothing is ever reaped or posted again |
| Uring.SomeRunFillsTheRing | tpt-torus-backend-uring/src/lib.rs:780 | for every ring size a run from the start fills it |
| Uring.ShortIffNotAllTaken | tpt-torus-backend-uring/src/lib.rs:751-759 | entries are counted but left behind if and only if the kernel took less than a batch |
| Uring.SomeRunComesUpShort | tpt-torus-backend-uring/src/lib.rs:751-759 | some run ends with a counter of one and nothing armed or waiting |
| Uring.RingIsFifo | tpt-torus-backend-uring/src/lib.rs:532-758 | over every run that never publishes into a full ring, with any failed and partial calls, the accepted entries followed by those in the ring are the published ones in order |
| Uring.BacklogNeverShrinks | tpt-torus-backend-uring/src/lib.rs:736-758 | entries left in the ring by earlier calls are never made up for by later ones |
| Uring.OwnEntriesIffDrained | tpt-torus-backend-uring/src/lib.rs:736-758 | at any point of a run that never publishes into a full ring, for a batch that fits and user data that differ, the entries a call makes the kernel take are its own, in order, if and only if the ring was drained when the call began; in any case what was waiting goes first |
| Uring.FailedEntryRunsInstead | tpt-torus-backend-uring/src/lib.rs:736-758 | the entry of a failed call is accepted in place of the next call's own |
| Uring.SubmitRefinesFifo | tpt-torus-backend-uring/src/lib.rs:532-547 | from a drained ring at any counter value, the kernel reads exactly the batch in order if and only if the batch fits the ring |
| Uring.LastRingFull | tpt-torus-backend-uring/src/lib.rs:742-748 | of a batch of any size the last ring-full is in its slots, other slots are untouched |
| UringObject.UringBackend.PublishEntry | tpt-torus-backend-uring/src/lib.rs:538-547 | whatever the slot held, zeroing it and assigning the arm's fields publishes exactly the request's entry, through the index array and the wrapping tail |
| UringObject.UringBackend.KernelSees | tpt-torus-backend-uring/src/lib.rs:742-746 | following the index array from the wrapped head finds the published entries |
| UringObject.UringBackend.PublishFlows | tpt-torus-backend-uring/src/lib.rs:532-748 | the loop publishes the lowering of every flow in order and the test for a full ring never stops it |
| UringObject.UringBackend.EnterKernel | tpt-torus-backend-uring/src/lib.rs:751-759 | the counter goes up by the batch unless the call failed, and a failed call reports error number 1 |
| UringObject.UringBackend.Submit | tpt-torus-backend-uring/src/lib.rs:529-760 | all flows are published and the kernel entered once; nothing is counted on an error; an empty batch is `SubmissionFull`; a batch that fits a drained ring is accepted as its lowering |
| UringObject.UringBackend.SubmitMultiAccept | tpt-torus-backend-uring/src/lib.rs:287-330 | one multi-shot accept entry, counted once |
| UringObject.UringBackend.SubmitMultiRecv | tpt-torus-backend-uring/src/lib.rs:344-394 | the buffer ring is registered if there is none, then one multi-shot receive entry for its group is published, counted once |
| UringObject.UringBackend.CancelMulti | tpt-torus-backend-uring/src/lib.rs:478-514 | one cancellation entry, counted once |
| UringObject.UringBackend.EnsurePool | tpt-torus-backend-uring/src/lib.rs:398-474 | the buffer ring is registered at most once, with the least power of two of slots that is at least two and has room for the buffers asked for, all of them credited |
| UringObject.UringBackend.Reap | tpt-torus-backend-uring/src/lib.rs:762-817 | with the kernel posting meanwhile, the results are the completions in order, the counter drops by the disarming ones, each carried buffer is returned, and the loop ends on an empty or a full ring |
| UringObject.FlagBits | tpt-torus-backend-uring/src/lib.rs:785-796 | the two flag tests read their bits out of any 32-bit flag word, whatever the other bits say |
| UringObject.UringBackend.RegisterBuffers | tpt-torus-backend-uring/src/lib.rs:229-260 | on success the table is that of the list; an empty list leaves an earlier table in force; a failure reports number 1 |
| Kqueue.InFlightIsExact | tpt-torus-backend-kqueue/src/lib.rs:492-686 | between calls the counter is queued and running file jobs, armed and collected socket operations, unreaped completions and lost operations |
| Kqueue.ReapNeverUnderflows | tpt-torus-backend-kqueue/src/lib.rs:678-686 | reaping never takes off more than the counter holds |
| Kqueue.ExactlyOnce | tpt-torus-backend-kqueue/src/lib.rs:492-686 | every submission is in exactly one place, and its completion carries its user data |
| Kqueue.ContextFreedOnce | tpt-torus-backend-kqueue/src/lib.rs:414-481 | an operation context is freed exactly when its completion is posted: not while kernel or reactor hold it, not twice, not if it was lost |
| Kqueue.LossIsExact | tpt-torus-backend-kqueue/src/lib.rs:360-375 | a step loses an operation if and only if it registers over an armed event or closes a descriptor with one |
| Kqueue.NothingLostIffCareful | tpt-torus-backend-kqueue/src/lib.rs:360-375 | a run loses nothing if and only if it takes no such step |
| Kqueue.LostIsNeverAnswered | tpt-torus-backend-kqueue/src/lib.rs:360-375 | a lost operation is never answered and keeps the counter above zero |
| Kqueue.AnswerableIffNotLost | tpt-torus-backend-kqueue/src/lib.rs:214-481 | after any run, a submission that has not been answered can still be answered if and only if it has not been lost: jobs are received and finish, armed events are reported and served |
| Kqueue.ReportedAreCollected | tpt-torus-backend-kqueue/src/lib.rs:397-420 | the events the kernel reports are collected in the order of the report with the contexts they were armed with, and are disarmed; no other event is touched |
| Kqueue.SomeRunAnswers | tpt-torus-backend-kqueue/src/lib.rs:360-481 | for every value a run from the start arms an operation, serves it and reaps that value, and the counter is back at zero |
| Kqueue.SomeRunLosesAnOperation | tpt-torus-backend-kqueue/src/lib.rs:360-375 | two submissions for one descriptor and direction lose the first |
| Kqueue.ErrorNumbers | tpt-torus-backend-kqueue/src/lib.rs:214-278 | a failed file operation reports the right error number if and only if it is 1; socket operations always do |
| Kqueue.SuccessNumbers | tpt-torus-backend-kqueue/src/lib.rs:214-278 | a call that succeeds is answered with its value, by file workers and sockets alike |
| KqueueObject.KqueueBackend.Submit | tpt-torus-backend-kqueue/src/lib.rs:492-676 | every flow is handled in order by the step that fits it, and the counter goes up by their number |
| KqueueObject.KqueueBackend.RegisterSocket | tpt-torus-backend-kqueue/src/lib.rs:360-375 | a boxed context is armed in the kernel, or is freed and the negated error number posted |
| KqueueObject.KqueueBackend.SubmitOne | tpt-torus-backend-kqueue/src/lib.rs:495-669 | a flow becomes a job, an armed event or an immediate answer: the negated error number of a refusal, the raw value of a close |
| KqueueObject.KqueueBackend.Reap | tpt-torus-backend-kqueue/src/lib.rs:678-686 | the queue comes out first in first out and the counter drops by its length |
| KqueueObject.KqueueBackend.ReactorRound | tpt-torus-backend-kqueue/src/lib.rs:397-481 | distinct armed events are collected in the order of the report and disarmed; for each, in order, its context is freed and one completion posted, with the value of its call and the user data of its own submission, whatever others post in between |
| KqueueObject.KqueueBackend.ServeEvent | tpt-torus-backend-kqueue/src/lib.rs:414-481 | the context is live when it is read, one completion with its user data and the value or negated error number of the call is posted, the context is freed |
| KqueueObject.KqueueBackend.WorkerRun | tpt-torus-backend-kqueue/src/lib.rs:214-278 | a worker posts the raw value of its oldest job's system call under that job's user data |
| DmaPool.PeakIsExact | tpt-torus-hw/src/dma_pool.rs:135-157 | with no allocation in its peak loop, the recorded peak is the greatest in-flight count of the whole run |
| DmaPool.PeakNeverOverstates | tpt-torus-hw/src/dma_pool.rs:135-157 | at any moment the recorded peak is at most the historical maximum |
| DmaPool.RetryMakesProgress | tpt-torus-hw/src/dma_pool.rs:139-149 | a failed compare-and-swap strictly lowers `current - peak` as seen by the loop, and nobody else raises it |
| DmaPool.SlotsAreExclusive | tpt-torus-hw/src/dma_pool.rs:320-368 | two owners have different slots with their flags set and disjoint buffers inside the region |
| DmaPool.FlagIffOwned | tpt-torus-hw/src/dma_pool.rs:320-368 | over every run a slot's flag is set if and only if somebody owns the slot |
| DmaPool.CounterIsExact | tpt-torus-hw/src/dma_pool.rs:135-157 | the counter is handles past their increment plus drops not yet decremented |
| DmaPool.NoneMeansTaken | tpt-torus-hw/src/dma_pool.rs:320-368 | over every run, an allocation that gives up has tried every slot at some point, and then somebody else owned it or its address was misaligned |
| DmaPool.SomeRunRefusesForNoHandle | tpt-torus-hw/src/dma_pool.rs:341-368 | a run in which an aligned allocation's probe makes a plain one answer `None` although no handle ever existed |
| DmaPoolObject.ZeroCopyDmaPool.RecordAlloc | tpt-torus-hw/src/dma_pool.rs:135-151 | the increment and the retry loop are the machine's steps, and the loop terminates |
| DmaPoolObject.ZeroCopyDmaPool.Alloc | tpt-torus-hw/src/dma_pool.rs:320-338 | a returned handle is backed by an allocation that owns its slot; `None` means that every slot was owned by somebody else when it was tried |
| DmaPoolObject.ZeroCopyDmaPool.AllocAligned | tpt-torus-hw/src/dma_pool.rs:341-368 | a returned handle is aligned and owns its slot; misaligned slots are claimed and given back; `None` means that every slot was owned or misaligned, or that the alignment is not a power of two, and then nothing changes |
| DmaPoolObject.ZeroCopyDmaPool.DropHandle | tpt-torus-hw/src/dma_pool.rs:488-497 | the flag is cleared first, the counter decremented afterwards |
| Lease.RegisterIsExact | tpt-torus-core/src/lease.rs:52-79 | `Overlap` is answered if and only if some registered region overlaps the range, cut off at the top of the address space, and names one; otherwise the region is added, and one inside the address space leaves the regions ordered and disjoint |
| Lease.ReplacementIsExact | tpt-torus-core/src/lease.rs:57-74 | a region is replaced at its base if and only if the new length is zero |
| Lease.LookupIsFullScan | tpt-torus-core/src/lease.rs:111-145 | the predecessor lookup finds the region a scan of all regions finds |
| Lease.LocateIsExact | tpt-torus-core/src/lease.rs:111-173 | `checkout` and `verify` accept exactly the ranges inside the containing region, or any length if it ends at the top of the address space; otherwise they report where the range, cut off at the top, and the region end |
| Lease.CheckoutIsExact | tpt-torus-core/src/lease.rs:111-135 | a checkout counts one more operation on the containing region, stopping at 2^32 - 1, and changes nothing else |
| Lease.CheckinIsExact | tpt-torus-core/src/lease.rs:138-149 | a check-in counts one operation less on the containing region, stopping at zero, and changes nothing else |
| Lease.CountsAreExact | tpt-torus-core/src/lease.rs:92-145 | over every history of matched calls each region's counter is its number of outstanding checkouts |
| Lease.UnregisterIsExact | tpt-torus-core/src/lease.rs:92-108 | unregistering succeeds if and only if nothing is checked out, and else reports how much is |
| Lease.VerifyIsExact | tpt-torus-core/src/lease.rs:152-173 | over every history `verify` accepts what `checkout` accepts and answers whether anything is checked out of the region |
| Lease.CheckoutPinsRegion | tpt-torus-core/src/lease.rs:92-145 | as long as one checkout of an address stays outstanding, the address resolves to the same region of the same length, whatever legal calls come between, other check-ins of it included |
| Lease.BuffersListRegions | tpt-torus-core/src/lease.rs:191-201 | the list for the kernel has every region once, in increasing order |
| Lease.LeaseRegistry.RegisterRegion | tpt-torus-core/src/lease.rs:52-79 | updates the map as specified, errors change nothing |
| Lease.LeaseRegistry.UnregisterRegion | tpt-torus-core/src/lease.rs:92-108 | removes first and restores an in-flight region |
| Lease.LeaseRegistry.CheckoutBuffer | tpt-torus-core/src/lease.rs:111-135 | counts one more operation on the containing region, saturating |
| Lease.LeaseRegistry.VerifyBuffer | tpt-torus-core/src/lease.rs:152-173 | answers as specified and changes nothing |
| Lease.LeaseRegistry.CheckinBuffer | tpt-torus-core/src/lease.rs:138-149 | counts one operation less, never below zero |
| Cgroup.LimitHolds | tpt-torus-core/src/cgroup.rs:153-171 | over every interleaving at most `max` slots are held, the counter is held plus leaked, and at most `max - 1 + threads` |
| Cgroup.OvershootIsTight | tpt-torus-core/src/cgroup.rs:160-166 | for every limit and number of threads some run reaches that bound |
| Cgroup.LeakIsExact | tpt-torus-core/src/cgroup.rs:160-166 | a step leaks if and only if it adds when no slot is left, and nothing gives a leak back |
| Cgroup.RaceCanShutTheLimiter | tpt-torus-core/src/cgroup.rs:160-166 | for every limit some run of two or more threads leaves the limiter refusing everybody for good with nothing held |
| Cgroup.SerialUseIsExact | tpt-torus-core/src/cgroup.rs:153-171 | when reservations do not overlap nothing leaks and the check passes if and only if fewer than `max` are held |
| Cgroup.ResourceLimiter.TryReserve | tpt-torus-core/src/cgroup.rs:160-166 | with other threads between the check and the addition, the answer is true if and only if the addition took a slot, and a false answer after the check leaks one |
| Cgroup.ResourceLimiter.ReleaseSlot | tpt-torus-core/src/cgroup.rs:169-171 | gives one held slot back |
| RingIndex.SlotOfPosition | tpt-torus-backend-uring/src/lib.rs:542 | masking a wrapped counter gives the slot of the position it stands for, across the wrap |
| RingIndex.MaskedDistance | tpt-torus-core/src/rings.rs:146-150 | the masked distance is the true length modulo the ring size, so a full ring reads as empty |
| RingIndex.MaskedBelow | tpt-torus-backend-uring/src/lib.rs:538-540 | the test for a full ring never succeeds |
| RingIndex.PostKeeps | tpt-torus-core/src/rings.rs:107-115 | writing behind the last entry of a ring that is not full appends to the queue it holds |
| RingIndex.PopKeeps | tpt-torus-core/src/rings.rs:169-177 | the head slot holds the oldest entry, and advancing the head removes it |
| Rings.SubmissionRing.FreeSlots | tpt-torus-core/src/rings.rs:83-87 | right if and only if the ring is not full |
| Rings.SubmissionRing.HasRoom | tpt-torus-core/src/rings.rs:90-92 | always true |
| Rings.SubmissionRing.Publish | tpt-torus-core/src/rings.rs:101-103 | advances the wrapping tail, returns the old one, checks nothing |
| Rings.CompletionRing.Available | tpt-torus-core/src/rings.rs:146-150 | the true length if and only if the ring is not full |
| Rings.CompletionRing.Peek | tpt-torus-core/src/rings.rs:158-166 | the oldest entry, or nothing when the ring is empty or full |
| Rings.CompletionRing.Consume | tpt-torus-core/src/rings.rs:169-177 | takes the oldest entry, but returns the newest if and only if the producer has filled the ring before the slot is read |
| RingIndex.LeftSlotAfter | tpt-torus-core/src/rings.rs:169-177 | in a ring of any size that is neither empty nor full, the slot the consumer has left holds the oldest entry until the producer has filled the ring, and then the newest; the queue is kept throughout |
| Rings.CompletionRing.Drain | tpt-torus-core/src/rings.rs:180-186 | terminates on an empty or a full ring; if the producer never fills the ring, every entry comes out once, in order |
| TokioReader.StreamIsContiguous | tpt-torus-core/src/async_tokio.rs:84-117 | over every sequence of polls and completions, with any lengths, short transfers and pending polls, in which no poll panics, no completion is left untaken and no refused read is left with the backend, the delivered bytes are exactly the file from the start offset to the current one if and only if every completion was written to the scratch buffer or that held the same bytes already |
| TokioReader.UnmovedIsContiguous | tpt-torus-core/src/async_tokio.rs:89-113 | a buffer never moved under an operation in flight is enough, even with a panic or an untaken completion |
| TokioReader.MovedBufferIsStale | tpt-torus-core/src/async_tokio.rs:95-97 | a run from the start that asks for more than a vector's first allocation of eight bytes while a read is in flight, and gets what the buffer held before |
| TokioReader.StrayReadIsDelivered | tpt-torus-backend-uring/src/lib.rs:736-758 | a read that was refused and left with the backend runs into the buffer of a later one |
| TokioReader.OneSubmissionEach | tpt-torus-core/src/async_api.rs:307-350 | over every sequence of polls each operation is submitted once |
| TokioReader.PendingIff | tpt-torus-core/src/async_api.rs:307-350 | after any run, a poll with room answers `Pending` if and only if it has just submitted, the read is in flight or the reader is dead; a refusal is reported with nothing submitted, and a completed read is delivered whole, reported as the error it ended with, or too long for the room |
| TokioReader.DeadIffLoss | tpt-torus-core/src/async_tokio.rs:84-117 | the reader believes in an operation that is over if and only if a poll reported the failure of a submitted operation, or panicked |
| TokioReader.DeadForEver | tpt-torus-core/src/async_api.rs:331-349 | from then on every poll with room is pending, and nothing is delivered or submitted |
| TokioReader.SteadyIsSafe | tpt-torus-core/src/async_tokio.rs:89-113 | polls of one length per operation never move the buffer under it and never panic |
| TokioReader.PanicsIff | tpt-torus-core/src/async_tokio.rs:107-108 | while a read is in flight, some completion of it makes the poll in progress panic if and only if the poll has less room than the length asked for and the rest of the file allow |
| TokioReader.NextPollPanicsIff | tpt-torus-core/src/async_tokio.rs:107-108 | the same if the read completes before the poll begins |
| TokioReader.SomeRunPanics | tpt-torus-core/src/async_tokio.rs:107-112 | a run from the start answers `Pending` and then panics, and the reader is dead |
| TokioReader.SomeRunLosesTheReader | tpt-torus-core/src/async_tokio.rs:113 | for every error number a run from the start reports a failed read and leaves the reader dead |
| TokioReader.TorusAsyncReader.Resize | tpt-torus-core/src/async_tokio.rs:95-97 | growing keeps the bytes and adds zeros; the buffer moves if and only if its allocation is too short |
| TokioReader.TorusAsyncReader.PollRead | tpt-torus-core/src/async_tokio.rs:84-117 | the code's poll is the machine's two steps with the backend active in between; the first poll of an operation submits the scratch buffer with the length and offset of the poll, or reports the refusal and submits nothing; the later ones are pending until they report the completion |
| TokioWriter.PrefixesAreContiguous | tpt-torus-core/src/async_tokio.rs:155-178 | over every sequence of polls, completions and changes of the caller's buffer that leaves no refused write with the backend, the bytes the caller was told are written can be read back in one piece if and only if they were still in the buffer whenever the backend read it |
| TokioWriter.WritesAreContiguous | tpt-torus-core/src/async_tokio.rs:155-178 | whatever the buffers held, the written bytes then lie in one piece from the start offset on and nothing else of the file changes |
| TokioWriter.SomeRunWritesOtherBytes | tpt-torus-core/src/async_api.rs:353-376 | a caller that reuses its buffer gets other bytes into the file than it was told |
| TokioWriter.StrayWriteOverwrites | tpt-torus-backend-uring/src/lib.rs:736-758 | a write that was refused and left with the backend overwrites what a later one put in its place |
| TokioWriter.OneSubmissionEach | tpt-torus-core/src/async_api.rs:353-395 | over every sequence of polls each write is submitted once |
| TokioWriter.PendingIff | tpt-torus-core/src/async_api.rs:353-395 | after any run, a poll answers `Pending` if and only if it has just submitted, the write is in flight or the writer is dead; a refusal is reported with nothing submitted, and a completed write with its count or its error |
| TokioWriter.DeadIffLoss | tpt-torus-core/src/async_tokio.rs:155-178 | the writer believes in a write that is over if and only if a poll reported the failure of a submitted one |
| TokioWriter.DeadForEver | tpt-torus-core/src/async_api.rs:377-394 | from then on every poll is pending and nothing is written |
| TokioWriter.TorusAsyncWriter.PollWrite | tpt-torus-core/src/async_tokio.rs:155-178 | the code's poll is the machine's step, submits a reference to the buffer, and counts the bytes of the buffer that was submitted, at most the length of its own buffer if that is no shorter; a refusal is reported with nothing submitted |
| TokioWriter.CountFitsIff | tpt-torus-core/src/async_tokio.rs:170-174 | while a write is in flight, the next poll's count is sure to fit the buffer it was given if and only if that is at least as long as the one submitted |
| TokioWriter.SomeRunCountsTooFar | tpt-torus-core/src/async_tokio.rs:170-174 | a run from the start answers 2 to a poll with a buffer of one byte |
| TokioWriter.SomeRunLosesTheWriter | tpt-torus-core/src/async_tokio.rs:175 | for every error number and buffer a run from the start reports a failed write and leaves the writer dead |
| AsyncTokio.WritesJoin | tpt-torus-core/src/async_tokio.rs:168-174 | two positional writes one behind the other are the write of their concatenation |
| TorusPool.ShareBeforeWrap | tpt-torus-core/src/lib.rs:279-282 | of the first k attempts, k at most 2^32, instance i receives exactly (k + n - 1 - i) / n |
| TorusPool.FairUpToWraps | tpt-torus-core/src/lib.rs:279-282 | after any number of attempts two instances differ by at most one plus the number of completed wraps |
| TorusPool.FairForeverIffDivides | tpt-torus-core/src/lib.rs:279-282 | two instances differ by at most one for ever if and only if the number of instances divides 2^32 |
| TorusPool.Pool.Submit | tpt-torus-core/src/lib.rs:279-282 | the attempt goes to the instance the counter names |
| TorusPool.Pool.Shares | tpt-torus-core/src/lib.rs:279-282 | the pool's own log gives each instance that share |
| TorusPool.Pool.SubmitBatch | tpt-torus-core/src/lib.rs:285-292 | attempts the flows in order, stops after the first refusal and answers it |
| TorusPool.Pool.Reap | tpt-torus-core/src/lib.rs:295-301 | the results are those of the instances in order; a failing instance ends the call and keeps what was collected |
| TorusPool.ConcatInOrder | tpt-torus-core/src/lib.rs:295-301 | the results of instance i stand between those of the instances before it and those of the instances after it |
| TorusPool.Pool.InFlight | tpt-torus-core/src/lib.rs:319-321 | the sum of the instances' counters in 32 bits |
| TorusPool.SumInParts | tpt-torus-core/src/lib.rs:319-321 | every instance counts once in the sum, and without instances it is zero |
| Words.MaskIsRemainder | tpt-torus-core/src/rings.rs:146-150 | `x & (n - 1)` is the remainder by n for a power of two |
| Words.NextPow2Least | tpt-torus-backend-uring/src/lib.rs:411 | the rounded ring size is the least power of two that suffices |

## Left out

- Readv and Writev with more than one buffer in the io_uring backend: the later entries reuse the slot of the first, so only the forms with no or one buffer are lowered.
- WakerTheorems.Routing: holds while at most 2^64 ids have been allocated, with one reaper and with only this registry's flows on the Torus; beyond 2^64 the ids repeat (`AllocIdsUnique`).
- AsyncApi.ReadFuture.Poll: the futures for write, recv, send, accept, connect and close have the same shape and are not repeated.
- Uring.RingIsFifo: the kernel of this model takes entries when it is entered; the polling kernel thread of the SQPOLL set-up is not modelled.
- UringObject.UringBackend.Reap: the kernel posts finitely many completions while a reap runs; otherwise the loop need not end.
- UringObject.UringBackend.EnsurePool: a failed `mmap` or registration may be reported at will; the contents of the buffer ring (every slot aliased to the caller's buffer) are not modelled, only its size and counters.
- Kqueue.InFlightIsExact: the thread count of the file pool is not fixed; any number of jobs may be running.
- Which system call a kqueue worker or the reactor makes for a flow is not modelled; what a call returns is arbitrary.
- DmaPool.PeakIsExact: capacity plus the number of concurrent drops is taken to be below 2^32, and the allocation and deallocation totals are not modelled.
- Lease.CountsAreExact: regions of positive length below the top of the address space and fewer than 2^32 outstanding operations per region; what happens outside is in `ReplacementIsExact` and `LocateIsExact`.
- Rings.CompletionRing.Drain: the producer is a modelled step that never overwrites an unread slot; the file itself has no producer.
- TokioReader.StreamIsContiguous: what the backend writes into an allocation that the scratch buffer has left is not followed any further; wakers are left to the registry model.
- TokioWriter.PrefixesAreContiguous: a failed write is taken to leave the file alone.
- TorusPool.Pool.Submit: what an instance does with a flow is an arbitrary outcome here.
- Unregistering fixed buffers, and the convenience calls of `Torus` that build a flow and hand it on: they only clear a table or forward.
- Memory orderings weaker than sequentially consistent steps, mutex poisoning, thread start-up and shutdown.
- mmap and system call layout, errno conversion, timeouts and `wait`.
- The IOCP backend: its accounting repeats the kqueue shape, the rest is Win32 calls.
- The hardware modules for NVMe, GPU, CUDA, DPDK, XDP and SPDK: foreign calls and stubs.
- Observability counters, detection of resource limits, `TorusPanic`, language bindings, examples and fuzz targets.
