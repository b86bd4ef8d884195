# XRP in Dafny

XRP lets Linux processes send commands to a DSP through shared memory. This project models
the parts of it that are hard to get right, and proves what they promise:

- the **pool allocator** of the kernel driver: a first-fit allocator over an address-sorted,
  coalesced linked free list, edited in place with 32-bit arithmetic
  (`Bits`, `FreeLists`, `Pools`, `PrivatePool`);
- the **host/DSP protocol**: boot, handshake, command submission, completion, timeout and
  reboot, as interleaved steps of two program counters over one shared word
  (`Protocol`, `ProtocolControl`, `ProtocolAlways`, `ProtocolProof`, `ProtocolRuns`,
  `ProtocolHistory`, `ProtocolWords`), and the protocol together with the pool (`Lending`,
  `LendingRuns`, `LendingHistory`);
- the **way of a request**: the communication area, address translation, bounce buffers and
  the access that the DSP reports (`Memory`, `Comm`, `HwRequest`, `AddressMap`, `Bounce`,
  `Sharing`, `Copies`, `Buffers`);
- the **namespace table** of the DSP (`Namespaces`);
- the **user-space command queue**: order, completion events and reference counts
  (`RequestQueue`, `CommandQueue`, `CommandQueueProof`, `CommandQueueRuns`,
  `CommandQueueHistory`).

Source files that work by changing things in place are modelled by classes and methods
(`PrivatePool.Pool`, `Namespaces.Device`, `Buffers.Buffer`, `RequestQueue.Queue`, and the loops
in `Comm`, `Bounce` and `AddressMap`). Each is proved against functions on values, and the
promises are lemmas about those functions. What runs concurrently is a step relation whose
invariants are proved over every run, with any number of steps and any interleaving. What such a
state records is tied to the steps of the run that led to it (`Histories`, `ProtocolHistory`,
`LendingHistory`, `CommandQueueHistory`).

`dafny verify dfyconfig.toml` checks everything.

## Where the code does not keep the promise

These properties do not hold of the code for all inputs. Each is stated as an equivalence with
the condition under which it does hold, and the direction that fails comes with inputs or a run.

- A well-formed allocation request is decided as in exact arithmetic on every pool exactly when
  its page-rounded size plus its effective alignment is at most 2^32: then it is called
  representable (`Pools.AllocExactIff`).
- User space may ask for any 32-bit size and alignment. On a given pool a request is answered with
  the lowest aligned free range, and keeps free, live and lost blocks a partition of the pool,
  exactly when it is decided rightly: it is refused, or representable, or fits at address 0
  (`Pools.DecidedExact`, `Pools.AllocLowestIff`, `Pools.StepValidIff`,
  `Lending.ObtainValidIff`). A run keeps the partition all along exactly when this holds of each
  of its requests (`Pools.AllValidIff`); `Pools.EmptyBlockLeft` is a run that ends with an empty
  block in the list. The other results on runs, in `Pools` and in `Lending`, are about runs of
  this kind.
- In such a run, once everything is freed the pool is its single initial block again exactly when
  no call was short of its second list node while the range it took had free bytes on both sides
  (`Pools.WholeAgainIff`; `Pools.PageLost` is a pool and a call that lose a page for good).
- The protocol has three settings: whether the firmware is rebooted after a timeout, whether a
  firmware name is configured, and whether a signal can end an interruptible wait. A request is
  left early when the reboot is off or a signal can end the wait. Each promise has its own exact
  condition:
  - exclusive use of the payload, safe memory, true results, and acceptance exactly once of what
    is reported as answered hold in every reachable state exactly when no request is left early
    (`ProtocolRuns.ExclusiveIff`, `ProtocolRuns.MemoryIff`, `ProtocolRuns.ResultsIff`,
    `ProtocolRuns.AnsweredOnceIff`), and so do the reservation of the blocks in use
    (`LendingRuns.UsesReservedIff`) and their return only when the DSP is done
    (`LendingRuns.GivesBackDoneIff`);
  - the handshake is ordered exactly when there is a firmware name (`ProtocolRuns.OrderedIff`);
  - acceptance at most once, and running only what was published, need both
    (`ProtocolRuns.OnceIff`, `ProtocolRuns.PublishedIff`, `ProtocolRuns.GoodIffSafe`);
  - no wake-up is lost, and a device that is off stays off, with every setting
    (`ProtocolAlways.NeverLostWakeup`, `ProtocolAlways.OffForever`).
- A command for an unregistered namespace is refused, unless the identifier lies above all
  registered ones and the slot behind them still shows it: dispatch does not repeat the
  presence test of registration (`Namespaces.Device.Dispatch`, `Namespaces.StaleHandlerCalled`).
- The no-translation value answers exactly the unmapped addresses if and only if every entry
  ends below 2^32 on the DSP side (`AddressMap.SentinelExact`).
- A bounce buffer lies inside its allocation exactly when its size plus the alignment is at most
  2^32 less a page (`Bounce.InsideIff`). Beyond it the rounding to pages wraps and an empty block
  is handed out (`Bounce.NothingExample`), or the sum itself wraps (`Bounce.OutsideExample`).
- A buffer is never copied back, whatever the handler does, exactly when it was submitted with
  the read flag and no other bit, or with neither the read nor the write flag: then it is not
  shared at all (`Buffers.NeverCopiedBackIff`).
- A command through the driver leaves user memory as the command on user memory does, for every
  handler, exactly when every non-empty block is used in place or is copied and grants reading
  (`Sharing.TransparentIff`). With a handler that fully overwrites the other blocks it does so
  exactly when the blocks that are not shared are left alone (`Sharing.Transparent`).
- A command that fails leaves user memory as it was exactly when the handler left the blocks
  alone that it works on in place (`Sharing.FailureKeepsIff`).
- A command with more than 16 buffers for which the DSP has no memory is never run and answered
  as a success; user memory is then as it was exactly when the copies that were not filled happen
  to hold the user's bytes (`Sharing.NeverRanKeepsIff`).
- A freed command queue has executed everything enqueued on it, unless its worker dropped the
  last reference while requests without events were queued; those are never executed
  (`CommandQueueRuns.FreedUndrainedIff`, `CommandQueueRuns.FreedUndrained`).

The documentation says that a bounce buffer keeps up to 12 bits of alignment. The code passes
the bounds of `clamp` the wrong way round, so it always asks for an alignment of 16
(`Bounce.AlignIs16`). The documented result still holds, because allocations start at page
boundaries (`Bounce.AlignmentKept`).

## What the model assumes

- Memory is sequentially consistent; cache maintenance does nothing.
- `halt` and `reset` are implemented and loopback is off. A reset clears the DSP's registers and
  its interrupt mode; whether it clears the device interrupt latch is left open.
- Physical addresses of the pool are 32 bits wide, the pool has at least one byte and fewer than
  2^32, and ends at or below 2^32. Each live allocation is freed once.
- Time is left open: a wait can time out at any moment, and the DSP can be arbitrarily slow.
  Whether kernel memory, `malloc`, `realloc`, user copies and firmware loading succeed is a
  parameter or a choice of the run.
- A runtime suspend or resume can happen whenever no one holds the communication lock, which is
  more than the kernel does.
- A handler changes a block only within its size and after mapping it for writing; it may write
  output that is not inline without mapping it, and never writes its input.
- Each retain and each release is one step, and a thread uses a queue or an event only while it
  holds a reference.
- The kernel's `sort` returns a permutation sorted by its comparison.

## Model

| member | source | states |
|---|---|---|
| FreeLists.NormalUnique | xrp-kernel/xrp_alloc.c:135-177 | a sorted, coalesced free list is determined by the set of free addresses |
| FreeLists.ReleaseNormal | xrp-kernel/xrp_alloc.c:135-177 | a free adds exactly the block's addresses and keeps the list sorted, non-touching and in bounds |
| FreeLists.FreeOrderIrrelevant | xrp-kernel/xrp_alloc.c:123-180 | frees of the same blocks give the same list in any order |
| FreeLists.CarveSound | xrp-kernel/xrp_alloc.c:210-262 | the block cut out is aligned and in bounds, the rest stays in normal form, and together they are exactly what was free |
| FreeLists.RangeInOneBlock | xrp-kernel/xrp_alloc.c:138-169 | because the list is coalesced, a wholly free range lies inside one block |
| FreeLists.CarveFirstFit | xrp-kernel/xrp_alloc.c:210-262 | first fit succeeds whenever some aligned range is free, and at an address no higher |
| FreeLists.CarveRelease | xrp-kernel/xrp_alloc.c:182-262 | freeing what was just allocated restores the same list |
| Bits.AlignExact | xrp-kernel/xrp_alloc.c:45 | the 32-bit `ALIGN` macro rounds up exactly, except that 2^32 becomes 0 |
| Pools.AlignCheck | xrp-kernel/xrp_alloc.c:195-204 | the argument test accepts exactly zero or powers of two, and the effective alignment is then a power of two of at least a page |
| Pools.CarveExact | xrp-kernel/xrp_alloc.c:210-262 | wrapped tests and updates equal exact ones, also for a block that ends at 2^32 |
| Pools.AllocExactIff | xrp-kernel/xrp_alloc.c:204-247 | a request is decided exactly on every pool if and only if rounded size plus alignment is at most 2^32 |
| Pools.ReleaseExact | xrp-kernel/xrp_alloc.c:138-168 | the wrapped free loop equals the exact one on every pool of 32-bit addresses |
| Pools.DecidedExact | xrp-kernel/xrp_alloc.c:204-262 | on a given pool a request is decided as in exact arithmetic if and only if it is refused, is representable, or fits at address 0 |
| Pools.AllocLowestIff | xrp-kernel/xrp_alloc.c:195-270 | alloc returns the lowest aligned address whose whole rounded range is free, and fails exactly when there is none, if and only if the request is decided rightly |
| Pools.AllocAdds | xrp-kernel/xrp_alloc.c:195-293 | an allocation with nodes enough hands out exactly the lowest aligned free range, and changes nothing when there is none |
| Pools.StepValid | xrp-kernel/xrp_alloc.c:123-293 | every free of a live block, and every allocation decided rightly, keeps free, live and lost blocks a partition of the pool |
| Pools.StepValidIff | xrp-kernel/xvp_main.c:362-398 | an allocation of any size and alignment keeps the partition if and only if it is decided rightly |
| Pools.AllValidIff | xrp-kernel/xvp_main.c:362-398 | a run with requests of any size and alignment keeps the partition all along if and only if each of them is decided rightly |
| Pools.EmptyBlockLeft | xrp-kernel/xrp_alloc.c:205 | 2^32 - 1 bytes asked of a pool of one page leave an empty block in the list |
| Pools.EveryAddressOnce | xrp-kernel/xrp_alloc.c:123-348 | after any run of calls that keep the partition, every address is free or in exactly one live or lost block |
| Pools.AllFreedIsInitial | xrp-kernel/xrp_alloc.c:332-344 | once such a run has freed everything the list is the single initial block if and only if nothing was lost |
| FreeLists.CarveSplits | xrp-kernel/xrp_alloc.c:215-256 | a cut makes the list longer exactly when the bytes before and after the block are free |
| Pools.StepLoses | xrp-kernel/xrp_alloc.c:233-280 | a call loses a region exactly when it has one node and the lowest aligned free range has free bytes on both sides |
| Pools.WholeAgainIff | xrp-kernel/xrp_alloc.c:123-293 | once such a run has freed everything, the pool is whole again if and only if no call of it lost a region |
| Pools.PageLost | xrp-kernel/xrp_alloc.c:272-280 | a pool of four pages and a call that lose a page |
| Pools.InitialValid | xrp-kernel/xrp_alloc.c:319-348 | a fresh pool is one free block that covers it |
| PrivatePool.Pool.constructor | xrp-kernel/xrp_alloc.c:319-348 | a new pool's linked list shows the initial pool |
| PrivatePool.Pool.Alloc | xrp-kernel/xrp_alloc.c:182-293 | the linked list after the call shows the pool after an alloc step, with the error cases, and the record returned is off the list with one reference |
| PrivatePool.Pool.FirstFit | xrp-kernel/xrp_alloc.c:209-262 | search and cut in place equal first fit on the list of blocks |
| PrivatePool.Pool.Carve | xrp-kernel/xrp_alloc.c:216-256 | the four cuts leave the remainder of the block in its place, and say which record is left over |
| PrivatePool.Pool.Free | xrp-kernel/xrp_alloc.c:123-180 | the linked list after the call shows the pool after a free step |
| PrivatePool.Pool.Splice | xrp-kernel/xrp_alloc.c:135-177 | the three merges and the insertion in place equal release on the list of blocks |
| PrivatePool.Pool.Put | xrp-kernel/xrp_alloc.h:99-103 | one reference less, and the last one returns the block to the pool |
| ProtocolWords.TurnTests | xrp-kernel/xvp_main.c:304-307 | the masks of both sides' tests decide whose turn the shared word is |
| ProtocolWords.PublishedWord | xrp-kernel/xvp_main.c:1294-1296 | the word of a checked request is the DSP's turn, carries the namespace flag and is never the start of a handshake |
| ProtocolWords.ValidFlags | xrp-kernel/xvp_main.c:1325-1329 | flags that pass the check are zero or the namespace flag |
| ProtocolWords.AnsweredWord | xrp-dsp/xrp_dsp.c:490-500 | the answer is the host's turn, with the delivery failure bit as set |
| ProtocolControl.BootControls | xrp-kernel/xvp_main.c:1534-1570 | with every setting, each boot step meets the DSP where the handshake, or a stale word, can have brought it |
| ProtocolControl.DspBoot | xrp-dsp/xrp_dsp.c:440-477 | with every setting, each DSP step fits the host's position in the boot |
| ProtocolControl.DspWired | xrp-dsp/xrp_dsp_hw_simple.c:66-100 | in level and edge mode a blocked DSP with work has an interrupt latched or on its way |
| ProtocolAlways.NeverLostWakeup | xrp-dsp/xrp_dsp_hw_simple.c:66-100 | with every setting, no reachable state has lost a wake-up |
| ProtocolAlways.HandshakeOrdered | xrp-kernel/xvp_main.c:232-295 | with a firmware name, sync data is read only when complete and success means that it was read |
| ProtocolProof.StepInv | xrp-kernel/xvp_main.c:1313-1385 | when no request is left early, every step of host, DSP or environment keeps the protocol invariant |
| ProtocolProof.InvGood | xrp-kernel/xvp_main.c:1335-1376 | the invariant implies exclusive payload access, memory safety, true results and no lost wake-up, and with a firmware name also acceptance at most once and ordered handshakes |
| ProtocolProof.SubmitDuties | xrp-kernel/xvp_main.c:1335-1371 | each submit step meets the DSP waiting, running this request, or done with it |
| ProtocolProof.DspDuties | xrp-dsp/xrp_dsp.c:440-500 | each DSP step keeps the request published, run once or answered, and stale commands those being recovered from |
| ProtocolProof.AcceptCurrent | xrp-dsp/xrp_dsp.c:723-740 | what the DSP accepts is the request that holds the lock and is not completed, and with a firmware name one that it has not accepted before |
| ProtocolProof.KeptRuns | xrp-kernel/xvp_main.c:1345-1368 | when no request is left early, every reachable state keeps the payload exclusive, memory safe and results true |
| ProtocolProof.SafeRunsAreGood | xrp-kernel/xvp_main.c:1313-1385 | under safe settings every reachable state is good |
| ProtocolRuns.ExclusiveIff | xrp-kernel/xvp_main.c:1341-1356 | host and DSP never work on the payload at once, if and only if no request is left early |
| ProtocolRuns.MemoryIff | xrp-kernel/xvp_main.c:1373-1382 | memory goes back only when the DSP is done with it, if and only if no request is left early |
| ProtocolRuns.ResultsIff | xrp-kernel/xvp_main.c:1299-1311 | a reported success or delivery failure is the DSP's answer to that request, if and only if no request is left early |
| ProtocolHistory.ReportedIff | xrp-kernel/xvp_main.c:1335-1384 | with every setting, a request has a result exactly when the step was taken that reports it: the answer read, the device found off, the wait timed out or interrupted, the reboot over or failed |
| ProtocolHistory.AnswerReported | xrp-kernel/xvp_main.c:1310 | when no request is left early, reading the answer reports a delivery failure when the DSP failed the request, and success otherwise |
| ProtocolHistory.AnswerIsHandlers | xrp-dsp/xrp_dsp.c:612-623 | when no request is left early, a delivery failure is reported for an answered request exactly when its handler failed |
| ProtocolHistory.GivenUpMeans | xrp-kernel/xvp_main.c:1001-1031 | a request is reported as busy, or with a failed reboot, only after its wait timed out, and as interrupted only after a signal |
| ProtocolHistory.BooksAreHistory | xrp-kernel/xvp_main.c:1331-1376 | with every setting, a request is mapped, named, returned, accepted, completed, failed or flushed in the books exactly when that step was taken |
| ProtocolHistory.RunsSinceRelease | xrp-kernel/xvp_main.c:1539-1554 | with every setting, the DSP runs exactly when it was released and not halted since |
| ProtocolHistory.OffSinceFailure | xrp-kernel/xvp_main.c:1556-1567 | the device is off exactly when a failed handshake turned it off |
| ProtocolHistory.HandshakeRead | xrp-kernel/xvp_main.c:232-295 | with a firmware name, a handshake that succeeds was read by the DSP in this very attempt |
| ProtocolRuns.AnswersCome | xrp-kernel/xvp_main.c:1345-1356 | with every setting, runs that report a success and a delivery failure |
| ProtocolRuns.FindsNoDevice | xrp-kernel/xvp_main.c:1338-1339 | with every setting, a run that turns the device off and reports no device |
| ProtocolRuns.OnceIff | xrp-dsp/xrp_dsp.c:723-740 | no request is accepted twice, if and only if the settings are safe |
| ProtocolRuns.PublishedIff | xrp-dsp/xrp_dsp.c:478-488 | the DSP runs only published requests with their payload, if and only if the settings are safe |
| ProtocolRuns.OrderedIff | xrp-kernel/xvp_main.c:232-295 | the handshake is ordered if and only if there is a firmware name |
| ProtocolRuns.GoodIffSafe | xrp-kernel/xvp_main.c:1335-1376 | all reachable states are good if and only if reboot is on, a firmware name is configured and no signal ends the wait |
| ProtocolRuns.WrongAnswer | xrp-kernel/xvp_main.c:998-1016 | after a request was left early its late answer is reported for the next one |
| ProtocolRuns.AcceptedTwice | xrp-dsp/xrp_dsp.c:723-740 | without safe settings a request is accepted twice |
| ProtocolRuns.SyncedUnread | xrp-kernel/xvp_main.c:1542-1554 | without a firmware name a handshake succeeds whose data nobody read |
| ProtocolRuns.StaleWordRuns | xrp-kernel/xvp_main.c:1542-1554 | without a firmware name a stale word is run as a command |
| ProtocolRuns.UsedMemoryReturned | xrp-kernel/xvp_main.c:1014-1016 | without the reboot, or after a signal, memory in use by the DSP is returned |
| ProtocolAlways.OffForever | xrp-kernel/xvp_main.c:1338-1340 | with every setting, once the device is off nothing writes the communication area again and the DSP stays halted |
| ProtocolAlways.FailedSyncEndsOff | xrp-kernel/xvp_main.c:1556-1567 | with every setting, a failed handshake ends with the DSP halted and the device off |
| ProtocolAlways.AbandonedStaysLent | xrp-kernel/xvp_main.c:1375-1382 | with every setting, memory of a request abandoned after a failed resynchronisation stays lent in every later state |
| ProtocolRuns.AnsweredOnceIff | xrp-kernel/xvp_main.c:1355-1356 | every request reported as answered was accepted by the DSP exactly once, if and only if no request is left early |
| Lending.ObtainValidIff | xrp-kernel/xvp_main.c:362-398 | an allocation of any size and alignment keeps the live allocations exactly those that someone holds if and only if the pool decides it rightly |
| Lending.MoveValid | xrp-kernel/xrp_alloc.h:94-103 | allocations handed out are exactly those that someone holds |
| Lending.UsedMemoryReserved | xrp-kernel/xvp_main.c:1373-1382 | when no request is left early, the blocks given to a request when it was mapped are neither free nor overlapped by others whenever the DSP uses it later |
| Lending.GivenBackOnlyWhenDone | xrp-kernel/xvp_main.c:1373-1382 | when no request is left early, a request no longer holds a block it was lent only if the DSP completed the request, never saw it, or was reset |
| LendingRuns.UsesReservedIff | xrp-kernel/xvp_main.c:1373-1382 | blocks that the DSP uses are reserved in every run if and only if no request is left early |
| LendingRuns.GivesBackDoneIff | xrp-kernel/xvp_main.c:1373-1382 | lent blocks are given back only when the DSP is done with the request, in every run, if and only if no request is left early |
| Lending.LentUntilReturned | xrp-kernel/xvp_main.c:1056-1129 | with every setting, from mapping to return a request holds the same allocations |
| Lending.AbandonedNeverReused | xrp-kernel/xvp_main.c:1377-1382 | with every setting, memory of an abandoned request is never free again and never handed out again |
| LendingHistory.HeldIff | xrp-kernel/xrp_alloc.h:94-103 | a holder has a reference to a block exactly when it was given it, by a share or an allocation, and has not dropped it since |
| LendingHistory.GivenStaysReserved | xrp-kernel/xvp_main.c:824-828 | a block shared with or allocated for a holder is reserved until the holder drops it, whatever the others do |
| LendingHistory.LiveIffHeld | xrp-kernel/xrp_alloc.h:99-103 | a block is back in the pool exactly when its last reference ended |
| LendingHistory.GivenBlockInUse | xrp-kernel/xvp_main.c:824-828 | when no request is left early, a block given to a request before it was mapped is reserved whenever the DSP uses the request |
| Comm.Write | xrp-kernel/xvp_main.c:138-157 | the word-wise write stores the data padded to whole words |
| Comm.PutAt | xrp-kernel/xvp_main.c:138-157 | byte by byte: the data, zeros up to the end of its last word, and the rest as it was |
| Comm.Read | xrp-kernel/xvp_main.c:159-177 | the word-wise read returns the bytes in the area |
| HwRequest.Fill | xrp-kernel/xvp_main.c:1253-1297 | the area after the call is the encoding of the request, with addresses found by the table search |
| HwRequest.DecodeFilled | xrp-dsp/xrp_dsp.c:541-620 | for every size and buffer count the DSP decodes what the host encoded, inline or by address |
| HwRequest.DspSees | xrp-kernel/xvp_main.c:1262-1275 | the DSP sees a shared region byte for byte at its translated address |
| HwRequest.ParseImages | xrp-kernel/xrp_kernel_dsp_interface.h:55-63 | buffer descriptors survive the memory image |
| HwRequest.ReportAccess | xrp-dsp/xrp_dsp.c:629-638 | after the loop each descriptor has the access in place of its flags, and its size and address as before |
| HwRequest.Respond | xrp-dsp/xrp_dsp.c:541-670 | output, access and answer word go where the request put them; each descriptor, inline or in the table, then has its reported access |
| HwRequest.Complete | xrp-kernel/xvp_main.c:1299-1311 | the host takes exactly the DSP's answer from the area: failure bit, inline output, and for each inline descriptor the reported access with the submitted size and address |
| AddressMap.SortedAscends | xrp-kernel/xrp_address_map.c:38-50 | on disjoint entries the sort comparison is the address order |
| AddressMap.GetMapping | xrp-kernel/xrp_address_map.c:132-139 | bisection finds the covering entry, and nothing exactly when no entry covers the address |
| AddressMap.TranslateToDsp | xrp-kernel/xrp_address_map.c:141-148 | sort and bisection translate as a linear scan of the unsorted table: `k` bytes into an entry goes `k` bytes behind its DSP base, and an unmapped address to the no-translation value |
| AddressMap.EntryTranslates | xrp-kernel/xrp_address_map.c:147 | the first byte of an entry goes to its DSP base, and byte `k` to the base plus `k` |
| AddressMap.RegionTranslates | xrp-kernel/xvp_main.c:808-818 | if first and last byte fall into one entry every byte translates to consecutive DSP addresses |
| AddressMap.SentinelExact | xrp-kernel/xrp_address_map.c:145-147 | the no-translation value means unmapped if and only if every entry ends below 2^32 |
| AddressMap.DefaultIsIdentity | xrp-kernel/xrp_address_map.c:113-117 | the default table is the identity below 2^32 - 1 |
| Bounce.CopyUserPhys | xrp-kernel/xvp_main.c:555-618 | the page-by-page copy succeeds exactly when every chunk can be mapped and none faults, and then equals one flat copy; otherwise a proper prefix was copied and nothing outside the range changed, in both directions |
| Bounce.CopyIn | xrp-kernel/xvp_main.c:567-596 | the copy into physical memory, page by page |
| Bounce.CopyOut | xrp-kernel/xvp_main.c:567-593 | the copy out of physical memory, page by page |
| Bounce.AlignIs16 | xrp-kernel/xvp_main.c:641 | the alignment asked for is 16 for every address |
| Bounce.PlaceIs | xrp-kernel/xvp_main.c:651-653 | the copy starts at the allocation plus the address modulo the alignment |
| Bounce.AlignmentKept | README:375-389 | the low four bits are kept, and low zero bits are kept up to twelve |
| Bounce.InsideIff | xrp-kernel/xvp_main.c:646-653 | the copy lies in its allocation if and only if size plus alignment is at most 2^32 less a page |
| Bounce.NothingExample | xrp-kernel/xrp_alloc.c:205 | a pool of one page from which 2^32 - 17 bytes are shared hands out an empty block |
| Bounce.OutsideExample | xrp-kernel/xvp_main.c:646-653 | a pool of one page from which 2^32 - 1 bytes are shared |
| Sharing.DriverLeaves | xrp-kernel/xvp_main.c:1086-1129 | what reaches user memory: blocks used in place always; of the copies, after success, the output and the buffers that a granted call asked to write; nothing changes outside the blocks |
| Sharing.ReachesIff | xrp-kernel/xvp_main.c:939-950 | this is what unsharing with the reported flags brings about |
| Sharing.Transparent | xrp-kernel/xvp_main.c:1214-1232 | for blocks that are readable or fully overwritten, a command through the driver leaves user memory as the command on user memory does, if and only if the blocks that are not shared are left alone |
| Sharing.TransparentIff | xrp-kernel/xvp_main.c:939-965 | every successful command is transparent if and only if every non-empty block is used in place or is copied and grants reading |
| Sharing.FailureKeepsIff | xrp-kernel/xvp_main.c:1056-1078 | a failed command keeps user memory if and only if the handler left the blocks alone that it works on in place |
| Sharing.NeverRanKeepsIff | xrp-dsp/xrp_dsp.c:579-585 | a command that was not run for want of memory but answered as a success keeps user memory if and only if the unfilled copies hold the user's bytes |
| Copies.PhysicalRun | xrp-kernel/xvp_main.c:635-671 | with places that do not overlap, a command through one physical memory is the command on separate copies |
| Copies.AllocatedForCopy | xrp-kernel/xvp_main.c:646-653 | the allocation asked for holds the copy |
| Copies.PooledRun | xrp-kernel/xvp_main.c:635-671 | with copies in live allocations of a valid pool a command is the command on separate copies, and no other allocation sees a byte change |
| Buffers.Buffer.Map | xrp-dsp/xrp_dsp.c:303-317 | a mapping is inside the buffer and within the granted access, and is refused otherwise |
| Buffers.Buffer.Unmap | xrp-dsp/xrp_dsp.c:319-329 | an unmap of an address in the buffer undoes the counts and keeps the recorded access |
| Buffers.Recorded | xrp-dsp/xrp_dsp.c:306-311 | the access recorded over any calls stays within the granted access |
| Buffers.RecordedHas | xrp-dsp/xrp_dsp.c:311 | the access of every granted call stays recorded |
| Buffers.RecordedLeast | xrp-dsp/xrp_dsp.c:311 | nothing is recorded that no granted call asked for |
| Buffers.ReportedIffAsked | xrp-dsp/xrp_dsp.c:629-638 | reading or writing is reported exactly when some granted call asked for it |
| Buffers.NeverCopiedBackIff | xrp-kernel/xvp_main.c:1214-1232 | a buffer is never copied back if and only if its flags are the read flag alone or have neither the read nor the write bit |
| Namespaces.OrderPair | xrp-dsp/xrp_dsp.c:151-154 | `memcmp` on identifiers is zero exactly for equal ones and changes sign when swapped |
| Namespaces.Device.Find | xrp-dsp/xrp_dsp.c:213-242 | the bisection ends at the place of the identifier or where it has to be inserted |
| Namespaces.Device.Register | xrp-dsp/xrp_dsp.c:672-694 | registration adds to the map and fails exactly on a duplicate or a failed growth |
| Namespaces.Device.Insert | xrp-dsp/xrp_dsp.c:250-270 | growth and move make room at the place and keep the order of the rest |
| Namespaces.Device.Unregister | xrp-dsp/xrp_dsp.c:696-709 | removal succeeds exactly when the identifier is registered |
| Namespaces.Device.Remove | xrp-dsp/xrp_dsp.c:272-280 | the move closes the gap and leaves the last slot as it was |
| Namespaces.Device.Dispatch | xrp-dsp/xrp_dsp.c:555-565 | a registered identifier gets its current handler; exactly when an unregistered one gets a stale one |
| Namespaces.StaleHandlerCalled | xrp-dsp/xrp_dsp.c:555-559 | a handler is still called after its namespace was unregistered |
| RequestQueue.Queue.Enqueue | xrp-linux-native/xrp_linux_native.c:603-616 | the request goes to the end, and waiters are woken exactly when the queue was empty |
| RequestQueue.Queue.Dequeue | xrp-linux-native/xrp_linux_native.c:618-629 | the oldest request comes out, and head and tail are null together |
| CommandQueueProof.EveryRun | xrp-linux-native/xrp_linux_native.c:683-723 | in every run: first in first out, events signalled exactly when executed, completion covers all earlier requests, counts equal holders, objects freed exactly at zero, and nobody touches a freed queue or refers to it |
| CommandQueueProof.StepInv | xrp-linux-native/xrp_linux_native.c:575-601 | every retain, release, enqueue, join and worker step keeps the invariant |
| CommandQueueProof.CountsDrop | xrp-linux-native/xrp_linux_native.c:733-747 | the worker's release keeps counts equal to holders, also when it frees event and queue |
| CommandQueueProof.JoinedQueueDrained | xrp-linux-native/xrp_linux_native.c:584-591 | a queue freed after joining its worker has executed everything that was enqueued |
| CommandQueueRuns.FreedUndrainedIff | xrp-linux-native/xrp_linux_native.c:575-601 | a freed queue has unexecuted requests if and only if its worker dropped the last reference while requests were queued; these have no events and are never executed |
| CommandQueueRuns.EventsDrain | xrp-linux-native/xrp_linux_native.c:683-723 | a queue whose requests all have events is drained before it is freed |
| CommandQueueRuns.FreedUndrained | xrp-linux-native/xrp_linux_native.c:589-590 | a run that frees a queue with a request in it |
| CommandQueueHistory.UsersCounted | xrp-linux-native/xrp_linux_native.c:570-601 | while the queue is open the applications hold one reference, one more for every retain and one less for every release |
| CommandQueueHistory.EventUsersCounted | xrp-linux-native/xrp_linux_native.c:728-747 | the same for every live event |
| CommandQueueHistory.EventIffAsked | xrp-linux-native/xrp_linux_native.c:777-830 | a request has an event exactly when it was enqueued with one |
| CommandQueueHistory.QueueOrder | xrp-linux-native/xrp_linux_native.c:603-629 | requests are queued and executed in the order of the pushes |

## Left out

- Command contents and handlers: a handler is an arbitrary function of buffer contents.
- Cache maintenance and memory barriers.
- Host-side interrupt delivery: a wait on the host can end at any time, so no wake-up is claimed there.
- The busy list between allocation and `mmap`, VMA lookup, page pinning and `follow_pfn`.
- Firmware loading beyond success or failure, probe, remove and power management beyond suspend and resume.
- The CMA pool, the hardware-specific driver beyond halt, reset, release and interrupts, and the fast simulation library.
- Device tree parsing of address ranges; the table is taken as given.
- The ACPI path that replaces the entry of the default address table.
- Buffer groups and their reference counts in user space and on the DSP.
- Info accessors, status setters, debug output and examples.
- Overlapping user buffers: the results on whole commands are about disjoint blocks.
- Whether a block is used in place or copied: any choice that the share test allows.
