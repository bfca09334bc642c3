# Verified model of the kernel driver exercises

Dafny models of the parts of the repository that carry algorithms or concurrency, with proofs of
what they do over every input and every run. `dafny verify dfyconfig.toml` checks everything.

Operations that work in place on an object are classes with methods proved against a
specification; protocols whose steps interleave are step functions over a state value. A run of a
protocol is *any* sequence of actions, an action that is not enabled leaves the state alone, so a
statement about all action sequences is a statement about all interleavings. Where a state carries
history, a theorem says what that history is in terms of the actions alone.

| file | what it describes |
|---|---|
| `BlkRing.dfy`, `BlkRingProtocol.dfy`, `BlkRingHistory.dfy`, `BlkRingProgress.dfy`, `BlkRingPoll.dfy` | the mmap'd byte ring: producer under a spinlock, lock-free consumer, byte by byte and snapshot by snapshot; what a run did in terms of the calls made; progress; poll and wake-up on top |
| `FakeBell.dfy`, `BellDriver.dfy` | the level-triggered device and its threaded one-shot interrupt driver |
| `DropRing.dfy`, `RingBuffers.dfy` | the two drop-oldest rings, their common specification, the batch reader |
| `SensorChain.dfy`, `SensorProgress.dfy`, `SensorReaders.dfy`, `SensorDelivery.dfy` | device event to delivered sample, with the readers that sleep and are woken; progress; any number of reading processes; what each read returns, end to end |
| `WakeProtocol.dfy` | poll and wake-up on a boolean condition, with the two orders it depends on as parameters |
| `BlockStore.dfy` | segmented requests of the RAM disk |
| `CharMessage.dfy`, `ChunkedRead.dfy`, `CharProtocol.dfy`, `CharHistory.dfy` | message buffer with a NUL terminator, offset-based reads; several processes at once, access by access; what a run did in terms of the calls made, and progress |
| `OpenProtocol.dfy`, `MinorTable.dfy` | single-writer open with a reference count, minor allocation |
| `RingIndex.dfy`, `Word.dfy`, `Wrappers.dfy` | circular index arithmetic, fixed-width counters, optional values |

The main results, in order of difficulty:

1. *Byte ring.* In every interleaving, emitted bytes followed by waiting bytes are made of the
   arguments of the calls made, each cut to the room there was when it read the tail, and the
   overflow field counts the cuts (`StreamOfArguments`, `OutputIsPrefix`); every micro-step refines
   one step of an atomic FIFO (`StepRefinesFifo`); stale snapshots are only ever too cautious
   (`SnapshotsAreConservative`, `ProducerSparesUnread`); every call and every drain comes to its
   end (`EveryCallFinishes`, `EveryDrainFinishes`), a drain after at most two passes per published
   head (`DrainIsBounded`).
2. *Interrupts.* The probe discards what is pending and nothing else (`ProbeDiscards`,
   `BaseIsEventsBeforeAck`); every event the device raises after that is counted exactly once
   (`EveryRaisedEventIsCounted`), by a thread run that read that event's own number
   (`ThreadReadsItsOwnEvent`), within seven driver steps whatever the timer does
   (`PendingEventIsCounted`). This holds if and only if the interrupt is requested with
   IRQF_ONESHOT (`CountsOnceIffOneshot`, `EntriesMatchIffOneshot`); without it the handler can be
   re-entered without bound (`StormWithoutOneshot`).
3. *Rings and samples.* Two independently written rings give the same results and contents on
   every operation sequence (`Replay`); every entry has exactly one fate (`EveryEntryHasOneFate`);
   the batch reader never meets an empty ring (`ReadBatch`); samples arrive in order and gaps count
   what was overwritten (`GapCountsOverwritten`). A pending device event becomes the result of the
   process that sleeps for it within ten driver steps and its own two (`SleeperGetsSample`). Reads
   past their wait all get a sample if and only if there are no more of them than samples
   (`PassedReadsSucceedIff`), and no read ever returns -EFAULT if and only if at most one process
   reads (`FaultFreeIffAlone`).
4. *Wake-ups.* On the byte ring and on the sample ring no poller ever sleeps on data with no
   wake-up due, and the wake-up makes it return (`NoPollerIsForgotten`, `SleeperReturns`,
   `NoReaderIsForgotten`, `PendingEventReachesReaders`); in general none is lost if and only if
   pollers register before testing and writers publish before waking (`NoLostWakeup`).
5. *Message under concurrency.* Whatever the interleaving, get-message returns the argument of the
   last set-message that ended, cut to 80 characters, unless a plain write stored a byte since that
   set began (`GetReturnsArgument`); it always returns a message that existed at one moment if and
   only if nobody uses plain write (`WholeIffNoPlainWrites`, torn run in `PlainWriteTears`); every
   call ends within 162 accesses of its own (`EveryCallEnds`).
6. *Single writer.* An open is refused exactly if it is made for writing while another file holds
   the role, and holds the role exactly if it was made for writing (`RefusedIffTaken`,
   `RoleMatchesRequest`); closing undoes opening (`CloseUndoesOpen`).

Where code and expectation part: setting an empty message is silently ignored
(`EmptyMessageIsIgnored`, exact condition in `SetIsKeptIff`); the config holder's second write
through the same file, or its first after a read, changes nothing (`SecondWriteIsIgnored`, exact
condition in `WriteTakesEffectIff`); a reader past the end of a shorter message goes on in the rest
of the longer one (`ReadContinuesInOldMessage`); a positioned read past byte 80 of the message leaves the
buffer (`PositionedReadCanLeave`, while plain reads never do, `SequentialReadsStayInside`); a
blocking sensor read can return -EFAULT for want of a sample (`TwoReadersOneSample`); the message
flag does not cover plain writes (`PlainWriteTears`); and the
sample value stops following the running number once its signed counter overflows (exact condition
in `SampleIsRunningNumberIff`).

## Model

| member | source | states |
|---|---|---|
| `BlkRing.FreeSpace` | practice/myblkdev/myblkdev.c:56-59 | both branches of the free-space computation leave exactly one cell unused |
| `BlkRing.Ring.CopyAround` | practice/myblkdev/myblkdev.c:67-73 | the one or two memcpys put byte j at the j-th cell after head, across the wrap, and touch no other cell |
| `BlkRing.Ring.ProduceData` | practice/myblkdev/myblkdev.c:45-80 | appends exactly the first min(len, free) bytes to the queue, keeps at most size - 1 bytes, leaves unread cells unchanged, bumps the 32-bit overflow counter iff it truncated |
| `BlkRing.Ring.ConsumeRing` | practice/myblkdev/app/main.c:29-47 | run alone, writes out exactly the queue, leaves it empty, in exactly as many passes as the wrap requires: none, one or two |
| `BlkRingProtocol.RunKeepsInv` | practice/myblkdev/myblkdev.c:45-80 | after any interleaving of micro-steps on a ring of any size all indices are in range and the whole invariant (snapshots, streams, overflow, drain) holds |
| `BlkRingProtocol.OutputIsPrefix` | practice/myblkdev/app/main.c:29-47 | in every interleaving the emitted bytes followed by the waiting bytes are the concatenation of all accepted prefixes; never more than size - 1 bytes wait |
| `BlkRingProtocol.StepRefinesFifo` | practice/myblkdev/myblkdev.c:66-75 | every micro-step is a step of an atomic FIFO: only the head update appends, all at once; only an emitted byte leaves, from the front |
| `BlkRingProtocol.SnapshotsAreConservative` | practice/myblkdev/myblkdev.c:53-64 | a stale tail never overestimates the room; the consumer's else branch always has tail strictly beyond head |
| `BlkRingProtocol.ProducerSparesUnread` | practice/myblkdev/myblkdev.c:66-75 | no producer step of any run changes an unread cell or empties a non-empty ring |
| `BlkRingProtocol.DrainIsBounded` | practice/myblkdev/app/main.c:31-46 | with k publishes during a drain, at most 2(k + 1) loop passes |
| `BlkRingProtocol.DrainLeavesNothing` | practice/myblkdev/app/main.c:31 | the loop is left only when everything accepted has been emitted |
| `BlkRingProtocol.CallsTakeWhatFits` | practice/myblkdev/myblkdev.c:56-64 | every finished call accepted min(len, room the ring really had when the tail was read) bytes |
| `BlkRingProtocol.OverflowCountsTruncations` | practice/myblkdev/myblkdev.c:61-64 | the overflow field is the number of truncated calls modulo 2^32 |
| `BlkRingProtocol.OnlyPublishRaises` | practice/myblkdev/myblkdev.c:74-79 | the poll condition becomes true by the head update and by nothing else, and by every head update |
| `BlkRingHistory.NoCallIsAltered` | practice/myblkdev/myblkdev.c:45-52 | the finished calls in the log and the one in progress are the calls made, in order, each with the argument it was made with |
| `BlkRingHistory.RoomIsAsRead` | practice/myblkdev/myblkdev.c:53-59 | the room logged with each call is the room the ring had when that call read the tail |
| `BlkRingHistory.StreamOfArguments` | practice/myblkdev/myblkdev.c:56-75 | from the actions alone: emitted and waiting bytes are the calls' arguments, each cut to the room at its tail read; the overflow field is the number of cut calls modulo 2^32 |
| `BlkRingHistory.PassesAreCounted` | practice/myblkdev/app/main.c:31-46 | the pass count is the number of loop bodies completed since the drain was entered |
| `BlkRingHistory.DrainIsBoundedByHeads` | practice/myblkdev/app/main.c:31-46 | those are at most twice the head updates since the drain was entered, plus two |
| `BlkRingProgress.EveryCallFinishes` | practice/myblkdev/myblkdev.c:45-80 | every call made is finished and logged with its argument within length + 4 producer turns, whatever the consumer does between them |
| `BlkRingProgress.EveryDrainFinishes` | practice/myblkdev/app/main.c:29-47 | every drain ends, with everything accepted written out, within size + 9 consumer turns, if no head is published meanwhile |
| `BlkRingPoll.RunKeepsInv` | practice/myblkdev/myblkdev.c:127-135 | the ring protocol with any number of pollers keeps: unread bytes and a poller committed to sleep imply a wake-up due |
| `BlkRingPoll.NoPollerIsForgotten` | practice/myblkdev/myblkdev.c:74-79 | in every run no poller sleeps while head != tail unless a wake-up is due, and the next wake-up gets it up |
| `BlkRingPoll.PollSleepsIffEmpty` | practice/myblkdev/myblkdev.c:127-135 | a whole poll in any run returns at once if there are unread bytes and sleeps if there are none |
| `BlkRingPoll.SleeperReturns` | practice/myblkdev/myblkdev.c:74-79 | whoever sleeps on unread bytes has a wake-up due and returns after it |
| `BlkRingPoll.OneWakeUpPerHead` | practice/myblkdev/myblkdev.c:74-79 | the wake-ups owed are the head updates made less the wake-ups issued |
| `RingIndex.Advance` | practice/myfakebell/ringbuf.h:33 | `(i + k) % n` is the cell k places on |
| `FakeBell.Bell.WriteReg` | myirq/README:99-143 | register writes of any offset, value and width; the level contract survives each |
| `FakeBell.Bell.TimerCallback` | myirq/README:153-180 | a tick raises a new event only if none is pending; the level contract survives |
| `FakeBell.ReadsDescribeRun` | myirq/README:61-97 | after any run the guest reads equal status and irq-status bits, 1 iff a raised event is not yet cleared; the count register is the events modulo 2^32; the ack register reads 0 |
| `FakeBell.EnableIsLastWritten` | myirq/README:99-113 | the enable register reads the low bit of the last 4-byte write to it, 0 if there was none; the line is high iff that is 1 and an event raised is not cleared |
| `FakeBell.EveryEventAckedOnce` | myirq/README:116-176 | after any run of ticks and writes: line high iff enabled and pending, active bit equals pending bit, events raised = acknowledgements that cleared one + pending, counter = events modulo 2^32 |
| `BellDriver.RunKeepsInv` | myirq/mybell.c:9-47 | every interleaving of probe, remove, interrupt core, thread and timer keeps the invariant: masked exactly while serviced, what is serviced stays pending until the ack |
| `BellDriver.SystemRunIsDeviceRun` | myirq/mybell.c:20-47 | a run of the system is a run of the device under the ticks and register writes issued; the events are those it raised |
| `BellDriver.ProbeDiscards` | myirq/mybell.c:88-89 | the probe's acknowledgement clears whatever was pending and lowers the line; every event up to then is discarded |
| `BellDriver.BaseIsEventsBeforeAck` | myirq/mybell.c:88-89 | the events discarded are those raised before the first probe acknowledgement of the run |
| `BellDriver.EveryEventCountedOnce` | myirq/mybell.c:20-47 | event_count = discarded at probe + irq_count + (1 if pending and uncounted), modulo 2^32, and exactly on the unbounded counts |
| `BellDriver.EveryRaisedEventIsCounted` | myirq/mybell.c:20-47 | events the device raised = those raised before the probe acknowledgement + thread runs + (1 if pending and uncounted) |
| `BellDriver.ThreadReadsItsOwnEvent` | myirq/mybell.c:28-40 | the k-th thread run read status active, pending set, and the number of the (k+1)-st event after the probe ack |
| `BellDriver.NothingArisesDuringService` | myirq/mybell.c:9-18 | from handler entry to ack the timer changes nothing, and the handler's IRQ_NONE branch is never taken |
| `BellDriver.PendingEventIsCounted` | myirq/mybell.c:88-97 | on an enabled device a pending event is counted within seven driver steps, with any ticks in between |
| `BellDriver.EntriesMatchIffOneshot` | myirq/mybell.c:90-92 | hard handler entries = thread runs + the one in service, in every run, iff IRQF_ONESHOT is set |
| `BellDriver.StormWithoutOneshot` | myirq/mybell.c:90-92 | without the flag one event lets the handler be entered any number of times with no thread run |
| `BellDriver.CountsOnceIffOneshot` | myirq/mybell.c:20-47 | exactly-once counting holds in every run iff IRQF_ONESHOT is set |
| `BellDriver.DoubleCountWithoutOneshot` | myirq/mybell.c:28-40 | a run without the flag that counts one event twice, the second thread run reading nothing pending |
| `BellDriver.RemoveSilences` | myirq/mybell.c:108-113 | remove on an enabled driver disables the device and lowers the line at once, and leaves a thread run in progress alone |
| `BellDriver.QuietAfterRemove` | myirq/mybell.c:108-113 | after remove has disabled the device the line is low and the handler is never entered again |
| `DropRing.EveryEntryHasOneFate` | practice/myfakebell/ringbuf.h:28-62 | pushes = delivered + queued + dropped; delivered records are the pushed entries at rising positions; the positions passed over are exactly the dropped ones |
| `RingBuffers.RingBuf.Push` | practice/myfakebell/ringbuf.h:28-48 | append, drop the oldest if full, count the drop; writes only the slot at head |
| `RingBuffers.RingBuf.Pop` | practice/myfakebell/ringbuf.h:50-62 | removes and returns the oldest entry, or reports empty and changes nothing |
| `RingBuffers.RingBuf.GetSize` | practice/myfakebell/ringbuf.h:64-71 | the number of queued entries |
| `RingBuffers.RingBuf.ResetLost` | practice/myfakebell/ringbuf.h:82-87 | zeroes the drop count, keeps the contents |
| `RingBuffers.SensorRing.Push` | practice/mysensor/mysensor.c:38-53 | the same append-and-drop, over two parallel arrays |
| `RingBuffers.SensorRing.Pop` | practice/mysensor/mysensor.c:55-69 | the same pop |
| `RingBuffers.SensorRing.IsEmpty` | practice/mysensor/mysensor.c:71-77 | empty iff nothing is queued |
| `RingBuffers.Replay` | practice/myfakebell/ringbuf.h:31-46 | from any equal contents and on any operation sequence both rings return the same results and keep equal contents, those of the specification run; the drop count grows by the entries dropped; rings equal slot for slot stay so |
| `RingBuffers.ReplayFresh` | practice/mysensor/mysensor.c:30-36 | two freshly made rings of equal capacity satisfy all of this and are equal slot for slot after any operation sequence |
| `RingBuffers.ReadBatch` | practice/myfakebell/myfakebell.c:104-141 | sole reader, any arrivals between its pops: exactly min(size when it looked, count / 16) whole records, those of the specification run in push order; -EAGAIN and interrupted waits leave the ring empty |
| `SensorChain.RunKeepsInv` | practice/mysensor/mysensor.c:161-181 | in every run one sample is pushed per thread run and the ring history is consistent |
| `SensorChain.EveryEventIsPushedOnce` | practice/mysensor/mysensor.c:161-181 | events = samples pushed + (1 if pending), one sample per thread run; the k-th sample comes from event k + 1 and has value k % 100 before the counter overflows |
| `SensorChain.NoReaderIsForgotten` | practice/mysensor/mysensor.c:133-144 | no poller or blocked reader sleeps on a non-empty ring unless the thread still owes a wake-up, which it issues before it returns |
| `SensorProgress.PendingEventReachesReaders` | practice/mysensor/mysensor.c:152-182 | on an enabled device, from every reachable state, a pending event is pushed as the next sample and nobody on the queue is asleep, at some moment within ten driver steps, with any ticks, reads and polls in between |
| `SensorReaders.ReadersRefineChain` | practice/mysensor/mysensor.c:105-131 | whatever any number of reading processes do, device, ring and wait queue go through a run of the chain |
| `SensorReaders.ReadersReturnRecords` | practice/mysensor/mysensor.c:113-123 | the samples the processes return, in order, are exactly the records popped from the ring |
| `SensorDelivery.AtOnceReturns` | practice/mysensor/mysensor.c:113-115 | a non-blocking read takes the oldest sample, or returns -EAGAIN exactly if there is none |
| `SensorDelivery.LookReturns` | practice/mysensor/mysensor.c:117-123 | a blocking read of a non-empty ring takes the oldest sample |
| `SensorDelivery.LookSleeps` | practice/mysensor/mysensor.c:117 | a blocking read of an empty ring queues up and sleeps |
| `SensorDelivery.WaitReturns` | practice/mysensor/mysensor.c:117-123 | a waiting process that is up and tests a non-empty ring takes the oldest sample |
| `SensorDelivery.InterruptReturns` | practice/mysensor/mysensor.c:117-119 | a waiting process that gives up after a failing test returns the interruption and leaves the queue |
| `SensorDelivery.SignalReturns` | practice/mysensor/mysensor.c:117-119 | a signal gets a sleeping process up, and with the ring still empty its read returns the interruption |
| `SensorDelivery.ReadersLeaveQueue` | practice/mysensor/mysensor.c:117 | in every run a process not in a blocking read is not on the queue |
| `SensorDelivery.SleeperGetsSample` | practice/mysensor/mysensor.c:105-182 | end to end, in every run: while one process sleeps in a read and the others do not read, a pending event is pushed and wakes it within ten driver turns, and its own two steps return the oldest sample, that of the event if the ring was empty |
| `SensorReaders.PassedReadsSucceedIff` | practice/mysensor/mysensor.c:117-123 | in every state, all reads past their wait will return a sample whatever else happens iff there are no more of them than queued samples |
| `SensorReaders.TwoReadersOneSample` | practice/mysensor/mysensor.c:121-123 | two waiting processes and one sample: one gets it, the other -EFAULT |
| `SensorReaders.FaultFreeIffAlone` | practice/mysensor/mysensor.c:113-123 | in every run of n reading processes no read returns -EFAULT, iff n is at most 1 |
| `SensorChain.SampleIsRunningNumberIff` | practice/mysensor/mysensor.c:163-174 | for every k the value is k % 100 iff the signed counter has wrapped a multiple of 25 times and is not negative (or k is a multiple of 100): always before the first overflow, never in the 2^32 samples after it |
| `SensorChain.BufferIsWindow` | practice/mysensor/mysensor.c:38-53 | the ring holds a contiguous window of the sample sequence, so its values are pairwise distinct |
| `SensorChain.HoldsLastHundred` | practice/mysensor/mysensor.c:38-53 | with nothing read, the ring holds the last min(pushed, 100) samples |
| `SensorChain.GapCountsOverwritten` | practice/mysensor/mysensor.c:46-51 | the gap between two consecutive reads is the number of overwritten samples modulo 100, and everything skipped was dropped |
| `WakeProtocol.NoLostWakeup` | myproject/driver/src/mysensordrv.c:246-253 | for any number of pollers and writers of a flag such as the alarm, no poller ever sleeps on a true condition with no wake-up to come, iff pollers register before testing and writers publish before waking |
| `WakeProtocol.RunKeepsInv` | myproject/driver/src/mysensordrv.c:213-219 | with both orders right, also when the writer re-tests the condition and skips the wake-up, a committed poller and a true condition imply a wake-up to come |
| `WakeProtocol.PollSleepsIffFalse` | myproject/driver/src/mysensordrv.c:246-253 | a whole poll in any run returns at once on a true condition and sleeps on a false one |
| `WakeProtocol.SleeperReturns` | myproject/driver/src/mysensordrv.c:213-219 | whoever sleeps on a true condition has a wake-up to come and returns after it |
| `WakeProtocol.RousedReturns` | myproject/driver/src/mysensordrv.c:246-253 | a signal or time-out gets a sleeper up, it tests once more and returns either way |
| `WakeProtocol.SkippedWakeUp` | myproject/driver/src/mysensordrv.c:213-219 | a publication raises the condition; if it is lowered before the re-test the writer is done without a wake-up |
| `BlockStore.FittingIsLongest` | myblkdev/blk.c:31-38 | the segments transferred are the longest prefix of whole segments that fits, both directions |
| `BlockStore.Store.QueueRequest` | myblkdev/blk.c:22-48 | OK iff every segment fits; a write lays the transferred bytes down in one piece and changes nothing else; a read fills exactly the transferred buffers |
| `BlockStore.SectorFitsIff` | myblkdev/blk.c:9-11 | a 512-byte request at a sector succeeds iff the sector is below 1024 |
| `BlockStore.SectorsApart` | myblkdev/blk.c:25 | writing one sector puts its bytes there and leaves every other sector alone |
| `BlockStore.SegmentationIsInvisible` | myblkdev/blk.c:27-45 | success depends only on start and total length, and two successful writes of the same bytes leave the same memory however they were cut |
| `BlockStore.RoundTrip` | myblkdev/blk.c:40-44 | what was written comes back through any other segmentation; bytes outside the span are untouched |
| `CharMessage.Device.Read` | chardev/ioctl/charioctl.c:48-77 | inside the text, the next chunk of the message; at its end the offset is reset; leaves the buffer iff the offset is past 80 |
| `CharMessage.ReadTakesRun` | chardev/ioctl/charioctl.c:55-73 | at any offset up to 80 a read returns the bytes that stand there up to the next zero, or as many as asked for |
| `CharMessage.ReadContinuesInOldMessage` | chardev/ioctl/charioctl.c:55-73 | after a shorter message is set, a reader past its end goes on in the rest of the longer one |
| `CharMessage.Device.NthByte` | chardev/ioctl/charioctl.c:129-132 | the message's byte, zero at its end; leaves the buffer iff the index is past 80 |
| `CharMessage.SequentialReadsStayInside` | chardev/ioctl/charioctl.c:55-73 | reads from the start, with any lengths and any rewriting of the message in between, never leave the buffer |
| `CharMessage.PositionedReadCanLeave` | chardev/ioctl/charioctl.c:55 | a read at offset 81 does |
| `CharMessage.Device.Write` | chardev/ioctl/charioctl.c:81-91 | overwrites the first min(length, 80) bytes, keeps the rest and the zero at byte 80 |
| `CharMessage.Device.Measure` | chardev/ioctl/charioctl.c:111-114 | the sizing loop counts the terminator, stops at 80, and gives 0 for an empty string |
| `CharMessage.Device.SetMessage` | chardev/ioctl/charioctl.c:101-118 | afterwards the message is the first min(n, 80) characters, for any earlier contents and n > 0; busy means no effect |
| `CharMessage.Device.GetMessage` | chardev/ioctl/charioctl.c:119-128 | returns exactly the message |
| `CharMessage.Device.ReadByteByByte` | chardev/ioctl/usrspace/chardrv_ioctl_usersapce.c:41-58 | asking for bytes 0, 1, ... until zero gives the message |
| `CharMessage.SetIsKeptIff` | chardev/ioctl/charioctl.c:106-118 | set then get returns the string iff it has 1 to 80 characters, or is empty and the message was empty |
| `CharMessage.EmptyMessageIsIgnored` | chardev/ioctl/charioctl.c:112-115 | a message that setting the empty string does not replace |
| `CharProtocol.RunKeepsInv` | chardev/ioctl/charioctl.c:101-103 | in every interleaving of accesses at most one ioctl is in progress, the flag says whether one is, byte 80 stays zero, and what each call has done so far matches the string last set |
| `CharProtocol.GetReturnsLastSet` | chardev/ioctl/charioctl.c:106-128 | every finished get with no plain store since the last set began returned the string recorded as set (tied to the calls' arguments by `HistoryIsExact`) |
| `CharProtocol.IoctlsAreAtomic` | chardev/ioctl/charioctl.c:101-136 | without plain writes every finished get returned the string recorded as set |
| `CharProtocol.WholeIffNoPlainWrites` | chardev/ioctl/charioctl.c:81-91 | in every run every get returns what was the message at one moment while it ran, iff nobody uses plain write |
| `CharProtocol.PlainWriteTears` | chardev/ioctl/charioctl.c:86-87 | set "AA", then a plain write of "BB" during a get: the get returns "AB" |
| `CharHistory.HistoryIsExact` | chardev/ioctl/charioctl.c:106-118 | from the actions alone: the recorded last string is the argument of the last non-empty set that ended, cut to 80; the recorded stain says whether a plain write stored a byte since the last such set began |
| `CharHistory.GetReturnsArgument` | chardev/ioctl/charioctl.c:106-128 | a get that finishes with no plain store since the last set began returns the argument of the last set that ended, cut to 80 |
| `CharHistory.IoctlsReturnArgument` | chardev/ioctl/charioctl.c:101-136 | without plain writes every get that finishes returns that argument |
| `CharHistory.UndisturbedGetReturnsMessage` | chardev/ioctl/charioctl.c:119-128 | whatever was set or written before, a get during which no plain write stores a byte returns the message there was when it was let in |
| `CharHistory.EveryCallEnds` | chardev/ioctl/charioctl.c:81-136 | every call ends within 162 accesses of its own, whatever the others do, so the flag never stays up |
| `CharHistory.SetAlone` | chardev/ioctl/charioctl.c:106-118 | a set nobody disturbs stores exactly its string and terminator, as in the sequential description |
| `CharHistory.WriteAlone` | chardev/ioctl/charioctl.c:81-91 | a plain write nobody disturbs overwrites the first min(length, 80) bytes, flag or no flag |
| `ChunkedRead.CharDeviceRepeats` | chardev/rdonly/chardev.c:102-130 | for any read sizes the bytes returned are the text once per reported end, then the part up to the offset |
| `ChunkedRead.ConfigFile.Read` | practice/myconfig/myconfig.c:87-105 | returns the next chunk and advances; nothing at or past the end |
| `ChunkedRead.ConfigDeviceDeliversOnce` | practice/myconfig/myconfig.c:94-104 | the bytes returned are the first min(sum of sizes, length) bytes of the text |
| `ChunkedRead.CharEndIsWholeText` | chardev/rdonly/chardev.c:110-115 | with positive sizes the first empty read comes after the whole text, and the offset is back at the start |
| `ChunkedRead.ConfigEndIsWholeText` | practice/myconfig/myconfig.c:94-95 | with positive sizes the first empty read comes after the whole text, and every later read is empty too |
| `OpenProtocol.Run` | practice/mydevice/mydevice.c:71-117 | the role and count invariant holds after every interleaving of opens, releases and writes |
| `OpenProtocol.OneWriterExactCount` | practice/mydevice/mydevice.c:36-51 | at most one config holder, the flag set iff there is one, reference = contexts between addref and relref, the already-zero branch unreachable |
| `OpenProtocol.RefusedIffTaken` | practice/mydevice/mydevice.c:82-97 | with any steps of other files in between, an open is refused iff it was made for writing while another context holds the role; otherwise it is admitted, with the role iff made for writing |
| `OpenProtocol.OpenOutcome` | practice/mydevice/mydevice.c:71-97 | the same for a whole call from its arguments |
| `OpenProtocol.RoleMatchesRequest` | practice/mydevice/mydevice.c:82-89 | a file holds the role, from admission until it is given back, iff it was opened for writing |
| `OpenProtocol.CloseUndoesOpen` | practice/mydevice/mydevice.c:71-117 | in every reachable state open then close leaves the device as it was, with one wake-up iff nobody else uses it; a refused open leaves no trace |
| `OpenProtocol.MalformedChangesNothing` | practice/mydevice/mydevice.c:126-175 | too short a read, too long a write, or one without a number changes nothing |
| `OpenProtocol.OnlyTheHolderWrites` | practice/mydevice/mydevice.c:159-178 | the config value changes only through the sole holder of the role |
| `OpenProtocol.WriteTakesEffectIff` | practice/mydevice/mydevice.c:150-182 | a well-formed write takes effect iff the file holds the role and its offset is 0 |
| `OpenProtocol.SecondWriteIsIgnored` | practice/mydevice/mydevice.c:157-158 | after the holder has written once, or read once, every later write through that file changes nothing |
| `OpenProtocol.LastOutWakes` | practice/mydevice/mydevice.c:112-114 | release wakes the waiter iff no counted context remains |
| `MinorTable.Table.GetMinor` | myproject/driver/src/mysensordrv.c:32-42 | marks and returns the lowest free slot; -1 iff none is free |
| `MinorTable.Table.Probe` | myproject/driver/src/mysensordrv.c:52-94 | binds to the lowest minor no live device has; fails for want of a minor iff all are live; a later failure restores the table |
| `MinorTable.Table.Remove` | myproject/driver/src/mysensordrv.c:96-103 | frees exactly the device's minor |
| `MinorTable.CountIsMarked` | myproject/driver/src/mysensordrv.c:36-49 | in any valid state the device count is the number of marked slots |

## Left out

- Weak memory ordering, MMIO details and page mapping: shared fields and registers are sequentially consistent.
- Module init and exit, registration, probe resource unwinding other than the minor table: calls into the kernel.
- `ringbuf_init` used as a reset during a read, faults in user copies, and more than one reader of `myfbread`.
- Timestamps, formatted text and console output: timestamps are opaque values, formatted text an opaque NUL-free sequence.
- The threshold and sample registers of practice/myfakebell/mybell.h: the device side is not part of this model; records are arbitrary values.
- Formatting and copying out in `mysensor_read`, unbinding mysensor, and the priority condition of `myfbpoll`.
- Plain reads and the byte query of the message device while other processes write.
- BlockStore.Store.QueueRequest: segment buffers are values handed back after the request, so aliasing between pages is not described; the sector offset is unbounded.
- What an access outside the message buffer returns: the model only says that it happens. Bytes are unsigned.
- Positioned reads and writes of practice/mydevice, which bring their own offset; sscanf's number and the length of the formatted text are parameters.
- BlkRingProtocol.DrainIsBounded: bounds the passes; that a scheduler lets both sides run is not modelled.
- BellDriver.EveryEventCountedOnce: the interrupt core is reduced to masking, unmasking and waking the thread; there is one processor's view of it.
- Removal with open files (`mydevremove` waits interruptibly) and exclusive open of the read-only character device.
- Everything else in the repository: wrappers around kernel interfaces and demonstrations with a branch or two.
