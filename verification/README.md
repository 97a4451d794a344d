# AtuReactor: a verified model of the event loop and the capture replay engine

AtuReactor is a Linux reactor library. This project models its two stateful parts and the place where they
meet, and proves what they promise for every run.

**The event loop.** Timers live in an ordered set keyed by (expiration, id) with an id index beside it. A
kernel timer descriptor wakes the loop. A firing pass extracts everything that has expired and runs the
callbacks, which may add and cancel timers while the pass is under way. Deferred tasks go through a queue
that is swapped out and drained once per turn.

- `TimerQueue.dfy`, `LoopModel.dfy`: timers, their order, and the loop as a machine of small steps. A callback
  is not atomic: between its start and its end any calls may occur, so a fact about all runs of the machine is
  a fact about all callbacks.
- `LoopInvariants.dfy`, `LoopTheorems.dfy`: the invariants of every run, and what clients can rely on.
- `EventLoop.dfy`: the object, with the source's fields and loops. Each method is proved to make the machine
  step that its contract names; the object carries the run it has made.

**The replay engine.** A cursor walks a capture file, legacy pcap in either byte order and resolution or
pcapng. Each frame is parsed down to its UDP payload and dispatched through a port table with a one-entry cache.
The engine schedules its own continuations on the loop.

- `Bytes.dfy`, `Frames.dfy`, `Timestamps.dfy`, `Captures.dfy`, `CaptureBytes.dfy`: integers in files, the layers of a
  frame, timestamp arithmetic in 64 bits, the reader, and what it makes of every file, byte by byte.
- `Encapsulation.dfy`, `LegacyFormat.dfy`, `PcapNgFormat.dfy`, `PcapNgTheorems.dfy`: writers, and the round trips
  through the reader.
- `ReplayModel.dfy`, `ReplayTheorems.dfy`, `ReplayContinuations.dfy`, `TimedLaw.dfy`, `FloodLaw.dfy`, `EndToEnd.dfy`:
  replay on top of the loop, under every schedule.
- `PcapReceiver.dfy`: the object, with the source's fields and loops, each method proved against the replay model.

How the surroundings are modelled:

- The monotonic clock is an oracle: `e(k)` is the time that passes before the k-th reading. It is positive at
  the start and never goes back.
- The timer descriptor is the instant it is set to, if any. The setting is one-shot, so there is an unread
  tick exactly when that instant has been reached. Setting it drops an unread tick.
- The ordered set is a strictly sorted sequence, and an iterator is the element it refers to.
- The mapped file is a byte sequence. The host is little-endian.
- `Fault` stands for what the source leaves undefined: a read beyond the file, a division by zero, a shift by 64
  or more. `Safe` says that reading on meets none of it; files written by the encoders here are proved safe.

Where the code and its documentation differ, the model follows the code:

- `resetTimerFd` computes a distance from now but passes it as an absolute instant
  (src/EventLoop.cc:253-259). The descriptor is therefore set early, never late.
- The constant for nanosecond files in swapped order (include/atu_reactor/PcapReceiver.h:60) is not the byte swap
  of the native one. Such files are taken for native microsecond files. `LegacyRoundTripExactly` states exactly
  which files replay.
- A cancel of a timer that has been extracted into the running pass fails although it has not run yet
  (include/atu_reactor/EventLoop.h:125). `CancelFailsExactly` states exactly when a cancel fails.
- `rewind` before the end of a pcapng pass can change what the next pass yields, because the interface counter
  goes on counting. `RewindInMidPassExactly` and `RewoundAtAnyTime` state exactly when it does not.
- `unsubscribe` never succeeds, and a port that has a handler can be subscribed again, since the base class's port
  map stays empty. If the port is the cached one, the old handler goes on being called: `StaleHandlerIsCalled`
  gives such a run, and `TransparentIffCoherent` says exactly when the cache shows.
- A frame with more bytes than were on the wire is delivered by the fast path and dropped by the slow one
  (src/PcapReceiver.cc:507). `FastPathAgreesExactly` states exactly when the paths differ.
- A timed replay whose batch size is below one reschedules itself forever and plays nothing; `TimedWork` says what any
  other plays.
- Calling `step` on a timed replay schedules a continuation of its own whenever the packet is not due, beside the
  one that is scheduled already. `ContinuationBalance` counts them.
- A timestamp resolution of one unit per second turns times of 2^63 seconds and more into negative ones.
  `ConversionExactIff` and `ResolutionExactIff` state exactly which conversions are right.

## Model

| member | source | states |
|---|---|---|
| TimerQueue.InsertKeepsSetOrder | include/atu_reactor/EventLoop.h:143-147 | Inserting with the source's comparison keeps the set sorted by expiration and, among equal expirations, by id, and keeps every element. |
| TimerQueue.DueSplit | src/EventLoop.cc:276-283 | The front part that the extraction takes is exactly the expired timers of the queue. |
| LoopInvariants.SpecNeverLate | src/EventLoop.cc:241-259 | The seconds/nanoseconds value written to the descriptor is never all zero and never later than the expiration. |
| LoopInvariants.InsertKeepsInv | src/EventLoop.cc:219-231 | Inserting keeps all invariants although the descriptor is re-armed only for a new earliest timer. |
| LoopInvariants.RunKeepsInv | src/EventLoop.cc:172-300 | All invariants of the loop hold after every run, whatever the callbacks do: index, wake-up, a disarmed descriptor when no timer is queued, lineage of repeating timers, log, places, tasks. |
| LoopTheorems.IndexAgreesInEveryRun | src/EventLoop.cc:172-231 | In every state of every run the id index and the ordered set hold the same timers, and ids are issued and unique across queue and running batch. |
| LoopTheorems.RescheduleNeverCollides | src/EventLoop.cc:291-295 | Re-inserting a repeating timer never meets an equivalent element: it takes place and is indexed. |
| LoopTheorems.NoLostWakeUp | src/EventLoop.cc:233-300 | Between passes, as soon as the clock reaches the expiration of a queued timer the descriptor is readable, and the pass that reads it takes that timer. |
| LoopTheorems.FailedReadKeepsTick | src/EventLoop.cc:262-268 | A failed or early read leaves everything but the time as it was, and the descriptor armed in time. |
| LoopTheorems.PassIsExact | src/EventLoop.cc:262-300 | One pass fires exactly the timers that were queued before it and had expired at its sampled now, each once, earlier expirations first and lower ids first among equal ones, whatever callbacks add or cancel. |
| LoopTheorems.CancelledNeverFires | src/EventLoop.cc:201-217 | After a successful cancel, also in mid-pass, that id fires in no continuation of the run. |
| LoopTheorems.CancelFailsExactly | src/EventLoop.cc:201-207 | A cancel fails exactly for ids that were never issued, were cancelled, are in the running batch, or are fired one-shots. |
| LoopTheorems.InFlightSurvivesCancel | src/EventLoop.cc:276-296 | A cancel of a batch member changes nothing; a repeating timer that cancels itself is back in the queue afterwards. |
| LoopTheorems.AddIsExact | src/EventLoop.cc:172-231 | `runAfter` and `runEvery` change nothing for an argument out of range; else they read the clock once, issue the next id and queue a timer that many milliseconds after the reading, and set the descriptor, with one more reading, just if it expires before all others. |
| LoopTheorems.CancelIsExact | src/EventLoop.cc:201-217 | A cancel removes exactly the timer of that id and sets the descriptor for the earliest one left: its distance from the last clock reading, the smallest value if it has expired, disarmed if none is left; an id that is not queued changes nothing. |
| LoopTheorems.RescheduleIsExact | src/EventLoop.cc:291-295 | At the end of its turn a repeating timer is queued one interval after its expiration, the descriptor being set just if it is the earliest; a one-shot is not. |
| LoopTheorems.PassEndsAreExact | src/EventLoop.cc:262-300 | A pass reads the descriptor at one clock reading and samples the time at the next, what has expired by then leaves queue and index, and the tick is used up; at its end the descriptor is set for what is queued by then. |
| LoopTheorems.RunKeepsLogTimed | src/EventLoop.cc:285-289 | Over every run the firings are logged with the clock of their moment: none lies in the future, and they are in order. |
| LoopTheorems.PeriodicNeverDrifts | src/EventLoop.cc:187-199 | The firing of a repeating timer that follows n others carries start + (n + 1) * interval, is not earlier, and skips no occurrence. |
| LoopTheorems.OneShotFiresOnceOnTime | src/EventLoop.cc:172-185 | A one-shot timer fires at most once, with its callback, carrying start + delay, and not earlier. |
| LoopTheorems.PeriodicHasOneCopy | src/EventLoop.cc:276-296 | Until it is cancelled, a repeating timer has exactly one copy across the queue and the running batch. |
| LoopTheorems.TasksConserved | src/EventLoop.cc:152-170 | Over every run the enqueued tasks are the executed ones, then those being drained, then the pending ones, in order. |
| LoopTheorems.TaskPhaseIsExact | src/EventLoop.cc:152-161 | A task phase executes exactly what was pending when it began; what is enqueued meanwhile waits. |
| EventLoopClass.EventLoop.constructor | src/EventLoop.cc:42-52 | A new loop is the initial state of the machine: nothing queued, pending or armed, and 1 the next id. |
| EventLoopClass.EventLoop.ResetTimerFd | src/EventLoop.cc:233-260 | Sets the descriptor for the earliest timer, or disarms it if there is none. |
| EventLoopClass.EventLoop.InsertTimer | src/EventLoop.cc:219-231 | Queues and indexes a timer, re-arming only for a new earliest one. |
| EventLoopClass.EventLoop.RunAfter | src/EventLoop.cc:172-185 | Refuses a negative delay, else issues the next id and queues a one-shot timer. |
| EventLoopClass.EventLoop.RunEvery | src/EventLoop.cc:187-199 | Refuses an interval that is not positive, else issues the next id and queues a repeating timer. |
| EventLoopClass.EventLoop.StoredIteratorIsValid | include/atu_reactor/EventLoop.h:178-179 | What the index refers to is an element of the set: no stored iterator dangles. |
| EventLoopClass.EventLoop.CancelTimer | src/EventLoop.cc:201-217 | Fails with ENOENT just for ids that are not indexed, else removes the timer and re-arms. |
| EventLoopClass.EventLoop.RunInLoop | src/EventLoop.cc:168-170 | Appends a task to the queue. |
| EventLoopClass.EventLoop.Invoke | src/EventLoop.cc:287-289 | Running a callback makes exactly its calls on the loop, in order: the new state is the run of those calls, and nothing fires or is executed meanwhile. |
| EventLoopClass.EventLoop.ExtractExpired | src/EventLoop.cc:276-283 | The extraction loop moves exactly the expired front of the queue to the batch and out of the index. |
| EventLoopClass.EventLoop.TakeTurn | src/EventLoop.cc:287-295 | The turn of a timer makes exactly these steps: it begins, its callback makes its calls unless it is empty, and it ends with the rescheduling. |
| EventLoopClass.EventLoop.FireBatch | src/EventLoop.cc:285-296 | The callback loop makes exactly the turns of the batch, in order: the state is the run of them, each callback making the calls of its invocation. |
| EventLoopClass.EventLoop.HandleTimerRead | src/EventLoop.cc:262-300 | The state is the run of exactly these steps: the read and, with an unread tick, the turn of every timer that was queued and had expired, then the end of the pass; it fires and invokes exactly those, in order; otherwise only time passes. |
| EventLoopClass.EventLoop.DrainTasks | src/EventLoop.cc:152-161 | The state is the run of exactly these steps: the swap, then every task that was pending, in order and each making its calls, then the end. |
| EventLoopClass.EventLoop.DispatchEvents | src/EventLoop.cc:130-150 | The events of a poll are handled in order, and the state after each is the run of its steps from the state before; a timer event that finds an unread tick fires exactly what was queued and had expired and invokes those callbacks, any other lets only time pass, and a receiver event runs its handler. |
| EventLoopClass.EventLoop.RunOnce | src/EventLoop.cc:110-166 | A failed or interrupted poll changes nothing; otherwise the events are handled one after the other, then exactly the tasks pending by then are executed, in order and each making its calls, and what they enqueue stays pending; no task is lost; with tasks pending the poll does not wait. |
| Bytes.ReadBack32 | src/PcapReceiver.cc:232-248 | A number stored in either byte order is read back once the reader knows whether to swap. |
| Frames.FastPathAgreesExactly | src/PcapReceiver.cc:495-564 | The fast and the slow path differ, in delivery or cache, exactly when more was captured than was on the wire, the fast path is taken, a whole UDP header was captured, and either the cached port is addressed with a payload to deliver or another port that has a handler is. |
| Frames.SegmentExactly | src/PcapReceiver.cc:574-620 | By the bytes alone: the parser finds a UDP segment in a frame, and where, if and only if the frame has one of the three framings with the IPv4 ethertype, version 4, protocol 17 and a whole UDP header behind the header length. |
| Frames.DispatchExactly | src/PcapReceiver.cc:495-652 | By the bytes alone, on either path: a frame without such a segment, or whose captured length does not pass, is dropped and changes nothing; any other goes to the handler of its port, from cache or table, which is cached, with the bytes that the length field announces if they were captured. |
| Frames.TruncatedNeverDelivered | src/PcapReceiver.cc:502-507 | A frame that was cut short reaches no handler and leaves the cache alone. |
| Frames.CachedDispatchIsRoute | src/PcapReceiver.cc:527-540 | With a coherent cache a packet goes where the table alone would send it, and the cache stays coherent. |
| Frames.CacheUnnoticed | src/PcapReceiver.cc:527-540 | With a coherent cache every frame, over-captured ones included, comes to what it does with an empty cache, and the cache stays coherent. |
| Frames.SubscribeBreaksCoherenceExactly | src/PcapReceiver.cc:173-177 | Subscribing breaks coherence exactly when it gives the cached port another handler or context. |
| Frames.CacheIsTransparent | src/PcapReceiver.cc:164-192 | Over every run of packets and subscriptions in which no port is subscribed twice, the cache makes no difference. |
| Frames.SubscriptionsAreExact | src/PcapReceiver.cc:164-192 | A subscription changes exactly the table entry of its port, a null handler is refused, and `unsubscribe` changes nothing. |
| Encapsulation.PayloadReachesItsPort | src/PcapReceiver.cc:495-652 | A frame built around any payload, with Ethernet, VLAN or Linux cooked framing, any IP options and padding, is delivered once, with that payload, to the handler of its port and to nobody else. |
| Encapsulation.PortsHaveTheirOwnEntry | src/PcapReceiver.cc:173-177 | Conversion to network order is a bijection, so two ports never share a table entry. |
| Encapsulation.SubscriptionIsLocal | src/PcapReceiver.cc:164-182 | Subscribing to one port changes nothing for frames to another. |
| Encapsulation.OverCapturedIsDelivered | src/PcapReceiver.cc:502-507 | A 42-byte frame recorded as 41 on the wire: the fast path delivers its payload, the slow path does nothing. |
| Encapsulation.TransparentIffCoherent | src/PcapReceiver.cc:527-540 | Every frame goes where the table alone would send it if and only if the cache is coherent. |
| Encapsulation.StaleHandlerIsCalled | src/PcapReceiver.cc:164-182 | When a port is subscribed again after a packet for it, the next packet still goes to the first handler, where plain look-ups would call the second. |
| Timestamps.ConversionExactIff | src/PcapReceiver.cc:361-363 | The conversion denotes raw / divisor rounded down to a nanosecond just when the seconds fit 63 bits and the product fits 64. |
| Timestamps.ConversionMonotone | src/PcapReceiver.cc:361-363 | Exact conversions keep the order of raw timestamps. |
| Timestamps.WrappedIsModulo | src/PcapReceiver.cc:333-337 | A decimal divisor is the power of ten modulo 2^64. |
| Timestamps.ResolutionExactIff | src/PcapReceiver.cc:333-337 | For every octet: all timestamps of that resolution convert, and exactly, just for decimal exponents 1 to 10 and binary exponents 1 to 34; an undefined shift, a divisor that wraps to zero, and one that wraps to something else all fail. |
| Captures.PacketAdvances | src/PcapReceiver.cc:290-347 | Every packet found moves the cursor forward by at least a record or block header and never beyond the file. |
| Captures.LookAgain | src/PcapReceiver.cc:365-374 | Looking again after a wait finds the same packet: no interface is registered twice. |
| Captures.LegacyIgnoresInterfaces | src/PcapReceiver.cc:152-162 | In a legacy file only the cursor matters, so rewinding from anywhere restores the first replay. |
| CaptureBytes.OpenExactly | src/PcapReceiver.cc:92-150 | For every file, by its bytes: fails just if shorter than 24 bytes, or a pcapng file with neither byte-order mark; else format, byte order, resolution and link type, an unknown magic number being native microseconds. |
| CaptureBytes.RecordExactly | src/PcapReceiver.cc:223-284 | At every position of every legacy file: the end just if fewer than 16 bytes are left, else the packet whose time, lengths and bytes lie there. |
| CaptureBytes.BlockExactly | src/PcapReceiver.cc:290-347 | At every position of every pcapng file: the end just where no whole block is; interfaces are registered under the next number and skipped, other blocks skipped, packet blocks met. |
| CaptureBytes.OptionExactly | src/PcapReceiver.cc:323-339 | At every position of every option list: where it ends, which option announces a resolution, and where the next option begins. |
| CaptureBytes.PacketExactly | src/PcapReceiver.cc:349-386 | For every packet block: time, lengths and bytes that lie there, with link type and resolution of the named interface. |
| LegacyFormat.RecordsReadBack | src/PcapReceiver.cc:217-285 | Reading encoded records to the end yields exactly these records, in order, with their times. |
| LegacyFormat.OpenRecognisesExactly | src/PcapReceiver.cc:122-147 | Byte order, resolution and link type are recognised for every file except those in swapped order with nanoseconds. |
| LegacyFormat.SwappedNanoFails | include/atu_reactor/PcapReceiver.h:55-60 | A swapped nanosecond file whose record does not come back. |
| LegacyFormat.LegacyRoundTripExactly | src/PcapReceiver.cc:122-147 | All files of a byte order and resolution replay to their records just when the combination is not swapped nanoseconds. |
| LegacyFormat.ByteOrderIsInvisible | src/PcapReceiver.cc:232-248 | A microsecond file written in either order decodes to the same frames and link type. |
| PcapNgFormat.OptionsReadBack | src/PcapReceiver.cc:323-339 | The option loop finds the resolution announced last, among any options, with or without an end mark. |
| PcapNgFormat.BlocksReadBack | src/PcapReceiver.cc:287-386 | Reading encoded blocks to the end yields exactly the packet blocks, each with the interface that the table then holds for it. |
| PcapNgTheorems.OpenRecognises | src/PcapReceiver.cc:100-121 | An encoded pcapng file and its byte order are recognised. |
| PcapNgTheorems.PcapNgWholeRun | src/PcapReceiver.cc:287-386 | In either byte order, any mix of blocks decodes to exactly the packet blocks, in order and once each, with the link type of the named interface and the time rounded down to a nanosecond. |
| PcapNgTheorems.EveryPassIsTheFirst | src/PcapReceiver.cc:152-162 | However often a pcapng file is read to the end and rewound, the next pass yields what the first did. |
| PcapNgTheorems.PassAlikeExactly | src/PcapReceiver.cc:340-363 | A pass from the start of the file, whatever was registered before, meets nothing undefined and yields what the first does just when every packet is the same under the interface that the table then holds for its id. |
| PcapNgTheorems.RewindInMidPassExactly | src/PcapReceiver.cc:340-352 | After a rewind in mid-pass, behind any packet or in front of the next one after a wait, with k interfaces registered, the next pass is the first again just when every packet of interface k or above would be the same under the interface k lower. |
| PcapNgTheorems.RewindInMidPassCanDiffer | src/PcapReceiver.cc:340-352 | A file and a rewind after its first packet that changes the replay. |
| ReplayTheorems.StepOutcome | src/PcapReceiver.cc:217-285 | A step plays exactly the next packet, or leaves all that is to come as it was; the end is reported exactly at the end. |
| ReplayTheorems.ExactlyOnce | src/PcapReceiver.cc:388-456 | Under every interleaving of continuations, manual steps, timers, tasks and subscriptions the packets played are a prefix of the sequential decoding, and all of it when the end is reported. |
| ReplayTheorems.FinishedIsAbsorbing | src/PcapReceiver.cc:223-227 | A finished replay stays finished and plays nothing more until it is rewound. |
| ReplayTheorems.StepAdvances | src/PcapReceiver.cc:275-284 | Every successful step moves the cursor by at least 16 bytes in a legacy file and 8 in pcapng. |
| ReplayTheorems.ReplayByHand | src/PcapReceiver.cc:211-285 | In step mode, whatever else happens, n manual steps play the first n packets left, and the step after the last reports the end. |
| ReplayTheorems.RewindIsExact | src/PcapReceiver.cc:152-162 | A rewind moves the cursor to the first block or behind the legacy header, clears the end and the replay clock, and leaves interfaces, subscriptions, cache, log and loop alone. |
| ReplayTheorems.ContinuationsDieOut | src/PcapReceiver.cc:388-456 | After the end a continuation does nothing and schedules no other. |
| ReplayTheorems.RewoundPlaysAgain | src/PcapReceiver.cc:152-162 | After a finished replay is rewound, any schedule plays the capture a second time, in order and once, on top of whatever was played before. |
| ReplayTheorems.CallsFollowTheLog | src/PcapReceiver.cc:164-182 | Over every run from a coherent cache in which no subscription gives the cached port another handler, the handler calls are those that each played frame comes to by the table of its moment, with no cache. |
| ReplayTheorems.NewPortKeepsCache | src/PcapReceiver.cc:164-182 | A subscription to a port that has no handler yet never touches the cached one. |
| ReplayTheorems.HandlersSeeTheCapture | src/PcapReceiver.cc:388-456 | From any receiver with a coherent cache, under every such schedule, the new handler calls are those of a prefix of the decoding, each frame looked up in the table of its moment, and of all of it when the replay has finished. |
| ReplayTheorems.CallsByOneTable | src/PcapReceiver.cc:388-456 | If nobody subscribes meanwhile, the new calls are those of the played frames by the one table, and of the whole decoding at the end. |
| ReplayTheorems.RewoundCallsAgain | src/PcapReceiver.cc:152-162 | The second pass makes a prefix of the frames of the first come to the same calls, and when it has finished the very list of calls of the first pass has been made again. |
| ReplayTheorems.TargetIsOffset | src/PcapReceiver.cc:460-487 | The target time is the wall start plus the exact difference in nanoseconds, also with a borrow and for out-of-order packets. |
| ReplayTheorems.NeverEarly | src/PcapReceiver.cc:258-273 | In timed mode, under every schedule: the first packet since the replay clock was reset sets the wall start, no earlier than the clock at the reset and no later than that packet is played; every packet since is logged at a clock between the reset and now, and none is played before wall start + (its time - time of that first packet). |
| ReplayTheorems.RestartIsOnTime | src/PcapReceiver.cc:152-209 | After `start` or `rewind` the same holds, with the clock at that call and relative to its own first packet. |
| ReplayContinuations.TimedStepOurs | src/PcapReceiver.cc:258-273 | A timed step plays the packet it finds unless it has to wait: the replay clock runs, and the packet is not due at the next clock reading. Just then it schedules one more continuation, which expires less than a millisecond before the packet is due, shifted by the time until `runAfter` read the clock. |
| ReplayContinuations.BatchOurs | src/PcapReceiver.cc:388-432 | A timed batch leaves one more continuation scheduled than it found, unless it reached the end; what it plays is stated by `TimedBatchIsExact`. |
| ReplayContinuations.TimedBatchIsExact | src/PcapReceiver.cc:388-432 | A timed batch plays packets up to the batch size, and fewer only if it met the end or the next one is not due; its continuation has no delay after a full batch, and else waits for the time of that packet. |
| ReplayContinuations.StartSchedulesOne | src/PcapReceiver.cc:194-209 | Starting a timed replay leaves exactly one continuation scheduled. |
| ReplayContinuations.StartIsExact | src/PcapReceiver.cc:194-209 | `start` resets the replay clock and nothing else about the receiver; in step mode it leaves the loop alone, and else queues one continuation without delay. |
| ReplayContinuations.ContinuationBalance | src/PcapReceiver.cc:211-273 | Over every run with loop steps of other clients, manual steps and subscriptions: each manual step whose packet is not due adds one continuation, each continuation that fires at the end takes one away, and nothing else changes their number; before the end none is taken away. |
| ReplayContinuations.OneAndManualWaits | src/PcapReceiver.cc:211-273 | An unfinished timed replay has as many continuations scheduled as one and the manual steps whose packet was not due. |
| ReplayContinuations.AlwaysOneContinuation | src/PcapReceiver.cc:401-431 | Whatever other clients do and whoever subscribes, a timed replay that is not stepped by hand has exactly one continuation scheduled while unfinished, and none when finished. |
| ReplayContinuations.UnfinishedIsWoken | src/PcapReceiver.cc:426-431 | In every run, stepped by hand or not, between passes a continuation of an unfinished replay is queued, and the descriptor is armed in time for it. |
| TimedLaw.FiringPlaysDue | src/PcapReceiver.cc:388-432 | In the loop, a continuation that fires on an unfinished timed replay plays what is due, up to the batch size. |
| TimedLaw.TimedWork | src/PcapReceiver.cc:388-432 | In every run of a timed replay before the end: every continuation that fires plays at least one packet and at most a batch, and every manual step one, unless the packet is not due, and nothing else plays any; with a batch size below one the continuations play nothing. |
| FloodLaw.FloodContinuation | src/PcapReceiver.cc:434-456 | A flood continuation plays 20000 packets and defers itself, or, exactly if fewer are left, plays those, meets the end and defers nothing. |
| FloodLaw.BatchContinuation | src/PcapReceiver.cc:388-424 | A batch continuation in flood mode plays 30000 packets and defers a flood and a batch continuation, or, exactly if fewer are left, plays those and meets the end, deferring at most the flood continuation. |
| FloodLaw.FloodBalance | src/PcapReceiver.cc:388-456 | In every run of a flood replay before the end, on any loop, with other clients' timers and tasks, manual steps and subscriptions in between: with B batch and F flood continuations and M manual steps, exactly 30000 B + 20000 F + M packets have been played, the flood continuations outstanding have grown by B, and the batch continuations by none. |
| FloodLaw.RunProgress | src/EventLoop.cc:152-161 | Every such run keeps to the phases, also in the middle of one: the continuations still to be executed, those pending and their order, and the packets played are determined by the phases begun so far. |
| FloodLaw.FloodWorkLaw | src/PcapReceiver.cc:388-456 | A flood replay started on any loop, between two task phases of any run before the end: once the first continuation has fired, n phases later, n + 1 flood continuations and one batch continuation are pending, in that order, and exactly 10000 (n + 1) (n + 3) packets have been played; k flood continuations that an earlier replay left pending, and manual steps, add exactly their own. |
| EndToEnd.LegacyEndToEnd | src/PcapReceiver.cc:217-285 | Datagrams written to a legacy file and replayed to the end under any schedule, subscriptions included that leave the cached port its handler, give one call per datagram whose port has a handler when it is played, in order, with payload and time. |
| EndToEnd.PcapNgEndToEnd | src/PcapReceiver.cc:287-386 | The same for datagrams written to a pcapng file. |
| EndToEnd.PcapNgPlaysAgain | src/PcapReceiver.cc:152-162 | However often a pcapng replay is run to the end and rewound, every pass plays the same packets with the same times, in order and once, although interfaces are never reset, and unless somebody subscribes every pass calls the handlers as the first did; in the pass under way the same holds of a prefix. |
| EndToEnd.LegacyPlaysAgain | src/PcapReceiver.cc:152-162 | The same for a legacy replay. |
| EndToEnd.RewoundAtAnyTime | src/PcapReceiver.cc:152-162 | Over every sequence of runs, each ended by a rewind at any moment, the next pass meets nothing undefined and yields the capture again just when the interfaces registered meanwhile shift no packet to a different one. |
| EndToEnd.RewoundInFirstPass | src/PcapReceiver.cc:340-352 | A rewind at any moment of the first pass of any run, with k interfaces registered, is harmless just when the shift by k is. |
| PcapReceiverClass.PcapReceiver.constructor | src/PcapReceiver.cc:48-53 | A new receiver has an empty table and cache, and is not finished. |
| PcapReceiverClass.PcapReceiver.CheckSubscribe | src/PacketReceiver.cc:88-108 | The base class's checks refuse nothing but a null handler. |
| PcapReceiverClass.PcapReceiver.Subscribe | src/PcapReceiver.cc:164-182 | A handler that is not null replaces the table entry of its port; nothing else changes. |
| PcapReceiverClass.PcapReceiver.Unsubscribe | src/PcapReceiver.cc:184-192 | Fails with ENOENT for every port and changes nothing. |
| PcapReceiverClass.PcapReceiver.LookUp | src/PcapReceiver.cc:625-638 | The cached look-up finds what the cache or the table holds, and updates the cache just on a miss that finds a handler. |
| PcapReceiverClass.PcapReceiver.SlowPathParse | src/PcapReceiver.cc:566-652 | Pointer and length bookkeeping agree with taking the frame apart layer by layer. |
| PcapReceiverClass.PcapReceiver.FastPath | src/PcapReceiver.cc:507-559 | Fixed offsets agree with taking the frame apart layer by layer. |
| PcapReceiverClass.FastSegment | src/PcapReceiver.cc:509-522 | Past the fast path's test, the UDP header is where the fixed offsets put it, for every header length. |
| PcapReceiverClass.PcapReceiver.ParseAndDispatch | src/PcapReceiver.cc:495-564 | Cache and calls change as the dispatch model says, on either path. |
| PcapReceiverClass.PcapReceiver.Open | src/PcapReceiver.cc:92-150 | Sets format, byte order, resolution, link type and cursor; or fails with EINVAL, and then leaves the file mapped and everything else as it was. Malformed records are not noticed. |
| PcapReceiverClass.PcapReceiver.Rewind | src/PcapReceiver.cc:152-162 | With or without a file, resets cursor and replay clock; interfaces, cache and subscriptions stay. |
| PcapReceiverClass.PcapReceiver.Start | src/PcapReceiver.cc:194-209 | Nothing without a file; in step mode only the replay clock is reset; else one continuation without delay. |
| PcapReceiverClass.PcapReceiver.CalculateTargetTime | src/PcapReceiver.cc:460-487 | The first packet sets the replay clock; later ones are offset from it. |
| PcapReceiverClass.PcapReceiver.ReadOptions | src/PcapReceiver.cc:323-339 | The option loop agrees with the reader's recursive definition and stays inside the file. |
| PcapReceiverClass.ReadResolution | src/PcapReceiver.cc:333-337 | The multiplication loop computes the divisor modulo 2^64. |
| PcapReceiverClass.PcapReceiver.FindPacket | src/PcapReceiver.cc:290-347 | The block loop stops at the packet that the reader finds next, with all interfaces before it registered, or at the end. |
| PcapReceiverClass.PcapReceiver.StepPcapNg | src/PcapReceiver.cc:287-386 | One step on a pcapng file is the step of the replay model, without a read beyond the file. |
| PcapReceiverClass.PcapReceiver.InternalStep | src/PcapReceiver.cc:217-285 | One step on any file is the step of the replay model, without a read beyond the file. |
| PcapReceiverClass.PcapReceiver.StepUpTo | src/PcapReceiver.cc:401-413 | The inner loop of a batch makes up to the limit of steps and stops at the first that fails. |
| PcapReceiverClass.PcapReceiver.ProcessBatchFlood | src/PcapReceiver.cc:434-456 | A flood continuation is that of the replay model. |
| PcapReceiverClass.PcapReceiver.ProcessBatch | src/PcapReceiver.cc:388-432 | Nothing without a file; else a batch continuation is that of the replay model. |

## Left out

- Sockets, `recvmmsg` and control messages (src/UDPReceiver.cc), the packet buffers and their layout
  (src/PacketReceiver.cc:34-72), epoll registration and dispatch by pointer (src/EventLoop.cc:61-108), `mmap` and
  prefetching: foreign calls, or members without deep logic.
- The replay speed multiplier in floating point (src/PcapReceiver.cc:479-484): the model replays at normal speed.
- Integer widths that a run does not reach: timer ids beyond 2^64, instants and time spans beyond 2^63
  nanoseconds, and an interface counter beyond 2^32 are unbounded here. The widths of the timestamp conversion
  are modelled.
- Files on which the source's behaviour is undefined (`Fault`), files with a second section header, and resolutions
  that 64 bits cannot represent are outside the theorems about whole files.
- PcapReceiverClass.PcapReceiver.Open: a receiver is opened once. A file that is shorter than a header leaves the
  source's cursor null, which is written as offset 0 here.
- EventLoopClass.EventLoop.Invoke: a callback's body is a script of calls on the loop chosen by the environment. That
  the loop runs the receiver's own continuations is modelled in `ReplayModel`, not by a call from one object to
  the other.
- Handlers and callbacks that re-enter `runOnce` or `step`, exceptions (an empty task would throw), and the
  thread checks.
- ReplayTheorems.HandlersSeeTheCapture: packet handlers only receive. A handler that subscribes a port or calls the loop
  is in no run of the replay model while a batch is under way; a subscription or call made between two steps is.
- A client that cancels the replay's timer by guessing its id: the laws of `ReplayContinuations` are about runs in
  which nobody does.
- Big-endian hosts.
