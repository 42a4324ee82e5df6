# EdgeNetSwitch: a verified model

EdgeNetSwitch is a small switch runtime. Datagrams arrive over UDP, are parsed, validated
and published on a message bus; a packet processor injects configured failures, queues the
rest in a bounded queue and lets one worker validate, switch, transmit and settle each
packet. Statistics count what happened, a recorder and a player replay ingress, a telemetry
queue exports samples, and an epoll loop and descriptor objects carry the I/O.

This project models that logic in Dafny and proves what it promises over whole runs. Where
threads share state, the model is a system of steps: a step is one lock section, one atomic
operation or one publication, a run is a sequence of enabled steps, and the theorems speak
of every run. Where the program updates objects, the model is a class whose methods are
proved against the functions that the theorems are about.

| file | what it models |
|---|---|
| `Packets.dfy`, `Counting.dfy` | packets, addresses, drop records, terminal messages; occurrences in a sequence |
| `FailureInjection.dfy` | the failure injector and its schedule |
| `Pipeline.dfy` | publishers, the bounded queue and the worker, interleaved |
| `Verdicts.dfy` | what every terminal message says of its packet |
| `Processor.dfy` | the same sections as methods of the processor object |
| `Replay.dfy`, `ReplaySchedules.dfy` | what ingress determines, and exactly when it determines the order |
| `Recording.dfy`, `ReplayCapture.dfy` | recorder, player and outcome collector; runs with a collector that listens |
| `ReplayTurns.dfy`, `ReplayVectors.dfy` | exactly when the collected vector is reproduced |
| `Stats.dfy`, `Accounting.dfy`, `Snapshots.dfy` | counters, accounting of whole runs, concurrent snapshots |
| `MacTable.dfy`, `Forwarding.dfy`, `Worker.dfy` | the learning table, forwarding, transmission |
| `Switching.dfy` | pipeline runs with the worker and the control plane at work |
| `Telemetry.dfy`, `Smoother.dfy` | the export queue and the rate smoother |
| `Descriptors.dfy`, `FileDescriptor.dfy` | descriptor ownership under concurrent number reuse |
| `EventLoop.dfy` | the stop and wake protocol |
| `Parser.dfy`, `Udp.dfy`, `MacText.dfy` | datagram text, UDP ingress, address text |

## Where the code does not do what is promised

- `docs/runtime/replay-determinism.md` (lines 50-53) promises the same ordered terminal
  outcomes for the same ingress and failure policy. The code does not keep that promise:
  injected drops are published by the publisher's thread and may overtake packets that the
  worker still holds, and drops at the UDP stage are heard in the original run only.
  `ReplaySchedules.ReplayDeterministicIff` gives the exact condition for the reported order,
  and `ReplaySchedules.TwoPacketReplayCanReorder` a failing input with two packets. The two
  sides taken separately are determined (`Replay.SidesAreDetermined`), and so is what is
  forwarded (`Switching.ForwardingIsDetermined`).
- The collector numbers an outcome before it takes the lock that stores it. The collected
  vector, numbers included, is reproduced exactly under a stricter condition: no survivor
  may precede a failed packet at all (`ReplayVectors.ReplayReproducesOutcomes`). A vector is in
  numbering order in every run exactly when at most one thread records
  (`Recordings.InOrderIffAlone`); the numbers themselves are always unique and without gaps.
- A snapshot can report an average latency above the maximum latency
  (`Snapshots.AverageCanExceedMaximum`), because the latency total is added before the maximum
  is raised and a snapshot may read in between. `Snapshots.AverageWithinMaximumIff` states
  exactly when a snapshot that has read the total is sure not to.
- A `stop` that comes before `run` has stored its flag is lost (`EventLoop.EarlyStopIsLost`);
  `EventLoop.StopTakesEffectIff` states for every interleaving when a stop takes effect.
- Ageing subtracts ticks in unsigned 64-bit arithmetic, so an entry stamped later than the
  current tick is aged out unless the limit is near 2^64 (`MacTables.AgeingLimit`).

## Model

| member | source | states |
|---|---|---|
| `Pipeline.Conservation` | src/packet/PacketProcessor.cpp:78-240 | In every reachable state, with any number of publishers and shutdown at any time, the multiset of published packets is those in a publisher's hands, queued, in the worker's hands or ended by a terminal message; once quiet, exactly the ended ones |
| `Pipeline.FifoHandoff` | src/packet/PacketProcessor.cpp:101-167 | The queue never exceeds 1024, the worker takes packets in admission order and settles them in the order taken, each with its own verdict |
| `Pipeline.OverflowExactlyWhenFull` | src/packet/PacketProcessor.cpp:101-129 | A step turns a publisher to a `QueueOverflow` drop if and only if it is that publisher's admission step and 1024 admitted packets are untaken; otherwise admission appends |
| `Pipeline.ExitAfterDrain` | src/packet/PacketProcessor.cpp:143-167 | When the worker may exit, every packet admitted so far has been taken and settled |
| `Verdicts.WorkerVerdict` | src/packet/PacketProcessor.cpp:171-239 | In every reachable state a message of the worker is a validation drop naming the packet if and only if the payload is over 512 characters or the time stamp is zero; otherwise it is the packet, processed, with its payload's length as payload size and every other field unchanged |
| `Verdicts.UntimedDropClock` | src/packet/PacketProcessor.cpp:185-197 | The drop of a packet without a time stamp carries a clock that the worker read |
| `Verdicts.PublisherVerdict` | src/packet/PacketProcessor.cpp:87-123 | In every run a message of a publisher is a drop naming the packet with the clock read at its publication; its reason is an overflow or that of a kind of failure which the policy has for this packet, and never an internal error |
| `Pipeline.StepConserves` | src/packet/PacketProcessor.cpp:78-240 | Each kind of step keeps conservation of each packet value |
| `Pipeline.StepKeepsHandoff` | src/packet/PacketProcessor.cpp:101-167 | Each kind of step keeps the queue bound, the order and the genuineness of terminal messages |
| `Processor.PacketProcessor.RunInjection` | src/packet/PacketProcessor.cpp:83-99 | The injection section takes exactly the `Inject` step of the pipeline |
| `Processor.PacketProcessor.RunAdmission` | src/packet/PacketProcessor.cpp:101-129 | The admission section takes exactly the `Admit` step |
| `Processor.PacketProcessor.TakeOrExit` | src/packet/PacketProcessor.cpp:145-163 | The worker's lock section exits if and only if the processor is stopped and the queue empty, and otherwise takes the front packet |
| `Processor.PacketProcessor.FinishPacket` | src/packet/PacketProcessor.cpp:169-240 | Validation and terminal publication take exactly the `Finish` step |
| `Processor.PacketProcessor.ProcessLoop` | src/packet/PacketProcessor.cpp:143-167 | Whatever publishers admit and whenever the processor is stopped between its lock sections, the loop takes packets in admission order, settles each with its own verdict, exits only when stopped with nothing left, and otherwise ends up waiting on an empty queue |
| `Replay.SidesAreDetermined` | src/packet/PacketProcessor.cpp:78-240 | In every complete overflow-free run with one publisher, the publisher-side drop history and the worker-side terminal history are the ones the ingress list and the policy determine |
| `Replay.OrderIsDetermined` | docs/runtime/replay-determinism.md:50-53 | Without a conflict between survivors and later injected failures, every complete overflow-free run reports the per-packet outcomes in ingress order |
| `Replay.NoFailureMeansIngressOrder` | docs/runtime/replay-determinism.md:50-53 | With no terminal failure injected, the whole terminal history is the worker's verdict mapped over the ingress |
| `ReplaySchedules.ReplayDeterministicIff` | docs/runtime/replay-determinism.md:50-53 | Every replay of an ingress list reports the same ordered outcomes as every run of that ingress with the given UDP-stage drops if and only if there is no such drop, at most 1024 packets survive injection, and no survivor precedes a failed packet with a different outcome |
| `ReplaySchedules.ConditionSuffices` | src/packet/PacketProcessor.cpp:101-129 | Under the last two conditions no run overflows and each settles the per-packet outcomes in ingress order |
| `ReplaySchedules.TwoReports` | src/packet/PacketProcessor.cpp:78-129 | Too many survivors or a conflict allow two complete runs with different reports |
| `ReplaySchedules.UdpDropsAreNotReplayed` | src/network/UdpReceiver.cpp:184-229 | A drop at the UDP stage is reported in the original run and in no replay |
| `ReplaySchedules.TwoPacketReplayCanReorder` | docs/runtime/replay-determinism.md:50-53 | A lifecycle rule that drops the second of two packets already makes the order depend on the schedule |
| `ReplayVectors.ReplayReproducesOutcomes` | src/replay/ReplayPlayer.cpp:8-19 | For ingress recorded by one thread and played back: the collected vectors, sequence numbers included, agree in all runs if and only if the UDP stage dropped nothing, at most 1024 packets survive injection and no survivor precedes a failed packet at all |
| `ReplayTurns.FailuresFirstSuffices` | src/replay/ReplayOutcomeCollector.cpp:40-62 | Under that condition publisher and worker record one after the other, and every vector is the per-packet outcomes in ingress order numbered by position |
| `ReplayVectors.SwappedRun` | src/replay/ReplayOutcomeCollector.cpp:43-49 | A survivor directly followed by a failed packet has a complete run whose vector is out of order, even where both end alike |
| `ReplayCapture.CollectorNumbersReports` | src/replay/ReplayOutcomeCollector.cpp:9-32 | In every run with any number of publishers and UDP-stage drops, numbers are drawn in the reported order and name their outcomes; at rest the vector holds each number once, one per terminal message |
| `Recordings.NumbersAreUnique` | src/replay/ReplayOutcomeCollector.cpp:40-62 | With any number of recording threads, each stored number leads back to the value that drew it and is stored at most once; at rest the numbers are 0, 1, ..., each exactly once |
| `Recordings.InOrderIffAlone` | src/replay/ReplayOutcomeCollector.cpp:43-49 | Stored order is numbering order in every run if and only if at most one thread records |
| `Recordings.OneThreadRecordsStream` | src/replay/ReplayRecorder.cpp:19-32 | A recorder fed by one thread holds, at rest, exactly the stream it was fed, numbered by position |
| `Recordings.ReplayRecorder.DrawRecord` | src/replay/ReplayRecorder.cpp:26-28 | The atomic increment is the draw of the recording thread, whatever the other threads hold |
| `Recordings.ReplayRecorder.StoreRecord` | src/replay/ReplayRecorder.cpp:30-31 | The locked append is the store of the recording thread |
| `Recordings.ReplayOutcomeCollector.DrawProcessed` | src/replay/ReplayOutcomeCollector.cpp:40-46 | Draws a number for a processed outcome with reason unknown |
| `Recordings.ReplayOutcomeCollector.DrawDropped` | src/replay/ReplayOutcomeCollector.cpp:52-58 | Draws a number for a drop with its reason |
| `Recordings.ReplayOutcomeCollector.StoreOutcome` | src/replay/ReplayOutcomeCollector.cpp:48-62 | The locked append is the store of the recording thread |
| `Recordings.ReplayPlayer.Replay` | src/replay/ReplayPlayer.cpp:8-19 | Publishes the packets of the records, all of them and in order |
| `FailureInjection.FailureInjector.Inject` | src/failure/FailureInjector.cpp:31-56 | The rule loop and the counter give the specified verdict and the specified next counter |
| `FailureInjection.FirstRuleIsFirst` | src/failure/FailureInjector.cpp:36-42 | The rule taken is the first with the packet's lifecycle id, or none |
| `FailureInjection.MatchedHasRule` | src/failure/FailureInjector.cpp:36-42 | A rule is found if and only if one names the lifecycle id |
| `FailureInjection.EveryNthUnmatchedFails` | src/failure/FailureInjector.cpp:44-56 | The m-th unmatched packet is failed if and only if n divides m |
| `FailureInjection.InjectionCount` | src/failure/FailureInjector.cpp:44-56 | M unmatched packets are given exactly floor(M / n) failures |
| `FailureInjection.RuleDecidesMatched` | src/failure/FailureInjector.cpp:36-42 | A matched packet takes its first matching rule whatever was seen before and leaves the counter alone |
| `FailureInjection.FailureKinds` | src/failure/FailureInjector.cpp:8-26 | Exactly four kinds of failure end a packet, and a delay carries the configured time |
| `FailureInjection.FailsOnlyAsConfigured` | src/failure/FailureInjector.cpp:31-56 | A packet is failed only in a way the policy has for it, by one of its rules or periodically; a disabled injector fails and counts nothing |
| `FailureInjection.MatchedDoNotShift` | src/failure/FailureInjector.cpp:31-56 | An unmatched packet gets the verdict it would get had no matched packet arrived |
| `Stats.PacketStats.OnProcessed` | src/packet/PacketStats.cpp:23-59 | The handler's updates are the specified change of all counters, duplicates included |
| `Stats.PacketStats.OnDropped` | src/packet/PacketStats.cpp:61-75 | The same for drops, by reason |
| `Stats.AccountingLaw` | src/packet/PacketStats.cpp:23-88 | For every delivery sequence with repeated ids allowed: each id is credited with its first terminal message only, terminal is the number of distinct ended ids and processed plus drops, terminal plus duplicates is all terminal messages, and each reason's counter is its credits |
| `Stats.HandleAccounts` | src/packet/PacketStats.cpp:23-88 | Each handler keeps the agreement of counters and credits |
| `Stats.AverageBelowMaximum` | src/packet/PacketStats.cpp:44-58 | After any handlers run to completion, the average latency is at most the maximum |
| `Stats.CountersMeasure` | src/packet/PacketStats.cpp:36-58 | For every delivery sequence the byte counter is the payload of the packets credited as processed, and the latency counters are the number, the sum and the largest of their latencies |
| `Verdicts.ReceivedBytesArePayload` | src/packet/PacketStats.cpp:36-37 | In every reachable state the received bytes are the payload lengths summed over the packets credited as processed |
| `Verdicts.EveryProcessedIsSampled` | src/packet/PacketStats.cpp:41-58 | If every processed message has a known and not later ingress time, each packet credited as processed adds exactly one latency sample |
| `Accounting.PipelineAccounting` | src/packet/PacketStats.cpp:23-88 | In every reachable pipeline state terminal plus duplicates is the settled packets plus the UDP-stage drops; once quiet, ingress plus the UDP-stage drops |
| `Accounting.DistinctIdsNeverDuplicate` | src/packet/PacketStats.cpp:29-75 | With distinct lifecycle ids no message is ever counted as a duplicate and every terminal message counts |
| `Accounting.ReachableCounts` | src/daemon/main.cpp:295-296 | Every publication is counted as ingress once its publisher is idle, and the terminal messages delivered for an id are those settled and those dropped at the UDP stage |
| `Snapshots.SnapshotsAreConsistent` | src/packet/PacketStats.cpp:93-131 | In every interleaving a finished snapshot has terminal equal to processed plus drops and received at most processed; if its total was read while no handler was inside its section, average is at most maximum |
| `Snapshots.SnapshotBetween` | src/packet/PacketStats.cpp:95-124 | In every interleaving each value of a finished snapshot, the count of each drop reason included, lies between its own counter's value when the snapshot began and when it was done |
| `Snapshots.UndisturbedSnapshot` | src/packet/PacketStats.cpp:95-124 | If no handler acts meanwhile, the snapshot shows every counter of the statistics |
| `Snapshots.QuietCountersAreConsistent` | src/packet/PacketStats.cpp:29-58 | Whenever no handler is inside its section the counters themselves satisfy these laws |
| `Snapshots.AverageCanExceedMaximum` | src/packet/PacketStats.cpp:93-131 | An interleaving whose snapshot reports an average above its maximum |
| `Snapshots.AverageWithinMaximumIff` | src/packet/PacketStats.cpp:121-131 | From every reachable state in which the total has been read and the maximum not, all completions of the snapshot report average at most maximum if and only if the total read, divided by the samples counted by now (or by one), is at most the maximum reached by now |
| `Snapshots.HandlersAlone` | src/packet/PacketStats.cpp:25-75 | A handler that is not interrupted changes the shared variables exactly as the handlers of `Stats` do |
| `MacTables.MacTable.Learn` | src/switching/MacTable.cpp:12-45 | Updates or inserts, first evicting the oldest entry when full, and does nothing at capacity zero |
| `MacTables.MacTable.ScanOldest` | src/switching/MacTable.cpp:27-42 | The scan finds the entry with the smallest tick, the lowest address among ties |
| `MacTables.MacTable.AgeOut` | src/switching/MacTable.cpp:57-72 | Keeps exactly the entries within the age limit |
| `MacTables.TableAgreesWithHistory` | src/switching/MacTable.cpp:12-72 | In every run of learning and ageing, with any ticks, the table is within capacity and each entry is the last learn of its address |
| `MacTables.EvictionIsOldest` | src/switching/MacTable.cpp:27-45 | Learning forgets only the oldest entry, and only a new address on a full table does so |
| `MacTables.AgeingLimit` | src/switching/MacTable.cpp:57-72 | An entry survives if and only if its age in 64-bit arithmetic is within the limit |
| `MacTables.LruRefinement` | src/switching/MacTable.cpp:12-45 | With strictly increasing ticks the table is exactly the capacity-many most recently seen addresses with their last port and tick |
| `MacTables.LastIsLastLearn` | src/switching/MacTable.cpp:12-26 | The reference table of that refinement is the history of last learns |
| `MacTables.MostRecentCount` | src/switching/MacTable.cpp:12-45 | It holds all addresses seen, or capacity many |
| `MacTables.GrowingKeepsHits` | src/switching/MacTable.cpp:12-72 | On any operations, with any ticks and with ageing, a smaller table is a sub-map of a larger one |
| `Forwarding.InterfaceRegistry.ActivePortIds` | src/switching/InterfaceRegistry.cpp:48-61 | Lists exactly the Up ports in strictly ascending order |
| `Forwarding.SwitchForwardingEngine.ProcessPacket` | src/switching/SwitchForwardingEngine.cpp:13-66 | Drops a packet without addresses; otherwise learns the source and decides as the table and the ports demand |
| `Forwarding.DecisionDetermined` | src/switching/SwitchForwardingEngine.cpp:25-66 | Those demands leave one decision, egress order included |
| `Forwarding.TableFollowsOps` | src/switching/SwitchForwardingEngine.cpp:13-30 | Over a run the engine's table is the table of the learn and ageing operations its events perform |
| `Forwarding.ForwardingAgreesWithHistory` | src/switching/SwitchForwardingEngine.cpp:13-66 | In every run of packets, ageing and port changes: a forward names the one Up port on which the latest packet from the destination arrived, a drop had such a port not Up, a flood is exactly the Up ports but ingress, ascending |
| `Forwarding.BroadcastFloods` | src/switching/SwitchForwardingEngine.cpp:20-36 | A broadcast is flooded to every Up port but the ingress, in ascending order, and its source is learned on the ingress port |
| `Forwarding.PortsFollowHistory` | src/switching/InterfaceRegistry.cpp:7-46 | Through every run a port is known exactly when some event registers it, later registrations change nothing, and its state is the last word since the first one |
| `Forwarding.FloodsExactlyTheForgotten` | src/switching/SwitchForwardingEngine.cpp:31-66 | Without ageing and with strictly increasing ticks, a non-broadcast destination is flooded if and only if it is not among the capacity-many most recent sources |
| `PacketWorker.TransportManager.Transmit` | src/transport/TransportManager.cpp:14-54 | Returns the backend's answer or backend-unavailable, and counts it |
| `PacketWorker.TallyConserves` | src/transport/TransportManager.cpp:14-54 | Over any results: successes plus failures are all results, each named counter is its results, and failures without a counter of their own are the send failures |
| `PacketWorker.Worker.ProcessPacket` | src/packet/PacketProcessor.cpp:169-240 | The new state is the handled one: one block published, the table and the decision of the engine for a switched packet only (a drop and an unchanged table without addresses), one transmission per egress port, each counted |
| `PacketWorker.HandlingPublishes` | src/packet/PacketProcessor.cpp:171-239 | A forwarding decision is published before the processed message if and only if there is an engine and the packet has an ingress port, at most 512 characters of payload and a time stamp; every other packet is only ended and changes neither table nor counters |
| `PacketWorker.HandlingArrives` | src/packet/PacketProcessor.cpp:201-204 | Exactly then the run's forwarding events gain the packet's arrival, on its ingress port and at its time stamp |
| `PacketWorker.HandlingTransmits` | src/packet/PacketProcessor.cpp:206-220 | Once per egress port of the published decision, in order: the backend's answer, or backend-unavailable and no bytes for a port without one |
| `PacketWorker.BackendsAreRegistered` | src/transport/TransportManager.cpp:8-12 | The backends are those registered so far |
| `PacketWorker.Worker.TransmitAll` | src/packet/PacketProcessor.cpp:205-220 | One transmission per egress port in order, each counted |
| `PacketWorker.TransmitConservation` | src/packet/PacketProcessor.cpp:169-240 | At every block boundary of every run of packets, ageing, port changes, new backends and counter resets, with decisions and results computed from the run: publications are blocks (a forwarding decision is directly followed by processed with the same lifecycle), and since the last reset successes plus failures are the egress ports of all decisions, and failures without a counter of their own are the send failures |
| `PacketWorker.WorkForwards` | src/packet/PacketProcessor.cpp:201-204 | Through every run the worker's table and ports are those of its forwarding events |
| `PacketWorker.PublishedDecision` | src/packet/PacketProcessor.cpp:201-229 | The decision published for a packet that meets these conditions: with both addresses the one the history of the run demands, so that `Forwarding.ForwardingAgreesWithHistory` and `Forwarding.BroadcastFloods` hold of it; otherwise a drop |
| `Switching.WorkerFollowsTaken` | src/packet/PacketProcessor.cpp:143-240 | In every pipeline run with any number of publishers and the control plane at work, the worker handles the packets taken, in order, and its table is the table of the forwarding events this amounts to |
| `Switching.ForwardingIsDetermined` | src/packet/PacketProcessor.cpp:78-240 | With one publisher, no overflow and no control step after start-up, the table and the published forwarding decisions are a function of the ingress, even where the terminal order is not |
| `PacketWorker.LogGrows` | src/packet/PacketProcessor.cpp:169-240 | One more packet keeps the block structure and adds its decision's egress ports |
| `Telemetry.TelemetryExportManager.EnqueueSample` | src/telemetry/TelemetryExportManager.cpp:35-67 | Stamps, evicts the oldest when full and appends, as the step system says; at capacity zero only counts a drop |
| `Telemetry.TelemetryExportManager.TakeOrReturn` | src/telemetry/TelemetryExportManager.cpp:91-116 | Takes the front sample, or returns if and only if stopped and empty |
| `Telemetry.ExportAccounting` | src/telemetry/TelemetryExportManager.cpp:35-116 | In every interleaving all samples are exported, in hand, queued or dropped; what leaves is what entered without the evicted, in order; a sample is dropped only to make room in a full queue; each stamp's drop count is the evictions up to its entry and its queue size the samples entered and not left by then, between 1 and the capacity; with the samples popped before, it gives the place of entry |
| `Telemetry.ReturnsDrained` | src/telemetry/TelemetryExportManager.cpp:91-116 | When the export loop returns, every sample that entered was exported or dropped |
| `Smoother.WindowedEwmaRateSmoother.Observe` | src/telemetry/WindowedEwmaRateSmoother.cpp:19-80 | First observation, counter reset, too short a window and accepted window each give the specified state |
| `Smoother.SmoothedTracksRates` | src/telemetry/WindowedEwmaRateSmoother.cpp:19-80 | After any observations the smoothed value blends exactly the rates accepted since the last counter reset, and the reported rates are the rounded ones |
| `Smoother.OneMoreObservation` | src/telemetry/WindowedEwmaRateSmoother.cpp:19-80 | After any observations, one more starts over if it is the first or its counter is smaller; otherwise it closes a window of the time passed, through 2^64, if that is not zero and at least the configured time, with rate times length the growth; and changes nothing if not |
| `Smoother.RoundsToNearest` | src/telemetry/WindowedEwmaRateSmoother.cpp:55-71 | Rounding gives the nearest integer, halves away from zero |
| `Smoother.SmoothedIsConvexCombination` | src/telemetry/WindowedEwmaRateSmoother.cpp:58-80 | The smoothed value is a combination of those rates with nonnegative weights that sum to one |
| `Smoother.SmoothedBetweenRates` | src/telemetry/WindowedEwmaRateSmoother.cpp:58-80 | The reported smoothed rate lies between two reported raw rates |
| `Smoother.WindowsTelescope` | src/telemetry/WindowedEwmaRateSmoother.cpp:28-57 | Rate times elapsed time over the accepted windows sums to the counter's growth |
| `Smoother.ConstantRateError` | src/telemetry/WindowedEwmaRateSmoother.cpp:58-80 | Under a constant rate, m accepted windows multiply the error by (1 - alpha)^m |
| `Descriptors.OwnershipIsExclusive` | src/system/fd/FileDescriptor.cpp:12-90 | In every interleaving with the kernel reusing closed numbers, an open descriptor has at most one owner and every active record names an open descriptor owned by a registry-bound object |
| `Descriptors.ClosesOncePerOpen` | src/system/fd/FileDescriptor.cpp:72-90 | Opens and closes of each number alternate, and an object about to close holds an open descriptor |
| `Descriptors.NoOwnerNoActiveRecord` | src/system/fd/FdRegistry.cpp:10-34 | Once all objects are destroyed no record is active |
| `Descriptors.RegistryIsToldFirst` | src/system/fd/FileDescriptor.cpp:12-90 | The record of a registry-bound object's descriptor is active while the object has it, marked closed before it is removed, gone when the number is closed, and marked released when it is handed out |
| `Descriptors.NoDescriptorLeaks` | src/system/fd/FileDescriptor.cpp:12-90 | What is open and not in a caller's hands is held by exactly one object; once all objects are destroyed, all that they took over is closed or was released |
| `Descriptors.StepExclusive` | src/system/fd/FileDescriptor.cpp:58-90 | Each step of a method keeps exclusive ownership |
| `Descriptors.StepTruthful` | src/system/fd/FdRegistry.cpp:10-34 | Each step keeps active records truthful, which rests on unregistering before closing |
| `FileDescriptors.FileDescriptor.Release` | src/system/fd/FileDescriptor.cpp:58-70 | Hands the descriptor out unclosed; its record, if there is one, has state released, and all other records are unchanged |
| `FileDescriptors.FileDescriptor.Reset` | src/system/fd/FileDescriptor.cpp:72-90 | Mark, unregister, close, assign, register, in this order; the old record is gone, the new one is active, all others are unchanged |
| `FileDescriptors.FileDescriptor.MoveAssign` | src/system/fd/FileDescriptor.cpp:31-45 | Gives up its own descriptor and record, takes the other's; other records are unchanged, and assignment to itself changes nothing |
| `FileDescriptors.FileDescriptor.Destroy` | src/system/fd/FileDescriptor.cpp:19-22 | The destructor gives up descriptor and record, with the calls of a reset |
| `FileDescriptors.ResetAlone` | src/system/fd/FileDescriptor.cpp:72-90 | The uninterrupted path of a reset through the step system makes the method's calls in the method's order and ends in the method's state |
| `FileDescriptors.ReleaseAlone` | src/system/fd/FileDescriptor.cpp:58-70 | The same for release, records included |
| `EventLoop.EventFd.Notify` | src/system/event_source/EventFd.cpp:43-65 | Retries interruptions, and adds one exactly when the write completes |
| `EventLoop.EventFd.Drain` | src/system/event_source/EventFd.cpp:67-95 | Retries interruptions, and takes the whole counter exactly when the read completes |
| `EventLoop.RetriesUntilFirst` | src/system/event_source/EventFd.cpp:43-95 | The retry loops stop on the first outcome that is not an interruption, and only on such |
| `EventLoop.EpollEventLoop.Stop` | src/system/epoll/EpollEventLoop.cpp:38-46 | Clears the flag and notifies if and only if it was set |
| `EventLoop.StopProtocol` | src/system/epoll/EpollEventLoop.cpp:16-46 | In every interleaving with any number of stop calls, whose writes may throw: at most one notify; exactly one winner once the flag is cleared; a loop that waits with the flag cleared has a readable eventfd if and only if the winner has written; at most one more batch is dispatched |
| `EventLoop.StopTakesEffectIff` | src/system/epoll/EpollEventLoop.cpp:16-46 | In every interleaving, once the flag has been stored: the loop has been told to stop if and only if some exchange of a stop call follows that store, and it exits only then; otherwise nothing has been notified |
| `EventLoop.EarlyStopIsLost` | src/system/epoll/EpollEventLoop.cpp:18-45 | A run in which a stop before the flag is stored leaves the loop waiting with nothing notified |
| `Parser.FindsFirst` | src/packet/PacketParser.cpp:13-17 | The search finds the first occurrence from a position, and none if there is none |
| `Parser.ParseRoundTrip` | src/packet/PacketParser.cpp:5-53 | For every 64-bit id and every payload without a semicolon, parsing the datagram text returns both |
| `Parser.ParseWithMore` | src/packet/PacketParser.cpp:37-46 | A further field after the payload does not change what is parsed |
| `Parser.ParseSays` | src/packet/PacketParser.cpp:5-53 | For every text: it is parsed to an id and a payload if and only if its first `id=` field reads as that number and its first `payload=` field, up to the next semicolon, is that payload, or is missing and the payload empty |
| `Parser.NumberReads` | src/packet/PacketParser.cpp:28-35 | Blanks before a number and anything after it are ignored, a value of 2^64 or more is refused, and a minus sign counts back from 2^64 |
| `Parser.OnlyNumbersRead` | src/packet/PacketParser.cpp:28-35 | Only such texts read as a number |
| `Parser.PlaceValue` | src/packet/PacketParser.cpp:28-30 | The first of n + 1 digits counts 10^n |
| `Udp.Trichotomy` | src/network/UdpReceiver.cpp:174-240 | A datagram ends in exactly one of parse drop, validation drop and arrival, each if and only if its condition on text, payload and source holds; a drop carries the lifecycle id, packet id and clock; an arrival carries, field by field, what the read reported, the ingress time included, and neither addresses nor a port |
| `Udp.BufferHoldsPrefix` | src/network/UdpReceiver.cpp:139-176 | Of a datagram the first 1024 characters are received |
| `Udp.BlankTexts` | src/packet/PacketValidator.cpp:35-38 | A payload is blank if it consists of the six white-space characters |
| `Udp.WellFormedArrives` | src/network/UdpReceiver.cpp:174-240 | A well-formed datagram arrives with its id and payload if and only if the validator's conditions hold, and is otherwise dropped under its id |
| `Udp.OneMessagePerDatagram` | src/network/UdpReceiver.cpp:179-240 | For every datagram sequence: consecutive fresh lifecycle ids, one message each, and every arrival validated |
| `Udp.WakeupKeepsOneEach` | src/network/UdpReceiver.cpp:248-282 | Every wake-up keeps that each id handed out has exactly one message |
| `Udp.UdpReceiver.HandleReadable` | src/network/UdpReceiver.cpp:137-241 | Each outcome of the read gives the specified message, id use, running flag and result; the datagram is echoed to its source if and only if it is published as an arrival |
| `Udp.UdpReceiver.ProcessReadableEvent` | src/network/UdpReceiver.cpp:248-282 | Terminates after at most 256 datagrams, and earlier only at the first read without one; publishes one message per datagram in order |
| `Udp.WorkerAccepts` | src/packet/PacketProcessor.cpp:171-197 | A validated packet is processed by the worker if and only if its clock reading is not zero |
| `Udp.UdpPacketsAreProcessed` | src/packet/PacketProcessor.cpp:171-197 | In every reachable pipeline state fed by UDP ingress with a nonzero clock, every message of the worker is a processed one |
| `Udp.DatagramIsSampled` | src/packet/PacketStats.cpp:36-58 | A datagram that arrives and is processed counts once with the bytes of its payload, and adds one latency sample, from its read to the handler's clock, if and only if its ingress time is known and not later |
| `Udp.DatagramsAreAccounted` | src/packet/PacketStats.cpp:23-88 | With UDP as the only source, in every interleaving no datagram counts as a duplicate, and once drained terminal, and processed plus drops, equal the number of datagrams |
| `MacText.ToString` | src/switching/MacAddress.cpp:12-25 | The loop writes the specified text |
| `MacText.FromString` | src/switching/MacAddress.cpp:66-92 | The loop accepts exactly the well-formed texts and returns their bytes |
| `MacText.TextRoundTrip` | src/switching/MacAddress.cpp:12-92 | Parsing the text of any address returns the address |
| `MacText.ParsedTextIsLowerCase` | src/switching/MacAddress.cpp:52-92 | The text of a parsed address is the accepted string in lower case |
| `MacText.HexDigitValues` | src/switching/MacAddress.cpp:52-64 | Decimal digits and letters in either case have their values, and every other character is refused |
| `MacText.TextReadsAsBytes` | src/switching/MacAddress.cpp:12-25 | The text is the bytes from left to right, each with its high digit first |
| `MacText.IsBroadcast` | src/switching/MacAddress.cpp:32-40 | True if and only if the address is the broadcast number |
| `MacText.ByteOrderIsNumericOrder` | include/edgenetswitch/switching/MacAddress.hpp:27-28 | Byte-wise comparison of addresses is comparison of their numbers |

## Left out

- ReplaySchedules.ReplayDeterministicIff: for one publisher, as replay has; several publishers do not even determine the ingress order.
- ReplayVectors.ReplayReproducesOutcomes: for one publisher and one recording thread of ingress, for the same reason.
- Switching.WorkerFollowsTaken: a step of the control plane falls between two packets of the worker, never within the handling of one.
- Descriptors.OwnershipIsExclusive: one registry, so an object is bound to it or not; the descriptor types are in `FileDescriptor.dfy` only.
- `MessagingBus`: subscription and dispatch appear as the order in which subscribers handle a message (the processor before the statistics), not as a table of callbacks.
- System calls on sockets, epoll and eventfd are inputs that report what the call returned; port backends are inputs too.
- Clocks are inputs; sleeps and artificial delays have no effect on outcomes and are not modelled.
- Liveness: that a blocked thread is woken and joins at shutdown is not claimed, since the code does not guarantee it.
- Starting the telemetry export loop again while the previous one is still draining is not a step of the model.
- Weak memory: interleavings are sequentially consistent, and the injector's unsynchronised counter is one atomic step.
- Counters are unbounded; 64-bit wrap-around is modelled in the ageing subtraction, the smoother's elapsed time and the parser only.
- IEEE 754 rounding: the smoother uses real numbers, and `llround` of values beyond 64 bits is not modelled.
- Characters with a negative code are taken not to be blanks.
- The control plane, configuration, logging, JSON, health monitoring and the exporters: they format or forward values and would only add easy members.
- The processing gap and the pending count of a snapshot: differences of the values it has read.
- `PacketStats::drops`, `PacketStats::onTerminal` and the idle-poll counter: the first two are not part of the counting paths, the last counts one event.
