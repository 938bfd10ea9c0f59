# USAC verification

The USAC system captures raw ultrasonic frames on an MSP430, streams them over USB to a bridge,
and keeps them in a durable archive behind a core process. This project models the four connected
state machines that carry one frame from the ADC buffer to the archive, in Dafny, and proves what
each of them keeps.

**Durable delivery.** `Spool` and `CoreStore` give the bridge's and the core's tables and the
transactions over them; `CaptureStore.dfy` and the class in `Spool.dfy` perform those transactions
on their own fields. `DeliverySystem` is one machine of interleaved steps: the bridge's serial loop
and core reader, the core's client with its single pending slot, two FIFO directions, and crashes
or disconnects between any two steps. `Handoff`, `Lockstep`, `Forwarding`, `Accounting`,
`ExactlyOnce`, `SpoolOrder`, `EarlyCapture`, `ResolvedTwice`, `DeviceClient`, `History` and `Recount`
prove that nothing is lost or made up, that deliveries and responses stay in step, that commands keep
their order, and exactly when every capture is resolved once and the session accounts are right, over
all runs. `NeverRefused`, `ReplayProgress` and `CaptureProgress` prove that this gets somewhere: no
delivery is refused by the store, HELLO leads to a drained spool and forwarded commands, and each
capture can be handed over.

**Framing.** `Crc32` is the reflected CRC-32 as polynomial arithmetic, with full burst detection.
`HostStream` is a position-by-position scan; `HostStreamParser` is the buffering parser that
performs it, and `StreamFrames` says which runs of it return every frame. `McuParser` and
`McuWire` are the byte-at-a-time parser and the encoder of the firmware. `CaptureData`,
`CaptureStream`, `CaptureSender`, `MainLoop` and `UnsteadyReading` follow one waveform from
descriptor and DMA buffer through the segmented sender and the main loop to the host's decoder;
`SendProgress` proves that a waiting capture or request can always be sent or answered, and `EndToEnd`
joins this to the archive.

**Schedules and leases.** `Schedule` and `CaptureSchedule` are the firmware's countdown scheduler,
`Simulator` its absolute-time twin, `LeaseSafety` the quantum counter with the fail-safe bound and its
converse, `PeriodicLease` the controller that keeps a lease alive.

**Commands and hardware.** `Profile`, `Configurator` and `ConfigV2` are the register profiles, the
configurator over an arbitrary bus and the configuration codec on both sides; `ConfiguratorExact` says
when each result is returned. `FirmwareApp` is the command dispatcher with hardware that may answer
anything; `HardwareSafety` and `Idempotence` are properties of its trace. `DeviceMessages` is the host's
side of commands and responses: `FirmwareWire`, `MessagesAgree`, `ConfigInForce` and `CaptureMade` prove
that both sides mean the same by them.

Where the source mutates an object, a class performs the operation and its contract equates the
new state with a specification function of the old one; the properties are lemmas about those
functions and about runs. SHA-256 (section 6.2 of FIPS 180-4) is one arbitrary function shared by
host and firmware. Clocks, randomness, request identifiers, bus and board answers are parameters
that may take any value.

Five statements one might expect are false of the code. Each is replaced by the exact condition
under which it holds:

- A capture is resolved once, unless the core has forgotten it: the tombstone is pruned after 4096
  later resolutions. `ExactlyOnce.ResolvedExactlyOnce` is an if and only if over all runs, and
  `ResolvedTwice.EarlyFramesForget` a run in which it happens. Nothing is ever forgotten when
  captures are resolved in spool order. That order holds as long as every live capture is stored at
  the head of the spool (`SpoolOrder.ResolvedInOrder`), which a bridge could test at the insert and
  a device that sends captures only after HELLO never violates
  (`EarlyCapture.WaitingForHelloSuffices`); `EarlyCapture.OvertakingDisorders` says exactly when an
  early capture breaks it. Whatever happens, nothing is lost or archived twice.
- The main loop reads the USB connection state twice in one arbitration. If the link comes back
  between the two readings a command can run while a frame is under way, and
  `UnsteadyReading.UnsteadySpoils` says when that can complete a frame the host refuses: if and only
  if a frame is under way, none of its segments is just being sent, the link is up and input waits.
  Once the header has left any answered command will do; before that it takes one that makes another
  capture, which the application accepts only when idle, configured and without a clock fault. The end-to-end results
  hold for every run without that case.
- The stream parser returns exactly the frames of a clean stream if and only if no call meets a
  candidate older than two seconds or overflows the buffer by more than noise
  (`StreamFrames.FramesRecovered`).
- The answer to HELLO starts a replay that can drain the spool and enable forwarding, unless rows are
  pending and more than eight commands already wait (`ReplayProgress.HelloReplays`, an if and only if
  over all reachable states whose rows can be delivered under a registered policy).
- The simulator answers START, STOP and short renewals differently from the firmware in the cases
  that `Simulator.StartAgrees`, `Simulator.StopAgrees` and `Simulator.RenewalAgrees` delimit in
  both directions; `Simulator.AlikeExactly` puts them together.

The stream parser's documentation promises recovery from corrupt input; the runtime bridge
assembles frames with its own blocking reader, so the parser results are about the parser alone.

## Model

| member | source | states |
|---|---|---|
| Spool.StoreKeeps | packages/usac_runtime/src/usac_runtime/spool.py:119-184 | a stored frame is appended in record order or is the row already pending with the same bytes; the spool stays ordered, unique by identity and disjoint from its tombstones |
| Spool.MarkRemoves | packages/usac_runtime/src/usac_runtime/spool.py:200-247 | a receipt that is accepted removes exactly the one pending row whose record, identity and checksum it names, and no other |
| Spool.MarkAccepts | packages/usac_runtime/src/usac_runtime/spool.py:200-247 | the receipt of a pending row is always accepted: no unique column of the tombstone table can refuse it |
| Spool.MarkTwice | packages/usac_runtime/src/usac_runtime/spool.py:249-266 | the same receipt again is answered as already committed and changes nothing, while its marker is kept |
| Spool.CaptureSpool.StoreCapture | packages/usac_runtime/src/usac_runtime/spool.py:119-184 | the object's insert is the specified one, and a refusal leaves the tables alone |
| Spool.CaptureSpool.PendingRecords | packages/usac_runtime/src/usac_runtime/spool.py:186-198 | the oldest rows, at most limit of them, in delivery order |
| Spool.CaptureSpool.MarkCommitted | packages/usac_runtime/src/usac_runtime/spool.py:200-266 | delete, tombstone and pruning as one transaction, with both conflict branches |
| CaptureStoreObject.CaptureStore.CommitDelivery | packages/usac_runtime/src/usac_runtime/core_store.py:1176-1356 | the transaction, statement by statement, gives exactly the specified tables, receipt and resolution; a refusal rolls back |
| CaptureStoreObject.CaptureStore.ArchiveDelivery | packages/usac_runtime/src/usac_runtime/core_store.py:1036-1162 | insert, reuse of an identical row, or the storage conflict |
| CaptureStoreObject.CaptureStore.CommitTerminalReplay | packages/usac_runtime/src/usac_runtime/core_store.py:845-973 | a late frame of a closed session: withdrawal of the frozen row, archive, decision and recount in one transaction, all or nothing |
| CaptureStoreObject.CaptureStore.CommitReplayedDelivery | packages/usac_runtime/src/usac_runtime/core_store.py:783-843 | remembered decision, missing context, closed session or ordinary commit, in this order |
| CaptureStoreObject.CaptureStore.FinalizeLatestCapture | packages/usac_runtime/src/usac_runtime/core_store.py:1384-1450 | the rolling frame moves into the archive and its tombstone says so |
| CaptureStoreObject.CaptureStore.FinalizeSummary | packages/usac_runtime/src/usac_runtime/core_store.py:1521-1583 | the summary is recounted from the tables after the rolling frame is frozen |
| CaptureStoreObject.CaptureStore.ReconcileInterrupted | packages/usac_runtime/src/usac_runtime/core_store.py:1585-1600 | after a restart every open session is closed as interrupted, everything stays accounted for, closed summaries are untouched and the number returned is the number closed |
| CaptureStoreObject.OneClosed | packages/usac_runtime/src/usac_runtime/core_store.py:1585-1600 | closing one more abandoned session cannot fail and keeps the accounts of all sessions |
| Accounting.CommitNewAccounted | packages/usac_runtime/src/usac_runtime/core_store.py:1233-1340 | committing a new capture under any policy leaves tombstones, archive, rolling frame, counters and summaries agreeing with the log of resolutions |
| Accounting.TerminalReplayAccounted | packages/usac_runtime/src/usac_runtime/core_store.py:845-973 | so does absorbing a late frame into a session that has ended |
| Accounting.FinalizeAccounted | packages/usac_runtime/src/usac_runtime/core_store.py:1521-1583 | so does ending a session or recounting one, and this cannot fail |
| Accounting.SessionRowAccounted | packages/usac_runtime/src/usac_runtime/core_store.py:1481-1497 | so does saving the summary of a running session |
| Accounting.NewestRemembered | packages/usac_runtime/src/usac_runtime/core_store.py:1164-1174 | pruning to 4096 rows never forgets the newest resolution |
| Accounting.ArchivedIsLogged | packages/usac_runtime/src/usac_runtime/core_store.py:1036-1162 | every archived row is a resolved capture with the same bytes |
| Handoff.OnlyReceiptsRemove | packages/usac_runtime/src/usac_runtime/bridge_session.py:188-222 | whatever the action, a frame that leaves the spool was named by the receipt just read, by record, identity and checksum, and the core had resolved it |
| Handoff.StepKeeps | packages/usac_runtime/src/usac_runtime/bridge_session.py:157-275 | each step of bridge, core, crash or disconnect keeps every stored frame pending or resolved |
| Lockstep.NoCaptureLost | packages/usac_runtime/src/usac_runtime/spool.py:119-266 | in every run with crashes and disconnects anywhere, each frame ever stored is pending or resolved with the same bytes |
| Lockstep.LockstepAlways | packages/usac_runtime/src/usac_runtime/bridge_device_client.py:329-356 | whatever the two threads do, the single receive after a receipt reads the matching response, the reader always finds the event it sets, and at most one delivery is in flight |
| Lockstep.ReceiptsAlwaysMatch | packages/usac_runtime/src/usac_runtime/bridge_session.py:188-223 | in every run a receipt that reaches the bridge names the row being waited for and takes exactly that row out of the spool |
| History.StoredForever | packages/usac_runtime/src/usac_runtime/spool.py:119-266 | what the spool held at any moment is pending or resolved with those bytes at every later moment, and no resolution is undone |
| History.RemovedByReceipt | packages/usac_runtime/src/usac_runtime/spool.py:200-247 | over any stretch of any run, a row pending at its start and gone at its end was taken out at one of its steps by the receipt for exactly that row, its capture resolved by then |
| History.ResolvedOrigin | packages/usac_runtime/src/usac_runtime/bridge_session.py:244-275 | nothing is made up on the way: each resolved capture has the bytes of a frame pending at the start or read from the device during the run |
| Forwarding.CommandsInOrder | packages/usac_runtime/src/usac_runtime/bridge_session.py:223-266 | for every interleaving of the two threads the non-HELLO commands written to the device are a prefix of those sent, in order, the rest is still queued, and none is written before forwarding |
| Forwarding.ForwardingStartsDrained | packages/usac_runtime/src/usac_runtime/bridge_session.py:252-266 | forwarding is enabled only with an empty spool |
| ExactlyOnce.ResolvedExactlyOnce | packages/usac_runtime/src/usac_runtime/core_store.py:1164-1340 | over all runs, early captures and lost acknowledgements included: every identity is resolved once, and every table agrees with the log of resolutions, if and only if no commit went through for a resolved capture whose tombstone had been pruned; no run of at most 4096 resolutions has such a commit |
| ExactlyOnce.ForgettingTakesLong | packages/usac_runtime/src/usac_runtime/core_store.py:1164-1174 | the first such commit comes after at least 4096 resolutions later than the one it repeats |
| ExactlyOnce.ArchivedAtMostOnce | packages/usac_runtime/src/usac_runtime/core_store.py:1036-1162 | in every run no identity is archived twice, and each row is keyed by the identity in its own bytes and holds a resolved capture; without such a commit a tombstone says RAW_ARCHIVED exactly when the archive holds the frame it describes |
| ExactlyOnce.SessionsAccounted | packages/usac_runtime/src/usac_runtime/core_store.py:1521-1583 | in every run without such a commit, each ended session has acquired = saved + discarded, saved as its policy demands, the last capture resolved and the last one saved by name, and under SAVE_LAST the last resolved frame as its row |
| ResolvedTwice.EarlyFramesForget | packages/usac_runtime/src/usac_runtime/core_store.py:1219-1340 | such a commit does happen, under any policy: 4097 frames sent early to a core that goes down before each receipt, then the first one again, are counted as 4098 captures |
| SpoolOrder.ResolvedInOrder | packages/usac_runtime/src/usac_runtime/core_store.py:1219-1340 | as long as no live capture is stored behind a pending one, only the oldest pending frame can be resolved and unacknowledged, it is the newest resolution, and nothing is ever forgotten, however long the run |
| EarlyCapture.OvertakingDisorders | packages/usac_runtime/src/usac_runtime/bridge_session.py:268-275 | from any state of such an orderly run, a live capture stored unchecked has some orderly continuation that resolves captures out of order if and only if it was stored behind another pending row, can be delivered, and a core is connected |
| EarlyCapture.WaitingForHelloSuffices | packages/usac_runtime/src/usac_runtime/bridge_session.py:252-266 | a device that sends captures only once commands are forwarded never overtakes: its runs are orderly, resolve in order and forget nothing |
| DeviceClient.ReceiptsAreResolved | packages/usac_runtime/src/usac_runtime/bridge_device_client.py:320-343 | in every run the receipt about to be sent is for a capture resolved with exactly the delivered bytes, and every receipt on the stream names a resolved capture |
| DeviceClient.BridgeDeviceClient.Receive | packages/usac_runtime/src/usac_runtime/bridge_device_client.py:152-178 | a reply, one delivery into the empty slot, or the awaited response; anything else ends the link |
| DeviceClient.PendingBlocksCommands | packages/usac_runtime/src/usac_runtime/bridge_device_client.py:120-123 | in every run, a core that holds a delivery sends no command and takes no other delivery before it has read the response to this very delivery, or its link went down |
| DeviceClient.BridgeDeviceClient.PersistLive | packages/usac_runtime/src/usac_runtime/application.py:454-551 | the transaction precedes the receipt, and a refused one leaves the delivery undecided |
| DeviceClient.BridgeDeviceClient.PersistReplay | packages/usac_runtime/src/usac_runtime/bridge_device_client.py:152-171 | a replayed frame is resolved by its stored policy before it is confirmed |
| DeviceClient.BridgeDeviceClient.Confirm | packages/usac_runtime/src/usac_runtime/bridge_device_client.py:320-343 | the receipt sent is the transaction's, under the delivery's sequence |
| BridgeMessages.DeliveryInverse | packages/usac_protocol/src/usac_protocol/bridge_messages.py:35-69 | encoding and decoding a delivery undo each other on exactly what either accepts |
| BridgeMessages.ReceiptInverse | packages/usac_protocol/src/usac_protocol/bridge_messages.py:85-99 | so do those of a receipt |
| BridgeMessages.CommittedReads | packages/usac_protocol/src/usac_protocol/bridge_messages.py:103-125 | the client reads the response the bridge wrote |
| BridgeMessages.BridgeFramesPermitted | packages/usac_protocol/src/usac_protocol/message_lengths.py:16-94 | every delivery, receipt and response is a frame the policy permits, and the permitted delivery lengths are exactly those of the inner frames the codec accepts |
| Spool.StoreExactly | packages/usac_runtime/src/usac_runtime/spool.py:119-184 | a capture is refused as invalid or as conflicting exactly when it has no identity or range, or other bytes of its identity are pending; it is answered with the pending row of the same bytes, and otherwise becomes the newest row with its source |
| Spool.PruneExactly | packages/usac_runtime/src/usac_runtime/spool.py:236-246 | pruning leaves other devices' markers alone and of this device's keeps the newest, min(limit, all) of them |
| NeverRefused.RememberedAnswered | packages/usac_runtime/src/usac_runtime/core_store.py:783-843 | every capture whose tombstone is kept is answered again with the same tables, this delivery's receipt, inserted false and the kept resolution, RAW_ARCHIVED exactly when its row is archived, by live commit under any policy and session, by replay and by a late frame; other checksum or digest under its identity is refused |
| NeverRefused.CommitsAccepted | packages/usac_runtime/src/usac_runtime/core_store.py:1219-1232 | in every run, whatever was forgotten, no storage conflict arises: a delivery is resolved by a commit for any named session, and by a replay if and only if it is remembered or its boot has a policy; a remembered one changes no table |
| NeverRefused.InsertedExactly | packages/usac_runtime/src/usac_runtime/core_store.py:1233-1340 | a resolved commit reports an insertion exactly when no tombstone remembers the identity and, where the policy archives, no row holds it; what it calls archived is then in the archive with these bytes |
| NeverRefused.SummariesStored | packages/usac_runtime/src/usac_runtime/core_store.py:1481-1583 | in every run a running summary is stored as it is and ending a session always ends it, with its state and policy, and touches no other session |
| Recount.RecountedAlike | packages/usac_runtime/src/usac_runtime/core_store.py:1521-1583 | up to 4096 resolutions, ending a session gives the same tables and summary whether its counter was kept or its captures are recounted from the tombstones |
| ReplayProgress.HelloReplays | packages/usac_runtime/src/usac_runtime/bridge_session.py:252-266 | from every reachable state with both ends up, the bridge reading and each pending row deliverable with a policy: after the HELLO response bridge and core can by themselves drain the spool, start forwarding, resolve everything stored and write all commands in order, if and only if nothing is pending or at most eight commands wait |
| CaptureProgress.CaptureHandedOver | packages/usac_runtime/src/usac_runtime/bridge_session.py:268-275 | from every reachable state with the bridge reading and room for the commands that wait, a deliverable capture the spool takes can be delivered, resolved by any named open session and acknowledged; only its row leaves the spool and the bridge reads on, forwarding or not as before |
| CaptureProgress.HelloPasses | packages/usac_runtime/src/usac_runtime/bridge_session.py:223-236 | a HELLO at the head of the stream is written at once, before the commands held back |
| Crc32.McuCrc32 | firmware/src/usac_mcu_protocol.c:47-64 | the nested loops compute the reflected CRC-32 of section 8 of RFC 1952 |
| Crc32.CrcUpdate | firmware/src/usac_capture_stream.c:41-54 | the resumable form computes the same register |
| Crc32.UpdateConcat | firmware/src/usac_capture_stream.c:36-59 | updating piece by piece is one update of the concatenation |
| Crc32.UpdateIsPolynomial | firmware/src/usac_mcu_protocol.c:47-64 | feeding bytes is a bitwise polynomial division of their little-endian number |
| Crc32.TailPassesIffResidue | firmware/src/usac_mcu_protocol.c:252-260 | a tail passes its check exactly when the register over all of it, checksum included, is one fixed residue |
| Crc32.BurstDetected | firmware/src/usac_mcu_protocol.c:252-260 | two tails that differ in any burst of up to 32 bits, at any bit alignment, never both pass |
| Crc32.FourByteBurstDetected | firmware/src/usac_mcu_protocol.c:252-260 | two tails that differ only within four consecutive bytes never both pass |
| Frame.DecodeEncode | packages/usac_protocol/src/usac_protocol/frame.py:94-137 | every encodable frame decodes to itself |
| Frame.EncodeDecode | packages/usac_protocol/src/usac_protocol/frame.py:108-137 | only the encoding of a frame decodes to it: the wire form is canonical |
| HostStream.FoundExactly | packages/usac_protocol/src/usac_protocol/stream.py:70-120 | a position of the stream holds a frame exactly when the encoding of a permitted frame starts there |
| HostStream.OnlyChecksumFails | packages/usac_protocol/src/usac_protocol/stream.py:106-119 | after the header checks decode_frame can fail only on the checksum |
| HostStream.AtIsStable | packages/usac_protocol/src/usac_protocol/stream.py:78-120 | what was decided at a position is not revised when more bytes arrive |
| HostStream.ChunkingInvariant | packages/usac_protocol/src/usac_protocol/stream.py:50-122 | at one instant and below the buffer limit, feeding a then b gives the same frames, losses and state as feeding a+b |
| HostStream.RunConserves | packages/usac_protocol/src/usac_protocol/stream.py:50-127 | over any run every byte fed is, in order, in an emitted frame, counted as discarded, or still buffered |
| HostStream.RunCounts | packages/usac_protocol/src/usac_protocol/stream.py:50-127 | bytes fed = bytes of emitted frames + resync_discarded_bytes + bytes buffered |
| HostStream.RunSettled | packages/usac_protocol/src/usac_protocol/stream.py:50-122 | after every call at most 4727 undecidable bytes remain, timed exactly when their magic is complete |
| HostStream.RunPermitted | packages/usac_protocol/src/usac_protocol/message_lengths.py:16-94 | only frames that obey the flag and length policy are emitted |
| HostStream.CleanStreamRecovered | packages/usac_protocol/src/usac_protocol/stream.py:50-122 | frames with harmless noise between them: what comes out, frames and losses with their reasons, is the scan of the whole byte string if and only if no call overflows the buffer or finds a candidate older than 2000 ms; nothing then stays behind, and without noise nothing is discarded |
| StreamFrames.FramesRecovered | packages/usac_protocol/src/usac_protocol/stream.py:50-122 | exactly the frames of such a stream come out, in order, however it is cut and however long it takes, if and only if no call finds a candidate older than 2000 ms or overflows away a byte that could begin a frame; without noise, if and only if no call finds an old candidate or overflows |
| HostStreamParser.HostStreamParser.Feed | packages/usac_protocol/src/usac_protocol/stream.py:50-122 | the loop over find, header checks and decode returns the frames, counters and state of the position-by-position scan, and each pass that continues shrinks the buffer |
| HostStreamParser.HostStreamParser.ConsiderCandidate | packages/usac_protocol/src/usac_protocol/stream.py:72-121 | one pass over a candidate: expiry, waiting, refusal with the right counter, or the frame |
| HostStreamParser.HostStreamParser.DiscardCandidateByte | packages/usac_protocol/src/usac_protocol/stream.py:124-127 | one byte given up, the timer cleared, the byte counted |
| HostStreamParser.FindMagic | packages/usac_protocol/src/usac_protocol/stream.py:59-59 | the first occurrence, or none |
| HostStreamParser.MagicPrefixLength | packages/usac_protocol/src/usac_protocol/stream.py:130-134 | the longest proper prefix of the magic that ends the buffer |
| McuParser.FeedSound | firmware/src/usac_mcu_protocol.c:214-250 | in every reachable state fewer than 212 bytes are held, below an expected total of at most 212 |
| McuParser.RoundTrip | firmware/src/usac_mcu_protocol.c:123-274 | from reset, an acceptable frame is silent until its last byte and then comes out with its fields |
| McuParser.EmittedWasSent | firmware/src/usac_mcu_protocol.c:214-274 | every frame that comes out is acceptable and its canonical encoding is exactly the last bytes received |
| McuParser.Hunt | firmware/src/usac_mcu_protocol.c:224-232 | the count is the longest tail of the input that could still become the magic |
| McuParser.FoundAfterGarbage | firmware/src/usac_mcu_protocol.c:214-274 | after any garbage the first occurrence of the magic is found and the frame that starts there comes out |
| McuWire.UsacMcuParser.FeedByte | firmware/src/usac_mcu_protocol.c:214-274 | the parser on its 256-byte array performs this step; the full-ring branch is unreachable |
| McuWire.EncodeInto | firmware/src/usac_mcu_protocol.c:66-103 | the array receives exactly the frame's encoding, keeps the rest, and is untouched when the frame is refused |
| Crc32.PolynomialIsStandard | firmware/src/usac_mcu_protocol.c:47-64 | the generator is the polynomial of section 8.1.1.6.2 of ITU-T V.42, digit by digit |
| Crc32.ChecksumValues | firmware/src/usac_mcu_protocol.c:47-64 | initial register and final inversion are all ones: three checksums worked out |
| FirmwareWire.ResponsesReachHost | packages/usac_protocol/src/usac_protocol/message_lengths.py:16-94 | after any run since its caches were empty, each response of the dispatcher is a permitted frame the host's parser takes whole, and it answers this request: same sequence, and its own type or an ACK or ERROR naming its identifier and type |
| FirmwareWire.LengthsAgree | firmware/src/usac_mcu_protocol.c:123-160 | for every handled request type the two length policies agree, but that the firmware takes SET_CONFIG with ten registers only |
| FirmwareWire.RequestsPermitted | packages/usac_protocol/src/usac_protocol/message_lengths.py:16-94 | every request that reaches a handler is one the host's policy permits |
| CaptureData.DecodeEncode | packages/usac_protocol/src/usac_protocol/capture_data.py:106-234 | every valid capture survives encoding and decoding |
| CaptureData.EncodeDecode | packages/usac_protocol/src/usac_protocol/capture_data.py:160-234 | what decodes is valid and encodes back byte for byte |
| CaptureData.DecodeWritten | packages/usac_protocol/src/usac_protocol/capture_data.py:74-103 | a capture laid out on the wire is accepted exactly when the validation rules hold, and then unchanged |
| CaptureData.DecodePayload | packages/usac_protocol/src/usac_protocol/capture_data.py:160-234 | the decoder's advancing offset takes exactly these fields |
| CaptureData.CheckRegisters | packages/usac_protocol/src/usac_protocol/capture_data.py:90-94 | comparing each address with the previous one decides strict order |
| CaptureStream.CrcOfSegments | firmware/src/usac_capture_stream.c:171-176 | the checksum carried over three segments is the checksum of their concatenation |
| CaptureStream.SegmentsAreFrame | firmware/src/usac_capture_stream.c:148-179 | header, metadata, samples and checksum one after another are the encoding of one frame |
| CaptureStream.WaveformDelivered | firmware/src/usac_capture_stream.c:75-179 | the host decodes these bytes to a permitted frame and its payload to exactly the descriptor and samples, and refuses the payload exactly when the descriptor is invalid |
| CaptureStream.CaptureLengths | packages/usac_protocol/src/usac_protocol/message_lengths.py:72-73 | the policy permits the encoding of every valid capture of up to 2048 samples, and no longer payload than all registers, events and samples make |
| CaptureSender.SegmentStream.BuildMetadata | firmware/src/usac_capture_stream.c:75-146 | the fields written at a running offset are the host's metadata of the same capture |
| CaptureSender.SegmentStream.Init | firmware/src/usac_capture_stream.c:148-179 | the object holds the specified segments of this descriptor and waveform |
| CaptureSender.SegmentStream.Peek | firmware/src/usac_capture_stream.c:181-206 | the bytes of the current segment, the samples read in place |
| CaptureSender.SegmentStream.Advance | firmware/src/usac_capture_stream.c:208-218 | the position moves one segment and ends after the fourth |
| CaptureSender.CaptureTransmitter.StartResult | firmware/src/usac_capture_tx.c:29-43 | started, busy and fatal move the state as specified, and only from READY |
| CaptureSender.CaptureTransmitter.SendCompleted | firmware/src/usac_capture_tx.c:45-57 | only a completed segment is committed |
| MainLoop.StepKeeps | firmware/src/main.c:514-582 | every interrupt and every step of the loop keeps the stream, its capture and the bytes already sent consistent |
| MainLoop.CompletedFramesAreWhole | firmware/src/main.c:134-168 | any run of interrupts, commands, captures, BUSY and fatal results, aborts and unequal readings of the link, unless one lets a command in between two segments: a frame that completes is one unbroken stretch of the output, no response byte between its segments, and decodes to the capture held when it completed |
| MainLoop.NothingOverwrites | firmware/src/main.c:560-578 | in the same runs, from the checksum to the last byte nothing captures or reconfigures |
| UnsteadyReading.UnsteadySpoils | firmware/src/main.c:566-578 | in any state of such a run, some arbitration followed by harmless steps completes a frame the host refuses if and only if a frame is under way between two segments, the link is up and input waits; one whose command is merely answered, if and only if besides the header has left |
| UnsteadyReading.AnsweredSpoils | firmware/src/main.c:376-427 | there any command does it after the first segment, whatever it does and answers, since the response lands inside the frame; before it one that makes another capture does, since the old checksum does not cover the new samples |
| EndToEnd.SentFrameIdentified | firmware/src/usac_capture_stream.c:148-179 | every frame the firmware sends carries the identity the host derives from it |
| EndToEnd.SentFrameDeliverable | packages/usac_protocol/src/usac_protocol/bridge_messages.py:35-54 | and fits the delivery payload |
| EndToEnd.SentFrameParsed | packages/usac_protocol/src/usac_protocol/stream.py:50-122 | and is returned whole by the host parser, however it is cut, exactly when no chunk overflows the buffer or comes too late for its candidate |
| EndToEnd.ArchivedWaveform | packages/usac_runtime/src/usac_runtime/core_store.py:1036-1162 | in every run of bridge and core, when what the bridge reads are frames the firmware completed, every archived row decodes to the descriptor and samples of a capture the device held while it sent that frame, under its identity |
| SendProgress.FrameGoesOut | firmware/src/main.c:134-168 | from every state a harmless run reaches with a session and a capture waiting, the loop and a USB engine that takes and finishes each segment complete exactly this capture's frame |
| SendProgress.PeriodicGoesOut | firmware/src/main.c:556-560 | with nothing to send, a capture that falls due can be made at the loop's periodic step and its frame is the next one completed |
| SendProgress.RequestAnswered | firmware/src/main.c:561-582 | with nothing to send and input waiting, the loop can come to handle the request and its whole response is the next thing to leave the device |
| SendProgress.FatalGivesUp | firmware/src/main.c:134-165 | a segment the engine refuses for good ends the session: the frame is neither completed nor tried again |
| SendProgress.SessionLossStops | firmware/src/main.c:527-541 | a session that one pass saw and the next misses: whatever happened between, transmission and session are stopped, nothing stays pending or under way, and the engine rests |
| Schedule.OperationsKeepValid | firmware/src/usac_capture_schedule.c:44-162 | every operation keeps the countdowns positive and within period and lease, and completed below a nonzero limit |
| Schedule.AdvanceBatches | firmware/src/usac_capture_schedule.c:103-133 | advance(x) then advance(y) is advance(x+y), in state and verdict, expiry included |
| Schedule.AdvancePhase | firmware/src/usac_capture_schedule.c:103-133 | an advance within the lease turns the phase modulo the period and owes one capture per turn |
| Schedule.ClosedForm | firmware/src/usac_capture_schedule.c:44-150 | over any run since START: until_due = period - T mod period; completed + due + missed = T div period modulo 2^32; lease left = granted - time since the last fresh renewal, duplicates not counting; a nonzero limit is never passed |
| CaptureSchedule.CaptureSchedule.Begin | firmware/src/usac_capture_schedule.c:44-73 | start on the record in place |
| CaptureSchedule.CaptureSchedule.Extend | firmware/src/usac_capture_schedule.c:75-101 | renew on the record in place |
| CaptureSchedule.CaptureSchedule.AdvanceTime | firmware/src/usac_capture_schedule.c:103-133 | advance on the record in place |
| CaptureSchedule.CaptureSchedule.ClaimDue | firmware/src/usac_capture_schedule.c:135-150 | claim on the record in place |
| CaptureSchedule.CaptureSchedule.Cancel | firmware/src/usac_capture_schedule.c:152-162 | stop on the record in place |
| CaptureSchedule.IdsEqual | firmware/src/usac_capture_schedule.c:3-12 | accumulating all differences decides equality |
| CaptureSchedule.IdIsNonzero | firmware/src/usac_capture_schedule.c:14-23 | accumulating all bytes decides being nonzero |
| Simulator.TimePasses | packages/usac_protocol/src/usac_protocol/simulator.py:324-338 | counting time down and looking at the clock later describe the same schedule |
| Simulator.PollIsClaim | packages/usac_protocol/src/usac_protocol/simulator.py:324-350 | a poll captures exactly when the firmware has one to claim, and both stay alike |
| Simulator.StartAgrees | packages/usac_protocol/src/usac_protocol/simulator.py:207-230 | START is answered alike if and only if it is not a valid one that arrives while the simulator has overlooked an expired lease |
| Simulator.RenewalAgrees | packages/usac_protocol/src/usac_protocol/simulator.py:232-263 | a renewal leaves both alike if and only if it is not a new one shorter than the firmware's minimum; an accepted one is answered with the same lease |
| Simulator.StopAgrees | packages/usac_protocol/src/usac_protocol/simulator.py:265-271 | STOP is answered alike if and only if no overlooked lease has another identifier |
| Simulator.AlikeExactly | packages/usac_protocol/src/usac_protocol/simulator.py:207-350 | one event of any kind leaves the two machines alike if and only if it is not such a START or such a renewal |
| Simulator.SimulatorIsTwin | packages/usac_protocol/src/usac_protocol/simulator.py:207-350 | from before any schedule and over any run without those two differences both make captures at the same instants and stay alike in countdown, lease and missed count |
| Simulator.DeviceSimulator.PollOnce | packages/usac_protocol/src/usac_protocol/simulator.py:324-343 | the poll on the object's fields |
| Simulator.DeviceSimulator.HandleRenewal | packages/usac_protocol/src/usac_protocol/simulator.py:232-255 | the renewal on the object's fields |
| LeaseSafety.LeaseEnds | firmware/src/main.c:514-525 | whatever interrupts and requests happen, once the loop has charged its time an active schedule was started or freshly renewed less than its lease plus one 320-tick quantum ago |
| LeaseSafety.SaturationExpires | firmware/src/main.c:599-616 | a saturated quantum counter ends any lease at the next charge |
| LeaseSafety.LeaseExactly | firmware/src/main.c:517-526 | a lease left to time is active after a charge if and only if the quanta since its extension, with those then uncharged, take less than it; a quantum is charged as its 320 crystal ticks and less than a microsecond more |
| LeaseSafety.ExtensionsBegin | firmware/src/usac_capture_schedule.c:58-130 | an accepted START and a fresh renewal begin such a lease |
| PeriodicLease.NeverLost | packages/usac_runtime/src/usac_runtime/periodic_lease.py:72-113 | with device and host clocks in step within a slack, polled with gap g where min(timeout/3, 1000 ms) + g + slack < timeout, the lease never expires: it is held with both sides agreeing on the sequence until the last capture of a limited schedule is claimed, and for ever of an unlimited one |
| PeriodicLease.StartHolds | packages/usac_runtime/src/usac_runtime/periodic_lease.py:76-85 | an accepted START begins such a run, whatever its capture limit |
| PeriodicLease.RenewalRetried | packages/usac_runtime/src/usac_runtime/periodic_lease.py:72-113 | a renewal whose answer was lost, asked again under its number, is answered from the lease that remains without extending it, and taken exactly when a millisecond remains |
| PeriodicLease.RenewalDue | packages/usac_runtime/src/usac_runtime/periodic_lease.py:73-113 | after a renewal the next is due when a second or a third of the lease has passed, and not before |
| PeriodicLease.PeriodicLeaseController.Start | packages/usac_runtime/src/usac_runtime/periodic_lease.py:76-85 | each refusal, and the state after acceptance |
| PeriodicLease.PeriodicLeaseController.RenewIfDue | packages/usac_runtime/src/usac_runtime/periodic_lease.py:87-113 | not due, renewed, client failure with the schedule kept, or mismatch with the schedule given up |
| PeriodicLease.PeriodicLeaseController.Stop | packages/usac_runtime/src/usac_runtime/periodic_lease.py:115-122 | the schedule is forgotten before STOP is sent |
| PeriodicLease.PeriodicLeaseController.Finish | packages/usac_runtime/src/usac_runtime/periodic_lease.py:124-134 | released without a STOP |
| Profile.AcceptedIsSafe | firmware/src/tuss4470_profile.c:33-79 | an accepted profile has its ten registers in place and no continuous burst, pre-driver, 5 V output, VDRV above 5 V or at 20 mA, trigger, standby or sleep bit |
| Profile.Validate | firmware/src/tuss4470_profile.c:33-79 | the checks in order report the first violation |
| Configurator.VdrvGuarded | firmware/src/tuss4470_configurator.c:120-176 | on any bus, VDRV is written with anything but 0x20 only as the profile asks and only after each of the other eight registers was written and read back equal |
| Configurator.FailureCloses | firmware/src/tuss4470_configurator.c:112-207 | any failure after the first write ends with TOF 0x00, VDRV 0x20, TOF 0x40 attempted in this order |
| Configurator.SafeWritesAttempted | firmware/src/tuss4470_configurator.c:72-91 | the safe transition attempts its three writes whatever the bus answers, and nothing else |
| Configurator.OkMeansApplied | firmware/src/tuss4470_configurator.c:120-207 | OK means each of the ten registers was verified and not written again, and the last status read had no fault, with VDRV ready whenever the profile drives it |
| ConfiguratorExact.ConfigureExactly | firmware/src/tuss4470_configurator.c:120-207 | each result is returned if and only if its own cause was seen on the bus: OK exactly when both identity reads matched, all fourteen writes were read back equal and a status read within the limit was fault-free, and ready if VDRV is driven, after reads that were all waiting |
| ConfiguratorExact.ForceSafeExactly | firmware/src/tuss4470_configurator.c:72-91 | the safe transition reports OK if and only if all three writes were read back equal |
| ConfiguratorExact.StepsExactly | firmware/src/tuss4470_configurator.c:46-200 | the fourteen writes in order, and VDRV is waited for exactly when the values left on the device enable its driver |
| ConfiguratorObject.ConfigureFirmware | firmware/src/tuss4470_configurator.c:120-207 | the loops over an injected bus produce exactly the specified trace and result |
| ConfiguratorObject.ApplySafeStart | firmware/src/tuss4470_configurator.c:46-70 | the four safe-start writes, up to the first failure |
| ConfiguratorObject.EnterSafe | firmware/src/tuss4470_configurator.c:72-91 | all three attempts, first failure reported |
| ConfiguratorObject.WriteVerify | firmware/src/tuss4470_configurator.c:26-44 | write, read back, compare |
| ConfigV2.FirmwareInverse | firmware/src/usac_config_v2.c:98-193 | the firmware's encode and decode are mutual inverses on accepted inputs |
| ConfigV2.HostInverse | packages/usac_protocol/src/usac_protocol/config_v2.py:171-236 | so are the host's |
| ConfigV2.FirmwareConfigRead | packages/usac_protocol/src/usac_protocol/config_v2.py:195-236 | what the firmware encodes the host reads field for field |
| ConfigV2.HostConfigTaken | firmware/src/usac_config_v2.c:149-193 | what the host encodes the firmware takes unchanged exactly when its own rules hold |
| ConfigV2.HostSafeExactly | packages/usac_protocol/src/usac_protocol/safety.py:26-62 | the host's safety policy is exactly the firmware's rules with VDRV driven |
| ConfigV2.SafeConfigAccepted | packages/usac_protocol/src/usac_protocol/safety.py:26-62 | every configuration the host finds safe is accepted by the firmware with the same identity |
| ConfigObject.RehashedTravels | firmware/src/usac_config_v2.c:84-96 | after a rehash a valid configuration encodes and decodes to itself on both sides |
| ConfigObject.UsacConfigV2.Rehash | firmware/src/usac_config_v2.c:84-96 | both identifiers recomputed, or nothing changed |
| ConfigObject.UsacConfigV2.Encode | firmware/src/usac_config_v2.c:98-147 | the array receives the wire form or stays as it was, with the specified error |
| ConfigObject.UsacConfigV2.Decode | firmware/src/usac_config_v2.c:149-193 | the specified result, and the struct holds all of the wire, or after a refusal exactly the fields and digest bytes read before it |
| ConfigObject.RefusedIsNotEncoded | firmware/src/usac_config_v2.c:98-193 | what a refused wire leaves in the struct is what was there, or is refused by the encoder as well |
| ConfigInForce.AcknowledgedIsInForce | firmware/src/usac_firmware_app.c:257-332 | a new SET_CONFIG is acknowledged if and only if it names the configuration in force, decodes and is applied; then its bytes are the configuration in force and the ACK carries their checksum, otherwise the old one stays, unusable if the device is in Fault |
| ConfigInForce.AcknowledgedStaysInForce | firmware/src/usac_firmware_app.c:194-227 | over any run until another SET_CONFIG is acknowledged, every capture call carries the configuration these bytes spell and GET_CONFIG answers with exactly these bytes while it is usable |
| ConfigInForce.HostConfigApplied | packages/usac_runtime/src/usac_runtime/bridge_device_client.py:225-241 | apply_config against the firmware: taken exactly with ten registers, acknowledged exactly when it names the configuration in force, obeys the firmware's rules and is applied; the host then reads the same configuration back and its identifiers are the ones captures must name |
| ConfigInForce.ConfigAlwaysReadable | firmware/src/usac_firmware_app.c:194-227 | in every run GET_CONFIG is never refused while a configuration is in force, and the host reads from it what captures are made with |
| ConfigInForce.BaselineEncodes | firmware/src/usac_firmware_app.c:980-1041 | the configuration after boot is one the firmware itself accepts |
| MessagesAgree.HelloTaken | packages/usac_protocol/src/usac_protocol/messages.py:28-90 | a HELLO of the host is taken exactly when it offers version 1, and the host reads its nonce, this session's boot identifier and the device's state |
| MessagesAgree.HelloBegins | firmware/src/usac_firmware_app.c:146-192 | another nonce makes the hardware safe and forgets the session before, the same one forgets nothing; afterwards the device is ready unless in Fault |
| MessagesAgree.SessionEnds | firmware/src/usac_firmware_app.c:1043-1069 | the end of a session forgets it, makes the hardware safe and lets nothing but a HELLO act |
| MessagesAgree.CaptureTaken | packages/usac_protocol/src/usac_protocol/messages.py:119-148 | every CAPTURE_ONCE the host encodes is taken; a new one calls the hardware, with its own trigger and timeout, if and only if the device is ready and the configuration in force is named |
| MessagesAgree.StartTaken | packages/usac_protocol/src/usac_protocol/messages.py:212-247 | a START of the host is taken exactly when its period is at least 100 ms, and accepted exactly when the device is ready and the configuration in force is named; then this schedule runs |
| MessagesAgree.StartRuleIsSchedulers | firmware/src/usac_mcu_protocol.c:162-212 | the parser's rule for START payloads is exactly what the scheduler accepts |
| MessagesAgree.RenewTaken | packages/usac_protocol/src/usac_protocol/messages.py:253-280 | a renewal of the host is taken exactly with a grantable timeout, is the scheduler's renewal when it names this boot, and the host reads the remaining lease from the answer |
| MessagesAgree.StopTaken | packages/usac_protocol/src/usac_protocol/messages.py:285-296 | a STOP is refused exactly when another schedule runs; otherwise none runs afterwards and the hardware was made safe |
| MessagesAgree.LoopbackTaken | packages/usac_protocol/src/usac_protocol/messages.py:373-482 | the loopback check drives the hardware exactly when the device is ready and the named configuration is both the one in force and the bench baseline, and the host reads its evidence |
| MessagesAgree.CapabilitiesRead | packages/usac_protocol/src/usac_protocol/messages.py:163-206 | the capabilities the host reads are the bounds the firmware enforces |
| MessagesAgree.StatusRead | packages/usac_protocol/src/usac_protocol/messages.py:321-362 | the host reads every field of the status, and fails exactly when a reserved clock fault bit is set |
| MessagesAgree.AckRead | packages/usac_protocol/src/usac_protocol/messages.py:490-509 | every ACK is read with its request's identifier and type, the state and the checksum in force |
| MessagesAgree.ErrorRead | packages/usac_protocol/src/usac_protocol/messages.py:524-550 | every ERROR is read with its request's identifier and type, its code and details |
| MessagesAgree.EndsAreReported | firmware/src/usac_firmware_app.c:883-977 | a schedule that ends by itself made the hardware safe last and is explained by the next status: lease expired, clock fault, or a failed capture |
| MessagesAgree.RefusalsRead | firmware/src/usac_firmware_app.c:1071-1135 | a request with flags, one outside a session and one of an unknown type change and call nothing, and the host reads which it was |
| CaptureMade.CaptureOutcome | firmware/src/usac_firmware_app.c:619-712 | after the profile is applied, CAPTURE_ONCE is acknowledged exactly when the capture is complete in every respect and the hardware was made safe; otherwise nothing is held and the host reads whether synchronisation, driver or acquisition failed, with the diagnosis |
| CaptureMade.ApplyFailed | firmware/src/usac_firmware_app.c:622-633 | when the profile cannot be applied no capture is made, the hardware is made safe and the host reads why |
| CaptureMade.PeriodicOutcome | firmware/src/usac_firmware_app.c:915-977 | a capture is made whenever one is owed and only then; a usable one is held under the schedule's identifiers and the next number, counts as completed, and the last one ends the schedule |
| CaptureMade.SingleFrameSent | firmware/src/main.c:91-132 | capture_once end to end: the frame sent after the ACK is a response under the request's sequence number, from which the host decodes the request's identifier, the configuration it named, the measurements and exactly the samples |
| CaptureMade.PeriodicFrameSent | firmware/src/main.c:91-132 | each periodic capture is sent asynchronously under its own number, and the host decodes the START's identifier, the schedule, the measurements and exactly the samples |
| CaptureMade.NumbersDiffer | firmware/src/usac_firmware_app.c:678-682 | capture numbers run through 1 to 0xFFFFFFFF, so no two of that many captures in a row share one |
| HardwareSafety.CapturesGuarded | firmware/src/usac_firmware_app.c:531-712 | in every run each capture call directly follows a successful application of the same profile and is directly followed by force_safe |
| HardwareSafety.FaultForbidsCapture | firmware/src/usac_firmware_app.c:895-913 | a latched clock fault stays, and no capture or loopback is ever called again |
| HardwareSafety.EndedMeansNoPeriodic | firmware/src/usac_firmware_app.c:915-977 | while no schedule is active no periodic capture is made, however long the run and however many STARTs are refused, until one is accepted |
| HardwareSafety.WhatEndsSchedules | firmware/src/usac_firmware_app.c:859-977 | expiry, clock fault, session end, accepted STOP and a failed periodic capture each leave no schedule active |
| HardwareSafety.PendingFrameUntouched | firmware/src/usac_firmware_app.c:883-977 | while a frame waits to be sent, passing time, clock faults and the periodic runner keep everything it is made from and make no capture |
| Idempotence.SetConfigTwice | firmware/src/usac_firmware_app.c:334-385 | the same SET_CONFIG again repeats its response, calls nothing and changes nothing |
| Idempotence.SetConfigRepeats | firmware/src/usac_firmware_app.c:334-385 | also after any captures, schedules, expiries, faults, repeated HELLOs and other commands in between, as long as the session lasts and no other SET_CONFIG is handled |
| Idempotence.SetConfigRemembered | firmware/src/usac_firmware_app.c:370-384 | handling a new SET_CONFIG is what fills the cache, with its own response |
| Idempotence.CaptureTwice | firmware/src/usac_firmware_app.c:548-562 | an acknowledged CAPTURE_ONCE again gives the same ACK and no hardware action, and re-arms the frame held now |
| Idempotence.CaptureRepeats | firmware/src/usac_firmware_app.c:548-562 | also after its frame went out and any run of ticks, faults, schedules, repeated HELLOs and refused or other commands, as long as the session lasts and no other configuration or capture is acknowledged |
| Idempotence.AlteredRequestRefused | firmware/src/usac_firmware_app.c:341-368 | a request reusing identifier and sequence with a payload changed within four bytes is refused, not taken for the duplicate |
| FirmwareObject.UsacFirmwareApp.SetConfig | firmware/src/usac_firmware_app.c:334-385 | the handler on the struct, with its calls in order, is the specified step |
| FirmwareObject.UsacFirmwareApp.ApplyConfig | firmware/src/usac_firmware_app.c:257-332 | hash comparison, decode, application and both outcomes |
| FirmwareObject.UsacFirmwareApp.CaptureOnce | firmware/src/usac_firmware_app.c:531-617 | cache, state, clock, identity and trigger checks in order |
| FirmwareObject.UsacFirmwareApp.ApplyAndCapture | firmware/src/usac_firmware_app.c:619-712 | apply, capture, make safe, and what is recorded or reported |
| FirmwareObject.UsacFirmwareApp.RunPeriodicCapture | firmware/src/usac_firmware_app.c:924-977 | one due capture, never retried |
| FirmwareObject.UsacFirmwareApp.Advance | firmware/src/usac_firmware_app.c:883-893 | expiry makes the hardware safe |
| FirmwareObject.UsacFirmwareApp.LatchClockFaults | firmware/src/usac_firmware_app.c:895-913 | the first fault is latched, stops the schedule and makes the hardware safe |
| FirmwareObject.UsacFirmwareApp.EndSessionNow | firmware/src/usac_firmware_app.c:1043-1069 | caches, schedule and identities cleared, hardware made safe, fault if that fails |
| FirmwareObject.UsacFirmwareApp.Hello | firmware/src/usac_firmware_app.c:146-192 | a changed nonce ends the previous session first |
| FirmwareObject.UsacFirmwareApp.RunLoopback | firmware/src/usac_firmware_app.c:430-529 | cache, state, clock, identity and baseline checks, then at most one loopback call |
| FirmwareObject.UsacFirmwareApp.StartPeriodic | firmware/src/usac_firmware_app.c:780-819 | a schedule starts only from a safe, configured, idle and fault-free state with the expected configuration |
| FirmwareObject.UsacFirmwareApp.RenewPeriodic | firmware/src/usac_firmware_app.c:821-857 | only for this boot, answered with the lease that remains |
| FirmwareObject.UsacFirmwareApp.StopPeriodic | firmware/src/usac_firmware_app.c:859-881 | an accepted STOP makes the hardware safe |
| FirmwareObject.UsacFirmwareApp.HandleFrame | firmware/src/usac_firmware_app.c:1071-1135 | flags, HELLO, session and type decide which handler runs |

## Left out

- SQLite, WAL and schema: every BEGIN IMMEDIATE block is one atomic step; row contents that no property needs (capture_sequence, metadata columns, events tables, group identifiers, configuration contexts) are not stored.
- An empty session_id in commit_delivery: every caller names a session, so the model refuses an empty one.
- Policy contexts: their bounded registration is over-approximated by any set of contexts that name their session's own policy.
- Threads of the bridge: their critical sections are single steps; a reader thread that outlives its session by the join timeout is not modelled.
- Sockets, serial ports, select and timeouts: channels are FIFO queues that can be cut at any step; a raised error is the cut.
- proxy_bridge_session and main: kept as state machines over their steps rather than as loops, because their threads and interrupts interleave.
- Devices that forget and re-emit an identity already acknowledged: excluded by DeviceMaySend, since every capture uses a fresh identity.
- Ranges of Python integers: values that struct would refuse to pack are outside the field types, except in the delivery payload, where they are checked.
- McuWire.UsacMcuParser.FeedByte: returns the payload by value, while the firmware's view borrows the parser's storage until the next byte.
- CaptureSender.SegmentStream.BuildMetadata: the straight-line field writes are lists written in order; the samples' byte order in memory is taken to be little-endian.
- MainLoop.CompletedFramesAreWhole: what commands and captures change, and what responses say, is left arbitrary; a bus error interrupt that disables USB is not modelled.
- EndToEnd.ArchivedWaveform: takes the serial link and the bridge's blocking reader as delivering completed frames, in any order and any number of times; a frame damaged on the way fails its checksum and ends the bridge session.
- DeliverySystem.Connected: a new connection starts with both ends down. A replacement client that is opened while the old one is still inside a transaction is not modelled.
- DeviceClient.BridgeDeviceClient.Send: the check on the object; what it means over runs is PendingBlocksCommands.
- Simulator.SimulatorIsTwin: the reply cache, the capture contents and GET_STATUS are not modelled.
- PeriodicLease.NeverLost: for fewer polls than there are lease sequence numbers.
- LeaseSafety.LeaseEnds: the crystal itself is trusted; a stopped ACLK is the clock-fault path.
- Configurator.Configure: the bus and its callbacks are present; the low-power entry is not modelled.
- FirmwareApp.Handle: the response buffer has the 128 bytes the main loop gives it, so encoding never fails; callbacks are installed; profile_active and loopback_authorized, which the acquisition build never reads, are omitted.
- FirmwareObject.UsacFirmwareApp: the struct is one field of the class, and the loopback report is carried as its 32 wire bytes.
- Idempotence.AlteredRequestRefused: payload identity is judged by CRC-32, so a change outside any four-byte window may collide.
- Loopback evaluation, burst plans, SPI parity, DTR and identity derivation, parameter schemas, REST, CLI, export and run plans.
- MSP430 registers, ADC, DMA and interrupt wiring, USB stack and GPIO.
