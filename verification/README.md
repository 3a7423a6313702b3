# A model of the vehicle OTA update

This project models the update path of the vehicle simulation and proves what it is for: an ECU never runs anything
but a complete, verified image, a campaign updates as much as its dependencies allow and no more, and a lost message
or a power failure during an installation never turns into a wrong image.

`dafny verify dfyconfig.toml` checks everything.

## The parts

**Firmware transfer.** `UdsProgrammer` is the ECU's request handler: sessions, seed and key, erase, download, blocks,
exit, reset, with the clock as a parameter of every request. `UdsSafety` and `UdsLockout` are about whole runs of it:
what must have happened before an installation, and how slowly keys can be tried; `UdsView` shows that what went over
the bus decides every answer, and `UdsActivation` is about the image that an activation belongs to. `FlashSession` is the tester that drives the handler over a link that loses nothing.
`GatewayTransfer` is the gateway's own copy of the transfer services, and `LossyLink` puts it behind a link that loses
and delays messages, on top of `LossyTransfer`, which is about the blocks alone; `GatewayRuns` is about its gates and
flags. Both copies judge blocks by the one
function `AcceptBlock` and lengths by `LengthMatches`. Services and response codes follow ISO 14229-1:2013
(sections 9.4, 14.4 and 14.5); where the program differs from the standard, as in answering a repeated block with
response code 0x73, the model follows the program.

**Framing.** `IsoTp` and `IsoTpLink` are segmentation, reassembly and flow control over CAN FD (ISO 15765-2:2016,
section 9.6), `DoipFraming` is the TCP stream of ISO 13400-2, `FirmwareImage` the image file.

**Installation.** `FlashMemory` is the flash emulator on an array. `EcuStorage` holds the persisted files of an ECU;
every write is one atomic step and is recorded, so that a power loss is a cut in the list of writes. `EcuBoot`,
`UpdateLifecycle`, `SlotMarks` and `Installer` are the boot decision, runs of updates, what they mark on the slots, and
the installation with its crash safety.

**Campaign.** `DependencyGraphs`, `TopologicalPlanner`, `CycleCheck`, `CampaignPlanner` and `UpdateScheduler` plan
and execute a campaign; `UpdateScheduler.RunCampaign` wires them as the program does.

`Base` and `UdsCodec` hold bytes, results and request formats.

Classes carry the fields that the program mutates. Their methods are proved against functions on values (`Handle`,
`AfterFrame`, `Extract`, `Step`, `Rebooted` and so on), and the lemmas are about these functions.

## What the code does not do

Each of these has a lemma with the exact condition or a concrete run.

- The activation that an installation needs can be older than the download it installs (`ActivationCanBeStale`). It
  came after that download exactly if no download was requested after it (`ActivationIsOfImage`).
- A client that retries can take a late answer for another block's (`LateReplyFoolsTheClient`), exactly if something
  that could deceive it is on the link when the block is sent (`CleanStartIsExact`). The length check at the exit
  catches it.
- Good packets are dropped when an invalid header arrives in the same TCP chunk, and only then (`BadChunkIsLost`).
- The empty payload does not survive ISO-TP (`RoundTripExactly`).
- Stored image digests are never checked (`StoredDigestsAreIgnored`); text fields only survive if they are ASCII, fit
  and do not end in a NUL (`TextFieldRoundTrip`).
- Committing and rolling back are not crash-atomic: one cut between the two state files is never repaired
  (`TornValidation`, `TornRollback`); in a trial boot it is, once the boot attempts have run out (`TornTrialBoot`).
  Confirming a version that never booted breaks their agreement (`ValidationKeepsAgreement`), and rolling one back marks
  the confirmed slot's journal as rolled back and leaves the other slot bootable (`RollbackMarks`).
- A campaign without a failure is reported as failed when something was skipped and something else was flashed or in
  place (`SummaryMeans`); no plan leads there (`ResultOfPlan`).
- A session whose clock reads exactly zero does not expire (`RefreshesAreClose`, `ZeroClockNeverExpires`).

## Model

| member | source | states |
|---|---|---|
| `LossyTransfer.LossIsNeverWrong` | transport/doip/library_client.py:524-554 | For every non-decreasing list of arriving block numbers (any losses, any repeats), the buffer is the concatenation of strictly increasing chunks that did arrive, although the counter wraps at 256; if the exit length check passes, it is the firmware |
| `LossyTransfer.BlockKeepsAssembled` | transport/doip/server.py:969-1022 | One arriving block is never cut short and never out of range; it is accepted exactly if its number equals the count of accepted chunks modulo 256, and acceptance keeps the strictly increasing selection |
| `LossyTransfer.RepeatIsNotNext` | transport/doip/server.py:969-977 | A block that fits the expected counter is newer than every accepted one: a repeat can never be taken for the next block |
| `LossyTransfer.SelectionFits` | transport/doip/server.py:978-997 | Strictly increasing chunks never exceed the firmware size, and reach it only if they are all the chunks |
| `LossyTransfer.FullLengthIsFirmware` | transport/doip/server.py:1036-1048 | A transfer that passes the length check holds every chunk once and in order |
| `LossyLink.ExitMeansFirmware` | transport/doip/server.py:1024-1076 | In every state losses and delays can lead to, the exit goes on to save and verify exactly if the session lives and every chunk has arrived; what it saves is then the firmware, and the answer is positive exactly if the digests agree |
| `LossyLink.GatewayBlock` | transport/doip/server.py:948-1022 | The gateway answers a block with not-in-session exactly if its session is dead, acknowledges it exactly if its number fits the count of accepted chunks, and refuses its sequence otherwise; each is tied to what the buffer holds afterwards |
| `LossyLink.ServedStays` | transport/doip/server.py:948-1022 | Handing one request to the gateway keeps the invariant of the whole link: an in-order queue, and a buffer of increasing chunks |
| `LossyLink.MovedStays` | transport/doip/library_client.py:524-554 | Whatever the network does next (lose, hand over, lose a response, wait) keeps the link invariant |
| `LossyLink.ReceivedStays` | transport/doip/library_client.py:155-212 | Waiting for a response, however the network behaves, keeps the invariant; if the chunk started in step, a response that would convince the client proves that the chunk is in the buffer |
| `LossyLink.TransferStays` | transport/doip/library_client.py:524-554 | All attempts of one chunk keep the invariant on every network; from a start in step, success means delivery |
| `LossyLink.CleanStartIsExact` | transport/doip/library_client.py:524-554 | With all earlier chunks in and a live session, the client's success means delivery on every network if and only if, when the call starts, no request for an earlier chunk and no convincing response is left on the link; an idle link qualifies |
| `LossyLink.Link.Receive` | transport/doip/library_client.py:155-212 | The link object waits for a response as its specification says, for every behaviour of the network |
| `LossyLink.LibraryDoIPClient.TransferData` | transport/doip/library_client.py:501-556 | The retry loop: exact result and new state; safe on every link; if all earlier chunks are in and the link is clean when the call starts, success means that the chunk is in the buffer exactly once |
| `LossyLink.TransferFirmware` | transport/uds/flash_manager.py:32-79 | The chunk loop over a lossy link: when nothing arrives late and it reports success, the gateway holds exactly the firmware |
| `LossyTransfer.CutIsFirmware` | transport/uds/flash_manager.py:51-60 | Cutting firmware into chunks loses nothing and makes no empty chunk, for every chunk size from 1 |
| `LossyLink.DownloadOpensTransfer` | transport/doip/server.py:917-946 | A positive answer to a download request of the firmware's size puts the gateway into exactly the state the lossy-link results start from |
| `LossyLink.LateReplyFoolsTheClient` | transport/doip/library_client.py:540-547 | A run of the link and the client, for every firmware of at least two chunks: on a late network the client reports success for chunk 1, which the gateway never got; the length check then fails |
| `LossyLink.SuccessMeans` | transport/doip/library_client.py:524-554 | The client takes for success an acknowledgement with the right counter, and a wrong-sequence refusal only on a retry |
| `LossyLink.TwoAttempts` | transport/doip/library_client.py:524-554 | On a link where nothing moves the request is sent exactly twice, and then the call times out |
| `GatewayTransfer.ECUContext.AppendBlock` | transport/doip/server.py:969-1022 | The gateway judges a block by the same rule as the ECU programmer (`AcceptBlock`) and answers accordingly |
| `GatewayTransfer.ECUContext.HandleRequestDownload` | transport/doip/server.py:917-946 | Whole new state and answers: session, security and erase conditions, then an empty transfer of the requested size |
| `GatewayTransfer.ECUContext.HandleTransferData` | transport/doip/server.py:948-1022 | Whole new state and answers: session expiry, length, security, then the block |
| `GatewayTransfer.ECUContext.HandleTransferExit` | transport/doip/server.py:1024-1076 | Whole new state and answers: session, security, length check, saved image, verification verdict |
| `GatewayTransfer.ECUContext.RequireProgrammingSession` | transport/doip/server.py:193-216 | Expires an old session, resets it, and refreshes a live one |
| `GatewayRuns.PendingIsFirmware` | transport/doip/server.py:948-1076 | Over every delivery of blocks in order, each any number of times or never, with exits in between at any times: an image is verified if and only if an exit was answered positively, pending if and only if also the session is still open, and then it is the whole firmware, saved, with the reference digest |
| `GatewayRuns.DownloadIsGated` | transport/doip/server.py:917-946 | A download is granted if and only if the session is in time, unlocked and erased for; it takes back the verification and keeps the activation; a refusal changes nothing but the clock |
| `GatewayRuns.BlockIsGated` | transport/doip/server.py:948-1022 | A block is granted if and only if the session is in time and unlocked, the number fits and bytes are missing; each refusal has its code and changes nothing but the clock |
| `GatewayRuns.ExitIsGated` | transport/doip/server.py:1024-1076 | The exit saves if and only if the session is in time and unlocked and the length fits; pending and verified then hold exactly if the answer is positive, and a refusal keeps them |
| `UdsProgrammer.UDSCanProgrammer.HandleUds` | ecus/base/uds_can_programmer.py:178-447 | The request handler: its new state, answers and started installations are those of the specification `Handle`, over all services and error codes |
| `UdsProgrammer.UDSCanProgrammer.RequireProgrammingSession` | ecus/base/uds_can_programmer.py:150-167 | Session gate: an expired session is reset and the request refused, a live one is refreshed |
| `UdsProgrammer.UDSCanProgrammer.HandleSecurityAccess` | ecus/base/uds_can_programmer.py:230-277 | Seed and key, failure count and lockout, as specified by `SecurityAccess` |
| `UdsProgrammer.UDSCanProgrammer.HandleRoutineControl` | ecus/base/uds_can_programmer.py:279-338 | Erase, verify and activate, as specified by `RoutineControl` |
| `UdsProgrammer.UDSCanProgrammer.HandleRequestDownload` | ecus/base/uds_can_programmer.py:340-362 | Conditions, format and size of a download request; a new transfer takes back a pending installation but not an activation |
| `UdsProgrammer.UDSCanProgrammer.HandleTransferData` | ecus/base/uds_can_programmer.py:364-396 | One block: gates, sequence counter, truncation to the expected size |
| `UdsProgrammer.UDSCanProgrammer.HandleTransferExit` | ecus/base/uds_can_programmer.py:398-423 | Length check, saving and verification; only a passing image becomes pending |
| `UdsProgrammer.UDSCanProgrammer.HandleEcuReset` | ecus/base/uds_can_programmer.py:425-447 | An installation starts exactly if an image is pending and activated and none has started; everything is reset |
| `UdsProgrammer.FirmwareReceiver.FirmwareData` | ecus/bcm/firmware_receiver.py:68-73 | The buffer, cut to the expected size |
| `UdsProgrammer.FirmwareReceiver.Verify` | ecus/bcm/firmware_receiver.py:75-94 | Verification passes exactly if the digests of the reference and the received image agree |
| `UdsSafety.AlwaysConsistent` | ecus/base/uds_can_programmer.py:135-447 | In every reachable state: a running download has been erased for, its byte count is the buffer length and at most the expected size, its counter is 1 plus the number of blocks modulo 256; a pending image is not being transferred; outside a session nothing is unlocked, erased, transferred or pending |
| `UdsSafety.AlwaysJustified` | ecus/base/uds_can_programmer.py:279-445 | In every run each flag of the ECU stands for requests that were answered positively since the last session request, in their order |
| `UdsSafety.InstallNeedsFullChain` | ecus/base/uds_can_programmer.py:279-445 | Every installation comes after session, accepted key, erase, download request and passing exit in this order, with the verified image still in the buffer, an activation after the last erase, and no two session refreshes more than 120 s apart |
| `UdsSafety.InstallExactlyWhenReady` | ecus/base/uds_can_programmer.py:425-445 | An installation starts if and only if an accepted reset finds, since the last session request, a passed exit with no erase or download request after it and an activation with no erase after it |
| `UdsSafety.ReadinessIsRemembered` | ecus/base/uds_can_programmer.py:314-338 | The converse of the justification: what the bus has shown is still in the flags |
| `UdsSafety.RefreshesAreClose` | ecus/base/uds_can_programmer.py:147-167 | Inside a session a request refreshes it if and only if it comes within 120 s of the last refresh, or that was at time zero exactly |
| `UdsSafety.ZeroClockNeverExpires` | ecus/base/uds_can_programmer.py:150-159 | A session opened at time zero serves a request at any later time |
| `UdsSafety.SessionClock` | ecus/base/uds_can_programmer.py:147-148 | The session clock is the time of the last refresh, in every run |
| `UdsActivation.ActivationIsOfImage` | ecus/base/uds_can_programmer.py:325-361 | In every run that installs, the activation came after the transfer of the installed image if and only if no download was requested after the activation |
| `UdsActivation.ActivationCanBeStale` | ecus/base/uds_can_programmer.py:353-361 | For every ECU a run that installs its reference image, sent in 62-byte blocks after the only activation |
| `UdsLockout.RejectionsAreSlow` | ecus/base/uds_can_programmer.py:251-277 | With no accepted key in between, the n-th rejected key (n >= 3) comes at least 30 (n - 3) seconds after the third, whatever else is requested |
| `UdsLockout.LockedMeansShut` | ecus/base/uds_can_programmer.py:169-176 | While the ECU is locked there is no pending seed and it is not unlocked, across session changes |
| `UdsLockout.LockoutHolds` | ecus/base/uds_can_programmer.py:239-277 | For 30 s after the third and every further rejection no request gets a seed and no key is accepted or even judged |
| `UdsLockout.AlwaysGuarded` | ecus/base/uds_can_programmer.py:230-277 | Invariant of every run: the failure counter is the number of rejections since the last accepted key, and the lock ends 30 s after the last of at least three |
| `UdsLockout.StepIsSecure` | ecus/base/uds_can_programmer.py:178-447 | What one request of any kind can do to the counter, the lock and the seed |
| `UdsView.EveryAnswerIsRight` | ecus/base/uds_can_programmer.py:178-447 | In every run a request for a programming service is answered positively if and only if the requests and final answers so far entitle it to that, each refusal gives a reason that is true of them, and response-pending comes exactly before a started routine and a verification |
| `UdsView.AlwaysSeen` | ecus/base/uds_can_programmer.py:135-447 | In every run session, clock, access, erase, download, size, data, block counter, pending image and activation are what the bus has shown |
| `UdsView.KeysAreJudged` | ecus/base/uds_can_programmer.py:251-277 | In every run a key is accepted if and only if it reaches an open session with a seed on offer and is the key derived from that seed, and rejected if and only if it is any other key; accepting unlocks, rejecting locks, and from the third rejection in a row on the answer says so |
| `UdsView.OfferedSince` | ecus/base/uds_can_programmer.py:237-277 | The seed on offer is the one last given, with no session, reset or judged key since |
| `UdsView.SeedsAreNumbered` | ecus/base/uds_can_programmer.py:172-176 | The n-th seed of a run is made from the ECU id and n, whatever happens in between |
| `UdsView.EarlySeeds` | ecus/base/uds_can_programmer.py:172-176 | Up to number 65535 a seed is the ECU id and the number, two bytes each |
| `UdsView.SeedsDiffer` | ecus/base/uds_can_programmer.py:172-176 | Two seeds of a run less than 65536 seeds apart differ |
| `UdsView.SavedIsLastExit` | ecus/base/uds_can_programmer.py:398-423 | In every run the saved image is the data of the last exit that was verified; sessions, resets and downloads leave it alone |
| `UdsView.OtherServices` | ecus/base/uds_can_programmer.py:178-228 | The version can always be read and is the one the ECU was built with; what the services outside a session answer and change |
| `FlashSession.UDSClient.FlashFirmware` | transport/uds/client.py:10-27 | For every firmware below 2^32 bytes, chunk size from 1 and pauses up to the session timeout, on any ECU that is not locked out: the requests are those of the session in order, every one up to the exit succeeds, the ECU then holds exactly the firmware, and one installation starts if and only if the digests agree |
| `FlashSession.EveryRequestIsAnswered` | ecus/base/uds_can_programmer.py:178-447 | Every request gets exactly one final answer, after at most one response-pending, and the client judges that one |
| `FlashSession.VerdictMeans` | transport/doip/library_client.py:214-244 | Exactly the positive responses pass, and a refusal is reported with its code |
| `FlashSession.OnlyOwnPendingIsSkipped` | transport/doip/library_client.py:214-244 | Response-pending is waited out only for the service that was requested |
| `FlashSession.FlashManager.EnterProgramming` | transport/uds/flash_manager.py:12-23 | From any state the four opening requests are answered positively and leave the ECU unlocked |
| `FlashSession.FlashManager.TransferData` | transport/uds/flash_manager.py:32-79 | The chunk loop with its 8-bit counter leaves exactly the firmware in the ECU |
| `FlashSession.FlashManager.TransferExit` | transport/uds/flash_manager.py:81-88 | Exit, verify and activate all succeed exactly if the digests agree, and then the image is pending and activated |
| `FlashSession.Transport.ExpectPositive` | transport/doip/library_client.py:214-244 | Skips exactly the response-pending messages and judges the first other one |
| `FlashSession.Transport.Exchange` | transport/doip/library_client.py:379-394 | One request has exactly the effect the ECU specification gives it and returns the verdict on its final answer |
| `FlashSession.BlockIsAppended` | ecus/base/uds_can_programmer.py:364-396 | A block in sequence that fits is acknowledged with its own number and appended whole |
| `FlashSession.ExitVerifies` | ecus/base/uds_can_programmer.py:398-423 | At the end of a transfer the saved image is the firmware, and the answer is positive exactly if the digests agree |
| `FlashSession.DownloadStarts` | ecus/base/uds_can_programmer.py:340-362 | After an erase a download request of any 32-bit size is accepted and starts an empty transfer |
| `FlashSession.ResetStartsInstall` | ecus/base/uds_can_programmer.py:425-445 | The reset of an ECU with a pending, activated image starts the installation |
| `IsoTp.Segment` | transport/can/isotp_adapter.py:35-51 | Single frame, first frame and numbered consecutive frames, or refusal above 4095 bytes |
| `IsoTp.IsoTpReassembler.Feed` | transport/can/isotp_adapter.py:214-304 | One frame of any kind changes the reassembler as its specification `AfterFrame` says |
| `IsoTp.SegmentRoundTrip` | transport/can/isotp_adapter.py:35-51 | From any reassembler state, the frames of a payload of 1 to 4095 bytes deliver exactly it, at the last frame and not before, padding of the last frame included |
| `IsoTp.RoundTripExactly` | transport/can/isotp_adapter.py:234-249 | Unpadded, the round trip holds if and only if the payload is non-empty and at most 4095 bytes |
| `IsoTp.LossIsDetected` | transport/can/isotp_adapter.py:274-304 | A fresh reassembler that misses any frames of a multi-frame message delivers nothing, even when sixteen vanish in a row |
| `IsoTp.SingleFrameDecides` | transport/can/isotp_adapter.py:234-249 | Any single frame delivers its data and drops what was under way, or is cut short and ignored |
| `IsoTp.FirstFrameDecides` | transport/can/isotp_adapter.py:251-272 | Any first frame drops what was under way, starts a message exactly if it announces more than it holds, and then grants the first block |
| `IsoTp.ConsecutiveFrameDecides` | transport/can/isotp_adapter.py:274-304 | Any consecutive frame counts exactly inside a message with the expected number and data; otherwise it ends the message; it delivers as soon as the announced bytes are there |
| `IsoTp.OtherFramesAreIgnored` | transport/can/isotp_adapter.py:214-232 | Flow control, unknown and empty frames leave a reassembly alone |
| `IsoTp.FlowControlRoundTrip` | transport/can/isotp_adapter.py:118-146 | What the receiver asks for reaches the sender: status, block size, and the pause in milliseconds or tenths of them |
| `IsoTpLink.Send` | transport/can/isotp_adapter.py:53-92 | For every payload and block size 0 to 255 the sender never times out, waits exactly after the frames on which the receiver grants, leaves no flow control unread, delivers exactly once, and uses the number of grants that the block size gives |
| `IsoTpLink.SendRemaining` | transport/can/isotp_adapter.py:67-92 | The consecutive-frame loop keeps sender and receiver in lockstep, one grant per full block |
| `IsoTpLink.CanBus.WaitForFlowControl` | transport/can/isotp_adapter.py:148-180 | Skips foreign and other frames, tolerates eight wait frames, and stops at continue, overflow or anything else |
| `IsoTpLink.FirstVerdictDecides` | transport/can/isotp_adapter.py:148-180 | The first continue, overflow or unknown status, or the ninth wait, decides, and everything behind it is left unread; foreign messages never matter |
| `IsoTpLink.NextFrame` | transport/can/isotp_adapter.py:274-304 | The reassembler grants exactly when the sender has used up its block, and completes exactly at the last chunk |
| `DoipFraming.StreamBuffer.ExtractPackets` | transport/doip/packet.py:70-98 | Takes exactly the complete packets off the buffer, in order, or raises at an invalid header |
| `DoipFraming.HandleClient` | transport/doip/server.py:268-290 | The receive loop over any list of chunks comes to what the specification says |
| `DoipFraming.PacketsSurviveChunking` | transport/doip/server.py:268-290 | For every list of packets and every split of their bytes into chunks, exactly the packets that are complete have been processed, in order, and a proper prefix of the next one is left |
| `DoipFraming.ChunkingIsInvisible` | transport/doip/server.py:268-290 | For any stream, valid or not: the outcome depends only on the whole stream, and after an invalid header what was processed is a prefix |
| `DoipFraming.ExtractAppend` | transport/doip/packet.py:70-98 | More bytes only add packets after the ones already found |
| `DoipFraming.ParseEncoded` | transport/doip/packet.py:8-18 | A built packet parses back, whatever follows it |
| `DoipFraming.EncodeParsed` | transport/doip/packet.py:48-68 | What parses is the encoding of what it parsed to |
| `DoipFraming.PrefixIsIncomplete` | transport/doip/packet.py:48-68 | Every proper prefix of a packet is incomplete, in its header or in its payload |
| `DoipFraming.BadChunkIsLost` | transport/doip/server.py:268-290 | On an invalid stream exactly the packets that were complete before the chunk with the bad header are processed; nothing is lost if and only if that header is at the front of what waits once the chunk has arrived |
| `DoipFraming.SomeChunkIsBad` | transport/doip/server.py:268-290 | Every stream that turns invalid has such a chunk |
| `DoipFraming.BadHeaderDropsItsChunk` | transport/doip/packet.py:70-98 | For one: a good packet is lost when an invalid header arrives in the same chunk, but not in the next |
| `FirmwareImage.ImageRoundTrip` | firmware/image_format.py:90-195 | Extracting from a built image with any trailing bytes gives back the payload and size; all fields come back if and only if every text field is representable in its width |
| `FirmwareImage.TextFieldRoundTrip` | firmware/image_format.py:28-36 | A text survives padding and unpadding if and only if it is ASCII, fits and does not end in a NUL |
| `FirmwareImage.StoredDigestsAreIgnored` | firmware/image_format.py:132-190 | The stored CRC and SHA-256 are never checked: images that differ only there parse alike |
| `FirmwareImage.CutImageIsRefused` | firmware/image_format.py:132-190 | Every proper prefix of a built image is refused, as too small or as truncated |
| `FirmwareImage.AlteredIdentityIsRefused` | firmware/image_format.py:132-165 | Any altered byte of magic, format version or header size is refused as such |
| `FirmwareImage.BuildSucceedsExactly` | firmware/image_format.py:90-130 | An image is built if and only if the announced size is right and every number fits its field |
| `FlashMemory.FlashMemoryEmulator.EraseRegion` | ecus/base/flash_memory.py:66-83 | Erases exactly the sectors that the region touches |
| `FlashMemory.ErasesWholeSectors` | ecus/base/flash_memory.py:66-83 | A cell is erased if and only if its sector starts before the end of the region and is not before the one the region starts in; every other cell is unchanged |
| `FlashMemory.CoversMeansTouches` | ecus/base/flash_memory.py:66-83 | For a region that is not empty these are exactly the sectors it has a byte in |
| `FlashMemory.OnlyClearsMeansBits` | ecus/base/flash_memory.py:104-113 | The test on each byte holds if and only if every bit of the new value is set in the old one |
| `FlashMemory.FailureStopsAtPage` | ecus/base/flash_memory.py:96-121 | A programming that fails has written whole pages up to the first page that would set a bit |
| `FlashMemory.FlashMemoryEmulator.Program` | ecus/base/flash_memory.py:85-121 | Page by page; range errors change nothing; the cells and the verdict are those of the specification |
| `FlashMemory.FlashMemoryEmulator.Read` | ecus/base/flash_memory.py:123-129 | Exactly the bytes of the range, or a range error |
| `FlashMemory.FlashMemoryEmulator.Verify` | ecus/base/flash_memory.py:131-132 | True exactly if the range holds the payload |
| `FlashMemory.ProgrammingIsExact` | ecus/base/flash_memory.py:85-121 | Programming succeeds exactly when no byte sets a bit, whatever the page size; then the payload stands at its place and nothing else has changed; when it fails, exactly the pages before the offending one are written |
| `FlashMemory.ProgramVerifies` | ecus/base/flash_memory.py:131-132 | A successful programming implies that verification holds |
| `FlashMemory.CellsOnlyLoseBits` | ecus/base/flash_memory.py:66-121 | Over every history of erases and programmings a cell only loses bits until an erase covers its sector |
| `FlashMemory.ApplyOnlyClears` | ecus/base/flash_memory.py:66-121 | One operation either erases a cell or only clears bits of it |
| `FlashMemory.ClearingWritesTheValue` | ecus/base/flash_memory.py:104-118 | Where no bit is set, the bitwise AND that is stored is the value itself |
| `EcuStorage.SlotManager.MarkPending` | ecus/base/slot_manager.py:61-81 | The ordered writes of marking a slot pending |
| `EcuStorage.SlotManager.ActivatePending` | ecus/base/slot_manager.py:83-102 | The ordered writes of booting the pending slot |
| `EcuStorage.SlotManager.CommitPending` | ecus/base/slot_manager.py:104-121 | The ordered writes of confirming the active slot |
| `EcuStorage.SlotManager.RollbackPending` | ecus/base/slot_manager.py:123-152 | The ordered writes of going back to the confirmed slot |
| `EcuStorage.SlotManager.PendingJournalRequiresRecovery` | ecus/base/slot_manager.py:161-171 | True exactly if a slot is pending and its journal is there and incomplete |
| `EcuStorage.VersionManager.SetPendingVersion` | ecus/base/version_manager.py:63-75 | The version file with a pending version |
| `EcuStorage.VersionManager.BootPendingVersion` | ecus/base/version_manager.py:94-106 | The version file after a trial boot, or nothing without a pending version |
| `EcuStorage.VersionManager.ConfirmVersion` | ecus/base/version_manager.py:77-92 | The version file after a commit |
| `EcuStorage.VersionManager.RollbackPendingVersion` | ecus/base/version_manager.py:108-119 | The version file after a rollback |
| `EcuBoot.RebootManager.Reboot` | ecus/base/reboot_manager.py:16-99 | The three-way boot decision as an ordered list of persistent writes |
| `EcuBoot.RebootManager.Validate` | tcu/post_install_validator.py:122-152 | Commit or rollback of one ECU as an ordered list of persistent writes |
| `EcuBoot.RollbackEnd` | ecus/base/reboot_manager.py:40-64 | A rollback ends with both files naming the confirmed version and slot, nothing pending and the flash untouched |
| `EcuBoot.TrialBootEnd` | ecus/base/reboot_manager.py:64-99 | A trial boot ends with both files naming the pending image and one more attempt, and no journal made incomplete |
| `SlotMarks.RollbackMarks` | ecus/base/slot_manager.py:123-152 | A rollback from a trial boot marks the rejected slot as rolled back and not bootable and the confirmed one as active, its journal untouched; of a version that never booted it marks the journal of the confirmed slot |
| `SlotMarks.TrialBootMarks` | ecus/base/slot_manager.py:83-102 | After a trial boot the pending slot is journaled as booted, bootable and active but not confirmed, and the other slot is neither |
| `SlotMarks.CommitMarks` | ecus/base/slot_manager.py:104-121 | After a commit the active slot is journaled as confirmed, bootable, confirmed and active, the other slot is neither, and nothing is pending |
| `SlotMarks.PendingMarks` | ecus/base/slot_manager.py:61-81 | A slot that is marked pending is bootable, and neither confirmed nor active |
| `SlotMarks.RunsStayMarked` | ecus/base/slot_manager.py:214-225 | Over every crash-free run the control blocks name exactly the active slot, which is bootable, and the confirmed one exactly while it is active; each step marks what it rejects, confirms or boots |
| `UpdateLifecycle.RunsStaySafe` | tcu/post_install_validator.py:122-152 | Over every crash-free run of staging, rebooting and validating, the two state files agree, the flash of the confirmed slot is never touched, version and slot are confirmed only by a validation of the version on trial, and the slot state remembers the slot before and why a version was given up |
| `UpdateLifecycle.TrialBootsAreBounded` | ecus/base/reboot_manager.py:64-99 | After n reboots an unconfirmed image is still on trial exactly if its attempts have not passed the limit; after that the confirmed version runs with nothing pending |
| `UpdateLifecycle.LimitPlusOneRebootsRecover` | ecus/base/slot_manager.py:154-159 | Any limit + 1 reboots without a commit end on the confirmed version in the confirmed slot |
| `UpdateLifecycle.ValidationKeepsAgreement` | tcu/post_install_validator.py:122-152 | A validation keeps the files in agreement if and only if it does not confirm a pending version that never booted |
| `UpdateLifecycle.RebootEffect` | ecus/base/reboot_manager.py:16-99 | One reboot of agreeing files boots the pending version once more or gives it up, exactly by the limit |
| `UpdateLifecycle.TornValidation` | tcu/post_install_validator.py:122-152 | Power loss during a commit or rollback, also of a version that never booted, leaves files that agree after any number of reboots if and only if it did not fall between the two files |
| `UpdateLifecycle.TornRollback` | ecus/base/reboot_manager.py:64-87 | The same for the rollback of a reboot at the attempt limit; after that one cut every later reboot boots the rejected image |
| `UpdateLifecycle.TornTrialBoot` | ecus/base/reboot_manager.py:89-93 | Power loss during a trial boot leaves files that agree after n reboots if and only if it did not fall between the two files or the attempts have run out by then |
| `Installer.Install` | ecus/base/installer.py:16-205 | A missing or malformed image changes nothing; otherwise nothing raises, the slot holds the image, the payload and 0xFF behind it in a partition laid out for them, both files mark it pending, the journal has one entry for each phase in their order, and after every single write a power loss leads to the old image or the complete, verified new one |
| `Installer.InstallPayload` | ecus/base/installer.py:65-197 | From payload to the disk that is ready to reboot, crash safe at every write |
| `Installer.EraseSlot` | ecus/base/installer.py:79-96 | Initializing, preparing and erasing leave an erased partition and touch only the inactive slot |
| `Installer.ProgramSlot` | ecus/base/installer.py:98-109 | The programming loop never raises and puts the whole payload in place |
| `Installer.MarkBoth` | ecus/base/installer.py:134-145 | Marking the slot pending in both files is crash safe between them |
| `Installer.VerifySlot` | ecus/base/installer.py:147-197 | Read-back and digest always agree here, and only then the journal makes the slot bootable |
| `Installer.PartitionFits` | ecus/base/installer.py:71-78 | Partition rounding: whole sectors, at least one, less than one sector more than the payload needs |
| `Installer.ProgramNextPage` | ecus/base/installer.py:98-103 | Programming the next page over erased cells never sets a bit, for every page size |
| `Installer.RebootingIsSafe` | ecus/base/reboot_manager.py:16-99 | The reboot at the end of an installation is itself crash safe at every write |
| `Installer.RepeatedCutsAreSafe` | ecus/base/reboot_manager.py:16-99 | After a power loss before the verification any number of further power losses, each during the recovery from the one before, still end on the old image |
| `DependencyGraphs.DependencyGraph.AddDependency` | tcu/models/dependency_graph.py:19-29 | Adds exactly one edge; repeated edges are kept as repeated entries |
| `DependencyGraphs.OrderedMeansAcyclic` | tcu/dependency_manager.py:89-135 | An order with every parent before its children exists only without a cycle |
| `DependencyGraphs.NoFirstMeansCycle` | tcu/dependency_manager.py:126-135 | If every remaining node has a remaining parent there is a cycle |
| `TopologicalPlanner.Plan` | tcu/dependency_manager.py:89-135 | The plan is a duplicate-free permutation of the nodes with every parent before its children, duplicate edges included; nodes come in the order of their release, those released together by priority and then by name, the roots first; it is refused if and only if the graph has a cycle |
| `TopologicalPlanner.RankedIsUnique` | tcu/dependency_manager.py:106-124 | There is only one such order: the plan does not depend on how nodes and edges are enumerated |
| `TopologicalPlanner.LexIsLexicographic` | tcu/dependency_manager.py:137-139 | Names are compared by their first difference, and a prefix comes first |
| `TopologicalPlanner.UnlistedComeLast` | tcu/dependency_manager.py:137-139 | A node without a priority counts as 9999 |
| `TopologicalPlanner.CountIndegrees` | tcu/dependency_manager.py:92-104 | Indegrees count edges with their repetitions |
| `TopologicalPlanner.DryQueue` | tcu/dependency_manager.py:126-135 | When the queue runs dry, all nodes are planned exactly if there is no cycle |
| `CycleCheck.DependencyVisitor.Visit` | vehicle/topology_loader.py:272-285 | One recursive visit: terminates because visiting and visited only grow, reports only real cycles, and otherwise puts the ECU behind all it depends on |
| `CycleCheck.DependencyCycleErrors` | vehicle/topology_loader.py:266-289 | No error is reported if and only if the dependencies have no cycle; every reported chain is a real cycle |
| `CampaignPlanner.CycleChecksAgree` | tcu/dynamic_update_planner.py:268-277 | The recursive check and Kahn's check look at the same cycles |
| `CampaignPlanner.ValidateCycle` | tcu/dynamic_update_planner.py:268-277 | Accepts exactly the dependency maps without a cycle among their own keys |
| `CampaignPlanner.ClassifyTargets` | tcu/dynamic_update_planner.py:48-101 | Every target is classified, and the errors are exactly those of the targets that require an abort, each with its reason |
| `CampaignPlanner.ClassificationMeans` | tcu/dynamic_update_planner.py:62-101 | A target is in place if and only if it answered and is up to date, and requires an abort if and only if it is missing, mandatory and critical to the policy without a skip flag, or outdated, mandatory or critical without a skip flag |
| `CampaignPlanner.ResolveDependencies` | tcu/dynamic_update_planner.py:236-266 | The dependency map; an error for exactly each unknown dependency, and one for a cycle exactly if there is none of these |
| `CampaignPlanner.Prune` | tcu/dynamic_update_planner.py:103-145 | The pruning loop terminates with the unique largest executable set, a stated reason for each dropped ECU, and an error exactly if one of them demands an abort |
| `CampaignPlanner.PruningOrderIsIrrelevant` | tcu/dynamic_update_planner.py:114-145 | In whatever order blocked ECUs are removed, the same greatest set is left |
| `CampaignPlanner.PlanningCanOnlyFailOnCycles` | tcu/dynamic_update_planner.py:158-163 | After an accepted dependency map the pruned graph has no cycle |
| `CampaignPlanner.Plan` | tcu/dynamic_update_planner.py:37-171 | Every plan is sound (greatest set, each ECU once), its order is safe (each planned ECU is an eligible target that comes after everything it requires, unless that is discovered and up to date, and by the priorities of the campaign); planning raises if and only if the set has a cycle; the blocking errors are exactly the reasons to stop |
| `CampaignPlanner.SoundPlansAreSafe` | tcu/dynamic_update_planner.py:147-163 | In every sound plan each ECU comes after everything it requires, which is planned or in place, and by the priorities of the campaign where that leaves a choice |
| `CampaignPlanner.PlansAreUnique` | tcu/dynamic_update_planner.py:147-163 | Two sound plans of one campaign have the same order |
| `UpdateScheduler.Scheduler.Execute` | tcu/update_scheduler.py:30-267 | The main loop: results, success and campaign result of the run of the job |
| `UpdateScheduler.ResultsAreExplained` | tcu/update_scheduler.py:66-267 | For every job, planned or not: who is attempted, satisfied, skipped and why, and who aborts the campaign by its policy, each in terms of the results before it; an abort is the last result and nothing else ends the campaign early; success means no failure and no abort |
| `UpdateScheduler.SummaryMeans` | tcu/update_scheduler.py:327-352 | Which campaign result is reported, by the statuses that occur |
| `UpdateScheduler.ResultOfPlan` | tcu/update_scheduler.py:327-352 | For a plan: complete if and only if successful, aborted if and only if the last result is an abort, failed if and only if everything failed |
| `UpdateScheduler.Scheduler.SendWithRetries` | tcu/update_scheduler.py:176-190 | At most the configured attempts, none after a success |
| `UpdateScheduler.FailureContainment` | tcu/update_scheduler.py:51-267 | For every plan and every pattern of flash outcomes and abort policies: an ECU reached is attempted if and only if nothing it transitively depends on has failed, all it needs is then flashed or satisfied, unavailable dependencies never occur, results are a prefix of the order, and success means a complete prefix without a failure |
| `UpdateScheduler.BlockedMeansFailedAncestor` | tcu/update_scheduler.py:66-117 | Whoever was not attempted depends, through the plan, on an ECU that failed |
| `UpdateScheduler.FailedAncestorBlocks` | tcu/update_scheduler.py:66-117 | Whoever depends on a failed ECU through any path of the plan was not attempted |
| `UpdateScheduler.PlansAreWired` | tcu/main.py:613-641 | A sound plan gives the scheduler what its containment needs |
| `UpdateScheduler.RunCampaign` | tcu/main.py:562-641 | Planner and scheduler together: each of the six outcomes occurs exactly in its case; whatever is executed is a sound plan of the greatest executable set and its failures are contained |

## Left out

- Sockets, threads, sleeps, prints, JSON and real files: messages are values, files are fields, sleeps are pauses of the clock between requests.
- SHA-256, CRC32 and the key derivation (XOR or HMAC): function parameters. A digest match is never taken for equal contents.
- The clock is read once per request; the delays inside the routines are part of the pause before the next request.
- `UDSCanProgrammer.feed` and the zone controller's forwarding: requests reach the handler whole; `IsoTpLink` shows that the link below delivers them.
- The starting of the installer thread after an ECU reset: `installs` counts the starts; `Installer` is the installation itself.
- FlashSession.Transport: the negotiated block length and the environment override are one parameter, any size from 1; waiting for the reboot and reading the version back afterwards are not part of the session.
- FlashSession.Transport.TransferData: one attempt only, as nothing is lost on that link; the retry loop is `LossyLink.LibraryDoIPClient.TransferData`.
- LossyLink.Link: time-outs are decided by an arbitrary oracle instead of 20 s of clock; connection errors and DoIP acknowledgement messages are not modelled.
- GatewayTransfer: the gateway's sessions, security access, routines and reset repeat those of the ECU programmer and are left to that model; only download, blocks and exit, which the client's retries depend on, are modelled twice, with the default block length of 8192.
- IsoTpLink.Send: the receiver's block size is below 256, as it travels in one byte; separation times and the deadline of the wait are abstracted to the messages that arrive before it.
- IsoTpLink: the vehicle's other traffic on the bus; `AwaitGrant` covers it for a single wait.
- DoipFraming.ParseEncoded: packets whose type or length does not fit its field, for which packing raises, are excluded by `Encodable`.
- FirmwareImage: the pseudo-random payload generator is a parameter.
- FlashMemory: the layout file's informational fields, control blocks written by the emulator and the metadata record.
- EcuStorage: default values for missing files, legacy keys, the pending file name, and time stamps; versions are opaque values, compared for equality only.
- Installer: a file write is atomic; a power loss inside one write is not modelled. The removal of a legacy image path and the progress display are left out.
- EcuBoot.RebootManager.Validate: one ECU at a time; the wait for the expected versions, the report and the reporting to the cloud are left out.
- CampaignPlanner: version comparison is the set of ECUs that are up to date; target names are unique; reason texts and dependency sources are left out.
- UpdateScheduler: the reporter, the job status and the repository layout; flashing one ECU succeeds or not per attempt.
- The DoIP process dispatch, legacy JSON messages, the raw CAN chunk path, Uptane verification, MQTT, the web server and the demo tools: no hard property of their own.
