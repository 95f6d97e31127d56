# Fleet telemetry: a verified model

The system is a C++ device agent (`firmware/`) and a Python backend (`backend/`).  A device sends
telemetry over lossy UDP and keeps one TCP control connection, over which the backend pushes
configuration, firmware and injected faults.  This project models the parts whose correctness is
spread over many steps, and proves properties of every run, every byte stream or every input.

`dafny verify dfyconfig.toml` checks everything (Dafny 4.11).

| file | what it models | main results |
|---|---|---|
| `Crc.dfy` | CRC-32: table form and bit-serial definition | the two agree; a burst of up to four bytes always changes the CRC |
| `Bits.dfy`, `Wire.dfy`, `ByteIO.dfy` | field, record and payload formats of both ends; the C++ cursors | every round trip, with the exact condition under which it holds |
| `PyStruct.dfy` | the backend's `struct` formats and argument lists | they spell the C++ writer and reader calls, payloads and whole frames |
| `Frames.dfy` | frames of both ends | round trips, agreement of the encoders, prefix stability, burst rejection |
| `StreamDecoder.dfy` | the backend's resynchronising stream decoder | independence of chunking holds exactly for resyncable streams |
| `AgentReader.dfy` | the agent's TCP reader | independence of call boundaries exactly until the buffer overflows; what the end of the connection throws away |
| `ConfigSync.dfy` | configuration over FIFO connections, drops, reboots, new processes, stale frames | "applied" is truthful; agreement when quiescent, on every run, except exactly for rows that cannot be packed |
| `ConfigStatus.dfy` | the rows' status and the reported version over those runs | both are what the last step wrote; a PUT comes all the way back |
| `ConfigVersion.dfy` | the device's version over those runs | it never decreases within a process, if and only if the process boots safely |
| `FwVersion.dfy`, `Ota.dfy`, `OtaRuns.dfy` | version strings as both ends read them; firmware jobs with failures anywhere | exactly where the two readings differ; firmware never goes back; what is installed is run and announced; "complete" is truthful, and possible exactly for targets written as the device prints them |
| `Agent.dfy` | the agent's handlers as imperative code | each does what the two system models say, for every pattern of failed sends |
| `Registry.dfy` | the table of control connections | the writer is the latest registration still running |
| `SeqTracker.dfy` | sequence-gap loss estimator modulo 2^32 | refines an unbounded running maximum |
| `Ewma.dfy` | EWMA anomaly detector over the reals | incremental equals direct; exactly when the z-score cannot rise; level shifts are re-learned |
| `Alerts.dfy`, `AlertRuns.dfy`, `Restarts.dfy` | alert lifecycle, offline marking, backend restarts | one live alert per condition; exactly what a tick closes; offline alert if and only if marked offline; exactly which devices a restart forgets |
| `Injections.dfy` | timed fault injections | the list refines a specification read off the events alone |
| `Hysteresis.dfy` | threshold bits with hysteresis | a lower bound on what chatter costs, and when it can be broken |
| `FlagWords.dfy`, `Rollup.dfy` | minute rollups, raw tail, retention | the 1m view equals aggregation of the unpruned history; when `fault_flags_any` is what it says |
| `Common.dfy` | `Option` and concatenation | |

State that the source updates in place is a class (`StreamDecoder`, `AgentChannel`, `Agent`,
`ConfigTable`, `Connections`, `DeviceStats`, `Gate`, `Detector`, `AnomalyEngine`, `Ingest`, `Injector`,
`SensorBits`, `Database`, `ByteWriter`, `ByteReader`); each method is proved equal to a function of
the old state, and the theorems about runs are proved of those functions.

## Where the code is weaker than it looks

Each of these is a lemma with a concrete input or run, next to the exact condition.

- The stream decoder drops the whole buffer when it finds no "TE", so a trailing `T` is lost
  (`TrailingTLost`, `ZerosThenT`); `ChunkFreeIff` says exactly which streams are safe.
- A 12-byte id survives the firmware's codec and is cut to 11 bytes by the backend's (`TwelveByteId`).
- A configuration stored before any HELLO gets version 1 and is pushed at the first HELLO only to a
  device that announces version 0, so never to one on its default version 1 (`NeverPushed`).
- A PUT with a limit beyond the f32 range is stored, but `struct.pack` raises before anything is
  sent.  A connected, drained device then disagrees with the current row; this is possible if and
  only if the row cannot be packed (`StrandedIff`, `StrandedBy`), and every later HELLO below that
  version ends its connection (`FirstHelloPushes`).
- A new process can be sent back to a lower version: by a late heartbeat of an older process
  (`BackByHeartbeat`), which lowers the next number, or by a late answer to `request_hello`
  (`BackByAnswer`), which has an old row pushed to the newest connection.  With f the lowest version
  any process booted with and H the highest stored row, this is possible for a boot version b if and
  only if b > f + 1 and b > H (`BootSafetyExact`).
- Bytes that reach the agent in the same call as the end of the connection are thrown away
  unparsed; one call earlier they would have been handled (`FrameLostWithFin`, `ClosingCallLoses`).
- The backend takes version strings with signs, blanks, underscores or digits of other scripts that
  the device refuses, so such a version can be registered and never installed
  (`SignedOrBlankDiffers`); `ParsersDiffer` gives exactly the strings on which the ends differ.
- A job completes only if its target is written exactly as the device prints versions; "1.02.3" is
  installed and its job stays open (`CompletableIff`).
- A version of more than 15 characters is cut on the wire, and the device installs another one
  unless the cut falls within a patch number of zero (`WireKeepsIff`).
- A LOG frame does not refresh the device row, so when the backend crashes before it first saves
  the statistics a device can be marked offline 11.5 s after its last frame (`MarkedOfflineEarly`),
  and only when its row is behind (`EarlyIff`).
- A device that is online when the backend restarts and never speaks again is marked offline if and
  only if its statistics were not saved and a sweep more than 15 s after its row was written comes
  before anything makes new ones (`MarkedIff`).  Otherwise it keeps its online row and no offline
  alert is opened for it (`SilentAfterRestart`).  Opening the device list is enough
  (`ListingForgets`), and so is one datagram with a bad CRC.
- A device with the empty id is never unregistered (`EmptyIdStays`).
- A reading of zero volts clears the undervoltage bit at once, so the bound on chatter can be
  broken, with any threshold and only by such readings (`ZeroVoltsChatters`, `BreaksIff`).
- With no variance and no `min_std` the z-score rises from zero under constant input
  (`ZNeverIncreases`) and a cold metric can become hot (`ColdStays`), exactly in that corner.
- The comment at `firmware/src/agent.cpp:286` says that a failed read keeps the last sample; the
  code has already replaced it with the plant's.  Only the threshold bits stay, and that is what
  `Detect` models.
- `fault_flags_any` is a maximum, not a bitwise or (`backend/app/db.py:259`); it holds the flags of
  the whole minute if and only if one row had them all at once (`FlagsAnyIff`).

## Model

| member | source | states |
|---|---|---|
| `Crc.BuildTable` | firmware/src/protocol.cpp:136-148 | entry i of the table is eight bit-serial shifts of i |
| `Crc.Crc32` | firmware/src/protocol.cpp:151-156 | the table loop computes the bit-by-bit CRC for every input and seed |
| `Crc.CheckValue` | firmware/tests/test_main.cpp:60-61 | the bit-by-bit definition gives the standard check value 0xCBF43926 |
| `Crc.TableStep` | firmware/src/protocol.cpp:154-154 | one table look-up equals eight bit-serial steps fed with the byte |
| `Crc.Continue` | firmware/src/protocol.cpp:151-156 | the CRC of a concatenation is the CRC of the second part seeded with that of the first |
| `Crc.BurstDetected` | firmware/src/protocol.cpp:151-156 | changing up to four consecutive bytes always changes the CRC, whatever surrounds them |
| `Wire.LeRoundTrip` | firmware/src/protocol.cpp:161-222 | a little-endian field reads back as the number reduced to the field's width |
| `Wire.TextRoundTrip` | backend/app/protocol.py:110-116 | a text survives its field if and only if it is NUL-free and at most n (C++) or n-1 (Python) bytes |
| `Wire.TextAgree` | firmware/src/protocol.cpp:188-190 | the two ends lay a NUL-free text out alike if and only if it is shorter than the field |
| `Wire.RecordRoundTrip` | firmware/src/protocol.cpp:161-250 | a record reads back equal if and only if every number is in range and every text fits |
| `Wire.ReadAt` | firmware/src/protocol.cpp:192-250 | each field is read from the bytes at its own offset and from no others |
| `Wire.PayloadSizes` | backend/app/protocol.py:167-395 | each payload layout has the wire size both ends declare |
| `Wire.PayloadRoundTrip` | firmware/src/protocol.cpp:304-510 | every payload of every type round-trips through each codec if and only if its fields are in range; LOG is cut at 1020 bytes |
| `Wire.PayloadAgree` | backend/app/protocol.py:167-395 | the C++ and Python encoders give identical bytes for NUL-free texts shorter than their field |
| `ByteIO.ByteWriter.PutNumber` | firmware/src/protocol.cpp:161-171 | appends the little-endian bytes of the number |
| `ByteIO.ByteWriter.PutText` | firmware/src/protocol.cpp:188-190 | appends the NUL-padded, truncated text |
| `ByteIO.ByteReader.GetNumber` | firmware/src/protocol.cpp:192-222 | reads the number at the cursor, or fails for good without moving |
| `ByteIO.ByteReader.GetText` | firmware/src/protocol.cpp:235-241 | reads the bytes before the first NUL of the field and moves past the field |
| `ByteIO.ByteReader.GetRecord` | firmware/src/protocol.cpp:321-335 | a chain of reads succeeds if and only if the input is long enough, and then spells the record |
| `ByteIO.WriteThenRead` | firmware/src/protocol.cpp:161-250 | the reader object returns the record the writer object was given if and only if it was in range |
| `PyStruct.PyPackIsEncode` | backend/app/protocol.py:167-395 | each class's struct format and arguments give the C++ layout, or fail exactly when an unmasked number does not fit |
| `PyStruct.PyUnpackIsDecode` | backend/app/protocol.py:167-395 | for every type and every byte string both ends refuse alike or decode to the same payload |
| `PyStruct.HeaderPacks` | backend/app/protocol.py:132-137 | the header format and its masked arguments give the C++ header layout |
| `PyStruct.SameFrame` | backend/app/protocol.py:419-425 | the frame built from the Python formats is byte for byte the frame built by the C++ writer calls |
| `Frames.HeaderRoundTrip` | backend/app/protocol.py:123-152 | a header reads back equal if and only if its fields are in range |
| `Frames.HeaderBytes` | backend/app/protocol.py:18-18 | each header field is read from its fixed bytes |
| `Frames.DecodeVerdict` | firmware/src/protocol.cpp:273-299 | which of the six answers decodeFrame gives, in terms of the bytes alone |
| `Frames.PyErrorIs` | backend/app/protocol.py:139-150 | the backend raises the matching error |
| `Frames.PyRefusesBody` | backend/app/protocol.py:441-454 | and refuses a payload length that does not fit its type |
| `Frames.Oversized` | firmware/src/protocol.cpp:264-266 | a payload over 1024 bytes is cut by the firmware and refused by the backend |
| `Frames.FrameRoundTrip` | firmware/src/protocol.cpp:255-299 | an encoded frame, whatever follows it, decodes to itself and consumes exactly itself |
| `Frames.CppRoundTrip` | firmware/src/protocol.cpp:255-299 | decodeFrame inverts encodeFrame for every header in range and payload up to 1024 bytes |
| `Frames.PyDecodeIsDecode` | backend/app/protocol.py:441-454 | the Python decoder accepts exactly the frames the C++ decoder accepts whose payload length fits their type, with the same header and payload |
| `Frames.PyRoundTrip` | backend/app/protocol.py:419-454 | every payload in range comes back from the backend's own codec |
| `Frames.EncodersAgree` | backend/app/protocol.py:419-425 | both ends produce identical frames for NUL-free ids of at most 11 bytes and plain payloads |
| `Frames.TwelveByteId` | backend/app/protocol.py:114-116 | a 12-byte id survives the C++ field and loses its last byte in the Python one |
| `Frames.DecodeStable` | firmware/src/protocol.cpp:273-299 | an answer other than "too short" does not change when bytes are appended |
| `Frames.BurstRejected` | firmware/src/protocol.cpp:287-294 | any non-zero change within four consecutive covered bytes that leaves the length field alone is rejected |
| `StreamDecoding.StreamDecoder.FeedChunk` | backend/app/protocol.py:464-489 | one call does what the recursive decoder does and keeps fewer than 1064 bytes, for any bytes |
| `StreamDecoding.ChunkFreeIff` | backend/app/protocol.py:464-489 | the result is independent of chunking if and only if every bad header has its next "TE" within its own 36 bytes or ends the stream |
| `StreamDecoding.WellFramed` | backend/app/protocol.py:457-489 | for well-framed blocks under every chunking: exactly the good frames in order, exactly the bad ones counted, only the trailing partial block kept |
| `StreamDecoding.TrailingTLost` | backend/app/protocol.py:475-478 | a chunk boundary after a final T loses the frame start that one chunk would have kept |
| `StreamDecoding.ZerosThenT` | backend/app/protocol.py:475-478 | 35 zero bytes and a T are such a chunk |
| `AgentReading.AgentChannel.TcpRead` | firmware/src/agent.cpp:487-526 | one call appends everything received, then parses it; overflow, peer closed, recv error, framing error and a handler that closes the channel each end it as coded |
| `AgentReading.ReadsExact` | firmware/src/agent.cpp:487-526 | for every byte stream, every cut into calls and every handler behaviour: the reader ends as one parse of the whole if and only if no call overflows, and otherwise closes for overflow |
| `AgentReading.ShortCallsFit` | firmware/src/agent.cpp:493-496 | calls of at most 64473 bytes, or streams of at most 64 KiB, never overflow |
| `AgentReading.ClosingCallLoses` | firmware/src/agent.cpp:499-506 | a call that ends the connection handles nothing; the same bytes one call earlier would have been handled if and only if they complete a frame |
| `AgentReading.FrameLostWithFin` | firmware/src/agent.cpp:499-502 | every frame the firmware can encode is lost when it arrives with the end of the stream |
| `AgentReading.LeftoverBound` | firmware/src/agent.cpp:515-515 | less than one maximal frame stays buffered |
| `AgentReading.LongestPrefixHandled` | firmware/src/agent.cpp:507-526 | the frames handled are the longest valid-frame prefix, whatever the boundaries of the calls, if and only if none overflows |
| `ConfigSync.ConfigTable.CurrentConfig` | backend/app/db.py:329-330 | the row with the highest version |
| `ConfigSync.ConfigTable.NewConfig` | backend/app/db.py:335-344 | the new version exceeds every stored one and the reported one |
| `ConfigSync.ConfigTable.AckConfig` | backend/app/db.py:346-348 | sets the status of exactly the rows with that version |
| `ConfigSync.StepKeeps` | backend/app/ingest.py:189-314 | every step, new processes of any version included, keeps the system invariant |
| `ConfigVersion.AnchoredStep` | firmware/src/agent.cpp:595-622 | no step within a safely booted process lowers the device's version |
| `ConfigVersion.VersionNeverDecreases` | firmware/src/agent.cpp:595-622 | in every interleaving, whatever other processes did, the config version of a safely booted process never decreases |
| `ConfigVersion.BootSafetyExact` | backend/app/db.py:335-344 | for every lowest boot version f, highest row H and 32-bit boot version b: some run sends that process back if and only if b > f + 1 and b > H |
| `ConfigVersion.BackByHeartbeat` | backend/app/ingest.py:242-245 | with no row above f, a late heartbeat of an old process does it |
| `ConfigVersion.BackByAnswer` | backend/app/ingest.py:274-277 | with a row above f, a late answer to request_hello does it |
| `ConfigSync.AppliedMeansApplied` | backend/app/ingest.py:251-259 | on every run a row marked applied is one whose exact version and values the device took over |
| `ConfigStatus.StatusExact` | backend/app/ingest.py:251-254 | on every run a row carries the status that the last step wrote for its version: pending, sent, queued, applied or rejected |
| `ConfigStatus.ReportedExact` | backend/app/ingest.py:233-255 | the reported version is the last one any connection reported |
| `ConfigStatus.PutRoundTrip` | backend/app/api.py:159-172 | from every idle state a PUT that can be packed leads back to one, with the row applied and held, or rejected, as the device's validation says |
| `ConfigStatus.DeviceStep` | firmware/src/agent.cpp:595-634 | what the device holds and answers after each frame |
| `ConfigStatus.DeviceEdges` | firmware/src/agent.cpp:605-607 | the edges of the device's validation |
| `ConfigStatus.FrameEdges` | backend/app/protocol.py:269-279 | the edges of what a frame can hold |
| `ConfigSync.QuiescentAgreement` | backend/app/ingest.py:274-277 | on every run, when connected and drained, the current configuration is held by the device, was refused, cannot be packed, or is no newer than what the device announced |
| `ConfigSync.StrandedIff` | backend/app/ingest.py:292-305 | a drained, connected device can disagree with a current row newer than its HELLO that it neither holds nor refused, if and only if that row cannot be packed |
| `ConfigSync.StrandedBy` | backend/app/api.py:122-127 | the run: connected, one PUT that cannot be packed, nothing in flight |
| `ConfigSync.FirstHelloPushes` | backend/app/ingest.py:274-277 | a HELLO below the current row has it pushed, or, if it cannot be packed, ends the connection |
| `ConfigSync.NeverPushed` | backend/app/db.py:339-340 | a configuration stored before any HELLO is pushed at the first one if and only if the device announces version 0 and it can be packed |
| `FwVersion.ParseFwVersion` | firmware/src/protocol.cpp:89-111 | the scanning loop computes the packed version or fails |
| `FwVersion.ScannerSplits` | firmware/src/protocol.cpp:89-111 | the scanner accepts exactly three plain decimal numbers in range between dots, and packs them |
| `FwVersion.ParsersDiffer` | backend/app/protocol.py:93-103 | the ends read a string differently if and only if the backend's grammar takes it and it has a character other than ASCII digits and dots, or the device takes it and a number has more than 4300 digits |
| `FwVersion.SignedOrBlankDiffers` | backend/app/protocol.py:94-98 | every version with a plus sign or a blank in front is taken by the backend and refused by the device |
| `FwVersion.WireKeepsIff` | backend/app/protocol.py:317-318 | a version the device can read arrives unchanged in value if and only if it has at most 15 characters or is cut within a patch number of zero |
| `FwVersion.PrintParse` | backend/app/protocol.py:106-107 | printing then parsing gives every u32 back, on both ends |
| `FwVersion.PrintInjective` | firmware/src/protocol.cpp:113-117 | different versions print differently |
| `FwVersion.PackedOrder` | firmware/src/agent.cpp:648-648 | packed order is lexicographic order on (major, minor, patch) |
| `Ota.StepKeeps` | firmware/src/agent.cpp:636-690 | every step, with send failures anywhere, keeps the invariant and the firmware version does not drop |
| `Ota.FirmwareNeverDecreases` | firmware/src/agent.cpp:196-207 | across any run with failures and reboots the firmware version never decreases |
| `Ota.CompleteMeansRan` | backend/app/ingest.py:278-286 | a complete job was announced by a HELLO with its target, the device ran that target, and stays at or above it |
| `OtaRuns.UpdateStep` | firmware/src/agent.cpp:636-670 | when FW_UPDATE starts an update and what it answers, with and without send failures |
| `OtaRuns.InstalledRuns` | firmware/src/agent.cpp:196-207 | on every run the boot after a finished download leaves the device on exactly its target |
| `OtaRuns.InstalledAnnounced` | firmware/src/agent.cpp:455-465 | and the next connection announces it |
| `OtaRuns.JobStatusExact` | backend/app/ingest.py:260-286 | on every run a job carries the last status written to it |
| `OtaRuns.HelloCompletes` | backend/app/ingest.py:278-282 | a handled HELLO that names the latest open job's target completes it |
| `OtaRuns.HelloResends` | backend/app/ingest.py:283-286 | any other has the update sent again in three of the statuses |
| `OtaRuns.UpdateRoundTrip` | backend/app/api.py:205-218 | from every ready state a startable, canonical version can be taken all the way to running and complete |
| `OtaRuns.CompletableIff` | backend/app/ingest.py:280-281 | some run completes a job if and only if its target is written as the device prints it |
| `Agent.Agent.HandleConfigSet` | firmware/src/agent.cpp:595-634 | does what the ConfigSync device step does, with the reply sent or the channel dropped; a malformed payload changes nothing and is refused as version 0 |
| `Agent.Agent.HandleFwUpdate` | firmware/src/agent.cpp:581-671 | for every pattern of failed sends, ends in a state and with acknowledgements that the Ota model has |
| `Agent.Agent.ServiceOta` | firmware/src/agent.cpp:673-690 | progress, completion and idle cases, each equal to the Ota step |
| `Agent.Agent.BootStep` | firmware/src/agent.cpp:196-207 | the pending firmware is taken over exactly when it parses |
| `Agent.Agent.TcpFail` | firmware/src/agent.cpp:468-485 | drops the channel and a running update, nothing else |
| `Agent.Agent.SendFrame` | firmware/src/agent.cpp:543-552 | sends, drops the channel, or does nothing when there is none |
| `Agent.Agent.StartReboot` | firmware/src/agent.cpp:743-760 | closes the channel, forgets a running update, goes quiet |
| `Agent.Agent.OnConnected` | firmware/src/agent.cpp:455-465 | HELLO is the first frame of a new channel |
| `Registry.Connections.OnFrame` | backend/app/ingest.py:198-203 | the first frame registers the connection; frames of another device are not dispatched |
| `Registry.Connections.Finish` | backend/app/ingest.py:210-214 | unregisters the connection only if it is still the registered one |
| `Registry.WriterExactly` | backend/app/ingest.py:189-228 | a connection is the writer if and only if it made the latest registration and has not ended; connected if and only if there is a writer |
| `Registry.StaleTeardown` | backend/app/ingest.py:210-214 | the end of a stale connection never unregisters a newer one |
| `Registry.EmptyIdStays` | backend/app/ingest.py:211-211 | a device with the empty id stays registered |
| `SeqTracker.DeviceStats.NoteSeq` | backend/app/ingest.py:39-51 | one frame number is absorbed, with duplicates, old frames, gaps and restarts |
| `SeqTracker.RecordsAreMaxima` | backend/app/ingest.py:39-51 | the accepted frames are the running maxima, strictly increasing, from the first frame on |
| `SeqTracker.TracksMaximum` | backend/app/ingest.py:39-51 | for any delivery order within half the number space the mod 2^32 tracker is the one the unbounded maxima imply |
| `SeqTracker.GapCountExact` | backend/app/ingest.py:41-48 | the gap count is the span less the new maxima if and only if no step jumped past 10,001 |
| `SeqTracker.WindowSpan` | backend/app/ingest.py:31-51 | the window holds the last 200 accepted frames and its sum is their index span |
| `SeqTracker.LossAlwaysInRange` | backend/app/ingest.py:31-37 | the loss lies in [0, 100) for every sequence of frame numbers |
| `SeqTracker.LossIsMissingShare` | backend/app/ingest.py:31-37 | without jumps the loss is the share of the window's index span that is missing |
| `SeqTracker.JumpIsRestart` | backend/app/ingest.py:44-48 | a frame more than 10,001 ahead loses nothing and restarts the count |
| `EwmaDetector.Gate.OnSample` | backend/app/anomaly.py:293-302 | whether the operating point moves, against the gate metric's own mean before this sample |
| `EwmaDetector.MovingIs` | backend/app/anomaly.py:300-301 | of the gate's two margins the larger counts, once it is warm |
| `EwmaDetector.Detector.OnSample` | backend/app/anomaly.py:303-327 | the new estimate, streak and verdict for one sample |
| `EwmaDetector.SampleEffect` | backend/app/anomaly.py:308-322 | over every sequence of samples, one that is ungated, warm and over the limit slows the mean, freezes the variance and lengthens the streak; any other is learned in full and ends it |
| `EwmaDetector.RuleTrueIff` | backend/app/anomaly.py:317-323 | the rule is true if and only if a run of at least sustain anomalous samples ends here and began at least sustain_s ago |
| `EwmaDetector.GatedThroughout` | backend/app/anomaly.py:311-316 | gated throughout, a metric is learned like any other and its rule is never true |
| `EwmaDetector.MeanInRange` | backend/app/anomaly.py:57-70 | in every mode the variance is non-negative and the mean lies between the smallest and largest sample |
| `EwmaDetector.WeightsSumToOne` | backend/app/anomaly.py:57-70 | the weights of the direct definition sum to one |
| `EwmaDetector.IncrementalIsDirect` | backend/app/anomaly.py:57-70 | the incremental update equals the directly defined weighted mean and variance of the whole history |
| `EwmaDetector.ExceedsIsZ` | backend/app/anomaly.py:309-312 | the anomaly test is the squared z-score, zero without a scale, against the squared limit |
| `EwmaDetector.ZNeverIncreases` | backend/app/anomaly.py:303-316 | under constant input the z-score of a warm, ungated metric does not increase, hot or not, if and only if there was a scale or no distance; otherwise it rises to sqrt((1 - alpha) / alpha) |
| `EwmaDetector.ColdStays` | backend/app/anomaly.py:308-316 | a cold sample is followed by a hot one if and only if there was no scale yet, the distance is not zero and 1 - alpha > z^2 alpha |
| `EwmaDetector.HotIsPrefix` | backend/app/anomaly.py:303-316 | hot samples form a prefix |
| `EwmaDetector.HotDecay` | backend/app/anomaly.py:312-316 | while hot the distance shrinks by 1 - alpha/10 per sample and the scale is frozen |
| `EwmaDetector.HotExactly` | backend/app/anomaly.py:303-316 | sample k is hot if and only if ((1 - alpha/10)^k d)^2 still exceeds z^2 times the scale at the start |
| `EwmaDetector.Relearned` | backend/app/anomaly.py:312-316 | every level shift is re-learned after finitely many samples |
| `Alerts.AnomalyEngine.OpenAlert` | backend/app/db.py:286-288 | the newest open or acknowledged row of a condition |
| `Alerts.AnomalyEngine.Mark` | backend/app/anomaly.py:165-171 | remembers a true condition and opens an alert unless one is live |
| `Alerts.AnomalyEngine.ResolveRule` | backend/app/anomaly.py:177-183 | closes the live alert of a condition and forgets it |
| `Alerts.AnomalyEngine.Ack` | backend/app/api.py:277-287 | open becomes acknowledged; anything else is left alone; an unknown id is reported |
| `Alerts.AnomalyEngine.Tick` | backend/app/anomaly.py:185-202 | the two loops, in any dictionary order and with the limit of 1000 rows, close exactly the rows a row-by-row rule names |
| `AlertRuns.OneLiveAlert` | backend/app/anomaly.py:165-183 | on every run each (device, rule) has at most one open or acknowledged alert |
| `AlertRuns.StatusOnlyAdvances` | backend/app/db.py:296-299 | rows are never removed or re-keyed, and only move open, acknowledged, resolved |
| `AlertRuns.MarkOpens` | backend/app/anomaly.py:165-171 | a true condition opens one dated open row unless one is live |
| `AlertRuns.AckMarks` | backend/app/api.py:277-287 | an acknowledgement dates and marks one open row and nothing else |
| `AlertRuns.AckedIff` | backend/app/api.py:277-287 | on every run a row that is not closed is acknowledged if and only if someone acknowledged it |
| `AlertRuns.RulesExact` | backend/app/api.py:295-304 | the hold time and the offline switch are those last set |
| `AlertRuns.SaveAndRestart` | backend/app/ingest.py:73-76 | a restart reads back exactly what was saved, all offline |
| `AlertRuns.TickExact` | backend/app/anomaly.py:185-202 | a tick closes a live alert if and only if its condition was last true at least the hold time ago (or, never true since the restart, its row was untouched that long and is among the newest 1000); never an offline alert |
| `AlertRuns.TickLeavesNone` | backend/app/anomaly.py:189-194 | a tick at or after last-true + hold leaves no live alert of that condition |
| `AlertRuns.Ingest.MarkOnline` | backend/app/ingest.py:134-143 | statistics, device row and engine move together |
| `AlertRuns.Ingest.OnFrame` | backend/app/ingest.py:145-149 | a frame refreshes last_seen and brings the device online |
| `AlertRuns.Ingest.OfflineRound` | backend/app/ingest.py:122-132 | one round marks devices one by one and leaves no silent device marked online |
| `AlertRuns.OfflineAlertExact` | backend/app/anomaly.py:205-214 | on every run, restarts and any rule names included, the offline alert is live if and only if the last word on the device was "offline" with the rule on, or a telemetry rule of that name was true since it came online |
| `AlertRuns.OfflineAlertIff` | backend/app/ingest.py:134-149 | with the rule on and no restart: live if and only if the device has been online and is marked offline, or a telemetry rule borrowed the name |
| `AlertRuns.OfflineOnlyWhenSilent` | backend/app/ingest.py:122-132 | a device goes offline only after more than 15 s without a frame, except from a row older than its last frame after a restart |
| `AlertRuns.EarlyIff` | backend/app/ingest.py:129-132 | a device can be marked offline within 15 s of its last frame if and only if this process has no statistics of it and its online row is older than that frame |
| `AlertRuns.MarkedOfflineEarly` | backend/app/ingest.py:129-132 | a run of less than five seconds before a crash in which that happens |
| `Restarts.ReachableIff` | backend/app/ingest.py:129-132 | before the first sweep after a restart, some sweep can mark an online row offline if and only if its statistics were not saved and nothing made new ones |
| `Restarts.MarkedIff` | backend/app/ingest.py:122-132 | over every quiet run, the device is marked offline if and only if its statistics were not saved and a late enough sweep comes before anything makes new ones |
| `Restarts.SilentAfterRestart` | backend/app/ingest.py:73-83 | otherwise its row says online for good, memory says offline, and no offline alert opens unless a telemetry rule has that name |
| `Restarts.ListingForgets` | backend/app/api.py:31-33 | a listing of the devices after the restart is enough for that |
| `Injections.Injector.UpdateInjections` | firmware/src/agent.cpp:253-278 | fires due command-line faults, erases expired entries in place, combines the rest |
| `Injections.Injector.HandleFaultInject` | firmware/src/agent.cpp:692-710 | clears, then sets, then combines |
| `Injections.Injector.ClearAll` | firmware/src/agent.cpp:725-729 | clear_faults and reboot drop everything |
| `Injections.ListIsHistory` | firmware/src/agent.cpp:253-278 | flag by flag and expiry by expiry, the list is what was issued, not covered since, and not outlived by a tick |
| `Injections.InjectedExactly` | firmware/src/agent.cpp:692-713 | after any event a flag is injected if and only if a standing injection of it was not outlived by a tick |
| `Injections.InjectedAfterTick` | firmware/src/agent.cpp:253-278 | after each tick a flag is injected if and only if an uncovered FAULT_INJECT or command-line fault of it is untimed or not yet as old as its duration, in the events' own milliseconds and seconds |
| `Injections.CliFiresOnce` | firmware/src/agent.cpp:255-261 | each command-line fault fires exactly once, at the first tick that reaches its start |
| `Hysteresis.SensorBits.ReadSensors` | firmware/src/agent.cpp:283-312 | the four bits after one reading; a failed read changes none |
| `Hysteresis.ChatterBound` | firmware/src/agent.cpp:297-305 | e changes of a bit need a total variation above (e-1) margins |
| `Hysteresis.QuietIff` | firmware/src/agent.cpp:300-302 | a bit keeps its value if and only if the readings stay on its side of the band |
| `Hysteresis.BandIsQuiet` | firmware/src/agent.cpp:297-302 | readings in (limit - margin, limit] never change the bit |
| `Hysteresis.MirrorImage` | firmware/src/agent.cpp:306-309 | undervoltage is the mirror image for positive voltages |
| `Hysteresis.LowChatterBound` | firmware/src/agent.cpp:306-309 | hence the same bound for undervoltage |
| `Hysteresis.ZeroVoltsChatters` | firmware/src/agent.cpp:306-306 | zero-volt readings break the bound, for every threshold |
| `Hysteresis.BreaksIff` | firmware/src/agent.cpp:306-309 | some run breaks the bound if and only if a threshold is set, and every such run has a reading that is not positive |
| `Hysteresis.BitsAreIndependent` | firmware/src/agent.cpp:303-311 | each of the four bits is its own hysteresis, with its own margin, over its sensor's successful reads |
| `Rollup.Database.FlushBuffer` | backend/app/db.py:178-187 | the buffer moves to the raw table |
| `Rollup.Database.RollUp` | backend/app/db.py:246-264 | aggregates whole minutes from rollup_upto on and moves the mark |
| `Rollup.Database.PruneOlder` | backend/app/db.py:266-270 | deletes raw rows before the cutoff |
| `Rollup.AggregateMeans` | backend/app/db.py:254-260 | a bucket counts its rows and holds attained minima and maxima of each metric with the average between them |
| `Rollup.AggregatePlace` | backend/app/db.py:254-260 | its position is an average within the rows' extent and its state an attained maximum |
| `Rollup.FlagsAnyIff` | backend/app/db.py:259-259 | its flags are those of one row, and those of all rows together if and only if one row had them all |
| `Rollup.StepIff` | backend/app/db.py:246-270 | an operation keeps the rollup exact if and only if no row arrives for a rolled minute and none is cut before its rollup |
| `Rollup.RollAddsOnly` | backend/app/db.py:252-262 | REPLACE never overwrites a bucket |
| `Rollup.PromptRunsAreExact` | backend/app/db.py:178-270 | every run that flushes before each boundary and prunes behind it stays exact |
| `Rollup.RolledOnce` | backend/app/db.py:246-264 | on every timely run each row flushed for a minute below the boundary is counted in exactly one bucket |
| `Rollup.ViewIsHistory` | backend/app/db.py:189-222 | for every limit, the 1m view is the newest rows of one-minute aggregation of the full unpruned history from since on, although the code cuts twice |
| `Rollup.WholeView` | backend/app/db.py:189-222 | all of it when the limit is not reached |
| `Rollup.ViewAscends` | backend/app/db.py:189-214 | its buckets strictly increase |
| `Rollup.RunKeepsRows` | backend/app/db.py:172-187 | flushed and buffered rows are exactly those handed to the store, in order |
| `Rollup.PromptViews` | backend/app/db.py:178-270 | on every timely run, for every limit, the view is the newest rows of the aggregation of every row handed over before the last flush, and strictly increases |
| `Rollup.PruneExact` | backend/app/db.py:266-270 | a prune removes exactly the raw rows before the cutoff |
| `Rollup.MinutesAreMinutes` | backend/app/db.py:251-258 | buckets are the minutes rows fall in, and a rollup ends at the last full minute |

## Left out

- Sockets, select, asyncio scheduling, SQL and WAL: replaced by FIFO queues, atomic steps and maps.
- The plant model, the random generator, `sensors.cpp`, configuration files and the command line.
- IEEE-754 rounding, NaN readings and `round`: reals instead; floats on the wire are opaque words, and a stored limit carries the f32 it packs to.
- PyStruct.PyPackIsEncode: floats are words, so the failure to pack a number beyond the f32 range is modelled for configurations only, in ConfigSync.
- FwVersion.WireKeepsIff: long versions that only the backend reads, with signs, blanks or underscores, are not covered.
- Text outside ASCII: ids and strings are byte sequences; Python's replacement of undecodable bytes is not modelled.
- `SetRules` keeps only the hold time and the offline switch; rule evaluation, overrides and rate-of-change windows would only add easy members.
- Alert metric, value, severity, message and timestamps other than `updated_at`; a step reads the clock once.
- AgentReading.ReadsExact: whether a handler closes the channel depends only on the frames handled so far.
- Frames still in flight from before the first state of a run.
- Liveness: that an update or a configuration eventually arrives is not guaranteed by the code.
- Job rows other than target and status; which connection a firmware frame goes to is left open.
- Rollup.ViewIsHistory: minute-aligned ranges; other steps and metrics queries are not modelled.
- Injections.InjectedAfterTick: flag words are sets of bit positions; the clock does not run backwards and starts at zero or later.
- Log levels, reconnect back-off, tick scheduling and FAULT_ACK traffic.
- Diagnostics, the event bus, the user interface, the simulation runner and the tools.
