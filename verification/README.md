# Media path: model and proofs

This project models the media path of the game-streaming client and proves what its parts
keep over whole runs. The path turns lossy, reordered packets and bounded caches into
ordered, accounted-for output. There is one module for each component:

- `Serial`, `Rtp`, `H264`, `IdrScan`, `Nack`, `ReceiverReport`, `Assembly`: the wire formats
  and the arithmetic of the video jitter buffer. All wrap-around is written out.
- `VideoJitter`, `VideoJitterRuns`, `JitterNumbers`, `PartOfUnit`, `Delivery`, `RoundTrips`,
  `MarkerOrder`: the jitter buffer itself as a class with the program's fields and loops; what holds
  on every run of it; the path of one access unit from a sender's packets to the decoder; and when
  the order of arrival matters.
- `Nv12`: the 2:1 downscale with its vector loops and four rotating row buffers, against the
  plain two-pass filter.
- `AudioJitter`: the audio reorder buffer and its accounting.
- `Replay`: the look-ahead feeder and its model of a bad network.
- `Thumbs`: the two-thread thumbnail cache.
- `HandOff`, `Remb`, `KeyframeThrottle`: the queue between the network and decode threads, the
  bandwidth controller, and the throttle on keyframe requests.
- `PcmRing`, `Recording`: decoded sound on its way to the card, and the recording format.

Each class is proved against a specification function: a method's contract states the whole
new state as that function of the old one. The lemmas then prove what the program promises
about the function, over every run where that is the claim. Threads are modelled as
interleavings of steps, each of which is what one thread does under one lock. Clock readings,
card answers, loss decisions and jitter draws are inputs.

Main results:

- Assembly succeeds exactly on complete frames, and gives the bytes of the packets in sequence
  order (`Assembly.AssembleIff`). For an access unit sent as single NAL unit, STAP-A and FU-A
  packets under any RTP headers, in any order of arrival, with duplicates and newer traffic in
  between, it is settled exactly when `receive` brings it out whole and what comes out otherwise
  (`RoundTrips.RoundTripIff`, `FirstRunComesOut`), and which units every order will do for
  (`RoundTrips.AnyOrderIff`).
- Every run of the jitter buffer resolves frames in strictly increasing unwrapped order, never
  re-opens one, and lets nothing but an IDR through after a loss it noticed
  (`VideoJitterRuns.RunOrdered`, `LateIsRefused`, `FirstUnitIsIdr`).
- The rotating, vectorised downscale equals the two-pass filter on every image
  (`Nv12.ScaleSharpLuma`). The bounded look-ahead equals a full sort (`Replay.Feeder.Run`).
- What the video buffer asks for on a run is exactly what was skipped and then what an old frame
  in front is missing (`JitterNumbers.RunAsksExactly`).
- Every tick of the bandwidth control does what the loss so far calls for (`Remb.RunFollowsRule`).
  After any tick, a part of a run without lossy ticks brings the rate back to its cap by an exact
  time (`Remb.RecoversInTime`).
- Every audio sequence number is released or counted lost (`AudioJitter.RunAccounted`), no packet
  that could be used is thrown away (`AudioJitter.WelcomeIsKept`), and every PCM frame is written,
  trimmed, dropped, repeated or still queued (`PcmRing.FeedConserves`).
- No interleaving loses a wake-up (`HandOff.NoLostWakeUp`) or the thumbnail cache's books
  (`Thumbs.RunKeeps`).

Where the code and its comments or documentation disagree, or a natural claim about it fails, the
model follows the code:

- `src/media/video_jitter.hpp:22-26` says that a wholly missing frame is noticed. The code cannot
  notice one: a frame none of whose packets arrived leaves its mark only in the sequence
  tracking, which no decision reads (`VideoJitterRuns.TrackingIsIgnored`, `MissingFrameUnnoticed`).
  The gate closes exactly when a frame that was opened times out (`VideoJitterRuns.RunGated`).
- `docs/VIDEO-PACING.md:90` gives the audio reorder wait as 40 ms, and lines 86 to 89 give the trim
  and servo limits as 160 ms and 25 to 55 ms. The code has 5 ms, 120 ms and 45 to 75 ms.
- The comment at `src/net/engine.cpp:1896-1898` says that the keyframe interval is back at 300 ms
  once an IDR arrives. It is back only once a request has been sent while not waiting
  (`KeyframeThrottle.NextIntervalIs`, `OldIntervalCanLinger`).
- The gate's IDR test and those downstream differ on some units that are not free of emulated
  start codes. The exact condition is `IdrScan.AgreeIff`; a unit that passes the gate is seen as
  an IDR downstream on any bytes (`IdrScan.KeyframeIsSeen`).
- The order of arrival can decide what comes out of a frame. With nothing older pending it is
  enough that a later packet could start a unit: the exact conditions are `RoundTrips.RoundTripIff`
  for an order and `RoundTrips.AnyOrderIff` for all. While an older frame stays incomplete the
  packets gather first, and it takes two marked ones: the exact condition is
  `Assembly.OrderFreeIff`, and `MarkerOrder.ArrivalOrderIff` through `receive`.
- A rate cap below 3000 kbps is not a cap (`Remb.CapHoldsIff`).

## Model

| member | source | states |
|---|---|---|
| `Rtp.ParseBuild` | src/media/video_jitter.cpp:32-63 | Whatever CSRC list, extension and padding a sender adds, parsing gives back exactly the sequence number, timestamp, marker and payload. |
| `Rtp.ParsedWasBuilt` | src/media/video_jitter.cpp:39-62 | On any bytes what is parsed is exactly a packet some sender built, unless its padding is bad; then the payload is the rest or nothing, as the count is zero or too large. |
| `Rtp.BuildHeaderLength` | src/media/video_jitter.cpp:39-52 | The header length computed from a well-formed packet is that of its fixed part, CSRC list and extension. |
| `H264.Depacketize` | src/media/video_jitter.cpp:77-101 | Appending in place adds to the access unit exactly what the payload specifies: NAL unit, STAP-A units or FU-A fragment. |
| `H264.AppendStap` | src/media/video_jitter.cpp:83-92 | The STAP-A loop appends every aggregated unit up to the first empty or truncated one. |
| `H264.StapRoundTrip` | src/media/video_jitter.cpp:83-92 | Any list of NAL units aggregated in a STAP-A comes back as a start code plus each unit, in order. |
| `H264.StapIs` | src/media/video_jitter.cpp:83-92 | On any payload what comes out is the aggregated units up to the first size that is zero or reaches past the end. |
| `H264.FuRoundTrip` | src/media/video_jitter.cpp:93-100 | A NAL unit cut into FU-A fragments in any way comes back whole, its header rebuilt from indicator and FU header. |
| `H264.UnitRoundTrip` | src/media/video_jitter.cpp:77-101 | Each of the three packetizations is undone by depacketizing its payloads in order. |
| `H264.PlanRoundTrip` | src/media/video_jitter.cpp:77-101 | Any mixture of single, STAP-A and FU-A payloads of any list of NAL units comes back as that list in Annex B form. |
| `H264.UnitHeads` | src/media/video_jitter.cpp:67-71 | Within one packetization the first payload, and no other, may start an access unit. |
| `H264.HeadsStartUnits` | src/media/video_jitter.cpp:67-71 | A payload that may start an access unit starts a NAL unit or is an empty STAP-A; one that may not adds no start code, and nothing unless it is the rest of an FU-A. |
| `H264.PlanHeads` | src/media/video_jitter.cpp:67-71 | A plan's first payload is a head, and the only one exactly when the plan is a single packetization. |
| `IdrScan.FindKeyframe` | src/media/video_jitter.cpp:142-154 | The loop finds an IDR exactly when some four-byte start code is followed by type 5. |
| `IdrScan.AuInfo` | src/media/video_pipeline.cpp:30-44 | The pipeline's loop gives the slice count and the IDR flag of the skipping scan. |
| `IdrScan.AuHasIdr` | src/app/replay.cpp:191-201 | The feeder's loop, which returns early, gives the same flag. |
| `IdrScan.KeyframeIsSeen` | src/media/video_pipeline.cpp:30-44 | On any bytes at all, what passes the gate's four-byte test is seen as an IDR by the skipping three-byte scans downstream. |
| `IdrScan.KeyframeAnnexB` | src/media/video_jitter.cpp:142-154 | On any non-empty NAL units the jitter buffer's test is true exactly when one has type 5 or itself holds a four-byte start code and IDR header. |
| `IdrScan.ScanBody` | src/app/replay.cpp:191-201 | A scan that runs through a unit's body gives what a scan of the body alone gives and then what the rest gives, even where a cut-off start code makes it skip a byte of the next one. |
| `IdrScan.ScanAnnexB` | src/media/video_pipeline.cpp:30-44 | On any non-empty units the scan counts each unit's slice and what its body looks like, and sees an IDR exactly when a unit has type 5 or some body is scanned as holding one. |
| `IdrScan.IdrTestsAgree` | src/app/replay.cpp:191-201 | So all three tests agree on every access unit built from emulation-free NAL units. |
| `IdrScan.AgreeIff` | src/media/video_jitter.cpp:142-154 | On non-empty units the tests agree exactly when some unit has type 5, or some unit holds a four-byte start code and IDR header, or no body is scanned as holding an IDR. |
| `IdrScan.EmulationBreaksAgreement` | src/media/video_pipeline.cpp:30-44 | The other case exists: with an emulated start code inside a slice the three-byte scan sees an IDR that the four-byte one does not. |
| `Nack.RequestGap` | src/media/video_jitter.cpp:262-278 | The loops of receive send exactly the specified messages for the gap. |
| `Nack.OneRequest` | src/media/video_jitter.cpp:269-275 | One message takes the next seventeen numbers of the gap, or what is left of it. |
| `Nack.GapMessagesExact` | src/media/video_jitter.cpp:262-278 | The PID/BLP messages decode to exactly the missing numbers, in order, each once, in ceil(gap/17) messages, across the 16-bit wrap. |
| `Nack.RenackMissing` | src/media/video_jitter.cpp:103-140 | The repeat request as the program computes it, loops and all, is the specified one. |
| `Nack.ListMissing` | src/media/video_jitter.cpp:118-126 | The scan lists exactly the numbers of the span not held, up to its 65-number limit. |
| `Nack.PackExact` | src/media/video_jitter.cpp:127-139 | Packing an ascending list into PID/BLP messages names exactly that list, in order. |
| `Nack.RepeatExact` | src/media/video_jitter.cpp:103-140 | The repeat NACK names no held packet, nothing outside the frame, nothing twice, and leaves out a missing number only when it names 65 lower ones. |
| `Nack.LowestHighest` | src/media/video_jitter.cpp:109-117 | The running wrapped minimum and maximum are the true ones when the frame spans less than half the number space. |
| `Nack.SpanIsTrue` | src/media/video_jitter.cpp:109-120 | The span asked for is from the lowest held number to the marker, or to two past the highest when there is no marker. |
| `ReceiverReport.TrackFaithful` | src/media/video_jitter.cpp:255-278 | cycles plus max_seq follows the unwrapped highest number through every arrival, in order or late. |
| `ReceiverReport.ReportFaithful` | src/media/video_jitter.cpp:168-186 | Making a report keeps the counters faithful, and expected is the true count modulo 2^32. |
| `ReceiverReport.ReportIsTrue` | src/media/video_jitter.cpp:168-186 | Every figure of a report is the true one: an interval that expected something received something, lost strictly less than expected, and its fraction does not wrap. |
| `ReceiverReport.FractionTrue` | src/media/video_jitter.cpp:180-182 | For fewer than 2^24 packets the shift does not overflow and the quotient fits a byte. |
| `ReceiverReport.RunFaithful` | src/media/video_jitter.cpp:168-186 | Over any run of arrivals and reports the counters stay faithful and the highest number never decreases. |
| `JitterNumbers.CountersFollow` | src/media/video_jitter.cpp:255-278 | On every run of the buffer, whatever is stored, emitted or reset, its counters are those of the packets that came. |
| `JitterNumbers.RunReportIsTrue` | src/media/video_jitter.cpp:168-186 | Every figure of a report made on a run of the buffer is the true one. |
| `JitterNumbers.RunNacksExact` | src/media/video_jitter.cpp:262-278 | On every run of the buffer, the first NACKs a packet brings out name exactly the numbers it skipped, in order, each once, if there are at most 255. |
| `JitterNumbers.ReceivedAsks` | src/media/video_jitter.cpp:347-356 | Beyond the first request a packet makes the buffer ask again, for each frame that times out and for the one left in front, if due, for just what that frame is missing, and for nothing more. |
| `JitterNumbers.RunAsksExactly` | src/media/video_jitter.cpp:262-356 | So on every run the NACKs a packet brings out are the numbers it skipped and then those, in terms of the packets held and of the numbers that came. |
| `JitterNumbers.ReceivedStats` | src/media/video_jitter.cpp:250-366 | The statistics move by exactly one for each packet, unit emitted or discarded, frame timed out, message of a first request and frame asked for again. |
| `Assembly.TryAssemble` | src/media/video_jitter.cpp:206-242 | The program's checks, sort and append loop succeed exactly when, and give exactly what, the specification says. |
| `Assembly.FindMarker` | src/media/video_jitter.cpp:208-213 | The scan finds the first marked packet in arrival order. |
| `Assembly.AppendAll` | src/media/video_jitter.cpp:235-241 | The append loop yields all payloads' bytes exactly when they fit the size cap. |
| `Assembly.AssembleIff` | src/media/video_jitter.cpp:206-242 | Assembly succeeds exactly when the n packets held are the n consecutive numbers ending at the marker, the lowest is a head, and the bytes fit; then the unit is those bytes in sequence order. |
| `Assembly.CompleteHoldsOnlyRun` | src/media/video_jitter.cpp:223-234 | An assembled frame holds nothing outside that run. |
| `Assembly.DescendingUnique` | src/media/video_jitter.cpp:217-221 | There is only one order a correct sort can leave the packets in. |
| `Assembly.SameSetSameUnit` | src/media/video_jitter.cpp:206-242 | With a single marker, success and bytes depend only on the set of packets held, not on arrival order. |
| `Assembly.OrderFreeIff` | src/media/video_jitter.cpp:206-242 | For fewer than 65536 packets every order of arrival gives the same result exactly when at most one packet is marked or no marked packet completes the set. |
| `Assembly.OrderFreeIffAlike` | src/media/video_jitter.cpp:206-242 | For any number of packets, exactly when it does not matter which marked packet the frame is taken to end at. |
| `Assembly.OneEnd` | src/media/video_jitter.cpp:206-242 | Of fewer than 65536 packets at most one can complete the set. |
| `MarkerOrder.GathersInOrder` | src/media/video_jitter.cpp:284-296 | While an older frame is incomplete, any packets of a newer one gather in the order in which receive got them. |
| `MarkerOrder.ComesOutIs` | src/media/video_jitter.cpp:244-370 | On such a run of receive, completing the older frame brings it out, and then the newer one if and as its packets assemble in their order of arrival. |
| `MarkerOrder.ArrivalOrderIff` | src/media/video_jitter.cpp:244-370 | Through receive, for a frame whose packets all arrive while an older frame stays incomplete: every order of arrival brings out the same exactly when at most one packet is marked or no marked packet completes the frame. |
| `MarkerOrder.TwoMarkersDependOnOrder` | src/media/video_jitter.cpp:208-213 | Behind such an older frame, two marked packets given to receive in one order leave the frame stuck; in the other order it comes out. |
| `VideoJitter.Holds` | src/media/video_jitter.cpp:284-285 | The duplicate test is true exactly when the number is held. |
| `VideoJitter.VideoJitterBuffer.Reset` | src/media/video_jitter.cpp:158-166 | Reset leaves the state of a new buffer. |
| `VideoJitter.VideoJitterBuffer.ReportStats` | src/media/video_jitter.cpp:168-186 | A report changes nothing but the two interval marks, and is refused before the first packet. |
| `VideoJitter.VideoJitterBuffer.TrackSequence` | src/media/video_jitter.cpp:255-278 | Tracking changes only the counters and statistics, and sends the messages for a forward gap of 1 to 255. |
| `VideoJitter.VideoJitterBuffer.FindOrCreate` | src/media/video_jitter.cpp:188-202 | An existing frame is found; a new one is put before the first frame it is not newer than; stale or over the cap is refused unchanged. |
| `VideoJitter.VideoJitterBuffer.Release` | src/media/video_jitter.cpp:298-338 | An assembled front frame is removed and becomes the last resolved; it is discarded while blind and without an IDR, and otherwise emitted with the gate open. |
| `VideoJitter.VideoJitterBuffer.AskAgain` | src/media/video_jitter.cpp:347-356 | The repeat NACK goes out once per frame, past 70 ms. |
| `VideoJitter.VideoJitterBuffer.GiveUp` | src/media/video_jitter.cpp:360-366 | A timed-out front frame is removed, becomes the last resolved, and shuts the gate. |
| `VideoJitter.VideoJitterBuffer.DrainFrames` | src/media/video_jitter.cpp:292-369 | The drain loop reaches the state, outcomes and messages of the recursive specification; a keyframe is wanted exactly when something was discarded or timed out. |
| `VideoJitter.VideoJitterBuffer.Receive` | src/media/video_jitter.cpp:244-370 | One packet, on every path including malformed, empty, stale and duplicate ones: the new state, the units emitted, the messages sent, and whether a keyframe is wanted. |
| `VideoJitterRuns.DrainTakesFront` | src/media/video_jitter.cpp:292-369 | The drain takes frames off the front only, each because it assembled or was overdue, and stops at one that is neither complete nor older than 120 ms. |
| `VideoJitterRuns.KeptSettles` | src/media/video_jitter.cpp:292-369 | After any packet that is kept the front frame is not assemblable, is at most 120 ms old, and has been asked for again if it is past 70. |
| `VideoJitterRuns.StepKeepsFrames` | src/media/video_jitter.cpp:188-202 | On any traffic at most 32 frames, with distinct timestamps, none holding a number twice. |
| `VideoJitterRuns.StoringOrders` | src/media/video_jitter.cpp:188-202 | Storing a packet keeps the frames ascending in unwrapped time, above everything resolved. |
| `VideoJitterRuns.DrainingOrders` | src/media/video_jitter.cpp:294-369 | Draining keeps the order and appends what it resolved. |
| `VideoJitterRuns.StepKeepsOrder` | src/media/video_jitter.cpp:244-370 | Every event keeps the order, and the log of resolved frames grows by exactly those the outcomes name. |
| `VideoJitterRuns.RunOrdered` | src/media/video_jitter.cpp:188-202 | Over any run within a 2^31 window pending frames strictly ascend and resolved timestamps strictly increase, unwrapped. |
| `VideoJitterRuns.LateIsRefused` | src/media/video_jitter.cpp:190-193 | A packet no newer than anything already resolved, however long ago, never re-opens a frame. |
| `VideoJitterRuns.CapDropsQuietly` | src/media/video_jitter.cpp:194 | A packet that would open a frame beyond the cap is dropped, and the gate stays as it is. |
| `VideoJitterRuns.RunGated` | src/media/video_jitter.cpp:301-366 | On every run the gate is shut exactly when nothing was emitted since the start, the last reset or the last timeout; while shut only an IDR gets out and only non-IDR units are discarded. |
| `VideoJitterRuns.FirstUnitIsIdr` | src/media/video_jitter.cpp:301-366 | The first unit emitted after construction, after a reset and after every timed-out frame contains an IDR, and the scans downstream see it. |
| `VideoJitterRuns.TrackingIsIgnored` | src/media/video_jitter.cpp:255-370 | What is emitted, discarded or timed out never depends on the sequence tracking, so a frame that is missing whole is not noticed. |
| `VideoJitterRuns.MissingFrameUnnoticed` | src/media/video_jitter.cpp:292-338 | With the gate open and nothing pending, a newer unit that comes in one packet is emitted at once, IDR or not, whatever is missing before it. |
| `PartOfUnit.PartialIff` | src/media/video_jitter.cpp:223-234 | Some packets of a frame, whatever its payloads, assemble exactly when they are a run up to the marker that starts with a head and fits the cap; the bytes are those of the run. |
| `Delivery.IncompleteWaits` | src/media/video_jitter.cpp:223-234 | With the first packet held, or no other head in the unit, nothing assembles while one is missing. |
| `Delivery.CompleteAssembles` | src/media/video_jitter.cpp:206-242 | All the packets of a unit, in any arrival order, assemble to exactly its bytes. |
| `Delivery.DeliverEarly` | src/media/video_jitter.cpp:244-370 | A packet of the unit, even a duplicate, after which what is there is still not assembled brings nothing out and loses nothing held. |
| `Delivery.DeliverAside` | src/media/video_jitter.cpp:244-370 | Nor does an unreadable packet, one without payload, or one of a newer frame. |
| `Delivery.DeliverLast` | src/media/video_jitter.cpp:244-370 | The packet with which what is there of the unit is assembled releases those bytes at once, first of all that is pending. |
| `RoundTrips.NothingComesOutIff` | src/media/video_jitter.cpp:223-234 | For every order of arrival, with duplicates, newer frames, padding and unreadable packets in between: nothing comes out exactly as long as the unit's packets there are not a run up to the marker that starts with a head. |
| `RoundTrips.FirstRunComesOut` | src/media/video_jitter.cpp:292-338 | As soon as they are such a run, the bytes of that run come out, before anything else. |
| `RoundTrips.RoundTripIff` | src/media/video_jitter.cpp:244-338 | For every order of arrival: nothing comes out before the unit is complete exactly when no earlier set of its packets is such a run; and then the completing packet releases exactly a start code plus each NAL unit. |
| `RoundTrips.RoundTrip` | src/media/video_jitter.cpp:244-338 | So if the first packet comes first, or nothing else in the unit could start one, any order of the rest does: nothing comes out early, and the completing packet releases the unit, emitted unless the gate is shut and it has no IDR. |
| `RoundTrips.AnyOrderIff` | src/media/video_jitter.cpp:223-234 | With nothing older pending, in every order of arrival nothing comes out before the unit is complete, and then all of it, exactly when it is a single packetization: one NAL unit in one packet or fragmented, or one aggregation. |
| `RoundTrips.LastPacketFirst` | src/media/video_jitter.cpp:223-234 | If the last packet could start a unit and comes first, it comes out alone, at once. |
| `Delivery.GateIsAboutIdr` | src/media/video_jitter.cpp:301-334 | A shut gate lets a unit of emulation-free NAL units through exactly when one of them is an IDR slice. |
| `Nv12.HLaneIs` | src/video/nv12.c:116-142 | No lane of the horizontal vector step overflows 16 bits: each equals the scalar filter, and the loads stay inside the row. |
| `Nv12.VLaneIs` | src/video/nv12.c:183-192 | No lane of the vertical vector step overflows on rows the horizontal pass can produce, and its saturation is the scalar clamp. |
| `Nv12.NoOverflow` | src/video/nv12.c:102-106 | Every intermediate of the 4-tap stays in 16 bits for inputs from -32 to 287. |
| `Nv12.FlatUnchanged` | src/video/nv12.c:61-63 | Where the 4 by 4 neighbourhood, clamped at the edges, is one value, the output is that value. |
| `Nv12.CubicAcrossIsExact` | src/video/nv12.c:61-63 | Where the neighbourhood is a cubic across, the output is that cubic between the pixels, as far as a byte holds it; only these four taps do so. |
| `Nv12.CubicDownIsExact` | src/video/nv12.c:61-63 | The same down the picture. |
| `Nv12.RoundsToNearest` | src/video/nv12.c:61-63 | On any picture each pass rounds to the nearest, halves up, and only the second is cut to a byte. |
| `Nv12.SharpHRow` | src/video/nv12.c:107-148 | The horizontal pass, first column, vector loop, scalar tail and last column, is the clamped filter of the row, and writes nothing else. |
| `Nv12.SharpHVector` | src/video/nv12.c:116-142 | The sixteen-lane loop writes the filtered pixels as far as it goes and nothing else. |
| `Nv12.SharpVVector` | src/video/nv12.c:183-192 | The eight-lane loop writes the specified pixels as far as it goes and nothing else. |
| `Nv12.SharpVRow` | src/video/nv12.c:178-196 | One output row is the vertical filter of the four slots. |
| `Nv12.FillSlot` | src/video/nv12.c:168-176 | A slot gets the filtered row nearest the one asked for; the other three keep theirs. |
| `Nv12.Prime` | src/video/nv12.c:168-176 | Before row 0 the four slots hold rows -1, 0, 1 and 2, clamped to the picture. |
| `Nv12.Refill` | src/video/nv12.c:198-211 | The rotation and two fresh rows re-establish, for row y + 1, slots holding rows clamp(2y-1), 2y, 2y+1 and clamp(2y+2). |
| `Nv12.ScaleRow` | src/video/nv12.c:177-211 | One turn of the loop writes its row and keeps the earlier ones and all padding. |
| `Nv12.ScaleSharp` | src/video/nv12.c:150-213 | For every image up to 1024 columns the output is the two-pass clamped reference (tools/nv12check.c:57-83), row padding untouched. |
| `Nv12.ScaleSharpLuma` | src/video/nv12.c:150-167 | A wider destination gets the box filter instead. |
| `Nv12.BoxLaneIs` | src/video/nv12.c:80-94 | The widening adds and rounding narrow of a lane give the rounded mean of the 2x2 block. |
| `Nv12.BoxIsNearestMean` | src/video/nv12.c:65-100 | Each output pixel is the whole number nearest the mean of its 2x2 block, halves up. |
| `Nv12.BoxOneRow` | src/video/nv12.c:65-100 | Vector loop and tail together write exactly the row of means. |
| `Nv12.ScaleBox` | src/video/nv12.c:65-100 | The box filter on every image, padding untouched. |
| `AudioJitter.AudioJitterBuffer.Receive` | src/media/audio_jitter.cpp:21-33 | A push starts the count, refuses late and duplicate numbers, or appends. |
| `AudioJitter.AudioJitterBuffer.Release` | src/media/audio_jitter.cpp:35-68 | A pop releases the number due, waits, or skips to the oldest and counts what it skipped, exactly as specified. |
| `AudioJitter.AudioJitterBuffer.FindSeq` | src/media/audio_jitter.cpp:38-42 | The scan finds the entry with a number, or -1. |
| `AudioJitter.AudioJitterBuffer.Reset` | src/media/audio_jitter.hpp:36-41 | Reset leaves the state of a new buffer. |
| `AudioJitter.OldestIs` | src/media/audio_jitter.cpp:50-55 | The serial scan finds the true minimum of the unwrapped numbers. |
| `AudioJitter.PushAccounted` | src/media/audio_jitter.cpp:21-33 | A push keeps the pending numbers distinct and in the forward half-window. |
| `AudioJitter.PopAccounted` | src/media/audio_jitter.cpp:35-68 | Whatever a pop releases is the least number held, above everything released before, and what lies between is counted lost. |
| `AudioJitter.SkipAlwaysReleases` | src/media/audio_jitter.cpp:58-62 | The branch marked as one that should not happen is unreachable. |
| `AudioJitter.PushIs` | src/media/audio_jitter.cpp:21-33 | A push keeps every packet but one behind the number due or pending already; the first packet ever says where to begin. |
| `AudioJitter.PopIsExactly` | src/media/audio_jitter.cpp:35-68 | A pop releases the number due if it is held, waits exactly while fewer than 32 are pending and all are younger than 5 ms, and otherwise releases the least number and counts what it skipped. |
| `AudioJitter.NothingDue` | src/media/audio_jitter.cpp:50-57 | A pop that releases nothing leaves the state alone, with fewer than 32 packets pending, all younger than 5 ms. |
| `AudioJitter.DrainedIs` | src/media/audio_player.cpp:790-814 | Popping until it says no keeps the accounts and ends in that situation. |
| `AudioJitter.RunAccounted` | src/media/audio_jitter.cpp:21-68 | On every run: released numbers strictly increase, pending ones lie ahead in the half-window, and (next - first) = released + lost. |
| `AudioJitter.WelcomeIsKept` | src/media/audio_jitter.cpp:21-68 | On every run in the half-window a packet neither behind the number due nor pending when it arrives is from then on pending or released, with the data it came with. |
| `AudioJitter.KeptWasWelcome` | src/media/audio_jitter.cpp:21-68 | And whatever is pending or released came in such an arrival. |
| `Recording.PutGetU32` | src/media/au_recorder.cpp:14-30 | Reading back a 32-bit number gives what was written. |
| `Recording.PutGetU64` | src/media/au_recorder.cpp:20-35 | Reading back a 64-bit number gives what was written. |
| `Recording.LayoutIs` | src/media/au_recorder.cpp:145-188 | On any bytes: a file opens exactly when it starts with XCAU and a little-endian one, and reading at any place gives a record exactly when one of at most 8 MiB stands there field by field, little-endian. |
| `Recording.RefusedIs` | src/media/au_recorder.cpp:172-188 | A refused read leaves the file at its end, where every further read is refused, or just behind a header that asks for more than 8 MiB. |
| `Recording.EncodedStands` | src/media/au_recorder.cpp:14-35 | A record is written as kind, three zeros, number, time, length and data, each number little-endian. |
| `Recording.AuReader.Open` | src/media/au_recorder.cpp:145-162 | A file opens exactly when its first eight bytes are the magic and version. |
| `Recording.AuReader.ReadNext` | src/media/au_recorder.cpp:172-188 | The next record is read, or refused when cut short or over 8 MiB, with the place the file is left at. |
| `Recording.AuReader.ReadAll` | src/media/au_recorder.cpp:172-188 | Reading until refused gives the specified list. |
| `Recording.TruncatedRoundTrip` | src/media/au_recorder.cpp:110-118 | A recording cut anywhere past its header reads back as exactly the records wholly before the cut, up to the first one over the limit. |
| `Recording.WholeIs` | src/media/au_recorder.cpp:172-188 | That list is a prefix that stops only at the end, at the cut, or at a record over the limit. |
| `Recording.RoundTrip` | src/media/au_recorder.cpp:110-118 | Records of at most 8 MiB come back unchanged. |
| `Recording.AuRecorder.Push` | src/media/au_recorder.cpp:83-98 | A record is queued at the end, or counted as dropped when the queue is full, or ignored when closed. |
| `Recording.AuRecorder.Enqueue` | src/media/au_recorder.cpp:88-96 | The locked half of a push, which may come after `close()`: queued at the end, or counted as dropped. |
| `Recording.AuRecorder.TakeBatch` | src/media/au_recorder.cpp:105-109 | The writer swaps its empty batch for the queue. |
| `Recording.AuRecorder.WriteOne` | src/media/au_recorder.cpp:110-121 | One record's header and bytes are appended to the file. |
| `Recording.AuRecorder.Reopen` | src/media/au_recorder.cpp:41-63 | Opening again starts a new file with fresh counts, but what was still queued stays queued for it. |
| `Recording.AuRecorder.TryLeave` | src/media/au_recorder.cpp:123-127 | Whatever was pushed while it wrote, the writer leaves exactly when closed with nothing queued; then the file is the header, what was carried over and everything accepted since, in order, and only the latter exactly when nothing was carried over. |
| `Recording.AuRecorder.Close` | src/media/au_recorder.cpp:65-77 | With no push in between, closing ends with the file holding exactly that. |
| `Thumbs.Cache.Get` | src/app/thumbs.cpp:311-332 | A hit is touched; a new miss goes to the front of the queue, and the oldest of 49 jobs stops pending. |
| `Thumbs.Cache.TakeDone` | src/app/thumbs.cpp:336-344 | The finished pictures are swapped out and stop pending. |
| `Thumbs.Cache.StoreOne` | src/app/thumbs.cpp:345-349 | One finished picture enters the cache and the byte count. |
| `Thumbs.Cache.FinishPump` | src/app/thumbs.cpp:350-352 | The pump evicts exactly when over budget. |
| `Thumbs.Cache.Candidates` | src/app/thumbs.cpp:360-364 | Walking the map in any order collects exactly the pictures that may go. |
| `Thumbs.Cache.DropInOrder` | src/app/thumbs.cpp:366-374 | The loop drops in order until nine tenths of the budget is reached. |
| `Thumbs.Cache.Evict` | src/app/thumbs.cpp:355-377 | Collecting, sorting and dropping reach the one specified result. |
| `Thumbs.Cache.Pump` | src/app/thumbs.cpp:334-353 | Uninterrupted, a pump keeps the books and ends within budget or with nothing that may go. |
| `Thumbs.Cache.WorkerTake` | src/app/thumbs.cpp:385-395 | The worker takes the newest job. |
| `Thumbs.Cache.WorkerDone` | src/app/thumbs.cpp:424-441 | What the worker fetched, or a miss, joins the finished ones. |
| `Thumbs.SortedUnique` | src/app/thumbs.cpp:360-365 | There is only one eviction order, whatever order the map is walked in. |
| `Thumbs.SumRemove` | src/app/thumbs.cpp:370-372 | Removing a picture lowers the summed size by exactly its own. |
| `Thumbs.EvictFromIs` | src/app/thumbs.cpp:366-374 | The loop removes a prefix of its order, no longer than needed, and keeps the byte count true. |
| `Thumbs.EvictionIs` | src/app/thumbs.cpp:355-377 | An eviction removes a least-recently-used prefix, never a picture used this tick or a miss, keeps everything else, and ends at nine tenths of the budget or with nothing left that may go. |
| `Thumbs.GetIs` | src/app/thumbs.cpp:311-332 | A hit changes only that picture's last use, to the current tick; a new miss becomes the first job and pushes out the oldest of 48; anything else changes nothing. |
| `Thumbs.JobReachesCache` | src/app/thumbs.cpp:334-441 | The newest job, once fetched and pumped, is in the cache with just what was fetched. |
| `Thumbs.StepKeeps` | src/app/thumbs.cpp:311-353 | Every step of either thread keeps: pending is the disjoint union of queued, in-flight and finished, disjoint from the cache; at most 48 jobs; bytes are the summed sizes. |
| `Thumbs.RunKeeps` | src/app/thumbs.cpp:311-441 | So does every interleaving of the two threads. |
| `Thumbs.RunUsesFollow` | src/app/thumbs.cpp:311-349 | In every interleaving the last use of a picture is the tick at which it was last looked up or stored, as the steps show it. |
| `Thumbs.UsedNowSurvives` | src/app/thumbs.cpp:355-377 | A picture looked up or stored in the current tick is not evicted, nor is a miss. |
| `Thumbs.EvictsOldestUse` | src/app/thumbs.cpp:360-374 | While fewer than 2^32 ticks have passed, eviction never takes a picture and leaves one that may go and whose last use, as the steps show it, is older. |
| `Replay.HoldBack` | src/app/replay.cpp:374-383 | The gap loop terminates at the least time, from the jittered one on, that no gap covers, for overlapping and unsorted gaps. |
| `Replay.Feeder.Read` | src/app/replay.cpp:332-390 | One record is dropped by the model for its specified reason, or pushed with its specified due time. |
| `Replay.Feeder.Run` | src/app/replay.cpp:316-397 | When file timestamps do not decrease, what is released is, however early it stops, a prefix of the full sort of all kept records. |
| `Replay.FullSortIs` | src/app/replay.cpp:203-219 | That sort is a permutation of the kept records, strictly ordered by due time and then file order. |
| `Replay.KeptLater` | src/app/replay.cpp:320-331 | Nothing still unread can be due before the newest time read less the jitter clamp. |
| `Replay.StillLater` | src/app/replay.cpp:320-331 | When the look-ahead stops, every unread record comes after the front of the heap. |
| `Replay.PopStep` | src/app/replay.cpp:391-397 | Releasing the front is then the next element of the full sort. |
| `Replay.StreamInFileOrder` | src/app/replay.cpp:384-386 | Jitter and gaps never reorder a stream. |
| `Replay.DueIsLeast` | src/app/replay.cpp:370-386 | The due time of one record is the least time outside every gap that is neither before the jittered time nor before that stream's previous release. |
| `Replay.KeptAreEntries` | src/app/replay.cpp:332-390 | What the feeder keeps is one entry for each record that gets through, made from the model's state at that record. |
| `Replay.ReleasedIff` | src/app/replay.cpp:316-397 | What is released is exactly those entries. |
| `Replay.EntriesDiffer` | src/app/replay.cpp:387-390 | Two records never share an entry. |
| `Replay.ReleasedIsLeast` | src/app/replay.cpp:370-386 | Everything released carries one record's bytes and is due at the least time outside every gap that is neither before its jittered time nor before its stream's previous release. |
| `Replay.ReleasedWhenDue` | src/app/replay.cpp:366-386 | In terms of the file and the settings alone: everything released is due at the least time outside every gap that is neither before its own time plus its draw, clamped to three times the setting, nor before its stream's previous release. |
| `Replay.PassesIff` | src/app/replay.cpp:345-365 | A record gets through exactly when it is media, not lost and, if video after a loss, has an IDR or follows one that came through. |
| `Replay.PreviousIs` | src/app/replay.cpp:384-386 | That previous release is the due time of the entry of the stream's last record before it that got through. |
| `Replay.AlwaysClear` | src/app/replay.cpp:384-386 | At every record of the file each stream's previous release is outside every gap. |
| `Replay.NextAfterLossIsIdr` | src/app/replay.cpp:345-365 | After a lost video unit the next one that gets through is released and carries an IDR. |
| `Replay.NextReleasedIsIdr` | src/app/replay.cpp:345-365 | Of two video units released one after the other the later carries an IDR whenever a video unit of the file between them was lost. |
| `Replay.UnitsAccounted` | src/app/replay.cpp:345-369 | Each unit of the file is released, counted as lost or, if video, counted as discarded while waiting for an IDR; and what is counted as lost is what was lost. |
| `HandOff.VideoQueue.Push` | src/net/engine.cpp:385-398 | On a full queue the whole backlog goes; the unit in hand is queued either way; it is the emitting step of the interleaving. |
| `HandOff.VideoQueue.TakeAccessUnit` | src/net/engine.cpp:306-315 | The oldest unit is taken, or none; it is the taking step, and gives the unit whose number the interleaving has at its head. |
| `HandOff.VideoQueue.Clear` | src/net/engine.cpp:1126-1128 | A resumed session empties the queue; it is the resetting step. |
| `HandOff.NoLostWakeUp` | src/media/video_pipeline.cpp:105-119 | In every interleaving a decode thread blocked while a unit is queued is still owed a notify by the network thread. |
| `HandOff.DebtIsPaid` | src/net/engine.cpp:443-448 | Left to itself the network thread's next steps wake it. |
| `HandOff.HeadIsSettled` | src/media/video_pipeline.cpp:105-135 | From any point of any interleaving the unit at the head leaves the queue once eight named steps of the two threads have come in order, whatever comes between them: no fair schedule leaves a unit behind. |
| `HandOff.SleepsIff` | src/media/video_pipeline.cpp:105-119 | In every interleaving a decode thread that found the queue empty blocks exactly if nobody was notified since it read the generation. |
| `HandOff.LateReadLosesWakeUp` | src/media/video_pipeline.cpp:106-113 | Reading the generation after asking, instead of before, would lose a wake-up. |
| `HandOff.StepKeepsQueue` | src/net/engine.cpp:385-398 | Every step keeps the queue at sixteen or fewer and the log complete. |
| `HandOff.NothingElseIsLost` | src/net/engine.cpp:385-398 | In every interleaving everything emitted is queued, was taken in order, or was cleared with the whole backlog. |
| `HandOff.GapsAreClears` | src/net/engine.cpp:385-398 | Two units taken one after the other are neighbours as emitted, or exactly what lies between them was cleared. |
| `Remb.RembController.Update` | src/net/engine.cpp:1603-1650 | One tick reaches the specified rate, marks and action. |
| `Remb.RembController.JitterReset` | src/net/engine.cpp:1122-1123 | A reset of the jitter buffer restarts the deltas and the lossy-second count and leaves the rate. |
| `Remb.RunIsSpaced` | src/net/engine.cpp:1607-1650 | On every run with a cap of at least 3000 the rate stays between 3000 and the cap, and every action obeys the spacing rules. |
| `Remb.SpacingHolds` | src/net/engine.cpp:1624-1650 | Any two back-offs are at least 3000 ms apart, and a ramp is at least 5000 ms after any loss, back-off or ramp before it. |
| `Remb.RunFollowsRule` | src/net/engine.cpp:1607-1650 | On every run a tick with five drops or fifteen NACKs since the last, or the second lossy one in a row, with no back-off in the 3000 ms before, leaves 85 percent of the rate but at least 3000; no other lowers it; and it grows by 1000 up to the cap exactly 5000 ms after anything happened to it. |
| `Remb.BackOffsReachFloor` | src/net/engine.cpp:1624-1636 | With no ramp between them, ceil((cap - 3000) / 450) back-offs bring any cap down to 3000. |
| `Remb.DeltasAreTrue` | src/net/engine.cpp:1619-1622 | The drop and NACK deltas never underflow, across resets of the jitter buffer. |
| `Remb.CapHoldsIff` | src/net/engine.cpp:1628-1630 | The cap bounds the rate on every run exactly when it is at least the floor. |
| `Remb.RembController.Advertise` | src/net/engine.cpp:1685-1688 | The rate put into the message is the specified one. |
| `Remb.BlindRateFits` | src/net/engine.cpp:1685-1688 | On every run with a cap of at least 3000 the rate sent is the controlled one unless that is below 4000 while blind; it is at least 3000, while blind at least 4000, and above the cap only while blind, under a cap below 4000, and then exactly 4000. |
| `Remb.TickSettles` | src/net/engine.cpp:1624-1650 | On every run every tick, lossy or not, leaves the rate at the cap or less than 5000 ms into its clean stretch. |
| `Remb.CalmProgress` | src/net/engine.cpp:1640-1646 | Over any part of a run whose ticks are not lossy, the time by which the cap is reached never moves back. |
| `Remb.RecoversInTime` | src/net/engine.cpp:1640-1646 | On every run, from any tick on, if no later tick is lossy and ticks are at most G ms apart, the rate is at the cap at every time from ceil((cap - r)/1000) * (5000 + G) ms after that tick. |
| `KeyframeThrottle.Throttle.RequestKeyframe` | src/net/engine.cpp:1890-1917 | A request goes out exactly when the handshake is done and the interval has passed, and the interval then doubles up to 2000 while waiting, or returns to 300. |
| `KeyframeThrottle.Throttle.Handshake` | src/net/engine.cpp:735-744 | The handshake's own request is not throttled, and counts as the last one. |
| `KeyframeThrottle.Throttle.Rearm` | src/net/engine.cpp:1124 | A reconnect forgets the back-off and nothing else. |
| `KeyframeThrottle.RequestsApart` | src/net/engine.cpp:1890-1917 | On every run, the handshake's own requests included, any two to one peer are at least 300 ms apart, and any two at all unless the later is a new peer's handshake. |
| `KeyframeThrottle.HandshakeIsNotThrottled` | src/net/engine.cpp:735-744 | That exception is real: a new peer's handshake can send one any time after the last request to the old peer. |
| `KeyframeThrottle.StretchKeeps` | src/net/engine.cpp:1890-1917 | On every run, the first n requests of a blind stretch take at least 0, 600, 1800, 3800, ... ms, whatever interval it starts with, or 0, 300, 900, 2100, ... if the first is the handshake's. |
| `KeyframeThrottle.StretchBound` | src/net/engine.cpp:735-744 | On every run, an uninterrupted blind stretch of T ms sends at most 3 + T / 2000 requests, the handshake's own included; and at most two up to 1800 ms, or one up to 600, if the handshake was before it. |
| `KeyframeThrottle.BoundIsMet` | src/net/engine.cpp:1909-1917 | The tighter bound behind it is reached, for every n, by a session that asks as early as it can. |
| `KeyframeThrottle.NextIntervalIs` | src/net/engine.cpp:1909-1917 | The next blind request must wait 300 ms exactly when no blind request was sent since the last one sent while not waiting; otherwise 600, 1200 or 2000 by their number. |
| `KeyframeThrottle.SentIff` | src/net/engine.cpp:1890-1917 | On every run what is asked for goes out exactly when there is a peer and 300 ms have passed since the last request, or 600, 1200 or 2000 while waiting by the number of blind requests sent; a handshake sends one exactly when there is no peer. |
| `KeyframeThrottle.OldIntervalCanLinger` | src/net/engine.cpp:1909-1917 | A new stretch can start at the old stretch's interval. |
| `PcmRing.AudioPlayer.RingConsume` | src/media/audio_player.cpp:594-605 | Moving the head, clearing and compacting leave exactly the sound after the frames consumed. |
| `PcmRing.AudioPlayer.Append` | src/media/audio_player.cpp:487-527 | What is decoded is queued at the end and counted. |
| `PcmRing.AudioPlayer.Trim` | src/media/audio_player.cpp:653-665 | The trim drops the specified whole packets off the front. |
| `PcmRing.AudioPlayer.AdjustDrift` | src/media/audio_player.cpp:682-703 | The servo drops or repeats one frame at the head of the write, or leaves it, and adjusts the size of the write. |
| `PcmRing.AudioPlayer.Write` | src/media/audio_player.cpp:707-718 | The card is offered the front of the queue and exactly what it takes is consumed. |
| `PcmRing.AudioPlayer.FeedCard` | src/media/audio_player.cpp:653-720 | Trim, low-pass, servo and write together reach the specified state, offer and output. |
| `PcmRing.AudioPlayer.Feed` | src/media/audio_player.cpp:624-720 | The same behind the card's error answers; the books balance afterwards. |
| `PcmRing.AudioPlayer.Resync` | src/media/audio_player.cpp:755-776 | A new stream empties the ring; the servo's phase stays. |
| `PcmRing.FeedConserves` | src/media/audio_player.cpp:624-720 | Queued plus repeated equals written plus trimmed plus dropped plus left. |
| `PcmRing.FeedPassesOn` | src/media/audio_player.cpp:667-720 | Apart from the trim and the one frame dropped or repeated the sound passes on unchanged; a write is never longer than the card's room or the ring. |
| `PcmRing.ExcessIs` | src/media/audio_player.cpp:653-655 | The excess over 60 ms is a whole number of frames, so its truncation loses nothing. |
| `PcmRing.TrimLands` | src/media/audio_player.cpp:653-665 | A trim not limited by the ring leaves 60 to under 80 ms queued; it drops whole packets and never more than the ring holds. |
| `PcmRing.TrimIs` | src/media/audio_player.cpp:653-665 | Nothing is trimmed up to 120 ms; above, as many whole packets as leave 60 ms and as the ring holds. |
| `PcmRing.WriteIs` | src/media/audio_player.cpp:673-718 | A frame dropped is the first one left by the trim and a frame repeated is sent twice; the write is one frame shorter or, with room, longer for it; and just what the card took is consumed. |
| `PcmRing.AdjustSpacing` | src/media/audio_player.cpp:682-703 | The servo's phase never runs ahead of the frames offered since its last adjustment. |
| `PcmRing.AdjustmentsApart` | src/media/audio_player.cpp:682-703 | On every run of feeds two adjustments are at least 960 offered frames apart. |
| `PcmRing.AdjustsIff` | src/media/audio_player.cpp:682-703 | On every run a frame is dropped exactly above 75 ms and repeated exactly below 45, on the average, and then only once 960 frames have come to a write since the last adjustment or the last time inside the band. |
| `PcmRing.SteadyDepth` | src/media/audio_player.cpp:669-671 | At a steady depth the average closes in on it by one part in 1500 a feed. |
| `PcmRing.BandIsQuiet` | src/media/audio_player.cpp:669-703 | While every depth is inside the band, and the average was, nothing is dropped or repeated. |

## Left out

- Calls into libpeer, ALSA, FFmpeg, libopus, curl and DRM: what they answer is an input; what they decode or fetch is arbitrary.
- Real clocks: times are arguments. In the bandwidth controller and the keyframe throttle they are unbounded naturals that do not run backwards.
- Logging, statistics text, thread names and priorities, and the count of discards since the last log line.
- Session signalling, authentication, the catalogue, Wi-Fi tuning, screens, input devices and painting.
- `VideoPipeline::pick`, decoder statistics, and the PLI round-trip timing in `src/net/engine.cpp:408-432`.
- Chroma scaling, and the pixel work of thumbnails; a thumbnail is its size in bytes.
- `std::sort` and the standard heap are taken at their word: sorting is an insertion sort on values, and the heap is the sequence of its elements in the order they would be popped.
- Floating-point rounding: times of the replay feeder and of the PCM ring are real numbers.
- Loss probabilities and random draws of the replay model: each record carries its own decision.
- The stop flags of the threads, except that a run of the feeder may stop after any number of releases.
- Nv12.ScaleSharp: asks for at least two destination columns, because the row filter reads the third source pixel unconditionally (`src/video/nv12.c:113`), and for at least one row.
- Nack.OneRequest: BLP is modelled as its sixteen bits, not as an integer.
- HandOff.NoLostWakeUp: the wake-up generation is unbounded, so its wrap after 2^64 notifies is not modelled; the wait's 4 ms limit appears as a wake-up that may come at any time or never.
- HandOff.NothingElseIsLost: says nothing about IDRs. After an overflow the unit in hand is still queued, so the IDR gate is a property of the jitter buffer and not of what the decoder takes.
- Assembly.OrderFreeIff: leaves out a frame holding all 65536 numbers, where every marked packet ends a complete run; `Assembly.OrderFreeIffAlike` covers it.
- Recording.AuRecorder.Close: runs the writer without a push in between; `Recording.AuRecorder.TryLeave` has none of that restriction. A push that passed the test of the active flag and enqueues after the writer has left is `Recording.AuRecorder.Enqueue`; its record waits for the next `Reopen`.
- Recording.AuRecorder.WriteOne: writes to the file do not fail, and a record's size is below 2^32.
- Thumbs.Cache.Pump: the worker does not get in between here; the interleaved case is `Thumbs.RunKeeps`.
- Replay.Feeder.Run: says nothing when file timestamps go backwards; the look-ahead may then release a record too early.
- PcmRing.AudioPlayer.Feed: the recovery of the card is left out; the answers are those after it. The servo's phase is an unbounded number.
- PcmRing.AudioPlayer.Append: the samples are arbitrary, be they decoded, concealed or silent.
