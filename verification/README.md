# Verified model of libuvc's streaming and of the ADUVC driver

This project models the parts of libuvc and of the areaDetector driver ADUVC
that carry a video stream from a camera to its user, and proves what they
promise. `dafny verify dfyconfig.toml` checks all of it.

* **Reassembly** (`Reassembly`, `PayloadHeaders`, `FrameRoundTrip`,
  `FrameSegments`, `FrameStamps`, `StreamHandles`). USB payloads become frames. The payload processing is a function on the state that the
  event thread owns, and, in `StreamHandles`, the in-place code on two pairs of
  buffers that refines it. Proved: conservation of image bytes for arbitrary
  payloads; from which payloads a published frame has its image, time stamps and
  metadata; and a round trip for well-formed ones (section 2.4.3.3 of USB Video
  Class 1.5).
* **The streaming engine** (`StreamProtocol`, `StreamSafety`, `StreamInvariant`,
  `StreamTheorems`, `StreamDelivery`, `StreamStop`, `StreamPoller`). Event thread, consumer (a
  callback thread or a poller) and the thread that starts and stops the stream
  are a state machine. A step is one access to shared state outside `cb_mutex`,
  or a part of a region inside it; the copy of a frame and the unlocked writes
  to `outbuf` go byte by byte; waiting on the condition variable, broadcasts and
  spurious wake-ups are explicit. Proved for every interleaving: ownership of
  transfers, frames that are never torn, delivery of what is
  presented, no lost wake-ups, no deadlock, and termination of stop under every
  schedule. One promise fails, for a poller
  without a timeout that tests `running` just before a stop; `StreamPoller` says
  exactly which pollers fall asleep then, that nothing wakes them, and gives a run.
* **Lists** (`IntrusiveLists`, `StableSort`, `ListSort`, `StreamRegistry`). The
  doubly linked lists of `utlist.h` on the heap, the in-place merge sort, and
  the registry of open streams that is emptied while it is walked.
* **Descriptors and negotiation** (`Descriptors`, `DescriptorScan`,
  `DescriptorRoundTrip`, `DescriptorLists`, `StreamControl`, `FrameFormats`, `ModeSearch`, `IsoSetup`). The scan of
  VideoStreaming descriptors (section 3.9.2) with a layout to invert, the probe
  block (section 4.3.1.1), the search for a mode, and the choice of an
  alternate setting (section 9.6.6 of USB 2.0).
* **Pixels, devices, driver** (`PixelFormulas`, `PixelConversion`, `DeviceList`,
  `Driver`).

## Assumptions

These are preconditions, because the code relies on them.

* The stream is freshly opened: a restart does not reset `got_bytes` or `hold_seq`.
* Fewer than 2^32 frames are published, where numbers matter (`Few`).
* Payload headers reach as far as the PTS and SCR fields they announce (`Readable`).
* Stop is not called from the callback thread, as `libuvc.h` (line 475) asks.
  The driver does call it there, so the driver model treats stop as one step
  after which no frame arrives, as `ADUVC.cpp` (line 543) states.
* libusb runs callbacks on one thread, and there is one poller or one callback
  thread. Memory is sequentially consistent: `running` is a plain variable in
  the source, and compilers or processors that reorder it are not modelled.
* Stop comes to its end if transfers in flight complete, the user's callback
  returns, and the scheduler does not run spurious wake-ups for ever.
* Descriptor lengths lead from one descriptor to the next, all that is read is
  in the buffer, and formats come before their frames. Interval lists are
  zero-terminated, as the scan makes them, and a continuous range has a step.
* Pixel converters are given whole groups of eight pixels and, if the buffer is
  the user's and large enough, one of exactly the size of the output.

Where code and comments disagree the model follows the code: no entry of the
format table is marked abstract, so a GUID of zeros matches the abstract
formats; errors of the probe requests are not looked at, so a camera that fails
both requests negotiates what it was asked; an end-of-frame bit in a payload
without image bytes does not end a frame; and a mode or format change stops an
acquisition only if ADAcquire is exactly 1.

## Model

| member | source | states |
|---|---|---|
| Bytes.WriteU16 | uvcSupport/libuvc/libuvc/libuvc_internal.h:19-24 | A 16-bit integer written in little-endian order is read back unchanged, for every value. |
| Bytes.WriteU32 | uvcSupport/libuvc/libuvc/libuvc_internal.h:17-30 | A 32-bit integer written in little-endian order is read back unchanged, for every value. |
| Reassembly.ProcessBounded | uvcSupport/libuvc/stream.c:777-789 | No payload, however malformed, makes `got_bytes` exceed dwMaxVideoFrameSize or `meta_got_bytes` exceed 4096, and a published frame is never taken back. |
| Reassembly.StepConserves | uvcSupport/libuvc/stream.c:722-794 | One payload adds to the published frames and the open frame exactly its image bytes, clipped to the space that is left. |
| Reassembly.Conservation | uvcSupport/libuvc/stream.c:699-795 | For every payload sequence: all published frames followed by `outbuf[..got_bytes]` are the image bytes of the accepted payloads, each clipped to the space then left, in order; nothing is invented, lost otherwise, or reordered. |
| Reassembly.IsightImage | uvcSupport/libuvc/stream.c:710-740 | An iSight payload with the tag in it adds no image bytes; one without adds all its bytes, from the first on. |
| Reassembly.NumberingKept | uvcSupport/libuvc/stream.c:671-682 | For every payload sequence, published frames carry consecutive sequence numbers modulo 2^32, and `seq` is the next one. |
| Reassembly.ProcessAllAppend | uvcSupport/libuvc/stream.c:819-834 | Processing payloads is the same in one go as in two, so that it does not matter how payloads are spread over transfers. |
| FrameCutting.Rest | uvcSupport/libuvc/stream.c:785-794 | The rest of a frame closes it exactly if it fills the buffer or an end-of-frame bit comes with image bytes; an end-of-frame bit without image bytes does not. |
| FrameCutting.OneFrame | uvcSupport/libuvc/stream.c:755-762 | A whole frame of one frame id, cut in any way, is reassembled, whether or not the frame before it had been closed. |
| FrameCutting.CutAll | uvcSupport/libuvc/stream.c:755-794 | Any list of frames with alternating frame ids, cut in any way, is given back; only the last can stay open, and does exactly if its end was never told. |
| FrameRoundTrip.StepSimulates | uvcSupport/libuvc/stream.c:699-795 | For error-free payloads the byte-level processing is the abstract cutting step. |
| FrameRoundTrip.Reassembles | uvcSupport/libuvc/stream.c:699-795 | Published frames followed by the open one are exactly the frames sent. |
| FrameRoundTrip.RoundTrip | uvcSupport/libuvc/stream.c:657-795 | Packetise and reassemble: the frames sent are published in order and numbered 1, 2, 3, ...; at most the last is withheld, exactly if the device never told its end. |
| FrameRoundTrip.PublishedPrefix | uvcSupport/libuvc/stream.c:699-795 | At every moment of a transmission the published frames are a prefix of the frames sent. |
| PayloadHeaders.HeaderFound | uvcSupport/libuvc/stream.c:722-740 | A payload laid out after section 2.4.3.3 is split into its header, its metadata and its image where they were put. |
| PayloadHeaders.StampsRead | uvcSupport/libuvc/stream.c:764-773 | PTS and source clock are read back from where the layout puts them, in every combination of the two. |
| PayloadHeaders.ProcessesLayout | uvcSupport/libuvc/stream.c:742-794 | Processing inverts the header layout: for every state, header and image, the effect is the one said in terms of frame id, time stamps, metadata, image and end-of-frame bit, and a frame that it ends is published with the number, time stamps, image and metadata that are held. |
| FrameSegments.PublishedAreSegments | uvcSupport/libuvc/stream.c:657-795 | For every state and run of payloads: each published frame is made of consecutive payloads, from the end of the frame before to its own first end. Its PTS is the last one sent in these, 0 if there is none; its SCR likewise; its metadata is all of theirs, up to 4096 bytes; its image all of theirs, up to dwMaxVideoFrameSize. |
| FrameStamps.StampedRoundTrip | uvcSupport/libuvc/stream.c:657-795 | The round trip with time stamps and metadata: published frame i is the frame sent, has number i + 1, and has the last PTS and SCR and all metadata of its payloads: those behind the one that closed the frame before, up to the one that closes it. |
| FrameStamps.OwnPayloads | uvcSupport/libuvc/stream.c:785-794 | If the last payload of every frame has image bytes, these are exactly the payloads sent for the frame. |
| StreamHandles.DoubleBuffer.Append | uvcSupport/libuvc/stream.c:777-789 | memcpy into the working buffer: the bytes that fit are appended, the presented buffer does not change, and the two buffers stay the two that were allocated. |
| StreamHandles.DoubleBuffer.Swap | uvcSupport/libuvc/stream.c:664-668 | The buffers exchange roles; what was being built is now presented, without a byte being moved. |
| StreamHandles.StreamHandle.SwapBuffers | uvcSupport/libuvc/stream.c:657-687 | The open frame becomes the presented frame: hold_seq, hold_pts and hold_last_scr are its seq, pts and last_scr, both buffers are presented as they are, pts and last_scr are cleared, the number goes on by one modulo 2^32, and a new frame is begun. |
| StreamHandles.StreamHandle.ReadStamps | uvcSupport/libuvc/stream.c:745-773 | Frame id, PTS and SCR come from the offsets that the header flags give. |
| StreamHandles.StreamHandle.AttachMetadata | uvcSupport/libuvc/stream.c:775-782 | The header bytes behind the time stamps are appended to the metadata as far as they fit. |
| StreamHandles.StreamHandle.AppendImage | uvcSupport/libuvc/stream.c:785-794 | Image bytes are appended as far as they fit, and the frame is presented at its end or when the buffer is full. |
| StreamHandles.StreamHandle.ProcessPayload | uvcSupport/libuvc/stream.c:699-795 | The in-place payload processing is the function that the conservation and round-trip theorems are about, for every payload. |
| StreamHandles.StreamHandle.constructor | uvcSupport/libuvc/stream.c:1041-1107 | A freshly opened and started stream is in the initial state of those theorems, with four different buffers. |
| StreamSafety.PlanRuns | uvcSupport/libuvc/stream.c:699-795 | The byte-by-byte program that the event thread runs without a lock computes the same as processing the payload at once, and never overruns the buffer. |
| StreamInvariant.InitInv | uvcSupport/libuvc/stream.c:1103-1244 | The invariant holds when the stream has been set up and its thread created. |
| StreamInvariant.ControlPool | uvcSupport/libuvc/stream.c:1246-1262 | Start, a failed submission, and stop keep slots, transfers and their owners consistent. |
| StreamInvariant.EventPool | uvcSupport/libuvc/stream.c:805-919 | Every path through the transfer callback keeps slots, transfers and their owners consistent. |
| StreamInvariant.EventWakeups | uvcSupport/libuvc/stream.c:660-680 | The event thread wakes the sleepers whenever it makes true what they wait for. |
| StreamInvariant.ConsumerWakeups | uvcSupport/libuvc/stream.c:1302-1311 | The consumer falls asleep only when it has seen the presented frame, and only while the stream runs. |
| StreamInvariant.EventImages | uvcSupport/libuvc/stream.c:657-687 | No step of the event thread changes the presented buffer under a reader, although it writes the working buffer without a lock. |
| StreamInvariant.ConsumerCopies | uvcSupport/libuvc/stream.c:1296-1388 | A copy under way agrees byte by byte with the presented buffer. |
| StreamInvariant.EventHistory | uvcSupport/libuvc/stream.c:805-836 | What has been published and what is still to be done together are what processing the payloads taken up yields. |
| StreamInvariant.CopyDelivers | uvcSupport/libuvc/stream.c:1313-1318 | A finished copy is the frame that was published under its number. |
| StreamInvariant.ConsumerDeliveries | uvcSupport/libuvc/stream.c:1302-1318 | Numbers of delivered frames strictly increase, and no number counts as seen without its frame having been delivered. |
| StreamInvariant.StepKeeps | uvcSupport/libuvc/stream.c:657-1522 | Every enabled step of every thread keeps the invariant: callbacks, start, stop, callback thread, poller, spurious wake-ups. |
| StreamInvariant.ReachableInv | uvcSupport/libuvc/stream.c:657-1522 | The invariant holds in every reachable state of every interleaving. |
| StreamTheorems.NoFaults | uvcSupport/libuvc/stream.c:805-919 | No freed transfer is submitted, cancelled or freed again, no buffer is overrun, and outbuf and holdbuf are always the two different buffers. |
| StreamTheorems.SlotLifecycle | uvcSupport/libuvc/stream.c:837-917 | A slot becomes NULL in the one step that frees its transfer, which is then neither in flight nor freed; slot and transfer stay so for ever. |
| StreamTheorems.StoppedIsQuiet | uvcSupport/libuvc/stream.c:1492-1519 | When the wait loop of stop has ended, every slot is NULL, every transfer is freed, and none is in flight or in a callback. |
| StreamTheorems.FramesNeverTorn | uvcSupport/libuvc/libuvc/libuvc.h:468 | Each frame delivered is, byte for byte, the frame published under its number, and numbers strictly increase (they may skip). |
| StreamTheorems.FrameFixedDuringCallback | uvcSupport/libuvc/stream.c:1313-1318 | While the user's callback runs, no step of any other thread changes the frame it was given. |
| StreamTheorems.FrameFixedBetweenCalls | uvcSupport/libuvc/stream.c:1397-1468 | Between two calls of a poller the frame it holds is the last one delivered to it, and no step of any thread changes it. |
| StreamTheorems.NoLostWakeup | uvcSupport/libuvc/stream.c:1302-1311 | No thread sleeps unsignalled while what it waits for holds: neither the callback thread with an unseen frame presented or after the final broadcast, nor the stopper with all slots NULL. |
| StreamTheorems.UserSeesDeviceFrames | uvcSupport/libuvc/stream.c:657-1468 | End to end: if the payloads taken up are a prefix of a transmission, then in every interleaving the user has seen only frames of the device, each under its own position, in increasing order. |
| StreamDelivery.AllTakenUp | uvcSupport/libuvc/stream.c:805-836 | In every interleaving the payloads taken up and those still to be taken up are all that libusb has handed over, in order. |
| StreamDelivery.AllProcessed | uvcSupport/libuvc/stream.c:805-836 | Between two callbacks, the reassembler is in the state that processing everything handed over yields. |
| StreamDelivery.SeenIsDelivered | uvcSupport/libuvc/stream.c:1313-1318 | Outside a copy, the last number seen is that of the last frame delivered, and nothing has been seen if nothing has been delivered. |
| StreamDelivery.StaysBound | uvcSupport/libuvc/stream.c:1302-1388 | A consumer that is to hand over the presented frame stays so through every step of every thread, and the frame stays the same, until it has handed it over; each step of its own brings it nearer. Only a stop before the copy begins releases it. |
| StreamDelivery.HandsOver | uvcSupport/libuvc/stream.c:1302-1418 | From the callback thread's leaving its wait loop while the stream runs, and from either test of uvc_stream_get_frame when there is an unseen frame, whatever the timeout, steps of the consumer alone deliver exactly the presented number and bytes. |
| StreamDelivery.CallbackCatchesUp | uvcSupport/libuvc/stream.c:1292-1322 | While the stream runs and the last frame published has not been seen, the callback thread, wherever it is, gets it to the user's callback by steps of its own. |
| StreamDelivery.PollerCatchesUp | uvcSupport/libuvc/stream.c:1397-1468 | So does a call of uvc_stream_get_frame, with any timeout, the immediate one included. |
| StreamDelivery.UserSeesSent | uvcSupport/libuvc/stream.c:657-1468 | End to end, by what libusb has handed over: if that is a prefix of a transmission, the user has seen only its frames, each under its position, in increasing order. |
| StreamDelivery.LastFrameArrives | uvcSupport/libuvc/stream.c:657-1468 | When a whole transmission has been worked off, all its frames, but for one whose end was never told, have been published, and the last of them can reach the user. |
| StreamDelivery.DroppedOnlyIf | uvcSupport/libuvc/stream.c:837-917 | A callback drops its transfer exactly after a final completion, after reading that the stream has been stopped, or if libusb refuses the transfer. |
| StreamDelivery.GoesRound | uvcSupport/libuvc/stream.c:872-877 | While the stream runs, a transfer that has been worked off is submitted again. |
| StreamStop.PlanLength | uvcSupport/libuvc/stream.c:699-795 | Bound on the operations of one payload, which the rank needs. |
| StreamStop.ResubmitLowers | uvcSupport/libuvc/stream.c:872-877 | A callback that has read `running == 1` before it was cleared may resubmit its transfer; the rank still falls. |
| StreamStop.StepLowers | uvcSupport/libuvc/stream.c:872-917 | Once `running` is 0, every step of every thread but a spurious wake-up lowers a lexicographic rank. |
| StreamStop.NeverStuck | uvcSupport/libuvc/stream.c:1498-1519 | While stop is under way some step other than a spurious wake-up is enabled: there is no deadlock. |
| StreamStop.CancelsAll | uvcSupport/libuvc/stream.c:1485-1508 | In every run the stopper has gone through all transfers, cancelling what is left, once each, before it waits. |
| StreamStop.StopTerminates | uvcSupport/libuvc/stream.c:1492-1530 | Under every schedule stop returns, with every transfer freed and the callback thread ended. |
| StreamStop.ScheduleExists | uvcSupport/libuvc/stream.c:1492-1530 | Schedules of the kind that the theorem speaks of exist. |
| StreamPoller.PunctualStaysAwake | uvcSupport/libuvc/stream.c:1404-1418 | After stop has returned, an awake poller that is not between the unlocked test of `running` and its wait, or does not want to wait, or has an unseen frame, never falls asleep again. |
| StreamPoller.LateGoesOn | uvcSupport/libuvc/stream.c:1404-1418 | It is unavoidable: every enabled step of any thread leaves a late poller asleep, or late and nearer to its wait. |
| StreamPoller.LateFallsAsleep | uvcSupport/libuvc/stream.c:1404-1418 | From every state of a stopped stream in which a poller is late (between the unlocked test of `running` and its wait, wanting to wait, with no unseen frame), enabled steps lead to a state in which it is asleep. |
| StreamPoller.FallsAsleepIffLate | uvcSupport/libuvc/stream.c:1404-1418 | Of a stopped stream, an awake poller can ever fall asleep if and only if it is late. |
| StreamPoller.BroadcastMissesTheLate | uvcSupport/libuvc/stream.c:1404-1522 | The final broadcast of stop leaves everyone awake, and a poller can sleep after it if and only if it was late at that moment. |
| StreamPoller.SleeperSleepsOn | uvcSupport/libuvc/stream.c:1420-1437 | Who sleeps after the stop sleeps on: a spurious wake-up, or the timeout if one was given, is the only possible step. |
| StreamPoller.LateIsReachable | uvcSupport/libuvc/stream.c:1404-1418 | A run of the machine in which all of stop passes between the test of `running` by a poller without a timeout and its taking the mutex. |
| StreamPoller.SleeperIsReachable | uvcSupport/libuvc/stream.c:1404-1422 | A run that ends with the stream stopped, the poller asleep without a timeout, and no step left but spurious wake-ups. |
| IntrusiveLists.List.Append | uvcSupport/libuvc/utlist.h:396-408 | DL_APPEND keeps the list well linked (acyclic next chain, inverse prev, head->prev the last node) and appends. |
| IntrusiveLists.List.Delete | uvcSupport/libuvc/utlist.h:410-425 | DL_DELETE keeps the list well linked and removes exactly that node, whose own links are left alone. |
| IntrusiveLists.List.DeleteLater | uvcSupport/libuvc/utlist.h:416-424 | Deleting a node behind the first. |
| IntrusiveLists.List.DeleteFirst | uvcSupport/libuvc/utlist.h:413-415 | Deleting the first of several nodes. |
| StableSort.MergePermutes | uvcSupport/libuvc/utlist.h:184-201 | A merge has the elements of its two runs, with their multiplicity. |
| StableSort.MergeSorts | uvcSupport/libuvc/utlist.h:184-201 | The merge of two sorted runs is sorted. |
| StableSort.MergeIsStable | uvcSupport/libuvc/utlist.h:189-193 | Of tied elements, those of the first run come first. |
| StableSort.PassDoublesRuns | uvcSupport/libuvc/utlist.h:174-203 | After a pass with run size k the list is consecutive sorted runs of length 2k. |
| StableSort.PassIsStable | uvcSupport/libuvc/utlist.h:174-203 | A pass keeps tied elements in order. |
| StableSort.SortFromSorts | uvcSupport/libuvc/utlist.h:168-210 | Passes from run size k on turn sorted runs of length k into a sorted, stable permutation. |
| StableSort.SortIsStable | uvcSupport/libuvc/utlist.h:156-212 | DL_SORT: a sorted permutation of the same nodes in which tied nodes keep their order. |
| StableSort.PassCount | uvcSupport/libuvc/utlist.h:206-209 | The number of passes is max(1, ceil(log2 n)). |
| ListSort.Emit | uvcSupport/libuvc/utlist.h:194-200 | A node is linked to the end of the list being built. |
| ListSort.Advance | uvcSupport/libuvc/utlist.h:176-182 | The second run begins `insize` nodes on, or where the list ends. |
| ListSort.TakeNext | uvcSupport/libuvc/utlist.h:184-193 | The next node off the two runs, by the four branches of the merge loop. |
| ListSort.MergeRuns | uvcSupport/libuvc/utlist.h:184-201 | The in-place merge of two runs is the merge on sequences; the nodes behind keep their links. |
| ListSort.Close | uvcSupport/libuvc/utlist.h:204-205 | The links at the two ends are closed. |
| ListSort.MergePass | uvcSupport/libuvc/utlist.h:169-205 | An in-place pass is the pass on sequences, and merges at most once exactly if the list has at most two runs. |
| ListSort.Rounds | uvcSupport/libuvc/utlist.h:165-210 | The outer loop doubles the run length until a pass merges at most once: it ends, with the order of the sort on sequences and its number of passes. |
| ListSort.Sort | uvcSupport/libuvc/utlist.h:156-212 | DL_SORT on any list relinks the same nodes into a well linked list; under a comparison that orders them it is sorted, with tied nodes in the order they had; under any other its order is that of the sort on sequences; the number of passes is the least p >= 1 with 2^p >= n. |
| StreamRegistry.DeviceHandle.GetStreamByInterface | uvcSupport/libuvc/stream.c:976-985 | Finds a stream on the interface if and only if there is one. |
| StreamRegistry.DeviceHandle.OpenStream | uvcSupport/libuvc/stream.c:1005-1065 | Each outcome has its exact condition: busy if the interface has a stream, else invalid without a descriptor, else out of memory, else refused by libusb or the camera, else success; a failure after the claim leaves the interface claimed. |
| StreamRegistry.DeviceHandle.CloseStream | uvcSupport/libuvc/stream.c:1542-1562 | Removes the stream, and its interface from the claimed ones if libusb releases it; one stream an interface, and every open stream's interface claimed, are kept. |
| StreamRegistry.DeviceHandle.StopStreaming | uvcSupport/libuvc/stream.c:1477-1483 | Walking the list while deleting from it closes every open stream exactly once, in order, and leaves the list NULL. |
| DescriptorScan.StreamingInterface.CopyTiming | uvcSupport/libuvc/device.c:1495-1508 | The frame intervals: a continuous range, or the listed ones with a zero behind them. |
| DescriptorScan.StreamingInterface.ParseFrameUncompressed | uvcSupport/libuvc/device.c:1520-1566 | An uncompressed or MJPEG frame is added behind the frames of the last format; all other formats stay as they are. |
| DescriptorScan.StreamingInterface.ParseFrameFrame | uvcSupport/libuvc/device.c:1468-1514 | A frame-based frame, with other offsets, is added behind the frames of the last format; all other formats stay as they are. |
| DescriptorScan.StreamingInterface.ParseStillImageFrame | uvcSupport/libuvc/device.c:1572-1629 | Still image sizes are numbered from 1, and compression patterns follow them. |
| DescriptorScan.StreamingInterface.Parse | uvcSupport/libuvc/device.c:1635-1694 | A descriptor is parsed by its subtype; unknown ones are skipped. |
| DescriptorScan.StreamingInterface.ScanStreaming | uvcSupport/libuvc/device.c:1319-1356 | The scan loop ends, and leaves the interface as the scan on values says. |
| DescriptorRoundTrip.ParsesFrame | uvcSupport/libuvc/device.c:1520-1566 | Fields and intervals of a frame are read where section 3.9.2 of USB Video Class 1.5 puts them. |
| DescriptorRoundTrip.ParsesFrameBased | uvcSupport/libuvc/device.c:1468-1514 | The same for frame-based frames. |
| DescriptorRoundTrip.ParsesStill | uvcSupport/libuvc/device.c:1572-1629 | The same for still images, for any number of sizes and patterns. |
| DescriptorRoundTrip.FormatRead | uvcSupport/libuvc/device.c:1379-1433 | The same for formats with a GUID. |
| DescriptorRoundTrip.OneRead | uvcSupport/libuvc/device.c:1635-1694 | Parsing the bytes of any well-formed descriptor adds what the descriptor says, whatever follows it: a format behind the others, a frame or still image to the last format and to no other. |
| DescriptorRoundTrip.RoundTrip | uvcSupport/libuvc/device.c:1319-1694 | Any well-formed list of descriptors with formats before their frames, laid out in bytes and scanned, is taken up in order; up to two stray bytes are ignored. |
| DescriptorLists.Rebuilt | uvcSupport/libuvc/device.c:1319-1694 | By places in the list: format j is the j-th format descriptor, with exactly the frames and still images that stand between it and the next format descriptor, in order; the other fields are those of the last input header. |
| DescriptorLists.ScanRebuilds | uvcSupport/libuvc/device.c:1319-1694 | So from the bytes of any well-formed list, a scan of a fresh interface rebuilds it that way. |
| Descriptors.MaskKeeps | uvcSupport/libuvc/device.c:1367 | Of an endpoint address the direction and the number are kept, and the reserved bits are cleared. |
| StreamControl.FindFrameDesc | uvcSupport/libuvc/stream.c:416-458 | The first frame in list order with these two indices, over all interfaces; NULL exactly if there is none. |
| StreamControl.FindFrameIs | uvcSupport/libuvc/stream.c:445-458 | That frame is determined by the lists. |
| StreamControl.SizesDelivered | uvcSupport/libuvc/stream.c:1337-1343 | Looking a frame up by its two indices gives its size, for every frame, if and only if frames that share their indices share their size. |
| StreamControl.DecodesEncoded | uvcSupport/libuvc/stream.c:211-281 | Decoding an encoded probe block gives back every field for the 34-byte form; for the 26-byte form all but the last five bytes' fields, with the clock of the interface; only a zero dwMaxVideoFrameSize is looked up. |
| StreamControl.FieldsOnWire | uvcSupport/libuvc/stream.c:211-232 | Every field is at its offset of section 4.3.1.1, little-endian. |
| StreamControl.FillBlock | uvcSupport/libuvc/stream.c:203-232 | The 34-byte buffer, filled field by field in place, has the encoded block and zeros behind it. |
| StreamControl.StoreU32 | uvcSupport/libuvc/libuvc/libuvc_internal.h:25-30 | INT_TO_DW appends four little-endian bytes. |
| StreamControl.QueryGet | uvcSupport/libuvc/stream.c:244-284 | A GET request changes nothing if nothing was transferred; else the block is decoded, and only a zero frame size is filled in, from the first frame descriptor with the block's two indices, if there is one. |
| FrameFormats.MatchesClass | uvcSupport/libuvc/stream.c:153-170 | A GUID matches a format exactly if it is of a format that the format stands for, or is zero and the format abstract; raw Bayer formats are in no class. |
| FrameFormats.FormatForGuid | uvcSupport/libuvc/stream.c:172-186 | The one format of the table that has this GUID, or UNKNOWN. |
| ModeSearch.OneOffer | uvcSupport/libuvc/stream.c:501-528 | A frame offers at most one interval for a rate. |
| ModeSearch.ChooseInterval | uvcSupport/libuvc/stream.c:501-528 | For a rate fps > 0, the first entry x before the zero with fps * x <= 10^7 < (fps + 1) * x, and nothing exactly if no entry has that; rate 0 takes the first entry, a negative rate none; of a continuous range the x with fps * x <= 10^7 < fps * (x + 1), if it is a number of steps from the smallest. |
| ModeSearch.TryFrame | uvcSupport/libuvc/stream.c:489-529 | At a frame of the right format and size the camera is asked for its maxima, and the frame is taken exactly if it offers the rate. |
| ModeSearch.FindMode | uvcSupport/libuvc/stream.c:470-537 | The three nested loops find the first interface, format and frame in list order that match GUID class, size and rate, or nothing exactly if none does; the block asks for that mode, with the interval of that rate. |
| ModeSearch.ProbeStreamCtrl | uvcSupport/libuvc/stream.c:595-623 | Negotiation: the block set is the encoded one, and the answer is accepted exactly if it has the same two indices and no larger payload. |
| ModeSearch.GetStreamCtrl | uvcSupport/libuvc/stream.c:470-538 | Success exactly if some mode matches and the camera agrees; the block then names the first matching mode. |
| ModeSearch.SizeDelivered | uvcSupport/libuvc/stream.c:1337-1343 | If frames that share their indices share their size, delivered frames have the size asked for. |
| ModeSearch.WrongSizeDelivered | uvcSupport/libuvc/stream.c:1337-1343 | Without that they need not: a device with two interfaces for which frames are labelled with the wrong width. |
| IsoSetup.BytesPerPacket | uvcSupport/libuvc/stream.c:1152-1176 | What an alternate setting carries: the companion descriptor or the endpoint sought, whichever comes first, else nothing. |
| IsoSetup.PacketBytesOf | uvcSupport/libuvc/stream.c:1169-1172 | The multiplier decoding of wMaxPacketSize: packet size times one more than the additional transactions, whatever the reserved bits. |
| IsoSetup.CarriesOne | uvcSupport/libuvc/stream.c:1152-1176 | That number is determined by the alternate setting. |
| IsoSetup.CarriesByDecider | uvcSupport/libuvc/stream.c:1152-1176 | It is what the deciding endpoint says: wBytesPerInterval of a companion descriptor, else packet size times one more than the additional transactions. |
| IsoSetup.PacketsPerTransfer | uvcSupport/libuvc/stream.c:1179-1188 | A transfer holds a whole frame with less than a packet to spare, or has exactly 32 packets. |
| IsoSetup.ChooseAltSetting | uvcSupport/libuvc/stream.c:1145-1197 | The least alternate setting whose packets hold the negotiated payload, and failure exactly if none does; the packet size is what the deciding endpoint says. |
| PixelFormulas.ConvertedAt | uvcSupport/libuvc/frame.c:174-202 | Pixel k of the output is the formula on Y_k, U_(k/2) and V_(k/2). |
| PixelFormulas.BgrSwapsRgb | uvcSupport/libuvc/frame.c:204-253 | The BGR output is the RGB output with first and third bytes exchanged, for whole frames. |
| PixelFormulas.UyvyIsSwappedYuyv | uvcSupport/libuvc/frame.c:335-433 | Converting UYVY input is converting YUYV input with the bytes of every pair exchanged. |
| PixelFormulas.PlanesRestore | uvcSupport/libuvc/frame.c:265-333 | Interleaving the two planes gives back the input. |
| PixelFormulas.NearExact | uvcSupport/libuvc/frame.c:142-163 | Every channel of the fixed-point formula is less than 1.14 below and less than 0.14 above the exact real value, clamped to 0..255, for all bytes; and within 1 of the floating-point macro read over the reals, truncated and saturated. |
| PixelFormulas.ColoursOfPixel | uvcSupport/libuvc/frame.c:142-253 | End to end, for both packings and both orders: of a frame packed from pairs of pixels, the three output bytes of every pixel are that close to the exact colour of its Y, U and V. |
| PixelFormulas.GreyIsExact | uvcSupport/libuvc/frame.c:142-163 | A pixel with U = V = 128 has r = g = b = y. |
| PixelConversion.Frame.EnsureSize | uvcSupport/libuvc/frame.c:42-56 | The buffer is large enough on success; it is reallocated only if the library owns it and its size differs. |
| PixelConversion.Put2 | uvcSupport/libuvc/frame.c:153-163 | Six bytes for two pixels that share U and V, each written once, behind those already written. |
| PixelConversion.Convert2 | uvcSupport/libuvc/frame.c:153-163 | The next pair of pixels is converted, behind those already done. |
| PixelConversion.ConvertAll | uvcSupport/libuvc/frame.c:193-200 | The unrolled loop converts every pixel once the buffer is a whole number of groups of eight, and writes every output byte exactly once, in order. |
| PixelConversion.Convert | uvcSupport/libuvc/frame.c:174-202 | The four converters write every byte of the converted frame exactly once and in order, and nothing on failure; its size, format and step are set, and sequence, time stamps and source handed on. |
| PixelConversion.ConvertPlane | uvcSupport/libuvc/frame.c:265-333 | The two plane converters take every other byte, write each output byte exactly once and in order, and set and hand on the fields of the frame. |
| DeviceList.UvcDevice.Ref | uvcSupport/libuvc/device.c:938-945 | One more reference to the device and to its libusb device. |
| DeviceList.UvcDevice.Unref | uvcSupport/libuvc/device.c:954-964 | One less; the device is freed exactly when none is left. |
| DeviceList.LooksLikeCamera | uvcSupport/libuvc/device.c:727-759 | The loops over interfaces and alternate settings find whether a device is a camera, with the two vendor exceptions. |
| DeviceList.CameraRules | uvcSupport/libuvc/device.c:727-759 | By vendor, product and class: class 14 with subclass 2 makes a camera; for products 0x8101 and 0x8102 of vendor 0x199e class 255 does too; products 0x8201 to 0x8208 of it never are. |
| DeviceList.GetDeviceList | uvcSupport/libuvc/device.c:679-788 | Every camera in the list of libusb, in order, with one reference each. |
| DeviceList.FreeDeviceList | uvcSupport/libuvc/device.c:798-813 | One reference less for every listed device; those without any are freed. |
| DeviceList.RefMatching | uvcSupport/libuvc/device.c:211-238 | Exactly the matching devices, in order, with one reference more. |
| DeviceList.FindDevices | uvcSupport/libuvc/device.c:189-250 | Exactly the cameras that match, in order, each with one reference: those found have the vendor, product and serial number asked for, and those not found differ in one of them or cannot be read. Every other listed camera has been freed exactly once, and no libusb reference is left over. |
| DeviceList.FindDevice | uvcSupport/libuvc/device.c:128-175 | The first camera that has what was asked for, with one reference, and none only if every camera differs; every other listed camera has been freed exactly once. |
| Driver.Driver.AcquireStart | uvcApp/src/ADUVC.cpp:481-531 | Whatever the library answers, parameters and stream are consistent afterwards; a stream is open exactly on success, which needs both answers, and then nothing is counted yet. |
| Driver.Driver.AcquireStop | uvcApp/src/ADUVC.cpp:539-554 | From a driver in any state of acquiring, with the arrays so far numbered 1, 2, 3, ..., parameters and stream are consistent and nothing is open; the count and all choices are untouched. |
| Driver.Driver.WriteInt32 | uvcApp/src/ADUVC.cpp:951-1046 | A stream is open afterwards exactly if one was begun with success, or was open and the write is none of those that end it (mode, format and rate do so only if ADAcquire is 1); asynError exactly if an acquisition was asked for and does not run; only a beginning resets the count; image format and rate change only by their own writes and by applying a camera format. |
| Driver.Driver.WriteFloat64 | uvcApp/src/ADUVC.cpp:1057-1091 | Consistency is kept; a new exposure time ends an acquisition whatever ADAcquire is, and no other float does. |
| Driver.Driver.NewFrameCallback | uvcApp/src/ADUVC.cpp:762-860 | Consistency is kept; a frame without an array neither counts nor ends anything; any other gets the next number, and the acquisition goes on exactly while fewer frames than the mode allows have been counted. |
| Driver.StepConsistent | uvcApp/src/ADUVC.cpp:762-1091 | Every write and callback keeps the consistency of parameters and stream. |
| Driver.RunConsistent | uvcApp/src/ADUVC.cpp:762-1091 | In every run, after every write and callback, ADAcquire is not 0 exactly while a stream is open, and arrays are numbered 1, 2, 3, ... since the start. |
| Driver.CountsAtMost | uvcApp/src/ADUVC.cpp:837-860 | However it goes on, an acquisition with fixed mode and ADNumImages = N counts at most max(1, N) frames in Multiple mode, and one in Single mode or an unknown mode. |
| Driver.CountsExactly | uvcApp/src/ADUVC.cpp:837-860 | If only frames can end it, it is over exactly when it has counted that many. |
| Driver.StartedInLimit | uvcApp/src/ADUVC.cpp:962-975 | A successful start satisfies what the two counting theorems require. |

## Left out

- libusb, pthreads, clocks and the USB bus: submission, completion, cancellation, answers of the camera and allocation failures are nondeterministic steps or parameters.
- The allocation of transfers in `uvc_stream_start` and its failure paths before the first submission; the state machine starts behind them.
- StreamTheorems.UserSeesDeviceFrames: metadata, time stamps and the capture time are in the reassembler but not in the shared memory of the state machine; the frame that the user gets keeps old metadata when the new frame has none (`stream.c`, line 1379), so no theorem says that metadata is that frame's.
- StreamStop.StopTerminates: spurious wake-ups are steps of the machine, but a schedule that picks them while stop is under way is not considered; it could pick them for ever.
- StreamStop.CancelsAll: what a cancellation does inside libusb is not modelled; a transfer in flight may complete in any way, cancelled or not.
- StreamDelivery.CallbackCatchesUp: while the stream runs, a consumer can always get the last frame published; it is not proved that a scheduler lets it, nor that it sees every frame, which libuvc does not promise.
- StreamHandles.StreamHandle.ProcessPayload: the size computations of the source cannot overflow `size_t` and are unbounded integers here.
- ListSort.Rounds: `insize` is an `int` in the source and would overflow on lists of more than 2^30 nodes; here it is unbounded.
- StreamRegistry.DeviceHandle.CloseStream: the stop of a running stream is the state machine's subject and not repeated; freeing of the handle is not modelled.
- DescriptorRoundTrip.RoundTrip: bmFlags of an MJPEG format shares a union with bBitsPerPixel, which is then set to 0, and is lost; control bitmaps of the input header and the number of frames of uncompressed and MJPEG formats are not kept by the source.
- DescriptorScan.StreamingInterface.ScanStreaming: descriptors with a length of 0 or beyond the buffer, and frames before any format, are excluded; the source does not handle them.
- ModeSearch.GetStreamCtrl: the interfaces that the search claims on its way are not modelled.
- ModeSearch.FindMode: rate 0 with a continuous range, and a step of 0, divide by zero in the source; they are excluded for frames that the search reaches.
- PixelConversion.Convert: the metadata of a frame is not modelled.
- PixelFormulas.NearExact: the floating-point macro is read over exact reals; rounding of 32-bit floats is not modelled.
- DeviceList.FindDevices: the array of pointers itself, which the source leaks when nothing matches, is a sequence here; strings of a descriptor are compared but not fetched.
- Driver.Driver.NewFrameCallback: the check of frame sizes and the conversion to an NDArray are not modelled, only whether they succeed.
- Driver.Driver.WriteInt32: writes that only reach the camera or the base class, and their error codes, are one parameter that changes nothing here; of what applyCameraFormat sets, image format and rate are modelled, and data type, colour mode and frame size are not.
- Driver.RunConsistent: writes and callbacks are atomic; the race between a first callback and the end of acquireStart is not modelled.
- `frame-mjpeg.c`, `ctrl.c`, `ctrl-gen.c`, `diag.c`, `misc.c`: foreign calls, constant tables and repetitive accessors.
- `uvc_exit` and `uvc_close`: the list of devices is walked with the iterator that must not be used while nodes are freed.
- Still image negotiation: an easy variant of the probe block.
- `selectBestCameraFormats` and `processZoom` of the driver: they do not compute what their names say without further conditions.
