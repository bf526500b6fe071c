# Frame bookkeeping of the Google camera HAL, modelled in Dafny

Several small state machines sit between the camera framework and the hardware layer (HWL). Requests,
results, errors and flushes reach them in arbitrary order; they must lose nothing, duplicate nothing and
stay within quotas. This project models them and proves what they keep over whole runs.

Each component is written twice and the two are tied together: as a step function on values (a state, an
event, the next state, with a record of everything sent out), and as a class whose fields and loops are
those of the program. Every entry point of the class is proved to take the state from one value of the
step function to the next. The theorems are about all runs of the step function; the main
ones say what comes out in terms of the events and of what has been sent.

| files | component |
|---|---|
| `depth_model`, `depth_slots`, `depth_runs`, `depth_arrivals`, `depth_confluence`, `depth_delivery`, `depth_mapping`, `depth_chain` | The RGB + IR depth chain: two IR buffers, an optional YUV buffer and RGB metadata are joined per frame in any order, submitted to the depth block and recycled. |
| `stream_groups`, `requests_tracker`, `session_model`, `session_coupling`, `session_errors`, `session_readiness`, `announcement_marks`, `session_quotas`, `session_acquired`, `session_records`, `session_flights`, `session_replies`, `session_examples`, `session` | The device session with buffer management and the throttle: two records of what is in flight, dummy buffers, suppression of errors and shutters, flushes, announcements, quotas. |
| `zsl_model`, `zsl_runs`, `zsl_forwarding`, `zsl_metadata`, `zsl_examples`, `zsl_collector` | The ZSL result collector: partial results are latched until a frame is complete; a failed frame is drained. |
| `dual_ir_model`, `dual_ir_buffers`, `dual_ir` | Dual IR: a request is split by camera and the metadata of the cameras is joined. |
| `imported_handles` | The buffer handles a session imports. |
| `sticky_modes` | Face detection and lens shading modes that stick from request to request. |
| `sensor_events`, `gyro_direct`, `sensor_history` | The sensor listener: the gyro ring buffer, the bounded event buffer and its queries. |
| `build_version` | The version number of the apex. |
| `hal_types` | Stream buffers and selecting them by stream. |

The depth chain and the ZSL collector touch one frame per step (a flush touches all), so their models are
machines of one frame and the classes are proved to step the machine of every frame at once.

## Where the code differs from what is expected of it

Each of these is stated exactly, for all inputs, by the member named first; where a second is named, it is a
short run or input that fails.

- A request that times out while waiting for its quota stays in the session's record without being
  counted by the tracker: `SessionCoupling.AdmissionCouplesIff`, `SessionExamples.TimedOutUncouples`.
- A flush that overtakes the only request in flight empties the session's record without
  NotifyFlushingAll, so that streams can be announced twice between flushes:
  `SessionReadiness.AnnouncedOncePerFlush`, `SessionExamples.FlushedIsReannounced`.
- A dummy result drops the result's input buffers and metadata: `SessionErrors.ResultBuffersReach`,
  `SessionExamples.DummyResultDrops`.
- A dummy buffer that is given back directly, or a returned buffer that was never acquired, is counted as a
  framework buffer: while others are out the acquired count becomes too low, so that more can be acquired
  than the maximum: `SessionAcquired.AlwaysExactIff`, `SessionExamples.DummyGivenBackOverdraws`. A failed
  request that takes its reservation back from such a count wraps it around:
  `SessionExamples.NeverAcquiredUnderflows`.
- A drained ZSL result that looks like a mere raw buffer loses its input buffers, and so does an error
  message: `ZslRuns.DropsInputsIff`, `ZslRuns.ErrorDropsInputsIff`, `ZslExamples.FailedFrameDropsInput`.
- An early partial result replaces the metadata kept before: `ZslForwarding.AllMetadataKeptIff`,
  `ZslExamples.LateEarlyResultReplaces`.
- A dual IR frame without a buffer for the lead camera never gets its metadata:
  `DualIrModel.MergedIffLeadAsked`, `DualIrModel.WithoutLeadNeverSent`.
- Imported buffers are looked up by the low 32 bits of their id: `ImportedHandles.ImportFaultsIff`,
  `ImportedHandles.WideIdLeaks`.
- Unmapping uses the first mapping of a stream for each of its buffers: `DepthMapping.ReleasesWhatWasMapped`.
  In orderly runs this does not matter: `DepthDelivery.PendingUnmapsExactly`.
- A second YUV buffer for an auto-calibration frame, which orderly runs rule out, makes the whole RGB result be
  withheld from the framework: `DepthDelivery.SecondYuvWithholds`.
- Equal earliest gyro timestamps at both ends of the ring are lost or misplaced: `GyroDirect.QueryCorrectIff`,
  `GyroDirect.QueryMisses`.
- Build numbers of more than eight digits all get one version, except the eng number: `BuildVersion.VersionByNumber`.

## Assumptions

- Depth chain (`DepthRuns.GoodResult`, `Novel`, `Orderly`): one result per camera stream and one metadata
  result per frame, distinct internal streams, IR results carry only their internal raw buffer, frame
  numbers are not reused, no HDR+.
- Session (`SessionCoupling.Fair`, `SessionErrors.Answering`): frame numbers are not reused, no request
  repeats a stream or group, the HWL answers for admitted frames and returns outstanding streams. Admitting
  a request and handling a result are atomic. Each theorem names only the assumptions it needs.
- Acquired buffers (`SessionAcquired.Lawful`): a buffer request gets exactly the buffers it asked for, on its
  stream, or fails once; the handle of a dummy is not that of a held buffer.
- Waits are guarded steps: they take effect if their condition holds, or time out changing nothing.
- ZSL (`ZslRuns.Orderly`, `ZslForwarding.Undisturbed`): a frame is registered once, before its results.
  Whether a raw buffer has been returned is read before the entry is erased; the program reads it after.
- Handles are distinct per import. Counters and timestamps do not wrap, except that the 32-bit lookup of
  buffer ids and the unsigned subtraction of a reservation are modelled as such.

## Model

| member | source | states |
|---|---|---|
| `DepthRuns.InternalBuffersConserved` | common/hal/google_camera_hal/rgbird_result_request_processor.cc:473-687 | In every orderly run, the internal IR and YUV buffers received for a frame are, as a multiset, those latched in its depth request plus those in the depth block plus those returned to the internal stream manager. |
| `DepthRuns.SlotsAligned` | common/hal/google_camera_hal/rgbird_result_request_processor.cc:503-596 | In every orderly run a waiting request and one in the depth block are aligned: no two filled slots share a stream, all streams are wanted ones; without metadata there is no place holder, with it there are three slots, one holds it, and only that one can hold the YUV buffer. A request in the depth block has three slots. |
| `DepthArrivals.SlotsAreArrivals` | common/hal/google_camera_hal/rgbird_result_request_processor.cc:503-596 | In every orderly run a request waits exactly while its frame was admitted with a depth buffer, not flushed since and not submitted. Until the metadata arrives its slots are the inputs that came since, in order of arrival; once it has, they are the same buffers in three slots, and only the slot with the metadata can hold the YUV buffer. |
| `DepthRuns.RunKeeps` | common/hal/google_camera_hal/rgbird_result_request_processor.cc:157-687 | The invariant behind these: typed arrivals, aligned latched and pending requests, never latched and pending at once, and conservation, for every interleaving of admissions, results, depth completions and flushes. |
| `DepthRuns.FlushReturnsLatched` | common/hal/google_camera_hal/rgbird_result_request_processor.cc:817-872 | A flush leaves nothing latched, leaves the depth block alone, and returns exactly the filled slots of the latched request. |
| `DepthSlots.InsertBufferAligned` | common/hal/google_camera_hal/rgbird_result_request_processor.cc:503-545 | Putting a buffer of a stream not yet present into an aligned request succeeds, keeps it aligned and adds exactly that buffer to the filled slots. |
| `DepthSlots.InsertMetadataAligned` | common/hal/google_camera_hal/rgbird_result_request_processor.cc:570-595 | Putting metadata into an aligned request without metadata succeeds, keeps it aligned, loses no buffer, and makes that metadata the one found. |
| `DepthSlots.ReadyIsAccepted` | common/hal/google_camera_hal/rgbird_result_request_processor.cc:397-462 | A ready aligned request meets the depth block's guard: two or three inputs, one output, configured streams. |
| `DepthConfluence.ReadyIffComplete` | common/hal/google_camera_hal/rgbird_result_request_processor.cc:406-452 | A request that has collected the arrivals is ready exactly if both IR buffers and the metadata are in, and on the auto-calibration frame also the YUV buffer and ready metadata. |
| `DepthConfluence.SubmittedWhenComplete` | common/hal/google_camera_hal/rgbird_result_request_processor.cc:397-607 | For every orderly run of an admitted frame that is not flushed before its inputs are complete, the submissions are empty until then and exactly one afterwards, with colour, ir[0], ir[1], metadata and output determined by the arrivals alone. |
| `DepthConfluence.FlushedNeverSubmitted` | common/hal/google_camera_hal/rgbird_result_request_processor.cc:817-872 | A frame that is flushed before its inputs are complete is never submitted, whatever arrives afterwards. |
| `DepthConfluence.ArrivedIffBrought` | common/hal/google_camera_hal/rgbird_result_request_processor.cc:473-596 | What has arrived for a frame is exactly what some result brought, in whatever order and batching. |
| `DepthConfluence.Confluence` | common/hal/google_camera_hal/rgbird_result_request_processor.cc:397-607 | Two runs that bring a frame the same items, in any order, batching and interleaving with other frames, submit the same depth request. |
| `DepthDelivery.RgbReachesFramework` | common/hal/google_camera_hal/rgbird_result_request_processor.cc:609-687 | An RGB result reaches the framework with exactly its framework buffers in order and its metadata, unless it is only a spare internal buffer; the internal YUV buffer never does. |
| `DepthDelivery.DepthBufferDeliveredOnce` | common/hal/google_camera_hal/rgbird_result_request_processor.cc:215-250 | In every orderly run, flushes and depth failures included, a frame's depth buffer is owed or delivered exactly once, its request is submitted at most once, and only framework streams reach the framework. |
| `DepthDelivery.DoneSettles` | common/hal/google_camera_hal/depth_process_block.cc:312-365 | Whatever the depth engine reports on a pending frame, the request leaves the depth block and all its inputs go back. |
| `DepthDelivery.CompletionDelivers` | common/hal/google_camera_hal/depth_process_block.cc:341-360 | In every orderly run, the depth engine's report on a pending frame delivers its admitted depth buffer, as it is if the engine succeeded and marked as failed if not, in one result without metadata and inputs; a report on a frame that is not pending changes nothing. |
| `DepthDelivery.FlushDelivers` | common/hal/google_camera_hal/rgbird_result_request_processor.cc:817-872 | In every orderly run, a flush delivers the admitted depth buffer of a waiting request, marked as failed, in one result, with one buffer error, and changes nothing about a frame without one. |
| `DepthDelivery.OneErrorPerFlushedRequest` | common/hal/google_camera_hal/rgbird_result_request_processor.cc:817-872 | In every run there are exactly as many buffer errors as requests that a flush found waiting. |
| `DepthDelivery.AdmissionIgnored` | common/hal/google_camera_hal/rgbird_result_request_processor.cc:215-250 | A request without a depth buffer, or for a frame whose depth request waits, changes nothing. |
| `DepthDelivery.SecondYuvWithholds` | common/hal/google_camera_hal/rgbird_result_request_processor.cc:503-545 | A second YUV buffer for an auto-calibration frame whose metadata is in makes the whole RGB result be withheld from the framework. |
| `DepthDelivery.PendingUnmapsExactly` | common/hal/google_camera_hal/depth_process_block.cc:735-793 | For every pending frame of an orderly run, every index used for unmapping is in range and the addresses unmapped are those mapped for the inputs, each once. |
| `DepthDelivery.MappingsStayBalanced` | common/hal/google_camera_hal/depth_process_block.cc:735-793 | In every orderly run no request waits for a frame in the depth block, and the inputs there are on distinct sensor streams: the conditions under which every method of the chain keeps mapped exactly the addresses of the pending frames. |
| `DepthMapping.MappedIsFiled` | common/hal/google_camera_hal/depth_process_block.cc:620-663 | Every input on a sensor stream has a mapping filed under its stream, so the lookups at index 0 are in range. |
| `DepthMapping.FiledSources` | common/hal/google_camera_hal/depth_process_block.cc:635-652 | The mappings filed under a stream are of exactly the inputs of that stream, in order. |
| `DepthMapping.ReleasesWhatWasMapped` | common/hal/google_camera_hal/depth_process_block.cc:735-793 | Unmapping releases exactly what was mapped, each address once, if and only if no two inputs are on one stream. |
| `DepthChain.FindStream` | common/hal/google_camera_hal/rgbird_result_request_processor.cc:571-577 | The search loop returns the first slot on a stream other than an excluded one, or the length. |
| `DepthChain.MarkErrors` | common/hal/google_camera_hal/depth_process_block.cc:341-347 | The loop marks exactly the buffers of the depth stream as failed. |
| `DepthChain.RgbirdDepthResultProcessor.ProcessResult` | common/hal/google_camera_hal/rgbird_depth_result_processor.cc:74-122 | Returns every input that is not a place holder, once, and delivers the result without inputs; a result with metadata is dropped. |
| `DepthChain.DepthProcessBlock.MapDepthRequestBuffers` | common/hal/google_camera_hal/depth_process_block.cc:620-663 | Maps each filled input and the depth buffer at fresh addresses and files them by stream. |
| `DepthChain.DepthProcessBlock.UnmapDepthRequestBuffers` | common/hal/google_camera_hal/depth_process_block.cc:735-793 | Succeeds exactly if all filled inputs are on sensor streams, and then releases the address filed first for each and that of the depth buffer. |
| `DepthChain.DepthProcessBlock.ProcessRequests` | common/hal/google_camera_hal/depth_process_block.cc:367-445 | Accepts a request exactly under the guard, files it as pending with a mapping made for it, and changes no other frame; if exactly the addresses of the pending frames were mapped, no two frames sharing one, they still are, unless the frame was pending already. |
| `DepthChain.DepthProcessBlock.ProcessDepthResult` | common/hal/google_camera_hal/depth_process_block.cc:312-365 | Does to the frame what the model's completion step says and to no other frame anything; if the frame's inputs are on distinct streams, exactly the addresses of the frames still pending stay mapped. |
| `DepthChain.RgbirdResultRequestProcessor.AddPendingRequests` | common/hal/google_camera_hal/rgbird_result_request_processor.cc:215-250 | Latches the first depth buffer of a request unless the frame has a request already; matches the model step for every frame. |
| `DepthChain.RgbirdResultRequestProcessor.TryReturnInternalBufferForDepth` | common/hal/google_camera_hal/rgbird_result_request_processor.cc:157-189 | Returns the YUV buffers that the frame's depth request does not need and keeps the rest in order. |
| `DepthChain.RgbirdResultRequestProcessor.ReturnInternalStreams` | common/hal/google_camera_hal/rgbird_result_request_processor.cc:313-336 | Returns every buffer that is not on a framework stream and keeps the rest in order. |
| `DepthChain.RgbirdResultRequestProcessor.VerifyAndSubmitDepthRequest` | common/hal/google_camera_hal/rgbird_result_request_processor.cc:397-471 | Submits and erases the request exactly if it is ready and accepted; the result and the new state are the model's. |
| `DepthChain.RgbirdResultRequestProcessor.InsertInput` | common/hal/google_camera_hal/rgbird_result_request_processor.cc:503-545 | Puts one buffer into the slot that keeps it aligned with the metadata, or fails. |
| `DepthChain.RgbirdResultRequestProcessor.LatchResultMetadata` | common/hal/google_camera_hal/rgbird_result_request_processor.cc:570-595 | Puts the metadata next to the YUV buffer, or behind the buffers present, and grows the slots to three. |
| `DepthChain.RgbirdResultRequestProcessor.TrySubmitDepthProcessBlockRequest` | common/hal/google_camera_hal/rgbird_result_request_processor.cc:473-607 | Latches what a result brings, stopping at the first failure, and submits if that completes the request; new state and status are the model's. |
| `DepthChain.RgbirdResultRequestProcessor.ProcessResult` | common/hal/google_camera_hal/rgbird_result_request_processor.cc:609-687 | Does to every frame what the model's result step says, over the three objects together; if exactly the addresses of the pending frames were mapped they still are, unless a request waited for a pending frame. |
| `DepthChain.RgbirdResultRequestProcessor.FlushPendingRequests` | common/hal/google_camera_hal/rgbird_result_request_processor.cc:817-872 | Does to every frame what the model's flush step says: inputs back, one buffer error, the depth buffer failed, nothing latched. |
| `StreamGroups.DeriveGroupedStreamIdMap` | common/hal/google_camera_hal/camera_device_session.cc:521-536 | Folding by the derived map is idempotent, stays within the configured streams, and identifies two streams exactly if they are equal or output streams of one group. |
| `StreamGroups.CountDistinct` | common/hal/google_camera_hal/pending_requests_tracker.cc:85-99 | Without repeated folded streams, the number of buffers counted for a stream is one or zero, by membership. |
| `RequestsTracker.PendingRequestsTracker.Initialize` | common/hal/google_camera_hal/pending_requests_tracker.cc:49-71 | Succeeds exactly if no two self-representing streams share an id, and then the three maps have these streams as keys, with their maxima and zero counts. |
| `RequestsTracker.PendingRequestsTracker.TrackRequestBuffersLocked` | common/hal/google_camera_hal/pending_requests_tracker.cc:85-99 | Adds to each configured stream the number of buffers that fold onto it. |
| `RequestsTracker.PendingRequestsTracker.TrackReturnedResultBuffers` | common/hal/google_camera_hal/pending_requests_tracker.cc:101-132 | Subtracts from each pending count the number of buffers that fold onto it, stopping at zero. |
| `RequestsTracker.PendingRequestsTracker.TrackReturnedAcquiredBuffers` | common/hal/google_camera_hal/pending_requests_tracker.cc:134-172 | Subtracts from each acquired count the number of buffers that fold onto it, stopping at zero. |
| `RequestsTracker.PendingRequestsTracker.DoStreamsHaveEnoughBuffersLocked` | common/hal/google_camera_hal/pending_requests_tracker.cc:179-197 | True exactly if every buffer's folded stream is configured and below its maximum. |
| `RequestsTracker.PendingRequestsTracker.UpdateRequestedStreamIdsLocked` | common/hal/google_camera_hal/pending_requests_tracker.cc:216-241 | Reports, each once, exactly the folded streams not requested before and all members of their groups, and records the folded streams. |
| `RequestsTracker.PendingRequestsTracker.WaitAndTrackRequestBuffers` | common/hal/google_camera_hal/pending_requests_tracker.cc:243-276 | Either all streams have quota and the request is counted and recorded, or it times out and nothing changes. |
| `RequestsTracker.PendingRequestsTracker.WaitAndTrackAcquiredBuffers` | common/hal/google_camera_hal/pending_requests_tracker.cc:278-305 | Reserves the buffers exactly if the folded stream is configured and stays within its maximum; otherwise nothing changes, with the error that applies. |
| `RequestsTracker.PendingRequestsTracker.TrackBufferAcquisitionFailure` | common/hal/google_camera_hal/pending_requests_tracker.cc:307-319 | Takes a reservation back from the folded stream, with an unsigned 32-bit subtraction. |
| `RequestsTracker.AdmissionKeepsQuotas` | common/hal/google_camera_hal/pending_requests_tracker.cc:243-276 | An admission with quota keeps every pending count zero or at most maximum - 1 + m, m bounding the buffers of a request on a stream. |
| `RequestsTracker.UnreserveUndoesReserve` | common/hal/google_camera_hal/pending_requests_tracker.cc:278-319 | Taking back a granted reservation restores the counts exactly. |
| `SessionRecords.AwaitsResultIff` | common/hal/google_camera_hal/camera_device_session.cc:1176-1208 | In every run the frames recorded as awaiting their result are exactly those whose request was recorded, was not refused by a flush that overtook it, and about which neither metadata nor a result error has been said since. |
| `SessionRecords.FirstDummyFailsFrame` | common/hal/google_camera_hal/camera_device_session.cc:1015-1102 | In every run a result of a frame makes the session say exactly one result error if it brings the frame's first observed dummy buffer while the frame awaits its result, and none otherwise. |
| `SessionRecords.NotifiedIff` | common/hal/google_camera_hal/camera_device_session.cc:1015-1047 | In every run the frames whose errors are suppressed are exactly those that have had a result with a buffer observed to be a dummy before. |
| `SessionRecords.IgnoresShutterIff` | common/hal/google_camera_hal/camera_device_session.cc:255-304 | In every run a frame's shutter will be dropped exactly if a result error has been said about the frame since its last shutter. |
| `SessionRecords.DummiesAreSeen` | common/hal/google_camera_hal/camera_device_session.cc:1764-1771 | The dummy handles remembered are exactly those observed. |
| `SessionFlights.OwesIff` | common/hal/google_camera_hal/camera_device_session.cc:115-183 | In every run a frame is recorded as owing a stream exactly if a recorded request of it uses a buffer that folds onto the stream, no flush overtook the request and no result of the frame has returned such a buffer since. |
| `SessionFlights.InFlightIff` | common/hal/google_camera_hal/camera_device_session.cc:115-183 | In every run a frame is in the record exactly as long as it owes a stream. |
| `SessionFlights.ToldToFlushIff` | common/hal/google_camera_hal/camera_device_session.cc:171-181 | In every run NotifyFlushingAll is said exactly by a result before which something was owed and after which nothing is. |
| `SessionReplies.AdmissionReplies` | common/hal/google_camera_hal/camera_device_session.cc:1268-1385 | Everything said to a request: nothing if it is malformed or times out; if it is flushed at once or has an inactive stream, kErrorRequest and one result with its inputs and its outputs failed and named by stream only; with quota at most one announcement and then the submission or, if a flush has begun, that refusal. |
| `SessionReplies.LaunchedIffFewOwe` | common/hal/google_camera_hal/pending_requests_tracker.cc:179-197 | In every orderly run without a timed-out admission before, a request that reaches the records is let through exactly if of each of its streams fewer frames than the maximum still owe a buffer. |
| `SessionReplies.ResultReplies` | common/hal/google_camera_hal/camera_device_session.cc:185-253 | In every run, everything said to a result is about its frame, but for NotifyFlushingAll; a result that has a dummy buffer, or whose frame has had one, gives the framework its outputs as failed ones, without handle and with id 0 for a dummy, one kErrorBuffer for each that looked good, and neither metadata nor inputs; any other result reaches it as it is. |
| `SessionReplies.OtherReplies` | common/hal/google_camera_hal/camera_device_session.cc:255-304 | In every run an error from below is passed on as it is unless its frame has had a dummy, a shutter unless it is to be dropped, buffers given back are passed on, and nothing is said to anything else. |
| `SessionCoupling.RunCoupled` | common/hal/google_camera_hal/camera_device_session.cc:115-183 | In every orderly run without a timed-out admission, the tracker's pending count of each stream equals the number of frames that still owe it. |
| `SessionCoupling.AdmissionCouplesIff` | common/hal/google_camera_hal/camera_device_session.cc:1323-1364 | An admission keeps the two records equal if and only if it does not time out with a buffer on a tracked stream. |
| `SessionCoupling.ResultCouples` | common/hal/google_camera_hal/camera_device_session.cc:185-253 | A result that returns outstanding streams, dummies or not, is taken out of both records. |
| `SessionCoupling.FlushedLeavesNoTrace` | common/hal/google_camera_hal/camera_device_session.cc:1347-1364 | A flush that overtakes an admission restores streams, pending results and both counts; the request is not submitted, and the log gets at most one announcement and then the refusal. |
| `SessionCoupling.RequestedBuffersReturnOnce` | common/hal/google_camera_hal/camera_device_session.cc:1015-1142 | In every orderly run, of each stream a frame's request asks for the framework has got back exactly one buffer if the frame does not owe it any more and none if it does. |
| `SessionErrors.ErrorExcludesMetadata` | common/hal/google_camera_hal/camera_device_session.cc:1015-1102 | In every run in which the hardware layer answers for admitted frames, a frame never gets both a generated result error and its metadata, nor two generated errors, nor one beside an error from below. |
| `SessionErrors.AtMostOneResultError` | common/hal/google_camera_hal/camera_device_session.cc:255-287 | If the hardware layer sends at most one result error for a frame, at most one reaches the framework. |
| `SessionErrors.ShutterNeverFollowsError` | common/hal/google_camera_hal/camera_device_session.cc:272-286 | If a frame's shutter is sent once, the framework never gets it after a result error of the frame. |
| `SessionErrors.ResultBuffersReach` | common/hal/google_camera_hal/camera_device_session.cc:185-253 | Every output buffer of a result reaches the framework once and in order, as it is or as an error buffer with its own id (0 for a dummy); kErrorBuffer is sent exactly for those with status OK; input buffers and metadata reach it exactly if the result is not a dummy result. |
| `SessionReadiness.AnnouncedOncePerFlush` | common/hal/google_camera_hal/camera_device_session.cc:1176-1208 | In a run, every two announcements of one stream have a NotifyFlushingAll between them if and only if no two launched requests share a folded stream, with no NotifyFlushingAll between them, and with an admission after the first, up to the second, that finds nothing in flight. |
| `SessionReadiness.RunTracks` | common/hal/google_camera_hal/pending_requests_tracker.cc:216-241 | In every run the streams announced since the last NotifyFlushingAll are exactly those of the requests launched since, with their groups; while anything is in flight the tracker knows no others. |
| `SessionReadiness.UnstrandedIsSeparated` | common/hal/google_camera_hal/camera_device_session.cc:171-181 | There is no such pair in a run in which no flush overtakes the only request in flight. |
| `SessionReadiness.StrandedIsReannounced` | common/hal/google_camera_hal/camera_device_session.cc:1347-1364 | Whenever a flush does overtake the only request in flight, any later request for one of its streams makes that stream announced twice, unless NotifyFlushingAll comes in between. |
| `SessionReadiness.NextRequestAnnouncesAll` | common/hal/google_camera_hal/camera_device_session.cc:171-181 | After NotifyFlushingAll the next request to be launched announces exactly the streams that fold onto one it uses, also when recorded requests have timed out in between. |
| `SessionQuotas.RunPendingWithin` | common/hal/google_camera_hal/pending_requests_tracker.cc:179-197 | In every run pending counts are zero or at most maximum - 1 + m, m bounding the buffers of a request on a stream. |
| `SessionQuotas.RunAcquiredWithin` | common/hal/google_camera_hal/pending_requests_tracker.cc:199-214 | In every run in which no reservation is taken back from a count that does not have it, acquired counts stay within the maximum. |
| `SessionAcquired.AcquiredIsReservedPlusHeld` | common/hal/google_camera_hal/pending_requests_tracker.cc:134-172 | In every run in which only held buffers are given back, the acquired count of each stream is the buffers of open reservations plus the framework buffers held below the session, no unsigned subtraction wraps and no count is clamped at zero. |
| `SessionAcquired.AlwaysExactIff` | common/hal/google_camera_hal/pending_requests_tracker.cc:134-172 | The acquired count is exact throughout a run if and only if in every return, on every stream, each buffer given back is held or nothing is out afterwards. |
| `SessionAcquired.ReturnStrays` | common/hal/google_camera_hal/camera_device_session.cc:1885-1901 | A buffer that is not held, and an observed dummy given back directly, is a return that the previous row rules out. |
| `SessionAcquired.OutWithinMaximum` | common/hal/google_camera_hal/pending_requests_tracker.cc:278-305 | In the runs of the first of these rows no more buffers of a stream are reserved or held than its maximum. |
| `SessionAcquired.ReservationGrantedIff` | common/hal/google_camera_hal/pending_requests_tracker.cc:199-214 | In the same runs a reservation is granted exactly if its stream is configured and what is out of it and the new buffers are within the maximum. |
| `SessionAcquired.RealIsNoDummy` | common/hal/google_camera_hal/camera_device_session.cc:1078-1097 | Of a dummy result exactly the buffers that are no dummies are counted as returned framework buffers. |
| `SessionAcquired.AcquiredNeverTooHigh` | common/hal/google_camera_hal/pending_requests_tracker.cc:134-172 | Whatever is given back, the acquired count is never above what is out, as long as no reservation is taken back from a count that does not have it. |
| `SessionAcquired.FailedAcquisitionRestores` | common/hal/google_camera_hal/camera_device_session.cc:1783-1883 | A buffer request that fails leaves the whole session as if it had not been made, after any events in between that go the same way without it. |
| `SessionAcquired.AcquiredApart` | common/hal/google_camera_hal/camera_device_session.cc:1783-1901 | Nothing else in the session depends on the counts of acquired buffers. |
| `SessionExamples.DummyGivenBackOverdraws` | common/hal/google_camera_hal/camera_device_session.cc:1885-1901 | A run of five events: after a dummy is given back the count says that nothing is out while a buffer is, and the next reservation puts two buffers of a stream with maximum one out. |
| `SessionExamples.NeverAcquiredUnderflows` | common/hal/google_camera_hal/pending_requests_tracker.cc:307-319 | A run of three events: a result with a buffer that was never acquired takes a reservation out of the count, and taking the reservation back leaves it at 2^32 - 1. |
| `SessionExamples.TimedOutUncouples` | common/hal/google_camera_hal/camera_device_session.cc:1323-1345 | Two requests for a stream with maximum one: the session records both, the tracker counts one. |
| `SessionExamples.FlushedIsReannounced` | common/hal/google_camera_hal/camera_device_session.cc:1347-1364 | Two requests, the first overtaken by a flush: their stream is announced twice. |
| `SessionExamples.DummyResultDrops` | common/hal/google_camera_hal/camera_device_session.cc:1015-1102 | A dummy result with metadata and an input buffer: the framework gets neither. |
| `SessionModel.Run` | common/hal/google_camera_hal/camera_device_session.cc:115-304 | The three maps of the tracker keep one key set in every run. |
| `DeviceSession.CameraDeviceSession.RefuseRequest` | common/hal/google_camera_hal/camera_device_session.cc:1104-1123 | Sends kErrorRequest and one result with every output failed, named by stream only, and the inputs. |
| `DeviceSession.CameraDeviceSession.ValidateRequest` | common/hal/google_camera_hal/camera_device_session.cc:1210-1266 | Valid exactly if there is an output and all buffers are on configured streams. |
| `DeviceSession.CameraDeviceSession.CheckRequestForStreamBufferCacheManager` | common/hal/google_camera_hal/camera_device_session.cc:1144-1208 | Refuses a request with an inactive stream, forgets announcements when nothing is in flight, and otherwise records the folded streams. |
| `DeviceSession.CameraDeviceSession.LaunchRequest` | common/hal/google_camera_hal/camera_device_session.cc:1320-1374 | Succeeds exactly with quota; then announces, and submits or, if a flush has begun, undoes the record. |
| `DeviceSession.CameraDeviceSession.ProcessCaptureRequest` | common/hal/google_camera_hal/camera_device_session.cc:1268-1385 | The whole new state and all messages are those of the model's admission step. |
| `DeviceSession.CameraDeviceSession.UpdatePendingRequest` | common/hal/google_camera_hal/camera_device_session.cc:115-183 | Looking a stream up first by its own id and then by its representative crosses off exactly the folded streams; the cache manager is told when nothing is in flight. |
| `DeviceSession.CameraDeviceSession.TryHandleDummyResult` | common/hal/google_camera_hal/camera_device_session.cc:1015-1102 | Handles a result exactly if it has a dummy buffer or its frame had one; messages, records and counts are the model's. |
| `DeviceSession.CameraDeviceSession.ProcessCaptureResult` | common/hal/google_camera_hal/camera_device_session.cc:185-253 | The whole new state and all messages are those of the model's result step. |
| `DeviceSession.CameraDeviceSession.NotifyErrorFromHwl` | common/hal/google_camera_hal/camera_device_session.cc:255-304 | Strips errors of frames that have had a dummy; a result error settles the frame and its shutter. |
| `DeviceSession.CameraDeviceSession.NotifyShutterFromHwl` | common/hal/google_camera_hal/camera_device_session.cc:281-304 | Drops a shutter that is to be ignored, once. |
| `DeviceSession.CameraDeviceSession.RequestStreamBuffers` | common/hal/google_camera_hal/camera_device_session.cc:1783-1883 | Succeeds exactly with a positive number, quota, the framework's grant and an update of the handles; without the grant the state is as it was, and without the update the buffers stay reserved as obtained. |
| `DeviceSession.CameraDeviceSession.ReturnStreamBuffers` | common/hal/google_camera_hal/camera_device_session.cc:1885-1901 | Gives the buffers back and counts them out. |
| `DeviceSession.CameraDeviceSession.ObserveBuffer` | common/hal/google_camera_hal/camera_device_session.cc:1764-1771 | Remembers the handle of a dummy buffer and nothing else. |
| `ZslRuns.OutputsConserved` | common/hal/google_camera_hal/realtime_zsl_result_request_processor.cc:94-216 | For every interleaving of results and errors, the framework buffers received for a frame are, as a multiset, those latched plus those delivered directly plus those forwarded. |
| `ZslRuns.RawBuffersStayInternal` | common/hal/google_camera_hal/realtime_zsl_result_request_processor.cc:117-140 | Every raw buffer goes to the internal stream manager, once and in order, and is never latched, delivered or forwarded. |
| `ZslRuns.InputsAccountedFor` | common/hal/google_camera_hal/realtime_zsl_result_request_processor.cc:357-417 | Input buffers received are those latched, delivered, forwarded, or dropped by a drain. |
| `ZslRuns.DropsInputsIff` | common/hal/google_camera_hal/realtime_zsl_result_request_processor.cc:409-413 | A result loses input buffers exactly if the frame has failed, a raw buffer was returned, there is no metadata and no framework buffer, and there is an input. |
| `ZslRuns.ErrorDropsInputsIff` | common/hal/google_camera_hal/realtime_zsl_result_request_processor.cc:301-355 | An error message loses latched input buffers exactly if the frame has failed, by it or before, its raw buffer was received and returned, and only inputs are latched. |
| `ZslExamples.FailedFrameDropsInput` | common/hal/google_camera_hal/realtime_zsl_result_request_processor.cc:409-413 | A failed frame whose raw buffer comes back with an input buffer: the input reaches nobody. |
| `ZslExamples.LateEarlyResultReplaces` | common/hal/google_camera_hal/realtime_zsl_result_request_processor.cc:170-188 | The final partial result overtakes the early one: the frame is forwarded without its final metadata. |
| `ZslForwarding.ForwardedWhenComplete` | common/hal/google_camera_hal/realtime_zsl_result_request_processor.cc:36-43 | In every run without a failing error, the frame is forwarded exactly at the first moment its raw buffer (if expected), all framework buffers and all partial results are in, with what was collected, and not before. |
| `ZslForwarding.ForwardedAtMostOnce` | common/hal/google_camera_hal/realtime_zsl_result_request_processor.cc:206-215 | A frame is forwarded at most once, whatever errors it has (fewer than INT_MAX buffers). |
| `ZslForwarding.ErrorFirstNeverForwarded` | common/hal/google_camera_hal/realtime_zsl_result_request_processor.cc:311-343 | A frame whose request or buffer error comes before it is forwarded is never forwarded. |
| `ZslForwarding.AllMetadataKeptIff` | common/hal/google_camera_hal/realtime_zsl_result_request_processor.cc:170-188 | The kept metadata is all of it if and only if no early partial result came after another one. |
| `ZslMetadata.MetadataAccountedFor` | common/hal/google_camera_hal/realtime_zsl_result_request_processor.cc:94-417 | In every run, errors included, each piece of metadata received for a frame is latched, delivered, forwarded, or replaced by an early partial result that came after it: exactly one of these. |
| `ZslMetadata.FailedFrameDelivers` | common/hal/google_camera_hal/realtime_zsl_result_request_processor.cc:357-417 | A result of a failed frame goes to the framework at once, unless only a raw buffer has come back: its own metadata followed by what was latched, its own buffers in front of the latched ones, and the partial count of the metadata; both entries go exactly if the error entry is complete, and otherwise the pending one is emptied. |
| `ZslMetadata.ErrorDelivers` | common/hal/google_camera_hal/realtime_zsl_result_request_processor.cc:301-355 | An error message fails the frame exactly if it is about the request or a buffer, one about the request counting as a partial result; a failed frame whose raw buffer has been received is drained at once. |
| `ZslCollector.RealtimeZslResultRequestProcessor.UpdateOutputBufferCount` | common/hal/google_camera_hal/realtime_zsl_result_request_processor.cc:74-92 | Registers the frame with its buffer count; matches the model step for every frame. |
| `ZslCollector.RealtimeZslResultRequestProcessor.ReturnRawBuffers` | common/hal/google_camera_hal/realtime_zsl_result_request_processor.cc:117-140 | Splits a result into raw buffers, returned in order, and the rest, and notes what was returned. |
| `ZslCollector.RealtimeZslResultRequestProcessor.ProcessResult` | common/hal/google_camera_hal/realtime_zsl_result_request_processor.cc:94-216 | Does to every frame what the model's arrival step says. |
| `ZslCollector.RealtimeZslResultRequestProcessor.LatchResult` | common/hal/google_camera_hal/realtime_zsl_result_request_processor.cc:170-215 | Latches a result, new buffers in front, and forwards the frame if that completes it. |
| `ZslCollector.RealtimeZslResultRequestProcessor.CombineErrorAndPendingEntriesToResult` | common/hal/google_camera_hal/realtime_zsl_result_request_processor.cc:357-393 | Joins the latched data to the result, overwrites the error entry with it and empties the pending entry. |
| `ZslCollector.RealtimeZslResultRequestProcessor.ReturnResultDirectlyForFramesWithErrors` | common/hal/google_camera_hal/realtime_zsl_result_request_processor.cc:395-417 | Drains the frame to the framework and erases both entries when the error entry is complete. |
| `ZslCollector.RealtimeZslResultRequestProcessor.Notify` | common/hal/google_camera_hal/realtime_zsl_result_request_processor.cc:301-355 | Does to every frame what the model's failure step says, for messages that do not dereference a missing request. |
| `DualIr.DualIrRequestProcessor.ConfigureStreams` | common/hal/google_camera_hal/dual_ir_request_processor.cc:60-88 | Logical streams are handed on as physical streams of the lead camera and every stream's camera is recorded. |
| `DualIr.DualIrRequestProcessor.ProcessRequest` | common/hal/google_camera_hal/dual_ir_request_processor.cc:108-151 | The block requests are the split of the outputs: one per camera with a buffer, ascending, each with its buffers in order; unknown streams go to camera 0. |
| `DualIrModel.SplitConserves` | common/hal/google_camera_hal/dual_ir_request_processor.cc:118-148 | In a split every output buffer is in exactly one block request. |
| `DualIrModel.SplitUnique` | common/hal/google_camera_hal/dual_ir_request_processor.cc:118-148 | A request has only one split. |
| `DualIrBuffers.AssignedIsLast` | common/hal/google_camera_hal/dual_ir_request_processor.cc:60-88 | The last configuration of a stream decides its camera: its own if the stream is physical, the given camera if not. |
| `DualIrBuffers.OthersKeepOwner` | common/hal/google_camera_hal/dual_ir_request_processor.cc:60-88 | A stream that is not configured anew keeps its camera. |
| `DualIrBuffers.BlockHolds` | common/hal/google_camera_hal/dual_ir_request_processor.cc:108-151 | A block request of a split has exactly the buffers whose stream is recorded for its camera, those of unknown streams being for camera 0. |
| `DualIrBuffers.OnCameraConcat` | common/hal/google_camera_hal/dual_ir_request_processor.cc:118-135 | The buffers for a camera are in the order of the request. |
| `DualIr.DualIrResultRequestProcessor.constructor` | common/hal/google_camera_hal/dual_ir_result_request_processor.cc:53-67 | The framework's view of the streams: physical ones by camera, all others by the logical camera. |
| `DualIr.DualIrResultRequestProcessor.AddPendingRequests` | common/hal/google_camera_hal/dual_ir_result_request_processor.cc:118-148 | Refuses exactly the requests that leave a remaining buffer out; otherwise waits for exactly the physical cameras whose framework streams the block requests use. |
| `DualIrBuffers.NeededIff` | common/hal/google_camera_hal/dual_ir_result_request_processor.cc:98-148 | The cameras waited for are exactly those, other than the logical one, that own the framework stream of a buffer in a block request. |
| `DualIr.AreAllRemainingBuffersRequested` | common/hal/utils/hal_utils.cc:117-155 | True exactly if every remaining buffer is in some block request, by its handle, or by its stream if it has none. |
| `DualIr.SplitIsRequested` | common/hal/google_camera_hal/dual_ir_request_processor.cc:108-151 | The block requests of a split are never refused. |
| `DualIr.DualIrResultRequestProcessor.TrySendingResultMetadata` | common/hal/google_camera_hal/dual_ir_result_request_processor.cc:150-192 | Sends the merged metadata and forgets the frame exactly if no metadata is missing. |
| `DualIr.DualIrResultRequestProcessor.ProcessResultMetadata` | common/hal/google_camera_hal/dual_ir_result_request_processor.cc:194-253 | Files an answer and tries to send; fails exactly for unknown frames and duplicate answers. |
| `DualIr.DualIrResultRequestProcessor.ProcessResult` | common/hal/google_camera_hal/dual_ir_result_request_processor.cc:255-291 | Joins the metadata and passes the buffers on at once; matches the model step for every frame. |
| `DualIrBuffers.BuffersPassOn` | common/hal/google_camera_hal/dual_ir_result_request_processor.cc:285-290 | In every run the framework gets exactly the output buffers of all answers for the frame, in order, whatever becomes of the metadata. |
| `DualIrBuffers.AllBuffersComeBack` | common/hal/google_camera_hal/dual_ir_result_request_processor.cc:255-291 | If each camera answers with the buffers of its block request and no other camera answers, the framework gets back exactly the buffers of the request. |
| `DualIrModel.JoinedOnce` | common/hal/google_camera_hal/dual_ir_result_request_processor.cc:98-253 | For any order and repetition of answers, the merged metadata is sent at most once, exactly when the lead camera and every framework-requested physical camera have answered, with the first answer of each and no other entries. |
| `DualIrModel.JoinConfluence` | common/hal/google_camera_hal/dual_ir_result_request_processor.cc:194-253 | Runs with the same first answers send the same metadata. |
| `DualIrModel.SplitNeedsTheSame` | common/hal/google_camera_hal/dual_ir_result_request_processor.cc:98-148 | The block requests of a split need exactly the cameras the whole request needs. |
| `DualIrModel.ConfigurationsAgree` | common/hal/google_camera_hal/dual_ir_result_request_processor.cc:53-67 | The two processors' stream maps agree if no physical stream carries the logical camera's id. |
| `DualIrModel.MergedIffLeadAsked` | common/hal/google_camera_hal/dual_ir_request_processor.cc:118-148 | If only cameras with a block request answer: without a buffer for the lead camera the metadata is never sent, with one it is sent once all cameras asked have answered. |
| `DualIrModel.WithoutLeadNeverSent` | common/hal/google_camera_hal/dual_ir_result_request_processor.cc:150-192 | A request with one buffer, on a physical stream of another camera: that camera's metadata is kept and nothing is sent. |
| `ImportedHandles.RunKeepsPlaces` | common/hal/google_camera_hal/camera_device_session.cc:903-962 | In every run, each handle imported has been freed, or is recorded under exactly one key, or is lost: exactly one of these. |
| `ImportedHandles.RecordedIff` | common/hal/google_camera_hal/camera_device_session.cc:903-1519 | In every run a buffer is recorded exactly if it was imported while nothing was recorded under its truncated id, and since then was not removed, its stream did not cease to be configured and nothing was destroyed; the configured streams are those of the last successful configuration without those a later failed one left out. |
| `ImportedHandles.OneHandlePerRecorded` | common/hal/google_camera_hal/camera_device_session.cc:903-1519 | In every run with ids below 2^32 the handles not freed are exactly those of the recorded buffers, one for each. |
| `ImportedHandles.ImportsUntilFailure` | common/hal/google_camera_hal/camera_device_session.cc:926-962 | The imports of one request are made in order up to and including the first that fails. |
| `ImportedHandles.LiveHandleIsStable` | common/hal/google_camera_hal/camera_device_session.cc:1394-1411 | Over any run in which its key stays recorded, a handle does not change and is not freed. |
| `ImportedHandles.NoStaleKeys` | common/hal/google_camera_hal/camera_device_session.cc:1490-1519 | In every run that imports for configured streams only, no key of a stream that is not configured is left. |
| `ImportedHandles.ImportFaultsIff` | common/hal/google_camera_hal/camera_device_session.cc:1387-1411 | An import fails and leaks its handle exactly if the buffer is recorded but its truncated id is not; it is skipped for an unrecorded buffer exactly if its truncated id is recorded; neither happens to ids below 2^32. |
| `ImportedHandles.NothingLost` | common/hal/google_camera_hal/camera_device_session.cc:926-962 | With ids below 2^32 no handle is ever lost. |
| `ImportedHandles.DestructionFreesAll` | common/hal/google_camera_hal/camera_device_session.cc:563-584 | With ids below 2^32 destruction leaves no handle outstanding. |
| `ImportedHandles.WideIdLeaks` | common/hal/google_camera_hal/camera_device_session.cc:926-962 | Importing one buffer with a wider id twice leaves a handle outstanding after destruction. |
| `ImportedHandles.ImportedBufferHandles.ImportBufferHandle` | common/hal/google_camera_hal/camera_device_session.cc:903-962 | Imports a buffer unless its truncated id is recorded; the new state and status are the model's. |
| `ImportedHandles.ImportedBufferHandles.ImportBufferHandles` | common/hal/google_camera_hal/camera_device_session.cc:926-962 | Imports several buffers in order, stopping at the first failure. |
| `ImportedHandles.ImportedBufferHandles.RemoveBufferCache` | common/hal/google_camera_hal/camera_device_session.cc:1413-1448 | Frees and forgets a recorded buffer, ignores others. |
| `ImportedHandles.ImportedBufferHandles.FreeBufferHandles` | common/hal/google_camera_hal/camera_device_session.cc:1450-1467 | Frees each handle of one stream once and forgets exactly its keys. |
| `ImportedHandles.ImportedBufferHandles.CleanupStaleStreams` | common/hal/google_camera_hal/camera_device_session.cc:1490-1519 | Forgets the streams that are not in the new configuration and frees exactly their handles. |
| `ImportedHandles.ImportedBufferHandles.ConfigureStreams` | common/hal/google_camera_hal/camera_device_session.cc:690-756 | Cleans up stale streams and, if a capture session can be made, records the new ones. |
| `ImportedHandles.ImportedBufferHandles.FreeImportedBufferHandles` | common/hal/google_camera_hal/camera_device_session.cc:1469-1488 | Frees every recorded handle once. |
| `GyroDirect.QueryCorrectIff` | common/sensor_listener/goog_gyro_direct.cc:225-255 | For any rotation of a chronological ring with unused slots and a non-negative start, the query returns exactly the events of the interval, each once, in order, if and only if the interval does not include the earliest timestamp while this is at both ends of the buffer and not everywhere. |
| `GyroDirect.FromOldest` | common/sensor_listener/goog_gyro_direct.cc:242-255 | Scanning from the oldest event, the early break loses nothing. |
| `GyroDirect.FromZeroFails` | common/sensor_listener/goog_gyro_direct.cc:228-236 | When equal earliest timestamps straddle the ends of the buffer, the query loses the first of them or returns them last. |
| `GyroDirect.QueryMisses` | common/sensor_listener/goog_gyro_direct.cc:228-255 | Slots with timestamps 1, 2, 1, the oldest event in slot 2: the query for (0, 1] misses it. |
| `GyroDirect.GoogGyroDirect.FindHead` | common/sensor_listener/goog_gyro_direct.cc:225-240 | Finds the first used slot with the earliest timestamp, or reports that no slot is used. |
| `GyroDirect.GoogGyroDirect.ScanFrom` | common/sensor_listener/goog_gyro_direct.cc:242-255 | The modular scan fills the five vectors with the scan of the rotated ring. |
| `GyroDirect.GoogGyroDirect.QueryGyroEventsBetweenTimestamps` | common/sensor_listener/goog_gyro_direct.cc:203-256 | The five vectors have one length and describe the scan from the head; without a buffer or a used slot they are empty. |
| `SensorHistory.SensorListener.EventCallback` | common/sensor_listener/goog_sensor_wrapper.cc:169-193 | The buffer is always the last min(limit, n) accepted events; events of other sensors and additional info are not accepted. |
| `SensorHistory.SensorListener.GetLatestNSensorEvents` | common/sensor_listener/goog_sensor_motion.cc:110-136 | The five vectors describe the last min(n, limit) events of the whole history; a negative number gives none. |
| `SensorHistory.SensorListener.QuerySensorEventsBetweenTimestamps` | common/sensor_listener/goog_sensor_motion.cc:138-168 | The five vectors describe the buffered events of the half-open interval, in order. |
| `SensorEvents.BetweenChronological` | common/sensor_listener/goog_sensor_motion.cc:157-167 | A chronological history is queried in chronological order. |
| `SensorHistory.SensorListener.FindNearestEvent` | common/sensor_listener/goog_sensor_sync.cc:211-228 | While enabled, finds the first of the closest events under the drift limit; otherwise nothing. |
| `SensorHistory.SensorListener.SyncTimestamp` | common/sensor_listener/goog_sensor_sync.cc:171-209 | Returns the timestamp of the event FindNearestEvent finds, or the input; the two counters count syncs and failures and start again at the threshold. |
| `SensorHistory.NearestIsClosest` | common/sensor_listener/goog_sensor_sync.cc:217-227 | An event is found exactly if one is less than 10 ms away, and no other is closer. |
| `SensorHistory.FoundIff` | common/sensor_listener/goog_sensor_sync.cc:211-228 | An event is found exactly if one has a timestamp less than 10,000,000 ns before or after. |
| `SensorHistory.NearestIsFirstClosest` | common/sensor_listener/goog_sensor_sync.cc:217-227 | No event is strictly nearer than the one found, and none before it is as near. |
| `SensorHistory.NearestOfLatest` | common/sensor_listener/goog_sensor_sync.cc:217-227 | The bounded buffer answers like the full history if each dropped event is out of range or farther than a kept one. |
| `StickyModes.RunRemembers` | common/hal/google_camera_hal/realtime_zsl_result_processor.cc:68-148 | In every run, each frame whose final result is to come is remembered with the mode last set at or before its first request since, and no other frame is. |
| `StickyModes.ResultAnswered` | common/hal/google_camera_hal/realtime_zsl_result_processor.cc:170-254 | In every run, what each result adds: raw buffers and the metadata without the ZSL key go to the internal stream manager; the rest is delivered with the inputs unless the result had only raw buffers; ZSL is said to be off exactly in the final metadata; face mode, rectangles and scores (lens shading mode and map) are stripped exactly from the final metadata of a RAW10 session whose frame's mode was off, and every other field is kept. |
| `StickyModes.FinalResultForgets` | common/hal/google_camera_hal/realtime_zsl_result_processor.cc:85-148 | After its final result a frame is forgotten by both. |
| `StickyModes.RequestAnswersNothing` | common/hal/google_camera_hal/realtime_zsl_result_processor.cc:150-168 | A request adds nothing to what has been returned, kept and delivered. |
| `StickyModes.OpenModeIsStable` | common/hal/google_camera_hal/realtime_zsl_result_processor.cc:68-148 | Requests and results of other frames and early results do not change that. |
| `StickyModes.RealtimeZslResultProcessor.AddPendingRequests` | common/hal/google_camera_hal/realtime_zsl_result_processor.cc:150-168 | Saves both modes of a request on RAW10 sessions, keeping a mode already saved for the frame; refuses requests that leave buffers out. |
| `StickyModes.RealtimeZslResultProcessor.HandleFdResultForHdrplus` | common/hal/google_camera_hal/realtime_zsl_result_processor.cc:126-148 | If the saved mode is off, removes rectangles and scores and sets the mode to off where there is one; all other fields stay; the frame is forgotten. |
| `StickyModes.RealtimeZslResultProcessor.HandleLsResultForHdrplus` | common/hal/google_camera_hal/realtime_zsl_result_processor.cc:85-107 | If the saved mode is off, removes the map and sets the mode to off where there is one; all other fields stay; the frame is forgotten. |
| `StickyModes.RealtimeZslResultProcessor.ProcessResult` | common/hal/google_camera_hal/realtime_zsl_result_processor.cc:170-254 | The whole new state, what the internal stream manager gets and what is delivered are those of the model's result step. |
| `BuildVersion.TameBox` | common/hal/aidl_service/version_script.py:28-35 | The result is between 1 and the eng number and leaves numbers in that range alone. |
| `BuildVersion.ValueOfDecimal` | common/hal/aidl_service/version_script.py:63-68 | Reading a printed number gives it back. |
| `BuildVersion.ValueOfBranch` | common/hal/aidl_service/version_script.py:63-68 | Concatenating the branch digit and the zero-filled number adds the branch digit above its digits. |
| `BuildVersion.VersionByNumber` | common/hal/aidl_service/version_script.py:38-71 | The version of every regular and pending build id: 400000000 + n exactly for up to eight digits, the bad build number beyond, 400000001 for zero. |
| `BuildVersion.VersionsIncreaseIff` | common/hal/aidl_service/version_script.py:28-71 | When a later build number gets a higher version, exactly: always for an earlier number of up to eight digits. |
| `BuildVersion.VersionInRange` | common/hal/aidl_service/version_script.py:28-71 | Every version of every build string is between 400000001 and INT_MAX. |
| `BuildVersion.EngAboveAll` | common/hal/aidl_service/version_script.py:42-58 | No version is above that of an eng build, and only an eng build or the eng number itself reaches it. |

## Left out

- DepthConfluence.Confluence: for sessions without forced internal streams, where no depth request ever becomes ready, and for frames that are not flushed before their inputs are complete; those are never submitted (`DepthConfluence.FlushedNeverSubmitted`).
- DepthChain.DepthProcessBlock.ProcessRequests: does not model the block's own refusal in forced internal mode, in which no request becomes ready, nor the acquisition of the depth stream's buffer from the framework.
- DepthChain.RgbirdResultRequestProcessor.VerifyAndSubmitDepthRequest: does not model the wait for the fence of the depth buffer, which can fail the submission.
- ZslForwarding.ForwardedWhenComplete: for frames with fewer than INT_MAX framework buffers, the count an unregistered entry waits for.
- ZslCollector.RealtimeZslResultRequestProcessor.Notify: an error other than kErrorRequest and kErrorBuffer on a latched frame that has no error entry dereferences a null request in the program; the method is not defined for it.
- DeviceSession.CameraDeviceSession.ValidateRequest: does not model the check of the first request's settings and of input sizes.
- DeviceSession.CameraDeviceSession.ProcessCaptureRequest: one request at a time; the announcements of one request are one message, because their order is not determined.
- SensorHistory.SensorListener.SyncTimestamp: 64-bit overflow of a difference of timestamps is not modelled.
- GyroDirect.QueryCorrectIff: for events with positive timestamps below LLONG_MAX.
- Cleanup of ZSL error entries: the program overwrites instead of accumulating, so entries can persist. When they go is stated exactly (`ZslMetadata.FailedFrameDelivers`), that they always go is not claimed.
- The HDR+ result path of the RGB + IR processor and its face and lens shading modes, which repeat those of the ZSL result processor.
- The depth block's crop region, aspect ratios, buffer management and blocking interface; a blocking engine is a completion right after the submission.
- Failed submissions to the HWL, failed mappings and failed clones, which keep mappings.
- The session without buffer management, which passes results through.
- Fences, gralloc and mmap (mapping hands out fresh addresses), Binder, AIDL and HIDL conversion, locks and threads.
- ResultDispatcher, StreamBufferCacheManager, InternalStreamManager, ZoomRatioMapper and HdrplusRequestProcessor beyond the calls made to them.
- Liveness: that a wait ends or that a result comes is never claimed.
- Metadata contents beyond identity, presence, the auto-calibration tags and the face and lens shading fields.
- GoogSensorSync::GetLatestNSamples and MatchTimestamp, which repeat loops that are modelled; sensor registration and the event processor callback.
- The vector of physical metadata in a merged dual IR result is a map from camera to metadata, so its ascending order is not stated.
- GoogSensorWrapper, GoogSensorMotion and GoogSensorSync are one class here; the program derives the last two from the first.
- Reading and writing the manifest in version_script.py, and the replacement of its place holders.
- SelectWidthAndHeight of the ZSL request processor: its aspect ratio test is done on unsigned numbers and always holds.
