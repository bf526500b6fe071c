// CameraDeviceSession as a class. Each entry point is proved to do what SessionModel says.
module DeviceSession {
  import opened HalTypes
  import opened StreamGroups
  import opened RequestsTracker
  import opened SessionModel

  // The framework callbacks, the stream buffer cache manager and the capture session, with a record
  // of what they are told.
  class Callbacks {
    ghost var log: seq<Message>

    constructor ()
      ensures log == []
    {
      log := [];
    }

    method Send(m: Message)
      modifies this
      ensures log == old(log) + [m]
    {
      log := log + [m];
    }

    // The announcements of one request, as one batch: each of `ids` once, in no particular order.
    method NotifyProviderReadiness(first: seq<int>, ghost ids: set<int>)
      requires NoDuplicates(first) && forall x :: x in first <==> x in ids
      modifies this
      ensures log == old(log) + Announcement(ids)
    {
      log := log + Announcement(ids);
    }
  }

  class CameraDeviceSession {
    const cfg: Config
    const tracker: PendingRequestsTracker
    const callbacks: Callbacks
    var pendingRequestStreams: map<nat, set<int>>
    var pendingResults: set<nat>
    var ignoreShutters: set<nat>
    var errorNotifiedRequests: set<nat>
    var dummyBufferObserved: set<nat>

    // Records are kept under representative streams only.
    ghost predicate Valid()
      reads this, tracker
    {
      && tracker.Valid() && tracker.Quota() == cfg.quotas
      && forall f, id :: f in pendingRequestStreams && id in pendingRequestStreams[f] ==> id !in cfg.Groups()
    }

    ghost function State(): Session
      reads this, tracker, callbacks
    {
      Session(pendingRequestStreams, pendingResults, ignoreShutters, errorNotifiedRequests, dummyBufferObserved,
              tracker.State(), callbacks.log)
    }

    constructor (cfg: Config, tracker: PendingRequestsTracker, callbacks: Callbacks)
      requires tracker.Valid() && tracker.Quota() == cfg.quotas && callbacks.log == []
      requires tracker.State() == Initial(cfg).counts
      ensures Valid() && this.cfg == cfg && this.tracker == tracker && this.callbacks == callbacks
      ensures State() == Initial(cfg)
    {
      this.cfg := cfg;
      this.tracker := tracker;
      this.callbacks := callbacks;
      pendingRequestStreams := map[];
      pendingResults := {};
      ignoreShutters := {};
      errorNotifiedRequests := {};
      dummyBufferObserved := {};
    }

    // ---------- Requests ----------

    // Refuse a request: an error message, and every buffer goes back as failed.
    method RefuseRequest(frame: nat, outputs: seq<StreamBuffer>, inputs: seq<StreamBuffer>)
      modifies callbacks
      ensures callbacks.log == old(callbacks.log) + Refusal(frame, outputs, inputs)
    {
      callbacks.Send(ErrorOut(frame, INVALID_STREAM_ID, ErrorRequest, Generated));
      var failed := [];
      for i := 0 to |outputs|
        invariant failed == AllFailed(outputs)[..i]
        invariant callbacks.log == old(callbacks.log) + [ErrorOut(frame, INVALID_STREAM_ID, ErrorRequest, Generated)]
      {
        failed := failed + [StreamBuffer(outputs[i].streamId, 0, 0, BufferError)];
      }
      assert failed == AllFailed(outputs);
      callbacks.Send(ResultOut(frame, false, failed, inputs));
    }

    method ValidateRequest(outputs: seq<StreamBuffer>, inputs: seq<StreamBuffer>) returns (ok: bool)
      ensures ok <==> IsValidRequest(cfg, outputs, inputs)
    {
      if outputs == [] {
        return false;
      }
      var unknown := UsesUnknown(inputs);
      if !unknown {
        unknown := UsesUnknown(outputs);
      }
      ok := !unknown;
    }

    method UsesUnknown(buffers: seq<StreamBuffer>) returns (unknown: bool)
      ensures unknown <==> exists b :: b in buffers && b.streamId !in cfg.configured
    {
      for i := 0 to |buffers|
        invariant forall k :: 0 <= k < i ==> buffers[k].streamId in cfg.configured
      {
        if buffers[i].streamId !in cfg.configured {
          return true;
        }
      }
      unknown := false;
    }

    method AllActive(outputs: seq<StreamBuffer>, inactive: set<int>) returns (active: bool)
      ensures active <==> forall b :: b in outputs ==> b.streamId !in inactive
    {
      for i := 0 to |outputs|
        invariant forall k :: 0 <= k < i ==> outputs[k].streamId !in inactive
      {
        if outputs[i].streamId in inactive {
          return false;
        }
      }
      active := true;
    }

    // Add the streams of a request to the records, folded by group.
    method AddPending(frame: nat, outputs: seq<StreamBuffer>)
      requires Valid() && outputs != []
      modifies this`pendingRequestStreams, this`pendingResults
      ensures Valid()
      ensures State() == Register(cfg, old(State()), frame, outputs)
    {
      pendingResults := pendingResults + {frame};
      ghost var owed := Owed(State(), frame);
      ghost var before := pendingRequestStreams;
      for i := 0 to |outputs|
        invariant Valid() && pendingResults == old(pendingResults) + {frame}
        invariant i == 0 ==> pendingRequestStreams == before
        invariant i > 0 ==> pendingRequestStreams == before[frame := owed + FoldsOf(cfg.Groups(), outputs[..i])]
      {
        FoldsLast(cfg.Groups(), outputs[..i + 1]);
        assert outputs[..i + 1][..i] == outputs[..i];
        var ids := if frame in pendingRequestStreams then pendingRequestStreams[frame] else {};
        var id := outputs[i].streamId;
        if id in cfg.Groups() { id := cfg.Groups()[id]; }
        assert ids == owed + FoldsOf(cfg.Groups(), outputs[..i]);
        assert ids + {id} == owed + FoldsOf(cfg.Groups(), outputs[..i + 1]);
        pendingRequestStreams := pendingRequestStreams[frame := ids + {id}];
      }
      assert outputs[..|outputs|] == outputs;
    }

    method CheckRequestForStreamBufferCacheManager(frame: nat, outputs: seq<StreamBuffer>, inputs: seq<StreamBuffer>,
                                                   inactive: set<int>) returns (needToProcess: bool)
      requires Valid() && outputs != []
      modifies this`pendingRequestStreams, this`pendingResults, tracker, callbacks
      ensures Valid()
      ensures needToProcess <==> forall b :: b in outputs ==> b.streamId !in inactive
      ensures State() ==
              if needToProcess then Register(cfg, Refreshed(old(State())), frame, outputs)
              else Refreshed(Say(old(State()), Refusal(frame, outputs, inputs)))
    {
      needToProcess := AllActive(outputs, inactive);
      if !needToProcess {
        RefuseRequest(frame, outputs, inputs);
      }
      if pendingRequestStreams == map[] {
        tracker.OnBufferCacheFlushed();
      }
      if needToProcess {
        AddPending(frame, outputs);
      }
    }

    // A recorded request that has got its quota is submitted, unless a flush has begun meanwhile.
    method LaunchRequest(frame: nat, outputs: seq<StreamBuffer>, inputs: seq<StreamBuffer>, flushing: bool)
      returns (ok: bool)
      requires Valid()
      modifies this`pendingRequestStreams, this`pendingResults, tracker, callbacks
      ensures Valid()
      ensures ok == Enough(cfg.quotas, old(State()).counts, outputs)
      ensures State() == if ok then Launch(cfg, old(State()), frame, outputs, inputs, flushing) else old(State())
    {
      ghost var s := State();
      var status, first := tracker.WaitAndTrackRequestBuffers(outputs);
      if !status.Ok? {
        return false;
      }
      callbacks.NotifyProviderReadiness(first, FirstRequested(cfg.quotas, s.counts, outputs));
      if flushing {
        pendingRequestStreams := pendingRequestStreams - {frame};
        pendingResults := pendingResults - {frame};
        RefuseRequest(frame, outputs, inputs);
        tracker.TrackReturnedResultBuffers(outputs);
      } else {
        callbacks.Send(Submitted(frame, outputs));
      }
      ok := true;
    }

    // One request. `inactive` is what the cache manager says about its streams; the two flags are
    // the flush status before and after the wait for the quota.
    method ProcessCaptureRequest(frame: nat, outputs: seq<StreamBuffer>, inputs: seq<StreamBuffer>,
                                 flushingBefore: bool, inactive: set<int>, flushingAfter: bool)
      returns (ok: bool)
      requires Valid()
      modifies this`pendingRequestStreams, this`pendingResults, tracker, callbacks
      ensures Valid()
      ensures
        var active := forall b :: b in outputs ==> b.streamId !in inactive;
        State() == Step(cfg, old(State()), Admit(frame, outputs, inputs, flushingBefore, active, flushingAfter))
    {
      ok := ValidateRequest(outputs, inputs);
      if !ok {
        return;
      }
      if flushingBefore {
        RefuseRequest(frame, outputs, inputs);
        return;
      }
      var needToProcess := CheckRequestForStreamBufferCacheManager(frame, outputs, inputs, inactive);
      if needToProcess {
        ok := LaunchRequest(frame, outputs, inputs, flushingAfter);
      }
    }

    // ---------- Results ----------

    // Cross the result's streams off. A stream that is not in the record may be there under its
    // group's representative.
    method UpdatePendingRequest(frame: nat, outputs: seq<StreamBuffer>)
      requires Valid()
      modifies this`pendingRequestStreams, callbacks
      ensures Valid()
      ensures State() == Update(cfg, old(State()), frame, outputs)
    {
      if outputs == [] || frame !in pendingRequestStreams {
        return;
      }
      var streams := pendingRequestStreams[frame];
      for i := 0 to |outputs|
        invariant Valid() && State() == old(State())
        invariant streams == pendingRequestStreams[frame] - FoldsOf(cfg.Groups(), outputs[..i])
      {
        FoldsLast(cfg.Groups(), outputs[..i + 1]);
        assert outputs[..i + 1][..i] == outputs[..i];
        var id := outputs[i].streamId;
        if id !in streams {
          if id in cfg.Groups() {
            streams := streams - {cfg.Groups()[id]};
          }
        } else {
          streams := streams - {id};
        }
      }
      assert outputs[..|outputs|] == outputs;
      if streams == {} {
        pendingRequestStreams := pendingRequestStreams - {frame};
      } else {
        pendingRequestStreams := pendingRequestStreams[frame := streams];
      }
      if pendingRequestStreams == map[] {
        callbacks.Send(FlushingAll);
      }
    }

    method SeesDummy(outputs: seq<StreamBuffer>) returns (dummy: bool)
      ensures dummy <==> HasDummy(dummyBufferObserved, outputs)
    {
      for i := 0 to |outputs|
        invariant forall k :: 0 <= k < i ==> outputs[k].handle !in dummyBufferObserved
      {
        if outputs[i].handle in dummyBufferObserved {
          return true;
        }
      }
      dummy := false;
    }

    // Return each buffer of a dummy result as an error, and count out those that were real.
    method ReturnDummyBuffers(frame: nat, outputs: seq<StreamBuffer>)
      requires Valid()
      modifies tracker, callbacks
      ensures Valid()
      ensures tracker.State() == Returned(cfg, old(tracker.State()), outputs, Real(dummyBufferObserved, outputs))
      ensures callbacks.log == old(callbacks.log) + ErrorMessages(dummyBufferObserved, frame, outputs)
    {
      var acquired := [];
      for i := 0 to |outputs|
        invariant Valid() && tracker.State() == old(tracker.State())
        invariant acquired == Real(dummyBufferObserved, outputs[..i])
        invariant callbacks.log == old(callbacks.log) + ErrorMessages(dummyBufferObserved, frame, outputs[..i])
      {
        assert outputs[..i + 1][..i] == outputs[..i];
        ReturnDummyBuffer(frame, outputs[i]);
        if outputs[i].handle !in dummyBufferObserved {
          acquired := acquired + [outputs[i]];
        }
      }
      assert outputs[..|outputs|] == outputs;
      tracker.TrackReturnedResultBuffers(outputs);
      tracker.TrackReturnedAcquiredBuffers(acquired);
    }

    method ReturnDummyBuffer(frame: nat, b: StreamBuffer)
      modifies callbacks
      ensures callbacks.log == old(callbacks.log) + ErrorMessagesFor(dummyBufferObserved, frame, b)
    {
      var bufferId := if b.handle in dummyBufferObserved then 0 else b.bufferId;
      if b.status == BufferOk {
        callbacks.Send(ErrorOut(frame, b.streamId, ErrorBuffer, Generated));
      }
      callbacks.Send(ResultOut(frame, false, [StreamBuffer(b.streamId, bufferId, 0, BufferError)], []));
    }

    // A result with a dummy buffer, or of a frame that has had one.
    method TryHandleDummyResult(frame: nat, outputs: seq<StreamBuffer>) returns (handled: bool)
      requires Valid()
      modifies this`errorNotifiedRequests, this`pendingResults, this`ignoreShutters, tracker, callbacks
      ensures Valid()
      ensures handled <==> IsDummyResult(old(State()), frame, outputs)
      ensures State() == if handled then StepDummyResult(cfg, old(State()), frame, outputs) else old(State())
    {
      if frame !in errorNotifiedRequests {
        handled := SeesDummy(outputs);
        if !handled {
          return;
        }
        errorNotifiedRequests := errorNotifiedRequests + {frame};
        if frame in pendingResults {
          pendingResults := pendingResults - {frame};
          ignoreShutters := ignoreShutters + {frame};
          callbacks.Send(ErrorOut(frame, INVALID_STREAM_ID, ErrorResult, Generated));
        }
      }
      ReturnDummyBuffers(frame, outputs);
      handled := true;
    }

    method ProcessCaptureResult(frame: nat, hasMetadata: bool, outputs: seq<StreamBuffer>, inputs: seq<StreamBuffer>)
      requires Valid()
      modifies this, tracker, callbacks
      ensures Valid()
      ensures State() == Step(cfg, old(State()), Result(frame, hasMetadata, outputs, inputs))
    {
      UpdatePendingRequest(frame, outputs);
      var handled := TryHandleDummyResult(frame, outputs);
      if handled {
        return;
      }
      if hasMetadata {
        pendingResults := pendingResults - {frame};
      }
      callbacks.Send(ResultOut(frame, hasMetadata, outputs, inputs));
      tracker.TrackReturnedAcquiredBuffers(outputs);
      tracker.TrackReturnedResultBuffers(outputs);
    }

    // ---------- Notifications ----------

    method NotifyErrorFromHwl(frame: nat, stream: int, code: ErrorCode)
      requires Valid()
      modifies this`pendingResults, this`ignoreShutters, callbacks
      ensures Valid()
      ensures State() == Step(cfg, old(State()), NotifyError(frame, stream, code))
    {
      if frame in errorNotifiedRequests {
        return;
      }
      if code == ErrorResult {
        pendingResults := pendingResults - {frame};
        ignoreShutters := ignoreShutters + {frame};
      }
      callbacks.Send(ErrorOut(frame, stream, code, FromHwl));
    }

    method NotifyShutterFromHwl(frame: nat)
      requires Valid()
      modifies this`ignoreShutters, callbacks
      ensures Valid()
      ensures State() == Step(cfg, old(State()), NotifyShutter(frame))
    {
      if frame in ignoreShutters {
        ignoreShutters := ignoreShutters - {frame};
        return;
      }
      callbacks.Send(ShutterOut(frame));
    }

    // ---------- Buffers ----------

    // Ask the framework for `n` buffers; `answer` is what it gives, if anything, and `updated` tells
    // whether their handles can be imported. If not, the buffers stay reserved.
    method RequestStreamBuffers(stream: int, n: nat, answer: Option<seq<StreamBuffer>>, updated: bool)
      returns (ok: bool, buffers: seq<StreamBuffer>)
      requires Valid()
      modifies tracker
      ensures Valid()
      ensures
        var granted := n != 0 && answer.Some? && MayAcquire(cfg.quotas, old(State()).counts, stream, n);
        && State() == (if granted
                       then Step(cfg, Step(cfg, old(State()), Reserve(stream, n)), Obtain(stream, answer.value))
                       else old(State()))
        && (ok <==> granted && updated)
        && (ok ==> buffers == answer.value)
    {
      buffers := [];
      if n == 0 {
        return false, buffers;
      }
      ghost var s := State();
      var status := tracker.WaitAndTrackAcquiredBuffers(stream, n);
      if !status.Ok? {
        return false, buffers;
      }
      if answer.None? {
        UnreserveUndoesReserve(cfg.quotas, s.counts, stream, n);
        tracker.TrackBufferAcquisitionFailure(stream, n);
        return false, buffers;
      }
      if !updated {
        return false, buffers;
      }
      return true, answer.value;
    }

    method ReturnStreamBuffers(buffers: seq<StreamBuffer>)
      requires Valid()
      modifies tracker, callbacks
      ensures Valid()
      ensures State() == Step(cfg, old(State()), GiveBack(buffers))
    {
      callbacks.Send(GivenBack(buffers));
      tracker.TrackReturnedAcquiredBuffers(buffers);
    }

    // The cache manager hands a buffer on; remember it if it is a dummy.
    method ObserveBuffer(handle: nat, isDummy: bool)
      requires Valid()
      modifies this`dummyBufferObserved
      ensures Valid()
      ensures State() == if isDummy then Step(cfg, old(State()), Dummy(handle)) else old(State())
    {
      if isDummy {
        dummyBufferObserved := dummyBufferObserved + {handle};
      }
    }
  }
}
