// RealtimeZslResultRequestProcessor as a class. Each entry point is proved to do, to every frame,
// what ZslModel says.
module ZslCollector {
  import opened HalTypes
  import opened StreamBuffers
  import opened ZslModel

  // The internal stream manager, the framework callback and the process block, with a record per
  // frame of what they get.
  class Surroundings {
    ghost var logs: map<nat, Log>

    ghost function Of(f: nat): Log
      reads this
    {
      if f in logs then logs[f] else INITIAL.log
    }

    constructor ()
      ensures forall f :: Of(f) == INITIAL.log
    {
      logs := map[];
    }

    method ReturnFilledBuffer(f: nat, b: StreamBuffer)
      modifies this
      ensures Of(f) == old(Of(f)).(returned := old(Of(f)).returned + [b])
      ensures forall g :: g != f ==> Of(g) == old(Of(g))
    {
      logs := logs[f := Of(f).(returned := Of(f).returned + [b])];
    }

    method ProcessCaptureResult(f: nat, r: Result)
      modifies this
      ensures Of(f) == old(Of(f)).(delivered := old(Of(f)).delivered + [r])
      ensures forall g :: g != f ==> Of(g) == old(Of(g))
    {
      logs := logs[f := Of(f).(delivered := Of(f).delivered + [r])];
    }

    method ProcessRequest(f: nat, x: Forward)
      modifies this
      ensures Of(f) == old(Of(f)).(forwarded := old(Of(f)).forwarded + [x])
      ensures forall g :: g != f ==> Of(g) == old(Of(g))
    {
      logs := logs[f := Of(f).(forwarded := Of(f).forwarded + [x])];
    }
  }

  class RealtimeZslResultRequestProcessor {
    const cfg: Config
    const surroundings: Surroundings
    var pendingFrameNumberToRequests: map<nat, Entry>
    var pendingErrorFrames: map<nat, Entry>

    ghost function View(f: nat): FrameState
      reads this, surroundings
    {
      FrameState(
        if f in pendingFrameNumberToRequests then Some(pendingFrameNumberToRequests[f]) else None,
        if f in pendingErrorFrames then Some(pendingErrorFrames[f]) else None,
        surroundings.Of(f))
    }

    constructor (cfg: Config)
      ensures this.cfg == cfg
      ensures forall f :: View(f) == Run(cfg, f, [])
    {
      this.cfg := cfg;
      surroundings := new Surroundings();
      pendingFrameNumberToRequests := map[];
      pendingErrorFrames := map[];
    }

    method UpdateOutputBufferCount(f: nat, outputBufferCount: int, isPreviewIntent: bool)
      modifies this`pendingFrameNumberToRequests
      ensures forall g :: View(g) == Step(cfg, g, old(View(g)), Register(f, outputBufferCount, isPreviewIntent))
    {
      var entry := EMPTY_ENTRY.(expected := outputBufferCount);
      if !isPreviewIntent {
        entry := entry.(zslReceived := true);
      }
      pendingFrameNumberToRequests := pendingFrameNumberToRequests[f := entry];
    }

    // Raw buffers go to the internal stream manager; the rest is what is left of the result.
    method ReturnRawBuffers(f: nat, outputs: seq<StreamBuffer>) returns (rest: seq<StreamBuffer>)
      requires f in pendingFrameNumberToRequests
      modifies this`pendingFrameNumberToRequests, surroundings
      ensures rest == Outside(outputs, {cfg.zslStream})
      ensures pendingFrameNumberToRequests ==
              old(pendingFrameNumberToRequests)[f := WithRaw(cfg, old(pendingFrameNumberToRequests)[f], outputs)]
      ensures surroundings.Of(f) ==
              old(surroundings.Of(f)).(returned := old(surroundings.Of(f)).returned + Within(outputs, {cfg.zslStream}))
      ensures forall g :: g != f ==> surroundings.Of(g) == old(surroundings.Of(g))
    {
      rest := [];
      ghost var entry := pendingFrameNumberToRequests[f];
      for i := 0 to |outputs|
        invariant rest == Outside(outputs[..i], {cfg.zslStream})
        invariant pendingFrameNumberToRequests ==
                  old(pendingFrameNumberToRequests)[f := WithRaw(cfg, entry, outputs[..i])]
        invariant surroundings.Of(f) ==
                  old(surroundings.Of(f)).(
                    returned := old(surroundings.Of(f)).returned + Within(outputs[..i], {cfg.zslStream}))
        invariant forall g :: g != f ==> surroundings.Of(g) == old(surroundings.Of(g))
      {
        WithRawNext(cfg, entry, outputs, i);
        RawLogNext(cfg, surroundings.Of(f), old(surroundings.Of(f)), outputs, i);
        if outputs[i].streamId == cfg.zslStream {
          var e := pendingFrameNumberToRequests[f];
          pendingFrameNumberToRequests :=
            pendingFrameNumberToRequests[f := e.(hasReturned := true, zslReceived := true)];
          surroundings.ReturnFilledBuffer(f, outputs[i]);
        } else {
          rest := rest + [outputs[i]];
        }
      }
      assert outputs[..|outputs|] == outputs;
    }

    method ProcessResult(f: nat, result: Result)
      modifies this, surroundings
      ensures forall g :: View(g) == Step(cfg, g, old(View(g)), Arrival(f, result))
    {
      if f !in pendingFrameNumberToRequests {
        pendingFrameNumberToRequests := pendingFrameNumberToRequests[f := EMPTY_ENTRY];
      }
      var outputs := ReturnRawBuffers(f, result.outputs);
      var rest := result.(outputs := outputs);
      if f in pendingErrorFrames {
        ReturnResultDirectlyForFramesWithErrors(f, rest);
      } else {
        LatchResult(f, rest);
      }
    }

    // Add a result to an entry.
    method AddTo(entry: Entry, r: Result) returns (e: Entry)
      ensures e == Latched(cfg, entry, r)
    {
      e := entry;
      if r.metadata.Some? {
        e := e.(partials := e.partials + 1);
        if r.partial < cfg.partialResultCount {
          e := e.(settings := r.metadata);
        } else if e.settings.None? {
          e := e.(settings := r.metadata);
        } else {
          e := e.(settings := Some(e.settings.value + r.metadata.value));
        }
      }
      if r.outputs != [] {
        e := e.(outputs := r.outputs + e.outputs);
      }
      if r.inputs != [] {
        e := e.(inputs := r.inputs + e.inputs);
      }
      assert [] + entry.outputs == entry.outputs && [] + entry.inputs == entry.inputs;
    }

    // Add a result to the frame's entry and forward the frame when everything is there.
    method LatchResult(f: nat, r: Result)
      requires f in pendingFrameNumberToRequests
      modifies this`pendingFrameNumberToRequests, surroundings
      ensures View(f) == Latch(cfg, old(View(f)), old(pendingFrameNumberToRequests)[f], r)
      ensures forall g :: g != f ==> View(g) == old(View(g))
    {
      var e := AddTo(pendingFrameNumberToRequests[f], r);
      pendingFrameNumberToRequests := pendingFrameNumberToRequests[f := e];
      if e.zslReceived && e.expected == |e.outputs| && e.partials == cfg.partialResultCount {
        surroundings.ProcessRequest(f, Forward(e.settings, e.outputs, e.inputs));
        pendingFrameNumberToRequests := pendingFrameNumberToRequests - {f};
      }
    }

    // Join the result with what is latched, remember it in the error entry and empty the pending one.
    method CombineErrorAndPendingEntriesToResult(f: nat, r: Result) returns (c: Result)
      requires f in pendingFrameNumberToRequests && f in pendingErrorFrames
      modifies this
      ensures c == Combined(old(pendingFrameNumberToRequests)[f], r)
      ensures pendingErrorFrames ==
              old(pendingErrorFrames)[
                f := ErrorEntry(old(pendingErrorFrames)[f], old(pendingFrameNumberToRequests)[f], c)]
      ensures pendingFrameNumberToRequests ==
              old(pendingFrameNumberToRequests)[
                f := old(pendingFrameNumberToRequests)[f].(outputs := [], inputs := [], settings := None)]
    {
      var e, error := pendingFrameNumberToRequests[f], pendingErrorFrames[f];
      c := r.(outputs := r.outputs + e.outputs, inputs := r.inputs + e.inputs);
      error := error.(outputs := c.outputs, inputs := c.inputs, zslReceived := e.zslReceived, expected := e.expected);
      if e.settings.Some? {
        if c.metadata.None? {
          c := c.(metadata := e.settings, partial := e.partials);
        } else {
          c := c.(metadata := Some(c.metadata.value + e.settings.value));
        }
        error := error.(partials := error.partials + c.partial);
      }
      pendingErrorFrames := pendingErrorFrames[f := error];
      pendingFrameNumberToRequests :=
        pendingFrameNumberToRequests[f := e.(outputs := [], inputs := [], settings := None)];
    }

    // Whether a raw buffer has been returned is read before the entry is erased.
    method ReturnResultDirectlyForFramesWithErrors(f: nat, r: Result)
      requires f in pendingFrameNumberToRequests && f in pendingErrorFrames
      modifies this, surroundings
      ensures View(f) == Drain(cfg, old(View(f)), old(pendingErrorFrames)[f], old(pendingFrameNumberToRequests)[f], r)
      ensures forall g :: g != f ==> View(g) == old(View(g))
    {
      var hasReturned := pendingFrameNumberToRequests[f].hasReturned;
      var c := CombineErrorAndPendingEntriesToResult(f, r);
      var error := pendingErrorFrames[f];
      if error.zslReceived && error.expected == |error.outputs| && error.partials == cfg.partialResultCount {
        pendingErrorFrames := pendingErrorFrames - {f};
        pendingFrameNumberToRequests := pendingFrameNumberToRequests - {f};
      }
      if hasReturned && c.metadata.None? && c.outputs == [] {
        return;
      }
      surroundings.ProcessCaptureResult(f, c);
    }

    // An error message; the message itself is passed on unchanged.
    method Notify(f: nat, code: ErrorCode)
      requires !DereferencesNull(View(f), code)
      modifies this, surroundings
      ensures forall g :: View(g) == Step(cfg, g, old(View(g)), Failure(f, code))
    {
      if code == ErrorRequest || code == ErrorBuffer {
        if f !in pendingErrorFrames {
          pendingErrorFrames := pendingErrorFrames[f := EMPTY_ENTRY];
        }
        if code == ErrorRequest {
          var error := pendingErrorFrames[f];
          pendingErrorFrames := pendingErrorFrames[f := error.(partials := error.partials + 1)];
        }
      }
      if f in pendingFrameNumberToRequests && pendingFrameNumberToRequests[f].zslReceived {
        ReturnResultDirectlyForFramesWithErrors(f, EMPTY_RESULT);
      }
    }
  }

  // One buffer more: a raw one counts, any other is left.
  lemma WithRawNext(cfg: Config, e: Entry, outputs: seq<StreamBuffer>, i: nat)
    requires i < |outputs|
    ensures
      var (before, isRaw) := (outputs[..i], outputs[i].streamId == cfg.zslStream);
      && WithRaw(cfg, e, outputs[..i + 1]) ==
         (if isRaw then e.(zslReceived := true, hasReturned := true) else WithRaw(cfg, e, before))
      && (WithRaw(cfg, e, before) == e || WithRaw(cfg, e, before) == e.(zslReceived := true, hasReturned := true))
      && Outside(outputs[..i + 1], {cfg.zslStream}) ==
         Outside(before, {cfg.zslStream}) + if isRaw then [] else [outputs[i]]
  {
    SelectNext(outputs, {cfg.zslStream}, i);
  }

  lemma RawLogNext(cfg: Config, log: Log, before: Log, outputs: seq<StreamBuffer>, i: nat)
    requires i < |outputs|
    requires log == before.(returned := before.returned + Within(outputs[..i], {cfg.zslStream}))
    ensures before.(returned := before.returned + Within(outputs[..i + 1], {cfg.zslStream})) ==
            if outputs[i].streamId == cfg.zslStream then log.(returned := log.returned + [outputs[i]]) else log
  {
    SelectNext(outputs, {cfg.zslStream}, i);
    assert before.returned + (Within(outputs[..i], {cfg.zslStream}) + [outputs[i]]) ==
           before.returned + Within(outputs[..i], {cfg.zslStream}) + [outputs[i]];
  }
}
