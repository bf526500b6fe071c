// The three classes of the RGB + IR depth chain. Each method is proved to do, to every frame,
// what DepthModel says.
module DepthChain {
  import opened HalTypes
  import opened StreamBuffers
  import opened DepthModel
  import opened DepthMapping
  import opened DepthSlots
  import opened DepthRuns

  lemma GiveNothing(log: Log)
    ensures Give(log, multiset([])) == log
  {
    assert log.returned + multiset([]) == log.returned;
  }

  // Giving back one more buffer.
  lemma GiveNext(log: Log, before: Log, given: seq<StreamBuffer>, b: StreamBuffer)
    requires log == Give(before, multiset(given))
    ensures Give(log, multiset{b}) == Give(before, multiset(given + [b]))
  {
    assert before.returned + multiset(given) + multiset{b} == before.returned + multiset(given + [b]);
  }

  lemma GiveFilledNext(log: Log, before: Log, inputs: seq<StreamBuffer>, i: nat)
    requires i < |inputs| && log == Give(before, multiset(Filled(inputs[..i])))
    ensures Give(before, multiset(Filled(inputs[..i + 1]))) ==
            if IsFilled(inputs[i]) then Give(log, multiset{inputs[i]}) else log
  {
    SelectNext(inputs, {INVALID_STREAM_ID}, i);
    GiveNext(log, before, Filled(inputs[..i]), inputs[i]);
  }

  // The internal stream manager and the framework callbacks, with a record per frame of what the
  // chain did with them.
  class Surroundings {
    ghost var logs: map<nat, Log>

    ghost function Of(f: nat): Log
      reads this
    {
      if f in logs then logs[f] else EMPTY_LOG
    }

    constructor ()
      ensures forall f :: Of(f) == EMPTY_LOG
    {
      logs := map[];
    }

    method ReturnStreamBuffer(ghost f: nat, b: StreamBuffer)
      modifies this
      ensures Of(f) == Give(old(Of(f)), multiset{b})
      ensures forall g :: g != f ==> Of(g) == old(Of(g))
    {
      logs := logs[f := Of(f).(returned := Of(f).returned + multiset{b})];
    }

    // Return all buffers that are not place holders.
    method ReturnFilled(f: nat, inputs: seq<StreamBuffer>)
      modifies this
      ensures Of(f) == Give(old(Of(f)), multiset(Filled(inputs)))
      ensures forall g :: g != f ==> Of(g) == old(Of(g))
    {
      GiveNothing(Of(f));
      for i := 0 to |inputs|
        invariant Of(f) == Give(old(Of(f)), multiset(Filled(inputs[..i])))
        invariant forall g :: g != f ==> Of(g) == old(Of(g))
      {
        GiveFilledNext(Of(f), old(Of(f)), inputs, i);
        if inputs[i].streamId != INVALID_STREAM_ID {
          ReturnStreamBuffer(f, inputs[i]);
        }
      }
      assert inputs[..|inputs|] == inputs;
    }

    method ProcessCaptureResult(r: CaptureResult)
      modifies this
      ensures Of(r.frame) == old(Of(r.frame)).(delivered := old(Of(r.frame)).delivered + [r])
      ensures forall g :: g != r.frame ==> Of(g) == old(Of(g))
    {
      logs := logs[r.frame := Of(r.frame).(delivered := Of(r.frame).delivered + [r])];
    }

    method NotifyBufferError(f: nat)
      modifies this
      ensures Of(f) == old(Of(f)).(bufferErrors := old(Of(f)).bufferErrors + 1)
      ensures forall g :: g != f ==> Of(g) == old(Of(g))
    {
      logs := logs[f := Of(f).(bufferErrors := Of(f).bufferErrors + 1)];
    }

    ghost method RecordSubmission(f: nat, info: DepthInfo)
      modifies this
      ensures Of(f) == old(Of(f)).(submitted := old(Of(f)).submitted + [info])
      ensures forall g :: g != f ==> Of(g) == old(Of(g))
    {
      logs := logs[f := Of(f).(submitted := Of(f).submitted + [info])];
    }
  }

  // The end of the chain: recycles the inputs and forwards the depth buffer.
  class RgbirdDepthResultProcessor {
    const surroundings: Surroundings

    constructor (surroundings: Surroundings)
      ensures this.surroundings == surroundings
    {
      this.surroundings := surroundings;
    }

    method ProcessResult(r: CaptureResult)
      modifies surroundings
      ensures forall g :: g != r.frame ==> surroundings.Of(g) == old(surroundings.Of(g))
      ensures surroundings.Of(r.frame) ==
              if r.metadata.Some? then old(surroundings.Of(r.frame))
              else
                old(surroundings.Of(r.frame)).(
                  returned := old(surroundings.Of(r.frame)).returned + multiset(Filled(r.inputs)),
                  delivered := old(surroundings.Of(r.frame)).delivered + [r.(inputs := [])])
    {
      if r.metadata.Some? {
        return;
      }
      surroundings.ReturnFilled(r.frame, r.inputs);
      surroundings.ProcessCaptureResult(r.(inputs := []));
    }
  }

  datatype PendingDepthRequest = PendingDepthRequest(request: DepthRequest, inputs: MappedInputs, depth: MappedBuffer)

  // Holds requests while the depth engine works on them.
  class DepthProcessBlock {
    const cfg: Config
    const surroundings: Surroundings
    const resultProcessor: RgbirdDepthResultProcessor
    var pendingDepthRequests: map<nat, PendingDepthRequest>
    // mmap hands out addresses that are not in use.
    var nextAddress: nat
    ghost var live: set<nat>

    ghost predicate Valid()
      reads this
    {
      && resultProcessor.surroundings == surroundings
      && (forall a :: a in live ==> a < nextAddress)
      && forall f :: f in pendingDepthRequests ==> MappedFor(cfg, pendingDepthRequests[f])
    }

    // Exactly the addresses of the pending frames are mapped, and no two frames share one.
    ghost predicate Balanced()
      reads this
    {
      AreBalanced(pendingDepthRequests, live)
    }

    ghost function Pending(f: nat): Option<DepthRequest>
      reads this
    {
      if f in pendingDepthRequests then Some(pendingDepthRequests[f].request) else None
    }

    constructor (cfg: Config, surroundings: Surroundings, resultProcessor: RgbirdDepthResultProcessor)
      requires resultProcessor.surroundings == surroundings
      ensures Valid() && Balanced() && this.cfg == cfg && this.surroundings == surroundings
      ensures forall f :: Pending(f) == None
    {
      this.cfg := cfg;
      this.surroundings := surroundings;
      this.resultProcessor := resultProcessor;
      pendingDepthRequests := map[];
      nextAddress := 0;
      live := {};
    }

    method MapBuffer(b: StreamBuffer) returns (m: MappedBuffer)
      modifies this`nextAddress, this`live
      ensures m == MappedBuffer(b, old(nextAddress))
      ensures nextAddress == old(nextAddress) + 1 && live == old(live) + {m.address}
    {
      m := MappedBuffer(b, nextAddress);
      live := live + {nextAddress};
      nextAddress := nextAddress + 1;
    }

    // Map the filled inputs and the depth buffer, filing the inputs by stream.
    method MapDepthRequestBuffers(r: DepthRequest) returns (m: MappedInputs, depth: MappedBuffer)
      requires |r.outputs| == 1
      modifies this`nextAddress, this`live
      ensures m == MapInputs(cfg, r.inputs, old(nextAddress))
      ensures depth == MappedBuffer(r.outputs[0], old(nextAddress) + |Filled(r.inputs)|)
      ensures nextAddress == depth.address + 1
      ensures live == old(live) + set a | a in MappedAddresses(r.inputs, old(nextAddress)) + [depth.address]
    {
      m := MappedInputs([], [], []);
      for i := 0 to |r.inputs|
        invariant m == MapInputs(cfg, r.inputs[..i], old(nextAddress))
        invariant nextAddress == old(nextAddress) + |Filled(r.inputs[..i])|
        invariant live == old(live) + set a | a in MappedAddresses(r.inputs[..i], old(nextAddress))
      {
        assert r.inputs[..i + 1][..i] == r.inputs[..i];
        var b := r.inputs[i];
        if b.streamId == INVALID_STREAM_ID {
          continue;
        }
        assert MappedAddresses(r.inputs[..i + 1], old(nextAddress)) ==
               MappedAddresses(r.inputs[..i], old(nextAddress)) + [nextAddress];
        var mapped := MapBuffer(b);
        if b.streamId == cfg.yuvStream {
          m := m.(color := m.color + [mapped]);
        } else if b.streamId == cfg.ir1Stream {
          m := m.(ir1 := m.ir1 + [mapped]);
        } else if b.streamId == cfg.ir2Stream {
          m := m.(ir2 := m.ir2 + [mapped]);
        }
      }
      assert r.inputs[..|r.inputs|] == r.inputs;
      depth := MapBuffer(r.outputs[0]);
    }

    // The address filed first for the stream of an input.
    method AddressOf(p: PendingDepthRequest, i: nat) returns (ok: bool, address: nat)
      requires MappedFor(cfg, p) && i < |p.request.inputs| && IsFilled(p.request.inputs[i])
      ensures ok <==> p.request.inputs[i].streamId in cfg.SensorStreams()
      ensures ok ==>
                var mapped := p.inputs.Of(cfg, p.request.inputs[i].streamId);
                mapped != [] && address == mapped[0].address
    {
      var id := p.request.inputs[i].streamId;
      ok, address := true, 0;
      if id in cfg.SensorStreams() { FiledHere(cfg, p, i); }
      if id == cfg.yuvStream {
        address := p.inputs.color[0].address;
      } else if id == cfg.ir1Stream {
        address := p.inputs.ir1[0].address;
      } else if id == cfg.ir2Stream {
        address := p.inputs.ir2[0].address;
      } else {
        ok := false;
      }
    }

    // Unmap what is filed for the inputs and the depth buffer. Fails, having unmapped nothing that
    // is recorded here, when an input has no mapping filed.
    method UnmapDepthRequestBuffers(p: PendingDepthRequest) returns (ok: bool, ghost released: seq<nat>)
      requires MappedFor(cfg, p)
      modifies this`live
      ensures ok <==> InputsOn(p.request, cfg.SensorStreams())
      ensures ok ==> Filed(cfg, p.inputs, p.request.inputs)
      ensures ok ==> released == Released(cfg, p.inputs, p.request.inputs) + [p.depth.address]
      ensures ok ==> live == old(live) - set a | a in released
      ensures live <= old(live)
    {
      released := [];
      ok := true;
      var inputs := p.request.inputs;
      for i := 0 to |inputs|
        invariant forall k :: 0 <= k < i ==> IsFilled(inputs[k]) ==> inputs[k].streamId in cfg.SensorStreams()
        invariant Filed(cfg, p.inputs, inputs[..i])
        invariant released == Released(cfg, p.inputs, inputs[..i])
        invariant live == old(live) - set a | a in released
      {
        assert inputs[..i + 1][..i] == inputs[..i];
        var b := inputs[i];
        if b.streamId == INVALID_STREAM_ID {
          continue;
        }
        var address;
        ok, address := AddressOf(p, i);
        if !ok {
          return;
        }
        UnmapNext(old(live), released, address);
        live := live - {address};
        released := released + [address];
      }
      assert inputs[..|inputs|] == inputs;
      UnmapNext(old(live), released, p.depth.address);
      live := live - {p.depth.address};
      released := released + [p.depth.address];
    }

    // The number of buffers is right and their streams are configured.
    method MeetsGuard(r: DepthRequest) returns (ok: bool)
      ensures ok <==> IsAccepted(cfg, None, r)
    {
      if |r.inputs| < 2 || |r.inputs| > 3 || |r.outputs| != 1 {
        return false;
      }
      var streams := cfg.SensorStreams() + {cfg.depthStream};
      ok := r.outputs[0].streamId in streams
            && forall i | 0 <= i < |r.inputs| :: IsFilled(r.inputs[i]) ==> r.inputs[i].streamId in streams;
    }

    // File a request that has just been mapped at the addresses from `next` on.
    method FileRequest(f: nat, p: PendingDepthRequest, ghost next: nat, ghost before: set<nat>)
      requires f !in pendingDepthRequests && forall a :: a in before ==> a < next
      requires p.depth.address == next + |Filled(p.request.inputs)|
      requires live == before + set a | a in MappedAddresses(p.request.inputs, next) + [p.depth.address]
      modifies this`pendingDepthRequests
      ensures pendingDepthRequests == old(pendingDepthRequests)[f := p]
      ensures AreBalanced(old(pendingDepthRequests), before) ==> Balanced()
    {
      if AreBalanced(pendingDepthRequests, before) {
        AddKeepsBalance(pendingDepthRequests, before, f, p, next);
      }
      pendingDepthRequests := pendingDepthRequests[f := p];
    }

    // Accept one request: map its buffers and keep it until the depth engine reports. The buffers of
    // a frame that is pending already are mapped for nothing.
    method ProcessRequests(f: nat, r: DepthRequest) returns (ok: bool)
      requires Valid()
      modifies this`pendingDepthRequests, this`nextAddress, this`live, surroundings
      ensures Valid()
      ensures ok <==> IsAccepted(cfg, old(Pending(f)), r)
      ensures
        var streams := {cfg.yuvStream, cfg.ir1Stream, cfg.ir2Stream, cfg.depthStream};
        ok <==> f !in old(pendingDepthRequests)
                && 2 <= |r.inputs| <= 3 && |r.outputs| == 1 && r.outputs[0].streamId in streams
                && forall b :: b in r.inputs && b.streamId != INVALID_STREAM_ID ==> b.streamId in streams
      ensures Pending(f) == if ok then Some(r) else old(Pending(f))
      ensures forall g :: g != f ==> Pending(g) == old(Pending(g))
      ensures surroundings.Of(f) ==
              if ok then old(surroundings.Of(f)).(submitted := old(surroundings.Of(f)).submitted + [InfoOf(cfg, r)])
              else old(surroundings.Of(f))
      ensures forall g :: g != f ==> surroundings.Of(g) == old(surroundings.Of(g))
      ensures ok ==>
                && f in pendingDepthRequests
                && live == old(live) + set a | a in MappedAddresses(r.inputs, old(nextAddress))
                                                    + [pendingDepthRequests[f].depth.address]
      ensures old(Balanced()) && old(Pending(f)).None? ==> Balanced()
    {
      ok := MeetsGuard(r);
      if !ok {
        return;
      }
      var m, depth := MapDepthRequestBuffers(r);
      if f in pendingDepthRequests {
        return false;
      }
      FileRequest(f, PendingDepthRequest(r, m, depth), old(nextAddress), old(live));
      surroundings.RecordSubmission(f, InfoOf(cfg, r));
      ok := true;
    }

    // The depth engine has finished `f`, well or badly.
    method ProcessDepthResult(f: nat, resultOk: bool)
      requires Valid()
      modifies this`pendingDepthRequests, this`live, surroundings
      ensures Valid()
      ensures forall l ::
                var s := FrameState(l, old(Pending(f)), old(surroundings.Of(f)));
                FrameState(l, Pending(f), surroundings.Of(f)) == StepDone(cfg, f, s, resultOk)
      ensures forall g :: g != f ==> Pending(g) == old(Pending(g)) && surroundings.Of(g) == old(surroundings.Of(g))
      ensures f in pendingDepthRequests <==>
                f in old(pendingDepthRequests)
                && exists b :: b in old(pendingDepthRequests)[f].request.inputs && b.streamId != INVALID_STREAM_ID
                               && b.streamId !in {cfg.yuvStream, cfg.ir1Stream, cfg.ir2Stream}
      ensures f in old(pendingDepthRequests) && f !in pendingDepthRequests ==>
                var p := old(pendingDepthRequests)[f];
                && Filed(cfg, p.inputs, p.request.inputs)
                && live == old(live) - set a | a in Released(cfg, p.inputs, p.request.inputs) + [p.depth.address]
      ensures old(Balanced()) && cfg.Valid()
              && (f in old(pendingDepthRequests) ==>
                    var r := old(pendingDepthRequests)[f].request;
                    DistinctStreams(r.inputs) && InputsOn(r, cfg.SensorStreams()))
              ==> Balanced()
    {
      if f !in pendingDepthRequests {
        return;
      }
      var p := pendingDepthRequests[f];
      var ok, released := UnmapDepthRequestBuffers(p);
      if !ok {
        return;
      }
      var outputs := p.request.outputs;
      if !resultOk {
        outputs := MarkErrors(p.request.outputs, cfg.depthStream);
      }
      if old(Balanced()) && cfg.Valid() && DistinctStreams(p.request.inputs) {
        RemoveKeepsBalance(cfg, pendingDepthRequests, old(live), f);
      }
      pendingDepthRequests := pendingDepthRequests - {f};
      resultProcessor.ProcessResult(CaptureResult(f, None, outputs, p.request.inputs));
    }
  }

  // Latches the inputs of the depth requests and submits them.
  class RgbirdResultRequestProcessor {
    const cfg: Config
    const surroundings: Surroundings
    const block: DepthProcessBlock
    var depthRequests: map<nat, DepthRequest>

    ghost predicate Valid()
      reads this, block
    {
      block.cfg == cfg && block.surroundings == surroundings && block.Valid()
    }

    // The state of one frame, put together from the three classes.
    ghost function View(f: nat): FrameState
      reads this, block, surroundings
    {
      FrameState(if f in depthRequests then Some(depthRequests[f]) else None, block.Pending(f), surroundings.Of(f))
    }

    constructor (cfg: Config)
      ensures Valid() && this.cfg == cfg
      ensures forall f :: View(f) == Run(cfg, f, [])
    {
      this.cfg := cfg;
      var around := new Surroundings();
      var resultProcessor := new RgbirdDepthResultProcessor(around);
      surroundings := around;
      block := new DepthProcessBlock(cfg, around, resultProcessor);
      depthRequests := map[];
    }

    // Remember the depth buffer of a request.
    method AddPendingRequests(f: nat, outputs: seq<StreamBuffer>)
      requires Valid()
      modifies this`depthRequests
      ensures Valid()
      ensures forall g :: View(g) == Step(cfg, g, old(View(g)), Admit(f, outputs))
    {
      var k := FindStream(outputs, cfg.depthStream, -1);
      if k < |outputs| && f !in depthRequests {
        depthRequests := depthRequests[f := DepthRequest([], [], [outputs[k]])];
      }
    }

    // Return the internal YUV buffers that the frame's depth request does not need.
    method TryReturnInternalBufferForDepth(f: nat, outputs: seq<StreamBuffer>)
      returns (rest: seq<StreamBuffer>, hasInternal: bool)
      requires cfg.depthStream != -1
      modifies surroundings
      ensures rest == WithoutSpareYuv(cfg, f, outputs)
      ensures hasInternal <==> SpareYuv(cfg, f, outputs) != []
      ensures surroundings.Of(f) ==
              Give(old(surroundings.Of(f)), multiset(SpareYuv(cfg, f, outputs)))
      ensures forall g :: g != f ==> surroundings.Of(g) == old(surroundings.Of(g))
    {
      rest := [];
      hasInternal := false;
      GiveNothing(surroundings.Of(f));
      for i := 0 to |outputs|
        invariant rest == WithoutSpareYuv(cfg, f, outputs[..i])
        invariant hasInternal <==> SpareYuv(cfg, f, outputs[..i]) != []
        invariant surroundings.Of(f) == Give(old(surroundings.Of(f)), multiset(SpareYuv(cfg, f, outputs[..i])))
        invariant forall g :: g != f ==> surroundings.Of(g) == old(surroundings.Of(g))
      {
        SpareNext(cfg, f, outputs, i);
        GiveSpareNext(cfg, surroundings.Of(f), old(surroundings.Of(f)), f, outputs, i);
        if outputs[i].streamId == cfg.yuvStream && !cfg.IsAutocal(f) {
          hasInternal := true;
          surroundings.ReturnStreamBuffer(f, outputs[i]);
        } else {
          rest := rest + [outputs[i]];
        }
      }
      assert outputs[..|outputs|] == outputs;
    }

    // Return all buffers that are not the framework's.
    method ReturnInternalStreams(f: nat, outputs: seq<StreamBuffer>) returns (rest: seq<StreamBuffer>)
      modifies surroundings
      ensures rest == Within(outputs, cfg.frameworkStreams)
      ensures surroundings.Of(f) ==
              Give(old(surroundings.Of(f)), multiset(Outside(outputs, cfg.frameworkStreams)))
      ensures forall g :: g != f ==> surroundings.Of(g) == old(surroundings.Of(g))
    {
      rest := [];
      GiveNothing(surroundings.Of(f));
      for i := 0 to |outputs|
        invariant rest == Within(outputs[..i], cfg.frameworkStreams)
        invariant surroundings.Of(f) ==
                  Give(old(surroundings.Of(f)), multiset(Outside(outputs[..i], cfg.frameworkStreams)))
        invariant forall g :: g != f ==> surroundings.Of(g) == old(surroundings.Of(g))
      {
        SelectNext(outputs, cfg.frameworkStreams, i);
        if outputs[i].streamId !in cfg.frameworkStreams {
          GiveNext(surroundings.Of(f), old(surroundings.Of(f)), Outside(outputs[..i], cfg.frameworkStreams),
                   outputs[i]);
          surroundings.ReturnStreamBuffer(f, outputs[i]);
        } else {
          rest := rest + [outputs[i]];
        }
      }
      assert outputs[..|outputs|] == outputs;
    }

    // Submit the frame's depth request if it is ready.
    method VerifyAndSubmitDepthRequest(f: nat) returns (ok: bool)
      requires Valid()
      modifies this`depthRequests, block, surroundings
      ensures Valid()
      ensures (View(f), ok) == VerifyAndSubmit(cfg, f, old(View(f)))
      ensures forall g :: g != f ==> View(g) == old(View(g))
      ensures old(block.Balanced()) && NeverBoth(old(View(f))) ==> block.Balanced()
    {
      if f !in depthRequests {
        return false;
      }
      var r := depthRequests[f];
      var validInputs := 0;
      for i := 0 to |r.inputs|
        invariant validInputs == |Filled(r.inputs[..i])|
      {
        assert r.inputs[..i + 1][..i] == r.inputs[..i];
        if r.inputs[i].streamId != INVALID_STREAM_ID {
          validInputs := validInputs + 1;
        }
      }
      assert r.inputs[..|r.inputs|] == r.inputs;
      if cfg.IsAutocal(f) {
        if validInputs != 3 { return true; }
      } else {
        if validInputs != 2 { return true; }
      }
      if r.metadata == [] {
        return true;
      }
      if cfg.IsAutocal(f) {
        var isReady := false;
        for i := 0 to |r.metadata|
          invariant isReady <==>
                      LastMetadata(r.metadata[..i]).Some? && IsAutocalMetadataReady(LastMetadata(r.metadata[..i]).value)
        {
          assert r.metadata[..i + 1][..i] == r.metadata[..i];
          if r.metadata[i].Some? {
            isReady := IsAutocalMetadataReady(r.metadata[i].value);
          }
        }
        assert r.metadata[..|r.metadata|] == r.metadata;
        if !isReady { return true; }
      }
      ok := block.ProcessRequests(f, r);
      if ok {
        depthRequests := depthRequests - {f};
      }
    }

    // Put one buffer into the request of `f`.
    method InsertInput(f: nat, fromRgb: bool, b: StreamBuffer) returns (ok: bool)
      requires f in depthRequests
      modifies this`depthRequests
      ensures f in depthRequests && (depthRequests[f], ok) == InsertBuffer(old(depthRequests)[f], fromRgb, b)
      ensures forall g :: g != f ==> (g in depthRequests <==> g in old(depthRequests))
      ensures forall g :: g != f && g in depthRequests ==> depthRequests[g] == old(depthRequests)[g]
    {
      var r := depthRequests[f];
      if r.metadata == [] {
        depthRequests := depthRequests[f := r.(inputs := r.inputs + [b])];
        return true;
      }
      var k := 0;
      while k < |r.metadata| && r.metadata[k].None?
        invariant k <= |r.metadata|
        invariant forall i :: 0 <= i < k ==> r.metadata[i].None?
      {
        k := k + 1;
      }
      if k == |r.metadata| {
        return false;
      }
      var inputs := Padded(r.inputs, NUM_AUTOCAL_INPUT_BUFFERS);
      ok := true;
      if fromRgb {
        if k >= |inputs| || inputs[k].streamId != INVALID_STREAM_ID {
          ok := false;
        } else {
          inputs := inputs[k := b];
        }
      } else {
        var free := FindStream(inputs, INVALID_STREAM_ID, k);
        if free < |inputs| {
          inputs := inputs[free := b];
        }
      }
      depthRequests := depthRequests[f := r.(inputs := inputs)];
    }

    // Latch one buffer, or give it back if the request has been flushed.
    method LatchOutput(f: nat, camera: nat, b: StreamBuffer) returns (updated: bool, ok: bool)
      requires Valid()
      modifies this`depthRequests, surroundings
      ensures Valid()
      ensures
        var l := LatchOne(cfg, f, camera, Latch(old(View(f)).latched, multiset{}, false, false), b);
        && View(f) == Return(old(View(f)).(latched := l.request), l.back)
        && ok == !l.failed && (ok ==> updated == l.updated)
      ensures forall g :: g != f ==> View(g) == old(View(g))
    {
      updated, ok := false, true;
      LatchOneCases(cfg, f, camera, View(f), b);
      if camera == cfg.ir1Camera || camera == cfg.ir2Camera
         || (camera == cfg.rgbCamera && b.streamId == cfg.yuvStream && cfg.IsAutocal(f)) {
        if f !in depthRequests {
          surroundings.ReturnStreamBuffer(f, b);
        } else {
          ok := InsertInput(f, camera == cfg.rgbCamera, b);
          updated := ok;
        }
      }
    }

    // Latch the depth inputs among the result's buffers.
    method LatchOutputs(f: nat, camera: nat, outputs: seq<StreamBuffer>) returns (updated: bool, ok: bool)
      requires Valid()
      modifies this`depthRequests, surroundings
      ensures Valid()
      ensures
        var l := LatchBuffers(cfg, f, camera, old(View(f)).latched, outputs);
        && View(f) == Return(old(View(f)).(latched := l.request), l.back)
        && ok == !l.failed && (ok ==> updated == l.updated)
      ensures forall g :: g != f ==> View(g) == old(View(g))
    {
      ghost var s := View(f);
      updated, ok := false, true;
      ReturnNone(s);
      for i := 0 to |outputs|
        invariant Valid()
        invariant
          var l := LatchBuffers(cfg, f, camera, s.latched, outputs[..i]);
          !l.failed && updated == l.updated && View(f) == Return(s.(latched := l.request), l.back)
        invariant forall g :: g != f ==> View(g) == old(View(g))
      {
        LatchNext(cfg, f, camera, s.latched, outputs, i);
        LatchFrom(cfg, f, camera, LatchBuffers(cfg, f, camera, s.latched, outputs[..i]), s, outputs[i]);
        var latched;
        latched, ok := LatchOutput(f, camera, outputs[i]);
        if !ok {
          LatchFails(cfg, f, camera, s.latched, outputs, i + 1);
          return;
        }
        updated := updated || latched;
      }
      assert outputs[..|outputs|] == outputs;
      ok := true;
    }

    // Latch the RGB metadata.
    method LatchResultMetadata(f: nat, metadata: Metadata) returns (ok: bool)
      requires Valid() && f in depthRequests
      modifies this`depthRequests
      ensures Valid()
      ensures f in depthRequests && (depthRequests[f], ok) == InsertMetadata(cfg, old(depthRequests)[f], metadata)
      ensures View(f) == old(View(f)).(latched := Some(depthRequests[f]))
      ensures forall g :: g != f ==> View(g) == old(View(g))
    {
      var r := depthRequests[f];
      var resized := ResizedMetadata(r.metadata);
      var k := FindStream(r.inputs, cfg.yuvStream, -1);
      if k >= NUM_AUTOCAL_INPUT_BUFFERS {
        depthRequests := depthRequests[f := r.(metadata := resized)];
        return false;
      }
      depthRequests := depthRequests[f := r.(metadata := resized[k := Some(metadata)],
                                             inputs := Padded(r.inputs, NUM_AUTOCAL_INPUT_BUFFERS))];
      ok := true;
    }

    // Latch what the result brings for the depth request and submit it if that completes it.
    method TrySubmitDepthProcessBlockRequest(camera: nat, result: CaptureResult) returns (ok: bool)
      requires Valid()
      modifies this`depthRequests, block, surroundings
      ensures Valid()
      ensures (View(result.frame), ok) == TrySubmit(cfg, old(View(result.frame)), camera, result)
      ensures forall g :: g != result.frame ==> View(g) == old(View(g))
      ensures old(block.Balanced()) && NeverBoth(old(View(result.frame))) ==> block.Balanced()
    {
      var f := result.frame;
      var updated;
      LatchKeepsRequest(cfg, f, camera, View(f).latched, result.outputs);
      updated, ok := LatchOutputs(f, camera, result.outputs);
      if !ok {
        return;
      }
      if result.metadata.Some? && camera == cfg.rgbCamera {
        if f !in depthRequests {
          return;
        }
        ok := LatchResultMetadata(f, result.metadata.value);
        if !ok {
          return;
        }
        updated := true;
      }
      if updated {
        ok := VerifyAndSubmitDepthRequest(f);
      }
    }

    // One result of one of the three cameras.
    method ProcessResult(camera: nat, result: CaptureResult)
      requires Valid()
      modifies this`depthRequests, block, surroundings
      ensures Valid()
      ensures forall g :: View(g) == Step(cfg, g, old(View(g)), Result(camera, result))
      ensures old(block.Balanced()) && NeverBoth(old(View(result.frame))) ==> block.Balanced()
    {
      var f := result.frame;
      ghost var s := View(f);
      var rest, hasInternal := ReturnSpare(result);
      if hasInternal && result.metadata.None? && rest == [] && result.inputs == [] {
        return;
      }
      var kept := ReturnUnkept(result, rest, s);
      ForwardKept(camera, result.(outputs := kept));
    }

    // Submit what completes a depth request; the rest of an RGB result goes to the framework.
    method ForwardKept(camera: nat, result: CaptureResult)
      requires Valid()
      modifies this`depthRequests, block, surroundings
      ensures Valid()
      ensures View(result.frame) == StepKept(cfg, old(View(result.frame)), camera, result)
      ensures forall g :: g != result.frame ==> View(g) == old(View(g))
      ensures old(block.Balanced()) && NeverBoth(old(View(result.frame))) ==> block.Balanced()
    {
      var ok := TrySubmitDepthProcessBlockRequest(camera, result);
      if !ok || camera != cfg.rgbCamera {
        return;
      }
      DeliverRest(result);
    }

    // Deliver a result without its internal YUV buffer.
    method DeliverRest(result: CaptureResult)
      modifies surroundings
      ensures View(result.frame) ==
              Deliver(old(View(result.frame)), result.(outputs := WithoutFirst(result.outputs, cfg.yuvStream)))
      ensures forall g :: g != result.frame ==> View(g) == old(View(g))
    {
      var k := FindStream(result.outputs, cfg.yuvStream, -1);
      var outputs := result.outputs;
      if k < |outputs| {
        outputs := outputs[..k] + outputs[k + 1..];
      }
      surroundings.ProcessCaptureResult(result.(outputs := outputs));
    }

    // Return the internal YUV buffers that are not needed, if a depth stream is configured.
    method ReturnSpare(result: CaptureResult) returns (rest: seq<StreamBuffer>, hasInternal: bool)
      modifies surroundings
      ensures rest == WithoutSpareYuv(cfg, result.frame, result.outputs)
      ensures hasInternal <==> SpareYuv(cfg, result.frame, result.outputs) != []
      ensures View(result.frame) ==
              Return(old(View(result.frame)), multiset(SpareYuv(cfg, result.frame, result.outputs)))
      ensures forall g :: g != result.frame ==> View(g) == old(View(g))
    {
      rest, hasInternal := result.outputs, false;
      ReturnNone(View(result.frame));
      if cfg.depthStream != -1 {
        rest, hasInternal := TryReturnInternalBufferForDepth(result.frame, result.outputs);
      }
    }

    // Without a depth request to wait for, return the internal buffers at once.
    method ReturnUnkept(result: CaptureResult, outputs: seq<StreamBuffer>, ghost s: FrameState)
      returns (kept: seq<StreamBuffer>)
      requires outputs == WithoutSpareYuv(cfg, result.frame, result.outputs)
      requires s.latched == View(result.frame).latched
      modifies surroundings
      ensures kept == Kept(cfg, s, result)
      ensures View(result.frame) == Return(old(View(result.frame)), Unkept(cfg, s, result))
      ensures forall g :: g != result.frame ==> View(g) == old(View(g))
    {
      kept := outputs;
      ReturnNone(View(result.frame));
      if (cfg.forceInternal || result.frame !in depthRequests) && cfg.depthStream != -1 {
        kept := ReturnInternalStreams(result.frame, outputs);
      }
    }

    // Give back everything latched and fail the depth buffers.
    method FlushPendingRequests()
      requires Valid()
      modifies this`depthRequests, surroundings
      ensures Valid()
      ensures forall g :: View(g) == Step(cfg, g, old(View(g)), Flush)
    {
      FlushEach();
      depthRequests := map[];
    }

    method FlushEach()
      modifies surroundings
      ensures forall g :: g in depthRequests ==>
                surroundings.Of(g) == FlushedLog(cfg, g, old(surroundings.Of(g)), depthRequests[g])
      ensures forall g :: g !in depthRequests ==> surroundings.Of(g) == old(surroundings.Of(g))
    {
      var frames := depthRequests.Keys;
      while frames != {}
        invariant frames <= depthRequests.Keys
        invariant forall g :: g in frames || g !in depthRequests ==> surroundings.Of(g) == old(surroundings.Of(g))
        invariant forall g :: g in depthRequests && g !in frames ==>
                    surroundings.Of(g) == FlushedLog(cfg, g, old(surroundings.Of(g)), depthRequests[g])
        decreases frames
      {
        var f :| f in frames;
        FlushOne(f);
        frames := frames - {f};
      }
    }

    method FlushOne(f: nat)
      requires f in depthRequests
      modifies surroundings
      ensures surroundings.Of(f) == FlushedLog(cfg, f, old(surroundings.Of(f)), depthRequests[f])
      ensures forall g :: g != f ==> surroundings.Of(g) == old(surroundings.Of(g))
    {
      var r := depthRequests[f];
      surroundings.ReturnFilled(f, r.inputs);
      surroundings.NotifyBufferError(f);
      var outputs := [];
      var k := FindStream(r.outputs, cfg.depthStream, -1);
      if k < |r.outputs| {
        outputs := [r.outputs[k].(status := BufferError)];
      }
      surroundings.ProcessCaptureResult(CaptureResult(f, None, outputs, []));
    }
  }

  // Search for the first buffer on stream `id` in a slot other than `except`.
  method FindStream(s: seq<StreamBuffer>, id: int, except: int) returns (k: nat)
    ensures k == SlotOn(s, id, except)
  {
    k := 0;
    while k < |s| && (s[k].streamId != id || k == except)
      invariant k <= |s|
      invariant forall i :: 0 <= i < k ==> s[i].streamId != id || i == except
    {
      k := k + 1;
    }
  }

  lemma SpareNext(cfg: Config, f: nat, s: seq<StreamBuffer>, i: nat)
    requires i < |s| && cfg.depthStream != -1
    ensures
      var spare := s[i].streamId == cfg.yuvStream && !cfg.IsAutocal(f);
      && SpareYuv(cfg, f, s[..i + 1]) == (if spare then SpareYuv(cfg, f, s[..i]) + [s[i]] else SpareYuv(cfg, f, s[..i]))
      && WithoutSpareYuv(cfg, f, s[..i + 1]) ==
           if spare then WithoutSpareYuv(cfg, f, s[..i]) else WithoutSpareYuv(cfg, f, s[..i]) + [s[i]]
  {
    SelectNext(s, {cfg.yuvStream}, i);
  }

  lemma GiveSpareNext(cfg: Config, log: Log, before: Log, f: nat, s: seq<StreamBuffer>, i: nat)
    requires i < |s| && cfg.depthStream != -1 && log == Give(before, multiset(SpareYuv(cfg, f, s[..i])))
    ensures Give(before, multiset(SpareYuv(cfg, f, s[..i + 1]))) ==
            if s[i].streamId == cfg.yuvStream && !cfg.IsAutocal(f) then Give(log, multiset{s[i]}) else log
  {
    SpareNext(cfg, f, s, i);
    GiveNext(log, before, SpareYuv(cfg, f, s[..i]), s[i]);
  }

  // What one buffer does: nothing, or it goes back for want of a request, or into the request.
  lemma LatchOneCases(cfg: Config, f: nat, camera: nat, s: FrameState, b: StreamBuffer)
    ensures
      var l := LatchOne(cfg, f, camera, Latch(s.latched, multiset{}, false, false), b);
      var s' := Return(s.(latched := l.request), l.back);
      if !IsDepthInput(cfg, f, camera, b) then s' == s && !l.failed && !l.updated
      else if s.latched.None? then s' == Return(s, multiset{b}) && !l.failed && !l.updated
      else
        var (r, ok) := InsertBuffer(s.latched.value, camera == cfg.rgbCamera, b);
        s' == s.(latched := Some(r)) && l.failed == !ok && l.updated == ok
  {
    ReturnNone(s);
    if s.latched.Some? {
      ReturnNone(s.(latched := Some(InsertBuffer(s.latched.value, camera == cfg.rgbCamera, b).0)));
    } else {
      assert multiset{} + multiset{b} == multiset{b};
    }
  }

  // Latching one more buffer adds to what has been latched before.
  lemma LatchFrom(cfg: Config, f: nat, camera: nat, l: Latch, s: FrameState, b: StreamBuffer)
    requires !l.failed
    ensures
      var l' := LatchOne(cfg, f, camera, l, b);
      var one := LatchOne(cfg, f, camera, Latch(l.request, multiset{}, false, false), b);
      && l'.failed == one.failed && l'.updated == (l.updated || one.updated)
      && Return(Return(s.(latched := l.request), l.back).(latched := one.request), one.back) ==
         Return(s.(latched := l'.request), l'.back)
  {
    var one := LatchOne(cfg, f, camera, Latch(l.request, multiset{}, false, false), b);
    assert s.log.returned + l.back + one.back == s.log.returned + (l.back + one.back);
    assert l.back + multiset{} == l.back && multiset{} + multiset{b} == multiset{b};
  }

  lemma LatchNext(cfg: Config, f: nat, camera: nat, request: Option<DepthRequest>, outputs: seq<StreamBuffer>, i: nat)
    requires i < |outputs|
    ensures LatchBuffers(cfg, f, camera, request, outputs[..i + 1]) ==
            LatchOne(cfg, f, camera, LatchBuffers(cfg, f, camera, request, outputs[..i]), outputs[i])
  {
    assert outputs[..i + 1][..i] == outputs[..i];
  }

  // After the first failure nothing more is latched.
  lemma {:induction false} LatchFails(cfg: Config, f: nat, camera: nat, request: Option<DepthRequest>,
                                      outputs: seq<StreamBuffer>, i: nat)
    requires i <= |outputs| && LatchBuffers(cfg, f, camera, request, outputs[..i]).failed
    ensures LatchBuffers(cfg, f, camera, request, outputs) == LatchBuffers(cfg, f, camera, request, outputs[..i])
    decreases |outputs| - i
  {
    if i < |outputs| {
      LatchNext(cfg, f, camera, request, outputs, i);
      LatchFails(cfg, f, camera, request, outputs, i + 1);
    } else {
      assert outputs[..i] == outputs;
    }
  }

  // The mapping kept with a pending request is the one made for it.
  ghost predicate MappedFor(cfg: Config, p: PendingDepthRequest) {
    && |p.request.outputs| == 1
    && p.depth.address >= |Filled(p.request.inputs)|
    && p.inputs == MapInputs(cfg, p.request.inputs, p.depth.address - |Filled(p.request.inputs)|)
  }

  lemma UnmapNext(live: set<nat>, released: seq<nat>, address: nat)
    ensures live - (set a | a in released) - {address} == live - set a | a in released + [address]
  {
  }

  // The addresses of a pending frame: one for each filled input and then one for the depth buffer.
  ghost predicate Owns(p: PendingDepthRequest, a: nat) {
    p.depth.address - |Filled(p.request.inputs)| <= a <= p.depth.address
  }

  ghost predicate AreBalanced(pending: map<nat, PendingDepthRequest>, live: set<nat>) {
    && (forall a :: a in live <==> exists f :: f in pending && Owns(pending[f], a))
    && (forall f, g, a :: f in pending && g in pending && Owns(pending[f], a) && Owns(pending[g], a) ==> f == g)
  }

  lemma OwnsMapped(p: PendingDepthRequest, base: nat, a: nat)
    requires p.depth.address == base + |Filled(p.request.inputs)|
    ensures a in MappedAddresses(p.request.inputs, base) + [p.depth.address] <==> Owns(p, a)
  {
    var all := MappedAddresses(p.request.inputs, base) + [p.depth.address];
    if Owns(p, a) { assert all[a - base] == a; }
  }

  lemma AddOwner(pending: map<nat, PendingDepthRequest>, live: set<nat>, f: nat, p: PendingDepthRequest, more: set<nat>)
    requires AreBalanced(pending, live) && f !in pending
    requires forall a :: a in more <==> Owns(p, a)
    requires forall a :: a in live ==> !Owns(p, a)
    ensures AreBalanced(pending[f := p], live + more)
  {
    var pending' := pending[f := p];
    assert forall g :: g in pending ==> pending'[g] == pending[g];
    forall a ensures (exists g :: g in pending' && Owns(pending'[g], a)) <==> a in live + more {
      if g :| g in pending && Owns(pending[g], a) { assert Owns(pending'[g], a); }
      if Owns(p, a) { assert Owns(pending'[f], a); }
    }
    forall g, h, a | g in pending' && h in pending' && Owns(pending'[g], a) && Owns(pending'[h], a) ensures g == h {
      assert g != f ==> a in live;
      assert h != f ==> a in live;
    }
  }

  lemma DropOwner(pending: map<nat, PendingDepthRequest>, live: set<nat>, f: nat, gone: set<nat>)
    requires AreBalanced(pending, live) && f in pending
    requires forall a :: a in gone <==> Owns(pending[f], a)
    ensures AreBalanced(pending - {f}, live - gone)
  {
    var pending' := pending - {f};
    forall a ensures (exists g :: g in pending' && Owns(pending'[g], a)) <==> a in live - gone {
      if g :| g in pending' && Owns(pending'[g], a) { assert Owns(pending[g], a); }
      if a in live - gone {
        var g :| g in pending && Owns(pending[g], a);
        assert Owns(pending'[g], a);
      }
    }
  }

  lemma AddKeepsBalance(pending: map<nat, PendingDepthRequest>, live: set<nat>, f: nat,
                        p: PendingDepthRequest, next: nat)
    requires AreBalanced(pending, live) && f !in pending && forall a :: a in live ==> a < next
    requires p.depth.address == next + |Filled(p.request.inputs)|
    ensures AreBalanced(pending[f := p],
                        live + set a | a in MappedAddresses(p.request.inputs, next) + [p.depth.address])
  {
    var more := set a | a in MappedAddresses(p.request.inputs, next) + [p.depth.address];
    forall a ensures a in more <==> Owns(p, a) {
      OwnsMapped(p, next, a);
    }
    AddOwner(pending, live, f, p, more);
  }

  lemma RemoveKeepsBalance(cfg: Config, pending: map<nat, PendingDepthRequest>, live: set<nat>, f: nat)
    requires cfg.Valid() && AreBalanced(pending, live) && f in pending && MappedFor(cfg, pending[f])
    requires DistinctStreams(pending[f].request.inputs) && InputsOn(pending[f].request, cfg.SensorStreams())
    requires Filed(cfg, pending[f].inputs, pending[f].request.inputs)
    ensures
      var p := pending[f];
      AreBalanced(pending - {f}, live - set a | a in Released(cfg, p.inputs, p.request.inputs) + [p.depth.address])
  {
    var p := pending[f];
    var base := p.depth.address - |Filled(p.request.inputs)|;
    ReleasesWhatWasMapped(cfg, p.request.inputs, base);
    var gone := set a | a in MappedAddresses(p.request.inputs, base) + [p.depth.address];
    forall a ensures a in gone <==> Owns(p, a) {
      OwnsMapped(p, base, a);
    }
    DropOwner(pending, live, f, gone);
  }

  lemma FiledHere(cfg: Config, p: PendingDepthRequest, i: nat)
    requires MappedFor(cfg, p) && i < |p.request.inputs|
    requires IsFilled(p.request.inputs[i]) && p.request.inputs[i].streamId in cfg.SensorStreams()
    ensures p.inputs.Of(cfg, p.request.inputs[i].streamId) != []
  {
    OneFiled(cfg, p.request.inputs, p.depth.address - |Filled(p.request.inputs)|, i);
  }

  lemma {:induction false} OneFiled(cfg: Config, inputs: seq<StreamBuffer>, base: nat, i: nat)
    requires i < |inputs| && IsFilled(inputs[i]) && inputs[i].streamId in cfg.SensorStreams()
    ensures MapInputs(cfg, inputs, base).Of(cfg, inputs[i].streamId) != []
  {
    if i < |inputs| - 1 {
      OneFiled(cfg, inputs[..|inputs| - 1], base, i);
    }
  }

  method MarkErrors(s: seq<StreamBuffer>, id: int) returns (r: seq<StreamBuffer>)
    ensures r == WithError(s, id)
    ensures |r| == |s|
    ensures forall i :: 0 <= i < |s| ==> r[i] == if s[i].streamId == id then s[i].(status := BufferError) else s[i]
  {
    r := s;
    for i := 0 to |s|
      invariant |r| == |s|
      invariant forall k :: 0 <= k < |s| ==>
                  r[k] == if k < i && s[k].streamId == id then s[k].(status := BufferError) else s[k]
    {
      if r[i].streamId == id {
        r := r[i := r[i].(status := BufferError)];
      }
    }
  }
}
