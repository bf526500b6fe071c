// What the framework gets from the depth chain: the framework buffers of every RGB result, each
// depth buffer exactly once, and never an internal buffer or a place holder.
module DepthDelivery {
  import opened HalTypes
  import opened StreamBuffers
  import opened DepthModel
  import opened DepthSlots
  import opened DepthRuns
  import opened DepthMapping

  lemma {:induction false} OutsideConcat(a: seq<StreamBuffer>, b: seq<StreamBuffer>, ids: set<int>)
    ensures Outside(a + b, ids) == Outside(a, ids) + Outside(b, ids)
    ensures Within(a + b, ids) == Within(a, ids) + Within(b, ids)
  {
    if b == [] {
      assert a + b == a;
    } else {
      var front := b[..|b| - 1];
      assert (a + b)[..|a + b| - 1] == a + front;
      OutsideConcat(a, front, ids);
    }
  }

  lemma EmptyWithin(s: seq<StreamBuffer>, id: int)
    requires Within(s, {id}) == []
    ensures Outside(s, {id}) == s
  {
    WithinMembers(s, {id});
    SelectNoneOrAll(s, {id});
  }

  lemma WithinBefore(s: seq<StreamBuffer>, id: int, k: nat)
    requires k == SlotOn(s, id, -1)
    ensures Within(s[..k], {id}) == []
  {
    SelectNoneOrAll(s[..k], {id});
  }

  // Erasing the first of at most one buffer of a stream erases them all.
  lemma WithoutFirstIsOutside(s: seq<StreamBuffer>, id: int)
    requires |Within(s, {id})| <= 1
    ensures WithoutFirst(s, id) == Outside(s, {id})
  {
    var k := SlotOn(s, id, -1);
    WithinBefore(s, id, k);
    EmptyWithin(s[..k], id);
    if k == |s| {
      assert s[..k] == s;
    } else {
      Around(s, k);
      SplitAround(s[..k], s[k], s[k + 1..], id);
    }
  }

  lemma Around(s: seq<StreamBuffer>, k: nat)
    requires k < |s|
    ensures s == s[..k] + [s[k]] + s[k + 1..]
  {
  }

  lemma SplitAround(a: seq<StreamBuffer>, b: StreamBuffer, c: seq<StreamBuffer>, id: int)
    requires b.streamId == id && Within(a, {id}) == [] && Outside(a, {id}) == a
    requires |Within(a + [b] + c, {id})| <= 1
    ensures Outside(a + [b] + c, {id}) == a + c
  {
    OutsideConcat(a + [b], c, {id});
    assert (a + [b])[..|a|] == a;
    EmptyWithin(c, id);
  }

  lemma {:induction false} OutsideYuvIsFramework(cfg: Config, s: seq<StreamBuffer>)
    requires cfg.Valid()
    requires forall b :: b in s ==> b.streamId == cfg.yuvStream || b.streamId in cfg.frameworkStreams
    ensures Outside(s, {cfg.yuvStream}) == Within(s, cfg.frameworkStreams)
  {
    if s != [] {
      var front := s[..|s| - 1];
      assert s[|s| - 1] in s && forall b :: b in front ==> b in s;
      OutsideYuvIsFramework(cfg, front);
    }
  }

  lemma FrameworkTwice(cfg: Config, s: seq<StreamBuffer>)
    ensures Within(Within(s, cfg.frameworkStreams), cfg.frameworkStreams) == Within(s, cfg.frameworkStreams)
  {
    WithinMembers(s, cfg.frameworkStreams);
    SelectNoneOrAll(Within(s, cfg.frameworkStreams), cfg.frameworkStreams);
  }

  lemma KeptForFramework(cfg: Config, s: FrameState, r: CaptureResult)
    requires cfg.Valid() && GoodResult(cfg, cfg.rgbCamera, r)
    ensures WithoutFirst(Kept(cfg, s, r), cfg.yuvStream) == Within(r.outputs, cfg.frameworkStreams)
  {
    var framework := Within(r.outputs, cfg.frameworkStreams);
    OutsideYuvIsFramework(cfg, r.outputs);
    FrameworkTwice(cfg, r.outputs);
    if KeepsNoInternal(cfg, s) || !cfg.IsAutocal(r.frame) {
      assert Kept(cfg, s, r) == framework;
      NoYuvOnFramework(cfg, r.outputs);
      WithoutFirstIsOutside(framework, cfg.yuvStream);
      WithinMembers(r.outputs, cfg.frameworkStreams);
      SelectNoneOrAll(framework, {cfg.yuvStream});
    } else {
      WithoutFirstIsOutside(r.outputs, cfg.yuvStream);
    }
  }

  // What an RGB result delivers: its framework buffers in order, with its metadata; nothing if it
  // has only YUV buffers that no depth request can use.
  function RgbDelivery(cfg: Config, r: CaptureResult): seq<CaptureResult> {
    if BringsNothing(cfg, r) then [] else [r.(outputs := Within(r.outputs, cfg.frameworkStreams))]
  }

  predicate BringsNothing(cfg: Config, r: CaptureResult) {
    && !(cfg.autocalEnabled && r.frame == AUTOCAL_FRAME_NUMBER)
    && r.metadata.None? && r.inputs == []
    && r.outputs != [] && forall b :: b in r.outputs ==> b.streamId == cfg.yuvStream
  }

  lemma OnlySpareIff(cfg: Config, r: CaptureResult)
    requires cfg.Valid()
    ensures IsOnlySpare(cfg, r) <==> BringsNothing(cfg, r)
  {
    WithinMembers(r.outputs, {cfg.yuvStream});
    OutsideMembers(r.outputs, {cfg.yuvStream});
    SelectNoneOrAll(r.outputs, {cfg.yuvStream});
    if Outside(r.outputs, {cfg.yuvStream}) == [] && r.outputs != [] {
      assert forall b :: b in r.outputs ==> b.streamId == cfg.yuvStream;
      assert r.outputs[0] in r.outputs;
    }
  }

  lemma RgbReachesFramework(cfg: Config, f: nat, s: FrameState, a: Arrivals, admitted: bool, r: CaptureResult)
    requires cfg.Valid() && Inv(cfg, f, s, a, admitted) && r.frame == f
    requires GoodResult(cfg, cfg.rgbCamera, r) && Novel(cfg, a, cfg.rgbCamera, r)
    ensures StepResult(cfg, s, cfg.rgbCamera, r).log.delivered == s.log.delivered + RgbDelivery(cfg, r)
  {
    OnlySpareIff(cfg, r);
    if !IsOnlySpare(cfg, r) {
      RgbSubmits(cfg, f, s, a, admitted, r);
      KeptForFramework(cfg, s, r);
      RgbResultDelivers(cfg, r, s);
    }
  }

  lemma RgbResultDelivers(cfg: Config, r: CaptureResult, s: FrameState)
    requires !IsOnlySpare(cfg, r)
    requires TrySubmit(cfg, AfterReturns(cfg, s, r), cfg.rgbCamera, r.(outputs := Kept(cfg, s, r))).1
    ensures StepResult(cfg, s, cfg.rgbCamera, r) ==
            Deliver(TrySubmit(cfg, AfterReturns(cfg, s, r), cfg.rgbCamera, r.(outputs := Kept(cfg, s, r))).0,
                    r.(outputs := WithoutFirst(Kept(cfg, s, r), cfg.yuvStream)))
  {
  }

  function AfterReturns(cfg: Config, s: FrameState, r: CaptureResult): FrameState {
    Return(Return(s, multiset(SpareYuv(cfg, r.frame, r.outputs))), Unkept(cfg, s, r))
  }

  lemma RgbSubmits(cfg: Config, f: nat, s: FrameState, a: Arrivals, admitted: bool, r: CaptureResult)
    requires cfg.Valid() && Inv(cfg, f, s, a, admitted) && r.frame == f
    requires GoodResult(cfg, cfg.rgbCamera, r) && Novel(cfg, a, cfg.rgbCamera, r)
    ensures
      var (s', ok) := TrySubmit(cfg, AfterReturns(cfg, s, r), cfg.rgbCamera, r.(outputs := Kept(cfg, s, r)));
      ok && s'.log.delivered == s.log.delivered
  {
    RgbLatchKeeps(cfg, f, s, a, admitted, r);
    RgbSplit(cfg, s, r);
    var l := RgbLatch(cfg, f, s, r);
    var s1 := AfterReturns(cfg, s, r);
    TrySubmitIs(cfg, s1, cfg.rgbCamera, r.(outputs := Kept(cfg, s, r)), l);
    if l.updated {
      AlignedIsAccepted(cfg, f, s1.(latched := l.request), l.back);
    }
  }

  lemma AlignedIsAccepted(cfg: Config, f: nat, s: FrameState, back: multiset<StreamBuffer>)
    requires s.latched.Some? && s.pending.None? && Aligned(cfg, f, s.latched.value)
    ensures
      var (s', ok) := VerifyAndSubmit(cfg, f, Return(s, back));
      ok && s'.log.delivered == s.log.delivered
  {
    if IsReady(cfg, f, s.latched.value) { ReadyIsAccepted(cfg, f, s.latched.value); }
  }

  lemma FailedLatchWithholds(cfg: Config, s: FrameState, r: CaptureResult)
    requires cfg.Valid() && GoodResult(cfg, cfg.rgbCamera, r) && !IsOnlySpare(cfg, r)
    requires LatchBuffers(cfg, r.frame, cfg.rgbCamera, s.latched, RgbInputs(cfg, r.frame, s, r)).failed
    ensures StepResult(cfg, s, cfg.rgbCamera, r).log.delivered == s.log.delivered
  {
    RgbSplit(cfg, s, r);
  }

  // A second YUV buffer for an auto-calibration frame whose metadata is in finds its slot taken: the
  // result fails and the framework does not get it, whatever else it has.
  lemma SecondYuvWithholds(cfg: Config, s: FrameState, r: CaptureResult, b: StreamBuffer, k: nat)
    requires cfg.Valid() && !cfg.forceInternal && GoodResult(cfg, cfg.rgbCamera, r) && s.latched.Some?
    requires cfg.autocalEnabled && r.frame == AUTOCAL_FRAME_NUMBER && Within(r.outputs, {cfg.yuvStream}) == [b]
    requires
      var q := s.latched.value;
      && k < |q.inputs| && k < |q.metadata| && q.metadata[k].Some? && IsFilled(q.inputs[k])
      && forall i :: 0 <= i < |q.metadata| && i != k ==> q.metadata[i].None?
    ensures StepResult(cfg, s, cfg.rgbCamera, r).log.delivered == s.log.delivered
  {
    MetadataSlotIs(s.latched.value.metadata, k);
    LatchOnly(cfg, r.frame, cfg.rgbCamera, s.latched, b);
    WithinOn(r.outputs, cfg.yuvStream, b);
    FailedLatchWithholds(cfg, s, r);
  }

  // ---------- Depth buffers ----------

  // The depth buffers among the delivered results.
  function DepthBuffers(cfg: Config, rs: seq<CaptureResult>): seq<StreamBuffer> {
    if rs == [] then []
    else DepthBuffers(cfg, rs[..|rs| - 1]) + Within(rs[|rs| - 1].outputs, {cfg.depthStream})
  }

  // The depth buffer admitted for the frame.
  function AdmittedDepth(cfg: Config, f: nat, es: seq<Event>): Option<StreamBuffer> {
    if es == [] then None
    else
      var e := es[|es| - 1];
      var k := if e.Admit? then SlotOn(e.outputs, cfg.depthStream, -1) else 0;
      if e.Admit? && e.frame == f && k < |e.outputs| then Some(e.outputs[k])
      else AdmittedDepth(cfg, f, es[..|es| - 1])
  }

  // The buffer, whatever its status has become.
  predicate SameBuffer(b: StreamBuffer, c: StreamBuffer) {
    b == c.(status := b.status)
  }

  // The admitted depth buffer is latched, in the depth block, or delivered: exactly one of these.
  // A request is submitted at most once.
  ghost predicate OwedOnce(cfg: Config, s: FrameState, owed: Option<StreamBuffer>) {
    var out := DepthBuffers(cfg, s.log.delivered);
    match owed
    case None => s.latched.None? && s.pending.None? && s.log.submitted == [] && out == []
    case Some(b) =>
      && b.streamId == cfg.depthStream
      && if s.latched.Some? then
           s.pending.None? && s.log.submitted == [] && s.latched.value.outputs == [b] && out == []
         else if s.pending.Some? then
           |s.log.submitted| == 1 && s.pending.value.outputs == [b] && out == []
         else
           |s.log.submitted| <= 1 && |out| == 1 && SameBuffer(out[0], b)
  }

  ghost predicate OnlyFramework(cfg: Config, rs: seq<CaptureResult>) {
    forall i, b :: 0 <= i < |rs| && b in rs[i].outputs ==> b.streamId in cfg.frameworkStreams
  }

  lemma DeliverOne(cfg: Config, rs: seq<CaptureResult>, r: CaptureResult)
    ensures DepthBuffers(cfg, rs + [r]) == DepthBuffers(cfg, rs) + Within(r.outputs, {cfg.depthStream})
  {
    assert (rs + [r])[..|rs|] == rs;
  }

  lemma SingleOutput(cfg: Config, b: StreamBuffer)
    requires b.streamId == cfg.depthStream
    ensures Within([b], {cfg.depthStream}) == [b]
    ensures SlotOn([b], cfg.depthStream, -1) == 0
    ensures WithError([b], cfg.depthStream) == FlushedOutputs(cfg, [b]) == [b.(status := BufferError)]
  {
    assert Within([], {cfg.depthStream}) == [];
    assert [b][..0] == [];
  }

  // Deliveries made up of anything but depth buffers change nothing about what is owed.
  lemma RgbOwes(cfg: Config, f: nat, s: FrameState, a: Arrivals, admitted: bool, r: CaptureResult,
                owed: Option<StreamBuffer>)
    requires cfg.Valid() && Inv(cfg, f, s, a, admitted) && r.frame == f
    requires GoodResult(cfg, cfg.rgbCamera, r) && Novel(cfg, a, cfg.rgbCamera, r)
    requires OwedOnce(cfg, s, owed) && OnlyFramework(cfg, s.log.delivered)
    ensures OwedOnce(cfg, StepResult(cfg, s, cfg.rgbCamera, r), owed)
    ensures OnlyFramework(cfg, StepResult(cfg, s, cfg.rgbCamera, r).log.delivered)
  {
    RgbReachesFramework(cfg, f, s, a, admitted, r);
    RgbLatchKeeps(cfg, f, s, a, admitted, r);
    RgbStep(cfg, s, r);
    NoDepthInDelivery(cfg, s.log.delivered, r);
    AfterLatchOwes(cfg, f, s, RgbLatch(cfg, f, s, r), RgbBack(cfg, f, s, r),
                   s.log.delivered + RgbDelivery(cfg, r), owed);
  }

  lemma NoDepthInDelivery(cfg: Config, delivered: seq<CaptureResult>, r: CaptureResult)
    requires cfg.Valid() && GoodResult(cfg, cfg.rgbCamera, r) && OnlyFramework(cfg, delivered)
    ensures DepthBuffers(cfg, delivered + RgbDelivery(cfg, r)) == DepthBuffers(cfg, delivered)
    ensures OnlyFramework(cfg, delivered + RgbDelivery(cfg, r))
  {
    if BringsNothing(cfg, r) {
      assert delivered + RgbDelivery(cfg, r) == delivered;
    } else {
      var framework := r.(outputs := Within(r.outputs, cfg.frameworkStreams));
      WithinMembers(r.outputs, cfg.frameworkStreams);
      SelectNoneOrAll(framework.outputs, {cfg.depthStream});
      DeliverOne(cfg, delivered, framework);
    }
  }

  lemma AfterLatchOwes(cfg: Config, f: nat, s: FrameState, l: Latch, back: multiset<StreamBuffer>,
                       delivered: seq<CaptureResult>, owed: Option<StreamBuffer>)
    requires OwedOnce(cfg, s, owed) && DepthBuffers(cfg, delivered) == DepthBuffers(cfg, s.log.delivered)
    requires l.request.Some? <==> s.latched.Some?
    requires l.request.Some? ==> l.request.value.outputs == s.latched.value.outputs
    requires l.updated ==> l.request.Some?
    ensures
      var s' := AfterLatch(cfg, f, s, l, back);
      OwedOnce(cfg, s'.(log := s'.log.(delivered := delivered)), owed)
  {
  }

  lemma IrOwes(cfg: Config, f: nat, s: FrameState, a: Arrivals, admitted: bool, camera: nat, r: CaptureResult,
               owed: Option<StreamBuffer>)
    requires cfg.Valid() && Inv(cfg, f, s, a, admitted) && r.frame == f && camera != cfg.rgbCamera
    requires GoodResult(cfg, camera, r) && Novel(cfg, a, camera, r)
    requires OwedOnce(cfg, s, owed)
    ensures OwedOnce(cfg, StepResult(cfg, s, camera, r), owed)
    ensures StepResult(cfg, s, camera, r).log.delivered == s.log.delivered
  {
    if r.outputs == [] {
      EmptyIrStep(cfg, s, camera, r);
    } else {
      var b := r.outputs[0];
      if s.latched.Some? { NotLatchedYet(cfg, f, s, a, admitted, b.streamId); }
      IrLatchKeeps(cfg, f, s, a, admitted, b);
      IrStep(cfg, s, camera, r, b);
      QuietLatchOwes(cfg, f, s, IrLatch(cfg, s, b), IrBack(cfg, s, b), owed);
    }
  }

  lemma QuietLatchOwes(cfg: Config, f: nat, s: FrameState, l: Latch, back: multiset<StreamBuffer>,
                       owed: Option<StreamBuffer>)
    requires OwedOnce(cfg, s, owed)
    requires l.request.Some? <==> s.latched.Some?
    requires l.request.Some? ==> l.request.value.outputs == s.latched.value.outputs
    requires l.updated ==> l.request.Some?
    ensures OwedOnce(cfg, AfterLatch(cfg, f, s, l, back), owed)
    ensures AfterLatch(cfg, f, s, l, back).log.delivered == s.log.delivered
  {
    AfterLatchOwes(cfg, f, s, l, back, s.log.delivered, owed);
  }

  lemma OneMoreFramework(cfg: Config, rs: seq<CaptureResult>, f: nat, b: StreamBuffer)
    requires OnlyFramework(cfg, rs) && b.streamId in cfg.frameworkStreams
    ensures OnlyFramework(cfg, rs + [CaptureResult(f, None, [b], [])])
  {
  }

  lemma OneMoreDepth(cfg: Config, rs: seq<CaptureResult>, f: nat, b: StreamBuffer)
    requires b.streamId == cfg.depthStream
    ensures DepthBuffers(cfg, rs + [CaptureResult(f, None, [b], [])]) == DepthBuffers(cfg, rs) + [b]
  {
    SingleOutput(cfg, b);
    DeliverOne(cfg, rs, CaptureResult(f, None, [b], []));
  }

  // Delivering the owed depth buffer, whatever its status, settles the frame.
  lemma SettleOwes(cfg: Config, f: nat, s: FrameState, b: StreamBuffer, b': StreamBuffer, log: Log)
    requires cfg.Valid() && OwedOnce(cfg, s, Some(b)) && DepthBuffers(cfg, s.log.delivered) == []
    requires SameBuffer(b', b) && OnlyFramework(cfg, s.log.delivered) && |s.log.submitted| <= 1
    requires log.delivered == s.log.delivered + [CaptureResult(f, None, [b'], [])] && log.submitted == s.log.submitted
    ensures OwedOnce(cfg, FrameState(None, None, log), Some(b))
    ensures OnlyFramework(cfg, log.delivered)
  {
    assert b'.streamId == cfg.depthStream;
    OneMoreDepth(cfg, s.log.delivered, f, b');
    OneMoreFramework(cfg, s.log.delivered, f, b');
  }

  lemma DoneOwes(cfg: Config, f: nat, s: FrameState, owed: Option<StreamBuffer>, ok: bool)
    requires cfg.Valid() && OwedOnce(cfg, s, owed) && OnlyFramework(cfg, s.log.delivered)
    ensures OwedOnce(cfg, StepDone(cfg, f, s, ok), owed)
    ensures OnlyFramework(cfg, StepDone(cfg, f, s, ok).log.delivered)
  {
    if s.pending.Some? && InputsOn(s.pending.value, cfg.SensorStreams()) {
      SingleOutput(cfg, owed.value);
      var b := if ok then owed.value else owed.value.(status := BufferError);
      SettleOwes(cfg, f, s, owed.value, b, StepDone(cfg, f, s, ok).log);
    }
  }

  lemma FlushOwes(cfg: Config, f: nat, s: FrameState, owed: Option<StreamBuffer>)
    requires cfg.Valid() && OwedOnce(cfg, s, owed) && OnlyFramework(cfg, s.log.delivered)
    ensures OwedOnce(cfg, StepFlush(cfg, f, s), owed)
    ensures OnlyFramework(cfg, StepFlush(cfg, f, s).log.delivered)
  {
    if s.latched.Some? {
      SingleOutput(cfg, owed.value);
      SettleOwes(cfg, f, s, owed.value, owed.value.(status := BufferError), StepFlush(cfg, f, s).log);
    }
  }

  lemma AdmitOwes(cfg: Config, f: nat, s: FrameState, outputs: seq<StreamBuffer>)
    requires OwedOnce(cfg, s, None)
    ensures
      var k := SlotOn(outputs, cfg.depthStream, -1);
      OwedOnce(cfg, StepAdmit(cfg, s, outputs), if k < |outputs| then Some(outputs[k]) else None)
  {
  }

  lemma {:induction false} AdmittedDepthAdmits(cfg: Config, f: nat, es: seq<Event>)
    requires AdmittedDepth(cfg, f, es).Some?
    ensures Admits(es, f)
  {
    if es != [] {
      AdmitsLast(es, f);
      if !(es[|es| - 1].Admit? && es[|es| - 1].frame == f) {
        AdmittedDepthAdmits(cfg, f, es[..|es| - 1]);
      }
    }
  }

  // Over every orderly run, flushes and depth failures included: a frame's depth buffer is owed or
  // delivered exactly once, its request is submitted at most once, and the framework sees only
  // buffers of its own streams.
  lemma {:induction false} DepthBufferDeliveredOnce(cfg: Config, f: nat, es: seq<Event>)
    requires cfg.Valid() && Orderly(cfg, f, es)
    ensures OwedOnce(cfg, Run(cfg, f, es), AdmittedDepth(cfg, f, es))
    ensures OnlyFramework(cfg, Run(cfg, f, es).log.delivered)
  {
    if es != [] {
      var before, e := es[..|es| - 1], es[|es| - 1];
      DepthBufferDeliveredOnce(cfg, f, before);
      RunKeeps(cfg, f, before);
      var s, a, admitted := Run(cfg, f, before), Arrived(cfg, f, before), Admits(before, f);
      var owed := AdmittedDepth(cfg, f, before);
      match e
      case Admit(frame, outputs) =>
        if frame == f {
          if owed.Some? { AdmittedDepthAdmits(cfg, f, before); }
          AdmitOwes(cfg, f, s, outputs);
        }
      case Result(camera, r) =>
        if r.frame == f {
          if camera == cfg.rgbCamera { RgbOwes(cfg, f, s, a, admitted, r, owed); }
          else { IrOwes(cfg, f, s, a, admitted, camera, r, owed); }
        }
      case Done(frame, ok) => DoneOwes(cfg, f, s, owed, ok);
      case Flush => FlushOwes(cfg, f, s, owed);
    }
  }

  lemma StepDoneDelivers(cfg: Config, f: nat, s: FrameState, b: StreamBuffer, ok: bool)
    requires s.pending.Some? && InputsOn(s.pending.value, cfg.SensorStreams())
    requires s.pending.value.outputs == [b] && b.streamId == cfg.depthStream
    ensures StepDone(cfg, f, s, ok).log.delivered ==
            s.log.delivered + [CaptureResult(f, None, [if ok then b else b.(status := BufferError)], [])]
  {
    SingleOutput(cfg, b);
  }

  lemma RunOwes(cfg: Config, f: nat, es: seq<Event>, b: StreamBuffer)
    requires cfg.Valid() && Orderly(cfg, f, es) && AdmittedDepth(cfg, f, es) == Some(b)
    ensures b.streamId == cfg.depthStream
    ensures Run(cfg, f, es).latched.Some? ==> Run(cfg, f, es).latched.value.outputs == [b]
    ensures Run(cfg, f, es).pending.Some? ==>
              Run(cfg, f, es).pending.value.outputs == [b]
              && InputsOn(Run(cfg, f, es).pending.value, cfg.SensorStreams())
  {
    DepthBufferDeliveredOnce(cfg, f, es);
    RunKeeps(cfg, f, es);
    if Run(cfg, f, es).pending.Some? { AlignedOnSensors(cfg, f, Run(cfg, f, es).pending.value); }
  }

  lemma RunNext(cfg: Config, f: nat, es: seq<Event>, e: Event)
    ensures Run(cfg, f, es + [e]) == Step(cfg, f, Run(cfg, f, es), e)
  {
    assert (es + [e])[..|es|] == es;
  }

  // The admitted depth buffer of a frame in the depth block is delivered as it is if the depth engine
  // succeeds and as a failed one otherwise, with nothing else; a report on any other frame changes nothing.
  lemma CompletionDelivers(cfg: Config, f: nat, es: seq<Event>, ok: bool, b: StreamBuffer)
    requires cfg.Valid() && Orderly(cfg, f, es)
    ensures
      var (s, s') := (Run(cfg, f, es), Run(cfg, f, es + [Done(f, ok)]));
      && (s.pending.None? ==> s' == s)
      && (s.pending.Some? && AdmittedDepth(cfg, f, es) == Some(b) ==>
            s'.log.delivered ==
            s.log.delivered + [CaptureResult(f, None, [if ok then b else b.(status := BufferError)], [])])
  {
    RunNext(cfg, f, es, Done(f, ok));
    if Run(cfg, f, es).pending.Some? && AdmittedDepth(cfg, f, es) == Some(b) {
      RunOwes(cfg, f, es, b);
      StepDoneDelivers(cfg, f, Run(cfg, f, es), b, ok);
    }
  }

  lemma StepFlushDelivers(cfg: Config, f: nat, s: FrameState, b: StreamBuffer)
    requires s.latched.Some? && s.latched.value.outputs == [b] && b.streamId == cfg.depthStream
    ensures StepFlush(cfg, f, s).log.delivered ==
            s.log.delivered + [CaptureResult(f, None, [b.(status := BufferError)], [])]
    ensures StepFlush(cfg, f, s).log.bufferErrors == s.log.bufferErrors + 1
  {
    SingleOutput(cfg, b);
  }

  // A flush fails the depth buffer of a waiting request, with one buffer error, and changes nothing
  // about a frame without one.
  lemma FlushDelivers(cfg: Config, f: nat, es: seq<Event>, b: StreamBuffer)
    requires cfg.Valid() && Orderly(cfg, f, es)
    ensures
      var (s, s') := (Run(cfg, f, es), Run(cfg, f, es + [Flush]));
      && (s.latched.None? ==> s' == s)
      && (s.latched.Some? && AdmittedDepth(cfg, f, es) == Some(b) ==>
            && s'.log.delivered == s.log.delivered + [CaptureResult(f, None, [b.(status := BufferError)], [])]
            && s'.log.bufferErrors == s.log.bufferErrors + 1)
  {
    RunNext(cfg, f, es, Flush);
    if Run(cfg, f, es).latched.Some? && AdmittedDepth(cfg, f, es) == Some(b) {
      RunOwes(cfg, f, es, b);
      StepFlushDelivers(cfg, f, Run(cfg, f, es), b);
    }
  }

  lemma ErrorsOnlyByFlush(cfg: Config, f: nat, s: FrameState, e: Event)
    ensures Step(cfg, f, s, e).log.bufferErrors == s.log.bufferErrors + if e.Flush? && s.latched.Some? then 1 else 0
  {
    if e.Result? && e.result.frame == f { NoErrorByResult(cfg, s, e.camera, e.result); }
  }

  lemma NoErrorBySubmission(cfg: Config, s: FrameState, camera: nat, r: CaptureResult)
    ensures TrySubmit(cfg, s, camera, r).0.log.bufferErrors == s.log.bufferErrors
  {
  }

  lemma NoErrorByKept(cfg: Config, s: FrameState, camera: nat, r: CaptureResult)
    ensures StepKept(cfg, s, camera, r).log.bufferErrors == s.log.bufferErrors
  {
    NoErrorBySubmission(cfg, s, camera, r);
  }

  lemma NoErrorByResult(cfg: Config, s: FrameState, camera: nat, r: CaptureResult)
    ensures StepResult(cfg, s, camera, r).log.bufferErrors == s.log.bufferErrors
  {
    NoErrorByKept(cfg, AfterReturns(cfg, s, r), camera, r.(outputs := Kept(cfg, s, r)));
  }

  // How many of the flushes found a request of the frame waiting.
  function FlushedRequests(cfg: Config, f: nat, es: seq<Event>): nat {
    if es == [] then 0
    else
      FlushedRequests(cfg, f, es[..|es| - 1])
      + if es[|es| - 1].Flush? && Run(cfg, f, es[..|es| - 1]).latched.Some? then 1 else 0
  }

  // There is one buffer error for each request that is flushed, and no other.
  lemma {:induction false} OneErrorPerFlushedRequest(cfg: Config, f: nat, es: seq<Event>)
    ensures Run(cfg, f, es).log.bufferErrors == FlushedRequests(cfg, f, es)
  {
    if es != [] {
      OneErrorPerFlushedRequest(cfg, f, es[..|es| - 1]);
      ErrorsOnlyByFlush(cfg, f, Run(cfg, f, es[..|es| - 1]), es[|es| - 1]);
    }
  }

  // A request without a depth buffer, or for a frame that has one waiting, changes nothing.
  lemma AdmissionIgnored(cfg: Config, f: nat, es: seq<Event>, outputs: seq<StreamBuffer>)
    requires Run(cfg, f, es).latched.Some? || forall b :: b in outputs ==> b.streamId != cfg.depthStream
    ensures Run(cfg, f, es + [Admit(f, outputs)]) == Run(cfg, f, es)
  {
    RunNext(cfg, f, es, Admit(f, outputs));
    var k := SlotOn(outputs, cfg.depthStream, -1);
    if k < |outputs| { assert outputs[k] in outputs; }
  }

  // Whatever the depth engine reports on a pending frame settles it: every input goes back and the
  // request leaves the depth block.
  lemma {:induction false} DoneSettles(cfg: Config, f: nat, es: seq<Event>, ok: bool)
    requires cfg.Valid() && Orderly(cfg, f, es)
    ensures
      var s, s' := Run(cfg, f, es), Run(cfg, f, es + [Done(f, ok)]);
      && s'.pending.None? && s'.latched == s.latched
      && s'.log.returned == s.log.returned + Held(s.pending)
  {
    RunKeeps(cfg, f, es);
    assert (es + [Done(f, ok)])[..|es|] == es;
    var s := Run(cfg, f, es);
    if s.pending.Some? {
      AlignedOnSensors(cfg, f, s.pending.value);
    } else {
      assert s.log.returned + multiset{} == s.log.returned;
    }
  }

  lemma AlignedOnSensors(cfg: Config, f: nat, r: DepthRequest)
    requires Aligned(cfg, f, r)
    ensures InputsOn(r, cfg.SensorStreams()) && OnSensorStreams(cfg, r.inputs)
  {
  }

  // A request in the depth block can be unmapped, and that releases exactly what was mapped for
  // its inputs, each address once.
  lemma {:induction false} PendingUnmapsExactly(cfg: Config, f: nat, es: seq<Event>, base: nat)
    requires cfg.Valid() && Orderly(cfg, f, es) && Run(cfg, f, es).pending.Some?
    ensures
      var inputs := Run(cfg, f, es).pending.value.inputs;
      && Filed(cfg, MapInputs(cfg, inputs, base), inputs)
      && Released(cfg, MapInputs(cfg, inputs, base), inputs) == MappedAddresses(inputs, base)
  {
    RunKeeps(cfg, f, es);
    var r := Run(cfg, f, es).pending.value;
    AlignedOnSensors(cfg, f, r);
    ReleasesWhatWasMapped(cfg, r.inputs, base);
  }

  // In every orderly run the processor never has a request for a frame that is in the depth block,
  // and what is there can be unmapped exactly: the conditions under which the methods of the chain
  // keep mapped what belongs to the pending frames, and nothing else.
  lemma {:induction false} MappingsStayBalanced(cfg: Config, f: nat, es: seq<Event>)
    requires cfg.Valid() && Orderly(cfg, f, es)
    ensures
      var s := Run(cfg, f, es);
      && NeverBoth(s)
      && (s.pending.Some? ==>
            DistinctStreams(s.pending.value.inputs) && InputsOn(s.pending.value, cfg.SensorStreams()))
  {
    RunKeeps(cfg, f, es);
    if Run(cfg, f, es).pending.Some? { AlignedOnSensors(cfg, f, Run(cfg, f, es).pending.value); }
  }
}
