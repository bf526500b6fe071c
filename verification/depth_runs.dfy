// What every run of the depth chain keeps, for every frame and every interleaving of admissions,
// results, depth completions and flushes.
module DepthRuns {
  import opened HalTypes
  import opened StreamBuffers
  import opened DepthModel
  import opened DepthSlots

  // What a frame has received from the three pipelines, with no trace of the order.
  datatype Arrivals = Arrivals(
    ir1: Option<StreamBuffer>,
    ir2: Option<StreamBuffer>,
    yuv: Option<StreamBuffer>,
    metadata: Option<Metadata>)

  const NOTHING := Arrivals(None, None, None, None)

  // ---------- Assumptions on the environment ----------

  // IR results carry only their internal raw buffer; RGB results carry framework buffers and
  // at most one internal YUV buffer. The depth buffer is never sent to a camera.
  ghost predicate GoodResult(cfg: Config, camera: nat, r: CaptureResult) {
    || (camera == cfg.ir1Camera && |r.outputs| <= 1 && forall b :: b in r.outputs ==> b.streamId == cfg.ir1Stream)
    || (camera == cfg.ir2Camera && |r.outputs| <= 1 && forall b :: b in r.outputs ==> b.streamId == cfg.ir2Stream)
    || (camera == cfg.rgbCamera
        && |Within(r.outputs, {cfg.yuvStream})| <= 1
        && forall b :: b in r.outputs ==>
             b.streamId == cfg.yuvStream || b.streamId in cfg.frameworkStreams - {cfg.depthStream})
  }

  function Arrive(cfg: Config, a: Arrivals, camera: nat, r: CaptureResult): Arrivals {
    if camera == cfg.ir1Camera then
      if r.outputs != [] then a.(ir1 := Some(r.outputs[0])) else a
    else if camera == cfg.ir2Camera then
      if r.outputs != [] then a.(ir2 := Some(r.outputs[0])) else a
    else ArriveRgb(a, Within(r.outputs, {cfg.yuvStream}), r.metadata)
  }

  function ArriveRgb(a: Arrivals, yuv: seq<StreamBuffer>, metadata: Option<Metadata>): Arrivals {
    Arrivals(
      a.ir1, a.ir2,
      if yuv != [] then Some(yuv[0]) else a.yuv,
      if metadata.Some? then metadata else a.metadata)
  }

  // Each stream and the RGB metadata answer a frame once.
  ghost predicate Novel(cfg: Config, a: Arrivals, camera: nat, r: CaptureResult) {
    && (camera == cfg.ir1Camera && r.outputs != [] ==> a.ir1.None?)
    && (camera == cfg.ir2Camera && r.outputs != [] ==> a.ir2.None?)
    && (camera == cfg.rgbCamera && Within(r.outputs, {cfg.yuvStream}) != [] ==> a.yuv.None?)
    && (camera == cfg.rgbCamera && r.metadata.Some? ==> a.metadata.None?)
  }

  function Arrived(cfg: Config, f: nat, es: seq<Event>): Arrivals {
    if es == [] then NOTHING
    else
      var a := Arrived(cfg, f, es[..|es| - 1]);
      var e := es[|es| - 1];
      if e.Result? && e.result.frame == f then Arrive(cfg, a, e.camera, e.result) else a
  }

  ghost predicate Admits(es: seq<Event>, f: nat) {
    exists i :: 0 <= i < |es| && es[i].Admit? && es[i].frame == f
  }

  // Frame numbers are not reused, and every result of `f` is a good one that brings news.
  ghost predicate Orderly(cfg: Config, f: nat, es: seq<Event>) {
    es != [] ==>
      var before := es[..|es| - 1];
      var e := es[|es| - 1];
      && Orderly(cfg, f, before)
      && (e.Admit? && e.frame == f ==> !Admits(before, f))
      && (e.Result? && e.result.frame == f ==>
            GoodResult(cfg, e.camera, e.result) && Novel(cfg, Arrived(cfg, f, before), e.camera, e.result))
  }

  // ---------- The invariant ----------

  function Bag(b: Option<StreamBuffer>): multiset<StreamBuffer> {
    if b.Some? then multiset{b.value} else multiset{}
  }

  // All internal buffers received for the frame.
  function Received(a: Arrivals): multiset<StreamBuffer> {
    Bag(a.ir1) + Bag(a.ir2) + Bag(a.yuv)
  }

  function Held(r: Option<DepthRequest>): multiset<StreamBuffer> {
    if r.Some? then multiset(Filled(r.value.inputs)) else multiset{}
  }

  predicate Typed(cfg: Config, a: Arrivals) {
    && (a.ir1.Some? ==> a.ir1.value.streamId == cfg.ir1Stream)
    && (a.ir2.Some? ==> a.ir2.value.streamId == cfg.ir2Stream)
    && (a.yuv.Some? ==> a.yuv.value.streamId == cfg.yuvStream)
  }

  ghost predicate Inv(cfg: Config, f: nat, s: FrameState, a: Arrivals, admitted: bool) {
    && Typed(cfg, a)
    && (s.latched.Some? ==> Aligned(cfg, f, s.latched.value))
    && (s.latched.Some? && s.latched.value.metadata != [] ==> a.metadata.Some?)
    && (s.pending.Some? ==> Aligned(cfg, f, s.pending.value) && |s.pending.value.inputs| == 3)
    && (s.latched.Some? || s.pending.Some? ==> admitted)
    && (s.latched.None? || s.pending.None?)
    && Received(a) == Held(s.latched) + Held(s.pending) + s.log.returned
  }

  // A stream that has not answered yet has no buffer in the request.
  lemma NotLatchedYet(cfg: Config, f: nat, s: FrameState, a: Arrivals, admitted: bool, id: int)
    requires cfg.Valid() && Inv(cfg, f, s, a, admitted) && s.latched.Some?
    requires id in cfg.SensorStreams()
    requires id == cfg.ir1Stream ==> a.ir1.None?
    requires id == cfg.ir2Stream ==> a.ir2.None?
    requires id == cfg.yuvStream ==> a.yuv.None?
    ensures NoneOn(s.latched.value.inputs, id)
  {
    var inputs := s.latched.value.inputs;
    forall i | 0 <= i < |inputs| ensures inputs[i].streamId != id {
      if IsFilled(inputs[i]) {
        HeldHas(s.latched.value, i);
        assert inputs[i] in Held(s.latched) && inputs[i] in Received(a);
      }
    }
  }

  lemma HeldHas(r: DepthRequest, i: nat)
    requires i < |r.inputs| && IsFilled(r.inputs[i])
    ensures r.inputs[i] in Held(Some(r))
  {
    FilledCount(r.inputs);
    assert r.inputs[i] in multiset(r.inputs);
  }

  // ---------- What one result does ----------

  // The depth inputs of an RGB result are its YUV buffer, and only on the auto-calibration frame.
  lemma {:induction false} LatchRgb(cfg: Config, f: nat, request: Option<DepthRequest>, outputs: seq<StreamBuffer>)
    requires cfg.Valid()
    ensures LatchBuffers(cfg, f, cfg.rgbCamera, request, outputs) ==
            LatchBuffers(cfg, f, cfg.rgbCamera, request,
                         if cfg.IsAutocal(f) then Within(outputs, {cfg.yuvStream}) else [])
  {
    if outputs != [] {
      var front, b := outputs[..|outputs| - 1], outputs[|outputs| - 1];
      LatchRgb(cfg, f, request, front);
      if cfg.IsAutocal(f) && b.streamId == cfg.yuvStream {
        var w := Within(outputs, {cfg.yuvStream});
        assert w[..|w| - 1] == Within(front, {cfg.yuvStream});
      } else {
        assert Within(outputs, {cfg.yuvStream}) == Within(front, {cfg.yuvStream}) || !cfg.IsAutocal(f);
      }
    }
  }

  lemma LatchOnly(cfg: Config, f: nat, camera: nat, request: Option<DepthRequest>, b: StreamBuffer)
    ensures LatchBuffers(cfg, f, camera, request, [b]) ==
            LatchOne(cfg, f, camera, Latch(request, multiset{}, false, false), b)
  {
    assert [b][..0] == [];
  }

  // Latching buffers does not create or remove the request, and without one nothing is latched.
  lemma {:induction false} LatchKeepsRequest(cfg: Config, f: nat, camera: nat, request: Option<DepthRequest>,
                                             outputs: seq<StreamBuffer>)
    ensures
      var l := LatchBuffers(cfg, f, camera, request, outputs);
      (l.request.Some? <==> request.Some?) && (request.None? ==> !l.updated)
  {
    if outputs != [] { LatchKeepsRequest(cfg, f, camera, request, outputs[..|outputs| - 1]); }
  }

  // Submitting moves the request, it neither drops nor duplicates a buffer.
  lemma VerifyKeeps(cfg: Config, f: nat, s: FrameState, a: Arrivals, admitted: bool)
    requires cfg.Valid() && Inv(cfg, f, s, a, admitted) && s.latched.Some?
    ensures
      var (s', ok) := VerifyAndSubmit(cfg, f, s);
      ok && Inv(cfg, f, s', a, admitted) && s'.log.delivered == s.log.delivered
  {
  }

  // What a result comes to, deliveries aside.
  function AfterLatch(cfg: Config, f: nat, s: FrameState, l: Latch, back: multiset<StreamBuffer>): FrameState {
    var s1 := Return(s.(latched := l.request), back);
    if l.updated then VerifyAndSubmit(cfg, f, s1).0 else s1
  }

  lemma TrySubmitIs(cfg: Config, s: FrameState, camera: nat, r: CaptureResult, l: Latch)
    requires l == LatchMetadata(cfg, camera, LatchBuffers(cfg, r.frame, camera, s.latched, r.outputs), r.metadata)
    requires !l.failed
    ensures
      var s1 := Return(s.(latched := l.request), l.back);
      TrySubmit(cfg, s, camera, r) == if l.updated then VerifyAndSubmit(cfg, r.frame, s1) else (s1, true)
  {
  }

  // An IR result that brings its buffer either returns it or latches it.
  lemma IrStep(cfg: Config, s: FrameState, camera: nat, r: CaptureResult, b: StreamBuffer)
    requires cfg.Valid() && camera != cfg.rgbCamera && r.outputs == [b]
    requires || (camera == cfg.ir1Camera && b.streamId == cfg.ir1Stream)
             || (camera == cfg.ir2Camera && b.streamId == cfg.ir2Stream)
    requires s.latched.Some? ==> InsertBuffer(s.latched.value, false, b).1
    ensures StepResult(cfg, s, camera, r) == AfterLatch(cfg, r.frame, s, IrLatch(cfg, s, b), IrBack(cfg, s, b))
  {
    IrSelect(cfg, s, r, b);
    IrSubmits(cfg, s, camera, r, Kept(cfg, s, r), IrBack(cfg, s, b));
    if KeepsNoInternal(cfg, s) {
      IrReturned(cfg, s, camera, r.(outputs := []), b);
    } else {
      IrLatched(cfg, s, camera, r, b);
    }
  }

  // An IR result delivers nothing.
  lemma IrSubmits(cfg: Config, s: FrameState, camera: nat, r: CaptureResult,
                  kept: seq<StreamBuffer>, back: multiset<StreamBuffer>)
    requires camera != cfg.rgbCamera
    requires SpareYuv(cfg, r.frame, r.outputs) == [] && Kept(cfg, s, r) == kept && Unkept(cfg, s, r) == back
    ensures StepResult(cfg, s, camera, r) == TrySubmit(cfg, Return(s, back), camera, r.(outputs := kept)).0
  {
    ReturnNone(s);
    assert multiset(SpareYuv(cfg, r.frame, r.outputs)) == multiset{};
  }

  lemma IrReturned(cfg: Config, s: FrameState, camera: nat, r: CaptureResult, b: StreamBuffer)
    requires camera != cfg.rgbCamera && r.outputs == []
    ensures TrySubmit(cfg, Return(s, multiset{b}), camera, r).0 ==
            AfterLatch(cfg, r.frame, s, Latch(s.latched, multiset{}, false, false), multiset{b})
  {
    TrySubmitIs(cfg, Return(s, multiset{b}), camera, r, Latch(s.latched, multiset{}, false, false));
    ReturnNone(Return(s, multiset{b}));
  }

  lemma IrLatched(cfg: Config, s: FrameState, camera: nat, r: CaptureResult, b: StreamBuffer)
    requires camera != cfg.rgbCamera && camera in {cfg.ir1Camera, cfg.ir2Camera} && r.outputs == [b]
    requires s.latched.Some? && InsertBuffer(s.latched.value, false, b).1
    ensures TrySubmit(cfg, Return(s, multiset{}), camera, r).0 ==
            AfterLatch(cfg, r.frame, s, Latch(Some(InsertBuffer(s.latched.value, false, b).0), multiset{}, true, false),
                       multiset{})
  {
    LatchOnly(cfg, r.frame, camera, s.latched, b);
    ReturnNone(s);
    TrySubmitIs(cfg, s, camera, r, Latch(Some(InsertBuffer(s.latched.value, false, b).0), multiset{}, true, false));
  }

  lemma IrSelect(cfg: Config, s: FrameState, r: CaptureResult, b: StreamBuffer)
    requires cfg.Valid() && r.outputs == [b] && b.streamId in {cfg.ir1Stream, cfg.ir2Stream}
    ensures SpareYuv(cfg, r.frame, r.outputs) == []
    ensures Kept(cfg, s, r) == if KeepsNoInternal(cfg, s) then [] else [b]
    ensures Unkept(cfg, s, r) == if KeepsNoInternal(cfg, s) then multiset{b} else multiset{}
  {
    SelectSingle(b, {cfg.yuvStream});
    KeepSingle(cfg, s, r, WithoutSpareYuv(cfg, r.frame, r.outputs), b);
  }

  lemma KeepSingle(cfg: Config, s: FrameState, r: CaptureResult, rest: seq<StreamBuffer>, b: StreamBuffer)
    requires rest == [b] == WithoutSpareYuv(cfg, r.frame, r.outputs) && b.streamId !in cfg.frameworkStreams
    ensures Kept(cfg, s, r) == if KeepsNoInternal(cfg, s) then [] else [b]
    ensures Unkept(cfg, s, r) == if KeepsNoInternal(cfg, s) then multiset{b} else multiset{}
  {
    SelectSingle(b, cfg.frameworkStreams);
    assert Within(rest, cfg.frameworkStreams) == [] && Outside(rest, cfg.frameworkStreams) == [b];
  }

  lemma EmptyIrStep(cfg: Config, s: FrameState, camera: nat, r: CaptureResult)
    requires camera != cfg.rgbCamera && r.outputs == []
    ensures StepResult(cfg, s, camera, r) == s
  {
    assert Return(s, multiset{}) == s;
    assert LatchBuffers(cfg, r.frame, camera, s.latched, []) == Latch(s.latched, multiset{}, false, false);
  }

  // Rearranging the latched request keeps the invariant when it accounts for what is new.
  lemma Relatch(cfg: Config, f: nat, s: FrameState, a: Arrivals, admitted: bool,
                request: Option<DepthRequest>, back: multiset<StreamBuffer>,
                a': Arrivals, news: multiset<StreamBuffer>)
    requires Inv(cfg, f, s, a, admitted) && Typed(cfg, a')
    requires request.Some? <==> s.latched.Some?
    requires request.Some? ==> Aligned(cfg, f, request.value)
    requires request.Some? && request.value.metadata != [] ==> a'.metadata.Some?
    requires Received(a') == Received(a) + news && Held(request) + back == Held(s.latched) + news
    ensures Inv(cfg, f, Return(s.(latched := request), back), a', admitted)
  {
    Rebalance(Received(a), news, Held(s.latched), Held(request), Held(s.pending), s.log.returned, back);
  }

  lemma Rebalance(all: multiset<StreamBuffer>, news: multiset<StreamBuffer>, latched: multiset<StreamBuffer>,
                  latched': multiset<StreamBuffer>, pending: multiset<StreamBuffer>,
                  returned: multiset<StreamBuffer>, back: multiset<StreamBuffer>)
    requires all == latched + pending + returned
    requires latched' + back == latched + news
    ensures all + news == latched' + pending + (returned + back)
  {
    forall x ensures (all + news)[x] == (latched' + pending + (returned + back))[x] {
      assert (latched' + back)[x] == (latched + news)[x];
    }
  }

  // The latches of an IR result with buffer `b`, and what it gives back.
  function IrLatch(cfg: Config, s: FrameState, b: StreamBuffer): Latch {
    if KeepsNoInternal(cfg, s) || s.latched.None? then Latch(s.latched, multiset{}, false, false)
    else Latch(Some(InsertBuffer(s.latched.value, false, b).0), multiset{}, true, false)
  }

  function IrBack(cfg: Config, s: FrameState, b: StreamBuffer): multiset<StreamBuffer> {
    if KeepsNoInternal(cfg, s) then multiset{b} else multiset{}
  }

  lemma IrLatchKeeps(cfg: Config, f: nat, s: FrameState, a: Arrivals, admitted: bool, b: StreamBuffer)
    requires cfg.Valid() && Inv(cfg, f, s, a, admitted)
    requires b.streamId in {cfg.ir1Stream, cfg.ir2Stream}
    requires s.latched.Some? ==> NoneOn(s.latched.value.inputs, b.streamId)
    ensures s.latched.Some? ==> InsertBuffer(s.latched.value, false, b).1
    ensures
      var l := IrLatch(cfg, s, b);
      && (l.request.Some? <==> s.latched.Some?)
      && (l.request.Some? ==>
            && Aligned(cfg, f, l.request.value)
            && l.request.value.metadata == s.latched.value.metadata
            && l.request.value.outputs == s.latched.value.outputs)
      && (l.updated <==> s.latched.Some? && !KeepsNoInternal(cfg, s))
      && Held(l.request) + IrBack(cfg, s, b) == Held(s.latched) + multiset{b}
  {
    if s.latched.Some? {
      InsertBufferAligned(cfg, f, s.latched.value, false, b);
    }
  }

  lemma AfterLatchKeeps(cfg: Config, f: nat, s: FrameState, a: Arrivals, admitted: bool,
                        l: Latch, back: multiset<StreamBuffer>, a': Arrivals, news: multiset<StreamBuffer>)
    requires cfg.Valid() && Inv(cfg, f, s, a, admitted) && Typed(cfg, a')
    requires l.request.Some? <==> s.latched.Some?
    requires l.updated ==> l.request.Some?
    requires l.request.Some? ==> Aligned(cfg, f, l.request.value)
    requires l.request.Some? && l.request.value.metadata != [] ==> a'.metadata.Some?
    requires Received(a') == Received(a) + news && Held(l.request) + back == Held(s.latched) + news
    ensures Inv(cfg, f, AfterLatch(cfg, f, s, l, back), a', admitted)
    ensures AfterLatch(cfg, f, s, l, back).log.delivered == s.log.delivered
  {
    Relatch(cfg, f, s, a, admitted, l.request, back, a', news);
    if l.updated { VerifyKeeps(cfg, f, Return(s.(latched := l.request), back), a', admitted); }
  }

  // A result of an IR pipeline.
  lemma {:induction false} IrResultKeeps(cfg: Config, f: nat, s: FrameState, a: Arrivals, admitted: bool,
                                         camera: nat, r: CaptureResult)
    requires cfg.Valid() && Inv(cfg, f, s, a, admitted) && r.frame == f
    requires GoodResult(cfg, camera, r) && Novel(cfg, a, camera, r)
    requires camera != cfg.rgbCamera
    ensures Inv(cfg, f, StepResult(cfg, s, camera, r), Arrive(cfg, a, camera, r), admitted)
    ensures StepResult(cfg, s, camera, r).log.delivered == s.log.delivered
  {
    if r.outputs == [] {
      EmptyIrStep(cfg, s, camera, r);
    } else {
      var b := r.outputs[0];
      if s.latched.Some? {
        NotLatchedYet(cfg, f, s, a, admitted, b.streamId);
      }
      IrArrival(cfg, a, camera, r, b);
      IrLatchKeeps(cfg, f, s, a, admitted, b);
      IrStep(cfg, s, camera, r, b);
      AfterLatchKeeps(cfg, f, s, a, admitted, IrLatch(cfg, s, b), IrBack(cfg, s, b), Arrive(cfg, a, camera, r),
                      multiset{b});
    }
  }

  lemma IrArrival(cfg: Config, a: Arrivals, camera: nat, r: CaptureResult, b: StreamBuffer)
    requires cfg.Valid() && camera != cfg.rgbCamera && r.outputs == [b] && Novel(cfg, a, camera, r) && Typed(cfg, a)
    requires || (camera == cfg.ir1Camera && b.streamId == cfg.ir1Stream)
             || (camera == cfg.ir2Camera && b.streamId == cfg.ir2Stream)
    ensures
      var a' := Arrive(cfg, a, camera, r);
      Typed(cfg, a') && Received(a') == Received(a) + multiset{b} && a'.metadata == a.metadata
  {
  }

  // What an RGB result leaves to latch: its YUV buffer if the frame's request waits for one.
  function RgbInputs(cfg: Config, f: nat, s: FrameState, r: CaptureResult): seq<StreamBuffer> {
    if cfg.IsAutocal(f) && !KeepsNoInternal(cfg, s) then Within(r.outputs, {cfg.yuvStream}) else []
  }

  // An RGB result either returns its YUV buffer or latches it; the rest are framework buffers.
  lemma RgbSplit(cfg: Config, s: FrameState, r: CaptureResult)
    requires cfg.Valid() && GoodResult(cfg, cfg.rgbCamera, r)
    ensures multiset(SpareYuv(cfg, r.frame, r.outputs)) + Unkept(cfg, s, r) == RgbBack(cfg, r.frame, s, r)
    ensures LatchBuffers(cfg, r.frame, cfg.rgbCamera, s.latched, Kept(cfg, s, r)) ==
            LatchBuffers(cfg, r.frame, cfg.rgbCamera, s.latched, RgbInputs(cfg, r.frame, s, r))
  {
    LatchRgb(cfg, r.frame, s.latched, Kept(cfg, s, r));
    if !cfg.IsAutocal(r.frame) {
      SpareGoesBack(cfg, s, r);
    } else if KeepsNoInternal(cfg, s) {
      NoYuvOnFramework(cfg, r.outputs);
      OutsideFrameworkIsYuv(cfg, r.outputs);
    }
  }

  lemma SpareGoesBack(cfg: Config, s: FrameState, r: CaptureResult)
    requires cfg.Valid() && GoodResult(cfg, cfg.rgbCamera, r) && !cfg.IsAutocal(r.frame)
    ensures Unkept(cfg, s, r) == multiset{}
  {
    var rest := WithoutSpareYuv(cfg, r.frame, r.outputs);
    OutsideMembers(r.outputs, {cfg.yuvStream});
    SelectNoneOrAll(rest, cfg.frameworkStreams);
  }

  lemma NoYuvOnFramework(cfg: Config, s: seq<StreamBuffer>)
    requires cfg.Valid()
    ensures Within(Within(s, cfg.frameworkStreams), {cfg.yuvStream}) == []
  {
    WithinMembers(s, cfg.frameworkStreams);
    SelectNoneOrAll(Within(s, cfg.frameworkStreams), {cfg.yuvStream});
  }

  lemma OutsideFrameworkIsYuv(cfg: Config, s: seq<StreamBuffer>)
    requires cfg.Valid()
    requires forall b :: b in s ==> b.streamId == cfg.yuvStream || b.streamId in cfg.frameworkStreams
    ensures multiset(Outside(s, cfg.frameworkStreams)) == multiset(Within(s, {cfg.yuvStream}))
  {
    forall x ensures multiset(Outside(s, cfg.frameworkStreams))[x] == multiset(Within(s, {cfg.yuvStream}))[x] {
      OutsideCount(s, cfg.frameworkStreams, x);
      WithinCount(s, {cfg.yuvStream}, x);
      assert x in s <==> x in multiset(s);
    }
  }

  // The latches of one RGB result.
  function RgbLatch(cfg: Config, f: nat, s: FrameState, r: CaptureResult): Latch {
    LatchMetadata(cfg, cfg.rgbCamera,
                  LatchBuffers(cfg, f, cfg.rgbCamera, s.latched, RgbInputs(cfg, f, s, r)), r.metadata)
  }

  // Latching the YUV buffer of an RGB result.
  lemma RgbBufferKeeps(cfg: Config, f: nat, s: FrameState, a: Arrivals, admitted: bool, r: CaptureResult)
    requires cfg.Valid() && Inv(cfg, f, s, a, admitted) && r.frame == f
    requires GoodResult(cfg, cfg.rgbCamera, r) && Novel(cfg, a, cfg.rgbCamera, r)
    ensures
      var yuv := RgbInputs(cfg, f, s, r);
      var l := LatchBuffers(cfg, f, cfg.rgbCamera, s.latched, yuv);
      && !l.failed && l.back == multiset{} && (l.updated <==> yuv != [])
      && (l.request.Some? <==> s.latched.Some?)
      && (l.request.Some? ==>
            && Aligned(cfg, f, l.request.value)
            && l.request.value.metadata == s.latched.value.metadata
            && l.request.value.outputs == s.latched.value.outputs)
      && Held(l.request) == Held(s.latched) + multiset(yuv)
  {
    var yuv := RgbInputs(cfg, f, s, r);
    WithinMembers(r.outputs, {cfg.yuvStream});
    if yuv != [] {
      var b := yuv[0];
      assert yuv == [b];
      LatchOnly(cfg, f, cfg.rgbCamera, s.latched, b);
      NotLatchedYet(cfg, f, s, a, admitted, cfg.yuvStream);
      InsertBufferAligned(cfg, f, s.latched.value, true, b);
    }
  }

  // Latching the YUV buffer and the metadata of one RGB result.
  lemma RgbLatchKeeps(cfg: Config, f: nat, s: FrameState, a: Arrivals, admitted: bool, r: CaptureResult)
    requires cfg.Valid() && Inv(cfg, f, s, a, admitted) && r.frame == f
    requires GoodResult(cfg, cfg.rgbCamera, r) && Novel(cfg, a, cfg.rgbCamera, r)
    ensures
      var yuv := RgbInputs(cfg, f, s, r);
      var l := RgbLatch(cfg, f, s, r);
      && !l.failed && l.back == multiset{}
      && (l.request.Some? <==> s.latched.Some?)
      && (l.updated <==> s.latched.Some? && (yuv != [] || r.metadata.Some?))
      && Held(l.request) == Held(s.latched) + multiset(yuv)
      && (l.request.Some? ==>
            && Aligned(cfg, f, l.request.value)
            && (l.request.value.metadata != [] ==> a.metadata.Some? || r.metadata.Some?)
            && l.request.value.outputs == s.latched.value.outputs
            && (r.metadata.Some? ==> LastMetadata(l.request.value.metadata) == r.metadata)
            && (r.metadata.None? ==> l.request.value.metadata == s.latched.value.metadata))
  {
    RgbBufferKeeps(cfg, f, s, a, admitted, r);
    if s.latched.Some? && r.metadata.Some? {
      var l := LatchBuffers(cfg, f, cfg.rgbCamera, s.latched, RgbInputs(cfg, f, s, r));
      InsertMetadataAligned(cfg, f, l.request.value, r.metadata.value);
    }
  }

  lemma RgbNeverFails(cfg: Config, f: nat, s: FrameState, a: Arrivals, admitted: bool, r: CaptureResult)
    requires cfg.Valid() && Inv(cfg, f, s, a, admitted) && r.frame == f
    requires GoodResult(cfg, cfg.rgbCamera, r) && Novel(cfg, a, cfg.rgbCamera, r)
    ensures !RgbLatch(cfg, f, s, r).failed && RgbLatch(cfg, f, s, r).back == multiset{}
  {
    RgbLatchKeeps(cfg, f, s, a, admitted, r);
  }

  // The internal buffers an RGB result gives back at once.
  function RgbBack(cfg: Config, f: nat, s: FrameState, r: CaptureResult): multiset<StreamBuffer> {
    if RgbInputs(cfg, f, s, r) == [] then multiset(Within(r.outputs, {cfg.yuvStream})) else multiset{}
  }

  ghost predicate SameUpToDeliveries(s: FrameState, t: FrameState) {
    s == t.(log := t.log.(delivered := s.log.delivered))
  }

  // Neither the internal buffers nor the depth request of a frame depend on how the framework
  // part of an RGB result is treated.
  lemma RgbStep(cfg: Config, s: FrameState, r: CaptureResult)
    requires cfg.Valid() && GoodResult(cfg, cfg.rgbCamera, r)
    requires
      var l := RgbLatch(cfg, r.frame, s, r);
      !l.failed && l.back == multiset{}
    ensures SameUpToDeliveries(
              StepResult(cfg, s, cfg.rgbCamera, r),
              AfterLatch(cfg, r.frame, s, RgbLatch(cfg, r.frame, s, r), RgbBack(cfg, r.frame, s, r)))
  {
    RgbSplit(cfg, s, r);
    var spare := multiset(SpareYuv(cfg, r.frame, r.outputs));
    if IsOnlySpare(cfg, r) {
      OnlySpareGoesBack(cfg, s, r);
      assert LatchBuffers(cfg, r.frame, cfg.rgbCamera, s.latched, []) == Latch(s.latched, multiset{}, false, false);
    } else {
      var l := RgbLatch(cfg, r.frame, s, r);
      var s1 := Return(s, RgbBack(cfg, r.frame, s, r));
      ReturnTwice(s, spare, Unkept(cfg, s, r));
      assert Return(Return(s, spare), Unkept(cfg, s, r)) == s1;
      TrySubmitIs(cfg, s1, cfg.rgbCamera, r.(outputs := Kept(cfg, s, r)), l);
      var (s2, ok) := TrySubmit(cfg, s1, cfg.rgbCamera, r.(outputs := Kept(cfg, s, r)));
      ReturnNone(s1.(latched := l.request));
      assert s2 == AfterLatch(cfg, r.frame, s, l, RgbBack(cfg, r.frame, s, r));
      StepResultDelivers(cfg, s, r, s1);
    }
  }

  lemma OnlySpareGoesBack(cfg: Config, s: FrameState, r: CaptureResult)
    requires IsOnlySpare(cfg, r)
    ensures RgbInputs(cfg, r.frame, s, r) == []
    ensures RgbBack(cfg, r.frame, s, r) == multiset(SpareYuv(cfg, r.frame, r.outputs))
  {
  }

  lemma ReturnNone(s: FrameState)
    ensures Return(s, multiset{}) == s
  {
    assert s.log.returned + multiset{} == s.log.returned;
  }

  lemma StepResultDelivers(cfg: Config, s: FrameState, r: CaptureResult, s1: FrameState)
    requires !IsOnlySpare(cfg, r)
    requires s1 == Return(Return(s, multiset(SpareYuv(cfg, r.frame, r.outputs))), Unkept(cfg, s, r))
    ensures SameUpToDeliveries(
              StepResult(cfg, s, cfg.rgbCamera, r),
              TrySubmit(cfg, s1, cfg.rgbCamera, r.(outputs := Kept(cfg, s, r))).0)
  {
  }

  lemma ReturnTwice(s: FrameState, x: multiset<StreamBuffer>, y: multiset<StreamBuffer>)
    ensures Return(Return(s, x), y) == Return(s, x + y)
  {
    assert s.log.returned + x + y == s.log.returned + (x + y);
  }

  lemma RgbBalance(cfg: Config, f: nat, s: FrameState, a: Arrivals, admitted: bool, r: CaptureResult)
    requires cfg.Valid() && Inv(cfg, f, s, a, admitted) && r.frame == f
    requires GoodResult(cfg, cfg.rgbCamera, r) && Novel(cfg, a, cfg.rgbCamera, r)
    ensures Held(RgbLatch(cfg, f, s, r).request) + RgbBack(cfg, f, s, r) ==
            Held(s.latched) + multiset(Within(r.outputs, {cfg.yuvStream}))
  {
    RgbLatchKeeps(cfg, f, s, a, admitted, r);
    var inputs := multiset(RgbInputs(cfg, f, s, r));
    var yuv := multiset(Within(r.outputs, {cfg.yuvStream}));
    assert inputs + RgbBack(cfg, f, s, r) == yuv;
    Reassociate(Held(s.latched), Held(RgbLatch(cfg, f, s, r).request), inputs, RgbBack(cfg, f, s, r), yuv);
  }

  // A result of the RGB pipeline.
  lemma RgbResultKeeps(cfg: Config, f: nat, s: FrameState, a: Arrivals, admitted: bool, r: CaptureResult)
    requires cfg.Valid() && Inv(cfg, f, s, a, admitted) && r.frame == f
    requires GoodResult(cfg, cfg.rgbCamera, r) && Novel(cfg, a, cfg.rgbCamera, r)
    ensures Inv(cfg, f, StepResult(cfg, s, cfg.rgbCamera, r),
                ArriveRgb(a, Within(r.outputs, {cfg.yuvStream}), r.metadata), admitted)
  {
    var yuv := Within(r.outputs, {cfg.yuvStream});
    if yuv != [] { WithinOn(r.outputs, cfg.yuvStream, yuv[0]); }
    RgbArrival(cfg, a, yuv, r.metadata);
    RgbLatchKeeps(cfg, f, s, a, admitted, r);
    RgbBalance(cfg, f, s, a, admitted, r);
    RgbStep(cfg, s, r);
    AfterLatchKeeps(cfg, f, s, a, admitted, RgbLatch(cfg, f, s, r), RgbBack(cfg, f, s, r),
                    ArriveRgb(a, yuv, r.metadata), multiset(yuv));
  }

  lemma Reassociate(h: multiset<StreamBuffer>, h': multiset<StreamBuffer>, i: multiset<StreamBuffer>,
                    b: multiset<StreamBuffer>, y: multiset<StreamBuffer>)
    requires h' == h + i && i + b == y
    ensures h' + b == h + y
  {
  }

  lemma BagOfFirst(s: seq<StreamBuffer>)
    requires |s| <= 1
    ensures multiset(s) == Bag(if s == [] then None else Some(s[0]))
  {
    if s != [] { assert s == [s[0]]; }
  }

  lemma RgbArrival(cfg: Config, a: Arrivals, yuv: seq<StreamBuffer>, metadata: Option<Metadata>)
    requires |yuv| <= 1 && Typed(cfg, a) && (yuv != [] ==> a.yuv.None? && yuv[0].streamId == cfg.yuvStream)
    ensures Typed(cfg, ArriveRgb(a, yuv, metadata))
    ensures Received(ArriveRgb(a, yuv, metadata)) == Received(a) + multiset(yuv)
  {
    BagOfFirst(yuv);
    assert Received(ArriveRgb(a, yuv, metadata)) == Bag(a.ir1) + Bag(a.ir2) + (Bag(a.yuv) + multiset(yuv));
  }

  lemma WithinOn(s: seq<StreamBuffer>, id: int, b: StreamBuffer)
    requires b in Within(s, {id})
    ensures b.streamId == id && b in s
  {
    WithinMembers(s, {id});
  }

  // ---------- Every run ----------

  lemma AdmitKeeps(cfg: Config, f: nat, s: FrameState, a: Arrivals, admitted: bool, outputs: seq<StreamBuffer>)
    requires cfg.Valid() && Inv(cfg, f, s, a, admitted) && !admitted
    ensures Inv(cfg, f, StepAdmit(cfg, s, outputs), a, true)
  {
    assert Filled([]) == [];
  }

  lemma MoveBack(all: multiset<StreamBuffer>, latched: multiset<StreamBuffer>, pending: multiset<StreamBuffer>,
                 returned: multiset<StreamBuffer>)
    requires all == latched + pending + returned
    ensures all == latched + multiset{} + (returned + pending)
    ensures all == multiset{} + pending + (returned + latched)
  {
  }

  lemma DoneKeeps(cfg: Config, f: nat, s: FrameState, a: Arrivals, admitted: bool, ok: bool)
    requires cfg.Valid() && Inv(cfg, f, s, a, admitted)
    ensures Inv(cfg, f, StepDone(cfg, f, s, ok), a, admitted)
  {
    MoveBack(Received(a), Held(s.latched), Held(s.pending), s.log.returned);
  }

  lemma FlushKeeps(cfg: Config, f: nat, s: FrameState, a: Arrivals, admitted: bool)
    requires cfg.Valid() && Inv(cfg, f, s, a, admitted)
    ensures Inv(cfg, f, StepFlush(cfg, f, s), a, admitted)
  {
    MoveBack(Received(a), Held(s.latched), Held(s.pending), s.log.returned);
  }

  lemma {:induction false} ResultKeeps(cfg: Config, f: nat, s: FrameState, a: Arrivals, admitted: bool,
                                       camera: nat, r: CaptureResult)
    requires cfg.Valid() && Inv(cfg, f, s, a, admitted) && r.frame == f
    requires GoodResult(cfg, camera, r) && Novel(cfg, a, camera, r)
    ensures Inv(cfg, f, StepResult(cfg, s, camera, r), Arrive(cfg, a, camera, r), admitted)
  {
    if camera == cfg.rgbCamera {
      RgbResultKeeps(cfg, f, s, a, admitted, r);
    } else {
      IrResultKeeps(cfg, f, s, a, admitted, camera, r);
    }
  }

  lemma AdmitsLast(es: seq<Event>, f: nat)
    requires es != []
    ensures Admits(es, f) <==> Admits(es[..|es| - 1], f) || (es[|es| - 1].Admit? && es[|es| - 1].frame == f)
  {
    var before := es[..|es| - 1];
    assert forall i :: 0 <= i < |before| ==> before[i] == es[i];
    if Admits(es, f) && !(es[|es| - 1].Admit? && es[|es| - 1].frame == f) {
      var i :| 0 <= i < |es| && es[i].Admit? && es[i].frame == f;
      assert before[i].Admit?;
    }
  }

  // The invariant holds after every orderly run.
  lemma {:induction false} RunKeeps(cfg: Config, f: nat, es: seq<Event>)
    requires cfg.Valid() && Orderly(cfg, f, es)
    ensures Inv(cfg, f, Run(cfg, f, es), Arrived(cfg, f, es), Admits(es, f))
  {
    if es != [] {
      var before, e := es[..|es| - 1], es[|es| - 1];
      RunKeeps(cfg, f, before);
      AdmitsLast(es, f);
      var s, a, admitted := Run(cfg, f, before), Arrived(cfg, f, before), Admits(before, f);
      match e
      case Admit(frame, outputs) => if frame == f { AdmitKeeps(cfg, f, s, a, admitted, outputs); }
      case Result(camera, r) => if r.frame == f { ResultKeeps(cfg, f, s, a, admitted, camera, r); }
      case Done(frame, ok) => DoneKeeps(cfg, f, s, a, admitted, ok);
      case Flush => FlushKeeps(cfg, f, s, a, admitted);
    }
  }

  // Buffer conservation: every internal buffer received for a frame is in exactly one place, the
  // pending depth request, the depth block, or back at the internal stream manager.
  lemma {:induction false} InternalBuffersConserved(cfg: Config, f: nat, es: seq<Event>)
    requires cfg.Valid() && Orderly(cfg, f, es)
    ensures
      var s := Run(cfg, f, es);
      Received(Arrived(cfg, f, es)) == Held(s.latched) + Held(s.pending) + s.log.returned
  {
    RunKeeps(cfg, f, es);
  }

  // Slot alignment in every reachable state, for the latched and for the submitted request.
  lemma {:induction false} SlotsAligned(cfg: Config, f: nat, es: seq<Event>)
    requires cfg.Valid() && Orderly(cfg, f, es)
    ensures
      var s := Run(cfg, f, es);
      && (s.latched.Some? ==> Aligned(cfg, f, s.latched.value))
      && (s.pending.Some? ==> Aligned(cfg, f, s.pending.value) && |s.pending.value.inputs| == 3)
  {
    RunKeeps(cfg, f, es);
  }

  // A flush leaves nothing latched, and what was latched is back.
  lemma FlushReturnsLatched(cfg: Config, f: nat, es: seq<Event>)
    requires cfg.Valid() && Orderly(cfg, f, es)
    ensures
      var s, s' := Run(cfg, f, es), Run(cfg, f, es + [Flush]);
      && s'.latched.None? && s'.pending == s.pending
      && s'.log.returned == s.log.returned + Held(s.latched)
  {
    assert (es + [Flush])[..|es|] == es;
  }
}
