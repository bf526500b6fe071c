// Before the RGB metadata arrives the slots of a depth request are its inputs in the order in which
// they arrived; afterwards they are still the same buffers.
module DepthArrivals {
  import opened HalTypes
  import opened StreamBuffers
  import opened DepthModel
  import opened DepthRuns

  // The depth inputs a result brings: the buffers of an IR pipeline, and the YUV buffer of the RGB
  // pipeline for an auto-calibration frame. None are kept when internal streams are forced.
  function InputsOf(cfg: Config, f: nat, camera: nat, r: CaptureResult): seq<StreamBuffer> {
    if cfg.forceInternal then []
    else if camera != cfg.rgbCamera then r.outputs
    else if cfg.IsAutocal(f) then Within(r.outputs, {cfg.yuvStream})
    else []
  }

  // The inputs that came for a frame, in order, since it was admitted with a depth buffer, if it was
  // and has not been flushed since.
  function Sequence(cfg: Config, f: nat, es: seq<Event>): Option<seq<StreamBuffer>> {
    if es == [] then None
    else NextSequence(cfg, f, Sequence(cfg, f, es[..|es| - 1]), es[|es| - 1])
  }

  function NextSequence(cfg: Config, f: nat, since: Option<seq<StreamBuffer>>, e: Event): Option<seq<StreamBuffer>> {
    if e.Flush? then None
    else if e.Admit? && e.frame == f && SlotOn(e.outputs, cfg.depthStream, -1) < |e.outputs| then Some([])
    else if e.Result? && e.result.frame == f then Grown(since, InputsOf(cfg, f, e.camera, e.result))
    else since
  }

  function Grown(since: Option<seq<StreamBuffer>>, news: seq<StreamBuffer>): Option<seq<StreamBuffer>> {
    if since.Some? then Some(since.value + news) else None
  }

  // The request waits unless it has been submitted, and holds what came for it.
  ghost predicate Traced(s: FrameState, since: Option<seq<StreamBuffer>>, admitted: bool) {
    && (s.latched.Some? <==> since.Some? && s.log.submitted == [])
    && (s.latched.Some? && s.latched.value.metadata == [] ==> s.latched.value.inputs == since.value)
    && (s.latched.Some? ==> Held(s.latched) == multiset(since.value))
    && (since.Some? || s.log.submitted != [] ==> admitted)
  }

  lemma AfterLatchTraced(cfg: Config, f: nat, s: FrameState, since: Option<seq<StreamBuffer>>, admitted: bool,
                         l: Latch, back: multiset<StreamBuffer>, news: seq<StreamBuffer>)
    requires Traced(s, since, admitted) && (l.request.Some? <==> s.latched.Some?)
    requires l.request.Some? && l.request.value.metadata == [] ==>
               s.latched.value.metadata == [] && l.request.value.inputs == s.latched.value.inputs + news
    requires l.request.Some? ==> Held(l.request) == Held(s.latched) + multiset(news)
    ensures Traced(AfterLatch(cfg, f, s, l, back), Grown(since, news), admitted)
  {
    if since.Some? {
      assert multiset(since.value + news) == multiset(since.value) + multiset(news);
    }
  }

  lemma IrTraced(cfg: Config, f: nat, s: FrameState, a: Arrivals, admitted: bool, since: Option<seq<StreamBuffer>>,
                 camera: nat, r: CaptureResult)
    requires cfg.Valid() && Inv(cfg, f, s, a, admitted) && r.frame == f && Traced(s, since, admitted)
    requires GoodResult(cfg, camera, r) && Novel(cfg, a, camera, r) && camera != cfg.rgbCamera
    ensures Traced(StepResult(cfg, s, camera, r), Grown(since, InputsOf(cfg, f, camera, r)), admitted)
  {
    if r.outputs == [] {
      EmptyIrStep(cfg, s, camera, r);
      if since.Some? { assert since.value + [] == since.value; }
    } else {
      var b := r.outputs[0];
      if s.latched.Some? { NotLatchedYet(cfg, f, s, a, admitted, b.streamId); }
      IrLatchKeeps(cfg, f, s, a, admitted, b);
      IrLatchTraced(cfg, f, s, since, admitted, b);
      IrStep(cfg, s, camera, r, b);
    }
  }

  lemma IrLatchTraced(cfg: Config, f: nat, s: FrameState, since: Option<seq<StreamBuffer>>, admitted: bool,
                      b: StreamBuffer)
    requires cfg.Valid() && Traced(s, since, admitted)
    requires Held(IrLatch(cfg, s, b).request) + IrBack(cfg, s, b) == Held(s.latched) + multiset{b}
    ensures Traced(AfterLatch(cfg, f, s, IrLatch(cfg, s, b), IrBack(cfg, s, b)),
                   Grown(since, if cfg.forceInternal then [] else [b]), admitted)
  {
    var l, back, news := IrLatch(cfg, s, b), IrBack(cfg, s, b), if cfg.forceInternal then [] else [b];
    if s.latched.Some? {
      IrLatchHolds(cfg, s, b);
      IrLatchAppends(cfg, s, b);
    }
    AfterLatchTraced(cfg, f, s, since, admitted, l, back, news);
  }

  lemma IrLatchAppends(cfg: Config, s: FrameState, b: StreamBuffer)
    requires cfg.Valid() && s.latched.Some?
    ensures
      var (r, news) := (IrLatch(cfg, s, b).request, if cfg.forceInternal then [] else [b]);
      r.Some? && (r.value.metadata == [] ==>
                    s.latched.value.metadata == [] && r.value.inputs == s.latched.value.inputs + news)
  {
  }

  lemma IrLatchHolds(cfg: Config, s: FrameState, b: StreamBuffer)
    requires cfg.Valid() && s.latched.Some?
    requires Held(IrLatch(cfg, s, b).request) + IrBack(cfg, s, b) == Held(s.latched) + multiset{b}
    ensures
      var (l, news) := (IrLatch(cfg, s, b), if cfg.forceInternal then [] else [b]);
      Held(l.request) == Held(s.latched) + multiset(news)
  {
    var held := Held(IrLatch(cfg, s, b).request);
    if cfg.forceInternal {
      CancelBack(held, Held(s.latched), multiset{b});
    } else {
      assert held + multiset{} == held && multiset{b} == multiset([b]);
    }
  }

  lemma CancelBack(x: multiset<StreamBuffer>, y: multiset<StreamBuffer>, z: multiset<StreamBuffer>)
    requires x + z == y + z
    ensures x == y + multiset([])
  {
    assert x + z - z == x && y + z - z == y;
  }

  // An RGB result that leaves a request without metadata only appends to it.
  lemma RgbAppends(cfg: Config, f: nat, s: FrameState, r: CaptureResult)
    requires s.latched.Some? && |RgbInputs(cfg, f, s, r)| <= 1
    requires forall b :: b in RgbInputs(cfg, f, s, r) ==> b.streamId == cfg.yuvStream
    requires RgbLatch(cfg, f, s, r).request.Some? && RgbLatch(cfg, f, s, r).request.value.metadata == []
    requires r.metadata.None? && s.latched.value.metadata == []
    ensures RgbLatch(cfg, f, s, r).request.value.inputs == s.latched.value.inputs + RgbInputs(cfg, f, s, r)
  {
    var yuv := RgbInputs(cfg, f, s, r);
    if yuv != [] {
      assert yuv == [yuv[0]];
      LatchOnly(cfg, f, cfg.rgbCamera, s.latched, yuv[0]);
    }
  }

  lemma RgbLatchTraced(cfg: Config, f: nat, s: FrameState, a: Arrivals, admitted: bool,
                       since: Option<seq<StreamBuffer>>, r: CaptureResult)
    requires cfg.Valid() && Inv(cfg, f, s, a, admitted) && r.frame == f && Traced(s, since, admitted)
    requires GoodResult(cfg, cfg.rgbCamera, r) && Novel(cfg, a, cfg.rgbCamera, r)
    ensures Traced(AfterLatch(cfg, f, s, RgbLatch(cfg, f, s, r), RgbBack(cfg, f, s, r)),
                   Grown(since, InputsOf(cfg, f, cfg.rgbCamera, r)), admitted)
  {
    var l, news := RgbLatch(cfg, f, s, r), InputsOf(cfg, f, cfg.rgbCamera, r);
    RgbLatchKeeps(cfg, f, s, a, admitted, r);
    WithinMembers(r.outputs, {cfg.yuvStream});
    if s.latched.Some? {
      assert RgbInputs(cfg, f, s, r) == news;
      if l.request.value.metadata == [] { RgbAppends(cfg, f, s, r); }
    }
    AfterLatchTraced(cfg, f, s, since, admitted, l, RgbBack(cfg, f, s, r), news);
  }

  lemma RgbTraced(cfg: Config, f: nat, s: FrameState, a: Arrivals, admitted: bool, since: Option<seq<StreamBuffer>>,
                  r: CaptureResult)
    requires cfg.Valid() && Inv(cfg, f, s, a, admitted) && r.frame == f && Traced(s, since, admitted)
    requires GoodResult(cfg, cfg.rgbCamera, r) && Novel(cfg, a, cfg.rgbCamera, r)
    ensures Traced(StepResult(cfg, s, cfg.rgbCamera, r), Grown(since, InputsOf(cfg, f, cfg.rgbCamera, r)), admitted)
  {
    RgbLatchTraced(cfg, f, s, a, admitted, since, r);
    RgbNeverFails(cfg, f, s, a, admitted, r);
    RgbStep(cfg, s, r);
    TracedUpToDeliveries(StepResult(cfg, s, cfg.rgbCamera, r),
                         AfterLatch(cfg, f, s, RgbLatch(cfg, f, s, r), RgbBack(cfg, f, s, r)),
                         Grown(since, InputsOf(cfg, f, cfg.rgbCamera, r)), admitted);
  }

  lemma TracedUpToDeliveries(s: FrameState, t: FrameState, since: Option<seq<StreamBuffer>>, admitted: bool)
    requires SameUpToDeliveries(s, t) && Traced(t, since, admitted)
    ensures Traced(s, since, admitted)
  {
  }

  lemma OtherTraced(cfg: Config, f: nat, s: FrameState, admitted: bool, since: Option<seq<StreamBuffer>>, e: Event)
    requires Traced(s, since, admitted) && !e.Result? && (e.Admit? && e.frame == f ==> !admitted)
    ensures Traced(Step(cfg, f, s, e), NextSequence(cfg, f, since, e), admitted || (e.Admit? && e.frame == f))
  {
    assert Filled([]) == [];
  }

  lemma {:induction false} RunTraced(cfg: Config, f: nat, es: seq<Event>)
    requires cfg.Valid() && Orderly(cfg, f, es)
    ensures Traced(Run(cfg, f, es), Sequence(cfg, f, es), Admits(es, f))
  {
    if es != [] {
      var before, e := es[..|es| - 1], es[|es| - 1];
      RunTraced(cfg, f, before);
      RunKeeps(cfg, f, before);
      AdmitsLast(es, f);
      var s, a, admitted := Run(cfg, f, before), Arrived(cfg, f, before), Admits(before, f);
      if !e.Result? {
        OtherTraced(cfg, f, s, admitted, Sequence(cfg, f, before), e);
      } else if e.result.frame == f {
        ResultTraced(cfg, f, s, a, admitted, Sequence(cfg, f, before), e);
      }
    }
  }

  lemma ResultTraced(cfg: Config, f: nat, s: FrameState, a: Arrivals, admitted: bool, since: Option<seq<StreamBuffer>>,
                     e: Event)
    requires cfg.Valid() && Inv(cfg, f, s, a, admitted) && Traced(s, since, admitted)
    requires e.Result? && e.result.frame == f
    requires GoodResult(cfg, e.camera, e.result) && Novel(cfg, a, e.camera, e.result)
    ensures Traced(Step(cfg, f, s, e), NextSequence(cfg, f, since, e), admitted)
  {
    if e.camera == cfg.rgbCamera { RgbTraced(cfg, f, s, a, admitted, since, e.result); }
    else { IrTraced(cfg, f, s, a, admitted, since, e.camera, e.result); }
  }

  // Slot alignment in every reachable state. A request waits exactly while one was admitted, not
  // flushed since and not submitted yet. Until its metadata arrives its slots are the inputs that
  // came since, in their order; once it has, they are the same buffers in three slots, where only
  // the slot with the metadata can hold the YUV buffer and every other filled slot an IR buffer.
  lemma {:induction false} SlotsAreArrivals(cfg: Config, f: nat, es: seq<Event>)
    requires cfg.Valid() && Orderly(cfg, f, es)
    ensures
      var (s, since) := (Run(cfg, f, es), Sequence(cfg, f, es));
      && (s.latched.Some? <==> since.Some? && s.log.submitted == [])
      && (s.latched.Some? ==>
            var r := s.latched.value;
            && multiset(Filled(r.inputs)) == multiset(since.value)
            && if r.metadata == [] then r.inputs == since.value else SharesSlot(cfg, r))
  {
    RunTraced(cfg, f, es);
    RunKeeps(cfg, f, es);
  }

  // Three slots, the metadata in one of them, which is also the only one a YUV buffer can be in.
  ghost predicate SharesSlot(cfg: Config, r: DepthRequest) {
    && |r.inputs| == |r.metadata| == 3
    && exists k :: 0 <= k < 3
                   && r.metadata[k].Some? && (r.inputs[k] == PLACEHOLDER || r.inputs[k].streamId == cfg.yuvStream)
                   && forall i :: 0 <= i < 3 && i != k ==> r.metadata[i].None? && r.inputs[i].streamId != cfg.yuvStream
  }
}
