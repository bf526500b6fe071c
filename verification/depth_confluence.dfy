// The depth request of a frame does not depend on the order or the batching in which the
// pipelines answer: it is submitted once, as soon as its inputs are there, and it is always the same.
module DepthConfluence {
  import opened HalTypes
  import opened StreamBuffers
  import opened DepthModel
  import opened DepthSlots
  import opened DepthRuns

  // The buffers the frame's depth request collects.
  function Wanted(cfg: Config, f: nat, a: Arrivals): multiset<StreamBuffer> {
    Bag(a.ir1) + Bag(a.ir2) + Bag(if cfg.IsAutocal(f) then a.yuv else None)
  }

  // Both IR buffers and the metadata are in, on the auto-calibration frame also the YUV buffer,
  // and there the metadata has what the calibration needs.
  predicate Complete(cfg: Config, f: nat, a: Arrivals) {
    && a.ir1.Some? && a.ir2.Some? && a.metadata.Some?
    && (cfg.autocalEnabled && f == AUTOCAL_FRAME_NUMBER ==> a.yuv.Some? && CanCalibrate(a.metadata.value))
  }

  // The calibration needs the crop region and the face detection mode, and the faces unless the mode
  // is off.
  predicate CanCalibrate(m: Metadata) {
    m.hasCropRegion && (m.faceDetectMode == Some(FACE_DETECT_OFF)
                        || (m.faceDetectMode.Some? && m.hasFaceRectangles && m.hasFaceScores))
  }

  function AsSeq(b: Option<StreamBuffer>): seq<StreamBuffer> {
    if b.Some? then [b.value] else []
  }

  // The one depth request these arrivals stand for.
  function Canonical(cfg: Config, f: nat, a: Arrivals, out: StreamBuffer): DepthInfo {
    DepthInfo(if cfg.IsAutocal(f) then AsSeq(a.yuv) else [], AsSeq(a.ir1), AsSeq(a.ir2), a.metadata, [out])
  }

  // The request holds what has arrived, whatever slots that landed in.
  ghost predicate Collected(cfg: Config, f: nat, r: DepthRequest, a: Arrivals, out: StreamBuffer) {
    && Aligned(cfg, f, r)
    && multiset(Filled(r.inputs)) == Wanted(cfg, f, a)
    && LastMetadata(r.metadata) == a.metadata
    && (r.metadata == [] <==> a.metadata.None?)
    && r.outputs == [out]
  }

  // The simple form of the processor: collect until complete, then submit the canonical request.
  ghost predicate Refines(cfg: Config, f: nat, s: FrameState, a: Arrivals, out: StreamBuffer) {
    if Complete(cfg, f, a) then
      s.latched.None? && s.log.submitted == [Canonical(cfg, f, a, out)]
    else
      && s.latched.Some? && s.pending.None? && s.log.submitted == []
      && Collected(cfg, f, s.latched.value, a, out)
  }

  lemma WantedSize(cfg: Config, f: nat, a: Arrivals)
    ensures |Wanted(cfg, f, a)| == |Bag(a.ir1)| + |Bag(a.ir2)| + |Bag(if cfg.IsAutocal(f) then a.yuv else None)|
  {
  }

  lemma SelectOne(inputs: seq<StreamBuffer>, b: Option<StreamBuffer>, id: int)
    requires id != INVALID_STREAM_ID && (b.Some? ==> b.value.streamId == id)
    requires forall x :: x in multiset(Filled(inputs)) && x.streamId == id ==> b == Some(x)
    requires b.Some? ==> multiset(Filled(inputs))[b.value] == 1
    ensures Within(inputs, {id}) == AsSeq(b)
  {
    if b.Some? {
      WithinOnly(inputs, b.value);
    } else {
      WithinNone(inputs, id);
    }
  }

  lemma SelectIr1(cfg: Config, f: nat, inputs: seq<StreamBuffer>, a: Arrivals)
    requires cfg.Valid() && Typed(cfg, a) && multiset(Filled(inputs)) == Wanted(cfg, f, a)
    ensures Within(inputs, {cfg.ir1Stream}) == AsSeq(a.ir1)
  {
    SelectOne(inputs, a.ir1, cfg.ir1Stream);
  }

  lemma SelectIr2(cfg: Config, f: nat, inputs: seq<StreamBuffer>, a: Arrivals)
    requires cfg.Valid() && Typed(cfg, a) && multiset(Filled(inputs)) == Wanted(cfg, f, a)
    ensures Within(inputs, {cfg.ir2Stream}) == AsSeq(a.ir2)
  {
    SelectOne(inputs, a.ir2, cfg.ir2Stream);
  }

  lemma SelectYuv(cfg: Config, f: nat, inputs: seq<StreamBuffer>, a: Arrivals)
    requires cfg.Valid() && Typed(cfg, a) && multiset(Filled(inputs)) == Wanted(cfg, f, a)
    ensures Within(inputs, {cfg.yuvStream}) == if cfg.IsAutocal(f) then AsSeq(a.yuv) else []
  {
    SelectOne(inputs, if cfg.IsAutocal(f) then a.yuv else None, cfg.yuvStream);
  }

  // Selecting one stream from the collected buffers finds what arrived on that stream.
  lemma SelectCollected(cfg: Config, f: nat, inputs: seq<StreamBuffer>, a: Arrivals)
    requires cfg.Valid() && Typed(cfg, a) && multiset(Filled(inputs)) == Wanted(cfg, f, a)
    ensures Within(inputs, {cfg.ir1Stream}) == AsSeq(a.ir1)
    ensures Within(inputs, {cfg.ir2Stream}) == AsSeq(a.ir2)
    ensures Within(inputs, {cfg.yuvStream}) == if cfg.IsAutocal(f) then AsSeq(a.yuv) else []
  {
    SelectIr1(cfg, f, inputs, a);
    SelectIr2(cfg, f, inputs, a);
    SelectYuv(cfg, f, inputs, a);
  }

  // The processor's readiness test is exactly completeness of the arrivals.
  lemma ReadyIffComplete(cfg: Config, f: nat, r: DepthRequest, a: Arrivals, out: StreamBuffer)
    requires cfg.Valid() && Typed(cfg, a) && Collected(cfg, f, r, a, out)
    ensures IsReady(cfg, f, r) <==> Complete(cfg, f, a)
    ensures Complete(cfg, f, a) ==> IsAccepted(cfg, None, r) && InfoOf(cfg, r) == Canonical(cfg, f, a, out)
  {
    assert |Filled(r.inputs)| == |multiset(Filled(r.inputs))|;
    WantedSize(cfg, f, a);
    if Complete(cfg, f, a) {
      SelectCollected(cfg, f, r.inputs, a);
      ReadyIsAccepted(cfg, f, r);
    }
  }

  lemma AfterLatchRefines(cfg: Config, f: nat, s: FrameState, l: Latch, back: multiset<StreamBuffer>,
                          a: Arrivals, out: StreamBuffer)
    requires cfg.Valid() && Typed(cfg, a) && s.pending.None? && s.log.submitted == []
    requires l.request.Some? && Collected(cfg, f, l.request.value, a, out)
    requires l.updated || !Complete(cfg, f, a)
    ensures Refines(cfg, f, AfterLatch(cfg, f, s, l, back), a, out)
  {
    ReadyIffComplete(cfg, f, l.request.value, a, out);
  }

  lemma IrRefines(cfg: Config, f: nat, s: FrameState, a: Arrivals, camera: nat, r: CaptureResult, out: StreamBuffer)
    requires cfg.Valid() && !cfg.forceInternal && Inv(cfg, f, s, a, true) && r.frame == f
    requires GoodResult(cfg, camera, r) && Novel(cfg, a, camera, r) && camera != cfg.rgbCamera
    requires Refines(cfg, f, s, a, out)
    ensures Refines(cfg, f, StepResult(cfg, s, camera, r), Arrive(cfg, a, camera, r), out)
  {
    if r.outputs == [] {
      EmptyIrStep(cfg, s, camera, r);
    } else {
      var b := r.outputs[0];
      if s.latched.Some? { NotLatchedYet(cfg, f, s, a, true, b.streamId); }
      IrArrival(cfg, a, camera, r, b);
      IrLatchKeeps(cfg, f, s, a, true, b);
      IrStep(cfg, s, camera, r, b);
      IrBufferRefines(cfg, f, s, a, IrLatch(cfg, s, b), IrBack(cfg, s, b), Arrive(cfg, a, camera, r), b, out);
    }
  }

  // One more IR buffer, seen from the request.
  lemma IrBufferRefines(cfg: Config, f: nat, s: FrameState, a: Arrivals, l: Latch, back: multiset<StreamBuffer>,
                        a': Arrivals, b: StreamBuffer, out: StreamBuffer)
    requires cfg.Valid() && !cfg.forceInternal && Typed(cfg, a')
    requires Refines(cfg, f, s, a, out) && l == IrLatch(cfg, s, b) && back == IrBack(cfg, s, b)
    requires l.request.Some? ==>
               && Aligned(cfg, f, l.request.value)
               && l.request.value.metadata == s.latched.value.metadata
               && l.request.value.outputs == s.latched.value.outputs
    requires l.updated <==> s.latched.Some? && !KeepsNoInternal(cfg, s)
    requires Held(l.request) + back == Held(s.latched) + multiset{b}
    requires (a.ir1.None? && a' == a.(ir1 := Some(b))) || (a.ir2.None? && a' == a.(ir2 := Some(b)))
    ensures Refines(cfg, f, AfterLatch(cfg, f, s, l, back), a', out)
  {
    if s.latched.Some? {
      assert Held(l.request) == Held(s.latched) + multiset{b};
      WantedMore(cfg, f, a, a', b);
      AfterLatchRefines(cfg, f, s, l, back, a', out);
    }
  }

  lemma WantedMore(cfg: Config, f: nat, a: Arrivals, a': Arrivals, b: StreamBuffer)
    requires
      || (a.ir1.None? && a' == a.(ir1 := Some(b)))
      || (a.ir2.None? && a' == a.(ir2 := Some(b)))
    ensures Wanted(cfg, f, a') == Wanted(cfg, f, a) + multiset{b}
  {
  }

  lemma RgbRefines(cfg: Config, f: nat, s: FrameState, a: Arrivals, r: CaptureResult, out: StreamBuffer)
    requires cfg.Valid() && !cfg.forceInternal && Inv(cfg, f, s, a, true) && r.frame == f
    requires GoodResult(cfg, cfg.rgbCamera, r) && Novel(cfg, a, cfg.rgbCamera, r)
    requires Refines(cfg, f, s, a, out)
    ensures Refines(cfg, f, StepResult(cfg, s, cfg.rgbCamera, r),
                    ArriveRgb(a, Within(r.outputs, {cfg.yuvStream}), r.metadata), out)
  {
    var a' := ArriveRgb(a, Within(r.outputs, {cfg.yuvStream}), r.metadata);
    RgbLatchRefines(cfg, f, s, a, r, out);
    RgbNeverFails(cfg, f, s, a, true, r);
    RgbStep(cfg, s, r);
    RefinesUpToDeliveries(cfg, f, StepResult(cfg, s, cfg.rgbCamera, r),
                          AfterLatch(cfg, f, s, RgbLatch(cfg, f, s, r), RgbBack(cfg, f, s, r)), a', out);
  }

  lemma RefinesUpToDeliveries(cfg: Config, f: nat, s: FrameState, t: FrameState, a: Arrivals, out: StreamBuffer)
    requires SameUpToDeliveries(s, t) && Refines(cfg, f, t, a, out)
    ensures Refines(cfg, f, s, a, out)
  {
  }

  lemma RgbNews(cfg: Config, a: Arrivals, r: CaptureResult)
    requires Typed(cfg, a) && GoodResult(cfg, cfg.rgbCamera, r) && Novel(cfg, a, cfg.rgbCamera, r) && cfg.Valid()
    ensures
      var yuv := Within(r.outputs, {cfg.yuvStream});
      && |yuv| <= 1 && (yuv != [] ==> a.yuv.None?) && (r.metadata.Some? ==> a.metadata.None?)
      && Typed(cfg, ArriveRgb(a, yuv, r.metadata))
  {
    var yuv := Within(r.outputs, {cfg.yuvStream});
    if yuv != [] { WithinOn(r.outputs, cfg.yuvStream, yuv[0]); }
    RgbArrival(cfg, a, yuv, r.metadata);
  }

  lemma RgbLatchRefines(cfg: Config, f: nat, s: FrameState, a: Arrivals, r: CaptureResult, out: StreamBuffer)
    requires cfg.Valid() && !cfg.forceInternal && Inv(cfg, f, s, a, true) && r.frame == f
    requires GoodResult(cfg, cfg.rgbCamera, r) && Novel(cfg, a, cfg.rgbCamera, r)
    requires Refines(cfg, f, s, a, out)
    ensures Refines(cfg, f, AfterLatch(cfg, f, s, RgbLatch(cfg, f, s, r), RgbBack(cfg, f, s, r)),
                    ArriveRgb(a, Within(r.outputs, {cfg.yuvStream}), r.metadata), out)
  {
    var yuv := Within(r.outputs, {cfg.yuvStream});
    RgbNews(cfg, a, r);
    RgbLatchKeeps(cfg, f, s, a, true, r);
    RgbBufferRefines(cfg, f, s, a, RgbLatch(cfg, f, s, r), RgbBack(cfg, f, s, r), yuv, r.metadata,
                     RgbInputs(cfg, f, s, r), out);
  }

  // A YUV buffer, the metadata, or both, seen from the request.
  lemma RgbBufferRefines(cfg: Config, f: nat, s: FrameState, a: Arrivals, l: Latch, back: multiset<StreamBuffer>,
                         yuv: seq<StreamBuffer>, metadata: Option<Metadata>, inputs: seq<StreamBuffer>,
                         out: StreamBuffer)
    requires cfg.Valid() && !cfg.forceInternal && Typed(cfg, ArriveRgb(a, yuv, metadata))
    requires |yuv| <= 1 && (yuv != [] ==> a.yuv.None?) && (metadata.Some? ==> a.metadata.None?)
    requires Refines(cfg, f, s, a, out)
    requires inputs == if cfg.IsAutocal(f) && s.latched.Some? then yuv else []
    requires l.request.Some? <==> s.latched.Some?
    requires l.updated <==> s.latched.Some? && (inputs != [] || metadata.Some?)
    requires Held(l.request) == Held(s.latched) + multiset(inputs)
    requires l.request.Some? ==>
               && Aligned(cfg, f, l.request.value)
               && l.request.value.outputs == s.latched.value.outputs
               && (metadata.Some? ==> LastMetadata(l.request.value.metadata) == metadata)
               && (metadata.None? ==> l.request.value.metadata == s.latched.value.metadata)
    ensures Refines(cfg, f, AfterLatch(cfg, f, s, l, back), ArriveRgb(a, yuv, metadata), out)
  {
    if s.latched.Some? {
      var a' := ArriveRgb(a, yuv, metadata);
      WantedYuv(cfg, f, a, yuv, metadata);
      assert LastMetadata([]) == None;
      AfterLatchRefines(cfg, f, s, l, back, a', out);
    }
  }

  lemma WantedYuv(cfg: Config, f: nat, a: Arrivals, yuv: seq<StreamBuffer>, metadata: Option<Metadata>)
    requires |yuv| <= 1 && (yuv != [] ==> a.yuv.None?)
    ensures Wanted(cfg, f, ArriveRgb(a, yuv, metadata)) ==
            Wanted(cfg, f, a) + multiset(if cfg.IsAutocal(f) then yuv else [])
  {
    BagOfFirst(yuv);
  }

  // ---------- Whole runs ----------

  ghost predicate Concerns(f: nat, e: Event) {
    (e.Admit? && e.frame == f) || (e.Result? && e.result.frame == f)
  }

  // Frame `f` is admitted with a depth buffer by event `n`, before its results, and not flushed
  // before its inputs are complete.
  ghost predicate AdmittedAt(cfg: Config, f: nat, es: seq<Event>, n: nat) {
    && n < |es|
    && es[n].Admit? && es[n].frame == f
    && SlotOn(es[n].outputs, cfg.depthStream, -1) < |es[n].outputs|
    && (forall i :: 0 <= i < n ==> !Concerns(f, es[i]))
    && (forall i :: n < i < |es| && es[i].Flush? ==> Complete(cfg, f, Arrived(cfg, f, es[..i])))
  }

  lemma AdmittedBefore(cfg: Config, f: nat, es: seq<Event>, n: nat, m: nat)
    requires AdmittedAt(cfg, f, es, n) && n < m <= |es|
    ensures AdmittedAt(cfg, f, es[..m], n)
  {
    var before := es[..m];
    forall i | n < i < |before| && before[i].Flush? ensures Complete(cfg, f, Arrived(cfg, f, before[..i])) {
      assert before[..i] == es[..i];
    }
  }

  function DepthOutput(cfg: Config, outputs: seq<StreamBuffer>): StreamBuffer
    requires SlotOn(outputs, cfg.depthStream, -1) < |outputs|
  {
    outputs[SlotOn(outputs, cfg.depthStream, -1)]
  }

  lemma {:induction false} QuietRun(cfg: Config, f: nat, es: seq<Event>)
    requires forall i :: 0 <= i < |es| ==> !Concerns(f, es[i])
    ensures Run(cfg, f, es) == INITIAL && Arrived(cfg, f, es) == NOTHING
  {
    if es != [] {
      QuietRun(cfg, f, es[..|es| - 1]);
    }
  }

  lemma ResultRefines(cfg: Config, f: nat, s: FrameState, a: Arrivals, camera: nat, r: CaptureResult, out: StreamBuffer)
    requires cfg.Valid() && !cfg.forceInternal && Inv(cfg, f, s, a, true) && r.frame == f
    requires GoodResult(cfg, camera, r) && Novel(cfg, a, camera, r)
    requires Refines(cfg, f, s, a, out)
    ensures Refines(cfg, f, StepResult(cfg, s, camera, r), Arrive(cfg, a, camera, r), out)
  {
    if camera == cfg.rgbCamera {
      RgbRefines(cfg, f, s, a, r, out);
    } else {
      IrRefines(cfg, f, s, a, camera, r, out);
    }
  }

  lemma OtherRefines(cfg: Config, f: nat, s: FrameState, a: Arrivals, e: Event, out: StreamBuffer)
    requires Refines(cfg, f, s, a, out) && !Concerns(f, e) && (e.Flush? ==> Complete(cfg, f, a))
    ensures Refines(cfg, f, Step(cfg, f, s, e), a, out)
  {
  }

  lemma FirstRefines(cfg: Config, f: nat, out: StreamBuffer)
    requires out.streamId == cfg.depthStream
    ensures Refines(cfg, f, INITIAL.(latched := Some(DepthRequest([], [], [out]))), NOTHING, out)
  {
    assert Filled([]) == [];
  }

  lemma StepRefines(cfg: Config, f: nat, s: FrameState, a: Arrivals, e: Event, out: StreamBuffer)
    requires cfg.Valid() && !cfg.forceInternal && Inv(cfg, f, s, a, true) && Refines(cfg, f, s, a, out)
    requires !(e.Admit? && e.frame == f) && (e.Flush? ==> Complete(cfg, f, a))
    requires e.Result? && e.result.frame == f ==>
               GoodResult(cfg, e.camera, e.result) && Novel(cfg, a, e.camera, e.result)
    ensures Refines(cfg, f, Step(cfg, f, s, e),
                    if e.Result? && e.result.frame == f then Arrive(cfg, a, e.camera, e.result) else a, out)
  {
    if e.Result? && e.result.frame == f {
      ResultRefines(cfg, f, s, a, e.camera, e.result, out);
    } else {
      OtherRefines(cfg, f, s, a, e, out);
    }
  }

  lemma AdmitRefines(cfg: Config, f: nat, es: seq<Event>)
    requires es != [] && AdmittedAt(cfg, f, es, |es| - 1)
    ensures Refines(cfg, f, Run(cfg, f, es), Arrived(cfg, f, es), DepthOutput(cfg, es[|es| - 1].outputs))
  {
    QuietRun(cfg, f, es[..|es| - 1]);
    FirstRefines(cfg, f, DepthOutput(cfg, es[|es| - 1].outputs));
  }

  lemma {:induction false} RunRefines(cfg: Config, f: nat, es: seq<Event>, n: nat)
    requires cfg.Valid() && !cfg.forceInternal && Orderly(cfg, f, es) && AdmittedAt(cfg, f, es, n)
    ensures Refines(cfg, f, Run(cfg, f, es), Arrived(cfg, f, es), DepthOutput(cfg, es[n].outputs))
  {
    var before, e := es[..|es| - 1], es[|es| - 1];
    if n == |es| - 1 {
      AdmitRefines(cfg, f, es);
    } else {
      AdmittedBefore(cfg, f, es, n, |es| - 1);
      RunRefines(cfg, f, before, n);
      RunKeeps(cfg, f, before);
      assert before[n] == es[n] && Admits(before, f);
      StepRefines(cfg, f, Run(cfg, f, before), Arrived(cfg, f, before), e, DepthOutput(cfg, es[n].outputs));
    }
  }

  // Submission: after every step of every such run, the frame has been submitted exactly when its
  // inputs are complete, once, and with the canonical request.
  lemma {:induction false} SubmittedWhenComplete(cfg: Config, f: nat, es: seq<Event>, n: nat)
    requires cfg.Valid() && !cfg.forceInternal && Orderly(cfg, f, es) && AdmittedAt(cfg, f, es, n)
    ensures
      var a := Arrived(cfg, f, es);
      Run(cfg, f, es).log.submitted ==
        if Complete(cfg, f, a) then [Canonical(cfg, f, a, DepthOutput(cfg, es[n].outputs))] else []
  {
    RunRefines(cfg, f, es, n);
  }

  // ---------- Flushed too early ----------

  // Without a waiting request nothing is submitted.
  lemma NothingSubmitted(cfg: Config, s: FrameState, camera: nat, r: CaptureResult)
    requires s.latched.None?
    ensures StepResult(cfg, s, camera, r).latched.None?
    ensures StepResult(cfg, s, camera, r).log.submitted == s.log.submitted
  {
    LatchKeepsRequest(cfg, r.frame, camera, None, Kept(cfg, s, r));
  }

  // A frame that is flushed before its inputs are complete is never submitted.
  lemma {:induction false} FlushedNeverSubmitted(cfg: Config, f: nat, es: seq<Event>, n: nat, m: nat)
    requires cfg.Valid() && !cfg.forceInternal && Orderly(cfg, f, es)
    requires n < m < |es| && es[m].Flush? && AdmittedAt(cfg, f, es[..m], n)
    requires !Complete(cfg, f, Arrived(cfg, f, es[..m]))
    ensures Run(cfg, f, es).latched.None? && Run(cfg, f, es).log.submitted == []
  {
    var before, e := es[..|es| - 1], es[|es| - 1];
    if m == |es| - 1 {
      RunRefines(cfg, f, before, n);
    } else {
      assert before[..m] == es[..m];
      FlushedNeverSubmitted(cfg, f, before, n, m);
      assert es[..m][n] == before[n] && Admits(before, f);
      if e.Result? && e.result.frame == f { NothingSubmitted(cfg, Run(cfg, f, before), e.camera, e.result); }
    }
  }

  // ---------- Confluence ----------

  datatype Item = Ir1(b: StreamBuffer) | Ir2(b: StreamBuffer) | Yuv(b: StreamBuffer) | RgbMetadata(m: Metadata)

  // Event `e` brings `x` for frame `f`, alone or together with other items.
  ghost predicate Brings(cfg: Config, f: nat, e: Event, x: Item) {
    && e.Result? && e.result.frame == f
    && match x
       case Ir1(b) => e.camera == cfg.ir1Camera && b in e.result.outputs
       case Ir2(b) => e.camera == cfg.ir2Camera && b in e.result.outputs
       case Yuv(b) => e.camera == cfg.rgbCamera && b in Within(e.result.outputs, {cfg.yuvStream})
       case RgbMetadata(m) => e.camera == cfg.rgbCamera && e.result.metadata == Some(m)
  }

  ghost predicate Arrives(cfg: Config, f: nat, es: seq<Event>, x: Item) {
    exists i :: 0 <= i < |es| && Brings(cfg, f, es[i], x)
  }

  ghost predicate Holds(a: Arrivals, x: Item) {
    match x
    case Ir1(b) => a.ir1 == Some(b)
    case Ir2(b) => a.ir2 == Some(b)
    case Yuv(b) => a.yuv == Some(b)
    case RgbMetadata(m) => a.metadata == Some(m)
  }

  lemma BringsToHolds(cfg: Config, f: nat, a: Arrivals, e: Event, x: Item)
    requires cfg.Valid() && e.Result? && e.result.frame == f
    requires GoodResult(cfg, e.camera, e.result) && Novel(cfg, a, e.camera, e.result)
    ensures Holds(Arrive(cfg, a, e.camera, e.result), x) <==> Holds(a, x) || Brings(cfg, f, e, x)
  {
    var yuv := Within(e.result.outputs, {cfg.yuvStream});
    if yuv != [] && e.camera == cfg.rgbCamera { assert yuv == [yuv[0]]; }
    if e.result.outputs != [] && e.camera != cfg.rgbCamera { assert e.result.outputs == [e.result.outputs[0]]; }
  }

  // What has arrived is what the results brought, in whatever order.
  lemma {:induction false} ArrivedIffBrought(cfg: Config, f: nat, es: seq<Event>, x: Item)
    requires cfg.Valid() && Orderly(cfg, f, es)
    ensures Holds(Arrived(cfg, f, es), x) <==> Arrives(cfg, f, es, x)
  {
    if es != [] {
      var before, e := es[..|es| - 1], es[|es| - 1];
      ArrivedIffBrought(cfg, f, before, x);
      ArrivesLast(cfg, f, es, x);
      if e.Result? && e.result.frame == f {
        BringsToHolds(cfg, f, Arrived(cfg, f, before), e, x);
      }
    }
  }

  lemma ArrivesLast(cfg: Config, f: nat, es: seq<Event>, x: Item)
    requires es != []
    ensures Arrives(cfg, f, es, x) <==>
            Arrives(cfg, f, es[..|es| - 1], x) || Brings(cfg, f, es[|es| - 1], x)
  {
    var before := es[..|es| - 1];
    assert forall i :: 0 <= i < |before| ==> before[i] == es[i];
    if Arrives(cfg, f, es, x) && !Brings(cfg, f, es[|es| - 1], x) {
      var i :| 0 <= i < |es| && Brings(cfg, f, es[i], x);
      assert Brings(cfg, f, before[i], x);
    }
  }

  // Confluence: two runs in which the same items arrive for a frame, in any order and in any
  // batches, interleaved with anything about other frames, submit the same depth request.
  lemma {:induction false} Confluence(cfg: Config, f: nat, es: seq<Event>, n: nat, es': seq<Event>, n': nat)
    requires cfg.Valid() && !cfg.forceInternal
    requires Orderly(cfg, f, es) && AdmittedAt(cfg, f, es, n)
    requires Orderly(cfg, f, es') && AdmittedAt(cfg, f, es', n')
    requires DepthOutput(cfg, es[n].outputs) == DepthOutput(cfg, es'[n'].outputs)
    requires forall x :: Arrives(cfg, f, es, x) <==> Arrives(cfg, f, es', x)
    ensures Run(cfg, f, es).log.submitted == Run(cfg, f, es').log.submitted
  {
    SubmittedWhenComplete(cfg, f, es, n);
    SubmittedWhenComplete(cfg, f, es', n');
    var a, a' := Arrived(cfg, f, es), Arrived(cfg, f, es');
    forall x ensures Holds(a, x) <==> Holds(a', x) {
      ArrivedIffBrought(cfg, f, es, x);
      ArrivedIffBrought(cfg, f, es', x);
    }
    HoldsDetermines(a, a');
  }

  lemma HoldsDetermines(a: Arrivals, a': Arrivals)
    requires forall x :: Holds(a, x) <==> Holds(a', x)
    ensures a == a'
  {
    assert a.ir1.Some? ==> Holds(a, Ir1(a.ir1.value));
    assert a'.ir1.Some? ==> Holds(a', Ir1(a'.ir1.value));
    assert a.ir2.Some? ==> Holds(a, Ir2(a.ir2.value));
    assert a'.ir2.Some? ==> Holds(a', Ir2(a'.ir2.value));
    assert a.yuv.Some? ==> Holds(a, Yuv(a.yuv.value));
    assert a'.yuv.Some? ==> Holds(a', Yuv(a'.yuv.value));
    assert a.metadata.Some? ==> Holds(a, RgbMetadata(a.metadata.value));
    assert a'.metadata.Some? ==> Holds(a', RgbMetadata(a'.metadata.value));
  }
}
