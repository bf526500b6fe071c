// The RGB + IR depth chain seen from one frame. RgbirdResultRequestProcessor latches the IR
// buffers, the YUV buffer and the RGB metadata of a frame until a depth request is complete,
// DepthProcessBlock holds the request while the depth engine works on it, and
// RgbirdDepthResultProcessor recycles its inputs. Every step of the chain concerns one frame
// except a flush, which concerns all; so the chain is a family of machines, one per frame.
module DepthModel {
  import opened HalTypes
  import opened StreamBuffers

  const AUTOCAL_FRAME_NUMBER: nat := 5
  const NUM_AUTOCAL_INPUT_BUFFERS: nat := 3
  const FACE_DETECT_OFF: nat := 0

  // RGB result metadata: its identity and the tags the auto-calibration check looks for.
  datatype Metadata = Metadata(
    id: nat,
    hasCropRegion: bool,
    faceDetectMode: Option<nat>,
    hasFaceRectangles: bool,
    hasFaceScores: bool)

  predicate IsAutocalMetadataReady(m: Metadata) {
    && m.hasCropRegion
    && m.faceDetectMode.Some?
    && (m.faceDetectMode.value != FACE_DETECT_OFF ==> m.hasFaceRectangles && m.hasFaceScores)
  }

  datatype Config = Config(
    rgbCamera: nat, ir1Camera: nat, ir2Camera: nat,
    depthStream: int, yuvStream: int, ir1Stream: int, ir2Stream: int,
    frameworkStreams: set<int>,
    autocalEnabled: bool,
    forceInternal: bool)
  {
    // A session with a depth stream, three cameras and three internal streams.
    predicate Valid() {
      && rgbCamera != ir1Camera && rgbCamera != ir2Camera && ir1Camera != ir2Camera
      && yuvStream != ir1Stream && yuvStream != ir2Stream && ir1Stream != ir2Stream
      && yuvStream !in frameworkStreams && ir1Stream !in frameworkStreams && ir2Stream !in frameworkStreams
      && yuvStream != INVALID_STREAM_ID && ir1Stream != INVALID_STREAM_ID && ir2Stream != INVALID_STREAM_ID
      && INVALID_STREAM_ID !in frameworkStreams
      && depthStream in frameworkStreams
    }

    function SensorStreams(): set<int> { {yuvStream, ir1Stream, ir2Stream} }

    predicate IsAutocal(frame: nat) { autocalEnabled && frame == AUTOCAL_FRAME_NUMBER }
  }

  // A pending depth request. metadata[k] belongs to the buffer inputs[k].
  datatype DepthRequest = DepthRequest(
    inputs: seq<StreamBuffer>,
    metadata: seq<Option<Metadata>>,
    outputs: seq<StreamBuffer>)

  datatype CaptureResult = CaptureResult(
    frame: nat,
    metadata: Option<Metadata>,
    outputs: seq<StreamBuffer>,
    inputs: seq<StreamBuffer>)

  // What the depth engine is asked to work on.
  datatype DepthInfo = DepthInfo(
    color: seq<StreamBuffer>,
    ir1: seq<StreamBuffer>,
    ir2: seq<StreamBuffer>,
    metadata: Option<Metadata>,
    outputs: seq<StreamBuffer>)

  // What happened to the buffers of one frame, as the chain's environment sees it.
  datatype Log = Log(
    returned: multiset<StreamBuffer>,   // given back to the internal stream manager
    submitted: seq<DepthInfo>,          // accepted by the depth block
    delivered: seq<CaptureResult>,      // sent to the framework
    bufferErrors: nat)                  // kErrorBuffer messages sent to the framework

  const EMPTY_LOG := Log(multiset{}, [], [], 0)

  datatype FrameState = FrameState(
    latched: Option<DepthRequest>,      // the entry of depth_requests_
    pending: Option<DepthRequest>,      // the entry of pending_depth_requests_
    log: Log)

  const INITIAL := FrameState(None, None, EMPTY_LOG)

  // ---------- The slots of a request ----------

  predicate IsFilled(b: StreamBuffer) { b.streamId != INVALID_STREAM_ID }

  // The buffers of `s` that are not place holders.
  function Filled(s: seq<StreamBuffer>): seq<StreamBuffer> {
    Outside(s, {INVALID_STREAM_ID})
  }

  function Padding(n: nat): (s: seq<StreamBuffer>)
    ensures |s| == n
  {
    seq(n, i => PLACEHOLDER)
  }

  // Grow `s` to `n` slots.
  function Padded(s: seq<StreamBuffer>, n: nat): (r: seq<StreamBuffer>)
    ensures |r| == if |s| < n then n else |s|
    ensures s <= r
    ensures forall i :: |s| <= i < |r| ==> r[i] == PLACEHOLDER
  {
    if |s| < n then s + Padding(n - |s|) else s
  }

  // The first slot holding metadata, or |ms|.
  function MetadataSlot(ms: seq<Option<Metadata>>): (k: nat)
    ensures k <= |ms|
    ensures forall i :: 0 <= i < k ==> ms[i].None?
    ensures k < |ms| ==> ms[k].Some?
  {
    if ms == [] || ms[0].Some? then 0 else 1 + MetadataSlot(ms[1..])
  }

  // The first slot of `s` on stream `id` other than `except`, or |s|.
  function SlotOn(s: seq<StreamBuffer>, id: int, except: int): (k: nat)
    ensures k <= |s|
    ensures forall i :: 0 <= i < k ==> s[i].streamId != id || i == except
    ensures k < |s| ==> s[k].streamId == id && k != except
  {
    if s == [] || (s[0].streamId == id && except != 0) then 0
    else 1 + SlotOn(s[1..], id, except - 1)
  }

  // The last metadata in the list.
  function LastMetadata(ms: seq<Option<Metadata>>): Option<Metadata> {
    if ms == [] then None
    else if ms[|ms| - 1].Some? then ms[|ms| - 1]
    else LastMetadata(ms[..|ms| - 1])
  }

  // Put one sensor buffer into a request. The flag tells whether that succeeded.
  function InsertBuffer(r: DepthRequest, fromRgb: bool, b: StreamBuffer): (DepthRequest, bool) {
    if r.metadata == [] then (r.(inputs := r.inputs + [b]), true)
    else
      var k := MetadataSlot(r.metadata);
      if k == |r.metadata| then (r, false)
      else
        var slots := Padded(r.inputs, NUM_AUTOCAL_INPUT_BUFFERS);
        if fromRgb then
          if k < |slots| && !IsFilled(slots[k]) then (r.(inputs := slots[k := b]), true)
          else (r.(inputs := slots), false)
        else
          var free := SlotOn(slots, INVALID_STREAM_ID, k);
          (r.(inputs := if free < |slots| then slots[free := b] else slots), true)
  }

  function ResizedMetadata(ms: seq<Option<Metadata>>): (r: seq<Option<Metadata>>)
    ensures |r| == NUM_AUTOCAL_INPUT_BUFFERS
    ensures forall i :: 0 <= i < NUM_AUTOCAL_INPUT_BUFFERS ==> r[i] == if i < |ms| then ms[i] else None
  {
    seq(NUM_AUTOCAL_INPUT_BUFFERS, i requires 0 <= i => if i < |ms| then ms[i] else None)
  }

  // Put the RGB metadata into a request, next to the YUV buffer if that is there.
  function InsertMetadata(cfg: Config, r: DepthRequest, m: Metadata): (DepthRequest, bool) {
    var ms := ResizedMetadata(r.metadata);
    var k := SlotOn(r.inputs, cfg.yuvStream, -1);
    if k >= NUM_AUTOCAL_INPUT_BUFFERS then (r.(metadata := ms), false)
    else
      (r.(metadata := ms[k := Some(m)], inputs := Padded(r.inputs, NUM_AUTOCAL_INPUT_BUFFERS)), true)
  }

  // ---------- One result ----------

  // Whether a result buffer is an input of the frame's depth request.
  predicate IsDepthInput(cfg: Config, frame: nat, camera: nat, b: StreamBuffer) {
    || camera == cfg.ir1Camera
    || camera == cfg.ir2Camera
    || (camera == cfg.rgbCamera && b.streamId == cfg.yuvStream && cfg.IsAutocal(frame))
  }

  datatype Latch = Latch(
    request: Option<DepthRequest>,
    back: multiset<StreamBuffer>,
    updated: bool,
    failed: bool)

  // Latch the depth inputs among `outputs`, in order, stopping at the first failure.
  function LatchBuffers(cfg: Config, frame: nat, camera: nat, request: Option<DepthRequest>,
                        outputs: seq<StreamBuffer>): Latch
  {
    if outputs == [] then Latch(request, multiset{}, false, false)
    else
      LatchOne(cfg, frame, camera,
               LatchBuffers(cfg, frame, camera, request, outputs[..|outputs| - 1]),
               outputs[|outputs| - 1])
  }

  function LatchOne(cfg: Config, frame: nat, camera: nat, l: Latch, b: StreamBuffer): Latch {
    if l.failed || !IsDepthInput(cfg, frame, camera, b) then l
    else if l.request.None? then l.(back := l.back + multiset{b})
    else
      var (r, ok) := InsertBuffer(l.request.value, camera == cfg.rgbCamera, b);
      if ok then l.(request := Some(r), updated := true)
      else l.(request := Some(r), failed := true)
  }

  function LatchMetadata(cfg: Config, camera: nat, l: Latch, metadata: Option<Metadata>): Latch {
    if l.failed || metadata.None? || camera != cfg.rgbCamera || l.request.None? then l
    else
      var (r, ok) := InsertMetadata(cfg, l.request.value, metadata.value);
      if ok then l.(request := Some(r), updated := true)
      else l.(request := Some(r), failed := true)
  }

  // All inputs the frame needs are there.
  predicate IsReady(cfg: Config, frame: nat, r: DepthRequest) {
    && |Filled(r.inputs)| == (if cfg.IsAutocal(frame) then 3 else 2)
    && r.metadata != []
    && (cfg.IsAutocal(frame) ==>
          LastMetadata(r.metadata).Some? && IsAutocalMetadataReady(LastMetadata(r.metadata).value))
  }

  // All input buffers are on streams of `ids`, place holders aside.
  predicate InputsOn(r: DepthRequest, ids: set<int>) {
    forall i :: 0 <= i < |r.inputs| ==> IsFilled(r.inputs[i]) ==> r.inputs[i].streamId in ids
  }

  // The depth block takes the request: the number of buffers is right, their streams are
  // configured there, and the frame is not pending already.
  predicate IsAccepted(cfg: Config, pending: Option<DepthRequest>, r: DepthRequest) {
    && 2 <= |r.inputs| <= 3 && |r.outputs| == 1
    && InputsOn(r, cfg.SensorStreams() + {cfg.depthStream})
    && r.outputs[0].streamId in cfg.SensorStreams() + {cfg.depthStream}
    && pending.None?
  }

  function InfoOf(cfg: Config, r: DepthRequest): DepthInfo {
    DepthInfo(
      Within(r.inputs, {cfg.yuvStream}),
      Within(r.inputs, {cfg.ir1Stream}),
      Within(r.inputs, {cfg.ir2Stream}),
      LastMetadata(r.metadata),
      r.outputs)
  }

  // Hand a ready request to the depth block. The flag tells whether nothing failed.
  function VerifyAndSubmit(cfg: Config, frame: nat, s: FrameState): (FrameState, bool) {
    if s.latched.None? then (s, false)
    else if !IsReady(cfg, frame, s.latched.value) then (s, true)
    else if !IsAccepted(cfg, s.pending, s.latched.value) then (s, false)
    else
      (FrameState(None, s.latched,
                  s.log.(submitted := s.log.submitted + [InfoOf(cfg, s.latched.value)])), true)
  }

  // The first buffer on stream `id` removed.
  function WithoutFirst(s: seq<StreamBuffer>, id: int): seq<StreamBuffer> {
    var k := SlotOn(s, id, -1);
    if k < |s| then s[..k] + s[k + 1..] else s
  }

  // Internal YUV buffers that the frame's depth request does not need go back at once.
  function SpareYuv(cfg: Config, frame: nat, outputs: seq<StreamBuffer>): seq<StreamBuffer> {
    if cfg.depthStream != -1 && !cfg.IsAutocal(frame) then Within(outputs, {cfg.yuvStream}) else []
  }

  function WithoutSpareYuv(cfg: Config, frame: nat, outputs: seq<StreamBuffer>): seq<StreamBuffer> {
    if cfg.depthStream != -1 && !cfg.IsAutocal(frame) then Outside(outputs, {cfg.yuvStream}) else outputs
  }

  // Without a depth request to wait for, no internal buffer is kept.
  predicate KeepsNoInternal(cfg: Config, s: FrameState) {
    (cfg.forceInternal || s.latched.None?) && cfg.depthStream != -1
  }

  function Give(log: Log, back: multiset<StreamBuffer>): Log {
    log.(returned := log.returned + back)
  }

  function Return(s: FrameState, back: multiset<StreamBuffer>): FrameState {
    s.(log := Give(s.log, back))
  }

  // The result buffers that are still handled after internal ones have gone back.
  function Kept(cfg: Config, s: FrameState, r: CaptureResult): seq<StreamBuffer> {
    var rest := WithoutSpareYuv(cfg, r.frame, r.outputs);
    if KeepsNoInternal(cfg, s) then Within(rest, cfg.frameworkStreams) else rest
  }

  // The internal buffers that go back to their manager before anything is latched.
  function Unkept(cfg: Config, s: FrameState, r: CaptureResult): multiset<StreamBuffer> {
    var rest := WithoutSpareYuv(cfg, r.frame, r.outputs);
    if KeepsNoInternal(cfg, s) then multiset(Outside(rest, cfg.frameworkStreams)) else multiset{}
  }

  // A result with nothing but spare internal YUV buffers.
  predicate IsOnlySpare(cfg: Config, r: CaptureResult) {
    && SpareYuv(cfg, r.frame, r.outputs) != []
    && r.metadata.None?
    && WithoutSpareYuv(cfg, r.frame, r.outputs) == []
    && r.inputs == []
  }

  function Deliver(s: FrameState, r: CaptureResult): FrameState {
    s.(log := s.log.(delivered := s.log.delivered + [r]))
  }

  function StepResult(cfg: Config, s: FrameState, camera: nat, r: CaptureResult): FrameState {
    var s1 := Return(s, multiset(SpareYuv(cfg, r.frame, r.outputs)));
    if IsOnlySpare(cfg, r) then s1
    else StepKept(cfg, Return(s1, Unkept(cfg, s, r)), camera, r.(outputs := Kept(cfg, s, r)))
  }

  // A result of which only the buffers that are still handled are left.
  function StepKept(cfg: Config, s: FrameState, camera: nat, r: CaptureResult): FrameState {
    var (s', ok) := TrySubmit(cfg, s, camera, r);
    if ok && camera == cfg.rgbCamera then Deliver(s', r.(outputs := WithoutFirst(r.outputs, cfg.yuvStream)))
    else s'
  }

  // Latch what the result brings and submit the depth request if that completes it.
  function TrySubmit(cfg: Config, s: FrameState, camera: nat, result: CaptureResult): (FrameState, bool) {
    var l := LatchMetadata(
               cfg, camera,
               LatchBuffers(cfg, result.frame, camera, s.latched, result.outputs),
               result.metadata);
    var s1 := Return(s.(latched := l.request), l.back);
    if l.failed then (s1, false)
    else if !l.updated then (s1, true)
    else VerifyAndSubmit(cfg, result.frame, s1)
  }

  // No request waits for a frame that the depth block works on already.
  predicate NeverBoth(s: FrameState) {
    s.latched.None? || s.pending.None?
  }

  // ---------- The other steps ----------

  function StepAdmit(cfg: Config, s: FrameState, outputs: seq<StreamBuffer>): FrameState {
    var k := SlotOn(outputs, cfg.depthStream, -1);
    if k == |outputs| || s.latched.Some? then s
    else s.(latched := Some(DepthRequest([], [], [outputs[k]])))
  }

  function WithError(s: seq<StreamBuffer>, id: int): seq<StreamBuffer> {
    seq(|s|, i requires 0 <= i < |s| => if s[i].streamId == id then s[i].(status := BufferError) else s[i])
  }

  // The depth engine reports `frame`: its inputs are unmapped and recycled and the depth buffer is
  // delivered. Only inputs of the sensor streams can be unmapped.
  function StepDone(cfg: Config, frame: nat, s: FrameState, ok: bool): FrameState {
    if s.pending.None? || !InputsOn(s.pending.value, cfg.SensorStreams()) then s
    else
      var r := s.pending.value;
      var outputs := if ok then r.outputs else WithError(r.outputs, cfg.depthStream);
      FrameState(
        s.latched, None,
        s.log.(returned := s.log.returned + multiset(Filled(r.inputs)),
               delivered := s.log.delivered + [CaptureResult(frame, None, outputs, [])]))
  }

  function FlushedOutputs(cfg: Config, outputs: seq<StreamBuffer>): seq<StreamBuffer> {
    var k := SlotOn(outputs, cfg.depthStream, -1);
    if k < |outputs| then [outputs[k].(status := BufferError)] else []
  }

  function StepFlush(cfg: Config, frame: nat, s: FrameState): FrameState {
    if s.latched.None? then s
    else FrameState(None, s.pending, FlushedLog(cfg, frame, s.log, s.latched.value))
  }

  function FlushedLog(cfg: Config, frame: nat, log: Log, r: DepthRequest): Log {
    log.(returned := log.returned + multiset(Filled(r.inputs)),
         delivered := log.delivered + [CaptureResult(frame, None, FlushedOutputs(cfg, r.outputs), [])],
         bufferErrors := log.bufferErrors + 1)
  }

  // ---------- Runs ----------

  datatype Event =
    | Admit(frame: nat, outputs: seq<StreamBuffer>)   // AddPendingRequests
    | Result(camera: nat, result: CaptureResult)      // ProcessResult
    | Done(frame: nat, ok: bool)                      // ProcessDepthResult
    | Flush                                           // FlushPendingRequests

  // How an event changes the state of frame `f`.
  function Step(cfg: Config, f: nat, s: FrameState, e: Event): FrameState {
    match e
    case Admit(frame, outputs) => if frame == f then StepAdmit(cfg, s, outputs) else s
    case Result(camera, result) => if result.frame == f then StepResult(cfg, s, camera, result) else s
    case Done(frame, ok) => if frame == f then StepDone(cfg, f, s, ok) else s
    case Flush => StepFlush(cfg, f, s)
  }

  function Run(cfg: Config, f: nat, es: seq<Event>): FrameState {
    if es == [] then INITIAL
    else Step(cfg, f, Run(cfg, f, es[..|es| - 1]), es[|es| - 1])
  }
}
