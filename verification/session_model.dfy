// CameraDeviceSession with buffer management: which streams each frame still owes, which frames
// await their result metadata, which shutters and errors to suppress, and what the framework is
// told. Admitting one request and handling one result are atomic steps.
module SessionModel {
  import opened HalTypes
  import opened StreamGroups
  import opened RequestsTracker

  datatype Origin = Generated | FromHwl

  // What the session sends: to the framework, to the stream buffer cache manager (FlushingAll and
  // Ready), and to the capture session (Submitted).
  datatype Message =
    | ResultOut(frame: nat, hasMetadata: bool, outputs: seq<StreamBuffer>, inputs: seq<StreamBuffer>)
    | ErrorOut(frame: nat, stream: int, code: ErrorCode, origin: Origin)
    | ShutterOut(frame: nat)
    | FlushingAll
    | Ready(streams: set<int>)
    | Submitted(frame: nat, outputs: seq<StreamBuffer>)
    | GivenBack(buffers: seq<StreamBuffer>)

  datatype Config = Config(quotas: Quotas, configured: set<int>)
  {
    function Groups(): map<int, int> { quotas.groups }
  }

  datatype Session = Session(
    streams: map<nat, set<int>>,     // pending_request_streams_
    results: set<nat>,               // pending_results_
    ignoreShutters: set<nat>,
    errorNotified: set<nat>,
    dummies: set<nat>,               // dummy_buffer_observed_
    counts: Counts,
    log: seq<Message>)

  datatype Event =
    | Admit(frame: nat, outputs: seq<StreamBuffer>, inputs: seq<StreamBuffer>,
            flushingBefore: bool, active: bool, flushingAfter: bool)
    | Result(frame: nat, hasMetadata: bool, outputs: seq<StreamBuffer>, inputs: seq<StreamBuffer>)
    | NotifyError(frame: nat, stream: int, code: ErrorCode)
    | NotifyShutter(frame: nat)
    | Reserve(stream: int, n: nat)      // RequestStreamBuffers starts,
    | Obtain(stream: int, buffers: seq<StreamBuffer>)   // gets its buffers,
    | Unreserve(stream: int, n: nat)    // or fails
    | GiveBack(buffers: seq<StreamBuffer>)
    | Dummy(handle: nat)

  function Initial(cfg: Config): Session {
    var zeros := map s | s in cfg.quotas.max :: 0;
    Session(map[], {}, {}, {}, {}, Counts(zeros, zeros, {}), [])
  }

  function Say(s: Session, ms: seq<Message>): Session {
    s.(log := s.log + ms)
  }

  // ---------- Admitting a request ----------

  predicate IsValidRequest(cfg: Config, outputs: seq<StreamBuffer>, inputs: seq<StreamBuffer>) {
    && outputs != []
    && (forall b :: b in outputs ==> b.streamId in cfg.configured)
    && (forall b :: b in inputs ==> b.streamId in cfg.configured)
  }

  // A buffer that goes back unused is named by its stream only.
  function Failed(b: StreamBuffer): StreamBuffer {
    StreamBuffer(b.streamId, 0, 0, BufferError)
  }

  function AllFailed(s: seq<StreamBuffer>): (r: seq<StreamBuffer>)
    ensures |r| == |s|
  {
    seq(|s|, i requires 0 <= i < |s| => Failed(s[i]))
  }

  // The request is refused with all its buffers.
  function Refusal(frame: nat, outputs: seq<StreamBuffer>, inputs: seq<StreamBuffer>): seq<Message> {
    [ErrorOut(frame, INVALID_STREAM_ID, ErrorRequest, Generated), ResultOut(frame, false, AllFailed(outputs), inputs)]
  }

  function Owed(s: Session, frame: nat): set<int> {
    if frame in s.streams then s.streams[frame] else {}
  }

  // Record the request; when nothing was in flight, all streams have to be announced again.
  function Register(cfg: Config, s: Session, frame: nat, outputs: seq<StreamBuffer>): Session {
    s.(streams := s.streams[frame := Owed(s, frame) + FoldsOf(cfg.Groups(), outputs)],
       results := s.results + {frame})
  }

  function Refreshed(s: Session): Session {
    if s.streams == map[] then s.(counts := s.counts.(requested := {})) else s
  }

  function Announcement(ids: set<int>): seq<Message> {
    if ids == {} then [] else [Ready(ids)]
  }

  // What happens to a recorded request that gets its quota.
  function Launch(cfg: Config, s: Session, frame: nat, outputs: seq<StreamBuffer>, inputs: seq<StreamBuffer>,
                  flushing: bool): Session
  {
    var q := cfg.quotas;
    var s1 := Say(s.(counts := Admitted(q, s.counts, outputs)),
                  Announcement(FirstRequested(q, s.counts, outputs)));
    if flushing then
      var s2 := s1.(streams := s1.streams - {frame}, results := s1.results - {frame},
                    counts := s1.counts.(pending := Lowered(q, s1.counts.pending, outputs)));
      Say(s2, Refusal(frame, outputs, inputs))
    else Say(s1, [Submitted(frame, outputs)])
  }

  function StepAdmit(cfg: Config, s: Session, frame: nat, outputs: seq<StreamBuffer>, inputs: seq<StreamBuffer>,
                     flushingBefore: bool, active: bool, flushingAfter: bool): Session
    requires s.counts.pending.Keys == cfg.quotas.max.Keys
  {
    if !IsValidRequest(cfg, outputs, inputs) then s
    else if flushingBefore then Say(s, Refusal(frame, outputs, inputs))
    else if !active then Refreshed(Say(s, Refusal(frame, outputs, inputs)))
    else
      var s1 := Register(cfg, Refreshed(s), frame, outputs);
      if Enough(cfg.quotas, s1.counts, outputs) then Launch(cfg, s1, frame, outputs, inputs, flushingAfter)
      else s1
  }

  // ---------- Handling a result ----------

  // UpdatePendingRequest: cross off what the result returns; tell the cache manager when nothing
  // is in flight any more.
  function Update(cfg: Config, s: Session, frame: nat, outputs: seq<StreamBuffer>): Session {
    if outputs == [] || frame !in s.streams then s
    else
      var streams := CrossedOff(s.streams, frame, FoldsOf(cfg.Groups(), outputs));
      s.(streams := streams, log := if streams == map[] then s.log + [FlushingAll] else s.log)
  }

  function CrossedOff(streams: map<nat, set<int>>, frame: nat, ids: set<int>): map<nat, set<int>>
    requires frame in streams
  {
    var rest := streams[frame] - ids;
    if rest == {} then streams - {frame} else streams[frame := rest]
  }

  predicate HasDummy(dummies: set<nat>, outputs: seq<StreamBuffer>) {
    exists b :: b in outputs && b.handle in dummies
  }

  // A dummy buffer stands in for a framework buffer that could not be had.
  function Substituted(dummies: set<nat>, b: StreamBuffer): StreamBuffer {
    StreamBuffer(b.streamId, if b.handle in dummies then 0 else b.bufferId, 0, BufferError)
  }

  function ErrorMessages(dummies: set<nat>, frame: nat, outputs: seq<StreamBuffer>): seq<Message> {
    if outputs == [] then []
    else
      ErrorMessages(dummies, frame, outputs[..|outputs| - 1])
      + ErrorMessagesFor(dummies, frame, outputs[|outputs| - 1])
  }

  // Only a buffer that looks good needs a message that it is not.
  function ErrorMessagesFor(dummies: set<nat>, frame: nat, b: StreamBuffer): seq<Message> {
    var result := ResultOut(frame, false, [Substituted(dummies, b)], []);
    if b.status == BufferOk then [ErrorOut(frame, b.streamId, ErrorBuffer, Generated), result] else [result]
  }

  // The buffers that really came from the framework.
  function Real(dummies: set<nat>, buffers: seq<StreamBuffer>): seq<StreamBuffer> {
    if buffers == [] then []
    else
      var b := buffers[|buffers| - 1];
      if b.handle in dummies then Real(dummies, buffers[..|buffers| - 1])
      else Real(dummies, buffers[..|buffers| - 1]) + [b]
  }

  function Returned(cfg: Config, t: Counts, pending: seq<StreamBuffer>, acquired: seq<StreamBuffer>): Counts {
    t.(pending := Lowered(cfg.quotas, t.pending, pending), acquired := Lowered(cfg.quotas, t.acquired, acquired))
  }

  // The first dummy buffer of a frame fails the frame, unless its metadata has been delivered.
  function FailFrame(s: Session, frame: nat): Session {
    var s1 := s.(errorNotified := s.errorNotified + {frame});
    if frame in s.results then
      Say(s1.(results := s.results - {frame}, ignoreShutters := s.ignoreShutters + {frame}),
          [ErrorOut(frame, INVALID_STREAM_ID, ErrorResult, Generated)])
    else s1
  }

  predicate IsDummyResult(s: Session, frame: nat, outputs: seq<StreamBuffer>) {
    frame in s.errorNotified || HasDummy(s.dummies, outputs)
  }

  function StepDummyResult(cfg: Config, s: Session, frame: nat, outputs: seq<StreamBuffer>): Session {
    var s1 := if frame in s.errorNotified then s else FailFrame(s, frame);
    Say(s1, ErrorMessages(s.dummies, frame, outputs)).(
      counts := Returned(cfg, s.counts, outputs, Real(s.dummies, outputs)))
  }

  function StepNormalResult(cfg: Config, s: Session, frame: nat, hasMetadata: bool,
                            outputs: seq<StreamBuffer>, inputs: seq<StreamBuffer>): Session
  {
    Say(s, [ResultOut(frame, hasMetadata, outputs, inputs)]).(
      results := if hasMetadata then s.results - {frame} else s.results,
      counts := Returned(cfg, s.counts, outputs, outputs))
  }

  function StepResult(cfg: Config, s: Session, frame: nat, hasMetadata: bool,
                      outputs: seq<StreamBuffer>, inputs: seq<StreamBuffer>): Session
  {
    var s1 := Update(cfg, s, frame, outputs);
    if IsDummyResult(s1, frame, outputs) then StepDummyResult(cfg, s1, frame, outputs)
    else StepNormalResult(cfg, s1, frame, hasMetadata, outputs, inputs)
  }

  // ---------- Notifications ----------

  function StepError(s: Session, frame: nat, stream: int, code: ErrorCode): Session {
    if frame in s.errorNotified then s
    else
      var s1 := if code == ErrorResult
                then s.(results := s.results - {frame}, ignoreShutters := s.ignoreShutters + {frame})
                else s;
      Say(s1, [ErrorOut(frame, stream, code, FromHwl)])
  }

  function StepShutter(s: Session, frame: nat): Session {
    if frame in s.ignoreShutters then s.(ignoreShutters := s.ignoreShutters - {frame})
    else Say(s, [ShutterOut(frame)])
  }

  // ---------- Runs ----------

  ghost predicate Consistently(cfg: Config, s: Session) {
    Consistent(cfg.quotas, s.counts)
  }

  // Notifications and buffer traffic.
  function StepOther(cfg: Config, s: Session, e: Event): Session
    requires Consistently(cfg, s) && !e.Admit? && !e.Result?
  {
    match e
    case NotifyError(frame, stream, code) => StepError(s, frame, stream, code)
    case NotifyShutter(frame) => StepShutter(s, frame)
    case Reserve(stream, n) => s.(counts := RequestsTracker.Reserved(cfg.quotas, s.counts, stream, n))
    case Obtain(_, _) => s
    case Unreserve(stream, n) => s.(counts := Unreserved(cfg.quotas, s.counts, stream, n))
    case GiveBack(buffers) =>
      Say(s, [GivenBack(buffers)]).(counts := s.counts.(acquired := Lowered(cfg.quotas, s.counts.acquired, buffers)))
    case Dummy(handle) => s.(dummies := s.dummies + {handle})
  }

  function Step(cfg: Config, s: Session, e: Event): (s': Session)
    requires Consistently(cfg, s)
    ensures Consistently(cfg, s')
  {
    if e.Admit? then
      StepAdmit(cfg, s, e.frame, e.outputs, e.inputs, e.flushingBefore, e.active, e.flushingAfter)
    else if e.Result? then StepResult(cfg, s, e.frame, e.hasMetadata, e.outputs, e.inputs)
    else StepOther(cfg, s, e)
  }

  function Run(cfg: Config, es: seq<Event>): (s: Session)
    requires Folding(cfg.Groups())
    ensures Consistently(cfg, s)
  {
    if es == [] then Initial(cfg)
    else Step(cfg, Run(cfg, es[..|es| - 1]), es[|es| - 1])
  }

  // The run of more events from a state.
  function RunFrom(cfg: Config, s: Session, es: seq<Event>): (s': Session)
    requires Consistently(cfg, s)
    ensures Consistently(cfg, s')
  {
    if es == [] then s else Step(cfg, RunFrom(cfg, s, es[..|es| - 1]), es[|es| - 1])
  }

  lemma {:induction false} RunConcat(cfg: Config, a: seq<Event>, b: seq<Event>)
    requires Folding(cfg.Groups())
    ensures Run(cfg, a + b) == RunFrom(cfg, Run(cfg, a), b)
  {
    if b == [] {
      assert a + b == a;
    } else {
      assert (a + b)[..|a + b| - 1] == a + b[..|b| - 1];
      RunConcat(cfg, a, b[..|b| - 1]);
    }
  }

  lemma RunNext(cfg: Config, es: seq<Event>, e: Event)
    requires Folding(cfg.Groups())
    ensures Run(cfg, es + [e]) == Step(cfg, Run(cfg, es), e)
  {
    assert (es + [e])[..|es|] == es;
  }
}
