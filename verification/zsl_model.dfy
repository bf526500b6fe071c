// RealtimeZslResultRequestProcessor seen from one frame: results are latched until the frame is
// complete and then forwarded to the process block; a frame with an error is drained to the
// framework instead.
module ZslModel {
  import opened HalTypes
  import opened StreamBuffers

  const INT_MAX: int := 0x7FFF_FFFF

  datatype Config = Config(zslStream: int, partialResultCount: nat)

  // A RequestEntry with its capture request. `settings` lists the metadata pieces it has kept.
  datatype Entry = Entry(
    outputs: seq<StreamBuffer>,
    inputs: seq<StreamBuffer>,
    settings: Option<seq<nat>>,
    partials: nat,
    zslReceived: bool,
    expected: int,
    hasReturned: bool)

  const EMPTY_ENTRY := Entry([], [], None, 0, false, INT_MAX, false)

  datatype Result = Result(
    metadata: Option<seq<nat>>,
    partial: nat,
    outputs: seq<StreamBuffer>,
    inputs: seq<StreamBuffer>)

  const EMPTY_RESULT := Result(None, 0, [], [])

  datatype Forward = Forward(settings: Option<seq<nat>>, outputs: seq<StreamBuffer>, inputs: seq<StreamBuffer>)

  // What became of the frame's data.
  datatype Log = Log(
    returned: seq<StreamBuffer>,    // raw buffers given to the internal stream manager
    delivered: seq<Result>,         // sent to the framework directly
    forwarded: seq<Forward>)        // sent to the process block

  datatype FrameState = FrameState(
    pending: Option<Entry>,         // pending_frame_number_to_requests_
    error: Option<Entry>,           // pending_error_frames_
    log: Log)

  const INITIAL := FrameState(None, None, Log([], [], []))

  datatype Event =
    | Register(frame: nat, bufferCount: int, previewIntent: bool)    // UpdateOutputBufferCount
    | Arrival(frame: nat, result: Result)                            // ProcessResult
    | Failure(frame: nat, code: ErrorCode)                           // Notify

  predicate AllDataCollected(cfg: Config, e: Entry) {
    e.zslReceived && e.expected == |e.outputs| && e.partials == cfg.partialResultCount
  }

  function Registered(bufferCount: int, previewIntent: bool): Entry {
    EMPTY_ENTRY.(expected := bufferCount, zslReceived := !previewIntent)
  }

  function PendingEntry(s: FrameState): Entry {
    if s.pending.Some? then s.pending.value else EMPTY_ENTRY
  }

  // The entry once the raw buffers of a result have gone back.
  function WithRaw(cfg: Config, e: Entry, outputs: seq<StreamBuffer>): Entry {
    if Within(outputs, {cfg.zslStream}) != [] then e.(zslReceived := true, hasReturned := true) else e
  }

  // An early piece of metadata replaces what was kept, the final one is appended.
  function KeptSettings(cfg: Config, settings: Option<seq<nat>>, metadata: seq<nat>, partial: nat): seq<nat> {
    if partial < cfg.partialResultCount || settings.None? then metadata else settings.value + metadata
  }

  // Add what a result brings to the latched data; new buffers go in front.
  function Latched(cfg: Config, e: Entry, r: Result): Entry {
    var e1 := if r.metadata.None? then e
              else e.(partials := e.partials + 1,
                      settings := Some(KeptSettings(cfg, e.settings, r.metadata.value, r.partial)));
    e1.(outputs := r.outputs + e.outputs, inputs := r.inputs + e.inputs)
  }

  function ForwardOf(e: Entry): Forward {
    Forward(e.settings, e.outputs, e.inputs)
  }

  // Latch, and forward when that completes the frame.
  function Latch(cfg: Config, s: FrameState, e: Entry, r: Result): FrameState {
    var e' := Latched(cfg, e, r);
    if AllDataCollected(cfg, e') then
      FrameState(None, s.error, s.log.(forwarded := s.log.forwarded + [ForwardOf(e')]))
    else s.(pending := Some(e'))
  }

  // The result joined with what is latched.
  function Combined(e: Entry, r: Result): Result {
    if e.settings.None? then Result(r.metadata, r.partial, r.outputs + e.outputs, r.inputs + e.inputs)
    else if r.metadata.None? then Result(e.settings, e.partials, r.outputs + e.outputs, r.inputs + e.inputs)
    else Result(Some(r.metadata.value + e.settings.value), r.partial, r.outputs + e.outputs, r.inputs + e.inputs)
  }

  // The error entry remembers the latest combined result only.
  function ErrorEntry(error: Entry, e: Entry, c: Result): Entry {
    error.(outputs := c.outputs, inputs := c.inputs, zslReceived := e.zslReceived, expected := e.expected,
           partials := if e.settings.Some? then error.partials + c.partial else error.partials)
  }

  // A result that only returned a raw buffer is of no interest to the framework.
  predicate IsInternalOnly(e: Entry, c: Result) {
    e.hasReturned && c.metadata.None? && c.outputs == []
  }

  // Drain the result and everything latched to the framework.
  function Drain(cfg: Config, s: FrameState, error: Entry, e: Entry, r: Result): FrameState {
    var c := Combined(e, r);
    var error' := ErrorEntry(error, e, c);
    var log := if IsInternalOnly(e, c) then s.log else s.log.(delivered := s.log.delivered + [c]);
    if AllDataCollected(cfg, error') then FrameState(None, None, log)
    else FrameState(Some(e.(outputs := [], inputs := [], settings := None)), Some(error'), log)
  }

  function StepArrival(cfg: Config, s: FrameState, r: Result): FrameState {
    var e := WithRaw(cfg, PendingEntry(s), r.outputs);
    var rest := r.(outputs := Outside(r.outputs, {cfg.zslStream}));
    var s1 := s.(log := s.log.(returned := s.log.returned + Within(r.outputs, {cfg.zslStream})));
    if s.error.Some? then Drain(cfg, s1, s.error.value, e, rest) else Latch(cfg, s1, e, rest)
  }

  // A request error stands for the metadata that will not come.
  function Failing(s: FrameState, code: ErrorCode): FrameState {
    if code == ErrorRequest || code == ErrorBuffer then
      var error := if s.error.Some? then s.error.value else EMPTY_ENTRY;
      s.(error := Some(if code == ErrorRequest then error.(partials := error.partials + 1) else error))
    else s
  }

  // The frame is latched with its raw buffer but has no error entry to drain it into.
  predicate DereferencesNull(s: FrameState, code: ErrorCode) {
    s.pending.Some? && s.pending.value.zslReceived && Failing(s, code).error.None?
  }

  function StepFailure(cfg: Config, s: FrameState, code: ErrorCode): FrameState {
    var s1 := Failing(s, code);
    if s1.error.Some? && s1.pending.Some? && s1.pending.value.zslReceived then
      Drain(cfg, s1, s1.error.value, s1.pending.value, EMPTY_RESULT)
    else s1
  }

  function Step(cfg: Config, f: nat, s: FrameState, e: Event): FrameState {
    if e.frame != f then s
    else
      match e
      case Register(_, bufferCount, previewIntent) => s.(pending := Some(Registered(bufferCount, previewIntent)))
      case Arrival(_, result) => StepArrival(cfg, s, result)
      case Failure(_, code) => StepFailure(cfg, s, code)
  }

  function Run(cfg: Config, f: nat, es: seq<Event>): FrameState {
    if es == [] then INITIAL
    else Step(cfg, f, Run(cfg, f, es[..|es| - 1]), es[|es| - 1])
  }
}
