// What every run of the ZSL collector keeps, for every frame and every interleaving of results and
// errors.
module ZslRuns {
  import opened HalTypes
  import opened StreamBuffers
  import opened ZslModel

  // Some event before has started the frame.
  ghost predicate Started(es: seq<Event>, f: nat) {
    exists i :: 0 <= i < |es| && es[i].frame == f && !es[i].Failure?
  }

  // A frame is registered at most once, and before any of its results.
  ghost predicate Orderly(es: seq<Event>, f: nat) {
    es != [] ==>
      var before, e := es[..|es| - 1], es[|es| - 1];
      Orderly(before, f) && (e.Register? && e.frame == f ==> !Started(before, f))
  }

  lemma StartedLast(es: seq<Event>, f: nat)
    requires es != []
    ensures Started(es, f) <==> Started(es[..|es| - 1], f) || (es[|es| - 1].frame == f && !es[|es| - 1].Failure?)
  {
    var before := es[..|es| - 1];
    assert forall i :: 0 <= i < |before| ==> before[i] == es[i];
    if Started(es, f) && !(es[|es| - 1].frame == f && !es[|es| - 1].Failure?) {
      var i :| 0 <= i < |es| && es[i].frame == f && !es[i].Failure?;
      assert before[i].frame == f;
    }
  }

  lemma {:induction false} NotStartedIsUnknown(cfg: Config, f: nat, es: seq<Event>)
    requires !Started(es, f)
    ensures Run(cfg, f, es).pending.None?
    ensures Run(cfg, f, es).log == INITIAL.log
  {
    if es != [] {
      StartedLast(es, f);
      NotStartedIsUnknown(cfg, f, es[..|es| - 1]);
    }
  }

  // ---------- Output buffers ----------

  // The framework buffers the frame has received.
  function Received(cfg: Config, f: nat, es: seq<Event>): multiset<StreamBuffer> {
    if es == [] then multiset{}
    else
      var e := es[|es| - 1];
      var before := Received(cfg, f, es[..|es| - 1]);
      if e.Arrival? && e.frame == f then before + multiset(Outside(e.result.outputs, {cfg.zslStream})) else before
  }

  function Delivered(rs: seq<Result>): multiset<StreamBuffer> {
    if rs == [] then multiset{} else Delivered(rs[..|rs| - 1]) + multiset(rs[|rs| - 1].outputs)
  }

  function Forwarded(fs: seq<Forward>): multiset<StreamBuffer> {
    if fs == [] then multiset{} else Forwarded(fs[..|fs| - 1]) + multiset(fs[|fs| - 1].outputs)
  }

  // Where the frame's buffers are.
  function Places(s: FrameState): multiset<StreamBuffer> {
    multiset(PendingEntry(s).outputs) + Delivered(s.log.delivered) + Forwarded(s.log.forwarded)
  }

  lemma DeliveredNext(rs: seq<Result>, r: Result)
    ensures Delivered(rs + [r]) == Delivered(rs) + multiset(r.outputs)
  {
    assert (rs + [r])[..|rs|] == rs;
  }

  lemma ForwardedNext(fs: seq<Forward>, x: Forward)
    ensures Forwarded(fs + [x]) == Forwarded(fs) + multiset(x.outputs)
  {
    assert (fs + [x])[..|fs|] == fs;
  }

  lemma Sum(a: multiset<StreamBuffer>, b: multiset<StreamBuffer>, c: multiset<StreamBuffer>, x: multiset<StreamBuffer>)
    ensures x + a + b + c == a + b + c + x
    ensures multiset{} + (b + (x + a)) + c == a + b + c + x
    ensures multiset{} + b + (c + (x + a)) == a + b + c + x
  {
  }

  lemma LatchConserves(cfg: Config, s: FrameState, e: Entry, r: Result)
    requires e.outputs == PendingEntry(s).outputs
    ensures Places(Latch(cfg, s, e, r)) == Places(s) + multiset(r.outputs)
  {
    var e' := Latched(cfg, e, r);
    assert multiset(e'.outputs) == multiset(r.outputs) + multiset(e.outputs);
    Sum(multiset(e.outputs), Delivered(s.log.delivered), Forwarded(s.log.forwarded), multiset(r.outputs));
    ForwardedNext(s.log.forwarded, ForwardOf(e'));
  }

  lemma DrainConserves(cfg: Config, s: FrameState, error: Entry, e: Entry, r: Result)
    requires e.outputs == PendingEntry(s).outputs
    ensures Places(Drain(cfg, s, error, e, r)) == Places(s) + multiset(r.outputs)
  {
    DrainShape(cfg, s, error, e, r);
    var c := Combined(e, r);
    if IsInternalOnly(e, c) {
      assert r.outputs == [] && e.outputs == [];
    } else {
      assert multiset(c.outputs) == multiset(r.outputs) + multiset(e.outputs);
      Sum(multiset(e.outputs), Delivered(s.log.delivered), Forwarded(s.log.forwarded), multiset(r.outputs));
      DeliveredNext(s.log.delivered, c);
    }
  }

  // A drain leaves nothing latched and delivers one result or none.
  lemma DrainShape(cfg: Config, s: FrameState, error: Entry, e: Entry, r: Result)
    ensures
      var (s', c) := (Drain(cfg, s, error, e, r), Combined(e, r));
      && PendingEntry(s').outputs == [] && PendingEntry(s').inputs == []
      && c.outputs == r.outputs + e.outputs && c.inputs == r.inputs + e.inputs
      && s'.log.forwarded == s.log.forwarded && s'.log.returned == s.log.returned
      && s'.log.delivered == if IsInternalOnly(e, c) then s.log.delivered else s.log.delivered + [c]
  {
  }

  lemma ArrivalConserves(cfg: Config, s: FrameState, r: Result)
    ensures Places(StepArrival(cfg, s, r)) == Places(s) + multiset(Outside(r.outputs, {cfg.zslStream}))
  {
    var e := WithRaw(cfg, PendingEntry(s), r.outputs);
    var rest := r.(outputs := Outside(r.outputs, {cfg.zslStream}));
    var s1 := s.(log := s.log.(returned := s.log.returned + Within(r.outputs, {cfg.zslStream})));
    assert Places(s1) == Places(s);
    if s.error.Some? { DrainConserves(cfg, s1, s.error.value, e, rest); }
    else { LatchConserves(cfg, s1, e, rest); }
  }

  lemma FailureConserves(cfg: Config, s: FrameState, code: ErrorCode)
    ensures Places(StepFailure(cfg, s, code)) == Places(s)
  {
    var s1 := Failing(s, code);
    if s1.error.Some? && s1.pending.Some? && s1.pending.value.zslReceived {
      DrainConserves(cfg, s1, s1.error.value, s1.pending.value, EMPTY_RESULT);
    }
  }

  // Conservation: every framework buffer received for a frame is latched, delivered to the
  // framework directly, or forwarded to the process block: exactly one of these.
  lemma {:induction false} OutputsConserved(cfg: Config, f: nat, es: seq<Event>)
    requires Orderly(es, f)
    ensures Received(cfg, f, es) == Places(Run(cfg, f, es))
  {
    if es != [] {
      var before, e := es[..|es| - 1], es[|es| - 1];
      OutputsConserved(cfg, f, before);
      var s := Run(cfg, f, before);
      if e.frame == f {
        match e
        case Register(_, _, _) => NotStartedIsUnknown(cfg, f, before);
        case Arrival(_, r) => ArrivalConserves(cfg, s, r);
        case Failure(_, code) => FailureConserves(cfg, s, code);
      }
    }
  }

  // The raw buffers of the frame's results, in order.
  function RawReceived(cfg: Config, f: nat, es: seq<Event>): seq<StreamBuffer> {
    if es == [] then []
    else
      var e := es[|es| - 1];
      var before := RawReceived(cfg, f, es[..|es| - 1]);
      if e.Arrival? && e.frame == f then before + Within(e.result.outputs, {cfg.zslStream}) else before
  }

  // No buffer of the raw stream is latched, delivered or forwarded.
  ghost predicate NoRaw(cfg: Config, s: FrameState) {
    && (forall b :: b in PendingEntry(s).outputs ==> b.streamId != cfg.zslStream)
    && (forall i, b :: 0 <= i < |s.log.delivered| && b in s.log.delivered[i].outputs ==> b.streamId != cfg.zslStream)
    && (forall i, b :: 0 <= i < |s.log.forwarded| && b in s.log.forwarded[i].outputs ==> b.streamId != cfg.zslStream)
  }

  // Every raw buffer goes to the internal stream manager, once and in order, and nowhere else.
  lemma {:induction false} RawBuffersStayInternal(cfg: Config, f: nat, es: seq<Event>)
    ensures Run(cfg, f, es).log.returned == RawReceived(cfg, f, es)
    ensures NoRaw(cfg, Run(cfg, f, es))
  {
    if es != [] {
      var before, e := es[..|es| - 1], es[|es| - 1];
      RawBuffersStayInternal(cfg, f, before);
      var s := Run(cfg, f, before);
      if e.frame == f {
        if e.Arrival? { ArrivalNoRaw(cfg, s, e.result); }
        if e.Failure? { FailureNoRaw(cfg, s, e.code); }
      }
    }
  }

  lemma ArrivalNoRaw(cfg: Config, s: FrameState, r: Result)
    requires NoRaw(cfg, s)
    ensures NoRaw(cfg, StepArrival(cfg, s, r))
    ensures StepArrival(cfg, s, r).log.returned == s.log.returned + Within(r.outputs, {cfg.zslStream})
  {
    OutsideMembers(r.outputs, {cfg.zslStream});
    var e := WithRaw(cfg, PendingEntry(s), r.outputs);
    var rest := r.(outputs := Outside(r.outputs, {cfg.zslStream}));
    var s1 := s.(log := s.log.(returned := s.log.returned + Within(r.outputs, {cfg.zslStream})));
    if s.error.Some? { DrainShape(cfg, s1, s.error.value, e, rest); }
  }

  lemma FailureNoRaw(cfg: Config, s: FrameState, code: ErrorCode)
    requires NoRaw(cfg, s)
    ensures NoRaw(cfg, StepFailure(cfg, s, code)) && StepFailure(cfg, s, code).log.returned == s.log.returned
  {
    var s1 := Failing(s, code);
    if s1.error.Some? && s1.pending.Some? && s1.pending.value.zslReceived {
      DrainShape(cfg, s1, s1.error.value, s1.pending.value, EMPTY_RESULT);
    }
  }

  // ---------- Input buffers ----------

  function InputsReceived(f: nat, es: seq<Event>): multiset<StreamBuffer> {
    if es == [] then multiset{}
    else
      var e := es[|es| - 1];
      var before := InputsReceived(f, es[..|es| - 1]);
      if e.Arrival? && e.frame == f then before + multiset(e.result.inputs) else before
  }

  function InputsDelivered(rs: seq<Result>): multiset<StreamBuffer> {
    if rs == [] then multiset{} else InputsDelivered(rs[..|rs| - 1]) + multiset(rs[|rs| - 1].inputs)
  }

  function InputsForwarded(fs: seq<Forward>): multiset<StreamBuffer> {
    if fs == [] then multiset{} else InputsForwarded(fs[..|fs| - 1]) + multiset(fs[|fs| - 1].inputs)
  }

  function InputPlaces(s: FrameState): multiset<StreamBuffer> {
    multiset(PendingEntry(s).inputs) + InputsDelivered(s.log.delivered) + InputsForwarded(s.log.forwarded)
  }

  // What a drain drops: a result taken for a mere raw buffer is not delivered, whatever its inputs.
  function DrainDrops(e: Entry, r: Result): multiset<StreamBuffer> {
    if IsInternalOnly(e, Combined(e, r)) then multiset(r.inputs) + multiset(e.inputs) else multiset{}
  }

  function Dropped(cfg: Config, f: nat, s: FrameState, e: Event): multiset<StreamBuffer> {
    if e.frame != f then multiset{}
    else if e.Arrival? && s.error.Some? then
      DrainDrops(WithRaw(cfg, PendingEntry(s), e.result.outputs),
                 e.result.(outputs := Outside(e.result.outputs, {cfg.zslStream})))
    else if e.Failure? && s.pending.Some? && s.pending.value.zslReceived && Failing(s, e.code).error.Some? then
      DrainDrops(s.pending.value, EMPTY_RESULT)
    else multiset{}
  }

  function AllDropped(cfg: Config, f: nat, es: seq<Event>): multiset<StreamBuffer> {
    if es == [] then multiset{}
    else AllDropped(cfg, f, es[..|es| - 1]) + Dropped(cfg, f, Run(cfg, f, es[..|es| - 1]), es[|es| - 1])
  }

  lemma LatchInputs(cfg: Config, s: FrameState, e: Entry, r: Result)
    requires e.inputs == PendingEntry(s).inputs
    ensures InputPlaces(Latch(cfg, s, e, r)) == InputPlaces(s) + multiset(r.inputs)
  {
    var e' := Latched(cfg, e, r);
    assert multiset(e'.inputs) == multiset(r.inputs) + multiset(e.inputs);
    Sum(multiset(e.inputs), InputsDelivered(s.log.delivered), InputsForwarded(s.log.forwarded), multiset(r.inputs));
    assert (s.log.forwarded + [ForwardOf(e')])[..|s.log.forwarded|] == s.log.forwarded;
  }

  lemma DrainInputs(cfg: Config, s: FrameState, error: Entry, e: Entry, r: Result)
    requires e.inputs == PendingEntry(s).inputs
    ensures InputPlaces(Drain(cfg, s, error, e, r)) + DrainDrops(e, r) == InputPlaces(s) + multiset(r.inputs)
  {
    DrainShape(cfg, s, error, e, r);
    var c := Combined(e, r);
    var latched := multiset(e.inputs);
    var delivered, forwarded := InputsDelivered(s.log.delivered), InputsForwarded(s.log.forwarded);
    if IsInternalOnly(e, c) {
      DropSum(latched, delivered, forwarded, multiset(r.inputs));
    } else {
      assert multiset(c.inputs) == multiset(r.inputs) + latched;
      Sum(latched, delivered, forwarded, multiset(r.inputs));
      InputsNext(s.log.delivered, c);
    }
  }

  lemma InputsNext(rs: seq<Result>, r: Result)
    ensures InputsDelivered(rs + [r]) == InputsDelivered(rs) + multiset(r.inputs)
  {
    assert (rs + [r])[..|rs|] == rs;
  }

  lemma DropSum(a: multiset<StreamBuffer>, b: multiset<StreamBuffer>, c: multiset<StreamBuffer>,
                x: multiset<StreamBuffer>)
    ensures multiset{} + b + c + (x + a) == a + b + c + x
  {
  }

  lemma ArrivalInputs(cfg: Config, f: nat, s: FrameState, e: Event)
    requires e.Arrival? && e.frame == f
    ensures InputPlaces(Step(cfg, f, s, e)) + Dropped(cfg, f, s, e) == InputPlaces(s) + multiset(e.result.inputs)
  {
    var r := e.result;
    var entry := WithRaw(cfg, PendingEntry(s), r.outputs);
    var rest := r.(outputs := Outside(r.outputs, {cfg.zslStream}));
    var s1 := s.(log := s.log.(returned := s.log.returned + Within(r.outputs, {cfg.zslStream})));
    assert InputPlaces(s1) == InputPlaces(s);
    if s.error.Some? { DrainInputs(cfg, s1, s.error.value, entry, rest); }
    else { LatchInputs(cfg, s1, entry, rest); }
  }

  lemma FailureInputs(cfg: Config, f: nat, s: FrameState, e: Event)
    requires e.Failure? && e.frame == f
    ensures InputPlaces(Step(cfg, f, s, e)) + Dropped(cfg, f, s, e) == InputPlaces(s)
  {
    var s1 := Failing(s, e.code);
    if s1.error.Some? && s1.pending.Some? && s1.pending.value.zslReceived {
      DrainInputs(cfg, s1, s1.error.value, s1.pending.value, EMPTY_RESULT);
    }
  }

  // What is received is placed or gone.
  lemma AddGone<T>(all: multiset<T>, places: multiset<T>, gone: multiset<T>, places': multiset<T>,
                   more: multiset<T>, news: multiset<T>)
    requires all == places + gone && places' + more == places + news
    ensures all + news == places' + (gone + more)
  {
    forall x ensures (all + news)[x] == (places' + (gone + more))[x] {
      assert (places' + more)[x] == (places + news)[x];
    }
  }

  // Input buffers are conserved up to those that a drain drops.
  lemma {:induction false} InputsAccountedFor(cfg: Config, f: nat, es: seq<Event>)
    requires Orderly(es, f)
    ensures InputsReceived(f, es) == InputPlaces(Run(cfg, f, es)) + AllDropped(cfg, f, es)
  {
    if es != [] {
      var before, e := es[..|es| - 1], es[|es| - 1];
      InputsAccountedFor(cfg, f, before);
      var s := Run(cfg, f, before);
      var news := if e.Arrival? && e.frame == f then multiset(e.result.inputs) else multiset{};
      if e.frame == f {
        match e
        case Register(_, _, _) => NotStartedIsUnknown(cfg, f, before);
        case Arrival(_, _) => ArrivalInputs(cfg, f, s, e);
        case Failure(_, _) => FailureInputs(cfg, f, s, e);
      }
      AddGone(InputsReceived(f, before), InputPlaces(s), AllDropped(cfg, f, before),
              InputPlaces(Run(cfg, f, es)), Dropped(cfg, f, s, e), news);
    }
  }

  // An input buffer of a result is lost exactly when the frame has failed, its raw buffer has been
  // returned, and neither metadata nor a framework buffer is there to deliver.
  lemma DropsInputsIff(cfg: Config, f: nat, s: FrameState, e: Event)
    requires e.Arrival? && e.frame == f
    ensures
      var entry := PendingEntry(s);
      Dropped(cfg, f, s, e) != multiset{} <==>
        && s.error.Some? && e.result.inputs + entry.inputs != []
        && (entry.hasReturned || exists b :: b in e.result.outputs && b.streamId == cfg.zslStream)
        && e.result.metadata.None? && entry.settings.None?
        && entry.outputs == [] && forall b :: b in e.result.outputs ==> b.streamId == cfg.zslStream
  {
    var r := e.result;
    WithinMembers(r.outputs, {cfg.zslStream});
    OutsideMembers(r.outputs, {cfg.zslStream});
    EmptyIff(Within(r.outputs, {cfg.zslStream}));
    EmptyIff(Outside(r.outputs, {cfg.zslStream}));
    assert |multiset(r.inputs) + multiset(PendingEntry(s).inputs)| == |r.inputs| + |PendingEntry(s).inputs|;
  }

  // An error message loses latched input buffers exactly when the frame has failed, by this message
  // or before, and only the returned raw buffer and inputs are there.
  lemma ErrorDropsInputsIff(cfg: Config, f: nat, s: FrameState, e: Event)
    requires e.Failure? && e.frame == f
    ensures
      var entry := PendingEntry(s);
      Dropped(cfg, f, s, e) != multiset{} <==>
        && (s.error.Some? || e.code == ErrorRequest || e.code == ErrorBuffer)
        && s.pending.Some? && entry.zslReceived && entry.hasReturned
        && entry.settings.None? && entry.outputs == [] && entry.inputs != []
  {
    if entry :| s.pending == Some(entry) {
      assert |multiset([]) + multiset(entry.inputs)| == |entry.inputs|;
    }
  }

  lemma EmptyIff(s: seq<StreamBuffer>)
    ensures s == [] <==> forall b :: b !in s
  {
    if s != [] { assert s[0] in s; }
  }
}
