// What the framework hears about a frame: never both its metadata and a generated error that there
// will be none, no result error twice, no shutter after it, and every buffer of a result.
module SessionErrors {
  import opened HalTypes
  import opened StreamGroups
  import opened RequestsTracker
  import opened SessionModel
  import opened SessionCoupling

  datatype Kind = MetadataResult | GeneratedResultError | HwlResultError | Shutter

  predicate IsKind(m: Message, f: nat, k: Kind) {
    match k
    case MetadataResult => m.ResultOut? && m.frame == f && m.hasMetadata
    case GeneratedResultError => m.ErrorOut? && m.frame == f && m.code == ErrorResult && m.origin == Generated
    case HwlResultError => m.ErrorOut? && m.frame == f && m.code == ErrorResult && m.origin == FromHwl
    case Shutter => m == ShutterOut(f)
  }

  // How many messages of a kind there have been about a frame.
  function Tally(log: seq<Message>, f: nat, k: Kind): nat {
    if log == [] then 0
    else Tally(log[..|log| - 1], f, k) + One(IsKind(log[|log| - 1], f, k))
  }

  lemma {:induction false} TallyConcat(a: seq<Message>, b: seq<Message>, f: nat, k: Kind)
    ensures Tally(a + b, f, k) == Tally(a, f, k) + Tally(b, f, k)
  {
    if b == [] {
      assert a + b == a;
    } else {
      assert (a + b)[..|a + b| - 1] == a + b[..|b| - 1];
      TallyConcat(a, b[..|b| - 1], f, k);
    }
  }

  lemma TallyNext(log: seq<Message>, m: Message, f: nat, k: Kind)
    ensures Tally(log + [m], f, k) == Tally(log, f, k) + One(IsKind(m, f, k))
  {
    assert (log + [m])[..|log|] == log;
  }

  lemma {:induction false} TallyNone(ms: seq<Message>, f: nat, k: Kind)
    requires forall m :: m in ms ==> !IsKind(m, f, k)
    ensures Tally(ms, f, k) == 0
  {
    if ms != [] { TallyNone(ms[..|ms| - 1], f, k); }
  }

  // The hardware layer speaks only of frames that have been admitted, and those are not reused.
  ghost predicate Answering(es: seq<Event>) {
    es != [] ==>
      var before, e := es[..|es| - 1], es[|es| - 1];
      && Answering(before)
      && (e.Admit? ==> !AdmittedIn(before, e.frame))
      && (e.Result? || e.NotifyError? ==> AdmittedIn(before, e.frame))
  }

  // ---------- What each step says ----------

  lemma {:induction false} ErrorsTally(dummies: set<nat>, frame: nat, outputs: seq<StreamBuffer>, f: nat, k: Kind)
    ensures Tally(ErrorMessages(dummies, frame, outputs), f, k) == 0
  {
    if outputs != [] {
      var front, b := outputs[..|outputs| - 1], outputs[|outputs| - 1];
      ErrorsTally(dummies, frame, front, f, k);
      TallyConcat(ErrorMessages(dummies, frame, front), ErrorMessagesFor(dummies, frame, b), f, k);
      TallyNone(ErrorMessagesFor(dummies, frame, b), f, k);
    }
  }

  // A dummy result says nothing but, once and only if the metadata is outstanding, a result error.
  lemma DummyTally(cfg: Config, s: Session, frame: nat, outputs: seq<StreamBuffer>, f: nat, k: Kind)
    ensures
      var fails := frame !in s.errorNotified && frame in s.results;
      Tally(StepDummyResult(cfg, s, frame, outputs).log, f, k) ==
      Tally(s.log, f, k) + One(fails && f == frame && k == GeneratedResultError)
  {
    ErrorsTally(s.dummies, frame, outputs, f, k);
    var s1 := if frame in s.errorNotified then s else FailFrame(s, frame);
    TallyConcat(s1.log, ErrorMessages(s.dummies, frame, outputs), f, k);
    TallyNext(s.log, ErrorOut(frame, INVALID_STREAM_ID, ErrorResult, Generated), f, k);
  }

  lemma UpdateTally(cfg: Config, s: Session, frame: nat, outputs: seq<StreamBuffer>, f: nat, k: Kind)
    ensures Tally(Update(cfg, s, frame, outputs).log, f, k) == Tally(s.log, f, k)
  {
    TallyNext(s.log, FlushingAll, f, k);
  }

  lemma ResultTally(cfg: Config, s: Session, e: Event, f: nat, k: Kind)
    requires Consistently(cfg, s) && e.Result?
    ensures
      var dummy := IsDummyResult(s, e.frame, e.outputs);
      var fails := dummy && e.frame !in s.errorNotified && e.frame in s.results;
      Tally(Step(cfg, s, e).log, f, k) ==
      Tally(s.log, f, k)
      + One(f == e.frame && k == GeneratedResultError && fails)
      + One(f == e.frame && k == MetadataResult && e.hasMetadata && !dummy)
  {
    var s1 := Update(cfg, s, e.frame, e.outputs);
    UpdateTally(cfg, s, e.frame, e.outputs, f, k);
    if IsDummyResult(s, e.frame, e.outputs) {
      DummyTally(cfg, s1, e.frame, e.outputs, f, k);
    } else {
      TallyNext(s1.log, ResultOut(e.frame, e.hasMetadata, e.outputs, e.inputs), f, k);
    }
  }

  lemma RefusalTally(log: seq<Message>, frame: nat, outputs: seq<StreamBuffer>, inputs: seq<StreamBuffer>,
                     f: nat, k: Kind)
    ensures Tally(log + Refusal(frame, outputs, inputs), f, k) == Tally(log, f, k)
  {
    TallyConcat(log, Refusal(frame, outputs, inputs), f, k);
    TallyNone(Refusal(frame, outputs, inputs), f, k);
  }

  lemma LaunchTally(cfg: Config, s: Session, frame: nat, outputs: seq<StreamBuffer>, inputs: seq<StreamBuffer>,
                    flushing: bool, f: nat, k: Kind)
    ensures Tally(Launch(cfg, s, frame, outputs, inputs, flushing).log, f, k) == Tally(s.log, f, k)
  {
    var ready := Announcement(FirstRequested(cfg.quotas, s.counts, outputs));
    TallyConcat(s.log, ready, f, k);
    TallyNone(ready, f, k);
    RefusalTally(s.log + ready, frame, outputs, inputs, f, k);
    TallyNext(s.log + ready, Submitted(frame, outputs), f, k);
  }

  lemma AdmitTally(cfg: Config, s: Session, e: Event, f: nat, k: Kind)
    requires Consistently(cfg, s) && e.Admit?
    ensures Tally(Step(cfg, s, e).log, f, k) == Tally(s.log, f, k)
  {
    if IsValidRequest(cfg, e.outputs, e.inputs) && !e.flushingBefore && e.active {
      var s1 := Register(cfg, Refreshed(s), e.frame, e.outputs);
      LaunchTally(cfg, s1, e.frame, e.outputs, e.inputs, e.flushingAfter, f, k);
    } else {
      RefusalTally(s.log, e.frame, e.outputs, e.inputs, f, k);
    }
  }

  lemma OtherTally(cfg: Config, s: Session, e: Event, f: nat, k: Kind)
    requires Consistently(cfg, s) && !e.Admit? && !e.Result?
    ensures
      Tally(Step(cfg, s, e).log, f, k) ==
      Tally(s.log, f, k)
      + One(e.NotifyError? && e.frame == f && k == HwlResultError && e.code == ErrorResult && f !in s.errorNotified)
      + One(e.NotifyShutter? && e.frame == f && k == Shutter && f !in s.ignoreShutters)
  {
    var s' := Step(cfg, s, e);
    if s'.log != s.log {
      assert s'.log == s.log + [s'.log[|s.log|]];
      TallyNext(s.log, s'.log[|s.log|], f, k);
    }
  }

  // ---------- Errors and metadata ----------

  // A frame with a generated result error has neither metadata nor a result error from below, and
  // once the framework has heard of its metadata the frame is not awaiting it any more.
  ghost predicate ErrorOrMetadata(s: Session, f: nat) {
    var generated := Tally(s.log, f, GeneratedResultError);
    var heard := Tally(s.log, f, MetadataResult) + Tally(s.log, f, HwlResultError);
    && generated <= 1
    && (generated == 1 ==> f in s.errorNotified && heard == 0)
    && (generated + heard > 0 ==> f !in s.results)
  }

  ghost predicate Unheard(s: Session, f: nat) {
    && f !in s.results
    && Tally(s.log, f, GeneratedResultError) + Tally(s.log, f, MetadataResult) + Tally(s.log, f, HwlResultError) == 0
  }

  lemma ResultErrorOrMetadata(cfg: Config, s: Session, e: Event, f: nat)
    requires Consistently(cfg, s) && e.Result? && ErrorOrMetadata(s, f)
    ensures ErrorOrMetadata(Step(cfg, s, e), f)
  {
    ResultTally(cfg, s, e, f, GeneratedResultError);
    ResultTally(cfg, s, e, f, MetadataResult);
    ResultTally(cfg, s, e, f, HwlResultError);
  }

  lemma AdmitErrorOrMetadata(cfg: Config, s: Session, e: Event, f: nat)
    requires Consistently(cfg, s) && e.Admit? && ErrorOrMetadata(s, f)
    requires e.frame == f ==> Unheard(s, f)
    ensures ErrorOrMetadata(Step(cfg, s, e), f)
  {
    AdmitTally(cfg, s, e, f, GeneratedResultError);
    AdmitTally(cfg, s, e, f, MetadataResult);
    AdmitTally(cfg, s, e, f, HwlResultError);
  }

  lemma OtherErrorOrMetadata(cfg: Config, s: Session, e: Event, f: nat)
    requires Consistently(cfg, s) && !e.Admit? && !e.Result? && ErrorOrMetadata(s, f)
    ensures ErrorOrMetadata(Step(cfg, s, e), f)
  {
    OtherTally(cfg, s, e, f, GeneratedResultError);
    OtherTally(cfg, s, e, f, MetadataResult);
    OtherTally(cfg, s, e, f, HwlResultError);
  }

  lemma UnheardStep(cfg: Config, s: Session, e: Event, f: nat)
    requires Consistently(cfg, s) && Unheard(s, f)
    requires e.Admit? || e.Result? || e.NotifyError? ==> e.frame != f
    ensures Unheard(Step(cfg, s, e), f)
  {
    StillTally(cfg, s, e, f, GeneratedResultError);
    StillTally(cfg, s, e, f, MetadataResult);
    StillTally(cfg, s, e, f, HwlResultError);
    if e.Result? { StillAwaits(cfg, s, e, f); }
  }

  lemma StillAwaits(cfg: Config, s: Session, e: Event, f: nat)
    requires Consistently(cfg, s) && e.Result? && e.frame != f && f !in s.results
    ensures f !in Step(cfg, s, e).results
  {
  }

  // An event about another frame leaves the tally of this one.
  lemma StillTally(cfg: Config, s: Session, e: Event, f: nat, k: Kind)
    requires Consistently(cfg, s) && k != Shutter
    requires e.Result? || e.NotifyError? ==> e.frame != f
    ensures Tally(Step(cfg, s, e).log, f, k) == Tally(s.log, f, k)
  {
    if e.Admit? { AdmitTally(cfg, s, e, f, k); }
    else if e.Result? { ResultTally(cfg, s, e, f, k); }
    else { OtherTally(cfg, s, e, f, k); }
  }

  // Nothing is heard of a frame before it is admitted.
  lemma {:induction false} UnheardUntilAdmitted(cfg: Config, es: seq<Event>, f: nat)
    requires Folding(cfg.Groups()) && Answering(es) && !AdmittedIn(es, f)
    ensures Unheard(Run(cfg, es), f)
  {
    if es != [] {
      AdmittedLast(es, f);
      UnheardUntilAdmitted(cfg, es[..|es| - 1], f);
      UnheardStep(cfg, Run(cfg, es[..|es| - 1]), es[|es| - 1], f);
    }
  }

  // Over every run, however results, dummies, errors and flushes interleave: the session never both
  // generates a result error for a frame and delivers its metadata, and at most one result error
  // reaches the framework unless the hardware layer itself sends several.
  lemma {:induction false} ErrorExcludesMetadata(cfg: Config, es: seq<Event>, f: nat)
    requires Folding(cfg.Groups()) && Answering(es)
    ensures ErrorOrMetadata(Run(cfg, es), f)
  {
    if es != [] {
      var before, e := es[..|es| - 1], es[|es| - 1];
      ErrorExcludesMetadata(cfg, before, f);
      var s := Run(cfg, before);
      if e.Admit? {
        if e.frame == f { UnheardUntilAdmitted(cfg, before, f); }
        AdmitErrorOrMetadata(cfg, s, e, f);
      } else if e.Result? {
        ResultErrorOrMetadata(cfg, s, e, f);
      } else {
        OtherErrorOrMetadata(cfg, s, e, f);
      }
    }
  }

  // How many result errors the hardware layer sends for the frame.
  function SentErrors(es: seq<Event>, f: nat): nat {
    if es == [] then 0
    else
      var e := es[|es| - 1];
      SentErrors(es[..|es| - 1], f) + One(e.NotifyError? && e.frame == f && e.code == ErrorResult)
  }

  lemma {:induction false} ForwardedAreSent(cfg: Config, es: seq<Event>, f: nat)
    requires Folding(cfg.Groups())
    ensures Tally(Run(cfg, es).log, f, HwlResultError) <= SentErrors(es, f)
  {
    if es != [] {
      ForwardedAreSent(cfg, es[..|es| - 1], f);
      var s, e := Run(cfg, es[..|es| - 1]), es[|es| - 1];
      if e.Admit? { AdmitTally(cfg, s, e, f, HwlResultError); }
      else if e.Result? { ResultTally(cfg, s, e, f, HwlResultError); }
      else { OtherTally(cfg, s, e, f, HwlResultError); }
    }
  }

  lemma AtMostOneResultError(cfg: Config, es: seq<Event>, f: nat)
    requires Folding(cfg.Groups()) && Answering(es) && SentErrors(es, f) <= 1
    ensures
      var log := Run(cfg, es).log;
      Tally(log, f, GeneratedResultError) + Tally(log, f, HwlResultError) <= 1
  {
    ErrorExcludesMetadata(cfg, es, f);
    ForwardedAreSent(cfg, es, f);
  }

  // ---------- Shutters ----------

  function ResultErrors(log: seq<Message>, f: nat): nat {
    Tally(log, f, GeneratedResultError) + Tally(log, f, HwlResultError)
  }

  // No shutter of the frame comes after a result error of it.
  ghost predicate NoLateShutter(log: seq<Message>, f: nat) {
    forall i, j :: 0 <= i < j < |log| && log[j] == ShutterOut(f) ==>
      !IsKind(log[i], f, GeneratedResultError) && !IsKind(log[i], f, HwlResultError)
  }

  function SentShutters(es: seq<Event>, f: nat): nat {
    if es == [] then 0
    else
      var e := es[|es| - 1];
      SentShutters(es[..|es| - 1], f) + One(e.NotifyShutter? && e.frame == f)
  }

  // A frame with a result error ignores the shutter that is still to come.
  ghost predicate ShutterSettled(s: Session, f: nat, sent: nat) {
    ResultErrors(s.log, f) > 0 ==> f in s.ignoreShutters || sent > 0
  }

  lemma {:induction false} TallyZero(log: seq<Message>, f: nat, k: Kind)
    requires Tally(log, f, k) == 0
    ensures forall i :: 0 <= i < |log| ==> !IsKind(log[i], f, k)
  {
    if log != [] {
      TallyZero(log[..|log| - 1], f, k);
      assert forall i :: 0 <= i < |log| - 1 ==> log[i] == log[..|log| - 1][i];
    }
  }

  // Messages other than shutters, or one while there is no error, keep the order.
  lemma AppendKeepsOrder(log: seq<Message>, log': seq<Message>, f: nat)
    requires NoLateShutter(log, f) && log <= log'
    requires || Tally(log', f, Shutter) == Tally(log, f, Shutter)
             || (log' == log + [ShutterOut(f)] && ResultErrors(log, f) == 0)
    ensures NoLateShutter(log', f)
  {
    if Tally(log', f, Shutter) == Tally(log, f, Shutter) {
      assert log' == log + log'[|log|..];
      TallyConcat(log, log'[|log|..], f, Shutter);
      TallyZero(log'[|log|..], f, Shutter);
      forall j | |log| <= j < |log'| ensures log'[j] != ShutterOut(f) {
        assert log'[j] == log'[|log|..][j - |log|];
      }
    } else {
      TallyZero(log, f, GeneratedResultError);
      TallyZero(log, f, HwlResultError);
    }
  }

  lemma UpdateGrows(cfg: Config, s: Session, frame: nat, outputs: seq<StreamBuffer>)
    ensures s.log <= Update(cfg, s, frame, outputs).log
  {
  }

  lemma LogGrows(cfg: Config, s: Session, e: Event)
    requires Consistently(cfg, s)
    ensures s.log <= Step(cfg, s, e).log
  {
    if e.Result? {
      UpdateGrows(cfg, s, e.frame, e.outputs);
      var s1 := Update(cfg, s, e.frame, e.outputs);
      DummyGrows(cfg, s1, e.frame, e.outputs);
      assert Step(cfg, s, e) == if IsDummyResult(s1, e.frame, e.outputs)
                                then StepDummyResult(cfg, s1, e.frame, e.outputs)
                                else StepNormalResult(cfg, s1, e.frame, e.hasMetadata, e.outputs, e.inputs);
    } else if e.Admit? {
      AdmitGrows(cfg, s, e);
    }
  }

  lemma DummyGrows(cfg: Config, s: Session, frame: nat, outputs: seq<StreamBuffer>)
    ensures s.log <= StepDummyResult(cfg, s, frame, outputs).log
  {
  }

  lemma AdmitGrows(cfg: Config, s: Session, e: Event)
    requires Consistently(cfg, s) && e.Admit?
    ensures s.log <= Step(cfg, s, e).log
  {
  }

  lemma ResultSettles(cfg: Config, s: Session, e: Event, f: nat, sent: nat)
    requires Consistently(cfg, s) && e.Result? && ShutterSettled(s, f, sent)
    ensures ShutterSettled(Step(cfg, s, e), f, sent)
    ensures Tally(Step(cfg, s, e).log, f, Shutter) == Tally(s.log, f, Shutter)
  {
    ResultTally(cfg, s, e, f, GeneratedResultError);
    ResultTally(cfg, s, e, f, HwlResultError);
    ResultTally(cfg, s, e, f, Shutter);
  }

  lemma AdmitSettles(cfg: Config, s: Session, e: Event, f: nat, sent: nat)
    requires Consistently(cfg, s) && e.Admit? && ShutterSettled(s, f, sent)
    ensures ShutterSettled(Step(cfg, s, e), f, sent)
    ensures Tally(Step(cfg, s, e).log, f, Shutter) == Tally(s.log, f, Shutter)
  {
    AdmitTally(cfg, s, e, f, GeneratedResultError);
    AdmitTally(cfg, s, e, f, HwlResultError);
    AdmitTally(cfg, s, e, f, Shutter);
  }

  lemma OtherSettles(cfg: Config, s: Session, e: Event, f: nat, sent: nat)
    requires Consistently(cfg, s) && !e.Admit? && !e.Result? && ShutterSettled(s, f, sent)
    ensures ShutterSettled(Step(cfg, s, e), f, sent + One(e.NotifyShutter? && e.frame == f))
    ensures e != NotifyShutter(f) ==> Tally(Step(cfg, s, e).log, f, Shutter) == Tally(s.log, f, Shutter)
  {
    OtherTally(cfg, s, e, f, GeneratedResultError);
    OtherTally(cfg, s, e, f, HwlResultError);
    OtherTally(cfg, s, e, f, Shutter);
  }

  // If the hardware layer sends a frame's shutter once, the framework never gets it after it has
  // been told that the result failed.
  lemma {:induction false} ShutterNeverFollowsError(cfg: Config, es: seq<Event>, f: nat)
    requires Folding(cfg.Groups()) && SentShutters(es, f) <= 1
    ensures NoLateShutter(Run(cfg, es).log, f)
    ensures ShutterSettled(Run(cfg, es), f, SentShutters(es, f))
  {
    if es != [] {
      var before, e := es[..|es| - 1], es[|es| - 1];
      ShutterNeverFollowsError(cfg, before, f);
      var s, sent := Run(cfg, before), SentShutters(before, f);
      LogGrows(cfg, s, e);
      if e.Admit? { AdmitSettles(cfg, s, e, f, sent); }
      else if e.Result? { ResultSettles(cfg, s, e, f, sent); }
      else { OtherSettles(cfg, s, e, f, sent); }
      AppendKeepsOrder(s.log, Run(cfg, es).log, f);
    }
  }

  // ---------- Buffers of a result ----------

  function OutputsOf(ms: seq<Message>): seq<StreamBuffer> {
    if ms == [] then []
    else OutputsOf(ms[..|ms| - 1]) + if ms[|ms| - 1].ResultOut? then ms[|ms| - 1].outputs else []
  }

  function InputsOf(ms: seq<Message>): seq<StreamBuffer> {
    if ms == [] then []
    else InputsOf(ms[..|ms| - 1]) + if ms[|ms| - 1].ResultOut? then ms[|ms| - 1].inputs else []
  }

  // How many buffers of the stream the framework is told have failed.
  function BufferErrorsOn(ms: seq<Message>, id: int): nat {
    if ms == [] then 0
    else
      var m := ms[|ms| - 1];
      BufferErrorsOn(ms[..|ms| - 1], id) + One(m.ErrorOut? && m.code == ErrorBuffer && m.stream == id)
  }

  function GoodOn(s: seq<StreamBuffer>, id: int): nat {
    if s == [] then 0
    else GoodOn(s[..|s| - 1], id) + One(s[|s| - 1].status == BufferOk && s[|s| - 1].streamId == id)
  }

  function AllSubstituted(dummies: set<nat>, s: seq<StreamBuffer>): (r: seq<StreamBuffer>)
    ensures |r| == |s|
    ensures forall i :: 0 <= i < |s| ==> r[i] == Substituted(dummies, s[i])
  {
    if s == [] then [] else AllSubstituted(dummies, s[..|s| - 1]) + [Substituted(dummies, s[|s| - 1])]
  }

  lemma {:induction false} OutputsConcat(a: seq<Message>, b: seq<Message>)
    ensures OutputsOf(a + b) == OutputsOf(a) + OutputsOf(b)
  {
    if b == [] {
      assert a + b == a;
    } else {
      assert (a + b)[..|a + b| - 1] == a + b[..|b| - 1];
      OutputsConcat(a, b[..|b| - 1]);
    }
  }

  lemma {:induction false} InputsConcat(a: seq<Message>, b: seq<Message>)
    ensures InputsOf(a + b) == InputsOf(a) + InputsOf(b)
  {
    if b == [] {
      assert a + b == a;
    } else {
      assert (a + b)[..|a + b| - 1] == a + b[..|b| - 1];
      InputsConcat(a, b[..|b| - 1]);
    }
  }

  lemma {:induction false} BufferErrorsConcat(a: seq<Message>, b: seq<Message>, id: int)
    ensures BufferErrorsOn(a + b, id) == BufferErrorsOn(a, id) + BufferErrorsOn(b, id)
  {
    if b == [] {
      assert a + b == a;
    } else {
      assert (a + b)[..|a + b| - 1] == a + b[..|b| - 1];
      BufferErrorsConcat(a, b[..|b| - 1], id);
    }
  }

  // Messages that carry no buffers and are not about buffers add nothing.
  lemma QuietNext(m: Message, ms: seq<Message>, id: int)
    requires !m.ResultOut? && !(m.ErrorOut? && m.code == ErrorBuffer)
    ensures OutputsOf([m] + ms) == OutputsOf(ms)
    ensures InputsOf([m] + ms) == InputsOf(ms)
    ensures BufferErrorsOn([m] + ms, id) == BufferErrorsOn(ms, id)
  {
    assert [m][..0] == [];
    OutputsConcat([m], ms);
    InputsConcat([m], ms);
    BufferErrorsConcat([m], ms, id);
  }

  lemma OneOutput(dummies: set<nat>, frame: nat, b: StreamBuffer, id: int)
    ensures OutputsOf(ErrorMessagesFor(dummies, frame, b)) == [Substituted(dummies, b)]
    ensures InputsOf(ErrorMessagesFor(dummies, frame, b)) == []
    ensures BufferErrorsOn(ErrorMessagesFor(dummies, frame, b), id) == One(b.status == BufferOk && b.streamId == id)
  {
    var result := [ResultOut(frame, false, [Substituted(dummies, b)], [])];
    assert result[..0] == [];
    if b.status == BufferOk {
      var error := ErrorOut(frame, b.streamId, ErrorBuffer, Generated);
      assert ErrorMessagesFor(dummies, frame, b) == [error] + result;
      assert [error][..0] == [];
      OutputsConcat([error], result);
      InputsConcat([error], result);
      BufferErrorsConcat([error], result, id);
    }
  }

  lemma {:induction false} ErrorOutputs(dummies: set<nat>, frame: nat, outputs: seq<StreamBuffer>)
    ensures OutputsOf(ErrorMessages(dummies, frame, outputs)) == AllSubstituted(dummies, outputs)
  {
    if outputs != [] {
      var front, b := outputs[..|outputs| - 1], outputs[|outputs| - 1];
      ErrorOutputs(dummies, frame, front);
      OneOutput(dummies, frame, b, 0);
      OutputsConcat(ErrorMessages(dummies, frame, front), ErrorMessagesFor(dummies, frame, b));
    }
  }

  lemma {:induction false} ErrorInputs(dummies: set<nat>, frame: nat, outputs: seq<StreamBuffer>)
    ensures InputsOf(ErrorMessages(dummies, frame, outputs)) == []
  {
    if outputs != [] {
      var front, b := outputs[..|outputs| - 1], outputs[|outputs| - 1];
      ErrorInputs(dummies, frame, front);
      OneOutput(dummies, frame, b, 0);
      InputsConcat(ErrorMessages(dummies, frame, front), ErrorMessagesFor(dummies, frame, b));
    }
  }

  lemma {:induction false} ErrorNotices(dummies: set<nat>, frame: nat, outputs: seq<StreamBuffer>, id: int)
    ensures BufferErrorsOn(ErrorMessages(dummies, frame, outputs), id) == GoodOn(outputs, id)
  {
    if outputs != [] {
      var front, b := outputs[..|outputs| - 1], outputs[|outputs| - 1];
      ErrorNotices(dummies, frame, front, id);
      OneOutput(dummies, frame, b, id);
      BufferErrorsConcat(ErrorMessages(dummies, frame, front), ErrorMessagesFor(dummies, frame, b), id);
    }
  }

  // What the session says in one step.
  ghost function Said(cfg: Config, s: Session, e: Event): seq<Message>
    requires Consistently(cfg, s)
  {
    LogGrows(cfg, s, e);
    Step(cfg, s, e).log[|s.log|..]
  }

  ghost predicate SaysQuietly(ms: seq<Message>, quiet: seq<Message>, loud: seq<Message>) {
    && ms == quiet + loud && |quiet| <= 2
    && forall i :: 0 <= i < |quiet| ==> !quiet[i].ResultOut? && !(quiet[i].ErrorOut? && quiet[i].code == ErrorBuffer)
  }

  lemma SkipQuiet(ms: seq<Message>, quiet: seq<Message>, loud: seq<Message>, id: int)
    requires SaysQuietly(ms, quiet, loud)
    ensures OutputsOf(ms) == OutputsOf(loud) && InputsOf(ms) == InputsOf(loud)
    ensures BufferErrorsOn(ms, id) == BufferErrorsOn(loud, id)
  {
    if |quiet| == 0 {
      assert ms == loud;
    } else if |quiet| == 1 {
      assert ms == [quiet[0]] + loud;
      QuietNext(quiet[0], loud, id);
    } else {
      assert ms == [quiet[0]] + ([quiet[1]] + loud);
      QuietNext(quiet[1], loud, id);
      QuietNext(quiet[0], [quiet[1]] + loud, id);
    }
  }

  lemma UpdateSays(cfg: Config, s: Session, frame: nat, outputs: seq<StreamBuffer>) returns (flush: seq<Message>)
    ensures Update(cfg, s, frame, outputs).log == s.log + flush
    ensures flush == [] || flush == [FlushingAll]
  {
    flush := [];
    if Update(cfg, s, frame, outputs).log == s.log {
      assert s.log + flush == s.log;
    } else {
      flush := [FlushingAll];
    }
  }

  // A dummy result says, besides notices about the frame, just the messages about its buffers; any
  // other result is passed on.
  lemma ResultSays(cfg: Config, s: Session, e: Event) returns (quiet: seq<Message>)
    requires Consistently(cfg, s) && e.Result?
    ensures SaysQuietly(Said(cfg, s, e), quiet,
                        if IsDummyResult(s, e.frame, e.outputs) then ErrorMessages(s.dummies, e.frame, e.outputs)
                        else [ResultOut(e.frame, e.hasMetadata, e.outputs, e.inputs)])
  {
    LogGrows(cfg, s, e);
    if IsDummyResult(s, e.frame, e.outputs) {
      quiet := DummyResultSays(cfg, s, e);
    } else {
      quiet := UpdateSays(cfg, s, e.frame, e.outputs);
      AfterPrefix(s.log, quiet, [], [ResultOut(e.frame, e.hasMetadata, e.outputs, e.inputs)]);
    }
  }

  lemma DummyResultSays(cfg: Config, s: Session, e: Event) returns (quiet: seq<Message>)
    requires Consistently(cfg, s) && e.Result? && IsDummyResult(s, e.frame, e.outputs)
    ensures SaysQuietly(Said(cfg, s, e), quiet, ErrorMessages(s.dummies, e.frame, e.outputs))
  {
    LogGrows(cfg, s, e);
    var s1 := Update(cfg, s, e.frame, e.outputs);
    var flush := UpdateSays(cfg, s, e.frame, e.outputs);
    var fail := DummySays(cfg, s1, e.frame, e.outputs);
    quiet := flush + fail;
    AfterPrefix(s.log, flush, fail, ErrorMessages(s.dummies, e.frame, e.outputs));
  }

  lemma AfterPrefix(log: seq<Message>, a: seq<Message>, b: seq<Message>, c: seq<Message>)
    ensures (log + a + b + c)[|log|..] == a + b + c
    ensures log + a + [] + c == log + a + c && a + [] == a
  {
  }

  lemma DummySays(cfg: Config, s: Session, frame: nat, outputs: seq<StreamBuffer>) returns (fail: seq<Message>)
    ensures StepDummyResult(cfg, s, frame, outputs).log == s.log + fail + ErrorMessages(s.dummies, frame, outputs)
    ensures fail == [] || fail == [ErrorOut(frame, INVALID_STREAM_ID, ErrorResult, Generated)]
  {
    fail := if frame !in s.errorNotified && frame in s.results
            then [ErrorOut(frame, INVALID_STREAM_ID, ErrorResult, Generated)] else [];
  }

  lemma TallySaid(cfg: Config, s: Session, e: Event, f: nat, k: Kind)
    requires Consistently(cfg, s)
    ensures Tally(Step(cfg, s, e).log, f, k) == Tally(s.log, f, k) + Tally(Said(cfg, s, e), f, k)
  {
    LogGrows(cfg, s, e);
    TallyAfter(s.log, Step(cfg, s, e).log, f, k);
  }

  lemma TallyAfter(log: seq<Message>, log': seq<Message>, f: nat, k: Kind)
    requires log <= log'
    ensures Tally(log', f, k) == Tally(log, f, k) + Tally(log'[|log|..], f, k)
  {
    assert log' == log + log'[|log|..];
    TallyConcat(log, log'[|log|..], f, k);
  }

  lemma MetadataReaches(cfg: Config, s: Session, e: Event, f: nat)
    requires Consistently(cfg, s) && e.Result?
    ensures Tally(Said(cfg, s, e), f, MetadataResult) ==
            One(f == e.frame && e.hasMetadata && !IsDummyResult(s, e.frame, e.outputs))
  {
    ResultTally(cfg, s, e, f, MetadataResult);
    TallySaid(cfg, s, e, f, MetadataResult);
  }

  // The buffers reach the framework as they are, or in a dummy result all as failed, without their
  // handle, and with their own id unless they are dummies.
  ghost predicate ReachesAs(sent: seq<StreamBuffer>, outputs: seq<StreamBuffer>, dummies: set<nat>, dummy: bool) {
    && |sent| == |outputs|
    && forall i :: 0 <= i < |outputs| ==>
         var b := outputs[i];
         sent[i] == if !dummy then b
                    else if b.handle in dummies then StreamBuffer(b.streamId, 0, 0, BufferError)
                    else StreamBuffer(b.streamId, b.bufferId, 0, BufferError)
  }

  lemma DummyReaches(said: seq<Message>, quiet: seq<Message>, dummies: set<nat>, frame: nat,
                     outputs: seq<StreamBuffer>, id: int)
    requires SaysQuietly(said, quiet, ErrorMessages(dummies, frame, outputs))
    ensures OutputsOf(said) == AllSubstituted(dummies, outputs) && InputsOf(said) == []
    ensures BufferErrorsOn(said, id) == GoodOn(outputs, id)
  {
    SkipQuiet(said, quiet, ErrorMessages(dummies, frame, outputs), id);
    ErrorOutputs(dummies, frame, outputs);
    ErrorInputs(dummies, frame, outputs);
    ErrorNotices(dummies, frame, outputs, id);
  }

  lemma ResultReaches(said: seq<Message>, quiet: seq<Message>, m: Message, id: int)
    requires m.ResultOut? && SaysQuietly(said, quiet, [m])
    ensures OutputsOf(said) == m.outputs && InputsOf(said) == m.inputs && BufferErrorsOn(said, id) == 0
  {
    SkipQuiet(said, quiet, [m], id);
    assert [m][..0] == [];
  }

  // Every output buffer of a result reaches the framework once and in order: as it is, or in a
  // dummy result as an error buffer with its own id unless it is the dummy itself. Messages about
  // failed buffers are sent exactly for those that looked good. The input buffers and the metadata
  // reach the framework unless the result is a dummy result, where they are lost.
  lemma ResultBuffersReach(cfg: Config, s: Session, e: Event, id: int, f: nat)
    requires Consistently(cfg, s) && e.Result?
    ensures
      var (said, dummy) := (Said(cfg, s, e), IsDummyResult(s, e.frame, e.outputs));
      && ReachesAs(OutputsOf(said), e.outputs, s.dummies, dummy)
      && InputsOf(said) == (if dummy then [] else e.inputs)
      && Tally(said, f, MetadataResult) == One(f == e.frame && e.hasMetadata && !dummy)
      && BufferErrorsOn(said, id) == if dummy then GoodOn(e.outputs, id) else 0
  {
    var quiet := ResultSays(cfg, s, e);
    MetadataReaches(cfg, s, e, f);
    if IsDummyResult(s, e.frame, e.outputs) {
      DummyReaches(Said(cfg, s, e), quiet, s.dummies, e.frame, e.outputs, id);
    } else {
      ResultReaches(Said(cfg, s, e), quiet, ResultOut(e.frame, e.hasMetadata, e.outputs, e.inputs), id);
    }
  }
}
