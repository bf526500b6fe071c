// What the session says to each event, message by message.
module SessionReplies {
  import opened HalTypes
  import opened StreamGroups
  import opened RequestsTracker
  import opened SessionModel
  import opened SessionCoupling
  import opened SessionErrors
  import opened SessionRecords

  // ---------- Requests ----------

  // The request has an output and uses configured streams only.
  predicate IsWellFormed(cfg: Config, e: Event)
    requires e.Admit?
  {
    && e.outputs != []
    && (forall b :: b in e.outputs ==> b.streamId in cfg.configured)
    && (forall b :: b in e.inputs ==> b.streamId in cfg.configured)
  }

  // The framework is told that the request failed and gets back its inputs and, marked as failed and
  // named by stream only, its outputs.
  ghost predicate IsRefusal(ms: seq<Message>, e: Event)
    requires e.Admit?
  {
    && |ms| == 2 && ms[0] == ErrorOut(e.frame, -1, ErrorRequest, Generated)
    && ms[1].ResultOut? && ms[1].frame == e.frame && !ms[1].hasMetadata && ms[1].inputs == e.inputs
    && |ms[1].outputs| == |e.outputs|
    && forall i :: 0 <= i < |e.outputs| ==>
         ms[1].outputs[i] == StreamBuffer(e.outputs[i].streamId, 0, 0, BufferError)
  }

  // Every stream of the request, or its group, is configured with fewer buffers pending than its maximum.
  ghost predicate HasQuota(cfg: Config, s: Session, outputs: seq<StreamBuffer>)
    requires Consistently(cfg, s)
  {
    forall i :: 0 <= i < |outputs| ==>
      var id := Fold(cfg.Groups(), outputs[i].streamId);
      id in cfg.quotas.max && s.counts.pending[id] < cfg.quotas.max[id]
  }

  // At most one announcement, and then the submission or, if a flush has begun, the refusal.
  ghost predicate IsLaunch(ms: seq<Message>, e: Event)
    requires e.Admit?
  {
    exists k :: 0 <= k <= 1 && k <= |ms| && (k == 1 ==> ms[0].Ready?) && EndsLaunch(ms[k..], e)
  }

  ghost predicate EndsLaunch(ms: seq<Message>, e: Event)
    requires e.Admit?
  {
    if e.flushingAfter then IsRefusal(ms, e) else ms == [Submitted(e.frame, e.outputs)]
  }

  // A malformed request and one that times out are met with silence.
  ghost predicate RepliesToRequest(cfg: Config, s: Session, e: Event, said: seq<Message>)
    requires Consistently(cfg, s) && e.Admit?
  {
    if !IsWellFormed(cfg, e) then said == []
    else if e.flushingBefore || !e.active then IsRefusal(said, e)
    else if HasQuota(cfg, s, e.outputs) then IsLaunch(said, e)
    else said == []
  }

  lemma QuotaIff(cfg: Config, s: Session, outputs: seq<StreamBuffer>)
    requires Consistently(cfg, s)
    ensures Enough(cfg.quotas, s.counts, outputs) <==> HasQuota(cfg, s, outputs)
  {
    if Enough(cfg.quotas, s.counts, outputs) {
      assert forall i :: 0 <= i < |outputs| ==> outputs[i] in outputs;
    }
  }

  lemma RefusalIs(e: Event)
    requires e.Admit?
    ensures IsRefusal(Refusal(e.frame, e.outputs, e.inputs), e)
  {
  }

  lemma LaunchIs(news: seq<Message>, last: seq<Message>, e: Event)
    requires e.Admit? && |news| <= 1 && (news != [] ==> news[0].Ready?) && EndsLaunch(last, e)
    ensures IsLaunch(news + last, e)
  {
    assert (news + last)[|news|..] == last;
  }

  lemma LaunchReplies(cfg: Config, s: Session, s1: Session, e: Event)
    requires Consistently(cfg, s) && ReachesRecords(cfg, e)
    requires s1 == Register(cfg, Refreshed(s), e.frame, e.outputs) && Enough(cfg.quotas, s1.counts, e.outputs)
    ensures IsLaunch(Said(cfg, s, e), e)
  {
    LogGrows(cfg, s, e);
    var news := Announcement(FirstRequested(cfg.quotas, s1.counts, e.outputs));
    var last := if e.flushingAfter then Refusal(e.frame, e.outputs, e.inputs) else [Submitted(e.frame, e.outputs)];
    RefusalIs(e);
    LaunchIs(news, last, e);
    AfterLog(s.log, news, last);
    assert Step(cfg, s, e).log == s.log + news + last;
  }

  lemma AdmissionReplies(cfg: Config, s: Session, e: Event)
    requires Consistently(cfg, s) && e.Admit?
    ensures RepliesToRequest(cfg, s, e, Said(cfg, s, e))
  {
    LogGrows(cfg, s, e);
    QuotaIff(cfg, s, e.outputs);
    RefusalIs(e);
    if ReachesRecords(cfg, e) {
      var s1 := Register(cfg, Refreshed(s), e.frame, e.outputs);
      if Enough(cfg.quotas, s1.counts, e.outputs) { LaunchReplies(cfg, s, s1, e); }
    } else if IsWellFormed(cfg, e) {
      assert Step(cfg, s, e).log == s.log + Refusal(e.frame, e.outputs, e.inputs);
    }
  }

  // Of every stream of the request, fewer frames than the maximum still owe a buffer.
  ghost predicate FewOwe(cfg: Config, s: Session, outputs: seq<StreamBuffer>) {
    forall i :: 0 <= i < |outputs| ==>
      var id := Fold(cfg.Groups(), outputs[i].streamId);
      id in cfg.quotas.max && |Holders(s.streams, id)| < cfg.quotas.max[id]
  }

  // The request is let through, to be submitted or refused by the flush, exactly if few owe.
  ghost predicate LaunchesIffFewOwe(cfg: Config, s: Session, e: Event)
    requires Consistently(cfg, s) && e.Admit?
  {
    if FewOwe(cfg, s, e.outputs) then IsLaunch(Said(cfg, s, e), e) else Said(cfg, s, e) == []
  }

  lemma CoupledLaunch(cfg: Config, s: Session, e: Event)
    requires Consistently(cfg, s) && Coupled(cfg, s) && ReachesRecords(cfg, e)
    ensures LaunchesIffFewOwe(cfg, s, e)
  {
    AdmissionReplies(cfg, s, e);
  }

  // In every orderly run in which nothing has timed out before, a request that reaches the records is let
  // through exactly if fewer frames than the maximum still owe a buffer of each of its streams.
  lemma LaunchedIffFewOwe(cfg: Config, es: seq<Event>, e: Event)
    requires Folding(cfg.Groups()) && Orderly(cfg, es) && NeverTimesOut(cfg, es) && ReachesRecords(cfg, e)
    ensures LaunchesIffFewOwe(cfg, Run(cfg, es), e)
  {
    RunCoupled(cfg, es);
    CoupledLaunch(cfg, Run(cfg, es), e);
  }

  // ---------- Results ----------

  // Everything said to a result is about its frame, but for telling the cache manager to flush.
  ghost predicate AllAbout(ms: seq<Message>, f: nat) {
    forall m :: m in ms ==> m.FlushingAll? || ((m.ResultOut? || m.ErrorOut?) && m.frame == f)
  }

  lemma {:induction false} ErrorsAbout(dummies: set<nat>, frame: nat, outputs: seq<StreamBuffer>)
    ensures AllAbout(ErrorMessages(dummies, frame, outputs), frame)
  {
    if outputs != [] { ErrorsAbout(dummies, frame, outputs[..|outputs| - 1]); }
  }

  lemma DummySaysAbout(cfg: Config, s: Session, e: Event)
    requires Consistently(cfg, s) && e.Result? && IsDummyResult(s, e.frame, e.outputs)
    ensures AllAbout(Said(cfg, s, e), e.frame)
  {
    LogGrows(cfg, s, e);
    var flush := UpdateSays(cfg, s, e.frame, e.outputs);
    var fail := DummySays(cfg, Update(cfg, s, e.frame, e.outputs), e.frame, e.outputs);
    ErrorsAbout(s.dummies, e.frame, e.outputs);
    AfterPrefix(s.log, flush, fail, ErrorMessages(s.dummies, e.frame, e.outputs));
    assert AllAbout(flush + fail + ErrorMessages(s.dummies, e.frame, e.outputs), e.frame);
  }

  lemma ResultSaysAbout(cfg: Config, s: Session, e: Event)
    requires Consistently(cfg, s) && e.Result?
    ensures AllAbout(Said(cfg, s, e), e.frame)
  {
    if IsDummyResult(s, e.frame, e.outputs) {
      DummySaysAbout(cfg, s, e);
    } else {
      LogGrows(cfg, s, e);
      var flush := UpdateSays(cfg, s, e.frame, e.outputs);
      AfterPrefix(s.log, flush, [], [ResultOut(e.frame, e.hasMetadata, e.outputs, e.inputs)]);
    }
  }

  // A dummy result is one with a dummy buffer, or of a frame that has had one. Its outputs reach the
  // framework as failed ones, its inputs and metadata do not, and a buffer error is said for each output
  // that looked good. Any other result reaches the framework as it is.
  ghost predicate RepliesToResult(cfg: Config, es: seq<Event>, e: Event, id: int, said: seq<Message>)
    requires Folding(cfg.Groups()) && e.Result?
  {
    var dummy := HadDummy(es, e.frame) || BringsDummy(es, e);
    && AllAbout(said, e.frame)
    && ReachesAs(OutputsOf(said), e.outputs, Run(cfg, es).dummies, dummy)
    && InputsOf(said) == (if dummy then [] else e.inputs)
    && Tally(said, e.frame, MetadataResult) == One(e.hasMetadata && !dummy)
    && BufferErrorsOn(said, id) == if dummy then GoodOn(e.outputs, id) else 0
  }

  lemma ResultReplies(cfg: Config, es: seq<Event>, e: Event, id: int)
    requires Folding(cfg.Groups()) && e.Result?
    ensures RepliesToResult(cfg, es, e, id, Said(cfg, Run(cfg, es), e))
  {
    IsDummyIff(cfg, es, e);
    ResultSaysAbout(cfg, Run(cfg, es), e);
    ResultBuffersReach(cfg, Run(cfg, es), e, id, e.frame);
  }

  // ---------- Notifications and buffer traffic ----------

  // An error from below is passed on unless its frame has had a dummy buffer, a shutter unless it is to be
  // ignored, and buffers that are given back are passed on; nothing is said to anything else.
  ghost predicate RepliesToOther(cfg: Config, es: seq<Event>, e: Event, said: seq<Message>)
    requires Folding(cfg.Groups())
  {
    if e.NotifyError? && !HadDummy(es, e.frame) then said == [ErrorOut(e.frame, e.stream, e.code, FromHwl)]
    else if e.NotifyShutter? && !Ignores(cfg, es, e.frame) then said == [ShutterOut(e.frame)]
    else if e.GiveBack? then said == [GivenBack(e.buffers)]
    else said == []
  }

  lemma StepOtherSays(cfg: Config, s: Session, e: Event)
    requires Consistently(cfg, s) && !e.Admit? && !e.Result?
    ensures Said(cfg, s, e) ==
            if e.NotifyError? && e.frame !in s.errorNotified then [ErrorOut(e.frame, e.stream, e.code, FromHwl)]
            else if e.NotifyShutter? && e.frame !in s.ignoreShutters then [ShutterOut(e.frame)]
            else if e.GiveBack? then [GivenBack(e.buffers)]
            else []
  {
    LogGrows(cfg, s, e);
  }

  lemma OtherReplies(cfg: Config, es: seq<Event>, e: Event)
    requires Folding(cfg.Groups()) && !e.Admit? && !e.Result?
    ensures RepliesToOther(cfg, es, e, Said(cfg, Run(cfg, es), e))
  {
    StepOtherSays(cfg, Run(cfg, es), e);
    if e.NotifyError? { NotifiedIff(cfg, es, e.frame); }
    if e.NotifyShutter? { IgnoresShutterIff(cfg, es, e.frame); }
  }
}
