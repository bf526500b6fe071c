// The records of the session in terms of what has happened and what has been said: which frames
// await their result, which have had a dummy buffer, and whose shutters are to be ignored.
module SessionRecords {
  import opened HalTypes
  import opened StreamGroups
  import opened RequestsTracker
  import opened SessionModel
  import opened SessionCoupling
  import opened SessionErrors

  // ---------- Dummy buffers ----------

  // The handle has been observed to be a dummy.
  ghost predicate DummySeen(es: seq<Event>, handle: nat) {
    exists i :: 0 <= i < |es| && es[i] == Dummy(handle)
  }

  // The result has a buffer that has been observed to be a dummy.
  ghost predicate BringsDummy(es: seq<Event>, e: Event) {
    e.Result? && exists b :: b in e.outputs && DummySeen(es, b.handle)
  }

  // The frame has had a result with a dummy buffer.
  ghost predicate HadDummy(es: seq<Event>, f: nat) {
    es != [] && (HadDummy(es[..|es| - 1], f)
                 || (es[|es| - 1].Result? && es[|es| - 1].frame == f && BringsDummy(es[..|es| - 1], es[|es| - 1])))
  }

  lemma SeenNext(es: seq<Event>, handle: nat)
    requires es != []
    ensures DummySeen(es, handle) <==> DummySeen(es[..|es| - 1], handle) || es[|es| - 1] == Dummy(handle)
  {
    var before := es[..|es| - 1];
    assert forall i :: 0 <= i < |before| ==> before[i] == es[i];
    if DummySeen(es, handle) && es[|es| - 1] != Dummy(handle) {
      var i :| 0 <= i < |es| && es[i] == Dummy(handle);
      assert before[i] == Dummy(handle);
    }
  }

  lemma StepDummies(cfg: Config, s: Session, e: Event)
    requires Consistently(cfg, s)
    ensures Step(cfg, s, e).dummies == s.dummies + if e.Dummy? then {e.handle} else {}
  {
    assert s.dummies + {} == s.dummies;
  }

  lemma {:induction false} DummiesAreSeen(cfg: Config, es: seq<Event>, handle: nat)
    requires Folding(cfg.Groups())
    ensures handle in Run(cfg, es).dummies <==> DummySeen(es, handle)
  {
    if es != [] {
      DummiesAreSeen(cfg, es[..|es| - 1], handle);
      StepDummies(cfg, Run(cfg, es[..|es| - 1]), es[|es| - 1]);
      SeenNext(es, handle);
    }
  }

  lemma HasDummyIff(cfg: Config, es: seq<Event>, e: Event)
    requires Folding(cfg.Groups()) && e.Result?
    ensures HasDummy(Run(cfg, es).dummies, e.outputs) <==> BringsDummy(es, e)
  {
    forall h { DummiesAreSeen(cfg, es, h); }
  }

  lemma StepNotified(cfg: Config, s: Session, e: Event, f: nat)
    requires Consistently(cfg, s)
    ensures f in Step(cfg, s, e).errorNotified <==>
            f in s.errorNotified || (e.Result? && e.frame == f && HasDummy(s.dummies, e.outputs))
  {
    if e.Result? {
      var s1 := Update(cfg, s, e.frame, e.outputs);
      assert s1.dummies == s.dummies && s1.errorNotified == s.errorNotified;
    }
  }

  // A frame is stripped of errors exactly if it has had a dummy buffer.
  lemma {:induction false} NotifiedIff(cfg: Config, es: seq<Event>, f: nat)
    requires Folding(cfg.Groups())
    ensures f in Run(cfg, es).errorNotified <==> HadDummy(es, f)
  {
    if es != [] {
      var before, e := es[..|es| - 1], es[|es| - 1];
      NotifiedIff(cfg, before, f);
      StepNotified(cfg, Run(cfg, before), e, f);
      if e.Result? { HasDummyIff(cfg, before, e); }
    }
  }

  lemma IsDummyIff(cfg: Config, es: seq<Event>, e: Event)
    requires Folding(cfg.Groups()) && e.Result?
    ensures IsDummyResult(Run(cfg, es), e.frame, e.outputs) <==> HadDummy(es, e.frame) || BringsDummy(es, e)
  {
    NotifiedIff(cfg, es, e.frame);
    HasDummyIff(cfg, es, e);
  }

  // ---------- Pending results ----------

  // The request has an output, uses configured streams only, and is neither flushed nor refused at once.
  predicate ReachesRecords(cfg: Config, e: Event) {
    && e.Admit? && !e.flushingBefore && e.active
    && e.outputs != []
    && (forall b :: b in e.outputs ==> b.streamId in cfg.configured)
    && (forall b :: b in e.inputs ==> b.streamId in cfg.configured)
  }

  // The framework is told that there is no such request any more.
  ghost predicate Refuses(ms: seq<Message>, f: nat) {
    exists m :: m in ms && m.ErrorOut? && m.frame == f && m.code == ErrorRequest
  }

  // The framework gets the frame's metadata, or is told that there will be none.
  ghost predicate Settles(ms: seq<Message>, f: nat) {
    exists m :: m in ms && ((m.ResultOut? && m.frame == f && m.hasMetadata)
                            || (m.ErrorOut? && m.frame == f && m.code == ErrorResult))
  }

  // The frame was recorded, no flush overtook it, and neither metadata nor a result error has been
  // said about it since.
  ghost predicate Awaits(cfg: Config, es: seq<Event>, f: nat)
    requires Folding(cfg.Groups())
  {
    es != [] &&
      var before, e := es[..|es| - 1], es[|es| - 1];
      var said := Said(cfg, Run(cfg, before), e);
      if ReachesRecords(cfg, e) && e.frame == f then !Refuses(said, f)
      else Awaits(cfg, before, f) && !Settles(said, f)
  }

  lemma {:induction false} TallyPositive(ms: seq<Message>, f: nat, k: Kind)
    ensures Tally(ms, f, k) > 0 <==> exists m :: m in ms && IsKind(m, f, k)
  {
    if ms != [] {
      var front, last := ms[..|ms| - 1], ms[|ms| - 1];
      TallyPositive(front, f, k);
      assert forall m :: m in ms <==> m in front || m == last;
    }
  }

  // What settles a frame, as counted.
  lemma SettlesIff(ms: seq<Message>, f: nat)
    ensures Settles(ms, f) <==>
            Tally(ms, f, MetadataResult) + Tally(ms, f, GeneratedResultError) + Tally(ms, f, HwlResultError) > 0
  {
    TallyPositive(ms, f, MetadataResult);
    TallyPositive(ms, f, GeneratedResultError);
    TallyPositive(ms, f, HwlResultError);
    if m :| m in ms && ((m.ResultOut? && m.frame == f && m.hasMetadata)
                        || (m.ErrorOut? && m.frame == f && m.code == ErrorResult)) {
      assert IsKind(m, f, MetadataResult) || IsKind(m, f, GeneratedResultError) || IsKind(m, f, HwlResultError);
    }
    forall m, k | m in ms && IsKind(m, f, k) && k != Shutter ensures Settles(ms, f) {
    }
  }

  lemma ResultRecord(cfg: Config, s: Session, e: Event, f: nat)
    requires Consistently(cfg, s) && e.Result?
    ensures
      var dummy := IsDummyResult(s, e.frame, e.outputs);
      f in Step(cfg, s, e).results <==>
      f in s.results
      && !(f == e.frame && (if dummy then e.frame !in s.errorNotified else e.hasMetadata))
  {
    var s1 := Update(cfg, s, e.frame, e.outputs);
    assert s1.results == s.results && s1.errorNotified == s.errorNotified && s1.dummies == s.dummies;
  }

  lemma ResultAwaits(cfg: Config, s: Session, e: Event, f: nat)
    requires Consistently(cfg, s) && e.Result?
    ensures f in Step(cfg, s, e).results <==> f in s.results && !Settles(Said(cfg, s, e), f)
  {
    ResultRecord(cfg, s, e, f);
    if f in s.results { ResultSettlesIff(cfg, s, e, f); }
  }

  lemma ResultSettlesIff(cfg: Config, s: Session, e: Event, f: nat)
    requires Consistently(cfg, s) && e.Result? && f in s.results
    ensures
      var dummy := IsDummyResult(s, e.frame, e.outputs);
      Settles(Said(cfg, s, e), f) <==>
      f == e.frame && (if dummy then e.frame !in s.errorNotified else e.hasMetadata)
  {
    SettlesIff(Said(cfg, s, e), f);
    TallySaid(cfg, s, e, f, MetadataResult);
    TallySaid(cfg, s, e, f, GeneratedResultError);
    TallySaid(cfg, s, e, f, HwlResultError);
    ResultTally(cfg, s, e, f, MetadataResult);
    ResultTally(cfg, s, e, f, GeneratedResultError);
    ResultTally(cfg, s, e, f, HwlResultError);
  }

  lemma OtherAwaits(cfg: Config, s: Session, e: Event, f: nat)
    requires Consistently(cfg, s) && !e.Admit? && !e.Result?
    ensures f in Step(cfg, s, e).results <==> f in s.results && !Settles(Said(cfg, s, e), f)
  {
    LogGrows(cfg, s, e);
    var said := Said(cfg, s, e);
    if e.NotifyError? && e.frame !in s.errorNotified {
      var m := ErrorOut(e.frame, e.stream, e.code, FromHwl);
      assert Step(cfg, s, e).log == s.log + [m];
      assert said == [m] && m in said;
    }
    assert |said| <= 1;
  }

  lemma AdmitAwaits(cfg: Config, s: Session, e: Event, f: nat)
    requires Consistently(cfg, s) && e.Admit?
    ensures f in Step(cfg, s, e).results <==>
            if ReachesRecords(cfg, e) && e.frame == f then !Refuses(Said(cfg, s, e), f)
            else f in s.results && !Settles(Said(cfg, s, e), f)
  {
    AdmitSettlesNothing(cfg, s, e, f);
    if ReachesRecords(cfg, e) { RecordedAwaits(cfg, s, e, f); }
  }

  lemma AdmitSettlesNothing(cfg: Config, s: Session, e: Event, f: nat)
    requires Consistently(cfg, s) && e.Admit?
    ensures !Settles(Said(cfg, s, e), f)
  {
    SettlesIff(Said(cfg, s, e), f);
    TallySaid(cfg, s, e, f, MetadataResult);
    TallySaid(cfg, s, e, f, GeneratedResultError);
    TallySaid(cfg, s, e, f, HwlResultError);
    AdmitTally(cfg, s, e, f, MetadataResult);
    AdmitTally(cfg, s, e, f, GeneratedResultError);
    AdmitTally(cfg, s, e, f, HwlResultError);
  }

  lemma RecordedAwaits(cfg: Config, s: Session, e: Event, f: nat)
    requires Consistently(cfg, s) && ReachesRecords(cfg, e)
    ensures f in Step(cfg, s, e).results <==>
            if e.frame == f then !Refuses(Said(cfg, s, e), f) else f in s.results
  {
    LogGrows(cfg, s, e);
    var s1 := Register(cfg, Refreshed(s), e.frame, e.outputs);
    if Enough(cfg.quotas, s1.counts, e.outputs) {
      LaunchRefuses(cfg, s, s1, e);
    } else {
      assert Said(cfg, s, e) == [];
    }
  }

  lemma LaunchRefuses(cfg: Config, s: Session, s1: Session, e: Event)
    requires Consistently(cfg, s) && ReachesRecords(cfg, e)
    requires s1 == Register(cfg, Refreshed(s), e.frame, e.outputs) && Enough(cfg.quotas, s1.counts, e.outputs)
    ensures Refuses(Said(cfg, s, e), e.frame) <==> e.flushingAfter
  {
    LogGrows(cfg, s, e);
    var news := Announcement(FirstRequested(cfg.quotas, s1.counts, e.outputs));
    var last := if e.flushingAfter then Refusal(e.frame, e.outputs, e.inputs) else [Submitted(e.frame, e.outputs)];
    AfterLog(s.log, news, last);
    assert Step(cfg, s, e).log == s.log + news + last;
    assert Said(cfg, s, e) == news + last;
    if e.flushingAfter { assert last[0] in news + last; }
  }

  lemma AfterLog(log: seq<Message>, a: seq<Message>, b: seq<Message>)
    ensures (log + a + b)[|log|..] == a + b
  {
  }

  // In every run the frames recorded as awaiting their result are exactly those.
  lemma {:induction false} AwaitsResultIff(cfg: Config, es: seq<Event>, f: nat)
    requires Folding(cfg.Groups())
    ensures f in Run(cfg, es).results <==> Awaits(cfg, es, f)
  {
    if es != [] {
      var before, e := es[..|es| - 1], es[|es| - 1];
      AwaitsResultIff(cfg, before, f);
      var s := Run(cfg, before);
      if e.Admit? { AdmitAwaits(cfg, s, e, f); }
      else if e.Result? { ResultAwaits(cfg, s, e, f); }
      else { OtherAwaits(cfg, s, e, f); }
    }
  }

  // A result of a frame makes the session say exactly one result error if it brings the frame's first
  // dummy buffer while the frame awaits its result, and none otherwise.
  lemma FirstDummyFailsFrame(cfg: Config, es: seq<Event>, e: Event)
    requires Folding(cfg.Groups()) && e.Result?
    ensures Tally(Said(cfg, Run(cfg, es), e), e.frame, GeneratedResultError) ==
            One(Awaits(cfg, es, e.frame) && BringsDummy(es, e) && !HadDummy(es, e.frame))
  {
    var s := Run(cfg, es);
    AwaitsResultIff(cfg, es, e.frame);
    IsDummyIff(cfg, es, e);
    NotifiedIff(cfg, es, e.frame);
    ResultTally(cfg, s, e, e.frame, GeneratedResultError);
    TallySaid(cfg, s, e, e.frame, GeneratedResultError);
  }

  // ---------- Shutters ----------

  // A result error has been said about the frame since its last shutter came.
  ghost predicate Ignores(cfg: Config, es: seq<Event>, f: nat)
    requires Folding(cfg.Groups())
  {
    es != [] &&
      var before, e := es[..|es| - 1], es[|es| - 1];
      if e == NotifyShutter(f) then false
      else Ignores(cfg, before, f) || FailsResult(Said(cfg, Run(cfg, before), e), f)
  }

  ghost predicate FailsResult(ms: seq<Message>, f: nat) {
    exists m :: m in ms && m.ErrorOut? && m.frame == f && m.code == ErrorResult
  }

  lemma FailsIff(ms: seq<Message>, f: nat)
    ensures FailsResult(ms, f) <==> Tally(ms, f, GeneratedResultError) + Tally(ms, f, HwlResultError) > 0
  {
    TallyPositive(ms, f, GeneratedResultError);
    TallyPositive(ms, f, HwlResultError);
    if m :| m in ms && m.ErrorOut? && m.frame == f && m.code == ErrorResult {
      assert IsKind(m, f, GeneratedResultError) || IsKind(m, f, HwlResultError);
    }
  }

  lemma ResultIgnores(cfg: Config, s: Session, e: Event, f: nat)
    requires Consistently(cfg, s) && e.Result?
    ensures f in Step(cfg, s, e).ignoreShutters <==> f in s.ignoreShutters || FailsResult(Said(cfg, s, e), f)
  {
    FailsIff(Said(cfg, s, e), f);
    TallySaid(cfg, s, e, f, GeneratedResultError);
    TallySaid(cfg, s, e, f, HwlResultError);
    ResultTally(cfg, s, e, f, GeneratedResultError);
    ResultTally(cfg, s, e, f, HwlResultError);
    ResultShutters(cfg, s, e, f);
  }

  lemma ResultShutters(cfg: Config, s: Session, e: Event, f: nat)
    requires Consistently(cfg, s) && e.Result?
    ensures
      var fails := IsDummyResult(s, e.frame, e.outputs) && e.frame !in s.errorNotified && e.frame in s.results;
      f in Step(cfg, s, e).ignoreShutters <==> f in s.ignoreShutters || (f == e.frame && fails)
  {
    var s1 := Update(cfg, s, e.frame, e.outputs);
    assert s1.results == s.results && s1.errorNotified == s.errorNotified && s1.dummies == s.dummies;
  }

  lemma AdmitIgnores(cfg: Config, s: Session, e: Event, f: nat)
    requires Consistently(cfg, s) && e.Admit?
    ensures Step(cfg, s, e).ignoreShutters == s.ignoreShutters && !FailsResult(Said(cfg, s, e), f)
  {
    AdmitSettlesNothing(cfg, s, e, f);
  }

  lemma OtherIgnores(cfg: Config, s: Session, e: Event, f: nat)
    requires Consistently(cfg, s) && !e.Admit? && !e.Result?
    ensures f in Step(cfg, s, e).ignoreShutters <==>
            e != NotifyShutter(f) && (f in s.ignoreShutters || FailsResult(Said(cfg, s, e), f))
  {
    LogGrows(cfg, s, e);
    var said := Said(cfg, s, e);
    if e.NotifyError? && e.frame !in s.errorNotified {
      var m := ErrorOut(e.frame, e.stream, e.code, FromHwl);
      assert Step(cfg, s, e).log == s.log + [m];
      assert said == [m] && m in said;
    }
    assert |said| <= 1;
  }

  // In every run the shutters to be ignored are exactly those.
  lemma {:induction false} IgnoresShutterIff(cfg: Config, es: seq<Event>, f: nat)
    requires Folding(cfg.Groups())
    ensures f in Run(cfg, es).ignoreShutters <==> Ignores(cfg, es, f)
  {
    if es != [] {
      var before, e := es[..|es| - 1], es[|es| - 1];
      IgnoresShutterIff(cfg, before, f);
      var s := Run(cfg, before);
      if e.Admit? { AdmitIgnores(cfg, s, e, f); }
      else if e.Result? { ResultIgnores(cfg, s, e, f); }
      else { OtherIgnores(cfg, s, e, f); }
    }
  }
}
