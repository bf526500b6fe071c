// The session and the tracker keep separate records of what is in flight. They agree, and what a
// frame has asked for comes back exactly once.
module SessionCoupling {
  import opened HalTypes
  import opened StreamGroups
  import opened RequestsTracker
  import opened SessionModel

  // ---------- Assumptions on the environment ----------

  ghost predicate AdmittedIn(es: seq<Event>, f: nat) {
    exists i :: 0 <= i < |es| && es[i].Admit? && es[i].frame == f
  }

  // Frame numbers are not reused, no request repeats a stream or a stream group, and the hardware
  // layer answers for admitted frames only, with streams that are still outstanding.
  ghost predicate Fair(cfg: Config, before: seq<Event>, e: Event)
    requires Folding(cfg.Groups())
  {
    match e
    case Admit(frame, outputs, _, _, _, _) => !AdmittedIn(before, frame) && DistinctFolds(cfg.Groups(), outputs)
    case Result(frame, _, outputs, _) =>
      && AdmittedIn(before, frame) && DistinctFolds(cfg.Groups(), outputs)
      && FoldsOf(cfg.Groups(), outputs) <= Owed(Run(cfg, before), frame)
    case _ => true
  }

  ghost predicate Orderly(cfg: Config, es: seq<Event>)
    requires Folding(cfg.Groups())
  {
    es != [] ==> Orderly(cfg, es[..|es| - 1]) && Fair(cfg, es[..|es| - 1], es[|es| - 1])
  }

  // The request is recorded but does not get its quota in time.
  ghost predicate TimesOut(cfg: Config, s: Session, e: Event)
    requires Consistently(cfg, s)
  {
    && e.Admit? && IsValidRequest(cfg, e.outputs, e.inputs) && !e.flushingBefore && e.active
    && !Enough(cfg.quotas, s.counts, e.outputs)
  }

  ghost predicate NeverTimesOut(cfg: Config, es: seq<Event>)
    requires Folding(cfg.Groups())
  {
    es != [] ==>
      && NeverTimesOut(cfg, es[..|es| - 1])
      && !TimesOut(cfg, Run(cfg, es[..|es| - 1]), es[|es| - 1])
  }

  lemma AdmittedLast(es: seq<Event>, f: nat)
    requires es != []
    ensures AdmittedIn(es, f) <==> AdmittedIn(es[..|es| - 1], f) || (es[|es| - 1].Admit? && es[|es| - 1].frame == f)
  {
    var before := es[..|es| - 1];
    assert forall i :: 0 <= i < |before| ==> before[i] == es[i];
    if AdmittedIn(es, f) && !(es[|es| - 1].Admit? && es[|es| - 1].frame == f) {
      var i :| 0 <= i < |es| && es[i].Admit? && es[i].frame == f;
      assert before[i].Admit?;
    }
  }

  // ---------- Coupling ----------

  function One(b: bool): nat { if b then 1 else 0 }

  // The frames that still owe a buffer of stream `id`.
  ghost function Holders(streams: map<nat, set<int>>, id: int): set<nat> {
    set f | f in streams && id in streams[f]
  }

  ghost predicate Coupled(cfg: Config, s: Session)
    requires Consistently(cfg, s)
  {
    forall id :: id in cfg.quotas.max ==> s.counts.pending[id] == |Holders(s.streams, id)|
  }

  ghost predicate Recorded(s: Session, es: seq<Event>) {
    forall f :: f in s.streams ==> AdmittedIn(es, f)
  }

  lemma RegisterHolds(streams: map<nat, set<int>>, frame: nat, ids: set<int>, id: int)
    requires frame !in streams
    ensures |Holders(streams[frame := ids], id)| == |Holders(streams, id)| + One(id in ids)
  {
    if id in ids {
      assert Holders(streams[frame := ids], id) == Holders(streams, id) + {frame};
    } else {
      assert Holders(streams[frame := ids], id) == Holders(streams, id);
    }
  }

  lemma CrossOffReleases(streams: map<nat, set<int>>, frame: nat, ids: set<int>, id: int)
    requires frame in streams && ids <= streams[frame]
    ensures |Holders(streams, id)| == |Holders(CrossedOff(streams, frame, ids), id)| + One(id in ids)
  {
    var rest := CrossedOff(streams, frame, ids);
    assert frame in Holders(rest, id) <==> id in streams[frame] - ids;
    assert forall f :: f != frame ==> (f in Holders(rest, id) <==> f in Holders(streams, id));
    if id in ids {
      assert Holders(streams, id) == Holders(rest, id) + {frame};
    } else {
      assert Holders(streams, id) == Holders(rest, id);
    }
  }

  lemma RaiseLower(q: Quotas, counts: map<int, nat>, buffers: seq<StreamBuffer>)
    ensures Lowered(q, Raised(q, counts, buffers), buffers) == counts
  {
  }

  // A request that is launched is counted in both records.
  lemma LaunchCouples(cfg: Config, s: Session, s1: Session, frame: nat, outputs: seq<StreamBuffer>,
                      inputs: seq<StreamBuffer>)
    requires Consistently(cfg, s) && Consistently(cfg, s1) && Coupled(cfg, s) && frame !in s.streams
    requires DistinctFolds(cfg.Groups(), outputs)
    requires s1.streams == s.streams[frame := FoldsOf(cfg.Groups(), outputs)] && s1.counts.pending == s.counts.pending
    ensures Coupled(cfg, Launch(cfg, s1, frame, outputs, inputs, false))
  {
    var s' := Launch(cfg, s1, frame, outputs, inputs, false);
    assert s'.streams == s1.streams && s'.counts.pending == Raised(cfg.quotas, s.counts.pending, outputs);
    forall id | id in cfg.quotas.max ensures s'.counts.pending[id] == |Holders(s'.streams, id)| {
      RegisterHolds(s.streams, frame, FoldsOf(cfg.Groups(), outputs), id);
      CountDistinct(cfg.Groups(), outputs, id);
    }
  }

  // A request that a flush overtakes is taken out of both records.
  lemma FlushedCouples(cfg: Config, s: Session, s1: Session, frame: nat, outputs: seq<StreamBuffer>,
                       inputs: seq<StreamBuffer>)
    requires Consistently(cfg, s) && Consistently(cfg, s1) && Coupled(cfg, s) && frame !in s.streams
    requires s1.streams == s.streams[frame := FoldsOf(cfg.Groups(), outputs)] && s1.counts.pending == s.counts.pending
    ensures Coupled(cfg, Launch(cfg, s1, frame, outputs, inputs, true))
  {
    var s' := Launch(cfg, s1, frame, outputs, inputs, true);
    assert s'.streams == s.streams by {
      assert s'.streams == s1.streams - {frame};
    }
    assert s'.counts.pending == s.counts.pending by {
      assert s'.counts.pending == Lowered(cfg.quotas, Raised(cfg.quotas, s.counts.pending, outputs), outputs);
      RaiseLower(cfg.quotas, s.counts.pending, outputs);
    }
    SameRecords(cfg, s, s');
  }

  lemma SameRecords(cfg: Config, s: Session, s': Session)
    requires Consistently(cfg, s) && Consistently(cfg, s') && Coupled(cfg, s)
    requires s'.streams == s.streams && s'.counts.pending == s.counts.pending
    ensures Coupled(cfg, s')
  {
  }

  // A flush that overtakes a request undoes its admission: only the announcements stay.
  lemma FlushedLeavesNoTrace(cfg: Config, s: Session, e: Event)
    requires Consistently(cfg, s) && e.Admit? && IsValidRequest(cfg, e.outputs, e.inputs)
    requires !e.flushingBefore && e.active && e.flushingAfter && Enough(cfg.quotas, s.counts, e.outputs)
    requires e.frame !in s.streams && e.frame !in s.results
    ensures
      var s' := Step(cfg, s, e);
      && s'.streams == s.streams && s'.results == s.results
      && s'.counts.pending == s.counts.pending && s'.counts.acquired == s.counts.acquired
      && s'.counts.requested >= FoldsOf(cfg.Groups(), e.outputs)
      && exists ready :: s'.log == s.log + Announcement(ready) + Refusal(e.frame, e.outputs, e.inputs)
  {
    var s1 := Register(cfg, Refreshed(s), e.frame, e.outputs);
    assert s1.streams - {e.frame} == s.streams && s1.results - {e.frame} == s.results;
    FlushedLaunch(cfg, s1, e);
  }

  lemma FlushedLaunch(cfg: Config, s: Session, e: Event)
    requires e.Admit?
    ensures
      var s' := Launch(cfg, s, e.frame, e.outputs, e.inputs, true);
      && s'.streams == s.streams - {e.frame} && s'.results == s.results - {e.frame}
      && s'.counts.pending == s.counts.pending && s'.counts.acquired == s.counts.acquired
      && s'.counts.requested == s.counts.requested + FoldsOf(cfg.Groups(), e.outputs)
      && s'.log == s.log + Announcement(FirstRequested(cfg.quotas, s.counts, e.outputs))
                   + Refusal(e.frame, e.outputs, e.inputs)
  {
    RaiseLower(cfg.quotas, s.counts.pending, e.outputs);
  }

  // A request that times out leaves the two records apart if it is for a tracked stream; any other
  // admission keeps them together.
  lemma AdmissionCouplesIff(cfg: Config, s: Session, e: Event)
    requires Consistently(cfg, s) && Coupled(cfg, s)
    requires e.Admit? && e.frame !in s.streams && DistinctFolds(cfg.Groups(), e.outputs)
    ensures Coupled(cfg, Step(cfg, s, e)) <==>
            !(TimesOut(cfg, s, e) && exists b :: b in e.outputs && Fold(cfg.Groups(), b.streamId) in cfg.quotas.max)
  {
    if IsValidRequest(cfg, e.outputs, e.inputs) && !e.flushingBefore && e.active {
      var s1 := Register(cfg, Refreshed(s), e.frame, e.outputs);
      assert {} + FoldsOf(cfg.Groups(), e.outputs) == FoldsOf(cfg.Groups(), e.outputs);
      if TimesOut(cfg, s, e) {
        TimeOutUncouples(cfg, s, s1, e.frame, e.outputs);
      } else if e.flushingAfter {
        FlushedCouples(cfg, s, s1, e.frame, e.outputs, e.inputs);
      } else {
        LaunchCouples(cfg, s, s1, e.frame, e.outputs, e.inputs);
      }
    }
  }

  lemma TimeOutUncouples(cfg: Config, s: Session, s1: Session, frame: nat, outputs: seq<StreamBuffer>)
    requires Consistently(cfg, s) && Consistently(cfg, s1) && Coupled(cfg, s) && frame !in s.streams
    requires s1.streams == s.streams[frame := FoldsOf(cfg.Groups(), outputs)] && s1.counts.pending == s.counts.pending
    ensures Coupled(cfg, s1) <==> forall b :: b in outputs ==> Fold(cfg.Groups(), b.streamId) !in cfg.quotas.max
  {
    var ids := FoldsOf(cfg.Groups(), outputs);
    forall id | id in cfg.quotas.max ensures |Holders(s1.streams, id)| == s1.counts.pending[id] + One(id in ids) {
      RegisterHolds(s.streams, frame, ids, id);
    }
    if b :| b in outputs && Fold(cfg.Groups(), b.streamId) in cfg.quotas.max {
      assert Fold(cfg.Groups(), b.streamId) in ids;
    }
  }

  // What any result does to the two records.
  lemma ResultRecords(cfg: Config, s: Session, e: Event)
    requires Consistently(cfg, s) && e.Result?
    ensures Step(cfg, s, e).streams == Update(cfg, s, e.frame, e.outputs).streams
    ensures Step(cfg, s, e).counts.pending == Lowered(cfg.quotas, s.counts.pending, e.outputs)
  {
  }

  // A result that returns outstanding streams, dummies or not, is taken out of both records.
  lemma ResultCouples(cfg: Config, s: Session, e: Event)
    requires Consistently(cfg, s) && Coupled(cfg, s)
    requires e.Result? && DistinctFolds(cfg.Groups(), e.outputs)
    requires FoldsOf(cfg.Groups(), e.outputs) <= Owed(s, e.frame)
    ensures Coupled(cfg, Step(cfg, s, e))
  {
    var s' := Step(cfg, s, e);
    var ids := FoldsOf(cfg.Groups(), e.outputs);
    ResultRecords(cfg, s, e);
    forall id | id in cfg.quotas.max ensures s'.counts.pending[id] == |Holders(s'.streams, id)| {
      CountDistinct(cfg.Groups(), e.outputs, id);
      if e.outputs != [] {
        assert Fold(cfg.Groups(), e.outputs[0].streamId) in ids;
        CrossOffReleases(s.streams, e.frame, ids, id);
      }
    }
  }

  lemma OtherCouples(cfg: Config, s: Session, e: Event)
    requires Consistently(cfg, s) && Coupled(cfg, s) && !e.Admit? && !e.Result?
    ensures Coupled(cfg, Step(cfg, s, e))
  {
    assert Step(cfg, s, e).streams == s.streams && Step(cfg, s, e).counts.pending == s.counts.pending;
  }

  lemma RecordedStep(cfg: Config, s: Session, before: seq<Event>, es: seq<Event>)
    requires Consistently(cfg, s) && es != [] && before == es[..|es| - 1] && Recorded(s, before)
    ensures Recorded(Step(cfg, s, es[|es| - 1]), es)
  {
    var s' := Step(cfg, s, es[|es| - 1]);
    forall f | f in s'.streams ensures AdmittedIn(es, f) {
      AdmittedLast(es, f);
    }
  }

  lemma {:induction false} RunRecorded(cfg: Config, es: seq<Event>)
    requires Folding(cfg.Groups())
    ensures Recorded(Run(cfg, es), es)
  {
    if es != [] {
      RunRecorded(cfg, es[..|es| - 1]);
      RecordedStep(cfg, Run(cfg, es[..|es| - 1]), es[..|es| - 1], es);
    }
  }

  // Coupling: after every orderly run in which no request timed out, the tracker counts for each
  // stream exactly the frames that still owe a buffer of it.
  lemma {:induction false} RunCoupled(cfg: Config, es: seq<Event>)
    requires Folding(cfg.Groups()) && Orderly(cfg, es) && NeverTimesOut(cfg, es)
    ensures Coupled(cfg, Run(cfg, es))
  {
    if es == [] {
      assert forall id :: Holders(map[], id) == {};
    } else {
      var before, e := es[..|es| - 1], es[|es| - 1];
      var s := Run(cfg, before);
      RunCoupled(cfg, before);
      RunRecorded(cfg, before);
      match e
      case Admit(_, _, _, _, _, _) => AdmissionCouplesIff(cfg, s, e);
      case Result(_, _, _, _) => ResultCouples(cfg, s, e);
      case _ => OtherCouples(cfg, s, e);
    }
  }

  // ---------- Every requested buffer comes back once ----------

  // How many buffers of stream `id` (or its group) the framework has got back for the frame.
  function BackOn(groups: map<int, int>, log: seq<Message>, f: nat, id: int): nat {
    if log == [] then 0
    else
      var m := log[|log| - 1];
      BackOn(groups, log[..|log| - 1], f, id)
      + if m.ResultOut? && m.frame == f then CountOn(groups, m.outputs, id) else 0
  }

  // The streams the frame's request has asked for.
  function RequestedOn(cfg: Config, es: seq<Event>, f: nat): set<int> {
    if es == [] then {}
    else
      var e := es[|es| - 1];
      if e.Admit? && e.frame == f && IsValidRequest(cfg, e.outputs, e.inputs) then FoldsOf(cfg.Groups(), e.outputs)
      else RequestedOn(cfg, es[..|es| - 1], f)
  }

  lemma {:induction false} BackConcat(groups: map<int, int>, a: seq<Message>, b: seq<Message>, f: nat, id: int)
    ensures BackOn(groups, a + b, f, id) == BackOn(groups, a, f, id) + BackOn(groups, b, f, id)
  {
    if b == [] {
      assert a + b == a;
    } else {
      assert (a + b)[..|a + b| - 1] == a + b[..|b| - 1];
      BackConcat(groups, a, b[..|b| - 1], f, id);
    }
  }

  lemma {:induction false} BackNothing(groups: map<int, int>, ms: seq<Message>, f: nat, id: int)
    requires forall m :: m in ms ==> !(m.ResultOut? && m.frame == f)
    ensures BackOn(groups, ms, f, id) == 0
  {
    if ms != [] { BackNothing(groups, ms[..|ms| - 1], f, id); }
  }

  lemma BackSingle(groups: map<int, int>, m: Message, f: nat, id: int)
    ensures BackOn(groups, [m], f, id) == if m.ResultOut? && m.frame == f then CountOn(groups, m.outputs, id) else 0
  {
    assert [m][..0] == [];
  }

  lemma {:induction false} CountConcat(groups: map<int, int>, a: seq<StreamBuffer>, b: seq<StreamBuffer>, id: int)
    ensures CountOn(groups, a + b, id) == CountOn(groups, a, id) + CountOn(groups, b, id)
  {
    if b == [] {
      assert a + b == a;
    } else {
      assert (a + b)[..|a + b| - 1] == a + b[..|b| - 1];
      CountConcat(groups, a, b[..|b| - 1], id);
    }
  }

  // Counting looks at stream ids only.
  lemma {:induction false} CountSameStreams(groups: map<int, int>, a: seq<StreamBuffer>, b: seq<StreamBuffer>, id: int)
    requires |a| == |b| && forall i :: 0 <= i < |a| ==> a[i].streamId == b[i].streamId
    ensures CountOn(groups, a, id) == CountOn(groups, b, id)
  {
    if a != [] { CountSameStreams(groups, a[..|a| - 1], b[..|b| - 1], id); }
  }

  lemma RefusalBack(groups: map<int, int>, frame: nat, outputs: seq<StreamBuffer>, inputs: seq<StreamBuffer>,
                    f: nat, id: int)
    ensures BackOn(groups, Refusal(frame, outputs, inputs), f, id) ==
            if f == frame then CountOn(groups, outputs, id) else 0
  {
    var ms := Refusal(frame, outputs, inputs);
    CountSameStreams(groups, AllFailed(outputs), outputs, id);
    assert ms == [ms[0]] + [ms[1]];
    BackConcat(groups, [ms[0]], [ms[1]], f, id);
    BackSingle(groups, ms[0], f, id);
    BackSingle(groups, ms[1], f, id);
  }

  lemma ErrorBack(groups: map<int, int>, dummies: set<nat>, frame: nat, b: StreamBuffer, f: nat, id: int)
    ensures BackOn(groups, ErrorMessagesFor(dummies, frame, b), f, id) ==
            if f == frame then One(Fold(groups, b.streamId) == id) else 0
  {
    var error := ErrorOut(frame, b.streamId, ErrorBuffer, Generated);
    var result := ResultOut(frame, false, [Substituted(dummies, b)], []);
    assert [Substituted(dummies, b)][..0] == [];
    BackSingle(groups, result, f, id);
    BackSingle(groups, error, f, id);
    BackConcat(groups, [error], [result], f, id);
    assert [error] + [result] == [error, result];
  }

  lemma {:induction false} ErrorsBack(groups: map<int, int>, dummies: set<nat>, frame: nat, outputs: seq<StreamBuffer>,
                                      f: nat, id: int)
    ensures BackOn(groups, ErrorMessages(dummies, frame, outputs), f, id) ==
            if f == frame then CountOn(groups, outputs, id) else 0
  {
    if outputs != [] {
      var front, b := outputs[..|outputs| - 1], outputs[|outputs| - 1];
      ErrorsBack(groups, dummies, frame, front, f, id);
      ErrorBack(groups, dummies, frame, b, f, id);
      BackConcat(groups, ErrorMessages(dummies, frame, front), ErrorMessagesFor(dummies, frame, b), f, id);
    }
  }

  lemma DummyResultBack(cfg: Config, s: Session, frame: nat, outputs: seq<StreamBuffer>, f: nat, id: int)
    ensures BackOn(cfg.Groups(), StepDummyResult(cfg, s, frame, outputs).log, f, id) ==
            BackOn(cfg.Groups(), s.log, f, id) + if f == frame then CountOn(cfg.Groups(), outputs, id) else 0
  {
    var s1 := if frame in s.errorNotified then s else FailFrame(s, frame);
    var error := [ErrorOut(frame, INVALID_STREAM_ID, ErrorResult, Generated)];
    BackConcat(cfg.Groups(), s.log, error, f, id);
    BackNothing(cfg.Groups(), error, f, id);
    ErrorsBack(cfg.Groups(), s.dummies, frame, outputs, f, id);
    BackConcat(cfg.Groups(), s1.log, ErrorMessages(s.dummies, frame, outputs), f, id);
  }

  lemma NormalResultBack(cfg: Config, s: Session, frame: nat, hasMetadata: bool, outputs: seq<StreamBuffer>,
                         inputs: seq<StreamBuffer>, f: nat, id: int)
    ensures BackOn(cfg.Groups(), StepNormalResult(cfg, s, frame, hasMetadata, outputs, inputs).log, f, id) ==
            BackOn(cfg.Groups(), s.log, f, id) + if f == frame then CountOn(cfg.Groups(), outputs, id) else 0
  {
    var result := ResultOut(frame, hasMetadata, outputs, inputs);
    BackConcat(cfg.Groups(), s.log, [result], f, id);
    BackSingle(cfg.Groups(), result, f, id);
  }

  lemma ResultBack(cfg: Config, s: Session, e: Event, f: nat, id: int)
    requires Consistently(cfg, s) && e.Result?
    ensures BackOn(cfg.Groups(), Step(cfg, s, e).log, f, id) ==
            BackOn(cfg.Groups(), s.log, f, id) + if f == e.frame then CountOn(cfg.Groups(), e.outputs, id) else 0
  {
    var s1 := Update(cfg, s, e.frame, e.outputs);
    BackConcat(cfg.Groups(), s.log, [FlushingAll], f, id);
    BackNothing(cfg.Groups(), [FlushingAll], f, id);
    if IsDummyResult(s1, e.frame, e.outputs) {
      DummyResultBack(cfg, s1, e.frame, e.outputs, f, id);
    } else {
      NormalResultBack(cfg, s1, e.frame, e.hasMetadata, e.outputs, e.inputs, f, id);
    }
  }

  lemma ResultOwes(cfg: Config, s: Session, e: Event, f: nat, id: int)
    requires Consistently(cfg, s) && e.Result? && FoldsOf(cfg.Groups(), e.outputs) <= Owed(s, e.frame)
    requires DistinctFolds(cfg.Groups(), e.outputs)
    ensures One(id in Owed(s, f)) ==
            One(id in Owed(Step(cfg, s, e), f)) + if f == e.frame then CountOn(cfg.Groups(), e.outputs, id) else 0
  {
    CountDistinct(cfg.Groups(), e.outputs, id);
    ResultRecords(cfg, s, e);
    if e.outputs != [] {
      assert Fold(cfg.Groups(), e.outputs[0].streamId) in FoldsOf(cfg.Groups(), e.outputs);
    }
  }

  lemma LaunchBack(cfg: Config, s: Session, e: Event, f: nat, id: int)
    requires e.Admit?
    ensures
      var s' := Launch(cfg, s, e.frame, e.outputs, e.inputs, e.flushingAfter);
      BackOn(cfg.Groups(), s'.log, f, id) ==
      BackOn(cfg.Groups(), s.log, f, id)
      + if e.flushingAfter && f == e.frame then CountOn(cfg.Groups(), e.outputs, id) else 0
  {
    var groups, ready := cfg.Groups(), Announcement(FirstRequested(cfg.quotas, s.counts, e.outputs));
    var last := if e.flushingAfter then Refusal(e.frame, e.outputs, e.inputs) else [Submitted(e.frame, e.outputs)];
    BackConcat(groups, s.log, ready, f, id);
    BackNothing(groups, ready, f, id);
    BackConcat(groups, s.log + ready, last, f, id);
    if e.flushingAfter {
      RefusalBack(groups, e.frame, e.outputs, e.inputs, f, id);
    } else {
      BackNothing(groups, last, f, id);
    }
  }

  // The framework gets the buffers of a request back at once if it is refused or flushed.
  predicate IsRefused(cfg: Config, s: Session, e: Event)
    requires Consistently(cfg, s) && e.Admit?
  {
    && IsValidRequest(cfg, e.outputs, e.inputs)
    && (e.flushingBefore || !e.active || (Enough(cfg.quotas, s.counts, e.outputs) && e.flushingAfter))
  }

  lemma AdmitBack(cfg: Config, s: Session, e: Event, f: nat, id: int)
    requires Consistently(cfg, s) && e.Admit?
    ensures
      BackOn(cfg.Groups(), Step(cfg, s, e).log, f, id) ==
      BackOn(cfg.Groups(), s.log, f, id)
      + if IsRefused(cfg, s, e) && f == e.frame then CountOn(cfg.Groups(), e.outputs, id) else 0
  {
    if IsValidRequest(cfg, e.outputs, e.inputs) {
      if e.flushingBefore || !e.active {
        RefusalBack(cfg.Groups(), e.frame, e.outputs, e.inputs, f, id);
        BackConcat(cfg.Groups(), s.log, Refusal(e.frame, e.outputs, e.inputs), f, id);
      } else {
        LaunchBack(cfg, Register(cfg, Refreshed(s), e.frame, e.outputs), e, f, id);
      }
    }
  }

  ghost predicate ReturnedOnce(cfg: Config, es: seq<Event>, s: Session, f: nat, id: int) {
    BackOn(cfg.Groups(), s.log, f, id) + One(id in Owed(s, f)) == One(id in RequestedOn(cfg, es, f))
  }

  lemma AdmitReturnsOnce(cfg: Config, s: Session, before: seq<Event>, es: seq<Event>, f: nat, id: int)
    requires Consistently(cfg, s) && es != [] && before == es[..|es| - 1] && es[|es| - 1].Admit?
    requires !AdmittedIn(before, es[|es| - 1].frame) && DistinctFolds(cfg.Groups(), es[|es| - 1].outputs)
    requires Recorded(s, before) && ReturnedOnce(cfg, before, s, f, id)
    ensures ReturnedOnce(cfg, es, Step(cfg, s, es[|es| - 1]), f, id)
  {
    var e := es[|es| - 1];
    AdmitBack(cfg, s, e, f, id);
    CountDistinct(cfg.Groups(), e.outputs, id);
    if f == e.frame { NotRequested(cfg, before, f); }
  }

  lemma {:induction false} NotRequested(cfg: Config, es: seq<Event>, f: nat)
    requires !AdmittedIn(es, f)
    ensures RequestedOn(cfg, es, f) == {}
  {
    if es != [] {
      AdmittedLast(es, f);
      NotRequested(cfg, es[..|es| - 1], f);
    }
  }

  lemma OtherBack(cfg: Config, s: Session, e: Event, f: nat, id: int)
    requires Consistently(cfg, s) && !e.Admit? && !e.Result?
    ensures BackOn(cfg.Groups(), Step(cfg, s, e).log, f, id) == BackOn(cfg.Groups(), s.log, f, id)
    ensures Step(cfg, s, e).streams == s.streams
  {
    var s' := Step(cfg, s, e);
    if s'.log != s.log {
      var m := s'.log[|s.log|];
      assert s'.log == s.log + [m] && !m.ResultOut?;
      BackConcat(cfg.Groups(), s.log, [m], f, id);
      BackSingle(cfg.Groups(), m, f, id);
    }
  }

  // Request conservation: of every stream a frame's request asks for, the framework gets back
  // exactly one buffer, good or failed, as soon as the frame does not owe it any more; never more.
  lemma {:induction false} RequestedBuffersReturnOnce(cfg: Config, es: seq<Event>, f: nat, id: int)
    requires Folding(cfg.Groups()) && Orderly(cfg, es)
    ensures ReturnedOnce(cfg, es, Run(cfg, es), f, id)
  {
    if es != [] {
      var before, e := es[..|es| - 1], es[|es| - 1];
      RequestedBuffersReturnOnce(cfg, before, f, id);
      RunRecorded(cfg, before);
      var s := Run(cfg, before);
      match e
      case Admit(_, _, _, _, _, _) => AdmitReturnsOnce(cfg, s, before, es, f, id);
      case Result(_, _, _, _) =>
        ResultBack(cfg, s, e, f, id);
        ResultOwes(cfg, s, e, f, id);
      case _ => OtherBack(cfg, s, e, f, id);
    }
  }
}
