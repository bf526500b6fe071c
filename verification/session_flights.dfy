// Which frames are in flight, from the events and the log alone, and when the stream buffer cache
// manager is told to flush.
module SessionFlights {
  import opened HalTypes
  import opened StreamGroups
  import opened RequestsTracker
  import opened SessionModel
  import opened SessionErrors
  import SessionReadiness
  import opened SessionRecords

  // One of the buffers is on a stream that stands for `id`.
  ghost predicate Uses(cfg: Config, buffers: seq<StreamBuffer>, id: int) {
    exists i :: 0 <= i < |buffers| && Fold(cfg.Groups(), buffers[i].streamId) == id
  }

  // A request of the frame has been recorded with a buffer of the stream, no flush overtook it, and no
  // result of the frame has returned one since.
  ghost predicate Owes(cfg: Config, es: seq<Event>, f: nat, id: int)
    requires Folding(cfg.Groups())
  {
    es != [] &&
    var before, e := es[..|es| - 1], es[|es| - 1];
    if ReachesRecords(cfg, e) && e.frame == f then
      !Refuses(Said(cfg, Run(cfg, before), e), f) && (Owes(cfg, before, f, id) || Uses(cfg, e.outputs, id))
    else Owes(cfg, before, f, id) && !(e.Result? && e.frame == f && Uses(cfg, e.outputs, id))
  }

  ghost predicate IsOwed(s: Session, f: nat, id: int) {
    f in s.streams && id in s.streams[f]
  }

  ghost predicate NoneEmpty(s: Session) {
    forall f :: f in s.streams ==> s.streams[f] != {}
  }

  lemma UsesIff(cfg: Config, buffers: seq<StreamBuffer>, id: int)
    ensures Uses(cfg, buffers, id) <==> id in FoldsOf(cfg.Groups(), buffers)
  {
    if id in FoldsOf(cfg.Groups(), buffers) {
      var b :| b in buffers && Fold(cfg.Groups(), b.streamId) == id;
      var i :| 0 <= i < |buffers| && buffers[i] == b;
    }
  }

  // What a result crosses off.
  lemma UpdateOwes(cfg: Config, s: Session, frame: nat, outputs: seq<StreamBuffer>, f: nat, id: int)
    ensures IsOwed(Update(cfg, s, frame, outputs), f, id) <==>
            IsOwed(s, f, id) && !(frame == f && id in FoldsOf(cfg.Groups(), outputs))
    ensures NoneEmpty(s) ==> NoneEmpty(Update(cfg, s, frame, outputs))
  {
    var ids := FoldsOf(cfg.Groups(), outputs);
    if outputs == [] {
      assert ids == {};
    } else if frame in s.streams {
      var rest := s.streams[frame] - ids;
      assert id in s.streams[frame] && id !in ids <==> id in rest;
    }
  }

  lemma RegisterOwes(cfg: Config, s: Session, e: Event, f: nat, id: int)
    requires ReachesRecords(cfg, e)
    ensures
      var s1 := Register(cfg, s, e.frame, e.outputs);
      && (IsOwed(s1, f, id) <==> IsOwed(s, f, id) || (e.frame == f && id in FoldsOf(cfg.Groups(), e.outputs)))
      && (NoneEmpty(s) ==> NoneEmpty(s1))
  {
    assert Fold(cfg.Groups(), e.outputs[0].streamId) in FoldsOf(cfg.Groups(), e.outputs);
  }

  lemma AdmitOwes(cfg: Config, s: Session, e: Event, f: nat, id: int)
    requires Consistently(cfg, s) && ReachesRecords(cfg, e)
    ensures IsOwed(Step(cfg, s, e), f, id) <==>
            if e.frame == f then !Refuses(Said(cfg, s, e), f) && (IsOwed(s, f, id) || Uses(cfg, e.outputs, id))
            else IsOwed(s, f, id)
    ensures NoneEmpty(s) ==> NoneEmpty(Step(cfg, s, e))
  {
    UsesIff(cfg, e.outputs, id);
    RegisterOwes(cfg, Refreshed(s), e, f, id);
    var s1 := Register(cfg, Refreshed(s), e.frame, e.outputs);
    if Enough(cfg.quotas, s1.counts, e.outputs) {
      LaunchRefuses(cfg, s, s1, e);
    } else {
      LogGrows(cfg, s, e);
      assert Said(cfg, s, e) == [];
    }
  }

  lemma OtherOwes(cfg: Config, s: Session, e: Event, f: nat, id: int)
    requires Consistently(cfg, s) && !ReachesRecords(cfg, e)
    ensures IsOwed(Step(cfg, s, e), f, id) <==>
            IsOwed(s, f, id) && !(e.Result? && e.frame == f && Uses(cfg, e.outputs, id))
    ensures NoneEmpty(s) ==> NoneEmpty(Step(cfg, s, e))
  {
    if e.Result? {
      UsesIff(cfg, e.outputs, id);
      UpdateOwes(cfg, s, e.frame, e.outputs, f, id);
      SessionCoupling.ResultRecords(cfg, s, e);
    } else {
      assert Step(cfg, s, e).streams == s.streams;
    }
  }

  // In every run a frame is recorded as owing exactly those streams,
  lemma {:induction false} OwesIff(cfg: Config, es: seq<Event>, f: nat, id: int)
    requires Folding(cfg.Groups())
    ensures IsOwed(Run(cfg, es), f, id) <==> Owes(cfg, es, f, id)
  {
    if es != [] {
      var before, e := es[..|es| - 1], es[|es| - 1];
      OwesIff(cfg, before, f, id);
      if ReachesRecords(cfg, e) { AdmitOwes(cfg, Run(cfg, before), e, f, id); }
      else { OtherOwes(cfg, Run(cfg, before), e, f, id); }
    }
  }

  lemma {:induction false} RunNoneEmpty(cfg: Config, es: seq<Event>)
    requires Folding(cfg.Groups())
    ensures NoneEmpty(Run(cfg, es))
  {
    if es != [] {
      var before, e := es[..|es| - 1], es[|es| - 1];
      RunNoneEmpty(cfg, before);
      if ReachesRecords(cfg, e) { AdmitOwes(cfg, Run(cfg, before), e, 0, 0); }
      else { OtherOwes(cfg, Run(cfg, before), e, 0, 0); }
    }
  }

  lemma OwesSome(s: Session, f: nat)
    requires NoneEmpty(s)
    ensures f in s.streams <==> exists id :: IsOwed(s, f, id)
  {
    if f in s.streams {
      var ids := s.streams[f];
      assert exists id :: id in ids by {
        assert (forall id :: id !in ids) ==> ids == {};
      }
      var id :| id in ids;
      assert IsOwed(s, f, id);
    }
  }

  // The frame owes a buffer.
  ghost predicate InFlight(cfg: Config, es: seq<Event>, f: nat)
    requires Folding(cfg.Groups())
  {
    exists id :: Owes(cfg, es, f, id)
  }

  // and is recorded only as long as it owes one.
  lemma InFlightIff(cfg: Config, es: seq<Event>, f: nat)
    requires Folding(cfg.Groups())
    ensures f in Run(cfg, es).streams <==> InFlight(cfg, es, f)
  {
    RunNoneEmpty(cfg, es);
    forall id ensures IsOwed(Run(cfg, es), f, id) <==> Owes(cfg, es, f, id) {
      OwesIff(cfg, es, f, id);
    }
    OwesSome(Run(cfg, es), f);
  }

  lemma AnyInFlight(cfg: Config, es: seq<Event>)
    requires Folding(cfg.Groups())
    ensures (exists f :: InFlight(cfg, es, f)) <==> Run(cfg, es).streams != map[]
  {
    forall f ensures f in Run(cfg, es).streams <==> InFlight(cfg, es, f) {
      InFlightIff(cfg, es, f);
    }
    assert Run(cfg, es).streams != map[] <==> exists f :: f in Run(cfg, es).streams;
  }

  // In every run the cache manager is told to flush exactly by the result that returns the last buffer
  // that was owed.
  lemma ToldToFlushIff(cfg: Config, es: seq<Event>, e: Event)
    requires Folding(cfg.Groups())
    ensures FlushingAll in Said(cfg, Run(cfg, es), e) <==>
              e.Result? && (exists f :: InFlight(cfg, es, f)) && forall f :: !InFlight(cfg, es + [e], f)
  {
    AnyInFlight(cfg, es);
    AnyInFlight(cfg, es + [e]);
    RunNext(cfg, es, e);
    if e.Result? {
      SessionReadiness.FlushingMeansEmpty(cfg, Run(cfg, es), e);
    } else if FlushingAll in Said(cfg, Run(cfg, es), e) {
      SessionReadiness.OnlyResultsFlush(cfg, Run(cfg, es), e);
    }
  }
}
