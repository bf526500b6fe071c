// Telling the stream buffer cache manager which streams are in use: after it has been flushed every
// stream is announced again. Between two flushes a stream is announced twice exactly when the
// records were found empty after one of its requests without the manager having been told.
module SessionReadiness {
  import opened HalTypes
  import opened StreamGroups
  import opened RequestsTracker
  import opened SessionModel
  import opened SessionErrors
  import opened AnnouncementMarks

  // ---------- Announcements in the log ----------

  // The streams announced since the cache manager was last told to flush.
  function Since(log: seq<Message>): set<int> {
    if log == [] then {}
    else After(Since(log[..|log| - 1]), log[|log| - 1])
  }

  function After(since: set<int>, m: Message): set<int> {
    if m.FlushingAll? then {} else if m.Ready? then since + m.streams else since
  }

  // Announcements that share a stream have a flush between them.
  ghost predicate SeparatedByFlush(log: seq<Message>) {
    forall i, j, x ::
      0 <= i < j < |log| && Announces(log[i], x) && Announces(log[j], x) ==> FlushedBetween(log, i, j)
  }

  predicate Announces(m: Message, x: int) { m.Ready? && x in m.streams }

  ghost predicate FlushedBetween(log: seq<Message>, i: nat, j: nat)
    requires j <= |log|
  {
    exists k :: i < k < j && log[k].FlushingAll?
  }

  predicate IsNotice(m: Message) { !m.Ready? && !m.FlushingAll? }

  lemma {:induction false} SinceNotices(log: seq<Message>, ms: seq<Message>)
    requires forall m :: m in ms ==> IsNotice(m)
    ensures Since(log + ms) == Since(log)
  {
    if ms == [] {
      assert log + ms == log;
    } else {
      assert (log + ms)[..|log + ms| - 1] == log + ms[..|ms| - 1];
      SinceNotices(log, ms[..|ms| - 1]);
      assert IsNotice(ms[|ms| - 1]);
    }
  }

  lemma SinceNext(log: seq<Message>, m: Message)
    ensures Since(log + [m]) == After(Since(log), m)
  {
    assert (log + [m])[..|log|] == log;
  }

  // What was announced and not flushed since is still in the record.
  lemma {:induction false} SinceHas(log: seq<Message>, i: nat, x: int)
    requires i < |log| && Announces(log[i], x) && !FlushedBetween(log, i, |log|)
    ensures x in Since(log)
    decreases |log|
  {
    var front := log[..|log| - 1];
    assert !log[|log| - 1].FlushingAll?;
    if i < |log| - 1 {
      assert forall k :: 0 <= k < |front| ==> front[k] == log[k];
      SinceHas(front, i, x);
    }
  }

  // What is in the record was announced and not flushed since.
  lemma {:induction false} SinceWhy(log: seq<Message>, x: int) returns (i: nat)
    requires x in Since(log)
    ensures i < |log| && Announces(log[i], x) && !FlushedBetween(log, i, |log|)
    decreases |log|
  {
    var front, m := log[..|log| - 1], log[|log| - 1];
    if Announces(m, x) {
      i := |log| - 1;
    } else {
      assert forall k :: 0 <= k < |front| ==> front[k] == log[k];
      i := SinceWhy(front, x);
    }
  }

  lemma SeparatedPrefix(log: seq<Message>, ms: seq<Message>)
    requires SeparatedByFlush(log + ms)
    ensures SeparatedByFlush(log)
  {
    var log' := log + ms;
    forall i, j, x | 0 <= i < j < |log| && Announces(log[i], x) && Announces(log[j], x)
      ensures FlushedBetween(log, i, j)
    {
      assert log'[i] == log[i] && log'[j] == log[j];
      assert FlushedBetween(log', i, j);
      var k :| i < k < j && log'[k].FlushingAll?;
      assert log[k].FlushingAll?;
    }
  }

  // Messages that announce nothing keep announcements apart.
  lemma SeparatedNotices(log: seq<Message>, ms: seq<Message>)
    requires forall m :: m in ms ==> !m.Ready?
    ensures SeparatedByFlush(log + ms) <==> SeparatedByFlush(log)
  {
    var log' := log + ms;
    if SeparatedByFlush(log) {
      assert forall j :: |log| <= j < |log'| ==> log'[j] == ms[j - |log|];
      forall i, j, x | 0 <= i < j < |log'| && Announces(log'[i], x) && Announces(log'[j], x)
        ensures FlushedBetween(log', i, j)
      {
        assert log'[i] == log[i] && log'[j] == log[j];
        var k :| i < k < j && log[k].FlushingAll?;
        assert log'[k].FlushingAll?;
      }
    }
    if SeparatedByFlush(log') { SeparatedPrefix(log, ms); }
  }

  // An announcement does exactly if none of its streams was announced since the last flush.
  lemma SeparatedReady(log: seq<Message>, ids: set<int>)
    ensures SeparatedByFlush(log + [Ready(ids)]) <==> SeparatedByFlush(log) && forall x :: x in ids ==> x !in Since(log)
  {
    if x :| x in ids && x in Since(log) {
      ReadyRepeats(log, ids, x);
    } else {
      if SeparatedByFlush(log) { ReadyKeepsApart(log, ids); }
      if SeparatedByFlush(log + [Ready(ids)]) { SeparatedPrefix(log, [Ready(ids)]); }
    }
  }

  lemma ReadyRepeats(log: seq<Message>, ids: set<int>, x: int)
    requires x in ids && x in Since(log)
    ensures !SeparatedByFlush(log + [Ready(ids)])
  {
    var log' := log + [Ready(ids)];
    var i := SinceWhy(log, x);
    assert Announces(log'[i], x) && Announces(log'[|log|], x);
    assert !FlushedBetween(log', i, |log|) by {
      forall k | i < k < |log| ensures !log'[k].FlushingAll? {
        assert log'[k] == log[k];
      }
    }
  }

  lemma ReadyKeepsApart(log: seq<Message>, ids: set<int>)
    requires SeparatedByFlush(log) && forall x :: x in ids ==> x !in Since(log)
    ensures SeparatedByFlush(log + [Ready(ids)])
  {
    var log' := log + [Ready(ids)];
    forall i, j, x | 0 <= i < j < |log'| && Announces(log'[i], x) && Announces(log'[j], x)
      ensures FlushedBetween(log', i, j)
    {
      assert log'[i] == log[i];
      if j < |log| {
        var k :| i < k < j && log[k].FlushingAll?;
        assert log'[k].FlushingAll?;
      } else {
        if !FlushedBetween(log, i, |log|) { SinceHas(log, i, x); }
        var k :| i < k < |log| && log[k].FlushingAll?;
        assert log'[k].FlushingAll?;
      }
    }
  }

  // ---------- What a step announces ----------

  // The request reaches the records,
  predicate IsRecorded(cfg: Config, e: Event) {
    e.Admit? && IsValidRequest(cfg, e.outputs, e.inputs) && !e.flushingBefore && e.active
  }

  // and gets its quota, so that its streams are announced.
  ghost predicate Launches(cfg: Config, s: Session, e: Event)
    requires Consistently(cfg, s)
  {
    IsRecorded(cfg, e) && Enough(cfg.quotas, s.counts, e.outputs)
  }

  ghost predicate TellsToFlush(cfg: Config, s: Session, e: Event)
    requires Consistently(cfg, s)
  {
    FlushingAll in Said(cfg, s, e)
  }

  // An admission finds nothing in flight, and forgets what was announced.
  predicate Clears(cfg: Config, s: Session, e: Event) {
    e.Admit? && IsValidRequest(cfg, e.outputs, e.inputs) && !e.flushingBefore && s.streams == map[]
  }

  // What the announcements depend on of one event,
  ghost function MarkOf(cfg: Config, s: Session, e: Event): Mark
    requires Consistently(cfg, s)
  {
    Mark(if Launches(cfg, s, e) then FoldsOf(cfg.Groups(), e.outputs) else {}, TellsToFlush(cfg, s, e),
         Clears(cfg, s, e))
  }

  // and of a run.
  ghost function Marks(cfg: Config, es: seq<Event>): seq<Mark>
    requires Folding(cfg.Groups())
  {
    if es == [] then []
    else Marks(cfg, es[..|es| - 1]) + [MarkOf(cfg, Run(cfg, es[..|es| - 1]), es[|es| - 1])]
  }

  lemma {:induction false} OneMarkEach(cfg: Config, es: seq<Event>)
    requires Folding(cfg.Groups())
    ensures |Marks(cfg, es)| == |es|
  {
    if es != [] { OneMarkEach(cfg, es[..|es| - 1]); }
  }

  lemma {:induction false} MarksAt(cfg: Config, es: seq<Event>, n: nat)
    requires Folding(cfg.Groups()) && n <= |es|
    ensures |Marks(cfg, es)| == |es| && Marks(cfg, es)[..n] == Marks(cfg, es[..n])
    ensures n < |es| ==> Marks(cfg, es)[n] == MarkOf(cfg, Run(cfg, es[..n]), es[n])
    decreases |es|
  {
    OneMarkEach(cfg, es);
    if n == |es| {
      assert es[..n] == es;
    } else {
      var front := es[..|es| - 1];
      MarksAt(cfg, front, n);
      assert front[..n] == es[..n];
      assert Marks(cfg, es) == Marks(cfg, front) + [MarkOf(cfg, Run(cfg, front), es[|es| - 1])];
    }
  }

  lemma MarksNext(cfg: Config, es: seq<Event>)
    requires Folding(cfg.Groups()) && es != []
    ensures
      var (front, e) := (es[..|es| - 1], es[|es| - 1]);
      && Marks(cfg, es) == Marks(cfg, front) + [MarkOf(cfg, Run(cfg, front), e)]
      && |Marks(cfg, es)| == |es| && Marks(cfg, es)[..|es| - 1] == Marks(cfg, front)
  {
    OneMarkEach(cfg, es[..|es| - 1]);
  }

  // They are what has been announced since, and while anything is in flight the tracker knows no
  // other streams.
  ghost predicate Tracks(cfg: Config, s: Session, l: set<int>)
    requires Consistently(cfg, s)
  {
    && Since(s.log) == Closure(cfg.Groups(), l)
    && (forall x :: x in l ==> x !in cfg.Groups())
    && (s.streams != map[] ==> s.counts.requested <= l)
  }

  lemma ClosureFolds(groups: map<int, int>, ids: set<int>)
    requires Folding(groups) && forall x :: x in ids ==> x !in groups
    ensures forall x :: x in Closure(groups, ids) <==> Fold(groups, x) in ids
  {
  }

  lemma FoldsAreFinal(groups: map<int, int>, buffers: seq<StreamBuffer>)
    requires Folding(groups)
    ensures forall x :: x in FoldsOf(groups, buffers) ==> x !in groups
  {
  }

  lemma ClosureJoins(groups: map<int, int>, l: set<int>, known: set<int>, ids: set<int>)
    requires known <= l
    ensures Closure(groups, l) + Closure(groups, ids - known) == Closure(groups, l + ids)
  {
  }

  lemma ClosuresMeet(groups: map<int, int>, l: set<int>, ids: set<int>)
    requires Folding(groups) && (forall x :: x in l ==> x !in groups) && (forall x :: x in ids ==> x !in groups)
    ensures (forall x :: x in Closure(groups, ids) ==> x !in Closure(groups, l)) <==> (forall x :: x in ids ==> x !in l)
  {
    ClosureFolds(groups, l);
    ClosureFolds(groups, ids);
    forall x | x in ids ensures x in Closure(groups, ids) && Fold(groups, x) == x {
    }
  }

  lemma EmptyClosure(groups: map<int, int>)
    ensures Closure(groups, {}) == {}
  {
  }

  // The announcement that comes with a request.
  lemma AnnouncementTracks(groups: map<int, int>, log: seq<Message>, l: set<int>, known: set<int>, ids: set<int>)
    requires Folding(groups) && Since(log) == Closure(groups, l) && known <= l
    requires (forall x :: x in l ==> x !in groups) && (forall x :: x in ids ==> x !in groups)
    ensures
      var log' := log + Announcement(Closure(groups, ids - known));
      && Since(log') == Closure(groups, l + ids)
      && (SeparatedByFlush(log') <==> SeparatedByFlush(log) && forall x :: x in ids - known ==> x !in l)
  {
    var news := Closure(groups, ids - known);
    ClosureJoins(groups, l, known, ids);
    ClosuresMeet(groups, l, ids - known);
    if news == {} {
      assert log + Announcement(news) == log;
    } else {
      SinceNext(log, Ready(news));
      SeparatedReady(log, news);
    }
  }

  lemma LaunchSays(cfg: Config, s: Session, frame: nat, outputs: seq<StreamBuffer>, inputs: seq<StreamBuffer>,
                   flushing: bool)
    ensures
      var s' := Launch(cfg, s, frame, outputs, inputs, flushing);
      && s'.log == s.log + Announcement(FirstRequested(cfg.quotas, s.counts, outputs))
                   + (if flushing then Refusal(frame, outputs, inputs) else [Submitted(frame, outputs)])
      && s'.counts.requested == s.counts.requested + FoldsOf(cfg.Groups(), outputs)
  {
  }

  lemma LaunchTracks(cfg: Config, s: Session, l: set<int>, frame: nat, outputs: seq<StreamBuffer>,
                     inputs: seq<StreamBuffer>, flushing: bool)
    requires Consistently(cfg, s) && s.counts.requested <= l
    requires Since(s.log) == Closure(cfg.Groups(), l) && forall x :: x in l ==> x !in cfg.Groups()
    ensures
      var (s', ids) := (Launch(cfg, s, frame, outputs, inputs, flushing), FoldsOf(cfg.Groups(), outputs));
      && Tracks(cfg, s', l + ids)
      && (SeparatedByFlush(s'.log) <==>
          SeparatedByFlush(s.log) && forall x :: x in ids - s.counts.requested ==> x !in l)
  {
    LaunchSays(cfg, s, frame, outputs, inputs, flushing);
    var last := if flushing then Refusal(frame, outputs, inputs) else [Submitted(frame, outputs)];
    FoldsAreFinal(cfg.Groups(), outputs);
    LogTracks(cfg.Groups(), s.log, l, s.counts.requested, FoldsOf(cfg.Groups(), outputs), last);
  }

  lemma LogTracks(groups: map<int, int>, log: seq<Message>, l: set<int>, known: set<int>, ids: set<int>,
                  last: seq<Message>)
    requires Folding(groups) && Since(log) == Closure(groups, l) && known <= l
    requires (forall x :: x in l ==> x !in groups) && (forall x :: x in ids ==> x !in groups)
    requires forall m :: m in last ==> IsNotice(m)
    ensures
      var log' := log + Announcement(Closure(groups, ids - known)) + last;
      && Since(log') == Closure(groups, l + ids)
      && (SeparatedByFlush(log') <==> SeparatedByFlush(log) && forall x :: x in ids - known ==> x !in l)
  {
    AnnouncementTracks(groups, log, l, known, ids);
    SinceNotices(log + Announcement(Closure(groups, ids - known)), last);
    SeparatedNotices(log + Announcement(Closure(groups, ids - known)), last);
  }

  // What a step has to show: the record goes on, and announcements stay apart unless a stream is
  // launched again that is not known any more.
  ghost predicate StepTracked(cfg: Config, s: Session, l: set<int>, e: Event)
    requires Consistently(cfg, s)
  {
    var m := MarkOf(cfg, s, e);
    && Tracks(cfg, Step(cfg, s, e), NextLaunched(l, m))
    && (SeparatedByFlush(Step(cfg, s, e).log) <==>
        SeparatedByFlush(s.log) && forall x :: x in m.launched && x in l ==> x in Kept(s.counts.requested, m))
  }

  lemma AdmitTellsNothing(cfg: Config, s: Session, e: Event)
    requires Consistently(cfg, s) && e.Admit? && !Launches(cfg, s, e)
    ensures !TellsToFlush(cfg, s, e) && SeparatedByFlush(Step(cfg, s, e).log) == SeparatedByFlush(s.log)
    ensures Since(Step(cfg, s, e).log) == Since(s.log)
  {
    LogGrows(cfg, s, e);
    var refusal := Refusal(e.frame, e.outputs, e.inputs);
    SinceNotices(s.log, refusal);
    SeparatedNotices(s.log, refusal);
    var said := Said(cfg, s, e);
    assert said == [] || said == refusal;
  }

  lemma LaunchTellsNothing(cfg: Config, s: Session, e: Event)
    requires Consistently(cfg, s) && Launches(cfg, s, e)
    ensures !TellsToFlush(cfg, s, e)
  {
    LogGrows(cfg, s, e);
    var news := Announcement(FirstRequested(cfg.quotas, Refreshed(s).counts, e.outputs));
    var last := if e.flushingAfter then Refusal(e.frame, e.outputs, e.inputs) else [Submitted(e.frame, e.outputs)];
    assert Step(cfg, s, e).log == s.log + news + last;
    AfterBoth(s.log, news, last);
    assert Said(cfg, s, e) == news + last;
  }

  lemma AfterBoth(log: seq<Message>, a: seq<Message>, b: seq<Message>)
    ensures (log + a + b)[|log|..] == a + b
  {
  }

  lemma AdmitTracks(cfg: Config, s: Session, l: set<int>, e: Event)
    requires Consistently(cfg, s) && Tracks(cfg, s, l) && e.Admit?
    ensures StepTracked(cfg, s, l, e)
  {
    if Launches(cfg, s, e) {
      var s1 := Register(cfg, Refreshed(s), e.frame, e.outputs);
      LaunchTellsNothing(cfg, s, e);
      LaunchTracks(cfg, s1, l, e.frame, e.outputs, e.inputs, e.flushingAfter);
      assert Kept(s.counts.requested, MarkOf(cfg, s, e)) == s1.counts.requested;
    } else {
      AdmitTellsNothing(cfg, s, e);
    }
  }

  lemma {:induction false} ErrorsAreNotices(dummies: set<nat>, frame: nat, outputs: seq<StreamBuffer>)
    ensures forall m :: m in ErrorMessages(dummies, frame, outputs) ==> IsNotice(m)
  {
    if outputs != [] { ErrorsAreNotices(dummies, frame, outputs[..|outputs| - 1]); }
  }

  // After its update of the records, a result only says notices.
  lemma ResultNotices(cfg: Config, s: Session, e: Event) returns (ms: seq<Message>)
    requires Consistently(cfg, s) && e.Result?
    ensures Step(cfg, s, e).log == Update(cfg, s, e.frame, e.outputs).log + ms && forall m :: m in ms ==> IsNotice(m)
    ensures Step(cfg, s, e).streams == Update(cfg, s, e.frame, e.outputs).streams
    ensures Step(cfg, s, e).counts.requested == s.counts.requested
  {
    var s1 := Update(cfg, s, e.frame, e.outputs);
    if IsDummyResult(s1, e.frame, e.outputs) {
      ms := DummyNotices(cfg, s1, e.frame, e.outputs);
    } else {
      ms := [ResultOut(e.frame, e.hasMetadata, e.outputs, e.inputs)];
    }
  }

  lemma DummyNotices(cfg: Config, s: Session, frame: nat, outputs: seq<StreamBuffer>) returns (ms: seq<Message>)
    ensures StepDummyResult(cfg, s, frame, outputs).log == s.log + ms && forall m :: m in ms ==> IsNotice(m)
    ensures StepDummyResult(cfg, s, frame, outputs).streams == s.streams
    ensures StepDummyResult(cfg, s, frame, outputs).counts.requested == s.counts.requested
  {
    ErrorsAreNotices(s.dummies, frame, outputs);
    var fail := DummySays(cfg, s, frame, outputs);
    ms := fail + ErrorMessages(s.dummies, frame, outputs);
    assert s.log + fail + ErrorMessages(s.dummies, frame, outputs) == s.log + ms;
  }

  // The cache manager is told to flush when the last frame in flight is settled.
  lemma FlushingMeansEmpty(cfg: Config, s: Session, e: Event)
    requires Consistently(cfg, s) && e.Result?
    ensures TellsToFlush(cfg, s, e) <==> s.streams != map[] && Step(cfg, s, e).streams == map[]
    ensures TellsToFlush(cfg, s, e) <==> Update(cfg, s, e.frame, e.outputs).log == s.log + [FlushingAll]
    ensures !TellsToFlush(cfg, s, e) ==> Update(cfg, s, e.frame, e.outputs).log == s.log
  {
    LogGrows(cfg, s, e);
    var ms := ResultNotices(cfg, s, e);
    assert FlushingAll !in ms;
    var s1 := Update(cfg, s, e.frame, e.outputs);
    if s1.log == s.log {
      assert Said(cfg, s, e) == ms;
    } else {
      assert s1.log == s.log + [FlushingAll];
      assert Said(cfg, s, e)[0] == FlushingAll;
    }
  }

  lemma ResultTracks(cfg: Config, s: Session, l: set<int>, e: Event)
    requires Consistently(cfg, s) && Tracks(cfg, s, l) && e.Result?
    ensures StepTracked(cfg, s, l, e)
  {
    var s1 := Update(cfg, s, e.frame, e.outputs);
    var ms := ResultNotices(cfg, s, e);
    FlushingMeansEmpty(cfg, s, e);
    SinceNext(s.log, FlushingAll);
    SeparatedNotices(s.log, [FlushingAll]);
    EmptyClosure(cfg.Groups());
    SinceNotices(s1.log, ms);
    SeparatedNotices(s1.log, ms);
  }

  // Any other event says at most one notice and leaves the records.
  lemma OtherNotices(cfg: Config, s: Session, e: Event) returns (ms: seq<Message>)
    requires Consistently(cfg, s) && !e.Admit? && !e.Result?
    ensures Step(cfg, s, e).log == s.log + ms && forall m :: m in ms ==> IsNotice(m)
    ensures Step(cfg, s, e).streams == s.streams && Step(cfg, s, e).counts.requested == s.counts.requested
  {
    ms := [];
    if Step(cfg, s, e).log == s.log {
      assert s.log + [] == s.log;
    } else {
      ms := [Step(cfg, s, e).log[|s.log|]];
    }
  }

  lemma OtherTellsNothing(cfg: Config, s: Session, e: Event)
    requires Consistently(cfg, s) && !e.Admit? && !e.Result?
    ensures !TellsToFlush(cfg, s, e)
  {
    var ms := OtherNotices(cfg, s, e);
    LogGrows(cfg, s, e);
    assert Said(cfg, s, e) == ms;
  }

  lemma OtherTracks(cfg: Config, s: Session, l: set<int>, e: Event)
    requires Consistently(cfg, s) && Tracks(cfg, s, l) && !e.Admit? && !e.Result?
    ensures StepTracked(cfg, s, l, e)
  {
    OtherTellsNothing(cfg, s, e);
    var ms := OtherNotices(cfg, s, e);
    SinceNotices(s.log, ms);
    SeparatedNotices(s.log, ms);
  }

  lemma StepTracks(cfg: Config, s: Session, l: set<int>, e: Event)
    requires Consistently(cfg, s) && Tracks(cfg, s, l)
    ensures StepTracked(cfg, s, l, e)
  {
    if e.Admit? { AdmitTracks(cfg, s, l, e); }
    else if e.Result? { ResultTracks(cfg, s, l, e); }
    else { OtherTracks(cfg, s, l, e); }
  }

  // What the tracker knows to be requested.
  lemma StepKnown(cfg: Config, s: Session, e: Event)
    requires Consistently(cfg, s)
    ensures Step(cfg, s, e).counts.requested == NextKnown(s.counts.requested, MarkOf(cfg, s, e))
  {
    if e.Result? { var ms := ResultNotices(cfg, s, e); }
    else if !e.Admit? { var ms := OtherNotices(cfg, s, e); }
  }

  lemma {:induction false} RunTracks(cfg: Config, es: seq<Event>)
    requires Folding(cfg.Groups())
    ensures Tracks(cfg, Run(cfg, es), Launched(Marks(cfg, es)))
    ensures Run(cfg, es).counts.requested == Known(Marks(cfg, es))
  {
    if es == [] {
      EmptyClosure(cfg.Groups());
    } else {
      var front, e := es[..|es| - 1], es[|es| - 1];
      RunTracks(cfg, front);
      StepTracks(cfg, Run(cfg, front), Launched(Marks(cfg, front)), e);
      StepKnown(cfg, Run(cfg, front), e);
      MarksNext(cfg, es);
    }
  }

  // ---------- Which runs announce a stream twice ----------

  lemma {:induction false} FlushesLaunchNothing(cfg: Config, es: seq<Event>)
    requires Folding(cfg.Groups())
    ensures forall m :: m in Marks(cfg, es) && m.flush ==> m.launched == {}
  {
    if es != [] {
      var s, e := Run(cfg, es[..|es| - 1]), es[|es| - 1];
      FlushesLaunchNothing(cfg, es[..|es| - 1]);
      MarksNext(cfg, es);
      if Launches(cfg, s, e) { LaunchTellsNothing(cfg, s, e); }
    }
  }

  // One event more keeps the announcements apart unless it repeats one.
  lemma SeparatedNext(cfg: Config, es: seq<Event>, e: Event)
    requires Folding(cfg.Groups())
    ensures
      var ms := Marks(cfg, es) + [MarkOf(cfg, Run(cfg, es), e)];
      SeparatedByFlush(Step(cfg, Run(cfg, es), e).log) <==>
      SeparatedByFlush(Run(cfg, es).log) && !exists x :: LastRepeats(ms, x)
  {
    RunTracks(cfg, es);
    StepTracks(cfg, Run(cfg, es), Launched(Marks(cfg, es)), e);
    LastRepeatsIs(Marks(cfg, es), MarkOf(cfg, Run(cfg, es), e));
  }

  // Between two flushes of the cache manager each stream is announced at most once, exactly in the
  // runs in which no two launched requests share a stream, with no flush in between, and with nothing
  // in flight at an admission after the first of them, up to the second.
  lemma {:induction false} AnnouncedOncePerFlush(cfg: Config, es: seq<Event>)
    requires Folding(cfg.Groups())
    ensures SeparatedByFlush(Run(cfg, es).log) <==> !Repeats(Marks(cfg, es))
  {
    if es != [] {
      var front, e := es[..|es| - 1], es[|es| - 1];
      AnnouncedOncePerFlush(cfg, front);
      SeparatedNext(cfg, front, e);
      FlushesLaunchNothing(cfg, es);
      MarksNext(cfg, es);
      RepeatsNext(Marks(cfg, es));
    }
  }

  // ---------- Where the pairs come from ----------

  // A flush overtakes the only request in flight while it waits for its quota: the records are
  // empty again and the cache manager is not told.
  ghost predicate Strands(cfg: Config, s: Session, e: Event)
    requires Consistently(cfg, s)
  {
    Launches(cfg, s, e) && e.flushingAfter && s.streams.Keys <= {e.frame}
  }

  ghost predicate NeverStrands(cfg: Config, es: seq<Event>)
    requires Folding(cfg.Groups())
  {
    es != [] ==>
      && NeverStrands(cfg, es[..|es| - 1])
      && !Strands(cfg, Run(cfg, es[..|es| - 1]), es[|es| - 1])
  }

  lemma OthersLeft(s: Session, s1: Session, frame: nat)
    requires !(s.streams.Keys <= {frame}) && s.streams.Keys <= s1.streams.Keys
    ensures s1.streams - {frame} != map[]
  {
    var f :| f in s.streams && f != frame;
    assert f in s1.streams - {frame};
  }

  // Nothing in flight means nothing launched since the flush.
  lemma StepUnstranded(cfg: Config, s: Session, l: set<int>, e: Event)
    requires Consistently(cfg, s) && (s.streams == map[] ==> l == {}) && !Strands(cfg, s, e)
    ensures Step(cfg, s, e).streams == map[] ==> NextLaunched(l, MarkOf(cfg, s, e)) == {}
  {
    if e.Admit? {
      if Launches(cfg, s, e) && e.flushingAfter {
        OthersLeft(s, Register(cfg, Refreshed(s), e.frame, e.outputs), e.frame);
      }
    } else if e.Result? {
      FlushingMeansEmpty(cfg, s, e);
    } else {
      var ms := OtherNotices(cfg, s, e);
    }
  }

  lemma {:induction false} RunUnstranded(cfg: Config, es: seq<Event>)
    requires Folding(cfg.Groups()) && NeverStrands(cfg, es)
    ensures Run(cfg, es).streams == map[] ==> Launched(Marks(cfg, es)) == {}
  {
    if es != [] {
      var front := es[..|es| - 1];
      RunUnstranded(cfg, front);
      StepUnstranded(cfg, Run(cfg, front), Launched(Marks(cfg, front)), es[|es| - 1]);
      MarksNext(cfg, es);
    }
  }

  lemma {:induction false} NeverStrandsBefore(cfg: Config, es: seq<Event>, n: nat)
    requires Folding(cfg.Groups()) && NeverStrands(cfg, es) && n <= |es|
    ensures NeverStrands(cfg, es[..n])
    decreases |es|
  {
    if n == |es| {
      assert es[..n] == es;
    } else {
      NeverStrandsBefore(cfg, es[..|es| - 1], n);
      assert es[..|es| - 1][..n] == es[..n];
    }
  }

  lemma PairIsStranded(cfg: Config, es: seq<Event>, i: nat, j: nat, k: nat, x: int)
    requires Folding(cfg.Groups()) && i < k <= j < |es|
    requires
      var ms := Marks(cfg, es);
      |ms| == |es| && x in ms[i].launched && !ms[i].flush && NoFlush(ms, i, j) && ms[k].clear
    ensures !NeverStrands(cfg, es)
  {
    LaunchedBefore(Marks(cfg, es), i, j, k, x);
    MarksAt(cfg, es, k);
    if NeverStrands(cfg, es) {
      NeverStrandsBefore(cfg, es, k);
      RunUnstranded(cfg, es[..k]);
    }
  }

  // There are none in a run in which no flush overtakes the only request in flight.
  lemma UnstrandedIsSeparated(cfg: Config, es: seq<Event>)
    requires Folding(cfg.Groups()) && NeverStrands(cfg, es)
    ensures SeparatedByFlush(Run(cfg, es).log)
  {
    AnnouncedOncePerFlush(cfg, es);
    FlushesLaunchNothing(cfg, es);
    OneMarkEach(cfg, es);
    if Repeats(Marks(cfg, es)) {
      var i, j, k, x := SomePair(Marks(cfg, es));
      PairIsStranded(cfg, es, i, j, k, x);
    }
  }

  lemma StaysEmpty(cfg: Config, s: Session, e: Event)
    requires Consistently(cfg, s) && s.streams == map[] && !IsRecorded(cfg, e)
    ensures Step(cfg, s, e).streams == map[]
  {
    if e.Result? { var ms := ResultNotices(cfg, s, e); }
  }

  lemma RunTo(cfg: Config, es: seq<Event>, n: nat)
    requires Folding(cfg.Groups()) && n < |es|
    ensures Run(cfg, es[..n + 1]) == Step(cfg, Run(cfg, es[..n]), es[n])
  {
    assert es[..n + 1][..n] == es[..n];
  }

  // Once nothing is in flight, the first request to be recorded finds the records empty.
  lemma {:induction false} FirstClears(cfg: Config, es: seq<Event>, n: nat) returns (k: nat)
    requires Folding(cfg.Groups()) && n < |es| && Run(cfg, es[..n]).streams == map[]
    requires IsRecorded(cfg, es[|es| - 1])
    ensures n <= k < |es| && Clears(cfg, Run(cfg, es[..k]), es[k])
    decreases |es| - n
  {
    if IsRecorded(cfg, es[n]) {
      k := n;
    } else {
      RunTo(cfg, es, n);
      StaysEmpty(cfg, Run(cfg, es[..n]), es[n]);
      k := FirstClears(cfg, es, n + 1);
    }
  }

  lemma StrandedEmpties(cfg: Config, s: Session, e: Event)
    requires Consistently(cfg, s) && Strands(cfg, s, e)
    ensures Step(cfg, s, e).streams == map[]
  {
    var s1 := Register(cfg, Refreshed(s), e.frame, e.outputs);
    assert s1.streams.Keys <= {e.frame};
    assert s1.streams - {e.frame} == map[];
  }

  lemma ClearedAfterStranding(cfg: Config, es: seq<Event>, n: nat) returns (k: nat)
    requires Folding(cfg.Groups()) && n < |es| - 1 && Strands(cfg, Run(cfg, es[..n]), es[n])
    requires IsRecorded(cfg, es[|es| - 1])
    ensures n < k < |es| && Clears(cfg, Run(cfg, es[..k]), es[k])
  {
    StrandedEmpties(cfg, Run(cfg, es[..n]), es[n]);
    RunTo(cfg, es, n);
    k := FirstClears(cfg, es, n + 1);
  }

  lemma ClearsIsMarked(cfg: Config, es: seq<Event>, k: nat)
    requires Folding(cfg.Groups()) && k < |es| && Clears(cfg, Run(cfg, es[..k]), es[k])
    ensures k < |Marks(cfg, es)| && Marks(cfg, es)[k].clear
  {
    MarksAt(cfg, es, k);
  }

  lemma LaunchedIsRecorded(cfg: Config, es: seq<Event>, i: nat, x: int)
    requires Folding(cfg.Groups()) && i < |es| && LaunchedAt(Marks(cfg, es), i, x)
    ensures IsRecorded(cfg, es[i])
  {
    MarksAt(cfg, es, i);
  }

  lemma StrandedIsCleared(cfg: Config, es: seq<Event>, n: nat, x: int)
    requires Folding(cfg.Groups()) && n < |es| - 1 && Strands(cfg, Run(cfg, es[..n]), es[n])
    requires LaunchedAt(Marks(cfg, es), |es| - 1, x)
    ensures ClearedIn(Marks(cfg, es), n, |es| - 1)
  {
    LaunchedIsRecorded(cfg, es, |es| - 1, x);
    var k := ClearedAfterStranding(cfg, es, n);
    ClearsIsMarked(cfg, es, k);
  }

  // The `n`-th and the last event launch requests for stream `x`, with no flush in between.
  ghost predicate LaunchesAgain(cfg: Config, es: seq<Event>, n: nat, x: int)
    requires Folding(cfg.Groups()) && es != []
  {
    var ms := Marks(cfg, es);
    LaunchedAt(ms, n, x) && LaunchedAt(ms, |es| - 1, x) && NoFlush(ms, n, |es| - 1)
  }

  lemma LaunchesAgainRepeats(cfg: Config, es: seq<Event>, n: nat, x: int)
    requires Folding(cfg.Groups()) && n < |es| - 1 && LaunchesAgain(cfg, es, n, x)
    requires ClearedIn(Marks(cfg, es), n, |es| - 1)
    ensures !SeparatedByFlush(Run(cfg, es).log)
  {
    PairRepeats(Marks(cfg, es), n, |es| - 1, x);
    AnnouncedOncePerFlush(cfg, es);
  }

  // Whenever a flush does overtake the only request in flight, at `n`, any later request for one of its
  // streams makes the stream announced twice, unless the cache manager is told to flush in between.
  lemma StrandedIsReannounced(cfg: Config, es: seq<Event>, n: nat, x: int)
    requires Folding(cfg.Groups()) && n < |es| - 1 && Strands(cfg, Run(cfg, es[..n]), es[n])
    requires LaunchesAgain(cfg, es, n, x)
    ensures !SeparatedByFlush(Run(cfg, es).log)
  {
    assert ClearedIn(Marks(cfg, es), n, |es| - 1) by {
      StrandedIsCleared(cfg, es, n, x);
    }
    LaunchesAgainRepeats(cfg, es, n, x);
  }

  // ---------- After a flush ----------

  // Nothing is known to be announced once the records have been found empty.
  ghost predicate Forgotten(s: Session) {
    s.streams == map[] || s.counts.requested == {}
  }

  lemma ForgottenStays(cfg: Config, s: Session, e: Event)
    requires Consistently(cfg, s) && Forgotten(s) && !Launches(cfg, s, e)
    ensures Forgotten(Step(cfg, s, e))
  {
    StepKnown(cfg, s, e);
    if s.streams == map[] && !Clears(cfg, s, e) { StaysEmpty(cfg, s, e); }
  }

  lemma {:induction false} QuietForgets(cfg: Config, es: seq<Event>, n: nat)
    requires Folding(cfg.Groups()) && n <= |es| && Forgotten(Run(cfg, es[..n]))
    requires forall i :: n <= i < |es| ==> !Launches(cfg, Run(cfg, es[..i]), es[i])
    ensures Forgotten(Run(cfg, es))
    decreases |es| - n
  {
    if n == |es| {
      assert es[..n] == es;
    } else {
      RunTo(cfg, es, n);
      ForgottenStays(cfg, Run(cfg, es[..n]), es[n]);
      QuietForgets(cfg, es, n + 1);
    }
  }

  lemma LaunchSaysAll(cfg: Config, s: Session, e: Event)
    requires Consistently(cfg, s) && Launches(cfg, s, e) && Forgotten(s)
    ensures
      var said := Said(cfg, s, e);
      |said| > 0 && said[0] == Ready(Closure(cfg.Groups(), FoldsOf(cfg.Groups(), e.outputs)))
  {
    var ids := FoldsOf(cfg.Groups(), e.outputs);
    assert Fold(cfg.Groups(), e.outputs[0].streamId) in ids;
    assert ids - {} == ids;
    LogGrows(cfg, s, e);
    assert Step(cfg, s, e).log[|s.log|] == Ready(Closure(cfg.Groups(), ids));
  }

  lemma OnlyResultsFlush(cfg: Config, s: Session, e: Event)
    requires Consistently(cfg, s) && TellsToFlush(cfg, s, e)
    ensures e.Result?
  {
    if e.Admit? {
      if Launches(cfg, s, e) { LaunchTellsNothing(cfg, s, e); } else { AdmitTellsNothing(cfg, s, e); }
    } else if !e.Result? {
      OtherTellsNothing(cfg, s, e);
    }
  }

  // After the cache manager has been told to flush, at `n`, the next request to be launched announces
  // every stream it uses and all members of their groups, whatever happens in between.
  lemma NextRequestAnnouncesAll(cfg: Config, es: seq<Event>, n: nat, b: Event)
    requires Folding(cfg.Groups()) && n < |es| && TellsToFlush(cfg, Run(cfg, es[..n]), es[n])
    requires forall i :: n < i < |es| ==> !Launches(cfg, Run(cfg, es[..i]), es[i])
    requires Launches(cfg, Run(cfg, es), b)
    ensures
      var said := Said(cfg, Run(cfg, es), b);
      && |said| > 0 && said[0].Ready?
      && forall x :: x in said[0].streams <==>
           exists o :: o in b.outputs && Fold(cfg.Groups(), x) == Fold(cfg.Groups(), o.streamId)
  {
    RunTo(cfg, es, n);
    OnlyResultsFlush(cfg, Run(cfg, es[..n]), es[n]);
    FlushingMeansEmpty(cfg, Run(cfg, es[..n]), es[n]);
    QuietForgets(cfg, es, n + 1);
    LaunchSaysAll(cfg, Run(cfg, es), b);
    FoldsAreFinal(cfg.Groups(), b.outputs);
    ClosureFolds(cfg.Groups(), FoldsOf(cfg.Groups(), b.outputs));
  }
}
