// Short runs of the session that fail in the ways the other modules characterise.
module SessionExamples {
  import opened HalTypes
  import opened StreamGroups
  import opened RequestsTracker
  import opened SessionModel
  import opened SessionCoupling
  import opened SessionErrors
  import opened SessionReadiness
  import opened SessionQuotas
  import opened SessionAcquired

  // One stream, 1, with a maximum of one buffer.
  const ONE: Config := Config(Quotas(map[], map[1 := 1]), {1})

  const BUFFER := StreamBuffer(1, 10, 20, BufferOk)
  const INPUT := StreamBuffer(1, 11, 21, BufferOk)
  const DUMMY := StreamBuffer(1, 0, 7, BufferOk)

  function Request(frame: nat, flushing: bool): Event {
    Admit(frame, [BUFFER], [], false, true, flushing)
  }

  lemma RunNext(cfg: Config, es: seq<Event>, e: Event)
    requires Folding(cfg.Groups())
    ensures Run(cfg, es + [e]) == Step(cfg, Run(cfg, es), e)
    ensures RunLedger(cfg, es + [e]) == StepLedger(cfg, Run(cfg, es), RunLedger(cfg, es), e)
    ensures LawfulRun(cfg, es + [e]) <==> LawfulRun(cfg, es) && Lawful(Run(cfg, es), RunLedger(cfg, es), e)
    ensures HonestRun(cfg, es + [e]) <==> HonestRun(cfg, es) && ReturnsHeld(Run(cfg, es), RunLedger(cfg, es), e)
  {
    assert (es + [e])[..|es|] == es;
  }

  lemma CountOne(b: StreamBuffer, id: int)
    ensures CountOn(map[], [b], id) == One(b.streamId == id)
    ensures FoldsOf(map[], [b]) == {b.streamId}
  {
    assert [b][..0] == [];
    assert b in [b];
  }

  lemma ReservedOne(r: Reservation, id: int)
    ensures ReservedOn(map[], [r], id) == if r.stream == id then r.n else 0
    ensures Without([r], r) == []
  {
    assert [r][..0] == [];
  }

  const RESERVED: Session := Initial(ONE).(counts := Counts(map[1 := 0], map[1 := 1], {}))

  lemma OneReserved()
    ensures Run(ONE, [Reserve(1, 1)]) == RESERVED && RunLedger(ONE, [Reserve(1, 1)]) == Ledger([Reservation(1, 1)], [])
    ensures LawfulRun(ONE, [Reserve(1, 1)])
  {
    RunNext(ONE, [], Reserve(1, 1));
    assert [] + [Reserve(1, 1)] == [Reserve(1, 1)];
    assert Initial(ONE).counts.acquired == map[1 := 0] && map[1 := 0][1 := 1] == map[1 := 1];
  }

  // One buffer is reserved and obtained.
  lemma OneObtained()
    ensures
      var es := [Reserve(1, 1)] + [Obtain(1, [BUFFER])];
      LawfulRun(ONE, es) && RunLedger(ONE, es) == Ledger([], [BUFFER]) && Run(ONE, es) == RESERVED
  {
    OneReserved();
    RunNext(ONE, [Reserve(1, 1)], Obtain(1, [BUFFER]));
    ReservedOne(Reservation(1, 1), 1);
    assert Identities([BUFFER]) == [BUFFER];
  }

  // Giving a dummy back takes nothing from what is held.
  lemma DummyIsStray()
    ensures WithoutAll([BUFFER], Identities([DUMMY])) == [BUFFER]
    ensures !(multiset(Identities([DUMMY])) <= multiset([BUFFER]))
  {
    var ids := Identities([DUMMY]);
    assert ids == [DUMMY] && ids[..0] == [] && [BUFFER][..0] == [];
    assert Without([BUFFER], DUMMY) == Without([], DUMMY) + [BUFFER];
    assert WithoutAll([BUFFER], ids) == Without(WithoutAll([BUFFER], []), DUMMY);
    assert multiset(ids)[DUMMY] == 1 && multiset([BUFFER])[DUMMY] == 0;
  }

  const OBSERVED := [Reserve(1, 1)] + [Obtain(1, [BUFFER])] + [Dummy(7)]

  lemma DummyObserved()
    ensures LawfulRun(ONE, OBSERVED) && RunLedger(ONE, OBSERVED) == Ledger([], [BUFFER])
    ensures Run(ONE, OBSERVED) == RESERVED.(dummies := {7})
  {
    OneObtained();
    RunNext(ONE, [Reserve(1, 1)] + [Obtain(1, [BUFFER])], Dummy(7));
  }

  lemma DummyCounts()
    ensures
      var s, l, e := RESERVED.(dummies := {7}), Ledger([], [BUFFER]), GiveBack([DUMMY]);
      var s' := Step(ONE, s, e);
      && s'.counts.acquired[1] == 0 && StepLedger(ONE, s, l, e) == l && OutOn(map[], l, 1) == 1
      && OutOn(map[], StepLedger(ONE, s', l, Reserve(1, 1)), 1) == 2
  {
    DummyIsStray();
    CountOne(DUMMY, 1);
    CountOne(BUFFER, 1);
    assert [] + [Reservation(1, 1)] == [Reservation(1, 1)];
    ReservedOne(Reservation(1, 1), 1);
  }

  lemma DummyIsDishonest()
    ensures
      var s, l, e := RESERVED.(dummies := {7}), Ledger([], [BUFFER]), GiveBack([DUMMY]);
      Lawful(s, l, e) && !ReturnsHeld(s, l, e)
  {
    DummyIsStray();
  }

  // What one return and one reservation do, whatever the states are.
  lemma OverdrawSteps(es: seq<Event>, e: Event, s: Session, l: Ledger, s': Session)
    requires Run(ONE, es) == s && RunLedger(ONE, es) == l && LawfulRun(ONE, es)
    requires Step(ONE, s, e) == s' && StepLedger(ONE, s, l, e) == l && Lawful(s, l, e) && !ReturnsHeld(s, l, e)
    ensures Run(ONE, es + [e]) == s' && RunLedger(ONE, es + [e]) == l
    ensures LawfulRun(ONE, es + [e]) && !HonestRun(ONE, es + [e])
    ensures RunLedger(ONE, es + [e] + [Reserve(1, 1)]) == StepLedger(ONE, s', l, Reserve(1, 1))
  {
    RunNext(ONE, es, e);
    RunNext(ONE, es + [e], Reserve(1, 1));
  }

  // A dummy buffer given back is counted as if it came from the framework: one buffer is still out,
  // the count says none, and the next reservation overdraws the stream.
  lemma GivenBackOverdraws(es: seq<Event>, s: Session, l: Ledger)
    requires LawfulRun(ONE, es) && RunLedger(ONE, es) == l == Ledger([], [BUFFER])
    requires Run(ONE, es) == s == RESERVED.(dummies := {7})
    ensures
      var es' := es + [GiveBack([DUMMY])];
      && LawfulRun(ONE, es') && !HonestRun(ONE, es')
      && Run(ONE, es').counts.acquired[1] == 0
      && OutOn(map[], RunLedger(ONE, es'), 1) == 1
      && OutOn(map[], RunLedger(ONE, es' + [Reserve(1, 1)]), 1) == 2 > ONE.quotas.max[1]
  {
    DummyIsDishonest();
    DummyCounts();
    OverdrawSteps(es, GiveBack([DUMMY]), s, l, Step(ONE, s, GiveBack([DUMMY])));
  }

  lemma DummyGivenBackOverdraws()
    ensures
      var es := OBSERVED + [GiveBack([DUMMY])];
      && LawfulRun(ONE, es) && !HonestRun(ONE, es)
      && Run(ONE, es).counts.acquired[1] == 0
      && OutOn(map[], RunLedger(ONE, es), 1) == 1
      && OutOn(map[], RunLedger(ONE, es + [Reserve(1, 1)]), 1) == 2 > ONE.quotas.max[1]
  {
    DummyObserved();
    GivenBackOverdraws(OBSERVED, Run(ONE, OBSERVED), RunLedger(ONE, OBSERVED));
  }

  // A result with a buffer that was never acquired takes a reservation out of the count, and taking
  // that reservation back wraps the count around.
  lemma NeverAcquiredUnderflows()
    ensures
      var es := [Reserve(1, 1)] + [Result(0, false, [BUFFER], [])];
      && LawfulRun(ONE, es + [Unreserve(1, 1)])
      && Underflows(ONE, Run(ONE, es), Unreserve(1, 1))
      && Run(ONE, es + [Unreserve(1, 1)]).counts.acquired[1] == TWO_TO_THE_32 - 1
  {
    var e := Result(0, false, [BUFFER], []);
    OneReserved();
    RunNext(ONE, [Reserve(1, 1)], e);
    NeverAcquiredCounts(e);
    RunNext(ONE, [Reserve(1, 1)] + [e], Unreserve(1, 1));
    assert (0 - 1) % TWO_TO_THE_32 == TWO_TO_THE_32 - 1;
  }

  lemma NeverAcquiredCounts(e: Event)
    requires e == Result(0, false, [BUFFER], [])
    ensures Step(ONE, RESERVED, e).counts.acquired == map[1 := 0]
    ensures StepLedger(ONE, RESERVED, Ledger([Reservation(1, 1)], []), e).open == [Reservation(1, 1)]
  {
    CountOne(BUFFER, 1);
    ResultCounts(ONE, RESERVED, e);
    assert [BUFFER][..0] == [];
    assert Real({}, [BUFFER]) == [BUFFER];
  }

  // The first of two requests, launched.
  lemma FirstLaunched()
    ensures
      var s := Run(ONE, [Request(0, false)]);
      s.streams == map[0 := {1}] && s.counts.pending == map[1 := 1]
  {
    RunNext(ONE, [], Request(0, false));
    assert [] + [Request(0, false)] == [Request(0, false)];
    CountOne(BUFFER, 1);
    assert Enough(ONE.quotas, Initial(ONE).counts, [BUFFER]);
    assert {} + {1} == {1};
  }

  // The second request times out: the session's record has both frames, the tracker counts one.
  lemma TimedOutUncouples()
    ensures
      var es := [Request(0, false)] + [Request(1, false)];
      && TimesOut(ONE, Run(ONE, [Request(0, false)]), Request(1, false))
      && Run(ONE, es).counts.pending[1] == 1 && Holders(Run(ONE, es).streams, 1) == {0, 1}
      && !Coupled(ONE, Run(ONE, es))
  {
    FirstLaunched();
    RunNext(ONE, [Request(0, false)], Request(1, false));
    CountOne(BUFFER, 1);
    var s := Run(ONE, [Request(0, false)]);
    assert BUFFER in [BUFFER];
    assert {} + {1} == {1};
    var s' := Run(ONE, [Request(0, false)] + [Request(1, false)]);
    assert s'.streams == map[0 := {1}, 1 := {1}];
    assert |Holders(s'.streams, 1)| == |{0, 1}| == 2;
  }

  // A flush overtakes the only request, and the next one announces the stream again.
  lemma FlushedIsReannounced()
    ensures
      var es := [Request(0, true)] + [Request(1, false)];
      Strands(ONE, Initial(ONE), es[0]) && !SeparatedByFlush(Run(ONE, es).log)
  {
    var a, b := Request(0, true), Request(1, false);
    var es := [a] + [b];
    CountOne(BUFFER, 1);
    assert Enough(ONE.quotas, Initial(ONE).counts, [BUFFER]);
    assert es[..0] == [] && es[..1] == [a];
    MarksAt(ONE, es, 0);
    MarksAt(ONE, es, 1);
    FlushedCounts();
    StrandedIsReannounced(ONE, es, 0, 1);
  }

  lemma FlushedCounts()
    ensures Enough(ONE.quotas, Run(ONE, [Request(0, true)]).counts, [BUFFER])
  {
    var a := Request(0, true);
    CountOne(BUFFER, 1);
    assert Enough(ONE.quotas, Initial(ONE).counts, [BUFFER]);
    RunNext(ONE, [], a);
    assert [] + [a] == [a];
    assert Run(ONE, [a]).counts.pending[1] == 0;
  }

  // A result with a dummy buffer: the framework gets neither the metadata nor the input buffer.
  lemma DummyResultDrops()
    ensures
      var s := Run(ONE, [Dummy(7)]);
      var said := Said(ONE, s, Result(0, true, [DUMMY], [INPUT]));
      InputsOf(said) == [] && Tally(said, 0, MetadataResult) == 0
  {
    RunNext(ONE, [], Dummy(7));
    assert [] + [Dummy(7)] == [Dummy(7)];
    var s, e := Run(ONE, [Dummy(7)]), Result(0, true, [DUMMY], [INPUT]);
    assert 7 in s.dummies && DUMMY in [DUMMY];
    assert IsDummyResult(s, 0, [DUMMY]);
    ResultBuffersReach(ONE, s, e, 1, 0);
  }
}
