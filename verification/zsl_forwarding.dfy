// When a ZSL frame is forwarded to the process block: once, at the first moment it is complete, with
// all that has been collected; and never if its error came first.
module ZslForwarding {
  import opened HalTypes
  import opened StreamBuffers
  import opened ZslModel
  import opened ZslRuns

  datatype Piece = Piece(metadata: seq<nat>, early: bool)

  // What an undisturbed frame has collected.
  datatype Totals = Totals(
    zsl: bool,
    expected: int,
    outputs: seq<StreamBuffer>,
    inputs: seq<StreamBuffer>,
    pieces: seq<Piece>)

  function Collected(cfg: Config, f: nat, es: seq<Event>): Option<Totals> {
    if es == [] then None
    else
      var before, e := Collected(cfg, f, es[..|es| - 1]), es[|es| - 1];
      if e.frame != f then before
      else
        match e
        case Register(_, bufferCount, previewIntent) => Some(Totals(!previewIntent, bufferCount, [], [], []))
        case Arrival(_, r) => if before.Some? then Some(Added(cfg, before.value, r)) else None
        case Failure(_, _) => before
  }

  function Added(cfg: Config, t: Totals, r: Result): Totals {
    Totals(
      t.zsl || Within(r.outputs, {cfg.zslStream}) != [],
      t.expected,
      Outside(r.outputs, {cfg.zslStream}) + t.outputs,
      r.inputs + t.inputs,
      if r.metadata.Some? then t.pieces + [Piece(r.metadata.value, r.partial < cfg.partialResultCount)] else t.pieces)
  }

  // The raw buffer if one is expected, all framework buffers and all partial results are in.
  predicate IsComplete(cfg: Config, t: Totals) {
    t.zsl && t.expected == |t.outputs| && |t.pieces| == cfg.partialResultCount
  }

  // What had been collected when a result of the frame first completed it.
  function FirstComplete(cfg: Config, f: nat, es: seq<Event>): Option<Totals> {
    if es == [] then None
    else
      var before, e := FirstComplete(cfg, f, es[..|es| - 1]), es[|es| - 1];
      if before.Some? then before
      else if e.Arrival? && e.frame == f && Collected(cfg, f, es).Some? && IsComplete(cfg, Collected(cfg, f, es).value)
      then Collected(cfg, f, es)
      else None
  }

  // The metadata that is kept: from the last early piece on.
  function Kept(pieces: seq<Piece>): seq<nat> {
    if pieces == [] then []
    else
      var last := pieces[|pieces| - 1];
      if last.early then last.metadata else Kept(pieces[..|pieces| - 1]) + last.metadata
  }

  function KeptOf(t: Totals): Option<seq<nat>> {
    if t.pieces == [] then None else Some(Kept(t.pieces))
  }

  // Results come only for registered frames, and the frame has no error that fails it.
  ghost predicate Undisturbed(cfg: Config, f: nat, es: seq<Event>) {
    es != [] ==>
      var before, e := es[..|es| - 1], es[|es| - 1];
      && Undisturbed(cfg, f, before)
      && (e.frame == f ==>
            && (e.Arrival? ==> Collected(cfg, f, before).Some?)
            && (e.Failure? ==> e.code != ErrorRequest && e.code != ErrorBuffer
                               && !DereferencesNull(Run(cfg, f, before), e.code)))
  }

  // ---------- At most once ----------

  // The frame has been dealt with: whatever still comes for it waits for more buffers than can come.
  ghost predicate Spent(es: seq<Event>, f: nat, s: FrameState) {
    Started(es, f) && (s.pending.Some? ==> s.pending.value.expected == INT_MAX)
  }

  lemma PendingFits(cfg: Config, f: nat, es: seq<Event>)
    requires Orderly(es, f)
    ensures |PendingEntry(Run(cfg, f, es)).outputs| <= |Received(cfg, f, es)|
  {
    OutputsConserved(cfg, f, es);
    var s := Run(cfg, f, es);
    assert |Places(s)| == |PendingEntry(s).outputs| + |Delivered(s.log.delivered)| + |Forwarded(s.log.forwarded)|;
  }

  lemma ReceivedLast(cfg: Config, f: nat, es: seq<Event>)
    requires es != [] && es[|es| - 1].Arrival? && es[|es| - 1].frame == f
    ensures |Received(cfg, f, es)| ==
            |Received(cfg, f, es[..|es| - 1])| + |Outside(es[|es| - 1].result.outputs, {cfg.zslStream})|
  {
  }

  // A frame that is dealt with is not forwarded again.
  lemma SpentStep(cfg: Config, f: nat, es: seq<Event>)
    requires es != [] && Orderly(es, f) && |Received(cfg, f, es)| < INT_MAX
    requires Spent(es[..|es| - 1], f, Run(cfg, f, es[..|es| - 1]))
    ensures Spent(es, f, Run(cfg, f, es))
    ensures Run(cfg, f, es).log.forwarded == Run(cfg, f, es[..|es| - 1]).log.forwarded
  {
    var before, e := es[..|es| - 1], es[|es| - 1];
    StartedLast(es, f);
    if e.frame == f {
      if e.Arrival? {
        PendingFits(cfg, f, before);
        ReceivedLast(cfg, f, es);
        SpentArrival(cfg, Run(cfg, f, before), e.result);
      } else if e.Failure? {
        SpentFailure(cfg, Run(cfg, f, before), e.code);
      }
    }
  }

  lemma SpentArrival(cfg: Config, s: FrameState, r: Result)
    requires PendingEntry(s).expected == INT_MAX
    requires |PendingEntry(s).outputs| + |Outside(r.outputs, {cfg.zslStream})| < INT_MAX
    ensures
      var s' := StepArrival(cfg, s, r);
      PendingEntry(s').expected == INT_MAX && s'.log.forwarded == s.log.forwarded
  {
    var e := WithRaw(cfg, PendingEntry(s), r.outputs);
    var rest := r.(outputs := Outside(r.outputs, {cfg.zslStream}));
    if s.error.None? {
      assert |Latched(cfg, e, rest).outputs| == |rest.outputs| + |e.outputs|;
    } else {
      var s1 := s.(log := s.log.(returned := s.log.returned + Within(r.outputs, {cfg.zslStream})));
      DrainShape(cfg, s1, s.error.value, e, rest);
    }
  }

  lemma SpentFailure(cfg: Config, s: FrameState, code: ErrorCode)
    requires PendingEntry(s).expected == INT_MAX
    ensures
      var s' := StepFailure(cfg, s, code);
      PendingEntry(s').expected == INT_MAX && s'.log.forwarded == s.log.forwarded
  {
    var s1 := Failing(s, code);
    if s1.error.Some? && s1.pending.Some? {
      DrainShape(cfg, s1, s1.error.value, s1.pending.value, EMPTY_RESULT);
    }
  }

  lemma ReceivedGrows(cfg: Config, f: nat, es: seq<Event>)
    requires es != []
    ensures |Received(cfg, f, es[..|es| - 1])| <= |Received(cfg, f, es)|
  {
    if es[|es| - 1].Arrival? && es[|es| - 1].frame == f { ReceivedLast(cfg, f, es); }
  }

  lemma ForwardingSpends(cfg: Config, f: nat, es: seq<Event>)
    requires es != [] && Orderly(es, f)
    requires Run(cfg, f, es[..|es| - 1]).log.forwarded == []
    ensures
      var s := Run(cfg, f, es);
      s.log.forwarded == [] || (|s.log.forwarded| == 1 && Spent(es, f, s))
  {
    StartedLast(es, f);
  }

  // A frame is forwarded at most once, whatever errors it has.
  lemma {:induction false} ForwardedAtMostOnce(cfg: Config, f: nat, es: seq<Event>)
    requires Orderly(es, f) && |Received(cfg, f, es)| < INT_MAX
    ensures
      var s := Run(cfg, f, es);
      s.log.forwarded == [] || (|s.log.forwarded| == 1 && Spent(es, f, s))
  {
    if es != [] {
      ReceivedGrows(cfg, f, es);
      ForwardedAtMostOnce(cfg, f, es[..|es| - 1]);
      if Run(cfg, f, es[..|es| - 1]).log.forwarded == [] {
        ForwardingSpends(cfg, f, es);
      } else {
        SpentStep(cfg, f, es);
      }
    }
  }

  // ---------- Error first ----------

  // The frame is failing, or it is over.
  ghost predicate Failed(es: seq<Event>, f: nat, s: FrameState) {
    s.log.forwarded == [] && (s.error.Some? || Spent(es, f, s))
  }

  lemma FailedStep(cfg: Config, f: nat, es: seq<Event>)
    requires es != [] && Orderly(es, f) && |Received(cfg, f, es)| < INT_MAX
    requires Failed(es[..|es| - 1], f, Run(cfg, f, es[..|es| - 1]))
    ensures Failed(es, f, Run(cfg, f, es))
  {
    var before := es[..|es| - 1];
    StartedLast(es, f);
    if Spent(before, f, Run(cfg, f, before)) {
      SpentStep(cfg, f, es);
    } else {
      FailingStep(cfg, f, es);
    }
  }

  lemma FailingStep(cfg: Config, f: nat, es: seq<Event>)
    requires es != [] && Run(cfg, f, es[..|es| - 1]).log.forwarded == [] && Run(cfg, f, es[..|es| - 1]).error.Some?
    requires !Spent(es[..|es| - 1], f, Run(cfg, f, es[..|es| - 1]))
    ensures Failed(es, f, Run(cfg, f, es))
  {
    var before, e := es[..|es| - 1], es[|es| - 1];
    var s := Run(cfg, f, before);
    StartedLast(es, f);
    if s.pending.Some? && !Started(before, f) { NotStartedIsUnknown(cfg, f, before); }
  }

  // A frame whose request or buffer error comes before it is complete is never forwarded.
  lemma {:induction false} ErrorFirstNeverForwarded(cfg: Config, f: nat, es: seq<Event>, n: nat)
    requires Orderly(es, f) && |Received(cfg, f, es)| < INT_MAX
    requires n < |es| && es[n].Failure? && es[n].frame == f && es[n].code in {ErrorRequest, ErrorBuffer}
    requires Run(cfg, f, es[..n]).log.forwarded == []
    ensures Failed(es, f, Run(cfg, f, es))
  {
    var before := es[..|es| - 1];
    if n == |es| - 1 {
      ErrorFails(cfg, f, es);
    } else {
      ReceivedGrows(cfg, f, es);
      assert before[..n] == es[..n];
      ErrorFirstNeverForwarded(cfg, f, before, n);
      FailedStep(cfg, f, es);
    }
  }

  lemma ErrorFails(cfg: Config, f: nat, es: seq<Event>)
    requires es != [] && es[|es| - 1].Failure? && es[|es| - 1].frame == f
    requires es[|es| - 1].code in {ErrorRequest, ErrorBuffer}
    requires Run(cfg, f, es[..|es| - 1]).log.forwarded == []
    ensures Failed(es, f, Run(cfg, f, es))
  {
    var before := es[..|es| - 1];
    StartedLast(es, f);
    if Run(cfg, f, before).pending.Some? && !Started(before, f) { NotStartedIsUnknown(cfg, f, before); }
  }

  // ---------- Exactly when complete ----------

  ghost predicate Tracks(e: Entry, t: Totals) {
    && e.zslReceived == t.zsl && e.expected == t.expected && e.outputs == t.outputs && e.inputs == t.inputs
    && e.partials == |t.pieces| && e.settings == KeptOf(t)
  }

  ghost predicate AsCollected(cfg: Config, f: nat, es: seq<Event>, s: FrameState) {
    && s.error.None? && s.log.delivered == []
    && match FirstComplete(cfg, f, es)
       case Some(t) => s.log.forwarded == [Forward(KeptOf(t), t.outputs, t.inputs)]
       case None =>
         && s.log.forwarded == []
         && (Collected(cfg, f, es).Some? <==> s.pending.Some?)
         && (s.pending.Some? ==> Tracks(s.pending.value, Collected(cfg, f, es).value))
  }

  lemma KeptNext(cfg: Config, t: Totals, r: Result)
    requires r.metadata.Some?
    ensures KeptOf(Added(cfg, t, r)) == Some(KeptSettings(cfg, KeptOf(t), r.metadata.value, r.partial))
  {
    var p := Piece(r.metadata.value, r.partial < cfg.partialResultCount);
    var ps := t.pieces + [p];
    assert ps[..|ps| - 1] == t.pieces && ps[|ps| - 1] == p;
    assert Kept(ps) == if p.early then p.metadata else Kept(t.pieces) + p.metadata;
    assert [] + p.metadata == p.metadata;
  }

  lemma LatchTracks(cfg: Config, e: Entry, t: Totals, r: Result)
    requires Tracks(e, t)
    ensures
      var rest := r.(outputs := Outside(r.outputs, {cfg.zslStream}));
      Tracks(Latched(cfg, WithRaw(cfg, e, r.outputs), rest), Added(cfg, t, r))
  {
    if r.metadata.Some? { KeptNext(cfg, t, r); }
  }

  lemma TracksCompletion(cfg: Config, e: Entry, t: Totals)
    requires Tracks(e, t)
    ensures AllDataCollected(cfg, e) <==> IsComplete(cfg, t)
    ensures ForwardOf(e) == Forward(KeptOf(t), t.outputs, t.inputs)
  {
  }

  lemma ArrivalAsCollected(cfg: Config, f: nat, es: seq<Event>)
    requires es != [] && Undisturbed(cfg, f, es) && es[|es| - 1].Arrival? && es[|es| - 1].frame == f
    requires AsCollected(cfg, f, es[..|es| - 1], Run(cfg, f, es[..|es| - 1]))
    requires FirstComplete(cfg, f, es[..|es| - 1]).None?
    ensures AsCollected(cfg, f, es, Run(cfg, f, es))
  {
    var before, r := es[..|es| - 1], es[|es| - 1].result;
    var entry, t := Run(cfg, f, before).pending.value, Collected(cfg, f, before).value;
    var rest := r.(outputs := Outside(r.outputs, {cfg.zslStream}));
    LatchTracks(cfg, entry, t, r);
    TracksCompletion(cfg, Latched(cfg, WithRaw(cfg, entry, r.outputs), rest), Added(cfg, t, r));
  }

  // Over every run without a failing error: the frame is forwarded exactly once its raw buffer, all
  // its framework buffers and all its partial results are in, at the first such moment, with what
  // has been collected; until then it is not forwarded. Nothing is delivered directly.
  lemma {:induction false} ForwardedWhenComplete(cfg: Config, f: nat, es: seq<Event>)
    requires Orderly(es, f) && Undisturbed(cfg, f, es) && |Received(cfg, f, es)| < INT_MAX
    ensures AsCollected(cfg, f, es, Run(cfg, f, es))
  {
    if es != [] {
      var before, e := es[..|es| - 1], es[|es| - 1];
      ReceivedGrows(cfg, f, es);
      ForwardedWhenComplete(cfg, f, before);
      if e.frame == f {
        if FirstComplete(cfg, f, before).Some? {
          ForwardedAtMostOnce(cfg, f, before);
          SpentStep(cfg, f, es);
          StaysUndelivered(cfg, f, es);
        } else if e.Arrival? {
          ArrivalAsCollected(cfg, f, es);
        } else if e.Register? {
          NotStartedIsUnknown(cfg, f, before);
        }
      }
    }
  }

  lemma StaysUndelivered(cfg: Config, f: nat, es: seq<Event>)
    requires es != [] && Undisturbed(cfg, f, es) && es[|es| - 1].frame == f
    requires Run(cfg, f, es[..|es| - 1]).error.None? && Run(cfg, f, es[..|es| - 1]).log.delivered == []
    ensures Run(cfg, f, es).error.None? && Run(cfg, f, es).log.delivered == []
  {
  }

  // ---------- Metadata ----------

  function AllOf(pieces: seq<Piece>): seq<nat> {
    if pieces == [] then [] else AllOf(pieces[..|pieces| - 1]) + pieces[|pieces| - 1].metadata
  }

  lemma {:induction false} KeptShorter(pieces: seq<Piece>)
    ensures |Kept(pieces)| <= |AllOf(pieces)|
  {
    if pieces != [] { KeptShorter(pieces[..|pieces| - 1]); }
  }

  lemma AllOfEmpty(pieces: seq<Piece>)
    requires forall p :: p in pieces ==> p.metadata != []
    ensures AllOf(pieces) == [] <==> pieces == []
  {
  }

  // A forwarded frame has all its metadata if and only if no early piece came after another piece:
  // an early piece replaces what came before it.
  lemma {:induction false} AllMetadataKeptIff(pieces: seq<Piece>)
    requires forall p :: p in pieces ==> p.metadata != []
    ensures Kept(pieces) == AllOf(pieces) <==> forall i :: 0 < i < |pieces| ==> !pieces[i].early
  {
    if pieces != [] {
      var front, last := pieces[..|pieces| - 1], pieces[|pieces| - 1];
      assert forall p :: p in front ==> p in pieces;
      AllMetadataKeptIff(front);
      AllOfEmpty(front);
      KeptShorter(front);
      assert forall i :: 0 <= i < |front| ==> front[i] == pieces[i];
      if last.early {
        assert |AllOf(pieces)| == |AllOf(front)| + |last.metadata|;
      } else {
        SuffixCancels(Kept(front), AllOf(front), last.metadata);
      }
    }
  }

  lemma SuffixCancels(a: seq<nat>, b: seq<nat>, c: seq<nat>)
    ensures a + c == b + c <==> a == b
  {
    if a + c == b + c {
      assert |a| == |b|;
      assert a == (a + c)[..|a|] == (b + c)[..|b|] == b;
    }
  }
}
