// What becomes of the metadata of a frame, and what a failed frame delivers.
module ZslMetadata {
  import opened HalTypes
  import opened StreamBuffers
  import opened ZslModel
  import opened ZslRuns

  function Pieces(metadata: Option<seq<nat>>): seq<nat> {
    if metadata.Some? then metadata.value else []
  }

  // ---------- Conservation ----------

  // The metadata pieces the frame has received.
  function MetadataReceived(f: nat, es: seq<Event>): multiset<nat> {
    if es == [] then multiset{}
    else
      var e := es[|es| - 1];
      var before := MetadataReceived(f, es[..|es| - 1]);
      if e.Arrival? && e.frame == f then before + multiset(Pieces(e.result.metadata)) else before
  }

  function MetadataDelivered(rs: seq<Result>): multiset<nat> {
    if rs == [] then multiset{} else MetadataDelivered(rs[..|rs| - 1]) + multiset(Pieces(rs[|rs| - 1].metadata))
  }

  function MetadataForwarded(fs: seq<Forward>): multiset<nat> {
    if fs == [] then multiset{} else MetadataForwarded(fs[..|fs| - 1]) + multiset(Pieces(fs[|fs| - 1].settings))
  }

  function MetadataPlaces(s: FrameState): multiset<nat> {
    multiset(Pieces(PendingEntry(s).settings)) + MetadataDelivered(s.log.delivered) + MetadataForwarded(s.log.forwarded)
  }

  // An early piece of a frame that has not failed takes the place of what was latched.
  function Replaced(cfg: Config, f: nat, s: FrameState, e: Event): multiset<nat> {
    if e.Arrival? && e.frame == f && s.error.None? && e.result.metadata.Some?
       && e.result.partial < cfg.partialResultCount
    then multiset(Pieces(PendingEntry(s).settings)) else multiset{}
  }

  function AllReplaced(cfg: Config, f: nat, es: seq<Event>): multiset<nat> {
    if es == [] then multiset{}
    else AllReplaced(cfg, f, es[..|es| - 1]) + Replaced(cfg, f, Run(cfg, f, es[..|es| - 1]), es[|es| - 1])
  }

  lemma MetadataDeliveredNext(rs: seq<Result>, r: Result)
    ensures MetadataDelivered(rs + [r]) == MetadataDelivered(rs) + multiset(Pieces(r.metadata))
  {
    assert (rs + [r])[..|rs|] == rs;
  }

  lemma MetadataForwardedNext(fs: seq<Forward>, x: Forward)
    ensures MetadataForwarded(fs + [x]) == MetadataForwarded(fs) + multiset(Pieces(x.settings))
  {
    assert (fs + [x])[..|fs|] == fs;
  }

  // What latching keeps and what it replaces.
  lemma LatchedMetadata(cfg: Config, e: Entry, r: Result)
    ensures
      var early := r.metadata.Some? && r.partial < cfg.partialResultCount;
      Pieces(Latched(cfg, e, r).settings) == if early then Pieces(r.metadata)
                                             else Pieces(e.settings) + Pieces(r.metadata)
  {
    assert [] + Pieces(r.metadata) == Pieces(r.metadata) && Pieces(e.settings) + [] == Pieces(e.settings);
  }

  lemma SumLatched(old': multiset<nat>, new': multiset<nat>, x: multiset<nat>, back: multiset<nat>,
                   delivered: multiset<nat>, forwarded: multiset<nat>)
    requires new' + back == old' + x
    ensures new' + delivered + forwarded + back == old' + delivered + forwarded + x
    ensures multiset{} + delivered + (forwarded + new') + back == old' + delivered + forwarded + x
  {
    forall p ensures (new' + delivered + forwarded + back)[p] == (old' + delivered + forwarded + x)[p] {
      assert (new' + back)[p] == (old' + x)[p];
    }
    forall p ensures (multiset{} + delivered + (forwarded + new') + back)[p] == (old' + delivered + forwarded + x)[p] {
      assert (new' + back)[p] == (old' + x)[p];
    }
  }

  lemma SumDrained(latched: multiset<nat>, x: multiset<nat>, delivered: multiset<nat>, forwarded: multiset<nat>)
    ensures multiset{} + (delivered + (x + latched)) + forwarded == latched + delivered + forwarded + x
  {
  }

  lemma LatchMetadata(cfg: Config, s: FrameState, e: Entry, r: Result)
    requires e.settings == PendingEntry(s).settings
    ensures
      var back := if r.metadata.Some? && r.partial < cfg.partialResultCount then multiset(Pieces(e.settings))
                  else multiset{};
      MetadataPlaces(Latch(cfg, s, e, r)) + back == MetadataPlaces(s) + multiset(Pieces(r.metadata))
  {
    var e' := Latched(cfg, e, r);
    var early := r.metadata.Some? && r.partial < cfg.partialResultCount;
    var back := if early then multiset(Pieces(e.settings)) else multiset{};
    LatchedMetadata(cfg, e, r);
    LatchedBalance(Pieces(e.settings), Pieces(r.metadata), Pieces(e'.settings), early);
    MetadataForwardedNext(s.log.forwarded, ForwardOf(e'));
    SumLatched(multiset(Pieces(e.settings)), multiset(Pieces(e'.settings)), multiset(Pieces(r.metadata)), back,
               MetadataDelivered(s.log.delivered), MetadataForwarded(s.log.forwarded));
  }

  lemma LatchedBalance(a: seq<nat>, x: seq<nat>, c: seq<nat>, early: bool)
    requires c == if early then x else a + x
    ensures multiset(c) + (if early then multiset(a) else multiset{}) == multiset(a) + multiset(x)
  {
  }

  lemma DrainMetadata(cfg: Config, s: FrameState, error: Entry, e: Entry, r: Result)
    requires e.settings == PendingEntry(s).settings
    ensures MetadataPlaces(Drain(cfg, s, error, e, r)) == MetadataPlaces(s) + multiset(Pieces(r.metadata))
  {
    var c := Combined(e, r);
    CombinedMetadata(e, r);
    DrainShape(cfg, s, error, e, r);
    DrainEmpties(cfg, s, error, e, r);
    var latched, delivered := multiset(Pieces(e.settings)), MetadataDelivered(s.log.delivered);
    if IsInternalOnly(e, c) {
      assert Pieces(r.metadata) == [] && Pieces(e.settings) == [];
    } else {
      assert multiset(Pieces(c.metadata)) == multiset(Pieces(r.metadata)) + latched;
      MetadataDeliveredNext(s.log.delivered, c);
      SumDrained(latched, multiset(Pieces(r.metadata)), delivered, MetadataForwarded(s.log.forwarded));
    }
  }

  lemma DrainEmpties(cfg: Config, s: FrameState, error: Entry, e: Entry, r: Result)
    ensures Pieces(PendingEntry(Drain(cfg, s, error, e, r)).settings) == []
  {
  }

  // The result's own metadata comes first, then what was latched.
  lemma CombinedMetadata(e: Entry, r: Result)
    ensures Pieces(Combined(e, r).metadata) == Pieces(r.metadata) + Pieces(e.settings)
    ensures Combined(e, r).metadata.None? <==> r.metadata.None? && e.settings.None?
  {
    assert Pieces(r.metadata) + [] == Pieces(r.metadata) && [] + Pieces(e.settings) == Pieces(e.settings);
  }

  lemma ArrivalMetadata(cfg: Config, f: nat, s: FrameState, e: Event)
    requires e.Arrival? && e.frame == f
    ensures MetadataPlaces(Step(cfg, f, s, e)) + Replaced(cfg, f, s, e) ==
            MetadataPlaces(s) + multiset(Pieces(e.result.metadata))
  {
    var r := e.result;
    var entry := WithRaw(cfg, PendingEntry(s), r.outputs);
    var rest := r.(outputs := Outside(r.outputs, {cfg.zslStream}));
    var s1 := s.(log := s.log.(returned := s.log.returned + Within(r.outputs, {cfg.zslStream})));
    assert MetadataPlaces(s1) == MetadataPlaces(s);
    if s.error.Some? { DrainMetadata(cfg, s1, s.error.value, entry, rest); }
    else { LatchMetadata(cfg, s1, entry, rest); }
  }

  lemma FailureMetadata(cfg: Config, f: nat, s: FrameState, e: Event)
    requires e.Failure? && e.frame == f
    ensures MetadataPlaces(Step(cfg, f, s, e)) == MetadataPlaces(s)
  {
    var s1 := Failing(s, e.code);
    if s1.error.Some? && s1.pending.Some? && s1.pending.value.zslReceived {
      DrainMetadata(cfg, s1, s1.error.value, s1.pending.value, EMPTY_RESULT);
    }
  }

  // Over every run, failed frames included: each metadata piece received for a frame is latched,
  // delivered, or forwarded, or an early piece has taken its place: exactly one of these.
  lemma {:induction false} MetadataAccountedFor(cfg: Config, f: nat, es: seq<Event>)
    requires Orderly(es, f)
    ensures MetadataReceived(f, es) == MetadataPlaces(Run(cfg, f, es)) + AllReplaced(cfg, f, es)
  {
    if es != [] {
      var before, e := es[..|es| - 1], es[|es| - 1];
      MetadataAccountedFor(cfg, f, before);
      var s := Run(cfg, f, before);
      var news := if e.Arrival? && e.frame == f then multiset(Pieces(e.result.metadata)) else multiset{};
      if e.frame == f {
        match e
        case Register(_, _, _) => NotStartedIsUnknown(cfg, f, before);
        case Arrival(_, _) => ArrivalMetadata(cfg, f, s, e);
        case Failure(_, _) => FailureMetadata(cfg, f, s, e);
      }
      AddGone(MetadataReceived(f, before), MetadataPlaces(s), AllReplaced(cfg, f, before),
              MetadataPlaces(Run(cfg, f, es)), Replaced(cfg, f, s, e), news);
    }
  }

  // ---------- What a failed frame delivers ----------

  // The result joined with the latched entry.
  ghost predicate IsJoined(d: Result, entry: Entry, r: Result, outputs: seq<StreamBuffer>) {
    && d.outputs == outputs + entry.outputs && d.inputs == r.inputs + entry.inputs
    && Pieces(d.metadata) == Pieces(r.metadata) + Pieces(entry.settings)
    && (d.metadata.None? <==> r.metadata.None? && entry.settings.None?)
    && d.partial == if r.metadata.None? && entry.settings.Some? then entry.partials else r.partial
  }

  // Nothing to deliver: only a raw buffer has come back.
  predicate IsBare(entry: Entry, returned: bool, r: Result, outputs: seq<StreamBuffer>) {
    (entry.hasReturned || returned) && r.metadata.None? && entry.settings.None? && outputs + entry.outputs == []
  }

  // The error entry adds up the partial results of drained metadata; once they, the raw buffer and the
  // framework buffers of one drain are complete the frame is forgotten, and otherwise its entry is emptied.
  ghost predicate IsSettled(cfg: Config, s': FrameState, entry: Entry, error: Entry, raw: bool, partial: nat,
                            count: nat)
  {
    var partials := if entry.settings.Some? then error.partials + partial else error.partials;
    if (entry.zslReceived || raw) && entry.expected == count && partials == cfg.partialResultCount
    then s'.pending.None? && s'.error.None?
    else
      && s'.pending.Some? && s'.error.Some? && s'.error.value.partials == partials
      && var e' := s'.pending.value;
      && e'.outputs == [] && e'.inputs == [] && e'.settings.None?
      && e'.partials == entry.partials && e'.expected == entry.expected
      && e'.zslReceived == (entry.zslReceived || raw) && e'.hasReturned == (entry.hasReturned || raw)
  }

  // A result `r` of a failed frame, `outputs` of which are left once its raw buffers have gone back.
  ghost predicate Drains(cfg: Config, s: FrameState, s': FrameState, entry: Entry, error: Entry, raw: bool, r: Result,
                         outputs: seq<StreamBuffer>)
  {
    var partial := if r.metadata.None? && entry.settings.Some? then entry.partials else r.partial;
    && s'.log.forwarded == s.log.forwarded
    && (if IsBare(entry, raw, r, outputs) then s'.log.delivered == s.log.delivered
        else |s'.log.delivered| == |s.log.delivered| + 1 && s.log.delivered <= s'.log.delivered
             && IsJoined(s'.log.delivered[|s.log.delivered|], entry, r, outputs))
    && IsSettled(cfg, s', entry, error, raw, partial, |outputs + entry.outputs|)
  }

  lemma DrainDrains(cfg: Config, s: FrameState, error: Entry, entry: Entry, raw: bool, r: Result)
    ensures
      var e := if raw then entry.(zslReceived := true, hasReturned := true) else entry;
      Drains(cfg, s, Drain(cfg, s, error, e, r), entry, error, raw, r, r.outputs)
  {
    CombinedMetadata(entry, r);
  }

  // Every result of a failed frame goes to the framework at once, joined with what was latched, unless
  // only a raw buffer has come back.
  lemma FailedFrameDelivers(cfg: Config, f: nat, s: FrameState, e: Event)
    requires e.Arrival? && e.frame == f && s.error.Some?
    ensures
      var raw := exists b :: b in e.result.outputs && b.streamId == cfg.zslStream;
      Drains(cfg, s, Step(cfg, f, s, e), PendingEntry(s), s.error.value, raw, e.result,
             Outside(e.result.outputs, {cfg.zslStream}))
  {
    var r := e.result;
    WithinMembers(r.outputs, {cfg.zslStream});
    EmptyIff(Within(r.outputs, {cfg.zslStream}));
    var s1 := s.(log := s.log.(returned := s.log.returned + Within(r.outputs, {cfg.zslStream})));
    var raw := Within(r.outputs, {cfg.zslStream}) != [];
    DrainDrains(cfg, s1, s.error.value, PendingEntry(s), raw, r.(outputs := Outside(r.outputs, {cfg.zslStream})));
  }

  // An error message fails the frame if it is about the request or a buffer; one about the request counts
  // as a partial result. A failed frame whose raw buffer has been received is drained at once.
  lemma ErrorDelivers(cfg: Config, f: nat, s: FrameState, e: Event)
    requires e.Failure? && e.frame == f
    ensures
      var fails := e.code == ErrorRequest || e.code == ErrorBuffer;
      var partials := (if s.error.Some? then s.error.value.partials else 0) + if e.code == ErrorRequest then 1 else 0;
      var s' := Step(cfg, f, s, e);
      if !fails && s.error.None? then s' == s
      else if s.pending.Some? && s.pending.value.zslReceived then
        Drains(cfg, s, s', s.pending.value, EMPTY_ENTRY.(partials := partials), false, EMPTY_RESULT, [])
      else s'.pending == s.pending && s'.log == s.log && s'.error.Some? && s'.error.value.partials == partials
  {
    var s1 := Failing(s, e.code);
    if s1.error.Some? && s1.pending.Some? {
      DrainDrains(cfg, s1, s1.error.value, s1.pending.value, false, EMPTY_RESULT);
    }
  }
}
