// How a depth request fills its slots: whatever the arrival order, the RGB metadata and the YUV
// buffer share a slot and nothing that arrives is lost.
module DepthSlots {
  import opened HalTypes
  import opened StreamBuffers
  import opened DepthModel

  // The internal streams whose buffers a request of frame `f` collects.
  function WantedStreams(cfg: Config, f: nat): set<int> {
    if cfg.IsAutocal(f) then cfg.SensorStreams() else {cfg.ir1Stream, cfg.ir2Stream}
  }

  // No two filled slots hold buffers of one stream.
  ghost predicate DistinctStreams(s: seq<StreamBuffer>) {
    forall i, j :: 0 <= i < j < |s| && IsFilled(s[i]) && IsFilled(s[j]) ==> s[i].streamId != s[j].streamId
  }

  // Slot alignment: before the metadata arrives the slots are filled without gaps; afterwards there
  // are three slots, one of them has the metadata, and only that one can hold the YUV buffer.
  ghost predicate Aligned(cfg: Config, f: nat, r: DepthRequest) {
    && DistinctStreams(r.inputs)
    && (forall i :: 0 <= i < |r.inputs| ==> r.inputs[i] == PLACEHOLDER || r.inputs[i].streamId in WantedStreams(cfg, f))
    && |r.outputs| == 1 && r.outputs[0].streamId == cfg.depthStream
    && if r.metadata == [] then
         && |r.inputs| <= 3
         && (forall i :: 0 <= i < |r.inputs| ==> IsFilled(r.inputs[i]))
       else
         && |r.inputs| == |r.metadata| == 3
         && var k := MetadataSlot(r.metadata);
         && k < 3
         && (forall i :: 0 <= i < 3 && i != k ==> r.metadata[i].None?)
         && (r.inputs[k] == PLACEHOLDER || r.inputs[k].streamId == cfg.yuvStream)
         && (forall i :: 0 <= i < 3 && i != k ==> r.inputs[i].streamId != cfg.yuvStream)
  }

  ghost predicate NoneOn(s: seq<StreamBuffer>, id: int) {
    forall i :: 0 <= i < |s| ==> s[i].streamId != id
  }

  lemma FilledCount(s: seq<StreamBuffer>)
    ensures forall x :: multiset(Filled(s))[x] == if IsFilled(x) then multiset(s)[x] else 0
  {
    forall x ensures multiset(Filled(s))[x] == if IsFilled(x) then multiset(s)[x] else 0 {
      OutsideCount(s, {INVALID_STREAM_ID}, x);
    }
  }

  lemma FilledAppend(s: seq<StreamBuffer>, b: StreamBuffer)
    requires IsFilled(b)
    ensures multiset(Filled(s + [b])) == multiset(Filled(s)) + multiset{b}
  {
    FilledCount(s);
    FilledCount(s + [b]);
  }

  lemma FilledUpdate(s: seq<StreamBuffer>, i: nat, b: StreamBuffer)
    requires i < |s| && !IsFilled(s[i]) && IsFilled(b)
    ensures multiset(Filled(s[i := b])) == multiset(Filled(s)) + multiset{b}
  {
    FilledCount(s);
    FilledCount(s[i := b]);
  }

  lemma PaddedFilled(s: seq<StreamBuffer>, n: nat)
    ensures multiset(Filled(Padded(s, n))) == multiset(Filled(s))
  {
    FilledCount(s);
    FilledCount(Padded(s, n));
    if |s| < n {
      forall x | IsFilled(x) ensures multiset(Padded(s, n))[x] == multiset(s)[x] {
        assert x !in Padding(n - |s|);
        assert multiset(Padded(s, n)) == multiset(s) + multiset(Padding(n - |s|));
      }
    }
  }

  lemma DistinctBound(cfg: Config, f: nat, s: seq<StreamBuffer>)
    requires DistinctStreams(s)
    requires forall i :: 0 <= i < |s| ==> IsFilled(s[i]) && s[i].streamId in WantedStreams(cfg, f)
    ensures |s| <= |WantedStreams(cfg, f)| <= 3
  {
    var ids := set i | 0 <= i < |s| :: s[i].streamId;
    DistinctCardinality(s);
    assert ids <= WantedStreams(cfg, f);
    SubsetCardinality(ids, WantedStreams(cfg, f));
  }

  lemma {:induction false} DistinctCardinality(s: seq<StreamBuffer>)
    requires DistinctStreams(s)
    requires forall i :: 0 <= i < |s| ==> IsFilled(s[i])
    ensures |set i | 0 <= i < |s| :: s[i].streamId| == |s|
  {
    if s != [] {
      var front := s[..|s| - 1];
      DistinctCardinality(front);
      assert (set i | 0 <= i < |s| :: s[i].streamId) ==
             (set i | 0 <= i < |front| :: front[i].streamId) + {s[|s| - 1].streamId};
    }
  }

  lemma {:induction false} SubsetCardinality<T>(a: set<T>, b: set<T>)
    requires a <= b
    ensures |a| <= |b|
    decreases a
  {
    if a != {} {
      var x :| x in a;
      SubsetCardinality(a - {x}, b - {x});
    }
  }

  lemma DistinctAppend(s: seq<StreamBuffer>, b: StreamBuffer)
    requires DistinctStreams(s) && NoneOn(s, b.streamId)
    ensures DistinctStreams(s + [b])
  {
  }

  lemma DistinctUpdate(s: seq<StreamBuffer>, i: nat, b: StreamBuffer)
    requires i < |s| && DistinctStreams(s) && NoneOn(s, b.streamId)
    ensures DistinctStreams(s[i := b])
  {
  }

  lemma DistinctPadded(s: seq<StreamBuffer>, n: nat)
    requires DistinctStreams(s)
    ensures DistinctStreams(Padded(s, n))
  {
  }

  // Whatever arrived before, a sensor buffer of a stream not seen yet finds its slot.
  lemma InsertBufferAligned(cfg: Config, f: nat, r: DepthRequest, fromRgb: bool, b: StreamBuffer)
    requires cfg.Valid() && Aligned(cfg, f, r)
    requires b.streamId in WantedStreams(cfg, f)
    requires fromRgb <==> b.streamId == cfg.yuvStream
    requires NoneOn(r.inputs, b.streamId)
    ensures
      var (r', ok) := InsertBuffer(r, fromRgb, b);
      && ok && Aligned(cfg, f, r')
      && multiset(Filled(r'.inputs)) == multiset(Filled(r.inputs)) + multiset{b}
      && r'.metadata == r.metadata && r'.outputs == r.outputs
  {
    if r.metadata == [] {
      FilledAppend(r.inputs, b);
      DistinctAppend(r.inputs, b);
      DistinctBound(cfg, f, r.inputs + [b]);
    } else {
      var k := MetadataSlot(r.metadata);
      assert Padded(r.inputs, NUM_AUTOCAL_INPUT_BUFFERS) == r.inputs;
      if !fromRgb { FreeIrSlot(cfg, f, r, k, b); }
      var i := if fromRgb then k else SlotOn(r.inputs, INVALID_STREAM_ID, k);
      FilledUpdate(r.inputs, i, b);
      AlignedUpdate(cfg, f, r, i, b);
    }
  }

  lemma AlignedUpdate(cfg: Config, f: nat, r: DepthRequest, i: nat, b: StreamBuffer)
    requires cfg.Valid() && Aligned(cfg, f, r) && r.metadata != [] && i < 3
    requires b.streamId in WantedStreams(cfg, f) && NoneOn(r.inputs, b.streamId)
    requires i == MetadataSlot(r.metadata) <==> b.streamId == cfg.yuvStream
    ensures Aligned(cfg, f, r.(inputs := r.inputs[i := b]))
  {
    DistinctUpdate(r.inputs, i, b);
  }

  // Two IR buffers never compete for one slot: an IR buffer still to come has a free one.
  lemma FreeIrSlot(cfg: Config, f: nat, r: DepthRequest, k: nat, b: StreamBuffer)
    requires cfg.Valid() && Aligned(cfg, f, r) && r.metadata != [] && k == MetadataSlot(r.metadata)
    requires b.streamId == cfg.ir1Stream || b.streamId == cfg.ir2Stream
    requires NoneOn(r.inputs, b.streamId)
    ensures SlotOn(r.inputs, INVALID_STREAM_ID, k) < 3
  {
    var i, j := if k == 0 then 1 else 0, if k == 2 then 1 else 2;
    assert !IsFilled(r.inputs[i]) || !IsFilled(r.inputs[j]);
  }

  // Three distinct IR streams would be one too many.
  lemma YuvSlotBound(cfg: Config, f: nat, r: DepthRequest)
    requires cfg.Valid() && Aligned(cfg, f, r) && r.metadata == []
    ensures SlotOn(r.inputs, cfg.yuvStream, -1) < 3
  {
    if |r.inputs| == 3 {
      var x, y, z := r.inputs[0], r.inputs[1], r.inputs[2];
      assert IsFilled(x) && IsFilled(y) && IsFilled(z);
      assert x.streamId != y.streamId && y.streamId != z.streamId && x.streamId != z.streamId;
      assert x.streamId == cfg.yuvStream || y.streamId == cfg.yuvStream || z.streamId == cfg.yuvStream;
    }
  }

  // Whatever buffers arrived before, the metadata lands in the YUV buffer's slot or in one
  // that is left for it.
  lemma InsertMetadataAligned(cfg: Config, f: nat, r: DepthRequest, m: Metadata)
    requires cfg.Valid() && Aligned(cfg, f, r) && r.metadata == []
    ensures
      var (r', ok) := InsertMetadata(cfg, r, m);
      && ok && Aligned(cfg, f, r')
      && multiset(Filled(r'.inputs)) == multiset(Filled(r.inputs))
      && LastMetadata(r'.metadata) == Some(m) && r'.metadata != [] && r'.outputs == r.outputs
  {
    var k := SlotOn(r.inputs, cfg.yuvStream, -1);
    YuvSlotBound(cfg, f, r);
    PaddedFilled(r.inputs, NUM_AUTOCAL_INPUT_BUFFERS);
    DistinctPadded(r.inputs, NUM_AUTOCAL_INPUT_BUFFERS);
    var (r', ok) := InsertMetadata(cfg, r, m);
    assert |r'.metadata| == 3 && r'.metadata[k] == Some(m);
    MetadataSlotIs(r'.metadata, k);
    LastMetadataIs(r'.metadata, k);
    YuvOnlyAt(cfg, r.inputs, k);
  }

  lemma YuvOnlyAt(cfg: Config, s: seq<StreamBuffer>, k: nat)
    requires cfg.Valid() && DistinctStreams(s) && |s| <= 3 && k == SlotOn(s, cfg.yuvStream, -1) < 3
    ensures
      var p := Padded(s, 3);
      && (p[k] == PLACEHOLDER || p[k].streamId == cfg.yuvStream)
      && (forall i :: 0 <= i < 3 && i != k ==> p[i].streamId != cfg.yuvStream)
  {
    if k < |s| {
      assert IsFilled(s[k]);
    }
  }

  // Every ready request meets the depth block's guard.
  lemma ReadyIsAccepted(cfg: Config, f: nat, r: DepthRequest)
    requires Aligned(cfg, f, r) && IsReady(cfg, f, r)
    ensures IsAccepted(cfg, None, r) && InputsOn(r, cfg.SensorStreams())
  {
  }

  lemma MetadataSlotIs(ms: seq<Option<Metadata>>, k: nat)
    requires k < |ms| && ms[k].Some?
    requires forall i :: 0 <= i < |ms| && i != k ==> ms[i].None?
    ensures MetadataSlot(ms) == k
  {
    assert MetadataSlot(ms) <= k;
  }

  lemma {:induction false} LastMetadataIs(ms: seq<Option<Metadata>>, k: nat)
    requires k < |ms| && ms[k].Some?
    requires forall i :: 0 <= i < |ms| && i != k ==> ms[i].None?
    ensures LastMetadata(ms) == ms[k]
  {
    if k < |ms| - 1 {
      LastMetadataIs(ms[..|ms| - 1], k);
    }
  }

  // The one buffer of a stream in a request is what Within selects.
  lemma WithinOnly(s: seq<StreamBuffer>, b: StreamBuffer)
    requires IsFilled(b) && multiset(Filled(s))[b] == 1
    requires forall x :: x in multiset(Filled(s)) && x.streamId == b.streamId ==> x == b
    ensures Within(s, {b.streamId}) == [b]
  {
    var w := Within(s, {b.streamId});
    FilledCount(s);
    forall x ensures multiset(w)[x] == multiset{b}[x] {
      WithinCount(s, {b.streamId}, x);
      if x != b && x.streamId == b.streamId {
        assert x !in multiset(Filled(s));
        assert multiset(Filled(s))[x] == 0;
      }
    }
    assert multiset(w) == multiset{b};
    assert |w| == |multiset(w)| == 1;
    assert w[0] in multiset(w);
  }

  lemma WithinNone(s: seq<StreamBuffer>, id: int)
    requires id != INVALID_STREAM_ID
    requires forall x :: x in multiset(Filled(s)) ==> x.streamId != id
    ensures Within(s, {id}) == []
  {
    FilledCount(s);
    forall x | x in s ensures x.streamId !in {id} {
      assert x in multiset(s);
      assert IsFilled(x) ==> x in multiset(Filled(s));
    }
    SelectNoneOrAll(s, {id});
  }
}
