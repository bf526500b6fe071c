// Dual IR: a logical request is split into one request per IR camera, and the metadata of the
// cameras is joined into one result again.
module DualIrModel {
  import opened HalTypes

  datatype Stream = Stream(id: int, isPhysical: bool, camera: nat)

  datatype Cameras = Cameras(logical: nat, lead: nat)

  datatype BlockRequest = BlockRequest(camera: nat, outputs: seq<StreamBuffer>)

  // ---------- Splitting ----------

  // Logical streams belong to the lead camera. A later stream with the same id wins.
  function Assigned(lead: nat, before: map<int, nat>, streams: seq<Stream>): map<int, nat> {
    if streams == [] then before
    else
      var last := streams[|streams| - 1];
      Assigned(lead, before, streams[..|streams| - 1])[last.id := if last.isPhysical then last.camera else lead]
  }

  // Looking up a stream that is not configured yields camera 0.
  function CameraOf(owners: map<int, nat>, id: int): nat {
    if id in owners then owners[id] else 0
  }

  // The buffers for one camera, in the order of the request.
  function OnCamera(owners: map<int, nat>, outputs: seq<StreamBuffer>, camera: nat): seq<StreamBuffer> {
    if outputs == [] then []
    else
      var front, last := OnCamera(owners, outputs[..|outputs| - 1], camera), outputs[|outputs| - 1];
      if CameraOf(owners, last.streamId) == camera then front + [last] else front
  }

  function CamerasOf(owners: map<int, nat>, outputs: seq<StreamBuffer>): set<nat> {
    set b | b in outputs :: CameraOf(owners, b.streamId)
  }

  // One block request for each camera that has a buffer, by ascending camera id.
  ghost predicate IsSplit(owners: map<int, nat>, outputs: seq<StreamBuffer>, blocks: seq<BlockRequest>) {
    && (forall i, j :: 0 <= i < j < |blocks| ==> blocks[i].camera < blocks[j].camera)
    && (forall i :: 0 <= i < |blocks| ==>
          blocks[i].camera in CamerasOf(owners, outputs)
          && blocks[i].outputs == OnCamera(owners, outputs, blocks[i].camera))
    && (forall c :: c in CamerasOf(owners, outputs) ==> exists i :: 0 <= i < |blocks| && blocks[i].camera == c)
  }

  lemma {:induction false} OnCameraCount(owners: map<int, nat>, outputs: seq<StreamBuffer>, camera: nat,
                                         b: StreamBuffer)
    ensures multiset(OnCamera(owners, outputs, camera))[b] ==
            if CameraOf(owners, b.streamId) == camera then multiset(outputs)[b] else 0
  {
    if outputs != [] {
      var front := outputs[..|outputs| - 1];
      assert outputs == front + [outputs[|outputs| - 1]];
      OnCameraCount(owners, front, camera, b);
    }
  }

  function AllOutputs(blocks: seq<BlockRequest>): multiset<StreamBuffer> {
    if blocks == [] then multiset{} else AllOutputs(blocks[..|blocks| - 1]) + multiset(blocks[|blocks| - 1].outputs)
  }

  // Of one buffer, all copies are in the block request of its camera.
  lemma {:induction false} SplitCount(owners: map<int, nat>, outputs: seq<StreamBuffer>, blocks: seq<BlockRequest>,
                                      b: StreamBuffer)
    requires forall i, j :: 0 <= i < j < |blocks| ==> blocks[i].camera < blocks[j].camera
    requires forall i :: 0 <= i < |blocks| ==> blocks[i].outputs == OnCamera(owners, outputs, blocks[i].camera)
    ensures
      var there := exists i :: 0 <= i < |blocks| && blocks[i].camera == CameraOf(owners, b.streamId);
      AllOutputs(blocks)[b] == if there then multiset(outputs)[b] else 0
  {
    if blocks != [] {
      var front, last := blocks[..|blocks| - 1], blocks[|blocks| - 1];
      assert forall i :: 0 <= i < |front| ==> front[i] == blocks[i];
      SplitCount(owners, outputs, front, b);
      OnCameraCount(owners, outputs, last.camera, b);
      if last.camera != CameraOf(owners, b.streamId)
         && exists i :: 0 <= i < |blocks| && blocks[i].camera == CameraOf(owners, b.streamId) {
        var i :| 0 <= i < |blocks| && blocks[i].camera == CameraOf(owners, b.streamId);
        assert front[i].camera == CameraOf(owners, b.streamId);
      }
    }
  }

  // The split is a partition: every output buffer is in exactly one block request.
  lemma SplitConserves(owners: map<int, nat>, outputs: seq<StreamBuffer>, blocks: seq<BlockRequest>)
    requires IsSplit(owners, outputs, blocks)
    ensures AllOutputs(blocks) == multiset(outputs)
  {
    forall b ensures AllOutputs(blocks)[b] == multiset(outputs)[b] {
      SplitCount(owners, outputs, blocks, b);
      assert b in outputs ==> CameraOf(owners, b.streamId) in CamerasOf(owners, outputs);
      assert b in outputs <==> b in multiset(outputs);
    }
  }

  // A split is determined by the request.
  lemma SplitUnique(owners: map<int, nat>, outputs: seq<StreamBuffer>, a: seq<BlockRequest>, b: seq<BlockRequest>)
    requires IsSplit(owners, outputs, a) && IsSplit(owners, outputs, b)
    ensures a == b
  {
    if a != [] { var i := IndexAtLeast(owners, outputs, a, b, |a| - 1); }
    if b != [] { var i := IndexAtLeast(owners, outputs, b, a, |b| - 1); }
    forall k | 0 <= k < |a| ensures a[k] == b[k] {
      SameAt(owners, outputs, a, b, k);
    }
  }

  // The camera in slot `k` of one split is in no earlier slot of the other.
  lemma {:induction false} IndexAtLeast(owners: map<int, nat>, outputs: seq<StreamBuffer>,
                                        a: seq<BlockRequest>, b: seq<BlockRequest>, k: nat) returns (i: nat)
    requires IsSplit(owners, outputs, a) && IsSplit(owners, outputs, b) && k < |a|
    ensures k <= i < |b| && b[i].camera == a[k].camera
  {
    assert a[k].camera in CamerasOf(owners, outputs);
    var there :| 0 <= there < |b| && b[there].camera == a[k].camera;
    i := there;
    if k > 0 {
      var before := IndexAtLeast(owners, outputs, a, b, k - 1);
      assert a[k - 1].camera < a[k].camera;
    }
  }

  // Cameras ascend, so a camera in slot `k` is in slot `k` of the other split as well.
  lemma SameAt(owners: map<int, nat>, outputs: seq<StreamBuffer>, a: seq<BlockRequest>, b: seq<BlockRequest>, k: nat)
    requires IsSplit(owners, outputs, a) && IsSplit(owners, outputs, b) && k < |a| && k < |b|
    ensures a[k] == b[k]
  {
    var i := IndexAtLeast(owners, outputs, a, b, k);
    var j := IndexAtLeast(owners, outputs, b, a, k);
    AtMost(b, k, i);
    AtMost(a, k, j);
  }

  lemma AtMost(blocks: seq<BlockRequest>, k: nat, i: nat)
    requires forall i, j :: 0 <= i < j < |blocks| ==> blocks[i].camera < blocks[j].camera
    requires k <= i < |blocks|
    ensures blocks[k].camera <= blocks[i].camera
  {
  }

  // ---------- Joining ----------

  // The metadata waited for: the lead camera's for the logical camera, and one for each physical
  // camera the framework has asked for.
  datatype Pending = Pending(metadata: Option<nat>, physical: map<nat, Option<nat>>)

  datatype Merged = Merged(metadata: nat, physical: map<nat, nat>)

  datatype FrameState = FrameState(
    pending: Option<Pending>,
    sent: seq<Merged>,                // merged metadata results
    passed: seq<StreamBuffer>)        // buffers passed on

  const INITIAL := FrameState(None, [], [])

  datatype Event =
    | Request(frame: nat, needed: set<nat>)
    | Answer(frame: nat, camera: nat, metadata: Option<nat>, outputs: seq<StreamBuffer>)

  // The physical cameras whose streams the framework itself has configured as physical.
  function Needed(cs: Cameras, framework: map<int, nat>, outputs: seq<StreamBuffer>): set<nat> {
    set b | b in outputs && b.streamId in framework && framework[b.streamId] != cs.logical :: framework[b.streamId]
  }

  function Asked(needed: set<nat>): Pending {
    Pending(None, map c | c in needed :: None)
  }

  predicate HasAll(p: Pending) {
    p.metadata.Some? && forall c :: c in p.physical ==> p.physical[c].Some?
  }

  function MergedOf(p: Pending): Merged
    requires HasAll(p)
  {
    Merged(p.metadata.value, map c | c in p.physical :: p.physical[c].value)
  }

  function TrySend(s: FrameState, p: Pending): FrameState {
    if HasAll(p) then s.(pending := None, sent := s.sent + [MergedOf(p)]) else s.(pending := Some(p))
  }

  // A second answer of the lead camera, or of a camera that is waited for, is an error.
  predicate IsDuplicate(cs: Cameras, p: Pending, camera: nat) {
    || (camera == cs.lead && p.metadata.Some?)
    || (camera in p.physical && p.physical[camera].Some?)
  }

  function Answered(cs: Cameras, p: Pending, camera: nat, metadata: nat): Pending {
    Pending(
      if camera == cs.lead then Some(metadata) else p.metadata,
      if camera in p.physical then p.physical[camera := Some(metadata)] else p.physical)
  }

  function StepMetadata(cs: Cameras, s: FrameState, camera: nat, metadata: nat): FrameState {
    if s.pending.None? then s
    else if camera == cs.lead && s.pending.value.metadata.Some? then s
    else if camera in s.pending.value.physical && s.pending.value.physical[camera].Some? then
      if camera == cs.lead then s.(pending := Some(s.pending.value.(metadata := Some(metadata)))) else s
    else TrySend(s, Answered(cs, s.pending.value, camera, metadata))
  }

  function Step(cs: Cameras, f: nat, s: FrameState, e: Event): FrameState {
    if e.frame != f then s
    else
      match e
      case Request(_, needed) => s.(pending := Some(Asked(needed)))
      case Answer(_, camera, metadata, outputs) =>
        var s1 := if metadata.Some? then StepMetadata(cs, s, camera, metadata.value) else s;
        s1.(passed := s1.passed + outputs)
  }

  function Run(cs: Cameras, f: nat, es: seq<Event>): FrameState {
    if es == [] then INITIAL
    else Step(cs, f, Run(cs, f, es[..|es| - 1]), es[|es| - 1])
  }

  // ---------- Every run ----------

  // The needs of the frame's request, once it has been made.
  function NeededIn(f: nat, es: seq<Event>): Option<set<nat>> {
    if es == [] then None
    else
      var e := es[|es| - 1];
      if e.Request? && e.frame == f then Some(e.needed) else NeededIn(f, es[..|es| - 1])
  }

  // The first answer of each camera since the request.
  function FirstAnswers(f: nat, es: seq<Event>): map<nat, nat> {
    if es == [] then map[]
    else
      var before, e := FirstAnswers(f, es[..|es| - 1]), es[|es| - 1];
      if e.Answer? && e.frame == f && e.metadata.Some? && NeededIn(f, es[..|es| - 1]).Some? && e.camera !in before then
        before[e.camera := e.metadata.value]
      else before
  }

  // A frame is requested once.
  ghost predicate Orderly(f: nat, es: seq<Event>) {
    es != [] ==>
      var before, e := es[..|es| - 1], es[|es| - 1];
      Orderly(f, before) && (e.Request? && e.frame == f ==> NeededIn(f, before).None?)
  }

  predicate IsComplete(cs: Cameras, needed: set<nat>, first: map<nat, nat>) {
    cs.lead in first && forall c :: c in needed ==> c in first
  }

  function MergedFrom(cs: Cameras, needed: set<nat>, first: map<nat, nat>): Merged
    requires IsComplete(cs, needed, first)
  {
    Merged(first[cs.lead], map c | c in needed :: first[c])
  }

  ghost predicate Tracks(cs: Cameras, p: Pending, needed: set<nat>, first: map<nat, nat>) {
    && p.physical.Keys == needed
    && p.metadata == (if cs.lead in first then Some(first[cs.lead]) else None)
    && forall c :: c in needed ==> p.physical[c] == if c in first then Some(first[c]) else None
  }

  // The simple form of the join: a function of the needs and the first answers alone.
  ghost predicate Joined(cs: Cameras, needed: Option<set<nat>>, first: map<nat, nat>, s: FrameState) {
    match needed
    case None => s.pending.None? && s.sent == []
    case Some(cameras) =>
      if IsComplete(cs, cameras, first) then s.pending.None? && s.sent == [MergedFrom(cs, cameras, first)]
      else s.sent == [] && s.pending.Some? && Tracks(cs, s.pending.value, cameras, first)
  }

  lemma AnswerTracks(cs: Cameras, p: Pending, needed: set<nat>, first: map<nat, nat>, camera: nat, metadata: nat)
    requires Tracks(cs, p, needed, first)
    ensures camera in first && (camera == cs.lead || camera in needed) ==> IsDuplicate(cs, p, camera)
    ensures camera !in first ==>
              !IsDuplicate(cs, p, camera)
              && Tracks(cs, Answered(cs, p, camera, metadata), needed, first[camera := metadata])
  {
  }

  lemma SendWhenComplete(cs: Cameras, s: FrameState, p: Pending, needed: set<nat>, first: map<nat, nat>)
    requires Tracks(cs, p, needed, first) && s.sent == []
    ensures Joined(cs, Some(needed), first, TrySend(s, p))
  {
    assert HasAll(p) <==> IsComplete(cs, needed, first);
    if HasAll(p) {
      assert MergedOf(p).physical == MergedFrom(cs, needed, first).physical;
    }
  }

  lemma MetadataJoins(cs: Cameras, s: FrameState, needed: set<nat>, first: map<nat, nat>, camera: nat, metadata: nat)
    requires Joined(cs, Some(needed), first, s)
    ensures
      var first' := if camera in first then first else first[camera := metadata];
      Joined(cs, Some(needed), first', StepMetadata(cs, s, camera, metadata))
  {
    if !IsComplete(cs, needed, first) {
      var p := s.pending.value;
      AnswerTracks(cs, p, needed, first, camera, metadata);
      if camera !in first {
        SendWhenComplete(cs, s, Answered(cs, p, camera, metadata), needed, first[camera := metadata]);
      } else if camera != cs.lead && camera !in needed {
        assert Answered(cs, p, camera, metadata) == p;
        SendWhenComplete(cs, s, p, needed, first);
      }
    } else if camera !in first {
      var first' := first[camera := metadata];
      assert MergedFrom(cs, needed, first').physical == MergedFrom(cs, needed, first).physical;
    }
  }

  // Over every run, whatever the order of the answers and however often a camera answers: the merged
  // metadata of a frame is sent at most once, exactly when the lead camera and every camera the
  // framework asked for have answered, with the first answer of each.
  lemma {:induction false} JoinedOnce(cs: Cameras, f: nat, es: seq<Event>)
    requires Orderly(f, es)
    ensures Joined(cs, NeededIn(f, es), FirstAnswers(f, es), Run(cs, f, es))
  {
    if es != [] {
      var before, e := es[..|es| - 1], es[|es| - 1];
      JoinedOnce(cs, f, before);
      if e.frame == f {
        var s := Run(cs, f, before);
        if e.Request? {
          NoAnswersYet(f, before);
          SendWhenComplete(cs, s, Asked(e.needed), e.needed, map[]);
        } else if e.metadata.Some? && NeededIn(f, before).Some? {
          MetadataJoins(cs, s, NeededIn(f, before).value, FirstAnswers(f, before), e.camera, e.metadata.value);
        }
      }
    }
  }

  lemma {:induction false} NoAnswersYet(f: nat, es: seq<Event>)
    requires NeededIn(f, es).None?
    ensures FirstAnswers(f, es) == map[]
  {
    if es != [] { NoAnswersYet(f, es[..|es| - 1]); }
  }

  // Two runs with the same first answers send the same metadata.
  lemma JoinConfluence(cs: Cameras, f: nat, es: seq<Event>, es': seq<Event>)
    requires Orderly(f, es) && Orderly(f, es')
    requires NeededIn(f, es) == NeededIn(f, es') && FirstAnswers(f, es) == FirstAnswers(f, es')
    ensures Run(cs, f, es).sent == Run(cs, f, es').sent
  {
    JoinedOnce(cs, f, es);
    JoinedOnce(cs, f, es');
  }

  // ---------- Split and join together ----------

  // The stream configuration as the two processors see it: the request side assigns logical streams
  // to the lead camera, the result side marks them with the logical camera.
  ghost predicate SameConfiguration(cs: Cameras, owners: map<int, nat>, framework: map<int, nat>) {
    && framework.Keys == owners.Keys
    && forall id :: id in owners ==>
         owners[id] == if framework[id] == cs.logical then cs.lead else framework[id]
  }

  // They come from one list of streams, no physical one of which is for the logical camera.
  lemma {:induction false} ConfigurationsAgree(cs: Cameras, streams: seq<Stream>)
    requires forall s :: s in streams && s.isPhysical ==> s.camera != cs.logical
    ensures SameConfiguration(cs, Assigned(cs.lead, map[], streams), Assigned(cs.logical, map[], streams))
  {
    if streams != [] {
      assert forall s :: s in streams[..|streams| - 1] ==> s in streams;
      assert streams[|streams| - 1] in streams;
      ConfigurationsAgree(cs, streams[..|streams| - 1]);
    }
  }

  // What the block requests of a frame need together.
  function NeededByBlocks(cs: Cameras, framework: map<int, nat>, blocks: seq<BlockRequest>): set<nat> {
    if blocks == [] then {}
    else
      NeededByBlocks(cs, framework, blocks[..|blocks| - 1]) + Needed(cs, framework, blocks[|blocks| - 1].outputs)
  }

  lemma {:induction false} NeededByBlocksHas(cs: Cameras, framework: map<int, nat>, blocks: seq<BlockRequest>)
    ensures forall c :: c in NeededByBlocks(cs, framework, blocks) <==>
              exists i :: 0 <= i < |blocks| && c in Needed(cs, framework, blocks[i].outputs)
  {
    if blocks != [] {
      var front := blocks[..|blocks| - 1];
      NeededByBlocksHas(cs, framework, front);
      assert forall i :: 0 <= i < |front| ==> front[i] == blocks[i];
    }
  }

  lemma OnCameraMembers(owners: map<int, nat>, outputs: seq<StreamBuffer>, camera: nat)
    ensures forall b :: b in OnCamera(owners, outputs, camera) <==>
                        b in outputs && CameraOf(owners, b.streamId) == camera
  {
    forall b ensures b in OnCamera(owners, outputs, camera) <==>
                     b in outputs && CameraOf(owners, b.streamId) == camera
    {
      OnCameraCount(owners, outputs, camera, b);
      assert b in OnCamera(owners, outputs, camera) <==> b in multiset(OnCamera(owners, outputs, camera));
      assert b in outputs <==> b in multiset(outputs);
    }
  }

  // Splitting a request does not change what it needs.
  lemma SplitNeedsTheSame(cs: Cameras, framework: map<int, nat>, owners: map<int, nat>,
                          outputs: seq<StreamBuffer>, blocks: seq<BlockRequest>)
    requires IsSplit(owners, outputs, blocks)
    ensures NeededByBlocks(cs, framework, blocks) == Needed(cs, framework, outputs)
  {
    NeededByBlocksHas(cs, framework, blocks);
    forall i | 0 <= i < |blocks| ensures Needed(cs, framework, blocks[i].outputs) <= Needed(cs, framework, outputs) {
      OnCameraMembers(owners, outputs, blocks[i].camera);
    }
    forall c | c in Needed(cs, framework, outputs)
      ensures exists i :: 0 <= i < |blocks| && c in Needed(cs, framework, blocks[i].outputs)
    {
      var b :| b in outputs && b.streamId in framework && framework[b.streamId] != cs.logical
               && c == framework[b.streamId];
      assert CameraOf(owners, b.streamId) in CamerasOf(owners, outputs);
      var i :| 0 <= i < |blocks| && blocks[i].camera == CameraOf(owners, b.streamId);
      OnCameraMembers(owners, outputs, blocks[i].camera);
      assert c in Needed(cs, framework, blocks[i].outputs);
    }
  }

  // Only cameras that have been sent a block request answer.
  ghost predicate AnsweredBy(f: nat, es: seq<Event>, cameras: set<nat>) {
    forall i :: 0 <= i < |es| && es[i].Answer? && es[i].frame == f ==> es[i].camera in cameras
  }

  lemma {:induction false} FirstAnswersBy(f: nat, es: seq<Event>, cameras: set<nat>)
    requires AnsweredBy(f, es, cameras)
    ensures forall c :: c in FirstAnswers(f, es) ==> c in cameras
  {
    if es != [] {
      var before := es[..|es| - 1];
      assert forall i :: 0 <= i < |before| ==> before[i] == es[i];
      FirstAnswersBy(f, before, cameras);
    }
  }

  // A camera the framework asked for has been sent a block request.
  lemma NeededAreAsked(cs: Cameras, owners: map<int, nat>, framework: map<int, nat>, outputs: seq<StreamBuffer>)
    requires SameConfiguration(cs, owners, framework)
    ensures Needed(cs, framework, outputs) <= CamerasOf(owners, outputs)
  {
  }

  // A frame's metadata can be merged if and only if its request has a buffer for the lead camera:
  // without one it is never sent, with one it has been sent once all cameras asked have answered.
  lemma MergedIffLeadAsked(cs: Cameras, owners: map<int, nat>, framework: map<int, nat>, outputs: seq<StreamBuffer>,
                           f: nat, es: seq<Event>)
    requires SameConfiguration(cs, owners, framework) && Orderly(f, es)
    requires NeededIn(f, es) == Some(Needed(cs, framework, outputs))
    requires AnsweredBy(f, es, CamerasOf(owners, outputs))
    ensures cs.lead !in CamerasOf(owners, outputs) ==> Run(cs, f, es).sent == []
    ensures cs.lead in CamerasOf(owners, outputs) && CamerasOf(owners, outputs) <= FirstAnswers(f, es).Keys ==>
              |Run(cs, f, es).sent| == 1
  {
    JoinedOnce(cs, f, es);
    FirstAnswersBy(f, es, CamerasOf(owners, outputs));
    NeededAreAsked(cs, owners, framework, outputs);
  }

  // The shortest such run: the only buffer is on a physical stream of another camera, and that
  // camera's answer is kept for ever.
  lemma WithoutLeadNeverSent()
    ensures
      var (cs, streams, b) := (Cameras(0, 1), [Stream(5, true, 2)], StreamBuffer(5, 10, 20, BufferOk));
      var owners, framework := Assigned(cs.lead, map[], streams), Assigned(cs.logical, map[], streams);
      var es := [Request(0, Needed(cs, framework, [b]))] + [Answer(0, 2, Some(9), [])];
      && SameConfiguration(cs, owners, framework) && AnsweredBy(0, es, CamerasOf(owners, [b]))
      && Run(cs, 0, es).sent == [] && Run(cs, 0, es).pending == Some(Pending(None, map[2 := Some(9)]))
  {
    var cs, streams, b := Cameras(0, 1), [Stream(5, true, 2)], StreamBuffer(5, 10, 20, BufferOk);
    assert streams[..0] == [];
    assert Assigned(cs.lead, map[], streams) == Assigned(cs.logical, map[], streams) == map[5 := 2];
    assert b in [b] && Needed(cs, map[5 := 2], [b]) == {2} && CamerasOf(map[5 := 2], [b]) == {2};
    OneCameraRun(cs);
  }

  lemma OneCameraRun(cs: Cameras)
    requires cs.lead != 2
    ensures Run(cs, 0, [Request(0, {2})] + [Answer(0, 2, Some(9), [])]) ==
            FrameState(Some(Pending(None, map[2 := Some(9)])), [], [])
  {
    var request, answer := Request(0, {2}), Answer(0, 2, Some(9), []);
    assert [request][..0] == [] && ([request] + [answer])[..1] == [request];
    assert Asked({2}).physical == map[2 := None];
    assert Run(cs, 0, [request]) == FrameState(Some(Pending(None, map[2 := None])), [], []);
    assert map[2 := None][2 := Some(9)] == map[2 := Some(9)];
    assert Answered(cs, Pending(None, map[2 := None]), 2, 9) == Pending(None, map[2 := Some(9)]);
  }
}
