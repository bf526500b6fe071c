// The buffers of a dual IR frame on their way down and back: which camera gets which buffer, which
// cameras are waited for, and that the framework gets all buffers back.
module DualIrBuffers {
  import opened HalTypes
  import opened DualIrModel

  // ---------- Which camera ----------

  // The last configuration of a stream decides: a physical stream belongs to its camera and a logical
  // one to the given camera.
  lemma {:induction false} AssignedIsLast(camera: nat, before: map<int, nat>, streams: seq<Stream>, i: nat)
    requires i < |streams| && forall j :: i < j < |streams| ==> streams[j].id != streams[i].id
    ensures
      var (owners, stream) := (Assigned(camera, before, streams), streams[i]);
      stream.id in owners && owners[stream.id] == if stream.isPhysical then stream.camera else camera
  {
    if i < |streams| - 1 {
      assert streams[|streams| - 1].id != streams[i].id;
      AssignedIsLast(camera, before, streams[..|streams| - 1], i);
    }
  }

  // A stream that is not configured keeps its owner, if it has one.
  lemma {:induction false} OthersKeepOwner(camera: nat, before: map<int, nat>, streams: seq<Stream>, id: int)
    requires forall i :: 0 <= i < |streams| ==> streams[i].id != id
    ensures
      var owners := Assigned(camera, before, streams);
      (id in owners <==> id in before) && (id in before ==> owners[id] == before[id])
  {
    if streams != [] {
      assert streams[|streams| - 1].id != id;
      OthersKeepOwner(camera, before, streams[..|streams| - 1], id);
    }
  }

  // A block request holds the buffers whose stream belongs to its camera; a stream that is not
  // configured belongs to camera 0.
  lemma BlockHolds(owners: map<int, nat>, outputs: seq<StreamBuffer>, blocks: seq<BlockRequest>, i: nat,
                   b: StreamBuffer)
    requires IsSplit(owners, outputs, blocks) && i < |blocks|
    ensures b in blocks[i].outputs <==>
            b in outputs && blocks[i].camera == if b.streamId in owners then owners[b.streamId] else 0
  {
    OnCameraMembers(owners, outputs, blocks[i].camera);
  }

  // The buffers of a camera are in the order of the request.
  lemma {:induction false} OnCameraConcat(owners: map<int, nat>, a: seq<StreamBuffer>, b: seq<StreamBuffer>,
                                          camera: nat)
    ensures OnCamera(owners, a + b, camera) == OnCamera(owners, a, camera) + OnCamera(owners, b, camera)
  {
    if b == [] {
      assert a + b == a;
    } else {
      assert (a + b)[..|a + b| - 1] == a + b[..|b| - 1];
      OnCameraConcat(owners, a, b[..|b| - 1], camera);
    }
  }

  // The cameras waited for are those whose physical streams the block requests use.
  lemma NeededIff(cs: Cameras, framework: map<int, nat>, blocks: seq<BlockRequest>, c: nat)
    ensures c in NeededByBlocks(cs, framework, blocks) <==>
            c != cs.logical
            && exists i, b :: 0 <= i < |blocks| && b in blocks[i].outputs
                              && b.streamId in framework && framework[b.streamId] == c
  {
    NeededByBlocksHas(cs, framework, blocks);
    if i, b :| 0 <= i < |blocks| && b in blocks[i].outputs && b.streamId in framework
               && framework[b.streamId] == c && c != cs.logical {
      assert c in Needed(cs, framework, blocks[i].outputs);
    }
  }

  // ---------- All buffers come back ----------

  // The buffers with which the given cameras have answered for a frame, in order.
  function AnsweredWith(f: nat, es: seq<Event>, cameras: set<nat>): seq<StreamBuffer> {
    if es == [] then []
    else
      var e := es[|es| - 1];
      AnsweredWith(f, es[..|es| - 1], cameras)
      + if e.Answer? && e.frame == f && e.camera in cameras then e.outputs else []
  }

  // All buffers that have come for a frame.
  function AllAnswered(f: nat, es: seq<Event>): seq<StreamBuffer> {
    if es == [] then []
    else
      var e := es[|es| - 1];
      AllAnswered(f, es[..|es| - 1]) + if e.Answer? && e.frame == f then e.outputs else []
  }

  lemma StepPasses(cs: Cameras, f: nat, s: FrameState, e: Event)
    ensures Step(cs, f, s, e).passed == s.passed + if e.Answer? && e.frame == f then e.outputs else []
  {
    assert s.passed + [] == s.passed;
  }

  // In every run the framework gets exactly the buffers that have come for the frame, in their order,
  // whatever becomes of the metadata.
  lemma {:induction false} BuffersPassOn(cs: Cameras, f: nat, es: seq<Event>)
    ensures Run(cs, f, es).passed == AllAnswered(f, es)
  {
    if es != [] {
      BuffersPassOn(cs, f, es[..|es| - 1]);
      StepPasses(cs, f, Run(cs, f, es[..|es| - 1]), es[|es| - 1]);
    }
  }

  lemma {:induction false} AnsweredByAll(f: nat, es: seq<Event>, cameras: set<nat>)
    requires AnsweredBy(f, es, cameras)
    ensures AnsweredWith(f, es, cameras) == AllAnswered(f, es)
  {
    if es != [] {
      assert forall i :: 0 <= i < |es| - 1 ==> es[..|es| - 1][i] == es[i];
      AnsweredByAll(f, es[..|es| - 1], cameras);
    }
  }

  lemma AddAnswers(a: multiset<StreamBuffer>, b: multiset<StreamBuffer>, ab: multiset<StreamBuffer>,
                   x: multiset<StreamBuffer>)
    requires ab == a + b
    ensures ab + x == (a + x) + b && ab + x == a + (b + x)
  {
  }

  // One camera more adds its answers.
  lemma {:induction false} OneCameraMore(f: nat, es: seq<Event>, cameras: set<nat>, c: nat)
    requires c !in cameras
    ensures multiset(AnsweredWith(f, es, cameras + {c})) ==
            multiset(AnsweredWith(f, es, cameras)) + multiset(AnsweredWith(f, es, {c}))
  {
    if es != [] {
      var before, e := es[..|es| - 1], es[|es| - 1];
      OneCameraMore(f, before, cameras, c);
      if e.Answer? {
        AddAnswers(multiset(AnsweredWith(f, before, cameras)), multiset(AnsweredWith(f, before, {c})),
                   multiset(AnsweredWith(f, before, cameras + {c})), multiset(e.outputs));
      }
    }
  }

  function CamerasIn(blocks: seq<BlockRequest>): set<nat> {
    if blocks == [] then {} else CamerasIn(blocks[..|blocks| - 1]) + {blocks[|blocks| - 1].camera}
  }

  lemma {:induction false} CamerasInHas(blocks: seq<BlockRequest>, c: nat)
    ensures c in CamerasIn(blocks) <==> exists i :: 0 <= i < |blocks| && blocks[i].camera == c
  {
    if blocks != [] {
      var front := blocks[..|blocks| - 1];
      CamerasInHas(front, c);
      assert forall i :: 0 <= i < |front| ==> front[i] == blocks[i];
    }
  }

  // Each camera has answered with the buffers of its block request.
  ghost predicate AnsweredInFull(f: nat, es: seq<Event>, blocks: seq<BlockRequest>) {
    forall i :: 0 <= i < |blocks| ==>
      multiset(AnsweredWith(f, es, {blocks[i].camera})) == multiset(blocks[i].outputs)
  }

  lemma {:induction false} BlocksAnswered(f: nat, es: seq<Event>, blocks: seq<BlockRequest>)
    requires forall i, j :: 0 <= i < j < |blocks| ==> blocks[i].camera < blocks[j].camera
    requires AnsweredInFull(f, es, blocks)
    ensures multiset(AnsweredWith(f, es, CamerasIn(blocks))) == AllOutputs(blocks)
  {
    if blocks == [] {
      NoCamera(f, es);
    } else {
      var front, last := blocks[..|blocks| - 1], blocks[|blocks| - 1];
      assert forall i :: 0 <= i < |front| ==> front[i] == blocks[i];
      BlocksAnswered(f, es, front);
      CamerasInHas(front, last.camera);
      OneCameraMore(f, es, CamerasIn(front), last.camera);
    }
  }

  lemma {:induction false} NoCamera(f: nat, es: seq<Event>)
    ensures AnsweredWith(f, es, {}) == []
  {
    if es != [] { NoCamera(f, es[..|es| - 1]); }
  }

  // If each camera answers with the buffers of its block request, and no other camera does, the
  // framework gets back exactly the buffers of its request.
  lemma AllBuffersComeBack(cs: Cameras, owners: map<int, nat>, outputs: seq<StreamBuffer>, blocks: seq<BlockRequest>,
                           f: nat, es: seq<Event>)
    requires IsSplit(owners, outputs, blocks)
    requires AnsweredBy(f, es, CamerasOf(owners, outputs)) && AnsweredInFull(f, es, blocks)
    ensures multiset(Run(cs, f, es).passed) == multiset(outputs)
  {
    forall c ensures c in CamerasIn(blocks) <==> c in CamerasOf(owners, outputs) {
      CamerasInHas(blocks, c);
    }
    assert CamerasIn(blocks) == CamerasOf(owners, outputs);
    BuffersPassOn(cs, f, es);
    AnsweredByAll(f, es, CamerasIn(blocks));
    BlocksAnswered(f, es, blocks);
    SplitConserves(owners, outputs, blocks);
  }
}
