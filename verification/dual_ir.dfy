// The two dual IR processors as classes, proved to do what DualIrModel says.
module DualIr {
  import opened HalTypes
  import opened DualIrModel

  ghost function ByCamera(owners: map<int, nat>, outputs: seq<StreamBuffer>): map<nat, seq<StreamBuffer>> {
    map c | c in CamerasOf(owners, outputs) :: OnCamera(owners, outputs, c)
  }

  lemma ByCameraNext(owners: map<int, nat>, outputs: seq<StreamBuffer>, b: StreamBuffer)
    ensures
      var (before, camera) := (ByCamera(owners, outputs), CameraOf(owners, b.streamId));
      ByCamera(owners, outputs + [b]) == before[camera := (if camera in before then before[camera] else []) + [b]]
  {
    var camera := CameraOf(owners, b.streamId);
    assert (outputs + [b])[..|outputs|] == outputs;
    assert CamerasOf(owners, outputs + [b]) == CamerasOf(owners, outputs) + {camera};
    if camera !in CamerasOf(owners, outputs) { NoneOnCamera(owners, outputs, camera); }
  }

  lemma {:induction false} NoneOnCamera(owners: map<int, nat>, outputs: seq<StreamBuffer>, camera: nat)
    requires camera !in CamerasOf(owners, outputs)
    ensures OnCamera(owners, outputs, camera) == []
  {
    if outputs != [] {
      var front := outputs[..|outputs| - 1];
      assert forall b :: b in front ==> b in outputs;
      assert outputs[|outputs| - 1] in outputs;
      assert camera !in CamerasOf(owners, front);
      NoneOnCamera(owners, front, camera);
    }
  }

  // Splits requests by camera.
  class DualIrRequestProcessor {
    const leadCameraId: nat
    var streamPhysicalCameraIds: map<int, nat>

    constructor (leadCameraId: nat)
      ensures this.leadCameraId == leadCameraId && streamPhysicalCameraIds == map[]
    {
      this.leadCameraId := leadCameraId;
      streamPhysicalCameraIds := map[];
    }

    // Logical streams are handed to the process block as physical streams of the lead camera.
    method ConfigureStreams(streams: seq<Stream>) returns (configured: seq<Stream>)
      modifies this
      ensures streamPhysicalCameraIds == Assigned(leadCameraId, old(streamPhysicalCameraIds), streams)
      ensures |configured| == |streams|
      ensures forall i :: 0 <= i < |streams| ==>
                configured[i] == if streams[i].isPhysical then streams[i] else Stream(streams[i].id, true, leadCameraId)
    {
      configured := [];
      for i := 0 to |streams|
        invariant |configured| == i
        invariant forall k :: 0 <= k < i ==>
                    configured[k] ==
                    if streams[k].isPhysical then streams[k] else Stream(streams[k].id, true, leadCameraId)
        invariant streamPhysicalCameraIds == Assigned(leadCameraId, old(streamPhysicalCameraIds), streams[..i])
      {
        assert streams[..i + 1][..i] == streams[..i];
        var stream := streams[i];
        if !stream.isPhysical {
          stream := stream.(isPhysical := true, camera := leadCameraId);
        }
        streamPhysicalCameraIds := streamPhysicalCameraIds[stream.id := stream.camera];
        configured := configured + [stream];
      }
      assert streams[..|streams|] == streams;
    }

    // One block request per camera, by ascending camera id.
    method ProcessRequest(outputs: seq<StreamBuffer>) returns (blocks: seq<BlockRequest>)
      modifies this
      ensures IsSplit(old(streamPhysicalCameraIds), outputs, blocks)
      ensures forall id :: CameraOf(streamPhysicalCameraIds, id) == CameraOf(old(streamPhysicalCameraIds), id)
    {
      var requests := SortByCamera(outputs);
      blocks := BlockRequests(requests);
      assert forall c :: c in CamerasOf(old(streamPhysicalCameraIds), outputs) ==> c in requests;
    }

    method BlockRequests(requests: map<nat, seq<StreamBuffer>>) returns (blocks: seq<BlockRequest>)
      ensures forall i, j :: 0 <= i < j < |blocks| ==> blocks[i].camera < blocks[j].camera
      ensures forall i :: 0 <= i < |blocks| ==>
                blocks[i].camera in requests && blocks[i].outputs == requests[blocks[i].camera]
      ensures forall c :: c in requests ==> exists i :: 0 <= i < |blocks| && blocks[i].camera == c
    {
      blocks := [];
      var left := requests.Keys;
      while left != {}
        invariant left <= requests.Keys
        invariant forall i, j :: 0 <= i < j < |blocks| ==> blocks[i].camera < blocks[j].camera
        invariant forall i :: 0 <= i < |blocks| ==>
                    blocks[i].camera in requests && blocks[i].outputs == requests[blocks[i].camera]
        invariant forall i, c :: 0 <= i < |blocks| && c in left ==> blocks[i].camera < c
        invariant forall c :: c in requests && c !in left ==> exists i :: 0 <= i < |blocks| && blocks[i].camera == c
        decreases left
      {
        var camera := Smallest(left);
        ghost var before := blocks;
        blocks := blocks + [BlockRequest(camera, requests[camera])];
        left := left - {camera};
        assert blocks[|before|].camera == camera;
        assert forall i :: 0 <= i < |before| ==> blocks[i] == before[i];
      }
    }

    // The buffers of each camera, in order. Looking up an unknown stream enters it with camera 0.
    method SortByCamera(outputs: seq<StreamBuffer>) returns (requests: map<nat, seq<StreamBuffer>>)
      modifies this
      ensures requests == ByCamera(old(streamPhysicalCameraIds), outputs)
      ensures forall id :: CameraOf(streamPhysicalCameraIds, id) == CameraOf(old(streamPhysicalCameraIds), id)
    {
      ghost var owners := streamPhysicalCameraIds;
      requests := map[];
      for i := 0 to |outputs|
        invariant forall id :: CameraOf(streamPhysicalCameraIds, id) == CameraOf(owners, id)
        invariant requests == ByCamera(owners, outputs[..i])
      {
        ByCameraNext(owners, outputs[..i], outputs[i]);
        assert outputs[..i + 1] == outputs[..i] + [outputs[i]];
        var camera := LookUp(outputs[i].streamId);
        requests := requests[camera := (if camera in requests then requests[camera] else []) + [outputs[i]]];
      }
      assert outputs[..|outputs|] == outputs;
    }

    method LookUp(id: int) returns (camera: nat)
      modifies this
      ensures camera == CameraOf(old(streamPhysicalCameraIds), id)
      ensures forall k :: CameraOf(streamPhysicalCameraIds, k) == CameraOf(old(streamPhysicalCameraIds), k)
    {
      if id !in streamPhysicalCameraIds {
        streamPhysicalCameraIds := streamPhysicalCameraIds[id := 0];
      }
      camera := streamPhysicalCameraIds[id];
    }

    method Smallest(s: set<nat>) returns (x: nat)
      requires s != {}
      ensures x in s && forall y :: y in s ==> x <= y
    {
      x :| x in s;
      var left := s - {x};
      while left != {}
        invariant x in s && left <= s
        invariant forall y :: y in s && y !in left ==> x <= y
        decreases left
      {
        var y :| y in left;
        if y < x {
          x := y;
        }
        left := left - {y};
      }
    }
  }

  // Joins the metadata of the cameras.
  class DualIrResultRequestProcessor {
    const cameras: Cameras
    var streamCameraIds: map<int, nat>
    var pendingResultMetadata: map<nat, Pending>
    ghost var sent: map<nat, seq<Merged>>
    ghost var passed: map<nat, seq<StreamBuffer>>

    ghost function View(f: nat): FrameState
      reads this
    {
      FrameState(
        if f in pendingResultMetadata then Some(pendingResultMetadata[f]) else None,
        if f in sent then sent[f] else [],
        if f in passed then passed[f] else [])
    }

    constructor (streams: seq<Stream>, cameras: Cameras)
      ensures this.cameras == cameras && streamCameraIds == Assigned(cameras.logical, map[], streams)
      ensures forall f :: View(f) == Run(cameras, f, [])
    {
      this.cameras := cameras;
      pendingResultMetadata, sent, passed := map[], map[], map[];
      streamCameraIds := map[];
      new;
      for i := 0 to |streams|
        invariant streamCameraIds == Assigned(cameras.logical, map[], streams[..i])
        invariant forall f :: View(f) == Run(cameras, f, [])
      {
        assert streams[..i + 1][..i] == streams[..i];
        var stream := streams[i];
        streamCameraIds := streamCameraIds[stream.id := if stream.isPhysical then stream.camera else cameras.logical];
      }
      assert streams[..|streams|] == streams;
    }

    // Add the physical cameras of one block request to those waited for.
    method AddPendingPhysicalCameraMetadata(outputs: seq<StreamBuffer>, before: map<nat, Option<nat>>)
      returns (physical: map<nat, Option<nat>>)
      requires forall c :: c in before ==> before[c].None?
      ensures physical.Keys == before.Keys + Needed(cameras, streamCameraIds, outputs)
      ensures forall c :: c in physical ==> physical[c].None?
    {
      physical := before;
      for i := 0 to |outputs|
        invariant physical.Keys == before.Keys + Needed(cameras, streamCameraIds, outputs[..i])
        invariant forall c :: c in physical ==> physical[c].None?
      {
        assert outputs[..i + 1] == outputs[..i] + [outputs[i]];
        var id := outputs[i].streamId;
        if id in streamCameraIds && streamCameraIds[id] != cameras.logical {
          physical := physical[streamCameraIds[id] := None];
        }
      }
      assert outputs[..|outputs|] == outputs;
    }

    // The last result processor refuses requests that leave a remaining buffer out.
    method AddPendingRequests(f: nat, blocks: seq<BlockRequest>, remaining: seq<StreamBuffer>) returns (ok: bool)
      modifies this`pendingResultMetadata
      ensures ok <==> AllRequested(blocks, remaining)
      ensures
        var needed := NeededByBlocks(cameras, streamCameraIds, blocks);
        forall g :: View(g) == if ok then Step(cameras, g, old(View(g)), Request(f, needed)) else old(View(g))
    {
      ok := AreAllRemainingBuffersRequested(blocks, remaining);
      if !ok {
        return;
      }
      var physical := PhysicalOf(blocks);
      pendingResultMetadata := pendingResultMetadata[f := Pending(None, physical)];
    }

    // The physical cameras of all block requests.
    method PhysicalOf(blocks: seq<BlockRequest>) returns (physical: map<nat, Option<nat>>)
      ensures Pending(None, physical) == Asked(NeededByBlocks(cameras, streamCameraIds, blocks))
    {
      physical := map[];
      for i := 0 to |blocks|
        invariant physical.Keys == NeededByBlocks(cameras, streamCameraIds, blocks[..i])
        invariant forall c :: c in physical ==> physical[c].None?
      {
        assert blocks[..i + 1][..i] == blocks[..i];
        physical := AddPendingPhysicalCameraMetadata(blocks[i].outputs, physical);
      }
      assert blocks[..|blocks|] == blocks;
      assert physical == Asked(physical.Keys).physical;
    }

    // Send the merged metadata of a frame if no camera is missing.
    method TrySendingResultMetadata(f: nat)
      requires f in pendingResultMetadata
      modifies this`pendingResultMetadata, this`sent
      ensures View(f) == TrySend(old(View(f)), old(pendingResultMetadata)[f])
      ensures forall g :: g != f ==> View(g) == old(View(g))
    {
      var p := pendingResultMetadata[f];
      if p.metadata.None? || exists c | c in p.physical :: p.physical[c].None? {
        return;
      }
      sent := sent[f := View(f).sent + [MergedOf(p)]];
      pendingResultMetadata := pendingResultMetadata - {f};
    }

    method ProcessResultMetadata(f: nat, camera: nat, metadata: nat) returns (ok: bool)
      modifies this`pendingResultMetadata, this`sent
      ensures View(f) == StepMetadata(cameras, old(View(f)), camera, metadata)
      ensures forall g :: g != f ==> View(g) == old(View(g))
      ensures
        var p := old(View(f)).pending;
        ok <==> p.Some? && !(camera == cameras.lead && p.value.metadata.Some?)
                && (camera in p.value.physical ==> p.value.physical[camera].None?)
    {
      if f !in pendingResultMetadata {
        return false;
      }
      ghost var p0 := pendingResultMetadata[f];
      if camera == cameras.lead {
        if pendingResultMetadata[f].metadata.Some? {
          return false;
        }
        pendingResultMetadata := pendingResultMetadata[f := pendingResultMetadata[f].(metadata := Some(metadata))];
      }
      var p := pendingResultMetadata[f];
      if camera in p.physical {
        if p.physical[camera].Some? {
          return false;
        }
        pendingResultMetadata := pendingResultMetadata[f := p.(physical := p.physical[camera := Some(metadata)])];
      }
      assert pendingResultMetadata[f] == Answered(cameras, p0, camera, metadata);
      TrySendingResultMetadata(f);
      ok := true;
    }

    // Metadata is joined; buffers are passed on at once.
    method ProcessResult(f: nat, camera: nat, metadata: Option<nat>, outputs: seq<StreamBuffer>)
      modifies this`pendingResultMetadata, this`sent, this`passed
      ensures forall g :: View(g) == Step(cameras, g, old(View(g)), Answer(f, camera, metadata, outputs))
    {
      if metadata.Some? {
        var ok := ProcessResultMetadata(f, camera, metadata.value);
      }
      if outputs == [] {
        return;
      }
      passed := passed[f := View(f).passed + outputs];
    }
  }

  // A buffer is requested if it is there, or if it has no handle and its stream is there.
  predicate Contains(outputs: seq<StreamBuffer>, b: StreamBuffer) {
    exists r :: r in outputs && (r.handle == b.handle || (b.handle == 0 && r.streamId == b.streamId))
  }

  predicate AllRequested(blocks: seq<BlockRequest>, remaining: seq<StreamBuffer>) {
    forall b :: b in remaining ==> exists i :: 0 <= i < |blocks| && Contains(blocks[i].outputs, b)
  }

  method ContainsOutputBuffer(outputs: seq<StreamBuffer>, b: StreamBuffer) returns (found: bool)
    ensures found <==> Contains(outputs, b)
  {
    for i := 0 to |outputs|
      invariant forall k :: 0 <= k < i ==>
                  outputs[k].handle != b.handle && !(b.handle == 0 && outputs[k].streamId == b.streamId)
    {
      if outputs[i].handle == b.handle {
        return true;
      } else if b.handle == 0 && outputs[i].streamId == b.streamId {
        return true;
      }
    }
    found := false;
  }

  lemma AllRequestedIff(blocks: seq<BlockRequest>, remaining: seq<StreamBuffer>)
    ensures AllRequested(blocks, remaining) <==>
              forall b :: b in remaining ==>
                exists i, r :: 0 <= i < |blocks| && r in blocks[i].outputs
                               && (r.handle == b.handle || (b.handle == 0 && r.streamId == b.streamId))
  {
    if !AllRequested(blocks, remaining) {
      var b :| b in remaining && forall i :: 0 <= i < |blocks| ==> !Contains(blocks[i].outputs, b);
    }
  }

  method AreAllRemainingBuffersRequested(blocks: seq<BlockRequest>, remaining: seq<StreamBuffer>) returns (ok: bool)
    ensures ok <==> AllRequested(blocks, remaining)
  {
    for i := 0 to |remaining|
      invariant forall k :: 0 <= k < i ==> exists j :: 0 <= j < |blocks| && Contains(blocks[j].outputs, remaining[k])
    {
      var found := false;
      for j := 0 to |blocks|
        invariant !found && forall k :: 0 <= k < j ==> !Contains(blocks[k].outputs, remaining[i])
      {
        found := ContainsOutputBuffer(blocks[j].outputs, remaining[i]);
        if found {
          break;
        }
      }
      if !found {
        assert remaining[i] in remaining;
        return false;
      }
    }
    ok := true;
  }

  // The block requests of a split leave no buffer out.
  lemma SplitIsRequested(owners: map<int, nat>, outputs: seq<StreamBuffer>, blocks: seq<BlockRequest>)
    requires IsSplit(owners, outputs, blocks)
    ensures AllRequested(blocks, outputs)
  {
    forall b | b in outputs ensures exists i :: 0 <= i < |blocks| && Contains(blocks[i].outputs, b) {
      assert CameraOf(owners, b.streamId) in CamerasOf(owners, outputs);
      var i :| 0 <= i < |blocks| && blocks[i].camera == CameraOf(owners, b.streamId);
      OnCameraMembers(owners, outputs, blocks[i].camera);
      assert b in blocks[i].outputs;
    }
  }
}
