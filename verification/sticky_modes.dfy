// RealtimeZslResultProcessor: the face detection and lens shading modes the framework has set stick
// from request to request, while internally both are always on. The mode of a frame's request
// decides what is stripped from its final result.
module StickyModes {
  import opened HalTypes
  import opened StreamBuffers

  const OFF: nat := 0

  datatype Kind = FaceDetect | LensShading

  datatype Config = Config(zslStream: int, isRaw10: bool, partialResultCount: nat)

  datatype Settings = Settings(faceDetectMode: Option<nat>, lensShadingMapMode: Option<nat>)
  {
    function Of(k: Kind): Option<nat> { if k.FaceDetect? then faceDetectMode else lensShadingMapMode }
  }

  datatype Metadata = Metadata(
    id: nat, enableZsl: Option<bool>,
    faceDetectMode: Option<nat>, hasFaceRectangles: bool, hasFaceScores: bool,
    lensShadingMapMode: Option<nat>, hasLensShadingMap: bool)

  // The mode set last, and the modes of the frames whose final result is to come.
  datatype Sticky = Sticky(current: nat, saved: map<nat, nat>)

  // What the framework gets,
  datatype Delivery = Delivery(frame: nat, metadata: Option<Metadata>, outputs: seq<StreamBuffer>,
                               inputs: seq<StreamBuffer>)

  // and what the internal stream manager keeps for a later ZSL request.
  datatype Kept = Kept(frame: nat, metadata: Metadata, partial: nat)

  datatype State = State(faceDetect: Sticky, lensShading: Sticky,
                         returned: seq<StreamBuffer>, kept: seq<Kept>, delivered: seq<Delivery>)
  {
    function Of(k: Kind): Sticky { if k.FaceDetect? then faceDetect else lensShading }
  }

  const INITIAL := State(Sticky(OFF, map[]), Sticky(OFF, map[]), [], [], [])

  datatype Event =
    | Request(frame: nat, settings: Option<Settings>)
    | Result(frame: nat, metadata: Option<Metadata>, partial: nat,
             outputs: seq<StreamBuffer>, inputs: seq<StreamBuffer>)

  function ModeIn(settings: Option<Settings>, k: Kind): Option<nat> {
    if settings.Some? then settings.value.Of(k) else None
  }

  // Remember the mode for a frame; a frame that is already remembered keeps its mode.
  function Saved(t: Sticky, frame: nat, mode: Option<nat>): Sticky {
    var current := if mode.Some? then mode.value else t.current;
    Sticky(current, if frame in t.saved then t.saved else t.saved[frame := current])
  }

  predicate IsOff(t: Sticky, frame: nat) {
    frame in t.saved && t.saved[frame] == OFF
  }

  function Taken(t: Sticky, frame: nat): Sticky {
    t.(saved := t.saved - {frame})
  }

  function OffIfSet(mode: Option<nat>): Option<nat> {
    if mode.Some? then Some(OFF) else None
  }

  function WithoutFaces(m: Metadata): Metadata {
    m.(faceDetectMode := OffIfSet(m.faceDetectMode), hasFaceRectangles := false, hasFaceScores := false)
  }

  function WithoutShading(m: Metadata): Metadata {
    m.(lensShadingMapMode := OffIfSet(m.lensShadingMapMode), hasLensShadingMap := false)
  }

  function Stripped(m: Metadata, faces: bool, shading: bool): Metadata {
    var m1 := if faces then WithoutFaces(m) else m;
    if shading then WithoutShading(m1) else m1
  }

  function StepRequest(cfg: Config, s: State, frame: nat, settings: Option<Settings>): State {
    if !cfg.isRaw10 then s
    else
      s.(faceDetect := Saved(s.faceDetect, frame, ModeIn(settings, FaceDetect)),
         lensShading := Saved(s.lensShading, frame, ModeIn(settings, LensShading)))
  }

  predicate IsFinal(cfg: Config, e: Event) {
    e.Result? && e.metadata.Some? && e.partial == cfg.partialResultCount
  }

  // The final metadata says that ZSL is off, earlier ones do not mention it.
  function ZslOff(m: Metadata, final: bool): Metadata {
    m.(enableZsl := if final then Some(false) else None)
  }

  // What the framework gets of a result's metadata.
  function Published(cfg: Config, s: State, e: Event): Option<Metadata>
    requires e.Result?
  {
    if e.metadata.None? then None
    else if cfg.isRaw10 && IsFinal(cfg, e) then
      Some(Stripped(ZslOff(e.metadata.value, true), IsOff(s.faceDetect, e.frame), IsOff(s.lensShading, e.frame)))
    else Some(ZslOff(e.metadata.value, IsFinal(cfg, e)))
  }

  // The internal stream manager gets the metadata unstripped.
  function KeptOf(e: Event): seq<Kept>
    requires e.Result?
  {
    if e.metadata.None? then [] else [Kept(e.frame, ZslOff(e.metadata.value, false), e.partial)]
  }

  function StepResult(cfg: Config, s: State, e: Event): State
    requires e.Result?
  {
    var metadata := Published(cfg, s, e);
    var s1 := if cfg.isRaw10 && IsFinal(cfg, e)
              then s.(faceDetect := Taken(s.faceDetect, e.frame), lensShading := Taken(s.lensShading, e.frame))
              else s;
    var raw, rest := Within(e.outputs, {cfg.zslStream}), Outside(e.outputs, {cfg.zslStream});
    var s2 := s1.(returned := s1.returned + raw, kept := s1.kept + KeptOf(e));
    if raw != [] && metadata.None? && rest == [] then s2
    else s2.(delivered := s2.delivered + [Delivery(e.frame, metadata, rest, e.inputs)])
  }

  function Step(cfg: Config, s: State, e: Event): State {
    match e
    case Request(frame, settings) => StepRequest(cfg, s, frame, settings)
    case Result(_, _, _, _, _) => StepResult(cfg, s, e)
  }

  function Run(cfg: Config, es: seq<Event>): State {
    if es == [] then INITIAL else Step(cfg, Run(cfg, es[..|es| - 1]), es[|es| - 1])
  }

  // ---------- Every run ----------

  // The mode set last in a run, off at first.
  function LastMode(es: seq<Event>, k: Kind): nat {
    if es == [] then OFF
    else
      var e := es[|es| - 1];
      var mode :=
        if !e.Request? || e.settings.None? then None
        else if k == FaceDetect then e.settings.value.faceDetectMode
        else e.settings.value.lensShadingMapMode;
      if mode.Some? then mode.value else LastMode(es[..|es| - 1], k)
  }

  // The mode set last at or before the request of the frame, while its final result is to come. A
  // second request in that time does not change it.
  function OpenMode(cfg: Config, es: seq<Event>, f: nat, k: Kind): Option<nat> {
    if es == [] then None
    else
      var e := es[|es| - 1];
      var before := OpenMode(cfg, es[..|es| - 1], f, k);
      if e.frame != f then before
      else if e.Request? then if before.Some? then before else Some(LastMode(es, k))
      else if e.metadata.Some? && e.partial == cfg.partialResultCount then None
      else before
  }

  ghost predicate Remembers(t: Sticky, f: nat, mode: Option<nat>) {
    (f in t.saved <==> mode.Some?) && (mode.Some? ==> t.saved[f] == mode.value)
  }

  // In every run, each open frame is remembered with the mode of its request, and no other frame is.
  lemma {:induction false} RunRemembers(cfg: Config, es: seq<Event>, k: Kind)
    requires cfg.isRaw10
    ensures
      var t := if k == FaceDetect then Run(cfg, es).faceDetect else Run(cfg, es).lensShading;
      t.current == LastMode(es, k) && forall f :: Remembers(t, f, OpenMode(cfg, es, f, k))
  {
    if es != [] {
      var before, e := es[..|es| - 1], es[|es| - 1];
      RunRemembers(cfg, before, k);
      assert Run(cfg, es) == Step(cfg, Run(cfg, before), e);
      if e.Request? {
        assert Run(cfg, es).Of(k) == Saved(Run(cfg, before).Of(k), e.frame, ModeIn(e.settings, k));
      } else {
        assert Run(cfg, es).Of(k) ==
               if IsFinal(cfg, e) then Taken(Run(cfg, before).Of(k), e.frame) else Run(cfg, before).Of(k);
      }
    }
  }

  // What is delivered of a result's metadata: everything but the ZSL key and what is stripped. Modes
  // that are stripped are reported as off.
  ghost predicate PublishedAs(m: Metadata, r: Metadata, final: bool, faces: bool, shading: bool) {
    && r.id == m.id
    && r.enableZsl == (if final then Some(false) else None)
    && r.faceDetectMode == (if faces && m.faceDetectMode.Some? then Some(OFF) else m.faceDetectMode)
    && r.hasFaceRectangles == (m.hasFaceRectangles && !faces)
    && r.hasFaceScores == (m.hasFaceScores && !faces)
    && r.lensShadingMapMode == (if shading && m.lensShadingMapMode.Some? then Some(OFF) else m.lensShadingMapMode)
    && r.hasLensShadingMap == (m.hasLensShadingMap && !shading)
  }

  // The buffers of a result on other streams than the raw stream go to the framework, with its inputs.
  ghost predicate DeliveredAs(cfg: Config, e: Event, d: Delivery, final: bool, faces: bool, shading: bool)
    requires e.Result?
  {
    && d.frame == e.frame && d.inputs == e.inputs
    && d.outputs == Outside(e.outputs, {cfg.zslStream})
    && (d.metadata.Some? <==> e.metadata.Some?)
    && (e.metadata.Some? ==> PublishedAs(e.metadata.value, d.metadata.value, final, faces, shading))
  }

  // Only raw buffers, at least one, and no metadata.
  ghost predicate OnlyRaw(cfg: Config, e: Event)
    requires e.Result?
  {
    e.metadata.None? && e.outputs != [] && forall b :: b in e.outputs ==> b.streamId == cfg.zslStream
  }

  lemma OnlyRawIff(cfg: Config, e: Event)
    requires e.Result?
    ensures OnlyRaw(cfg, e) <==>
              e.metadata.None? && Within(e.outputs, {cfg.zslStream}) != [] && Outside(e.outputs, {cfg.zslStream}) == []
  {
    SelectNoneOrAll(e.outputs, {cfg.zslStream});
    OutsideMembers(e.outputs, {cfg.zslStream});
    if e.outputs == [] || Outside(e.outputs, {cfg.zslStream}) != [] {
    } else {
      forall b | b in e.outputs ensures b.streamId == cfg.zslStream {
        assert b !in Outside(e.outputs, {cfg.zslStream});
      }
    }
  }

  // A result is final if it brings the last partial metadata; a final result is stripped on a RAW10
  // session if the mode set last at or before its frame's request is off.
  ghost predicate IsStripped(cfg: Config, es: seq<Event>, e: Event, k: Kind)
    requires e.Result?
  {
    && cfg.isRaw10 && e.metadata.Some? && e.partial == cfg.partialResultCount
    && OpenMode(cfg, es, e.frame, k) == Some(OFF)
  }

  lemma IsOffIff(cfg: Config, es: seq<Event>, f: nat)
    requires cfg.isRaw10
    ensures IsOff(Run(cfg, es).faceDetect, f) <==> OpenMode(cfg, es, f, FaceDetect) == Some(OFF)
    ensures IsOff(Run(cfg, es).lensShading, f) <==> OpenMode(cfg, es, f, LensShading) == Some(OFF)
  {
    RunRemembers(cfg, es, FaceDetect);
    RunRemembers(cfg, es, LensShading);
    assert Remembers(Run(cfg, es).faceDetect, f, OpenMode(cfg, es, f, FaceDetect));
    assert Remembers(Run(cfg, es).lensShading, f, OpenMode(cfg, es, f, LensShading));
  }

  // What a result adds for the framework and for the internal stream manager.
  ghost predicate Answers(cfg: Config, e: Event, s: State, s': State, final: bool, faces: bool, shading: bool)
    requires e.Result?
  {
    && s'.returned == s.returned + Within(e.outputs, {cfg.zslStream})
    && s'.kept == s.kept + (if e.metadata.None? then []
                            else [Kept(e.frame, e.metadata.value.(enableZsl := None), e.partial)])
    && if OnlyRaw(cfg, e) then s'.delivered == s.delivered
       else
         && |s'.delivered| == |s.delivered| + 1 && s.delivered == s'.delivered[..|s.delivered|]
         && DeliveredAs(cfg, e, s'.delivered[|s.delivered|], final, faces, shading)
  }

  lemma StepAnswers(cfg: Config, s: State, e: Event)
    requires e.Result?
    ensures
      var final := e.metadata.Some? && e.partial == cfg.partialResultCount;
      Answers(cfg, e, s, Step(cfg, s, e), final, cfg.isRaw10 && final && IsOff(s.faceDetect, e.frame),
              cfg.isRaw10 && final && IsOff(s.lensShading, e.frame))
  {
    OnlyRawIff(cfg, e);
  }

  // Every result of every run: raw buffers and the unstripped metadata go to the internal stream
  // manager, the rest to the framework, unless nothing is left. Whatever comes between a frame's
  // request and its final result, and in whatever order results come, face and lens shading data are
  // stripped exactly from the final result, and exactly if the mode set last at or before the request
  // is off.
  lemma ResultAnswered(cfg: Config, es: seq<Event>, e: Event)
    requires e.Result?
    ensures Answers(cfg, e, Run(cfg, es), Run(cfg, es + [e]),
                    e.metadata.Some? && e.partial == cfg.partialResultCount,
                    IsStripped(cfg, es, e, FaceDetect), IsStripped(cfg, es, e, LensShading))
  {
    assert (es + [e])[..|es|] == es;
    StepAnswers(cfg, Run(cfg, es), e);
    if cfg.isRaw10 { IsOffIff(cfg, es, e.frame); }
  }

  // After its final result a frame is forgotten.
  lemma FinalResultForgets(cfg: Config, es: seq<Event>, e: Event)
    requires cfg.isRaw10 && e.Result? && e.metadata.Some? && e.partial == cfg.partialResultCount
    ensures e.frame !in Run(cfg, es + [e]).faceDetect.saved && e.frame !in Run(cfg, es + [e]).lensShading.saved
  {
    assert (es + [e])[..|es|] == es;
  }

  // No request adds anything to what has been delivered, kept and returned.
  lemma RequestAnswersNothing(cfg: Config, es: seq<Event>, e: Event)
    requires e.Request?
    ensures
      var (s, s') := (Run(cfg, es), Run(cfg, es + [e]));
      s'.delivered == s.delivered && s'.kept == s.kept && s'.returned == s.returned
  {
    assert (es + [e])[..|es|] == es;
  }

  // Requests and results of other frames, and early results, do not change what a frame's final
  // result will be stripped of.
  lemma {:induction false} OpenModeIsStable(cfg: Config, es: seq<Event>, more: seq<Event>, f: nat, k: Kind)
    requires forall e :: e in more ==> e.frame != f || (e.Result? && !IsFinal(cfg, e))
    ensures OpenMode(cfg, es + more, f, k) == OpenMode(cfg, es, f, k)
  {
    if more == [] {
      assert es + more == es;
    } else {
      assert (es + more)[..|es + more| - 1] == es + more[..|more| - 1];
      assert more[|more| - 1] in more;
      OpenModeIsStable(cfg, es, more[..|more| - 1], f, k);
    }
  }

  // ---------- The code ----------

  lemma AppendRaw(before: seq<StreamBuffer>, raw: seq<StreamBuffer>, b: StreamBuffer)
    ensures before + raw + [b] == before + (raw + [b])
  {
  }

  class RealtimeZslResultProcessor {
    const cfg: Config
    var currentFaceDetectMode: nat
    var requestedFaceDetectModes: map<nat, nat>
    var currentLensShadingMapMode: nat
    var requestedLensShadingMapModes: map<nat, nat>
    ghost var returned: seq<StreamBuffer>
    ghost var kept: seq<Kept>
    ghost var delivered: seq<Delivery>

    ghost function View(): State
      reads this
    {
      State(Sticky(currentFaceDetectMode, requestedFaceDetectModes),
            Sticky(currentLensShadingMapMode, requestedLensShadingMapModes), returned, kept, delivered)
    }

    constructor (cfg: Config)
      ensures this.cfg == cfg && View() == INITIAL
    {
      this.cfg := cfg;
      currentFaceDetectMode, requestedFaceDetectModes := OFF, map[];
      currentLensShadingMapMode, requestedLensShadingMapModes := OFF, map[];
      returned, kept, delivered := [], [], [];
    }

    method SaveLsForHdrplus(frame: nat, settings: Option<Settings>)
      modifies this`currentLensShadingMapMode, this`requestedLensShadingMapModes
      ensures View() == old(View()).(
                          lensShading := Saved(old(View()).lensShading, frame, ModeIn(settings, LensShading)))
    {
      if settings.Some? && settings.value.lensShadingMapMode.Some? {
        currentLensShadingMapMode := settings.value.lensShadingMapMode.value;
      }
      if frame !in requestedLensShadingMapModes {
        requestedLensShadingMapModes := requestedLensShadingMapModes[frame := currentLensShadingMapMode];
      }
    }

    method SaveFdForHdrplus(frame: nat, settings: Option<Settings>)
      modifies this`currentFaceDetectMode, this`requestedFaceDetectModes
      ensures View() == old(View()).(faceDetect := Saved(old(View()).faceDetect, frame, ModeIn(settings, FaceDetect)))
    {
      if settings.Some? && settings.value.faceDetectMode.Some? {
        currentFaceDetectMode := settings.value.faceDetectMode.value;
      }
      if frame !in requestedFaceDetectModes {
        requestedFaceDetectModes := requestedFaceDetectModes[frame := currentFaceDetectMode];
      }
    }

    // `allRequested` tells whether the block requests cover all remaining buffers.
    method AddPendingRequests(frame: nat, settings: Option<Settings>, allRequested: bool) returns (ok: bool)
      modifies this
      ensures ok == allRequested
      ensures View() == if ok then Step(cfg, old(View()), Request(frame, settings)) else old(View())
    {
      if !allRequested {
        return false;
      }
      if cfg.isRaw10 {
        SaveFdForHdrplus(frame, settings);
        SaveLsForHdrplus(frame, settings);
      }
      ok := true;
    }

    method HandleFdResultForHdrplus(frame: nat, metadata: Metadata) returns (r: Metadata)
      modifies this`requestedFaceDetectModes
      ensures
        var off := frame in old(requestedFaceDetectModes) && old(requestedFaceDetectModes)[frame] == OFF;
        r == metadata.(faceDetectMode := (if off && metadata.faceDetectMode.Some? then Some(OFF)
                                          else metadata.faceDetectMode),
                       hasFaceRectangles := metadata.hasFaceRectangles && !off,
                       hasFaceScores := metadata.hasFaceScores && !off)
      ensures View() == old(View()).(faceDetect := Taken(old(View()).faceDetect, frame))
    {
      r := metadata;
      if frame !in requestedFaceDetectModes {
        assert requestedFaceDetectModes - {frame} == requestedFaceDetectModes;
        return;
      }
      if requestedFaceDetectModes[frame] == OFF {
        if r.faceDetectMode.Some? {
          r := r.(faceDetectMode := Some(OFF));
        }
        r := r.(hasFaceRectangles := false, hasFaceScores := false);
      }
      requestedFaceDetectModes := requestedFaceDetectModes - {frame};
    }

    method HandleLsResultForHdrplus(frame: nat, metadata: Metadata) returns (r: Metadata)
      modifies this`requestedLensShadingMapModes
      ensures
        var off := frame in old(requestedLensShadingMapModes) && old(requestedLensShadingMapModes)[frame] == OFF;
        r == metadata.(lensShadingMapMode := (if off && metadata.lensShadingMapMode.Some? then Some(OFF)
                                              else metadata.lensShadingMapMode),
                       hasLensShadingMap := metadata.hasLensShadingMap && !off)
      ensures View() == old(View()).(lensShading := Taken(old(View()).lensShading, frame))
    {
      r := metadata;
      if frame !in requestedLensShadingMapModes {
        assert requestedLensShadingMapModes - {frame} == requestedLensShadingMapModes;
        return;
      }
      if requestedLensShadingMapModes[frame] == OFF {
        if r.lensShadingMapMode.Some? {
          r := r.(lensShadingMapMode := Some(OFF));
        }
        r := r.(hasLensShadingMap := false);
      }
      requestedLensShadingMapModes := requestedLensShadingMapModes - {frame};
    }

    // Raw buffers go to the internal stream manager; the rest is what is left of the result.
    method ReturnRawBuffers(outputs: seq<StreamBuffer>) returns (rest: seq<StreamBuffer>, returnedOutput: bool)
      modifies this`returned
      ensures rest == Outside(outputs, {cfg.zslStream})
      ensures returned == old(returned) + Within(outputs, {cfg.zslStream})
      ensures returnedOutput <==> Within(outputs, {cfg.zslStream}) != []
    {
      rest, returnedOutput := [], false;
      for i := 0 to |outputs|
        invariant rest == Outside(outputs[..i], {cfg.zslStream})
        invariant returned == old(returned) + Within(outputs[..i], {cfg.zslStream})
        invariant returnedOutput <==> Within(outputs[..i], {cfg.zslStream}) != []
      {
        SelectNext(outputs, {cfg.zslStream}, i);
        if outputs[i].streamId == cfg.zslStream {
          returnedOutput := true;
          AppendRaw(old(returned), Within(outputs[..i], {cfg.zslStream}), outputs[i]);
          returned := returned + [outputs[i]];
        } else {
          rest := rest + [outputs[i]];
        }
      }
      assert outputs[..|outputs|] == outputs;
    }

    method ProcessResult(frame: nat, metadata: Option<Metadata>, partial: nat,
                         outputs: seq<StreamBuffer>, inputs: seq<StreamBuffer>)
      modifies this
      ensures View() == Step(cfg, old(View()), Result(frame, metadata, partial, outputs, inputs))
    {
      var rest, returnedOutput := ReturnRawBuffers(outputs);
      var result := metadata;
      ghost var before := kept;
      if metadata.Some? {
        var m := metadata.value.(enableZsl := None);
        kept := kept + [Kept(frame, m, partial)];
        if partial == cfg.partialResultCount {
          m := m.(enableZsl := Some(false));
          if cfg.isRaw10 {
            m := HandleFdResultForHdrplus(frame, m);
            m := HandleLsResultForHdrplus(frame, m);
          }
        }
        result := Some(m);
      }
      assert before + [] == before;
      if returnedOutput && result.None? && rest == [] {
        return;
      }
      delivered := delivered + [Delivery(frame, result, rest, inputs)];
    }
  }
}
