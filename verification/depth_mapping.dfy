// The addresses at which the depth block maps a request's buffers for the depth engine. They are
// filed by stream, and unmapping looks them up by stream again.
module DepthMapping {
  import opened HalTypes
  import opened StreamBuffers
  import opened DepthModel
  import opened DepthSlots

  // A buffer and the address it is mapped at.
  datatype MappedBuffer = MappedBuffer(source: StreamBuffer, address: nat)

  // The input part of a depth request info.
  datatype MappedInputs = MappedInputs(color: seq<MappedBuffer>, ir1: seq<MappedBuffer>, ir2: seq<MappedBuffer>)
  {
    function Of(cfg: Config, id: int): seq<MappedBuffer> {
      if id == cfg.yuvStream then color
      else if id == cfg.ir1Stream then ir1
      else if id == cfg.ir2Stream then ir2
      else []
    }
  }

  // File one mapped buffer under its stream; a buffer of another stream is mapped but not filed.
  function File(cfg: Config, m: MappedInputs, b: StreamBuffer, address: nat): MappedInputs {
    var mapped := [MappedBuffer(b, address)];
    if b.streamId == cfg.yuvStream then m.(color := m.color + mapped)
    else if b.streamId == cfg.ir1Stream then m.(ir1 := m.ir1 + mapped)
    else if b.streamId == cfg.ir2Stream then m.(ir2 := m.ir2 + mapped)
    else m
  }

  // Map the filled inputs in order at the addresses base, base + 1, ...
  function MapInputs(cfg: Config, inputs: seq<StreamBuffer>, base: nat): MappedInputs {
    if inputs == [] then MappedInputs([], [], [])
    else
      var front, b := inputs[..|inputs| - 1], inputs[|inputs| - 1];
      var m := MapInputs(cfg, front, base);
      if IsFilled(b) then File(cfg, m, b, base + |Filled(front)|) else m
  }

  // The addresses MapInputs hands out.
  function MappedAddresses(inputs: seq<StreamBuffer>, base: nat): seq<nat> {
    seq(|Filled(inputs)|, i => base + i)
  }

  // Every filled input has a mapping filed under its stream.
  ghost predicate Filed(cfg: Config, m: MappedInputs, inputs: seq<StreamBuffer>) {
    forall i :: 0 <= i < |inputs| ==> IsFilled(inputs[i]) ==> m.Of(cfg, inputs[i].streamId) != []
  }

  // The addresses that unmapping releases: for each filled input the first one filed under its stream.
  function Released(cfg: Config, m: MappedInputs, inputs: seq<StreamBuffer>): seq<nat>
    requires Filed(cfg, m, inputs)
  {
    if inputs == [] then []
    else
      var front, b := inputs[..|inputs| - 1], inputs[|inputs| - 1];
      Released(cfg, m, front) + if IsFilled(b) then [m.Of(cfg, b.streamId)[0].address] else []
  }

  ghost predicate OnSensorStreams(cfg: Config, inputs: seq<StreamBuffer>) {
    forall i :: 0 <= i < |inputs| ==> IsFilled(inputs[i]) ==> inputs[i].streamId in cfg.SensorStreams()
  }

  // Mappings filed for some inputs stay where they are when more are mapped.
  ghost predicate Extends(cfg: Config, m: MappedInputs, m': MappedInputs) {
    m.color <= m'.color && m.ir1 <= m'.ir1 && m.ir2 <= m'.ir2
  }

  // No index is out of range: whatever was mapped is filed.
  lemma {:induction false} MappedIsFiled(cfg: Config, inputs: seq<StreamBuffer>, base: nat)
    requires OnSensorStreams(cfg, inputs)
    ensures Filed(cfg, MapInputs(cfg, inputs, base), inputs)
  {
    if inputs != [] {
      var front := inputs[..|inputs| - 1];
      MappedIsFiled(cfg, front, base);
      assert forall i :: 0 <= i < |front| ==> front[i] == inputs[i];
    }
  }

  ghost predicate AddressesWithin(ms: seq<MappedBuffer>, low: nat, high: nat) {
    forall i :: 0 <= i < |ms| ==> low <= ms[i].address < high
  }

  // The addresses filed are among those handed out.
  lemma {:induction false} FiledAddresses(cfg: Config, inputs: seq<StreamBuffer>, base: nat, id: int)
    ensures AddressesWithin(MapInputs(cfg, inputs, base).Of(cfg, id), base, base + |Filled(inputs)|)
  {
    if inputs != [] {
      var front, b := inputs[..|inputs| - 1], inputs[|inputs| - 1];
      FiledAddresses(cfg, front, base, id);
      var ms, ms' := MapInputs(cfg, front, base).Of(cfg, id), MapInputs(cfg, inputs, base).Of(cfg, id);
      assert |Filled(inputs)| == |Filled(front)| + if IsFilled(b) then 1 else 0;
      assert ms' == ms || (IsFilled(b) && ms' == ms + [MappedBuffer(b, base + |Filled(front)|)]);
    }
  }

  // The depth engine gets each stream's buffers in their order in the request.
  lemma {:induction false} FiledSources(cfg: Config, inputs: seq<StreamBuffer>, base: nat, id: int)
    requires id in cfg.SensorStreams() && cfg.Valid()
    ensures Sources(MapInputs(cfg, inputs, base).Of(cfg, id)) == Within(inputs, {id})
  {
    if inputs != [] {
      FiledSources(cfg, inputs[..|inputs| - 1], base, id);
    }
  }

  function Sources(ms: seq<MappedBuffer>): (s: seq<StreamBuffer>)
    ensures |s| == |ms|
    ensures forall i :: 0 <= i < |s| ==> s[i] == ms[i].source
  {
    seq(|ms|, i requires 0 <= i < |ms| => ms[i].source)
  }

  lemma {:induction false} ReleasedExtends(cfg: Config, m: MappedInputs, m': MappedInputs, inputs: seq<StreamBuffer>)
    requires Filed(cfg, m, inputs) && Extends(cfg, m, m')
    ensures Filed(cfg, m', inputs) && Released(cfg, m', inputs) == Released(cfg, m, inputs)
  {
    if inputs != [] {
      var front, b := inputs[..|inputs| - 1], inputs[|inputs| - 1];
      assert forall i :: 0 <= i < |front| ==> front[i] == inputs[i];
      ReleasedExtends(cfg, m, m', front);
    }
  }

  lemma {:induction false} NotFiledYet(cfg: Config, inputs: seq<StreamBuffer>, base: nat, id: int)
    requires cfg.Valid() && NoneOn(inputs, id)
    ensures MapInputs(cfg, inputs, base).Of(cfg, id) == []
  {
    if inputs != [] {
      NotFiledYet(cfg, inputs[..|inputs| - 1], base, id);
    }
  }

  lemma {:induction false} ReleasedLength(cfg: Config, m: MappedInputs, inputs: seq<StreamBuffer>)
    requires Filed(cfg, m, inputs)
    ensures |Released(cfg, m, inputs)| == |Filled(inputs)|
  {
    if inputs != [] {
      assert forall i :: 0 <= i < |inputs| - 1 ==> inputs[..|inputs| - 1][i] == inputs[i];
      ReleasedLength(cfg, m, inputs[..|inputs| - 1]);
    }
  }

  lemma AddressesNext(front: seq<StreamBuffer>, b: StreamBuffer, base: nat)
    requires IsFilled(b)
    ensures MappedAddresses(front + [b], base) == MappedAddresses(front, base) + [base + |Filled(front)|]
  {
    assert (front + [b])[..|front|] == front;
  }

  lemma DistinctLast(front: seq<StreamBuffer>, b: StreamBuffer)
    requires IsFilled(b)
    ensures DistinctStreams(front + [b]) <==> DistinctStreams(front) && NoneOn(front, b.streamId)
  {
    var s := front + [b];
    if DistinctStreams(s) {
      forall i, j | 0 <= i < j < |front| && IsFilled(front[i]) && IsFilled(front[j])
        ensures front[i].streamId != front[j].streamId
      {
        assert s[i] == front[i] && s[j] == front[j];
      }
      forall i | 0 <= i < |front| ensures front[i].streamId != b.streamId {
        assert s[i] == front[i] && s[|front|] == b;
      }
    }
  }

  lemma AppendsIff(s: seq<nat>, x: nat, t: seq<nat>, y: nat)
    requires |s| == |t|
    ensures s + [x] == t + [y] <==> s == t && x == y
  {
    if s + [x] == t + [y] {
      assert (s + [x])[..|s|] == s && (t + [y])[..|t|] == t;
      assert (s + [x])[|s|] == x && (t + [y])[|t|] == y;
    }
  }

  lemma LastReleased(cfg: Config, front: seq<StreamBuffer>, b: StreamBuffer, base: nat,
                     m: MappedInputs, m': MappedInputs)
    requires cfg.Valid() && IsFilled(b) && b.streamId in cfg.SensorStreams()
    requires m == MapInputs(cfg, front, base) && m' == File(cfg, m, b, base + |Filled(front)|)
    requires OnSensorStreams(cfg, front)
    ensures m'.Of(cfg, b.streamId) != []
    ensures m'.Of(cfg, b.streamId)[0].address == base + |Filled(front)| <==> NoneOn(front, b.streamId)
  {
    FiledAddresses(cfg, front, base, b.streamId);
    if NoneOn(front, b.streamId) {
      NotFiledYet(cfg, front, base, b.streamId);
    } else {
      MappedIsFiled(cfg, front, base);
      var i :| 0 <= i < |front| && front[i].streamId == b.streamId;
      assert m.Of(cfg, front[i].streamId) != [];
    }
  }

  // One input more is released as it was mapped unless its stream has been seen before.
  lemma ReleasesNext(cfg: Config, front: seq<StreamBuffer>, b: StreamBuffer, base: nat)
    requires cfg.Valid() && OnSensorStreams(cfg, front + [b])
    requires Filed(cfg, MapInputs(cfg, front, base), front)
    requires Filed(cfg, MapInputs(cfg, front + [b], base), front + [b])
    requires Released(cfg, MapInputs(cfg, front, base), front) == MappedAddresses(front, base)
             <==> DistinctStreams(front)
    ensures Released(cfg, MapInputs(cfg, front + [b], base), front + [b]) == MappedAddresses(front + [b], base)
            <==> DistinctStreams(front + [b])
  {
    var m, m' := MapInputs(cfg, front, base), MapInputs(cfg, front + [b], base);
    assert (front + [b])[..|front|] == front;
    assert forall i :: 0 <= i < |front| ==> (front + [b])[i] == front[i];
    ReleasedExtends(cfg, m, m', front);
    if IsFilled(b) {
      ReleasedLength(cfg, m', front);
      assert (front + [b])[|front|] == b;
      LastReleased(cfg, front, b, base, m, m');
      DistinctLast(front, b);
      AppendsIff(Released(cfg, m', front), m'.Of(cfg, b.streamId)[0].address,
                 MappedAddresses(front, base), base + |Filled(front)|);
      AddressesNext(front, b, base);
    } else {
      assert DistinctStreams(front + [b]) <==> DistinctStreams(front);
      assert MappedAddresses(front + [b], base) == MappedAddresses(front, base);
    }
  }

  // Mapping balance: unmapping a request releases exactly the addresses that were mapped for it,
  // each once, if and only if no two of its inputs are on one stream.
  lemma {:induction false} ReleasesWhatWasMapped(cfg: Config, inputs: seq<StreamBuffer>, base: nat)
    requires cfg.Valid() && OnSensorStreams(cfg, inputs)
    ensures Filed(cfg, MapInputs(cfg, inputs, base), inputs)
    ensures Released(cfg, MapInputs(cfg, inputs, base), inputs) == MappedAddresses(inputs, base)
            <==> DistinctStreams(inputs)
  {
    MappedIsFiled(cfg, inputs, base);
    if inputs != [] {
      var front, b := inputs[..|inputs| - 1], inputs[|inputs| - 1];
      assert forall i :: 0 <= i < |front| ==> front[i] == inputs[i];
      ReleasesWhatWasMapped(cfg, front, base);
      assert inputs == front + [b];
      ReleasesNext(cfg, front, b, base);
    }
  }
}
