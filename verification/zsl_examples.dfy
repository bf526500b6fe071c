// Short runs of the ZSL collector that lose an input buffer and a piece of metadata.
module ZslExamples {
  import opened HalTypes
  import opened StreamBuffers
  import opened ZslModel
  import opened ZslRuns

  // Raw buffers on stream 7, two partial results a frame.
  const TWO_PARTS: Config := Config(7, 2)

  const RAW := StreamBuffer(7, 10, 20, BufferOk)
  const INPUT := StreamBuffer(1, 11, 21, BufferOk)
  const PICTURE := StreamBuffer(2, 12, 22, BufferOk)

  lemma RunNext(cfg: Config, f: nat, es: seq<Event>, e: Event)
    ensures Run(cfg, f, es + [e]) == Step(cfg, f, Run(cfg, f, es), e)
    ensures AllDropped(cfg, f, es + [e]) == AllDropped(cfg, f, es) + Dropped(cfg, f, Run(cfg, f, es), e)
  {
    assert (es + [e])[..|es|] == es;
  }

  lemma SelectOne(b: StreamBuffer, id: int)
    ensures Within([b], {id}) == if b.streamId == id then [b] else []
    ensures Outside([b], {id}) == if b.streamId == id then [] else [b]
  {
    assert [b][..0] == [];
  }

  // A frame fails on one of its buffers; then its raw buffer comes back together with its input
  // buffer. The raw buffer is returned and the input buffer reaches nobody.
  lemma FailedFrameDropsInput()
    ensures
      var es := [Register(0, 1, true)] + [Failure(0, ErrorBuffer)];
      var e := Arrival(0, Result(None, 0, [RAW], [INPUT]));
      Dropped(TWO_PARTS, 0, Run(TWO_PARTS, 0, es), e) == multiset{INPUT}
  {
    var first := Register(0, 1, true);
    assert [] + [first] == [first];
    RunNext(TWO_PARTS, 0, [], first);
    RunNext(TWO_PARTS, 0, [first], Failure(0, ErrorBuffer));
    SelectOne(RAW, 7);
    assert multiset([INPUT]) + multiset([]) == multiset{INPUT};
  }

  // The final partial result overtakes the early one: the frame is forwarded without its final metadata.
  lemma LateEarlyResultReplaces()
    ensures
      var es := [Register(0, 1, false)] + [Arrival(0, Result(Some([1]), 2, [PICTURE], []))];
      var e := Arrival(0, Result(Some([2]), 1, [], []));
      Run(TWO_PARTS, 0, es + [e]).log.forwarded == [Forward(Some([2]), [PICTURE], [])]
  {
    var first, final := Register(0, 1, false), Arrival(0, Result(Some([1]), 2, [PICTURE], []));
    assert [] + [first] == [first];
    RunNext(TWO_PARTS, 0, [], first);
    RunNext(TWO_PARTS, 0, [first], final);
    SelectOne(PICTURE, 7);
    assert [PICTURE] + [] == [PICTURE] && [] + [PICTURE] == [PICTURE];
    RunNext(TWO_PARTS, 0, [first] + [final], Arrival(0, Result(Some([2]), 1, [], [])));
  }
}
