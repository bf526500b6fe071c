// The value types shared by the camera HAL components (hal_types.h).
module HalTypes {

  datatype Option<+T> = None | Some(value: T)

  // Stream id of a default-constructed StreamBuffer, used for place holders.
  const INVALID_STREAM_ID: int := -1

  const TWO_TO_THE_32: nat := 0x1_0000_0000

  datatype BufferStatus = BufferOk | BufferError

  // `handle` stands for the native buffer handle.
  datatype StreamBuffer = StreamBuffer(streamId: int, bufferId: nat, handle: nat, status: BufferStatus)

  // What resizing a vector of stream buffers appends.
  const PLACEHOLDER: StreamBuffer := StreamBuffer(INVALID_STREAM_ID, 0, 0, BufferOk)

  datatype ErrorCode = ErrorDevice | ErrorRequest | ErrorResult | ErrorBuffer
}

// Selecting stream buffers by the stream they belong to.
module StreamBuffers {
  import opened HalTypes

  // The buffers of `s` on one of the streams `ids`, in order.
  function Within(s: seq<StreamBuffer>, ids: set<int>): (r: seq<StreamBuffer>)
    ensures |r| <= |s|
  {
    if s == [] then []
    else
      var last := s[|s| - 1];
      if last.streamId in ids then Within(s[..|s| - 1], ids) + [last] else Within(s[..|s| - 1], ids)
  }

  // The buffers of `s` on none of the streams `ids`, in order.
  function Outside(s: seq<StreamBuffer>, ids: set<int>): (r: seq<StreamBuffer>)
    ensures |r| <= |s|
  {
    if s == [] then []
    else
      var last := s[|s| - 1];
      if last.streamId in ids then Outside(s[..|s| - 1], ids) else Outside(s[..|s| - 1], ids) + [last]
  }

  // Selecting from one buffer more.
  lemma SelectNext(s: seq<StreamBuffer>, ids: set<int>, i: nat)
    requires i < |s|
    ensures Within(s[..i + 1], ids) ==
            if s[i].streamId in ids then Within(s[..i], ids) + [s[i]] else Within(s[..i], ids)
    ensures Outside(s[..i + 1], ids) ==
            if s[i].streamId in ids then Outside(s[..i], ids) else Outside(s[..i], ids) + [s[i]]
  {
    assert s[..i + 1][..i] == s[..i];
  }

  lemma SelectSingle(b: StreamBuffer, ids: set<int>)
    ensures Within([b], ids) == if b.streamId in ids then [b] else []
    ensures Outside([b], ids) == if b.streamId in ids then [] else [b]
  {
    assert [b][..0] == [];
  }

  lemma {:induction false} WithinCount(s: seq<StreamBuffer>, ids: set<int>, x: StreamBuffer)
    ensures multiset(Within(s, ids))[x] == if x.streamId in ids then multiset(s)[x] else 0
  {
    if s != [] {
      var front := s[..|s| - 1];
      assert s == front + [s[|s| - 1]];
      WithinCount(front, ids, x);
    }
  }

  lemma {:induction false} OutsideCount(s: seq<StreamBuffer>, ids: set<int>, x: StreamBuffer)
    ensures multiset(Outside(s, ids))[x] == if x.streamId in ids then 0 else multiset(s)[x]
  {
    if s != [] {
      var front := s[..|s| - 1];
      assert s == front + [s[|s| - 1]];
      OutsideCount(front, ids, x);
    }
  }

  lemma WithinMembers(s: seq<StreamBuffer>, ids: set<int>)
    ensures forall x :: x in Within(s, ids) <==> x in s && x.streamId in ids
  {
    forall x ensures x in Within(s, ids) <==> x in s && x.streamId in ids {
      WithinCount(s, ids, x);
      assert x in Within(s, ids) <==> x in multiset(Within(s, ids));
      assert x in s <==> x in multiset(s);
    }
  }

  lemma OutsideMembers(s: seq<StreamBuffer>, ids: set<int>)
    ensures forall x :: x in Outside(s, ids) <==> x in s && x.streamId !in ids
  {
    forall x ensures x in Outside(s, ids) <==> x in s && x.streamId !in ids {
      OutsideCount(s, ids, x);
      assert x in Outside(s, ids) <==> x in multiset(Outside(s, ids));
      assert x in s <==> x in multiset(s);
    }
  }

  // Splitting by stream loses and duplicates nothing.
  lemma SplitConserves(s: seq<StreamBuffer>, ids: set<int>)
    ensures multiset(Within(s, ids)) + multiset(Outside(s, ids)) == multiset(s)
  {
    forall x ensures (multiset(Within(s, ids)) + multiset(Outside(s, ids)))[x] == multiset(s)[x] {
      WithinCount(s, ids, x);
      OutsideCount(s, ids, x);
    }
  }

  // When none (all) of the buffers is on the streams, nothing is selected or everything is.
  lemma {:induction false} SelectNoneOrAll(s: seq<StreamBuffer>, ids: set<int>)
    ensures (forall b :: b in s ==> b.streamId !in ids) ==> Within(s, ids) == [] && Outside(s, ids) == s
    ensures (forall b :: b in s ==> b.streamId in ids) ==> Within(s, ids) == s && Outside(s, ids) == []
  {
    if s != [] {
      var front := s[..|s| - 1];
      assert s == front + [s[|s| - 1]];
      assert forall b :: b in front ==> b in s;
      SelectNoneOrAll(front, ids);
    }
  }
}
