// The buffer handles a session imports from the framework: where each of them is over any run of
// imports, cache removals, reconfigurations and the final destruction.
module ImportedHandles {
  import opened HalTypes
  import opened StreamGroups

  // A buffer cache key, with the full 64-bit buffer id.
  datatype Key = Key(stream: int, buffer: nat)

  // The lookup takes the buffer id as a 32-bit number.
  function Truncated(k: Key): Key { Key(k.stream, k.buffer % TWO_TO_THE_32) }

  // Handles are numbered in the order they are imported, so no two imports give the same one.
  datatype Handles = Handles(
    live: map<Key, nat>,           // imported_buffer_handle_map_
    configured: set<int>,          // the ids in configured_streams_map_
    imported: nat,                 // how many handles have been imported
    outstanding: set<nat>,         // handles imported and not freed
    lost: set<nat>)                // handles imported and not recorded

  const INITIAL := Handles(map[], {}, 0, {}, {})

  datatype Event =
    | Import(key: Key)
    | Remove(key: Key)
    | Reconfigure(streams: set<int>, ok: bool)
    | Destroy

  // Import one buffer unless it is known. The flag tells whether it succeeded.
  function ImportOne(h: Handles, k: Key): (Handles, bool) {
    if Truncated(k) in h.live then (h, true)
    else
      var h1 := h.(imported := h.imported + 1, outstanding := h.outstanding + {h.imported});
      if k in h.live then (h1.(lost := h1.lost + {h.imported}), false)
      else (h1.(live := h1.live[k := h.imported]), true)
  }

  // Import several, stopping at the first failure.
  function ImportAll(h: Handles, ks: seq<Key>): (Handles, bool) {
    if ks == [] then (h, true)
    else
      var (h1, ok) := ImportAll(h, ks[..|ks| - 1]);
      if ok then ImportOne(h1, ks[|ks| - 1]) else (h1, false)
  }

  function Without(live: map<Key, nat>, streams: set<int>): map<Key, nat> {
    map k | k in live && k.stream !in streams :: live[k]
  }

  function On(live: map<Key, nat>, streams: set<int>): set<nat> {
    set k | k in live && k.stream in streams :: live[k]
  }

  function Step(h: Handles, e: Event): Handles {
    match e
    case Import(k) => ImportOne(h, k).0
    case Remove(k) =>
      if k in h.live then h.(live := h.live - {k}, outstanding := h.outstanding - {h.live[k]}) else h
    case Reconfigure(streams, ok) =>
      var stale := h.configured - streams;
      h.(live := Without(h.live, stale), outstanding := h.outstanding - On(h.live, stale),
         configured := if ok then streams else h.configured - stale)
    case Destroy => h.(live := map[], outstanding := h.outstanding - h.live.Values)
  }

  function Run(es: seq<Event>): Handles {
    if es == [] then INITIAL else Step(Run(es[..|es| - 1]), es[|es| - 1])
  }

  // ---------- Every handle is in one place ----------

  // Every handle imported so far has been freed, or is recorded under exactly one key, or is lost.
  ghost predicate InOnePlace(h: Handles) {
    && (forall x :: x in h.outstanding <==> x in h.lost || x in h.live.Values)
    && (forall k :: k in h.live ==> h.live[k] !in h.lost && h.live[k] < h.imported)
    && (forall k, l :: k in h.live && l in h.live && h.live[k] == h.live[l] ==> k == l)
    && (forall x :: x in h.lost ==> x < h.imported)
  }

  lemma RecordValues(live: map<Key, nat>, k: Key, handle: nat)
    requires k !in live
    ensures live[k := handle].Values == live.Values + {handle}
  {
    var live' := live[k := handle];
    forall x ensures x in live'.Values <==> x in live.Values + {handle} {
      assert live'[k] == handle;
      if x in live.Values {
        var l :| l in live && live[l] == x;
        assert live'[l] == x;
      }
    }
  }

  lemma ImportKeepsPlaces(h: Handles, k: Key)
    requires InOnePlace(h)
    ensures InOnePlace(ImportOne(h, k).0)
  {
    if k !in h.live { RecordValues(h.live, k, h.imported); }
  }

  // Dropping some keys and freeing exactly their handles.
  lemma DropKeepsPlaces(h: Handles, live': map<Key, nat>, freed: set<nat>)
    requires InOnePlace(h)
    requires forall k :: k in live' ==> k in h.live && live'[k] == h.live[k]
    requires forall x :: x in freed <==> exists k :: k in h.live && k !in live' && h.live[k] == x
    ensures InOnePlace(h.(live := live', outstanding := h.outstanding - freed))
  {
    forall x ensures x in h.outstanding - freed <==> x in h.lost || x in live'.Values {
      if x in live'.Values {
        var k :| k in live' && live'[k] == x;
        assert h.live[k] == x;
      } else if x in h.live.Values {
        var k :| k in h.live && h.live[k] == x;
        assert k !in live';
      }
    }
  }

  lemma StepKeepsPlaces(h: Handles, e: Event)
    requires InOnePlace(h)
    ensures InOnePlace(Step(h, e))
  {
    match e
    case Import(k) => ImportKeepsPlaces(h, k);
    case Remove(k) => if k in h.live { DropKeepsPlaces(h, h.live - {k}, {h.live[k]}); }
    case Reconfigure(streams, _) =>
      var stale := h.configured - streams;
      DropKeepsPlaces(h, Without(h.live, stale), On(h.live, stale));
    case Destroy => DropKeepsPlaces(h, map[], h.live.Values);
  }

  // Over every run: no handle is freed twice, none is freed while it is recorded, and none is
  // recorded under two keys.
  lemma {:induction false} RunKeepsPlaces(es: seq<Event>)
    ensures InOnePlace(Run(es))
  {
    if es != [] {
      RunKeepsPlaces(es[..|es| - 1]);
      StepKeepsPlaces(Run(es[..|es| - 1]), es[|es| - 1]);
    }
  }

  // Over any run in which its key stays recorded, a handle does not change and is not freed.
  lemma {:induction false} LiveHandleIsStable(es: seq<Event>, n: nat, k: Key)
    requires n <= |es| && forall i :: n <= i <= |es| ==> k in Run(es[..i]).live
    ensures Run(es[..n]).live[k] in Run(es).outstanding
    ensures k in Run(es).live && Run(es).live[k] == Run(es[..n]).live[k]
    decreases |es| - n
  {
    if n == |es| {
      assert es[..n] == es;
      RunKeepsPlaces(es);
    } else {
      assert es[..n + 1][..n] == es[..n];
      LiveHandleIsStable(es, n + 1, k);
      StaysLive(Run(es[..n]), es[n], k);
    }
  }

  lemma StaysLive(h: Handles, e: Event, k: Key)
    requires k in h.live && k in Step(h, e).live
    ensures Step(h, e).live[k] == h.live[k]
  {
  }

  // ---------- Stale streams ----------

  // Buffers are imported for configured streams only.
  ghost predicate ImportsConfigured(es: seq<Event>) {
    es != [] ==>
      var before, e := es[..|es| - 1], es[|es| - 1];
      ImportsConfigured(before) && (e.Import? ==> e.key.stream in Run(before).configured)
  }

  // A stream that is not configured any more has no key.
  lemma {:induction false} NoStaleKeys(es: seq<Event>)
    requires ImportsConfigured(es)
    ensures forall k :: k in Run(es).live ==> k.stream in Run(es).configured
  {
    if es != [] { NoStaleKeys(es[..|es| - 1]); }
  }

  // ---------- What is recorded, from the events alone ----------

  // The streams that are configured: those of the last successful configuration without those that a
  // later failed one has left out.
  function ConfiguredIn(es: seq<Event>): set<int> {
    if es == [] then {}
    else
      var before, e := ConfiguredIn(es[..|es| - 1]), es[|es| - 1];
      if !e.Reconfigure? then before else if e.ok then e.streams else before * e.streams
  }

  // A buffer is recorded from an import that found nothing under its truncated id, until it is removed,
  // its stream ceases to be configured, or all is destroyed.
  predicate IsRecorded(es: seq<Event>, k: Key) {
    es != [] &&
    var before, e := es[..|es| - 1], es[|es| - 1];
    match e
    case Import(l) =>
      IsRecorded(before, k) || (l == k && !IsRecorded(before, Key(k.stream, k.buffer % TWO_TO_THE_32)))
    case Remove(l) => IsRecorded(before, k) && l != k
    case Reconfigure(streams, _) =>
      IsRecorded(before, k) && (k.stream in ConfiguredIn(before) ==> k.stream in streams)
    case Destroy => false
  }

  // In every run exactly those buffers are recorded, and exactly those streams configured.
  lemma {:induction false} RecordedIff(es: seq<Event>)
    ensures Run(es).configured == ConfiguredIn(es)
    ensures forall k :: k in Run(es).live <==> IsRecorded(es, k)
  {
    if es != [] {
      var before, e := es[..|es| - 1], es[|es| - 1];
      RecordedIff(before);
      forall k ensures k in Run(es).live <==> IsRecorded(es, k) {
        assert k in Run(before).live <==> IsRecorded(before, k);
        assert Truncated(k) in Run(before).live <==> IsRecorded(before, Truncated(k));
      }
    }
  }

  // ---------- Lost handles ----------

  // The buffer is recorded, but the lookup with the truncated id does not find it.
  predicate LosesHandle(h: Handles, k: Key) {
    Truncated(k) !in h.live && k in h.live
  }

  // Another buffer is recorded under the truncated id, so this one is taken for imported.
  predicate TakenForAnother(h: Handles, k: Key) {
    Truncated(k) in h.live && k !in h.live
  }

  // An import fails, and leaks its handle, exactly when the buffer is recorded and its id does not
  // fit in 32 bits under which nothing is recorded. It leaves the buffer unrecorded exactly when its
  // truncated id is recorded for another buffer. Neither can happen to an id that fits.
  lemma ImportFaultsIff(h: Handles, k: Key)
    requires InOnePlace(h)
    ensures
      var (h', ok) := ImportOne(h, k);
      && (!ok <==> LosesHandle(h, k))
      && (h'.lost != h.lost <==> LosesHandle(h, k))
      && (k !in h'.live <==> TakenForAnother(h, k))
    ensures LosesHandle(h, k) || TakenForAnother(h, k) ==> k.buffer >= TWO_TO_THE_32
  {
    assert h.imported !in h.lost;
    if k.buffer < TWO_TO_THE_32 { assert Truncated(k) == k; }
  }

  ghost predicate NarrowIds(es: seq<Event>) {
    forall i :: 0 <= i < |es| && es[i].Import? ==> es[i].key.buffer < TWO_TO_THE_32
  }

  lemma {:induction false} NothingLost(es: seq<Event>)
    requires NarrowIds(es)
    ensures Run(es).lost == {}
  {
    if es != [] {
      var before := es[..|es| - 1];
      assert forall i :: 0 <= i < |before| ==> before[i] == es[i];
      NothingLost(before);
      RunKeepsPlaces(before);
      if es[|es| - 1].Import? { ImportFaultsIff(Run(before), es[|es| - 1].key); }
    }
  }

  // In a run of ids that fit, the handles not freed are exactly those of the recorded buffers, one for
  // each.
  lemma OneHandlePerRecorded(es: seq<Event>)
    requires NarrowIds(es)
    ensures forall x :: x in Run(es).outstanding <==> exists k :: k in Run(es).live && Run(es).live[k] == x
    ensures |Run(es).outstanding| == |Run(es).live|
  {
    NothingLost(es);
    RunKeepsPlaces(es);
    var h := Run(es);
    assert h.outstanding == h.live.Values;
    DistinctValues(h.live);
  }

  lemma {:induction false} DistinctValues(live: map<Key, nat>)
    requires forall k, l :: k in live && l in live && live[k] == live[l] ==> k == l
    ensures |live.Values| == |live|
    decreases |live|
  {
    if live.Keys != {} {
      var k :| k in live;
      var rest := live - {k};
      assert live == rest[k := live[k]];
      RecordValues(rest, k, live[k]);
      DistinctValues(rest);
    }
  }

  // Destruction frees every handle that is left, if the buffer ids fit in 32 bits.
  lemma DestructionFreesAll(es: seq<Event>)
    requires NarrowIds(es)
    ensures Run(es + [Destroy]).outstanding == {} && Run(es + [Destroy]).live == map[]
  {
    var all := es + [Destroy];
    assert all[..|es|] == es;
    assert NarrowIds(all) by {
      forall i | 0 <= i < |all| && all[i].Import? ensures all[i].key.buffer < TWO_TO_THE_32 {
        assert all[i] == es[i];
      }
    }
    NothingLost(all);
    RunKeepsPlaces(all);
    var h := Run(all);
    assert forall x :: x in h.outstanding ==> x in h.live.Values;
  }

  // One import after the other.
  function After(h: Handles, ks: seq<Key>): Handles {
    if ks == [] then h else Step(After(h, ks[..|ks| - 1]), Import(ks[|ks| - 1]))
  }

  ghost predicate FailsAt(h: Handles, ks: seq<Key>, i: nat) {
    i < |ks| && LosesHandle(After(h, ks[..i]), ks[i])
  }

  // The imports of one request are made in order up to the first that fails, and that one is still made.
  lemma {:induction false} ImportsUntilFailure(h: Handles, ks: seq<Key>)
    ensures ImportAll(h, ks).1 ==>
              ImportAll(h, ks).0 == After(h, ks) && forall i: nat :: !FailsAt(h, ks, i)
    ensures !ImportAll(h, ks).1 ==>
              exists i: nat :: FailsAt(h, ks, i) && ImportAll(h, ks).0 == After(h, ks[..i + 1])
                               && forall j: nat :: j < i ==> !FailsAt(h, ks, j)
  {
    if ks != [] {
      var front := ks[..|ks| - 1];
      ImportsUntilFailure(h, front);
      forall i: nat | i < |front| ensures FailsAt(h, ks, i) <==> FailsAt(h, front, i) {
        assert front[..i] == ks[..i];
      }
      if ImportAll(h, front).1 {
        assert ks[..|front| + 1] == ks;
        assert FailsAt(h, ks, |front|) <==> !ImportAll(h, ks).1;
        assert forall i: nat :: i < |front| ==> !FailsAt(h, front, i);
      } else {
        var i: nat :| FailsAt(h, front, i) && ImportAll(h, front).0 == After(h, front[..i + 1])
                      && forall j: nat :: j < i ==> !FailsAt(h, front, j);
        assert front[..i + 1] == ks[..i + 1];
        assert FailsAt(h, ks, i);
      }
    }
  }

  // Importing the same buffer twice leaks a handle for good when its id is too wide.
  lemma WideIdLeaks(stream: int, buffer: nat)
    requires buffer >= TWO_TO_THE_32
    ensures
      var k := Key(stream, buffer);
      Run([Import(k), Import(k), Destroy]).outstanding == {1}
  {
    var k := Key(stream, buffer);
    assert Truncated(k) != k;
    RunNext([], Import(k));
    RunNext([Import(k)], Import(k));
    RunNext([Import(k), Import(k)], Destroy);
    assert [] + [Import(k)] == [Import(k)] && [Import(k)] + [Import(k)] == [Import(k), Import(k)];
    assert [Import(k), Import(k)] + [Destroy] == [Import(k), Import(k), Destroy];
    var h2 := Run([Import(k), Import(k)]);
    assert h2.live == map[k := 0] && h2.outstanding == {0, 1};
    assert h2.live.Values == {0} by { assert h2.live[k] == 0; }
  }

  lemma RunNext(es: seq<Event>, e: Event)
    ensures Run(es + [e]) == Step(Run(es), e)
  {
    assert (es + [e])[..|es|] == es;
  }

  // ---------- The code ----------

  // The gralloc mapper: hands out fresh handles, and can free a handle only once.
  class BufferMapper {
    var next: nat
    ghost var outstanding: set<nat>

    constructor ()
      ensures next == 0 && outstanding == {}
    {
      next := 0;
      outstanding := {};
    }

    method ImportBuffer() returns (handle: nat)
      modifies this
      ensures handle == old(next) && next == old(next) + 1
      ensures outstanding == old(outstanding) + {handle}
    {
      handle := next;
      next := next + 1;
      outstanding := outstanding + {handle};
    }

    method FreeBuffer(handle: nat)
      requires handle in outstanding
      modifies this
      ensures outstanding == old(outstanding) - {handle} && next == old(next)
    {
      outstanding := outstanding - {handle};
    }
  }

  class ImportedBufferHandles {
    const mapper: BufferMapper
    var importedBufferHandleMap: map<Key, nat>
    var configuredStreams: set<int>
    ghost var lost: set<nat>

    ghost function State(): Handles
      reads this, mapper
    {
      Handles(importedBufferHandleMap, configuredStreams, mapper.next, mapper.outstanding, lost)
    }

    constructor ()
      ensures State() == INITIAL && InOnePlace(State())
    {
      mapper := new BufferMapper();
      importedBufferHandleMap := map[];
      configuredStreams := {};
      lost := {};
    }

    method IsBufferImported(stream: int, buffer: nat) returns (known: bool)
      requires buffer < TWO_TO_THE_32
      ensures known <==> Key(stream, buffer) in importedBufferHandleMap
    {
      known := Key(stream, buffer) in importedBufferHandleMap;
    }

    method ImportBufferHandle(k: Key) returns (ok: bool)
      requires InOnePlace(State())
      modifies this`importedBufferHandleMap, this`lost, mapper
      ensures InOnePlace(State())
      ensures (State(), ok) == ImportOne(old(State()), k)
    {
      ImportKeepsPlaces(State(), k);
      var known := IsBufferImported(k.stream, k.buffer % TWO_TO_THE_32);
      if known {
        return true;
      }
      var handle := mapper.ImportBuffer();
      if k !in importedBufferHandleMap {
        importedBufferHandleMap := importedBufferHandleMap[k := handle];
      } else if importedBufferHandleMap[k] != handle {
        lost := lost + {handle};
        return false;
      }
      ok := true;
    }

    method ImportBufferHandles(ks: seq<Key>) returns (ok: bool)
      requires InOnePlace(State())
      modifies this`importedBufferHandleMap, this`lost, mapper
      ensures InOnePlace(State())
      ensures (State(), ok) == ImportAll(old(State()), ks)
    {
      ghost var h := State();
      for i := 0 to |ks|
        invariant InOnePlace(State())
        invariant (State(), true) == ImportAll(h, ks[..i])
      {
        assert ks[..i + 1][..i] == ks[..i];
        ok := ImportBufferHandle(ks[i]);
        if !ok {
          ImportStops(h, ks, i + 1);
          return;
        }
      }
      assert ks[..|ks|] == ks;
      ok := true;
    }

    method RemoveBufferCache(k: Key)
      requires InOnePlace(State())
      modifies this`importedBufferHandleMap, mapper
      ensures InOnePlace(State())
      ensures State() == Step(old(State()), Remove(k))
    {
      StepKeepsPlaces(State(), Remove(k));
      if k !in importedBufferHandleMap {
        return;
      }
      mapper.FreeBuffer(importedBufferHandleMap[k]);
      importedBufferHandleMap := importedBufferHandleMap - {k};
    }

    method FreeIfOn(k: Key, stream: int)
      requires InOnePlace(State()) && k in importedBufferHandleMap
      modifies this`importedBufferHandleMap, mapper
      ensures InOnePlace(State())
      ensures importedBufferHandleMap == old(importedBufferHandleMap) - if k.stream == stream then {k} else {}
      ensures mapper.next == old(mapper.next)
    {
      if k.stream == stream {
        RemoveBufferCache(k);
      }
    }

    // Free the handles of one stream, walking the map in no particular order.
    method FreeBufferHandles(stream: int)
      requires InOnePlace(State())
      modifies this`importedBufferHandleMap, mapper
      ensures InOnePlace(State())
      ensures State() == old(State()).(live := Without(old(importedBufferHandleMap), {stream}),
                                       outstanding := old(State()).outstanding
                                                      - On(old(importedBufferHandleMap), {stream}))
    {
      ghost var h := State();
      var left := importedBufferHandleMap.Keys;
      while left != {}
        invariant InOnePlace(State())
        invariant left <= importedBufferHandleMap.Keys
        invariant forall k :: k in importedBufferHandleMap ==> k in h.live && importedBufferHandleMap[k] == h.live[k]
        invariant forall k :: k in h.live ==> k in importedBufferHandleMap || (k !in left && k.stream == stream)
        invariant forall k :: k in importedBufferHandleMap ==> k in left || k.stream != stream
        invariant mapper.next == h.imported
        decreases left
      {
        var k :| k in left;
        FreeIfOn(k, stream);
        left := left - {k};
      }
      assert importedBufferHandleMap == Without(h.live, {stream});
      FreedOn(h, State(), {stream});
    }

    // Forget the streams that are not configured any more, with their handles.
    method CleanupStaleStreams(newStreams: set<int>)
      requires InOnePlace(State())
      modifies this`importedBufferHandleMap, this`configuredStreams, mapper
      ensures InOnePlace(State())
      ensures State() == Step(old(State()), Reconfigure(newStreams, false))
    {
      ghost var h := State();
      ghost var done: set<int> := {};
      var left := configuredStreams;
      while left != {}
        invariant InOnePlace(State()) && mapper.next == h.imported && lost == h.lost
        invariant left <= h.configured
        invariant done == h.configured - newStreams - left
        invariant configuredStreams == h.configured - done
        invariant importedBufferHandleMap == Without(h.live, done)
        decreases left
      {
        var stream := Pick(left);
        ghost var before := left;
        left := left - {stream};
        assert h.configured - newStreams - left ==
               if stream in newStreams then h.configured - newStreams - before
               else (h.configured - newStreams - before) + {stream};
        if stream !in newStreams {
          WithoutNext(h.live, done, stream);
          done := done + {stream};
          configuredStreams := configuredStreams - {stream};
          FreeBufferHandles(stream);
        }
      }
      assert done == h.configured - newStreams;
      FreedOn(h, State().(configured := h.configured), h.configured - newStreams);
    }

    // `ok` tells whether a capture session could be made for the new streams.
    method ConfigureStreams(newStreams: set<int>, ok: bool)
      requires InOnePlace(State())
      modifies this`importedBufferHandleMap, this`configuredStreams, mapper
      ensures InOnePlace(State())
      ensures State() == Step(old(State()), Reconfigure(newStreams, ok))
    {
      CleanupStaleStreams(newStreams);
      if ok {
        assert newStreams == configuredStreams + newStreams;
        configuredStreams := configuredStreams + newStreams;
      }
    }

    method FreeImportedBufferHandles()
      requires InOnePlace(State())
      modifies this`importedBufferHandleMap, mapper
      ensures InOnePlace(State())
      ensures State() == Step(old(State()), Destroy)
    {
      ghost var h := State();
      StepKeepsPlaces(h, Destroy);
      var left := importedBufferHandleMap.Keys;
      while left != {}
        invariant left <= importedBufferHandleMap.Keys
        invariant State() == h.(outstanding := mapper.outstanding)
        invariant forall k :: k in left ==> h.live[k] in mapper.outstanding
        invariant forall x :: x in mapper.outstanding <==>
                    x in h.outstanding && forall k :: k in h.live && h.live[k] == x ==> k in left
        decreases left
      {
        var k :| k in left;
        mapper.FreeBuffer(importedBufferHandleMap[k]);
        left := left - {k};
      }
      importedBufferHandleMap := map[];
      SameOutstanding(State(), Step(h, Destroy));
    }
  }

  lemma WithoutNext(live: map<Key, nat>, streams: set<int>, stream: int)
    ensures Without(Without(live, streams), {stream}) == Without(live, streams + {stream})
  {
  }

  lemma FreedOn(h: Handles, h': Handles, streams: set<int>)
    requires InOnePlace(h) && InOnePlace(h')
    requires h' == h.(live := Without(h.live, streams), outstanding := h'.outstanding)
    ensures h' == h.(live := Without(h.live, streams), outstanding := h.outstanding - On(h.live, streams))
  {
    DropKeepsPlaces(h, Without(h.live, streams), On(h.live, streams));
    SameOutstanding(h', h.(live := Without(h.live, streams), outstanding := h.outstanding - On(h.live, streams)));
  }

  lemma SameOutstanding(h: Handles, h': Handles)
    requires InOnePlace(h) && InOnePlace(h') && h == h'.(outstanding := h.outstanding)
    ensures h == h'
  {
    assert forall x :: x in h.outstanding <==> x in h'.outstanding;
  }

  lemma {:induction false} ImportStops(h: Handles, ks: seq<Key>, i: nat)
    requires i <= |ks| && !ImportAll(h, ks[..i]).1
    ensures ImportAll(h, ks) == ImportAll(h, ks[..i])
    decreases |ks| - i
  {
    if i < |ks| {
      assert ks[..i + 1][..i] == ks[..i];
      ImportStops(h, ks, i + 1);
    } else {
      assert ks[..i] == ks;
    }
  }
}
