// PendingRequestsTracker: counts, per stream or stream group, the buffers of requests in flight
// and the buffers acquired from the framework, and throttles both. A wait is a guarded step: it
// takes effect when its condition holds and otherwise times out, changing nothing.
module RequestsTracker {
  import opened HalTypes
  import opened StreamGroups

  datatype HalStream = HalStream(id: int, maxBuffers: nat)

  datatype Status = Ok | BadValue | TimedOut

  // What is fixed when the session is configured.
  datatype Quotas = Quotas(groups: map<int, int>, max: map<int, nat>)

  datatype Counts = Counts(pending: map<int, nat>, acquired: map<int, nat>, requested: set<int>)

  ghost predicate Consistent(q: Quotas, t: Counts) {
    Folding(q.groups) && t.pending.Keys == q.max.Keys && t.acquired.Keys == q.max.Keys
  }

  // Count the buffers in, or out again but never below zero.
  function Raised(q: Quotas, counts: map<int, nat>, buffers: seq<StreamBuffer>): (r: map<int, nat>)
    ensures r.Keys == counts.Keys
  {
    map s | s in counts :: counts[s] + CountOn(q.groups, buffers, s)
  }

  function Lowered(q: Quotas, counts: map<int, nat>, buffers: seq<StreamBuffer>): (r: map<int, nat>)
    ensures r.Keys == counts.Keys
  {
    map s | s in counts :: Minus(counts[s], CountOn(q.groups, buffers, s))
  }

  function Minus(a: nat, b: nat): nat {
    if a >= b then a - b else 0
  }

  // Every stream the buffers count for is configured and below its maximum.
  predicate Enough(q: Quotas, t: Counts, buffers: seq<StreamBuffer>)
    requires t.pending.Keys == q.max.Keys
  {
    forall b :: b in buffers ==>
      var s := Fold(q.groups, b.streamId);
      s in q.max && t.pending[s] < q.max[s]
  }

  // Some representatives and all members of their groups.
  function Closure(groups: map<int, int>, ids: set<int>): set<int> {
    ids + set x | x in groups && groups[x] in ids
  }

  // The streams whose first request since the last flush this is.
  function FirstRequested(q: Quotas, t: Counts, buffers: seq<StreamBuffer>): set<int> {
    Closure(q.groups, FoldsOf(q.groups, buffers) - t.requested)
  }

  // The stream stands for a buffer of the request, or is in the group of one that does, and that one
  // has not been requested yet.
  ghost predicate IsFirstRequested(groups: map<int, int>, requested: set<int>, buffers: seq<StreamBuffer>, x: int) {
    exists i :: 0 <= i < |buffers| &&
                var id := Fold(groups, buffers[i].streamId);
                id !in requested && (x == id || (x in groups && groups[x] == id))
  }

  function Admitted(q: Quotas, t: Counts, buffers: seq<StreamBuffer>): Counts {
    t.(pending := Raised(q, t.pending, buffers), requested := t.requested + FoldsOf(q.groups, buffers))
  }

  predicate MayAcquire(q: Quotas, t: Counts, stream: int, n: nat)
    requires t.acquired.Keys == q.max.Keys
  {
    var s := Fold(q.groups, stream);
    s in q.max && t.acquired[s] + n <= q.max[s]
  }

  function Reserved(q: Quotas, t: Counts, stream: int, n: nat): Counts
    requires t.acquired.Keys == q.max.Keys
  {
    var s := Fold(q.groups, stream);
    if MayAcquire(q, t, stream, n) then t.(acquired := t.acquired[s := t.acquired[s] + n]) else t
  }

  // The difference, or the 32-bit number that is congruent to it.
  ghost predicate WrappedDifference(a: nat, n: nat, r: nat) {
    if n <= a then r + n == a else r < TWO_TO_THE_32 && (r + n) % TWO_TO_THE_32 == a % TWO_TO_THE_32
  }

  // Unsigned 32-bit subtraction.
  function Subtracted(a: nat, n: nat): nat {
    if n <= a then a - n else (a - n) % TWO_TO_THE_32
  }

  // Takes a reservation of `n` buffers back, with no check.
  function Unreserved(q: Quotas, t: Counts, stream: int, n: nat): Counts
    requires t.acquired.Keys == q.max.Keys
  {
    var s := Fold(q.groups, stream);
    if s in q.max then t.(acquired := t.acquired[s := Subtracted(t.acquired[s], n)]) else t
  }

  lemma RaisedNext(q: Quotas, counts: map<int, nat>, buffers: seq<StreamBuffer>, i: nat)
    requires i < |buffers|
    ensures
      var before, id := Raised(q, counts, buffers[..i]), Fold(q.groups, buffers[i].streamId);
      Raised(q, counts, buffers[..i + 1]) == if id in counts then before[id := before[id] + 1] else before
  {
    forall s { CountNext(q.groups, buffers, s, i); }
  }

  lemma LoweredNext(q: Quotas, counts: map<int, nat>, buffers: seq<StreamBuffer>, i: nat)
    requires i < |buffers|
    ensures
      var before, id := Lowered(q, counts, buffers[..i]), Fold(q.groups, buffers[i].streamId);
      Lowered(q, counts, buffers[..i + 1]) ==
        if id in counts && before[id] != 0 then before[id := before[id] - 1] else before
  {
    forall s { CountNext(q.groups, buffers, s, i); }
  }

  // No two configured streams are represented by themselves under one id.
  ghost predicate DistinctRepresentatives(groups: map<int, int>, streams: seq<HalStream>) {
    forall i, j :: 0 <= i < j < |streams| && streams[i].id == streams[j].id ==> streams[i].id in groups
  }

  // The quotas are those of the streams that represent themselves.
  ghost predicate HasQuotas(groups: map<int, int>, streams: seq<HalStream>, max: map<int, nat>) {
    && (forall h :: h in streams && h.id !in groups ==> h.id in max && max[h.id] == h.maxBuffers)
    && (forall s :: s in max ==> s !in groups && HalStream(s, max[s]) in streams)
  }

  lemma QuotaNext(groups: map<int, int>, streams: seq<HalStream>, h: HalStream, max: map<int, nat>)
    requires Folding(groups) && DistinctRepresentatives(groups, streams) && HasQuotas(groups, streams, max)
    ensures DistinctRepresentatives(groups, streams + [h]) <==> h.id in groups || h.id !in max
    ensures h.id in groups ==> HasQuotas(groups, streams + [h], max)
    ensures h.id !in groups && h.id !in max ==> HasQuotas(groups, streams + [h], max[h.id := h.maxBuffers])
  {
    var all := streams + [h];
    if h.id !in groups && h.id in max {
      var i :| 0 <= i < |streams| && streams[i] == HalStream(h.id, max[h.id]);
      assert all[i].id == all[|streams|].id;
    }
  }

  lemma SomeRepresentativesRepeat(groups: map<int, int>, some: seq<HalStream>, streams: seq<HalStream>)
    requires some <= streams && !DistinctRepresentatives(groups, some)
    ensures !DistinctRepresentatives(groups, streams)
  {
    var i, j :| 0 <= i < j < |some| && some[i].id == some[j].id && some[i].id !in groups;
    assert streams[i].id == streams[j].id;
  }

  class PendingRequestsTracker {
    var groups: map<int, int>
    var maxBuffers: map<int, nat>
    var pendingBuffers: map<int, nat>
    var acquiredBuffers: map<int, nat>
    var requestedStreamIds: set<int>

    ghost function Quota(): Quotas
      reads this
    {
      Quotas(groups, maxBuffers)
    }

    ghost function State(): Counts
      reads this
    {
      Counts(pendingBuffers, acquiredBuffers, requestedStreamIds)
    }

    ghost predicate Valid()
      reads this
    {
      Consistent(Quota(), State())
    }

    constructor ()
      ensures Valid() && maxBuffers == map[] && requestedStreamIds == {}
    {
      groups := map[];
      maxBuffers := map[];
      pendingBuffers := map[];
      acquiredBuffers := map[];
      requestedStreamIds := {};
    }

    // One entry per representative stream. Fails if two entries would be for one stream.
    method Initialize(streams: seq<HalStream>, groupMap: map<int, int>) returns (status: Status)
      requires Valid() && maxBuffers == map[] && requestedStreamIds == {}
      requires Folding(groupMap)
      modifies this
      ensures Valid() && groups == groupMap && requestedStreamIds == {}
      ensures status == if DistinctRepresentatives(groupMap, streams) then Ok else BadValue
      ensures status.Ok? ==> HasQuotas(groupMap, streams, maxBuffers)
      ensures forall s :: s in maxBuffers ==> pendingBuffers[s] == 0 && acquiredBuffers[s] == 0
    {
      groups := groupMap;
      for k := 0 to |streams|
        invariant Valid() && groups == groupMap && requestedStreamIds == {}
        invariant DistinctRepresentatives(groupMap, streams[..k])
        invariant HasQuotas(groupMap, streams[..k], maxBuffers)
        invariant forall s :: s in maxBuffers ==> pendingBuffers[s] == 0 && acquiredBuffers[s] == 0
      {
        assert streams[..k + 1] == streams[..k] + [streams[k]];
        QuotaNext(groupMap, streams[..k], streams[k], maxBuffers);
        var id := Fold(groups, streams[k].id);
        if id == streams[k].id {
          if id in maxBuffers {
            SomeRepresentativesRepeat(groupMap, streams[..k + 1], streams);
            return BadValue;
          }
          maxBuffers := maxBuffers[id := streams[k].maxBuffers];
          pendingBuffers := pendingBuffers[id := 0];
          acquiredBuffers := acquiredBuffers[id := 0];
        }
      }
      assert streams[..|streams|] == streams;
      status := Ok;
    }

    method TrackRequestBuffersLocked(buffers: seq<StreamBuffer>)
      requires Valid()
      modifies this`pendingBuffers
      ensures Valid()
      ensures pendingBuffers == Raised(Quota(), old(pendingBuffers), buffers)
    {
      for i := 0 to |buffers|
        invariant Valid()
        invariant pendingBuffers == Raised(Quota(), old(pendingBuffers), buffers[..i])
      {
        RaisedNext(Quota(), old(pendingBuffers), buffers, i);
        var id := Fold(groups, buffers[i].streamId);
        if id in maxBuffers {
          pendingBuffers := pendingBuffers[id := pendingBuffers[id] + 1];
        }
      }
      assert buffers[..|buffers|] == buffers;
    }

    method TrackReturnedResultBuffers(buffers: seq<StreamBuffer>)
      requires Valid()
      modifies this`pendingBuffers
      ensures Valid()
      ensures pendingBuffers == Lowered(Quota(), old(pendingBuffers), buffers)
    {
      for i := 0 to |buffers|
        invariant Valid()
        invariant pendingBuffers == Lowered(Quota(), old(pendingBuffers), buffers[..i])
      {
        LoweredNext(Quota(), old(pendingBuffers), buffers, i);
        var id := Fold(groups, buffers[i].streamId);
        if id in maxBuffers && pendingBuffers[id] != 0 {
          pendingBuffers := pendingBuffers[id := pendingBuffers[id] - 1];
        }
      }
      assert buffers[..|buffers|] == buffers;
    }

    method TrackReturnedAcquiredBuffers(buffers: seq<StreamBuffer>)
      requires Valid()
      modifies this`acquiredBuffers
      ensures Valid()
      ensures acquiredBuffers == Lowered(Quota(), old(acquiredBuffers), buffers)
    {
      for i := 0 to |buffers|
        invariant Valid()
        invariant acquiredBuffers == Lowered(Quota(), old(acquiredBuffers), buffers[..i])
      {
        LoweredNext(Quota(), old(acquiredBuffers), buffers, i);
        var id := Fold(groups, buffers[i].streamId);
        if id in maxBuffers && acquiredBuffers[id] != 0 {
          acquiredBuffers := acquiredBuffers[id := acquiredBuffers[id] - 1];
        }
      }
      assert buffers[..|buffers|] == buffers;
    }

    method OnBufferCacheFlushed()
      requires Valid()
      modifies this`requestedStreamIds
      ensures Valid() && requestedStreamIds == {}
    {
      requestedStreamIds := {};
    }

    method DoStreamsHaveEnoughBuffersLocked(buffers: seq<StreamBuffer>) returns (enough: bool)
      requires Valid()
      ensures enough <==> Enough(Quota(), State(), buffers)
      ensures enough <==>
                forall i :: 0 <= i < |buffers| ==>
                  var id := Fold(groups, buffers[i].streamId);
                  id in maxBuffers && pendingBuffers[id] < maxBuffers[id]
    {
      for i := 0 to |buffers|
        invariant Enough(Quota(), State(), buffers[..i])
      {
        var id := Fold(groups, buffers[i].streamId);
        if id !in maxBuffers || pendingBuffers[id] >= maxBuffers[id] {
          return false;
        }
        assert buffers[..i + 1] == buffers[..i] + [buffers[i]];
      }
      assert buffers[..|buffers|] == buffers;
      enough := true;
    }

    // The streams folded to `id`, in the order the map happens to have.
    method StreamsInGroup(id: int) returns (members: seq<int>)
      ensures NoDuplicates(members)
      ensures forall x :: x in members <==> x in groups && groups[x] == id
    {
      members := [];
      var left := groups.Keys;
      while left != {}
        invariant left <= groups.Keys && NoDuplicates(members)
        invariant forall x :: x in members <==> x in groups && x !in left && groups[x] == id
        decreases left
      {
        var x := Pick(left);
        if groups[x] == id {
          members := members + [x];
        }
        left := left - {x};
      }
    }

    // Each stream not requested yet is announced once, together with its whole group.
    method UpdateRequestedStreamIdsLocked(buffers: seq<StreamBuffer>) returns (first: seq<int>)
      requires Valid()
      modifies this`requestedStreamIds
      ensures Valid()
      ensures requestedStreamIds == old(requestedStreamIds) + FoldsOf(groups, buffers)
      ensures NoDuplicates(first)
      ensures forall x :: x in first <==> x in FirstRequested(Quota(), old(State()), buffers)
      ensures forall x :: x in first <==> IsFirstRequested(groups, old(requestedStreamIds), buffers, x)
    {
      first := [];
      ghost var t := State();
      for i := 0 to |buffers|
        invariant Valid()
        invariant requestedStreamIds == t.requested + FoldsOf(groups, buffers[..i])
        invariant NoDuplicates(first)
        invariant forall x :: x in first <==> x in FirstRequested(Quota(), t, buffers[..i])
      {
        var id := Fold(groups, buffers[i].streamId);
        FoldsLast(groups, buffers[..i + 1]);
        assert buffers[..i + 1][..i] == buffers[..i];
        if id !in requestedStreamIds {
          var members := StreamsInGroup(id);
          FirstNext(Quota(), t, buffers[..i], id, first, members);
          first := first + [id] + members;
          requestedStreamIds := requestedStreamIds + {id};
        }
      }
      assert buffers[..|buffers|] == buffers;
      AllFirstRequested(Quota(), t, buffers);
    }

    // Admit a request if all its streams are below their maximum; otherwise nothing changes.
    method WaitAndTrackRequestBuffers(buffers: seq<StreamBuffer>) returns (status: Status, first: seq<int>)
      requires Valid()
      modifies this`pendingBuffers, this`requestedStreamIds
      ensures Valid()
      ensures status == if Enough(Quota(), old(State()), buffers) then Ok else TimedOut
      ensures status.Ok? <==>
                forall i :: 0 <= i < |buffers| ==>
                  var id := Fold(groups, buffers[i].streamId);
                  id in maxBuffers && old(pendingBuffers)[id] < maxBuffers[id]
      ensures status.Ok? ==>
                && State() == Admitted(Quota(), old(State()), buffers)
                && NoDuplicates(first)
                && forall x :: x in first <==> x in FirstRequested(Quota(), old(State()), buffers)
      ensures status.TimedOut? ==> State() == old(State())
    {
      first := [];
      var enough := DoStreamsHaveEnoughBuffersLocked(buffers);
      if !enough {
        return TimedOut, first;
      }
      TrackRequestBuffersLocked(buffers);
      first := UpdateRequestedStreamIdsLocked(buffers);
      status := Ok;
    }

    // Reserve `n` buffers of a stream.
    method WaitAndTrackAcquiredBuffers(stream: int, n: nat) returns (status: Status)
      requires Valid()
      modifies this`acquiredBuffers
      ensures Valid()
      ensures State() == Reserved(Quota(), old(State()), stream, n)
      ensures
        var id := Fold(groups, stream);
        status == if id !in maxBuffers then BadValue
                  else if old(acquiredBuffers)[id] + n <= maxBuffers[id] then Ok else TimedOut
      ensures acquiredBuffers ==
              if status.Ok? then
                old(acquiredBuffers)[Fold(groups, stream) := old(acquiredBuffers)[Fold(groups, stream)] + n]
              else old(acquiredBuffers)
    {
      var id := Fold(groups, stream);
      if id !in maxBuffers {
        return BadValue;
      }
      if acquiredBuffers[id] + n > maxBuffers[id] {
        return TimedOut;
      }
      acquiredBuffers := acquiredBuffers[id := acquiredBuffers[id] + n];
      status := Ok;
    }

    // Take back a reservation that did not get its buffers.
    method TrackBufferAcquisitionFailure(stream: int, n: nat)
      requires Valid()
      modifies this`acquiredBuffers
      ensures Valid()
      ensures State() == Unreserved(Quota(), old(State()), stream, n)
      ensures
        var id := Fold(groups, stream);
        acquiredBuffers.Keys == old(acquiredBuffers).Keys
        && (forall s :: s in acquiredBuffers && s != id ==> acquiredBuffers[s] == old(acquiredBuffers)[s])
        && (id in maxBuffers ==> WrappedDifference(old(acquiredBuffers)[id], n, acquiredBuffers[id]))
    {
      var id := Fold(groups, stream);
      if id in maxBuffers {
        acquiredBuffers := acquiredBuffers[id := Subtracted(acquiredBuffers[id], n)];
      }
    }
  }

  lemma FirstRequestedIff(q: Quotas, t: Counts, buffers: seq<StreamBuffer>, x: int)
    ensures x in FirstRequested(q, t, buffers) <==> IsFirstRequested(q.groups, t.requested, buffers, x)
  {
    var ids := FoldsOf(q.groups, buffers) - t.requested;
    if x in FirstRequested(q, t, buffers) {
      var id :| id in ids && (x == id || (x in q.groups && q.groups[x] == id));
      var b :| b in buffers && Fold(q.groups, b.streamId) == id;
      var i :| 0 <= i < |buffers| && buffers[i] == b;
    }
  }

  lemma AllFirstRequested(q: Quotas, t: Counts, buffers: seq<StreamBuffer>)
    ensures forall x :: x in FirstRequested(q, t, buffers) <==> IsFirstRequested(q.groups, t.requested, buffers, x)
  {
    forall x ensures x in FirstRequested(q, t, buffers) <==> IsFirstRequested(q.groups, t.requested, buffers, x) {
      FirstRequestedIff(q, t, buffers, x);
    }
  }

  lemma FirstNext(q: Quotas, t: Counts, before: seq<StreamBuffer>, id: int, first: seq<int>, members: seq<int>)
    requires Folding(q.groups) && id !in q.groups && id !in t.requested + FoldsOf(q.groups, before)
    requires NoDuplicates(first) && NoDuplicates(members)
    requires forall x :: x in first <==> x in FirstRequested(q, t, before)
    requires forall x :: x in members <==> x in q.groups && q.groups[x] == id
    ensures NoDuplicates(first + [id] + members)
    ensures forall x :: x in first + [id] + members <==>
              x in Closure(q.groups, FoldsOf(q.groups, before) + {id} - t.requested)
  {
    forall x | x in FoldsOf(q.groups, before) ensures x !in q.groups {
    }
    assert forall x :: x in members ==> x !in first && x != id;
    assert id !in first;
    DisjointAppend(first + [id], members);
  }

  lemma DisjointAppend(a: seq<int>, b: seq<int>)
    requires NoDuplicates(a) && NoDuplicates(b) && forall x :: x in b ==> x !in a
    ensures NoDuplicates(a + b)
  {
    forall i, j | 0 <= i < j < |a + b| ensures (a + b)[i] != (a + b)[j] {
      if i < |a| <= j { assert b[j - |a|] in b && a[i] in a; }
    }
  }

  // ---------- Quotas ----------

  // Never more buffers pending than the maximum, but for what one request adds to a stream, `m`.
  ghost predicate PendingWithin(q: Quotas, t: Counts, m: nat) {
    && Consistent(q, t)
    && forall s :: s in q.max ==> t.pending[s] == 0 || t.pending[s] <= q.max[s] - 1 + m
  }

  // Never more buffers acquired than the maximum.
  ghost predicate AcquiredWithin(q: Quotas, t: Counts) {
    Consistent(q, t) && forall s :: s in q.max ==> t.acquired[s] <= q.max[s]
  }

  ghost predicate AtMostOnEach(q: Quotas, buffers: seq<StreamBuffer>, m: nat) {
    forall s :: CountOn(q.groups, buffers, s) <= m
  }

  lemma AdmissionKeepsQuotas(q: Quotas, t: Counts, buffers: seq<StreamBuffer>, m: nat)
    requires PendingWithin(q, t, m) && Enough(q, t, buffers) && AtMostOnEach(q, buffers, m)
    ensures PendingWithin(q, Admitted(q, t, buffers), m)
  {
    forall s | s in q.max
      ensures t.pending[s] + CountOn(q.groups, buffers, s) <= q.max[s] - 1 + m || CountOn(q.groups, buffers, s) == 0
    {
      CountPositive(q.groups, buffers, s);
    }
  }

  // A reservation that is granted can be taken back, which restores the counts.
  lemma UnreserveUndoesReserve(q: Quotas, t: Counts, stream: int, n: nat)
    requires Consistent(q, t) && MayAcquire(q, t, stream, n)
    ensures Unreserved(q, Reserved(q, t, stream, n), stream, n) == t
  {
    var s := Fold(q.groups, stream);
    assert t.acquired[s := t.acquired[s] + n][s := t.acquired[s]] == t.acquired;
  }
}
