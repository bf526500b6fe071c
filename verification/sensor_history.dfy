// The sensor listener's bounded history of events and the queries on it: GoogSensorWrapper keeps it,
// GoogSensorMotion and GoogSensorSync query it.
module SensorHistory {
  import opened HalTypes
  import opened SensorEvents

  const MAX_TIME_DRIFT_NS: int := 10_000_000
  const FAILURE_THRESHOLD: nat := 100

  // What a sensor reports.
  datatype Event = Event(timestamp: int, reading: Reading, handle: int, isAdditionalInfo: bool)

  // What is kept of it.
  type ExtendedEvent = Timed<Arrived>

  // The last `n` elements, or all.
  function Latest<T>(s: seq<T>, n: nat): (r: seq<T>)
    ensures |r| == if |s| < n then |s| else n
  {
    if |s| <= n then s else s[|s| - n..]
  }

  lemma LatestOfLatest<T>(s: seq<T>, limit: nat, n: nat)
    ensures Latest(Latest(s, limit), n) == Latest(s, if n < limit then n else limit)
  {
  }

  // Pushing to a full buffer drops the oldest.
  lemma LatestNext<T>(s: seq<T>, x: T, limit: nat)
    requires limit >= 1
    ensures Latest(s + [x], limit) ==
            (if |Latest(s, limit)| >= limit then Latest(s, limit)[1..] else Latest(s, limit)) + [x]
  {
  }

  // ---------- Queries ----------

  function Distance(a: int, b: int): nat { if a < b then b - a else a - b }

  // The first of the closest events among those less than the drift limit away.
  function Nearest(s: seq<ExtendedEvent>, timestamp: int): Option<ExtendedEvent> {
    if s == [] then None
    else
      var before, last := Nearest(s[..|s| - 1], timestamp), s[|s| - 1];
      if Distance(last.timestamp, timestamp) < Delta(before, timestamp) then Some(last) else before
  }

  function Delta(nearest: Option<ExtendedEvent>, timestamp: int): int {
    if nearest.Some? then Distance(nearest.value.timestamp, timestamp) else MAX_TIME_DRIFT_NS
  }

  // An event is found exactly if one is less than the drift limit away, and then no other is closer.
  lemma {:induction false} NearestIsClosest(s: seq<ExtendedEvent>, timestamp: int)
    ensures Delta(Nearest(s, timestamp), timestamp) <= MAX_TIME_DRIFT_NS
    ensures forall e :: e in s ==> Delta(Nearest(s, timestamp), timestamp) <= Distance(e.timestamp, timestamp)
                                   || Nearest(s, timestamp).None?
    ensures Nearest(s, timestamp).Some? <==>
              exists e :: e in s && Distance(e.timestamp, timestamp) < MAX_TIME_DRIFT_NS
    ensures Nearest(s, timestamp).Some? ==>
              Nearest(s, timestamp).value in s && Delta(Nearest(s, timestamp), timestamp) < MAX_TIME_DRIFT_NS
  {
    if s != [] {
      var front, last := s[..|s| - 1], s[|s| - 1];
      NearestIsClosest(front, timestamp);
      assert forall e :: e in s <==> e in front || e == last;
    }
  }

  // The event is `d` away, none is closer, and none before it is as close.
  ghost predicate IsFirstClosest(s: seq<ExtendedEvent>, timestamp: int, i: nat, d: nat) {
    && i < |s| && (s[i].timestamp == timestamp - d || s[i].timestamp == timestamp + d)
    && (forall j :: 0 <= j < |s| ==> !(timestamp - d < s[j].timestamp < timestamp + d))
    && (forall j :: 0 <= j < i ==> s[j].timestamp != timestamp - d && s[j].timestamp != timestamp + d)
  }

  // An event is found exactly if one is less than 10 ms before or after.
  lemma FoundIff(s: seq<ExtendedEvent>, timestamp: int)
    ensures Nearest(s, timestamp).Some? <==>
              exists i :: 0 <= i < |s| && timestamp - 10_000_000 < s[i].timestamp < timestamp + 10_000_000
  {
    NearestIsClosest(s, timestamp);
  }

  // The event found is the first of the closest.
  lemma {:induction false} NearestIsFirstClosest(s: seq<ExtendedEvent>, timestamp: int) returns (i: nat, d: nat)
    requires Nearest(s, timestamp).Some?
    ensures IsFirstClosest(s, timestamp, i, d) && Nearest(s, timestamp).value == s[i]
  {
    var front, last := s[..|s| - 1], s[|s| - 1];
    d := Distance(Nearest(s, timestamp).value.timestamp, timestamp);
    if Nearest(s, timestamp) == Nearest(front, timestamp) {
      i, d := NearestIsFirstClosest(front, timestamp);
    } else {
      i := |front|;
      NearestIsClosest(front, timestamp);
      assert forall j :: 0 <= j < |front| ==> front[j] in front;
    }
  }

  // Dropping old events changes the answer only if they were the closest: the answer of a bounded
  // history is that of the full one whenever no dropped event is as close.
  lemma {:induction false} NearestOfLatest(dropped: seq<ExtendedEvent>, kept: seq<ExtendedEvent>, timestamp: int)
    requires forall e :: e in dropped ==>
               Distance(e.timestamp, timestamp) >= MAX_TIME_DRIFT_NS
               || exists k :: k in kept && Distance(k.timestamp, timestamp) < Distance(e.timestamp, timestamp)
    ensures Nearest(dropped + kept, timestamp) == Nearest(kept, timestamp)
  {
    NearestConcat(dropped, kept, timestamp);
    NearestIsClosest(dropped, timestamp);
    NearestIsClosest(kept, timestamp);
  }

  lemma {:induction false} NearestConcat(a: seq<ExtendedEvent>, b: seq<ExtendedEvent>, timestamp: int)
    ensures Nearest(a + b, timestamp) ==
            if Nearest(b, timestamp).Some?
               && Delta(Nearest(b, timestamp), timestamp) < Delta(Nearest(a, timestamp), timestamp)
            then Nearest(b, timestamp) else Nearest(a, timestamp)
  {
    NearestIsClosest(a, timestamp);
    if b == [] {
      assert a + b == a;
    } else {
      assert (a + b)[..|a + b| - 1] == a + b[..|b| - 1];
      NearestConcat(a, b[..|b| - 1], timestamp);
      NearestIsClosest(b[..|b| - 1], timestamp);
    }
  }

  // ---------- The code ----------

  class SensorListener {
    var eventBuffer: seq<ExtendedEvent>
    const eventBufferSizeLimit: nat
    const handle: int
    var enabled: bool
    var syncCount: nat
    var syncFailureCount: nat
    // All events accepted so far.
    ghost var history: seq<ExtendedEvent>

    // The buffer is the latest part of the history, and failures are fewer than syncs.
    ghost predicate Valid()
      reads this
    {
      && eventBufferSizeLimit >= 1
      && eventBuffer == Latest(history, eventBufferSizeLimit)
      && syncFailureCount <= syncCount && syncFailureCount < FAILURE_THRESHOLD
    }

    constructor (eventQueueSize: nat, handle: int)
      requires eventQueueSize >= 1
      ensures Valid() && history == [] && eventBufferSizeLimit == eventQueueSize && this.handle == handle && !enabled
    {
      eventBuffer := [];
      eventBufferSizeLimit := eventQueueSize;
      this.handle := handle;
      enabled := false;
      syncCount := 0;
      syncFailureCount := 0;
      history := [];
    }

    // Keep an event of this sensor, dropping the oldest if the buffer is full.
    method EventCallback(e: Event, now: int)
      requires Valid()
      modifies this`eventBuffer, this`history
      ensures Valid()
      ensures history == if e.handle == handle && !e.isAdditionalInfo
                         then old(history) + [Timed(e.timestamp, Arrived(e.reading, now))]
                         else old(history)
    {
      if e.handle == handle && !e.isAdditionalInfo {
        LatestNext(history, Timed(e.timestamp, Arrived(e.reading, now)), eventBufferSizeLimit);
        if |eventBuffer| >= eventBufferSizeLimit {
          eventBuffer := eventBuffer[1..];
        }
        eventBuffer := eventBuffer + [Timed(e.timestamp, Arrived(e.reading, now))];
        history := history + [Timed(e.timestamp, Arrived(e.reading, now))];
      }
    }

    // The last n events: those of the whole history as far as the buffer reaches.
    method GetLatestNSensorEvents(n: int)
      returns (timestamps: seq<int>, xs: seq<real>, ys: seq<real>, zs: seq<real>, arrivals: seq<int>)
      requires Valid()
      ensures n < 0 ==> timestamps == []
      ensures n >= 0 ==>
                Describes(Latest(history, if n < eventBufferSizeLimit then n else eventBufferSizeLimit),
                          timestamps, xs, ys, zs, arrivals)
      ensures |timestamps| == |xs| == |ys| == |zs| == |arrivals|
    {
      timestamps, xs, ys, zs, arrivals := [], [], [], [], [];
      if n < 0 {
        return;
      }
      LatestOfLatest(history, eventBufferSizeLimit, n);
      var start := if |eventBuffer| - n > 0 then |eventBuffer| - n else 0;
      for i := start to |eventBuffer|
        invariant Describes(eventBuffer[start..i], timestamps, xs, ys, zs, arrivals)
      {
        var e := eventBuffer[i];
        assert eventBuffer[start..i + 1] == eventBuffer[start..i] + [e];
        timestamps := timestamps + [e.timestamp];
        xs := xs + [e.value.reading.x];
        ys := ys + [e.value.reading.y];
        zs := zs + [e.value.reading.z];
        arrivals := arrivals + [e.value.arrival];
      }
      assert eventBuffer[start..|eventBuffer|] == Latest(eventBuffer, n);
    }

    // The buffered events in the interval (start, end].
    method QuerySensorEventsBetweenTimestamps(start: int, end: int)
      returns (timestamps: seq<int>, xs: seq<real>, ys: seq<real>, zs: seq<real>, arrivals: seq<int>)
      requires Valid()
      ensures Describes(Between(Latest(history, eventBufferSizeLimit), start, end), timestamps, xs, ys, zs, arrivals)
    {
      timestamps, xs, ys, zs, arrivals := [], [], [], [], [];
      for i := 0 to |eventBuffer|
        invariant Describes(Between(eventBuffer[..i], start, end), timestamps, xs, ys, zs, arrivals)
      {
        BetweenNext(eventBuffer, i, start, end);
        var e := eventBuffer[i];
        if e.timestamp <= start || e.timestamp > end {
          continue;
        }
        timestamps := timestamps + [e.timestamp];
        xs := xs + [e.value.reading.x];
        ys := ys + [e.value.reading.y];
        zs := zs + [e.value.reading.z];
        arrivals := arrivals + [e.value.arrival];
      }
      assert eventBuffer[..|eventBuffer|] == eventBuffer;
    }

    method FindNearestEvent(timestamp: int) returns (nearest: Option<ExtendedEvent>)
      requires Valid()
      ensures nearest == if enabled then Nearest(eventBuffer, timestamp) else None
    {
      nearest := None;
      if !enabled {
        return;
      }
      var minDelta := MAX_TIME_DRIFT_NS;
      for i := 0 to |eventBuffer|
        invariant nearest == Nearest(eventBuffer[..i], timestamp) && minDelta == Delta(nearest, timestamp)
      {
        assert eventBuffer[..i + 1][..i] == eventBuffer[..i];
        var delta := Distance(eventBuffer[i].timestamp, timestamp);
        if delta < minDelta {
          minDelta := delta;
          nearest := Some(eventBuffer[i]);
        }
      }
      assert eventBuffer[..|eventBuffer|] == eventBuffer;
    }

    // The timestamp of the nearest event, the one FindNearestEvent finds, or the timestamp itself.
    // Failures are counted, and at the threshold both counts start again.
    method SyncTimestamp(timestamp: int) returns (synced: int)
      requires Valid()
      modifies this`syncCount, this`syncFailureCount
      ensures Valid()
      ensures
        var nearest := if enabled then Nearest(eventBuffer, timestamp) else None;
        synced == if nearest.Some? then nearest.value.timestamp else timestamp
      ensures
        var fails := enabled && Nearest(eventBuffer, timestamp).None?;
        if fails && old(syncFailureCount) + 1 == FAILURE_THRESHOLD then syncCount == 0 && syncFailureCount == 0
        else
          && syncCount == old(syncCount) + (if enabled then 1 else 0)
          && syncFailureCount == old(syncFailureCount) + if fails then 1 else 0
    {
      if !enabled {
        return timestamp;
      }
      var minDelta := MAX_TIME_DRIFT_NS;
      synced := timestamp;
      for i := 0 to |eventBuffer|
        invariant
          var nearest := Nearest(eventBuffer[..i], timestamp);
          && minDelta == Delta(nearest, timestamp)
          && synced == if nearest.Some? then nearest.value.timestamp else timestamp
        invariant syncCount == old(syncCount) && syncFailureCount == old(syncFailureCount)
      {
        assert eventBuffer[..i + 1][..i] == eventBuffer[..i];
        if Distance(eventBuffer[i].timestamp, timestamp) < minDelta {
          minDelta := Distance(eventBuffer[i].timestamp, timestamp);
          synced := eventBuffer[i].timestamp;
        }
      }
      assert eventBuffer[..|eventBuffer|] == eventBuffer;
      NearestIsClosest(eventBuffer, timestamp);
      syncCount := syncCount + 1;
      if minDelta == MAX_TIME_DRIFT_NS {
        syncFailureCount := syncFailureCount + 1;
        if syncFailureCount >= FAILURE_THRESHOLD {
          syncCount := 0;
          syncFailureCount := 0;
        }
      }
    }
  }
}
