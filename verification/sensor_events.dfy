// Time-stamped sensor readings, and which of them a query for an interval is about.
module SensorEvents {

  datatype Timed<T> = Timed(timestamp: int, value: T)

  datatype Reading = Reading(x: real, y: real, z: real)

  // A reading and when it was taken over from the sensor.
  datatype Arrived = Arrived(reading: Reading, arrival: int)

  // The events in the interval (start, end].
  function Between<T>(events: seq<Timed<T>>, start: int, end: int): seq<Timed<T>> {
    if events == [] then []
    else if start < events[0].timestamp <= end then [events[0]] + Between(events[1..], start, end)
    else Between(events[1..], start, end)
  }

  ghost predicate Chronological<T>(events: seq<Timed<T>>) {
    forall i, j :: 0 <= i < j < |events| ==> events[i].timestamp <= events[j].timestamp
  }

  lemma {:induction false} NoneBetween<T>(events: seq<Timed<T>>, start: int, end: int)
    requires forall e :: e in events ==> !(start < e.timestamp <= end)
    ensures Between(events, start, end) == []
  {
    if events != [] {
      assert events[0] in events && forall e :: e in events[1..] ==> e in events;
      NoneBetween(events[1..], start, end);
    }
  }

  lemma {:induction false} BetweenConcat<T>(a: seq<Timed<T>>, b: seq<Timed<T>>, start: int, end: int)
    ensures Between(a + b, start, end) == Between(a, start, end) + Between(b, start, end)
  {
    if a == [] {
      assert a + b == b;
    } else {
      assert (a + b)[1..] == a[1..] + b;
      BetweenConcat(a[1..], b, start, end);
    }
  }

  lemma BetweenNext<T>(events: seq<Timed<T>>, i: nat, start: int, end: int)
    requires i < |events|
    ensures Between(events[..i + 1], start, end) ==
            Between(events[..i], start, end) + if start < events[i].timestamp <= end then [events[i]] else []
  {
    assert events[..i + 1] == events[..i] + [events[i]];
    BetweenConcat(events[..i], [events[i]], start, end);
    assert [events[i]][1..] == [];
  }

  lemma {:induction false} BetweenCount<T>(events: seq<Timed<T>>, start: int, end: int, e: Timed<T>)
    ensures multiset(Between(events, start, end))[e] == if start < e.timestamp <= end then multiset(events)[e] else 0
  {
    if events != [] {
      assert events == [events[0]] + events[1..];
      BetweenCount(events[1..], start, end, e);
    }
  }

  // A chronological history is queried in chronological order.
  lemma {:induction false} BetweenChronological<T>(events: seq<Timed<T>>, start: int, end: int)
    requires Chronological(events)
    ensures Chronological(Between(events, start, end))
    ensures forall e :: e in Between(events, start, end) ==> e in events
  {
    if events != [] {
      var rest := Between(events[1..], start, end);
      BetweenChronological(events[1..], start, end);
      assert forall e :: e in events[1..] ==> events[0].timestamp <= e.timestamp;
    }
  }

  // Five parallel vectors describe the events.
  ghost predicate Describes(events: seq<Timed<Arrived>>, timestamps: seq<int>, xs: seq<real>, ys: seq<real>,
                            zs: seq<real>, arrivals: seq<int>)
  {
    && |timestamps| == |xs| == |ys| == |zs| == |arrivals| == |events|
    && forall i :: 0 <= i < |events| ==>
         && timestamps[i] == events[i].timestamp && arrivals[i] == events[i].value.arrival
         && xs[i] == events[i].value.reading.x && ys[i] == events[i].value.reading.y
         && zs[i] == events[i].value.reading.z
  }

  // All taken over at one time.
  function ArrivedAt(events: seq<Timed<Reading>>, now: int): (r: seq<Timed<Arrived>>)
    ensures |r| == |events|
    ensures forall i :: 0 <= i < |r| ==> r[i] == Timed(events[i].timestamp, Arrived(events[i].value, now))
  {
    seq(|events|, i requires 0 <= i < |events| => Timed(events[i].timestamp, Arrived(events[i].value, now)))
  }
}
