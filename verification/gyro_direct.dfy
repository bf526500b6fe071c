// GoogGyroDirect: querying the ring buffer that the gyro sensor writes to directly. Unused slots
// have timestamp 0; the oldest event is found by its timestamp and the ring is scanned from there.
module GyroDirect {
  import opened SensorEvents

  const LLONG_MAX: int := 0x7FFF_FFFF_FFFF_FFFF

  // A slot of the ring.
  type Event = Timed<Reading>

  // The slots from `head` on, going around.
  function From(ring: seq<Event>, head: nat): seq<Event>
    requires head <= |ring|
  {
    ring[head..] + ring[..head]
  }

  predicate IsUsed(e: Event) { e.timestamp != 0 && e.timestamp < LLONG_MAX }

  // The first slot with the earliest timestamp.
  ghost predicate IsHead(ring: seq<Event>, head: nat) {
    && head < |ring| && IsUsed(ring[head])
    && (forall i :: 0 <= i < |ring| && IsUsed(ring[i]) ==> ring[head].timestamp <= ring[i].timestamp)
    && (forall i :: 0 <= i < head && IsUsed(ring[i]) ==> ring[head].timestamp < ring[i].timestamp)
  }

  // What the scan collects: older events are skipped, the first newer one ends it.
  function Scan(events: seq<Event>, start: int, end: int): seq<Event> {
    if events == [] then []
    else if events[0].timestamp <= start then Scan(events[1..], start, end)
    else if events[0].timestamp > end then []
    else [events[0]] + Scan(events[1..], start, end)
  }

  // Exactly the events in the interval, each as often as the ring has it, in chronological order.
  ghost predicate IsCorrect(out: seq<Event>, ring: seq<Event>, start: int, end: int) {
    Chronological(out) && multiset(out) == multiset(Between(ring, start, end))
  }

  // The ring from slot `oldest` on: events in the order they were written, then unused slots.
  ghost predicate IsRing(ring: seq<Event>, oldest: nat, events: seq<Event>, unused: seq<Event>) {
    && oldest < |ring| && From(ring, oldest) == events + unused
    && events != [] && Chronological(events)
    && (forall e :: e in events ==> 0 < e.timestamp < LLONG_MAX)
    && (forall e :: e in unused ==> e.timestamp == 0)
  }

  // The earliest timestamp is found at both ends of the buffer, and not everywhere.
  ghost predicate Straddles(ring: seq<Event>, earliest: int) {
    && |ring| > 0 && ring[0].timestamp == earliest && ring[|ring| - 1].timestamp == earliest
    && exists i :: 0 <= i < |ring| && ring[i].timestamp > earliest
  }

  // ---------- Scanning ----------

  // Scanning events in order, with only older ones after them, misses nothing.
  lemma {:induction false} ScanInOrder(events: seq<Event>, older: seq<Event>, start: int, end: int)
    requires Chronological(events) && forall e :: e in older ==> e.timestamp <= start
    ensures Scan(events + older, start, end) == Between(events, start, end)
  {
    if events == [] {
      assert events + older == older;
      ScanOlder(older, start, end);
    } else {
      assert (events + older)[1..] == events[1..] + older;
      ScanInOrder(events[1..], older, start, end);
      if events[0].timestamp > end && events[0].timestamp > start {
        assert forall e :: e in events[1..] ==> events[0].timestamp <= e.timestamp;
        NoneBetween(events, start, end);
      }
    }
  }

  lemma {:induction false} ScanOlder(older: seq<Event>, start: int, end: int)
    requires forall e :: e in older ==> e.timestamp <= start
    ensures Scan(older, start, end) == []
  {
    if older != [] {
      assert older[0] in older && forall e :: e in older[1..] ==> e in older;
      ScanOlder(older[1..], start, end);
    }
  }

  // Without a newer event the scan collects all that is in the interval.
  lemma {:induction false} ScanToTheEnd(events: seq<Event>, start: int, end: int)
    requires forall e :: e in events ==> e.timestamp <= end
    ensures Scan(events, start, end) == Between(events, start, end)
  {
    if events != [] {
      assert events[0] in events && forall e :: e in events[1..] ==> e in events;
      ScanToTheEnd(events[1..], start, end);
    }
  }

  // What comes after a newer event is not reached.
  lemma {:induction false} ScanStops(a: seq<Event>, b: seq<Event>, start: int, end: int)
    requires start <= end && exists e :: e in a && e.timestamp > end
    ensures |Scan(a + b, start, end)| <= |Between(a, start, end)|
  {
    assert (a + b)[1..] == a[1..] + b;
    if a[0].timestamp <= end {
      var e :| e in a && e.timestamp > end;
      assert e in a[1..];
      ScanStops(a[1..], b, start, end);
    }
  }

  // ---------- Rotations ----------

  lemma FromIndex(ring: seq<Event>, head: nat, i: nat)
    requires head <= |ring| && i < |ring|
    ensures From(ring, head)[if i < head then i + (|ring| - head) else i - head] == ring[i]
  {
  }

  lemma RingMembers(ring: seq<Event>, oldest: nat, events: seq<Event>, unused: seq<Event>, i: nat)
    requires IsRing(ring, oldest, events, unused) && i < |ring|
    ensures IsUsed(ring[i]) <==> ring[i].timestamp != 0
    ensures IsUsed(ring[i]) ==> events[0].timestamp <= ring[i].timestamp
    ensures IsUsed(ring[i]) ==> (if i < oldest then i + (|ring| - oldest) else i - oldest) < |events|
  {
    FromIndex(ring, oldest, i);
    var j := if i < oldest then i + (|ring| - oldest) else i - oldest;
    assert ring[i] == (events + unused)[j];
    if j < |events| {
      assert events[j] in events;
    } else {
      assert unused[j - |events|] in unused;
    }
  }

  // Slots before the oldest event hold the earliest timestamp only if the last slot does as well.
  lemma HeadBeforeOldest(ring: seq<Event>, oldest: nat, events: seq<Event>, unused: seq<Event>, head: nat)
    requires IsRing(ring, oldest, events, unused) && IsHead(ring, head)
    ensures ring[head].timestamp == events[0].timestamp && head <= oldest
    ensures head < oldest ==>
              && head == 0 && |ring| - oldest < |events|
              && ring[|ring| - 1].timestamp == events[0].timestamp
              && forall i :: 0 <= i <= |ring| - oldest ==> events[i].timestamp == events[0].timestamp
  {
    FromIndex(ring, oldest, oldest);
    assert ring[oldest] == events[0] && events[0] in events;
    RingMembers(ring, oldest, events, unused, head);
    if head < oldest {
      FromIndex(ring, oldest, head);
      var j := head + (|ring| - oldest);
      assert events[j] == ring[head];
      FromIndex(ring, oldest, 0);
      assert events[|ring| - oldest] == ring[0];
      assert events[|ring| - oldest] in events;
      FromIndex(ring, oldest, |ring| - 1);
      assert events[|ring| - 1 - oldest] == ring[|ring| - 1];
    }
  }

  lemma SameBetween(ring: seq<Event>, head: nat, start: int, end: int)
    requires head <= |ring|
    ensures multiset(Between(From(ring, head), start, end)) == multiset(Between(ring, start, end))
  {
    assert ring == ring[..head] + ring[head..];
    BetweenConcat(ring[..head], ring[head..], start, end);
    BetweenConcat(ring[head..], ring[..head], start, end);
  }

  // Starting at the oldest event the query is right.
  lemma FromOldest(ring: seq<Event>, oldest: nat, events: seq<Event>, unused: seq<Event>, start: int, end: int)
    requires IsRing(ring, oldest, events, unused) && 0 <= start
    ensures Scan(From(ring, oldest), start, end) == Between(events, start, end)
    ensures IsCorrect(Scan(From(ring, oldest), start, end), ring, start, end)
  {
    ScanInOrder(events, unused, start, end);
    BetweenChronological(events, start, end);
    SameBetween(ring, oldest, start, end);
    BetweenConcat(events, unused, start, end);
    NoneBetween(unused, start, end);
  }

  // Starting at slot 0 in the middle of the earliest events: what precedes it is scanned last.
  lemma SplitAtZero(ring: seq<Event>, oldest: nat, events: seq<Event>, unused: seq<Event>)
    requires IsRing(ring, oldest, events, unused) && 0 < oldest && |ring| - oldest < |events|
    ensures ring == events[|ring| - oldest..] + unused + events[..|ring| - oldest]
  {
    assert events + unused == ring[oldest..] + ring[..oldest];
    assert (events + unused)[..|ring| - oldest] == ring[oldest..];
    assert (events + unused)[|ring| - oldest..] == ring[..oldest];
  }

  // Then the query is right if the earliest events are not newer than the start,
  lemma FromZeroOld(ring: seq<Event>, rest: seq<Event>, unused: seq<Event>, first: seq<Event>, start: int, end: int)
    requires ring == rest + unused + first && Chronological(rest)
    requires forall e :: e in unused + first ==> e.timestamp <= start
    ensures IsCorrect(Scan(ring, start, end), ring, start, end)
  {
    assert ring == rest + (unused + first);
    ScanInOrder(rest, unused + first, start, end);
    BetweenConcat(rest, unused + first, start, end);
    NoneBetween(unused + first, start, end);
    BetweenChronological(rest, start, end);
  }

  // or if no event is in the interval because all are too new,
  lemma FromZeroNew(ring: seq<Event>, start: int, end: int)
    requires ring != [] && 0 <= start && ring[0].timestamp > end && ring[0].timestamp > start
    requires forall e :: e in ring ==> e.timestamp > end || e.timestamp == 0
    ensures IsCorrect(Scan(ring, start, end), ring, start, end)
  {
    NoneBetween(ring, start, end);
  }

  // or if there are no other events.
  lemma FromZeroOnly(ring: seq<Event>, t: int, start: int, end: int)
    requires start < t <= end && 0 <= start && forall e :: e in ring ==> e.timestamp == t || e.timestamp == 0
    ensures IsCorrect(Scan(ring, start, end), ring, start, end)
  {
    ScanToTheEnd(ring, start, end);
    OneTimestamp(Between(ring, start, end), ring, t, start, end);
  }

  lemma FromZero(ring: seq<Event>, oldest: nat, events: seq<Event>, unused: seq<Event>, start: int, end: int)
    requires IsRing(ring, oldest, events, unused) && 0 < oldest && |ring| - oldest < |events| && 0 <= start
    requires forall i :: 0 <= i <= |ring| - oldest ==> events[i].timestamp == events[0].timestamp
    requires !(start < events[0].timestamp <= end) || events[|events| - 1].timestamp == events[0].timestamp
    ensures IsCorrect(Scan(ring, start, end), ring, start, end)
  {
    var k := |ring| - oldest;
    SplitAtZero(ring, oldest, events, unused);
    if events[0].timestamp <= start {
      FromZeroOld(ring, events[k..], unused, events[..k], start, end);
    } else if events[0].timestamp > end {
      assert ring[0] == events[k];
      FromZeroNew(ring, start, end);
    } else {
      AllEarliest(events);
      FromZeroOnly(ring, events[0].timestamp, start, end);
    }
  }

  lemma AllEarliest(events: seq<Event>)
    requires events != [] && Chronological(events) && events[|events| - 1].timestamp == events[0].timestamp
    ensures forall e :: e in events ==> e.timestamp == events[0].timestamp
  {
  }

  lemma OneTimestamp(out: seq<Event>, ring: seq<Event>, t: int, start: int, end: int)
    requires out == Between(ring, start, end) && 0 <= start
    requires forall e :: e in ring ==> e.timestamp == t || e.timestamp == 0
    ensures Chronological(out)
  {
    forall e | e in out ensures e.timestamp == t {
      BetweenCount(ring, start, end, e);
      assert e in multiset(out);
      assert e in multiset(ring);
    }
  }

  // Otherwise it is wrong: with an event after the interval it loses the first earliest events,
  lemma FromZeroLoses(rest: seq<Event>, first: seq<Event>, start: int, end: int)
    requires first != [] && start < first[0].timestamp <= end && exists e :: e in rest && e.timestamp > end
    ensures !IsCorrect(Scan(rest + first, start, end), rest + first, start, end)
  {
    ScanStops(rest, first, start, end);
    BetweenConcat(rest, first, start, end);
    var out, all := Scan(rest + first, start, end), Between(rest + first, start, end);
    assert |multiset(out)| == |out| < |all| == |multiset(all)|;
  }

  // and otherwise it puts them last.
  lemma FromZeroMisplaces(rest: seq<Event>, first: seq<Event>, last: Event, start: int, end: int)
    requires first != [] && start < first[0].timestamp < last.timestamp && last in rest
    requires (forall e :: e in rest ==> e.timestamp <= end) && (forall e :: e in first ==> e.timestamp <= end)
    ensures !IsCorrect(Scan(rest + first, start, end), rest + first, start, end)
  {
    assert first[0] in first && forall e :: e in rest + first <==> e in rest || e in first;
    ScanToTheEnd(rest + first, start, end);
    BetweenConcat(rest, first, start, end);
    BetweenCount(rest, start, end, last);
    assert last in multiset(Between(rest, start, end));
    var i :| 0 <= i < |Between(rest, start, end)| && Between(rest, start, end)[i] == last;
    var out, j := Between(rest, start, end) + Between(first, start, end), |Between(rest, start, end)|;
    assert out[i] == last && out[j] == first[0];
  }

  lemma EarliestLast(rest: seq<Event>, first: seq<Event>, last: Event, start: int, end: int)
    requires first != [] && start < first[0].timestamp <= end && first[0].timestamp < last.timestamp && last in rest
    requires forall e :: e in first ==> e.timestamp == first[0].timestamp
    ensures !IsCorrect(Scan(rest + first, start, end), rest + first, start, end)
  {
    if exists e :: e in rest && e.timestamp > end {
      FromZeroLoses(rest, first, start, end);
    } else {
      FromZeroMisplaces(rest, first, last, start, end);
    }
  }

  lemma FromZeroFails(ring: seq<Event>, oldest: nat, events: seq<Event>, unused: seq<Event>, start: int, end: int)
    requires IsRing(ring, oldest, events, unused) && 0 < oldest && |ring| - oldest < |events| && 0 <= start
    requires forall i :: 0 <= i <= |ring| - oldest ==> events[i].timestamp == events[0].timestamp
    requires start < events[0].timestamp <= end && events[|events| - 1].timestamp > events[0].timestamp
    ensures !IsCorrect(Scan(ring, start, end), ring, start, end)
  {
    var k := |ring| - oldest;
    SplitAtZero(ring, oldest, events, unused);
    var last, rest := events[|events| - 1], events[k..] + unused;
    assert rest[|events| - 1 - k] == last;
    FirstAreEarliest(events, k);
    EarliestLast(rest, events[..k], last, start, end);
  }

  lemma FirstAreEarliest(events: seq<Event>, k: nat)
    requires 0 < k < |events| && forall i :: 0 <= i <= k ==> events[i].timestamp == events[0].timestamp
    ensures forall e :: e in events[..k] ==> e.timestamp == events[..k][0].timestamp
  {
  }

  // For any rotation of a chronological ring and a non-negative start, the query returns exactly the
  // events of the interval, each once, in chronological order, if and only if the interval does not
  // include the earliest events while these straddle the ends of the buffer.
  lemma QueryCorrectIff(ring: seq<Event>, oldest: nat, events: seq<Event>, unused: seq<Event>, head: nat,
                        start: int, end: int)
    requires IsRing(ring, oldest, events, unused) && IsHead(ring, head) && 0 <= start
    ensures
      var earliest := events[0].timestamp;
      IsCorrect(Scan(From(ring, head), start, end), ring, start, end) <==>
        !(Straddles(ring, earliest) && start < earliest <= end)
  {
    HeadBeforeOldest(ring, oldest, events, unused, head);
    LaterEvent(ring, oldest, events, unused);
    if head == oldest {
      FromOldest(ring, oldest, events, unused, start, end);
      NoStraddleFromOldest(ring, oldest, events, unused);
    } else {
      assert From(ring, head) == ring;
      if !(start < events[0].timestamp <= end) || events[|events| - 1].timestamp == events[0].timestamp {
        FromZero(ring, oldest, events, unused, start, end);
      } else {
        FromZeroFails(ring, oldest, events, unused, start, end);
      }
    }
  }

  // The shortest failing query: slots with timestamps 1, 2, 1, the oldest in slot 2, and the interval
  // (0, 1]. The scan starts at slot 0, stops at slot 1 and misses the event in slot 2.
  lemma QueryMisses(a: Reading, b: Reading, c: Reading)
    ensures
      var ring := [Timed(1, a), Timed(2, b), Timed(1, c)];
      && IsRing(ring, 2, [Timed(1, c), Timed(1, a), Timed(2, b)], []) && IsHead(ring, 0)
      && Scan(From(ring, 0), 0, 1) == [Timed(1, a)]
      && !IsCorrect([Timed(1, a)], ring, 0, 1)
  {
    var ring, events := [Timed(1, a), Timed(2, b), Timed(1, c)], [Timed(1, c), Timed(1, a), Timed(2, b)];
    assert From(ring, 2) == events + [];
    assert From(ring, 0) == ring;
    assert ring[1..][0] == Timed(2, b);
    QueryCorrectIff(ring, 2, events, [], 0, 0, 1);
    assert Straddles(ring, 1) by { assert ring[1].timestamp > 1; }
  }

  lemma LaterEvent(ring: seq<Event>, oldest: nat, events: seq<Event>, unused: seq<Event>)
    requires IsRing(ring, oldest, events, unused)
    ensures (exists i :: 0 <= i < |ring| && ring[i].timestamp > events[0].timestamp) <==>
            events[|events| - 1].timestamp > events[0].timestamp
  {
    assert events[0] in events;
    if events[|events| - 1].timestamp > events[0].timestamp {
      assert From(ring, oldest)[|events| - 1] == events[|events| - 1];
      var i := if |events| - 1 < |ring| - oldest then oldest + |events| - 1 else |events| - 1 - (|ring| - oldest);
      assert ring[i] == events[|events| - 1];
    } else {
      AllEarliest(events);
      forall i | 0 <= i < |ring| ensures ring[i].timestamp <= events[0].timestamp {
        FromIndex(ring, oldest, i);
        var j := if i < oldest then i + (|ring| - oldest) else i - oldest;
        if j < |events| { assert events[j] in events; } else { assert unused[j - |events|] in unused; }
      }
    }
  }

  // If the scan starts at the oldest event, no earliest event is in slot 0, or there is nothing else.
  lemma NoStraddleFromOldest(ring: seq<Event>, oldest: nat, events: seq<Event>, unused: seq<Event>)
    requires IsRing(ring, oldest, events, unused) && IsHead(ring, oldest)
    ensures !Straddles(ring, events[0].timestamp)
  {
    FromIndex(ring, oldest, oldest);
    assert events[0] in events;
    LaterEvent(ring, oldest, events, unused);
    if oldest == 0 {
      assert ring == events + unused;
      if unused != [] { assert unused[|unused| - 1] in unused; }
    }
  }

  // ---------- The code ----------

  class GoogGyroDirect {
    var channel: array?<Event>

    constructor (channel: array?<Event>)
      ensures this.channel == channel
    {
      this.channel := channel;
    }

    // The first slot with the earliest timestamp, or -1.
    method FindHead(events: seq<Event>) returns (head: int)
      ensures -1 <= head < |events|
      ensures head >= 0 ==> IsHead(events, head)
      ensures head == -1 ==> forall i :: 0 <= i < |events| ==> !IsUsed(events[i])
    {
      head := -1;
      var earliest := LLONG_MAX;
      for i := 0 to |events|
        invariant -1 <= head < i
        invariant earliest == if head >= 0 then events[head].timestamp else LLONG_MAX
        invariant head >= 0 ==> IsHead(events[..i], head)
        invariant head == -1 ==> forall k :: 0 <= k < i ==> !IsUsed(events[k])
      {
        assert events[..i + 1] == events[..i] + [events[i]];
        if events[i].timestamp != 0 && events[i].timestamp < earliest {
          earliest := events[i].timestamp;
          head := i;
        }
      }
      assert events[..|events|] == events;
    }

    method QueryGyroEventsBetweenTimestamps(start: int, end: int, now: int)
      returns (timestamps: seq<int>, xs: seq<real>, ys: seq<real>, zs: seq<real>, arrivals: seq<int>)
      ensures channel == null ==> timestamps == []
      ensures channel != null && (forall i :: 0 <= i < channel.Length ==> !IsUsed(channel[i])) ==> timestamps == []
      ensures channel != null ==>
                forall head :: IsHead(channel[..], head) ==>
                  Describes(ArrivedAt(Scan(From(channel[..], head), start, end), now), timestamps, xs, ys, zs, arrivals)
      ensures |timestamps| == |xs| == |ys| == |zs| == |arrivals|
    {
      timestamps, xs, ys, zs, arrivals := [], [], [], [], [];
      if channel == null {
        return;
      }
      var events := channel[..];
      var head := FindHead(events);
      if head == -1 {
        return;
      }
      assert forall h :: IsHead(events, h) ==> h == head;
      timestamps, xs, ys, zs, arrivals := ScanFrom(events, head, start, end, now);
    }

    // Go around the ring once.
    method ScanFrom(events: seq<Event>, head: nat, start: int, end: int, now: int)
      returns (timestamps: seq<int>, xs: seq<real>, ys: seq<real>, zs: seq<real>, arrivals: seq<int>)
      requires head < |events|
      ensures Describes(ArrivedAt(Scan(From(events, head), start, end), now), timestamps, xs, ys, zs, arrivals)
    {
      timestamps, xs, ys, zs, arrivals := [], [], [], [], [];
      ghost var out := [];
      ghost var order := From(events, head);
      assert order[0..] == order;
      for i := 0 to |events|
        invariant Describes(ArrivedAt(out, now), timestamps, xs, ys, zs, arrivals)
        invariant out + Scan(order[i..], start, end) == Scan(order, start, end)
      {
        var index := (head + i) % |events|;
        AroundIndex(events, head, i);
        ScanNext(out, order, i, start, end);
        if events[index].timestamp <= start {
          continue;
        }
        if events[index].timestamp > end {
          return;
        }
        out := out + [events[index]];
        timestamps := timestamps + [events[index].timestamp];
        xs := xs + [events[index].value.x];
        ys := ys + [events[index].value.y];
        zs := zs + [events[index].value.z];
        arrivals := arrivals + [now];
      }
      assert order[|order|..] == [];
    }
  }

  lemma AroundIndex(events: seq<Event>, head: nat, i: nat)
    requires head < |events| && i < |events|
    ensures From(events, head)[i] == events[(head + i) % |events|]
  {
    if head + i < |events| {
      Modulo(head + i, |events|, 0);
    } else {
      Modulo(head + i - |events|, |events|, 1);
    }
  }

  lemma Modulo(r: nat, n: nat, q: nat)
    requires r < n && q <= 1
    ensures (r + q * n) % n == r
  {
  }

  // One slot further in the scan.
  lemma ScanNext(out: seq<Event>, order: seq<Event>, i: nat, start: int, end: int)
    requires i < |order| && out + Scan(order[i..], start, end) == Scan(order, start, end)
    ensures order[i].timestamp <= start ==> out + Scan(order[i + 1..], start, end) == Scan(order, start, end)
    ensures order[i].timestamp > start && order[i].timestamp > end ==> out == Scan(order, start, end)
    ensures start < order[i].timestamp <= end ==>
              out + [order[i]] + Scan(order[i + 1..], start, end) == Scan(order, start, end)
  {
    assert order[i..][1..] == order[i + 1..];
    assert out + ([order[i]] + Scan(order[i + 1..], start, end)) == out + [order[i]] + Scan(order[i + 1..], start, end);
  }
}
