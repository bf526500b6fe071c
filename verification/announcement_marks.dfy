// What the announcements of a run depend on, event by event, and which runs announce a stream
// twice between two flushes.
module AnnouncementMarks {

  // Of one event: the representatives of the streams of the request it launches, whether it tells
  // the cache manager to flush, and whether it is an admission that finds nothing in flight.
  datatype Mark = Mark(launched: set<int>, flush: bool, clear: bool)

  // The streams launched since the last flush,
  function Launched(ms: seq<Mark>): set<int> {
    if ms == [] then {} else NextLaunched(Launched(ms[..|ms| - 1]), ms[|ms| - 1])
  }

  function NextLaunched(launched: set<int>, m: Mark): set<int> {
    if m.flush then {} else launched + m.launched
  }

  // and since the last admission that found nothing in flight.
  function Known(ms: seq<Mark>): set<int> {
    if ms == [] then {} else NextKnown(Known(ms[..|ms| - 1]), ms[|ms| - 1])
  }

  function Kept(known: set<int>, m: Mark): set<int> {
    if m.clear then {} else known
  }

  function NextKnown(known: set<int>, m: Mark): set<int> {
    Kept(known, m) + m.launched
  }

  // Two launched requests share a stream, there is no flush in between, and nothing was in flight at
  // an admission after the first of them, up to the second.
  ghost predicate Repeats(ms: seq<Mark>) {
    exists i, j, x :: 0 <= i < j < |ms| && IsPair(ms, i, j, x)
  }

  ghost predicate IsPair(ms: seq<Mark>, i: nat, j: nat, x: int) {
    LaunchedAt(ms, i, x) && LaunchedAt(ms, j, x) && NoFlush(ms, i, j) && ClearedIn(ms, i, j)
  }

  // The `i`-th event launches a request for stream `x`.
  predicate LaunchedAt(ms: seq<Mark>, i: nat, x: int) {
    i < |ms| && x in ms[i].launched
  }

  ghost predicate NoFlush(ms: seq<Mark>, i: nat, j: nat) {
    forall k :: i < k < j && k < |ms| ==> !ms[k].flush
  }

  ghost predicate ClearedIn(ms: seq<Mark>, i: nat, j: nat) {
    exists k :: i < k <= j && k < |ms| && ms[k].clear
  }

  // The last event launches a stream again that is not known any more.
  ghost predicate LastRepeats(ms: seq<Mark>, x: int)
    requires ms != []
  {
    var front, m := ms[..|ms| - 1], ms[|ms| - 1];
    x in Launched(front) && x in m.launched && x !in Kept(Known(front), m)
  }

  lemma LastRepeatsIs(ms: seq<Mark>, m: Mark)
    ensures (exists x :: LastRepeats(ms + [m], x)) <==>
            !forall x :: x in m.launched && x in Launched(ms) ==> x in Kept(Known(ms), m)
  {
    assert (ms + [m])[..|ms|] == ms;
    forall x ensures LastRepeats(ms + [m], x) <==>
                     x in m.launched && x in Launched(ms) && x !in Kept(Known(ms), m)
    {
    }
  }

  // A launch with no flush since is remembered.
  lemma {:induction false} StandingIsLaunched(ms: seq<Mark>, i: nat, x: int)
    requires i < |ms| && x in ms[i].launched && !ms[i].flush && NoFlush(ms, i, |ms|)
    ensures x in Launched(ms)
  {
    if i < |ms| - 1 {
      StandingIsLaunched(ms[..|ms| - 1], i, x);
    }
  }

  // Conversely a remembered stream was launched with no flush since, and it is still known unless
  // nothing was in flight since.
  lemma {:induction false} LaunchedStands(ms: seq<Mark>, x: int) returns (i: nat)
    requires x in Launched(ms)
    ensures i < |ms| && x in ms[i].launched && NoFlush(ms, i, |ms|)
    ensures x in Known(ms) || ClearedIn(ms, i, |ms| - 1)
  {
    var n := |ms| - 1;
    if x in ms[n].launched {
      i := n;
    } else {
      i := LaunchedStands(ms[..n], x);
      if ClearedIn(ms[..n], i, n - 1) {
        var k :| i < k <= n - 1 && ms[..n][k].clear;
        assert ms[k].clear;
      }
    }
  }

  // What is known since nothing was in flight was launched since.
  lemma {:induction false} KnownIsLaunched(ms: seq<Mark>, k: nat, x: int) returns (j: nat)
    requires k < |ms| && ms[k].clear && x in Known(ms)
    ensures k <= j < |ms| && x in ms[j].launched
    decreases |ms|
  {
    var n := |ms| - 1;
    if x in ms[n].launched {
      j := n;
    } else {
      j := KnownIsLaunched(ms[..n], k, x);
    }
  }

  lemma LastHasPair(ms: seq<Mark>, x: int) returns (i: nat)
    requires ms != [] && LastRepeats(ms, x)
    ensures i < |ms| - 1 && IsPair(ms, i, |ms| - 1, x)
  {
    var n := |ms| - 1;
    i := LaunchedStands(ms[..n], x);
    if ClearedIn(ms[..n], i, n - 1) {
      var k :| i < k <= n - 1 && ms[..n][k].clear;
      assert ms[k].clear;
    } else {
      assert ms[n].clear;
    }
  }

  lemma PairIsLast(ms: seq<Mark>, i: nat, x: int)
    requires i < |ms| - 1 && IsPair(ms, i, |ms| - 1, x) && !Repeats(ms[..|ms| - 1]) && !ms[i].flush
    ensures LastRepeats(ms, x)
  {
    var n := |ms| - 1;
    var front := ms[..n];
    assert NoFlush(front, i, n);
    StandingIsLaunched(front, i, x);
    var k :| i < k <= n && ms[k].clear;
    if k < n && x in Known(front) {
      var j := KnownIsLaunched(front, k, x);
      assert front[k].clear && i < k <= j;
      assert ClearedIn(front, i, j);
      assert IsPair(front, i, j, x);
    }
  }

  // A pair lies before the end or ends with it.
  lemma RepeatsNext(ms: seq<Mark>)
    requires ms != []
    requires forall i :: 0 <= i < |ms| && ms[i].flush ==> ms[i].launched == {}
    ensures Repeats(ms) <==> Repeats(ms[..|ms| - 1]) || exists x :: LastRepeats(ms, x)
  {
    var n := |ms| - 1;
    if Repeats(ms) {
      var i, j, x :| 0 <= i < j < |ms| && IsPair(ms, i, j, x);
      if j < n {
        SamePair(ms, n, i, j, x);
      } else if !Repeats(ms[..n]) {
        PairIsLast(ms, i, x);
      }
    }
    if Repeats(ms[..n]) {
      var i, j, x :| 0 <= i < j < n && IsPair(ms[..n], i, j, x);
      SamePair(ms, n, i, j, x);
    }
    if x :| LastRepeats(ms, x) {
      var i := LastHasPair(ms, x);
    }
  }

  lemma SomePair(ms: seq<Mark>) returns (i: nat, j: nat, k: nat, x: int)
    requires Repeats(ms) && forall m :: m in ms && m.flush ==> m.launched == {}
    ensures i < k <= j < |ms| && x in ms[i].launched && !ms[i].flush && NoFlush(ms, i, j) && ms[k].clear
  {
    i, j, x :| 0 <= i < j < |ms| && IsPair(ms, i, j, x);
    k :| i < k <= j && ms[k].clear;
    assert ms[i] in ms;
  }

  lemma PairRepeats(ms: seq<Mark>, i: nat, j: nat, x: int)
    requires i < j && IsPair(ms, i, j, x)
    ensures Repeats(ms)
  {
  }

  // The first request of a pair is remembered until nothing is in flight.
  lemma LaunchedBefore(ms: seq<Mark>, i: nat, j: nat, k: nat, x: int)
    requires i < k <= j < |ms| && x in ms[i].launched && !ms[i].flush && NoFlush(ms, i, j)
    ensures x in Launched(ms[..k])
  {
    StandingIsLaunched(ms[..k], i, x);
  }

  lemma SamePair(ms: seq<Mark>, n: nat, i: nat, j: nat, x: int)
    requires i < j < n <= |ms|
    ensures IsPair(ms[..n], i, j, x) <==> IsPair(ms, i, j, x)
  {
    var front := ms[..n];
    assert forall k :: 0 <= k < n ==> front[k] == ms[k];
  }
}
