// Stream groups: the hardware layer chooses which stream of a group outputs a buffer, so the
// session counts all streams of a group as one representative stream.
module StreamGroups {
  import opened HalTypes

  const NO_GROUP: int := -1

  datatype StreamConfig = StreamConfig(isOutput: bool, group: int)

  // The stream that stands for `id`.
  function Fold(groups: map<int, int>, id: int): int {
    if id in groups then groups[id] else id
  }

  // Representatives stand for themselves.
  ghost predicate Folding(groups: map<int, int>) {
    forall id :: id in groups ==> groups[id] !in groups
  }

  predicate IsGrouped(c: StreamConfig) { c.isOutput && c.group != NO_GROUP }

  ghost predicate SameGroup(streams: map<int, StreamConfig>, s: int, t: int)
    requires s in streams && t in streams
  {
    IsGrouped(streams[s]) && IsGrouped(streams[t]) && streams[s].group == streams[t].group
  }

  ghost predicate NoDuplicates<T>(s: seq<T>) {
    forall i, j :: 0 <= i < j < |s| ==> s[i] != s[j]
  }

  // `byGroup` lists the grouped streams among `seen`, group by group.
  ghost predicate Listed(streams: map<int, StreamConfig>, seen: set<int>, byGroup: map<int, seq<int>>) {
    && seen <= streams.Keys
    && (forall g :: g in byGroup ==> byGroup[g] != [] && NoDuplicates(byGroup[g]))
    && (forall g, s :: g in byGroup && s in byGroup[g] ==>
          s in seen && IsGrouped(streams[s]) && streams[s].group == g)
    && (forall s :: s in seen && IsGrouped(streams[s]) ==>
          streams[s].group in byGroup && s in byGroup[streams[s].group])
  }

  // `groups` folds every stream of the groups `done` to the first one listed.
  ghost predicate Folded(streams: map<int, StreamConfig>, byGroup: map<int, seq<int>>, done: set<int>,
                         groups: map<int, int>)
    requires Listed(streams, streams.Keys, byGroup) && done <= byGroup.Keys
  {
    && (forall s :: s in groups ==>
          s in streams && IsGrouped(streams[s]) && streams[s].group in done
          && groups[s] == byGroup[streams[s].group][0] != s)
    && (forall s :: s in streams && IsGrouped(streams[s]) && streams[s].group in done ==>
          s in groups || s == byGroup[streams[s].group][0])
  }

  // Group the configured output streams, in whatever order the maps are walked. Two streams are
  // counted as one exactly when they are one stream or two streams of one group.
  method DeriveGroupedStreamIdMap(streams: map<int, StreamConfig>) returns (groups: map<int, int>)
    ensures Folding(groups)
    ensures forall s :: s in groups ==> s in streams && groups[s] in streams
    ensures forall s, t :: s in streams && t in streams ==>
              (Fold(groups, s) == Fold(groups, t) <==> s == t || SameGroup(streams, s, t))
  {
    var byGroup := ListGroups(streams);
    groups := map[];
    var left := byGroup.Keys;
    while left != {}
      invariant left <= byGroup.Keys
      invariant Folded(streams, byGroup, byGroup.Keys - left, groups)
      decreases left
    {
      var g := Pick(left);
      groups := FoldGroup(streams, byGroup, byGroup.Keys - left, g, groups);
      assert byGroup.Keys - (left - {g}) == byGroup.Keys - left + {g};
      left := left - {g};
    }
    forall s | s in streams ensures Fold(groups, s) == FoldOf(streams, byGroup, s) {
    }
  }

  // Any element: the maps are walked in no particular order.
  method Pick(s: set<int>) returns (x: int)
    requires s != {}
    ensures x in s
  {
    assert exists y :: y in s by {
      assert (forall y :: y !in s) ==> s == {};
    }
    x :| x in s;
  }

  // Where a fully folded map sends a stream.
  function FoldOf(streams: map<int, StreamConfig>, byGroup: map<int, seq<int>>, s: int): int {
    if s in streams && IsGrouped(streams[s]) && streams[s].group in byGroup && byGroup[streams[s].group] != []
    then byGroup[streams[s].group][0] else s
  }

  method ListGroups(streams: map<int, StreamConfig>) returns (byGroup: map<int, seq<int>>)
    ensures Listed(streams, streams.Keys, byGroup)
  {
    byGroup := map[];
    var left := streams.Keys;
    while left != {}
      invariant left <= streams.Keys
      invariant Listed(streams, streams.Keys - left, byGroup)
      decreases left
    {
      var s := Pick(left);
      if IsGrouped(streams[s]) {
        var g := streams[s].group;
        byGroup := byGroup[g := (if g in byGroup then byGroup[g] else []) + [s]];
      }
      left := left - {s};
    }
    assert streams.Keys - left == streams.Keys;
  }

  method FoldGroup(streams: map<int, StreamConfig>, byGroup: map<int, seq<int>>, ghost done: set<int>, g: int,
                   before: map<int, int>) returns (groups: map<int, int>)
    requires Listed(streams, streams.Keys, byGroup) && done <= byGroup.Keys && g in byGroup && g !in done
    requires Folded(streams, byGroup, done, before)
    ensures Folded(streams, byGroup, done + {g}, groups)
  {
    var ids := byGroup[g];
    groups := before;
    for i := 1 to |ids|
      invariant forall s :: s in groups <==> s in before || s in ids[1..i]
      invariant forall s :: s in groups ==> groups[s] == if s in ids[1..i] then ids[0] else before[s]
    {
      groups := groups[ids[i] := ids[0]];
      assert ids[1..i + 1] == ids[1..i] + [ids[i]];
    }
    forall s | s in ids[1..] ensures s in ids && s != ids[0] {
    }
    forall s | s in ids ensures s in ids[1..] || s == ids[0] {
    }
  }

  // ---------- Counting by group ----------

  // How many of the buffers count for stream `s`.
  function CountOn(groups: map<int, int>, buffers: seq<StreamBuffer>, s: int): nat {
    if buffers == [] then 0
    else
      CountOn(groups, buffers[..|buffers| - 1], s)
      + if Fold(groups, buffers[|buffers| - 1].streamId) == s then 1 else 0
  }

  // The streams the buffers count for.
  function FoldsOf(groups: map<int, int>, buffers: seq<StreamBuffer>): set<int> {
    set b | b in buffers :: Fold(groups, b.streamId)
  }

  // No two of the buffers count for one stream.
  ghost predicate DistinctFolds(groups: map<int, int>, buffers: seq<StreamBuffer>) {
    forall i, j :: 0 <= i < j < |buffers| ==>
      Fold(groups, buffers[i].streamId) != Fold(groups, buffers[j].streamId)
  }

  lemma CountNext(groups: map<int, int>, buffers: seq<StreamBuffer>, s: int, i: nat)
    requires i < |buffers|
    ensures CountOn(groups, buffers[..i + 1], s) ==
            CountOn(groups, buffers[..i], s) + if Fold(groups, buffers[i].streamId) == s then 1 else 0
  {
    assert buffers[..i + 1][..i] == buffers[..i];
  }

  lemma FoldsLast(groups: map<int, int>, buffers: seq<StreamBuffer>)
    requires buffers != []
    ensures FoldsOf(groups, buffers) ==
            FoldsOf(groups, buffers[..|buffers| - 1]) + {Fold(groups, buffers[|buffers| - 1].streamId)}
  {
    assert buffers == buffers[..|buffers| - 1] + [buffers[|buffers| - 1]];
  }

  lemma {:induction false} CountPositive(groups: map<int, int>, buffers: seq<StreamBuffer>, s: int)
    ensures CountOn(groups, buffers, s) > 0 <==> s in FoldsOf(groups, buffers)
  {
    if buffers != [] {
      CountPositive(groups, buffers[..|buffers| - 1], s);
      FoldsLast(groups, buffers);
    }
  }

  // Without repeated streams the count is membership.
  lemma {:induction false} CountDistinct(groups: map<int, int>, buffers: seq<StreamBuffer>, s: int)
    requires DistinctFolds(groups, buffers)
    ensures CountOn(groups, buffers, s) == if s in FoldsOf(groups, buffers) then 1 else 0
  {
    if buffers != [] {
      var front, last := buffers[..|buffers| - 1], buffers[|buffers| - 1];
      CountDistinct(groups, front, s);
      FoldsLast(groups, buffers);
      if s in FoldsOf(groups, front) {
        var b :| b in front && Fold(groups, b.streamId) == s;
        var i :| 0 <= i < |front| && front[i] == b;
        assert buffers[i] == b;
      }
    }
  }
}
