// Acquired accounting: the tracker's count of acquired buffers against what is really out, the open
// reservations and the framework buffers held below the session.
module SessionAcquired {
  import opened HalTypes
  import opened StreamGroups
  import opened RequestsTracker
  import opened SessionModel
  import opened SessionCoupling
  import opened SessionQuotas

  // A buffer request that has got its quota and is waiting for its buffers.
  datatype Reservation = Reservation(stream: int, n: nat)

  // What is really out. Held buffers are kept without their status, which may change below.
  datatype Ledger = Ledger(open: seq<Reservation>, held: seq<StreamBuffer>)

  const NOTHING_OUT := Ledger([], [])

  // ---------- Bags as sequences ----------

  // One occurrence of `x` removed, if there is one.
  function Without<T(==)>(s: seq<T>, x: T): seq<T> {
    if s == [] then []
    else
      var front, last := s[..|s| - 1], s[|s| - 1];
      if last == x then front else Without(front, x) + [last]
  }

  function WithoutAll<T(==)>(s: seq<T>, xs: seq<T>): seq<T> {
    if xs == [] then s else Without(WithoutAll(s, xs[..|xs| - 1]), xs[|xs| - 1])
  }

  lemma {:induction false} WithoutBag<T>(s: seq<T>, x: T)
    ensures multiset(Without(s, x)) == multiset(s) - multiset{x}
  {
    if s != [] {
      var front, last := s[..|s| - 1], s[|s| - 1];
      assert s == front + [last];
      if last != x { WithoutBag(front, x); }
    }
  }

  lemma {:induction false} WithoutAllBag<T>(s: seq<T>, xs: seq<T>)
    ensures multiset(WithoutAll(s, xs)) == multiset(s) - multiset(xs)
  {
    if xs != [] {
      var front, last := xs[..|xs| - 1], xs[|xs| - 1];
      assert xs == front + [last];
      WithoutAllBag(s, front);
      WithoutBag(WithoutAll(s, front), last);
    }
  }

  // The buffer whatever its status.
  function Identity(b: StreamBuffer): StreamBuffer { b.(status := BufferOk) }

  function Identities(s: seq<StreamBuffer>): (r: seq<StreamBuffer>)
    ensures |r| == |s|
    ensures forall i :: 0 <= i < |s| ==> r[i] == Identity(s[i])
  {
    seq(|s|, i requires 0 <= i < |s| => Identity(s[i]))
  }

  // ---------- Counting what is out ----------

  function ReservedOn(groups: map<int, int>, open: seq<Reservation>, id: int): nat {
    if open == [] then 0
    else
      var r := open[|open| - 1];
      ReservedOn(groups, open[..|open| - 1], id) + if Fold(groups, r.stream) == id then r.n else 0
  }

  // How many buffers of stream `id` (or its group) are out.
  function OutOn(groups: map<int, int>, l: Ledger, id: int): nat {
    ReservedOn(groups, l.open, id) + CountOn(groups, l.held, id)
  }

  lemma {:induction false} ReservedWithout(groups: map<int, int>, open: seq<Reservation>, r: Reservation, id: int)
    requires r in open
    ensures ReservedOn(groups, open, id) ==
            ReservedOn(groups, Without(open, r), id) + if Fold(groups, r.stream) == id then r.n else 0
  {
    var front, last := open[..|open| - 1], open[|open| - 1];
    if last != r {
      assert r in front;
      ReservedWithout(groups, front, r, id);
      assert (Without(front, r) + [last])[..|Without(front, r)|] == Without(front, r);
    }
  }

  lemma {:induction false} CountWithout(groups: map<int, int>, s: seq<StreamBuffer>, b: StreamBuffer, id: int)
    ensures CountOn(groups, s, id) ==
            CountOn(groups, Without(s, b), id) + One(b in s && Fold(groups, b.streamId) == id)
  {
    if s != [] {
      var front, last := s[..|s| - 1], s[|s| - 1];
      if last != b {
        CountWithout(groups, front, b, id);
        assert (Without(front, b) + [last])[..|Without(front, b)|] == Without(front, b);
      }
    }
  }

  // How many of the buffers `xs` on the stream are not among the held ones.
  function StraysOn(groups: map<int, int>, held: seq<StreamBuffer>, xs: seq<StreamBuffer>, id: int): nat {
    if xs == [] then 0
    else
      var front, last := xs[..|xs| - 1], xs[|xs| - 1];
      StraysOn(groups, held, front, id)
      + One(last !in WithoutAll(held, front) && Fold(groups, last.streamId) == id)
  }

  lemma {:induction false} CountWithoutAll(groups: map<int, int>, held: seq<StreamBuffer>, xs: seq<StreamBuffer>,
                                           id: int)
    ensures CountOn(groups, held, id) + StraysOn(groups, held, xs, id) ==
            CountOn(groups, WithoutAll(held, xs), id) + CountOn(groups, xs, id)
  {
    if xs != [] {
      var front, last := xs[..|xs| - 1], xs[|xs| - 1];
      CountWithoutAll(groups, held, front, id);
      CountWithout(groups, WithoutAll(held, front), last, id);
    }
  }

  lemma {:induction false} NoStrays(groups: map<int, int>, held: seq<StreamBuffer>, xs: seq<StreamBuffer>, id: int)
    requires multiset(xs) <= multiset(held)
    ensures StraysOn(groups, held, xs, id) == 0
  {
    if xs != [] {
      var front, last := xs[..|xs| - 1], xs[|xs| - 1];
      assert xs == front + [last];
      NoStrays(groups, held, front, id);
      WithoutAllBag(held, front);
      assert multiset(xs)[last] <= multiset(held)[last];
      assert last in multiset(WithoutAll(held, front));
    }
  }

  // ---------- The ledger over a run ----------

  // The buffers an event gives back, as far as the tracker counts them.
  function GivenBackBy(s: Session, e: Event): seq<StreamBuffer> {
    if e.Result? then Real(s.dummies, e.outputs) else if e.GiveBack? then e.buffers else []
  }

  function StepLedger(cfg: Config, s: Session, l: Ledger, e: Event): Ledger
    requires Consistently(cfg, s)
  {
    match e
    case Reserve(stream, n) =>
      if MayAcquire(cfg.quotas, s.counts, stream, n) then l.(open := l.open + [Reservation(stream, n)]) else l
    case Obtain(stream, buffers) =>
      Ledger(Without(l.open, Reservation(stream, |buffers|)), l.held + Identities(buffers))
    case Unreserve(stream, n) => l.(open := Without(l.open, Reservation(stream, n)))
    case Result(_, _, _, _) => l.(held := WithoutAll(l.held, Identities(GivenBackBy(s, e))))
    case GiveBack(_) => l.(held := WithoutAll(l.held, Identities(GivenBackBy(s, e))))
    case _ => l
  }

  function RunLedger(cfg: Config, es: seq<Event>): Ledger
    requires Folding(cfg.Groups())
  {
    if es == [] then NOTHING_OUT
    else StepLedger(cfg, Run(cfg, es[..|es| - 1]), RunLedger(cfg, es[..|es| - 1]), es[|es| - 1])
  }

  // Only open reservations end, each once; a successful one yields exactly its buffers; dummies are
  // not framework buffers.
  ghost predicate Lawful(s: Session, l: Ledger, e: Event) {
    match e
    case Obtain(stream, buffers) =>
      && Reservation(stream, |buffers|) in l.open
      && forall b :: b in buffers ==> b.streamId == stream && b.handle !in s.dummies
    case Unreserve(stream, n) => Reservation(stream, n) in l.open
    case Dummy(handle) => forall b :: b in l.held ==> b.handle != handle
    case _ => true
  }

  // Everything given back is held.
  ghost predicate ReturnsHeld(s: Session, l: Ledger, e: Event) {
    multiset(Identities(GivenBackBy(s, e))) <= multiset(l.held)
  }

  ghost predicate LawfulRun(cfg: Config, es: seq<Event>)
    requires Folding(cfg.Groups())
  {
    es != [] ==>
      && LawfulRun(cfg, es[..|es| - 1])
      && Lawful(Run(cfg, es[..|es| - 1]), RunLedger(cfg, es[..|es| - 1]), es[|es| - 1])
  }

  ghost predicate HonestRun(cfg: Config, es: seq<Event>)
    requires Folding(cfg.Groups())
  {
    es != [] ==>
      && HonestRun(cfg, es[..|es| - 1])
      && ReturnsHeld(Run(cfg, es[..|es| - 1]), RunLedger(cfg, es[..|es| - 1]), es[|es| - 1])
  }

  lemma CountIdentities(groups: map<int, int>, s: seq<StreamBuffer>, id: int)
    ensures CountOn(groups, Identities(s), id) == CountOn(groups, s, id)
  {
    CountSameStreams(groups, Identities(s), s, id);
  }

  lemma {:induction false} CountOnStream(groups: map<int, int>, s: seq<StreamBuffer>, stream: int, id: int)
    requires forall b :: b in s ==> b.streamId == stream
    ensures CountOn(groups, s, id) == if Fold(groups, stream) == id then |s| else 0
  {
    if s != [] {
      var front := s[..|s| - 1];
      assert s[|s| - 1] in s && forall b :: b in front ==> b in s;
      CountOnStream(groups, front, stream, id);
    }
  }

  // ---------- One step ----------

  function Strays(cfg: Config, s: Session, l: Ledger, e: Event, id: int): nat {
    StraysOn(cfg.Groups(), l.held, Identities(GivenBackBy(s, e)), id)
  }

  // A return lowers what is out by the held buffers among those given back; the count by all of them.
  lemma ReturnChanges(cfg: Config, s: Session, l: Ledger, e: Event, id: int)
    requires Consistently(cfg, s) && id in cfg.quotas.max && (e.Result? || e.GiveBack?)
    ensures
      var given := CountOn(cfg.Groups(), GivenBackBy(s, e), id);
      && Step(cfg, s, e).counts.acquired[id] == Minus(s.counts.acquired[id], given)
      && OutOn(cfg.Groups(), l, id) + Strays(cfg, s, l, e, id) ==
         OutOn(cfg.Groups(), StepLedger(cfg, s, l, e), id) + given
  {
    if e.Result? { ResultCounts(cfg, s, e); }
    CountIdentities(cfg.Groups(), GivenBackBy(s, e), id);
    CountWithoutAll(cfg.Groups(), l.held, Identities(GivenBackBy(s, e)), id);
  }

  // From an exact count, a return leads to an exact count if and only if every buffer it gives back
  // on the stream is held, or nothing on the stream is out afterwards anyway.
  lemma ReturnExactIff(cfg: Config, s: Session, l: Ledger, e: Event, id: int)
    requires Consistently(cfg, s) && id in cfg.quotas.max && (e.Result? || e.GiveBack?)
    requires s.counts.acquired[id] == OutOn(cfg.Groups(), l, id)
    ensures Step(cfg, s, e).counts.acquired[id] == OutOn(cfg.Groups(), StepLedger(cfg, s, l, e), id) <==>
            Strays(cfg, s, l, e, id) == 0 || OutOn(cfg.Groups(), StepLedger(cfg, s, l, e), id) == 0
  {
    ReturnChanges(cfg, s, l, e, id);
  }

  // Reserving, obtaining and taking back move the count and what is out alike.
  lemma ReservationChanges(cfg: Config, s: Session, l: Ledger, e: Event, id: int)
    requires Consistently(cfg, s) && id in cfg.quotas.max && Lawful(s, l, e) && !Underflows(cfg, s, e)
    requires e.Reserve? || e.Obtain? || e.Unreserve?
    ensures Step(cfg, s, e).counts.acquired[id] + OutOn(cfg.Groups(), l, id) ==
            s.counts.acquired[id] + OutOn(cfg.Groups(), StepLedger(cfg, s, l, e), id)
  {
    match e
    case Reserve(stream, n) =>
      assert (l.open + [Reservation(stream, n)])[..|l.open|] == l.open;
    case Obtain(stream, buffers) =>
      ReservedWithout(cfg.Groups(), l.open, Reservation(stream, |buffers|), id);
      CountConcat(cfg.Groups(), l.held, Identities(buffers), id);
      CountIdentities(cfg.Groups(), buffers, id);
      CountOnStream(cfg.Groups(), buffers, stream, id);
    case Unreserve(stream, n) =>
      ReservedWithout(cfg.Groups(), l.open, Reservation(stream, n), id);
  }

  lemma OtherChanges(cfg: Config, s: Session, l: Ledger, e: Event)
    requires Consistently(cfg, s)
    requires !(e.Reserve? || e.Obtain? || e.Unreserve? || e.Result? || e.GiveBack?)
    ensures Step(cfg, s, e).counts.acquired == s.counts.acquired && StepLedger(cfg, s, l, e) == l
  {
    if e.Admit? { AdmitAcquired(cfg, s, e); }
  }

  // ---------- Every run ----------

  ghost predicate IsExact(cfg: Config, s: Session, l: Ledger)
    requires Consistently(cfg, s)
  {
    forall id :: id in cfg.quotas.max ==> s.counts.acquired[id] == OutOn(cfg.Groups(), l, id)
  }

  // An open reservation is part of the count.
  lemma NoUnderflow(cfg: Config, s: Session, l: Ledger, e: Event)
    requires Consistently(cfg, s) && IsExact(cfg, s, l) && Lawful(s, l, e)
    ensures !Underflows(cfg, s, e)
  {
    if e.Unreserve? {
      ReservedWithout(cfg.Groups(), l.open, Reservation(e.stream, e.n), Fold(cfg.Groups(), e.stream));
    }
  }

  lemma StepExact(cfg: Config, s: Session, l: Ledger, e: Event)
    requires Consistently(cfg, s) && IsExact(cfg, s, l) && Lawful(s, l, e) && ReturnsHeld(s, l, e)
    ensures IsExact(cfg, Step(cfg, s, e), StepLedger(cfg, s, l, e))
  {
    NoUnderflow(cfg, s, l, e);
    forall id | id in cfg.quotas.max
      ensures Step(cfg, s, e).counts.acquired[id] == OutOn(cfg.Groups(), StepLedger(cfg, s, l, e), id)
    {
      if e.Result? || e.GiveBack? {
        ReturnExactIff(cfg, s, l, e, id);
        NoStrays(cfg.Groups(), l.held, Identities(GivenBackBy(s, e)), id);
      } else if e.Reserve? || e.Obtain? || e.Unreserve? {
        ReservationChanges(cfg, s, l, e, id);
      } else {
        OtherChanges(cfg, s, l, e);
      }
    }
  }

  // A return of held buffers never reaches below zero.
  ghost predicate NeverClamps(cfg: Config, es: seq<Event>)
    requires Folding(cfg.Groups())
  {
    es != [] ==>
      var s, e := Run(cfg, es[..|es| - 1]), es[|es| - 1];
      && NeverClamps(cfg, es[..|es| - 1])
      && forall id :: id in cfg.quotas.max ==> CountOn(cfg.Groups(), GivenBackBy(s, e), id) <= s.counts.acquired[id]
  }

  lemma NoClamp(cfg: Config, s: Session, l: Ledger, e: Event, id: int)
    requires Consistently(cfg, s) && IsExact(cfg, s, l) && ReturnsHeld(s, l, e) && id in cfg.quotas.max
    ensures CountOn(cfg.Groups(), GivenBackBy(s, e), id) <= s.counts.acquired[id]
  {
    CountIdentities(cfg.Groups(), GivenBackBy(s, e), id);
    CountWithoutAll(cfg.Groups(), l.held, Identities(GivenBackBy(s, e)), id);
    NoStrays(cfg.Groups(), l.held, Identities(GivenBackBy(s, e)), id);
  }

  // In every run in which only held buffers are given back, the count of acquired buffers of each
  // stream is what is reserved plus what is held, and no subtraction falls below zero.
  lemma {:induction false} AcquiredIsReservedPlusHeld(cfg: Config, es: seq<Event>)
    requires Folding(cfg.Groups()) && LawfulRun(cfg, es) && HonestRun(cfg, es)
    ensures IsExact(cfg, Run(cfg, es), RunLedger(cfg, es))
    ensures NeverUnderflows(cfg, es) && NeverClamps(cfg, es)
  {
    if es == [] {
      assert forall id :: OutOn(cfg.Groups(), NOTHING_OUT, id) == 0;
    } else {
      var before, e := es[..|es| - 1], es[|es| - 1];
      AcquiredIsReservedPlusHeld(cfg, before);
      var s, l := Run(cfg, before), RunLedger(cfg, before);
      StepExact(cfg, s, l, e);
      NoUnderflow(cfg, s, l, e);
      forall id | id in cfg.quotas.max ensures CountOn(cfg.Groups(), GivenBackBy(s, e), id) <= s.counts.acquired[id] {
        NoClamp(cfg, s, l, e, id);
      }
    }
  }

  // ---------- When the count is exact ----------

  // On every stream, everything given back is held, or nothing is out afterwards.
  ghost predicate IsHarmless(cfg: Config, s: Session, l: Ledger, e: Event)
    requires Consistently(cfg, s)
  {
    e.Result? || e.GiveBack? ==>
      forall id :: id in cfg.quotas.max ==>
        Strays(cfg, s, l, e, id) == 0 || OutOn(cfg.Groups(), StepLedger(cfg, s, l, e), id) == 0
  }

  ghost predicate AllHarmless(cfg: Config, es: seq<Event>)
    requires Folding(cfg.Groups())
  {
    es != [] ==>
      && AllHarmless(cfg, es[..|es| - 1])
      && IsHarmless(cfg, Run(cfg, es[..|es| - 1]), RunLedger(cfg, es[..|es| - 1]), es[|es| - 1])
  }

  ghost predicate AlwaysExact(cfg: Config, es: seq<Event>)
    requires Folding(cfg.Groups())
  {
    IsExact(cfg, Run(cfg, es), RunLedger(cfg, es)) && (es != [] ==> AlwaysExact(cfg, es[..|es| - 1]))
  }

  lemma StepExactIff(cfg: Config, s: Session, l: Ledger, e: Event)
    requires Consistently(cfg, s) && IsExact(cfg, s, l) && Lawful(s, l, e)
    ensures IsExact(cfg, Step(cfg, s, e), StepLedger(cfg, s, l, e)) <==> IsHarmless(cfg, s, l, e)
  {
    NoUnderflow(cfg, s, l, e);
    if e.Result? || e.GiveBack? {
      forall id | id in cfg.quotas.max { ReturnExactIff(cfg, s, l, e, id); }
    } else if e.Reserve? || e.Obtain? || e.Unreserve? {
      forall id | id in cfg.quotas.max { ReservationChanges(cfg, s, l, e, id); }
    } else {
      OtherChanges(cfg, s, l, e);
    }
  }

  // The count is exact throughout a run if and only if every return in it is harmless.
  lemma {:induction false} AlwaysExactIff(cfg: Config, es: seq<Event>)
    requires Folding(cfg.Groups()) && LawfulRun(cfg, es)
    ensures AlwaysExact(cfg, es) <==> AllHarmless(cfg, es)
  {
    if es == [] {
      assert forall id :: OutOn(cfg.Groups(), NOTHING_OUT, id) == 0;
    } else {
      var before := es[..|es| - 1];
      AlwaysExactIff(cfg, before);
      if AlwaysExact(cfg, before) { StepExactIff(cfg, Run(cfg, before), RunLedger(cfg, before), es[|es| - 1]); }
    }
  }

  ghost predicate NoDummyHeld(s: Session, l: Ledger) {
    forall b :: b in l.held ==> b.handle !in s.dummies
  }

  lemma KeepsNoDummy(cfg: Config, s: Session, l: Ledger, e: Event)
    requires Consistently(cfg, s) && NoDummyHeld(s, l) && Lawful(s, l, e)
    ensures NoDummyHeld(Step(cfg, s, e), StepLedger(cfg, s, l, e))
  {
    WithoutAllBag(l.held, Identities(GivenBackBy(s, e)));
    var rest := WithoutAll(l.held, Identities(GivenBackBy(s, e)));
    forall b | b in rest ensures b in l.held {
      assert b in multiset(rest);
      assert b in multiset(l.held);
    }
    if e.Admit? || e.Result? { SameDummies(cfg, s, e); }
  }

  lemma SameDummies(cfg: Config, s: Session, e: Event)
    requires Consistently(cfg, s) && (e.Admit? || e.Result?)
    ensures Step(cfg, s, e).dummies == s.dummies
  {
  }

  lemma {:induction false} RunHoldsNoDummy(cfg: Config, es: seq<Event>)
    requires Folding(cfg.Groups()) && LawfulRun(cfg, es)
    ensures NoDummyHeld(Run(cfg, es), RunLedger(cfg, es))
  {
    if es != [] {
      RunHoldsNoDummy(cfg, es[..|es| - 1]);
      KeepsNoDummy(cfg, Run(cfg, es[..|es| - 1]), RunLedger(cfg, es[..|es| - 1]), es[|es| - 1]);
    }
  }

  lemma {:induction false} StrayCounts(groups: map<int, int>, held: seq<StreamBuffer>, xs: seq<StreamBuffer>,
                                       x: StreamBuffer)
    requires x in xs && x !in held
    ensures StraysOn(groups, held, xs, Fold(groups, x.streamId)) > 0
  {
    var front, last := xs[..|xs| - 1], xs[|xs| - 1];
    WithoutAllBag(held, front);
    if last == x {
      assert x !in multiset(held);
      assert x !in multiset(WithoutAll(held, front));
    } else {
      StrayCounts(groups, held, front, x);
    }
  }

  // A buffer that is not held is a stray when it is given back, as a result or directly, and so is
  // an observed dummy that is given back directly.
  lemma ReturnStrays(cfg: Config, es: seq<Event>, e: Event, b: StreamBuffer)
    requires Folding(cfg.Groups()) && LawfulRun(cfg, es)
    requires b in GivenBackBy(Run(cfg, es), e)
    requires Identity(b) !in RunLedger(cfg, es).held || (e.GiveBack? && b.handle in Run(cfg, es).dummies)
    ensures Strays(cfg, Run(cfg, es), RunLedger(cfg, es), e, Fold(cfg.Groups(), b.streamId)) > 0
  {
    var given := GivenBackBy(Run(cfg, es), e);
    RunHoldsNoDummy(cfg, es);
    var i :| 0 <= i < |given| && given[i] == b;
    assert Identities(given)[i] == Identity(b);
    StrayCounts(cfg.Groups(), RunLedger(cfg, es).held, Identities(given), Identity(b));
  }

  // Room for `n` more buffers on a stream, by what is out.
  predicate HasRoom(cfg: Config, l: Ledger, stream: int, n: nat) {
    var id := Fold(cfg.Groups(), stream);
    id in cfg.quotas.max && OutOn(cfg.Groups(), l, id) + n <= cfg.quotas.max[id]
  }

  // With room a reservation is opened and counted, without it nothing changes.
  ghost predicate GrantedIffRoom(cfg: Config, s: Session, l: Ledger, stream: int, n: nat)
    requires Consistently(cfg, s)
  {
    var e, id := Reserve(stream, n), Fold(cfg.Groups(), stream);
    if HasRoom(cfg, l, stream, n)
    then id in s.counts.acquired
         && StepLedger(cfg, s, l, e) == Ledger(l.open + [Reservation(stream, n)], l.held)
         && Step(cfg, s, e).counts.acquired == s.counts.acquired[id := s.counts.acquired[id] + n]
    else StepLedger(cfg, s, l, e) == l && Step(cfg, s, e).counts.acquired == s.counts.acquired
  }

  lemma GrantedStep(cfg: Config, s: Session, l: Ledger, stream: int, n: nat)
    requires Consistently(cfg, s) && IsExact(cfg, s, l)
    ensures GrantedIffRoom(cfg, s, l, stream, n)
  {
  }

  lemma RunIsExact(cfg: Config, es: seq<Event>)
    requires Folding(cfg.Groups()) && LawfulRun(cfg, es) && HonestRun(cfg, es)
    ensures IsExact(cfg, Run(cfg, es), RunLedger(cfg, es))
  {
    AcquiredIsReservedPlusHeld(cfg, es);
  }

  // A reservation is granted exactly if what is out on its stream leaves room for it.
  lemma ReservationGrantedIff(cfg: Config, es: seq<Event>, stream: int, n: nat)
    requires Folding(cfg.Groups()) && LawfulRun(cfg, es) && HonestRun(cfg, es)
    ensures GrantedIffRoom(cfg, Run(cfg, es), RunLedger(cfg, es), stream, n)
  {
    RunIsExact(cfg, es);
    GrantedStep(cfg, Run(cfg, es), RunLedger(cfg, es), stream, n);
  }

  // The buffers of a result that count as returned are those that are no dummies.
  lemma {:induction false} RealIsNoDummy(dummies: set<nat>, buffers: seq<StreamBuffer>, b: StreamBuffer)
    ensures multiset(Real(dummies, buffers))[b] == if b.handle in dummies then 0 else multiset(buffers)[b]
  {
    if buffers != [] {
      assert buffers == buffers[..|buffers| - 1] + [buffers[|buffers| - 1]];
      RealIsNoDummy(dummies, buffers[..|buffers| - 1], b);
    }
  }

  // So no more buffers of a stream are out than its maximum.
  lemma {:induction false} OutWithinMaximum(cfg: Config, es: seq<Event>, id: int)
    requires Folding(cfg.Groups()) && LawfulRun(cfg, es) && HonestRun(cfg, es) && id in cfg.quotas.max
    ensures OutOn(cfg.Groups(), RunLedger(cfg, es), id) <= cfg.quotas.max[id]
  {
    AcquiredIsReservedPlusHeld(cfg, es);
    RunAcquiredWithin(cfg, es);
  }

  // Whatever else is given back, dummies or buffers that were never acquired, the count is never too
  // high as long as no reservation is missing from it.
  lemma {:induction false} AcquiredNeverTooHigh(cfg: Config, es: seq<Event>, id: int)
    requires Folding(cfg.Groups()) && LawfulRun(cfg, es) && NeverUnderflows(cfg, es) && id in cfg.quotas.max
    ensures Run(cfg, es).counts.acquired[id] <= OutOn(cfg.Groups(), RunLedger(cfg, es), id)
  {
    if es != [] {
      var before, e := es[..|es| - 1], es[|es| - 1];
      AcquiredNeverTooHigh(cfg, before, id);
      var s, l := Run(cfg, before), RunLedger(cfg, before);
      if e.Result? || e.GiveBack? {
        ReturnChanges(cfg, s, l, e, id);
        CountIdentities(cfg.Groups(), GivenBackBy(s, e), id);
        CountWithoutAll(cfg.Groups(), l.held, Identities(GivenBackBy(s, e)), id);
      } else if e.Reserve? || e.Obtain? || e.Unreserve? {
        ReservationChanges(cfg, s, l, e, id);
      } else {
        OtherChanges(cfg, s, l, e);
      }
    }
  }

  // ---------- A failed buffer request ----------

  function WithAcquired(s: Session, acquired: map<int, nat>): Session {
    s.(counts := s.counts.(acquired := acquired))
  }

  // What an event does to the counts of acquired buffers.
  function NextAcquired(cfg: Config, dummies: set<nat>, acquired: map<int, nat>, e: Event): map<int, nat>
    requires acquired.Keys == cfg.quotas.max.Keys
  {
    var counts := Counts(map[], acquired, {});
    match e
    case Result(_, _, outputs, _) => Lowered(cfg.quotas, acquired, Real(dummies, outputs))
    case GiveBack(buffers) => Lowered(cfg.quotas, acquired, buffers)
    case Reserve(stream, n) => RequestsTracker.Reserved(cfg.quotas, counts, stream, n).acquired
    case Unreserve(stream, n) => Unreserved(cfg.quotas, counts, stream, n).acquired
    case _ => acquired
  }

  lemma UpdateApart(cfg: Config, s: Session, frame: nat, outputs: seq<StreamBuffer>, acquired: map<int, nat>)
    ensures Update(cfg, WithAcquired(s, acquired), frame, outputs) ==
            WithAcquired(Update(cfg, s, frame, outputs), acquired)
  {
  }

  lemma DummyApart(cfg: Config, s: Session, frame: nat, outputs: seq<StreamBuffer>, acquired: map<int, nat>)
    ensures StepDummyResult(cfg, WithAcquired(s, acquired), frame, outputs) ==
            WithAcquired(StepDummyResult(cfg, s, frame, outputs),
                         Lowered(cfg.quotas, acquired, Real(s.dummies, outputs)))
  {
  }

  lemma NormalApart(cfg: Config, s: Session, e: Event, acquired: map<int, nat>)
    requires e.Result?
    ensures StepNormalResult(cfg, WithAcquired(s, acquired), e.frame, e.hasMetadata, e.outputs, e.inputs) ==
            WithAcquired(StepNormalResult(cfg, s, e.frame, e.hasMetadata, e.outputs, e.inputs),
                         Lowered(cfg.quotas, acquired, e.outputs))
  {
  }

  lemma ResultApart(cfg: Config, s: Session, e: Event, acquired: map<int, nat>)
    requires Consistently(cfg, s) && acquired.Keys == cfg.quotas.max.Keys && e.Result?
    ensures Step(cfg, WithAcquired(s, acquired), e) ==
            WithAcquired(Step(cfg, s, e), NextAcquired(cfg, s.dummies, acquired, e))
  {
    var s1 := Update(cfg, s, e.frame, e.outputs);
    UpdateApart(cfg, s, e.frame, e.outputs, acquired);
    if IsDummyResult(s, e.frame, e.outputs) {
      DummyApart(cfg, s1, e.frame, e.outputs, acquired);
    } else {
      NoDummiesAreReal(s.dummies, e.outputs);
      NormalApart(cfg, s1, e, acquired);
    }
  }

  lemma LaunchApart(cfg: Config, s: Session, e: Event, acquired: map<int, nat>)
    requires e.Admit?
    ensures Launch(cfg, WithAcquired(s, acquired), e.frame, e.outputs, e.inputs, e.flushingAfter) ==
            WithAcquired(Launch(cfg, s, e.frame, e.outputs, e.inputs, e.flushingAfter), acquired)
  {
  }

  lemma RegisterApart(cfg: Config, s: Session, frame: nat, outputs: seq<StreamBuffer>, acquired: map<int, nat>)
    ensures Register(cfg, Refreshed(WithAcquired(s, acquired)), frame, outputs) ==
            WithAcquired(Register(cfg, Refreshed(s), frame, outputs), acquired)
  {
  }

  lemma AdmitApart(cfg: Config, s: Session, e: Event, acquired: map<int, nat>)
    requires Consistently(cfg, s) && acquired.Keys == cfg.quotas.max.Keys && e.Admit?
    ensures Step(cfg, WithAcquired(s, acquired), e) == WithAcquired(Step(cfg, s, e), acquired)
  {
    RegisterApart(cfg, s, e.frame, e.outputs, acquired);
    LaunchApart(cfg, Register(cfg, Refreshed(s), e.frame, e.outputs), e, acquired);
  }

  lemma OtherApart(cfg: Config, s: Session, e: Event, acquired: map<int, nat>)
    requires Consistently(cfg, s) && acquired.Keys == cfg.quotas.max.Keys && !e.Admit? && !e.Result?
    ensures StepOther(cfg, WithAcquired(s, acquired), e) ==
            WithAcquired(StepOther(cfg, s, e), NextAcquired(cfg, s.dummies, acquired, e))
  {
    match e
    case NotifyError(frame, stream, code) =>
      assert StepError(WithAcquired(s, acquired), frame, stream, code) ==
             WithAcquired(StepError(s, frame, stream, code), acquired);
    case NotifyShutter(frame) =>
    case Reserve(stream, n) =>
    case Obtain(_, _) =>
    case Unreserve(stream, n) =>
    case GiveBack(buffers) =>
    case Dummy(handle) =>
  }

  // The counts of acquired buffers live apart: nothing else in the session depends on them.
  lemma AcquiredApart(cfg: Config, s: Session, e: Event, acquired: map<int, nat>)
    requires Consistently(cfg, s) && acquired.Keys == cfg.quotas.max.Keys
    ensures Step(cfg, WithAcquired(s, acquired), e) ==
            WithAcquired(Step(cfg, s, e), NextAcquired(cfg, s.dummies, acquired, e))
  {
    if e.Admit? { AdmitApart(cfg, s, e, acquired); }
    else if e.Result? { ResultApart(cfg, s, e, acquired); }
    else { OtherApart(cfg, s, e, acquired); }
  }

  function Added(acquired: map<int, nat>, id: int, n: nat): map<int, nat>
    requires id in acquired
  {
    acquired[id := acquired[id] + n]
  }

  // An event that goes the same way whether or not `n` more buffers of the stream are reserved: it
  // neither fails to reserve for want of them nor brings the count below zero without them.
  ghost predicate Indifferent(cfg: Config, s: Session, e: Event, stream: int, n: nat)
    requires Consistently(cfg, s) && Fold(cfg.Groups(), stream) in cfg.quotas.max
  {
    var id := Fold(cfg.Groups(), stream);
    var more := WithAcquired(s, Added(s.counts.acquired, id, n));
    && (e.Reserve? && MayAcquire(cfg.quotas, s.counts, e.stream, e.n) ==>
          MayAcquire(cfg.quotas, more.counts, e.stream, e.n))
    && !Underflows(cfg, s, e)
    && CountOn(cfg.Groups(), GivenBackBy(s, e), id) <= s.counts.acquired[id]
  }

  lemma LoweredMore(q: Quotas, acquired: map<int, nat>, given: seq<StreamBuffer>, id: int, n: nat)
    requires id in acquired && CountOn(q.groups, given, id) <= acquired[id]
    ensures Lowered(q, Added(acquired, id, n), given) == Added(Lowered(q, acquired, given), id, n)
  {
    var a, b := Lowered(q, Added(acquired, id, n), given), Added(Lowered(q, acquired, given), id, n);
    assert a.Keys == b.Keys == acquired.Keys;
    forall k | k in acquired ensures a[k] == b[k] {
      if k == id { MinusMore(acquired[id], CountOn(q.groups, given, id), n); }
    }
  }

  lemma MinusMore(a: nat, b: nat, n: nat)
    requires b <= a
    ensures Minus(a + n, b) == Minus(a, b) + n
  {
  }

  lemma ReservedMore(cfg: Config, acquired: map<int, nat>, e: Event, id: int, n: nat)
    requires acquired.Keys == cfg.quotas.max.Keys && id in acquired && e.Reserve?
    requires
      var counts, more := Counts(map[], acquired, {}), Counts(map[], Added(acquired, id, n), {});
      MayAcquire(cfg.quotas, counts, e.stream, e.n) ==> MayAcquire(cfg.quotas, more, e.stream, e.n)
    ensures NextAcquired(cfg, {}, Added(acquired, id, n), e) == Added(NextAcquired(cfg, {}, acquired, e), id, n)
  {
  }

  lemma UnreservedMore(cfg: Config, acquired: map<int, nat>, e: Event, id: int, n: nat)
    requires acquired.Keys == cfg.quotas.max.Keys && id in acquired && e.Unreserve?
    requires
      var other := Fold(cfg.Groups(), e.stream);
      other in acquired ==> e.n <= acquired[other]
    ensures NextAcquired(cfg, {}, Added(acquired, id, n), e) == Added(NextAcquired(cfg, {}, acquired, e), id, n)
  {
  }

  lemma NextAcquiredMore(cfg: Config, s: Session, e: Event, stream: int, n: nat)
    requires Consistently(cfg, s) && Fold(cfg.Groups(), stream) in cfg.quotas.max
    requires Indifferent(cfg, s, e, stream, n)
    ensures
      var id := Fold(cfg.Groups(), stream);
      NextAcquired(cfg, s.dummies, Added(s.counts.acquired, id, n), e) ==
      Added(NextAcquired(cfg, s.dummies, s.counts.acquired, e), id, n)
  {
    var id := Fold(cfg.Groups(), stream);
    if e.Result? || e.GiveBack? {
      LoweredMore(cfg.quotas, s.counts.acquired, GivenBackBy(s, e), id, n);
    } else if e.Reserve? {
      ReservedMore(cfg, s.counts.acquired, e, id, n);
    } else if e.Unreserve? {
      UnreservedMore(cfg, s.counts.acquired, e, id, n);
    }
  }

  lemma StepIndifferent(cfg: Config, s: Session, e: Event, stream: int, n: nat)
    requires Consistently(cfg, s) && Fold(cfg.Groups(), stream) in cfg.quotas.max
    requires Indifferent(cfg, s, e, stream, n)
    ensures
      Step(cfg, WithMore(cfg, s, stream, n), e) == WithMore(cfg, Step(cfg, s, e), stream, n)
  {
    var id := Fold(cfg.Groups(), stream);
    AcquiredApart(cfg, s, e, Added(s.counts.acquired, id, n));
    AcquiredApart(cfg, s, e, s.counts.acquired);
    NextAcquiredMore(cfg, s, e, stream, n);
    assert WithAcquired(s, s.counts.acquired) == s;
  }

  // All of the events are such, one after the other from the state `s`.
  ghost predicate AllIndifferent(cfg: Config, s: Session, mid: seq<Event>, stream: int, n: nat)
    requires Consistently(cfg, s) && Fold(cfg.Groups(), stream) in cfg.quotas.max
  {
    mid != [] ==>
      var front := mid[..|mid| - 1];
      && AllIndifferent(cfg, s, front, stream, n)
      && Indifferent(cfg, RunFrom(cfg, s, front), mid[|mid| - 1], stream, n)
  }

  // The state with `n` more buffers of the stream acquired.
  function WithMore(cfg: Config, s: Session, stream: int, n: nat): Session
    requires Consistently(cfg, s) && Fold(cfg.Groups(), stream) in cfg.quotas.max
  {
    WithAcquired(s, Added(s.counts.acquired, Fold(cfg.Groups(), stream), n))
  }

  lemma {:induction false} MeanwhileIndifferent(cfg: Config, s: Session, stream: int, n: nat, mid: seq<Event>)
    requires Consistently(cfg, s) && Fold(cfg.Groups(), stream) in cfg.quotas.max
    requires AllIndifferent(cfg, s, mid, stream, n)
    ensures RunFrom(cfg, WithMore(cfg, s, stream, n), mid) == WithMore(cfg, RunFrom(cfg, s, mid), stream, n)
  {
    if mid != [] {
      var front := mid[..|mid| - 1];
      MeanwhileIndifferent(cfg, s, stream, n, front);
      StepIndifferent(cfg, RunFrom(cfg, s, front), mid[|mid| - 1], stream, n);
    }
  }

  lemma ReserveAdds(cfg: Config, s: Session, stream: int, n: nat)
    requires Consistently(cfg, s) && MayAcquire(cfg.quotas, s.counts, stream, n)
    ensures Step(cfg, s, Reserve(stream, n)) == WithMore(cfg, s, stream, n)
  {
  }

  lemma UnreserveDrops(cfg: Config, s: Session, stream: int, n: nat)
    requires Consistently(cfg, s) && Fold(cfg.Groups(), stream) in cfg.quotas.max
    ensures Step(cfg, WithMore(cfg, s, stream, n), Unreserve(stream, n)) == s
  {
    var id := Fold(cfg.Groups(), stream);
    assert s.counts.acquired[id := s.counts.acquired[id] + n][id := s.counts.acquired[id]] == s.counts.acquired;
  }

  // A buffer request that fails leaves no trace: after any events in between that go the same way
  // without it, the whole session is as if the request had not been made.
  lemma {:induction false} FailedAcquisitionRestores(cfg: Config, es: seq<Event>, stream: int, n: nat, mid: seq<Event>)
    requires Folding(cfg.Groups()) && MayAcquire(cfg.quotas, Run(cfg, es).counts, stream, n)
    requires AllIndifferent(cfg, Run(cfg, es), mid, stream, n)
    ensures Run(cfg, es + [Reserve(stream, n)] + mid + [Unreserve(stream, n)]) == Run(cfg, es + mid)
  {
    var s := Run(cfg, es);
    RunNext(cfg, es, Reserve(stream, n));
    ReserveAdds(cfg, s, stream, n);
    RunConcat(cfg, es + [Reserve(stream, n)], mid);
    RunConcat(cfg, es, mid);
    MeanwhileIndifferent(cfg, s, stream, n, mid);
    RunNext(cfg, es + [Reserve(stream, n)] + mid, Unreserve(stream, n));
    UnreserveDrops(cfg, RunFrom(cfg, s, mid), stream, n);
  }
}
