// The throttle over whole runs: no stream is overdrawn.
module SessionQuotas {
  import opened HalTypes
  import opened StreamGroups
  import opened RequestsTracker
  import opened SessionModel

  // No request puts more than `m` buffers on one stream or stream group.
  ghost predicate RequestsAtMost(cfg: Config, es: seq<Event>, m: nat) {
    forall i :: 0 <= i < |es| && es[i].Admit? ==> AtMostOnEach(cfg.quotas, es[i].outputs, m)
  }

  // A reservation is taken back that is not in the count: the unsigned subtraction wraps around.
  predicate Underflows(cfg: Config, s: Session, e: Event)
    requires s.counts.acquired.Keys == cfg.quotas.max.Keys
  {
    && e.Unreserve?
    && var id := Fold(cfg.Groups(), e.stream);
    id in cfg.quotas.max && s.counts.acquired[id] < e.n
  }

  ghost predicate NeverUnderflows(cfg: Config, es: seq<Event>)
    requires Folding(cfg.Groups())
  {
    es != [] ==>
      && NeverUnderflows(cfg, es[..|es| - 1])
      && !Underflows(cfg, Run(cfg, es[..|es| - 1]), es[|es| - 1])
  }

  // ---------- What each step does to the counts ----------

  lemma ResultCounts(cfg: Config, s: Session, e: Event)
    requires Consistently(cfg, s) && e.Result?
    ensures Step(cfg, s, e).counts == Returned(cfg, s.counts, e.outputs, Real(s.dummies, e.outputs))
  {
    if !IsDummyResult(s, e.frame, e.outputs) { NoDummiesAreReal(s.dummies, e.outputs); }
  }

  lemma {:induction false} NoDummiesAreReal(dummies: set<nat>, outputs: seq<StreamBuffer>)
    requires !HasDummy(dummies, outputs)
    ensures Real(dummies, outputs) == outputs
  {
    if outputs != [] {
      var front, b := outputs[..|outputs| - 1], outputs[|outputs| - 1];
      assert outputs == front + [b];
      assert forall x :: x in front ==> x in outputs;
      assert b in outputs;
      NoDummiesAreReal(dummies, front);
    }
  }

  lemma AdmitAcquired(cfg: Config, s: Session, e: Event)
    requires Consistently(cfg, s) && e.Admit?
    ensures Step(cfg, s, e).counts.acquired == s.counts.acquired
  {
  }

  // ---------- Pending buffers ----------

  lemma LoweredWithin(q: Quotas, t: Counts, pending: seq<StreamBuffer>, acquired: map<int, nat>, m: nat)
    requires PendingWithin(q, t, m) && acquired.Keys == q.max.Keys
    ensures PendingWithin(q, t.(pending := Lowered(q, t.pending, pending), acquired := acquired), m)
  {
  }

  lemma AdmitWithin(cfg: Config, s: Session, e: Event, m: nat)
    requires PendingWithin(cfg.quotas, s.counts, m) && e.Admit? && AtMostOnEach(cfg.quotas, e.outputs, m)
    ensures PendingWithin(cfg.quotas, Step(cfg, s, e).counts, m)
  {
    var t := Refreshed(s).counts;
    if Enough(cfg.quotas, t, e.outputs) {
      AdmissionKeepsQuotas(cfg.quotas, t, e.outputs, m);
      LoweredWithin(cfg.quotas, Admitted(cfg.quotas, t, e.outputs), e.outputs, t.acquired, m);
    }
  }

  lemma OtherPending(cfg: Config, s: Session, e: Event)
    requires Consistently(cfg, s) && !e.Admit? && !e.Result?
    ensures Step(cfg, s, e).counts.pending == s.counts.pending
  {
  }

  lemma StepPendingWithin(cfg: Config, s: Session, e: Event, m: nat)
    requires PendingWithin(cfg.quotas, s.counts, m)
    requires e.Admit? ==> AtMostOnEach(cfg.quotas, e.outputs, m)
    ensures PendingWithin(cfg.quotas, Step(cfg, s, e).counts, m)
  {
    if e.Admit? {
      AdmitWithin(cfg, s, e, m);
    } else if e.Result? {
      ResultCounts(cfg, s, e);
      LoweredWithin(cfg.quotas, s.counts, e.outputs,
                    Lowered(cfg.quotas, s.counts.acquired, Real(s.dummies, e.outputs)), m);
    } else {
      OtherPending(cfg, s, e);
    }
  }

  // Throttle bound: in every run at most max[s] - 1 + m buffers are pending.
  lemma {:induction false} RunPendingWithin(cfg: Config, es: seq<Event>, m: nat)
    requires Folding(cfg.Groups()) && RequestsAtMost(cfg, es, m)
    ensures PendingWithin(cfg.quotas, Run(cfg, es).counts, m)
  {
    if es != [] {
      var before := es[..|es| - 1];
      assert forall i :: 0 <= i < |before| ==> before[i] == es[i];
      RunPendingWithin(cfg, before, m);
      StepPendingWithin(cfg, Run(cfg, before), es[|es| - 1], m);
    }
  }

  // ---------- Acquired buffers ----------

  lemma StepAcquiredWithin(cfg: Config, s: Session, e: Event)
    requires AcquiredWithin(cfg.quotas, s.counts) && !Underflows(cfg, s, e)
    ensures AcquiredWithin(cfg.quotas, Step(cfg, s, e).counts)
  {
    if e.Admit? { AdmitAcquired(cfg, s, e); }
    else if e.Result? { ResultCounts(cfg, s, e); }
  }

  // Throttle bound: at most max[s] buffers are acquired in every run without an underflow.
  lemma {:induction false} RunAcquiredWithin(cfg: Config, es: seq<Event>)
    requires Folding(cfg.Groups()) && NeverUnderflows(cfg, es)
    ensures AcquiredWithin(cfg.quotas, Run(cfg, es).counts)
  {
    if es != [] {
      RunAcquiredWithin(cfg, es[..|es| - 1]);
      StepAcquiredWithin(cfg, Run(cfg, es[..|es| - 1]), es[|es| - 1]);
    }
  }
}
