/** What holds in every interleaving of the step model, from any state it starts in. */
module DeletionSafety {
  import opened DeletionStatus
  import opened KeyStates
  import opened DeletionSteps

  // ----- Conservation of status visits -----

  datatype Kind =
    | Entry(status: Status)
    | ClaimOut(status: Status)
    | OverwriteOut(status: Status)
    | IssuanceStart
    | IssuanceSuccess

  predicate Is(e: Event, k: Kind) {
    match k
    case Entry(x) => (e.Claimed? || e.Overwrote?) && e.to == x
    case ClaimOut(x) => e.Claimed? && e.from == x
    case OverwriteOut(x) => e.Overwrote? && e.from == x
    case IssuanceStart => e.Claimed? && e.to.CertificateIssued?
    case IssuanceSuccess => e.Issued?
  }

  function Count(log: seq<Event>, k: Kind): nat {
    if log == [] then 0
    else Count(log[..|log| - 1], k) + if Is(log[|log| - 1], k) then 1 else 0
  }

  lemma CountAppend(log: seq<Event>, e: Event, k: Kind)
    ensures Count(log + [e], k) == Count(log, k) + if Is(e, k) then 1 else 0
  {
  }

  lemma {:induction false} CountConcat(a: seq<Event>, b: seq<Event>, k: Kind)
    ensures Count(a + b, k) == Count(a, k) + Count(b, k)
  {
    if b == [] {
      assert a + b == a;
    } else {
      var front, last := b[..|b| - 1], b[|b| - 1];
      assert (a + b)[..|a + b| - 1] == a + front;
      CountConcat(a, front, k);
    }
  }

  /** 1 while the document is in `x`. */
  function Here(m: Shared, x: Status): nat {
    if m.doc.status == x then 1 else 0
  }

  /** Visits to `x` that were entered and neither claimed away, overwritten, nor still open. */
  function Balance(s: State, x: Status): int {
    Count(s.log, Entry(x)) - Count(s.log, ClaimOut(x)) - Count(s.log, OverwriteOut(x)) - Here(s.shared, x)
  }

  predicate MovesStatus(e: Event) {
    e.Claimed? || e.Overwrote?
  }

  /** The status moves exactly along the status event a step logs. */
  predicate StatusFollows(m: Shared, e: Effect) {
    if e.event.Just? && MovesStatus(e.event.value)
    then e.event.value.from == m.doc.status && e.event.value.to == e.shared.doc.status
    else e.shared.doc.status == m.doc.status
  }

  lemma EffectFollows(m: Shared, tid: nat, t: Thread, c: Choice)
    ensures StatusFollows(m, StepOf(m, tid, t, c))
  {
  }

  lemma {:induction false} ApplyBalance(s: State, tid: nat, e: Effect, x: Status)
    requires tid < |s.threads| && StatusFollows(s.shared, e)
    ensures Balance(Apply(s, tid, e), x) == Balance(s, x)
  {
    if e.event.Just? {
      CountAppend(s.log, e.event.value, Entry(x));
      CountAppend(s.log, e.event.value, ClaimOut(x));
      CountAppend(s.log, e.event.value, OverwriteOut(x));
    }
  }

  lemma StepLogGrows(s: State, a: Action)
    ensures s.log <= Next(s, a).log
  {
  }

  lemma StepBalance(s: State, a: Action, x: Status)
    ensures Balance(Next(s, a), x) == Balance(s, x)
  {
    if a.Step? && a.tid < |s.threads| {
      EffectFollows(s.shared, a.tid, s.threads[a.tid], a.choice);
      ApplyBalance(s, a.tid, StepOf(s.shared, a.tid, s.threads[a.tid], a.choice), x);
    }
  }

  lemma {:induction false} RunBalance(s: State, schedule: seq<Action>, x: Status)
    ensures s.log <= Run(s, schedule).log
    ensures Balance(Run(s, schedule), x) == Balance(s, x)
  {
    if schedule != [] {
      var before, a := schedule[..|schedule| - 1], schedule[|schedule| - 1];
      RunBalance(s, before, x);
      StepBalance(Run(s, before), a, x);
      StepLogGrows(Run(s, before), a);
    }
  }

  /** What a stretch of a run added to the log. */
  function Segment(s: State, schedule: seq<Action>): seq<Event>
    requires s.log <= Run(s, schedule).log
  {
    Run(s, schedule).log[|s.log|..]
  }

  /**
   * Every visit to a status that is open at the start of a stretch or entered during it
   * is either claimed away once, overwritten once, or still open at the end.
   */
  lemma VisitsAreConserved(s: State, schedule: seq<Action>, x: Status)
    ensures s.log <= Run(s, schedule).log
    ensures var seg := Segment(s, schedule);
      Here(s.shared, x) + Count(seg, Entry(x))
      == Count(seg, ClaimOut(x)) + Count(seg, OverwriteOut(x)) + Here(Run(s, schedule).shared, x)
  {
    RunBalance(s, schedule, x);
    var seg := Segment(s, schedule);
    assert Run(s, schedule).log == s.log + seg;
    CountConcat(s.log, seg, Entry(x));
    CountConcat(s.log, seg, ClaimOut(x));
    CountConcat(s.log, seg, OverwriteOut(x));
  }

  // ----- What each program counter has already established -----

  /** A claim is only ever attempted for an edge of the table, and a side effect knows its source. */
  predicate WellPlaced(t: Thread) {
    && !t.pc.TailWrite?
    && (t.pc.Done? || (t.caller.Reader? <==> Reading(t.pc)))
    && (t.caller.Recovery? ==> t.pc.Done? || ((t.pc.Start? || t.pc.Claim? || t.pc.Attach?)
                                              && t.pc.to.CascadePartialFailure?))
    && (t.pc.Claim? ==> IsValidTransition(t.pc.from, t.pc.to) && !t.pc.to.CascadeComplete?)
    && (t.pc.ReadPlan? ==> IsValidTransition(t.pc.from, t.pc.to) && Cascading(t.pc.to))
    && (t.pc.ShredKey? ==> t.pc.from.ShredRequested?)
    && (Issuing(t.pc) ==> t.pc.from.CascadeComplete?)
    && (t.pc.Rollback? ==> t.pc.back.ShredRequested? || t.pc.back.CascadeComplete?)
  }

  ghost predicate Placed(s: State) {
    forall i :: 0 <= i < |s.threads| ==> WellPlaced(s.threads[i])
  }

  lemma AdvancePlaced(m: Shared, tid: nat, t: Thread, c: Choice)
    requires WellPlaced(t) && !Issuing(t.pc) && !Reading(t.pc)
    ensures WellPlaced(StepAdvance(m, tid, t, c).thread)
  {
  }

  lemma CertificatePlaced(m: Shared, tid: nat, t: Thread, c: Choice)
    requires WellPlaced(t) && (Issuing(t.pc) || Reading(t.pc))
    ensures WellPlaced(StepCertificate(m, tid, t, c).thread)
  {
  }

  lemma EffectPlaced(m: Shared, tid: nat, t: Thread, c: Choice)
    requires WellPlaced(t)
    ensures WellPlaced(StepOf(m, tid, t, c).thread)
  {
    if Issuing(t.pc) || Reading(t.pc) {
      CertificatePlaced(m, tid, t, c);
    } else {
      AdvancePlaced(m, tid, t, c);
    }
  }

  lemma StepPlaced(s: State, a: Action)
    requires Placed(s)
    ensures Placed(Next(s, a))
  {
    if a.Step? && a.tid < |s.threads| {
      EffectPlaced(s.shared, a.tid, s.threads[a.tid], a.choice);
    }
  }

  lemma {:induction false} RunPlaced(s: State, schedule: seq<Action>)
    requires Placed(s)
    ensures Placed(Run(s, schedule))
  {
    if schedule != [] {
      RunPlaced(s, schedule[..|schedule| - 1]);
      StepPlaced(Run(s, schedule[..|schedule| - 1]), schedule[|schedule| - 1]);
    }
  }

  // ----- Certificate issuances -----

  /** Claims out of CASCADE_COMPLETE that did not start an issuance. */
  function Spare(s: State): int {
    Count(s.log, ClaimOut(CascadeComplete)) - Count(s.log, IssuanceStart)
  }

  /** A claim to CERTIFICATE_ISSUED is always won from CASCADE_COMPLETE. */
  lemma IssuanceClaims(m: Shared, tid: nat, t: Thread, c: Choice)
    requires WellPlaced(t)
    ensures var e := StepOf(m, tid, t, c).event;
      e.Just? && e.value.Claimed? && e.value.to.CertificateIssued? ==> e.value.from.CascadeComplete?
  {
  }

  lemma StepSpare(s: State, a: Action)
    requires Placed(s)
    ensures Spare(s) <= Spare(Next(s, a))
  {
    if a.Step? && a.tid < |s.threads| {
      var e := StepOf(s.shared, a.tid, s.threads[a.tid], a.choice);
      IssuanceClaims(s.shared, a.tid, s.threads[a.tid], a.choice);
      if e.event.Just? {
        CountAppend(s.log, e.event.value, ClaimOut(CascadeComplete));
        CountAppend(s.log, e.event.value, IssuanceStart);
      }
    }
  }

  lemma {:induction false} RunSpare(s: State, schedule: seq<Action>)
    requires Placed(s)
    ensures Spare(s) <= Spare(Run(s, schedule))
  {
    if schedule != [] {
      RunSpare(s, schedule[..|schedule| - 1]);
      RunPlaced(s, schedule[..|schedule| - 1]);
      StepSpare(Run(s, schedule[..|schedule| - 1]), schedule[|schedule| - 1]);
    }
  }

  /**
   * In any stretch of any run, at most one issuance starts for each visit to
   * CASCADE_COMPLETE that is open when the stretch begins or is entered during it.
   */
  lemma IssuancesAreBounded(s: State, schedule: seq<Action>)
    requires Placed(s)
    ensures s.log <= Run(s, schedule).log
    ensures var seg := Segment(s, schedule);
      Count(seg, IssuanceStart) + Here(Run(s, schedule).shared, CascadeComplete)
      <= Here(s.shared, CascadeComplete) + Count(seg, Entry(CascadeComplete))
  {
    VisitsAreConserved(s, schedule, CascadeComplete);
    RunSpare(s, schedule);
    var seg := Segment(s, schedule);
    assert Run(s, schedule).log == s.log + seg;
    CountConcat(s.log, seg, IssuanceStart);
    CountConcat(s.log, seg, ClaimOut(CascadeComplete));
  }

  // ----- Evidence behind a completed request -----

  /** A plan with nothing in it was read, or a cascade came back in which nothing failed. */
  predicate Inspects(e: Event) {
    || e == PlanRead(Planned([], [], []))
    || (e.CascadeRan? && e.results.Settled?
        && (forall i :: 0 <= i < |e.results.janitor| ==> e.results.janitor[i].ok)
        && (forall i :: 0 <= i < |e.results.redactions| ==> e.results.redactions[i].ok)
        && (forall i :: 0 <= i < |e.results.copies| ==> e.results.copies[i].ok))
  }

  /** A plan check that found nothing, a cascade run that failed nowhere, or a route asking for it. */
  predicate Proves(e: Event) {
    || Inspects(e)
    || (e.Accepted? && e.caller.External? && e.to.CascadeComplete?)
  }

  ghost predicate Evidence(log: seq<Event>) {
    exists i :: 0 <= i < |log| && Proves(log[i])
  }

  /** Program counters only reachable once there is evidence. */
  predicate RestsOnEvidence(t: Thread) {
    || t.pc.WriteComplete?
    || Issuing(t.pc)
    || (t.pc.Rollback? && t.pc.back.CascadeComplete?)
    || (t.caller.Handler? && t.pc.Start? && t.pc.to.CascadeComplete?)
  }

  ghost predicate Backed(s: State) {
    !Evidence(s.log) ==>
      && !Completed(s.shared.doc.status)
      && Count(s.log, IssuanceStart) == 0
      && forall i :: 0 <= i < |s.threads| ==> !RestsOnEvidence(s.threads[i])
  }

  lemma EffectBacked(m: Shared, tid: nat, t: Thread, c: Choice)
    requires WellPlaced(t) && !Completed(m.doc.status) && !RestsOnEvidence(t)
    ensures var e := StepOf(m, tid, t, c);
      || (e.event.Just? && Proves(e.event.value))
      || (!RestsOnEvidence(e.thread) && !Completed(e.shared.doc.status)
          && (e.event.Just? ==> !Is(e.event.value, IssuanceStart)))
  {
  }

  lemma EvidenceStays(log: seq<Event>, more: seq<Event>)
    requires Evidence(log) && log <= more
    ensures Evidence(more)
  {
    var i :| 0 <= i < |log| && Proves(log[i]);
    assert Proves(more[i]);
  }

  lemma ApplyBacked(s: State, tid: nat, e: Effect)
    requires Backed(s) && !Evidence(s.log) && tid < |s.threads|
    requires || (e.event.Just? && Proves(e.event.value))
             || (!RestsOnEvidence(e.thread) && !Completed(e.shared.doc.status)
                 && (e.event.Just? ==> !Is(e.event.value, IssuanceStart)))
    ensures Backed(Apply(s, tid, e))
  {
    if e.event.Just? {
      assert Apply(s, tid, e).log[|s.log|] == e.event.value;
      CountAppend(s.log, e.event.value, IssuanceStart);
    }
  }

  lemma StepBacked(s: State, a: Action)
    requires Placed(s) && Backed(s)
    ensures Backed(Next(s, a))
  {
    StepLogGrows(s, a);
    if Evidence(s.log) {
      EvidenceStays(s.log, Next(s, a).log);
    } else if a.Step? && a.tid < |s.threads| {
      EffectBacked(s.shared, a.tid, s.threads[a.tid], a.choice);
      ApplyBacked(s, a.tid, StepOf(s.shared, a.tid, s.threads[a.tid], a.choice));
    }
  }

  lemma {:induction false} RunBacked(s: State, schedule: seq<Action>)
    requires Placed(s) && Backed(s)
    ensures Backed(Run(s, schedule))
  {
    if schedule != [] {
      RunBacked(s, schedule[..|schedule| - 1]);
      RunPlaced(s, schedule[..|schedule| - 1]);
      StepBacked(Run(s, schedule[..|schedule| - 1]), schedule[|schedule| - 1]);
    }
  }

  /**
   * In every run from a fresh request, CASCADE_COMPLETE, CERTIFICATE_ISSUED and every started
   * issuance rest on an empty plan check, a clean cascade run, or a route that itself asked
   * for CASCADE_COMPLETE.
   */
  lemma CompletedRestsOnEvidence(key: KeyState, head: nat, schedule: seq<Action>)
    ensures var s := Run(Created(key, head), schedule);
      && (s.shared.doc.status.CascadeComplete? || s.shared.doc.status.CertificateIssued? ==> Evidence(s.log))
      && (Count(s.log, IssuanceStart) > 0 ==> Evidence(s.log))
  {
    RunBacked(Created(key, head), schedule);
  }
}
