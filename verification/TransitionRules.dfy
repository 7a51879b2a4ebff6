/** Which calls are accepted, what each one leads to, and what a completed request has behind it. */
module TransitionRules {
  import opened DeletionStatus
  import opened KeyStates
  import opened DeletionSteps
  import opened DeletionSafety
  import opened DeletionCalls

  // ----- Which calls are accepted -----

  /** The twelve pairs of statuses a caller can move a request between, one by one. */
  const ACCEPTED: set<(Status, Status)> := {
    (ShredRequested, KeyDestroyed), (ShredRequested, CascadePartialFailure),
    (KeyDestroyed, CascadePending), (KeyDestroyed, CascadePartialFailure),
    (CascadePending, CascadeInProgress), (CascadePending, CascadeComplete), (CascadePending, CascadePartialFailure),
    (CascadeInProgress, CascadeComplete), (CascadeInProgress, CascadePartialFailure),
    (CascadePartialFailure, CascadeInProgress),
    (CascadeComplete, CertificateIssued), (CascadeComplete, CascadePartialFailure)
  }

  lemma TableIs(from: Status, to: Status)
    ensures IsValidTransition(from, to) <==> (from, to) in ACCEPTED
  {
  }

  /** A call starts work, in any interleaving, exactly for these pairs; any other throws at its first step. */
  lemma AcceptedExactlyWhen(m: Shared, tid: nat, t: Thread, c: Choice)
    requires t.pc.Start?
    ensures var e, from, to := StepOf(m, tid, t, c), m.doc.status, t.pc.to;
      if (from, to) in ACCEPTED then e.event == Just(Accepted(t.caller, from, to)) && !e.thread.pc.Done?
      else e.event == Nothing && e.thread == Thrown(t)
    ensures StepOf(m, tid, t, c).shared == m
  {
  }

  /** So it is for whole calls: all other pairs are refused and change nothing. */
  lemma {:induction false} RefusedExactlyWhen(w: World, to: Status, c: Choice)
    ensures AdvanceCall(w, to, c) == Threw(w) <==> (w.doc.status, to) !in ACCEPTED
  {
    if (w.doc.status, to) in ACCEPTED {
      AcceptedShows(w, to, c);
    }
  }

  /** An accepted call returns or leaves a longer history. */
  lemma {:induction false} AcceptedShows(w: World, to: Status, c: Choice)
    requires (w.doc.status, to) in ACCEPTED
    ensures AdvanceCall(w, to, c).Returned? || |AdvanceCall(w, to, c).world.doc.history| > |w.doc.history|
    decreases Rank(to)
  {
    if to.CascadePending? || to.CascadeInProgress? || to.CascadeComplete? {
      AcceptedShows(Written(w, CascadeComplete), CertificateIssued, c);
      if to.CascadePending? {
        AcceptedShows(w, CascadePartialFailure, c);
      }
    }
  }

  // ----- What a call leads to -----

  /** Everything issuing takes: both of the signer's reads, a destroyed key, a signature and a stored object. */
  predicate CanIssue(w: World, c: Choice) {
    c.readOk && (w.key.Shredded? || w.key.Deleted?) && c.signOk && c.storeOk
  }

  /** The status each accepted call ends in, from what the outside world answers. */
  lemma {:induction false} CallEndsIn(w: World, to: Status, c: Choice)
    requires (w.doc.status, to) in ACCEPTED
    ensures var end, issued := AdvanceCall(w, to, c).world.doc.status,
                               if CanIssue(w, c) then CertificateIssued else CascadeComplete;
      match to
      case KeyDestroyed => end == if c.shredOk then KeyDestroyed else ShredRequested
      case CascadePending =>
        end == if c.plan == Planned([], [], []) then issued
               else if c.plan.PlanFailed? then CascadePartialFailure else CascadePending
      case CascadeInProgress =>
        end == if c.plan == Planned([], [], []) then issued
               else if c.plan.PlanFailed? then w.doc.status else CascadeInProgress
      case CascadeComplete => end == issued
      case CascadePartialFailure => end == CascadePartialFailure
      case CertificateIssued => end == issued
      case ShredRequested => false
    decreases Rank(to)
  {
    if to.CascadePending? || to.CascadeInProgress? || to.CascadeComplete? {
      CallEndsIn(Written(w, CascadeComplete), CertificateIssued, c);
    }
  }

  /** And whether a cascade is dispatched: only with a plan that has work, for the two cascading statuses. */
  lemma {:induction false} DispatchesExactlyWhen(w: World, to: Status, c: Choice)
    requires (w.doc.status, to) in ACCEPTED
    ensures AdvanceCall(w, to, c).world.cascades == w.cascades +
      if (to.CascadePending? || to.CascadeInProgress?) && c.plan.Planned?
         && (c.plan.tasks != [] || c.plan.redactions != [] || c.plan.copies != []) then 1 else 0
    decreases Rank(to)
  {
    if to.CascadePending? || to.CascadeInProgress? || to.CascadeComplete? {
      DispatchesExactlyWhen(Written(w, CascadeComplete), CertificateIssued, c);
    }
  }

  /** A cascade that comes back to a cascading request certifies it exactly when nothing at all failed. */
  lemma FinishEndsIn(w: World, c: Choice)
    requires w.cascades > 0 && (w.doc.status.CascadePending? || w.doc.status.CascadeInProgress?)
    ensures FinishCascade(w, c).doc.status ==
      if c.results.Settled? && CanIssue(w, c)
         && (forall i :: 0 <= i < |c.results.janitor| ==> c.results.janitor[i].ok)
         && (forall i :: 0 <= i < |c.results.redactions| ==> c.results.redactions[i].ok)
         && (forall i :: 0 <= i < |c.results.copies| ==> c.results.copies[i].ok)
      then CertificateIssued else CascadePartialFailure
  {
    var w1 := w.(cascades := w.cascades - 1);
    CallEndsIn(w1, CascadePartialFailure, c);
    CallEndsIn(w1, CascadeComplete, c);
    var r := AdvanceCall(w1, CascadeComplete, c);
    if r.world.doc.status.CascadeComplete? {
      CallEndsIn(r.world, CascadePartialFailure, c);
      CompletionThrows(w1, c);
    }
  }

  /** CASCADE_COMPLETE without a certificate is only ever left behind by a call that throws. */
  lemma CompletionThrows(w: World, c: Choice)
    requires w.doc.status.CascadePending? || w.doc.status.CascadeInProgress?
    ensures AdvanceCall(w, CascadeComplete, c).Returned? <==> CanIssue(w, c)
  {
  }

  // ----- No way round the cascade -----

  /** A caller who asks for CASCADE_COMPLETE moves the request only from a cascade that was dispatched. */
  lemma CompletionNeedsACascade(w: World, c: Choice)
    ensures AdvanceCall(w, CascadeComplete, c).world != w ==>
      w.doc.status.CascadePending? || w.doc.status.CascadeInProgress?
  {
    RefusedExactlyWhen(w, CascadeComplete, c);
  }

  /** A call that takes a request past its cascade has itself read a plan with nothing in it. */
  lemma {:induction false} ShortcutReadAnEmptyPlan(w: World, to: Status, c: Choice)
    requires w.doc.status.KeyDestroyed? || w.doc.status.CascadePartialFailure?
    ensures var end := AdvanceCall(w, to, c).world.doc.status;
      end.CascadeComplete? || end.CertificateIssued? ==>
        (to.CascadePending? || to.CascadeInProgress?) && c.plan == Planned([], [], [])
  {
    RefusedExactlyWhen(w, to, c);
    if (w.doc.status, to) in ACCEPTED {
      CallEndsIn(w, to, c);
    }
  }

  // ----- What a completed request has behind it, in every interleaving -----

  /** A plan with nothing in it was read, or a call claimed one of the cascading statuses, to dispatch. */
  predicate Covers(e: Event) {
    || e == PlanRead(Planned([], [], []))
    || (e.Claimed? && (e.to.CascadePending? || e.to.CascadeInProgress?))
  }

  ghost predicate Covered(log: seq<Event>) {
    exists i :: 0 <= i < |log| && Covers(log[i])
  }

  predicate PastCascade(x: Status) {
    x.CascadePending? || x.CascadeInProgress? || x.CascadeComplete? || x.CertificateIssued?
  }

  /** Program counters only reached with a plan or a cascade behind them. */
  predicate NeedsCover(t: Thread) {
    || t.pc.WriteComplete? || Issuing(t.pc)
    || (t.pc.Rollback? && t.pc.back.CascadeComplete?)
    || (t.pc.Claim? && t.pc.from.CascadeComplete?)
  }

  ghost predicate CoverInv(s: State) {
    !Covered(s.log) ==>
      && !PastCascade(s.shared.doc.status)
      && forall i :: 0 <= i < |s.threads| ==> !NeedsCover(s.threads[i])
  }

  lemma EffectCovered(m: Shared, tid: nat, t: Thread, c: Choice)
    requires WellPlaced(t) && !PastCascade(m.doc.status) && !NeedsCover(t)
    ensures var e := StepOf(m, tid, t, c);
      || (e.event.Just? && Covers(e.event.value))
      || (!PastCascade(e.shared.doc.status) && !NeedsCover(e.thread))
  {
  }

  lemma StepCovered(s: State, a: Action)
    requires Placed(s) && CoverInv(s)
    ensures CoverInv(Next(s, a))
  {
    var n := Next(s, a);
    StepLogGrows(s, a);
    if Covered(s.log) {
      var i :| 0 <= i < |s.log| && Covers(s.log[i]);
      assert Covers(n.log[i]);
    } else if a.Step? && a.tid < |s.threads| {
      var e := StepOf(s.shared, a.tid, s.threads[a.tid], a.choice);
      EffectCovered(s.shared, a.tid, s.threads[a.tid], a.choice);
      if e.event.Just? {
        assert n.log[|s.log|] == e.event.value;
      }
    }
  }

  lemma {:induction false} RunCovered(s: State, schedule: seq<Action>)
    requires Placed(s) && CoverInv(s)
    ensures CoverInv(Run(s, schedule))
  {
    if schedule != [] {
      RunCovered(s, schedule[..|schedule| - 1]);
      RunPlaced(s, schedule[..|schedule| - 1]);
      StepCovered(Run(s, schedule[..|schedule| - 1]), schedule[|schedule| - 1]);
    }
  }

  /**
   * In every interleaving a request in CASCADE_COMPLETE or CERTIFICATE_ISSUED has had a plan read with
   * nothing in it, or has been claimed for a cascade, whatever routes asked for.
   */
  lemma CompletionIsCovered(key: KeyState, head: nat, schedule: seq<Action>)
    ensures var s := Run(Created(key, head), schedule);
      s.shared.doc.status.CascadeComplete? || s.shared.doc.status.CertificateIssued? ==>
        exists i :: 0 <= i < |s.log| && Covers(s.log[i])
  {
    RunCovered(Created(key, head), schedule);
  }

  // ----- And in every run of calls -----

  lemma {:induction false} HistoryGrows(w: World, to: Status, c: Choice)
    ensures w.doc.history <= AdvanceCall(w, to, c).world.doc.history
    decreases Rank(to)
  {
    if to.CascadePending? || to.CascadeInProgress? || to.CascadeComplete? {
      HistoryGrows(Written(w, CascadeComplete), CertificateIssued, c);
      if to.CascadePending? {
        HistoryGrows(w, CascadePartialFailure, c);
      }
    }
  }

  ghost predicate Walked(history: seq<Status>) {
    exists k :: 0 <= k < |history| && (history[k].CascadePending? || history[k].CascadeInProgress?)
  }

  lemma WalkedStays(before: seq<Status>, after: seq<Status>)
    requires Walked(before) && before <= after
    ensures Walked(after)
  {
    var k :| 0 <= k < |before| && (before[k].CascadePending? || before[k].CascadeInProgress?);
    assert after[k] == before[k];
  }

  predicate ReadsEmptyPlan(a: CallAction) {
    a.Advance? && a.choice.plan == Planned([], [], [])
  }

  /** Without a cascade behind it a request is before its cascade, and no cascade is outstanding. */
  ghost predicate NotYet(w: World) {
    WorldOk(w) && (!Walked(w.doc.history) ==> w.cascades == 0 && !PastCascade(w.doc.status))
  }

  lemma AdvanceNotYet(w: World, to: Status, c: Choice)
    requires NotYet(w) && c.plan != Planned([], [], [])
    ensures NotYet(AdvanceCall(w, to, c).world)
  {
    var n := AdvanceCall(w, to, c).world;
    AdvanceCallOk(w, to, c);
    HistoryGrows(w, to, c);
    RefusedExactlyWhen(w, to, c);
    if Walked(w.doc.history) {
      WalkedStays(w.doc.history, n.doc.history);
    } else if (w.doc.status, to) in ACCEPTED {
      CallEndsIn(w, to, c);
      DispatchesExactlyWhen(w, to, c);
      assert n.doc.history[|n.doc.history| - 1] == n.doc.status;
    }
  }

  lemma FinishNotYet(w: World, c: Choice)
    requires NotYet(w) && w.cascades > 0
    ensures NotYet(FinishCascade(w, c))
  {
    FinishCascadeOk(w, c);
    var w1 := w.(cascades := w.cascades - 1);
    HistoryGrows(w1, CascadePartialFailure, c);
    HistoryGrows(w1, CascadeComplete, c);
    HistoryGrows(AdvanceCall(w1, CascadePartialFailure, c).world, CascadePartialFailure, c);
    HistoryGrows(AdvanceCall(w1, CascadeComplete, c).world, CascadePartialFailure, c);
    WalkedStays(w.doc.history, FinishCascade(w, c).doc.history);
  }

  lemma {:induction false} RunNotYet(w: World, calls: seq<CallAction>)
    requires NotYet(w) && forall i :: 0 <= i < |calls| ==> !ReadsEmptyPlan(calls[i])
    ensures NotYet(RunCalls(w, calls))
  {
    if calls != [] {
      var before, last := calls[..|calls| - 1], calls[|calls| - 1];
      RunNotYet(w, before);
      assert !ReadsEmptyPlan(last);
      match last {
        case Advance(to, c) => AdvanceNotYet(RunCalls(w, before), to, c);
        case Finish(c) => if RunCalls(w, before).cascades > 0 { FinishNotYet(RunCalls(w, before), c); }
        case _ =>
      }
    }
  }

  /** A completed request has been through a cascading status, or a call has read a plan with nothing in it. */
  lemma {:induction false} RunCompletionIsCovered(key: KeyState, head: nat, calls: seq<CallAction>)
    ensures var d := RunCalls(NewWorld(key, head), calls).doc;
      d.status.CascadeComplete? || d.status.CertificateIssued? ==>
        || (exists k :: 0 <= k < |d.history| && (d.history[k].CascadePending? || d.history[k].CascadeInProgress?))
        || (exists i :: 0 <= i < |calls| && ReadsEmptyPlan(calls[i]))
  {
    if forall i :: 0 <= i < |calls| ==> !ReadsEmptyPlan(calls[i]) {
      RunNotYet(NewWorld(key, head), calls);
    }
  }
}
