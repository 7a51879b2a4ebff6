/** Interleavings that show where the step model's guarantees stop. */
module DeletionRaces {
  import opened DeletionStatus
  import opened KeyStates
  import opened DeletionSteps
  import opened DeletionSafety
  import opened DeletionCalls
  import opened SoloRefinement

  /** Everything a step asks for succeeds, and there is nothing to clean up. */
  const SMOOTH: Choice :=
    Choice(true, true, true, true, true, Planned([], [], []), Settled([], [], []))

  /** As `SMOOTH`, but issuing the certificate fails at its first read. */
  const NO_READ: Choice := SMOOTH.(readOk := false)

  /** There is one task to plan, and destroying the key fails. */
  const ONE_TASK: Choice := SMOOTH.(shredOk := false, plan := Planned(["hubspot"], [], []))

  // ----- Building runs -----

  ghost predicate Reachable(s0: State, s: State) {
    exists schedule :: Run(s0, schedule) == s
  }

  lemma ReachSelf(s: State)
    ensures Reachable(s, s)
  {
    assert Run(s, []) == s;
  }

  lemma ReachNext(s0: State, s: State, a: Action)
    requires Reachable(s0, s)
    ensures Reachable(s0, Next(s, a))
  {
    var schedule :| Run(s0, schedule) == s;
    assert (schedule + [a])[..|schedule|] == schedule;
    assert Run(s0, schedule + [a]) == Next(s, a);
  }

  lemma ReachSolo(s0: State, s: State, tid: nat, c: Choice, k: nat)
    requires Reachable(s0, s)
    ensures Reachable(s0, Solo(s, tid, c, k))
  {
    var schedule :| Run(s0, schedule) == s;
    RunJoins(s0, schedule, Repeat(Step(tid, c), k));
  }

  lemma ReachCalls(key: KeyState, calls: seq<CallAction>) returns (s: State)
    ensures Reachable(Created(key, 0), s) && Quiet(s) && View(s) == RunCalls(NewWorld(key, 0), calls)
  {
    CallRunsAreStepRuns(key, 0, calls);
    var w := RunCalls(NewWorld(key, 0), calls);
    var schedule :| Quiet(Run(Created(key, 0), schedule)) && View(Run(Created(key, 0), schedule)) == w;
    s := Run(Created(key, 0), schedule);
  }

  lemma CallsOne(w: World, a: CallAction)
    ensures RunCalls(w, [a]) == NextCall(w, a)
  {
  }

  lemma CallsTwo(w: World, a: CallAction, b: CallAction)
    ensures RunCalls(w, [a, b]) == NextCall(NextCall(w, a), b)
  {
    assert [a, b][..1] == [a];
    CallsOne(w, a);
  }

  /** A new call has read the document and passed the table. */
  function WithCall(s: State, to: Status): State {
    var from := s.shared.doc.status;
    State(s.shared, s.threads + [Thread(External, Dispatch(from, to))], s.log + [Accepted(External, from, to)])
  }

  lemma ReachCall(s0: State, s: State, to: Status)
    requires Reachable(s0, s) && IsValidTransition(s.shared.doc.status, to)
    ensures Reachable(s0, WithCall(s, to))
  {
    var called := Next(s, Call(to));
    ReachNext(s0, s, Call(to));
    ReachNext(s0, called, Step(|s.threads|, SMOOTH));
    assert Next(called, Step(|s.threads|, SMOOTH)) == WithCall(s, to);
  }

  function WithPlan(s: State, tid: nat, c: Choice, pc: Pc): State
    requires tid < |s.threads|
  {
    Apply(s, tid, Effect(s.shared, Just(PlanRead(c.plan)), s.threads[tid].(pc := pc), false))
  }

  lemma ReachPlan(s0: State, s: State, tid: nat, c: Choice)
    requires Reachable(s0, s) && tid < |s.threads| && s.threads[tid].pc.ReadPlan? && c.plan.Planned?
    ensures Reachable(s0, WithPlan(s, tid, c,
      if NothingToDo(c.plan) then WriteComplete else Claim(s.threads[tid].pc.from, s.threads[tid].pc.to)))
  {
    ReachNext(s0, s, Step(tid, c));
  }

  /** A thread has won the claim it was placed at. */
  function WithClaim(s: State, tid: nat, to: Status): State
    requires tid < |s.threads|
  {
    var from := s.shared.doc.status;
    Apply(s, tid, Effect(SetStatus(s.shared, to), Just(Claimed(tid, from, to)),
                         s.threads[tid].(pc := AfterClaim(from, to)), false))
  }

  lemma ReachClaim(s0: State, s: State, tid: nat, to: Status)
    requires Reachable(s0, s) && tid < |s.threads| && s.threads[tid].pc == Claim(s.shared.doc.status, to)
    ensures Reachable(s0, WithClaim(s, tid, to))
  {
    ReachNext(s0, s, Step(tid, SMOOTH));
  }

  /** A thread has written `back` over whatever the status was, and thrown. */
  function WithRollback(s: State, tid: nat, back: Status): State
    requires tid < |s.threads|
  {
    Apply(s, tid, Effect(SetStatus(s.shared, back), Just(Overwrote(s.shared.doc.status, back)),
                         s.threads[tid].(pc := Done(false)), false))
  }

  /** Two steps: the side effect after a claim fails, and the call rolls back. */
  lemma ReachRollback(s0: State, s: State, tid: nat, back: Status)
    requires Reachable(s0, s) && tid < |s.threads| && s.threads[tid].caller.External?
    requires s.threads[tid].pc == ShredKey(back) || s.threads[tid].pc == ReadKey(back)
    ensures Reachable(s0, WithRollback(s, tid, back))
  {
    var c := NO_READ.(shredOk := false);
    var n := Next(s, Step(tid, c));
    assert n == s.(threads := s.threads[tid := s.threads[tid].(pc := Rollback(back))]);
    ReachNext(s0, s, Step(tid, c));
    ReachNext(s0, n, Step(tid, c));
    assert s.threads[tid := s.threads[tid].(pc := Done(false))] == n.threads[tid := s.threads[tid].(pc := Done(false))];
    assert Next(n, Step(tid, c)) == WithRollback(s, tid, back);
  }

  // ----- Two chained certificates for one request -----

  /** A call for CASCADE_PENDING that has found all plans empty and is about to write CASCADE_COMPLETE. */
  lemma AboutToComplete(s0: State, s: State) returns (n: State)
    requires Reachable(s0, s) && s.shared.doc.status.KeyDestroyed?
    ensures Reachable(s0, n) && n.shared == s.shared
    ensures n.threads == s.threads + [Thread(External, WriteComplete)]
    ensures View(n).issued == View(s).issued
  {
    ReachCall(s0, s, CascadePending);
    var m := WithCall(s, CascadePending);
    CountAppend(s.log, Accepted(External, s.shared.doc.status, CascadePending), IssuanceSuccess);
    ReachPlan(s0, m, |s.threads|, SMOOTH);
    n := WithPlan(m, |s.threads|, SMOOTH, WriteComplete);
    CountAppend(m.log, PlanRead(SMOOTH.plan), IssuanceSuccess);
  }

  /** A call about to write CASCADE_COMPLETE runs to its end and stores a certificate. */
  lemma IssueFrom(s0: State, s: State, tid: nat) returns (n: State)
    requires Reachable(s0, s) && Gone(s.shared.key)
    requires tid < |s.threads| && s.threads[tid] == Thread(External, WriteComplete)
    ensures Reachable(s0, n) && n.shared.key == s.shared.key && |s.threads| <= |n.threads|
    ensures View(n).issued == View(s).issued + 1 && n.shared.head == s.shared.head + 1
    ensures forall i :: 0 <= i < |s.threads| && i != tid ==> n.threads[i] == s.threads[i]
  {
    var r := AdvanceCall(Written(View(s), CascadeComplete), CertificateIssued, SMOOTH);
    assert r.world.issued == View(s).issued + 1 && r.world.head == View(s).head + 1 && r.world.key == View(s).key;
    FromWriteComplete(Local(View(s), s.threads[tid]), tid, SMOOTH);
    var k := SoloCall(s, tid, SMOOTH, r);
    ReachSolo(s0, s, tid, SMOOTH, k);
    n := Solo(s, tid, SMOOTH, k);
  }

  /**
   * Two calls that both find nothing to clean up each write CASCADE_COMPLETE unconditionally,
   * the second over CERTIFICATE_ISSUED, and one request ends with two certificates on the chain. (In the
   * bucket the second may replace the first: an object is named by request and day.)
   */
  lemma OneRequestCanGetTwoCertificates()
    ensures exists s ::
      Reachable(Created(Active, 0), s) && Count(s.log, IssuanceSuccess) == 2 && s.shared.head == 2
  {
    var s0 := Created(Active, 0);
    CallsOne(NewWorld(Active, 0), Advance(KeyDestroyed, SMOOTH));
    var s := ReachCalls(Active, [Advance(KeyDestroyed, SMOOTH)]);
    assert View(s).issued == 0 && View(s).key.Shredded? && View(s).doc.status.KeyDestroyed?;
    var t := |s.threads|;
    s := AboutToComplete(s0, s);
    s := AboutToComplete(s0, s);
    s := IssueFrom(s0, s, t);
    s := IssueFrom(s0, s, t + 1);
  }

  // ----- Stale claims -----

  ghost predicate Contenders(s: State, t: nat, u: nat) {
    && t < u < |s.threads| && s.shared.doc.status.CascadeComplete?
    && s.threads[t].pc == s.threads[u].pc == Claim(CascadeComplete, CertificateIssued)
  }

  /** From any two contenders: one claims, fails and rolls back, and the other claims too. */
  lemma BothClaim(s: State, t: nat, u: nat) returns (n: State)
    requires Contenders(s, t, u) && s.threads[t].caller.External?
    ensures Reachable(s, n)
    ensures n.log == s.log + [Claimed(t, CascadeComplete, CertificateIssued),
      Overwrote(CertificateIssued, CascadeComplete), Claimed(u, CascadeComplete, CertificateIssued)]
  {
    ReachSelf(s);
    ReachClaim(s, s, t, CertificateIssued);
    var s1 := WithClaim(s, t, CertificateIssued);
    ReachRollback(s, s1, t, CascadeComplete);
    var s2 := WithRollback(s1, t, CascadeComplete);
    ReachClaim(s, s2, u, CertificateIssued);
    n := WithClaim(s2, u, CertificateIssued);
  }

  /**
   * The claim compares statuses, not visits: of two calls that read the same visit to
   * CASCADE_COMPLETE, both start an issuance when the first one fails and rolls back.
   */
  lemma StaleClaimCanWin()
    ensures exists s, t: nat, u: nat, n ::
      && Reachable(Created(Active, 0), s) && Contenders(s, t, u) && Reachable(s, n)
      && n.log == s.log + [Claimed(t, CascadeComplete, CertificateIssued),
           Overwrote(CertificateIssued, CascadeComplete), Claimed(u, CascadeComplete, CertificateIssued)]
  {
    var s0, w0 := Created(Active, 0), NewWorld(Active, 0);
    var a, b := Advance(KeyDestroyed, SMOOTH), Advance(CascadePending, NO_READ);
    CallsTwo(w0, a, b);
    var s := ReachCalls(Active, [a, b]);
    assert View(s).doc.status.CascadeComplete?;
    var t := |s.threads|;
    ReachCall(s0, s, CertificateIssued);
    s := WithCall(s, CertificateIssued);
    ReachCall(s0, s, CertificateIssued);
    s := WithCall(s, CertificateIssued);
    var n := BothClaim(s, t, t + 1);
  }

  // ----- A rollback that undoes someone else's progress -----

  /** One call has claimed KEY_DESTROYED and not destroyed the key yet. */
  lemma ClaimPending() returns (s: State)
    ensures Reachable(Created(Active, 0), s) && s.shared.doc.status.KeyDestroyed?
    ensures s.threads == [Thread(External, ShredKey(ShredRequested))]
    ensures s.log == [Accepted(External, ShredRequested, KeyDestroyed), Claimed(0, ShredRequested, KeyDestroyed)]
  {
    var s0 := Created(Active, 0);
    ReachSelf(s0);
    ReachCall(s0, s0, KeyDestroyed);
    s := WithCall(s0, KeyDestroyed);
    ReachClaim(s0, s, 0, KeyDestroyed);
    s := WithClaim(s, 0, KeyDestroyed);
  }

  /** Another has claimed CASCADE_PENDING meanwhile. */
  lemma KeyStillPending() returns (s: State)
    ensures Reachable(Created(Active, 0), s)
    ensures s.shared.doc.status.CascadePending? && |s.threads| == 2
    ensures s.threads[0] == Thread(External, ShredKey(ShredRequested))
    ensures s.log == [Accepted(External, ShredRequested, KeyDestroyed), Claimed(0, ShredRequested, KeyDestroyed),
      Accepted(External, KeyDestroyed, CascadePending), PlanRead(ONE_TASK.plan),
      Claimed(1, KeyDestroyed, CascadePending)]
  {
    var s0 := Created(Active, 0);
    s := ClaimPending();
    ReachCall(s0, s, CascadePending);
    s := WithCall(s, CascadePending);
    ReachPlan(s0, s, 1, ONE_TASK);
    s := WithPlan(s, 1, ONE_TASK, Claim(KeyDestroyed, CascadePending));
    ReachClaim(s0, s, 1, CascadePending);
    s := WithClaim(s, 1, CascadePending);
  }

  /**
   * Between a call's claim of KEY_DESTROYED and its failing key destruction another call can
   * move the request on; the rollback then overwrites CASCADE_PENDING with SHRED_REQUESTED.
   */
  lemma RollbackCanOverwriteProgress()
    ensures exists s, n ::
      && Reachable(Created(Active, 0), s) && Reachable(s, n)
      && s.shared.doc.status.CascadePending? && n.shared.doc.status.ShredRequested?
      && n.log == s.log + [Overwrote(CascadePending, ShredRequested)]
  {
    var s := KeyStillPending();
    ReachSelf(s);
    ReachRollback(s, s, 0, ShredRequested);
    var n := WithRollback(s, 0, ShredRequested);
    assert n.log == s.log + [Overwrote(CascadePending, ShredRequested)];
  }

  // ----- Completed statuses prove less than they seem to -----

  /** CASCADE_COMPLETE is reachable with a live key, along SHRED_REQUESTED to CASCADE_PARTIAL_FAILURE. */
  lemma CompletedWithALiveKey()
    ensures exists s :: Reachable(Created(Active, 0), s) && s.shared.doc.status.CascadeComplete? && s.shared.key.Active?
  {
    var w0 := NewWorld(Active, 0);
    var a, b := Advance(CascadePartialFailure, SMOOTH), Advance(CascadeInProgress, SMOOTH);
    CallsTwo(w0, a, b);
    var w1 := Written(w0, CascadePartialFailure);
    assert NextCall(w0, a) == w1;
    assert NextCall(w1, b) == AdvanceCall(Written(w1, CascadeComplete), CertificateIssued, SMOOTH).world;
    var s := ReachCalls(Active, [a, b]);
    assert View(s).doc.status.CascadeComplete? && View(s).key.Active?;
  }

  /** A route that asks for CASCADE_COMPLETE itself gets there with nothing inspected or cleaned up. */
  lemma CompletedOnRequestAlone()
    ensures exists s ::
      && Reachable(Created(Active, 0), s) && s.shared.doc.status.CascadeComplete?
      && forall i :: 0 <= i < |s.log| ==> !Inspects(s.log[i])
  {
    var s := KeyStillPending();
    var s0 := Created(Active, 0);
    ReachCall(s0, s, CascadeComplete);
    var m := WithCall(s, CascadeComplete);
    ReachNext(s0, m, Step(2, SMOOTH));
    var n := Next(m, Step(2, SMOOTH));
    assert n.log == s.log + [Accepted(External, CascadePending, CascadeComplete),
                             Overwrote(CascadePending, CascadeComplete)];
  }
}
