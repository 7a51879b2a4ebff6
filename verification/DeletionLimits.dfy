/**
 * Exactly when a status lasts. From KEY_DESTROYED and from CERTIFICATE_ISSUED some threads in flight,
 * and some calls that may still arrive, can move the request on; without them no schedule does.
 */
module DeletionLimits {
  import opened DeletionStatus
  import opened KeyStates
  import opened DeletionSteps
  import opened DeletionSafety
  import opened DeletionCalls
  import opened SoloRefinement
  import opened DeletionRaces

  /** The two statuses a rollback or a second certificate is about. */
  predicate Lasting(x: Status) {
    x.KeyDestroyed? || x.CertificateIssued?
  }

  /** In status `x` the thread, left alone, may come to write another status. */
  predicate Moves(x: Status, t: Thread) {
    match t.pc
    case Start(to) => IsValidTransition(x, to) || (t.caller.Handler? && IsValidTransition(x, CascadePartialFailure))
    case ReadPlan(_, _) => true
    case Claim(from, _) => from == x
    case ShredKey(_) => true
    case Rollback(_) => true
    case WriteComplete => true
    case Attach(to) => Cascading(to) && IsValidTransition(x, CascadePartialFailure)
    case RunCascade => IsValidTransition(x, CascadePartialFailure)
    case _ => Issuing(t.pc)
  }

  /** No thread but possibly `skip` can move the request out of `x`. */
  ghost predicate Unmoved(s: State, x: Status, skip: int) {
    && s.shared.doc.status == x
    && forall i :: 0 <= i < |s.threads| && i != skip ==> !Moves(x, s.threads[i])
  }

  /** Routes ask for statuses in `arrivals` only. */
  ghost predicate Asks(schedule: seq<Action>, arrivals: set<Status>) {
    forall i :: 0 <= i < |schedule| && schedule[i].Call? ==> schedule[i].to in arrivals
  }

  /** No status that routes ask for can be reached from `x`. */
  predicate Harmless(x: Status, arrivals: set<Status>) {
    forall to :: to in arrivals ==> !IsValidTransition(x, to)
  }

  // ----- Without movers nothing moves -----

  /** The same status, and no more issuances started or finished. */
  ghost predicate Same(s: State, n: State) {
    && n.shared.doc.status == s.shared.doc.status
    && Count(n.log, IssuanceStart) == Count(s.log, IssuanceStart)
    && Count(n.log, IssuanceSuccess) == Count(s.log, IssuanceSuccess)
  }

  /** An effect that keeps status `x`, leaves no mover behind and neither starts nor finishes an issuance. */
  predicate Leaves(x: Status, e: Effect) {
    && e.shared.doc.status == x && !Moves(x, e.thread)
    && (e.dispatches ==> !Moves(x, Thread(Handler, RunCascade)))
    && (e.event.Just? ==> !Is(e.event.value, IssuanceStart) && !Is(e.event.value, IssuanceSuccess))
  }

  lemma ReaderUnmoved(m: Shared, tid: nat, t: Thread, c: Choice)
    requires WellPlaced(t) && Reading(t.pc)
    ensures Leaves(m.doc.status, StepCertificate(m, tid, t, c))
  {
  }

  lemma AdvanceUnmoved(m: Shared, tid: nat, t: Thread, c: Choice)
    requires WellPlaced(t) && !Issuing(t.pc) && !Reading(t.pc)
    requires Lasting(m.doc.status) && !Moves(m.doc.status, t)
    ensures Leaves(m.doc.status, StepAdvance(m, tid, t, c))
  {
  }

  lemma EffectUnmoved(m: Shared, tid: nat, t: Thread, c: Choice)
    requires WellPlaced(t) && Lasting(m.doc.status) && !Moves(m.doc.status, t)
    ensures Leaves(m.doc.status, StepOf(m, tid, t, c))
  {
    if Reading(t.pc) {
      ReaderUnmoved(m, tid, t, c);
    } else {
      AdvanceUnmoved(m, tid, t, c);
    }
  }

  lemma ApplyUnmoved(s: State, x: Status, tid: nat, e: Effect, skip: int)
    requires tid < |s.threads| && tid != skip && skip < |s.threads| && Unmoved(s, x, skip) && Leaves(x, e)
    ensures Unmoved(Apply(s, tid, e), x, skip)
    ensures Same(s, Apply(s, tid, e))
  {
    if e.event.Just? {
      CountAppend(s.log, e.event.value, IssuanceStart);
      CountAppend(s.log, e.event.value, IssuanceSuccess);
    }
  }

  lemma StepUnmoved(s: State, a: Action, skip: int)
    requires Placed(s) && Lasting(s.shared.doc.status) && Unmoved(s, s.shared.doc.status, skip)
    requires a.Call? ==> !IsValidTransition(s.shared.doc.status, a.to)
    requires a.Step? ==> a.tid != skip
    requires skip < |s.threads|
    ensures Unmoved(Next(s, a), s.shared.doc.status, skip)
    ensures Same(s, Next(s, a))
  {
    if a.Step? && a.tid < |s.threads| {
      EffectUnmoved(s.shared, a.tid, s.threads[a.tid], a.choice);
      ApplyUnmoved(s, s.shared.doc.status, a.tid, StepOf(s.shared, a.tid, s.threads[a.tid], a.choice), skip);
    }
  }

  lemma {:induction false} RunUnmoved(s: State, schedule: seq<Action>, arrivals: set<Status>)
    requires Placed(s) && Lasting(s.shared.doc.status) && Unmoved(s, s.shared.doc.status, -1)
    requires Asks(schedule, arrivals) && Harmless(s.shared.doc.status, arrivals)
    ensures Unmoved(Run(s, schedule), s.shared.doc.status, -1) && Same(s, Run(s, schedule))
  {
    if schedule != [] {
      var before, a := schedule[..|schedule| - 1], schedule[|schedule| - 1];
      RunUnmoved(s, before, arrivals);
      RunPlaced(s, before);
      StepUnmoved(Run(s, before), a, -1);
    }
  }

  // ----- Any mover moves -----

  /** Every side effect fails, there is nothing to plan, and a cascade comes back with a failure. */
  const FAILING: Choice :=
    Choice(false, false, false, false, false, Planned([], [], []), Settled([Outcome("", false)], [], []))

  /** Failing steps until the thread, or the cascade it dispatches, writes a status. */
  function Distance(t: Thread): nat {
    match t.pc
    case Start(to) =>
      if t.caller.Handler? then 4 else 3
    case ReadPlan(_, _) => 1
    case ShredKey(_) => 1
    case ReadKey(_) => 1
    case ReadRequest(_, _) => 1
    case Reserve(_) => 2
    case Sign(_, _) => 1
    case Commit(_, _) => 2
    case Store(_) => 1
    case Attach(_) => 6
    case RunCascade => 5
    case _ => 0
  }

  /** Steps of threads other than `skip`, and nothing else. */
  ghost predicate Others(schedule: seq<Action>, skip: int) {
    forall i :: 0 <= i < |schedule| ==> schedule[i].Step? && schedule[i].tid != skip
  }

  lemma FailingIsNotClean()
    ensures !Clean(FAILING.results)
  {
    assert !FAILING.results.janitor[0].ok;
  }

  /** Where a request that was thought final lands when something moves it. */
  predicate Reopened(x: Status) {
    x.CascadeComplete? || x.ShredRequested?
  }

  /** One failing step of a mover writes another status, or leaves a mover that is closer to that. */
  lemma MoverStep(m: Shared, tid: nat, t: Thread)
    requires WellPlaced(t) && Lasting(m.doc.status) && Moves(m.doc.status, t)
    ensures var x, e := m.doc.status, StepOf(m, tid, t, FAILING);
      if e.shared.doc.status != x then x.CertificateIssued? ==> Reopened(e.shared.doc.status)
      else if e.dispatches then t.pc.Attach? && Moves(x, Thread(Handler, RunCascade))
      else Moves(x, e.thread) && Distance(e.thread) < Distance(t)
  {
    FailingIsNotClean();
  }

  /** From a state with a mover, steps of threads other than `skip` alone bring another status. */
  lemma {:induction false} MoverMoves(s: State, i: nat, skip: int) returns (schedule: seq<Action>)
    requires Placed(s) && Lasting(s.shared.doc.status) && skip < |s.threads|
    requires i < |s.threads| && i != skip && Moves(s.shared.doc.status, s.threads[i])
    ensures Others(schedule, skip)
    ensures var n := Run(s, schedule);
      && n.shared.doc.status != s.shared.doc.status
      && (s.shared.doc.status.CertificateIssued? ==> Reopened(n.shared.doc.status))
      && |s.threads| <= |n.threads| && (0 <= skip ==> n.threads[skip] == s.threads[skip])
    decreases Distance(s.threads[i])
  {
    var n := Next(s, Step(i, FAILING));
    MoverStep(s.shared, i, s.threads[i]);
    StepPlaced(s, Step(i, FAILING));
    RunOne(s, Step(i, FAILING));
    schedule := [Step(i, FAILING)];
    if n.shared.doc.status == s.shared.doc.status {
      var j := if |n.threads| == |s.threads| then i else |s.threads|;
      var rest := MoverMoves(n, j, skip);
      RunJoins(s, schedule, rest);
      schedule := schedule + rest;
    }
  }

  // ----- When a certificate is the last one -----

  /** At these program counters a thread will write a status without comparing the one it overwrites. */
  predicate WritesBlindly(pc: Pc) {
    pc.ReadPlan? || pc.WriteComplete? || pc.ShredKey? || pc.Rollback? || Issuing(pc)
  }

  ghost predicate NobodyWritesBlindly(s: State) {
    forall i :: 0 <= i < |s.threads| ==> !WritesBlindly(s.threads[i].pc)
  }

  ghost predicate StaysIssued(s: State) {
    forall schedule :: Run(s, schedule).shared.doc.status.CertificateIssued?
  }

  ghost predicate NoMore(s: State, k: Kind) {
    forall schedule :: Count(Run(s, schedule).log, k) == Count(s.log, k)
  }

  lemma IssuedMovers(s: State)
    requires Placed(s) && s.shared.doc.status.CertificateIssued?
    ensures Unmoved(s, CertificateIssued, -1) <==> NobodyWritesBlindly(s)
  {
    forall i | 0 <= i < |s.threads|
      ensures Moves(CertificateIssued, s.threads[i]) <==> WritesBlindly(s.threads[i].pc)
    {
      assert WellPlaced(s.threads[i]);
    }
  }

  lemma LogNeverShrinks(s0: State, s: State, k: Kind)
    requires Reachable(s0, s)
    ensures Count(s0.log, k) <= Count(s.log, k)
  {
    var schedule :| Run(s0, schedule) == s;
    RunBalance(s0, schedule, ShredRequested);
    assert s.log == s0.log + s.log[|s0.log|..];
    CountConcat(s0.log, s.log[|s0.log|..], k);
  }

  /** From SHRED_REQUESTED one call claims KEY_DESTROYED and another completes the request. */
  lemma CompleteFromStart(s0: State, s: State) returns (n: State)
    requires Reachable(s0, s) && s.shared.doc.status.ShredRequested?
    ensures Reachable(s0, n) && n.shared.doc.status.CascadeComplete?
  {
    ReachCall(s0, s, KeyDestroyed);
    n := WithCall(s, KeyDestroyed);
    ReachClaim(s0, n, |s.threads|, KeyDestroyed);
    n := WithClaim(n, |s.threads|, KeyDestroyed);
    var tid := |n.threads|;
    n := AboutToComplete(s0, n);
    ReachNext(s0, n, Step(tid, SMOOTH));
    n := Next(n, Step(tid, SMOOTH));
  }

  /** A reopened request comes back to CASCADE_COMPLETE, and its key can be gone by then. */
  lemma BackToComplete(s0: State, s: State) returns (n: State)
    requires Reachable(s0, s) && Reopened(s.shared.doc.status)
    ensures Reachable(s0, n) && n.shared.doc.status.CascadeComplete? && Gone(n.shared.key)
  {
    n := s;
    if s.shared.doc.status.ShredRequested? {
      n := CompleteFromStart(s0, s);
    }
    ReachNext(s0, n, SetKey(Shredded));
    n := Next(n, SetKey(Shredded));
  }

  /** From CASCADE_COMPLETE a call starts an issuance. */
  lemma StartAgain(s0: State, s: State)
    requires Reachable(s0, s) && s.shared.doc.status.CascadeComplete?
    ensures !NoMore(s0, IssuanceStart)
  {
    LogNeverShrinks(s0, s, IssuanceStart);
    var tid := |s.threads|;
    ReachCall(s0, s, CertificateIssued);
    var called := WithCall(s, CertificateIssued);
    CountAppend(s.log, Accepted(External, CascadeComplete, CertificateIssued), IssuanceStart);
    ReachClaim(s0, called, tid, CertificateIssued);
    CountAppend(called.log, Claimed(tid, CascadeComplete, CertificateIssued), IssuanceStart);
    var claimed := WithClaim(called, tid, CertificateIssued);
    assert Count(claimed.log, IssuanceStart) > Count(s0.log, IssuanceStart);
    var schedule :| Run(s0, schedule) == claimed;
  }

  /** With the key gone, one finishes it. */
  lemma FinishAgain(s0: State, s: State)
    requires Reachable(s0, s) && s.shared.doc.status.CascadeComplete? && Gone(s.shared.key)
    ensures !NoMore(s0, IssuanceSuccess)
  {
    LogNeverShrinks(s0, s, IssuanceSuccess);
    var tid := |s.threads|;
    var called := Next(s, Call(CertificateIssued));
    ReachNext(s0, s, Call(CertificateIssued));
    var r := AdvanceCall(View(called), CertificateIssued, SMOOTH);
    assert r.world.issued == View(s).issued + 1;
    FromStart(Local(View(called), called.threads[tid]), tid, SMOOTH, CertificateIssued);
    var k := SoloCall(called, tid, SMOOTH, r);
    ReachSolo(s0, called, tid, SMOOTH, k);
    var schedule :| Run(s0, schedule) == Solo(called, tid, SMOOTH, k);
    assert View(Run(s0, schedule)).issued == View(s).issued + 1;
  }

  /**
   * Exactly when an issued request is final: no thread in flight still writes its status without
   * looking. Then no schedule moves it, starts another issuance or stores another certificate, and
   * otherwise some schedule does each of the three.
   */
  lemma FinalExactlyWhen(s: State)
    requires Placed(s) && s.shared.doc.status.CertificateIssued?
    ensures StaysIssued(s) <==> NobodyWritesBlindly(s)
    ensures NoMore(s, IssuanceStart) <==> NobodyWritesBlindly(s)
    ensures NoMore(s, IssuanceSuccess) <==> NobodyWritesBlindly(s)
  {
    IssuedMovers(s);
    if NobodyWritesBlindly(s) {
      forall schedule: seq<Action>
        ensures Run(s, schedule).shared.doc.status.CertificateIssued? && Same(s, Run(s, schedule))
      {
        RunUnmoved(s, schedule, set i | 0 <= i < |schedule| && schedule[i].Call? :: schedule[i].to);
      }
    } else {
      var i :| 0 <= i < |s.threads| && Moves(CertificateIssued, s.threads[i]);
      var schedule := MoverMoves(s, i, -1);
      assert !Run(s, schedule).shared.doc.status.CertificateIssued?;
      var n := BackToComplete(s, Run(s, schedule));
      StartAgain(s, n);
      FinishAgain(s, n);
    }
  }

  // ----- When a rollback undoes only its own claim -----

  /** Claimed KEY_DESTROYED, and the key is not destroyed yet, or could not be. */
  predicate Shredding(pc: Pc) {
    pc == ShredKey(ShredRequested) || pc == Rollback(ShredRequested)
  }

  /** Whenever thread `tid` is about to roll back, the status it overwrites is KEY_DESTROYED. */
  ghost predicate RollbackIsSafe(s: State, tid: nat, arrivals: set<Status>) {
    forall schedule :: Asks(schedule, arrivals) ==> OverwritesOwnClaim(Run(s, schedule), tid)
  }

  predicate OverwritesOwnClaim(s: State, tid: nat) {
    tid < |s.threads| && s.threads[tid].pc == Rollback(ShredRequested) ==> s.shared.doc.status.KeyDestroyed?
  }

  /** The guard: the claim still stands, and neither another thread nor a call that may come moves it on. */
  ghost predicate ClaimIsUncontested(s: State, tid: nat, arrivals: set<Status>) {
    Unmoved(s, KeyDestroyed, tid) && Harmless(KeyDestroyed, arrivals)
  }

  /** The thread will not roll back any more. */
  predicate Spent(t: Thread) {
    t.pc.Done? || t.pc.Attach? || t.caller.Recovery?
  }

  ghost predicate Guarded(s: State, tid: nat) {
    && tid < |s.threads|
    && if Shredding(s.threads[tid].pc) then Unmoved(s, KeyDestroyed, tid) else Spent(s.threads[tid])
  }

  /** The thread's own step leaves it shredding under its claim, or spent. */
  lemma EffectGuarded(m: Shared, tid: nat, t: Thread, c: Choice)
    requires WellPlaced(t) && (Shredding(t.pc) || Spent(t))
    ensures var e := StepOf(m, tid, t, c);
      if Shredding(e.thread.pc) then Shredding(t.pc) && e.shared.doc.status == m.doc.status && !e.dispatches
      else Spent(e.thread)
  {
  }

  lemma StepGuarded(s: State, a: Action, tid: nat)
    requires Placed(s) && Guarded(s, tid) && (a.Call? ==> !IsValidTransition(KeyDestroyed, a.to))
    ensures Guarded(Next(s, a), tid)
  {
    if a.Step? && a.tid == tid {
      EffectGuarded(s.shared, tid, s.threads[tid], a.choice);
    } else if Shredding(s.threads[tid].pc) {
      StepUnmoved(s, a, tid);
    }
  }

  lemma {:induction false} RunGuarded(s: State, schedule: seq<Action>, tid: nat, arrivals: set<Status>)
    requires Placed(s) && Guarded(s, tid) && Asks(schedule, arrivals) && Harmless(KeyDestroyed, arrivals)
    ensures Guarded(Run(s, schedule), tid)
  {
    if schedule != [] {
      var before, a := schedule[..|schedule| - 1], schedule[|schedule| - 1];
      RunGuarded(s, before, tid, arrivals);
      RunPlaced(s, before);
      StepGuarded(Run(s, before), a, tid);
    }
  }

  /** Once the claim has been moved on, the rollback can come next. */
  lemma RollbackUnderneath(s: State, before: seq<Action>, tid: nat, arrivals: set<Status>)
    requires var n := Run(s, before);
      tid < |n.threads| && Shredding(n.threads[tid].pc) && !n.shared.doc.status.KeyDestroyed?
    requires Asks(before, arrivals)
    ensures !RollbackIsSafe(s, tid, arrivals)
  {
    var n, a := Run(s, before), Step(tid, FAILING);
    if n.threads[tid].pc.Rollback? {
      assert !OverwritesOwnClaim(n, tid);
    } else {
      RunJoins(s, before, [a]);
      RunOne(n, a);
      assert Asks(before + [a], arrivals);
      assert !OverwritesOwnClaim(Run(s, before + [a]), tid);
    }
  }

  /** A mover other than `tid` moves the claim on first. */
  lemma MoverSpoils(s: State, before: seq<Action>, i: nat, tid: nat, arrivals: set<Status>)
    requires Asks(before, arrivals)
    requires var n := Run(s, before);
      && Placed(n) && tid < |n.threads| && Shredding(n.threads[tid].pc)
      && n.shared.doc.status.KeyDestroyed? && i < |n.threads| && i != tid && Moves(KeyDestroyed, n.threads[i])
    ensures !RollbackIsSafe(s, tid, arrivals)
  {
    var more := MoverMoves(Run(s, before), i, tid);
    RunJoins(s, before, more);
    RollbackUnderneath(s, before + more, tid, arrivals);
  }

  /**
   * Exactly when a failed key destruction rolls back nothing but its own claim, whichever of `arrivals`
   * routes still ask for: the claim stands, no other thread in flight can move the request on, and no
   * status that may be asked for follows KEY_DESTROYED.
   */
  lemma RollbackSafeExactlyWhen(s: State, tid: nat, arrivals: set<Status>)
    requires Placed(s) && tid < |s.threads| && Shredding(s.threads[tid].pc)
    ensures RollbackIsSafe(s, tid, arrivals) <==> ClaimIsUncontested(s, tid, arrivals)
  {
    if ClaimIsUncontested(s, tid, arrivals) {
      forall schedule | Asks(schedule, arrivals) ensures OverwritesOwnClaim(Run(s, schedule), tid) {
        RunGuarded(s, schedule, tid, arrivals);
      }
    } else if !s.shared.doc.status.KeyDestroyed? {
      RollbackUnderneath(s, [], tid, arrivals);
    } else if !Harmless(KeyDestroyed, arrivals) {
      var to :| to in arrivals && IsValidTransition(KeyDestroyed, to);
      RunOne(s, Call(to));
      StepPlaced(s, Call(to));
      MoverSpoils(s, [Call(to)], |s.threads|, tid, arrivals);
    } else {
      var i :| 0 <= i < |s.threads| && i != tid && Moves(KeyDestroyed, s.threads[i]);
      MoverSpoils(s, [], i, tid, arrivals);
    }
  }

  // ----- When completion means that somebody looked -----

  predicate IsCompleted(s: State) {
    s.shared.doc.status.CascadeComplete? || s.shared.doc.status.CertificateIssued?
  }

  ghost predicate SomebodyLooked(log: seq<Event>) {
    exists i :: 0 <= i < |log| && Inspects(log[i])
  }

  /** No route has asked for CASCADE_COMPLETE, and none is about to. */
  ghost predicate NotAskedFor(s: State) {
    && (forall i :: 0 <= i < |s.threads| ==> !AsksToComplete(s.threads[i]))
    && forall i :: 0 <= i < |s.log| ==> !RouteCompletes(s.log[i])
  }

  /** A route's thread at the start of CASCADE_COMPLETE, or in a cascade, which only handlers are. */
  predicate AsksToComplete(t: Thread) {
    t.caller.External? && (t.pc.RunCascade? || (t.pc.Start? && t.pc.to.CascadeComplete?))
  }

  predicate RouteCompletes(e: Event) {
    e.Accepted? && e.caller.External? && e.to.CascadeComplete?
  }

  /** Only a route's own call asks for CASCADE_COMPLETE on a route's behalf. */
  lemma EffectNotAsked(m: Shared, tid: nat, t: Thread, c: Choice)
    requires !AsksToComplete(t)
    ensures var e := StepOf(m, tid, t, c);
      !AsksToComplete(e.thread) && (e.event.Just? ==> !RouteCompletes(e.event.value))
  {
  }

  lemma {:induction false} RunNotAsked(s: State, schedule: seq<Action>, arrivals: set<Status>)
    requires NotAskedFor(s) && Asks(schedule, arrivals) && CascadeComplete !in arrivals
    ensures NotAskedFor(Run(s, schedule))
  {
    if schedule != [] {
      var before, a := schedule[..|schedule| - 1], schedule[|schedule| - 1];
      RunNotAsked(s, before, arrivals);
      var now := Run(s, before);
      if a.Step? && a.tid < |now.threads| {
        EffectNotAsked(now.shared, a.tid, now.threads[a.tid], a.choice);
      }
    }
  }

  ghost predicate ReachableAsking(s0: State, s: State, arrivals: set<Status>) {
    exists schedule :: Asks(schedule, arrivals) && Run(s0, schedule) == s
  }

  lemma AskNext(s0: State, s: State, a: Action, arrivals: set<Status>)
    requires ReachableAsking(s0, s, arrivals) && (a.Call? ==> a.to in arrivals)
    ensures ReachableAsking(s0, Next(s, a), arrivals)
  {
    var schedule :| Asks(schedule, arrivals) && Run(s0, schedule) == s;
    RunJoins(s0, schedule, [a]);
    RunOne(s, a);
    assert Asks(schedule + [a], arrivals);
  }

  /** A route's call passes the table. */
  lemma AskCall(s0: State, s: State, to: Status, arrivals: set<Status>)
    requires ReachableAsking(s0, s, arrivals) && to in arrivals && IsValidTransition(s.shared.doc.status, to)
    ensures ReachableAsking(s0, WithCall(s, to), arrivals)
  {
    var called := Next(s, Call(to));
    AskNext(s0, s, Call(to), arrivals);
    AskNext(s0, called, Step(|s.threads|, SMOOTH), arrivals);
    assert Next(called, Step(|s.threads|, SMOOTH)) == WithCall(s, to);
  }

  lemma AskClaim(s0: State, s: State, tid: nat, to: Status, arrivals: set<Status>)
    requires ReachableAsking(s0, s, arrivals)
    requires tid < |s.threads| && s.threads[tid].pc == Claim(s.shared.doc.status, to)
    ensures ReachableAsking(s0, WithClaim(s, tid, to), arrivals)
  {
    AskNext(s0, s, Step(tid, SMOOTH), arrivals);
  }

  /** Routes that may ask for KEY_DESTROYED and CASCADE_PENDING bring the request there, with a task to do. */
  lemma PendingUnseen(s0: State, arrivals: set<Status>) returns (s: State)
    requires s0 == Created(s0.shared.key, s0.shared.head) && {KeyDestroyed, CascadePending} <= arrivals
    ensures ReachableAsking(s0, s, arrivals) && s.shared.doc.status.CascadePending? && !SomebodyLooked(s.log)
  {
    assert Run(s0, []) == s0 && Asks([], arrivals);
    AskCall(s0, s0, KeyDestroyed, arrivals);
    s := WithCall(s0, KeyDestroyed);
    AskClaim(s0, s, 0, KeyDestroyed, arrivals);
    s := WithClaim(s, 0, KeyDestroyed);
    AskCall(s0, s, CascadePending, arrivals);
    s := WithCall(s, CascadePending);
    var claim := Claim(KeyDestroyed, CascadePending);
    AskNext(s0, s, Step(1, ONE_TASK), arrivals);
    assert Next(s, Step(1, ONE_TASK)) == WithPlan(s, 1, ONE_TASK, claim);
    s := WithPlan(s, 1, ONE_TASK, claim);
    AskClaim(s0, s, 1, CascadePending, arrivals);
    s := WithClaim(s, 1, CascadePending);
  }

  /**
   * Exactly when CASCADE_COMPLETE and CERTIFICATE_ISSUED mean that an empty plan was checked or a cascade
   * ran without failures: no route may ask for CASCADE_COMPLETE itself. (Routes may ask for the two
   * ordinary steps to it.)
   */
  lemma InspectedExactlyWhen(key: KeyState, head: nat, arrivals: set<Status>)
    requires {KeyDestroyed, CascadePending} <= arrivals
    ensures (forall s :: ReachableAsking(Created(key, head), s, arrivals) && IsCompleted(s) ==>
               SomebodyLooked(s.log))
      <==> CascadeComplete !in arrivals
  {
    var s0 := Created(key, head);
    if CascadeComplete in arrivals {
      var s := PendingUnseen(s0, arrivals);
      AskCall(s0, s, CascadeComplete, arrivals);
      var m := WithCall(s, CascadeComplete);
      AskNext(s0, m, Step(|s.threads|, SMOOTH), arrivals);
      var n := Next(m, Step(|s.threads|, SMOOTH));
      assert n.log == s.log + [Accepted(External, CascadePending, CascadeComplete),
                               Overwrote(CascadePending, CascadeComplete)];
      assert !SomebodyLooked(n.log) && n.shared.doc.status.CascadeComplete?;
    } else {
      forall s | ReachableAsking(s0, s, arrivals) && IsCompleted(s) ensures SomebodyLooked(s.log) {
        var schedule :| Asks(schedule, arrivals) && Run(s0, schedule) == s;
        CompletedRestsOnEvidence(key, head, schedule);
        RunNotAsked(s0, schedule, arrivals);
        var i :| 0 <= i < |s.log| && Proves(s.log[i]);
        assert Inspects(s.log[i]);
      }
    }
  }
}
