/** A thread that is not interrupted does exactly what the call-atomic model says. */
module SoloRefinement {
  import opened DeletionStatus
  import opened KeyStates
  import opened DeletionSteps
  import opened DeletionSafety
  import opened DeletionCalls

  lemma {:induction false} RunJoins(s: State, xs: seq<Action>, ys: seq<Action>)
    ensures Run(s, xs + ys) == Run(Run(s, xs), ys)
  {
    if ys == [] {
      assert xs + ys == xs;
    } else {
      var front := ys[..|ys| - 1];
      assert (xs + ys)[..|xs + ys| - 1] == xs + front;
      RunJoins(s, xs, front);
    }
  }

  lemma RunOne(s: State, a: Action)
    ensures Run(s, [a]) == Next(s, a)
  {
  }

  function Repeat(a: Action, k: nat): seq<Action> {
    seq(k, _ => a)
  }

  /** `k` steps of one thread, all with the same choice. */
  function Solo(s: State, tid: nat, c: Choice, k: nat): State {
    Run(s, Repeat(Step(tid, c), k))
  }

  lemma SoloJoins(s: State, tid: nat, c: Choice, j: nat, k: nat)
    ensures Solo(s, tid, c, j + k) == Solo(Solo(s, tid, c, j), tid, c, k)
  {
    var a := Step(tid, c);
    assert Repeat(a, j + k) == Repeat(a, j) + Repeat(a, k);
    RunJoins(s, Repeat(a, j), Repeat(a, k));
  }

  lemma SoloOne(s: State, tid: nat, c: Choice)
    ensures Solo(s, tid, c, 1) == Next(s, Step(tid, c))
  {
    assert Repeat(Step(tid, c), 1) == [Step(tid, c)];
    RunOne(s, Step(tid, c));
  }

  // ----- What a state of the step model looks like to the call-atomic model -----

  function Outstanding(threads: seq<Thread>): nat {
    if threads == [] then 0
    else Outstanding(threads[..|threads| - 1]) + if threads[|threads| - 1].pc.RunCascade? then 1 else 0
  }

  function View(s: State): World {
    World(s.shared.doc, s.shared.key, s.shared.head, Outstanding(s.threads), Count(s.log, IssuanceSuccess))
  }

  lemma {:induction false} OutstandingUpdate(threads: seq<Thread>, tid: nat, t: Thread)
    requires tid < |threads|
    ensures Outstanding(threads[tid := t])
      == Outstanding(threads) - (if threads[tid].pc.RunCascade? then 1 else 0) + if t.pc.RunCascade? then 1 else 0
  {
    var n := |threads| - 1;
    var updated := threads[tid := t];
    if tid == n {
      assert updated[..n] == threads[..n];
    } else {
      assert updated[..n] == threads[..n][tid := t];
      OutstandingUpdate(threads[..n], tid, t);
    }
  }

  lemma OutstandingAppend(threads: seq<Thread>, t: Thread)
    ensures Outstanding(threads + [t]) == Outstanding(threads) + if t.pc.RunCascade? then 1 else 0
  {
  }

  /** What one step does to the view. */
  function Seen(w: World, t: Thread, e: Effect): World {
    var issued := w.issued + if e.event.Just? && e.event.value.Issued? then 1 else 0;
    var gone := if t.pc.RunCascade? then 1 else 0;
    var come := if e.dispatches then 1 else 0;
    World(e.shared.doc, e.shared.key, e.shared.head,
          if gone <= w.cascades then w.cascades - gone + come else come, issued)
  }

  lemma ViewApply(s: State, tid: nat, e: Effect)
    requires tid < |s.threads| && !e.thread.pc.RunCascade?
    ensures View(Apply(s, tid, e)) == Seen(View(s), s.threads[tid], e)
  {
    var updated := s.threads[tid := e.thread];
    OutstandingUpdate(s.threads, tid, e.thread);
    OutstandingAppend(updated, Thread(Handler, RunCascade));
    if e.event.Just? {
      CountAppend(s.log, e.event.value, IssuanceSuccess);
    }
  }

  lemma EffectLeavesCascade(m: Shared, tid: nat, t: Thread, c: Choice)
    ensures !StepOf(m, tid, t, c).thread.pc.RunCascade?
  {
  }

  function EffectAt(s: State, tid: nat, c: Choice): Effect
    requires tid < |s.threads|
  {
    StepOf(s.shared, tid, s.threads[tid], c)
  }

  // ----- One thread on its own -----

  /** A thread together with all it can see. */
  datatype Local = Local(world: World, thread: Thread)

  function LocalStep(l: Local, tid: nat, c: Choice): Local {
    var e := StepOf(Shared(l.world.doc, l.world.key, l.world.head), tid, l.thread, c);
    Local(Seen(l.world, l.thread, e), e.thread)
  }

  /** `k` applications of a function. */
  function Iterate<A>(step: A -> A, x: A, k: nat): A {
    if k == 0 then x else Iterate(step, step(x), k - 1)
  }

  lemma {:induction false} IterateJoins<A>(step: A -> A, x: A, j: nat, k: nat)
    ensures Iterate(step, x, j + k) == Iterate(step, Iterate(step, x, j), k)
  {
    if j != 0 {
      IterateJoins(step, step(x), j - 1, k);
    }
  }

  function Stepper(tid: nat, c: Choice): Local -> Local {
    l => LocalStep(l, tid, c)
  }

  function LocalRun(l: Local, tid: nat, c: Choice, k: nat): Local {
    Iterate(Stepper(tid, c), l, k)
  }

  lemma LocalJoins(l: Local, tid: nat, c: Choice, j: nat, k: nat)
    ensures LocalRun(l, tid, c, j + k) == LocalRun(LocalRun(l, tid, c, j), tid, c, k)
  {
    IterateJoins(Stepper(tid, c), l, j, k);
  }

  lemma LocalOne(l: Local, tid: nat, c: Choice)
    ensures LocalRun(l, tid, c, 1) == LocalStep(l, tid, c)
  {
  }

  /** Where a call with result `r` leaves the thread that made it. */
  function After(t: Thread, r: CallResult): Local {
    Local(r.world, if r.Returned? then t.(pc := Done(true)) else Thrown(t))
  }

  /** Uninterrupted from `l`, the thread ends its call as `r` says. */
  ghost predicate Ends(l: Local, tid: nat, c: Choice, r: CallResult) {
    exists k: nat :: LocalRun(l, tid, c, k) == After(l.thread, r)
  }

  /** It is enough to know the end from one step later. */
  lemma EndsLater(l: Local, tid: nat, c: Choice, r: CallResult)
    requires var n := LocalStep(l, tid, c); n.thread.caller == l.thread.caller && Ends(n, tid, c, r)
    ensures Ends(l, tid, c, r)
  {
    var n := LocalStep(l, tid, c);
    var k: nat :| LocalRun(n, tid, c, k) == After(n.thread, r);
    LocalOne(l, tid, c);
    LocalJoins(l, tid, c, 1, k);
    assert LocalRun(l, tid, c, 1 + k) == After(l.thread, r);
  }

  lemma EndsNow(l: Local, tid: nat, c: Choice, r: CallResult)
    requires LocalStep(l, tid, c) == After(l.thread, r)
    ensures Ends(l, tid, c, r)
  {
    LocalOne(l, tid, c);
    assert LocalRun(l, tid, c, 1) == After(l.thread, r);
  }

  lemma FromRollback(l: Local, tid: nat, c: Choice, back: Status)
    requires l.thread.pc == Rollback(back)
    ensures Ends(l, tid, c, Threw(Written(l.world, back)))
  {
    var n := LocalStep(l, tid, c);
    EndsNow(l, tid, c, Threw(Written(l.world, back)));
  }

  /** The call's fields are attached and, in a cascading status, its cascade dispatched. */
  function Attached(w: World, to: Status): World {
    if Cascading(to) then w.(cascades := w.cascades + 1)
    else if to.CertificateIssued? then w.(doc := w.doc.(stored := true))
    else w
  }

  lemma FromAttach(l: Local, tid: nat, c: Choice, to: Status)
    requires l.thread.pc == Attach(to)
    ensures Ends(l, tid, c, Returned(Attached(l.world, to)))
  {
    var n := LocalStep(l, tid, c);
    EndsNow(l, tid, c, Returned(Attached(l.world, to)));
  }

  /** `IssueCall` from the point where the claim has been won. */
  function IssueRest(claimed: World, from: Status, c: Choice): CallResult {
    if !c.readOk || !Gone(claimed.key) || !c.signOk then Threw(Written(claimed, from))
    else FromChained(claimed.(head := claimed.head + 1), from, c)
  }

  function FromChained(chained: World, from: Status, c: Choice): CallResult {
    if !c.storeOk then Threw(Written(chained, from))
    else Returned(chained.(doc := chained.doc.(stored := true), issued := chained.issued + 1))
  }

  lemma FromStore(l: Local, tid: nat, c: Choice, from: Status)
    requires l.thread.pc == Store(from)
    ensures Ends(l, tid, c, FromChained(l.world, from, c))
  {
    var n := LocalStep(l, tid, c);
    if c.storeOk { FromAttach(n, tid, c, CertificateIssued); } else { FromRollback(n, tid, c, from); }
    EndsLater(l, tid, c, FromChained(l.world, from, c));
  }

  lemma FromCommit(l: Local, tid: nat, c: Choice, from: Status)
    requires l.thread.pc == Commit(from, l.world.head + 1)
    ensures Ends(l, tid, c, FromChained(l.world.(head := l.world.head + 1), from, c))
  {
    var n := LocalStep(l, tid, c);
    FromStore(n, tid, c, from);
    EndsLater(l, tid, c, FromChained(l.world.(head := l.world.head + 1), from, c));
  }

  lemma FromSign(l: Local, tid: nat, c: Choice, from: Status)
    requires l.thread.pc == Sign(from, l.world.head + 1)
    ensures Ends(l, tid, c, if !c.signOk then Threw(Written(l.world, from))
                            else FromChained(l.world.(head := l.world.head + 1), from, c))
  {
    var n := LocalStep(l, tid, c);
    if c.signOk {
      FromCommit(n, tid, c, from);
      EndsLater(l, tid, c, FromChained(l.world.(head := l.world.head + 1), from, c));
    } else {
      FromRollback(n, tid, c, from);
      EndsLater(l, tid, c, Threw(Written(l.world, from)));
    }
  }

  lemma FromReserve(l: Local, tid: nat, c: Choice, from: Status)
    requires l.thread.pc == Reserve(from)
    ensures Ends(l, tid, c, if !c.signOk then Threw(Written(l.world, from))
                            else FromChained(l.world.(head := l.world.head + 1), from, c))
  {
    var n := LocalStep(l, tid, c);
    FromSign(n, tid, c, from);
    EndsLater(l, tid, c, if !c.signOk then Threw(Written(l.world, from))
                            else FromChained(l.world.(head := l.world.head + 1), from, c));
  }

  lemma FromReadRequest(l: Local, tid: nat, c: Choice, from: Status)
    requires l.thread.pc == ReadRequest(from, l.world.key)
    requires c.readOk && Completed(l.world.doc.status)
    ensures Ends(l, tid, c, IssueRest(l.world, from, c))
  {
    var n := LocalStep(l, tid, c);
    if Gone(l.world.key) { FromReserve(n, tid, c, from); } else { FromRollback(n, tid, c, from); }
    EndsLater(l, tid, c, IssueRest(l.world, from, c));
  }

  lemma FromReadKey(l: Local, tid: nat, c: Choice, from: Status)
    requires l.thread.pc == ReadKey(from) && Completed(l.world.doc.status)
    ensures Ends(l, tid, c, IssueRest(l.world, from, c))
  {
    var n := LocalStep(l, tid, c);
    if c.readOk { FromReadRequest(n, tid, c, from); } else { FromRollback(n, tid, c, from); }
    EndsLater(l, tid, c, IssueRest(l.world, from, c));
  }

  /** Key destruction after the claim: done, or rolled back. */
  function ShredRest(claimed: World, from: Status, c: Choice): CallResult {
    if c.shredOk then Returned(claimed.(key := Shredded)) else Threw(Written(claimed, from))
  }

  lemma FromShredKey(l: Local, tid: nat, c: Choice, from: Status)
    requires l.thread.pc == ShredKey(from)
    ensures Ends(l, tid, c, ShredRest(l.world, from, c))
  {
    var n := LocalStep(l, tid, c);
    if c.shredOk { FromAttach(n, tid, c, KeyDestroyed); } else { FromRollback(n, tid, c, from); }
    EndsLater(l, tid, c, ShredRest(l.world, from, c));
  }

  /** `AdvanceCall` from the point where the thread is about to claim an edge of the table. */
  function ClaimRest(w: World, to: Status, c: Choice): CallResult {
    match to
    case KeyDestroyed => ShredRest(Written(w, to), w.doc.status, c)
    case CertificateIssued => IssueRest(Written(w, to), w.doc.status, c)
    case _ => Returned(Attached(Written(w, to), to))
  }

  lemma FromClaim(l: Local, tid: nat, c: Choice, to: Status)
    requires l.thread.pc == Claim(l.world.doc.status, to)
    ensures Ends(l, tid, c, ClaimRest(l.world, to, c))
  {
    var n := LocalStep(l, tid, c);
    var from := l.world.doc.status;
    match to {
      case KeyDestroyed => FromShredKey(n, tid, c, from);
      case CertificateIssued => FromReadKey(n, tid, c, from);
      case _ => FromAttach(n, tid, c, to);
    }
    EndsLater(l, tid, c, ClaimRest(l.world, to, c));
  }

  lemma FromWriteComplete(l: Local, tid: nat, c: Choice)
    requires l.thread.pc == WriteComplete
    ensures Ends(l, tid, c, AdvanceCall(Written(l.world, CascadeComplete), CertificateIssued, c))
    decreases 1, 0
  {
    var n := LocalStep(l, tid, c);
    FromStart(n, tid, c, CertificateIssued);
    EndsLater(l, tid, c, AdvanceCall(Written(l.world, CascadeComplete), CertificateIssued, c));
  }

  lemma FromReadPlan(l: Local, tid: nat, c: Choice, to: Status)
    requires l.thread.pc == ReadPlan(l.world.doc.status, to)
    requires Cascading(to) && IsValidTransition(l.world.doc.status, to)
    ensures Ends(l, tid, c, AdvanceCall(l.world, to, c))
    decreases 1, 1
  {
    var n := LocalStep(l, tid, c);
    var r := AdvanceCall(l.world, to, c);
    if NothingToDo(c.plan) {
      FromWriteComplete(n, tid, c);
      EndsLater(l, tid, c, r);
    } else if c.plan.Planned? {
      FromClaim(n, tid, c, to);
      EndsLater(l, tid, c, r);
    } else if to.CascadePending? {
      FromStart(n, tid, c, CascadePartialFailure);
      EndsLater(l, tid, c, r);
    } else {
      EndsNow(l, tid, c, r);
    }
  }

  /**
   * An `advanceRequest` call that runs without interruption, whatever it finds and
   * whoever awaits it, has exactly the effect and the result of the call-atomic model.
   */
  lemma FromStart(l: Local, tid: nat, c: Choice, to: Status)
    requires l.thread.pc == Start(to)
    ensures Ends(l, tid, c, AdvanceCall(l.world, to, c))
    decreases Rank(to), 2
  {
    var n := LocalStep(l, tid, c);
    var r := AdvanceCall(l.world, to, c);
    if !IsValidTransition(l.world.doc.status, to) {
      EndsNow(l, tid, c, r);
    } else {
      match to {
        case CascadePending => FromReadPlan(n, tid, c, to);
        case CascadeInProgress => FromReadPlan(n, tid, c, to);
        case CascadeComplete => FromWriteComplete(n, tid, c);
        case _ => FromClaim(n, tid, c, to);
      }
      EndsLater(l, tid, c, r);
    }
  }

  // ----- Back to the step model -----

  /** `n` is `s` after steps of thread `tid` only, which has come to `end`. */
  ghost predicate OnlyMoved(s: State, n: State, tid: nat, end: Local)
    requires tid < |s.threads|
  {
    && |s.threads| <= |n.threads|
    && Local(View(n), n.threads[tid]) == end
    && (forall i :: 0 <= i < |s.threads| && i != tid ==> n.threads[i] == s.threads[i])
    && (forall i :: |s.threads| <= i < |n.threads| ==> n.threads[i] == Thread(Handler, RunCascade))
  }

  /** A solo run of the step model is a run of the thread on its own. */
  lemma {:induction false} SoloIsLocal(s: State, tid: nat, c: Choice, k: nat)
    requires tid < |s.threads|
    ensures OnlyMoved(s, Solo(s, tid, c, k), tid, LocalRun(Local(View(s), s.threads[tid]), tid, c, k))
    decreases k
  {
    if k == 0 {
      assert Repeat(Step(tid, c), 0) == [];
    } else {
      var n := Apply(s, tid, EffectAt(s, tid, c));
      EffectLeavesCascade(s.shared, tid, s.threads[tid], c);
      ViewApply(s, tid, EffectAt(s, tid, c));
      SoloOne(s, tid, c);
      SoloJoins(s, tid, c, 1, k - 1);
      SoloIsLocal(n, tid, c, k - 1);
      LocalOne(Local(View(s), s.threads[tid]), tid, c);
      LocalJoins(Local(View(s), s.threads[tid]), tid, c, 1, k - 1);
    }
  }

  lemma SoloCall(s: State, tid: nat, c: Choice, r: CallResult) returns (k: nat)
    requires tid < |s.threads| && Ends(Local(View(s), s.threads[tid]), tid, c, r)
    ensures OnlyMoved(s, Solo(s, tid, c, k), tid, After(s.threads[tid], r))
  {
    var l := Local(View(s), s.threads[tid]);
    k :| LocalRun(l, tid, c, k) == After(l.thread, r);
    SoloIsLocal(s, tid, c, k);
  }

  /** From `l`, the thread comes to an end with `w`. */
  ghost predicate Finishes(l: Local, tid: nat, c: Choice, w: World) {
    exists k: nat :: LocalRun(l, tid, c, k).world == w && LocalRun(l, tid, c, k).thread.pc.Done?
  }

  lemma FinishesLater(l: Local, tid: nat, c: Choice, j: nat, w: World)
    requires Finishes(LocalRun(l, tid, c, j), tid, c, w)
    ensures Finishes(l, tid, c, w)
  {
    var m := LocalRun(l, tid, c, j);
    var k: nat :| LocalRun(m, tid, c, k).world == w && LocalRun(m, tid, c, k).thread.pc.Done?;
    LocalJoins(l, tid, c, j, k);
    assert LocalRun(l, tid, c, j + k) == LocalRun(m, tid, c, k);
  }

  /** The recovery swallows its own failure. */
  lemma FromRecovery(l: Local, tid: nat, c: Choice)
    requires l.thread == Thread(Recovery, Start(CascadePartialFailure))
    ensures Finishes(l, tid, c, AdvanceCall(l.world, CascadePartialFailure, c).world)
  {
    var r := AdvanceCall(l.world, CascadePartialFailure, c);
    FromStart(l, tid, c, CascadePartialFailure);
    var k: nat :| LocalRun(l, tid, c, k) == After(l.thread, r);
  }

  /** The handler's own call, and the recovery if that throws. */
  lemma FromHandlerCall(l: Local, tid: nat, c: Choice, to: Status)
    requires l.thread == Thread(Handler, Start(to))
    ensures var r := AdvanceCall(l.world, to, c);
      Finishes(l, tid, c, if r.Returned? then r.world else AdvanceCall(r.world, CascadePartialFailure, c).world)
  {
    var r := AdvanceCall(l.world, to, c);
    FromStart(l, tid, c, to);
    var k: nat :| LocalRun(l, tid, c, k) == After(l.thread, r);
    if r.Threw? {
      FromRecovery(After(l.thread, r), tid, c);
      FinishesLater(l, tid, c, k, AdvanceCall(r.world, CascadePartialFailure, c).world);
    }
  }

  /** An outstanding cascade that runs without interruption is the call-atomic `FinishCascade`. */
  lemma FromHandler(l: Local, tid: nat, c: Choice)
    requires l.thread == Thread(Handler, RunCascade) && l.world.cascades > 0
    ensures Finishes(l, tid, c, FinishCascade(l.world, c))
  {
    var n := LocalStep(l, tid, c);
    LocalOne(l, tid, c);
    if c.results.Rejected? {
      FromRecovery(n, tid, c);
    } else {
      FromHandlerCall(n, tid, c, if Clean(c.results) then CascadeComplete else CascadePartialFailure);
    }
    FinishesLater(l, tid, c, 1, FinishCascade(l.world, c));
  }

  /** The two facts above, about states of the step model: the other threads stay where they are. */
  lemma UninterruptedThreadIsAtomic(s: State, tid: nat, c: Choice)
    requires tid < |s.threads|
    ensures s.threads[tid].pc.Start? ==>
      exists k: nat :: OnlyMoved(s, Solo(s, tid, c, k), tid,
        After(s.threads[tid], AdvanceCall(View(s), s.threads[tid].pc.to, c)))
    ensures s.threads[tid] == Thread(Handler, RunCascade) && View(s).cascades > 0 ==>
      exists k: nat, t: Thread ::
        t.pc.Done? && OnlyMoved(s, Solo(s, tid, c, k), tid, Local(FinishCascade(View(s), c), t))
  {
    var l := Local(View(s), s.threads[tid]);
    if s.threads[tid].pc.Start? {
      FromStart(l, tid, c, s.threads[tid].pc.to);
      var k := SoloCall(s, tid, c, AdvanceCall(View(s), s.threads[tid].pc.to, c));
    }
    if s.threads[tid] == Thread(Handler, RunCascade) && View(s).cascades > 0 {
      FromHandler(l, tid, c);
      var k: nat :|
        LocalRun(l, tid, c, k).world == FinishCascade(View(s), c) && LocalRun(l, tid, c, k).thread.pc.Done?;
      SoloIsLocal(s, tid, c, k);
      var t := LocalRun(l, tid, c, k).thread;
      assert OnlyMoved(s, Solo(s, tid, c, k), tid, Local(FinishCascade(View(s), c), t));
    }
  }

  // ----- Every run of the call-atomic model is a run of the step model -----

  /** No call is under way; only cascades are outstanding. */
  ghost predicate Quiet(s: State) {
    forall i :: 0 <= i < |s.threads| ==> s.threads[i].pc.Done? || s.threads[i] == Thread(Handler, RunCascade)
  }

  lemma {:induction false} SomeCascade(threads: seq<Thread>) returns (tid: nat)
    requires Outstanding(threads) > 0
    ensures tid < |threads| && threads[tid].pc.RunCascade?
  {
    if threads[|threads| - 1].pc.RunCascade? {
      tid := |threads| - 1;
    } else {
      tid := SomeCascade(threads[..|threads| - 1]);
    }
  }

  ghost predicate Reaches(s: State, w: World) {
    exists schedule :: Quiet(Run(s, schedule)) && View(Run(s, schedule)) == w
  }

  lemma {:induction false} ReachesBy(s: State, schedule: seq<Action>, first: seq<Action>, tid: nat, c: Choice,
                                     k: nat, w: World)
    requires var n := Solo(Run(Run(s, schedule), first), tid, c, k); Quiet(n) && View(n) == w
    ensures Reaches(s, w)
  {
    var solo := Repeat(Step(tid, c), k);
    RunJoins(s, schedule, first);
    RunJoins(s, schedule + first, solo);
    assert Quiet(Run(s, schedule + first + solo));
  }

  lemma AdvanceIsRealised(s: State, schedule: seq<Action>, to: Status, c: Choice)
    requires Quiet(Run(s, schedule))
    ensures Reaches(s, AdvanceCall(View(Run(s, schedule)), to, c).world)
  {
    var now := Run(s, schedule);
    var r := AdvanceCall(View(now), to, c);
    var tid := |now.threads|;
    RunOne(now, Call(to));
    var called := Next(now, Call(to));
    OutstandingAppend(now.threads, Thread(External, Start(to)));
    FromStart(Local(View(called), called.threads[tid]), tid, c, to);
    var k := SoloCall(called, tid, c, r);
    ReachesBy(s, schedule, [Call(to)], tid, c, k, r.world);
  }

  lemma FinishIsRealised(s: State, schedule: seq<Action>, c: Choice)
    requires Quiet(Run(s, schedule)) && View(Run(s, schedule)).cascades > 0
    ensures Reaches(s, FinishCascade(View(Run(s, schedule)), c))
  {
    var now := Run(s, schedule);
    var tid := SomeCascade(now.threads);
    var l := Local(View(now), now.threads[tid]);
    FromHandler(l, tid, c);
    var k: nat :| LocalRun(l, tid, c, k).world == FinishCascade(View(now), c) && LocalRun(l, tid, c, k).thread.pc.Done?;
    SoloIsLocal(now, tid, c, k);
    assert Run(now, []) == now;
    ReachesBy(s, schedule, [], tid, c, k, FinishCascade(View(now), c));
  }

  lemma StepIsRealised(s: State, schedule: seq<Action>, a: Action)
    requires Quiet(Run(s, schedule)) && (a.SetKey? || a.OtherAppend?)
    ensures Reaches(s, View(Next(Run(s, schedule), a)))
  {
    RunJoins(s, schedule, [a]);
    RunOne(Run(s, schedule), a);
    assert Quiet(Run(s, schedule + [a]));
  }

  /** Whatever the call-atomic model can do, some interleaving of the step model does. */
  lemma {:induction false} CallRunsAreStepRuns(key: KeyState, head: nat, calls: seq<CallAction>)
    ensures Reaches(Created(key, head), RunCalls(NewWorld(key, head), calls))
  {
    var s0 := Created(key, head);
    if calls == [] {
      assert Run(s0, []) == s0;
      assert Quiet(Run(s0, [])) && View(Run(s0, [])) == NewWorld(key, head);
    } else {
      var before, last := calls[..|calls| - 1], calls[|calls| - 1];
      CallRunsAreStepRuns(key, head, before);
      var w := RunCalls(NewWorld(key, head), before);
      var schedule :| Quiet(Run(s0, schedule)) && View(Run(s0, schedule)) == w;
      match last {
        case Advance(to, c) => AdvanceIsRealised(s0, schedule, to, c);
        case Finish(c) => if w.cascades > 0 { FinishIsRealised(s0, schedule, c); }
        case ChangeKey(k) => StepIsRealised(s0, schedule, SetKey(k));
        case ChainGrows => StepIsRealised(s0, schedule, OtherAppend);
      }
    }
  }
}
