/** A cascading request is never left alone, in any interleaving, and what carries it settles it. */
module DeletionProgress {
  import opened DeletionStatus
  import opened KeyStates
  import opened DeletionSteps
  import opened DeletionSafety
  import opened SoloRefinement

  /** While the request is in `status`, the thread is bound to move it out of the cascading statuses. */
  predicate Carries(status: Status, t: Thread) {
    match t.pc
    case Attach(to) => Cascading(to)
    case RunCascade => t.caller.Handler?
    case WriteComplete => t.caller.Handler?
    case Start(to) =>
      if t.caller.Recovery? then to.CascadePartialFailure?
      else t.caller.Handler? && (to.CascadeComplete? || to.CascadePartialFailure? || to.CertificateIssued?)
    case Claim(from, to) => from == status && to.CascadePartialFailure?
    case _ => false
  }

  ghost predicate Carried(s: State) {
    Cascading(s.shared.doc.status) ==>
      exists i :: 0 <= i < |s.threads| && Carries(s.shared.doc.status, s.threads[i])
  }

  /** Steps a carrier and the cascade it dispatches need at most, whatever the outcomes. */
  function Left(t: Thread): nat {
    match t.pc
    case Attach(_) => 6
    case RunCascade => 5
    case Start(_) => if t.caller.Handler? then 4 else 2
    case _ => 1
  }

  /** Whatever the outcome of its step, a carrier settles the request or leaves a carrier that is closer to that. */
  lemma CarrierStep(m: Shared, tid: nat, t: Thread, c: Choice)
    requires WellPlaced(t) && Cascading(m.doc.status) && Carries(m.doc.status, t)
    ensures var e := StepOf(m, tid, t, c);
      || !Cascading(e.shared.doc.status)
      || (e.shared.doc.status == m.doc.status
          && if e.dispatches then t.pc.Attach? else Carries(m.doc.status, e.thread) && Left(e.thread) < Left(t))
  {
  }

  /** A step that brings or changes a cascading status leaves its own thread as the carrier. */
  lemma StatusStep(m: Shared, tid: nat, t: Thread, c: Choice)
    requires WellPlaced(t)
    ensures var e := StepOf(m, tid, t, c);
      Cascading(e.shared.doc.status) && e.shared.doc.status != m.doc.status ==> Carries(e.shared.doc.status, e.thread)
  {
  }

  lemma ApplyCarried(s: State, tid: nat, e: Effect, i: nat)
    requires tid < |s.threads|
    requires || Carries(e.shared.doc.status, e.thread)
             || e.dispatches
             || (i < |s.threads| && i != tid && Carries(e.shared.doc.status, s.threads[i]))
    ensures Carried(Apply(s, tid, e))
  {
    var n := Apply(s, tid, e);
    if Carries(e.shared.doc.status, e.thread) {
      assert Carries(n.shared.doc.status, n.threads[tid]);
    } else if e.dispatches {
      assert Carries(n.shared.doc.status, n.threads[|s.threads|]);
    } else {
      assert Carries(n.shared.doc.status, n.threads[i]);
    }
  }

  lemma StepCarried(s: State, a: Action)
    requires Placed(s) && Carried(s)
    ensures Carried(Next(s, a))
  {
    var x := s.shared.doc.status;
    if a.Step? && a.tid < |s.threads| {
      var e := StepOf(s.shared, a.tid, s.threads[a.tid], a.choice);
      StatusStep(s.shared, a.tid, s.threads[a.tid], a.choice);
      if e.shared.doc.status != x {
        if Cascading(e.shared.doc.status) {
          ApplyCarried(s, a.tid, e, a.tid);
        }
      } else if Cascading(x) {
        var i :| 0 <= i < |s.threads| && Carries(x, s.threads[i]);
        if i == a.tid {
          CarrierStep(s.shared, i, s.threads[i], a.choice);
        }
        ApplyCarried(s, a.tid, e, i);
      }
    } else if Cascading(x) {
      var i :| 0 <= i < |s.threads| && Carries(x, s.threads[i]);
      assert Carries(x, Next(s, a).threads[i]);
    }
  }

  lemma {:induction false} RunCarried(s: State, schedule: seq<Action>)
    requires Placed(s) && Carried(s)
    ensures Carried(Run(s, schedule))
  {
    if schedule != [] {
      var before, a := schedule[..|schedule| - 1], schedule[|schedule| - 1];
      RunCarried(s, before);
      RunPlaced(s, before);
      StepCarried(Run(s, before), a);
    }
  }

  /** Each step is one of a thread that carries the request there; the choices are these, in this order. */
  ghost predicate CarrierSteps(s: State, schedule: seq<Action>, choices: seq<Choice>)
    decreases |schedule|
  {
    schedule == [] ||
    (choices != [] && schedule[0].Step? && schedule[0].choice == choices[0]
     && schedule[0].tid < |s.threads| && Carries(s.shared.doc.status, s.threads[schedule[0].tid])
     && CarrierSteps(Next(s, schedule[0]), schedule[1..], choices[1..]))
  }

  /** The carrier's own steps, and those of the cascade it dispatches, settle the request. */
  lemma {:induction false} CarrierSettles(s: State, i: nat, choices: seq<Choice>) returns (schedule: seq<Action>)
    requires Placed(s) && i < |s.threads| && Cascading(s.shared.doc.status)
    requires Carries(s.shared.doc.status, s.threads[i]) && Left(s.threads[i]) <= |choices|
    ensures CarrierSteps(s, schedule, choices) && !Cascading(Run(s, schedule).shared.doc.status)
    decreases Left(s.threads[i])
  {
    var a := Step(i, choices[0]);
    var n := Next(s, a);
    CarrierStep(s.shared, i, s.threads[i], choices[0]);
    StepPlaced(s, a);
    RunOne(s, a);
    schedule := [a];
    if Cascading(n.shared.doc.status) {
      var j := if |n.threads| == |s.threads| then i else |s.threads|;
      var rest := CarrierSettles(n, j, choices[1..]);
      RunJoins(s, schedule, rest);
      schedule := schedule + rest;
      assert schedule[1..] == rest;
    }
  }

  /**
   * No silent stall, in any interleaving: a request in CASCADE_PENDING or CASCADE_IN_PROGRESS always has
   * a thread in flight that carries it, and whatever six outcomes come next, at most six steps of such
   * threads bring it to another status.
   */
  lemma {:induction false} NoStallAnywhere(key: KeyState, head: nat, schedule: seq<Action>, choices: seq<Choice>)
    requires |choices| == 6
    ensures var s := Run(Created(key, head), schedule);
      && (s.shared.doc.status.CascadePending? || s.shared.doc.status.CascadeInProgress? ==>
            exists i :: 0 <= i < |s.threads| && Carries(s.shared.doc.status, s.threads[i]))
      && exists more :: CarrierSteps(s, more, choices)
           && !Run(s, more).shared.doc.status.CascadePending? && !Run(s, more).shared.doc.status.CascadeInProgress?
  {
    var s := Run(Created(key, head), schedule);
    RunCarried(Created(key, head), schedule);
    RunPlaced(Created(key, head), schedule);
    if Cascading(s.shared.doc.status) {
      var i :| 0 <= i < |s.threads| && Carries(s.shared.doc.status, s.threads[i]);
      var more := CarrierSettles(s, i, choices);
    } else {
      assert CarrierSteps(s, [], choices) && Run(s, []) == s;
    }
  }
}
