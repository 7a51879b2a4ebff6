/**
 * The deletion protocol one call at a time: an `advanceRequest` call runs to its
 * end, and a dispatched cascade finishes as a later call of its own.
 */
module DeletionCalls {
  import opened DeletionStatus
  import opened KeyStates
  import opened DeletionSteps

  datatype World = World(doc: Doc, key: KeyState, head: nat, cascades: nat, issued: nat)

  /** How a call ends: with a value, or with an exception. */
  datatype CallResult = Returned(world: World) | Threw(world: World)

  function Written(w: World, to: Status): World {
    w.(doc := w.doc.(status := to, history := w.doc.history + [to]))
  }

  /** Bounds the recursion of `advanceRequest`. */
  function Rank(to: Status): nat {
    if to.CascadePending? || to.CascadeInProgress? || to.CascadeComplete? then 1 else 0
  }

  function AdvanceCall(w: World, to: Status, c: Choice): CallResult
    decreases Rank(to)
  {
    var from := w.doc.status;
    if !IsValidTransition(from, to) then Threw(w)
    else match to
      case KeyDestroyed =>
        var claimed := Written(w, to);
        if c.shredOk then Returned(claimed.(key := Shredded)) else Threw(Written(claimed, from))
      case CascadePending =>
        if NothingToDo(c.plan) then AdvanceCall(Written(w, CascadeComplete), CertificateIssued, c)
        else if c.plan.PlanFailed? then AdvanceCall(w, CascadePartialFailure, c)
        else Returned(Written(w, to).(cascades := w.cascades + 1))
      case CascadeInProgress =>
        if NothingToDo(c.plan) then AdvanceCall(Written(w, CascadeComplete), CertificateIssued, c)
        else if c.plan.PlanFailed? then Returned(w)
        else Returned(Written(w, to).(cascades := w.cascades + 1))
      case CascadeComplete => AdvanceCall(Written(w, to), CertificateIssued, c)
      case CascadePartialFailure => Returned(Written(w, to))
      case CertificateIssued => IssueCall(w, from, c)
      case ShredRequested => Returned(Written(w, to))
  }

  /** The CERTIFICATE_ISSUED case: claim, issue and store, or roll back and rethrow. */
  function IssueCall(w: World, from: Status, c: Choice): CallResult {
    var claimed := Written(w, CertificateIssued);
    if !c.readOk || !Gone(w.key) || !c.signOk then Threw(Written(claimed, from))
    else
      var chained := claimed.(head := w.head + 1);
      if !c.storeOk then Threw(Written(chained, from))
      else Returned(chained.(doc := chained.doc.(stored := true), issued := w.issued + 1))
  }

  /** The end of the cascade's `.then` handler, and its `.catch` when that throws. */
  function AdvanceOrRecover(w: World, to: Status, c: Choice): World {
    var r := AdvanceCall(w, to, c);
    if r.Returned? then r.world else AdvanceCall(r.world, CascadePartialFailure, c).world
  }

  /** A dispatched cascade comes back. */
  function FinishCascade(w: World, c: Choice): World
    requires w.cascades > 0
  {
    var w1 := w.(cascades := w.cascades - 1);
    if c.results.Rejected? then AdvanceCall(w1, CascadePartialFailure, c).world
    else AdvanceOrRecover(w1, if Clean(c.results) then CascadeComplete else CascadePartialFailure, c)
  }

  datatype CallAction =
    | Advance(to: Status, choice: Choice)
    | Finish(choice: Choice)
    | ChangeKey(key: KeyState)
    | ChainGrows

  function NextCall(w: World, a: CallAction): World {
    match a
    case Advance(to, c) => AdvanceCall(w, to, c).world
    case Finish(c) => if w.cascades > 0 then FinishCascade(w, c) else w
    case ChangeKey(key) => w.(key := key)
    case ChainGrows => w.(head := w.head + 1)
  }

  function RunCalls(w: World, calls: seq<CallAction>): World {
    if calls == [] then w
    else NextCall(RunCalls(w, calls[..|calls| - 1]), calls[|calls| - 1])
  }

  function NewWorld(key: KeyState, head: nat): World {
    World(Doc(ShredRequested, [ShredRequested], false), key, head, 0, 0)
  }

  // ----- What every reachable world satisfies -----

  /** The edges a history may show: the table, the two shortcuts, the two rollbacks. */
  predicate IsEdge(a: Status, b: Status) {
    || IsValidTransition(a, b)
    || (b.CascadeComplete? && (a.KeyDestroyed? || a.CascadePartialFailure?))
    || (a.KeyDestroyed? && b.ShredRequested?)
    || (a.CertificateIssued? && b.CascadeComplete?)
  }

  ghost predicate HistoryOk(doc: Doc) {
    && doc.history != []
    && doc.history[0] == ShredRequested
    && doc.history[|doc.history| - 1] == doc.status
    && forall i :: 0 < i < |doc.history| ==> IsEdge(doc.history[i - 1], doc.history[i])
  }

  ghost predicate WorldOk(w: World) {
    && HistoryOk(w.doc)
    && (Cascading(w.doc.status) ==> w.cascades > 0)
    && (w.cascades > 0 ==> !w.doc.status.ShredRequested? && !w.doc.status.KeyDestroyed?)
    && (w.doc.stored <==> w.doc.status.CertificateIssued?)
    && w.issued == (if w.doc.status.CertificateIssued? then 1 else 0)
  }

  lemma WrittenHistory(w: World, to: Status)
    requires HistoryOk(w.doc) && IsEdge(w.doc.status, to)
    ensures HistoryOk(Written(w, to).doc)
  {
  }

  lemma IssueCallOk(w: World, c: Choice)
    requires w.doc.status.CascadeComplete? && HistoryOk(w.doc)
    requires !w.doc.stored && w.issued == 0
    ensures WorldOk(IssueCall(w, CascadeComplete, c).world)
    ensures IssueCall(w, CascadeComplete, c).world.doc.status
      == if IssueCall(w, CascadeComplete, c).Returned? then CertificateIssued else CascadeComplete
    ensures IssueCall(w, CascadeComplete, c).world.cascades == w.cascades
  {
  }

  lemma {:induction false} AdvanceCallOk(w: World, to: Status, c: Choice)
    requires WorldOk(w)
    ensures WorldOk(AdvanceCall(w, to, c).world)
    ensures w.doc.status.CertificateIssued? ==> AdvanceCall(w, to, c) == Threw(w)
  {
    if IsValidTransition(w.doc.status, to) {
      WrittenHistory(w, to);
      match to {
        case KeyDestroyed =>
          WrittenHistory(Written(w, to), ShredRequested);
        case CascadePending =>
          WrittenHistory(w, CascadeComplete);
          WrittenHistory(w, CascadePartialFailure);
          IssueCallOk(Written(w, CascadeComplete), c);
        case CascadeInProgress =>
          WrittenHistory(w, CascadeComplete);
          IssueCallOk(Written(w, CascadeComplete), c);
        case CascadeComplete =>
          IssueCallOk(Written(w, CascadeComplete), c);
        case CertificateIssued =>
          IssueCallOk(w, c);
        case _ =>
      }
    }
  }

  /** Whatever came back, the finished handler leaves a visible end state. */
  lemma FinishCascadeOk(w: World, c: Choice)
    requires WorldOk(w) && w.cascades > 0
    ensures WorldOk(FinishCascade(w, c))
    ensures var end := FinishCascade(w, c).doc.status; end.CertificateIssued? || end.CascadePartialFailure?
  {
    var w1 := w.(cascades := w.cascades - 1);
    var failed := Written(w1, CascadePartialFailure);
    if !w.doc.status.CertificateIssued? && !w.doc.status.CascadePartialFailure? {
      WrittenHistory(w1, CascadePartialFailure);
      if c.results.Settled? && Clean(c.results) && Cascading(w.doc.status) {
        WrittenHistory(w1, CascadeComplete);
        IssueCallOk(Written(w1, CascadeComplete), c);
        var r := IssueCall(Written(w1, CascadeComplete), CascadeComplete, c);
        if r.Threw? {
          WrittenHistory(r.world, CascadePartialFailure);
        }
      }
    }
  }

  lemma {:induction false} NextCallOk(w: World, a: CallAction)
    requires WorldOk(w)
    ensures WorldOk(NextCall(w, a))
  {
    match a {
      case Advance(to, c) => AdvanceCallOk(w, to, c);
      case Finish(c) => if w.cascades > 0 { FinishCascadeOk(w, c); }
      case _ =>
    }
  }

  lemma {:induction false} RunCallsOk(w: World, calls: seq<CallAction>)
    requires WorldOk(w)
    ensures WorldOk(RunCalls(w, calls))
  {
    if calls != [] {
      RunCallsOk(w, calls[..|calls| - 1]);
      NextCallOk(RunCalls(w, calls[..|calls| - 1]), calls[|calls| - 1]);
    }
  }

  // ----- The main results -----

  /** No silent stall: a request in a cascading status always has a cascade that will report. */
  lemma {:induction false} NoSilentStall(key: KeyState, head: nat, calls: seq<CallAction>, c: Choice)
    ensures var w := RunCalls(NewWorld(key, head), calls);
      && (w.doc.status.CascadePending? || w.doc.status.CascadeInProgress? ==> w.cascades > 0)
      && (w.cascades > 0 ==>
            var end := FinishCascade(w, c).doc.status; end.CertificateIssued? || end.CascadePartialFailure?)
  {
    RunCallsOk(NewWorld(key, head), calls);
    var w := RunCalls(NewWorld(key, head), calls);
    if w.cascades > 0 {
      FinishCascadeOk(w, c);
    }
  }

  /** The history is a walk along legal edges that ends in the current status. */
  lemma {:induction false} HistoryIsAWalk(key: KeyState, head: nat, calls: seq<CallAction>)
    ensures HistoryOk(RunCalls(NewWorld(key, head), calls).doc)
  {
    RunCallsOk(NewWorld(key, head), calls);
  }

  /** A certificate is issued at most once, exactly when the status says so, and nothing undoes it. */
  lemma IssuedOnceAndFinal(key: KeyState, head: nat, before: seq<CallAction>, after: seq<CallAction>)
    ensures var w := RunCalls(NewWorld(key, head), before);
      && (w.doc.status.CertificateIssued? <==> w.issued == 1) && w.issued <= 1
      && (w.doc.status.CertificateIssued? ==> RunCalls(w, after).doc == w.doc && RunCalls(w, after).issued == 1)
  {
    RunCallsOk(NewWorld(key, head), before);
    var w := RunCalls(NewWorld(key, head), before);
    if w.doc.status.CertificateIssued? {
      IssuedStays(w, after);
    }
  }

  lemma {:induction false} IssuedStays(w: World, calls: seq<CallAction>)
    requires WorldOk(w) && w.doc.status.CertificateIssued?
    ensures RunCalls(w, calls).doc == w.doc && RunCalls(w, calls).issued == w.issued
  {
    if calls != [] {
      IssuedStays(w, calls[..|calls| - 1]);
    }
  }

  /** The generic write at the end of `advanceRequest` is reached only for a status no edge leads to. */
  lemma TailWriteUnreachable(from: Status, to: Status)
    ensures Dispatch(from, to).TailWrite? ==> !IsValidTransition(from, to)
  {
  }

  // ----- Which requests can still be certified -----

  predicate OwnAction(a: CallAction) {
    a.Advance? || a.Finish?
  }

  ghost predicate CanBeCertified(w: World) {
    exists calls :: (forall i :: 0 <= i < |calls| ==> OwnAction(calls[i]))
      && RunCalls(w, calls).doc.status.CertificateIssued?
  }

  /** The guard a caller can check: the key can still be, or has been, destroyed. */
  predicate Certifiable(w: World) {
    w.doc.status.ShredRequested? || w.doc.status.CertificateIssued? || Gone(w.key)
  }

  /**
   * Once a request has left SHRED_REQUESTED, none of its own calls destroys the key again; so
   * if the key is not destroyed by then (as on the edge straight to CASCADE_PARTIAL_FAILURE),
   * no sequence of retries ever reaches a certificate, and otherwise some sequence does.
   */
  lemma {:induction false} CertifiableExactlyWhen(w: World)
    requires WorldOk(w)
    ensures CanBeCertified(w) <==> Certifiable(w)
  {
    if Certifiable(w) {
      PathToCertificate(w);
    } else {
      forall more: seq<CallAction> | forall i :: 0 <= i < |more| ==> OwnAction(more[i])
        ensures !RunCalls(w, more).doc.status.CertificateIssued?
      {
        StaysUncertifiable(w, more);
      }
    }
  }

  /** So it is after every run. */
  lemma {:induction false} ReachableCertifiableExactlyWhen(key: KeyState, head: nat, calls: seq<CallAction>)
    ensures var w := RunCalls(NewWorld(key, head), calls);
      CanBeCertified(w) <==> Certifiable(w)
  {
    RunCallsOk(NewWorld(key, head), calls);
    CertifiableExactlyWhen(RunCalls(NewWorld(key, head), calls));
  }

  lemma {:induction false} AdvanceStaysUncertifiable(w: World, to: Status, c: Choice)
    requires !Certifiable(w)
    ensures !Certifiable(AdvanceCall(w, to, c).world)
    decreases Rank(to)
  {
    if IsValidTransition(w.doc.status, to) {
      match to {
        case CascadePending =>
          AdvanceStaysUncertifiable(Written(w, CascadeComplete), CertificateIssued, c);
        case CascadeInProgress =>
          AdvanceStaysUncertifiable(Written(w, CascadeComplete), CertificateIssued, c);
        case CascadeComplete =>
          AdvanceStaysUncertifiable(Written(w, CascadeComplete), CertificateIssued, c);
        case _ =>
      }
    }
  }

  lemma FinishStaysUncertifiable(w: World, c: Choice)
    requires !Certifiable(w) && w.cascades > 0
    ensures !Certifiable(FinishCascade(w, c))
  {
    var w1 := w.(cascades := w.cascades - 1);
    AdvanceStaysUncertifiable(w1, CascadePartialFailure, c);
    AdvanceStaysUncertifiable(w1, CascadeComplete, c);
    AdvanceStaysUncertifiable(AdvanceCall(w1, CascadePartialFailure, c).world, CascadePartialFailure, c);
    AdvanceStaysUncertifiable(AdvanceCall(w1, CascadeComplete, c).world, CascadePartialFailure, c);
  }

  lemma {:induction false} StaysUncertifiable(w: World, calls: seq<CallAction>)
    requires !Certifiable(w) && forall i :: 0 <= i < |calls| ==> OwnAction(calls[i])
    ensures !Certifiable(RunCalls(w, calls))
  {
    if calls != [] {
      var before, last := calls[..|calls| - 1], calls[|calls| - 1];
      assert OwnAction(last);
      StaysUncertifiable(w, before);
      var now := RunCalls(w, before);
      match last {
        case Advance(to, c) => AdvanceStaysUncertifiable(now, to, c);
        case Finish(c) => if now.cascades > 0 { FinishStaysUncertifiable(now, c); }
      }
    }
  }

  const FAVOURABLE: Choice :=
    Choice(true, true, true, true, true, Planned([], [], []), Settled([], [], []))

  lemma OneCall(w: World, to: Status)
    requires AdvanceCall(w, to, FAVOURABLE).world.doc.status.CertificateIssued?
    ensures CanBeCertified(w)
  {
    var calls := [Advance(to, FAVOURABLE)];
    assert RunCalls(w, calls[..0]) == w;
    assert RunCalls(w, calls).doc.status.CertificateIssued?;
  }

  lemma PathToCertificate(w: World)
    requires WorldOk(w) && Certifiable(w)
    ensures CanBeCertified(w)
  {
    match w.doc.status {
      case ShredRequested =>
        var first, second := Advance(KeyDestroyed, FAVOURABLE), Advance(CascadePending, FAVOURABLE);
        var calls := [first, second];
        assert calls[..1] == [first] && [first][..0] == [];
        assert RunCalls(w, []) == w;
        assert RunCalls(w, [first]) == NextCall(w, first);
        assert RunCalls(w, calls) == NextCall(NextCall(w, first), second);
      case KeyDestroyed => OneCall(w, CascadePending);
      case CascadePending => OneCall(w, CascadeComplete);
      case CascadeInProgress => OneCall(w, CascadeComplete);
      case CascadePartialFailure => OneCall(w, CascadeInProgress);
      case CascadeComplete => OneCall(w, CertificateIssued);
      case CertificateIssued => assert RunCalls(w, []) == w;
    }
  }

  // ----- Which requests have destroyed their key -----

  /** The request went straight from SHRED_REQUESTED to CASCADE_PARTIAL_FAILURE at some time. */
  ghost predicate SkippedShred(history: seq<Status>) {
    exists i :: 0 < i < |history| && history[i - 1].ShredRequested? && history[i].CascadePartialFailure?
  }

  lemma WrittenSkipped(w: World, to: Status)
    requires HistoryOk(w.doc)
    ensures SkippedShred(Written(w, to).doc.history)
      <==> SkippedShred(w.doc.history) || (w.doc.status.ShredRequested? && to.CascadePartialFailure?)
  {
    var before, after := w.doc.history, Written(w, to).doc.history;
    if SkippedShred(before) {
      var i :| 0 < i < |before| && before[i - 1].ShredRequested? && before[i].CascadePartialFailure?;
      assert after[i - 1].ShredRequested? && after[i].CascadePartialFailure?;
    }
    assert after[|before| - 1] == w.doc.status && after[|before|] == to;
  }

  /** What the stored history says about a key only this request touches. */
  ghost predicate KeyFollows(w: World) {
    && WorldOk(w)
    && if w.doc.status.ShredRequested? then !Gone(w.key) && !SkippedShred(w.doc.history)
       else Gone(w.key) <==> !SkippedShred(w.doc.history)
  }

  /** Away from SHRED_REQUESTED a call touches neither the key nor what the history says about it. */
  lemma {:induction false} AdvanceKeepsKey(w: World, to: Status, c: Choice)
    requires HistoryOk(w.doc) && !w.doc.status.ShredRequested?
    ensures var n := AdvanceCall(w, to, c).world;
      && n.key == w.key && !n.doc.status.ShredRequested? && HistoryOk(n.doc)
      && (SkippedShred(n.doc.history) <==> SkippedShred(w.doc.history))
    decreases Rank(to)
  {
    if IsValidTransition(w.doc.status, to) {
      WrittenHistory(w, to);
      WrittenSkipped(w, to);
      match to {
        case CascadePending =>
          WrittenHistory(w, CascadeComplete);
          WrittenSkipped(w, CascadeComplete);
          AdvanceKeepsKey(Written(w, CascadeComplete), CertificateIssued, c);
          AdvanceKeepsKey(w, CascadePartialFailure, c);
        case CascadeInProgress =>
          WrittenHistory(w, CascadeComplete);
          WrittenSkipped(w, CascadeComplete);
          AdvanceKeepsKey(Written(w, CascadeComplete), CertificateIssued, c);
        case CascadeComplete =>
          AdvanceKeepsKey(Written(w, CascadeComplete), CertificateIssued, c);
        case CertificateIssued =>
          WrittenHistory(Written(w, to), CascadeComplete);
          WrittenSkipped(Written(w, to), CascadeComplete);
          var chained := Written(w, to).(head := w.head + 1);
          assert Written(chained, CascadeComplete).doc == Written(Written(w, to), CascadeComplete).doc;
        case _ =>
      }
    }
  }

  /** From SHRED_REQUESTED a call destroys the key, skips it, or comes back. */
  lemma {:induction false} AdvanceFollows(w: World, to: Status, c: Choice)
    requires KeyFollows(w)
    ensures KeyFollows(AdvanceCall(w, to, c).world)
  {
    AdvanceCallOk(w, to, c);
    if !w.doc.status.ShredRequested? {
      AdvanceKeepsKey(w, to, c);
    } else if IsValidTransition(w.doc.status, to) {
      WrittenHistory(w, to);
      WrittenSkipped(w, to);
      WrittenSkipped(Written(w, KeyDestroyed), ShredRequested);
    }
  }

  lemma {:induction false} FinishFollows(w: World, c: Choice)
    requires KeyFollows(w) && w.cascades > 0
    ensures KeyFollows(FinishCascade(w, c))
  {
    FinishCascadeOk(w, c);
    var w1 := w.(cascades := w.cascades - 1);
    var to := if c.results.Rejected? || !Clean(c.results) then CascadePartialFailure else CascadeComplete;
    AdvanceKeepsKey(w1, to, c);
    AdvanceKeepsKey(AdvanceCall(w1, to, c).world, CascadePartialFailure, c);
  }

  lemma {:induction false} RunFollows(w: World, calls: seq<CallAction>)
    requires KeyFollows(w) && forall i :: 0 <= i < |calls| ==> !calls[i].ChangeKey?
    ensures KeyFollows(RunCalls(w, calls))
  {
    if calls != [] {
      var before, last := calls[..|calls| - 1], calls[|calls| - 1];
      RunFollows(w, before);
      var now := RunCalls(w, before);
      match last {
        case Advance(to, c) => AdvanceFollows(now, to, c);
        case Finish(c) => if now.cascades > 0 { FinishFollows(now, c); }
        case _ =>
      }
    }
  }

  /**
   * Exactly when a request that has left SHRED_REQUESTED, completed or not, has destroyed the key it
   * started with: its stored history shows no step from SHRED_REQUESTED straight to
   * CASCADE_PARTIAL_FAILURE. Nobody but the request touches the key.
   */
  lemma {:induction false} LiveKeyExactlyWhen(key: KeyState, head: nat, calls: seq<CallAction>)
    requires !Gone(key) && forall i :: 0 <= i < |calls| ==> !calls[i].ChangeKey?
    ensures var w := RunCalls(NewWorld(key, head), calls);
      !w.doc.status.ShredRequested? ==> (w.key.Shredded? || w.key.Deleted? <==> !SkippedShred(w.doc.history))
  {
    RunFollows(NewWorld(key, head), calls);
  }
}
