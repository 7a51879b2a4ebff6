/** Progress of a chunked sync run, reported by chunks that finish in any order. */
module SyncRuns {
  import opened Text

  datatype Status = Enumerating | Running | Complete

  datatype SyncRun = SyncRun(
    id: string, tenant: string, resource: Option<string>, status: Status,
    total: Option<int>, completed: nat, failed: nat, startedAt: int, completedAt: Option<int>)

  type Docs = map<string, SyncRun>

  // ----- The operations as functions on one run -----

  function NewRun(id: string, tenant: string, resource: Option<string>, now: int): SyncRun {
    SyncRun(id, tenant, if resource == Some("") then None else resource, Enumerating, None, 0, 0, now, None)
  }

  datatype Op = FinalizeTotal(n: int) | Chunk(ok: bool)

  function Perform(run: SyncRun, op: Op, now: int): SyncRun {
    match op
    case FinalizeTotal(n) =>
      var done := run.completed >= n;
      run.(total := Some(n), status := if done then Complete else Running,
           completedAt := if done && run.completedAt.None? then Some(now) else run.completedAt)
    case Chunk(ok) =>
      var counted := run.(completed := run.completed + (if ok then 1 else 0),
                          failed := run.failed + (if ok then 0 else 1));
      if counted.total.Some? && counted.completed >= counted.total.value
      then counted.(status := Complete, completedAt := Some(now)) else counted
  }

  class SyncRunRepository {
    var docs: Docs

    constructor ()
      ensures docs == map[]
    {
      docs := map[];
    }

    method Create(id: string, tenant: string, resource: Option<string>, now: int) returns (run: SyncRun)
      modifies this
      ensures run == NewRun(id, tenant, resource, now) && docs == old(docs)[id := run]
      ensures run.id == id && run.tenant == tenant && run.status == Enumerating && run.startedAt == now
      ensures run.total.None? && run.completed == 0 && run.failed == 0 && run.completedAt.None?
      ensures run.resource == if resource == Some("") then None else resource
    {
      run := SyncRun(id, tenant, None, Enumerating, None, 0, 0, now, None);
      if resource.Some? && resource.value != "" { run := run.(resource := resource); }
      docs := docs[id := run];
    }

    method Get(id: string) returns (run: Option<SyncRun>)
      ensures run == if id in docs then Some(docs[id]) else None
    {
      run := if id in docs then Some(docs[id]) else None;
    }

    method FinalizeTotal(id: string, n: int, now: int) returns (r: Option<SyncRun>)
      modifies this
      ensures id !in old(docs) ==> r == None && docs == old(docs)
      ensures id in old(docs) ==>
        r == Some(Perform(old(docs)[id], Op.FinalizeTotal(n), now)) && docs == old(docs)[id := r.value]
    {
      if id !in docs { return None; }
      var current := docs[id];
      var done := current.completed >= n;
      var updated := current.(total := Some(n), status := if done then Complete else Running);
      if done && current.completedAt.None? {
        updated := updated.(completedAt := Some(now));
      }
      docs := docs[id := updated];
      r := Some(updated);
    }

    method RecordChunkOutcome(id: string, ok: bool, now: int) returns (r: Option<SyncRun>)
      modifies this
      ensures id !in old(docs) ==> r == None && docs == old(docs)
      ensures id in old(docs) ==> r == Some(Perform(old(docs)[id], Chunk(ok), now)) && docs == old(docs)[id := r.value]
    {
      if id !in docs { return None; }
      var updated := docs[id];
      if ok {
        updated := updated.(completed := updated.completed + 1);
      } else {
        updated := updated.(failed := updated.failed + 1);
      }
      if updated.total.Some? && updated.completed >= updated.total.value {
        updated := updated.(status := Complete, completedAt := Some(now));
      }
      docs := docs[id := updated];
      r := Some(updated);
    }
  }

  // ----- Whole runs -----

  /** The run after its first `n` operations; operation `i` happens at `times(i)`. */
  function After(run: SyncRun, ops: seq<Op>, times: nat -> int, n: nat): SyncRun
    requires n <= |ops|
    decreases n
  {
    if n == 0 then run else Perform(After(run, ops, times, n - 1), ops[n - 1], times(n - 1))
  }

  /** Where a run stands, from its total and its completed chunks alone. */
  function StatusOf(total: Option<int>, completed: nat): Status {
    if total.None? then Enumerating else if completed >= total.value then Complete else Running
  }

  function CountOps(ops: seq<Op>, n: nat, op: Op): nat
    requires n <= |ops|
    decreases n
  {
    if n == 0 then 0 else CountOps(ops, n - 1, op) + if ops[n - 1] == op then 1 else 0
  }

  lemma {:induction false} CountIsMultiplicity(ops: seq<Op>, n: nat, op: Op)
    requires n <= |ops|
    ensures CountOps(ops, n, op) == multiset(ops[..n])[op]
    decreases n
  {
    if n > 0 {
      CountIsMultiplicity(ops, n - 1, op);
      assert ops[..n] == ops[..n - 1] + [ops[n - 1]];
    }
  }

  /** At most one finalization, and of this total. */
  ghost predicate FinalizesOnce(ops: seq<Op>, total: int) {
    && (forall i :: 0 <= i < |ops| && ops[i].FinalizeTotal? ==> ops[i].n == total)
    && (forall i, j :: 0 <= i < j < |ops| ==> !(ops[i].FinalizeTotal? && ops[j].FinalizeTotal?))
  }

  /** A fresh run after some operations, from how often each occurred and when the last one was. */
  function Summary(run: SyncRun, total: Option<int>, completed: nat, failed: nat, last: int): SyncRun {
    var status := StatusOf(total, completed);
    run.(total := total, completed := completed, failed := failed, status := status,
         completedAt := if status.Complete? then Some(last) else None)
  }

  lemma {:induction false} AfterIsSummary(run: SyncRun, ops: seq<Op>, times: nat -> int, n: nat, total: int)
    requires n <= |ops| && FinalizesOnce(ops, total)
    requires run == NewRun(run.id, run.tenant, run.resource, run.startedAt)
    ensures After(run, ops, times, n) == Summary(run,
      if CountOps(ops, n, FinalizeTotal(total)) > 0 then Some(total) else None,
      CountOps(ops, n, Chunk(true)), CountOps(ops, n, Chunk(false)), if n == 0 then run.startedAt else times(n - 1))
    ensures CountOps(ops, n, FinalizeTotal(total)) > 0 ==> exists i :: 0 <= i < n && ops[i].FinalizeTotal?
    decreases n
  {
    if n > 0 {
      AfterIsSummary(run, ops, times, n - 1, total);
    }
  }

  lemma CountsAgree(ops: seq<Op>, reordered: seq<Op>, op: Op)
    requires multiset(ops) == multiset(reordered)
    ensures CountOps(ops, |ops|, op) == CountOps(reordered, |reordered|, op)
  {
    assert ops[..|ops|] == ops && reordered[..|reordered|] == reordered;
    CountIsMultiplicity(ops, |ops|, op);
    CountIsMultiplicity(reordered, |reordered|, op);
  }

  lemma SameLength(ops: seq<Op>, reordered: seq<Op>)
    requires multiset(ops) == multiset(reordered)
    ensures |reordered| == |ops|
  {
    assert |multiset(ops)| == |ops| && |multiset(reordered)| == |reordered|;
  }

  /** The summary of all the operations. */
  function FinalSummary(run: SyncRun, ops: seq<Op>, last: int, total: int): SyncRun {
    Summary(run, if CountOps(ops, |ops|, FinalizeTotal(total)) > 0 then Some(total) else None,
            CountOps(ops, |ops|, Chunk(true)), CountOps(ops, |ops|, Chunk(false)), last)
  }

  lemma SummariesAgree(run: SyncRun, ops: seq<Op>, reordered: seq<Op>, last: int, total: int)
    requires multiset(ops) == multiset(reordered)
    ensures FinalSummary(run, ops, last, total) == FinalSummary(run, reordered, last, total)
  {
    CountsAgree(ops, reordered, FinalizeTotal(total));
    CountsAgree(ops, reordered, Chunk(true));
    CountsAgree(ops, reordered, Chunk(false));
  }

  function Final(run: SyncRun, ops: seq<Op>, times: nat -> int): SyncRun {
    After(run, ops, times, |ops|)
  }

  lemma FinalIsSummary(run: SyncRun, ops: seq<Op>, times: nat -> int, total: int)
    requires FinalizesOnce(ops, total)
    requires run == NewRun(run.id, run.tenant, run.resource, run.startedAt)
    ensures Final(run, ops, times)
      == FinalSummary(run, ops, if ops == [] then run.startedAt else times(|ops| - 1), total)
  {
    AfterIsSummary(run, ops, times, |ops|, total);
  }

  /**
   * Chunk reports and the one finalization may arrive in any order: the record they leave is the
   * same, timestamps included.
   */
  lemma OrderDoesNotMatter(run: SyncRun, ops: seq<Op>, reordered: seq<Op>, times: nat -> int, total: int)
    requires run == NewRun(run.id, run.tenant, run.resource, run.startedAt)
    requires FinalizesOnce(ops, total) && multiset(ops) == multiset(reordered)
    ensures Final(run, ops, times) == Final(run, reordered, times)
  {
    SameLength(ops, reordered);
    var last := if ops == [] then run.startedAt else times(|ops| - 1);
    calc {
      Final(run, ops, times);
    == { FinalIsSummary(run, ops, times, total); }
      FinalSummary(run, ops, last, total);
    == { SummariesAgree(run, ops, reordered, last, total); }
      FinalSummary(run, reordered, last, total);
    == { SameFinalization(ops, reordered, total); FinalIsSummary(run, reordered, times, total); }
      Final(run, reordered, times);
    }
  }

  lemma SameFinalization(ops: seq<Op>, reordered: seq<Op>, total: int)
    requires FinalizesOnce(ops, total) && multiset(ops) == multiset(reordered)
    ensures FinalizesOnce(reordered, total)
  {
    forall i | 0 <= i < |reordered| && reordered[i].FinalizeTotal? ensures reordered[i].n == total {
      assert reordered[i] in multiset(ops);
    }
    OnceIsOne(ops, total, |ops|);
    CountIsMultiplicity(ops, |ops|, FinalizeTotal(total));
    assert ops[..|ops|] == ops;
    forall i, j | 0 <= i < j < |reordered| ensures !(reordered[i].FinalizeTotal? && reordered[j].FinalizeTotal?) {
      if reordered[i] == reordered[j] {
        TwiceIsTwo(reordered, i, j);
      }
    }
  }

  lemma TwiceIsTwo(ops: seq<Op>, i: nat, j: nat)
    requires i < j < |ops| && ops[i] == ops[j]
    ensures multiset(ops)[ops[i]] >= 2
  {
    assert ops == ops[..i] + [ops[i]] + ops[i + 1..j] + [ops[j]] + ops[j + 1..];
  }

  lemma {:induction false} OnceIsOne(ops: seq<Op>, total: int, n: nat)
    requires n <= |ops| && FinalizesOnce(ops, total)
    ensures CountOps(ops, n, FinalizeTotal(total)) <= 1
    ensures CountOps(ops, n, FinalizeTotal(total)) == 1 ==> exists i :: 0 <= i < n && ops[i].FinalizeTotal?
    decreases n
  {
    if n > 0 {
      OnceIsOne(ops, total, n - 1);
    }
  }

  // ----- When completedAt tells the truth -----

  /** A second finalization that raises the total of a run already complete. */
  predicate Reopens(run: SyncRun, op: Op) {
    op.FinalizeTotal? && run.status.Complete? && op.n > run.completed
  }

  predicate Truthful(run: SyncRun) {
    run.completedAt.Some? <==> run.status.Complete?
  }

  predicate Sound(run: SyncRun) {
    run.status == StatusOf(run.total, run.completed) && (run.status.Complete? ==> run.completedAt.Some?)
  }

  lemma StepOfTruth(run: SyncRun, op: Op, now: int)
    requires Sound(run)
    ensures Sound(Perform(run, op, now))
    ensures Reopens(run, op) ==> !Truthful(Perform(run, op, now))
    ensures Truthful(run) && !Reopens(run, op) ==> Truthful(Perform(run, op, now))
  {
  }

  /** Whatever is reported, and however often the total is finalized, the status is the same function. */
  lemma {:induction false} StatusIsAlwaysTheFunction(run: SyncRun, ops: seq<Op>, times: nat -> int, n: nat)
    requires n <= |ops| && run == NewRun(run.id, run.tenant, run.resource, run.startedAt)
    ensures Sound(After(run, ops, times, n))
    decreases n
  {
    if n > 0 {
      StatusIsAlwaysTheFunction(run, ops, times, n - 1);
      StepOfTruth(After(run, ops, times, n - 1), ops[n - 1], times(n - 1));
    }
  }

  predicate TruthfulAt(run: SyncRun, ops: seq<Op>, times: nat -> int, n: nat)
    requires n <= |ops|
  {
    Truthful(After(run, ops, times, n))
  }

  predicate ReopensAt(run: SyncRun, ops: seq<Op>, times: nat -> int, n: nat)
    requires n < |ops|
  {
    Reopens(After(run, ops, times, n), ops[n])
  }

  /**
   * Under any operations whatever, completedAt is present exactly in complete runs all along the way
   * if and only if no finalization ever reopens a complete run; it stays set on a reopened one.
   */
  lemma CompletedAtTruthfulExactlyWhen(run: SyncRun, ops: seq<Op>, times: nat -> int)
    requires run == NewRun(run.id, run.tenant, run.resource, run.startedAt)
    ensures (forall n: nat :: n <= |ops| ==> TruthfulAt(run, ops, times, n))
      <==> (forall n: nat :: n < |ops| ==> !ReopensAt(run, ops, times, n))
  {
    if n: nat :| n < |ops| && ReopensAt(run, ops, times, n) {
      StatusIsAlwaysTheFunction(run, ops, times, n);
      StepOfTruth(After(run, ops, times, n), ops[n], times(n));
      assert !TruthfulAt(run, ops, times, n + 1);
    } else {
      forall n: nat | n <= |ops| ensures TruthfulAt(run, ops, times, n) {
        TruthfulUnlessReopened(run, ops, times, n);
      }
    }
  }

  lemma {:induction false} TruthfulUnlessReopened(run: SyncRun, ops: seq<Op>, times: nat -> int, n: nat)
    requires n <= |ops| && run == NewRun(run.id, run.tenant, run.resource, run.startedAt)
    requires forall k: nat :: k < |ops| ==> !ReopensAt(run, ops, times, k)
    ensures Truthful(After(run, ops, times, n))
    decreases n
  {
    if n > 0 {
      TruthfulUnlessReopened(run, ops, times, n - 1);
      StatusIsAlwaysTheFunction(run, ops, times, n - 1);
      assert !ReopensAt(run, ops, times, n - 1);
      StepOfTruth(After(run, ops, times, n - 1), ops[n - 1], times(n - 1));
    }
  }

  // ----- What each report changes -----

  /**
   * A finalization sets the total and never moves a completion time that is there; a chunk counts once,
   * as completed or failed, and marks the completion with its own time exactly when the total is reached.
   */
  lemma ReportsChange(run: SyncRun, op: Op, now: int)
    ensures var after := Perform(run, op, now);
      && after.id == run.id && after.tenant == run.tenant && after.resource == run.resource
      && after.startedAt == run.startedAt
      && match op
         case FinalizeTotal(n) =>
           && after.total == Some(n) && after.completed == run.completed && after.failed == run.failed
           && (run.completedAt.Some? ==> after.completedAt == run.completedAt)
           && (run.completedAt.None? ==> after.completedAt == if run.completed >= n then Some(now) else None)
         case Chunk(ok) =>
           && after.total == run.total
           && after.completed + after.failed == run.completed + run.failed + 1
           && after.completed == run.completed + (if ok then 1 else 0)
           && (run.total.Some? && after.completed >= run.total.value ==>
                 after.status == Complete && after.completedAt == Some(now))
           && (run.total.None? || after.completed < run.total.value ==>
                 after.status == run.status && after.completedAt == run.completedAt)
  {
  }
}
