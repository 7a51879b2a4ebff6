/** The janitor's cleanup: a plan, and for each task up to three wipe attempts with backoff. */
module Janitor {
  import opened Text
  import opened Filters
  import opened Connectors

  const MAX_RETRIES: nat := 3

  /** What a connector's wipe gives; an exception counts as a failure that does not say. */
  datatype Response =
    | Success(recordsFound: Option<nat>)
    | Failure(retryable: Option<bool>)
    | Exception

  predicate Retryable(r: Response) {
    match r
    case Success(_) => false
    case Failure(retryable) => retryable != Some(false)
    case Exception => true
  }

  /** An answer is tried again unless it is a success, or a failure that says it cannot be. */
  lemma RetryableExactlyWhen(r: Response)
    ensures Retryable(r) <==> r.Exception? || (r.Failure? && (r.retryable.None? || r.retryable.value))
  {
  }

  /** A task's outcome; no attempts when its connector was gone by then. */
  datatype Task = Task(destination: string, complete: bool, attempts: nat, recordsFound: Option<nat>)

  /** What a task's connector answers at each attempt, and the jitter drawn after it. */
  type Wire = nat -> Response
  type Jitter = nat -> real

  predicate Fair(jitter: Jitter, attempts: nat) {
    forall k :: 0 <= k <= attempts ==> 0.0 <= jitter(k) < 1.0
  }

  function Pow2(n: nat): nat {
    if n == 0 then 1 else 2 * Pow2(n - 1)
  }

  /** The pause after a retryable failure at the given attempt, in milliseconds. */
  function Delay(attempt: nat, jitter: Jitter): real {
    (Pow2(attempt) * 1000) as real + jitter(attempt) * 1000.0
  }

  /**
   * One task run to its end: every attempt but the last was a retryable failure, and the last
   * succeeded, could not be retried, or was the third.
   */
  predicate IsRun(wire: Wire, task: Task) {
    && 1 <= task.attempts <= MAX_RETRIES
    && (forall k :: 1 <= k < task.attempts ==> Retryable(wire(k)))
    && (task.complete <==> wire(task.attempts).Success?)
    && (!task.complete && task.attempts < MAX_RETRIES ==> !Retryable(wire(task.attempts)))
    && task.recordsFound == if task.complete then wire(task.attempts).recordsFound else None
  }

  /** The answers determine how a task ends. */
  lemma RunIsDetermined(wire: Wire, a: Task, b: Task)
    requires IsRun(wire, a) && IsRun(wire, b)
    ensures a.attempts == b.attempts && a.complete == b.complete && a.recordsFound == b.recordsFound
  {
  }

  datatype Event = Started(destination: string, attempt: nat) | Completed(destination: string, complete: bool)

  /** The SaaS_WIPE_STARTED events of one task. */
  function StartedEvents(destination: string, attempts: nat): seq<Event> {
    seq(attempts, i requires 0 <= i < attempts => Started(destination, i + 1))
  }

  function TaskEvents(task: Task): seq<Event> {
    if task.attempts == 0 then []
    else StartedEvents(task.destination, task.attempts) + [Completed(task.destination, task.complete)]
  }

  function EventsOf(tasks: seq<Task>): seq<Event> {
    if tasks == [] then [] else EventsOf(tasks[..|tasks| - 1]) + TaskEvents(tasks[|tasks| - 1])
  }

  /** A task that was tried and failed. */
  predicate Exhausted(task: Task) {
    !task.complete && task.attempts > 0
  }

  /** The dead letters: one for each task that was tried and failed. */
  function DeadLetters(tasks: seq<Task>): seq<string> {
    if tasks == [] then []
    else
      var last := tasks[|tasks| - 1];
      DeadLetters(tasks[..|tasks| - 1]) + if Exhausted(last) then [last.destination] else []
  }

  function Sum(xs: seq<real>): real {
    if xs == [] then 0.0 else Sum(xs[..|xs| - 1]) + xs[|xs| - 1]
  }

  method CreateCleanupPlan(destinations: seq<string>) returns (tasks: seq<string>)
    ensures tasks == WithConnector(destinations)
  {
    tasks := [];
    for i := 0 to |destinations|
      invariant tasks == KeepFirst(destinations, HasConnector, i)
    {
      if HasConnector(destinations[i]) {
        tasks := tasks + [destinations[i]];
      }
    }
  }

  /** The inner retry loop. */
  method WipeOne(destination: string, wire: Wire, jitter: Jitter)
      returns (task: Task, events: seq<Event>, slept: seq<real>)
    requires Fair(jitter, MAX_RETRIES)
    ensures task.destination == destination && IsRun(wire, task)
    ensures 1 <= task.attempts <= 3 && (task.complete <==> wire(task.attempts).Success?)
    ensures forall k :: 1 <= k < task.attempts ==>
      wire(k).Exception? || (wire(k).Failure? && (wire(k).retryable.None? || wire(k).retryable.value))
    ensures !task.complete && task.attempts < 3 ==>
      wire(task.attempts).Failure? && wire(task.attempts).retryable == Some(false)
    ensures task.recordsFound == if task.complete then wire(task.attempts).recordsFound else None
    ensures events == StartedEvents(destination, task.attempts)
    ensures |events| == task.attempts && forall k :: 0 <= k < |events| ==> events[k] == Started(destination, k + 1)
    ensures |slept| == task.attempts - 1
    ensures forall k :: 0 <= k < |slept| ==> slept[k] == Delay(k + 1, jitter)
  {
    var success, attempts := false, 0;
    var recordsFound := None;
    events, slept := [], [];
    while attempts < MAX_RETRIES && !success
      invariant attempts <= MAX_RETRIES && events == StartedEvents(destination, attempts)
      invariant forall k :: 1 <= k < attempts ==> Retryable(wire(k))
      invariant !success ==>
        && (attempts > 0 ==> Retryable(wire(attempts)))
        && |slept| == if attempts < MAX_RETRIES then attempts else attempts - 1
      invariant success ==> attempts > 0 && wire(attempts).Success? && |slept| == attempts - 1
      invariant recordsFound == if success then wire(attempts).recordsFound else None
      invariant forall k :: 0 <= k < |slept| ==> slept[k] == Delay(k + 1, jitter)
    {
      attempts := attempts + 1;
      events := events + [Started(destination, attempts)];
      var response := wire(attempts);
      if response.Success? {
        success := true;
        recordsFound := response.recordsFound;
      } else {
        if response.Failure? && response.retryable == Some(false) {
          break;
        }
        if attempts < MAX_RETRIES {
          slept := slept + [Delay(attempts, jitter)];
        }
      }
    }
    task := Task(destination, success, attempts, recordsFound);
    forall k | 1 <= k <= attempts {
      RetryableExactlyWhen(wire(k));
    }
  }

  /** A task that pauses between its attempts pauses less than eight seconds in all. */
  lemma BackoffIsBounded(jitter: Jitter, slept: seq<real>)
    requires Fair(jitter, MAX_RETRIES) && |slept| < MAX_RETRIES
    requires forall k :: 0 <= k < |slept| ==> slept[k] == Delay(k + 1, jitter)
    ensures 0.0 <= Sum(slept) < 8000.0
    ensures |slept| == 2 ==> Sum(slept) >= 6000.0
    ensures |slept| >= 1 ==> 2000.0 <= slept[0] < 3000.0
    ensures |slept| == 2 ==> 4000.0 <= slept[1] < 5000.0
  {
  }

  /** A task of the plan, run to its end with less than eight seconds of pauses; or failed for want of a connector. */
  ghost predicate Ran(connected: bool, wire: Wire, destination: string, task: Task, pauses: seq<real>) {
    if connected then task.destination == destination && IsRun(wire, task) && 0.0 <= Sum(pauses) < 8000.0
    else task == Task(destination, false, 0, None) && pauses == []
  }

  /** Each result is its task's. */
  ghost predicate AllRan(connected: nat -> bool, wires: nat -> Wire, plan: seq<string>, results: seq<Task>,
                         slept: seq<seq<real>>)
  {
    && |results| == |slept| <= |plan|
    && forall k :: 0 <= k < |results| ==> Ran(connected(k), wires(k), plan[k], results[k], slept[k])
  }

  lemma OneMoreRan(connected: nat -> bool, wires: nat -> Wire, plan: seq<string>, results: seq<Task>,
                   slept: seq<seq<real>>, task: Task, pauses: seq<real>)
    requires AllRan(connected, wires, plan, results, slept) && |results| < |plan|
    requires Ran(connected(|results|), wires(|results|), plan[|results|], task, pauses)
    ensures AllRan(connected, wires, plan, results + [task], slept + [pauses])
  {
  }

  lemma OneMore(tasks: seq<Task>, task: Task)
    ensures EventsOf(tasks + [task]) == EventsOf(tasks) + TaskEvents(task)
    ensures DeadLetters(tasks + [task]) == DeadLetters(tasks) + if Exhausted(task) then [task.destination] else []
  {
  }

  /** One task: refused without a connector, else wiped, reported, and sent to the dead letters if it failed. */
  method ProcessTask(destination: string, connected: bool, wire: Wire, jitter: Jitter)
      returns (task: Task, events: seq<Event>, letters: seq<string>, slept: seq<real>)
    requires Fair(jitter, MAX_RETRIES)
    ensures Ran(connected, wire, destination, task, slept)
    ensures events == TaskEvents(task) && letters == if Exhausted(task) then [destination] else []
    ensures connected ==>
      && |events| == task.attempts + 1 && events[task.attempts] == Completed(destination, task.complete)
      && forall k :: 0 <= k < task.attempts ==> events[k] == Started(destination, k + 1)
  {
    if !connected {
      return Task(destination, false, 0, None), [], [], [];
    }
    var started;
    task, started, slept := WipeOne(destination, wire, jitter);
    BackoffIsBounded(jitter, slept);
    events := started + [Completed(destination, task.complete)];
    letters := if task.complete then [] else [destination];
  }

  /**
   * `processCleanup`: the tasks of the plan one after the other; `connected` is what looking each
   * connector up again gives. A task without one fails with neither an event nor a dead letter.
   */
  method ProcessCleanup(destinations: seq<string>, connected: nat -> bool, wires: nat -> Wire, jitters: nat -> Jitter)
      returns (results: seq<Task>, events: seq<Event>, dlq: seq<string>, slept: seq<seq<real>>)
    requires forall i :: Fair(jitters(i), MAX_RETRIES)
    ensures |results| == |WithConnector(destinations)| == |slept|
    ensures forall i :: 0 <= i < |results| ==>
      Ran(connected(i), wires(i), WithConnector(destinations)[i], results[i], slept[i])
    ensures events == EventsOf(results)
    ensures dlq == DeadLetters(results)
  {
    var tasks := CreateCleanupPlan(destinations);
    results, events, dlq, slept := [], [], [], [];
    for i := 0 to |tasks|
      invariant |results| == i && AllRan(connected, wires, tasks, results, slept)
      invariant events == EventsOf(results) && dlq == DeadLetters(results)
    {
      var task, reported, letters, pauses := ProcessTask(tasks[i], connected(i), wires(i), jitters(i));
      OneMore(results, task);
      OneMoreRan(connected, wires, tasks, results, slept, task, pauses);
      results, slept := results + [task], slept + [pauses];
      events, dlq := events + reported, dlq + letters;
    }
  }

  // ----- What the lineage events and dead letters add up to -----

  function CountStarted(events: seq<Event>): nat {
    if events == [] then 0 else CountStarted(events[..|events| - 1]) + if events[|events| - 1].Started? then 1 else 0
  }

  function TotalAttempts(tasks: seq<Task>): nat {
    if tasks == [] then 0 else TotalAttempts(tasks[..|tasks| - 1]) + tasks[|tasks| - 1].attempts
  }

  lemma {:induction false} CountStartedConcat(a: seq<Event>, b: seq<Event>)
    ensures CountStarted(a + b) == CountStarted(a) + CountStarted(b)
  {
    if b == [] {
      assert a + b == a;
    } else {
      CountStartedConcat(a, b[..|b| - 1]);
      assert (a + b)[..|a + b| - 1] == a + b[..|b| - 1];
    }
  }

  lemma {:induction false} StartedEventsCount(destination: string, attempts: nat)
    ensures CountStarted(StartedEvents(destination, attempts)) == attempts
  {
    if attempts > 0 {
      var events := StartedEvents(destination, attempts);
      assert events[..attempts - 1] == StartedEvents(destination, attempts - 1);
      StartedEventsCount(destination, attempts - 1);
    }
  }

  /** SaaS_WIPE_STARTED events are as many as the attempts the results report. */
  lemma {:induction false} StartedEventsAreAttempts(tasks: seq<Task>)
    ensures CountStarted(EventsOf(tasks)) == TotalAttempts(tasks)
  {
    if tasks != [] {
      var last := tasks[|tasks| - 1];
      StartedEventsAreAttempts(tasks[..|tasks| - 1]);
      CountStartedConcat(EventsOf(tasks[..|tasks| - 1]), TaskEvents(last));
      if last.attempts == 0 { return; }
      CountStartedConcat(StartedEvents(last.destination, last.attempts), [Completed(last.destination, last.complete)]);
      StartedEventsCount(last.destination, last.attempts);
      assert CountStarted([Completed(last.destination, last.complete)]) == 0 by {
        assert [Completed(last.destination, last.complete)][..0] == [];
      }
    }
  }

  /** Nothing is published to the dead letter queue exactly when every task that was tried completed. */
  lemma {:induction false} NoDeadLettersExactlyWhen(tasks: seq<Task>)
    ensures DeadLetters(tasks) == [] <==> forall i :: 0 <= i < |tasks| ==> !Exhausted(tasks[i])
  {
    if tasks != [] {
      NoDeadLettersExactlyWhen(tasks[..|tasks| - 1]);
    }
  }

  /** The dead letters are the destinations of the tasks that were tried and failed, in order. */
  lemma {:induction false} DeadLettersAre(tasks: seq<Task>)
    ensures var failed := Kept(tasks, HasExhausted());
      && |DeadLetters(tasks)| == |failed|
      && forall k :: 0 <= k < |failed| ==> DeadLetters(tasks)[k] == failed[k].destination
  {
    if tasks != [] {
      var before, last := tasks[..|tasks| - 1], tasks[|tasks| - 1];
      DeadLettersAre(before);
      assert tasks == before + [last];
      KeptJoins(before, [last], HasExhausted());
      KeptOne(last, HasExhausted());
    }
  }

  function HasExhausted(): Task -> bool {
    (task: Task) => !task.complete && task.attempts > 0
  }

  function OfCompletion(): Event -> bool {
    (e: Event) => e.Completed?
  }

  function WasTried(): Task -> bool {
    (task: Task) => task.attempts > 0
  }

  lemma {:induction false} NoCompletionYet(destination: string, attempts: nat)
    ensures Kept(StartedEvents(destination, attempts), OfCompletion()) == []
  {
    NoneKept(StartedEvents(destination, attempts), OfCompletion(), attempts);
  }

  lemma TaskReports(task: Task)
    ensures Kept(TaskEvents(task), OfCompletion())
      == if task.attempts > 0 then [Completed(task.destination, task.complete)] else []
  {
    if task.attempts > 0 {
      var started, done := StartedEvents(task.destination, task.attempts), Completed(task.destination, task.complete);
      KeptJoins(started, [done], OfCompletion());
      KeptOne(done, OfCompletion());
      NoCompletionYet(task.destination, task.attempts);
    }
  }

  lemma KeptGrows(tasks: seq<Task>, last: Task)
    ensures Kept(tasks + [last], WasTried()) == Kept(tasks, WasTried()) + if last.attempts > 0 then [last] else []
    ensures Kept(EventsOf(tasks + [last]), OfCompletion())
      == Kept(EventsOf(tasks), OfCompletion())
         + if last.attempts > 0 then [Completed(last.destination, last.complete)] else []
  {
    KeptJoins(tasks, [last], WasTried());
    KeptOne(last, WasTried());
    OneMore(tasks, last);
    KeptJoins(EventsOf(tasks), TaskEvents(last), OfCompletion());
    TaskReports(last);
  }

  /** Each task that was tried reports once, and truly, whether it completed. */
  lemma {:induction false} CompletionsAreReported(tasks: seq<Task>)
    ensures var reports, tried := Kept(EventsOf(tasks), OfCompletion()), Kept(tasks, WasTried());
      && |reports| == |tried|
      && forall k :: 0 <= k < |tried| ==> reports[k] == Completed(tried[k].destination, tried[k].complete)
  {
    if tasks != [] {
      var before, last := tasks[..|tasks| - 1], tasks[|tasks| - 1];
      CompletionsAreReported(before);
      KeptGrows(before, last);
      assert tasks == before + [last];
    }
  }
}
