/**
 * The deletion protocol one repository call at a time. Any number of
 * `advanceRequest` calls, cascade handlers and certificate readers interleave
 * over one request document; each is a thread with its own program counter.
 * What the outside world decides (a plan, a wipe outcome, a failing call) is
 * the `Choice` that comes with a step, so a run is a sequence of actions.
 */
module DeletionSteps {
  import opened DeletionStatus
  import opened KeyStates

  datatype Outcome = Outcome(destination: string, ok: bool)

  /** What building the three cleanup plans gives. */
  datatype Plan =
    | PlanFailed
    | Planned(tasks: seq<string>, redactions: seq<string>, copies: seq<string>)

  predicate NothingToDo(plan: Plan) {
    plan.Planned? && plan.tasks == [] && plan.redactions == [] && plan.copies == []
  }

  /** What one cascade run gives: a rejected promise, or three lists of outcomes. */
  datatype Results =
    | Rejected
    | Settled(janitor: seq<Outcome>, redactions: seq<Outcome>, copies: seq<Outcome>)

  predicate AllSucceeded(outcomes: seq<Outcome>) {
    forall i :: 0 <= i < |outcomes| ==> outcomes[i].ok
  }

  predicate Clean(results: Results) {
    results.Settled?
    && AllSucceeded(results.janitor) && AllSucceeded(results.redactions) && AllSucceeded(results.copies)
  }

  /** The part of the request document the protocol reads and writes. */
  datatype Doc = Doc(status: Status, history: seq<Status>, stored: bool)

  datatype Choice = Choice(
    shredOk: bool, readOk: bool, signOk: bool, retry: bool, storeOk: bool,
    plan: Plan, results: Results)

  /** Who awaits the call: a route, the cascade handler, its recovery, or a certificate read. */
  datatype Caller = External | Handler | Recovery | Reader

  datatype Pc =
    | Start(to: Status)                            // read the document, check the table
    | ReadPlan(from: Status, to: Status)           // prepareCascadeTrigger
    | Claim(from: Status, to: Status)              // claimTransition
    | ShredKey(from: Status)
    | Rollback(back: Status)                       // unconditional write after a failed side effect
    | WriteComplete                                // unconditional write of CASCADE_COMPLETE
    | TailWrite(to: Status)                        // the generic write at the end of the switch
    | ReadKey(from: Status)                        // generateClaims, first read
    | ReadRequest(from: Status, key: KeyState)     // generateClaims, second read
    | Reserve(from: Status)                        // appendToChain reads the head
    | Sign(from: Status, sequence: nat)            // its sign callback
    | Commit(from: Status, sequence: nat)          // its commit, or another attempt
    | Store(from: Status)                          // the certificate goes to the bucket
    | Attach(to: Status)                           // updateDeletionRequestFields, then dispatch
    | RunCascade                                   // an outstanding cascade
    | GetKey                                       // getCertificateForUser, its own two reads
    | GetRequest(key: KeyState)
    | GetClaimsKey                                 // generateClaims on the fallback path
    | GetClaimsRequest(key: KeyState)
    | GetSign
    | Done(returned: bool)

  datatype Thread = Thread(caller: Caller, pc: Pc)

  datatype Event =
    | Accepted(caller: Caller, from: Status, to: Status)   // a call passed the table
    | PlanRead(plan: Plan)
    | CascadeRan(results: Results)
    | Claimed(tid: nat, from: Status, to: Status)
    | Overwrote(from: Status, to: Status)                  // an unconditional status write
    | ClaimsRead(tid: nat, key: KeyState, status: Status)
    | Signed(tid: nat, chained: bool)
    | Appended(tid: nat, sequence: nat)
    | Issued(tid: nat)

  /** The documents every thread shares. */
  datatype Shared = Shared(doc: Doc, key: KeyState, head: nat)

  datatype State = State(shared: Shared, threads: seq<Thread>, log: seq<Event>)

  datatype Action =
    | Call(to: Status)                  // a route calls advanceRequest
    | Get                               // a route calls getCertificateForUser
    | Step(tid: nat, choice: Choice)    // one thread takes its next step
    | SetKey(key: KeyState)             // any other activity on the user's key
    | OtherAppend                       // another request's certificate joins the tenant's chain

  datatype Maybe<T> = Nothing | Just(value: T)

  /** What one step does: the documents after it, what it logs, the thread after it, a dispatched cascade. */
  datatype Effect = Effect(shared: Shared, event: Maybe<Event>, thread: Thread, dispatches: bool)

  /** `createDeletionRequest` has just written the document. */
  function Created(key: KeyState, head: nat): State {
    State(Shared(Doc(ShredRequested, [ShredRequested], false), key, head), [], [])
  }

  function SetStatus(m: Shared, to: Status): Shared {
    m.(doc := m.doc.(status := to, history := m.doc.history + [to]))
  }

  function Goto(m: Shared, t: Thread, pc: Pc): Effect {
    Effect(m, Nothing, t.(pc := pc), false)
  }

  /** A throw ends the thread, except that the handler's `.catch` asks for CASCADE_PARTIAL_FAILURE. */
  function Thrown(t: Thread): Thread {
    if t.caller.Handler? then Thread(Recovery, Start(CascadePartialFailure)) else t.(pc := Done(false))
  }

  function Dispatch(from: Status, to: Status): Pc {
    match to
    case KeyDestroyed => Claim(from, to)
    case CascadePending => ReadPlan(from, to)
    case CascadeInProgress => ReadPlan(from, to)
    case CascadeComplete => WriteComplete
    case CascadePartialFailure => Claim(from, to)
    case CertificateIssued => Claim(from, to)
    case ShredRequested => TailWrite(to)
  }

  function AfterClaim(from: Status, to: Status): Pc {
    match to
    case KeyDestroyed => ShredKey(from)
    case CertificateIssued => ReadKey(from)
    case _ => Attach(to)
  }

  predicate Cascading(s: Status) {
    s.CascadePending? || s.CascadeInProgress?
  }

  /** `advanceRequest`, and the cascade it dispatches. */
  function StepAdvance(m: Shared, tid: nat, t: Thread, c: Choice): Effect {
    match t.pc
    case Start(to) =>
      if IsValidTransition(m.doc.status, to)
      then Effect(m, Just(Accepted(t.caller, m.doc.status, to)), t.(pc := Dispatch(m.doc.status, to)), false)
      else Effect(m, Nothing, Thrown(t), false)
    case ReadPlan(from, to) =>
      var next :=
        if NothingToDo(c.plan) then WriteComplete
        else if c.plan.Planned? then Claim(from, to)
        else if to.CascadePending? then Start(CascadePartialFailure)
        else Done(true);
      Effect(m, Just(PlanRead(c.plan)), t.(pc := next), false)
    case Claim(from, to) =>
      if m.doc.status == from
      then Effect(SetStatus(m, to), Just(Claimed(tid, from, to)), t.(pc := AfterClaim(from, to)), false)
      else Goto(m, t, Done(true))
    case ShredKey(from) =>
      if c.shredOk then Goto(m.(key := Shredded), t, Attach(KeyDestroyed)) else Goto(m, t, Rollback(from))
    case Rollback(back) =>
      Effect(SetStatus(m, back), Just(Overwrote(m.doc.status, back)), Thrown(t), false)
    case WriteComplete =>
      Effect(SetStatus(m, CascadeComplete), Just(Overwrote(m.doc.status, CascadeComplete)),
             t.(pc := Start(CertificateIssued)), false)
    case TailWrite(to) =>
      Effect(SetStatus(m, to), Just(Overwrote(m.doc.status, to)), t.(pc := Done(true)), false)
    case Attach(to) =>
      Effect(if to.CertificateIssued? then m.(doc := m.doc.(stored := true)) else m,
             Nothing, t.(pc := Done(true)), Cascading(to))
    case RunCascade =>
      if c.results.Rejected? then Effect(m, Nothing, Thrown(t), false)
      else
        var next := if Clean(c.results) then CascadeComplete else CascadePartialFailure;
        Effect(m, Just(CascadeRan(c.results)), t.(pc := Start(next)), false)
    case _ => Goto(m, t, t.pc)
  }

  /** `issueAndStoreCertificate` and `getCertificateForUser`. */
  function StepCertificate(m: Shared, tid: nat, t: Thread, c: Choice): Effect {
    match t.pc
    case ReadKey(from) =>
      Goto(m, t, if c.readOk then ReadRequest(from, m.key) else Rollback(from))
    case ReadRequest(from, key) =>
      var next := if c.readOk && Gone(key) && Completed(m.doc.status) then Reserve(from) else Rollback(from);
      Effect(m, Just(ClaimsRead(tid, key, m.doc.status)), t.(pc := next), false)
    case Reserve(from) =>
      Goto(m, t, Sign(from, m.head + 1))
    case Sign(from, sequence) =>
      if c.signOk then Effect(m, Just(Signed(tid, true)), t.(pc := Commit(from, sequence)), false)
      else Goto(m, t, Rollback(from))
    case Commit(from, sequence) =>
      if m.head + 1 == sequence
      then Effect(m.(head := sequence), Just(Appended(tid, sequence)), t.(pc := Store(from)), false)
      else Goto(m, t, if c.retry then Reserve(from) else Rollback(from))
    case Store(from) =>
      if c.storeOk then Effect(m, Just(Issued(tid)), t.(pc := Attach(CertificateIssued)), false)
      else Goto(m, t, Rollback(from))
    case GetKey =>
      Goto(m, t, GetRequest(m.key))
    case GetRequest(key) =>
      Goto(m, t,
        if !Gone(key) || !Completed(m.doc.status) then Done(false)
        else if m.doc.status.CertificateIssued? && m.doc.stored then Done(true)
        else GetClaimsKey)
    case GetClaimsKey =>
      Goto(m, t, GetClaimsRequest(m.key))
    case GetClaimsRequest(key) =>
      var next := if Gone(key) && Completed(m.doc.status) then GetSign else Done(false);
      Effect(m, Just(ClaimsRead(tid, key, m.doc.status)), t.(pc := next), false)
    case GetSign =>
      if c.signOk then Effect(m, Just(Signed(tid, false)), t.(pc := Done(true)), false)
      else Goto(m, t, Done(false))
    case _ => Goto(m, t, t.pc)
  }

  /** The program counters inside `issueAndStoreCertificate`, after the claim to CERTIFICATE_ISSUED. */
  predicate Issuing(pc: Pc) {
    pc.ReadKey? || pc.ReadRequest? || pc.Reserve? || pc.Sign? || pc.Commit? || pc.Store?
  }

  /** The program counters inside `getCertificateForUser`. */
  predicate Reading(pc: Pc) {
    pc.GetKey? || pc.GetRequest? || pc.GetClaimsKey? || pc.GetClaimsRequest? || pc.GetSign?
  }

  function StepOf(m: Shared, tid: nat, t: Thread, c: Choice): Effect {
    if Issuing(t.pc) || Reading(t.pc) then StepCertificate(m, tid, t, c) else StepAdvance(m, tid, t, c)
  }

  function Apply(s: State, tid: nat, e: Effect): State
    requires tid < |s.threads|
  {
    var threads := s.threads[tid := e.thread];
    State(e.shared,
          if e.dispatches then threads + [Thread(Handler, RunCascade)] else threads,
          if e.event.Just? then s.log + [e.event.value] else s.log)
  }

  function Next(s: State, a: Action): State {
    match a
    case Call(to) => s.(threads := s.threads + [Thread(External, Start(to))])
    case Get => s.(threads := s.threads + [Thread(Reader, GetKey)])
    case Step(tid, c) =>
      if tid < |s.threads| then Apply(s, tid, StepOf(s.shared, tid, s.threads[tid], c)) else s
    case SetKey(key) => s.(shared := s.shared.(key := key))
    case OtherAppend => s.(shared := s.shared.(head := s.shared.head + 1))
  }

  function Run(s: State, schedule: seq<Action>): State {
    if schedule == [] then s
    else Next(Run(s, schedule[..|schedule| - 1]), schedule[|schedule| - 1])
  }
}
