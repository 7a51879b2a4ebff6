/**
 * `DeletionRequestService` over the stored documents: each method's effect on one
 * request is the call-atomic step of the protocol, and its wipes are recorded in order.
 */
module DeletionService {
  import opened DeletionStatus
  import opened KeyStates
  import opened Text
  import opened DeletionRepository
  import S = DeletionSteps
  import C = DeletionCalls
  import T = TransitionRules
  import opened CertificateClaims
  import opened Filters
  import opened Connectors
  import opened PiiEntries
  import Registry = PiiRegistry
  import opened SourceRedaction
  import Janitor
  import Keys = KeyRegistry
  import Chain = CertificateChain

  /** What the outside world answers during one call. */
  datatype Environment = Environment(
    shredOk: bool, planOk: bool, declared: Option<seq<Entry>>, signOk: bool, storeOk: bool,
    sign: (Claims, Option<string>, nat) -> Chain.SignResult)

  /** A reply is the document the call read, with its own updates merged in. */
  datatype Reply = Replied(request: DeletionRequest) | NotFound | InvalidTransition | Threw

  /** What is stored is what the call replied, but for the history, of which the reply has an earlier part. */
  predicate Echoes(reply: DeletionRequest, stored: DeletionRequest) {
    reply.history <= stored.history && stored == reply.(history := stored.history)
  }

  /** What the three wipes of a cascade came back with. */
  datatype CascadeResults = CascadeResults(
    janitor: seq<Janitor.Task>, redactions: seq<RedactionResult>, copies: seq<RedactionResult>)

  // ----- The protocol's view of the stored documents -----

  ghost function Statuses(history: seq<HistoryEntry>): seq<Status> {
    seq(|history|, i requires 0 <= i < |history| => history[i].status)
  }

  function Destinations(keys: Keys.Docs, id: string): seq<string> {
    if id in keys then keys[id].destinations else []
  }

  function ResourceIds(plan: seq<Entry>): seq<string> {
    seq(|plan|, i requires 0 <= i < |plan| => plan[i].resource)
  }

  /** The cleanup plan: tracked destinations with a connector, and the tenant's resources by strategy. */
  function PlanOf(keys: Keys.Docs, keyId: string, declared: Registry.Table, tenant: string, planOk: bool): S.Plan {
    if !planOk then S.PlanFailed
    else S.Planned(WithConnector(Destinations(keys, keyId)),
                   ResourceIds(Plan(declared, tenant, RedactInPlace)),
                   ResourceIds(Plan(declared, tenant, EncryptedCopy)))
  }

  /**
   * What a cleanup plan covers: each tracked destination that has a connector, as often as it is tracked,
   * and a resource exactly if the tenant or the platform opted it in by hand for the strategy.
   */
  lemma PlanCovers(keys: Keys.Docs, keyId: string, declared: Registry.Table, tenant: string, name: string)
    ensures var plan := PlanOf(keys, keyId, declared, tenant, true);
      && plan.Planned?
      && multiset(plan.tasks)[name]
         == (if keyId in keys && HasConnector(name) then multiset(keys[keyId].destinations)[name] else 0)
      && (name in plan.redactions <==> Opts(declared, tenant, RedactInPlace, name))
      && (name in plan.copies <==> Opts(declared, tenant, EncryptedCopy, name))
  {
    PlanIsTheConnected(Destinations(keys, keyId), name);
    ResourcesPlanned(declared, tenant, RedactInPlace, name);
    ResourcesPlanned(declared, tenant, EncryptedCopy, name);
  }

  ghost predicate Opts(declared: Registry.Table, tenant: string, strategy: Strategy, resource: string) {
    exists i :: 0 <= i < |declared| && declared[i].1.resource == resource && OptedIn(declared[i].1, tenant, strategy)
  }

  lemma ResourcesPlanned(declared: Registry.Table, tenant: string, strategy: Strategy, resource: string)
    ensures resource in ResourceIds(Plan(declared, tenant, strategy)) <==> Opts(declared, tenant, strategy, resource)
  {
    var plan := Plan(declared, tenant, strategy);
    if resource in ResourceIds(plan) {
      var k :| 0 <= k < |plan| && plan[k].resource == resource;
      PlannedOptedIn(declared, tenant, strategy, k);
    }
    if i :| 0 <= i < |declared| && declared[i].1.resource == resource && OptedIn(declared[i].1, tenant, strategy) {
      OptedInIsPlanned(declared, tenant, strategy, i);
      var k :| 0 <= k < |plan| && plan[k] == declared[i].1;
      assert ResourceIds(plan)[k] == resource;
    }
  }

  /** One destination's result, as the recording loops see it. */
  datatype Attempt = Attempt(destination: string, ok: bool, details: WipeDetails)

  function JanitorAttempts(results: seq<Janitor.Task>): seq<Attempt> {
    seq(|results|, i requires 0 <= i < |results| =>
      Attempt(results[i].destination, results[i].complete, WipeDetails(results[i].recordsFound, None)))
  }

  function RedactionAttempts(results: seq<RedactionResult>, strategy: Strategy): seq<Attempt> {
    seq(|results|, i requires 0 <= i < |results| =>
      Attempt(Label(results[i].resource, strategy), results[i].success, WipeDetails(None, results[i].rowsAffected)))
  }

  function Outcomes(attempts: seq<Attempt>): seq<S.Outcome> {
    seq(|attempts|, i requires 0 <= i < |attempts| => S.Outcome(attempts[i].destination, attempts[i].ok))
  }

  function OutcomesOf(results: CascadeResults): S.Results {
    S.Settled(Outcomes(JanitorAttempts(results.janitor)),
              Outcomes(RedactionAttempts(results.redactions, RedactInPlace)),
              Outcomes(RedactionAttempts(results.copies, EncryptedCopy)))
  }

  /** The protocol-level choice an environment amounts to for one call, which reads no cascade results. */
  function ChoiceOf(e: Environment, plan: S.Plan): S.Choice {
    S.Choice(e.shredOk, e.declared.Some?, e.signOk, false, e.storeOk, plan, S.Rejected)
  }

  /** The choice gives the answers the environment gives during issuance. */
  ghost predicate SameAnswers(c: S.Choice, e: Environment) {
    c.readOk == e.declared.Some? && c.signOk == e.signOk && c.storeOk == e.storeOk
  }

  /** One request moved: every other document, and this one's identity and wipes, are as before. */
  ghost predicate OnlyMoved(before: Docs, after: Docs, id: string) {
    && OthersKept(before, after, id)
    && after[id].tenant == before[id].tenant && after[id].user == before[id].user
    && after[id].wipes == before[id].wipes
  }

  /** One request's wipes changed and nothing else. */
  ghost predicate OnlyRecorded(before: Docs, after: Docs, id: string) {
    OthersKept(before, after, id) && after[id] == before[id].(wipes := after[id].wipes)
  }

  function WipeOf(a: Attempt, at: int): Wipe {
    Wipe(a.destination, if a.ok then Succeeded else Failed, at, a.details)
  }

  /** The wipes that recording some attempts writes, one instant after the other. */
  function Stamped(attempts: seq<Attempt>, start: int): seq<Wipe> {
    seq(|attempts|, i requires 0 <= i < |attempts| => WipeOf(attempts[i], start + 1 + i))
  }

  /** Everything one settled cascade attempted, in the order of its three loops. */
  function Attempts(results: CascadeResults): seq<Attempt> {
    JanitorAttempts(results.janitor) + RedactionAttempts(results.redactions, RedactInPlace)
    + RedactionAttempts(results.copies, EncryptedCopy)
  }

  /** From number `n` on, `all` holds what recording these attempts from this instant on writes. */
  ghost predicate Writes(all: seq<Wipe>, n: nat, attempts: seq<Attempt>, start: int)
    requires n + |attempts| <= |all|
  {
    forall i :: 0 <= i < |attempts| ==> all[n + i] == WipeOf(attempts[i], start + 1 + i)
  }

  lemma StampedInThree(a: seq<Attempt>, b: seq<Attempt>, c: seq<Attempt>, start: int)
    ensures var all := Stamped(a + b + c, start);
      && |all| == |a| + |b| + |c|
      && Writes(all, 0, a, start) && Writes(all, |a|, b, start + |a|) && Writes(all, |a| + |b|, c, start + |a| + |b|)
  {
  }

  lemma AttemptsInThree(results: CascadeResults, start: int)
    ensures var a, b, c := JanitorAttempts(results.janitor), RedactionAttempts(results.redactions, RedactInPlace),
        RedactionAttempts(results.copies, EncryptedCopy);
      var all := Stamped(Attempts(results), start);
      && |all| == |a| + |b| + |c|
      && Writes(all, 0, a, start) && Writes(all, |a|, b, start + |a|) && Writes(all, |a| + |b|, c, start + |a| + |b|)
  {
    StampedInThree(JanitorAttempts(results.janitor), RedactionAttempts(results.redactions, RedactInPlace),
                   RedactionAttempts(results.copies, EncryptedCopy), start);
  }

  // ----- What a settled cascade leaves on record -----

  /** The destinations one cascade records, in the order of its three loops. */
  function RunLabels(results: CascadeResults): seq<string> {
    seq(|results.janitor|, i requires 0 <= i < |results.janitor| => results.janitor[i].destination)
    + Labels(Resources(results.redactions), RedactInPlace) + Labels(Resources(results.copies), EncryptedCopy)
  }

  /** The last result under its label. */
  ghost predicate LastAt(labels: seq<string>, k: nat) {
    k < |labels| && forall m :: k < m < |labels| ==> labels[m] != labels[k]
  }

  /** The record under a label is of this run and says exactly whether the wipe succeeded, and what it found. */
  predicate Tells(wipes: seq<Wipe>, name: string, ok: bool, details: WipeDetails, start: int) {
    var r := Recorded(wipes, name);
    && r.Some? && r.value.updatedAt > start && r.value.details == details
    && (r.value.status.Succeeded? <==> ok) && (r.value.status.Failed? <==> !ok)
  }

  ghost predicate ReflectsJanitor(after: seq<Wipe>, results: CascadeResults, start: int) {
    forall i :: 0 <= i < |results.janitor| && LastAt(RunLabels(results), i) ==>
      Tells(after, results.janitor[i].destination, results.janitor[i].complete,
            WipeDetails(results.janitor[i].recordsFound, None), start)
  }

  ghost predicate ReflectsRedactions(after: seq<Wipe>, results: CascadeResults, start: int) {
    forall i :: 0 <= i < |results.redactions| && LastAt(RunLabels(results), |results.janitor| + i) ==>
      Tells(after, Label(results.redactions[i].resource, RedactInPlace), results.redactions[i].success,
            WipeDetails(None, results.redactions[i].rowsAffected), start)
  }

  ghost predicate ReflectsCopies(after: seq<Wipe>, results: CascadeResults, start: int) {
    var n := |results.janitor| + |results.redactions|;
    forall i :: 0 <= i < |results.copies| && LastAt(RunLabels(results), n + i) ==>
      Tells(after, Label(results.copies[i].resource, EncryptedCopy), results.copies[i].success,
            WipeDetails(None, results.copies[i].rowsAffected), start)
  }

  /** For each label of a run its last result is on record; other labels keep their record. */
  ghost predicate Reflects(before: seq<Wipe>, after: seq<Wipe>, results: CascadeResults, start: int) {
    && ReflectsJanitor(after, results, start)
    && ReflectsRedactions(after, results, start)
    && ReflectsCopies(after, results, start)
    && forall name :: name !in RunLabels(results) ==> Recorded(after, name) == Recorded(before, name)
  }

  lemma {:induction false} LastForAt(all: seq<Wipe>, k: nat, n: nat)
    requires k < n <= |all| && forall m :: k < m < n ==> all[m].destination != all[k].destination
    ensures LastFor(all, all[k].destination, n) == Some(all[k])
    decreases n
  {
    if n - 1 > k {
      LastForAt(all, k, n - 1);
    }
  }

  /** The stamped wipes carry the run's labels. */
  lemma StampedLabels(results: CascadeResults, start: int)
    ensures var all, labels := Stamped(Attempts(results), start), RunLabels(results);
      |all| == |labels| && forall k :: 0 <= k < |all| ==> all[k].destination == labels[k]
  {
  }

  lemma RunHas(results: CascadeResults, start: int, name: string)
    ensures HasDestination(Stamped(Attempts(results), start), name) <==> name in RunLabels(results)
  {
    StampedLabels(results, start);
    RecordedIsThere(Stamped(Attempts(results), start), name);
  }

  lemma LastStands(before: seq<Wipe>, results: CascadeResults, start: int, k: nat)
    requires LastAt(RunLabels(results), k)
    ensures |Stamped(Attempts(results), start)| == |RunLabels(results)|
    ensures var all := Stamped(Attempts(results), start);
      Recorded(RecordAll(before, all), RunLabels(results)[k]) == Some(all[k])
  {
    var all := Stamped(Attempts(results), start);
    StampedLabels(results, start);
    LastForAt(all, k, |all|);
    RecordFirstRecords(before, all, |all|, all[k].destination);
  }

  lemma OthersStand(before: seq<Wipe>, results: CascadeResults, start: int, name: string)
    requires name !in RunLabels(results)
    ensures Recorded(RecordAll(before, Stamped(Attempts(results), start)), name) == Recorded(before, name)
  {
    var all := Stamped(Attempts(results), start);
    StampedLabels(results, start);
    LastForIsThere(all, name, |all|);
    RecordFirstRecords(before, all, |all|, name);
  }

  lemma JanitorStands(before: seq<Wipe>, results: CascadeResults, start: int, i: nat)
    requires i < |results.janitor| && LastAt(RunLabels(results), i)
    ensures var r := results.janitor[i];
      Tells(RecordAll(before, Stamped(Attempts(results), start)), r.destination, r.complete,
            WipeDetails(r.recordsFound, None), start)
  {
    LastStands(before, results, start, i);
    AttemptsInThree(results, start);
    assert Stamped(Attempts(results), start)[0 + i] == WipeOf(JanitorAttempts(results.janitor)[i], start + 1 + i);
  }

  lemma StampedRedaction(results: CascadeResults, start: int, i: nat)
    requires i < |results.redactions|
    ensures var k, r := |results.janitor| + i, results.redactions[i];
      && k < |Stamped(Attempts(results), start)| == |RunLabels(results)|
      && RunLabels(results)[k] == Label(r.resource, RedactInPlace)
      && Stamped(Attempts(results), start)[k]
         == WipeOf(Attempt(Label(r.resource, RedactInPlace), r.success, WipeDetails(None, r.rowsAffected)),
                   start + 1 + k)
  {
    StampedLabels(results, start);
    assert Attempts(results)[|results.janitor| + i] == RedactionAttempts(results.redactions, RedactInPlace)[i];
  }

  lemma StampedCopy(results: CascadeResults, start: int, i: nat)
    requires i < |results.copies|
    ensures var k, r := |results.janitor| + |results.redactions| + i, results.copies[i];
      && k < |Stamped(Attempts(results), start)| == |RunLabels(results)|
      && RunLabels(results)[k] == Label(r.resource, EncryptedCopy)
      && Stamped(Attempts(results), start)[k]
         == WipeOf(Attempt(Label(r.resource, EncryptedCopy), r.success, WipeDetails(None, r.rowsAffected)),
                   start + 1 + k)
  {
    StampedLabels(results, start);
    assert Attempts(results)[|results.janitor| + |results.redactions| + i]
      == RedactionAttempts(results.copies, EncryptedCopy)[i];
  }

  lemma RedactionStands(before: seq<Wipe>, results: CascadeResults, start: int, i: nat)
    requires i < |results.redactions| && LastAt(RunLabels(results), |results.janitor| + i)
    ensures var r := results.redactions[i];
      Tells(RecordAll(before, Stamped(Attempts(results), start)), Label(r.resource, RedactInPlace), r.success,
            WipeDetails(None, r.rowsAffected), start)
  {
    LastStands(before, results, start, |results.janitor| + i);
    StampedRedaction(results, start, i);
  }

  lemma CopyStands(before: seq<Wipe>, results: CascadeResults, start: int, i: nat)
    requires i < |results.copies| && LastAt(RunLabels(results), |results.janitor| + |results.redactions| + i)
    ensures var r := results.copies[i];
      Tells(RecordAll(before, Stamped(Attempts(results), start)), Label(r.resource, EncryptedCopy), r.success,
            WipeDetails(None, r.rowsAffected), start)
  {
    LastStands(before, results, start, |results.janitor| + |results.redactions| + i);
    StampedCopy(results, start, i);
  }

  lemma AllTasksStand(before: seq<Wipe>, results: CascadeResults, start: int)
    ensures ReflectsJanitor(RecordAll(before, Stamped(Attempts(results), start)), results, start)
  {
    forall i | 0 <= i < |results.janitor| && LastAt(RunLabels(results), i) {
      JanitorStands(before, results, start, i);
    }
  }

  lemma AllRedactionsStand(before: seq<Wipe>, results: CascadeResults, start: int)
    ensures ReflectsRedactions(RecordAll(before, Stamped(Attempts(results), start)), results, start)
  {
    forall i | 0 <= i < |results.redactions| && LastAt(RunLabels(results), |results.janitor| + i) {
      RedactionStands(before, results, start, i);
    }
  }

  lemma AllCopiesStand(before: seq<Wipe>, results: CascadeResults, start: int)
    ensures ReflectsCopies(RecordAll(before, Stamped(Attempts(results), start)), results, start)
  {
    var n := |results.janitor| + |results.redactions|;
    forall i | 0 <= i < |results.copies| && LastAt(RunLabels(results), n + i) {
      CopyStands(before, results, start, i);
    }
  }

  /** What recording a run leaves says of each of its wipes exactly what the wipe answered. */
  lemma RunIsReflected(before: seq<Wipe>, results: CascadeResults, start: int)
    ensures Reflects(before, RecordAll(before, Stamped(Attempts(results), start)), results, start)
  {
    AllTasksStand(before, results, start);
    AllRedactionsStand(before, results, start);
    AllCopiesStand(before, results, start);
    forall name | name !in RunLabels(results) {
      OthersStand(before, results, start, name);
    }
  }

  /** Nothing a cascade came back with failed. */
  predicate NothingFailed(results: CascadeResults) {
    && (forall i :: 0 <= i < |results.janitor| ==> results.janitor[i].complete)
    && (forall i :: 0 <= i < |results.redactions| ==> results.redactions[i].success)
    && (forall i :: 0 <= i < |results.copies| ==> results.copies[i].success)
  }

  /**
   * After a cascade in which nothing failed, a certificate's two counts are equal exactly when the
   * cascade's own labels cover every destination that had failed before.
   */
  lemma CleanRunClaims(wipes: seq<Wipe>, results: CascadeResults, start: int, key: KeyState, request: DeletionRequest,
                       user: string, tenant: string, declared: seq<Entry>, now: int)
    requires Gone(key) && Completed(request.status) && DistinctDestinations(wipes)
    requires S.Clean(OutcomesOf(results)) && request.wipes == RecordAll(wipes, Stamped(Attempts(results), start))
    ensures var r := ClaimsOf(key, Some(request), user, tenant, Some(declared), now);
      && r.Certified?
      && (r.claims.checked == r.claims.succeeded <==>
            forall i :: 0 <= i < |wipes| && !wipes[i].status.Succeeded? ==> wipes[i].destination in RunLabels(results))
  {
    var all, labels := Stamped(Attempts(results), start), RunLabels(results);
    OutcomesSucceed(results);
    StampedLabels(results, start);
    AllCheckedSucceededExactlyWhen(wipes, all, key, request, user, tenant, declared, now);
    forall i | 0 <= i < |wipes| ensures HasDestination(all, wipes[i].destination) <==> wipes[i].destination in labels {
      RunHas(results, start, wipes[i].destination);
    }
  }

  lemma AppendsStatus(d: DeletionRequest, status: Status, now: int)
    requires forall i :: 0 <= i < |d.history| ==> d.history[i].timestamp < now
    ensures Statuses(WithStatus(d, status, now).history) == Statuses(d.history) + [status]
    ensures WithStatus(d, status, now).history == d.history + [HistoryEntry(status, now)]
  {
  }

  // ----- The service -----

  lemma UpdateIsThere<V>(m: map<string, V>, k: string, v: V)
    ensures m[k := v] - {k} == m - {k}
  {
  }

  lemma CountIsThere(m: multiset<string>, k: string)
    ensures (m + multiset{k})[k := 0] == (m - multiset{k})[k := 0] == m[k := 0]
  {
  }

  /** Other requests' certificates and cascades, other users' keys and other tenants' chains. */
  datatype Rest = Rest(
    bucket: map<string, Chain.SignResult>, outstanding: multiset<string>, issued: multiset<string>,
    keys: Keys.Docs, heads: map<string, Chain.Head>)

  class DeletionRequestService {
    const requests: DeletionRequestRepository
    const keys: Keys.FirestoreRegistry
    const chain: Chain.CertificateChainRepository
    const signer: CertificateSigner
    /** None when no deployment feature needs it. */
    const sources: SourceRedactionService?
    /** Each write takes the next instant. */
    var clock: int
    /** Cascades dispatched and not yet finished, by request. */
    var outstanding: multiset<string>
    /** Certificates stored in the bucket, by request. */
    var bucket: map<string, Chain.SignResult>
    ghost var issued: multiset<string>

    ghost predicate Valid()
      reads this, requests
    {
      && signer.requests == requests && signer.keys == keys
      && forall id, i :: id in requests.docs && 0 <= i < |requests.docs[id].history| ==>
           requests.docs[id].history[i].timestamp <= clock
    }

    constructor (requests: DeletionRequestRepository, keys: Keys.FirestoreRegistry,
                 chain: Chain.CertificateChainRepository, sources: SourceRedactionService?)
      requires requests.docs == map[]
      ensures this.requests == requests && this.keys == keys && this.chain == chain && this.sources == sources
      ensures Valid() && outstanding == multiset{} && issued == multiset{} && bucket == map[]
    {
      var signer := new CertificateSigner(keys, requests);
      this.requests, this.keys, this.chain, this.signer, this.sources := requests, keys, chain, signer, sources;
      clock, outstanding, bucket, issued := 0, multiset{}, map[], multiset{};
    }

    method CreateRequest(user: string, id: string, tenant: string)
        returns (request: DeletionRequest, alreadyExisted: bool)
      requires Valid()
      modifies this`clock, requests
      ensures Valid()
      ensures alreadyExisted <==>
        exists other :: other in old(requests.docs) && IsActiveFor(old(requests.docs)[other], user, tenant)
      ensures alreadyExisted ==>
        requests.docs == old(requests.docs) && IsNewestActive(requests.docs, request, user, tenant)
      ensures !alreadyExisted && id in old(requests.docs) ==>
        request == old(requests.docs)[id] && requests.docs == old(requests.docs)
      ensures !alreadyExisted && id !in old(requests.docs) ==>
        && requests.docs == old(requests.docs)[id := request]
        && request.user == user && request.tenant == tenant && request.wipes == []
        && View(id) == C.NewWorld(Keys.StatusOf(keys.docs, Keys.DocId(tenant, user)),
                                  Chain.LengthOf(Chain.HeadOf(chain.Contents(), tenant)))
                       .(cascades := outstanding[id], issued := issued[id])
    {
      var active := requests.GetActiveDeletionRequestForUser(user, tenant);
      if active.Some? {
        return active.value, true;
      }
      clock := clock + 1;
      request := requests.CreateDeletionRequest(user, id, tenant, clock);
      alreadyExisted := false;
    }

    ghost function KeyId(id: string): string
      requires id in requests.docs
      reads requests
    {
      Keys.DocId(requests.docs[id].tenant, requests.docs[id].user)
    }

    /** One request as the protocol sees it. */
    ghost function View(id: string): C.World
      requires id in requests.docs
      reads this, requests, keys, chain
    {
      var d := requests.docs[id];
      C.World(S.Doc(d.status, Statuses(d.history), d.certificatePath.Some?),
              Keys.StatusOf(keys.docs, KeyId(id)),
              Chain.LengthOf(Chain.HeadOf(chain.Contents(), d.tenant)),
              outstanding[id], issued[id])
    }

    /** All that a call on this request has no business with. */
    ghost function Elsewhere(id: string): Rest
      requires id in requests.docs
      reads this, requests, keys, chain
    {
      Rest(bucket - {id}, outstanding[id := 0], issued[id := 0], keys.docs - {KeyId(id)},
           chain.heads - {requests.docs[id].tenant})
    }

    method WriteStatus(id: string, status: Status)
      requires Valid() && id in requests.docs
      modifies this`clock, requests
      ensures Valid() && OnlyMoved(old(requests.docs), requests.docs, id)
      ensures requests.docs[id] == WithStatus(old(requests.docs)[id], status, clock)
      ensures View(id) == C.Written(old(View(id)), status)
    {
      clock := clock + 1;
      AppendsStatus(requests.docs[id], status, clock);
      var ok := requests.UpdateDeletionRequestStatus(id, status, clock);
    }

    /** `claimOrLose`, by the caller that has just read `from`. */
    method ClaimStatus(id: string, from: Status, to: Status) returns (claim: ClaimResult)
      requires Valid() && id in requests.docs && requests.docs[id].status == from
      modifies this`clock, requests
      ensures claim == Claimed
      ensures Valid() && OnlyMoved(old(requests.docs), requests.docs, id)
      ensures requests.docs[id] == WithStatus(old(requests.docs)[id], to, clock)
      ensures View(id) == C.Written(old(View(id)), to)
    {
      clock := clock + 1;
      AppendsStatus(requests.docs[id], to, clock);
      claim := requests.ClaimTransition(id, [from], to, clock);
    }

    method AttachFields(id: string, f: Fields)
      requires Valid() && id in requests.docs
      modifies requests
      ensures Valid() && OnlyMoved(old(requests.docs), requests.docs, id)
      ensures requests.docs[id] == WithFields(old(requests.docs)[id], f)
    {
      var ok := requests.UpdateDeletionRequestFields(id, f);
    }

    /** What tenants have declared; nothing as long as no service is wired up to redact it. */
    ghost function Declared(): Registry.Table
      reads if sources == null then {} else {sources.registry}
    {
      if sources == null then [] else sources.registry.entries
    }

    ghost function PlanAt(id: string, e: Environment): S.Plan
      requires id in requests.docs
      reads requests, keys, if sources == null then {} else {sources.registry}
    {
      PlanOf(keys.docs, KeyId(id), Declared(), requests.docs[id].tenant, e.planOk)
    }

    /** `planRedaction` or `planEncryptedCopyDeletion`, when there is a service. */
    method PlanSources(tenant: string, strategy: Strategy) returns (resources: seq<string>)
      ensures resources == ResourceIds(Plan(Declared(), tenant, strategy))
    {
      if sources == null { return []; }
      var plan := sources.PlanFor(tenant, strategy);
      resources := ResourceIds(plan);
    }

    /** `prepareCascadeTrigger`, up to its plan. */
    method PrepareCascade(id: string, e: Environment) returns (plan: S.Plan)
      requires id in requests.docs
      ensures plan == PlanAt(id, e)
    {
      if !e.planOk { return S.PlanFailed; }
      var d := requests.docs[id];
      var key := keys.GetKeyStatus(d.user, d.tenant);
      var destinations := if key.Some? then key.value.destinations else [];
      var tasks := Janitor.CreateCleanupPlan(destinations);
      var redactions := PlanSources(d.tenant, RedactInPlace);
      var copies := PlanSources(d.tenant, EncryptedCopy);
      plan := S.Planned(tasks, redactions, copies);
    }

    /** The claim, the attached time and the dispatch that CASCADE_PENDING and its retry share. */
    method DispatchCascade(id: string, request: DeletionRequest, to: Status) returns (r: Reply)
      requires Valid() && id in requests.docs && requests.docs[id] == request
      modifies this`clock, this`outstanding, requests
      ensures Valid() && OnlyMoved(old(requests.docs), requests.docs, id)
      ensures Elsewhere(id) == old(Elsewhere(id))
      ensures r.Replied? && Echoes(r.request, requests.docs[id])
      ensures View(id) == C.Written(old(View(id)), to).(cascades := old(View(id)).cascades + 1)
      ensures outstanding == old(outstanding) + multiset{id}
      ensures requests.docs[id].cascadeInitiatedAt == Some(clock)
    {
      CountIsThere(outstanding, id);
      var claim := ClaimStatus(id, request.status, to);
      var fields := NO_FIELDS.(cascadeInitiatedAt := Some(clock));
      AttachFields(id, fields);
      outstanding := outstanding + multiset{id};
      r := Replied(WithFields(request, fields).(status := to));
    }

    method DestroyKey(id: string, request: DeletionRequest, e: Environment) returns (r: Reply)
      requires Valid() && id in requests.docs && requests.docs[id] == request
      modifies this`clock, requests, keys
      ensures Valid() && OnlyMoved(old(requests.docs), requests.docs, id)
      ensures Elsewhere(id) == old(Elsewhere(id))
      ensures var claimed := C.Written(old(View(id)), KeyDestroyed);
        View(id) == if e.shredOk then claimed.(key := Shredded) else C.Written(claimed, request.status)
      ensures if e.shredOk then r.Replied? && Echoes(r.request, requests.docs[id]) else r == Threw
      ensures requests.docs[id].keyDestroyedAt
        == if e.shredOk then Some(clock) else old(requests.docs)[id].keyDestroyedAt
      ensures PlanAt(id, e) == old(PlanAt(id, e))
      ensures keys.docs == if e.shredOk
        then old(keys.docs)[old(KeyId(id)) := Keys.ShreddedDoc(old(keys.docs), old(KeyId(id)), Some(id))]
        else old(keys.docs)
    {
      var claim := ClaimStatus(id, request.status, KeyDestroyed);
      if !e.shredOk {
        WriteStatus(id, request.status);
        return Threw;
      }
      UpdateIsThere(keys.docs, KeyId(id), Keys.ShreddedDoc(keys.docs, KeyId(id), Some(id)));
      keys.ShredKeyForUser(request.user, request.tenant, Some(id));
      var fields := NO_FIELDS.(keyDestroyedAt := Some(clock));
      AttachFields(id, fields);
      r := Replied(WithFields(request, fields).(status := KeyDestroyed));
    }

    ghost predicate ReadyToSign(id: string, e: Environment)
      requires id in requests.docs
      reads requests, keys
    {
      e.declared.Some? && Gone(Keys.StatusOf(keys.docs, KeyId(id))) && Completed(requests.docs[id].status)
    }

    /** The signer's certificate of this request's own claims, for the next place on its tenant's chain. */
    ghost function SignedNext(id: string, e: Environment): Chain.SignResult
      requires id in requests.docs && ReadyToSign(id, e)
      reads this, requests, keys, chain
    {
      var d := requests.docs[id];
      var head := Chain.HeadOf(chain.Contents(), d.tenant);
      var r := ClaimsOf(Keys.StatusOf(keys.docs, KeyId(id)), Some(d), d.user, d.tenant, e.declared, clock);
      e.sign(r.claims, Chain.PreviousOf(head), Chain.LengthOf(head) + 1)
    }

    /** `issueAndStoreCertificate`: what it stores is what the chain holds. */
    method IssueAndStoreCertificate(id: string, e: Environment) returns (ok: bool)
      requires Valid() && id in requests.docs
      modifies this`bucket, this`issued, chain
      ensures ok <==> ReadyToSign(id, e) && e.signOk && e.storeOk
      ensures View(id) == old(View(id)).(
        issued := old(View(id)).issued + if ok then 1 else 0,
        head := old(View(id)).head + if ReadyToSign(id, e) && e.signOk then 1 else 0)
      ensures ok ==> StoredIsChained(id) && bucket[id] == old(SignedNext(id, e))
      ensures Elsewhere(id) == old(Elsewhere(id))
    {
      var d := requests.docs[id];
      var claims := signer.GenerateClaims(d.user, d.tenant, id, e.declared, clock);
      if !claims.Certified? || !e.signOk {
        return false;
      }
      var outcome := chain.AppendToChain(d.tenant, id,
        (previous: Option<string>, sequence: nat) => e.sign(claims.claims, previous, sequence));
      UpdateIsThere(old(chain.heads), d.tenant, Chain.Head(outcome.sequence, outcome.result.hash, id));
      if !e.storeOk {
        return false;
      }
      UpdateIsThere(bucket, id, outcome.result);
      CountIsThere(issued, id);
      bucket := bucket[id := outcome.result];
      issued := issued + multiset{id};
      ok := true;
    }

    /** The certificate in the bucket is the newest on its tenant's chain, under its own hash. */
    ghost predicate StoredIsChained(id: string)
      requires id in requests.docs
      reads this, requests, chain
    {
      && id in bucket && bucket[id].hash in chain.entries
      && var entry := chain.entries[bucket[id].hash];
         && entry.request == id && entry.tenant == requests.docs[id].tenant
         && entry.sequence == Chain.LengthOf(Chain.HeadOf(chain.Contents(), entry.tenant))
    }

    /** The reply is the stored document, and with CERTIFICATE_ISSUED goes the newest certificate on the chain. */
    ghost predicate Answered(id: string, reply: DeletionRequest)
      requires id in requests.docs
      reads this, requests, chain
    {
      && Echoes(reply, requests.docs[id])
      && (reply.status.CertificateIssued? ==> StoredIsChained(id))
    }

    /** After the claim: issue and attach, or roll back to the status that was read, and rethrow. */
    method IssueClaimed(id: string, request: DeletionRequest, e: Environment) returns (r: Reply)
      requires Valid() && id in requests.docs && request.history <= requests.docs[id].history
      requires requests.docs[id] == request.(status := CertificateIssued, history := requests.docs[id].history)
      modifies this`clock, this`bucket, this`issued, requests, chain
      ensures Valid() && OnlyMoved(old(requests.docs), requests.docs, id)
      ensures Elsewhere(id) == old(Elsewhere(id))
      ensures r == Threw || r.Replied?
      ensures r.Replied? <==> old(ReadyToSign(id, e)) && e.signOk && e.storeOk
      ensures var w := old(View(id));
        var signed := if old(ReadyToSign(id, e)) && e.signOk then w.(head := w.head + 1) else w;
        View(id) == if r.Replied? then signed.(doc := signed.doc.(stored := true), issued := w.issued + 1)
                    else C.Written(signed, request.status)
      ensures r.Replied? ==>
        && StoredIsChained(id) && Echoes(r.request, requests.docs[id])
        && requests.docs[id].certificatePath == Some(id) && requests.docs[id].certificateIssuedAt == Some(clock)
    {
      var ok := IssueAndStoreCertificate(id, e);
      if !ok {
        WriteStatus(id, request.status);
        return Threw;
      }
      var fields := NO_FIELDS.(certificateIssuedAt := Some(clock), certificatePath := Some(id));
      AttachFields(id, fields);
      r := Replied(WithFields(request, fields).(status := CertificateIssued));
    }

    /** The CERTIFICATE_ISSUED case. */
    method IssueCertificate(id: string, request: DeletionRequest, e: Environment) returns (r: Reply)
      requires Valid() && id in requests.docs && requests.docs[id] == request
      modifies this`clock, this`bucket, this`issued, requests, chain
      ensures Valid() && OnlyMoved(old(requests.docs), requests.docs, id)
      ensures Elsewhere(id) == old(Elsewhere(id))
      ensures var call := C.IssueCall(old(View(id)), request.status, ChoiceOf(e, old(PlanAt(id, e))));
        View(id) == call.world && (r.Replied? <==> call.Returned?)
      ensures r.Replied? ==> StoredIsChained(id) && Echoes(r.request, requests.docs[id])
      ensures r.Replied? || r == Threw
    {
      var claim := ClaimStatus(id, request.status, CertificateIssued);
      r := IssueClaimed(id, request, e);
    }

    /** `shortcutToCascadeComplete`, and the CASCADE_COMPLETE case. */
    method CompleteAndIssue(id: string, e: Environment) returns (r: Reply)
      requires Valid() && id in requests.docs
      modifies this, requests, keys, chain
      ensures Valid() && OnlyMoved(old(requests.docs), requests.docs, id)
      ensures Elsewhere(id) == old(Elsewhere(id))
      ensures var call := C.AdvanceCall(C.Written(old(View(id)), CascadeComplete), CertificateIssued,
                                        ChoiceOf(e, old(PlanAt(id, e))));
        View(id) == call.world && (r.Replied? <==> call.Returned?)
      ensures id in old(requests.docs) && r.Replied? ==> Answered(id, r.request)
      ensures r.Replied? || r == Threw
      decreases 0, 2
    {
      WriteStatus(id, CascadeComplete);
      r := AdvanceRequest(id, CertificateIssued, e);
    }

    /** CASCADE_PENDING, and CASCADE_IN_PROGRESS as its retry. */
    method StartCascade(id: string, request: DeletionRequest, to: Status, e: Environment) returns (r: Reply)
      requires Valid() && id in requests.docs && requests.docs[id] == request
      requires IsValidTransition(request.status, to) && (to.CascadePending? || to.CascadeInProgress?)
      modifies this, requests, keys, chain
      ensures Valid() && OnlyMoved(old(requests.docs), requests.docs, id)
      ensures Elsewhere(id) == old(Elsewhere(id))
      ensures var call := C.AdvanceCall(old(View(id)), to, ChoiceOf(e, old(PlanAt(id, e))));
        View(id) == call.world && (r.Replied? <==> call.Returned?)
      ensures id in old(requests.docs) && r.Replied? ==> Answered(id, r.request)
      ensures r.Replied? || r == Threw
      decreases 0, 4
    {
      var plan := PrepareCascade(id, e);
      r := StartPlanned(id, request, to, e, plan);
    }

    method StartPlanned(id: string, request: DeletionRequest, to: Status, e: Environment, plan: S.Plan)
        returns (r: Reply)
      requires Valid() && id in requests.docs && requests.docs[id] == request && plan == PlanAt(id, e)
      requires IsValidTransition(request.status, to) && (to.CascadePending? || to.CascadeInProgress?)
      modifies this, requests, keys, chain
      ensures Valid() && OnlyMoved(old(requests.docs), requests.docs, id)
      ensures Elsewhere(id) == old(Elsewhere(id))
      ensures var call := C.AdvanceCall(old(View(id)), to, ChoiceOf(e, plan));
        View(id) == call.world && (r.Replied? <==> call.Returned?)
      ensures id in old(requests.docs) && r.Replied? ==> Answered(id, r.request)
      ensures r.Replied? || r == Threw
      decreases 0, 3
    {
      if S.NothingToDo(plan) {
        r := CompleteAndIssue(id, e);
      } else if plan.PlanFailed? {
        if to.CascadePending? {
          r := AdvanceRequest(id, CascadePartialFailure, e);
        } else {
          r := Replied(request);
        }
      } else {
        r := DispatchCascade(id, request, to);
      }
    }

    /** `advanceRequest`: one call of it is one call of the protocol. */
    method AdvanceRequest(id: string, to: Status, e: Environment) returns (r: Reply)
      requires Valid()
      modifies this, requests, keys, chain
      ensures Valid()
      ensures id !in old(requests.docs) <==> r == NotFound
      ensures id in old(requests.docs) ==>
        (r == InvalidTransition <==> (old(requests.docs)[id].status, to) !in T.ACCEPTED)
      ensures r == NotFound || r == InvalidTransition ==> requests.docs == old(requests.docs)
      ensures id in old(requests.docs) ==>
        && OnlyMoved(old(requests.docs), requests.docs, id) && Elsewhere(id) == old(Elsewhere(id))
        && var call := C.AdvanceCall(old(View(id)), to, ChoiceOf(e, old(PlanAt(id, e))));
           View(id) == call.world && (r.Replied? <==> call.Returned?)
      ensures id in old(requests.docs) && r.Replied? ==> Answered(id, r.request)
      ensures id in old(requests.docs) && C.WorldOk(old(View(id))) ==> C.WorldOk(View(id))
      decreases C.Rank(to), 1
    {
      var found := requests.GetDeletionRequest(id);
      if found.None? { return NotFound; }
      AdvanceOk(View(id), to, ChoiceOf(e, PlanAt(id, e)));
      var request := found.value;
      T.TableIs(request.status, to);
      if !IsValidTransition(request.status, to) { return InvalidTransition; }
      r := Handle(id, request, to, e);
    }

    /** The switch of `advanceRequest`. */
    method Handle(id: string, request: DeletionRequest, to: Status, e: Environment) returns (r: Reply)
      requires Valid() && id in requests.docs && requests.docs[id] == request && IsValidTransition(request.status, to)
      modifies this, requests, keys, chain
      ensures Valid() && OnlyMoved(old(requests.docs), requests.docs, id)
      ensures Elsewhere(id) == old(Elsewhere(id))
      ensures var call := C.AdvanceCall(old(View(id)), to, ChoiceOf(e, old(PlanAt(id, e))));
        View(id) == call.world && (r.Replied? <==> call.Returned?)
      ensures id in old(requests.docs) && r.Replied? ==> Answered(id, r.request)
      ensures r.Replied? || r == Threw
      decreases C.Rank(to), 0
    {
      match to {
        case KeyDestroyed => r := DestroyKey(id, request, e);
        case CascadePending => r := StartCascade(id, request, to, e);
        case CascadeInProgress => r := StartCascade(id, request, to, e);
        case CascadeComplete => r := CompleteAndIssue(id, e);
        case CascadePartialFailure => r := WithholdCertificate(id, request);
        case CertificateIssued => r := IssueCertificate(id, request, e);
        case ShredRequested => assert false;
      }
    }

    method WithholdCertificate(id: string, request: DeletionRequest) returns (r: Reply)
      requires Valid() && id in requests.docs && requests.docs[id] == request
      modifies this`clock, requests
      ensures Valid() && OnlyMoved(old(requests.docs), requests.docs, id)
      ensures r.Replied? && Echoes(r.request, requests.docs[id])
      ensures View(id) == C.Written(old(View(id)), CascadePartialFailure)
    {
      var claim := ClaimStatus(id, request.status, CascadePartialFailure);
      AttachFields(id, NO_FIELDS);
      r := Replied(request.(status := CascadePartialFailure));
    }

    // ----- The cascade and its handlers -----

    /** `redactUserInDeclaredSources` or `deleteUserFromEncryptedCopies`, if something was planned. */
    method RunSources(tenant: string, strategy: Strategy, planned: seq<string>, query: Query)
        returns (results: seq<RedactionResult>)
      ensures FollowsPlan(results, Plan(Declared(), tenant, strategy))
      ensures planned == [] || sources == null ==> results == []
      ensures planned != [] && sources != null ==> |results| == |Plan(Declared(), tenant, strategy)|
      ensures results != [] ==> AnswersOf(results, Plan(Declared(), tenant, strategy), strategy, query)
    {
      if |planned| == 0 || sources == null { return []; }
      results := sources.RunOver(tenant, strategy, query);
    }

    /** The dispatched closure: the janitor's run, and each redaction run if it had something planned. */
    method RunCascade(id: string, plan: S.Plan, connected: nat -> bool, wires: nat -> Janitor.Wire,
                      jitters: nat -> Janitor.Jitter, redact: Query, delete: Query)
        returns (results: CascadeResults)
      requires id in requests.docs && plan.Planned? && forall i :: Janitor.Fair(jitters(i), Janitor.MAX_RETRIES)
      ensures ResultsOf(results, Destinations(keys.docs, KeyId(id)), Declared(), requests.docs[id].tenant)
      ensures plan.redactions != [] && sources != null ==>
        |results.redactions| == |Plan(Declared(), requests.docs[id].tenant, RedactInPlace)|
      ensures plan.copies != [] && sources != null ==>
        |results.copies| == |Plan(Declared(), requests.docs[id].tenant, EncryptedCopy)|
      ensures results.redactions != [] ==>
        AnswersOf(results.redactions, Plan(Declared(), requests.docs[id].tenant, RedactInPlace), RedactInPlace, redact)
      ensures results.copies != [] ==>
        AnswersOf(results.copies, Plan(Declared(), requests.docs[id].tenant, EncryptedCopy), EncryptedCopy, delete)
      ensures forall i :: 0 <= i < |results.janitor| ==>
        var r := results.janitor[i];
        if connected(i) then Janitor.IsRun(wires(i), r) else !r.complete && r.attempts == 0 && r.recordsFound.None?
    {
      var d := requests.docs[id];
      var key := keys.GetKeyStatus(d.user, d.tenant);
      var destinations := if key.Some? then key.value.destinations else [];
      var janitor, events, dlq, slept := Janitor.ProcessCleanup(destinations, connected, wires, jitters);
      var redactions := RunSources(d.tenant, RedactInPlace, plan.redactions, redact);
      var copies := RunSources(d.tenant, EncryptedCopy, plan.copies, delete);
      results := CascadeResults(janitor, redactions, copies);
      assert Destined(JanitorAttempts(janitor)) == WithConnector(destinations);
    }

    method UpdateJanitorWipeStatus(id: string, destination: string, status: WipeStatus, details: WipeDetails)
      requires Valid() && id in requests.docs
      modifies this`clock, requests
      ensures Valid() && OnlyRecorded(old(requests.docs), requests.docs, id) && clock == old(clock) + 1
      ensures requests.docs[id].wipes == Upsert(old(requests.docs)[id].wipes, Wipe(destination, status, clock, details))
    {
      clock := clock + 1;
      var ok := requests.UpdateJanitorWipeStatus(id, destination, status, details, clock);
    }

    /** One of the handler's recording loops: from number `n` on of all the wipes the handler records. */
    method RecordAttempts(id: string, attempts: seq<Attempt>, ghost found: seq<Wipe>, ghost all: seq<Wipe>,
                          ghost n: nat)
      requires Valid() && id in requests.docs && n + |attempts| <= |all| && Writes(all, n, attempts, clock)
      requires requests.docs[id].wipes == RecordFirst(found, all, n)
      modifies this`clock, requests
      ensures Valid() && OnlyRecorded(old(requests.docs), requests.docs, id) && clock == old(clock) + |attempts|
      ensures requests.docs[id].wipes == RecordFirst(found, all, n + |attempts|)
    {
      for i := 0 to |attempts|
        invariant Valid() && OnlyRecorded(old(requests.docs), requests.docs, id) && clock == old(clock) + i
        invariant requests.docs[id].wipes == RecordFirst(found, all, n + i)
      {
        var a := attempts[i];
        UpdateJanitorWipeStatus(id, a.destination, if a.ok then Succeeded else Failed, a.details);
      }
    }

    /** The three recording loops of a settled cascade; `all` are the wipes they write. */
    method RecordResults(id: string, janitor: seq<Attempt>, redactions: seq<Attempt>, copies: seq<Attempt>,
                         ghost all: seq<Wipe>)
      requires Valid() && id in requests.docs && |all| == |janitor| + |redactions| + |copies|
      requires Writes(all, 0, janitor, clock) && Writes(all, |janitor|, redactions, clock + |janitor|)
      requires Writes(all, |janitor| + |redactions|, copies, clock + |janitor| + |redactions|)
      modifies this`clock, requests
      ensures Valid() && OnlyRecorded(old(requests.docs), requests.docs, id)
      ensures requests.docs[id].wipes == RecordAll(old(requests.docs)[id].wipes, all)
    {
      ghost var found := requests.docs[id].wipes;
      RecordAttempts(id, janitor, found, all, 0);
      RecordAttempts(id, redactions, found, all, |janitor|);
      RecordAttempts(id, copies, found, all, |janitor| + |redactions|);
    }

    method RecordCascade(id: string, results: CascadeResults)
      requires Valid() && id in requests.docs
      modifies this`clock, requests
      ensures Valid() && OnlyRecorded(old(requests.docs), requests.docs, id) && View(id) == old(View(id))
      ensures Elsewhere(id) == old(Elsewhere(id))
      ensures requests.docs[id].wipes == RecordAll(old(requests.docs)[id].wipes, Stamped(Attempts(results), old(clock)))
    {
      AttemptsInThree(results, clock);
      RecordResults(id, JanitorAttempts(results.janitor), RedactionAttempts(results.redactions, RedactInPlace),
                    RedactionAttempts(results.copies, EncryptedCopy), Stamped(Attempts(results), clock));
    }

    /** The dispatched cascade comes back rejected: the `.catch` handler alone. */
    method CascadeRejected(id: string, e: Environment, ghost c: S.Choice)
      requires Valid() && id in requests.docs && id in outstanding
      requires SameAnswers(c, e) && c.results.Rejected?
      modifies this, requests, keys, chain
      ensures Valid() && OnlyMoved(old(requests.docs), requests.docs, id)
      ensures Elsewhere(id) == old(Elsewhere(id))
      ensures View(id) == C.FinishCascade(old(View(id)), c)
      ensures old(requests.docs)[id].status.CascadePending? || old(requests.docs)[id].status.CascadeInProgress? ==>
        requests.docs[id].status == CascadePartialFailure
      ensures C.WorldOk(old(View(id))) ==> C.WorldOk(View(id)) && Settled(requests.docs[id].status)
    {
      FinishOk(View(id), c);
      CountIsThere(outstanding, id);
      outstanding := outstanding - multiset{id};
      assert View(id) == old(View(id)).(cascades := old(View(id)).cascades - 1);
      var r := Advance(id, CascadePartialFailure, e, c);
    }

    /** It comes back with results: the `.then` handler, and the `.catch` behind it; the protocol's FinishCascade. */
    method CascadeSettled(id: string, results: CascadeResults, e: Environment, ghost c: S.Choice)
      requires Valid() && id in requests.docs && id in outstanding
      requires SameAnswers(c, e) && c.results == OutcomesOf(results)
      modifies this, requests, keys, chain
      ensures Valid() && OthersKept(old(requests.docs), requests.docs, id)
      ensures Elsewhere(id) == old(Elsewhere(id))
      ensures requests.docs[id].wipes == RecordAll(old(requests.docs)[id].wipes, Stamped(Attempts(results), old(clock)))
      ensures Reflects(old(requests.docs)[id].wipes, requests.docs[id].wipes, results, old(clock))
      ensures old(requests.docs)[id].status.CascadePending? || old(requests.docs)[id].status.CascadeInProgress? ==>
        requests.docs[id].status
          == if NothingFailed(results) && T.CanIssue(old(View(id)), c) then CertificateIssued else CascadePartialFailure
      ensures View(id) == C.AdvanceOrRecover(
        old(View(id)).(cascades := old(View(id)).cascades - 1),
        if S.Clean(c.results) then CascadeComplete else CascadePartialFailure, c)
      ensures C.WorldOk(old(View(id))) ==> C.WorldOk(View(id)) && Settled(requests.docs[id].status)
    {
      FinishOk(View(id), c);
      SettledEndsIn(View(id), results, c);
      RunIsReflected(requests.docs[id].wipes, results, clock);
      CountIsThere(outstanding, id);
      outstanding := outstanding - multiset{id};
      ghost var w1 := View(id);
      assert w1 == old(View(id)).(cascades := old(View(id)).cascades - 1);
      RecordCascade(id, results);
      var failed := AnyFailed(results);
      var next := if failed then CascadePartialFailure else CascadeComplete;
      AdvanceOrRecover(id, next, e, c);
      assert View(id) == C.AdvanceOrRecover(w1, next, c);
    }

    /** The end of the `.then` handler, and the `.catch` when it throws. */
    method AdvanceOrRecover(id: string, to: Status, e: Environment, ghost c: S.Choice)
      requires Valid() && id in requests.docs && (to.CascadeComplete? || to.CascadePartialFailure?)
      requires SameAnswers(c, e)
      modifies this, requests, keys, chain
      ensures Valid() && OnlyMoved(old(requests.docs), requests.docs, id)
      ensures Elsewhere(id) == old(Elsewhere(id))
      ensures View(id) == C.AdvanceOrRecover(old(View(id)), to, c)
    {
      var r := Advance(id, to, e, c);
      if !r.Replied? {
        r := Advance(id, CascadePartialFailure, e, c);
      }
    }

    /** `advanceRequest` as the handlers call it, towards a status that needs no plan. */
    method Advance(id: string, to: Status, e: Environment, ghost c: S.Choice) returns (r: Reply)
      requires Valid() && id in requests.docs && (to.CascadeComplete? || to.CascadePartialFailure?)
      requires SameAnswers(c, e)
      modifies this, requests, keys, chain
      ensures Valid() && OnlyMoved(old(requests.docs), requests.docs, id)
      ensures Elsewhere(id) == old(Elsewhere(id))
      ensures var call := C.AdvanceCall(old(View(id)), to, c);
        View(id) == call.world && (r.Replied? <==> call.Returned?)
    {
      PlanIsNotRead(View(id), to, ChoiceOf(e, PlanAt(id, e)), c);
      r := AdvanceRequest(id, to, e);
    }
  }

  function Destined(attempts: seq<Attempt>): seq<string> {
    seq(|attempts|, i requires 0 <= i < |attempts| => attempts[i].destination)
  }

  /** The results are what the janitor and the two redaction runs return for these destinations and this table. */
  ghost predicate ResultsOf(results: CascadeResults, destinations: seq<string>, t: Registry.Table, tenant: string) {
    && Destined(JanitorAttempts(results.janitor)) == WithConnector(destinations)
    && FollowsPlan(results.redactions, Plan(t, tenant, RedactInPlace))
    && FollowsPlan(results.copies, Plan(t, tenant, EncryptedCopy))
  }

  /** Each result is what the run of its resource's statement says. */
  ghost predicate AnswersOf(results: seq<RedactionResult>, plan: seq<Entry>, strategy: Strategy, query: Query) {
    |results| == |plan| && forall i :: 0 <= i < |plan| ==> Ran(results[i], plan[i], strategy, query)
  }

  /** One result for each planned resource, in order; or the run did not take place. */
  ghost predicate FollowsPlan(results: seq<RedactionResult>, plan: seq<Entry>) {
    || results == []
    || (|results| == |plan| && forall i :: 0 <= i < |plan| ==> results[i].resource == plan[i].resource)
  }

  lemma ResourcesOnce(t: Registry.Table, tenant: string, strategy: Strategy, results: seq<RedactionResult>)
    requires Registry.TableOk(t) && Registry.ManualOwned(t) && FollowsPlan(results, Plan(t, tenant, strategy))
    ensures Distinct(Resources(results))
  {
    if results != [] {
      EachResourceOnce(t, tenant, strategy, results);
    }
  }

  lemma SoundRunRecordsOnce(destinations: seq<string>, t: Registry.Table, tenant: string, results: CascadeResults)
    requires Distinct(destinations) && Registry.TableOk(t) && Registry.ManualOwned(t)
    requires ResultsOf(results, destinations, t, tenant)
    ensures Distinct(Destined(Attempts(results)))
  {
    var a, b, c := WithConnector(destinations), Labels(Resources(results.redactions), RedactInPlace),
      Labels(Resources(results.copies), EncryptedCopy);
    assert Distinct(a + b + c) by {
      PlanIsTheConnected(destinations, "");
      ResourcesOnce(t, tenant, RedactInPlace, results.redactions);
      ResourcesOnce(t, tenant, EncryptedCopy, results.copies);
      RunLabelsNeverCollide(a, Resources(results.redactions), Resources(results.copies));
    }
    assert Destined(Attempts(results)) == a + b + c by {
      assert Destined(RedactionAttempts(results.redactions, RedactInPlace)) == b;
      assert Destined(RedactionAttempts(results.copies, EncryptedCopy)) == c;
      DestinedInThree(JanitorAttempts(results.janitor), RedactionAttempts(results.redactions, RedactInPlace),
                      RedactionAttempts(results.copies, EncryptedCopy));
    }
  }

  /**
   * One cascade never records two outcomes under one destination: after any operations on the key
   * registry and, by tenants with proper ids, on the PII registry, whatever a cascade that runs there
   * comes back with, the janitor's tasks, the redacted and the deleted resources keep to their own labels.
   */
  lemma {:induction false} OneRunNeverRecordsTwice(ops: seq<Keys.Op>, keyId: string, initial: seq<Entry>,
                                                  writes: seq<Registry.Op>, tenant: string, results: CascadeResults)
    requires Registry.Seeds(initial) && forall i :: 0 <= i < |writes| ==> Registry.Proper(Registry.Writer(writes[i]))
    requires ResultsOf(results, Destinations(Keys.PerformAll(map[], ops), keyId),
                       Registry.PerformFirst(Registry.Build(initial), writes, |writes|), tenant)
    ensures Distinct(Destined(Attempts(results)))
  {
    var t := Registry.PerformFirst(Registry.Build(initial), writes, |writes|);
    var destinations := Destinations(Keys.PerformAll(map[], ops), keyId);
    Registry.ReachableOk(initial, writes);
    Keys.DestinationsAreDistinct(ops);
    SoundRunRecordsOnce(destinations, t, tenant, results);
  }

  lemma DestinedInThree(a: seq<Attempt>, b: seq<Attempt>, c: seq<Attempt>)
    ensures Destined(a + b + c) == Destined(a) + Destined(b) + Destined(c)
  {
  }

  /** Where a finished cascade leaves its request. */
  predicate Settled(status: Status) {
    status.CertificateIssued? || status.CascadePartialFailure?
  }

  lemma AdvanceOk(w: C.World, to: Status, c: S.Choice)
    ensures C.WorldOk(w) ==> C.WorldOk(C.AdvanceCall(w, to, c).world)
  {
    if C.WorldOk(w) {
      C.AdvanceCallOk(w, to, c);
    }
  }

  lemma FinishOk(w: C.World, c: S.Choice)
    requires w.cascades > 0
    ensures C.WorldOk(w) ==> C.WorldOk(C.FinishCascade(w, c)) && Settled(C.FinishCascade(w, c).doc.status)
  {
    if C.WorldOk(w) {
      C.FinishCascadeOk(w, c);
    }
  }

  lemma SettledEndsIn(w: C.World, results: CascadeResults, c: S.Choice)
    requires w.cascades > 0 && c.results == OutcomesOf(results)
    ensures w.doc.status.CascadePending? || w.doc.status.CascadeInProgress? ==>
      C.FinishCascade(w, c).doc.status
        == if NothingFailed(results) && T.CanIssue(w, c) then CertificateIssued else CascadePartialFailure
  {
    if w.doc.status.CascadePending? || w.doc.status.CascadeInProgress? {
      T.FinishEndsIn(w, c);
      OutcomesSucceed(results);
    }
  }

  /** The handler's three filters. */
  method AnyFailed(results: CascadeResults) returns (failed: bool)
    ensures failed <==> !NothingFailed(results)
    ensures failed <==> !S.Clean(OutcomesOf(results))
  {
    var janitor := exists i :: 0 <= i < |results.janitor| && !results.janitor[i].complete;
    var redactions := exists i :: 0 <= i < |results.redactions| && !results.redactions[i].success;
    var copies := exists i :: 0 <= i < |results.copies| && !results.copies[i].success;
    failed := janitor || redactions || copies;
    OutcomesSucceed(results);
  }

  lemma OutcomesSucceed(results: CascadeResults)
    ensures S.Clean(OutcomesOf(results)) <==> NothingFailed(results)
  {
    var o := OutcomesOf(results);
    if S.Clean(o) {
      forall i | 0 <= i < |results.janitor| ensures results.janitor[i].complete { assert o.janitor[i].ok; }
      forall i | 0 <= i < |results.redactions| ensures results.redactions[i].success { assert o.redactions[i].ok; }
      forall i | 0 <= i < |results.copies| ensures results.copies[i].success { assert o.copies[i].ok; }
    }
  }

  /** Only the two cascade-starting calls look at a plan, and no call looks at a cascade's results. */
  lemma PlanIsNotRead(w: C.World, to: Status, c: S.Choice, d: S.Choice)
    requires to.CascadeComplete? || to.CascadePartialFailure?
    requires c.readOk == d.readOk && c.signOk == d.signOk && c.storeOk == d.storeOk
    ensures C.AdvanceCall(w, to, c) == C.AdvanceCall(w, to, d)
  {
  }
}
