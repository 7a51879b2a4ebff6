/** The stored deletion-request documents and the operations on them. */
module DeletionRepository {
  import opened DeletionStatus
  import opened Text

  datatype HistoryEntry = HistoryEntry(status: Status, timestamp: int)

  datatype WipeStatus = WipePending | WipeInProgress | Succeeded | Failed | Dlq

  datatype WipeDetails = WipeDetails(recordsFound: Option<nat>, rowsAffected: Option<nat>)

  datatype Wipe = Wipe(destination: string, status: WipeStatus, updatedAt: int, details: WipeDetails)

  datatype DeletionRequest = DeletionRequest(
    id: string, tenant: string, user: string, status: Status, createdAt: int,
    history: seq<HistoryEntry>, wipes: seq<Wipe>,
    keyDestroyedAt: Option<int>, cascadeInitiatedAt: Option<int>,
    certificateIssuedAt: Option<int>, certificatePath: Option<string>)

  /** A partial document: the fields a caller attaches. */
  datatype Fields = Fields(
    keyDestroyedAt: Option<int>, cascadeInitiatedAt: Option<int>,
    certificateIssuedAt: Option<int>, certificatePath: Option<string>)

  const NO_FIELDS: Fields := Fields(None, None, None, None)

  type Docs = map<string, DeletionRequest>

  datatype ClaimResult = Claimed | Lost(current: DeletionRequest) | Missing

  // ----- The operations as functions on one document -----

  function NewRequest(user: string, id: string, tenant: string, now: int): DeletionRequest {
    DeletionRequest(id, tenant, user, ShredRequested, now, [HistoryEntry(ShredRequested, now)], [],
                    None, None, None, None)
  }

  /** Firestore's arrayUnion: an element already in the array is not added again. */
  function ArrayUnion(history: seq<HistoryEntry>, e: HistoryEntry): seq<HistoryEntry> {
    if e in history then history else history + [e]
  }

  function WithStatus(d: DeletionRequest, status: Status, now: int): DeletionRequest {
    d.(status := status, history := ArrayUnion(d.history, HistoryEntry(status, now)))
  }

  function Either<T>(first: Option<T>, second: Option<T>): Option<T> {
    if first.Some? then first else second
  }

  function WithFields(d: DeletionRequest, f: Fields): DeletionRequest {
    d.(keyDestroyedAt := Either(f.keyDestroyedAt, d.keyDestroyedAt),
       cascadeInitiatedAt := Either(f.cascadeInitiatedAt, d.cascadeInitiatedAt),
       certificateIssuedAt := Either(f.certificateIssuedAt, d.certificateIssuedAt),
       certificatePath := Either(f.certificatePath, d.certificatePath))
  }

  /** The place of a destination's wipe from `i` on; the length when there is none. */
  function IndexFrom(wipes: seq<Wipe>, destination: string, i: nat): (r: nat)
    requires i <= |wipes|
    ensures i <= r <= |wipes| && (r < |wipes| ==> wipes[r].destination == destination)
    ensures forall k :: i <= k < r ==> wipes[k].destination != destination
    decreases |wipes| - i
  {
    if i == |wipes| || wipes[i].destination == destination then i else IndexFrom(wipes, destination, i + 1)
  }

  predicate HasDestination(wipes: seq<Wipe>, destination: string) {
    IndexFrom(wipes, destination, 0) < |wipes|
  }

  /** Replace the entry with the same destination, or append. */
  function Upsert(wipes: seq<Wipe>, w: Wipe): seq<Wipe> {
    var i := IndexFrom(wipes, w.destination, 0);
    if i < |wipes| then wipes[i := w] else wipes + [w]
  }

  /** Short of completion: what the query for a user's active request asks for. */
  predicate IsActiveFor(d: DeletionRequest, user: string, tenant: string) {
    && d.user == user && d.tenant == tenant
    && (d.status.ShredRequested? || d.status.KeyDestroyed? || d.status.CascadePending? || d.status.CascadeInProgress?
        || d.status.CascadePartialFailure?)
  }

  ghost predicate IsNewestActive(docs: Docs, d: DeletionRequest, user: string, tenant: string) {
    && IsActiveFor(d, user, tenant)
    && (exists id :: id in docs && docs[id] == d)
    && forall id :: id in docs && IsActiveFor(docs[id], user, tenant) ==> docs[id].createdAt <= d.createdAt
  }

  /** Every other document is as it was. */
  ghost predicate OthersKept(before: Docs, after: Docs, id: string) {
    && id in before && after.Keys == before.Keys
    && forall other :: other in before && other != id ==> after[other] == before[other]
  }

  /** One document has this status now, and a history that is at most longer; all else is as it was. */
  ghost predicate StatusWritten(before: Docs, after: Docs, id: string, status: Status) {
    && OthersKept(before, after, id)
    && after[id].status == status && before[id].history <= after[id].history
    && after[id] == before[id].(status := status, history := after[id].history)
  }

  /** One document has the fields given, and the others as they were; all else is as it was. */
  ghost predicate FieldsAttached(before: Docs, after: Docs, id: string, f: Fields) {
    && OthersKept(before, after, id)
    && after[id].keyDestroyedAt == (if f.keyDestroyedAt.Some? then f.keyDestroyedAt else before[id].keyDestroyedAt)
    && after[id].cascadeInitiatedAt
       == (if f.cascadeInitiatedAt.Some? then f.cascadeInitiatedAt else before[id].cascadeInitiatedAt)
    && after[id].certificateIssuedAt
       == (if f.certificateIssuedAt.Some? then f.certificateIssuedAt else before[id].certificateIssuedAt)
    && after[id].certificatePath == (if f.certificatePath.Some? then f.certificatePath else before[id].certificatePath)
    && after[id].status == before[id].status && after[id].history == before[id].history
    && after[id].wipes == before[id].wipes && after[id].createdAt == before[id].createdAt
    && after[id].id == before[id].id && after[id].tenant == before[id].tenant && after[id].user == before[id].user
  }

  /** One document records this wipe for its destination, and keeps its other records; all else is as it was. */
  ghost predicate WipeRecorded(before: Docs, after: Docs, id: string, w: Wipe) {
    && OthersKept(before, after, id)
    && after[id] == before[id].(wipes := after[id].wipes)
    && Recorded(after[id].wipes, w.destination) == Some(w)
    && forall other :: other != w.destination ==> Recorded(after[id].wipes, other) == Recorded(before[id].wipes, other)
  }

  // ----- The repository -----

  class DeletionRequestRepository {
    var docs: Docs

    constructor ()
      ensures docs == map[]
    {
      docs := map[];
    }

    method CreateDeletionRequest(user: string, id: string, tenant: string, now: int) returns (r: DeletionRequest)
      modifies this
      ensures id in old(docs) ==> docs == old(docs) && r == old(docs)[id]
      ensures id !in old(docs) ==> r == NewRequest(user, id, tenant, now) && docs == old(docs)[id := r]
      ensures id !in old(docs) ==>
        && r.id == id && r.user == user && r.tenant == tenant && r.status == ShredRequested && r.createdAt == now
        && r.history == [HistoryEntry(ShredRequested, now)] && r.wipes == []
        && r.keyDestroyedAt.None? && r.cascadeInitiatedAt.None?
        && r.certificateIssuedAt.None? && r.certificatePath.None?
      ensures docs == Perform(old(docs), Create(user, id, tenant, now))
    {
      if id in docs {
        return docs[id];
      }
      r := DeletionRequest(id, tenant, user, ShredRequested, now, [HistoryEntry(ShredRequested, now)], [],
                           None, None, None, None);
      docs := docs[id := r];
    }

    method GetDeletionRequest(id: string) returns (r: Option<DeletionRequest>)
      ensures r == if id in docs then Some(docs[id]) else None
    {
      r := if id in docs then Some(docs[id]) else None;
    }

    /** The query: the newest of the user's requests short of completion; any of them when several are newest. */
    method GetActiveDeletionRequestForUser(user: string, tenant: string) returns (r: Option<DeletionRequest>)
      ensures r.None? ==> forall id :: id in docs ==> !IsActiveFor(docs[id], user, tenant)
      ensures r.Some? ==>
        && r.value.user == user && r.value.tenant == tenant
        && !r.value.status.CascadeComplete? && !r.value.status.CertificateIssued?
      ensures r.Some? ==> IsNewestActive(docs, r.value, user, tenant)
    {
      r := None;
      var rest := docs.Keys;
      while rest != {}
        invariant rest <= docs.Keys
        invariant r.None? ==> forall id :: id in docs && id !in rest ==> !IsActiveFor(docs[id], user, tenant)
        invariant r.Some? ==> IsActiveFor(r.value, user, tenant) && exists id :: id in docs && docs[id] == r.value
        invariant r.Some? ==>
          forall id :: id in docs && id !in rest && IsActiveFor(docs[id], user, tenant) ==>
            docs[id].createdAt <= r.value.createdAt
        decreases rest
      {
        var id :| id in rest;
        rest := rest - {id};
        if IsActiveFor(docs[id], user, tenant) && (r.None? || r.value.createdAt < docs[id].createdAt) {
          r := Some(docs[id]);
        }
      }
    }

    /** An unconditional status write; `update` fails on a missing document. */
    method UpdateDeletionRequestStatus(id: string, status: Status, now: int) returns (ok: bool)
      modifies this
      ensures ok == (id in old(docs))
      ensures if ok then StatusWritten(old(docs), docs, id, status) else docs == old(docs)
      ensures docs == Perform(old(docs), WriteStatus(id, status, now))
    {
      if id !in docs {
        return false;
      }
      var d := docs[id];
      var e := HistoryEntry(status, now);
      var history := d.history;
      if e !in history {
        history := history + [e];
      }
      docs := docs[id := d.(status := status, history := history)];
      ok := true;
    }

    /** Compare-and-swap on the status alone. */
    method ClaimTransition(id: string, allowedFrom: seq<Status>, status: Status, now: int) returns (r: ClaimResult)
      modifies this
      ensures id !in old(docs) ==> r == Missing
      ensures id in old(docs) && old(docs)[id].status !in allowedFrom ==> r == Lost(old(docs)[id])
      ensures id in old(docs) && old(docs)[id].status in allowedFrom ==> r == Claimed
      ensures if r == Claimed then StatusWritten(old(docs), docs, id, status) else docs == old(docs)
      ensures docs == Perform(old(docs), Claim(id, allowedFrom, status, now))
    {
      if id !in docs {
        return Missing;
      }
      var current := docs[id];
      if current.status !in allowedFrom {
        return Lost(current);
      }
      var ok := UpdateDeletionRequestStatus(id, status, now);
      r := Claimed;
    }

    method UpdateDeletionRequestFields(id: string, f: Fields) returns (ok: bool)
      modifies this
      ensures ok == (id in old(docs) || f == NO_FIELDS)
      ensures if id in old(docs) then FieldsAttached(old(docs), docs, id, f) else docs == old(docs)
      ensures docs == Perform(old(docs), Attach(id, f))
    {
      if f == NO_FIELDS {
        assert id in docs ==> docs[id := WithFields(docs[id], f)] == docs;
        return true;
      }
      if id !in docs {
        return false;
      }
      docs := docs[id := WithFields(docs[id], f)];
      ok := true;
    }

    method UpdateJanitorWipeStatus(id: string, destination: string, status: WipeStatus, details: WipeDetails, now: int)
        returns (ok: bool)
      modifies this
      ensures ok == (id in old(docs))
      ensures if ok then WipeRecorded(old(docs), docs, id, Wipe(destination, status, now, details))
              else docs == old(docs)
      ensures docs == Perform(old(docs), RecordWipe(id, Wipe(destination, status, now, details)))
    {
      if id !in docs {
        return false;
      }
      var wipes := docs[id].wipes;
      var w := Wipe(destination, status, now, details);
      var i := 0;
      while i < |wipes| && wipes[i].destination != destination
        invariant 0 <= i <= |wipes| && IndexFrom(wipes, destination, i) == IndexFrom(wipes, destination, 0)
      {
        i := i + 1;
      }
      if i < |wipes| {
        wipes := wipes[i := w];
      } else {
        wipes := wipes + [w];
      }
      forall other
        ensures Recorded(wipes, other) == if other == destination then Some(w) else Recorded(docs[id].wipes, other)
      {
        UpsertRecords(docs[id].wipes, w, other);
      }
      docs := docs[id := docs[id].(wipes := wipes)];
      ok := true;
    }
  }

  // ----- What the history records -----

  predicate EndsIn(d: DeletionRequest) {
    d.history != [] && d.history[|d.history| - 1].status == d.status
  }

  /**
   * A status write leaves the history ending in the new status exactly when its entry is new,
   * or the last entry already has that status: `arrayUnion` drops an entry with the same
   * status and the same timestamp as an earlier one.
   */
  lemma HistoryEndsInStatusExactlyWhen(d: DeletionRequest, status: Status, now: int)
    requires d.history != []
    ensures EndsIn(WithStatus(d, status, now))
      <==> HistoryEntry(status, now) !in d.history || d.history[|d.history| - 1].status == status
    ensures (forall i :: 0 <= i < |d.history| ==> d.history[i].timestamp < now) ==>
      WithStatus(d, status, now).history == d.history + [HistoryEntry(status, now)]
  {
  }

  /** A claim and its rollback within one millisecond of creation leave a history that ends in the wrong status. */
  lemma SameInstantRollbackIsLost(user: string, id: string, tenant: string, now: int)
    ensures var d := WithStatus(WithStatus(NewRequest(user, id, tenant, now), KeyDestroyed, now), ShredRequested, now);
      d.status == ShredRequested && !EndsIn(d)
  {
  }

  // ----- One wipe per destination -----

  ghost predicate DistinctDestinations(wipes: seq<Wipe>) {
    forall i, j :: 0 <= i < j < |wipes| ==> wipes[i].destination != wipes[j].destination
  }

  /** The recorded wipe of a destination. */
  function Recorded(wipes: seq<Wipe>, destination: string): Option<Wipe> {
    var i := IndexFrom(wipes, destination, 0);
    if i < |wipes| then Some(wipes[i]) else None
  }

  lemma RecordedIsThere(wipes: seq<Wipe>, destination: string)
    ensures HasDestination(wipes, destination) <==> exists i :: 0 <= i < |wipes| && wipes[i].destination == destination
    ensures Recorded(wipes, destination).Some? <==> HasDestination(wipes, destination)
    ensures Recorded(wipes, destination).Some? ==>
      Recorded(wipes, destination).value in wipes && Recorded(wipes, destination).value.destination == destination
  {
  }

  lemma DistinctMeansRecorded(wipes: seq<Wipe>, i: nat)
    requires DistinctDestinations(wipes) && i < |wipes|
    ensures Recorded(wipes, wipes[i].destination) == Some(wipes[i])
  {
  }

  /** An upsert records its wipe, keeps every other record, and never repeats a destination. */
  lemma UpsertRecords(wipes: seq<Wipe>, w: Wipe, destination: string)
    ensures Recorded(Upsert(wipes, w), destination)
      == if destination == w.destination then Some(w) else Recorded(wipes, destination)
    ensures |Upsert(wipes, w)| == |wipes| + if HasDestination(wipes, w.destination) then 0 else 1
    ensures forall i :: 0 <= i < |wipes| ==> Upsert(wipes, w)[i].destination == wipes[i].destination
    ensures DistinctDestinations(wipes) ==> DistinctDestinations(Upsert(wipes, w))
  {
    var i, j := IndexFrom(wipes, w.destination, 0), IndexFrom(wipes, destination, 0);
    var after := Upsert(wipes, w);
    var k := IndexFrom(after, destination, 0);
    if destination == w.destination {
      assert after[i] == w;
      assert k == i;
    } else {
      if j < |wipes| { assert after[j] == wipes[j]; }
      if k < |after| { assert after[k] == wipes[k]; }
      assert j < |wipes| ==> k == j;
    }
  }

  // ----- Whole runs of the collection -----

  datatype Op =
    | Create(user: string, id: string, tenant: string, now: int)
    | WriteStatus(id: string, status: Status, now: int)
    | Claim(id: string, allowedFrom: seq<Status>, status: Status, now: int)
    | Attach(id: string, f: Fields)
    | RecordWipe(id: string, w: Wipe)

  /** The collection after one of the operations above, whoever issues it. */
  function Perform(docs: Docs, op: Op): Docs {
    match op
    case Create(user, id, tenant, now) => if id in docs then docs else docs[id := NewRequest(user, id, tenant, now)]
    case WriteStatus(id, status, now) => if id in docs then docs[id := WithStatus(docs[id], status, now)] else docs
    case Claim(id, allowedFrom, status, now) =>
      if id in docs && docs[id].status in allowedFrom then docs[id := WithStatus(docs[id], status, now)] else docs
    case Attach(id, f) => if id in docs then docs[id := WithFields(docs[id], f)] else docs
    case RecordWipe(id, w) => if id in docs then docs[id := docs[id].(wipes := Upsert(docs[id].wipes, w))] else docs
  }

  function PerformFirst(ops: seq<Op>, n: nat): Docs
    requires n <= |ops|
    decreases n
  {
    if n == 0 then map[] else Perform(PerformFirst(ops, n - 1), ops[n - 1])
  }

  /** One wipe per destination, and a history without repetitions that starts where the request was created. */
  ghost predicate Sound(d: DeletionRequest) {
    && DistinctDestinations(d.wipes)
    && d.history != [] && d.history[0] == HistoryEntry(ShredRequested, d.createdAt)
    && forall i, j :: 0 <= i < j < |d.history| ==> d.history[i] != d.history[j]
  }

  /** However the operations of any callers interleave, every stored document stays sound. */
  lemma {:induction false} DocumentsStaySound(ops: seq<Op>, n: nat)
    requires n <= |ops|
    ensures forall id :: id in PerformFirst(ops, n) ==> Sound(PerformFirst(ops, n)[id])
    decreases n
  {
    if n > 0 {
      DocumentsStaySound(ops, n - 1);
      var docs, op := PerformFirst(ops, n - 1), ops[n - 1];
      if op.RecordWipe? && op.id in docs {
        UpsertRecords(docs[op.id].wipes, op.w, "");
      }
    }
  }

  // ----- Of two claims out of one status the second loses -----

  predicate WritesStatusOf(op: Op, id: string) {
    (op.WriteStatus? || op.Claim?) && op.id == id
  }

  /** An operation that does not write this document's status leaves it, and what it is claimed from, alone. */
  lemma OthersKeepStatus(docs: Docs, op: Op, id: string)
    requires !WritesStatusOf(op, id)
    ensures id in docs ==> id in Perform(docs, op) && Perform(docs, op)[id].status == docs[id].status
    ensures id in Perform(docs, op) && id !in docs ==> Perform(docs, op)[id].status == ShredRequested
  {
  }

  /** Since a claim out of `from`, whoever made it, a document that was there is not in `from`. */
  lemma {:induction false} LeftBehind(ops: seq<Op>, i: nat, n: nat, id: string, from: Status)
    requires i < n <= |ops| && id in PerformFirst(ops, i)
    requires ops[i].Claim? && ops[i].id == id && ops[i].allowedFrom == [from] && ops[i].status != from
    requires forall k :: i < k < n ==> !WritesStatusOf(ops[k], id)
    ensures id in PerformFirst(ops, n) && PerformFirst(ops, n)[id].status != from
    decreases n
  {
    if n - 1 > i {
      LeftBehind(ops, i, n - 1, id, from);
      OthersKeepStatus(PerformFirst(ops, n - 1), ops[n - 1], id);
    }
  }

  /**
   * In every run of the collection: of two claims on a request out of the same status to another one,
   * with no status written in between, the second changes nothing at all.
   */
  lemma SecondClaimChangesNothing(ops: seq<Op>, i: nat, j: nat, id: string, from: Status)
    requires i < j < |ops| && id in PerformFirst(ops, i)
    requires ops[i].Claim? && ops[i].id == id && ops[i].allowedFrom == [from] && ops[i].status != from
    requires ops[j].Claim? && ops[j].id == id && ops[j].allowedFrom == [from]
    requires forall k :: i < k < j ==> !WritesStatusOf(ops[k], id)
    ensures PerformFirst(ops, j + 1) == PerformFirst(ops, j)
  {
    LeftBehind(ops, i, j, id, from);
  }
}
