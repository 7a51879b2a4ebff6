/** The key registry: one document per tenant and user, holding that user's wrapped key versions. */
module KeyRegistry {
  import opened KeyStates
  import opened Text
  import opened Filters

  datatype KeyDoc = KeyDoc(
    deks: map<string, string>, activeDekId: Option<string>, status: KeyState,
    destinations: seq<string>, deletionRequestId: Option<string>)

  datatype KeyData = KeyData(encryptedDek: string, activeDekId: Option<string>)

  datatype RotateResult = Rotated(version: string) | NotFound | ShreddedKey

  type Docs = map<string, KeyDoc>

  function DocId(tenant: string, user: string): string {
    tenant + ":" + user
  }

  function VersionId(n: nat): string {
    "v" + Decimal(n)
  }

  // ----- The operations as functions on the documents -----

  function LookUp(doc: KeyDoc, version: Option<string>): Option<KeyData> {
    if Gone(doc.status) || |doc.deks| == 0 then None
    else
      var target := if version.Some? && version.value != "" then version else doc.activeDekId;
      if target.None? || target.value == "" then None
      else if target.value !in doc.deks || doc.deks[target.value] == "" then None
      else Some(KeyData(doc.deks[target.value], doc.activeDekId))
  }

  function Get(docs: Docs, id: string, version: Option<string>): Option<KeyData> {
    if id !in docs then None else LookUp(docs[id], version)
  }

  function FreshKey(dek: string): KeyDoc {
    KeyDoc(map[VersionId(1) := dek], Some(VersionId(1)), Active, [], None)
  }

  function RotationOf(doc: KeyDoc, dek: string): (string, KeyDoc) {
    var version := VersionId(|doc.deks| + 1);
    (version, doc.(deks := doc.deks[version := dek], activeDekId := Some(version), status := Active))
  }

  predicate CanRotate(docs: Docs, id: string) {
    id in docs && !docs[id].status.Shredded? && docs[id].activeDekId.Some?
  }

  function ShreddedDoc(docs: Docs, id: string, request: Option<string>): KeyDoc {
    var before := if id in docs then docs[id] else KeyDoc(map[], None, Shredded, [], None);
    before.(deks := map[], activeDekId := None, status := Shredded,
            deletionRequestId := if request.Some? then request else before.deletionRequestId)
  }

  predicate HasMaterial(docs: Docs, id: string) {
    id in docs && (docs[id].status.Active? || docs[id].status.Rotated?) && |docs[id].deks| > 0
  }

  function StatusOf(docs: Docs, id: string): KeyState {
    if id in docs then docs[id].status else NoKey
  }

  // ----- The registry itself -----

  class FirestoreRegistry {
    var docs: Docs

    constructor ()
      ensures docs == map[]
    {
      docs := map[];
    }

    method GetKeyForUser(user: string, tenant: string, version: Option<string>) returns (r: Option<KeyData>)
      ensures r == Get(docs, DocId(tenant, user), version)
    {
      var id := DocId(tenant, user);
      if id !in docs { return None; }
      var data := docs[id];
      if data.status.Shredded? || data.status.Deleted? || |data.deks| == 0 { return None; }
      var target := data.activeDekId;
      if version.Some? && version.value != "" { target := version; }
      if target.None? || target.value == "" { return None; }
      if target.value !in data.deks || data.deks[target.value] == "" { return None; }
      r := Some(KeyData(data.deks[target.value], data.activeDekId));
    }

    method SetKeyForUser(user: string, dek: string, tenant: string)
      modifies this
      ensures docs == old(docs)[DocId(tenant, user) := FreshKey(dek)]
      ensures docs[DocId(tenant, user)] == KeyDoc(map["v1" := dek], Some("v1"), Active, [], None)
    {
      docs := docs[DocId(tenant, user) := KeyDoc(map["v1" := dek], Some("v1"), Active, [], None)];
      assert "v1" == VersionId(1);
    }

    method RotateKeyForUser(user: string, newDek: string, tenant: string) returns (r: RotateResult)
      modifies this
      ensures r.Rotated? <==>
        && DocId(tenant, user) in old(docs) && !old(docs)[DocId(tenant, user)].status.Shredded?
        && old(docs)[DocId(tenant, user)].activeDekId.Some?
      ensures r.Rotated? ==>
        var before := old(docs)[DocId(tenant, user)];
        && r.version == "v" + Decimal(|before.deks| + 1) && DocId(tenant, user) in docs
        && docs[DocId(tenant, user)] == before.(
             deks := before.deks[r.version := newDek], activeDekId := Some(r.version), status := Active)
      ensures CanRotate(old(docs), DocId(tenant, user)) ==>
        var (version, doc) := RotationOf(old(docs)[DocId(tenant, user)], newDek);
        r == RotateResult.Rotated(version) && docs == old(docs)[DocId(tenant, user) := doc]
      ensures !CanRotate(old(docs), DocId(tenant, user)) ==>
        docs == old(docs) && r == if DocId(tenant, user) in docs then ShreddedKey else NotFound
    {
      var id := DocId(tenant, user);
      if id !in docs { return NotFound; }
      var data := docs[id];
      if data.status.Shredded? || data.activeDekId.None? { return ShreddedKey; }
      var version := VersionId(|data.deks| + 1);
      docs := docs[id := data.(deks := data.deks[version := newDek], activeDekId := Some(version), status := Active)];
      r := RotateResult.Rotated(version);
    }

    method ShredKeyForUser(user: string, tenant: string, request: Option<string>)
      modifies this
      ensures docs == old(docs)[DocId(tenant, user) := ShreddedDoc(old(docs), DocId(tenant, user), request)]
      ensures docs == Perform(old(docs), Shred(tenant, user, request))
    {
      var id := DocId(tenant, user);
      var doc := if id in docs then docs[id] else KeyDoc(map[], None, Shredded, [], None);
      doc := doc.(deks := map[], activeDekId := None, status := Shredded);
      if request.Some? { doc := doc.(deletionRequestId := request); }
      docs := docs[id := doc];
    }

    method HasActiveKeyMaterial(user: string, tenant: string) returns (r: bool)
      ensures r == HasMaterial(docs, DocId(tenant, user))
      ensures r <==>
        && DocId(tenant, user) in docs && |docs[DocId(tenant, user)].deks| > 0
        && (docs[DocId(tenant, user)].status.Active? || docs[DocId(tenant, user)].status.Rotated?)
    {
      var id := DocId(tenant, user);
      if id !in docs { return false; }
      var data := docs[id];
      r := (data.status.Active? || data.status.Rotated?) && |data.deks| > 0;
    }

    method GetKeyStatus(user: string, tenant: string) returns (r: Option<KeyDoc>)
      ensures r == if DocId(tenant, user) in docs then Some(docs[DocId(tenant, user)]) else None
    {
      var id := DocId(tenant, user);
      r := if id in docs then Some(docs[id]) else None;
    }

    /** `update` with `arrayUnion`; a missing document is logged and ignored. */
    method AddDestinationToUser(user: string, destination: string, tenant: string)
      modifies this
      ensures docs == Perform(old(docs), Track(tenant, user, destination))
    {
      var id := DocId(tenant, user);
      if id in docs && destination !in docs[id].destinations {
        docs := docs[id := docs[id].(destinations := docs[id].destinations + [destination])];
      }
    }
  }

  function WithDestination(docs: Docs, id: string, destination: string): Docs {
    if id in docs && destination !in docs[id].destinations
    then docs[id := docs[id].(destinations := docs[id].destinations + [destination])]
    else docs
  }

  // ----- Runs of the registry as the routes drive it -----

  datatype Op =
    | Generate(tenant: string, user: string, dek: string)      // /key/generate: only if there is no key
    | Rotate(tenant: string, user: string, dek: string)        // /key/rotate
    | Shred(tenant: string, user: string, request: Option<string>)
    | Track(tenant: string, user: string, destination: string)

  function OpId(op: Op): string {
    DocId(op.tenant, op.user)
  }

  function Perform(docs: Docs, op: Op): Docs {
    var id := OpId(op);
    match op
    case Generate(_, _, dek) => if Get(docs, id, None).Some? then docs else docs[id := FreshKey(dek)]
    case Rotate(_, _, dek) => if CanRotate(docs, id) then docs[id := RotationOf(docs[id], dek).1] else docs
    case Shred(_, _, request) => docs[id := ShreddedDoc(docs, id, request)]
    case Track(_, _, destination) => WithDestination(docs, id, destination)
  }

  function PerformAll(docs: Docs, ops: seq<Op>): Docs {
    if ops == [] then docs
    else Perform(PerformAll(docs, ops[..|ops| - 1]), ops[|ops| - 1])
  }

  /** The version ids v1, ..., vn. */
  function VersionIds(n: nat): set<string> {
    if n == 0 then {} else VersionIds(n - 1) + {VersionId(n)}
  }

  lemma {:induction false} VersionIdsSize(n: nat, m: nat)
    ensures VersionId(m) in VersionIds(n) <==> 1 <= m <= n
    ensures |VersionIds(n)| == n
    decreases n
  {
    if n != 0 {
      VersionIdsSize(n - 1, m);
      VersionIdsSize(n - 1, n);
      if VersionId(m) == VersionId(n) {
        assert VersionId(m)[1..] == Decimal(m) && VersionId(n)[1..] == Decimal(n);
        DecimalInjective(m, n);
      }
    }
  }

  /** Exactly v1..vn with vn active, or nothing at all and shredded. */
  ghost predicate WellFormed(doc: KeyDoc) {
    var n := |doc.deks|;
    && doc.deks.Keys == VersionIds(n)
    && (if n == 0 then doc.activeDekId.None? && doc.status.Shredded?
        else doc.activeDekId == Some(VersionId(n)) && doc.status.Active?)
  }

  ghost predicate AllWellFormed(docs: Docs) {
    forall id :: id in docs ==> WellFormed(docs[id])
  }

  lemma RotationWellFormed(doc: KeyDoc, dek: string)
    requires WellFormed(doc)
    ensures var (version, after) := RotationOf(doc, dek);
      version !in doc.deks && WellFormed(after) && |after.deks| == |doc.deks| + 1
  {
    var n := |doc.deks|;
    assert |doc.deks.Keys| == n;
    VersionIdsSize(n, n + 1);
    var after := RotationOf(doc, dek).1;
    assert after.deks.Keys == VersionIds(n + 1);
    VersionIdsSize(n + 1, n + 1);
    assert |after.deks.Keys| == |after.deks|;
  }

  lemma {:induction false} PerformWellFormed(docs: Docs, op: Op)
    requires AllWellFormed(docs)
    ensures AllWellFormed(Perform(docs, op))
  {
    var id := OpId(op);
    match op {
      case Generate(_, _, dek) =>
        assert FreshKey(dek).deks.Keys == {VersionId(1)} == VersionIds(1) by { assert VersionIds(0) == {}; }
      case Rotate(_, _, dek) => if CanRotate(docs, id) { RotationWellFormed(docs[id], dek); }
      case Shred(_, _, _) => assert VersionIds(0) == {};
      case Track(_, _, _) =>
    }
  }

  /** In every reachable registry each document holds exactly v1..vn with vn active, or is shredded and empty. */
  lemma {:induction false} VersionsAreExact(ops: seq<Op>)
    ensures AllWellFormed(PerformAll(map[], ops))
  {
    if ops != [] {
      VersionsAreExact(ops[..|ops| - 1]);
      PerformWellFormed(PerformAll(map[], ops[..|ops| - 1]), ops[|ops| - 1]);
    }
  }

  /** In every reachable registry rotation adds a version and leaves every stored key as it was. */
  lemma RotationKeepsEveryKey(ops: seq<Op>, tenant: string, user: string, dek: string)
    ensures var before := PerformAll(map[], ops);
      var id := DocId(tenant, user);
      var after := Perform(before, Rotate(tenant, user, dek));
      id in before && before[id].status.Active? ==>
        && id in after && |after[id].deks| == |before[id].deks| + 1
        && (forall v :: v in before[id].deks ==> v in after[id].deks && after[id].deks[v] == before[id].deks[v])
        && Get(after, id, None) == if dek == "" then None else Some(KeyData(dek, after[id].activeDekId))
  {
    VersionsAreExact(ops);
    var before := PerformAll(map[], ops);
    var id := DocId(tenant, user);
    if id in before && before[id].status.Active? {
      RotationWellFormed(before[id], dek);
    }
  }

  lemma PerformDestinationsDistinct(docs: Docs, op: Op)
    requires forall id :: id in docs ==> Distinct(docs[id].destinations)
    ensures forall id :: id in Perform(docs, op) ==> Distinct(Perform(docs, op)[id].destinations)
  {
  }

  /** No user's document ever lists a destination twice. */
  lemma {:induction false} DestinationsAreDistinct(ops: seq<Op>)
    ensures forall id :: id in PerformAll(map[], ops) ==> Distinct(PerformAll(map[], ops)[id].destinations)
  {
    if ops != [] {
      DestinationsAreDistinct(ops[..|ops| - 1]);
      PerformDestinationsDistinct(PerformAll(map[], ops[..|ops| - 1]), ops[|ops| - 1]);
    }
  }

  // ----- What each operation does to a document -----

  /** A version resolves exactly when it is stored, not empty, and the document is not shredded or deleted. */
  lemma ResolvesExactlyWhen(docs: Docs, id: string, version: Option<string>, data: KeyData)
    requires version.Some? && version.value != ""
    ensures Get(docs, id, version) == Some(data) <==>
      && id in docs && !docs[id].status.Shredded? && !docs[id].status.Deleted?
      && version.value in docs[id].deks && docs[id].deks[version.value] != ""
      && data.encryptedDek == docs[id].deks[version.value] && data.activeDekId == docs[id].activeDekId
  {
  }

  /** Without a version asked for it is the active one that resolves. */
  lemma ActiveResolves(docs: Docs, id: string, version: Option<string>)
    requires version.None? || version.value == ""
    ensures Get(docs, id, version)
      == if id in docs && docs[id].activeDekId.Some? && docs[id].activeDekId.value != ""
         then Get(docs, id, docs[id].activeDekId) else None
  {
  }

  /** No operation touches another user's document. */
  lemma OnlyOwnDocument(docs: Docs, op: Op, id: string)
    requires OpId(op) != id
    ensures id in docs <==> id in Perform(docs, op)
    ensures id in docs ==> Perform(docs, op)[id] == docs[id]
  {
  }

  /** Shredding removes all key material, records its request, and leaves what else is tracked. */
  lemma ShredRemovesOnlyTheKey(docs: Docs, tenant: string, user: string, request: Option<string>)
    ensures var id, after := DocId(tenant, user), Perform(docs, Shred(tenant, user, request));
      && id in after && after[id].deks == map[] && after[id].activeDekId.None? && after[id].status.Shredded?
      && (request.Some? ==> after[id].deletionRequestId == request)
      && (id in docs ==> after[id].destinations == docs[id].destinations)
      && (id in docs && request.None? ==> after[id].deletionRequestId == docs[id].deletionRequestId)
      && (id !in docs ==> after[id].destinations == [] && after[id].deletionRequestId == request)
  {
  }

  /** The operation stores a new key: the one write that starts a document afresh. */
  predicate SetsNewKey(docs: Docs, op: Op, id: string) {
    op.Generate? && OpId(op) == id && Get(docs, id, None).None?
  }

  ghost predicate NoNewKey(docs: Docs, ops: seq<Op>, id: string) {
    forall i :: 0 <= i < |ops| ==> !SetsNewKey(PerformAll(docs, ops[..i]), ops[i], id)
  }

  lemma DestinationsGrowOnce(docs: Docs, op: Op, id: string)
    requires id in docs && !SetsNewKey(docs, op, id)
    ensures id in Perform(docs, op) && docs[id].destinations <= Perform(docs, op)[id].destinations
  {
  }

  lemma {:induction false} DestinationsGrow(docs: Docs, ops: seq<Op>, id: string)
    requires id in docs && NoNewKey(docs, ops, id)
    ensures id in PerformAll(docs, ops) && docs[id].destinations <= PerformAll(docs, ops)[id].destinations
  {
    if ops != [] {
      var before, op := ops[..|ops| - 1], ops[|ops| - 1];
      assert NoNewKey(docs, before, id) by {
        assert forall i :: 0 <= i < |before| ==> before[..i] == ops[..i] && before[i] == ops[i];
      }
      DestinationsGrow(docs, before, id);
      DestinationsGrowOnce(PerformAll(docs, before), op, id);
    }
  }

  /**
   * A tracked destination is listed, and stays listed through rotations, shreds and further tracking,
   * until a new key is stored for the user.
   */
  lemma {:induction false} TrackedUntilNewKey(ops: seq<Op>, tenant: string, user: string, destination: string,
                                             later: seq<Op>)
    requires DocId(tenant, user) in PerformAll(map[], ops)
    requires NoNewKey(Perform(PerformAll(map[], ops), Track(tenant, user, destination)), later, DocId(tenant, user))
    ensures var after := PerformAll(Perform(PerformAll(map[], ops), Track(tenant, user, destination)), later);
      DocId(tenant, user) in after && destination in after[DocId(tenant, user)].destinations
  {
    var tracked := Perform(PerformAll(map[], ops), Track(tenant, user, destination));
    assert destination in tracked[DocId(tenant, user)].destinations;
    DestinationsGrow(tracked, later, DocId(tenant, user));
  }

  /** And nothing is listed that was not tracked. */
  lemma {:induction false} ListedWasTracked(ops: seq<Op>, id: string, destination: string)
    requires id in PerformAll(map[], ops) && destination in PerformAll(map[], ops)[id].destinations
    ensures exists i :: 0 <= i < |ops| && ops[i].Track? && OpId(ops[i]) == id && ops[i].destination == destination
  {
    var before, op := ops[..|ops| - 1], ops[|ops| - 1];
    if !(op.Track? && OpId(op) == id && op.destination == destination) {
      ListedWasTracked(before, id, destination);
      var i :| 0 <= i < |before| && before[i].Track? && OpId(before[i]) == id && before[i].destination == destination;
      assert ops[i] == before[i];
    }
  }

  // ----- Two views of whether there is a key -----

  /** The active version's stored material; the registry stores base64 text. */
  function ActiveDek(docs: Docs, id: string): string {
    if id in docs && docs[id].activeDekId.Some? && docs[id].activeDekId.value in docs[id].deks
    then docs[id].deks[docs[id].activeDekId.value] else ""
  }

  /**
   * The auditor's answer and the decryption path agree in every reachable registry exactly when
   * an existing key's active version is not the empty string.
   */
  lemma {:induction false} TwoViewsAgreeExactlyWhen(ops: seq<Op>, tenant: string, user: string)
    ensures var docs := PerformAll(map[], ops);
      var id := DocId(tenant, user);
      && (Get(docs, id, None).Some? ==> HasMaterial(docs, id))
      && ((HasMaterial(docs, id) <==> Get(docs, id, None).Some?)
          <==> (HasMaterial(docs, id) ==> ActiveDek(docs, id) != ""))
      && (Gone(StatusOf(docs, id)) ==> !HasMaterial(docs, id) && Get(docs, id, None).None?)
  {
    VersionsAreExact(ops);
    var docs := PerformAll(map[], ops);
    var id := DocId(tenant, user);
    if id in docs {
      VersionIdsSize(|docs[id].deks|, |docs[id].deks|);
    }
  }

  predicate StoresNonEmpty(op: Op) {
    (op.Generate? || op.Rotate?) ==> op.dek != ""
  }

  ghost predicate NoEmptyDek(docs: Docs) {
    forall id, v :: id in docs && v in docs[id].deks ==> docs[id].deks[v] != ""
  }

  lemma PerformStoresNonEmpty(docs: Docs, op: Op)
    requires NoEmptyDek(docs) && StoresNonEmpty(op)
    ensures NoEmptyDek(Perform(docs, op))
  {
  }

  lemma {:induction false} NonEmptyStays(ops: seq<Op>)
    requires forall i :: 0 <= i < |ops| ==> StoresNonEmpty(ops[i])
    ensures NoEmptyDek(PerformAll(map[], ops))
  {
    if ops != [] {
      NonEmptyStays(ops[..|ops| - 1]);
      PerformStoresNonEmpty(PerformAll(map[], ops[..|ops| - 1]), ops[|ops| - 1]);
    }
  }

  /** As wrapped keys are never empty, the two views always agree. */
  lemma {:induction false} TwoViewsAgree(ops: seq<Op>, tenant: string, user: string)
    requires forall i :: 0 <= i < |ops| ==> StoresNonEmpty(ops[i])
    ensures var docs := PerformAll(map[], ops);
      HasMaterial(docs, DocId(tenant, user)) <==> Get(docs, DocId(tenant, user), None).Some?
  {
    VersionsAreExact(ops);
    NonEmptyStays(ops);
    TwoViewsAgreeExactlyWhen(ops, tenant, user);
    var docs := PerformAll(map[], ops);
    var id := DocId(tenant, user);
    if HasMaterial(docs, id) {
      VersionIdsSize(|docs[id].deks|, |docs[id].deks|);
      assert docs[id].activeDekId.value in docs[id].deks;
    }
  }

  // ----- Isolation of users -----

  /** The second tenant id continues the first across a colon that the first user id supplies. */
  ghost predicate Shifted(t: string, u: string, t': string, u': string) {
    exists w: string :: t' == t + ":" + w && u == w + ":" + u'
  }

  lemma ShiftedOrSame(t: string, u: string, t': string, u': string)
    requires DocId(t, u) == DocId(t', u') && |t| <= |t'|
    ensures (t == t' && u == u') || Shifted(t, u, t', u')
  {
    var s := DocId(t, u);
    assert s[..|t|] == t && s[..|t'|] == t' && s[|t|] == ':' == s[|t'|];
    assert s[|t| + 1..] == u && s[|t'| + 1..] == u';
    if |t| < |t'| {
      var w := t'[|t| + 1..];
      assert t'[|t|] == s[|t|] && t'[..|t|] == t;
      assert t' == t + ":" + w;
      assert u == w + ":" + u';
    }
  }

  /** Two users share a document exactly when they are the same or one tenant id runs on into the other's user id. */
  lemma DocumentsCollideExactlyWhen(t: string, u: string, t': string, u': string)
    ensures DocId(t, u) == DocId(t', u')
      <==> (t == t' && u == u') || Shifted(t, u, t', u') || Shifted(t', u', t, u)
    ensures ColonFree(t) && ColonFree(t') ==> (DocId(t, u) == DocId(t', u') <==> t == t' && u == u')
  {
    if DocId(t, u) == DocId(t', u') {
      if |t| <= |t'| { ShiftedOrSame(t, u, t', u'); } else { ShiftedOrSame(t', u', t, u); }
    }
    if Shifted(t, u, t', u') {
      ShiftedCollides(t, u, t', u');
    }
    if Shifted(t', u', t, u) {
      ShiftedCollides(t', u', t, u);
    }
  }

  lemma ShiftedCollides(t: string, u: string, t': string, u': string)
    requires Shifted(t, u, t', u')
    ensures DocId(t, u) == DocId(t', u') && !ColonFree(t')
  {
  }

  /** With a colon in a tenant id, shredding one tenant's user destroys another tenant's key. */
  lemma ColonInTenantCollides()
    ensures var docs := PerformAll(map[], [Generate("a:b", "c", "k"), Shred("a", "b:c", None)]);
      Get(docs, DocId("a:b", "c"), None).None?
  {
    assert DocId("a:b", "c") == "a:b:c" == DocId("a", "b:c");
    var ops := [Generate("a:b", "c", "k"), Shred("a", "b:c", None)];
    assert PerformAll(map[], ops) == Perform(PerformAll(map[], ops[..1]), ops[1]);
  }
}
