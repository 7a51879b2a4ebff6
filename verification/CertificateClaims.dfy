/** What the certificate signer claims about one deletion, from what it reads itself. */
module CertificateClaims {
  import opened DeletionStatus
  import opened KeyStates
  import opened Text
  import opened DeletionRepository
  import opened Filters
  import opened Connectors
  import opened PiiEntries
  import KeyRegistry

  /** BigQuery's longest time-travel window: 168 hours, in milliseconds. */
  const TIME_TRAVEL_CEILING: int := 168 * 60 * 60 * 1000

  datatype LineageStatus = ConfirmedAbsent | Erased

  datatype LineageItem = LineageItem(system: string, status: LineageStatus, timestamp: int)

  datatype ImmunityItem = ImmunityItem(
    resource: string, strategy: Strategy, immune: bool, redactedAt: Option<int>, immuneAsOf: Option<int>)

  datatype Claims = Claims(
    user: string, tenant: string, checked: nat, succeeded: nat,
    lineage: seq<LineageItem>, exceptions: seq<ImmunityItem>)

  datatype Result = Certified(claims: Claims) | KeyNotShredded | CascadeIncomplete | RegistryUnreadable

  // ----- Destination labels -----

  function Suffix(strategy: Strategy): string {
    match strategy
    case RedactInPlace => "::REDACT_IN_PLACE"
    case EncryptedCopy => "::ENCRYPTED_COPY"
    case ShadowCopy => "::SHADOW_COPY"
  }

  /** The janitor_wipes destination of a source redaction. */
  function Label(resource: string, strategy: Strategy): string {
    resource + Suffix(strategy)
  }

  /** The characters `.` does not match. */
  predicate LineTerminator(c: char) {
    c == '\n' || c == '\r' || c == '\U{2028}' || c == '\U{2029}'
  }

  predicate OneLine(s: string) {
    forall c :: c in s ==> !LineTerminator(c)
  }

  function Before(destination: string, strategy: Strategy): Option<string> {
    var cut := |destination| - |Suffix(strategy)|;
    if cut > 0 && destination[cut..] == Suffix(strategy) && OneLine(destination[..cut])
    then Some(destination[..cut]) else None
  }

  lemma BeforeExactly(destination: string, resource: string, strategy: Strategy)
    ensures Before(destination, strategy) == Some(resource)
      <==> destination == Label(resource, strategy) && resource != "" && OneLine(resource)
  {
    if destination == Label(resource, strategy) {
      assert destination[|resource|..] == Suffix(strategy) && destination[..|resource|] == resource;
    }
    if Before(destination, strategy) == Some(resource) {
      assert destination == resource + destination[|resource|..];
    }
  }

  /** `^(.+)::(REDACT_IN_PLACE|ENCRYPTED_COPY)$`. */
  function ParseDestination(destination: string): Option<(string, Strategy)> {
    match Before(destination, RedactInPlace)
    case Some(resource) => Some((resource, RedactInPlace))
    case None =>
      match Before(destination, EncryptedCopy)
      case Some(resource) => Some((resource, EncryptedCopy))
      case None => None
  }

  /** The sixth character from the end tells the suffixes apart. */
  function Mark(strategy: Strategy): char {
    match strategy case RedactInPlace => '_' case EncryptedCopy => 'D' case ShadowCopy => 'W'
  }

  lemma LabelMark(resource: string, strategy: Strategy)
    ensures var s := Label(resource, strategy); |s| > 6 && s[|s| - 6] == Mark(strategy)
  {
  }

  lemma LabelsDiffer(r: string, s: Strategy, r': string, s': Strategy)
    ensures Label(r, s) == Label(r', s') <==> r == r' && s == s'
  {
    LabelMark(r, s);
    LabelMark(r', s');
    if Label(r, s) == Label(r', s') {
      assert Mark(s) == Mark(s');
      assert r == Label(r, s)[..|r|] == Label(r', s')[..|r'|] == r';
    }
  }

  /** The signer parses a destination to a resource and strategy exactly when the service wrote it for them. */
  lemma ParsesWhatWasWritten(destination: string, resource: string, strategy: Strategy)
    ensures ParseDestination(destination) == Some((resource, strategy))
      <==> (destination == Label(resource, strategy) && !strategy.ShadowCopy? && resource != "" && OneLine(resource))
    ensures Label(resource, RedactInPlace) == resource + "::REDACT_IN_PLACE"
    ensures Label(resource, EncryptedCopy) == resource + "::ENCRYPTED_COPY"
    ensures OneLine(resource) <==>
      '\n' !in resource && '\r' !in resource && '\U{2028}' !in resource && '\U{2029}' !in resource
  {
    BeforeExactly(destination, resource, strategy);
    if Before(destination, RedactInPlace).Some? {
      var other := Before(destination, RedactInPlace).value;
      BeforeExactly(destination, other, RedactInPlace);
      LabelsDiffer(resource, strategy, other, RedactInPlace);
    }
  }

  // ----- The claims as functions of what was recorded -----

  predicate NothingFound(w: Wipe) {
    w.details.recordsFound == Some(0) || w.details.rowsAffected == Some(0)
  }

  function LineageOf(wipes: seq<Wipe>): seq<LineageItem> {
    if wipes == [] then []
    else
      var w := wipes[|wipes| - 1];
      LineageOf(wipes[..|wipes| - 1]) +
      if w.status.Succeeded?
      then [LineageItem(w.destination, if NothingFound(w) then ConfirmedAbsent else Erased, w.updatedAt)]
      else []
  }

  function SucceededCount(wipes: seq<Wipe>): nat {
    if wipes == [] then 0
    else SucceededCount(wipes[..|wipes| - 1]) + if wipes[|wipes| - 1].status.Succeeded? then 1 else 0
  }

  function ImmunityOf(resource: string, strategy: Strategy, redactedAt: int, now: int): ImmunityItem {
    var immune := strategy.EncryptedCopy? || now - redactedAt >= TIME_TRAVEL_CEILING;
    ImmunityItem(resource, strategy, immune, Some(redactedAt),
                 if immune then None else Some(redactedAt + TIME_TRAVEL_CEILING))
  }

  predicate Qualifies(w: Wipe) {
    w.status.Succeeded? && !NothingFound(w) && ParseDestination(w.destination).Some?
  }

  function RedactionsOf(wipes: seq<Wipe>, now: int): seq<ImmunityItem> {
    if wipes == [] then []
    else
      var w := wipes[|wipes| - 1];
      RedactionsOf(wipes[..|wipes| - 1], now) +
      if Qualifies(w) then
        var (resource, strategy) := ParseDestination(w.destination).value;
        [ImmunityOf(resource, strategy, w.updatedAt, now)]
      else []
  }

  function ShadowsOf(declared: seq<Entry>): seq<ImmunityItem> {
    if declared == [] then []
    else
      var d := declared[|declared| - 1];
      ShadowsOf(declared[..|declared| - 1]) +
      if HasStrategy(d, ShadowCopy) then [ImmunityItem(d.resource, ShadowCopy, false, None, None)] else []
  }

  function ClaimsOf(key: KeyState, request: Option<DeletionRequest>, user: string, tenant: string,
                    declared: Option<seq<Entry>>, now: int): Result {
    if !Gone(key) then KeyNotShredded
    else if request.None? || !Completed(request.value.status) then CascadeIncomplete
    else if declared.None? then RegistryUnreadable
    else
      var wipes := request.value.wipes;
      Certified(Claims(user, tenant, |wipes|, SucceededCount(wipes), LineageOf(wipes),
                       RedactionsOf(wipes, now) + ShadowsOf(declared.value)))
  }

  // ----- The signer -----

  class CertificateSigner {
    const keys: KeyRegistry.FirestoreRegistry
    const requests: DeletionRequestRepository

    constructor (keys: KeyRegistry.FirestoreRegistry, requests: DeletionRequestRepository)
      ensures this.keys == keys && this.requests == requests
    {
      this.keys, this.requests := keys, requests;
    }

    /** Reads the key and the request itself; `declared` is what its own registry read returned, if it did. */
    method GenerateClaims(user: string, tenant: string, requestId: string, declared: Option<seq<Entry>>, now: int)
        returns (r: Result)
      ensures r == ClaimsOf(
        KeyRegistry.StatusOf(keys.docs, KeyRegistry.DocId(tenant, user)),
        if requestId in requests.docs then Some(requests.docs[requestId]) else None,
        user, tenant, declared, now)
      ensures r.Certified? <==>
        && KeyRegistry.DocId(tenant, user) in keys.docs
        && (keys.docs[KeyRegistry.DocId(tenant, user)].status.Shredded?
            || keys.docs[KeyRegistry.DocId(tenant, user)].status.Deleted?)
        && requestId in requests.docs
        && (requests.docs[requestId].status.CascadeComplete? || requests.docs[requestId].status.CertificateIssued?)
        && declared.Some?
    {
      var key := keys.GetKeyStatus(user, tenant);
      var request := requests.GetDeletionRequest(requestId);
      if key.None? || (!key.value.status.Shredded? && !key.value.status.Deleted?) {
        return KeyNotShredded;
      }
      if request.None? || (!request.value.status.CascadeComplete? && !request.value.status.CertificateIssued?) {
        return CascadeIncomplete;
      }
      var wipes := request.value.wipes;
      var lineage, succeeded := [], 0;
      for i := 0 to |wipes|
        invariant lineage == LineageOf(wipes[..i]) && succeeded == SucceededCount(wipes[..i])
      {
        assert wipes[..i + 1][..i] == wipes[..i];
        var w := wipes[i];
        if w.status.Succeeded? {
          var absent := w.details.recordsFound == Some(0) || w.details.rowsAffected == Some(0);
          lineage := lineage + [LineageItem(w.destination, if absent then ConfirmedAbsent else Erased, w.updatedAt)];
          succeeded := succeeded + 1;
        }
      }
      var exceptions := RedactionExceptions(wipes, now);
      if declared.None? {
        return RegistryUnreadable;
      }
      var entries := declared.value;
      var shadows := [];
      for i := 0 to |entries|
        invariant shadows == ShadowsOf(entries[..i])
      {
        assert entries[..i + 1][..i] == entries[..i];
        if HasStrategy(entries[i], ShadowCopy) {
          shadows := shadows + [ImmunityItem(entries[i].resource, ShadowCopy, false, None, None)];
        }
      }
      assert wipes[..|wipes|] == wipes && entries[..|entries|] == entries;
      r := Certified(Claims(user, tenant, |wipes|, succeeded, lineage, exceptions + shadows));
    }
  }

  /** The exception one recorded wipe makes, if any. */
  method ExceptionOf(w: Wipe, now: int) returns (items: seq<ImmunityItem>)
    ensures !Qualifies(w) ==> items == []
    ensures Qualifies(w) ==>
      var (resource, strategy) := ParseDestination(w.destination).value;
      items == [ImmunityOf(resource, strategy, w.updatedAt, now)]
  {
    if !w.status.Succeeded? { return []; }
    if w.details.recordsFound == Some(0) || w.details.rowsAffected == Some(0) { return []; }
    var parsed := ParseDestination(w.destination);
    if parsed.None? { return []; }
    var (resource, strategy) := parsed.value;
    if strategy.EncryptedCopy? {
      items := [ImmunityItem(resource, EncryptedCopy, true, Some(w.updatedAt), None)];
    } else {
      var immune := now - w.updatedAt >= TIME_TRAVEL_CEILING;
      items := [ImmunityItem(resource, RedactInPlace, immune, Some(w.updatedAt),
        if immune then None else Some(w.updatedAt + TIME_TRAVEL_CEILING))];
    }
  }

  /** The loop over the recorded wipes. */
  method RedactionExceptions(wipes: seq<Wipe>, now: int) returns (exceptions: seq<ImmunityItem>)
    ensures exceptions == RedactionsOf(wipes, now)
  {
    exceptions := [];
    for i := 0 to |wipes|
      invariant exceptions == RedactionsOf(wipes[..i], now)
    {
      assert wipes[..i + 1][..i] == wipes[..i];
      var items := ExceptionOf(wipes[i], now);
      exceptions := exceptions + items;
    }
    assert wipes[..|wipes|] == wipes;
  }

  // ----- What a lineage item claims -----

  function HasSucceeded(): Wipe -> bool {
    (w: Wipe) => w.status.Succeeded?
  }

  /** The item says of the wipe what was found, when, and where. */
  predicate Reports(item: LineageItem, w: Wipe) {
    && item.system == w.destination && item.timestamp == w.updatedAt
    && (item.status.ConfirmedAbsent? <==> w.details.recordsFound == Some(0) || w.details.rowsAffected == Some(0))
  }

  /** The lineage is the successful wipes in their order, each reported; the count is how many they are. */
  lemma {:induction false} LineageReportsSuccesses(wipes: seq<Wipe>)
    ensures |LineageOf(wipes)| == |Kept(wipes, HasSucceeded())| == SucceededCount(wipes)
    ensures forall k :: 0 <= k < |LineageOf(wipes)| ==> Reports(LineageOf(wipes)[k], Kept(wipes, HasSucceeded())[k])
  {
    if wipes != [] {
      var before, last := wipes[..|wipes| - 1], wipes[|wipes| - 1];
      LineageReportsSuccesses(before);
      assert wipes == before + [last];
      KeptJoins(before, [last], HasSucceeded());
      KeptOne(last, HasSucceeded());
    }
  }

  /** How many items are about this system. */
  function CountSystem(lineage: seq<LineageItem>, system: string): nat {
    if lineage == [] then 0
    else CountSystem(lineage[..|lineage| - 1], system) + if lineage[|lineage| - 1].system == system then 1 else 0
  }

  /** The recorded wipe of this destination, if it succeeded. */
  predicate SucceededAt(wipes: seq<Wipe>, destination: string) {
    Recorded(wipes, destination).Some? && Recorded(wipes, destination).value.status.Succeeded?
  }

  /** One item about each system whose recorded wipe succeeded, reporting that wipe, and none about others. */
  lemma {:induction false} OneItemPerSuccess(wipes: seq<Wipe>, system: string)
    requires DistinctDestinations(wipes)
    ensures CountSystem(LineageOf(wipes), system) == if SucceededAt(wipes, system) then 1 else 0
    ensures forall item :: item in LineageOf(wipes) && item.system == system ==>
      SucceededAt(wipes, system) && Reports(item, Recorded(wipes, system).value)
  {
    if wipes != [] {
      var before, last := wipes[..|wipes| - 1], wipes[|wipes| - 1];
      OneItemPerSuccess(before, system);
      RecordedAtEnd(wipes, system);
      NotRecordedTwice(wipes);
      var items := LineageOf(wipes);
      if last.status.Succeeded? {
        assert items[..|items| - 1] == LineageOf(before);
      } else {
        assert items == LineageOf(before);
      }
    }
  }

  /**
   * What a certificate claims of a request's wipes: the caller's user and tenant, how many wipes are on
   * record and how many of them succeeded, and about each system one item exactly if its wipe succeeded,
   * with that wipe's time, confirmed absent exactly if it found no record or no row.
   */
  lemma CertifiedClaimsReport(key: KeyState, request: DeletionRequest, user: string, tenant: string,
                              declared: seq<Entry>, now: int, system: string)
    requires DistinctDestinations(request.wipes)
    ensures var r := ClaimsOf(key, Some(request), user, tenant, Some(declared), now);
      && (r.Certified? <==> (key.Shredded? || key.Deleted?)
                            && (request.status.CascadeComplete? || request.status.CertificateIssued?))
      && (r.Certified? ==>
            && r.claims.user == user && r.claims.tenant == tenant
            && r.claims.checked == |request.wipes| && r.claims.succeeded == |Kept(request.wipes, HasSucceeded())|
            && CountSystem(r.claims.lineage, system) == (if SucceededAt(request.wipes, system) then 1 else 0)
            && forall item :: item in r.claims.lineage && item.system == system ==>
                 SucceededAt(request.wipes, system) && Reports(item, Recorded(request.wipes, system).value))
  {
    LineageReportsSuccesses(request.wipes);
    OneItemPerSuccess(request.wipes, system);
  }

  /** Why claims are refused: the key is looked at first, then the request, then the declarations. */
  lemma RefusedBecause(key: KeyState, request: Option<DeletionRequest>, user: string, tenant: string,
                       declared: Option<seq<Entry>>, now: int)
    ensures var r := ClaimsOf(key, request, user, tenant, declared, now);
      var destroyed := key.Shredded? || key.Deleted?;
      var completed := request.Some?
        && (request.value.status.CascadeComplete? || request.value.status.CertificateIssued?);
      && (r.KeyNotShredded? <==> !destroyed) && (r.CascadeIncomplete? <==> destroyed && !completed)
      && (r.RegistryUnreadable? <==> destroyed && completed && declared.None?)
  {
  }

  // ----- Which resources the claims call exposed -----

  /**
   * An in-place redaction is immune from `immuneAsOf` on, a week later, and not before, and stays so;
   * the date is given exactly until then.
   */
  lemma ImmuneFromItsDateOn(resource: string, strategy: Strategy, redactedAt: int, now: int, later: int)
    ensures var item := ImmunityOf(resource, strategy, redactedAt, now);
      && (item.immune <==> item.immuneAsOf.None?)
      && (item.immuneAsOf.Some? ==>
            (ImmunityOf(resource, strategy, redactedAt, later).immune <==> later >= item.immuneAsOf.value))
      && (item.immune && now <= later ==> ImmunityOf(resource, strategy, redactedAt, later) == item)
      && (strategy.EncryptedCopy? ==> item.immune)
      && item.resource == resource && item.strategy == strategy && item.redactedAt == Some(redactedAt)
      && (item.immuneAsOf.Some? ==> item.immuneAsOf == Some(redactedAt + 7 * 24 * 60 * 60 * 1000))
  {
  }

  /** How many items report this resource under this strategy. */
  function CountItems(items: seq<ImmunityItem>, resource: string, strategy: Strategy): nat {
    if items == [] then 0
    else
      var last := items[|items| - 1];
      CountItems(items[..|items| - 1], resource, strategy) +
      if last.resource == resource && last.strategy == strategy then 1 else 0
  }

  /** A wipe of the resource by the strategy ran, did not come back with nothing, and succeeded. */
  predicate Wiped(wipes: seq<Wipe>, resource: string, strategy: Strategy) {
    var r := Recorded(wipes, Label(resource, strategy));
    && r.Some? && r.value.status.Succeeded?
    && r.value.details.recordsFound != Some(0) && r.value.details.rowsAffected != Some(0)
  }

  lemma {:induction false} RecordedAtEnd(wipes: seq<Wipe>, destination: string)
    requires wipes != []
    ensures Recorded(wipes, destination)
      == var before := Recorded(wipes[..|wipes| - 1], destination);
         if before.Some? then before
         else if wipes[|wipes| - 1].destination == destination then Some(wipes[|wipes| - 1]) else None
  {
  }

  lemma NotRecordedTwice(wipes: seq<Wipe>)
    requires wipes != [] && DistinctDestinations(wipes)
    ensures Recorded(wipes[..|wipes| - 1], wipes[|wipes| - 1].destination).None?
  {
  }

  /** The last wipe succeeded under exactly this label and found something. */
  predicate WipedLast(wipes: seq<Wipe>, resource: string, strategy: Strategy) {
    wipes != []
    && var w := wipes[|wipes| - 1];
       w.status.Succeeded? && !NothingFound(w) && w.destination == Label(resource, strategy)
  }

  lemma LastWipeWiped(wipes: seq<Wipe>, resource: string, strategy: Strategy)
    requires wipes != [] && DistinctDestinations(wipes)
    ensures var before := Wiped(wipes[..|wipes| - 1], resource, strategy);
      && (Wiped(wipes, resource, strategy) <==> before || WipedLast(wipes, resource, strategy))
      && !(before && WipedLast(wipes, resource, strategy))
  {
    RecordedAtEnd(wipes, Label(resource, strategy));
    NotRecordedTwice(wipes);
  }

  lemma LastWipeCounts(wipes: seq<Wipe>, now: int, resource: string, strategy: Strategy)
    requires wipes != [] && !strategy.ShadowCopy?
    ensures CountItems(RedactionsOf(wipes, now), resource, strategy)
      == CountItems(RedactionsOf(wipes[..|wipes| - 1], now), resource, strategy)
         + if WipedLast(wipes, resource, strategy) && resource != "" && OneLine(resource) then 1 else 0
  {
    var w, items := wipes[|wipes| - 1], RedactionsOf(wipes, now);
    ParsesWhatWasWritten(w.destination, resource, strategy);
    if Qualifies(w) {
      assert items[..|items| - 1] == RedactionsOf(wipes[..|wipes| - 1], now);
    } else {
      assert items == RedactionsOf(wipes[..|wipes| - 1], now);
    }
  }

  /**
   * Each effective wipe under a strategy label gives exactly one exception, for the resource and
   * strategy the service wrote; nothing else gives one.
   */
  lemma {:induction false} OneExceptionPerWipe(wipes: seq<Wipe>, now: int, resource: string, strategy: Strategy)
    requires DistinctDestinations(wipes) && !strategy.ShadowCopy?
    ensures CountItems(RedactionsOf(wipes, now), resource, strategy)
      == if Wiped(wipes, resource, strategy) && resource != "" && OneLine(resource) then 1 else 0
  {
    if wipes != [] {
      OneExceptionPerWipe(wipes[..|wipes| - 1], now, resource, strategy);
      LastWipeCounts(wipes, now, resource, strategy);
      LastWipeWiped(wipes, resource, strategy);
    }
  }

  /** An item of the redaction loop is the immunity of a recorded wipe. */
  lemma {:induction false} ItemsAreWipes(wipes: seq<Wipe>, now: int, item: ImmunityItem)
    requires DistinctDestinations(wipes)
    ensures item in RedactionsOf(wipes, now) <==>
      (&& !item.strategy.ShadowCopy? && item.resource != "" && OneLine(item.resource)
       && Wiped(wipes, item.resource, item.strategy)
       && item == ImmunityOf(item.resource, item.strategy,
                             Recorded(wipes, Label(item.resource, item.strategy)).value.updatedAt, now))
  {
    if wipes != [] {
      var w, before := wipes[|wipes| - 1], wipes[..|wipes| - 1];
      ItemsAreWipes(before, now, item);
      RecordedAtEnd(wipes, Label(item.resource, item.strategy));
      NotRecordedTwice(wipes);
      ParsesWhatWasWritten(w.destination, item.resource, item.strategy);
    }
  }

  /** The tenant has declared a shadow copy of the resource. */
  predicate Shadowed(e: Entry, resource: string) {
    e.resource == resource && HasStrategy(e, ShadowCopy)
  }

  lemma {:induction false} ShadowsAreDeclared(declared: seq<Entry>, item: ImmunityItem)
    ensures item in ShadowsOf(declared) <==>
      (&& item == ImmunityItem(item.resource, ShadowCopy, false, None, None)
       && exists i :: 0 <= i < |declared| && Shadowed(declared[i], item.resource))
  {
    if declared != [] {
      var before := declared[..|declared| - 1];
      ShadowsAreDeclared(before, item);
      if exists i :: 0 <= i < |declared| && Shadowed(declared[i], item.resource) {
        var i :| 0 <= i < |declared| && Shadowed(declared[i], item.resource);
        if i < |before| {
          assert Shadowed(before[i], item.resource);
        }
      }
    }
  }

  ghost predicate Exposed(claims: Claims, resource: string) {
    exists item :: item in claims.exceptions && item.resource == resource && !item.immune
  }

  ghost predicate ShadowDeclared(declared: seq<Entry>, resource: string) {
    exists i :: 0 <= i < |declared| && Shadowed(declared[i], resource)
  }

  /** An in-place redaction of the resource succeeded less than the time-travel ceiling ago. */
  predicate RecentlyRedacted(wipes: seq<Wipe>, resource: string, now: int) {
    Wiped(wipes, resource, RedactInPlace)
    && now - Recorded(wipes, Label(resource, RedactInPlace)).value.updatedAt < 7 * 24 * 60 * 60 * 1000
  }

  /**
   * The certificate calls a resource's backups not immune exactly when a shadow copy of it is
   * declared, or its plaintext was redacted in place within the time-travel window.
   */
  lemma ExposedExactlyWhen(key: KeyState, request: DeletionRequest, user: string, tenant: string,
                           declared: seq<Entry>, now: int, resource: string)
    requires Gone(key) && Completed(request.status) && DistinctDestinations(request.wipes)
    ensures var r := ClaimsOf(key, Some(request), user, tenant, Some(declared), now);
      && r.Certified?
      && (Exposed(r.claims, resource) <==>
            || ShadowDeclared(declared, resource)
            || (resource != "" && OneLine(resource) && RecentlyRedacted(request.wipes, resource, now)))
  {
    var claims := ClaimsOf(key, Some(request), user, tenant, Some(declared), now).claims;
    var redactions, shadows := RedactionsOf(request.wipes, now), ShadowsOf(declared);
    assert claims.exceptions == redactions + shadows;
    if Exposed(claims, resource) {
      var item :| item in claims.exceptions && item.resource == resource && !item.immune;
      ItemsAreWipes(request.wipes, now, item);
      ShadowsAreDeclared(declared, item);
    }
    if ShadowDeclared(declared, resource) {
      var item := ImmunityItem(resource, ShadowCopy, false, None, None);
      ShadowsAreDeclared(declared, item);
      assert item in claims.exceptions;
    }
    if resource != "" && OneLine(resource) && RecentlyRedacted(request.wipes, resource, now) {
      var at := Recorded(request.wipes, Label(resource, RedactInPlace)).value.updatedAt;
      var item := ImmunityOf(resource, RedactInPlace, at, now);
      ItemsAreWipes(request.wipes, now, item);
      assert item in claims.exceptions;
    }
  }

  // ----- What a cascade run leaves to claim -----

  /** The handler has recorded its first `n` results, one after the other. */
  function RecordFirst(wipes: seq<Wipe>, results: seq<Wipe>, n: nat): seq<Wipe>
    requires n <= |results|
    decreases n
  {
    if n == 0 then wipes else Upsert(RecordFirst(wipes, results, n - 1), results[n - 1])
  }

  function RecordAll(wipes: seq<Wipe>, results: seq<Wipe>): seq<Wipe> {
    RecordFirst(wipes, results, |results|)
  }

  /** The last of the first `n` results for a destination. */
  function LastFor(results: seq<Wipe>, destination: string, n: nat): Option<Wipe>
    requires n <= |results|
    decreases n
  {
    if n == 0 then None
    else if results[n - 1].destination == destination then Some(results[n - 1])
    else LastFor(results, destination, n - 1)
  }

  lemma {:induction false} LastForIsThere(results: seq<Wipe>, destination: string, n: nat)
    requires n <= |results|
    ensures LastFor(results, destination, n).Some? <==> exists k :: 0 <= k < n && results[k].destination == destination
    ensures LastFor(results, destination, n).Some? ==> LastFor(results, destination, n).value in results
    decreases n
  {
    if n > 0 {
      LastForIsThere(results, destination, n - 1);
    }
  }

  /** Of a run's results for one destination the last one stands; other records stay; no destination repeats. */
  lemma {:induction false} RecordFirstRecords(wipes: seq<Wipe>, results: seq<Wipe>, n: nat, destination: string)
    requires n <= |results|
    ensures var last := LastFor(results, destination, n);
      Recorded(RecordFirst(wipes, results, n), destination) == if last.Some? then last else Recorded(wipes, destination)
    ensures DistinctDestinations(wipes) ==> DistinctDestinations(RecordFirst(wipes, results, n))
    decreases n
  {
    if n > 0 {
      RecordFirstRecords(wipes, results, n - 1, destination);
      UpsertRecords(RecordFirst(wipes, results, n - 1), results[n - 1], destination);
    }
  }

  lemma RecordAllRecords(wipes: seq<Wipe>, results: seq<Wipe>, destination: string)
    ensures !HasDestination(results, destination) ==>
      Recorded(RecordAll(wipes, results), destination) == Recorded(wipes, destination)
    ensures HasDestination(results, destination) ==>
      && Recorded(RecordAll(wipes, results), destination).Some?
      && Recorded(RecordAll(wipes, results), destination).value in results
    ensures DistinctDestinations(wipes) ==> DistinctDestinations(RecordAll(wipes, results))
  {
    RecordFirstRecords(wipes, results, |results|, destination);
    LastForIsThere(results, destination, |results|);
    RecordedIsThere(results, destination);
  }

  lemma {:induction false} LineageCountsSuccesses(wipes: seq<Wipe>)
    ensures |LineageOf(wipes)| == SucceededCount(wipes) <= |wipes|
    ensures SucceededCount(wipes) == |wipes| <==> forall i :: 0 <= i < |wipes| ==> wipes[i].status.Succeeded?
  {
    if wipes != [] {
      LineageCountsSuccesses(wipes[..|wipes| - 1]);
    }
  }

  /** Every earlier wipe that did not succeed is attempted again by the run. */
  ghost predicate CoversFailures(wipes: seq<Wipe>, results: seq<Wipe>) {
    forall i :: 0 <= i < |wipes| && !wipes[i].status.Succeeded? ==> HasDestination(results, wipes[i].destination)
  }

  /**
   * After a run in which everything succeeded (also an empty one, as on the shortcut), the claims
   * give destinationsChecked = destinationsSucceeded exactly when the run's labels covered every
   * earlier failure; the lineage summary lists exactly the successes either way.
   */
  lemma AllCheckedSucceededExactlyWhen(wipes: seq<Wipe>, results: seq<Wipe>, key: KeyState, request: DeletionRequest,
                                       user: string, tenant: string, declared: seq<Entry>, now: int)
    requires Gone(key) && Completed(request.status)
    requires DistinctDestinations(wipes) && (forall i :: 0 <= i < |results| ==> results[i].status.Succeeded?)
    requires request.wipes == RecordAll(wipes, results)
    ensures var r := ClaimsOf(key, Some(request), user, tenant, Some(declared), now);
      && r.Certified? && r.claims.succeeded == |r.claims.lineage| <= r.claims.checked
      && (r.claims.checked == r.claims.succeeded <==> CoversFailures(wipes, results))
  {
    var after := RecordAll(wipes, results);
    LineageCountsSuccesses(after);
    RecordAllRecords(wipes, results, "");
    if CoversFailures(wipes, results) {
      forall i | 0 <= i < |after| ensures after[i].status.Succeeded? {
        CoveredSucceeds(wipes, results, i);
      }
    } else {
      var i :| 0 <= i < |wipes| && !wipes[i].status.Succeeded? && !HasDestination(results, wipes[i].destination);
      UncoveredRemains(wipes, results, i);
    }
  }

  lemma CoveredSucceeds(wipes: seq<Wipe>, results: seq<Wipe>, i: nat)
    requires DistinctDestinations(wipes) && CoversFailures(wipes, results)
    requires forall k :: 0 <= k < |results| ==> results[k].status.Succeeded?
    requires i < |RecordAll(wipes, results)|
    ensures RecordAll(wipes, results)[i].status.Succeeded?
  {
    var after := RecordAll(wipes, results);
    var d := after[i].destination;
    RecordAllRecords(wipes, results, d);
    DistinctMeansRecorded(after, i);
    if !HasDestination(results, d) {
      RecordedIsThere(wipes, d);
      assert after[i] in wipes;
    }
  }

  lemma UncoveredRemains(wipes: seq<Wipe>, results: seq<Wipe>, i: nat)
    requires DistinctDestinations(wipes) && i < |wipes| && !wipes[i].status.Succeeded?
    requires !HasDestination(results, wipes[i].destination)
    ensures exists k :: 0 <= k < |RecordAll(wipes, results)| && !RecordAll(wipes, results)[k].status.Succeeded?
  {
    var after, d := RecordAll(wipes, results), wipes[i].destination;
    RecordAllRecords(wipes, results, d);
    DistinctMeansRecorded(wipes, i);
    RecordedIsThere(after, d);
    assert wipes[i] in after;
  }

  // ----- The labels of one run -----

  function Labels(resources: seq<string>, strategy: Strategy): seq<string> {
    seq(|resources|, i requires 0 <= i < |resources| => Label(resources[i], strategy))
  }

  ghost predicate Disjoint(a: seq<string>, b: seq<string>) {
    forall i, j :: 0 <= i < |a| && 0 <= j < |b| ==> a[i] != b[j]
  }

  lemma DistinctConcat(a: seq<string>, b: seq<string>)
    ensures Distinct(a + b) <==> Distinct(a) && Distinct(b) && Disjoint(a, b)
  {
    var all := a + b;
    if Distinct(all) {
      forall i, j | 0 <= i < j < |b| ensures b[i] != b[j] { assert all[|a| + i] != all[|a| + j]; }
      forall i, j | 0 <= i < |a| && 0 <= j < |b| ensures a[i] != b[j] { assert all[i] != all[|a| + j]; }
      forall i, j | 0 <= i < j < |a| ensures a[i] != a[j] { assert all[i] != all[j]; }
    }
  }

  lemma LabelsDistinct(resources: seq<string>, strategy: Strategy)
    ensures Distinct(Labels(resources, strategy)) <==> Distinct(resources)
  {
    var labels := Labels(resources, strategy);
    forall i, j | 0 <= i < |labels| && 0 <= j < |labels|
      ensures labels[i] == labels[j] <==> resources[i] == resources[j]
    {
      LabelsDiffer(resources[i], strategy, resources[j], strategy);
    }
    if Distinct(labels) {
      forall i, j | 0 <= i < j < |resources| ensures resources[i] != resources[j] { assert labels[i] != labels[j]; }
    }
  }

  /** The destinations one run records never collide, though a resource may have both strategies. */
  lemma RunLabelsNeverCollide(connectors: seq<string>, redactions: seq<string>, copies: seq<string>)
    requires forall i :: 0 <= i < |connectors| ==> HasConnector(connectors[i])
    ensures Distinct(connectors + Labels(redactions, RedactInPlace) + Labels(copies, EncryptedCopy))
      <==> Distinct(connectors) && Distinct(redactions) && Distinct(copies)
  {
    var a, b, c := connectors, Labels(redactions, RedactInPlace), Labels(copies, EncryptedCopy);
    LabelsDistinct(redactions, RedactInPlace);
    LabelsDistinct(copies, EncryptedCopy);
    DistinctConcat(a, b);
    DistinctConcat(a + b, c);
    forall i, j | 0 <= i < |b| && 0 <= j < |c| ensures b[i] != c[j] {
      LabelsDiffer(redactions[i], RedactInPlace, copies[j], EncryptedCopy);
    }
    assert Disjoint(a, b) && Disjoint(a, c);
    assert Disjoint(a + b, c);
  }
}
