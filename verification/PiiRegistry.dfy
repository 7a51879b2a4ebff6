/** The in-memory registry: its layers, its lookups, and its writes through the declaration store. */
module PiiRegistry {
  import opened Text
  import opened Filters
  import opened PiiEntries
  import D = Declarations

  /** An insertion-ordered map from keys to entries. */
  type Table = seq<(string, Entry)>

  function Under(key: string): ((string, Entry)) -> bool {
    (row: (string, Entry)) => row.0 == key
  }

  /** The place of a key; the length when there is none. */
  function KeyIndex(t: Table, key: string): (r: nat)
    ensures r <= |t| && (r < |t| ==> t[r].0 == key)
    ensures forall k :: 0 <= k < r ==> t[k].0 != key
  {
    FirstFrom(t, Under(key), 0)
  }

  function Get(t: Table, key: string): Option<Entry> {
    var i := KeyIndex(t, key);
    if i < |t| then Some(t[i].1) else None
  }

  /** `Map.set`: an existing key keeps its place. */
  function Set(t: Table, key: string, e: Entry): Table {
    var i := KeyIndex(t, key);
    if i < |t| then t[i := (key, e)] else t + [(key, e)]
  }

  function RemoveAt(t: Table, i: nat): Table
    requires i < |t|
  {
    seq(|t| - 1, k requires 0 <= k < |t| - 1 => if k < i then t[k] else t[k + 1])
  }

  /** `Map.delete`. */
  function Without(t: Table, key: string): Table {
    var i := KeyIndex(t, key);
    if i < |t| then RemoveAt(t, i) else t
  }

  const GLOBAL_SCOPE: string := "*"

  function Scope(tenant: Option<string>): string {
    if tenant.Some? then tenant.value else GLOBAL_SCOPE
  }

  function KeyOf(tenant: Option<string>, resource: string): string {
    Scope(tenant) + "::" + resource
  }

  function BuildFirst(entries: seq<Entry>, n: nat): Table
    requires n <= |entries|
    decreases n
  {
    if n == 0 then []
    else
      var e := entries[n - 1];
      Set(BuildFirst(entries, n - 1), KeyOf(e.tenant, e.resource), e)
  }

  function Build(entries: seq<Entry>): Table {
    BuildFirst(entries, |entries|)
  }

  function Lookup(t: Table, resource: string, tenant: string): Option<Entry> {
    var own := Get(t, KeyOf(Some(tenant), resource));
    if own.Some? then own else Get(t, KeyOf(None, resource))
  }

  predicate VisibleTo(e: Entry, tenant: string) {
    e.tenant.None? || e.tenant.value == tenant
  }

  /** What a listing asks for; an empty text and None ask for nothing. */
  datatype Selection = Selection(
    tenant: Option<string>, system: string, owner: string, scanEnabled: Option<bool>, actor: string)

  /** The five filters. */
  predicate Selected(e: Entry, q: Selection) {
    && (q.tenant.Some? ==> VisibleTo(e, q.tenant.value))
    && (q.system == "" || e.system == q.system)
    && (q.owner == "" || e.owner == q.owner)
    && (q.scanEnabled.None? || e.scanEnabled == q.scanEnabled.value)
    && (q.actor == "" || e.declaredBy == Some(q.actor) || e.lastModifiedBy == Some(q.actor))
  }

  /** A tenant's manually declared entries. */
  function ManualOf(tenant: string): Selection {
    Selection(Some(tenant), "", MANUAL_OWNER, None, "")
  }

  /** The first `n` rows' part of a listing. */
  function ListFirst(t: Table, q: Selection, n: nat): seq<Entry>
    requires n <= |t|
    decreases n
  {
    if n == 0 then []
    else
      var e := t[n - 1].1;
      ListFirst(t, q, n - 1) + if Selected(e, q) then [e] else []
  }

  function List(t: Table, q: Selection): seq<Entry> {
    ListFirst(t, q, |t|)
  }

  // ----- The layers -----

  predicate NotDbt(e: Entry) {
    e.owner != "dbt"
  }

  /** The connector seed, without the entries a dbt slice replaces. */
  function Seed(connectors: seq<Entry>, dbt: seq<Entry>): seq<Entry> {
    if dbt == [] then connectors else KeepFirst(connectors, NotDbt, |connectors|)
  }

  function Compose(connectors: seq<Entry>, dbt: seq<Entry>, manual: seq<Entry>): seq<Entry> {
    if dbt == [] && manual == [] then connectors
    else
      var platform := if dbt == [] then connectors else KeepFirst(connectors, NotDbt, |connectors|) + dbt;
      if manual == [] then platform else platform + manual
  }

  // ----- Lookups find what the layers say -----

  /** A tenant id that cannot be confused with another scope. */
  predicate Proper(tenant: string) {
    ColonFree(tenant) && tenant != GLOBAL_SCOPE
  }

  ghost predicate ProperOwner(e: Entry) {
    e.tenant.Some? ==> Proper(e.tenant.value)
  }

  lemma KeysTellScopesApart(a: Option<string>, r: string, b: Option<string>, r': string)
    requires (a.Some? ==> Proper(a.value)) && (b.Some? ==> Proper(b.value))
    ensures KeyOf(a, r) == KeyOf(b, r') <==> a == b && r == r'
  {
    if KeyOf(a, r) == KeyOf(b, r') {
      var s, s' := Scope(a), Scope(b);
      assert KeyOf(a, r) == s + ":" + (":" + r) && KeyOf(b, r') == s' + ":" + (":" + r');
      PrefixedInjective(':', s, ":" + r, s', ":" + r');
      assert (":" + r)[1..] == r && (":" + r')[1..] == r';
    }
  }

  /** The last of the first `n` entries declared for exactly this scope and resource. */
  function LastFor(entries: seq<Entry>, tenant: Option<string>, resource: string, n: nat): Option<Entry>
    requires n <= |entries|
    decreases n
  {
    if n == 0 then None
    else if entries[n - 1].tenant == tenant && entries[n - 1].resource == resource then Some(entries[n - 1])
    else LastFor(entries, tenant, resource, n - 1)
  }

  function In(entries: seq<Entry>, tenant: Option<string>, resource: string): Option<Entry> {
    LastFor(entries, tenant, resource, |entries|)
  }

  lemma SetGets(t: Table, key: string, e: Entry, other: string)
    ensures Get(Set(t, key, e), other) == if other == key then Some(e) else Get(t, other)
  {
    var after := Set(t, key, e);
    var i, j, k := KeyIndex(t, key), KeyIndex(t, other), KeyIndex(after, other);
    assert after[i].0 == key;
    if other != key && j < |t| { assert after[j] == t[j]; }
    if other != key && k < |after| { assert after[k] == t[k]; }
  }

  /** The built table answers with the last entry of the scope. */
  lemma {:induction false} BuildGets(entries: seq<Entry>, n: nat, tenant: Option<string>, resource: string)
    requires n <= |entries| && (tenant.Some? ==> Proper(tenant.value))
    requires forall i :: 0 <= i < |entries| ==> ProperOwner(entries[i])
    ensures Get(BuildFirst(entries, n), KeyOf(tenant, resource)) == LastFor(entries, tenant, resource, n)
    decreases n
  {
    if n > 0 {
      var e := entries[n - 1];
      BuildGets(entries, n - 1, tenant, resource);
      SetGets(BuildFirst(entries, n - 1), KeyOf(e.tenant, e.resource), e, KeyOf(tenant, resource));
      assert ProperOwner(e);
      KeysTellScopesApart(e.tenant, e.resource, tenant, resource);
    }
  }

  function OrElse(first: Option<Entry>, second: Option<Entry>): Option<Entry> {
    if first.Some? then first else second
  }

  lemma {:induction false} LastForConcat(a: seq<Entry>, b: seq<Entry>, tenant: Option<string>, resource: string, n: nat)
    requires n <= |b|
    ensures LastFor(a + b, tenant, resource, |a| + n)
      == OrElse(LastFor(b, tenant, resource, n), In(a, tenant, resource))
    decreases n
  {
    if n == 0 {
      LastForPrefix(a, b, tenant, resource, |a|);
    } else {
      LastForConcat(a, b, tenant, resource, n - 1);
    }
  }

  lemma {:induction false} LastForPrefix(a: seq<Entry>, b: seq<Entry>, tenant: Option<string>, resource: string, n: nat)
    requires n <= |a|
    ensures LastFor(a + b, tenant, resource, n) == LastFor(a, tenant, resource, n)
    decreases n
  {
    if n > 0 {
      LastForPrefix(a, b, tenant, resource, n - 1);
    }
  }

  lemma {:induction false} LastForScope(entries: seq<Entry>, tenant: Option<string>, resource: string, n: nat)
    requires n <= |entries| && forall i :: 0 <= i < |entries| ==> entries[i].tenant.Some? != tenant.Some?
    ensures LastFor(entries, tenant, resource, n).None?
    decreases n
  {
    if n > 0 {
      LastForScope(entries, tenant, resource, n - 1);
    }
  }

  ghost predicate Global(entries: seq<Entry>) {
    forall i :: 0 <= i < |entries| ==> entries[i].tenant.None?
  }

  ghost predicate TenantOwned(entries: seq<Entry>) {
    forall i :: 0 <= i < |entries| ==> entries[i].tenant.Some? && Proper(entries[i].tenant.value)
  }

  /** The last connector entry for a resource; with a dbt slice, the last whose owner is not dbt. */
  function LastSeed(connectors: seq<Entry>, hasDbt: bool, resource: string, n: nat): Option<Entry>
    requires n <= |connectors|
    decreases n
  {
    if n == 0 then None
    else
      var e := connectors[n - 1];
      if e.tenant.None? && e.resource == resource && (hasDbt ==> e.owner != "dbt") then Some(e)
      else LastSeed(connectors, hasDbt, resource, n - 1)
  }

  lemma {:induction false} LastForAppended(entries: seq<Entry>, e: Entry, tenant: Option<string>, resource: string)
    ensures In(entries + [e], tenant, resource)
      == if e.tenant == tenant && e.resource == resource then Some(e) else In(entries, tenant, resource)
  {
    LastForPrefix(entries, [e], tenant, resource, |entries|);
  }

  lemma {:induction false} KeptSeed(connectors: seq<Entry>, resource: string, n: nat)
    requires n <= |connectors|
    ensures In(KeepFirst(connectors, NotDbt, n), None, resource) == LastSeed(connectors, true, resource, n)
    decreases n
  {
    if n > 0 {
      KeptSeed(connectors, resource, n - 1);
      LastForAppended(KeepFirst(connectors, NotDbt, n - 1), connectors[n - 1], None, resource);
      assert KeepFirst(connectors, NotDbt, n - 1) + [] == KeepFirst(connectors, NotDbt, n - 1);
    }
  }

  lemma {:induction false} WholeSeed(connectors: seq<Entry>, resource: string, n: nat)
    requires n <= |connectors|
    ensures LastFor(connectors, None, resource, n) == LastSeed(connectors, false, resource, n)
    decreases n
  {
    if n > 0 {
      WholeSeed(connectors, resource, n - 1);
    }
  }

  /** Composing is laying the layers end to end. */
  lemma ComposeIsLayers(connectors: seq<Entry>, dbt: seq<Entry>, manual: seq<Entry>)
    ensures Compose(connectors, dbt, manual) == Seed(connectors, dbt) + dbt + manual
  {
  }

  lemma SeedIsLast(connectors: seq<Entry>, dbt: seq<Entry>, resource: string)
    ensures In(Seed(connectors, dbt), None, resource) == LastSeed(connectors, dbt != [], resource, |connectors|)
  {
    KeptSeed(connectors, resource, |connectors|);
    WholeSeed(connectors, resource, |connectors|);
  }

  lemma LayersDecide(connectors: seq<Entry>, dbt: seq<Entry>, manual: seq<Entry>, resource: string, tenant: string)
    requires Proper(tenant) && Global(connectors) && Global(dbt) && TenantOwned(manual)
    ensures Lookup(Build(Compose(connectors, dbt, manual)), resource, tenant)
      == OrElse(In(manual, Some(tenant), resource),
                OrElse(In(dbt, None, resource), In(Seed(connectors, dbt), None, resource)))
  {
    var seed := Seed(connectors, dbt);
    var all := seed + dbt + manual;
    forall i | 0 <= i < |seed| ensures seed[i].tenant.None? {
      if dbt != [] { KeptWereThere(connectors, NotDbt, |connectors|, i); }
    }
    ComposeIsLayers(connectors, dbt, manual);
    assert forall i :: 0 <= i < |all| ==> ProperOwner(all[i]);
    BuildGets(all, |all|, Some(tenant), resource);
    BuildGets(all, |all|, None, resource);
    LayersGive(seed, dbt, manual, Some(tenant), resource);
    LayersGive(seed, dbt, manual, None, resource);
    LastForScope(seed, Some(tenant), resource, |seed|);
    LastForScope(dbt, Some(tenant), resource, |dbt|);
    LastForScope(manual, None, resource, |manual|);
  }

  /**
   * Looking a resource up for a tenant finds the tenant's own declaration, else the dbt slice's entry,
   * else the last connector entry for it, which with a dbt slice must not be owned by dbt.
   */
  lemma {:induction false} LookupIsLayered(connectors: seq<Entry>, dbt: seq<Entry>, manual: seq<Entry>,
                                           resource: string, tenant: string)
    requires Proper(tenant) && Global(connectors) && Global(dbt) && TenantOwned(manual)
    ensures Lookup(Build(Compose(connectors, dbt, manual)), resource, tenant)
      == OrElse(In(manual, Some(tenant), resource),
                OrElse(In(dbt, None, resource), LastSeed(connectors, dbt != [], resource, |connectors|)))
  {
    LayersDecide(connectors, dbt, manual, resource, tenant);
    SeedIsLast(connectors, dbt, resource);
  }

  lemma LayersGive(seed: seq<Entry>, dbt: seq<Entry>, manual: seq<Entry>, tenant: Option<string>, resource: string)
    ensures In(seed + dbt + manual, tenant, resource)
      == OrElse(In(manual, tenant, resource), OrElse(In(dbt, tenant, resource), In(seed, tenant, resource)))
  {
    LastForConcat(seed + dbt, manual, tenant, resource, |manual|);
    LastForConcat(seed, dbt, tenant, resource, |dbt|);
  }

  // ----- Writes -----

  datatype Result = Written(entry: Entry) | Removed | Absent | ImmutableOwner | MissingTenant | StoreFailed

  function Marked(t: Table, key: string, stored: Instant): Table
    requires Get(t, key).Some?
  {
    Set(t, key, Get(t, key).value.(lastSyncedAt := Some(stored)))
  }

  class PiiRegistryService {
    var entries: Table
    /** None without durable declarations. */
    const store: D.DeclarationRepository?

    constructor (initial: seq<Entry>, store: D.DeclarationRepository?)
      ensures entries == Build(initial) && this.store == store
    {
      var table: Table := [];
      for i := 0 to |initial|
        invariant table == BuildFirst(initial, i)
      {
        table := Set(table, KeyOf(initial[i].tenant, initial[i].resource), initial[i]);
      }
      entries, this.store := table, store;
    }

    method GetEntry(resource: string, tenant: Option<string>) returns (r: Option<Entry>)
      ensures tenant.Some? ==> r == Lookup(entries, resource, tenant.value)
      ensures tenant.None? && Get(entries, KeyOf(None, resource)).Some? ==> r == Get(entries, KeyOf(None, resource))
      ensures tenant.None? && Get(entries, KeyOf(None, resource)).None? ==>
        if r.Some? then r.value.resource == resource && (exists i :: 0 <= i < |entries| && entries[i].1 == r.value)
        else forall i :: 0 <= i < |entries| ==> entries[i].1.resource != resource
    {
      if tenant.Some? {
        r := Get(entries, KeyOf(tenant, resource));
        if r.None? { r := Get(entries, KeyOf(None, resource)); }
        return;
      }
      r := Get(entries, KeyOf(None, resource));
      if r.None? {
        var i := 0;
        while i < |entries| && entries[i].1.resource != resource
          invariant 0 <= i <= |entries|
          invariant forall k :: 0 <= k < i ==> entries[k].1.resource != resource
        {
          i := i + 1;
        }
        if i < |entries| { r := Some(entries[i].1); }
      }
    }

    method ListEntries(q: Selection) returns (r: seq<Entry>)
      ensures r == List(entries, q)
    {
      r := [];
      for i := 0 to |entries|
        invariant r == ListFirst(entries, q, i)
      {
        if Selected(entries[i].1, q) {
          r := r + [entries[i].1];
        }
      }
    }

    /** The stored declarations. */
    ghost function Durable(): D.Docs
      reads store
    {
      if store == null then map[] else store.docs
    }

    /** Persists first, so that a failed write leaves the hot path behind, never ahead. */
    method UpsertEntry(e: Entry) returns (r: Result)
      modifies this`entries, store
      ensures e.owner != MANUAL_OWNER ==> r == ImmutableOwner
      ensures e.owner == MANUAL_OWNER && !Given(e.tenant) ==> r == MissingTenant
      ensures r != Written(e) ==> entries == old(entries) && Durable() == old(Durable())
      ensures entries == Perform(old(entries), Upsert(e))
      ensures e.owner == MANUAL_OWNER && Given(e.tenant) ==>
        && r == Written(e)
        && (store != null ==>
              store.Stored(e.tenant.value, e.resource)
                == Some(D.Merged(old(store.Stored(e.tenant.value, e.resource)), e)))
    {
      if e.owner != MANUAL_OWNER { return ImmutableOwner; }
      if e.tenant.None? || e.tenant.value == "" { return MissingTenant; }
      if store != null {
        var ok := store.Upsert(e);
      }
      entries := Set(entries, KeyOf(e.tenant, e.resource), e);
      r := Written(e);
    }

    method RemoveEntry(resource: string, tenant: string) returns (r: Result)
      modifies this`entries, store
      ensures var key := KeyOf(Some(tenant), resource);
        var existing := Get(old(entries), key);
        && (existing.None? ==> r == Absent)
        && (existing.Some? && existing.value.owner != MANUAL_OWNER ==> r == ImmutableOwner)
        && (existing.Some? && existing.value.owner == MANUAL_OWNER ==>
              r == Removed && (store != null ==> store.Stored(tenant, resource).None?))
      ensures entries == Perform(old(entries), Remove(resource, tenant))
      ensures r != Removed ==> entries == old(entries) && Durable() == old(Durable())
    {
      var key := KeyOf(Some(tenant), resource);
      var existing := Get(entries, key);
      if existing.None? { return Absent; }
      if existing.value.owner != MANUAL_OWNER { return ImmutableOwner; }
      if store != null {
        store.Delete(tenant, resource);
      }
      entries := Without(entries, key);
      r := Removed;
    }

    /** Only a manual entry can be marked. */
    predicate Markable(resource: string, tenant: string)
      reads this
    {
      var existing := Get(entries, KeyOf(Some(tenant), resource));
      existing.Some? && existing.value.owner == MANUAL_OWNER
    }

    /**
     * Memory takes over what the store says has landed: afterwards the two watermarks are the same.
     * Without a store the candidate is what has landed.
     */
    method MarkResourceSynced(resource: string, tenant: string, candidate: Instant) returns (r: Result)
      modifies this`entries, store
      ensures !r.Written? ==> entries == old(entries) && Durable() == old(Durable())
      ensures r == Absent <==> Get(old(entries), KeyOf(Some(tenant), resource)).None?
      ensures r == ImmutableOwner <==> r != Absent && !old(Markable(resource, tenant))
      ensures old(Markable(resource, tenant)) && store != null ==>
        && (r.Written? <==> old(store.Stored(tenant, resource)).Some?) && (!r.Written? ==> r == StoreFailed)
        && (r.Written? ==>
              var stored := D.Advanced(old(store.Stored(tenant, resource)).value.lastSyncedAt, candidate);
              && entries == Perform(old(entries), Mark(resource, tenant, stored))
              && store.Stored(tenant, resource).Some?
              && r.entry.lastSyncedAt == store.Stored(tenant, resource).value.lastSyncedAt == Some(stored)
              && Get(entries, KeyOf(Some(tenant), resource)) == Some(r.entry))
      ensures r.Written? ==>
        && Get(old(entries), KeyOf(Some(tenant), resource)).Some?
        && r.entry == Get(old(entries), KeyOf(Some(tenant), resource)).value.(lastSyncedAt := r.entry.lastSyncedAt)
      ensures old(Markable(resource, tenant)) && store == null ==>
        && entries == Perform(old(entries), Mark(resource, tenant, candidate))
        && r.Written? && r.entry.lastSyncedAt == Some(candidate)
        && Get(entries, KeyOf(Some(tenant), resource)) == Some(r.entry)
    {
      var key := KeyOf(Some(tenant), resource);
      var existing := Get(entries, key);
      if existing.None? { return Absent; }
      if existing.value.owner != MANUAL_OWNER { return ImmutableOwner; }
      var stored := Some(candidate);
      if store != null {
        stored := store.AdvanceSyncWatermark(tenant, resource, candidate);
        if stored.None? { return StoreFailed; }
      }
      var updated := existing.value.(lastSyncedAt := stored);
      SetGets(entries, key, updated, key);
      entries := Set(entries, key, updated);
      r := Written(updated);
    }
  }

  /**
   * Declaring again through the API leaves memory without a watermark; memory and store then agree
   * exactly when the write also clears the stored one, or there was none.
   */
  lemma WatermarksAgreeAfterUpsertExactlyWhen(before: Option<Entry>, e: Entry)
    requires e.lastSyncedAt.None?
    ensures D.Merged(before, e).lastSyncedAt == e.lastSyncedAt
      <==> !Given(e.updatedAtColumn) || before.None? || before.value.lastSyncedAt.None?
  {
  }

  // ----- One tenant's writes and another tenant's reads -----

  /** Every entry sits under its own key, once, and belongs to a proper scope. */
  ghost predicate TableOk(t: Table) {
    && (forall i :: 0 <= i < |t| ==> t[i].0 == KeyOf(t[i].1.tenant, t[i].1.resource) && ProperOwner(t[i].1))
    && (forall i, j :: 0 <= i < j < |t| ==> t[i].0 != t[j].0)
  }

  datatype Op =
    | Upsert(e: Entry)
    | Remove(resource: string, writer: string)
    | Mark(resource: string, writer: string, stored: Instant)

  function Perform(t: Table, op: Op): Table {
    match op
    case Upsert(e) => if e.owner == MANUAL_OWNER && Given(e.tenant) then Set(t, KeyOf(e.tenant, e.resource), e) else t
    case Remove(resource, tenant) =>
      var key := KeyOf(Some(tenant), resource);
      if Get(t, key).Some? && Get(t, key).value.owner == MANUAL_OWNER then Without(t, key) else t
    case Mark(resource, tenant, stored) =>
      var key := KeyOf(Some(tenant), resource);
      if Get(t, key).Some? && Get(t, key).value.owner == MANUAL_OWNER then Marked(t, key, stored) else t
  }

  /** Who makes the write. */
  function Writer(op: Op): string {
    match op
    case Upsert(e) => if e.tenant.Some? then e.tenant.value else ""
    case Remove(_, tenant) => tenant
    case Mark(_, tenant, _) => tenant
  }

  function PerformFirst(t: Table, ops: seq<Op>, n: nat): Table
    requires n <= |ops|
    decreases n
  {
    if n == 0 then t else Perform(PerformFirst(t, ops, n - 1), ops[n - 1])
  }

  lemma SetOk(t: Table, e: Entry)
    requires TableOk(t) && ProperOwner(e)
    ensures TableOk(Set(t, KeyOf(e.tenant, e.resource), e))
  {
  }

  lemma WithoutOk(t: Table, key: string)
    requires TableOk(t)
    ensures TableOk(Without(t, key))
  {
  }

  lemma PerformOk(t: Table, op: Op)
    requires TableOk(t) && Proper(Writer(op))
    ensures TableOk(Perform(t, op))
  {
    match op {
      case Upsert(e) => if Given(e.tenant) { SetOk(t, e); }
      case Remove(resource, tenant) => WithoutOk(t, KeyOf(Some(tenant), resource));
      case Mark(resource, tenant, stored) =>
        var key := KeyOf(Some(tenant), resource);
        if Get(t, key).Some? {
          SetOk(t, Get(t, key).value.(lastSyncedAt := Some(stored)));
        }
    }
  }

  lemma {:induction false} BuildOk(entries: seq<Entry>, n: nat)
    requires n <= |entries| && forall i :: 0 <= i < |entries| ==> ProperOwner(entries[i])
    ensures TableOk(BuildFirst(entries, n))
    decreases n
  {
    if n > 0 {
      BuildOk(entries, n - 1);
      SetOk(BuildFirst(entries, n - 1), entries[n - 1]);
    }
  }

  lemma {:induction false} PerformFirstOk(t: Table, ops: seq<Op>, n: nat)
    requires n <= |ops| && TableOk(t) && forall i :: 0 <= i < |ops| ==> Proper(Writer(ops[i]))
    ensures TableOk(PerformFirst(t, ops, n))
    decreases n
  {
    if n > 0 {
      PerformFirstOk(t, ops, n - 1);
      PerformOk(PerformFirst(t, ops, n - 1), ops[n - 1]);
    }
  }

  /** Nothing a tenant can look up, or list, in any reachable registry belongs to another tenant. */
  lemma {:induction false} NoTenantSeesAnother(initial: seq<Entry>, ops: seq<Op>, resource: string, tenant: string,
                                               q: Selection)
    requires Proper(tenant) && q.tenant == Some(tenant) && (forall i :: 0 <= i < |initial| ==> ProperOwner(initial[i]))
    requires forall i :: 0 <= i < |ops| ==> Proper(Writer(ops[i]))
    ensures var t := PerformFirst(Build(initial), ops, |ops|);
      && (Lookup(t, resource, tenant).Some? ==>
            var e := Lookup(t, resource, tenant).value; VisibleTo(e, tenant) && e.resource == resource)
      && (forall e :: e in List(t, q) ==> VisibleTo(e, tenant))
  {
    BuildOk(initial, |initial|);
    PerformFirstOk(Build(initial), ops, |ops|);
    var t := PerformFirst(Build(initial), ops, |ops|);
    LookupVisible(t, resource, tenant);
    ListVisible(t, tenant, q, |t|);
  }

  lemma LookupVisible(t: Table, resource: string, tenant: string)
    requires TableOk(t) && Proper(tenant)
    ensures var e := Lookup(t, resource, tenant);
      e.Some? ==> VisibleTo(e.value, tenant) && e.value.resource == resource
  {
    var own := KeyIndex(t, KeyOf(Some(tenant), resource));
    var common := KeyIndex(t, KeyOf(None, resource));
    if own < |t| {
      KeysTellScopesApart(t[own].1.tenant, t[own].1.resource, Some(tenant), resource);
    } else if common < |t| {
      KeysTellScopesApart(t[common].1.tenant, t[common].1.resource, None, resource);
    }
  }

  lemma {:induction false} ListVisible(t: Table, tenant: string, q: Selection, n: nat)
    requires n <= |t| && q.tenant == Some(tenant)
    ensures forall e :: e in ListFirst(t, q, n) ==> VisibleTo(e, tenant)
    decreases n
  {
    if n > 0 {
      ListVisible(t, tenant, q, n - 1);
    }
  }

  lemma WithoutGets(t: Table, key: string, other: string)
    requires other != key
    ensures Get(Without(t, key), other) == Get(t, other)
  {
    var i := KeyIndex(t, key);
    if i < |t| {
      FirstAfterRemoval(t, i, other, 0);
      var k := KeyIndex(t, other);
      if k < |t| {
        assert RemoveAt(t, i)[if k <= i then k else k - 1] == t[k];
      }
    }
  }

  lemma {:induction false} FirstAfterRemoval(t: Table, i: nat, other: string, j: nat)
    requires i < |t| && t[i].0 != other && j <= |t|
    ensures FirstFrom(RemoveAt(t, i), Under(other), if j <= i then j else j - 1)
      == var k := FirstFrom(t, Under(other), j); if k <= i then k else k - 1
    decreases |t| - j
  {
    if j < |t| && t[j].0 != other {
      FirstAfterRemoval(t, i, other, j + 1);
    }
  }

  /** Replacing one row by another, where the listing shows neither. */
  lemma {:induction false} ListIgnoresReplaced(t: Table, i: nat, x: (string, Entry), q: Selection, n: nat)
    requires i < |t| && n <= |t| && !Selected(t[i].1, q) && !Selected(x.1, q)
    ensures ListFirst(t[i := x], q, n) == ListFirst(t, q, n)
    decreases n
  {
    if n > 0 {
      ListIgnoresReplaced(t, i, x, q, n - 1);
    }
  }

  lemma {:induction false} ListIgnoresAppended(t: Table, x: (string, Entry), q: Selection, n: nat)
    requires n <= |t|
    ensures ListFirst(t + [x], q, n) == ListFirst(t, q, n)
    decreases n
  {
    if n > 0 {
      ListIgnoresAppended(t, x, q, n - 1);
    }
  }

  lemma {:induction false} ListIgnoresRemoved(t: Table, i: nat, q: Selection, n: nat)
    requires i < |t| && n <= |t| && !Selected(t[i].1, q)
    ensures ListFirst(t, q, n)
      == ListFirst(RemoveAt(t, i), q, if n <= i then n else n - 1)
    decreases n
  {
    if n > 0 {
      ListIgnoresRemoved(t, i, q, n - 1);
      if n - 1 > i {
        assert RemoveAt(t, i)[n - 2] == t[n - 1];
      }
    }
  }

  lemma SetInvisible(t: Table, key: string, e: Entry, tenant: string, q: Selection)
    requires q.tenant == Some(tenant) && !VisibleTo(e, tenant)
    requires forall i :: 0 <= i < |t| && t[i].0 == key ==> !VisibleTo(t[i].1, tenant)
    ensures List(Set(t, key, e), q) == List(t, q)
  {
    var i := KeyIndex(t, key);
    if i < |t| {
      ListIgnoresReplaced(t, i, (key, e), q, |t|);
    } else {
      ListIgnoresAppended(t, (key, e), q, |t|);
    }
  }

  lemma DropInvisible(t: Table, key: string, tenant: string, q: Selection)
    requires q.tenant == Some(tenant)
    requires forall i :: 0 <= i < |t| && t[i].0 == key ==> !VisibleTo(t[i].1, tenant)
    ensures List(Without(t, key), q) == List(t, q)
  {
    var i := KeyIndex(t, key);
    if i < |t| {
      ListIgnoresRemoved(t, i, q, |t|);
      assert |RemoveAt(t, i)| == |t| - 1;
    }
  }

  lemma OwnRows(t: Table, resource: string, writer: string)
    requires TableOk(t) && Proper(writer)
    ensures forall i :: 0 <= i < |t| && t[i].0 == KeyOf(Some(writer), resource) ==> t[i].1.tenant == Some(writer)
  {
    forall i | 0 <= i < |t| && t[i].0 == KeyOf(Some(writer), resource) ensures t[i].1.tenant == Some(writer) {
      KeysTellScopesApart(t[i].1.tenant, t[i].1.resource, Some(writer), resource);
    }
  }

  lemma WriteInvisible(t: Table, r: string, writer: string, e: Entry, resource: string, tenant: string, q: Selection)
    requires TableOk(t) && Proper(writer) && Proper(tenant) && writer != tenant && e.tenant == Some(writer)
    requires q.tenant == Some(tenant)
    ensures var after := Set(t, KeyOf(Some(writer), r), e);
      Lookup(after, resource, tenant) == Lookup(t, resource, tenant) && List(after, q) == List(t, q)
  {
    OwnRows(t, r, writer);
    WriteElsewhere(t, r, writer, e, resource, tenant);
    SetInvisible(t, KeyOf(Some(writer), r), e, tenant, q);
  }

  lemma RemoveInvisible(t: Table, r: string, writer: string, resource: string, tenant: string, q: Selection)
    requires q.tenant == Some(tenant)
    requires TableOk(t) && Proper(writer) && Proper(tenant) && writer != tenant
    ensures var after := Without(t, KeyOf(Some(writer), r));
      Lookup(after, resource, tenant) == Lookup(t, resource, tenant) && List(after, q) == List(t, q)
  {
    OwnRows(t, r, writer);
    RemoveElsewhere(t, r, writer, resource, tenant);
    DropInvisible(t, KeyOf(Some(writer), r), tenant, q);
  }

  /** No write by one tenant changes what another tenant looks up or lists. */
  lemma TenantsDoNotInterfere(t: Table, op: Op, resource: string, tenant: string, q: Selection)
    requires q.tenant == Some(tenant)
    requires TableOk(t) && Proper(Writer(op)) && Proper(tenant) && Writer(op) != tenant
    ensures Lookup(Perform(t, op), resource, tenant) == Lookup(t, resource, tenant)
    ensures List(Perform(t, op), q) == List(t, q)
  {
    var writer := Writer(op);
    match op {
      case Upsert(e) =>
        if Given(e.tenant) {
          WriteInvisible(t, e.resource, writer, e, resource, tenant, q);
        }
      case Remove(r, _) =>
        RemoveInvisible(t, r, writer, resource, tenant, q);
      case Mark(r, _, stored) =>
        var key := KeyOf(Some(writer), r);
        if Get(t, key).Some? {
          OwnRows(t, r, writer);
          WriteInvisible(t, r, writer, Get(t, key).value.(lastSyncedAt := Some(stored)), resource, tenant, q);
        }
    }
  }

  lemma WriteElsewhere(t: Table, r: string, writer: string, e: Entry, resource: string, tenant: string)
    requires Proper(writer) && Proper(tenant) && writer != tenant
    ensures Lookup(Set(t, KeyOf(Some(writer), r), e), resource, tenant) == Lookup(t, resource, tenant)
  {
    var key := KeyOf(Some(writer), r);
    KeysTellScopesApart(Some(writer), r, Some(tenant), resource);
    KeysTellScopesApart(Some(writer), r, None, resource);
    SetGets(t, key, e, KeyOf(Some(tenant), resource));
    SetGets(t, key, e, KeyOf(None, resource));
  }

  lemma RemoveElsewhere(t: Table, r: string, writer: string, resource: string, tenant: string)
    requires TableOk(t) && Proper(writer) && Proper(tenant) && writer != tenant
    ensures Lookup(Without(t, KeyOf(Some(writer), r)), resource, tenant) == Lookup(t, resource, tenant)
  {
    var key := KeyOf(Some(writer), r);
    KeysTellScopesApart(Some(writer), r, Some(tenant), resource);
    KeysTellScopesApart(Some(writer), r, None, resource);
    WithoutGets(t, key, KeyOf(Some(tenant), resource));
    WithoutGets(t, key, KeyOf(None, resource));
  }

  /** A tenant that calls itself `*` writes where every tenant reads. */
  lemma StarTenantIsSeenByAll(t: Table, e: Entry, tenant: string)
    requires e.owner == MANUAL_OWNER && e.tenant == Some("*") && Proper(tenant)
    requires Get(t, KeyOf(Some(tenant), e.resource)).None?
    ensures Lookup(Perform(t, Upsert(e)), e.resource, tenant) == Some(e) && !VisibleTo(e, tenant)
  {
    var key := KeyOf(Some("*"), e.resource);
    assert key == KeyOf(None, e.resource);
    KeysTellScopesApart(Some(tenant), e.resource, None, e.resource);
    SetGets(t, key, e, KeyOf(Some(tenant), e.resource));
    SetGets(t, key, e, key);
  }

  // ----- When scopes share a key -----

  /** The longer scope `s'` runs across the two colons that follow `s`, into its resource `r`. */
  predicate RunsAcross(s: string, r: string, s': string, r': string) {
    || (s' == s + ":" && r == ":" + r')
    || (|s'| >= |s| + 2 && s' == s + "::" + s'[|s| + 2..] && r == s'[|s| + 2..] + "::" + r')
  }

  /** The guard: the same scope and resource, or one scope that runs across the colons of the other. */
  predicate SharesKey(a: Option<string>, r: string, b: Option<string>, r': string) {
    || (Scope(a) == Scope(b) && r == r')
    || RunsAcross(Scope(a), r, Scope(b), r')
    || RunsAcross(Scope(b), r', Scope(a), r)
  }

  lemma JoinedLonger(s: string, r: string, s': string, r': string)
    requires |s| < |s'|
    ensures s + "::" + r == s' + "::" + r' <==> RunsAcross(s, r, s', r')
  {
    var x, y, d := s + "::" + r, s' + "::" + r', |s'| - |s|;
    if x == y {
      assert s' == y[..|s'|] == x[..|s'|];
      assert s == x[..|s|] == s'[..|s|];
      if d == 1 {
        assert s'[|s|] == x[|s|] == ':';
        assert s' == s + ":";
        assert r == x[|s| + 2..] == y[|s'| + 1..] == ":" + r';
      } else {
        assert s'[|s|..|s| + 2] == x[|s|..|s| + 2] == "::";
        assert s' == s + "::" + s'[|s| + 2..];
        assert r == x[|s| + 2..] == y[|s| + 2..] == s'[|s| + 2..] + "::" + r';
      }
    }
    if RunsAcross(s, r, s', r') {
      if d == 1 {
        assert s + "::" + (":" + r') == s + ":" + "::" + r';
      } else {
        var w := s'[|s| + 2..];
        assert s + "::" + (w + "::" + r') == s + "::" + w + "::" + r';
      }
    }
  }

  /** Exactly when two scopes' entries for two resources live under one key of the table. */
  lemma KeysCollideExactlyWhen(a: Option<string>, r: string, b: Option<string>, r': string)
    ensures KeyOf(a, r) == KeyOf(b, r') <==> SharesKey(a, r, b, r')
  {
    var s, s' := Scope(a), Scope(b);
    if |s| < |s'| {
      JoinedLonger(s, r, s', r');
      assert !RunsAcross(s', r', s, r) && s != s';
    } else if |s'| < |s| {
      JoinedLonger(s', r', s, r);
      assert !RunsAcross(s, r, s', r') && s != s';
    } else {
      assert KeyOf(a, r)[..|s|] == s && KeyOf(b, r')[..|s'|] == s';
      assert KeyOf(a, r)[|s| + 2..] == r && KeyOf(b, r')[|s'| + 2..] == r';
    }
  }

  /**
   * Exactly when a declaration changes what a tenant, any tenant, looks up, which then finds just that
   * declaration: it shares the tenant's own key, or the global key while the tenant has no own entry.
   */
  lemma {:induction false} WriteSeenExactlyWhen(t: Table, e: Entry, resource: string, tenant: string)
    requires e.owner == MANUAL_OWNER && Given(e.tenant) && Lookup(t, resource, tenant) != Some(e)
    ensures var seen := Lookup(Perform(t, Upsert(e)), resource, tenant);
      && (seen == Some(e) <==>
            || SharesKey(e.tenant, e.resource, Some(tenant), resource)
            || (SharesKey(e.tenant, e.resource, None, resource) && Get(t, KeyOf(Some(tenant), resource)).None?))
      && (seen != Some(e) ==> seen == Lookup(t, resource, tenant))
  {
    var key := KeyOf(e.tenant, e.resource);
    KeysCollideExactlyWhen(e.tenant, e.resource, Some(tenant), resource);
    KeysCollideExactlyWhen(e.tenant, e.resource, None, resource);
    SetGets(t, key, e, KeyOf(Some(tenant), resource));
    SetGets(t, key, e, KeyOf(None, resource));
  }

  // ----- The manual resources a cascade redacts -----

  /** Manual entries always carry their tenant. */
  ghost predicate ManualOwned(t: Table) {
    forall i :: 0 <= i < |t| && t[i].1.owner == MANUAL_OWNER ==> t[i].1.tenant.Some?
  }

  /** Every write keeps it so. */
  lemma ManualStaysOwned(t: Table, op: Op)
    requires ManualOwned(t)
    ensures ManualOwned(Perform(t, op))
  {
  }

  /** What a registry may start from: proper scopes, and a tenant with every manual entry. */
  ghost predicate Seeds(initial: seq<Entry>) {
    forall i :: 0 <= i < |initial| ==>
      ProperOwner(initial[i]) && (initial[i].owner == MANUAL_OWNER ==> initial[i].tenant.Some?)
  }

  lemma {:induction false} BuildOwned(entries: seq<Entry>, n: nat)
    requires n <= |entries| && Seeds(entries)
    ensures ManualOwned(BuildFirst(entries, n))
    decreases n
  {
    if n > 0 {
      BuildOwned(entries, n - 1);
    }
  }

  /** Every registry reached from such a start by tenants with proper ids is sound. */
  lemma {:induction false} ReachableOk(initial: seq<Entry>, ops: seq<Op>)
    requires Seeds(initial) && forall i :: 0 <= i < |ops| ==> Proper(Writer(ops[i]))
    ensures var t := PerformFirst(Build(initial), ops, |ops|); TableOk(t) && ManualOwned(t)
  {
    BuildOk(initial, |initial|);
    BuildOwned(initial, |initial|);
    PerformFirstOk(Build(initial), ops, |ops|);
    StaysOwnedFirst(Build(initial), ops, |ops|);
  }

  lemma {:induction false} StaysOwnedFirst(t: Table, ops: seq<Op>, n: nat)
    requires n <= |ops| && ManualOwned(t)
    ensures ManualOwned(PerformFirst(t, ops, n))
    decreases n
  {
    if n > 0 {
      StaysOwnedFirst(t, ops, n - 1);
      ManualStaysOwned(PerformFirst(t, ops, n - 1), ops[n - 1]);
    }
  }

  ghost predicate IsRow(t: Table, e: Entry, n: nat)
    requires n <= |t|
  {
    exists i :: 0 <= i < n && t[i].1 == e
  }

  lemma {:induction false} ListedAreRows(t: Table, q: Selection, n: nat, k: nat)
    requires n <= |t| && k < |ListFirst(t, q, n)|
    ensures var e := ListFirst(t, q, n)[k]; IsRow(t, e, n) && Selected(e, q)
    decreases n
  {
    if n > 0 {
      var before := ListFirst(t, q, n - 1);
      if k < |before| {
        ListedAreRows(t, q, n - 1, k);
        assert ListFirst(t, q, n)[k] == before[k];
      }
    }
  }

  /** A tenant's manual resources are listed once each, so one cascade never redacts a resource twice. */
  lemma {:induction false} ManualResourcesAreDistinct(t: Table, tenant: string, n: nat, k: nat, m: nat)
    requires n <= |t| && TableOk(t) && ManualOwned(t)
    requires k < m < |ListFirst(t, ManualOf(tenant), n)|
    ensures var list := ListFirst(t, ManualOf(tenant), n); list[k].resource != list[m].resource
    decreases n
  {
    var before, list := ListFirst(t, ManualOf(tenant), n - 1), ListFirst(t, ManualOf(tenant), n);
    if m < |before| {
      ManualResourcesAreDistinct(t, tenant, n - 1, k, m);
      assert list[k] == before[k] && list[m] == before[m];
    } else {
      assert Selected(t[n - 1].1, ManualOf(tenant)) && list == before + [t[n - 1].1];
      ListedAreRows(t, ManualOf(tenant), n - 1, k);
      var i :| 0 <= i < n - 1 && t[i].1 == before[k];
      ManualRowsDiffer(t, tenant, i, n - 1);
    }
  }

  lemma ManualRowsDiffer(t: Table, tenant: string, i: nat, j: nat)
    requires i < j < |t| && TableOk(t) && ManualOwned(t)
    requires Selected(t[i].1, ManualOf(tenant)) && Selected(t[j].1, ManualOf(tenant))
    ensures t[i].1.resource != t[j].1.resource
  {
    assert t[i].1.tenant == Some(tenant) == t[j].1.tenant;
    assert t[i].0 != t[j].0;
  }

  // ----- What the operations and listings do to the rows -----

  /** No operation changes what is stored under another key than its own. */
  lemma OpsTouchOneKey(t: Table, op: Op, other: string)
    requires match op
      case Upsert(e) => other != KeyOf(e.tenant, e.resource)
      case Remove(resource, tenant) => other != KeyOf(Some(tenant), resource)
      case Mark(resource, tenant, _) => other != KeyOf(Some(tenant), resource)
    ensures Get(Perform(t, op), other) == Get(t, other)
  {
    match op {
      case Upsert(e) => SetGets(t, KeyOf(e.tenant, e.resource), e, other);
      case Remove(resource, tenant) => WithoutGets(t, KeyOf(Some(tenant), resource), other);
      case Mark(resource, tenant, stored) =>
        var key := KeyOf(Some(tenant), resource);
        if Get(t, key).Some? {
          SetGets(t, key, Get(t, key).value.(lastSyncedAt := Some(stored)), other);
        }
    }
  }

  ghost predicate KeysDistinct(t: Table) {
    forall i, j :: 0 <= i < j < |t| ==> t[i].0 != t[j].0
  }

  lemma {:induction false} BuildDistinct(entries: seq<Entry>, n: nat)
    requires n <= |entries|
    ensures KeysDistinct(BuildFirst(entries, n))
    decreases n
  {
    if n > 0 {
      BuildDistinct(entries, n - 1);
      SetDistinct(BuildFirst(entries, n - 1), KeyOf(entries[n - 1].tenant, entries[n - 1].resource), entries[n - 1]);
    }
  }

  lemma SetDistinct(t: Table, key: string, e: Entry)
    requires KeysDistinct(t)
    ensures KeysDistinct(Set(t, key, e))
  {
  }

  lemma WithoutDistinct(t: Table, key: string)
    requires KeysDistinct(t)
    ensures KeysDistinct(Without(t, key))
  {
  }

  lemma PerformDistinct(t: Table, op: Op)
    requires KeysDistinct(t)
    ensures KeysDistinct(Perform(t, op))
  {
    match op {
      case Upsert(e) => SetDistinct(t, KeyOf(e.tenant, e.resource), e);
      case Remove(resource, tenant) => WithoutDistinct(t, KeyOf(Some(tenant), resource));
      case Mark(resource, tenant, stored) =>
        var key := KeyOf(Some(tenant), resource);
        if Get(t, key).Some? {
          SetDistinct(t, key, Get(t, key).value.(lastSyncedAt := Some(stored)));
        }
    }
  }

  lemma {:induction false} RunDistinct(t: Table, ops: seq<Op>, n: nat)
    requires n <= |ops| && KeysDistinct(t)
    ensures KeysDistinct(PerformFirst(t, ops, n))
    decreases n
  {
    if n > 0 {
      RunDistinct(t, ops, n - 1);
      PerformDistinct(PerformFirst(t, ops, n - 1), ops[n - 1]);
    }
  }

  /** In every reachable registry a tenant that removes its declaration finds the global entry, if any, from then on. */
  lemma {:induction false} RemovedIsGone(initial: seq<Entry>, ops: seq<Op>, resource: string, tenant: string)
    ensures var t := PerformFirst(Build(initial), ops, |ops|);
      var own := Get(t, KeyOf(Some(tenant), resource));
      own.Some? && own.value.owner == MANUAL_OWNER && tenant != "*" ==>
        var after := Perform(t, Remove(resource, tenant));
        && Get(after, KeyOf(Some(tenant), resource)).None?
        && Lookup(after, resource, tenant) == Get(t, KeyOf(None, resource))
  {
    BuildDistinct(initial, |initial|);
    RunDistinct(Build(initial), ops, |ops|);
    var t := PerformFirst(Build(initial), ops, |ops|);
    var key := KeyOf(Some(tenant), resource);
    if Get(t, key).Some? && tenant != "*" {
      var after := Without(t, key);
      assert Get(after, key).None? by {
        if KeyIndex(after, key) < |after| {
          assert after[KeyIndex(after, key)].0 == key;
        }
      }
      ScopesDiffer(tenant, resource);
      WithoutGets(t, key, KeyOf(None, resource));
    }
  }

  lemma ScopesDiffer(tenant: string, resource: string)
    requires tenant != "*"
    ensures KeyOf(Some(tenant), resource) != KeyOf(None, resource)
  {
    if |tenant| == 1 {
      assert KeyOf(Some(tenant), resource)[0] == tenant[0] && KeyOf(None, resource)[0] == '*';
      assert tenant == [tenant[0]];
    }
  }

  /** What a listing wants of a row: the tenant's or a global one, and each filter that is given. */
  function Wanted(q: Selection): ((string, Entry)) -> bool {
    (row: (string, Entry)) =>
      var e := row.1;
      && (q.tenant == None || e.tenant == None || e.tenant == q.tenant)
      && (q.system != "" ==> e.system == q.system)
      && (q.owner != "" ==> e.owner == q.owner)
      && (q.scanEnabled != None ==> q.scanEnabled == Some(e.scanEnabled))
      && (q.actor != "" ==> e.declaredBy == Some(q.actor) || e.lastModifiedBy == Some(q.actor))
  }

  /** A listing is the wanted rows' entries, each once and in the order of the registry. */
  lemma {:induction false} ListedExactlyWhen(t: Table, q: Selection, n: nat)
    requires n <= |t|
    ensures var kept := KeepFirst(t, Wanted(q), n);
      |ListFirst(t, q, n)| == |kept| && forall k :: 0 <= k < |kept| ==> ListFirst(t, q, n)[k] == kept[k].1
    decreases n
  {
    if n > 0 {
      ListedExactlyWhen(t, q, n - 1);
    }
  }
}
