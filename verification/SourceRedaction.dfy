/** Redacting or deleting one user in the manually declared resources that asked for it. */
module SourceRedaction {
  import opened Text
  import opened Filters
  import opened PiiEntries
  import opened PiiRegistry

  datatype RedactionResult = RedactionResult(resource: string, success: bool, rowsAffected: Option<nat>)

  /** What the statement on a resource's table gives: the rows affected, or an exception. */
  type Query = string -> Option<nat>

  function Opted(strategy: Strategy): Entry -> bool {
    (e: Entry) => HasStrategy(e, strategy)
  }

  /** The tenant's manual resources that opted into a strategy. */
  function Plan(t: Table, tenant: string, strategy: Strategy): seq<Entry> {
    var manual := List(t, ManualOf(tenant));
    KeepFirst(manual, Opted(strategy), |manual|)
  }

  /** One resource's outcome: refused without a safe scope, or whatever its statement gives. */
  function OutcomeOf(e: Entry, strategy: Strategy, query: Query): RedactionResult {
    var refused := e.system != "bigquery" || !Given(e.userIdColumn) || (strategy.RedactInPlace? && e.fields == []);
    var rows := if refused then None else query(e.resource);
    RedactionResult(e.resource, rows.Some?, rows)
  }

  /**
   * What one run says of a resource: it succeeded exactly if the resource is a BigQuery table with a user
   * column, and columns to redact if it is redacted, and its statement went through; then with its rows.
   */
  predicate Ran(r: RedactionResult, e: Entry, strategy: Strategy, query: Query) {
    && r.resource == e.resource
    && (r.success <==>
          && e.system == "bigquery" && e.userIdColumn.Some? && e.userIdColumn.value != ""
          && (strategy.RedactInPlace? ==> |e.fields| > 0) && query(e.resource).Some?)
    && r.rowsAffected == if r.success then query(e.resource) else None
  }

  class SourceRedactionService {
    const registry: PiiRegistryService

    constructor (registry: PiiRegistryService)
      ensures this.registry == registry
    {
      this.registry := registry;
    }

    /** `planRedaction`, and `planEncryptedCopyDeletion`. */
    method PlanFor(tenant: string, strategy: Strategy) returns (plan: seq<Entry>)
      ensures plan == Plan(registry.entries, tenant, strategy)
    {
      var manual := registry.ListEntries(ManualOf(tenant));
      plan := [];
      for i := 0 to |manual|
        invariant plan == KeepFirst(manual, Opted(strategy), i)
      {
        if HasStrategy(manual[i], strategy) {
          plan := plan + [manual[i]];
        }
      }
    }

    method RunOne(e: Entry, strategy: Strategy, query: Query) returns (rows: Option<nat>)
      ensures rows == OutcomeOf(e, strategy, query).rowsAffected
    {
      if e.system != "bigquery" { return None; }
      if !Given(e.userIdColumn) { return None; }
      if strategy.RedactInPlace? && |e.fields| == 0 { return None; }
      rows := query(e.resource);
    }

    /** One result per planned resource, in order; a failing resource does not stop the others. */
    method RunOver(tenant: string, strategy: Strategy, query: Query) returns (results: seq<RedactionResult>)
      ensures var plan := Plan(registry.entries, tenant, strategy);
        |results| == |plan| && forall i :: 0 <= i < |plan| ==> results[i] == OutcomeOf(plan[i], strategy, query)
      ensures forall i :: 0 <= i < |results| ==>
        Ran(results[i], Plan(registry.entries, tenant, strategy)[i], strategy, query)
    {
      var plan := PlanFor(tenant, strategy);
      results := [];
      for i := 0 to |plan|
        invariant |results| == i && forall k :: 0 <= k < i ==> results[k] == OutcomeOf(plan[k], strategy, query)
      {
        var rows := RunOne(plan[i], strategy, query);
        results := results + [RedactionResult(plan[i].resource, rows.Some?, rows)];
      }
    }
  }

  // ----- Each resource once -----

  function Resources(results: seq<RedactionResult>): seq<string> {
    seq(|results|, i requires 0 <= i < |results| => results[i].resource)
  }

  lemma {:induction false} KeptResourcesDistinct(entries: seq<Entry>, keep: Entry -> bool, n: nat, k: nat, m: nat)
    requires n <= |entries| && k < m < |KeepFirst(entries, keep, n)|
    requires forall i, j :: 0 <= i < j < |entries| ==> entries[i].resource != entries[j].resource
    ensures var kept := KeepFirst(entries, keep, n); kept[k].resource != kept[m].resource
    decreases n
  {
    var before := KeepFirst(entries, keep, n - 1);
    if m < |before| {
      KeptResourcesDistinct(entries, keep, n - 1, k, m);
    } else {
      KeptWereThere(entries, keep, n - 1, k);
    }
  }

  /** In a registry whose manual entries carry their tenants, one run attempts no resource twice. */
  lemma EachResourceOnce(t: Table, tenant: string, strategy: Strategy, results: seq<RedactionResult>)
    requires TableOk(t) && ManualOwned(t)
    requires var plan := Plan(t, tenant, strategy);
      |results| == |plan| && forall i :: 0 <= i < |plan| ==> results[i].resource == plan[i].resource
    ensures Distinct(Resources(results))
  {
    var manual := List(t, ManualOf(tenant));
    forall k, m | 0 <= k < m < |manual| ensures manual[k].resource != manual[m].resource {
      ManualResourcesAreDistinct(t, tenant, |t|, k, m);
    }
    forall k, m | 0 <= k < m < |results| ensures results[k].resource != results[m].resource {
      KeptResourcesDistinct(manual, Opted(strategy), |manual|, k, m);
    }
  }

  /** Declared by hand, for the tenant or for all, and opted in: by its list, or without one by the older field. */
  predicate OptedIn(e: Entry, tenant: string, strategy: Strategy) {
    && e.owner == "manual" && (e.tenant == None || e.tenant == Some(tenant))
    && if e.strategies.Some? then strategy in e.strategies.value else e.legacy == Some(strategy)
  }

  lemma {:induction false} PlannedOptedIn(t: Table, tenant: string, strategy: Strategy, k: nat)
    requires k < |Plan(t, tenant, strategy)|
    ensures var e := Plan(t, tenant, strategy)[k];
      OptedIn(e, tenant, strategy) && exists i :: 0 <= i < |t| && t[i].1 == e
  {
    var manual := List(t, ManualOf(tenant));
    ListedExactlyWhen(t, ManualOf(tenant), |t|);
    KeptWereThere(manual, Opted(strategy), |manual|, k);
    var m :| 0 <= m < |manual| && manual[m] == Plan(t, tenant, strategy)[k];
    KeptWereThere(t, Wanted(ManualOf(tenant)), |t|, m);
  }

  lemma {:induction false} OptedInIsPlanned(t: Table, tenant: string, strategy: Strategy, i: nat)
    requires i < |t| && OptedIn(t[i].1, tenant, strategy)
    ensures t[i].1 in Plan(t, tenant, strategy)
  {
    var manual, rows := List(t, ManualOf(tenant)), KeepFirst(t, Wanted(ManualOf(tenant)), |t|);
    ListedExactlyWhen(t, ManualOf(tenant), |t|);
    KeptIsKept(t, Wanted(ManualOf(tenant)), |t|, i);
    var m :| 0 <= m < |rows| && rows[m] == t[i];
    KeptIsKept(manual, Opted(strategy), |manual|, m);
  }

  /** A plan is exactly the rows that opted in. */
  lemma {:induction false} PlannedExactlyWhen(t: Table, tenant: string, strategy: Strategy, e: Entry)
    ensures e in Plan(t, tenant, strategy) <==> OptedIn(e, tenant, strategy) && exists i :: 0 <= i < |t| && t[i].1 == e
  {
    if e in Plan(t, tenant, strategy) {
      var k :| 0 <= k < |Plan(t, tenant, strategy)| && Plan(t, tenant, strategy)[k] == e;
      PlannedOptedIn(t, tenant, strategy, k);
    }
    if i :| OptedIn(e, tenant, strategy) && 0 <= i < |t| && t[i].1 == e {
      OptedInIsPlanned(t, tenant, strategy, i);
    }
  }
}
