/** Grouping the dbt tables' flat rows into registry entries. */
module PiiAssembly {
  import opened Text
  import opened Filters
  import opened PiiEntries

  datatype Row = Row(resource: string, system: string, layer: Option<Layer>, owner: string, field: Field)

  datatype Group = Group(resource: string, rows: seq<Row>)

  function Of(resource: string): Group -> bool {
    (g: Group) => g.resource == resource
  }

  /** The place of a resource's group; the length when there is none. */
  function GroupIndex(groups: seq<Group>, resource: string): (r: nat)
    ensures r <= |groups| && (r < |groups| ==> groups[r].resource == resource)
    ensures forall k :: 0 <= k < r ==> groups[k].resource != resource
  {
    FirstFrom(groups, Of(resource), 0)
  }

  /** One row into the map of groups: pushed onto its resource's rows, or the first of a new resource. */
  function Pushed(groups: seq<Group>, row: Row): seq<Group> {
    var i := GroupIndex(groups, row.resource);
    if i < |groups| then groups[i := Group(row.resource, groups[i].rows + [row])]
    else groups + [Group(row.resource, [row])]
  }

  function Grouped(rows: seq<Row>, n: nat): seq<Group>
    requires n <= |rows|
    decreases n
  {
    if n == 0 then [] else Pushed(Grouped(rows, n - 1), rows[n - 1])
  }

  function Fields(rows: seq<Row>): seq<Field> {
    seq(|rows|, i requires 0 <= i < |rows| => rows[i].field)
  }

  /** What the dbt layer does not declare is derived from the first row's layer. */
  function ToEntry(g: Group): Entry
    requires g.rows != []
  {
    var first := g.rows[0];
    var layer := if first.layer.Some? then first.layer.value else Unknown;
    Entry(g.resource, None, first.system, if first.owner != "" then first.owner else "dbt", layer, Fields(g.rows),
          if layer.Mart? then ManualReview else CryptoShred, Some("user_id"), Some("tenant_id"),
          !(layer.Raw? || layer.Saas?), None, None, None, None, None, None, None, None)
  }

  /** `assemblePiiRegistryEntries`. */
  method Assemble(rows: seq<Row>) returns (entries: seq<Entry>)
    ensures |entries| == |Grouped(rows, |rows|)|
    ensures forall i :: 0 <= i < |entries| ==>
      Grouped(rows, |rows|)[i].rows != [] && entries[i] == ToEntry(Grouped(rows, |rows|)[i])
  {
    var groups: seq<Group> := [];
    for i := 0 to |rows|
      invariant groups == Grouped(rows, i)
    {
      groups := Pushed(groups, rows[i]);
    }
    entries := [];
    GroupsAreSound(rows, |rows|);
    for i := 0 to |groups|
      invariant |entries| == i
      invariant forall k :: 0 <= k < i ==> entries[k] == ToEntry(groups[k])
    {
      entries := entries + [ToEntry(groups[i])];
    }
  }

  // ----- Every row once, in order -----

  /** The rows of a resource, in order. */
  function RowsOf(rows: seq<Row>, resource: string, n: nat): seq<Row>
    requires n <= |rows|
    decreases n
  {
    if n == 0 then []
    else RowsOf(rows, resource, n - 1) + if rows[n - 1].resource == resource then [rows[n - 1]] else []
  }

  /** The resources in the order they first appear. */
  function Appearances(rows: seq<Row>, n: nat): seq<string>
    requires n <= |rows|
    decreases n
  {
    if n == 0 then []
    else
      var before := Appearances(rows, n - 1);
      if rows[n - 1].resource in before then before else before + [rows[n - 1].resource]
  }

  ghost predicate Sound(rows: seq<Row>, groups: seq<Group>, n: nat)
    requires n <= |rows|
  {
    && |groups| == |Appearances(rows, n)|
    && forall i :: 0 <= i < |groups| ==> SoundGroup(rows, groups[i], Appearances(rows, n)[i], n)
  }

  predicate SoundGroup(rows: seq<Row>, g: Group, resource: string, n: nat)
    requires n <= |rows|
  {
    g.resource == resource && g.rows == RowsOf(rows, resource, n) && g.rows != []
  }

  lemma {:induction false} AppearancesAreDistinct(rows: seq<Row>, n: nat)
    requires n <= |rows|
    ensures forall i, j :: 0 <= i < j < |Appearances(rows, n)| ==> Appearances(rows, n)[i] != Appearances(rows, n)[j]
    ensures forall k :: 0 <= k < n ==> rows[k].resource in Appearances(rows, n)
    decreases n
  {
    if n > 0 {
      AppearancesAreDistinct(rows, n - 1);
    }
  }

  lemma {:induction false} AbsentHasNoRows(rows: seq<Row>, resource: string, n: nat)
    requires n <= |rows| && resource !in Appearances(rows, n)
    ensures RowsOf(rows, resource, n) == []
    decreases n
  {
    if n > 0 {
      AbsentHasNoRows(rows, resource, n - 1);
    }
  }

  lemma {:induction false} PushNew(rows: seq<Row>, groups: seq<Group>, n: nat)
    requires 0 < n <= |rows| && Sound(rows, groups, n - 1)
    requires GroupIndex(groups, rows[n - 1].resource) == |groups|
    ensures Sound(rows, Pushed(groups, rows[n - 1]), n)
  {
    var row, names := rows[n - 1], Appearances(rows, n - 1);
    forall k | 0 <= k < |names| ensures names[k] != row.resource {
      assert SoundGroup(rows, groups[k], names[k], n - 1);
    }
    AbsentHasNoRows(rows, row.resource, n - 1);
    forall i | 0 <= i < |groups| ensures SoundGroup(rows, groups[i], names[i], n) {
      assert SoundGroup(rows, groups[i], names[i], n - 1);
    }
    assert Appearances(rows, n) == names + [row.resource];
    assert SoundGroup(rows, Group(row.resource, [row]), row.resource, n);
  }

  lemma {:induction false} PushKnown(rows: seq<Row>, groups: seq<Group>, n: nat)
    requires 0 < n <= |rows| && Sound(rows, groups, n - 1)
    requires GroupIndex(groups, rows[n - 1].resource) < |groups|
    ensures Sound(rows, Pushed(groups, rows[n - 1]), n)
  {
    var row, names := rows[n - 1], Appearances(rows, n - 1);
    var at := GroupIndex(groups, row.resource);
    AppearancesAreDistinct(rows, n - 1);
    assert SoundGroup(rows, groups[at], names[at], n - 1);
    assert Appearances(rows, n) == names;
    var after := Pushed(groups, row);
    forall i | 0 <= i < |groups| ensures SoundGroup(rows, after[i], names[i], n) {
      assert SoundGroup(rows, groups[i], names[i], n - 1);
      assert i != at ==> names[i] != names[at];
    }
  }

  /** The groups are the resources in order of first appearance, each with all of its rows in order. */
  lemma {:induction false} GroupsAreSound(rows: seq<Row>, n: nat)
    requires n <= |rows|
    ensures Sound(rows, Grouped(rows, n), n)
    decreases n
  {
    if n > 0 {
      GroupsAreSound(rows, n - 1);
      if GroupIndex(Grouped(rows, n - 1), rows[n - 1].resource) < |Grouped(rows, n - 1)| {
        PushKnown(rows, Grouped(rows, n - 1), n);
      } else {
        PushNew(rows, Grouped(rows, n - 1), n);
      }
    }
  }

  function FieldCount(groups: seq<Group>, n: nat): nat
    requires n <= |groups|
    decreases n
  {
    if n == 0 then 0 else FieldCount(groups, n - 1) + |groups[n - 1].rows|
  }

  lemma {:induction false} FieldCountReplaced(groups: seq<Group>, i: nat, g: Group, n: nat)
    requires i < |groups| && n <= |groups|
    ensures FieldCount(groups[i := g], n) == FieldCount(groups, n) + if i < n then |g.rows| - |groups[i].rows| else 0
    decreases n
  {
    if n > 0 {
      FieldCountReplaced(groups, i, g, n - 1);
    }
  }

  lemma {:induction false} FieldCountAppended(groups: seq<Group>, g: Group, n: nat)
    requires n <= |groups|
    ensures FieldCount(groups + [g], n) == FieldCount(groups, n)
    decreases n
  {
    if n > 0 {
      FieldCountAppended(groups, g, n - 1);
    }
  }

  lemma {:induction false} NoRowIsLost(rows: seq<Row>, n: nat)
    requires n <= |rows|
    ensures FieldCount(Grouped(rows, n), |Grouped(rows, n)|) == n
    decreases n
  {
    if n > 0 {
      NoRowIsLost(rows, n - 1);
      var row, groups := rows[n - 1], Grouped(rows, n - 1);
      var i := GroupIndex(groups, row.resource);
      if i < |groups| {
        FieldCountReplaced(groups, i, Group(row.resource, groups[i].rows + [row]), |groups|);
      } else {
        FieldCountAppended(groups, Group(row.resource, [row]), |groups|);
      }
    }
  }

  /**
   * The assembled entries are the resources in order of first appearance, once each, every entry with
   * exactly its rows' fields in order; together they hold as many fields as there are rows.
   */
  lemma EveryRowOnceInOrder(rows: seq<Row>, i: nat, j: nat)
    requires i < |Grouped(rows, |rows|)| && j < |Grouped(rows, |rows|)|
    ensures var groups := Grouped(rows, |rows|);
      && |groups| == |Appearances(rows, |rows|)|
      && groups[i].rows != [] && groups[j].rows != []
      && var e := ToEntry(groups[i]);
         && e.resource == Appearances(rows, |rows|)[i]
         && e.fields == Fields(RowsOf(rows, e.resource, |rows|))
         && (i != j ==> e.resource != ToEntry(groups[j]).resource)
    ensures FieldCount(Grouped(rows, |rows|), |Grouped(rows, |rows|)|) == |rows|
    ensures forall k :: 0 <= k < |rows| ==> rows[k].resource in Appearances(rows, |rows|)
  {
    GroupsAreSound(rows, |rows|);
    AppearancesAreDistinct(rows, |rows|);
    NoRowIsLost(rows, |rows|);
    assert SoundGroup(rows, Grouped(rows, |rows|)[i], Appearances(rows, |rows|)[i], |rows|);
    assert SoundGroup(rows, Grouped(rows, |rows|)[j], Appearances(rows, |rows|)[j], |rows|);
  }

  /** What the dbt tables do not say about a resource is derived from its first row, the same way for all. */
  lemma EntryFromFirstRow(rows: seq<Row>, i: nat)
    requires i < |Grouped(rows, |rows|)|
    ensures |Appearances(rows, |rows|)| == |Grouped(rows, |rows|)| && Grouped(rows, |rows|)[i].rows != []
    ensures var e, own := ToEntry(Grouped(rows, |rows|)[i]), RowsOf(rows, Appearances(rows, |rows|)[i], |rows|);
      && own != [] && e.tenant.None? && e.system == own[0].system
      && e.owner == (if own[0].owner == "" then "dbt" else own[0].owner)
      && e.layer == (if own[0].layer.None? then Unknown else own[0].layer.value)
      && e.deletion == (if own[0].layer == Some(Mart) then ManualReview else CryptoShred)
      && e.scanEnabled == (own[0].layer != Some(Raw) && own[0].layer != Some(Saas))
      && e.userIdColumn == Some("user_id") && e.tenantIdColumn == Some("tenant_id")
      && e.strategies.None? && e.legacy.None? && e.updatedAtColumn.None? && e.lastSyncedAt.None?
  {
    GroupsAreSound(rows, |rows|);
    assert SoundGroup(rows, Grouped(rows, |rows|)[i], Appearances(rows, |rows|)[i], |rows|);
  }
}
