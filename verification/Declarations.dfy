/** The durable copy of manually declared entries, and its sync watermarks. */
module Declarations {
  import opened Text
  import opened PiiEntries

  type Docs = map<string, Entry>

  /** `encodeURIComponent`: loses nothing, and writes a colon as %3A. */
  ghost predicate LawfulEncoding(encode: string -> string) {
    (forall s, t :: encode(s) == encode(t) ==> s == t) && (forall s :: ColonFree(encode(s)))
  }

  function DocId(encode: string -> string, tenant: string, resource: string): string {
    tenant + ":" + encode(resource)
  }

  lemma SuffixInjective(a: string, b: string, a': string, b': string)
    requires ColonFree(b) && ColonFree(b') && a + ":" + b == a' + ":" + b'
    ensures a == a' && b == b'
  {
    var s := a + ":" + b;
    assert s[|a|] == ':' == s[|a'|];
    assert forall k :: |a| < k < |s| ==> s[k] == b[k - |a| - 1] && b[k - |a| - 1] in b;
    assert forall k :: |a'| < k < |s| ==> s[k] == b'[k - |a'| - 1] && b'[k - |a'| - 1] in b';
    assert |a| == |a'|;
    assert a == s[..|a|] == a' && b == s[|a| + 1..] == b';
  }

  /** Unlike key documents, no two declarations ever share a document, whatever the tenant ids. */
  lemma DeclarationsNeverCollide(encode: string -> string, t: string, r: string, t': string, r': string)
    requires LawfulEncoding(encode)
    ensures DocId(encode, t, r) == DocId(encode, t', r') <==> t == t' && r == r'
  {
    if DocId(encode, t, r) == DocId(encode, t', r') {
      SuffixInjective(t, encode(r), t', encode(r'));
    }
  }

  // ----- The operations as functions on one document -----

  function Either<T>(first: Option<T>, second: Option<T>): Option<T> {
    if first.Some? then first else second
  }

  /**
   * `set(..., {merge: true})` of an entry: fields it leaves undefined keep their stored value, except
   * that a cleared updatedAtColumn takes the watermark with it and a missing modifier is cleared.
   */
  function Merged(before: Option<Entry>, e: Entry): Entry {
    var kept := if before.Some? then before.value else e;
    e.(userIdColumn := Either(e.userIdColumn, kept.userIdColumn),
       tenantIdColumn := Either(e.tenantIdColumn, kept.tenantIdColumn),
       notes := Either(e.notes, kept.notes),
       declaredBy := Either(e.declaredBy, kept.declaredBy),
       strategies := Either(e.strategies, kept.strategies),
       updatedAtColumn := if Given(e.updatedAtColumn) then e.updatedAtColumn else None,
       lastModifiedBy := if Given(e.lastModifiedBy) then e.lastModifiedBy else None,
       lastSyncedAt := if Given(e.updatedAtColumn) then Either(e.lastSyncedAt, kept.lastSyncedAt) else None,
       lastSyncAttemptAt := Either(e.lastSyncAttemptAt, kept.lastSyncAttemptAt))
  }

  function Advanced(current: Option<Instant>, candidate: Instant): Instant {
    if current.Some? && current.value.time >= candidate.time then current.value else candidate
  }

  // ----- The store -----

  class DeclarationRepository {
    var docs: Docs
    const encode: string -> string

    constructor (encode: string -> string)
      ensures docs == map[] && this.encode == encode
    {
      docs, this.encode := map[], encode;
    }

    function Stored(tenant: string, resource: string): Option<Entry>
      reads this
    {
      var id := DocId(encode, tenant, resource);
      if id in docs then Some(docs[id]) else None
    }

    method Upsert(e: Entry) returns (ok: bool)
      modifies this
      ensures ok == Given(e.tenant)
      ensures docs == if ok
        then var id := DocId(encode, e.tenant.value, e.resource);
             old(docs)[id := Merged(if id in old(docs) then Some(old(docs)[id]) else None, e)]
        else old(docs)
    {
      if e.tenant.None? || e.tenant.value == "" { return false; }
      var id := DocId(encode, e.tenant.value, e.resource);
      var kept := if id in docs then docs[id] else e;
      var payload := e.(userIdColumn := Either(e.userIdColumn, kept.userIdColumn),
                        tenantIdColumn := Either(e.tenantIdColumn, kept.tenantIdColumn),
                        notes := Either(e.notes, kept.notes),
                        declaredBy := Either(e.declaredBy, kept.declaredBy),
                        strategies := Either(e.strategies, kept.strategies),
                        lastSyncedAt := Either(e.lastSyncedAt, kept.lastSyncedAt),
                        lastSyncAttemptAt := Either(e.lastSyncAttemptAt, kept.lastSyncAttemptAt));
      if !Given(e.updatedAtColumn) {
        payload := payload.(updatedAtColumn := None, lastSyncedAt := None);
      }
      if !Given(e.lastModifiedBy) {
        payload := payload.(lastModifiedBy := None);
      }
      docs := docs[id := payload];
      ok := true;
    }

    method Delete(tenant: string, resource: string)
      modifies this
      ensures docs == old(docs) - {DocId(encode, tenant, resource)}
    {
      docs := docs - {DocId(encode, tenant, resource)};
    }

    /** None stands for the exception on a missing declaration. */
    method AdvanceSyncWatermark(tenant: string, resource: string, candidate: Instant) returns (r: Option<Instant>)
      modifies this
      ensures old(Stored(tenant, resource)).None? ==> r == None && docs == old(docs)
      ensures old(Stored(tenant, resource)).Some? ==>
        var d := old(Stored(tenant, resource)).value;
        && r == Some(Advanced(d.lastSyncedAt, candidate))
        && docs == old(docs)[DocId(encode, tenant, resource) := d.(lastSyncedAt := r)]
    {
      var id := DocId(encode, tenant, resource);
      if id !in docs { return None; }
      var current := docs[id].lastSyncedAt;
      if current.Some? && current.value.time >= candidate.time {
        assert docs == docs[id := docs[id].(lastSyncedAt := current)];
        return current;
      }
      docs := docs[id := docs[id].(lastSyncedAt := Some(candidate))];
      r := Some(candidate);
    }

    method AdvanceLastSyncAttempt(tenant: string, resource: string, candidate: Instant) returns (r: Option<Instant>)
      modifies this
      ensures old(Stored(tenant, resource)).None? ==> r == None && docs == old(docs)
      ensures old(Stored(tenant, resource)).Some? ==>
        var d := old(Stored(tenant, resource)).value;
        && r == Some(Advanced(d.lastSyncAttemptAt, candidate))
        && docs == old(docs)[DocId(encode, tenant, resource) := d.(lastSyncAttemptAt := r)]
    {
      var id := DocId(encode, tenant, resource);
      if id !in docs { return None; }
      var current := docs[id].lastSyncAttemptAt;
      if current.Some? && current.value.time >= candidate.time {
        assert docs == docs[id := docs[id].(lastSyncAttemptAt := current)];
        return current;
      }
      docs := docs[id := docs[id].(lastSyncAttemptAt := Some(candidate))];
      r := Some(candidate);
    }
  }

  // ----- What a watermark has seen -----

  /** What happens to one declaration: a sync reports, or the declaration is written again. */
  datatype Op = Advance(candidate: Instant) | Declare(e: Entry)

  function Perform(d: Entry, op: Op): Entry {
    match op
    case Advance(candidate) => d.(lastSyncedAt := Some(Advanced(d.lastSyncedAt, candidate)))
    case Declare(e) => Merged(Some(d), e)
  }

  function After(d: Entry, ops: seq<Op>, n: nat): Entry
    requires n <= |ops|
    decreases n
  {
    if n == 0 then d else Perform(After(d, ops, n - 1), ops[n - 1])
  }

  /** The write that clears the watermark. */
  predicate Clears(op: Op) {
    op.Declare? && !Given(op.e.updatedAtColumn)
  }

  /** Declarations leave the watermark to the server: they carry none. */
  predicate FromTheApi(op: Op) {
    op.Declare? ==> op.e.lastSyncedAt.None?
  }

  /** The start value and the candidates reported since the watermark was last cleared, in order. */
  function SinceCleared(start: Option<Instant>, ops: seq<Op>, n: nat): seq<Instant>
    requires n <= |ops|
    decreases n
  {
    if n == 0 then (if start.Some? then [start.value] else [])
    else if Clears(ops[n - 1]) then []
    else
      var before := SinceCleared(start, ops, n - 1);
      if ops[n - 1].Advance? then before + [ops[n - 1].candidate] else before
  }

  /** The greatest instant of a list, and of several as great the earliest in it. */
  ghost predicate IsFirstMaximum(list: seq<Instant>, v: Instant) {
    exists i :: IsFirstMaximumAt(list, v, i)
  }

  ghost predicate IsFirstMaximumAt(list: seq<Instant>, v: Instant, i: int) {
    && 0 <= i < |list| && list[i] == v
    && (forall k :: 0 <= k < |list| ==> list[k].time <= v.time)
    && (forall k :: 0 <= k < i ==> list[k].time < v.time)
  }

  lemma OneMoreReport(list: seq<Instant>, v: Option<Instant>, candidate: Instant)
    requires if list == [] then v.None? else v.Some? && IsFirstMaximum(list, v.value)
    ensures IsFirstMaximum(list + [candidate], Advanced(v, candidate))
  {
    var longer := list + [candidate];
    if list == [] || v.value.time < candidate.time {
      assert IsFirstMaximumAt(longer, candidate, |list|);
    } else {
      var i :| IsFirstMaximumAt(list, v.value, i);
      assert IsFirstMaximumAt(longer, v.value, i);
    }
  }

  /**
   * The stored watermark is the greatest of everything reported since it was last cleared, the start
   * value included; of equal reports the earlier one is kept.
   */
  lemma {:induction false} WatermarkIsFirstMaximum(d: Entry, ops: seq<Op>, n: nat)
    requires n <= |ops| && forall i :: 0 <= i < |ops| ==> FromTheApi(ops[i])
    ensures var list, watermark := SinceCleared(d.lastSyncedAt, ops, n), After(d, ops, n).lastSyncedAt;
      if list == [] then watermark.None? else watermark.Some? && IsFirstMaximum(list, watermark.value)
    decreases n
  {
    if n == 0 {
      if d.lastSyncedAt.Some? {
        assert IsFirstMaximumAt([d.lastSyncedAt.value], d.lastSyncedAt.value, 0);
      }
    } else {
      WatermarkIsFirstMaximum(d, ops, n - 1);
      assert FromTheApi(ops[n - 1]);
      if ops[n - 1].Advance? {
        OneMoreReport(SinceCleared(d.lastSyncedAt, ops, n - 1), After(d, ops, n - 1).lastSyncedAt,
                      ops[n - 1].candidate);
      }
    }
  }

  function Advances(candidates: seq<Instant>): seq<Op> {
    seq(|candidates|, i requires 0 <= i < |candidates| => Advance(candidates[i]))
  }

  lemma {:induction false} SinceOfAdvances(start: Option<Instant>, candidates: seq<Instant>, n: nat)
    requires n <= |candidates|
    ensures SinceCleared(start, Advances(candidates), n)
      == (if start.Some? then [start.value] else []) + candidates[..n]
    decreases n
  {
    if n > 0 {
      SinceOfAdvances(start, candidates, n - 1);
      assert candidates[..n] == candidates[..n - 1] + [candidates[n - 1]];
    }
  }

  lemma SameTime(xs: seq<Instant>, ys: seq<Instant>, v: Instant, w: Instant)
    requires IsFirstMaximum(xs, v) && IsFirstMaximum(ys, w)
    requires forall x :: x in xs <==> x in ys
    ensures v.time == w.time
  {
    assert v in xs && w in ys;
    assert v in ys && w in xs;
  }

  /** The watermark after these reports. */
  function Reported(d: Entry, candidates: seq<Instant>): Option<Instant> {
    After(d, Advances(candidates), |candidates|).lastSyncedAt
  }

  function InPlay(d: Entry, candidates: seq<Instant>): seq<Instant> {
    (if d.lastSyncedAt.Some? then [d.lastSyncedAt.value] else []) + candidates
  }

  lemma ReportedIsFirstMaximum(d: Entry, candidates: seq<Instant>)
    ensures var list, watermark := InPlay(d, candidates), Reported(d, candidates);
      if list == [] then watermark.None? else watermark.Some? && IsFirstMaximum(list, watermark.value)
  {
    WatermarkIsFirstMaximum(d, Advances(candidates), |candidates|);
    SinceOfAdvances(d.lastSyncedAt, candidates, |candidates|);
    assert candidates[..|candidates|] == candidates;
  }

  lemma SameMembers<T>(xs: seq<T>, ys: seq<T>)
    requires multiset(xs) == multiset(ys)
    ensures |xs| == |ys| && forall x :: x in xs <==> x in ys
  {
    assert |multiset(xs)| == |xs| && |multiset(ys)| == |ys|;
    assert forall x :: x in xs <==> x in multiset(xs);
    assert forall x :: x in ys <==> x in multiset(ys);
  }

  /** Sync runs may report in any order: the time the watermark ends at is the same. */
  lemma ReportsMayComeInAnyOrder(d: Entry, candidates: seq<Instant>, reordered: seq<Instant>)
    requires multiset(candidates) == multiset(reordered)
    ensures var a, b := Reported(d, candidates), Reported(d, reordered);
      a.Some? == b.Some? && (a.Some? ==> a.value.time == b.value.time)
  {
    ReportedIsFirstMaximum(d, candidates);
    ReportedIsFirstMaximum(d, reordered);
    SameMembers(candidates, reordered);
    if InPlay(d, candidates) != [] {
      SameTime(InPlay(d, candidates), InPlay(d, reordered), Reported(d, candidates).value,
               Reported(d, reordered).value);
    }
  }

  // ----- What a declaration keeps of earlier ones -----

  /** The last value any of the first `n` operations gave to a field, the start's if none did. */
  function LastGiven<T>(d: Entry, ops: seq<Op>, pick: Entry -> Option<T>, n: nat): Option<T>
    requires n <= |ops|
    decreases n
  {
    if n == 0 then pick(d)
    else if ops[n - 1].Declare? && pick(ops[n - 1].e).Some? then pick(ops[n - 1].e)
    else LastGiven(d, ops, pick, n - 1)
  }

  /**
   * A declaration that leaves a field undefined never loses it: after any writes and reports the column
   * names, the notes, the attribution and the strategies are the last ones given.
   */
  lemma {:induction false} FieldsAreLastGiven(d: Entry, ops: seq<Op>, n: nat)
    requires n <= |ops|
    ensures var e := After(d, ops, n);
      && e.userIdColumn == LastGiven(d, ops, (x: Entry) => x.userIdColumn, n)
      && e.tenantIdColumn == LastGiven(d, ops, (x: Entry) => x.tenantIdColumn, n)
      && e.notes == LastGiven(d, ops, (x: Entry) => x.notes, n)
      && e.declaredBy == LastGiven(d, ops, (x: Entry) => x.declaredBy, n)
      && e.strategies == LastGiven(d, ops, (x: Entry) => x.strategies, n)
    decreases n
  {
    if n > 0 {
      FieldsAreLastGiven(d, ops, n - 1);
    }
  }

  /** Everything else is what the write itself says: its modifier and incremental column are cleared if it has none. */
  lemma WriteReplaces(before: Option<Entry>, e: Entry)
    ensures var m := Merged(before, e);
      && m.resource == e.resource && m.tenant == e.tenant && m.system == e.system && m.owner == e.owner
      && m.layer == e.layer && m.fields == e.fields && m.deletion == e.deletion && m.scanEnabled == e.scanEnabled
      && m.legacy == e.legacy
      && m.lastModifiedBy == (if e.lastModifiedBy == Some("") then None else e.lastModifiedBy)
      && m.updatedAtColumn == (if e.updatedAtColumn == Some("") then None else e.updatedAtColumn)
      && (before.None? && m.updatedAtColumn.Some? ==>
            m.lastSyncedAt == e.lastSyncedAt && m.lastSyncAttemptAt == e.lastSyncAttemptAt)
      && (before.Some? && e.lastSyncAttemptAt.None? ==> m.lastSyncAttemptAt == before.value.lastSyncAttemptAt)
  {
  }
}
