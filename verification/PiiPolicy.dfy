/** Policy evaluation of one registry entry. */
module PiiPolicy {
  import opened Text
  import opened PiiEntries

  datatype Code =
    | MissingTenantScope | MissingUserScope | DirectIdentifierInMart | ManualReviewRequired | GhostScanDisabled

  datatype Severity = Info | Warning | Error

  datatype Issue = Issue(code: Code, severity: Severity, field: Option<string>)

  datatype PolicyStatus = Pass | Warn | Fail

  /** `s.includes(part)`, from position `i` on. */
  function Includes(s: string, part: string, i: nat): bool
    requires i <= |s|
    decreases |s| - i
  {
    (i + |part| <= |s| && s[i..i + |part|] == part) || (i < |s| && Includes(s, part, i + 1))
  }

  /** `part` stands in `s` from position `k` on. */
  predicate StandsAt(s: string, part: string, k: nat) {
    k + |part| <= |s| && s[k..k + |part|] == part
  }

  lemma {:induction false} IncludesExactlyWhen(s: string, part: string, i: nat)
    requires i <= |s|
    ensures Includes(s, part, i) <==> exists k: nat :: i <= k && StandsAt(s, part, k)
    decreases |s| - i
  {
    assert StandsAt(s, part, i) <==> i + |part| <= |s| && s[i..i + |part|] == part;
    if i < |s| {
      IncludesExactlyWhen(s, part, i + 1);
    }
  }

  function ResourceName(resource: string): string {
    var parts := Split(resource);
    if parts[|parts| - 1] != "" then parts[|parts| - 1] else resource
  }

  function IsMart(e: Entry): bool {
    var name := ResourceName(e.resource);
    Includes(name, ".mart_", 0) || "mart_" <= name
  }

  /** The name after a resource's last colon decides: `mart_` in front of it, or `.mart_` anywhere in it. */
  lemma MartExactlyWhen(e: Entry, prefix: string, name: string)
    requires ColonFree(name) && name != "" && (e.resource == name || e.resource == prefix + ":" + name)
    ensures IsMart(e) <==> "mart_" <= name || exists k: nat :: StandsAt(name, ".mart_", k)
  {
    assert ResourceName(e.resource) == name by {
      LastPart(prefix, name);
      SplitColonFree(name);
    }
    IncludesExactlyWhen(name, ".mart_", 0);
  }

  lemma {:induction false} LastPart(prefix: string, name: string)
    requires ColonFree(name)
    ensures var parts := Split(prefix + ":" + name); parts[|parts| - 1] == name
  {
    var s := prefix + ":" + name;
    if prefix == "" {
      assert s[1..] == name && s[0] == ':';
      SplitColonFree(name);
    } else {
      assert s[1..] == prefix[1..] + ":" + name;
      LastPart(prefix[1..], name);
      var rest := Split(s[1..]);
      assert |rest| > 1 by { SplitHasColon(prefix[1..], name); }
    }
  }

  lemma {:induction false} SplitHasColon(prefix: string, name: string)
    ensures |Split(prefix + ":" + name)| > 1
  {
    var s := prefix + ":" + name;
    if prefix == "" {
      assert s[0] == ':';
    } else {
      assert s[1..] == prefix[1..] + ":" + name;
      SplitHasColon(prefix[1..], name);
    }
  }

  predicate ExposesIdentifier(e: Entry, f: Field) {
    IsMart(e) && f.classification.DirectIdentifier? && !f.handling.AllowAggregateOnly?
  }

  /** The three ways an entry fails. */
  predicate Fails(e: Entry) {
    || (e.system == "bigquery" && !Given(e.tenantIdColumn))
    || (e.deletion.CryptoShred? && !Given(e.userIdColumn))
    || exists i :: 0 <= i < |e.fields| && ExposesIdentifier(e, e.fields[i])
  }

  predicate Warns(e: Entry) {
    e.deletion.ManualReview? || exists i :: 0 <= i < |e.fields| && e.fields[i].handling.ReviewManually?
  }

  function StatusOf(e: Entry): PolicyStatus {
    if Fails(e) then Fail else if Warns(e) then Warn else Pass
  }

  predicate Has(issues: seq<Issue>, severity: Severity) {
    exists i :: 0 <= i < |issues| && issues[i].severity == severity
  }

  lemma HasAppended(issues: seq<Issue>, issue: Issue, severity: Severity)
    ensures Has(issues + [issue], severity) <==> Has(issues, severity) || issue.severity == severity
  {
    var longer := issues + [issue];
    assert longer[|issues|] == issue;
    if Has(issues, severity) {
      var i :| 0 <= i < |issues| && issues[i].severity == severity;
      assert longer[i].severity == severity;
    }
  }

  predicate HasCode(issues: seq<Issue>, code: Code) {
    exists i :: 0 <= i < |issues| && issues[i].code == code
  }

  lemma CodeAppended(issues: seq<Issue>, issue: Issue, code: Code)
    ensures HasCode(issues + [issue], code) <==> HasCode(issues, code) || issue.code == code
  {
    var longer := issues + [issue];
    assert longer[|issues|] == issue;
    if HasCode(issues, code) {
      var i :| 0 <= i < |issues| && issues[i].code == code;
      assert longer[i].code == code;
    }
  }

  method Push(issues: seq<Issue>, code: Code, severity: Severity, field: Option<string>) returns (r: seq<Issue>)
    ensures r == issues + [Issue(code, severity, field)]
    ensures forall s :: Has(r, s) <==> Has(issues, s) || s == severity
    ensures forall c :: HasCode(r, c) <==> HasCode(issues, c) || c == code
  {
    r := issues + [Issue(code, severity, field)];
    forall c ensures HasCode(r, c) <==> HasCode(issues, c) || c == code {
      CodeAppended(issues, Issue(code, severity, field), c);
    }
    forall s ensures Has(r, s) <==> Has(issues, s) || s == severity {
      HasAppended(issues, Issue(code, severity, field), s);
    }
  }

  /** The field may not be in a mart as it is. */
  predicate IsExposed(f: Field) {
    f.classification.DirectIdentifier? && !f.handling.AllowAggregateOnly?
  }

  /** The issues pushed one by one are exactly those the entry's own fields call for, and so is the status. */
  method EvaluateEntry(e: Entry) returns (status: PolicyStatus, issues: seq<Issue>)
    ensures status == StatusOf(e)
    ensures HasCode(issues, MissingTenantScope) <==> e.system == "bigquery" && !Given(e.tenantIdColumn)
    ensures HasCode(issues, MissingUserScope) <==> e.deletion.CryptoShred? && !Given(e.userIdColumn)
    ensures HasCode(issues, DirectIdentifierInMart) <==>
      IsMart(e) && exists i :: 0 <= i < |e.fields| && IsExposed(e.fields[i])
    ensures HasCode(issues, ManualReviewRequired) <==>
      e.deletion.ManualReview? || exists i :: 0 <= i < |e.fields| && e.fields[i].handling.ReviewManually?
    ensures HasCode(issues, GhostScanDisabled) <==> !e.scanEnabled
    ensures status.Fail? <==>
      HasCode(issues, MissingTenantScope) || HasCode(issues, MissingUserScope)
      || HasCode(issues, DirectIdentifierInMart)
    ensures status.Warn? <==> !status.Fail? && HasCode(issues, ManualReviewRequired)
  {
    issues := EvaluateScopes(e);
    issues := EvaluateFields(e, issues);
    if !e.scanEnabled {
      issues := Push(issues, GhostScanDisabled, Info, None);
    }
    status := if Has(issues, Error) then Fail else if Has(issues, Warning) then Warn else Pass;
    ExposureIsOfFields(e);
  }

  method EvaluateScopes(e: Entry) returns (issues: seq<Issue>)
    ensures HasCode(issues, MissingTenantScope) <==> e.system == "bigquery" && !Given(e.tenantIdColumn)
    ensures HasCode(issues, MissingUserScope) <==> e.deletion.CryptoShred? && !Given(e.userIdColumn)
    ensures HasCode(issues, ManualReviewRequired) <==> e.deletion.ManualReview?
    ensures !HasCode(issues, DirectIdentifierInMart) && !HasCode(issues, GhostScanDisabled)
    ensures Has(issues, Error) <==> HasCode(issues, MissingTenantScope) || HasCode(issues, MissingUserScope)
    ensures Has(issues, Warning) <==> e.deletion.ManualReview?
  {
    issues := [];
    if e.system == "bigquery" && !Given(e.tenantIdColumn) {
      issues := Push(issues, MissingTenantScope, Error, None);
    }
    if e.deletion.CryptoShred? && !Given(e.userIdColumn) {
      issues := Push(issues, MissingUserScope, Error, None);
    }
    if e.deletion.ManualReview? {
      issues := Push(issues, ManualReviewRequired, Warning, None);
    }
  }

  lemma ExposureIsOfFields(e: Entry)
    ensures (exists i :: 0 <= i < |e.fields| && ExposesIdentifier(e, e.fields[i]))
      <==> IsMart(e) && exists i :: 0 <= i < |e.fields| && IsExposed(e.fields[i])
  {
    if i :| IsMart(e) && 0 <= i < |e.fields| && IsExposed(e.fields[i]) {
      assert ExposesIdentifier(e, e.fields[i]);
    }
    if i :| 0 <= i < |e.fields| && ExposesIdentifier(e, e.fields[i]) {
      assert IsExposed(e.fields[i]);
    }
  }

  method EvaluateFields(e: Entry, before: seq<Issue>) returns (issues: seq<Issue>)
    ensures Has(issues, Error) <==>
      Has(before, Error) || (IsMart(e) && exists i :: 0 <= i < |e.fields| && IsExposed(e.fields[i]))
    ensures Has(issues, Warning) <==>
      Has(before, Warning) || exists i :: 0 <= i < |e.fields| && e.fields[i].handling.ReviewManually?
    ensures HasCode(issues, DirectIdentifierInMart) <==>
      HasCode(before, DirectIdentifierInMart)
      || (IsMart(e) && exists i :: 0 <= i < |e.fields| && IsExposed(e.fields[i]))
    ensures HasCode(issues, ManualReviewRequired) <==>
      HasCode(before, ManualReviewRequired)
      || exists i :: 0 <= i < |e.fields| && e.fields[i].handling.ReviewManually?
    ensures forall c :: c != DirectIdentifierInMart && c != ManualReviewRequired ==>
      (HasCode(issues, c) <==> HasCode(before, c))
  {
    issues := before;
    var mart := IsMart(e);
    for n := 0 to |e.fields|
      invariant Has(issues, Error) <==>
        Has(before, Error) || (mart && exists i :: 0 <= i < n && IsExposed(e.fields[i]))
      invariant Has(issues, Warning) <==>
        Has(before, Warning) || exists i :: 0 <= i < n && e.fields[i].handling.ReviewManually?
      invariant HasCode(issues, DirectIdentifierInMart) <==>
        HasCode(before, DirectIdentifierInMart) || (mart && exists i :: 0 <= i < n && IsExposed(e.fields[i]))
      invariant HasCode(issues, ManualReviewRequired) <==>
        HasCode(before, ManualReviewRequired) || exists i :: 0 <= i < n && e.fields[i].handling.ReviewManually?
      invariant forall c :: c != DirectIdentifierInMart && c != ManualReviewRequired ==>
        (HasCode(issues, c) <==> HasCode(before, c))
    {
      var f := e.fields[n];
      if mart && f.classification.DirectIdentifier? && !f.handling.AllowAggregateOnly? {
        assert IsExposed(e.fields[n]);
        issues := Push(issues, DirectIdentifierInMart, Error, Some(f.name));
      }
      if f.handling.ReviewManually? {
        issues := Push(issues, ManualReviewRequired, Warning, Some(f.name));
      }
    }
  }
}
