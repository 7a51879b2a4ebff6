/**
 * The crypto-shred coverage score. Weights are multiples of one half, and are counted in halves
 * here, so the sums and the rounded quotient are exact.
 */
module Coverage {
  import opened Text
  import opened Filters
  import opened PiiEntries
  import opened PiiPolicy

  datatype State = Exposed | Partial | Protected

  datatype Item = Item(resource: string, state: State, weight: nat)

  datatype Finding = Finding(resource: string, columns: seq<string>)

  // ----- Weights, in halves -----

  function Sensitivity(c: Classification): nat {
    match c
    case DirectIdentifier => 6
    case Sensitive => 6
    case Contact => 4
    case QuasiIdentifier => 4
    case Behavioral => 2
    case SystemIdentifier => 1
  }

  function FieldsWeight(fields: seq<Field>): nat {
    if fields == [] then 0
    else FieldsWeight(fields[..|fields| - 1]) + Sensitivity(fields[|fields| - 1].classification)
  }

  function EntryWeight(e: Entry): (w: nat)
    ensures w >= 1
  {
    var sum := FieldsWeight(e.fields);
    if sum < 1 then 1 else sum
  }

  /** `sensitivity` is the estimate of a column's sensitivity from its name. */
  function ColumnsWeight(columns: seq<string>, sensitivity: string -> nat): nat {
    if columns == [] then 0
    else ColumnsWeight(columns[..|columns| - 1], sensitivity) + sensitivity(columns[|columns| - 1])
  }

  function DiscoveryWeight(f: Finding, sensitivity: string -> nat): (w: nat)
    ensures w >= 2
  {
    var sum := ColumnsWeight(f.columns, sensitivity);
    if sum < 2 then 2 else sum
  }

  // ----- Classification -----

  predicate ShredSafe(f: Field) {
    f.handling.Encrypt? || f.handling.Tokenize? || (f.classification.SystemIdentifier? && f.handling.HashSurrogate?)
  }

  /** The full crypto-shred guarantee. */
  predicate Guaranteed(e: Entry) {
    && e.fields != [] && (forall i :: 0 <= i < |e.fields| ==> ShredSafe(e.fields[i]))
    && e.deletion.CryptoShred? && Given(e.userIdColumn)
  }

  /** `classifyEntry`, pushing a reason for everything short of the guarantee. */
  method ClassifyEntry(e: Entry, status: PolicyStatus) returns (state: State, reasons: nat)
    ensures state == StateOf(e, status)
    ensures state.Protected? <==> reasons == 0
  {
    if status.Fail? { return Exposed, 1; }
    reasons := 0;
    var safe := |e.fields| > 0;
    for i := 0 to |e.fields|
      invariant safe <==> |e.fields| > 0 && forall k :: 0 <= k < i ==> ShredSafe(e.fields[k])
    {
      safe := safe && ShredSafe(e.fields[i]);
    }
    if !safe { reasons := reasons + 1; }
    if !e.deletion.CryptoShred? { reasons := reasons + 1; }
    if !Given(e.userIdColumn) { reasons := reasons + 1; }
    if status.Warn? { reasons := reasons + 1; }
    state := if reasons == 0 then Protected else Partial;
  }

  function StateOf(e: Entry, status: PolicyStatus): State {
    if status.Fail? then Exposed else if status.Pass? && Guaranteed(e) then Protected else Partial
  }

  /** Nothing of the field can be read once the key is gone, or it is a join key that says nothing. */
  predicate Unreadable(f: Field) {
    f.handling.Encrypt? || f.handling.Tokenize? || (f.classification.SystemIdentifier? && f.handling.HashSurrogate?)
  }

  /**
   * Under its own policy a resource counts as exposed exactly when that fails, and as protected exactly
   * when it has fields, all of them unreadable without the key, is shredded with the user's key, names the
   * user and in a warehouse the tenant, and shows no identifier in a mart.
   */
  lemma ProtectedExactlyWhen(e: Entry)
    ensures StateOf(e, StatusOf(e)).Protected? <==>
      && |e.fields| > 0 && (forall i :: 0 <= i < |e.fields| ==> Unreadable(e.fields[i]))
      && e.deletion.CryptoShred? && Given(e.userIdColumn) && (e.system == "bigquery" ==> Given(e.tenantIdColumn))
      && !(IsMart(e) && exists i :: 0 <= i < |e.fields| && IsExposed(e.fields[i]))
    ensures StateOf(e, StatusOf(e)).Exposed? <==> StatusOf(e).Fail?
  {
    ExposureIsOfFields(e);
    assert forall i :: 0 <= i < |e.fields| ==> (ShredSafe(e.fields[i]) <==> Unreadable(e.fields[i]));
  }

  // ----- The roll-up -----

  /** What is summed over the items: all weights, the weights in one state, or the items in one state. */
  datatype Measure = Weight | WeightOf(state: State) | CountOf(state: State)

  function Value(m: Measure, item: Item): nat {
    match m
    case Weight => item.weight
    case WeightOf(state) => if item.state == state then item.weight else 0
    case CountOf(state) => if item.state == state then 1 else 0
  }

  function RollFirst(items: seq<Item>, m: Measure, n: nat): nat
    requires n <= |items|
    decreases n
  {
    if n == 0 then 0 else RollFirst(items, m, n - 1) + Value(m, items[n - 1])
  }

  function Roll(items: seq<Item>, m: Measure): nat {
    RollFirst(items, m, |items|)
  }

  function Total(items: seq<Item>): nat {
    Roll(items, Weight)
  }

  function WeightIn(items: seq<Item>, state: State): nat {
    Roll(items, WeightOf(state))
  }

  /** `Math.round` of 100 * (protected + partial / 2) / total; 100 when there is nothing to cover. */
  function ScoreOf(protected: nat, partial: nat, total: nat): nat {
    if total == 0 then 100 else (100 * (2 * protected + partial) + total) / (2 * total)
  }

  function Score(items: seq<Item>): nat {
    ScoreOf(WeightIn(items, Protected), WeightIn(items, Partial), Total(items))
  }

  function Order(state: State): nat {
    match state case Exposed => 0 case Partial => 1 case Protected => 2
  }

  /** The comparator does not put `b` before `a`. */
  predicate InOrder(a: Item, b: Item) {
    Order(a.state) < Order(b.state) || (a.state == b.state && a.weight >= b.weight)
  }

  ghost predicate SortedBy<T>(items: seq<T>, r: (T, T) -> bool) {
    forall i, j :: 0 <= i < j < |items| ==> r(items[i], items[j])
  }

  ghost predicate Sorted(items: seq<Item>) {
    SortedBy(items, InOrder)
  }

  /** The comparator does not tell them apart. */
  function TiesWith(a: Item): Item -> bool {
    (b: Item) => a.state == b.state && a.weight == b.weight
  }

  /** Items that tie stay in their old order. */
  ghost predicate Stable(items: seq<Item>, sorted: seq<Item>) {
    forall a: Item :: Kept(sorted, TiesWith(a)) == Kept(items, TiesWith(a))
  }

  lemma InsertedSorted<T>(items: seq<T>, i: nat, item: T, r: (T, T) -> bool)
    requires i <= |items| && SortedBy(items, r)
    requires forall k :: 0 <= k < i ==> r(items[k], item)
    requires forall k :: i <= k < |items| ==> r(item, items[k])
    ensures SortedBy(items[..i] + [item] + items[i..], r)
  {
  }

  lemma InsertedMultiset<T>(items: seq<T>, i: nat, item: T)
    requires i <= |items|
    ensures multiset(items[..i] + [item] + items[i..]) == multiset(items) + multiset{item}
  {
    assert items == items[..i] + items[i..];
  }

  /** Behind everything that may stay in front. */
  method Insert(sorted: seq<Item>, item: Item) returns (r: seq<Item>)
    requires Sorted(sorted)
    ensures Sorted(r) && multiset(r) == multiset(sorted) + multiset{item}
    ensures Stable(sorted + [item], r)
  {
    var i := |sorted|;
    while i > 0 && !InOrder(sorted[i - 1], item)
      invariant 0 <= i <= |sorted|
      invariant forall k :: i <= k < |sorted| ==> InOrder(item, sorted[k]) && !InOrder(sorted[k], item)
    {
      i := i - 1;
    }
    forall k | 0 <= k < i ensures InOrder(sorted[k], item) {
      if k < i - 1 {
        InOrderTransitive(sorted[k], sorted[i - 1], item);
      }
    }
    InsertedSorted(sorted, i, item, InOrder);
    InsertedMultiset(sorted, i, item);
    r := sorted[..i] + [item] + sorted[i..];
    forall a: Item ensures Kept(r, TiesWith(a)) == Kept(sorted + [item], TiesWith(a)) {
      KeptInserted(sorted[..i], item, sorted[i..], TiesWith(a));
      assert sorted[..i] + sorted[i..] == sorted;
      KeptJoins(sorted, [item], TiesWith(a));
      KeptOne(item, TiesWith(a));
    }
  }

  /** Sorting one more item stably. */
  lemma StableExtends(items: seq<Item>, sorted: seq<Item>, item: Item, r: seq<Item>)
    requires Stable(items, sorted) && Stable(sorted + [item], r)
    ensures Stable(items + [item], r)
  {
    forall a: Item ensures Kept(r, TiesWith(a)) == Kept(items + [item], TiesWith(a)) {
      KeptJoins(sorted, [item], TiesWith(a));
      KeptJoins(items, [item], TiesWith(a));
    }
  }

  lemma InOrderTransitive(a: Item, b: Item, c: Item)
    requires InOrder(a, b) && InOrder(b, c)
    ensures InOrder(a, c)
  {
  }

  method SortItems(items: seq<Item>) returns (sorted: seq<Item>)
    ensures Sorted(sorted) && multiset(sorted) == multiset(items) && Stable(items, sorted)
  {
    sorted := [];
    for n := 0 to |items|
      invariant Sorted(sorted) && multiset(sorted) == multiset(items[..n]) && Stable(items[..n], sorted)
    {
      assert items[..n + 1] == items[..n] + [items[n]];
      var more := Insert(sorted, items[n]);
      StableExtends(items[..n], sorted, items[n], more);
      sorted := more;
    }
    assert items[..|items|] == items;
  }

  datatype Sums = Sums(protected: nat, partial: nat, exposed: nat, total: nat)

  datatype Report = Report(score: nat, counts: Sums, weights: Sums, items: seq<Item>)

  function Counts(items: seq<Item>): Sums {
    Sums(Roll(items, CountOf(Protected)), Roll(items, CountOf(Partial)), Roll(items, CountOf(Exposed)), |items|)
  }

  function Weights(items: seq<Item>): Sums {
    Sums(WeightIn(items, Protected), WeightIn(items, Partial), WeightIn(items, Exposed), Total(items))
  }

  method RollUp(items: seq<Item>) returns (counts: Sums, weights: Sums)
    ensures counts == Counts(items) && weights == Weights(items)
  {
    weights := Sums(0, 0, 0, 0);
    counts := Sums(0, 0, 0, |items|);
    for i := 0 to |items|
      invariant weights.total == RollFirst(items, Weight, i) && counts.total == |items|
      invariant weights.protected == RollFirst(items, WeightOf(Protected), i)
      invariant weights.partial == RollFirst(items, WeightOf(Partial), i)
      invariant weights.exposed == RollFirst(items, WeightOf(Exposed), i)
      invariant counts.protected == RollFirst(items, CountOf(Protected), i)
      invariant counts.partial == RollFirst(items, CountOf(Partial), i)
      invariant counts.exposed == RollFirst(items, CountOf(Exposed), i)
    {
      var item := items[i];
      weights := weights.(total := weights.total + item.weight);
      if item.state.Protected? {
        weights := weights.(protected := weights.protected + item.weight);
        counts := counts.(protected := counts.protected + 1);
      } else if item.state.Partial? {
        weights := weights.(partial := weights.partial + item.weight);
        counts := counts.(partial := counts.partial + 1);
      } else {
        weights := weights.(exposed := weights.exposed + item.weight);
        counts := counts.(exposed := counts.exposed + 1);
      }
    }
  }

  method ComputeCoverage(items: seq<Item>) returns (r: Report)
    ensures r.score == Score(items) && r.counts == Counts(items) && r.weights == Weights(items)
    ensures Sorted(r.items) && multiset(r.items) == multiset(items) && Stable(items, r.items)
  {
    var counts, weights := RollUp(items);
    var score := ScoreOf(weights.protected, weights.partial, weights.total);
    var sorted := SortItems(items);
    r := Report(score, counts, weights, sorted);
  }

  // ----- What is summed and how it is sorted -----

  function InState(state: State): Item -> bool {
    (item: Item) => item.state == state
  }

  /** The counts number the items in each state, and the weights are those of just these items. */
  lemma {:induction false} RollsAreOfState(items: seq<Item>, state: State, n: nat)
    requires n <= |items|
    ensures RollFirst(items, CountOf(state), n) == |KeepFirst(items, InState(state), n)|
    ensures RollFirst(items, WeightOf(state), n) == Total(KeepFirst(items, InState(state), n))
    decreases n
  {
    if n > 0 {
      RollsAreOfState(items, state, n - 1);
      if items[n - 1].state == state {
        TotalGrows(KeepFirst(items, InState(state), n - 1), items[n - 1]);
      } else {
        assert KeepFirst(items, InState(state), n) == KeepFirst(items, InState(state), n - 1);
      }
    }
  }

  /** The total weight is each item's own, added up. */
  lemma {:induction false} TotalGrows(items: seq<Item>, item: Item)
    ensures Total(items + [item]) == Total(items) + item.weight
    ensures Total([]) == 0
  {
    RollOfPrefix(items, [item], Weight, |items|);
  }

  /** In front what is exposed, at the end what is protected, and within a state the heavier first. */
  lemma SortedMeans(items: seq<Item>, i: nat, j: nat)
    requires Sorted(items) && i < j < |items|
    ensures items[j].state.Exposed? ==> items[i].state.Exposed?
    ensures items[i].state.Protected? ==> items[j].state.Protected?
    ensures items[i].state == items[j].state ==> items[i].weight >= items[j].weight
  {
    assert InOrder(items[i], items[j]);
  }

  /** A direct identifier or sensitive field weighs six halves, a contact or quasi-identifier four, and so on. */
  lemma FieldWeighs(f: Field)
    ensures FieldsWeight([f]) == match f.classification
      case DirectIdentifier => 6
      case Sensitive => 6
      case Contact => 4
      case QuasiIdentifier => 4
      case Behavioral => 2
      case SystemIdentifier => 1
  {
    assert [f][..0] == [];
  }

  /** Fields' weights add up, and an entry without fields weighs half a point. */
  lemma FieldWeightsAddUp(fields: seq<Field>, f: Field, e: Entry)
    ensures FieldsWeight(fields + [f]) == FieldsWeight(fields) + FieldsWeight([f])
    ensures EntryWeight(e) == if e.fields == [] then 1 else FieldsWeight(e.fields)
  {
    assert (fields + [f])[..|fields|] == fields && [f][..0] == [];
  }

  /** A finding weighs what its columns weigh together, and at least one point. */
  lemma ColumnWeightsAddUp(columns: seq<string>, c: string, sensitivity: string -> nat, resource: string)
    ensures ColumnsWeight(columns + [c], sensitivity) == ColumnsWeight(columns, sensitivity) + sensitivity(c)
    ensures var sum := ColumnsWeight(columns, sensitivity);
      DiscoveryWeight(Finding(resource, columns), sensitivity) == if sum < 2 then 2 else sum
  {
    assert (columns + [c])[..|columns|] == columns;
  }

  // ----- What the score promises -----

  lemma {:induction false} FirstSumsToTotal(items: seq<Item>, n: nat)
    requires n <= |items|
    ensures RollFirst(items, WeightOf(Protected), n) + RollFirst(items, WeightOf(Partial), n)
      + RollFirst(items, WeightOf(Exposed), n) == RollFirst(items, Weight, n)
    ensures RollFirst(items, CountOf(Protected), n) + RollFirst(items, CountOf(Partial), n)
      + RollFirst(items, CountOf(Exposed), n) == n
    decreases n
  {
    if n > 0 {
      FirstSumsToTotal(items, n - 1);
    }
  }

  /** The three weights sum to the total, and so do the three counts. */
  lemma SumsAddUp(items: seq<Item>)
    ensures var w := Weights(items); w.protected + w.partial + w.exposed == w.total
    ensures var c := Counts(items); c.protected + c.partial + c.exposed == c.total == |items|
  {
    FirstSumsToTotal(items, |items|);
  }

  lemma MulMonotone(a: nat, b: nat, d: nat)
    requires a <= b
    ensures a * d <= b * d
  {
  }

  /** A quotient reaches k exactly when the dividend reaches k divisors. */
  lemma DivReaches(a: nat, k: nat, d: nat)
    requires d > 0
    ensures a / d >= k <==> a >= k * d
  {
    var q := a / d;
    assert a == q * d + a % d;
    if q >= k { MulMonotone(k, q, d); } else { MulMonotone(q + 1, k, d); }
  }

  lemma DivMonotone(a: nat, b: nat, d: nat)
    requires a <= b && d > 0
    ensures a / d <= b / d
  {
    DivReaches(a, a / d, d);
    DivReaches(b, a / d, d);
  }

  /** The score is the protected share in percent, partial counting half, rounded to the nearest integer, halves up. */
  lemma ScoreIsRounded(items: seq<Item>)
    requires Total(items) > 0
    ensures var t, s := Total(items), Score(items);
      var earned := 2 * WeightIn(items, Protected) + WeightIn(items, Partial);
      2 * t * s - t <= 100 * earned < 2 * t * s + t
  {
  }

  /** The score never leaves 0..100, and is 100 exactly when at most half a percent of the weight is missing. */
  lemma ScoreIsAPercentage(items: seq<Item>)
    ensures 0 <= Score(items) <= 100
    ensures var missing := 2 * WeightIn(items, Exposed) + WeightIn(items, Partial);
      Score(items) == 100 <==> 100 * missing <= Total(items)
  {
    SumsAddUp(items);
    var t, earned := Total(items), 2 * WeightIn(items, Protected) + WeightIn(items, Partial);
    if t > 0 {
      var a := 100 * earned + t;
      assert earned <= 2 * t;
      DivReaches(a, 101, 2 * t);
      DivReaches(a, 100, 2 * t);
    }
  }

  lemma {:induction false} RollOfPrefix(a: seq<Item>, b: seq<Item>, m: Measure, n: nat)
    requires n <= |a|
    ensures RollFirst(a + b, m, n) == RollFirst(a, m, n)
    decreases n
  {
    if n > 0 {
      RollOfPrefix(a, b, m, n - 1);
    }
  }

  lemma {:induction false} RollOfSum(a: seq<Item>, b: seq<Item>, m: Measure, n: nat)
    requires n <= |b|
    ensures RollFirst(a + b, m, |a| + n) == Roll(a, m) + RollFirst(b, m, n)
    decreases n
  {
    if n == 0 {
      RollOfPrefix(a, b, m, |a|);
    } else {
      RollOfSum(a, b, m, n - 1);
    }
  }

  function Dropped(items: seq<Item>, i: nat): seq<Item>
    requires i < |items|
  {
    items[..i] + items[i + 1..]
  }

  lemma DroppedMultiset(items: seq<Item>, i: nat)
    requires i < |items|
    ensures multiset(Dropped(items, i)) == multiset(items) - multiset{items[i]}
  {
    assert items == items[..i] + ([items[i]] + items[i + 1..]);
  }

  lemma DroppedRoll(items: seq<Item>, i: nat, m: Measure)
    requires i < |items|
    ensures Roll(items, m) == Roll(Dropped(items, i), m) + Value(m, items[i])
  {
    var a, x, b := items[..i], [items[i]], items[i + 1..];
    assert Roll(items, m) == Roll(a, m) + Roll(x + b, m) by {
      RollOfSum(a, x + b, m, |x + b|);
      assert items == a + (x + b);
    }
    RollOfSum(x, b, m, |b|);
    RollOfSum(a, b, m, |b|);
    assert RollFirst(x, m, 0) == 0;
  }

  /** No sum over the items depends on their order. */
  lemma {:induction false} OrderDoesNotMatter(items: seq<Item>, reordered: seq<Item>, m: Measure)
    requires multiset(items) == multiset(reordered)
    ensures Roll(items, m) == Roll(reordered, m)
    decreases |items|
  {
    assert |multiset(items)| == |items| && |multiset(reordered)| == |reordered|;
    if items != [] {
      assert items[0] in multiset(reordered);
      var j :| 0 <= j < |reordered| && reordered[j] == items[0];
      DroppedMultiset(items, 0);
      DroppedMultiset(reordered, j);
      OrderDoesNotMatter(Dropped(items, 0), Dropped(reordered, j), m);
      DroppedRoll(items, 0, m);
      DroppedRoll(reordered, j, m);
    }
  }

  /** The score does not depend on the order of the items. */
  lemma ScoreIgnoresOrder(items: seq<Item>, reordered: seq<Item>)
    requires multiset(items) == multiset(reordered)
    ensures Score(items) == Score(reordered)
  {
    OrderDoesNotMatter(items, reordered, WeightOf(Protected));
    OrderDoesNotMatter(items, reordered, WeightOf(Partial));
    OrderDoesNotMatter(items, reordered, Weight);
  }

  /** Item by item the same weight and a state no worse. */
  ghost predicate Improves(before: seq<Item>, after: seq<Item>) {
    && |before| == |after|
    && forall i :: 0 <= i < |before| ==>
         after[i].weight == before[i].weight && Order(after[i].state) >= Order(before[i].state)
  }

  lemma {:induction false} EarnedGrows(before: seq<Item>, after: seq<Item>, n: nat)
    requires Improves(before, after) && n <= |before|
    ensures RollFirst(before, Weight, n) == RollFirst(after, Weight, n)
    ensures 2 * RollFirst(before, WeightOf(Protected), n) + RollFirst(before, WeightOf(Partial), n)
      <= 2 * RollFirst(after, WeightOf(Protected), n) + RollFirst(after, WeightOf(Partial), n)
    decreases n
  {
    if n > 0 {
      EarnedGrows(before, after, n - 1);
      assert after[n - 1].weight == before[n - 1].weight && Order(after[n - 1].state) >= Order(before[n - 1].state);
    }
  }

  /** Improving items never lowers the score. */
  lemma ImprovingNeverLowersTheScore(before: seq<Item>, after: seq<Item>)
    requires Improves(before, after)
    ensures Score(before) <= Score(after)
  {
    EarnedGrows(before, after, |before|);
    var t := Total(before);
    if t > 0 {
      DivMonotone(100 * (2 * WeightIn(before, Protected) + WeightIn(before, Partial)) + t,
                  100 * (2 * WeightIn(after, Protected) + WeightIn(after, Partial)) + t, 2 * t);
    }
  }

  // ----- Items from entries and findings -----

  predicate Declared(entries: seq<Entry>, resource: string) {
    exists i :: 0 <= i < |entries| && entries[i].resource == resource
  }

  function ItemOf(f: Finding, sensitivity: string -> nat): Item {
    Item(f.resource, Exposed, DiscoveryWeight(f, sensitivity))
  }

  function Undeclared(entries: seq<Entry>, discovery: seq<Finding>, sensitivity: string -> nat, n: nat): seq<Item>
    requires n <= |discovery|
    decreases n
  {
    if n == 0 then []
    else
      var f := discovery[n - 1];
      Undeclared(entries, discovery, sensitivity, n - 1)
      + if Declared(entries, f.resource) then [] else [ItemOf(f, sensitivity)]
  }

  /** `toCoverageItems`: declared resources by their own state, undeclared findings as exposed. */
  method ToCoverageItems(entries: seq<Entry>, discovery: seq<Finding>, sensitivity: string -> nat)
      returns (items: seq<Item>)
    ensures |items| >= |entries|
    ensures forall i :: 0 <= i < |entries| ==>
      items[i] == Item(entries[i].resource, StateOf(entries[i], StatusOf(entries[i])), EntryWeight(entries[i]))
    ensures items[|entries|..] == Undeclared(entries, discovery, sensitivity, |discovery|)
  {
    items := [];
    for i := 0 to |entries|
      invariant |items| == i
      invariant forall k :: 0 <= k < i ==>
        items[k] == Item(entries[k].resource, StateOf(entries[k], StatusOf(entries[k])), EntryWeight(entries[k]))
    {
      var status, issues := EvaluateEntry(entries[i]);
      var state, reasons := ClassifyEntry(entries[i], status);
      items := items + [Item(entries[i].resource, state, EntryWeight(entries[i]))];
    }
    for i := 0 to |discovery|
      invariant |items| >= |entries| && items[|entries|..] == Undeclared(entries, discovery, sensitivity, i)
      invariant forall k :: 0 <= k < |entries| ==>
        items[k] == Item(entries[k].resource, StateOf(entries[k], StatusOf(entries[k])), EntryWeight(entries[k]))
    {
      if !Declared(entries, discovery[i].resource) {
        items := items + [ItemOf(discovery[i], sensitivity)];
      }
    }
  }

  /** A finding is counted, as exposed, exactly when no declared entry already covers its resource. */
  lemma {:induction false} FindingCountsExactlyWhen(entries: seq<Entry>, discovery: seq<Finding>,
                                                    sensitivity: string -> nat, n: nat, item: Item)
    requires n <= |discovery|
    ensures item in Undeclared(entries, discovery, sensitivity, n) <==>
      (&& item.state.Exposed? && !Declared(entries, item.resource)
       && exists k :: 0 <= k < n && ItemOf(discovery[k], sensitivity) == item)
    decreases n
  {
    if n > 0 {
      FindingCountsExactlyWhen(entries, discovery, sensitivity, n - 1, item);
      assert item == ItemOf(discovery[n - 1], sensitivity) ==> item.resource == discovery[n - 1].resource;
    }
  }

  function NotCovered(entries: seq<Entry>): Finding -> bool {
    (f: Finding) => forall i :: 0 <= i < |entries| ==> entries[i].resource != f.resource
  }

  /** The undeclared items are the findings no entry covers, in their order, each exposed at its own weight. */
  lemma {:induction false} UndeclaredAre(entries: seq<Entry>, discovery: seq<Finding>, sensitivity: string -> nat,
                                         n: nat)
    requires n <= |discovery|
    ensures var items := Undeclared(entries, discovery, sensitivity, n);
      var kept := KeepFirst(discovery, NotCovered(entries), n);
      |items| == |kept|
      && forall k :: 0 <= k < |kept| ==>
           items[k] == Item(kept[k].resource, Exposed, DiscoveryWeight(kept[k], sensitivity))
    decreases n
  {
    if n > 0 {
      UndeclaredAre(entries, discovery, sensitivity, n - 1);
    }
  }

  /** No resource is counted both as declared and as found. */
  lemma {:induction false} NoResourceCountsTwice(entries: seq<Entry>, discovery: seq<Finding>,
                                                 sensitivity: string -> nat, i: nat, item: Item)
    requires i < |entries| && item in Undeclared(entries, discovery, sensitivity, |discovery|)
    ensures item.resource != entries[i].resource
  {
    FindingCountsExactlyWhen(entries, discovery, sensitivity, |discovery|, item);
  }
}
