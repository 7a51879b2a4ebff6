/** Filtering a sequence, as `filter` does. */
module Filters {

  ghost predicate Distinct<T>(xs: seq<T>) {
    forall i, j :: 0 <= i < j < |xs| ==> xs[i] != xs[j]
  }

  /** `findIndex` from `i` on; the length when there is none. */
  function FirstFrom<T>(xs: seq<T>, matches: T -> bool, i: nat): (r: nat)
    requires i <= |xs|
    ensures i <= r <= |xs| && (r < |xs| ==> matches(xs[r]))
    ensures forall k :: i <= k < r ==> !matches(xs[k])
    decreases |xs| - i
  {
    if i == |xs| || matches(xs[i]) then i else FirstFrom(xs, matches, i + 1)
  }

  /** What `filter` keeps of the first `n` elements. */
  function KeepFirst<T>(xs: seq<T>, keep: T -> bool, n: nat): seq<T>
    requires n <= |xs|
    decreases n
  {
    if n == 0 then [] else KeepFirst(xs, keep, n - 1) + if keep(xs[n - 1]) then [xs[n - 1]] else []
  }

  lemma {:induction false} KeepCounts<T>(xs: seq<T>, keep: T -> bool, n: nat, x: T)
    requires n <= |xs|
    ensures multiset(KeepFirst(xs, keep, n))[x] == if keep(x) then multiset(xs[..n])[x] else 0
    decreases n
  {
    if n > 0 {
      KeepCounts(xs, keep, n - 1, x);
      assert xs[..n] == xs[..n - 1] + [xs[n - 1]];
      assert multiset(xs[..n]) == multiset(xs[..n - 1]) + multiset{xs[n - 1]};
      var before, last := KeepFirst(xs, keep, n - 1), if keep(xs[n - 1]) then [xs[n - 1]] else [];
      assert multiset(before + last) == multiset(before) + multiset(last);
    }
  }

  lemma {:induction false} KeptWereThere<T>(xs: seq<T>, keep: T -> bool, n: nat, k: nat)
    requires n <= |xs| && k < |KeepFirst(xs, keep, n)|
    ensures var x := KeepFirst(xs, keep, n)[k]; keep(x) && exists i :: 0 <= i < n && xs[i] == x
    decreases n
  {
    var before := KeepFirst(xs, keep, n - 1);
    if k < |before| {
      KeptWereThere(xs, keep, n - 1, k);
      assert KeepFirst(xs, keep, n)[k] == before[k];
    } else {
      assert KeepFirst(xs, keep, n)[k] == xs[n - 1];
    }
  }

  lemma {:induction false} KeptStayDistinct<T>(xs: seq<T>, keep: T -> bool, n: nat)
    requires n <= |xs| && Distinct(xs)
    ensures Distinct(KeepFirst(xs, keep, n))
    decreases n
  {
    if n > 0 {
      var before := KeepFirst(xs, keep, n - 1);
      KeptStayDistinct(xs, keep, n - 1);
      forall k | 0 <= k < |before| ensures before[k] != xs[n - 1] {
        KeptWereThere(xs, keep, n - 1, k);
      }
    }
  }

  function Kept<T>(xs: seq<T>, keep: T -> bool): seq<T> {
    KeepFirst(xs, keep, |xs|)
  }

  lemma {:induction false} KeptConcat<T>(a: seq<T>, b: seq<T>, keep: T -> bool, n: nat)
    requires n <= |a| + |b|
    ensures KeepFirst(a + b, keep, n)
      == if n <= |a| then KeepFirst(a, keep, n) else Kept(a, keep) + KeepFirst(b, keep, n - |a|)
    decreases n
  {
    if n > 0 {
      KeptConcat(a, b, keep, n - 1);
    }
  }

  lemma {:induction false} NoneKept<T>(xs: seq<T>, keep: T -> bool, n: nat)
    requires n <= |xs| && forall k :: 0 <= k < |xs| ==> !keep(xs[k])
    ensures KeepFirst(xs, keep, n) == []
    decreases n
  {
    if n > 0 {
      NoneKept(xs, keep, n - 1);
    }
  }

  lemma KeptJoins<T>(a: seq<T>, b: seq<T>, keep: T -> bool)
    ensures Kept(a + b, keep) == Kept(a, keep) + Kept(b, keep)
  {
    KeptConcat(a, b, keep, |a| + |b|);
  }

  lemma KeptOne<T>(x: T, keep: T -> bool)
    ensures Kept([x], keep) == if keep(x) then [x] else []
  {
    assert KeepFirst([x], keep, 0) == [];
  }

  /** An element put in behind all that are kept with it comes last among them. */
  lemma KeptInserted<T>(a: seq<T>, x: T, b: seq<T>, keep: T -> bool)
    requires keep(x) ==> forall k :: 0 <= k < |b| ==> !keep(b[k])
    ensures Kept(a + [x] + b, keep) == Kept(a + b, keep) + if keep(x) then [x] else []
  {
    KeptJoins(a + [x], b, keep);
    KeptJoins(a, [x], keep);
    KeptJoins(a, b, keep);
    KeptOne(x, keep);
    if keep(x) {
      NoneKept(b, keep, |b|);
    }
  }

  lemma {:induction false} KeptIsKept<T>(xs: seq<T>, keep: T -> bool, n: nat, i: nat)
    requires i < n <= |xs| && keep(xs[i])
    ensures exists k :: 0 <= k < |KeepFirst(xs, keep, n)| && KeepFirst(xs, keep, n)[k] == xs[i]
    decreases n
  {
    var before := KeepFirst(xs, keep, n - 1);
    if i < n - 1 {
      KeptIsKept(xs, keep, n - 1, i);
      var k :| 0 <= k < |before| && before[k] == xs[i];
      assert KeepFirst(xs, keep, n)[k] == xs[i];
    } else {
      assert KeepFirst(xs, keep, n)[|before|] == xs[i];
    }
  }
}
