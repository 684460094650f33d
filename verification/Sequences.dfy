/** Repeats in sequences. */
module Sequences {
  ghost predicate Distinct<T>(s: seq<T>) {
    forall i, j :: 0 <= i < j < |s| ==> s[i] != s[j]
  }

  /** No element repeats exactly when each counts once. */
  lemma {:induction false} DistinctByCount<T>(s: seq<T>)
    ensures Distinct(s) <==> forall x :: multiset(s)[x] <= 1
  {
    if s != [] {
      var n := |s| - 1;
      assert s == s[..n] + [s[n]];
      DistinctByCount(s[..n]);
      assert s[n] in multiset(s[..n]) <==> s[n] in s[..n];
      if forall x :: multiset(s)[x] <= 1 {
        assert multiset(s)[s[n]] <= 1;
        assert forall x :: multiset(s[..n])[x] <= multiset(s)[x];
      }
    }
  }

  /** Without the element at one place. */
  lemma WithoutOne<T>(s: seq<T>, k: nat)
    requires k < |s|
    ensures multiset(s) == multiset(s[..k] + s[k + 1..]) + multiset{s[k]}
  {
    assert s == s[..k] + [s[k]] + s[k + 1..];
  }
}
