/** What the libraries' sorts promise: the elements in order.

    By a total order there is one such result, whatever order the elements came in, so a sort that leaves ties as
    it finds them and one that does not give the same. */
module Sorting {
  import opened Orders
  import opened Sequences

  ghost predicate SortedBy<T(!new)>(cmp: (T, T) -> Ordering, s: seq<T>) {
    forall i, j :: 0 <= i < j < |s| ==> cmp(s[i], s[j]) != Greater
  }

  ghost predicate StrictlySortedBy<T(!new)>(cmp: (T, T) -> Ordering, s: seq<T>) {
    forall i, j :: 0 <= i < j < |s| ==> cmp(s[i], s[j]) == Less
  }

  function Insert<T>(cmp: (T, T) -> Ordering, x: T, s: seq<T>): (r: seq<T>)
    ensures |r| == |s| + 1
  {
    if s == [] then [x]
    else if cmp(x, s[0]) == Greater then [s[0]] + Insert(cmp, x, s[1..])
    else [x] + s
  }

  /** `s` sorted by `cmp`. */
  function Sort<T>(cmp: (T, T) -> Ordering, s: seq<T>): (r: seq<T>)
    ensures |r| == |s|
  {
    if s == [] then [] else Insert(cmp, s[0], Sort(cmp, s[1..]))
  }

  lemma {:induction false} InsertMultiset<T>(cmp: (T, T) -> Ordering, x: T, s: seq<T>)
    ensures multiset(Insert(cmp, x, s)) == multiset(s) + multiset{x}
  {
    if s != [] && cmp(x, s[0]) == Greater {
      InsertMultiset(cmp, x, s[1..]);
      assert s == [s[0]] + s[1..];
    }
  }

  /** `a` comes no later than anything in `s`. */
  ghost predicate First<T(!new)>(cmp: (T, T) -> Ordering, a: T, s: seq<T>) {
    forall i :: 0 <= i < |s| ==> cmp(a, s[i]) != Greater
  }

  lemma SortedTail<T(!new)>(cmp: (T, T) -> Ordering, a: T, s: seq<T>)
    ensures SortedBy(cmp, [a] + s) <==> First(cmp, a, s) && SortedBy(cmp, s)
  {
    var t := [a] + s;
    if SortedBy(cmp, t) {
      forall i | 0 <= i < |s| ensures cmp(a, s[i]) != Greater {
        assert t[i + 1] == s[i] && t[0] == a;
      }
      forall i, j | 0 <= i < j < |s| ensures cmp(s[i], s[j]) != Greater {
        assert t[i + 1] == s[i] && t[j + 1] == s[j];
      }
    }
  }

  lemma {:induction false} InsertFirst<T(!new)>(cmp: (T, T) -> Ordering, a: T, x: T, s: seq<T>)
    requires cmp(a, x) != Greater && First(cmp, a, s)
    ensures First(cmp, a, Insert(cmp, x, s))
  {
    if s != [] && cmp(x, s[0]) == Greater {
      assert First(cmp, a, s[1..]);
      InsertFirst(cmp, a, x, s[1..]);
    }
  }

  lemma {:induction false} InsertSorted<T(!new)>(cmp: (T, T) -> Ordering, x: T, s: seq<T>)
    requires Consistent(cmp) && SortedBy(cmp, s)
    ensures SortedBy(cmp, Insert(cmp, x, s))
  {
    if s != [] {
      assert s == [s[0]] + s[1..];
      SortedTail(cmp, s[0], s[1..]);
      if cmp(x, s[0]) == Greater {
        InsertSorted(cmp, x, s[1..]);
        assert cmp(x, s[0]) == cmp(s[0], x).Reverse();
        InsertFirst(cmp, s[0], x, s[1..]);
        SortedTail(cmp, s[0], Insert(cmp, x, s[1..]));
      } else {
        assert First(cmp, x, s) by {
          assert forall i :: 0 < i < |s| ==> s[i] == s[1..][i - 1];
        }
        SortedTail(cmp, x, s);
      }
    }
  }

  /** Sorting gives the same elements, in order. */
  lemma {:induction false} SortSorts<T(!new)>(cmp: (T, T) -> Ordering, s: seq<T>)
    requires Consistent(cmp)
    ensures SortedBy(cmp, Sort(cmp, s))
    ensures multiset(Sort(cmp, s)) == multiset(s)
  {
    if s != [] {
      SortSorts(cmp, s[1..]);
      InsertSorted(cmp, s[0], Sort(cmp, s[1..]));
      InsertMultiset(cmp, s[0], Sort(cmp, s[1..]));
      assert s == [s[0]] + s[1..];
    }
  }

  /** Two sorted sequences of the same elements are the same sequence. */
  lemma {:induction false} SortedUnique<T(!new)>(cmp: (T, T) -> Ordering, a: seq<T>, b: seq<T>)
    requires Total(cmp)
    requires SortedBy(cmp, a) && SortedBy(cmp, b)
    requires multiset(a) == multiset(b)
    ensures a == b
  {
    if a == [] {
      assert |multiset(b)| == 0;
    } else {
      assert |multiset(a)| == |a| && |multiset(b)| == |b|;
      HeadLeast(cmp, a, b);
      HeadLeast(cmp, b, a);
      assert cmp(a[0], b[0]) == cmp(b[0], a[0]).Reverse();
      TailSorted(cmp, a);
      TailSorted(cmp, b);
      assert a[0] == b[0];
      hide SortedBy, Total;
      SortedUnique(cmp, a[1..], b[1..]);
    }
  }

  lemma TailSorted<T(!new)>(cmp: (T, T) -> Ordering, a: seq<T>)
    requires a != [] && SortedBy(cmp, a)
    ensures SortedBy(cmp, a[1..]) && multiset(a[1..]) == multiset(a) - multiset{a[0]} && a == [a[0]] + a[1..]
  {
    assert a == [a[0]] + a[1..];
  }

  lemma HeadLeast<T(!new)>(cmp: (T, T) -> Ordering, a: seq<T>, b: seq<T>)
    requires Total(cmp)
    requires a != [] && b != [] && SortedBy(cmp, a)
    requires multiset(a) == multiset(b)
    ensures cmp(a[0], b[0]) != Greater
  {
    assert b[0] in multiset(b);
    var k :| 0 <= k < |a| && a[k] == b[0];
    if k == 0 {
      assert cmp(a[0], a[0]) == cmp(a[0], a[0]).Reverse();
    }
  }

  /** A sequence already in order is its own sorting. */
  lemma SortOfSorted<T(!new)>(cmp: (T, T) -> Ordering, s: seq<T>)
    requires Total(cmp) && SortedBy(cmp, s)
    ensures Sort(cmp, s) == s
  {
    SortSorts(cmp, s);
    SortedUnique(cmp, Sort(cmp, s), s);
  }

  /** Sorting does not depend on the order its input came in. */
  lemma SortOfPermutation<T(!new)>(cmp: (T, T) -> Ordering, a: seq<T>, b: seq<T>)
    requires Total(cmp) && multiset(a) == multiset(b)
    ensures Sort(cmp, a) == Sort(cmp, b)
  {
    SortSorts(cmp, a);
    SortSorts(cmp, b);
    SortedUnique(cmp, Sort(cmp, a), Sort(cmp, b));
  }

  // ---- Distinct elements ----

  lemma DistinctStrictly<T(!new)>(cmp: (T, T) -> Ordering, s: seq<T>)
    requires Total(cmp) && SortedBy(cmp, s) && Distinct(s)
    ensures StrictlySortedBy(cmp, s)
  {
    forall i, j | 0 <= i < j < |s| ensures cmp(s[i], s[j]) == Less {
      assert cmp(s[i], s[j]) != Greater && s[i] != s[j];
    }
  }

  /** Distinct elements sort strictly. */
  lemma SortDistinct<T(!new)>(cmp: (T, T) -> Ordering, s: seq<T>)
    requires Total(cmp) && Distinct(s)
    ensures StrictlySortedBy(cmp, Sort(cmp, s)) && multiset(Sort(cmp, s)) == multiset(s)
    ensures forall x :: x in Sort(cmp, s) <==> x in s
  {
    SortSorts(cmp, s);
    DistinctByCount(s);
    var sorted := Sort(cmp, s);
    hide Sort;
    DistinctByCount(sorted);
    DistinctStrictly(cmp, sorted);
    forall x ensures x in sorted <==> x in s {
      assert x in multiset(sorted) <==> x in multiset(s);
    }
  }

  /** Two strictly sorted sequences of the same elements are the same, even if the order ties others. */
  lemma {:induction false} StrictUnique<T(!new)>(cmp: (T, T) -> Ordering, a: seq<T>, b: seq<T>)
    requires Consistent(cmp) && StrictlySortedBy(cmp, a) && StrictlySortedBy(cmp, b) && multiset(a) == multiset(b)
    ensures a == b
  {
    if a == [] {
      assert |multiset(b)| == 0;
    } else {
      assert |multiset(a)| == |a| && |multiset(b)| == |b|;
      StrictHead(cmp, a, b);
      StrictHead(cmp, b, a);
      assert cmp(a[0], b[0]) == cmp(b[0], a[0]).Reverse();
      StrictTail(cmp, a);
      StrictTail(cmp, b);
      hide StrictlySortedBy, Consistent;
      assert a[0] == b[0];
      StrictUnique(cmp, a[1..], b[1..]);
    }
  }

  lemma StrictTail<T(!new)>(cmp: (T, T) -> Ordering, a: seq<T>)
    requires a != [] && StrictlySortedBy(cmp, a)
    ensures StrictlySortedBy(cmp, a[1..]) && multiset(a[1..]) == multiset(a) - multiset{a[0]} && a == [a[0]] + a[1..]
  {
    assert a == [a[0]] + a[1..];
  }

  lemma StrictHead<T(!new)>(cmp: (T, T) -> Ordering, a: seq<T>, b: seq<T>)
    requires a != [] && b != [] && StrictlySortedBy(cmp, a) && multiset(a) == multiset(b)
    ensures a[0] == b[0] || cmp(a[0], b[0]) == Less
  {
    assert b[0] in multiset(b);
    var k :| 0 <= k < |a| && a[k] == b[0];
  }
}
