/** Three-way comparison, and the lexicographic order of sequences: the order of a name's bytes and of a path's
    components.

    An order that is `Consistent` may tie distinct values; one that is `Total` ties only equal ones. The
    lexicographic order of a total order is total. */
module Orders {

  datatype Ordering = Less | Equal | Greater {
    function Reverse(): Ordering {
      match this
      case Less => Greater
      case Equal => Equal
      case Greater => Less
    }

    /** This order, or `next` where it is a tie. */
    function Then(next: Ordering): Ordering {
      if Equal? then next else this
    }
  }

  /** `cmp` orders every pair consistently: a total preorder, which may tie distinct values. */
  ghost predicate Consistent<T(!new)>(cmp: (T, T) -> Ordering) {
    && (forall a, b :: cmp(a, b) == cmp(b, a).Reverse())
    && (forall a, b, c :: cmp(a, b) != Greater && cmp(b, c) != Greater ==> cmp(a, c) != Greater)
  }

  /** `cmp` is consistent and ties only equal values. */
  ghost predicate Total<T(!new)>(cmp: (T, T) -> Ordering) {
    && Consistent(cmp)
    && (forall a, b :: cmp(a, b) == Equal ==> a == b)
  }

  function CompareInt(a: int, b: int): Ordering {
    if a < b then Less else if a == b then Equal else Greater
  }

  lemma CompareIntTotal()
    ensures Total(CompareInt)
  {}

  /** A strict step before or after a weak one is strict. */
  lemma StrictTransitive<T(!new)>(cmp: (T, T) -> Ordering, a: T, b: T, c: T)
    requires Consistent(cmp)
    requires cmp(a, b) != Greater && cmp(b, c) != Greater
    requires cmp(a, b) == Less || cmp(b, c) == Less
    ensures cmp(a, c) == Less
  {}

  /** The order of two sequences by their first difference, a prefix first. */
  function Lex<T>(cmp: (T, T) -> Ordering, a: seq<T>, b: seq<T>): Ordering {
    if a == [] then (if b == [] then Equal else Less)
    else if b == [] then Greater
    else cmp(a[0], b[0]).Then(Lex(cmp, a[1..], b[1..]))
  }

  lemma {:induction false} LexReverse<T(!new)>(cmp: (T, T) -> Ordering, a: seq<T>, b: seq<T>)
    requires Total(cmp)
    ensures Lex(cmp, a, b) == Lex(cmp, b, a).Reverse()
  {
    if a != [] && b != [] {
      LexReverse(cmp, a[1..], b[1..]);
      assert cmp(a[0], b[0]) == cmp(b[0], a[0]).Reverse();
    }
  }

  lemma {:induction false} LexTransitive<T(!new)>(cmp: (T, T) -> Ordering, a: seq<T>, b: seq<T>, c: seq<T>)
    requires Total(cmp)
    requires Lex(cmp, a, b) != Greater && Lex(cmp, b, c) != Greater
    ensures Lex(cmp, a, c) != Greater
  {
    if a != [] && b != [] && c != [] {
      assert cmp(a[0], c[0]) != Greater;
      if cmp(a[0], c[0]) == Equal {
        assert a[0] == c[0];
        assert cmp(b[0], c[0]) == cmp(c[0], b[0]).Reverse();
        LexTransitive(cmp, a[1..], b[1..], c[1..]);
      }
    }
  }

  lemma {:induction false} LexEqual<T(!new)>(cmp: (T, T) -> Ordering, a: seq<T>, b: seq<T>)
    requires Total(cmp)
    requires Lex(cmp, a, b) == Equal
    ensures a == b
  {
    if a != [] && b != [] {
      LexEqual(cmp, a[1..], b[1..]);
      assert a == [a[0]] + a[1..] && b == [b[0]] + b[1..];
    }
  }

  /** A prefix never sorts after what it begins, and comes strictly before anything longer. */
  lemma {:induction false} LexPrefix<T(!new)>(cmp: (T, T) -> Ordering, a: seq<T>, b: seq<T>)
    requires Total(cmp)
    requires a <= b
    ensures Lex(cmp, a, b) == if a == b then Equal else Less
  {
    if a != [] {
      assert cmp(a[0], a[0]) == cmp(a[0], a[0]).Reverse();
      LexPrefix(cmp, a[1..], b[1..]);
      assert a == [a[0]] + a[1..] && b == [b[0]] + b[1..];
    }
  }

  /** Two sequences that differ before either ends keep their order whatever is appended. */
  lemma {:induction false} LexExtend<T(!new)>(cmp: (T, T) -> Ordering, a: seq<T>, b: seq<T>, x: seq<T>, y: seq<T>)
    requires Total(cmp)
    requires Lex(cmp, a, b) == Less && !(a <= b)
    ensures Lex(cmp, a + x, b + y) == Less
  {
    if a != [] && b != [] {
      assert (a + x)[1..] == a[1..] + x && (b + y)[1..] == b[1..] + y;
      if cmp(a[0], b[0]) == Equal {
        assert a == [a[0]] + a[1..] && b == [b[0]] + b[1..];
        LexExtend(cmp, a[1..], b[1..], x, y);
      }
    }
  }

  /** What lies in order between a prefix and what it begins has that prefix too. */
  lemma {:induction false} LexBetween<T(!new)>(cmp: (T, T) -> Ordering, p: seq<T>, m: seq<T>, s: seq<T>)
    requires Total(cmp)
    requires p <= s
    requires Lex(cmp, p, m) != Greater && Lex(cmp, m, s) != Greater
    ensures p <= m
  {
    if p != [] {
      assert m != [];
      assert cmp(p[0], m[0]) != Greater && cmp(m[0], s[0]) != Greater;
      assert cmp(m[0], p[0]) == cmp(p[0], m[0]).Reverse();
      assert p[0] == m[0];
      LexBetween(cmp, p[1..], m[1..], s[1..]);
      assert p == [p[0]] + p[1..] && m == [m[0]] + m[1..];
    }
  }

  /** What two sequences begin with alike does not order them. */
  lemma {:induction false} LexCommon<T(!new)>(cmp: (T, T) -> Ordering, p: seq<T>, x: seq<T>, y: seq<T>)
    requires Total(cmp)
    ensures Lex(cmp, p + x, p + y) == Lex(cmp, x, y)
  {
    if p == [] {
      assert p + x == x && p + y == y;
    } else {
      assert (p + x)[1..] == p[1..] + x && (p + y)[1..] == p[1..] + y;
      assert cmp(p[0], p[0]) == cmp(p[0], p[0]).Reverse();
      LexCommon(cmp, p[1..], x, y);
    }
  }

  /** `a` comes before `b` by what they hold at `k`, the first place they differ, or ends there. */
  predicate DecidedAt<T(==,!new)>(cmp: (T, T) -> Ordering, a: seq<T>, b: seq<T>, k: nat) {
    && k <= |a| && k <= |b| && a[..k] == b[..k]
    && if k < |a| && k < |b| then cmp(a[k], b[k]) == Less else k == |a| < |b|
  }

  lemma {:induction false} LexLess<T(!new)>(cmp: (T, T) -> Ordering, a: seq<T>, b: seq<T>)
    requires Total(cmp)
    ensures Lex(cmp, a, b) == Less <==> exists k: nat :: DecidedAt(cmp, a, b, k)
  {
    if a == [] || b == [] {
      if b != [] {
        assert DecidedAt(cmp, a, b, 0);
      }
    } else {
      var (x, y) := (a[1..], b[1..]);
      assert a == [a[0]] + x && b == [b[0]] + y;
      assert cmp(a[0], a[0]) == cmp(a[0], a[0]).Reverse();
      LexLess(cmp, x, y);
      if cmp(a[0], b[0]) == Less {
        assert DecidedAt(cmp, a, b, 0);
      }
      if a[0] == b[0] {
        DecidedNext(cmp, a, b);
      }
    }
  }

  lemma DecidedNext<T(!new)>(cmp: (T, T) -> Ordering, a: seq<T>, b: seq<T>)
    requires a != [] && b != [] && a[0] == b[0] && cmp(a[0], b[0]) == Equal
    ensures (exists k: nat :: DecidedAt(cmp, a, b, k)) <==> exists k: nat :: DecidedAt(cmp, a[1..], b[1..], k)
  {
    forall k: nat | DecidedAt(cmp, a, b, k) ensures k > 0 && DecidedAt(cmp, a[1..], b[1..], k - 1) {
      assert k > 0;
      assert a[1..][..k - 1] == a[..k][1..] && b[1..][..k - 1] == b[..k][1..];
    }
    forall k: nat | DecidedAt(cmp, a[1..], b[1..], k) ensures DecidedAt(cmp, a, b, k + 1) {
      assert a[..k + 1] == [a[0]] + a[1..][..k] && b[..k + 1] == [b[0]] + b[1..][..k];
    }
  }
}
