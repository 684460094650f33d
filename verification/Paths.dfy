/** Names as their bytes, and paths as the names of their components, each in the order of
    the first they differ in. */
module Paths {
  import opened Orders

  type Byte = b: int | 0 <= b < 256
  type Name = seq<Byte>
  type Path = seq<Name>

  /** Names sort by their bytes. */
  function CompareNames(a: Name, b: Name): Ordering {
    Lex<int>(CompareInt, a, b)
  }

  /** Paths sort by component (crates/scanner/src/discover.rs:173-178). */
  function ComparePaths(a: Path, b: Path): Ordering {
    Lex(CompareNames, a, b)
  }

  lemma NamesTotal()
    ensures Total(CompareNames)
  {
    CompareIntTotal();
    forall a: Name, b: Name ensures CompareNames(a, b) == CompareNames(b, a).Reverse() {
      LexReverse<int>(CompareInt, a, b);
    }
    forall a: Name, b: Name, c: Name | CompareNames(a, b) != Greater && CompareNames(b, c) != Greater ensures CompareNames(a, c) != Greater {
      LexTransitive<int>(CompareInt, a, b, c);
    }
    forall a: Name, b: Name | CompareNames(a, b) == Equal ensures a == b {
      LexEqual<int>(CompareInt, a, b);
    }
  }

  lemma PathsTotal()
    ensures Total(ComparePaths)
  {
    NamesTotal();
    forall a, b ensures ComparePaths(a, b) == ComparePaths(b, a).Reverse() {
      LexReverse(CompareNames, a, b);
    }
    forall a, b, c | ComparePaths(a, b) != Greater && ComparePaths(b, c) != Greater ensures ComparePaths(a, c) != Greater {
      LexTransitive(CompareNames, a, b, c);
    }
    forall a, b | ComparePaths(a, b) == Equal ensures a == b {
      LexEqual(CompareNames, a, b);
    }
  }

  /** The first byte two names differ in, at `k`, is the lesser of `a`, or `a` ends there. */
  predicate NameBefore(a: Name, b: Name, k: nat) {
    && k <= |a| && k <= |b| && a[..k] == b[..k]
    && if k < |a| && k < |b| then a[k] < b[k] else k == |a| < |b|
  }

  lemma NameOrder(a: Name, b: Name)
    ensures CompareNames(a, b) == Less <==> exists k: nat :: NameBefore(a, b, k)
  {
    CompareIntTotal();
    LexLess<int>(CompareInt, a, b);
    forall k: nat ensures NameBefore(a, b, k) <==> DecidedAt<int>(CompareInt, a, b, k) {
    }
  }

  /** The first component two paths differ in comes before in `a`, by its bytes, or `a` ends there. */
  ghost predicate PathBefore(a: Path, b: Path, k: nat) {
    && k <= |a| && k <= |b| && a[..k] == b[..k]
    && if k < |a| && k < |b| then exists j: nat :: NameBefore(a[k], b[k], j) else k == |a| < |b|
  }

  lemma PathOrder(a: Path, b: Path)
    ensures ComparePaths(a, b) == Less <==> exists k: nat :: PathBefore(a, b, k)
  {
    NamesTotal();
    LexLess(CompareNames, a, b);
    forall k: nat ensures PathBefore(a, b, k) <==> DecidedAt(CompareNames, a, b, k) {
      hide CompareNames;
      if k < |a| && k < |b| {
        NameOrder(a[k], b[k]);
      }
    }
  }

  function Parent(path: Path): Path
    requires path != []
  {
    path[..|path| - 1]
  }

  /** A folder comes before everything under it. */
  lemma FolderFirst(dir: Path, path: Path)
    requires dir < path
    ensures ComparePaths(dir, path) == Less
  {
    NamesTotal();
    LexPrefix(CompareNames, dir, path);
  }

  /** Everything in one folder comes before everything in a folder beside it that sorts after. */
  lemma SiblingsApart(dir: Path, a: Name, b: Name, pa: Path, pb: Path)
    requires CompareNames(a, b) == Less && dir + [a] <= pa && dir + [b] <= pb
    ensures ComparePaths(pa, pb) == Less
  {
    NamesTotal();
    var x, y := dir + [a], dir + [b];
    LexCommon(CompareNames, dir, [a], [b]);
    assert x[|dir|] == a && y[|dir|] == b;
    LexSelf(a);
    LexExtend(CompareNames, x, y, pa[|x|..], pb[|y|..]);
    assert pa == x + pa[|x|..] && pb == y + pb[|y|..];
  }

  lemma LexSelf(a: Name)
    ensures CompareNames(a, a) == Equal
  {
    NamesTotal();
  }

  /** A folder before `cursor`, and not on the way to it, holds nothing after it or on that way. */
  lemma DoneBelow(dir: Path, cursor: Path, path: Path)
    requires ComparePaths(dir, cursor) == Less && !(dir <= cursor) && dir <= path
    ensures ComparePaths(path, cursor) == Less && !(path <= cursor)
  {
    NamesTotal();
    LexExtend(CompareNames, dir, cursor, path[|dir|..], []);
    assert path == dir + path[|dir|..] && cursor + [] == cursor;
    assert path <= cursor ==> dir <= cursor;
  }
}
