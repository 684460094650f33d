/** Units of scanning work (crates/scanner/src/scope.rs), and how a queue coalesces them
    (crates/scanner/src/queue.rs). */
module Scopes {
  import opened Wrappers
  import opened Orders
  import opened Sorting
  import opened Paths

  /** Of a scope's folder, its own files or those of its subfolders too. */
  datatype Depth = OneFolder | Subtree

  datatype Scope = Scope(root: Path, path: Path, depth: Depth)

  predicate Covers(scope: Scope, other: Scope) {
    scope.root == other.root &&
    match scope.depth
    case Subtree => scope.path <= other.path
    case OneFolder => other.depth == OneFolder && other.path == scope.path
  }

  /** Whether `file` is one the scope visits. */
  predicate ContainsFile(scope: Scope, file: Path) {
    match scope.depth
    case Subtree => file != scope.path && scope.path <= file
    case OneFolder => file != [] && Parent(file) == scope.path
  }

  const SOME_NAME: Name := [97]

  /** Within one root, covering is visiting every file the other visits. */
  lemma CoversExactly(scope: Scope, other: Scope)
    requires scope.root == other.root
    ensures Covers(scope, other) <==> forall file :: ContainsFile(other, file) ==> ContainsFile(scope, file)
  {
    if Covers(scope, other) {
      forall file | ContainsFile(other, file) ensures ContainsFile(scope, file) {
        assert file != [] && other.path <= file && (scope.depth.Subtree? ==> scope.path <= other.path);
      }
    } else {
      var near := other.path + [SOME_NAME];
      var far := near + [SOME_NAME];
      assert Parent(near) == other.path && Parent(far) == near;
      assert ContainsFile(other, near) && (other.depth.Subtree? ==> ContainsFile(other, far));
      if scope.depth.Subtree? && scope.path < near {
        PrefixOfParent(scope.path, other.path, SOME_NAME);
      }
    }
  }

  lemma PrefixOfParent(p: Path, parent: Path, name: Name)
    requires p < parent + [name]
    ensures p <= parent
  {
    assert p == (parent + [name])[..|p|] == parent[..|p|];
  }

  /** What a scope visits, a scope that covers it visits. */
  lemma CoveringVisits(scope: Scope, other: Scope, file: Path)
    requires Covers(scope, other) && ContainsFile(other, file)
    ensures ContainsFile(scope, file)
  {
    CoversExactly(scope, other);
  }

  // ---- The order scopes sort in ----

  /** By root, then path, a subtree before a single folder. */
  function CompareScopes(a: Scope, b: Scope): Ordering {
    ComparePaths(a.root, b.root)
    .Then(ComparePaths(a.path, b.path))
    .Then(CompareInt(if a.depth.Subtree? then 0 else 1, if b.depth.Subtree? then 0 else 1))
  }

  lemma ScopesTotal()
    ensures Total(CompareScopes)
  {
    PathsTotal();
    forall a, b ensures CompareScopes(a, b) == CompareScopes(b, a).Reverse() {
      assert ComparePaths(a.root, b.root) == ComparePaths(b.root, a.root).Reverse();
      assert ComparePaths(a.path, b.path) == ComparePaths(b.path, a.path).Reverse();
    }
    forall a, b, c | CompareScopes(a, b) != Greater && CompareScopes(b, c) != Greater ensures CompareScopes(a, c) != Greater {
      ScopesTransitive(a, b, c);
    }
    forall a, b | CompareScopes(a, b) == Equal ensures a == b {
      assert a.root == b.root && a.path == b.path;
    }
  }

  lemma ScopesTransitive(a: Scope, b: Scope, c: Scope)
    requires CompareScopes(a, b) != Greater && CompareScopes(b, c) != Greater
    ensures CompareScopes(a, c) != Greater
  {
    PathsTotal();
    assert ComparePaths(a.root, c.root) != Greater;
    if ComparePaths(a.root, c.root) == Equal {
      assert ComparePaths(b.root, c.root) == ComparePaths(c.root, b.root).Reverse();
      assert a.root == b.root == c.root;
      assert ComparePaths(a.path, c.path) != Greater;
      if ComparePaths(a.path, c.path) == Equal {
        assert ComparePaths(b.path, c.path) == ComparePaths(c.path, b.path).Reverse();
        assert a.path == b.path == c.path;
      }
    }
  }

  lemma PathEqual(p: Path)
    ensures ComparePaths(p, p) == Equal
  {
    PathsTotal();
  }

  /** A scope sorts no later than what it covers. */
  lemma CoversFirst(a: Scope, b: Scope)
    requires Covers(a, b)
    ensures CompareScopes(a, b) != Greater
  {
    NamesTotal();
    PathEqual(a.root);
    LexPrefix(CompareNames, a.path, b.path);
  }

  /** Whatever sorts between a scope and one it covers, it covers too. */
  lemma CoversBetween(a: Scope, m: Scope, b: Scope)
    requires Covers(a, b)
    requires CompareScopes(a, m) != Greater && CompareScopes(m, b) != Greater
    ensures Covers(a, m)
  {
    PathsTotal();
    NamesTotal();
    assert ComparePaths(m.root, a.root) == ComparePaths(a.root, m.root).Reverse();
    assert m.root == a.root;
    PathEqual(a.root);
    LexBetween(CompareNames, a.path, m.path, b.path);
    if a.depth.OneFolder? {
      assert ComparePaths(m.path, a.path) == ComparePaths(a.path, m.path).Reverse();
      assert m.path == a.path;
      PathEqual(a.path);
    }
  }

  /** A scope that covers one sorting no later is that one. */
  lemma CoversBack(a: Scope, b: Scope)
    requires Covers(a, b) && CompareScopes(b, a) != Greater
    ensures a == b && Covers(b, a)
  {
    ScopesTotal();
    CoversFirst(a, b);
    assert CompareScopes(a, b) == CompareScopes(b, a).Reverse();
  }

  lemma TiesCover(a: Scope, b: Scope)
    requires CompareScopes(a, b) == Equal
    ensures Covers(a, b)
  {
    ScopesTotal();
  }

  // ---- Coalescing ----

  /** What is kept of the first `i` scopes: each the last one kept does not cover. */
  function Kept(sorted: seq<Scope>, i: nat): seq<Scope>
    requires i <= |sorted|
  {
    if i == 0 then []
    else
      var out := Kept(sorted, i - 1);
      if out != [] && Covers(out[|out| - 1], sorted[i - 1]) then out else out + [sorted[i - 1]]
  }

  /** In order, each scope not covered by the one kept just before. */
  function Coalesced(scopes: seq<Scope>): seq<Scope> {
    var sorted := Sort(CompareScopes, scopes);
    Kept(sorted, |sorted|)
  }

  method CoalesceScopes(scopes: seq<Scope>) returns (out: seq<Scope>)
    ensures out == Coalesced(scopes)
  {
    var sorted := Sort(CompareScopes, scopes);
    out := [];
    for i := 0 to |sorted|
      invariant out == Kept(sorted, i)
    {
      var s := sorted[i];
      if out == [] || !Covers(out[|out| - 1], s) {
        out := out + [s];
      }
    }
  }

  ghost predicate NoneCovers(scopes: seq<Scope>) {
    forall i, j :: 0 <= i < |scopes| && 0 <= j < |scopes| && i != j ==> !Covers(scopes[i], scopes[j])
  }

  ghost predicate UpTo(scopes: seq<Scope>, s: Scope) {
    forall i :: 0 <= i < |scopes| ==> CompareScopes(scopes[i], s) != Greater
  }

  /** If any scope kept covers the next, the last one kept does. */
  lemma OnlyTheLast(out: seq<Scope>, s: Scope, i: nat)
    requires SortedBy(CompareScopes, out) && NoneCovers(out) && UpTo(out, s)
    requires i < |out| && Covers(out[i], s)
    ensures i == |out| - 1
  {
    if i < |out| - 1 {
      CoversBetween(out[i], out[|out| - 1], s);
    }
  }

  /** A scope kept because the last one does not cover it covers none of those, nor they it. */
  lemma KeepsApart(out: seq<Scope>, s: Scope)
    requires SortedBy(CompareScopes, out) && NoneCovers(out) && UpTo(out, s)
    requires out == [] || !Covers(out[|out| - 1], s)
    ensures NoneCovers(out + [s])
  {
    forall i | 0 <= i < |out| ensures !Covers(out[i], s) && !Covers(s, out[i]) {
      if Covers(out[i], s) {
        OnlyTheLast(out, s, i);
      }
      if Covers(s, out[i]) {
        CoversBack(s, out[i]);
      }
    }
  }

  lemma {:induction false} KeptApart(sorted: seq<Scope>, i: nat)
    requires SortedBy(CompareScopes, sorted) && i <= |sorted|
    ensures SortedBy(CompareScopes, Kept(sorted, i)) && NoneCovers(Kept(sorted, i))
    ensures forall s :: s in Kept(sorted, i) ==> exists k :: 0 <= k < i && sorted[k] == s
  {
    if i > 0 {
      KeptApart(sorted, i - 1);
      var out, s := Kept(sorted, i - 1), sorted[i - 1];
      forall j | 0 <= j < |out| ensures CompareScopes(out[j], s) != Greater {
        assert out[j] in out;
        var k :| 0 <= k < i - 1 && sorted[k] == out[j];
      }
      if out == [] || !Covers(out[|out| - 1], s) {
        KeepsApart(out, s);
      }
    }
  }

  lemma {:induction false} KeptCovers(sorted: seq<Scope>, i: nat, k: nat)
    requires k < i <= |sorted|
    ensures exists s :: s in Kept(sorted, i) && Covers(s, sorted[k])
  {
    if k < i - 1 {
      KeptCovers(sorted, i - 1, k);
      var s :| s in Kept(sorted, i - 1) && Covers(s, sorted[k]);
      assert s in Kept(sorted, i);
    } else {
      assert Covers(sorted[k], sorted[k]);
      var out := Kept(sorted, i);
      assert out[|out| - 1] in out;
    }
  }

  /** Coalesced scopes are sorted, and none covers another: comparing with only the last one kept is
      enough. */
  lemma CoalescedApart(scopes: seq<Scope>)
    ensures StrictlySortedBy(CompareScopes, Coalesced(scopes)) && NoneCovers(Coalesced(scopes))
  {
    var sorted := Sort(CompareScopes, scopes);
    var out := Coalesced(scopes);
    ScopesTotal();
    SortSorts(CompareScopes, scopes);
    KeptApart(sorted, |sorted|);
    forall i, j | 0 <= i < j < |out| ensures CompareScopes(out[i], out[j]) == Less {
      if CompareScopes(out[i], out[j]) == Equal {
        TiesCover(out[i], out[j]);
      }
    }
  }

  /** A coalesced scope is one of those given. */
  lemma CoalescedGiven(scopes: seq<Scope>, s: Scope)
    requires s in Coalesced(scopes)
    ensures s in scopes
  {
    var sorted := Sort(CompareScopes, scopes);
    ScopesTotal();
    SortSorts(CompareScopes, scopes);
    KeptApart(sorted, |sorted|);
    assert s in multiset(sorted);
  }

  /** Each scope given is covered by a coalesced one. */
  lemma CoalescedCovers(scopes: seq<Scope>, s: Scope) returns (c: Scope)
    requires s in scopes
    ensures c in Coalesced(scopes) && Covers(c, s)
  {
    var sorted := Sort(CompareScopes, scopes);
    ScopesTotal();
    SortSorts(CompareScopes, scopes);
    assert s in multiset(sorted);
    var k :| 0 <= k < |sorted| && sorted[k] == s;
    KeptCovers(sorted, |sorted|, k);
    c :| c in Kept(sorted, |sorted|) && Covers(c, sorted[k]);
  }

  /** Whether some scope visits `file` of `root`. */
  ghost predicate Visited(scopes: seq<Scope>, root: Path, file: Path) {
    exists s :: s in scopes && s.root == root && ContainsFile(s, file)
  }

  /** Coalescing changes nothing about which files are visited. */
  lemma CoalescedVisits(scopes: seq<Scope>, root: Path, file: Path)
    ensures Visited(Coalesced(scopes), root, file) <==> Visited(scopes, root, file)
  {
    if Visited(scopes, root, file) {
      var s :| s in scopes && s.root == root && ContainsFile(s, file);
      var c := CoalescedCovers(scopes, s);
      CoveringVisits(c, s, file);
    }
    if Visited(Coalesced(scopes), root, file) {
      var s :| s in Coalesced(scopes) && s.root == root && ContainsFile(s, file);
      CoalescedGiven(scopes, s);
    }
  }

  // ---- The retry a queue holds ----

  datatype Trigger = Initial | Watch | Scheduled | Manual | Reconfigure | Restore

  /** Scopes to scan again from `due` on. */
  datatype Retry = Retry(due: int, trigger: Trigger, scopes: seq<Scope>)

  class Queue {
    var retry: Option<Retry>

    constructor ()
      ensures retry == None
    {
      retry := None;
    }

    /** After it a retry holds these scopes, coalesced with those of one there was, whose time and trigger it then
        has; with none before, those given. */
    method RetryLater(trigger: Trigger, scopes: seq<Scope>, due: int)
      modifies this`retry
      ensures retry.Some?
      ensures retry.value ==
              if old(retry).Some?
              then old(retry).value.(scopes := Coalesced(old(retry).value.scopes + scopes))
              else Retry(due, trigger, Coalesced(scopes))
    {
      match retry
      case Some(waiting) =>
        var together := CoalesceScopes(waiting.scopes + scopes);
        retry := Some(waiting.(scopes := together));
      case None =>
        var these := CoalesceScopes(scopes);
        retry := Some(Retry(due, trigger, these));
    }
  }

  /** However many suspended scans a retry takes in, it holds exactly the files of all of them. */
  lemma RetryVisits(waiting: seq<Scope>, scopes: seq<Scope>, root: Path, file: Path)
    ensures Visited(Coalesced(waiting + scopes), root, file)
            <==> Visited(waiting, root, file) || Visited(scopes, root, file)
  {
    CoalescedVisits(waiting + scopes, root, file);
    assert forall s :: s in waiting + scopes <==> s in waiting || s in scopes;
  }
}
