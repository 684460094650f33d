/** The resumable directory walk (crates/scanner/src/discover.rs). */
module Walks {
  import opened Wrappers
  import opened Orders
  import opened Sorting
  import opened Paths
  import opened Scopes

  /** What is at a path while a walk runs: a folder with the folders the excludes leave in it, by
      name, and its audio files in whatever order they are listed, one that cannot be listed, or
      nothing to list. */
  datatype Node = Gone | Unreadable | Listed(folders: seq<Entry>, audio: seq<Name>)
  datatype Entry = Entry(name: Name, node: Node)

  /** A listing gives its folders sorted, each name once. */
  ghost predicate Valid(node: Node) {
    node.Listed? ==>
      && (forall i, j :: 0 <= i < j < |node.folders| ==> CompareNames(node.folders[i].name, node.folders[j].name) == Less)
      && (forall i :: 0 <= i < |node.folders| ==> Valid(node.folders[i].node))
  }

  /** An item of a walk: a folder with its subfolders and its audio files, sorted, `listed` if it was there; or a
      failure. */
  datatype Item =
    | Directory(path: Path, listed: bool, folders: seq<Name>, audio: seq<Name>)
    | Failed(path: Path)

  datatype Position = Done | Ancestor | After

  /** A folder is on the way to the cursor, or is the cursor; or it is done with, or still to come. */
  function CursorPosition(dir: Path, resumeAfter: Option<Path>): Position {
    match resumeAfter
    case None => After
    case Some(cursor) =>
      if dir <= cursor then Ancestor
      else if ComparePaths(dir, cursor) == Less then Done
      else After
  }

  function FolderNames(node: Node): (names: seq<Name>)
    ensures node.Listed? ==> |names| == |node.folders|
  {
    if node.Listed? then seq(|node.folders|, i requires 0 <= i < |node.folders| => node.folders[i].name) else []
  }

  /** What a walk yields for `node`, at `dir`, once it is listed or found gone. */
  function Listing(dir: Path, node: Node): (item: Item)
    ensures item.Directory? && item.path == dir
  {
    Directory(dir, node.Listed?, FolderNames(node), if node.Listed? then Sort(CompareNames, node.audio) else [])
  }

  // ---- What a walk of a tree yields ----

  /** The walk of `node`, at `dir`, in sorted pre-order, from after the cursor. */
  ghost function Visit(dir: Path, node: Node, depth: Depth, resumeAfter: Option<Path>): seq<Item>
    decreases node, 1
  {
    var position := CursorPosition(dir, resumeAfter);
    if position.Done? then []
    else if node.Unreadable? then [Failed(dir)]
    else
      (if position.Ancestor? then [] else [Listing(dir, node)])
      + (if depth.Subtree? then VisitFrom(dir, node, 0, resumeAfter) else [])
  }

  /** The walk of the folders of `node` from the one at `i` on. */
  ghost function VisitFrom(dir: Path, node: Node, i: nat, resumeAfter: Option<Path>): seq<Item>
    requires node.Listed? ==> i <= |node.folders|
    decreases node, 0, if node.Listed? then |node.folders| - i else 0
  {
    if !node.Listed? || i == |node.folders| then []
    else
      Visit(dir + [node.folders[i].name], node.folders[i].node, Subtree, resumeAfter)
      + VisitFrom(dir, node, i + 1, resumeAfter)
  }

  // ---- The code ----

  /** The folder named `name` in `node`. */
  function Child(node: Node, name: Name): Node {
    if node.Listed? then ChildFrom(node.folders, name, 0) else Gone
  }

  function ChildFrom(folders: seq<Entry>, name: Name, i: nat): Node
    requires i <= |folders|
    decreases |folders| - i
  {
    if i == |folders| then Gone
    else if folders[i].name == name then folders[i].node
    else ChildFrom(folders, name, i + 1)
  }

  /** What is at the path `under` below `node`. */
  function Find(node: Node, under: Path): Node
    decreases |under|
  {
    if under == [] then node else Child(Find(node, Parent(under)), under[|under| - 1])
  }

  lemma {:induction false} ChildFound(folders: seq<Entry>, k: nat, i: nat)
    requires i <= k < |folders|
    requires forall a, b :: 0 <= a < b < |folders| ==> CompareNames(folders[a].name, folders[b].name) == Less
    ensures ChildFrom(folders, folders[k].name, i) == folders[k].node
    decreases k - i
  {
    if i < k {
      if folders[i].name == folders[k].name {
        LexSelf(folders[i].name);
      }
      ChildFound(folders, k, i + 1);
    }
  }

  /** What a walk is of: the folder its scope names, what is under it, unchanged while the walk runs,
      how deep it goes, whether it is in an excluded folder, and where it resumes. */
  datatype Setup = Setup(scope: Path, tree: Node, depth: Depth, excluded: bool, resumeAfter: Option<Path>)

  /** What a listing of `dir` finds. */
  function NodeAt(s: Setup, dir: Path): Node
    requires s.scope <= dir
  {
    if s.excluded then Gone else Find(s.tree, dir[|s.scope|..])
  }

  /** A directory a walk can have on its stack. */
  ghost predicate Pushable(s: Setup, dir: Path) {
    s.scope <= dir && Valid(NodeAt(s, dir))
  }

  ghost predicate Stacked(s: Setup, stack: seq<Path>) {
    forall i :: 0 <= i < |stack| ==> Pushable(s, stack[i])
  }

  /** What is still to come while the first `n` of `stack` are to be visited, the last first. */
  ghost function ToCome(s: Setup, stack: seq<Path>, n: nat): seq<Item>
    requires n <= |stack| && Stacked(s, stack)
  {
    if n == 0 then []
    else
      assert Pushable(s, stack[n - 1]);
      Visit(stack[n - 1], NodeAt(s, stack[n - 1]), s.depth, s.resumeAfter) + ToCome(s, stack, n - 1)
  }

  /** How many folders are in the first `n` of `stack`, and under them. */
  ghost function Weights(s: Setup, stack: seq<Path>, n: nat): nat
    requires n <= |stack| && Stacked(s, stack)
  {
    if n == 0 then 0
    else
      assert Pushable(s, stack[n - 1]);
      Weight(NodeAt(s, stack[n - 1])) + Weights(s, stack, n - 1)
  }

  ghost function Weight(node: Node): nat
    decreases node, 1
  {
    1 + WeightFrom(node, 0)
  }

  ghost function WeightFrom(node: Node, i: nat): nat
    requires node.Listed? ==> i <= |node.folders|
    decreases node, 0, if node.Listed? then |node.folders| - i else 0
  {
    if !node.Listed? || i == |node.folders| then 0
    else Weight(node.folders[i].node) + WeightFrom(node, i + 1)
  }

  /** The paths of the folders of `node`, at `dir`, from the one at `i` on, the first last. */
  function Pushed(dir: Path, node: Node, i: nat): (paths: seq<Path>)
    requires node.Listed? && i <= |node.folders|
    ensures |paths| == |node.folders| - i
    decreases |node.folders| - i
  {
    if i == |node.folders| then [] else Pushed(dir, node, i + 1) + [dir + [node.folders[i].name]]
  }

  class Walk {
    const setup: Setup
    /** The folders to come, the next of them last. */
    var stack: seq<Path>

    ghost predicate Good()
      reads this
    {
      Stacked(setup, stack)
    }

    ghost function Remaining(): seq<Item>
      requires Good()
      reads this
    {
      ToCome(setup, stack, |stack|)
    }

    constructor (setup: Setup)
      requires Valid(setup.tree)
      ensures Good() && this.setup == setup
      ensures Remaining() == Walked(setup)
    {
      this.setup := setup;
      stack := [setup.scope];
      new;
      assert setup.scope[|setup.scope|..] == [];
      assert Pushable(setup, setup.scope);
      assert ToCome(setup, stack, 0) == [];
    }

    /** Takes the first of the items that remain, or none if none do. */
    method Next() returns (item: Option<Item>)
      requires Good()
      modifies this`stack
      ensures Good()
      ensures match item
              case None => old(Remaining()) == [] && Remaining() == []
              case Some(i) => old(Remaining()) == [i] + Remaining()
    {
      hide Visit, VisitFrom, Weight, Stacked, Pushed, FolderNames, Listing, CursorPosition;
      ghost var all := Remaining();
      while stack != []
        invariant Good() && Remaining() == all
        decreases Weights(setup, stack, |stack|)
      {
        var dir := stack[|stack| - 1];
        PopLast(setup, stack);
        stack := stack[..|stack| - 1];
        ghost var rest := stack;
        var position := CursorPosition(dir, setup.resumeAfter);
        SkipDone(setup, dir);
        if position.Done? {
          continue;
        }
        var node := NodeAt(setup, dir);
        FailUnreadable(setup, dir);
        if node.Unreadable? {
          return Some(Failed(dir));
        }
        Descend(setup, rest, dir);
        if setup.depth.Subtree? && node.Listed? {
          stack := stack + Pushed(dir, node, 0);
        }
        if position.Ancestor? {
          continue;
        }
        return Some(Listing(dir, node));
      }
      return None;
    }

    /** Every item the walk has still to yield, in order. */
    method Drain() returns (items: seq<Item>)
      requires Good()
      modifies this`stack
      ensures items == old(Remaining())
    {
      items := [];
      ghost var all := Remaining();
      while true
        invariant Good() && items + Remaining() == all
        decreases |Remaining()|
      {
        hide ToCome;
        var item := Next();
        if item.None? {
          break;
        }
        Associate(items, [item.value], Remaining());
        items := items + [item.value];
      }
    }
  }

  /** All a walk yields. */
  ghost function Walked(s: Setup): seq<Item> {
    Visit(s.scope, if s.excluded then Gone else s.tree, s.depth, s.resumeAfter)
  }

  // ---- Why the stack holds what is to come ----

  lemma {:induction false} ToComeAgrees(s: Setup, a: seq<Path>, b: seq<Path>, n: nat)
    requires n <= |a| && n <= |b| && forall i :: 0 <= i < n ==> a[i] == b[i]
    requires Stacked(s, a) && Stacked(s, b)
    ensures ToCome(s, a, n) == ToCome(s, b, n)
    ensures Weights(s, a, n) == Weights(s, b, n)
  {
    if n > 0 {
      ToComeAgrees(s, a, b, n - 1);
    }
  }

  /** The last of the stack comes next. */
  lemma PopLast(s: Setup, stack: seq<Path>)
    requires stack != [] && Stacked(s, stack)
    ensures var (rest, dir) := (stack[..|stack| - 1], stack[|stack| - 1]);
            && Stacked(s, rest) && Pushable(s, dir)
            && ToCome(s, stack, |stack|) == Visit(dir, NodeAt(s, dir), s.depth, s.resumeAfter) + ToCome(s, rest, |rest|)
            && Weights(s, stack, |stack|) == Weight(NodeAt(s, dir)) + Weights(s, rest, |rest|)
  {
    var rest := stack[..|stack| - 1];
    assert Pushable(s, stack[|stack| - 1]);
    assert Stacked(s, rest) by {
      assert forall i :: 0 <= i < |rest| ==> rest[i] == stack[i];
    }
    ToComeAgrees(s, stack, rest, |rest|);
  }

  /** A folder of a listed directory is what the listing says. */
  lemma FolderAt(s: Setup, dir: Path, i: nat)
    requires Pushable(s, dir) && NodeAt(s, dir).Listed? && i < |NodeAt(s, dir).folders|
    ensures var entry := NodeAt(s, dir).folders[i];
            var path := dir + [entry.name];
            Pushable(s, path) && NodeAt(s, path) == entry.node
  {
    var entry := NodeAt(s, dir).folders[i];
    var under := dir[|s.scope|..];
    assert (dir + [entry.name])[|s.scope|..] == under + [entry.name];
    assert Parent(under + [entry.name]) == under;
    ChildFound(NodeAt(s, dir).folders, i, 0);
  }

  /** Pushing a directory's folders from the one at `i` on, the first last, puts their walks next, in
      order. */
  ghost predicate PutsNext(s: Setup, rest: seq<Path>, dir: Path, i: nat)
    requires Pushable(s, dir) && NodeAt(s, dir).Listed? && i <= |NodeAt(s, dir).folders| && Stacked(s, rest)
  {
    var (node, stack) := (NodeAt(s, dir), rest + Pushed(dir, NodeAt(s, dir), i));
    && Stacked(s, stack)
    && ToCome(s, stack, |stack|) == VisitFrom(dir, node, i, s.resumeAfter) + ToCome(s, rest, |rest|)
    && Weights(s, stack, |stack|) == WeightFrom(node, i) + Weights(s, rest, |rest|)
  }

  lemma {:induction false} PushAll(s: Setup, rest: seq<Path>, dir: Path, i: nat)
    requires Pushable(s, dir) && NodeAt(s, dir).Listed? && i <= |NodeAt(s, dir).folders|
    requires Stacked(s, rest) && s.depth.Subtree?
    ensures PutsNext(s, rest, dir, i)
    decreases |NodeAt(s, dir).folders| - i
  {
    if i == |NodeAt(s, dir).folders| {
      PushNone(s, rest, dir);
    } else {
      hide PutsNext;
      PushAll(s, rest, dir, i + 1);
      PushBefore(s, rest, dir, i);
    }
  }

  lemma PushNone(s: Setup, rest: seq<Path>, dir: Path)
    requires Pushable(s, dir) && NodeAt(s, dir).Listed? && Stacked(s, rest)
    ensures PutsNext(s, rest, dir, |NodeAt(s, dir).folders|)
  {
    hide ToCome, Weights, Stacked, NodeAt, Visit, Weight, Valid;
    var node := NodeAt(s, dir);
    var i := |node.folders|;
    assert rest + Pushed(dir, node, i) == rest;
    assert VisitFrom(dir, node, i, s.resumeAfter) + ToCome(s, rest, |rest|) == ToCome(s, rest, |rest|);
    assert WeightFrom(node, i) == 0;
  }

  lemma PushBefore(s: Setup, rest: seq<Path>, dir: Path, i: nat)
    requires Pushable(s, dir) && NodeAt(s, dir).Listed? && i < |NodeAt(s, dir).folders|
    requires Stacked(s, rest) && s.depth.Subtree? && PutsNext(s, rest, dir, i + 1)
    ensures PutsNext(s, rest, dir, i)
  {
    FolderAt(s, dir, i);
    hide ToCome, Weights, Stacked, NodeAt, Visit, Weight, Valid;
    var node := NodeAt(s, dir);
    var below, path := rest + Pushed(dir, node, i + 1), dir + [node.folders[i].name];
    Associate(rest, Pushed(dir, node, i + 1), [path]);
    PushOne(s, below, path);
    Associate(Visit(path, node.folders[i].node, Subtree, s.resumeAfter), VisitFrom(dir, node, i + 1, s.resumeAfter),
              ToCome(s, rest, |rest|));
  }

  lemma Associate<T>(a: seq<T>, b: seq<T>, c: seq<T>)
    ensures a + (b + c) == (a + b) + c
  {}

  lemma PushOne(s: Setup, below: seq<Path>, path: Path)
    requires Stacked(s, below) && Pushable(s, path)
    ensures var stack := below + [path];
            && Stacked(s, stack)
            && ToCome(s, stack, |stack|) == Visit(path, NodeAt(s, path), s.depth, s.resumeAfter) + ToCome(s, below, |below|)
            && Weights(s, stack, |stack|) == Weight(NodeAt(s, path)) + Weights(s, below, |below|)
  {
    var stack := below + [path];
    assert Stacked(s, stack) by {
      assert forall i :: 0 <= i < |stack| ==> stack[i] == if i < |below| then below[i] else path;
    }
    ToComeAgrees(s, stack, below, |below|);
  }

  lemma SkipDone(s: Setup, dir: Path)
    requires Pushable(s, dir)
    ensures CursorPosition(dir, s.resumeAfter).Done? ==> Visit(dir, NodeAt(s, dir), s.depth, s.resumeAfter) == []
    ensures Weight(NodeAt(s, dir)) > 0
  {}

  lemma FailUnreadable(s: Setup, dir: Path)
    requires Pushable(s, dir)
    ensures !CursorPosition(dir, s.resumeAfter).Done? && NodeAt(s, dir).Unreadable? ==>
              Visit(dir, NodeAt(s, dir), s.depth, s.resumeAfter) == [Failed(dir)]
  {}

  /** Visiting a directory that can be listed pushes its folders, and yields it if it comes after the
      cursor. */
  lemma Descend(s: Setup, rest: seq<Path>, dir: Path)
    requires Pushable(s, dir) && Stacked(s, rest)
    requires !CursorPosition(dir, s.resumeAfter).Done? && !NodeAt(s, dir).Unreadable?
    ensures var node := NodeAt(s, dir);
            var stack := if s.depth.Subtree? && node.Listed? then rest + Pushed(dir, node, 0) else rest;
            var own := if CursorPosition(dir, s.resumeAfter).Ancestor? then []
                       else [Listing(dir, node)];
            && Stacked(s, stack)
            && Visit(dir, node, s.depth, s.resumeAfter) + ToCome(s, rest, |rest|) == own + ToCome(s, stack, |stack|)
            && Weights(s, stack, |stack|) < Weight(node) + Weights(s, rest, |rest|)
  {
    hide ToCome, Weights, Stacked, Pushed, VisitFrom, WeightFrom;
    var node := NodeAt(s, dir);
    var own := if CursorPosition(dir, s.resumeAfter).Ancestor? then []
               else [Listing(dir, node)];
    if s.depth.Subtree? {
      if node.Listed? {
        PushAll(s, rest, dir, 0);
        Associate(own, VisitFrom(dir, node, 0, s.resumeAfter), ToCome(s, rest, |rest|));
      } else {
        NoneFrom(dir, node, s.resumeAfter);
      }
    }
  }

  lemma NoneFrom(dir: Path, node: Node, resumeAfter: Option<Path>)
    requires !node.Listed?
    ensures VisitFrom(dir, node, 0, resumeAfter) == []
  {}

  // ---- What the walk promises ----

  /** Every item of a walk is at or under the directory it starts at. */
  lemma {:induction false} VisitUnder(dir: Path, node: Node, depth: Depth, resumeAfter: Option<Path>)
    ensures forall item :: item in Visit(dir, node, depth, resumeAfter) ==> dir <= item.path
    decreases node, 1
  {
    VisitFromUnder(dir, node, 0, resumeAfter);
  }

  lemma {:induction false} VisitFromUnder(dir: Path, node: Node, i: nat, resumeAfter: Option<Path>)
    requires node.Listed? ==> i <= |node.folders|
    ensures forall item :: item in VisitFrom(dir, node, i, resumeAfter) ==>
              dir <= item.path && exists k :: i <= k < |node.folders| && dir + [node.folders[k].name] <= item.path
    decreases node, 0, if node.Listed? then |node.folders| - i else 0
  {
    if node.Listed? && i < |node.folders| {
      var path := dir + [node.folders[i].name];
      VisitUnder(path, node.folders[i].node, Subtree, resumeAfter);
      VisitFromUnder(dir, node, i + 1, resumeAfter);
    }
  }

  /** Each item's path comes after those of all before it. */
  ghost predicate Increasing(items: seq<Item>) {
    forall i, j :: 0 <= i < j < |items| ==> ComparePaths(items[i].path, items[j].path) == Less
  }

  lemma IncreasingConcat(a: seq<Item>, b: seq<Item>)
    requires Increasing(a) && Increasing(b)
    requires forall x, y :: x in a && y in b ==> ComparePaths(x.path, y.path) == Less
    ensures Increasing(a + b)
  {
    forall i, j | 0 <= i < j < |a + b| ensures ComparePaths((a + b)[i].path, (a + b)[j].path) == Less {
      if i < |a| <= j {
        assert (a + b)[i] in a && (a + b)[j] in b;
      }
    }
  }

  /** A walk yields its directories in strictly increasing order by component, and so each once. */
  lemma {:induction false} VisitIncreasing(dir: Path, node: Node, depth: Depth, resumeAfter: Option<Path>)
    requires Valid(node)
    ensures Increasing(Visit(dir, node, depth, resumeAfter))
    decreases node, 1
  {
    VisitFromIncreasing(dir, node, 0, resumeAfter);
    VisitFromUnder(dir, node, 0, resumeAfter);
    var own := [Listing(dir, node)];
    var below := VisitFrom(dir, node, 0, resumeAfter);
    forall item | item in below ensures ComparePaths(dir, item.path) == Less {
      var k :| 0 <= k < |node.folders| && dir + [node.folders[k].name] <= item.path;
      FolderFirst(dir, item.path);
    }
    IncreasingConcat(own, below);
    assert own + [] == own && [] + below == below;
  }

  lemma {:induction false} VisitFromIncreasing(dir: Path, node: Node, i: nat, resumeAfter: Option<Path>)
    requires Valid(node) && (node.Listed? ==> i <= |node.folders|)
    ensures Increasing(VisitFrom(dir, node, i, resumeAfter))
    decreases node, 0, if node.Listed? then |node.folders| - i else 0
  {
    if node.Listed? && i < |node.folders| {
      var name := node.folders[i].name;
      var first := Visit(dir + [name], node.folders[i].node, Subtree, resumeAfter);
      var others := VisitFrom(dir, node, i + 1, resumeAfter);
      VisitIncreasing(dir + [name], node.folders[i].node, Subtree, resumeAfter);
      VisitFromIncreasing(dir, node, i + 1, resumeAfter);
      VisitUnder(dir + [name], node.folders[i].node, Subtree, resumeAfter);
      VisitFromUnder(dir, node, i + 1, resumeAfter);
      forall x, y | x in first && y in others ensures ComparePaths(x.path, y.path) == Less {
        var k :| i + 1 <= k < |node.folders| && dir + [node.folders[k].name] <= y.path;
        SiblingsApart(dir, name, node.folders[k].name, x.path, y.path);
      }
      IncreasingConcat(first, others);
    }
  }

  /** What a resumed walk keeps of a full one: a folder listed after the cursor, and a failure after the cursor or
      on the way to it. */
  predicate Keeps(item: Item, cursor: Path) {
    || ComparePaths(cursor, item.path) == Less
    || (item.Failed? && item.path <= cursor)
  }

  function KeptFrom(items: seq<Item>, cursor: Path): seq<Item> {
    if items == [] then []
    else (if Keeps(items[0], cursor) then [items[0]] else []) + KeptFrom(items[1..], cursor)
  }

  lemma {:induction false} KeptConcat(a: seq<Item>, b: seq<Item>, cursor: Path)
    ensures KeptFrom(a + b, cursor) == KeptFrom(a, cursor) + KeptFrom(b, cursor)
  {
    if a == [] {
      assert a + b == b;
    } else {
      assert (a + b)[1..] == a[1..] + b;
      KeptConcat(a[1..], b, cursor);
      hide Keeps;
      Associate(if Keeps(a[0], cursor) then [a[0]] else [], KeptFrom(a[1..], cursor), KeptFrom(b, cursor));
    }
  }

  lemma {:induction false} KeptNone(items: seq<Item>, cursor: Path)
    requires forall item :: item in items ==> !Keeps(item, cursor)
    ensures KeptFrom(items, cursor) == []
  {
    if items != [] {
      KeptNone(items[1..], cursor);
    }
  }

  /** A resumed walk yields exactly what the full walk yields after the cursor, whether or not the
      cursor is still in the tree. */
  lemma {:induction false} ResumedVisit(dir: Path, node: Node, depth: Depth, cursor: Path)
    ensures Visit(dir, node, depth, Some(cursor)) == KeptFrom(Visit(dir, node, depth, None), cursor)
    decreases node, 1
  {
    var full := Visit(dir, node, depth, None);
    PathsTotal();
    assert ComparePaths(dir, cursor) == ComparePaths(cursor, dir).Reverse();
    if CursorPosition(dir, Some(cursor)).Done? {
      VisitUnder(dir, node, depth, None);
      forall item | item in full ensures !Keeps(item, cursor) {
        DoneBelow(dir, cursor, item.path);
        assert ComparePaths(item.path, cursor) == ComparePaths(cursor, item.path).Reverse();
      }
      KeptNone(full, cursor);
    } else if !node.Unreadable? {
      var own := [Listing(dir, node)];
      var below := if depth.Subtree? then VisitFrom(dir, node, 0, None) else [];
      ResumedVisitFrom(dir, node, 0, cursor);
      OwnKept(own[0], cursor);
      KeptConcat(own, below, cursor);
    }
  }

  /** A directory the cursor is past is kept out exactly when it is the cursor or on the way to it. */
  lemma OwnKept(item: Item, cursor: Path)
    requires item.Directory? && !CursorPosition(item.path, Some(cursor)).Done?
    ensures KeptFrom([item], cursor) == if item.path <= cursor then [] else [item]
  {
    PathsTotal();
    assert ComparePaths(item.path, cursor) == ComparePaths(cursor, item.path).Reverse();
    if item.path <= cursor {
      if item.path != cursor {
        FolderFirst(item.path, cursor);
      }
    }
    assert [item][1..] == [];
  }

  lemma {:induction false} ResumedVisitFrom(dir: Path, node: Node, i: nat, cursor: Path)
    requires node.Listed? ==> i <= |node.folders|
    ensures VisitFrom(dir, node, i, Some(cursor)) == KeptFrom(VisitFrom(dir, node, i, None), cursor)
    decreases node, 0, if node.Listed? then |node.folders| - i else 0
  {
    if node.Listed? && i < |node.folders| {
      var path := dir + [node.folders[i].name];
      ResumedVisit(path, node.folders[i].node, Subtree, cursor);
      ResumedVisitFrom(dir, node, i + 1, cursor);
      KeptConcat(Visit(path, node.folders[i].node, Subtree, None), VisitFrom(dir, node, i + 1, None), cursor);
    }
  }

  /** A walk of a scope in order, and one resumed after `cursor` taking up exactly where it was. */
  lemma WalkResumes(s: Setup, cursor: Path)
    requires Valid(s.tree)
    ensures Increasing(Walked(s.(resumeAfter := None)))
    ensures Walked(s.(resumeAfter := Some(cursor))) == KeptFrom(Walked(s.(resumeAfter := None)), cursor)
  {
    var node := if s.excluded then Gone else s.tree;
    VisitIncreasing(s.scope, node, s.depth, None);
    ResumedVisit(s.scope, node, s.depth, cursor);
  }

  // ---- Every folder, and only those ----

  /** Whether there is a folder at `under` below `node`, each on the way to it listed. */
  ghost predicate HasFolder(node: Node, under: Path)
    decreases |under|
  {
    under == [] ||
    (node.Listed? && exists i :: 0 <= i < |node.folders| && node.folders[i].name == under[0] && HasFolder(node.folders[i].node, under[1..]))
  }

  /** What a walk yields for `node` at `path`. */
  ghost function ItemFor(path: Path, node: Node): Item {
    if node.Unreadable? then Failed(path) else Listing(path, node)
  }

  /** The node at `under` below `node`, by way of its listed folders. */
  ghost function Below(node: Node, under: Path): Node
    requires HasFolder(node, under)
    decreases |under|
  {
    if under == [] then node
    else
      var i :| 0 <= i < |node.folders| && node.folders[i].name == under[0] && HasFolder(node.folders[i].node, under[1..]);
      Below(node.folders[i].node, under[1..])
  }

  /** A full walk yields every folder below its own. */
  lemma {:induction false} VisitsEvery(dir: Path, node: Node, under: Path)
    requires HasFolder(node, under)
    ensures ItemFor(dir + under, Below(node, under)) in Visit(dir, node, Subtree, None)
    decreases |under|
  {
    hide Visit, VisitFrom, ItemFor;
    if under == [] {
      assert dir + under == dir;
      VisitHolds(dir, node);
    } else {
      var i :| 0 <= i < |node.folders| && node.folders[i].name == under[0] && HasFolder(node.folders[i].node, under[1..])
               && Below(node, under) == Below(node.folders[i].node, under[1..]);
      VisitsEvery(dir + [under[0]], node.folders[i].node, under[1..]);
      assert dir + [under[0]] + under[1..] == dir + under;
      InVisitFrom(dir, node, 0, i, ItemFor(dir + under, Below(node, under)));
      VisitHolds(dir, node);
    }
  }

  lemma VisitHolds(dir: Path, node: Node)
    ensures ItemFor(dir, node) in Visit(dir, node, Subtree, None)
    ensures node.Listed? ==> forall item :: item in VisitFrom(dir, node, 0, None) ==> item in Visit(dir, node, Subtree, None)
  {}

  lemma {:induction false} InVisitFrom(dir: Path, node: Node, i: nat, k: nat, item: Item)
    requires node.Listed? && i <= k < |node.folders|
    requires item in Visit(dir + [node.folders[k].name], node.folders[k].node, Subtree, None)
    ensures item in VisitFrom(dir, node, i, None)
    decreases k - i
  {
    hide Visit;
    if i < k {
      InVisitFrom(dir, node, i + 1, k, item);
    }
  }

  /** A full walk yields nothing but folders below its own. */
  lemma {:induction false} VisitsOnly(dir: Path, node: Node, item: Item)
    requires item in Visit(dir, node, Subtree, None)
    ensures dir <= item.path && HasFolder(node, item.path[|dir|..])
    decreases node, 1
  {
    VisitUnder(dir, node, Subtree, None);
    if item.path == dir {
      assert item.path[|dir|..] == [];
    } else {
      VisitsOnlyFrom(dir, node, 0, item);
    }
  }

  lemma {:induction false} VisitsOnlyFrom(dir: Path, node: Node, i: nat, item: Item)
    requires node.Listed? && i <= |node.folders| && item in VisitFrom(dir, node, i, None)
    ensures dir <= item.path && HasFolder(node, item.path[|dir|..])
    decreases node, 0, |node.folders| - i
  {
    var path := dir + [node.folders[i].name];
    if item in Visit(path, node.folders[i].node, Subtree, None) {
      VisitsOnly(path, node.folders[i].node, item);
      var under := item.path[|dir|..];
      assert under[0] == node.folders[i].name && under[1..] == item.path[|path|..];
    } else {
      VisitsOnlyFrom(dir, node, i + 1, item);
    }
  }
}
