/** What a full walk yields, in terms of the tree it walks (crates/scanner/src/discover.rs:184-264). */
module WalkTrees {
  import opened Wrappers
  import opened Orders
  import opened Sorting
  import opened Paths
  import opened Scopes
  import opened Walks

  /** The item is the folder's: a failure if it cannot be listed; and else its audio files, each once for each time
      it is listed, in order, and its folders by name. One that is gone has neither. */
  ghost predicate Tells(item: Item, path: Path, node: Node) {
    match node
    case Unreadable => item == Failed(path)
    case Gone => item == Directory(path, false, [], [])
    case Listed(folders, audio) =>
      && item.Directory? && item.path == path && item.listed
      && multiset(item.audio) == multiset(audio) && SortedBy(CompareNames, item.audio)
      && |item.folders| == |folders| && forall i :: 0 <= i < |folders| ==> item.folders[i] == folders[i].name
  }

  /** No two items tell the same of a folder. */
  lemma TellsOne(a: Item, b: Item, path: Path, node: Node)
    requires Tells(a, path, node) && Tells(b, path, node)
    ensures a == b
  {
    if node.Listed? {
      NamesTotal();
      SortedUnique(CompareNames, a.audio, b.audio);
      assert a.folders == b.folders;
    }
  }

  lemma ItemTells(path: Path, node: Node)
    ensures Tells(ItemFor(path, node), path, node)
  {
    if node.Listed? {
      NamesTotal();
      SortSorts(CompareNames, node.audio);
    }
  }

  /** A full walk of a subtree yields just one item for each folder of it, the one that tells of it. */
  lemma YieldsTree(dir: Path, node: Node, item: Item)
    requires Valid(node)
    ensures item in Visit(dir, node, Subtree, None) <==>
      dir <= item.path && HasFolder(node, item.path[|dir|..]) && Tells(item, item.path, Below(node, item.path[|dir|..]))
  {
    hide Visit, Tells;
    if item in Visit(dir, node, Subtree, None) {
      VisitsOnly(dir, node, item);
      YieldsItem(dir, node, item);
      ItemTells(item.path, Below(node, item.path[|dir|..]));
    }
    if dir <= item.path && HasFolder(node, item.path[|dir|..]) && Tells(item, item.path, Below(node, item.path[|dir|..])) {
      var under := item.path[|dir|..];
      VisitsEvery(dir, node, under);
      assert dir + under == item.path;
      ItemTells(item.path, Below(node, under));
      TellsOne(item, ItemFor(item.path, Below(node, under)), item.path, Below(node, under));
    }
  }

  /** What is yielded is the folder's own item. */
  lemma {:induction false} YieldsItem(dir: Path, node: Node, item: Item)
    requires Valid(node) && item in Visit(dir, node, Subtree, None)
    requires dir <= item.path && HasFolder(node, item.path[|dir|..])
    ensures item == ItemFor(item.path, Below(node, item.path[|dir|..]))
    decreases node, 1
  {
    var under := item.path[|dir|..];
    if item != ItemFor(dir, node) {
      YieldsItemFrom(dir, node, 0, item);
    } else {
      assert item.path == dir;
    }
  }

  lemma {:induction false} YieldsItemFrom(dir: Path, node: Node, i: nat, item: Item)
    requires Valid(node) && node.Listed? && i <= |node.folders| && item in VisitFrom(dir, node, i, None)
    requires dir <= item.path && HasFolder(node, item.path[|dir|..])
    ensures item == ItemFor(item.path, Below(node, item.path[|dir|..]))
    decreases node, 0, |node.folders| - i
  {
    var path := dir + [node.folders[i].name];
    if item in Visit(path, node.folders[i].node, Subtree, None) {
      VisitUnder(path, node.folders[i].node, Subtree, None);
      VisitsOnly(path, node.folders[i].node, item);
      YieldsItem(path, node.folders[i].node, item);
      var under := item.path[|dir|..];
      assert under != [] && under[0] == node.folders[i].name && under[1..] == item.path[|path|..];
      BelowChild(node, i, under);
    } else {
      YieldsItemFrom(dir, node, i + 1, item);
    }
  }

  /** A listing has each name once, so the way down is one. */
  lemma BelowChild(node: Node, i: nat, under: Path)
    requires Valid(node) && node.Listed? && i < |node.folders| && under != [] && under[0] == node.folders[i].name
    requires HasFolder(node, under)
    ensures HasFolder(node.folders[i].node, under[1..]) && Below(node, under) == Below(node.folders[i].node, under[1..])
  {
    forall j | 0 <= j < |node.folders| && node.folders[j].name == under[0] ensures j == i {
      LexSelf(under[0]);
    }
  }

  /** A walk of one folder yields its own item alone. */
  lemma YieldsOne(s: Setup)
    requires !s.excluded && s.depth.OneFolder? && s.resumeAfter.None?
    ensures |Walked(s)| == 1 && Tells(Walked(s)[0], s.scope, s.tree)
  {
    ItemTells(s.scope, s.tree);
  }

  /** A walk of an excluded scope yields its folder, as gone, and nothing in it. */
  lemma YieldsExcluded(s: Setup)
    requires s.excluded && s.resumeAfter.None?
    ensures Walked(s) == [Directory(s.scope, false, [], [])]
  {
  }
}
