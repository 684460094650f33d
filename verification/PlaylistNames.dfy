/** What an undo's adds name, and what it restores where items go by names (web/src/lib/playlist-ops.ts:34-54). */
module PlaylistNames {
  import opened Wrappers
  import opened Orders
  import opened Sequences
  import opened Sorting
  import opened Playlist
  import PlaylistUndo

  function Mapped<T, V>(s: seq<T>, f: T -> V): (r: seq<V>)
    ensures |r| == |s| && forall i :: 0 <= i < |s| ==> r[i] == f(s[i])
  {
    seq(|s|, i requires 0 <= i < |s| => f(s[i]))
  }

  // ---- What undo adds name ----

  /** The array names those items, in order. */
  ghost predicate NamedAs<P, T>(items: Items<P>, back: seq<T>, toPlayable: T -> P) {
    |items.named| == |back| && forall i :: 0 <= i < |back| ==> items.named[i] == toPlayable(back[i])
  }

  /** Each add is of some items that were removed, and names just those. */
  ghost predicate AllNamed<P, T>(ops: seq<Op<P>>, removed: Removed<T>, toPlayable: T -> P) {
    forall k :: 0 <= k < |ops| && ops[k].Add? ==>
      && ops[k].at.Some? && ops[k].items.id in removed && removed[ops[k].items.id] != []
      && NamedAs(ops[k].items, removed[ops[k].items.id], toPlayable)
  }

  lemma NamedWithMore<P, T>(ops: seq<Op<P>>, removed: Removed<T>, more: Removed<T>, toPlayable: T -> P)
    requires AllNamed(ops, removed, toPlayable) && PlaylistUndo.Keeps(removed, more)
    ensures AllNamed(ops, more, toPlayable)
  {
  }

  lemma NamedBoth<P, T>(a: seq<Op<P>>, b: seq<Op<P>>, removed: Removed<T>, toPlayable: T -> P)
    requires AllNamed(a, removed, toPlayable) && AllNamed(b, removed, toPlayable)
    ensures AllNamed(a + b, removed, toPlayable)
  {
  }

  lemma {:induction false} RestoresNamed<P, T>(list: seq<T>, runs: seq<seq<int>>, i: nat, removed: Removed<T>, toPlayable: T -> P)
    requires Apart(runs, |list|) && i <= |runs| && PlaylistUndo.Numbered(removed)
    ensures AllNamed(Restores(list, runs, i, removed, toPlayable).0, Restores(list, runs, i, removed, toPlayable).1, toPlayable)
  {
    if i > 0 {
      RestoresNamed(list, runs, i - 1, removed, toPlayable);
      PlaylistUndo.RestoresNumbered(list, runs, i - 1, removed, toPlayable);
      assert IsRun(runs[i - 1], |list|);
      var (ops, removed1) := Restores(list, runs, i - 1, removed, toPlayable);
      var back := RunAt(list, runs[i - 1]);
      RestoreNamed(ops, removed1, back, runs[i - 1][0], toPlayable);
    }
  }

  lemma RestoreNamed<P, T>(ops: seq<Op<P>>, removed: Removed<T>, back: seq<T>, at: int, toPlayable: T -> P)
    requires PlaylistUndo.Numbered(removed) && AllNamed(ops, removed, toPlayable) && back != []
    ensures var (items, removed') := Restore(removed, back, toPlayable);
      AllNamed(ops + [Add(Some(at), items)], removed', toPlayable)
  {
    var (items, removed') := Restore(removed, back, toPlayable);
    NamedWithMore(ops, removed, removed', toPlayable);
    assert AllNamed([Add(Some(at), items)], removed', toPlayable);
    hide AllNamed;
    NamedBoth(ops, [Add(Some(at), items)], removed', toPlayable);
  }

  /** A move's undo adds nothing. */
  lemma {:induction false} MovesOnly<P>(runs: seq<seq<int>>, i: nat, at: int)
    requires i <= |runs| && forall k :: 0 <= k < |runs| ==> runs[k] != []
    ensures forall op :: op in MovesBack<P>(runs, i, at).0 || op in MovesBack<P>(runs, i, at).1 ==> op.Move?
  {
    if i > 0 {
      MovesOnly<P>(runs, i - 1, at);
    }
  }

  lemma InvertedNamed<P, T>(before: seq<T>, after: seq<T>, op: Op<P>, removed: Removed<T>, toPlayable: T -> P)
    requires Fits(before, op) && PlaylistUndo.Numbered(removed)
    ensures AllNamed(Inverted(before, after, op, removed, toPlayable).0, Inverted(before, after, op, removed, toPlayable).1, toPlayable)
  {
    match op
    case Add(_, _) =>
    case Remove(positions) =>
      var sel := Selection(positions, |before|).value;
      SelectionSelects(positions, |before|);
      RunsApart(sel, |before|, |sel|);
      RestoresNamed(before, Runs(sel), |Runs(sel)|, removed, toPlayable);
    case Move(positions, at) =>
      var sel := Selection(positions, |before|).value;
      SelectionSelects(positions, |before|);
      RunsApart(sel, |before|, |sel|);
      MovesOnly<P>(Runs(sel), |Runs(sel)|, at);
      var (left, right) := MovesBack<P>(Runs(sel), |Runs(sel)|, at);
      OnlyMoves(left, right);
  }

  lemma OnlyMoves<P>(left: seq<Op<P>>, right: seq<Op<P>>)
    requires forall op :: op in left || op in right ==> op.Move?
    ensures forall k :: 0 <= k < |left + Reversed(right)| ==> (left + Reversed(right))[k].Move?
  {
    var reversed := Reversed(right);
    forall k | 0 <= k < |left + reversed| ensures (left + reversed)[k].Move? {
      if k < |left| {
        assert (left + reversed)[k] in left;
      } else {
        ReversedAt(right, k - |left|);
      }
    }
  }

  lemma {:induction false} ReversedAt<U>(s: seq<U>, i: nat)
    requires i < |s|
    ensures Reversed(s)[i] == s[|s| - 1 - i]
  {
    if i > 0 {
      ReversedAt(s[..|s| - 1], i - 1);
    }
  }

  /** Every add of an undo names, in order, just the items removed that it brings back. */
  lemma {:induction false} UndoneNamed<P, T>(list: seq<T>, ops: seq<Op<P>>, resolve: Resolve<P, T>,
                                             removed: Removed<T>, toPlayable: T -> P)
    requires Applied(list, ops, resolve).Ok? && PlaylistUndo.Numbered(removed)
    ensures Undone(list, ops, resolve, toPlayable, removed).Ok?
    ensures var inverse := Undone(list, ops, resolve, toPlayable, removed).value;
      AllNamed(inverse.ops, inverse.removed, toPlayable)
    decreases |ops|
  {
    if ops != [] {
      var next := ApplyOp(list, ops[0], resolve).value;
      AppliesFits(list, ops[0], resolve);
      var (undo, removed1) := Inverted(list, next, ops[0], removed, toPlayable);
      var nothing: Removed<T> := map[];
      PlaylistUndo.UndoOp(list, next, ops[0], resolve, removed, toPlayable, nothing);
      InvertedNamed(list, next, ops[0], removed, toPlayable);
      UndoneNamed(next, ops[1..], resolve, removed1, toPlayable);
      PlaylistUndo.UndoEdit(next, ops[1..], resolve, removed1, toPlayable, nothing);
      var later := Undone(next, ops[1..], resolve, toPlayable, removed1).value;
      NamedWithMore(undo, removed1, later.removed, toPlayable);
      NamedBoth(later.ops, undo, later.removed, toPlayable);
    }
  }

  // ---- A view of the items ----

  /** A resolve that gives, for items named as some are, the view of those. */
  ghost predicate Shows<P(!new), T(!new), V>(server: Resolve<P, V>, toPlayable: T -> P, view: T -> V) {
    forall items, back {:trigger NamedAs(items, back, toPlayable)} :: NamedAs(items, back, toPlayable) ==> server(items) == Ok(Mapped(back, view))
  }

  lemma {:induction false} WithoutMapped<T, V>(list: seq<T>, drop: set<int>, view: T -> V)
    ensures Without(Mapped(list, view), drop) == Mapped(Without(list, drop), view)
  {
    if list != [] {
      var n := |list| - 1;
      WithoutMapped(list[..n], drop, view);
      assert Mapped(list, view)[..n] == Mapped(list[..n], view);
    }
  }

  lemma MappedBoth<T, V>(a: seq<T>, b: seq<T>, view: T -> V)
    ensures Mapped(a + b, view) == Mapped(a, view) + Mapped(b, view)
  {
  }

  lemma SplicedMapped<T, V>(list: seq<T>, at: nat, items: seq<T>, view: T -> V)
    requires at <= |list|
    ensures Spliced(Mapped(list, view), at, Mapped(items, view)) == Mapped(Spliced(list, at, items), view)
  {
    MappedBoth(list[..at] + items, list[at..], view);
    MappedBoth(list[..at], items, view);
    assert Mapped(list, view)[..at] == Mapped(list[..at], view) && Mapped(list, view)[at..] == Mapped(list[at..], view);
  }

  lemma AtMapped<T, V>(list: seq<T>, sel: seq<int>, view: T -> V)
    requires forall i :: 0 <= i < |sel| ==> 0 <= sel[i] < |list|
    ensures At(Mapped(list, view), sel) == Mapped(At(list, sel), view)
  {
  }

  /** An op does the same to the view as to the list, if its items resolve to the view of what they do. */
  lemma OpMapped<P, T, V>(list: seq<T>, op: Op<P>, resolve: Resolve<P, T>, server: Resolve<P, V>, view: T -> V)
    requires ApplyOp(list, op, resolve).Ok?
    requires op.Add? ==> resolve(op.items).Ok? && server(op.items) == Ok(Mapped(resolve(op.items).value, view))
    ensures ApplyOp(Mapped(list, view), op, server) == Ok(Mapped(ApplyOp(list, op, resolve).value, view))
  {
    match op
    case Add(optionalAt, items) =>
      SplicedMapped(list, if optionalAt.Some? then optionalAt.value else |list|, resolve(items).value, view);
    case Remove(positions) =>
      WithoutMapped(list, AsSet(Selection(positions, |list|).value), view);
    case Move(positions, at) =>
      var sel := Selection(positions, |list|).value;
      SelectionSelects(positions, |list|);
      WithoutMapped(list, AsSet(sel), view);
      AtMapped(list, sel, view);
      SplicedMapped(Without(list, AsSet(sel)), at, At(list, sel), view);
  }

  lemma {:induction false} EditMapped<P, T, V>(list: seq<T>, ops: seq<Op<P>>, resolve: Resolve<P, T>, server: Resolve<P, V>, view: T -> V)
    requires Applied(list, ops, resolve).Ok?
    requires forall k :: 0 <= k < |ops| && ops[k].Add? ==>
      resolve(ops[k].items).Ok? && server(ops[k].items) == Ok(Mapped(resolve(ops[k].items).value, view))
    ensures Applied(Mapped(list, view), ops, server) == Ok(Mapped(Applied(list, ops, resolve).value, view))
    decreases |ops|
  {
    if ops != [] {
      OpMapped(list, ops[0], resolve, server, view);
      EditMapped(ApplyOp(list, ops[0], resolve).value, ops[1..], resolve, server, view);
    }
  }

  /** Whatever a place shows of its items, applying an undo there shows the list as it was, if the place resolves
      names to what it shows of the items named. */
  lemma UndoRestoresView<P(!new), T(!new), V>(items: seq<T>, ops: seq<Op<P>>, resolve: Resolve<P, T>, toPlayable: T -> P,
                                  server: Resolve<P, V>, view: T -> V)
    requires Applied(items, ops, resolve).Ok? && Shows(server, toPlayable, view)
    ensures Undone(items, ops, resolve, toPlayable, map[]).Ok?
    ensures var inverse := Undone(items, ops, resolve, toPlayable, map[]).value;
      Applied(Mapped(Applied(items, ops, resolve).value, view), inverse.ops, server) == Ok(Mapped(items, view))
  {
    var nothing: Removed<T> := map[];
    UndoneNamed(items, ops, resolve, nothing, toPlayable);
    PlaylistUndo.UndoRestores(items, ops, resolve, toPlayable);
    var inverse := Undone(items, ops, resolve, toPlayable, nothing).value;
    var back: Resolve<P, T> := BringBack(inverse.removed);
    forall k | 0 <= k < |inverse.ops| && inverse.ops[k].Add?
      ensures back(inverse.ops[k].items).Ok?
      ensures server(inverse.ops[k].items) == Ok(Mapped(back(inverse.ops[k].items).value, view))
    {
      assert NamedAs(inverse.ops[k].items, inverse.removed[inverse.ops[k].items.id], toPlayable);
    }
    hide AllNamed, Shows;
    EditMapped(Applied(items, ops, resolve).value, inverse.ops, back, server, view);
  }

  /** So the server, which goes by names, has after an undo the names it had before the edit. */
  lemma UndoRestoresNames<P(!new), T(!new)>(items: seq<T>, ops: seq<Op<P>>, resolve: Resolve<P, T>, toPlayable: T -> P)
    requires Applied(items, ops, resolve).Ok?
    ensures Undone(items, ops, resolve, toPlayable, map[]).Ok?
    ensures var inverse := Undone(items, ops, resolve, toPlayable, map[]).value;
      Applied(Mapped(Applied(items, ops, resolve).value, toPlayable), inverse.ops, (named: Items<P>) => Ok(named.named))
      == Ok(Mapped(items, toPlayable))
  {
    var server: Resolve<P, P> := (named: Items<P>) => Ok(named.named);
    forall named: Items<P>, back: seq<T> | NamedAs(named, back, toPlayable) ensures server(named) == Ok(Mapped(back, toPlayable)) {
      assert named.named == Mapped(back, toPlayable);
    }
    UndoRestoresView(items, ops, resolve, toPlayable, server, toPlayable);
  }

  /** And a resolve that takes names back to the items they are of restores the list itself. */
  lemma UndoRestoresByName<P(!new), T(!new)>(items: seq<T>, ops: seq<Op<P>>, resolve: Resolve<P, T>, toPlayable: T -> P, server: Resolve<P, T>)
    requires Applied(items, ops, resolve).Ok?
    requires forall named, back {:trigger NamedAs(named, back, toPlayable)} :: NamedAs(named, back, toPlayable) ==> server(named) == Ok(back)
    ensures Undone(items, ops, resolve, toPlayable, map[]).Ok?
    ensures var inverse := Undone(items, ops, resolve, toPlayable, map[]).value;
      Applied(Applied(items, ops, resolve).value, inverse.ops, server) == Ok(items)
  {
    var same := (item: T) => item;
    forall s: seq<T> ensures Mapped(s, same) == s {
    }
    UndoRestoresView(items, ops, resolve, toPlayable, server, same);
  }

  // ---- What is asked for ----

  /** An add refused for itself or its place is refused the same whatever its items stand for, or that they cannot be
      told: they are not asked for. */
  lemma AddRefusedFirst<P, T>(list: seq<T>, op: Op<P>, resolve: Resolve<P, T>, other: Resolve<P, T>)
    requires op.Add? && ApplyOp(list, op, resolve).Err? && resolve(op.items).Ok?
    ensures ApplyOp(list, op, other) == ApplyOp(list, op, resolve)
  {
  }
}
