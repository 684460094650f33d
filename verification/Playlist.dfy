/** Playlist edits as the web client applies them, and the undo it makes of one
    (web/src/lib/playlist-ops.ts). */
module Playlist {
  import opened Wrappers
  import opened Orders
  import opened Sequences
  import opened Sorting

  /** Which array an add names its items with: the undo's items are found by it, not by value. */
  type Identity = nat

  datatype Items<P> = Items(id: Identity, named: seq<P>)

  datatype Op<P> =
    | Add(at: Option<int>, items: Items<P>)
    | Remove(positions: seq<int>)
    | Move(positions: seq<int>, to: int)

  /** What is thrown. */
  datatype Error = NoItems | NoPositions | OutOfRange(p: int) | GivenTwice(p: int) | NotRemoved

  /** Gives the tracks an add's items stand for, or refuses them. */
  type Resolve<!P, !T> = Items<P> -> Result<seq<T>, Error>

  // ---- Positions ----

  /** The first of the sorted positions from `i` on that is out of range or repeats the last. */
  function FirstBad(sorted: seq<int>, length: nat, i: nat): Option<Error>
    requires i <= |sorted|
    decreases |sorted| - i
  {
    if i == |sorted| then None
    else if !(0 <= sorted[i] <= length - 1) then Some(OutOfRange(sorted[i]))
    else if i > 0 && sorted[i] == sorted[i - 1] then Some(GivenTwice(sorted[i]))
    else FirstBad(sorted, length, i + 1)
  }

  /** The positions sorted, unless there are none or one of them is bad. */
  function Selection(positions: seq<int>, length: nat): Result<seq<int>, Error> {
    if positions == [] then Err(NoPositions)
    else
      var sorted := Sort(CompareInt, positions);
      match FirstBad(sorted, length, 0)
      case Some(error) => Err(error)
      case None => Ok(sorted)
  }

  ghost predicate Ascending(s: seq<int>) {
    forall i, j :: 0 <= i < j < |s| ==> s[i] < s[j]
  }

  /** `sel` is a selection of a list of `length`: in range, ascending, and so without repeats. */
  ghost predicate Selects(sel: seq<int>, length: nat) {
    Ascending(sel) && forall i :: 0 <= i < |sel| ==> 0 <= sel[i] < length
  }

  ghost predicate InRange(s: seq<int>, length: nat) {
    forall i :: 0 <= i < |s| ==> 0 <= s[i] < length
  }

  lemma {:induction false} NoneBad(sorted: seq<int>, length: nat, i: nat)
    requires i <= |sorted|
    ensures FirstBad(sorted, length, i).None? <==>
            forall k :: i <= k < |sorted| ==>
              0 <= sorted[k] < length && (k > 0 ==> sorted[k] != sorted[k - 1])
    decreases |sorted| - i
  {
    if i < |sorted| {
      NoneBad(sorted, length, i + 1);
    }
  }

  /** Looking at neighbours is enough to find a repeat in sorted positions. */
  lemma SortedNoneBad(sorted: seq<int>, length: nat)
    requires SortedBy(CompareInt, sorted)
    ensures FirstBad(sorted, length, 0).None? <==> InRange(sorted, length) && Distinct(sorted)
    ensures Distinct(sorted) ==> Ascending(sorted)
  {
    NoneBad(sorted, length, 0);
    assert forall i, j :: 0 <= i < j < |sorted| ==> CompareInt(sorted[i], sorted[j]) != Greater;
    if FirstBad(sorted, length, 0).None? {
      forall i, j | 0 <= i < j < |sorted| ensures sorted[i] != sorted[j] {
        assert sorted[j] != sorted[j - 1];
        assert i < j - 1 ==> CompareInt(sorted[i], sorted[j - 1]) != Greater;
        assert CompareInt(sorted[j - 1], sorted[j]) != Greater;
      }
    }
  }

  /** Positions select when there are some, each in range and none given twice; the selection is
      then those positions, ascending. */
  lemma SelectionSelects(positions: seq<int>, length: nat)
    ensures Selection(positions, length).Ok? <==>
            positions != [] && InRange(positions, length) && Distinct(positions)
    ensures var s := Selection(positions, length);
            s.Ok? ==> Selects(s.value, length) && multiset(s.value) == multiset(positions)
  {
    var sorted := Sort(CompareInt, positions);
    CompareIntTotal();
    SortSorts(CompareInt, positions);
    SortedNoneBad(sorted, length);
    SameElements(positions, sorted, length);
  }

  lemma SameElements(a: seq<int>, b: seq<int>, length: nat)
    requires multiset(a) == multiset(b)
    ensures InRange(a, length) == InRange(b, length)
    ensures Distinct(a) == Distinct(b)
  {
    assert forall i :: 0 <= i < |a| ==> a[i] in multiset(b);
    assert forall i :: 0 <= i < |b| ==> b[i] in multiset(a);
    DistinctByCount<int>(a);
    DistinctByCount<int>(b);
  }

  // ---- One op ----

  /** What is left of `list` at the places not in `drop`. */
  function Without<T>(list: seq<T>, drop: set<int>): seq<T> {
    if list == [] then []
    else
      var n := |list| - 1;
      Without(list[..n], drop) + if n in drop then [] else [list[n]]
  }

  /** The items of `list` at `sel`. */
  function At<T>(list: seq<T>, sel: seq<int>): (r: seq<T>)
    requires forall i :: 0 <= i < |sel| ==> 0 <= sel[i] < |list|
    ensures |r| == |sel|
  {
    seq(|sel|, (i: nat) requires i < |sel| => list[sel[i]])
  }

  function AsSet(sel: seq<int>): set<int> {
    set p | p in sel
  }

  /** `list` with `items` spliced in, the first taking position `at`. */
  function Spliced<T>(list: seq<T>, at: nat, items: seq<T>): seq<T>
    requires at <= |list|
  {
    list[..at] + items + list[at..]
  }

  function ApplyOp<P, T>(list: seq<T>, op: Op<P>, resolve: Resolve<P, T>): Result<seq<T>, Error> {
    match op
    case Add(optionalAt, items) =>
      if items.named == [] then Err(NoItems)
      else
        var at := if optionalAt.Some? then optionalAt.value else |list|;
        if !(0 <= at <= |list|) then Err(OutOfRange(at))
        else
          var added :- resolve(items);
          Ok(Spliced(list, at, added))
    case Remove(positions) =>
      var sel :- Selection(positions, |list|);
      Ok(Without(list, AsSet(sel)))
    case Move(positions, at) =>
      var sel :- Selection(positions, |list|);
      SelectionSelects(positions, |list|);
      var rest := Without(list, AsSet(sel));
      if !(0 <= at <= |rest|) then Err(OutOfRange(at))
      else Ok(Spliced(rest, at, At(list, sel)))
  }

  /** The ops applied in turn, up to the first refused. */
  function Applied<P, T>(list: seq<T>, ops: seq<Op<P>>, resolve: Resolve<P, T>): Result<seq<T>, Error>
    decreases |ops|
  {
    if ops == [] then Ok(list)
    else
      var next :- ApplyOp(list, ops[0], resolve);
      Applied(next, ops[1..], resolve)
  }

  method ApplyOps<P, T>(items: seq<T>, ops: seq<Op<P>>, resolve: Resolve<P, T>)
    returns (r: Result<seq<T>, Error>)
    ensures r == Applied(items, ops, resolve)
  {
    var list := items;
    for i := 0 to |ops|
      invariant Applied(list, ops[i..], resolve) == Applied(items, ops, resolve)
    {
      var next := ApplyOp(list, ops[i], resolve);
      assert ops[i..][1..] == ops[i + 1..];
      if next.Err? {
        return next;
      }
      list := next.value;
    }
    return Ok(list);
  }

  /** Edits run one after another are one edit. */
  lemma {:induction false} AppliedConcat<P, T>(list: seq<T>, a: seq<Op<P>>, b: seq<Op<P>>, resolve: Resolve<P, T>)
    requires Applied(list, a, resolve).Ok?
    ensures Applied(list, a + b, resolve) == Applied(Applied(list, a, resolve).value, b, resolve)
    decreases |a|
  {
    if a == [] {
      assert a + b == b;
    } else {
      assert (a + b)[1..] == a[1..] + b;
      AppliedConcat(ApplyOp(list, a[0], resolve).value, a[1..], b, resolve);
    }
  }

  // ---- Runs ----

  function Last<T>(s: seq<T>): T
    requires s != []
  {
    s[|s| - 1]
  }

  /** The first `i` of `s`, one after another. */
  function Joined<T>(s: seq<seq<T>>, i: nat): seq<T>
    requires i <= |s|
  {
    if i == 0 then [] else Joined(s, i - 1) + s[i - 1]
  }

  function Flat<T>(s: seq<seq<T>>): seq<T> {
    Joined(s, |s|)
  }

  lemma {:induction false} JoinedAgrees<T>(s: seq<seq<T>>, t: seq<seq<T>>, i: nat)
    requires i <= |s| && i <= |t| && forall k :: 0 <= k < i ==> s[k] == t[k]
    ensures Joined(s, i) == Joined(t, i)
  {
    if i > 0 {
      JoinedAgrees(s, t, i - 1);
    }
  }

  lemma FlatAppend<T>(s: seq<seq<T>>, x: seq<T>)
    ensures Flat(s + [x]) == Flat(s) + x
  {
    JoinedAgrees(s, s + [x], |s|);
  }

  function Reversed<T>(s: seq<T>): (r: seq<T>)
    ensures |r| == |s|
  {
    if s == [] then [] else [Last(s)] + Reversed(s[..|s| - 1])
  }

  function Range(start: int, end: int): (r: seq<int>)
    requires start <= end
    ensures |r| == end - start
  {
    seq(end - start, i => start + i)
  }

  /** `out` with the next position `p`: in its last run if it follows on, or in one of its own. */
  function WithNext(out: seq<seq<int>>, p: int): seq<seq<int>> {
    if out != [] && Last(out) != [] && Last(Last(out)) == p - 1
    then out[..|out| - 1] + [Last(out) + [p]]
    else out + [[p]]
  }

  /** The runs of the first `i` positions: each joins the last run if it follows on it, and else begins one. */
  function RunsTo(sorted: seq<int>, i: nat): seq<seq<int>>
    requires i <= |sorted|
  {
    if i == 0 then [] else WithNext(RunsTo(sorted, i - 1), sorted[i - 1])
  }

  function Runs(sorted: seq<int>): seq<seq<int>> {
    RunsTo(sorted, |sorted|)
  }

  method SplitRuns(sorted: seq<int>) returns (out: seq<seq<int>>)
    ensures out == Runs(sorted)
  {
    out := [];
    for i := 0 to |sorted|
      invariant out == RunsTo(sorted, i)
    {
      var p := sorted[i];
      if out != [] && Last(out) != [] && Last(Last(out)) == p - 1 {
        out := out[..|out| - 1] + [Last(out) + [p]];
      } else {
        out := out + [[p]];
      }
    }
  }

  ghost predicate IsRun(run: seq<int>, length: nat) {
    run != [] && 0 <= run[0] && run[0] + |run| <= length && run == Range(run[0], run[0] + |run|)
  }

  /** Runs as the undo needs them: each consecutive, in the list, and apart from the next. */
  ghost predicate Apart(runs: seq<seq<int>>, length: nat) {
    && (forall i :: 0 <= i < |runs| ==> IsRun(runs[i], length))
    && (forall i, j :: 0 <= i < j < |runs| ==> runs[i][0] + |runs[i]| < runs[j][0])
  }

  lemma ApartGrows(out: seq<seq<int>>, p: int, length: nat)
    requires Apart(out, length) && out != [] && Last(Last(out)) == p - 1 && p < length
    ensures Apart(out[..|out| - 1] + [Last(out) + [p]], length)
  {
    var last := Last(out);
    assert IsRun(last, length);
    var grown := last + [p];
    assert grown == Range(grown[0], grown[0] + |grown|);
  }

  lemma ApartStarts(out: seq<seq<int>>, p: int, length: nat)
    requires Apart(out, length) && 0 <= p < length
    requires out != [] ==> Last(out) != [] && Last(Last(out)) < p - 1
    ensures Apart(out + [[p]], length)
  {
    assert [p] == Range(p, p + 1);
    forall i | 0 <= i < |out| ensures out[i][0] + |out[i]| < p {
      assert IsRun(out[i], length) && IsRun(Last(out), length);
    }
  }

  lemma FlatWithNext(out: seq<seq<int>>, p: int)
    ensures Flat(WithNext(out, p)) == Flat(out) + [p]
  {
    FlatAppend(out, [p]);
    if out != [] {
      var front := out[..|out| - 1];
      FlatAppend(front, Last(out) + [p]);
      JoinedAgrees(front, out, |front|);
    }
  }

  /** The runs of a selection are its positions in the same order. */
  lemma {:induction false} RunsFlat(sel: seq<int>, i: nat)
    requires i <= |sel|
    ensures Flat(RunsTo(sel, i)) == sel[..i]
  {
    if i > 0 {
      RunsFlat(sel, i - 1);
      FlatWithNext(RunsTo(sel, i - 1), sel[i - 1]);
    }
  }

  /** The last run ends on the last position. */
  lemma RunsLast(sel: seq<int>, i: nat)
    requires 0 < i <= |sel|
    ensures RunsTo(sel, i) != [] && Last(RunsTo(sel, i)) != [] && Last(Last(RunsTo(sel, i))) == sel[i - 1]
  {}

  /** The runs of a selection are consecutive, and go as far as they can. */
  lemma {:induction false} RunsApart(sel: seq<int>, length: nat, i: nat)
    requires Selects(sel, length) && i <= |sel|
    ensures Apart(RunsTo(sel, i), length)
  {
    if i > 0 {
      RunsApart(sel, length, i - 1);
      var out, p := RunsTo(sel, i - 1), sel[i - 1];
      if i > 1 {
        RunsLast(sel, i - 1);
        assert sel[i - 2] < p;
      }
      if i > 1 && Last(Last(out)) == p - 1 {
        ApartGrows(out, p, length);
      } else {
        ApartStarts(out, p, length);
      }
    }
  }

  // ---- Undo ----

  /** The items each undo add brings back, by the array that names them. */
  type Removed<T> = map<Identity, seq<T>>

  /** What `restore` does: a new array names the items `back`, and brings them back. */
  function Restore<P, T>(removed: Removed<T>, back: seq<T>, toPlayable: T -> P): (Items<P>, Removed<T>) {
    var id := |removed|;
    (Items(id, seq(|back|, (i: nat) requires i < |back| => toPlayable(back[i]))), removed[id := back])
  }

  /** The resolve an undo comes with. */
  function BringBack<P, T>(removed: Removed<T>): Resolve<P, T> {
    (items: Items<P>) => if items.id in removed then Ok(removed[items.id]) else Err(NotRemoved)
  }

  /** A remove's undo, for the first `i` runs: an add per run, in playlist order. */
  function Restores<P, T>(before: seq<T>, runs: seq<seq<int>>, i: nat, removed: Removed<T>, toPlayable: T -> P): (seq<Op<P>>, Removed<T>)
    requires Apart(runs, |before|) && i <= |runs|
  {
    if i == 0 then ([], removed)
    else
      var run := runs[i - 1];
      var (ops, removed1) := Restores(before, runs, i - 1, removed, toPlayable);
      var (items, removed2) := Restore(removed1, RunAt(before, run), toPlayable);
      (ops + [Add(Some(run[0]), items)], removed2)
  }

  /** The items of `list` at `run`. */
  function RunAt<T>(list: seq<T>, run: seq<int>): (r: seq<T>)
    requires IsRun(run, |list|)
    ensures |r| == |run|
  {
    assert forall i :: 0 <= i < |run| ==> run[i] == Range(run[0], run[0] + |run|)[i] == run[0] + i;
    At(list, run)
  }

  /** How many positions the first `i` runs hold. */
  function Held<T>(runs: seq<seq<T>>, i: nat): nat
    requires i <= |runs|
  {
    if i == 0 then 0 else Held(runs, i - 1) + |runs[i - 1]|
  }

  /** A move's undo, for the first `i` runs: a move back per run, those going left and those going
      right, each in playlist order. A run already in place needs none. */
  function MovesBack<P>(runs: seq<seq<int>>, i: nat, at: int): (seq<Op<P>>, seq<Op<P>>)
    requires i <= |runs| && forall k :: 0 <= k < |runs| ==> runs[k] != []
  {
    if i == 0 then ([], [])
    else
      var run := runs[i - 1];
      var (left, right) := MovesBack(runs, i - 1, at);
      var from := at + Held(runs, i - 1);
      var back := Move(Range(from, from + |run|), run[0]);
      if run[0] < from then (left + [back], right)
      else if run[0] > from then (left, right + [back])
      else (left, right)
  }

  /** `op` applies to `list`, whatever its adds resolve to. */
  ghost predicate Fits<P, T>(list: seq<T>, op: Op<P>) {
    match op
    case Add(at, _) => at.None? || 0 <= at.value <= |list|
    case Remove(positions) => Selection(positions, |list|).Ok?
    case Move(positions, _) => Selection(positions, |list|).Ok?
  }

  /** The undo of one op, by its kind: a remove of what was added, adds of what was removed, or moves back run by
      run; with what was removed noted beside what was before. */
  function Inverted<P, T>(before: seq<T>, after: seq<T>, op: Op<P>, removed: Removed<T>, toPlayable: T -> P): (seq<Op<P>>, Removed<T>)
    requires Fits(before, op)
  {
    match op
    case Add(optionalAt, _) =>
      var at := if optionalAt.Some? then optionalAt.value else |before|;
      var count := |after| - |before|;
      (if count > 0 then [Remove(Range(at, at + count))] else [], removed)
    case Remove(positions) =>
      var sel := Selection(positions, |before|).value;
      SelectionSelects(positions, |before|);
      RunsApart(sel, |before|, |sel|);
      Restores(before, Runs(sel), |Runs(sel)|, removed, toPlayable)
    case Move(positions, at) =>
      var sel := Selection(positions, |before|).value;
      SelectionSelects(positions, |before|);
      RunsApart(sel, |before|, |sel|);
      var (left, right) := MovesBack<P>(Runs(sel), |Runs(sel)|, at);
      (left + Reversed(right), removed)
  }

  method RestoreRuns<P, T>(before: seq<T>, runs: seq<seq<int>>, removed: Removed<T>, toPlayable: T -> P)
    returns (ops: seq<Op<P>>, removed': Removed<T>)
    requires Apart(runs, |before|)
    ensures (ops, removed') == Restores(before, runs, |runs|, removed, toPlayable)
  {
    ops, removed' := [], removed;
    for i := 0 to |runs|
      invariant (ops, removed') == Restores(before, runs, i, removed, toPlayable)
    {
      var run := runs[i];
      assert IsRun(run, |before|);
      var (items, removed2) := Restore(removed', RunAt(before, run), toPlayable);
      ops, removed' := ops + [Add(Some(run[0]), items)], removed2;
    }
  }

  method MoveRunsBack<P>(runs: seq<seq<int>>, at: int) returns (left: seq<Op<P>>, right: seq<Op<P>>)
    requires forall i :: 0 <= i < |runs| ==> runs[i] != []
    ensures (left, right) == MovesBack<P>(runs, |runs|, at)
  {
    left, right := [], [];
    var ahead := 0;
    for i := 0 to |runs|
      invariant ahead == Held(runs, i)
      invariant (left, right) == MovesBack<P>(runs, i, at)
    {
      var run := runs[i];
      var from := at + ahead;
      var back := Move(Range(from, from + |run|), run[0]);
      if run[0] < from {
        left := left + [back];
      } else if run[0] > from {
        right := right + [back];
      }
      ahead := ahead + |run|;
    }
  }

  method InvertOp<P, T>(before: seq<T>, after: seq<T>, op: Op<P>, removed: Removed<T>, toPlayable: T -> P)
    returns (undo: seq<Op<P>>, removed': Removed<T>)
    requires Fits(before, op)
    requires op.Add? ==> |after| >= |before|
    ensures (undo, removed') == Inverted(before, after, op, removed, toPlayable)
  {
    match op
    case Add(optionalAt, _) =>
      var at := if optionalAt.Some? then optionalAt.value else |before|;
      var count := |after| - |before|;
      undo := if count != 0 then [Remove(Range(at, at + count))] else [];
      removed' := removed;
    case Remove(positions) =>
      var sel := Selection(positions, |before|).value;
      SelectionSelects(positions, |before|);
      RunsApart(sel, |before|, |sel|);
      var runs := SplitRuns(sel);
      undo, removed' := RestoreRuns(before, runs, removed, toPlayable);
    case Move(positions, at) =>
      var sel := Selection(positions, |before|).value;
      SelectionSelects(positions, |before|);
      RunsApart(sel, |before|, |sel|);
      var runs := SplitRuns(sel);
      var left, right := MoveRunsBack<P>(runs, at);
      undo, removed' := left + Reversed(right), removed;
  }

  /** Ops, and for each array one of their adds is given, the tracks it stands for. */
  datatype Inverse<P, T> = Inverse(ops: seq<Op<P>>, removed: Removed<T>)

  /** An op that applied fits. */
  lemma AppliesFits<P, T>(list: seq<T>, op: Op<P>, resolve: Resolve<P, T>)
    requires ApplyOp(list, op, resolve).Ok?
    ensures Fits(list, op)
    ensures op.Add? ==> |ApplyOp(list, op, resolve).value| >= |list|
  {}

  /** `later` and then `undo`. */
  function Then<P, T>(later: Result<Inverse<P, T>, Error>, undo: seq<Op<P>>): Result<Inverse<P, T>, Error> {
    match later
    case Err(e) => Err(e)
    case Ok(inverse) => Ok(Inverse(inverse.ops + undo, inverse.removed))
  }

  /** The undo of `ops` from `list`: the last op's undo first. */
  function Undone<P, T>(list: seq<T>, ops: seq<Op<P>>, resolve: Resolve<P, T>, toPlayable: T -> P, removed: Removed<T>): Result<Inverse<P, T>, Error>
    decreases |ops|
  {
    if ops == [] then Ok(Inverse([], removed))
    else
      var next :- ApplyOp(list, ops[0], resolve);
      AppliesFits(list, ops[0], resolve);
      var (undo, removed1) := Inverted(list, next, ops[0], removed, toPlayable);
      Then(Undone(next, ops[1..], resolve, toPlayable, removed1), undo)
  }

  lemma ThenNone<P, T>(later: Result<Inverse<P, T>, Error>)
    ensures Then(later, []) == later
  {
    if later.Ok? {
      assert later.value.ops + [] == later.value.ops;
    }
  }

  lemma ThenThen<P, T>(later: Result<Inverse<P, T>, Error>, a: seq<Op<P>>, b: seq<Op<P>>)
    ensures Then(Then(later, a), b) == Then(later, a + b)
  {
    if later.Ok? {
      assert (later.value.ops + a) + b == later.value.ops + (a + b);
    }
  }

  method InvertOps<P, T>(items: seq<T>, ops: seq<Op<P>>, resolve: Resolve<P, T>, toPlayable: T -> P)
    returns (r: Result<Inverse<P, T>, Error>)
    ensures r == Undone(items, ops, resolve, toPlayable, map[])
  {
    var list := items;
    var removed: Removed<T> := map[];
    var undo: seq<seq<Op<P>>> := [];
    ghost var all := Undone(items, ops, resolve, toPlayable, map[]);
    assert ops[0..] == ops;
    ThenNone(all);
    for i := 0 to |ops|
      invariant Then(Undone(list, ops[i..], resolve, toPlayable, removed), Flat(Reversed(undo))) == all
    {
      assert ops[i..][1..] == ops[i + 1..];
      var next := ApplyOp(list, ops[i], resolve);
      if next.Err? {
        return Err(next.error);
      }
      AppliesFits(list, ops[i], resolve);
      var back, removed' := InvertOp(list, next.value, ops[i], removed, toPlayable);
      FlatFront(back, Reversed(undo));
      ThenThen(Undone(next.value, ops[i + 1..], resolve, toPlayable, removed'), back, Flat(Reversed(undo)));
      assert (undo + [back])[..|undo|] == undo;
      undo := undo + [back];
      list, removed := next.value, removed';
    }
    assert [] + Flat(Reversed(undo)) == Flat(Reversed(undo));
    r := Ok(Inverse(Flat(Reversed(undo)), removed));
  }

  lemma {:induction false} JoinedFront<T>(x: seq<T>, s: seq<seq<T>>, i: nat)
    requires i <= |s|
    ensures Joined([x] + s, i + 1) == x + Joined(s, i)
  {
    if i > 0 {
      JoinedFront(x, s, i - 1);
    }
  }

  lemma FlatFront<T>(x: seq<T>, s: seq<seq<T>>)
    ensures Flat([x] + s) == x + Flat(s)
  {
    JoinedFront(x, s, |s|);
  }
}
