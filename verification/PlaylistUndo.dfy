/** An undo restores the list (web/src/lib/playlist-ops.ts:34-138): every list on its way is a weave, one run moved. */
module PlaylistUndo {
  import opened Wrappers
  import opened Orders
  import opened Playlist
  import opened Weaves

  // ---- Undoing a move ----

  /** Where runs sit once those before `lo` and those from `hi` on are home, the others at `at`. */
  ghost function Mixed(homes: seq<int>, at: int, lo: nat, hi: nat): (us: seq<int>)
    ensures |us| == |homes|
    ensures forall i :: 0 <= i < |homes| ==> us[i] == if i < lo || i >= hi then homes[i] else at
  {
    seq(|homes|, i requires 0 <= i < |homes| => if i < lo || i >= hi then homes[i] else at)
  }

  /** The runs before `lo` belong left of `at`, and those from `hi` on right of it. */
  ghost predicate Parted(homes: seq<int>, at: int, lo: nat, hi: nat) {
    && (forall i :: 0 <= i < |homes| && i < lo ==> homes[i] <= at)
    && (forall i :: 0 <= i < |homes| && i >= hi ==> homes[i] >= at)
  }

  lemma MixedPlaces(homes: seq<int>, at: int, lo: nat, hi: nat, length: nat)
    requires Places(homes, length) && 0 <= at <= length && Parted(homes, at, lo, hi)
    ensures Places(Mixed(homes, at, lo, hi), length)
  {}

  /** Runs with `homes` in `rest`, to move to or from `at`. */
  ghost predicate Movable<T>(rest: seq<T>, homes: seq<int>, pieces: seq<seq<T>>, at: int) {
    && |homes| == |pieces| && Places(homes, |rest|) && 0 <= at <= |rest|
    && (forall i :: 0 <= i < |pieces| ==> pieces[i] != [])
  }

  /** `homes` and `pieces` are those of the positions in `runs`. */
  ghost predicate Located<T>(homes: seq<int>, pieces: seq<seq<T>>, runs: seq<seq<int>>) {
    && |homes| == |pieces| == |runs|
    && (forall i :: 0 <= i < |runs| ==> runs[i] != [] && |pieces[i]| == |runs[i]|)
    && (forall i {:trigger homes[i]} :: 0 <= i < |homes| ==> homes[i] == runs[i][0] - Held(pieces, i))
  }

  /** The list while the runs before `lo` and from `hi` on are home, the others at `at`. */
  ghost function Halfway<T>(rest: seq<T>, homes: seq<int>, pieces: seq<seq<T>>, at: int, lo: nat, hi: nat): seq<T>
    requires Movable(rest, homes, pieces, at) && Parted(homes, at, lo, hi)
  {
    MixedPlaces(homes, at, lo, hi, |rest|);
    Weave(rest, Mixed(homes, at, lo, hi), pieces)
  }

  lemma {:induction false} SameHeld<T>(pieces: seq<seq<T>>, runs: seq<seq<int>>, i: nat)
    requires |pieces| == |runs| && i <= |runs|
    requires forall k :: 0 <= k < |runs| ==> |pieces[k]| == |runs[k]|
    ensures Held(pieces, i) == Held(runs, i)
  {
    if i > 0 {
      SameHeld(pieces, runs, i - 1);
    }
  }

  /** The move that brings the run `i` home from `at`. */
  ghost function Back<P, T>(homes: seq<int>, pieces: seq<seq<T>>, at: int, i: nat): Op<P>
    requires |homes| == |pieces| && i < |homes|
  {
    MoveOf(at + Held(pieces, i), |pieces[i]|, homes[i] + Held(pieces, i))
  }

  /** The moves that bring the runs from `lo` to before `hi` home, in playlist order. */
  ghost function Backs<P, T>(homes: seq<int>, pieces: seq<seq<T>>, at: int, lo: nat, hi: nat): seq<Op<P>>
    requires |homes| == |pieces| && lo <= hi <= |homes|
  {
    if lo == hi then [] else Backs(homes, pieces, at, lo, hi - 1) + [Back(homes, pieces, at, hi - 1)]
  }

  /** The runs before `lo` go left, those from `hi` on go right, and those between are in place. */
  ghost predicate Splits(homes: seq<int>, at: int, lo: nat, hi: nat) {
    && lo <= hi <= |homes|
    && (forall i :: 0 <= i < lo ==> homes[i] < at)
    && (forall i :: lo <= i < hi ==> homes[i] == at)
    && (forall i :: hi <= i < |homes| ==> homes[i] > at)
  }

  /** The undo of the first `n` runs: those going left, and those going right. */
  lemma {:induction false} MovesBackSplit<P, T>(homes: seq<int>, pieces: seq<seq<T>>, runs: seq<seq<int>>,
                                                at: int, lo: nat, hi: nat, n: nat)
    requires Located(homes, pieces, runs) && Splits(homes, at, lo, hi) && n <= |runs|
    ensures MovesBack<P>(runs, n, at).0 == Backs<P, T>(homes, pieces, at, 0, if n < lo then n else lo)
    ensures MovesBack<P>(runs, n, at).1 == if n < hi then [] else Backs<P, T>(homes, pieces, at, hi, n)
  {
    if n > 0 {
      MovesBackSplit<P, T>(homes, pieces, runs, at, lo, hi, n - 1);
      SameHeld(pieces, runs, n - 1);
      assert homes[n - 1] == runs[n - 1][0] - Held(pieces, n - 1);
    }
  }

  /** Bringing the run at `lo` home. */
  lemma BackLeft<P, T>(rest: seq<T>, homes: seq<int>, pieces: seq<seq<T>>, at: int, lo: nat, resolve: Resolve<P, T>)
    requires Movable(rest, homes, pieces, at) && lo < |homes| && Parted(homes, at, lo + 1, |homes|)
    ensures ApplyOp(Halfway(rest, homes, pieces, at, lo, |homes|), Back(homes, pieces, at, lo), resolve)
         == Ok(Halfway(rest, homes, pieces, at, lo + 1, |homes|))
  {
    hide ApplyOp, Woven, Weaving, Held;
    MixedPlaces(homes, at, lo, |homes|, |rest|);
    MixedPlaces(homes, at, lo + 1, |homes|, |rest|);
    var us := Mixed(homes, at, lo, |homes|);
    assert us[lo := homes[lo]] == Mixed(homes, at, lo + 1, |homes|);
    MoveRun(rest, us, pieces, lo, homes[lo], resolve);
  }

  /** Bringing the run before `hi` home. */
  lemma BackRight<P, T>(rest: seq<T>, homes: seq<int>, pieces: seq<seq<T>>, at: int, lo: nat, hi: nat, resolve: Resolve<P, T>)
    requires Movable(rest, homes, pieces, at) && lo < hi <= |homes| && Parted(homes, at, lo, hi - 1)
    ensures ApplyOp(Halfway(rest, homes, pieces, at, lo, hi), Back(homes, pieces, at, hi - 1), resolve)
         == Ok(Halfway(rest, homes, pieces, at, lo, hi - 1))
  {
    hide ApplyOp, Woven, Weaving, Held;
    MixedPlaces(homes, at, lo, hi, |rest|);
    MixedPlaces(homes, at, lo, hi - 1, |rest|);
    var us := Mixed(homes, at, lo, hi);
    assert us[hi - 1 := homes[hi - 1]] == Mixed(homes, at, lo, hi - 1);
    MoveRun(rest, us, pieces, hi - 1, homes[hi - 1], resolve);
  }

  lemma ApplyLast<P, T>(list: seq<T>, ops: seq<Op<P>>, last: Op<P>, mid: seq<T>, end: seq<T>, resolve: Resolve<P, T>)
    requires Applied(list, ops, resolve) == Ok(mid) && ApplyOp(mid, last, resolve) == Ok(end)
    ensures Applied(list, ops + [last], resolve) == Ok(end)
  {
    AppliedConcat(list, ops, [last], resolve);
    assert [last][1..] == [];
  }

  lemma ApplyFirst<P, T>(list: seq<T>, first: Op<P>, ops: seq<Op<P>>, mid: seq<T>, end: seq<T>, resolve: Resolve<P, T>)
    requires ApplyOp(list, first, resolve) == Ok(mid) && Applied(mid, ops, resolve) == Ok(end)
    ensures Applied(list, [first] + ops, resolve) == Ok(end)
  {
    assert ([first] + ops)[1..] == ops;
  }

  lemma ReversedGrows<T>(s: seq<T>, x: T)
    ensures Reversed(s + [x]) == [x] + Reversed(s)
  {
    assert (s + [x])[..|s|] == s;
  }

  /** The moves left, in playlist order, bring the runs left of `at` home. */
  lemma {:induction false} UndoLeft<P, T>(rest: seq<T>, homes: seq<int>, pieces: seq<seq<T>>, at: int, n: nat, resolve: Resolve<P, T>)
    requires Movable(rest, homes, pieces, at) && n <= |homes| && Parted(homes, at, n, |homes|)
    ensures Applied(Halfway(rest, homes, pieces, at, 0, |homes|), Backs(homes, pieces, at, 0, n), resolve)
         == Ok(Halfway(rest, homes, pieces, at, n, |homes|))
  {
    hide ApplyOp, Halfway, Back;
    if n > 0 {
      UndoLeft(rest, homes, pieces, at, n - 1, resolve);
      BackLeft(rest, homes, pieces, at, n - 1, resolve);
      ApplyLast(Halfway(rest, homes, pieces, at, 0, |homes|), Backs(homes, pieces, at, 0, n - 1), Back(homes, pieces, at, n - 1),
                Halfway(rest, homes, pieces, at, n - 1, |homes|), Halfway(rest, homes, pieces, at, n, |homes|), resolve);
    }
  }

  lemma HalfwayHome<T>(rest: seq<T>, homes: seq<int>, pieces: seq<seq<T>>, at: int, m: nat)
    requires Movable(rest, homes, pieces, at) && Parted(homes, at, m, m)
    ensures Halfway(rest, homes, pieces, at, m, m) == Weave(rest, homes, pieces)
  {
    assert Mixed(homes, at, m, m) == homes;
  }

  /** The moves right, last first, bring the runs from `m` on home. */
  lemma {:induction false} UndoRight<P, T>(rest: seq<T>, homes: seq<int>, pieces: seq<seq<T>>, at: int, m: nat, n: nat, resolve: Resolve<P, T>)
    requires Movable(rest, homes, pieces, at) && m <= n <= |homes| && Parted(homes, at, m, m)
    ensures Applied(Halfway(rest, homes, pieces, at, m, n), Reversed(Backs(homes, pieces, at, m, n)), resolve)
         == Ok(Weave(rest, homes, pieces))
  {
    hide ApplyOp, Halfway, Back, Weave;
    if n == m {
      HalfwayHome(rest, homes, pieces, at, m);
    } else {
      UndoRight(rest, homes, pieces, at, m, n - 1, resolve);
      BackRight(rest, homes, pieces, at, m, n, resolve);
      var right := Backs<P, T>(homes, pieces, at, m, n - 1);
      ReversedGrows(right, Back<P, T>(homes, pieces, at, n - 1));
      ApplyFirst(Halfway(rest, homes, pieces, at, m, n), Back(homes, pieces, at, n - 1), Reversed(right),
                 Halfway(rest, homes, pieces, at, m, n - 1), Weave(rest, homes, pieces), resolve);
    }
  }

  /** Runs left of `at` come first, then at most one already in place, then those right of it. */
  lemma SplitRunsAt(homes: seq<int>, at: int) returns (lo: nat, hi: nat)
    requires forall i, j :: 0 <= i < j < |homes| ==> homes[i] < homes[j]
    ensures Splits(homes, at, lo, hi)
  {
    lo := 0;
    while lo < |homes| && homes[lo] < at
      invariant lo <= |homes|
      invariant forall i :: 0 <= i < lo ==> homes[i] < at
    {
      lo := lo + 1;
    }
    hi := if lo < |homes| && homes[lo] == at then lo + 1 else lo;
  }

  /** A move's undo, left-going runs in order and then right-going ones last first, brings every
      run home. */
  lemma UndoMoves<P, T>(rest: seq<T>, homes: seq<int>, pieces: seq<seq<T>>, runs: seq<seq<int>>, at: int, resolve: Resolve<P, T>)
    requires Movable(rest, homes, pieces, at) && Located(homes, pieces, runs)
    requires forall i, j :: 0 <= i < j < |homes| ==> homes[i] < homes[j]
    ensures var (left, right) := MovesBack<P>(runs, |runs|, at);
            Applied(Halfway(rest, homes, pieces, at, 0, |homes|), left + Reversed(right), resolve)
            == Ok(Weave(rest, homes, pieces))
  {
    var k := |homes|;
    var lo, hi := SplitRunsAt(homes, at);
    MovesBackSplit<P, T>(homes, pieces, runs, at, lo, hi, k);
    UndoLeft(rest, homes, pieces, at, lo, resolve);
    assert Mixed(homes, at, lo, k) == Mixed(homes, at, hi, k);
    UndoRight(rest, homes, pieces, at, hi, k, resolve);
    AppliedConcat(Halfway(rest, homes, pieces, at, 0, k), Backs(homes, pieces, at, 0, lo),
                  Reversed(Backs(homes, pieces, at, hi, k)), resolve);
  }

  /** With every run at `at`, the pieces sit together there. */
  lemma {:induction false} Together<T>(rest: seq<T>, us: seq<int>, pieces: seq<seq<T>>, at: int, i: nat)
    requires |us| == |pieces| && Places(us, |rest|) && i <= |us|
    requires 0 <= at <= |rest| && forall k :: 0 <= k < |us| ==> us[k] == at
    ensures Woven(rest, us, pieces, i) == (if i == 0 then [] else rest[..at]) + Joined(pieces, i)
  {
    if i == 1 {
      assert Woven(rest, us, pieces, 1) == [] + rest[..at] + pieces[0];
      assert Joined(pieces, 1) == [] + pieces[0];
    } else if i > 1 {
      Together(rest, us, pieces, at, i - 1);
      assert rest[at..at] == [];
      Append(Woven(rest, us, pieces, i - 1), rest[..at], Joined(pieces, i - 1), pieces[i - 1]);
    }
  }

  lemma Append<T>(w: seq<T>, front: seq<T>, joined: seq<T>, x: seq<T>)
    requires w == front + joined
    ensures w + [] + x == front + (joined + x)
  {}

  lemma {:induction false} JoinedAt<T>(list: seq<T>, runs: seq<seq<int>>, i: nat)
    requires Within(runs, |list|) && Apart(runs, |list|) && i <= |runs|
    ensures InRange(Joined(runs, i), |list|)
    ensures Joined(Pieces(list, runs), i) == At(list, Joined(runs, i))
  {
    if i > 0 {
      JoinedAt(list, runs, i - 1);
      var run := runs[i - 1];
      assert IsRun(run, |list|);
      RunAtSlice(list, run);
      AtConcat(list, Joined(runs, i - 1), run);
    }
  }

  lemma AtConcat<T>(list: seq<T>, a: seq<int>, b: seq<int>)
    requires InRange(a, |list|) && IsRun(b, |list|)
    ensures InRange(a + b, |list|) && InRange(b, |list|)
    ensures At(list, a + b) == At(list, a) + At(list, b)
  {
    assert forall i :: 0 <= i < |b| ==> b[i] == Range(b[0], b[0] + |b|)[i] == b[0] + i;
  }

  /** A moved list is the same weave with every run at `at`. */
  lemma MovedWeave<T>(list: seq<T>, rest: seq<T>, sel: seq<int>, runs: seq<seq<int>>, at: int)
    requires runs != [] && Flat(runs) == sel
    requires Apart(runs, |list|) && Within(runs, |list|) && Movable(rest, Homes(runs), Pieces(list, runs), at)
    ensures InRange(sel, |list|)
    ensures Halfway(rest, Homes(runs), Pieces(list, runs), at, 0, |runs|) == Spliced(rest, at, At(list, sel))
  {
    JoinedAt(list, runs, |runs|);
    HalfwayAllAt(rest, Homes(runs), Pieces(list, runs), at);
  }

  lemma HalfwayAllAt<T>(rest: seq<T>, homes: seq<int>, pieces: seq<seq<T>>, at: int)
    requires Movable(rest, homes, pieces, at) && homes != []
    ensures Halfway(rest, homes, pieces, at, 0, |homes|) == Spliced(rest, at, Joined(pieces, |pieces|))
  {
    MixedPlaces(homes, at, 0, |homes|, |rest|);
    WeaveAllAt(rest, Mixed(homes, at, 0, |homes|), pieces, at);
  }

  lemma WeaveAllAt<T>(rest: seq<T>, us: seq<int>, pieces: seq<seq<T>>, at: int)
    requires |us| == |pieces| > 0 && Places(us, |rest|)
    requires 0 <= at <= |rest| && forall k :: 0 <= k < |us| ==> us[k] == at
    ensures Weave(rest, us, pieces) == Spliced(rest, at, Joined(pieces, |us|))
  {
    Together(rest, us, pieces, at, |us|);
    WeaveCut(rest, us, pieces, |us|);
  }

  /** The homes and pieces of a selection's runs, which a move of them can be undone by. */
  lemma RunsMovable<T>(list: seq<T>, rest: seq<T>, runs: seq<seq<int>>, at: int)
    requires Apart(runs, |list|) && Within(runs, |list|) && Places(Homes(runs), |rest|) && 0 <= at <= |rest|
    ensures Movable(rest, Homes(runs), Pieces(list, runs), at)
    ensures Located(Homes(runs), Pieces(list, runs), runs)
    ensures forall i, j :: 0 <= i < j < |runs| ==> Homes(runs)[i] < Homes(runs)[j]
  {
    forall i | 0 <= i < |runs| ensures runs[i] != [] && Homes(runs)[i] == runs[i][0] - Held(Pieces(list, runs), i) {
      assert WithinOne(runs[i], |list|);
      PiecesHeld(list, runs, i);
    }
    forall i, j | 0 <= i < j < |runs| ensures Homes(runs)[i] < Homes(runs)[j] {
      HomesAscend(runs, |list|, i, j);
    }
  }

  /** What a selection leaves and its runs are of the list they are from. */
  lemma SelectionWeave<T>(list: seq<T>, sel: seq<int>) returns (runs: seq<seq<int>>, rest: seq<T>)
    requires Selects(sel, |list|)
    ensures runs == Runs(sel) && rest == Without(list, AsSet(sel)) && Flat(runs) == sel
    ensures sel != [] ==> runs != []
    ensures Apart(runs, |list|) && Within(runs, |list|) && Places(Homes(runs), |rest|)
    ensures Weave(rest, Homes(runs), Pieces(list, runs)) == list
  {
    runs, rest := Runs(sel), Without(list, AsSet(sel));
    RunsFlat(sel, |sel|);
    assert sel[..|sel|] == sel;
    RunsApart(sel, |list|, |sel|);
    SelectionDrops(sel, |list|);
    HomeWeave(list, AsSet(sel), runs);
  }

  /** A move's undo restores the list. */
  lemma UndoMove<P, T>(before: seq<T>, sel: seq<int>, at: int, resolve: Resolve<P, T>)
    requires Selects(sel, |before|) && sel != [] && 0 <= at <= |Without(before, AsSet(sel))|
    ensures Apart(Runs(sel), |before|)
    ensures var (left, right) := MovesBack<P>(Runs(sel), |Runs(sel)|, at);
            Applied(Spliced(Without(before, AsSet(sel)), at, At(before, sel)), left + Reversed(right), resolve)
            == Ok(before)
  {
    var runs, rest := SelectionWeave(before, sel);
    RunsMovable(before, rest, runs, at);
    MovedWeave(before, rest, sel, runs, at);
    UndoMoves(rest, Homes(runs), Pieces(before, runs), runs, at, resolve);
  }

  // ---- Undoing a remove ----

  /** Every array so far has an identity, given in the order they were made. */
  ghost predicate Numbered<T>(removed: Removed<T>) {
    forall id: nat :: id in removed <==> id < |removed|
  }

  /** Everything `a` brings back, `b` brings back the same. */
  ghost predicate Keeps<T>(a: Removed<T>, b: Removed<T>) {
    forall id :: id in a ==> id in b && b[id] == a[id]
  }

  /** The rest, with the first `i` runs back in. */
  ghost function PartBack<T>(rest: seq<T>, us: seq<int>, pieces: seq<seq<T>>, i: nat): seq<T>
    requires |us| == |pieces| && Places(us, |rest|) && i <= |us|
  {
    Woven(rest, us, pieces, i) + rest[Reached(us, i)..]
  }

  lemma NoneBack<T>(rest: seq<T>, us: seq<int>, pieces: seq<seq<T>>)
    requires |us| == |pieces| && Places(us, |rest|)
    ensures PartBack(rest, us, pieces, 0) == rest
  {}

  /** Adding the run `i` back where it was. */
  lemma AddBack<T>(rest: seq<T>, us: seq<int>, pieces: seq<seq<T>>, i: nat, at: int)
    requires |us| == |pieces| && Places(us, |rest|) && i < |us| && at == us[i] + Held(pieces, i)
    ensures 0 <= at <= |PartBack(rest, us, pieces, i)|
    ensures Spliced(PartBack(rest, us, pieces, i), at, pieces[i]) == PartBack(rest, us, pieces, i + 1)
  {
    hide Spliced, Held;
    var done, r, u := Woven(rest, us, pieces, i), Reached(us, i), us[i];
    assert |done| == r + Held(pieces, i) by {
      WovenLength(rest, us, pieces, i);
    }
    assert PartBack(rest, us, pieces, i + 1) == done + rest[r..u] + pieces[i] + rest[u..];
    hide Woven;
    SpliceAfter(done, rest, r, u, pieces[i], at);
  }

  lemma SpliceAfter<T>(done: seq<T>, rest: seq<T>, r: nat, u: nat, piece: seq<T>, at: nat)
    requires r <= u <= |rest| && at == |done| + (u - r)
    ensures Spliced(done + rest[r..], at, piece) == done + rest[r..u] + piece + rest[u..]
  {
    var list := done + rest[r..];
    assert list[..at] == done + rest[r..u];
    assert list[at..] == rest[u..];
  }

  /** Undo adds name their items with arrays of their own. */
  lemma {:induction false} RestoresNumbered<P, T>(list: seq<T>, runs: seq<seq<int>>, i: nat, removed: Removed<T>, toPlayable: T -> P)
    requires Apart(runs, |list|) && i <= |runs| && Numbered(removed)
    ensures Numbered(Restores(list, runs, i, removed, toPlayable).1)
    ensures Keeps(removed, Restores(list, runs, i, removed, toPlayable).1)
  {
    if i > 0 {
      RestoresNumbered(list, runs, i - 1, removed, toPlayable);
      assert IsRun(runs[i - 1], |list|);
      RestoreNumbers(removed, Restores(list, runs, i - 1, removed, toPlayable).1, RunAt(list, runs[i - 1]), toPlayable);
      hide Numbered, Keeps, RunAt, Restore;
    }
  }

  lemma RestoreNumbers<P, T>(removed: Removed<T>, removed1: Removed<T>, back: seq<T>, toPlayable: T -> P)
    requires Numbered(removed1) && Keeps(removed, removed1)
    ensures Numbered(Restore<P, T>(removed1, back, toPlayable).1)
    ensures Keeps(removed, Restore<P, T>(removed1, back, toPlayable).1)
  {}

  lemma RestoresStep<P, T>(list: seq<T>, runs: seq<seq<int>>, i: nat, removed: Removed<T>, toPlayable: T -> P, all: Removed<T>)
    requires Apart(runs, |list|) && i < |runs| && IsRun(runs[i], |list|)
    requires Numbered(removed) && Keeps(Restores(list, runs, i + 1, removed, toPlayable).1, all)
    ensures var (ops, removed1) := Restores(list, runs, i, removed, toPlayable);
            && Restores(list, runs, i + 1, removed, toPlayable).0 == ops + [BackAdd(list, runs[i], removed1, toPlayable)]
            && Keeps(removed1, all)
            && Keeps(Restore<P, T>(removed1, RunAt(list, runs[i]), toPlayable).1, all)
  {
    RestoresNumbered(list, runs, i, removed, toPlayable);
  }

  /** The adds of a remove's undo, in playlist order, put the first `i` runs back. */
  ghost predicate PutsBack<P, T>(list: seq<T>, rest: seq<T>, runs: seq<seq<int>>, i: nat,
                                 removed: Removed<T>, toPlayable: T -> P, all: Removed<T>)
    requires Apart(runs, |list|) && Within(runs, |list|) && Places(Homes(runs), |rest|) && i <= |runs|
  {
    Applied(rest, Restores(list, runs, i, removed, toPlayable).0, BringBack(all))
    == Ok(PartBack(rest, Homes(runs), Pieces(list, runs), i))
  }

  lemma PutsNextBack<P, T>(list: seq<T>, rest: seq<T>, runs: seq<seq<int>>, i: nat,
                           removed: Removed<T>, toPlayable: T -> P, all: Removed<T>)
    requires Apart(runs, |list|) && Within(runs, |list|) && Places(Homes(runs), |rest|)
    requires i < |runs| && IsRun(runs[i], |list|)
    requires Numbered(removed) && Keeps(Restores(list, runs, i + 1, removed, toPlayable).1, all)
    requires PutsBack(list, rest, runs, i, removed, toPlayable, all)
    ensures PutsBack(list, rest, runs, i + 1, removed, toPlayable, all)
  {
    RestoresStep(list, runs, i, removed, toPlayable, all);
    hide ApplyOp, PartBack, Numbered, Keeps, BackAdd, Restore, RunAt, Apart, Within, Places, Pieces, Homes;
    var (ops, removed1) := Restores(list, runs, i, removed, toPlayable);
    UndoAdd(list, rest, runs, i, removed1, toPlayable, all);
    ApplyLast(rest, ops, BackAdd(list, runs[i], removed1, toPlayable),
              PartBack(rest, Homes(runs), Pieces(list, runs), i),
              PartBack(rest, Homes(runs), Pieces(list, runs), i + 1), BringBack(all));
  }

  lemma {:induction false} UndoAdds<P, T>(list: seq<T>, rest: seq<T>, runs: seq<seq<int>>, i: nat,
                                          removed: Removed<T>, toPlayable: T -> P, all: Removed<T>)
    requires Apart(runs, |list|) && Within(runs, |list|) && Places(Homes(runs), |rest|) && i <= |runs|
    requires Numbered(removed) && Keeps(Restores(list, runs, i, removed, toPlayable).1, all)
    ensures PutsBack(list, rest, runs, i, removed, toPlayable, all)
  {
    hide PutsBack, Numbered, Keeps;
    if i == 0 {
      PutsNoneBack(list, rest, runs, removed, toPlayable, all);
    } else {
      RunWithin(list, runs, i - 1);
      RestoresKeeps(list, runs, i - 1, removed, toPlayable, all);
      hide Apart, Within, Places, Restores, IsRun, Homes;
      UndoAdds(list, rest, runs, i - 1, removed, toPlayable, all);
      PutsNextBack(list, rest, runs, i - 1, removed, toPlayable, all);
    }
  }

  lemma PutsNoneBack<P, T>(list: seq<T>, rest: seq<T>, runs: seq<seq<int>>,
                           removed: Removed<T>, toPlayable: T -> P, all: Removed<T>)
    requires Apart(runs, |list|) && Within(runs, |list|) && Places(Homes(runs), |rest|)
    ensures PutsBack(list, rest, runs, 0, removed, toPlayable, all)
  {
    hide PartBack;
    NoneBack(rest, Homes(runs), Pieces(list, runs));
  }

  lemma RunWithin<T>(list: seq<T>, runs: seq<seq<int>>, i: nat)
    requires Apart(runs, |list|) && Within(runs, |list|) && i < |runs|
    ensures IsRun(runs[i], |list|)
  {
  }

  lemma RestoresKeeps<P, T>(list: seq<T>, runs: seq<seq<int>>, i: nat, removed: Removed<T>, toPlayable: T -> P, all: Removed<T>)
    requires Apart(runs, |list|) && i < |runs| && IsRun(runs[i], |list|)
    requires Numbered(removed) && Keeps(Restores(list, runs, i + 1, removed, toPlayable).1, all)
    ensures Keeps(Restores(list, runs, i, removed, toPlayable).1, all)
  {
    hide Numbered, Keeps, BackAdd;
    RestoresStep(list, runs, i, removed, toPlayable, all);
  }

  /** The add that brings `run` back. */
  ghost function BackAdd<P, T>(list: seq<T>, run: seq<int>, removed: Removed<T>, toPlayable: T -> P): Op<P>
    requires IsRun(run, |list|)
  {
    Add(Some(run[0]), Restore(removed, RunAt(list, run), toPlayable).0)
  }

  lemma UndoAdd<P, T>(list: seq<T>, rest: seq<T>, runs: seq<seq<int>>, i: nat,
                      removed: Removed<T>, toPlayable: T -> P, all: Removed<T>)
    requires Apart(runs, |list|) && Within(runs, |list|) && Places(Homes(runs), |rest|) && i < |runs|
    requires IsRun(runs[i], |list|) && Keeps(Restore(removed, RunAt(list, runs[i]), toPlayable).1, all)
    ensures ApplyOp(PartBack(rest, Homes(runs), Pieces(list, runs), i),
                    BackAdd(list, runs[i], removed, toPlayable), BringBack(all))
         == Ok(PartBack(rest, Homes(runs), Pieces(list, runs), i + 1))
  {
    hide Woven, Held;
    RunAtSlice(list, runs[i]);
    PiecesHeld(list, runs, i);
    AddBack(rest, Homes(runs), Pieces(list, runs), i, runs[i][0]);
    var removed' := Restore<P, T>(removed, RunAt(list, runs[i]), toPlayable).1;
    assert |removed| in removed' && removed'[|removed|] == Pieces(list, runs)[i];
  }

  /** A remove's undo restores the list. */
  lemma UndoRemove<P, T>(before: seq<T>, sel: seq<int>, removed: Removed<T>, toPlayable: T -> P, all: Removed<T>)
    requires Selects(sel, |before|) && Apart(Runs(sel), |before|) && Numbered(removed)
    requires Keeps(Restores(before, Runs(sel), |Runs(sel)|, removed, toPlayable).1, all)
    ensures Applied(Without(before, AsSet(sel)), Restores(before, Runs(sel), |Runs(sel)|, removed, toPlayable).0, BringBack(all))
         == Ok(before)
  {
    var runs, rest := SelectionWeave(before, sel);
    UndoAdds(before, rest, runs, |runs|, removed, toPlayable, all);
    WeaveCut(rest, Homes(runs), Pieces(before, runs), |runs|);
  }

  /** An add's undo restores the list. */
  lemma UndoAdded<P, T>(before: seq<T>, at: nat, added: seq<T>, resolve: Resolve<P, T>)
    requires at <= |before|
    ensures Applied(Spliced(before, at, added), if |added| > 0 then [Remove(Range(at, at + |added|))] else [], resolve) == Ok(before)
  {
    assert before == before[..at] + before[at..];
    if added == [] {
      assert Spliced(before, at, added) == before;
    } else {
      RemoveRange(before[..at], added, before[at..], resolve);
      var ops: seq<Op<P>> := [Remove(Range(at, at + |added|))];
      assert ops[1..] == [];
    }
  }

  // ---- Undoing an edit ----

  /** An op's undo restores the list, and keeps what undos before it bring back. */
  lemma UndoOp<P, T>(before: seq<T>, after: seq<T>, op: Op<P>, resolve: Resolve<P, T>,
                     removed: Removed<T>, toPlayable: T -> P, all: Removed<T>)
    requires ApplyOp(before, op, resolve) == Ok(after) && Fits(before, op) && Numbered(removed)
    ensures var (undo, removed') := Inverted(before, after, op, removed, toPlayable);
            && Numbered(removed') && Keeps(removed, removed')
            && (Keeps(removed', all) ==> Applied(after, undo, BringBack(all)) == Ok(before))
  {
    match op
    case Add(optionalAt, items) =>
      var at := if optionalAt.Some? then optionalAt.value else |before|;
      UndoAdded<P, T>(before, at, resolve(items).value, BringBack(all));
    case Remove(positions) =>
      var sel := Selection(positions, |before|).value;
      SelectionSelects(positions, |before|);
      RunsApart(sel, |before|, |sel|);
      RestoresNumbered(before, Runs(sel), |Runs(sel)|, removed, toPlayable);
      if Keeps(Restores(before, Runs(sel), |Runs(sel)|, removed, toPlayable).1, all) {
        UndoRemove(before, sel, removed, toPlayable, all);
      }
    case Move(positions, at) =>
      var sel := Selection(positions, |before|).value;
      SelectionSelects(positions, |before|);
      UndoMove<P, T>(before, sel, at, BringBack(all));
  }

  lemma {:induction false} UndoEdit<P, T>(list: seq<T>, ops: seq<Op<P>>, resolve: Resolve<P, T>,
                                          removed: Removed<T>, toPlayable: T -> P, all: Removed<T>)
    requires Applied(list, ops, resolve).Ok? && Numbered(removed)
    ensures Undone(list, ops, resolve, toPlayable, removed).Ok?
    ensures var inverse := Undone(list, ops, resolve, toPlayable, removed).value;
            && Numbered(inverse.removed) && Keeps(removed, inverse.removed)
            && (Keeps(inverse.removed, all) ==>
                  Applied(Applied(list, ops, resolve).value, inverse.ops, BringBack(all)) == Ok(list))
    decreases |ops|
  {
    if ops != [] {
      var next := ApplyOp(list, ops[0], resolve).value;
      AppliesFits(list, ops[0], resolve);
      var (undo, removed1) := Inverted(list, next, ops[0], removed, toPlayable);
      UndoOp(list, next, ops[0], resolve, removed, toPlayable, all);
      UndoEdit(next, ops[1..], resolve, removed1, toPlayable, all);
      var later := Undone(next, ops[1..], resolve, toPlayable, removed1).value;
      if Keeps(later.removed, all) {
        AppliedConcat(Applied(list, ops, resolve).value, later.ops, undo, BringBack(all));
      }
    }
  }

  /** Undo restores: whatever edit applied, applying the ops of its undo, with the resolve that
      comes with them, never fails and gives back exactly the list the edit was made to. */
  lemma UndoRestores<P, T>(items: seq<T>, ops: seq<Op<P>>, resolve: Resolve<P, T>, toPlayable: T -> P)
    requires Applied(items, ops, resolve).Ok?
    ensures Undone(items, ops, resolve, toPlayable, map[]).Ok?
    ensures var inverse := Undone(items, ops, resolve, toPlayable, map[]).value;
            Applied(Applied(items, ops, resolve).value, inverse.ops, BringBack(inverse.removed)) == Ok(items)
  {
    var nothing: Removed<T> := map[];
    UndoEdit(items, ops, resolve, nothing, toPlayable, nothing);
    UndoEdit(items, ops, resolve, nothing, toPlayable, Undone(items, ops, resolve, toPlayable, nothing).value.removed);
  }

  /** An edit that is refused has no undo: making one is refused for the same reason. */
  lemma {:induction false} RefusedAlike<P, T>(list: seq<T>, ops: seq<Op<P>>, resolve: Resolve<P, T>,
                                              removed: Removed<T>, toPlayable: T -> P)
    requires Applied(list, ops, resolve).Err?
    ensures Undone(list, ops, resolve, toPlayable, removed) == Err(Applied(list, ops, resolve).error)
    decreases |ops|
  {
    var next := ApplyOp(list, ops[0], resolve);
    if next.Ok? {
      AppliesFits(list, ops[0], resolve);
      RefusedAlike(next.value, ops[1..], resolve, Inverted(list, next.value, ops[0], removed, toPlayable).1, toPlayable);
    }
  }
}
