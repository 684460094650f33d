/** A list with some of its items picked out is the rest of it, woven with the runs of what was picked: each run
    sits after so many of the rest.

    The list itself is the weave with each run at its home, and a list whose picked items were moved is the weave
    with every run at one place. A playlist op that moves one run changes that run's place alone, since the run goes
    past only the rest: so the undo of a move, op by op, is a change of one place at a time. */
module Weaves {
  import opened Wrappers
  import opened Orders
  import opened Sorting
  import opened Playlist

  // ---- Weaving runs into the rest of a list ----

  /** `us` places runs in a rest of `length` items: in range and never out of order. */
  ghost predicate Places(us: seq<int>, length: int) {
    && (forall i :: 0 <= i < |us| ==> 0 <= us[i] <= length)
    && (forall i, j :: 0 <= i < j < |us| ==> us[i] <= us[j])
  }

  /** How much of the rest comes before the runs from `i` on, at least. */
  ghost function Reached(us: seq<int>, i: nat): int
    requires i <= |us|
  {
    if i == 0 then 0 else us[i - 1]
  }

  /** The weave of `rest` and the first `i` runs, up to the last of them. */
  ghost function Woven<T>(rest: seq<T>, us: seq<int>, runs: seq<seq<T>>, i: nat): seq<T>
    requires |us| == |runs| && Places(us, |rest|) && i <= |us|
  {
    if i == 0 then []
    else Woven(rest, us, runs, i - 1) + rest[Reached(us, i - 1)..us[i - 1]] + runs[i - 1]
  }

  /** The weave of `rest` from `c` on and the runs from `i` on. */
  ghost function Weaving<T>(rest: seq<T>, c: int, us: seq<int>, runs: seq<seq<T>>, i: nat): seq<T>
    requires |us| == |runs| && Places(us, |rest|) && i <= |us|
    requires 0 <= c <= if i < |us| then us[i] else |rest|
    decreases |us| - i
  {
    if i == |us| then rest[c..]
    else rest[c..us[i]] + runs[i] + Weaving(rest, us[i], us, runs, i + 1)
  }

  /** `rest` with each of `runs` put in after as many of its items as `us` says. */
  ghost function Weave<T>(rest: seq<T>, us: seq<int>, runs: seq<seq<T>>): seq<T>
    requires |us| == |runs| && Places(us, |rest|)
  {
    Weaving(rest, 0, us, runs, 0)
  }

  lemma {:induction false} WovenLength<T>(rest: seq<T>, us: seq<int>, runs: seq<seq<T>>, i: nat)
    requires |us| == |runs| && Places(us, |rest|) && i <= |us|
    ensures |Woven(rest, us, runs, i)| == Reached(us, i) + Held(runs, i)
  {
    if i > 0 {
      WovenLength(rest, us, runs, i - 1);
    }
  }

  /** A weave can be cut after any of its runs. */
  lemma {:induction false} WeaveCut<T>(rest: seq<T>, us: seq<int>, runs: seq<seq<T>>, i: nat)
    requires |us| == |runs| && Places(us, |rest|) && i <= |us|
    ensures Weave(rest, us, runs) == Woven(rest, us, runs, i) + Weaving(rest, Reached(us, i), us, runs, i)
  {
    if i > 0 {
      WeaveCut(rest, us, runs, i - 1);
      Regroup(Woven(rest, us, runs, i - 1), rest[Reached(us, i - 1)..us[i - 1]], runs[i - 1], Weaving(rest, us[i - 1], us, runs, i));
    }
  }

  /** Where no run sits, the weave is the rest. */
  lemma WeavingSkips<T>(rest: seq<T>, c: int, d: int, us: seq<int>, runs: seq<seq<T>>, i: nat)
    requires |us| == |runs| && Places(us, |rest|) && i <= |us|
    requires 0 <= c <= d <= if i < |us| then us[i] else |rest|
    ensures Weaving(rest, c, us, runs, i) == rest[c..d] + Weaving(rest, d, us, runs, i)
  {
    if i == |us| {
      assert rest[c..] == rest[c..d] + rest[d..];
    } else {
      assert rest[c..us[i]] == rest[c..d] + rest[d..us[i]];
      Regroup(rest[c..d], rest[d..us[i]], runs[i], Weaving(rest, us[i], us, runs, i + 1));
    }
  }

  lemma {:induction false} WovenAgrees<T>(rest: seq<T>, us: seq<int>, vs: seq<int>, runs: seq<seq<T>>, i: nat)
    requires |us| == |vs| == |runs| && Places(us, |rest|) && Places(vs, |rest|) && i <= |us|
    requires forall k :: 0 <= k < i ==> us[k] == vs[k]
    ensures Woven(rest, us, runs, i) == Woven(rest, vs, runs, i)
  {
    if i > 0 {
      WovenAgrees(rest, us, vs, runs, i - 1);
    }
  }

  lemma {:induction false} WeavingAgrees<T>(rest: seq<T>, c: int, us: seq<int>, vs: seq<int>, runs: seq<seq<T>>, i: nat)
    requires |us| == |vs| == |runs| && Places(us, |rest|) && Places(vs, |rest|) && i <= |us|
    requires 0 <= c <= if i < |us| then us[i] else |rest|
    requires forall k :: i <= k < |us| ==> us[k] == vs[k]
    ensures Weaving(rest, c, us, runs, i) == Weaving(rest, c, vs, runs, i)
    decreases |us| - i
  {
    if i < |us| {
      WeavingAgrees(rest, us[i], us, vs, runs, i + 1);
    }
  }

  /** What a weave has before its run `i`, were that run placed at `v`. */
  ghost function Ahead<T>(rest: seq<T>, us: seq<int>, runs: seq<seq<T>>, i: nat, v: int): seq<T>
    requires |us| == |runs| && Places(us, |rest|) && i < |us|
    requires Reached(us, i) <= v <= |rest| && 0 <= v
  {
    Woven(rest, us, runs, i) + rest[Reached(us, i)..v]
  }

  /** A weave, around its run `i`. */
  lemma WeaveAround<T>(rest: seq<T>, us: seq<int>, runs: seq<seq<T>>, i: nat)
    requires |us| == |runs| && Places(us, |rest|) && i < |us|
    ensures Weave(rest, us, runs)
         == Ahead(rest, us, runs, i, us[i]) + runs[i] + Weaving(rest, us[i], us, runs, i + 1)
  {
    WeaveCut(rest, us, runs, i);
    Regroup(Woven(rest, us, runs, i), rest[Reached(us, i)..us[i]], runs[i], Weaving(rest, us[i], us, runs, i + 1));
  }

  lemma Regroup<T>(a: seq<T>, b: seq<T>, c: seq<T>, d: seq<T>)
    ensures a + (b + c + d) == (a + b) + c + d
  {}

  /** A weave with its run `i` placed at `v` instead. */
  lemma WeaveMoved<T>(rest: seq<T>, us: seq<int>, runs: seq<seq<T>>, i: nat, v: int)
    requires |us| == |runs| && i < |us| && 0 <= v <= |rest|
    requires Places(us, |rest|) && Places(us[i := v], |rest|)
    ensures Reached(us, i) <= v && (i + 1 < |us| ==> v <= us[i + 1])
    ensures Weave(rest, us[i := v], runs)
         == Ahead(rest, us, runs, i, v) + runs[i] + Weaving(rest, v, us, runs, i + 1)
  {
    var vs := us[i := v];
    assert vs[i] == v && (i > 0 ==> vs[i - 1] <= v) && (i + 1 < |us| ==> v <= vs[i + 1]);
    WeaveAround(rest, vs, runs, i);
    WovenAgrees(rest, us, vs, runs, i);
    WeavingAgrees(rest, v, us, vs, runs, i + 1);
  }

  /** Without its run `i`, a weave is the same wherever that run was. */
  lemma RunLeftOut<T>(rest: seq<T>, us: seq<int>, runs: seq<seq<T>>, i: nat, v: int)
    requires |us| == |runs| && Places(us, |rest|) && i < |us|
    requires 0 <= v <= |rest| && Reached(us, i) <= v && (i + 1 < |us| ==> v <= us[i + 1])
    ensures Ahead(rest, us, runs, i, v) + Weaving(rest, v, us, runs, i + 1)
         == Woven(rest, us, runs, i) + Weaving(rest, Reached(us, i), us, runs, i + 1)
  {
    WeavingSkips(rest, Reached(us, i), v, us, runs, i + 1);
    var done, gap, todo := Woven(rest, us, runs, i), rest[Reached(us, i)..v], Weaving(rest, v, us, runs, i + 1);
    assert (done + gap) + todo == done + (gap + todo);
  }

  // ---- What one op does to a list cut in pieces ----

  lemma {:induction false} WithoutNone<T>(a: seq<T>, drop: set<int>)
    requires forall p :: 0 <= p < |a| ==> p !in drop
    ensures Without(a, drop) == a
  {
    if a != [] {
      WithoutNone(a[..|a| - 1], drop);
    }
  }

  lemma {:induction false} WithoutAgrees<T>(a: seq<T>, drop: set<int>, drop': set<int>)
    requires forall p :: 0 <= p < |a| ==> (p in drop <==> p in drop')
    ensures Without(a, drop) == Without(a, drop')
  {
    if a != [] {
      WithoutAgrees(a[..|a| - 1], drop, drop');
    }
  }

  /** The last stretch taken out leaves what comes before it and what comes after. */
  lemma {:induction false} WithoutLast<T>(list: seq<T>, drop: set<int>, start: nat, end: nat)
    requires start <= end <= |list|
    requires forall p :: start <= p < |list| ==> (p in drop <==> p < end)
    ensures Without(list, drop) == Without(list[..start], drop) + list[end..]
  {
    var n := |list| - 1;
    if start == |list| {
      assert list[..start] == list;
    } else if end == |list| {
      WithoutLast(list[..n], drop, start, n);
      assert list[..n][..start] == list[..start];
    } else {
      WithoutLast(list[..n], drop, start, end);
      assert list[..n][..start] == list[..start];
      assert list[end..] == list[..n][end..] + [list[n]];
    }
  }

  /** Removing a range takes out just that stretch. */
  lemma WithoutRange<T>(a: seq<T>, b: seq<T>, c: seq<T>)
    ensures Without(a + b + c, AsSet(Range(|a|, |a| + |b|))) == a + c
  {
    var list, drop := a + b + c, AsSet(Range(|a|, |a| + |b|));
    RangeSet(|a|, |a| + |b|);
    WithoutLast(list, drop, |a|, |a| + |b|);
    WithoutNone(a, drop);
    assert list[..|a|] == a && list[|a| + |b|..] == c;
  }

  lemma AtRange<T>(a: seq<T>, b: seq<T>, c: seq<T>)
    ensures At(a + b + c, Range(|a|, |a| + |b|)) == b
  {}

  lemma RangeSet(start: int, end: int)
    requires start <= end
    ensures forall p :: p in AsSet(Range(start, end)) <==> start <= p < end
  {
    forall p | start <= p < end ensures p in Range(start, end) {
      assert Range(start, end)[p - start] == p;
    }
  }

  /** A range that fits selects itself. */
  lemma SelectionOfRange(start: nat, end: nat, length: nat)
    requires start < end <= length
    ensures Selection(Range(start, end), length) == Ok(Range(start, end))
  {
    CompareIntTotal();
    SelectionSelects(Range(start, end), length);
    SortOfSorted(CompareInt, Range(start, end));
  }

  lemma RemoveRange<P, T>(a: seq<T>, b: seq<T>, c: seq<T>, resolve: Resolve<P, T>)
    requires b != []
    ensures ApplyOp(a + b + c, Remove(Range(|a|, |a| + |b|)), resolve) == Ok(a + c)
  {
    SelectionOfRange(|a|, |a| + |b|, |a + b + c|);
    WithoutRange(a, b, c);
  }

  lemma MoveRange<P, T>(a: seq<T>, b: seq<T>, c: seq<T>, to: nat, resolve: Resolve<P, T>)
    requires b != [] && to <= |a + c|
    ensures ApplyOp(a + b + c, Move(Range(|a|, |a| + |b|), to), resolve) == Ok(Spliced(a + c, to, b))
  {
    SelectionOfRange(|a|, |a| + |b|, |a + b + c|);
    WithoutRange(a, b, c);
    AtRange(a, b, c);
  }

  /** A move of `count` items from `from` to `to`. */
  function MoveOf<P>(from: int, count: nat, to: int): Op<P> {
    Move(Range(from, from + count), to)
  }

  /** Moving one run of a weave moves it there, past only the rest: no run changes its turn. */
  lemma MoveRun<P, T>(rest: seq<T>, us: seq<int>, runs: seq<seq<T>>, i: nat, v: int, resolve: Resolve<P, T>)
    requires |us| == |runs| && i < |us| && runs[i] != [] && 0 <= v <= |rest|
    requires Places(us, |rest|) && Places(us[i := v], |rest|)
    ensures ApplyOp(Weave(rest, us, runs), MoveOf(us[i] + Held(runs, i), |runs[i]|, v + Held(runs, i)), resolve)
         == Ok(Weave(rest, us[i := v], runs))
  {
    hide ApplyOp, MoveOf;
    var a, c := Ahead(rest, us, runs, i, us[i]), Weaving(rest, us[i], us, runs, i + 1);
    WeaveAround(rest, us, runs, i);
    WeaveMoved(rest, us, runs, i, v);
    var a', c' := Ahead(rest, us, runs, i, v), Weaving(rest, v, us, runs, i + 1);
    assert a + c == a' + c' by {
      RunLeftOut(rest, us, runs, i, us[i]);
      RunLeftOut(rest, us, runs, i, v);
    }
    assert |a| == us[i] + Held(runs, i) && |a'| == v + Held(runs, i) by {
      WovenLength(rest, us, runs, i);
    }
    MovedPiece(Weave(rest, us, runs), a, runs[i], c, Weave(rest, us[i := v], runs), a', c',
               us[i] + Held(runs, i), v + Held(runs, i), resolve);
  }

  lemma MovedPiece<P, T>(list: seq<T>, a: seq<T>, b: seq<T>, c: seq<T>, list': seq<T>, a': seq<T>, c': seq<T>,
                         from: int, to: int, resolve: Resolve<P, T>)
    requires list == a + b + c && list' == a' + b + c'
    requires b != [] && a + c == a' + c' && from == |a| && to == |a'|
    ensures ApplyOp(list, MoveOf(from, |b|, to), resolve) == Ok(list')
  {
    MoveRange(a, b, c, |a'|, resolve);
    assert (a' + c')[..|a'|] == a' && (a' + c')[|a'|..] == c';
  }

  // ---- A list as the weave of what a selection leaves and its runs ----

  /** Where the part of the list the first `i` runs cover ends. */
  ghost function End(runs: seq<seq<int>>, i: nat): int
    requires i <= |runs| && forall k :: 0 <= k < |runs| ==> runs[k] != []
  {
    if i == 0 then 0 else runs[i - 1][0] + |runs[i - 1]|
  }

  /** How many of the rest come before each run. */
  ghost function Homes(runs: seq<seq<int>>): (us: seq<int>)
    requires forall k :: 0 <= k < |runs| ==> runs[k] != []
    ensures |us| == |runs|
  {
    seq(|runs|, i requires 0 <= i < |runs| => runs[i][0] - Held(runs, i))
  }

  /** Each of `runs` starts and ends in the list. */
  ghost predicate Within(runs: seq<seq<int>>, length: nat) {
    forall i :: 0 <= i < |runs| ==> WithinOne(runs[i], length)
  }

  predicate WithinOne(run: seq<int>, length: nat) {
    run != [] && 0 <= run[0] && run[0] + |run| <= length
  }

  /** The items at each run. */
  ghost function Pieces<T>(list: seq<T>, runs: seq<seq<int>>): (pieces: seq<seq<T>>)
    requires Within(runs, |list|)
    ensures |pieces| == |runs|
    ensures forall i :: 0 <= i < |runs| ==> |pieces[i]| == |runs[i]|
  {
    seq(|runs|, (i: nat) requires i < |runs| => Stretch(list, runs[i]))
  }

  ghost function Stretch<T>(list: seq<T>, run: seq<int>): (r: seq<T>)
    requires WithinOne(run, |list|)
    ensures |r| == |run|
  {
    list[run[0]..run[0] + |run|]
  }

  lemma RunAtSlice<T>(list: seq<T>, run: seq<int>)
    requires IsRun(run, |list|)
    ensures RunAt(list, run) == list[run[0]..run[0] + |run|]
  {
    assert forall i :: 0 <= i < |run| ==> run[i] == Range(run[0], run[0] + |run|)[i] == run[0] + i;
  }

  lemma {:induction false} PiecesHeld<T>(list: seq<T>, runs: seq<seq<int>>, i: nat)
    requires Within(runs, |list|) && i <= |runs|
    ensures Held(Pieces(list, runs), i) == Held(runs, i)
  {
    if i > 0 {
      PiecesHeld(list, runs, i - 1);
    }
  }

  /** Each run has more of the rest before it than the one before. */
  lemma {:induction false} HomesAscend(runs: seq<seq<int>>, length: nat, i: nat, j: nat)
    requires Apart(runs, length) && i < j < |runs|
    ensures Homes(runs)[i] < Homes(runs)[j]
    decreases j
  {
    assert runs[j - 1][0] + |runs[j - 1]| < runs[j][0];
    assert Held(runs, j) == Held(runs, j - 1) + |runs[j - 1]|;
    if i < j - 1 {
      HomesAscend(runs, length, i, j - 1);
    }
  }

  /** `drop` is the positions in `runs`. */
  ghost predicate Drops(drop: set<int>, runs: seq<seq<int>>, length: nat)
    requires Apart(runs, length)
  {
    forall p :: 0 <= p < length ==>
      (p in drop <==> exists i :: 0 <= i < |runs| && runs[i][0] <= p < runs[i][0] + |runs[i]|)
  }

  lemma SelectionDrops(sel: seq<int>, length: nat)
    requires Selects(sel, length) && Apart(Runs(sel), length)
    ensures Drops(AsSet(sel), Runs(sel), length)
  {
    RunsFlat(sel, |sel|);
    forall p | 0 <= p < length
      ensures p in AsSet(sel) <==>
              exists i :: 0 <= i < |Runs(sel)| && Runs(sel)[i][0] <= p < Runs(sel)[i][0] + |Runs(sel)[i]|
    {
      assert p in AsSet(sel) <==> p in Flat(Runs(sel));
      MembersInRuns(Runs(sel), length, p);
    }
  }

  lemma MembersInRuns(runs: seq<seq<int>>, length: nat, p: int)
    requires Apart(runs, length)
    ensures p in Flat(runs) <==> exists i :: 0 <= i < |runs| && runs[i][0] <= p < runs[i][0] + |runs[i]|
  {
    JoinedMembers(runs, |runs|, p);
    forall i | 0 <= i < |runs| ensures p in runs[i] <==> runs[i][0] <= p < runs[i][0] + |runs[i]| {
      RunMembers(runs[i], length);
    }
  }

  lemma RunMembers(run: seq<int>, length: nat)
    requires IsRun(run, length)
    ensures forall p :: p in run <==> run[0] <= p < run[0] + |run|
  {
    RangeSet(run[0], run[0] + |run|);
    assert forall p :: p in run <==> p in AsSet(run);
  }

  lemma {:induction false} JoinedMembers<T>(s: seq<seq<T>>, i: nat, x: T)
    requires i <= |s|
    ensures x in Joined(s, i) <==> exists k :: 0 <= k < i && x in s[k]
  {
    if i > 0 {
      JoinedMembers(s, i - 1, x);
    }
  }

  /** Where the run `i` starts, or the list ends. */
  ghost function Next(runs: seq<seq<int>>, length: nat, i: nat): int
    requires i <= |runs| && forall k :: 0 <= k < |runs| ==> runs[k] != []
  {
    if i < |runs| then runs[i][0] else length
  }

  /** Positions from the end of the run before `i` up to the run `i` stay, and those in it go. */
  ghost predicate Cuts(drop: set<int>, runs: seq<seq<int>>, length: nat, i: nat)
    requires i <= |runs| && forall k :: 0 <= k < |runs| ==> runs[k] != []
  {
    && 0 <= End(runs, i) <= Next(runs, length, i) <= length
    && (forall p :: End(runs, i) <= p < Next(runs, length, i) ==> p !in drop)
    && (i < |runs| ==>
          && runs[i][0] <= End(runs, i + 1) <= length
          && forall p :: runs[i][0] <= p < End(runs, i + 1) ==> p in drop)
  }

  lemma DropsCuts(drop: set<int>, runs: seq<seq<int>>, length: nat, i: nat)
    requires Apart(runs, length) && Drops(drop, runs, length) && i <= |runs|
    ensures Cuts(drop, runs, length, i)
  {
    assert i < |runs| ==> IsRun(runs[i], length);
    assert i > 0 ==> IsRun(runs[i - 1], length);
  }

  lemma GapStays<T>(list: seq<T>, drop: set<int>, end: nat, start: nat)
    requires end <= start <= |list|
    requires forall p :: end <= p < start ==> p !in drop
    ensures Without(list[..start], drop) == Without(list[..end], drop) + list[end..start]
  {
    WithoutLast(list[..start], drop, end, end);
    assert list[..start][..end] == list[..end] && list[..start][end..] == list[end..start];
  }

  lemma RunGoes<T>(list: seq<T>, drop: set<int>, start: nat, end: nat)
    requires start <= end <= |list|
    requires forall p :: start <= p < end ==> p in drop
    ensures Without(list[..end], drop) == Without(list[..start], drop)
  {
    WithoutLast(list[..end], drop, start, end);
    assert list[..end][..start] == list[..start] && list[..end][end..] == [];
  }

  /** How much is left of the list up to the end of each run, and up to the next. */
  lemma {:induction false} RestUpTo<T>(list: seq<T>, drop: set<int>, runs: seq<seq<int>>, i: nat)
    requires i <= |runs| && forall k :: 0 <= k < |runs| ==> runs[k] != []
    requires forall k :: 0 <= k <= |runs| ==> Cuts(drop, runs, |list|, k)
    ensures 0 <= End(runs, i) <= Next(runs, |list|, i) <= |list|
    ensures |Without(list[..End(runs, i)], drop)| == End(runs, i) - Held(runs, i)
    ensures |Without(list[..Next(runs, |list|, i)], drop)| == Next(runs, |list|, i) - Held(runs, i)
  {
    assert Cuts(drop, runs, |list|, i);
    if i > 0 {
      RestUpTo(list, drop, runs, i - 1);
      assert Cuts(drop, runs, |list|, i - 1);
      RunGoes(list, drop, runs[i - 1][0], End(runs, i));
    }
    GapStays(list, drop, End(runs, i), Next(runs, |list|, i));
  }

  lemma {:induction false} WithoutPrefix<T>(list: seq<T>, drop: set<int>, n: nat)
    requires n <= |list|
    ensures Without(list[..n], drop) <= Without(list, drop)
    decreases |list|
  {
    if n == |list| {
      assert list[..n] == list;
    } else {
      WithoutPrefix(list[..|list| - 1], drop, n);
      assert list[..|list| - 1][..n] == list[..n];
    }
  }

  /** A stretch that stays is a stretch of the rest. */
  lemma GapOfRest<T>(list: seq<T>, drop: set<int>, end: nat, start: nat)
    requires end <= start <= |list|
    requires forall p :: end <= p < start ==> p !in drop
    ensures |Without(list[..end], drop)| <= |Without(list[..start], drop)| <= |Without(list, drop)|
    ensures Without(list, drop)[|Without(list[..end], drop)|..|Without(list[..start], drop)|] == list[end..start]
  {
    GapStays(list, drop, end, start);
    WithoutPrefix(list, drop, start);
  }

  /** What comes before the run `i`, since the last, is the same in the rest as in the list. */
  ghost predicate GapMatches<T>(list: seq<T>, rest: seq<T>, runs: seq<seq<int>>, i: nat)
    requires i <= |runs| && forall k :: 0 <= k < |runs| ==> runs[k] != []
  {
    var end, next, held := End(runs, i), Next(runs, |list|, i), Held(runs, i);
    && 0 <= end <= next <= |list|
    && 0 <= end - held && next - held <= |rest|
    && rest[end - held..next - held] == list[end..next]
    && (i == |runs| ==> |rest| == |list| - held)
  }

  lemma GapMatch<T>(list: seq<T>, drop: set<int>, runs: seq<seq<int>>, i: nat)
    requires i <= |runs| && forall k :: 0 <= k < |runs| ==> runs[k] != []
    requires forall k :: 0 <= k <= |runs| ==> Cuts(drop, runs, |list|, k)
    ensures GapMatches(list, Without(list, drop), runs, i)
  {
    RestUpTo(list, drop, runs, i);
    assert Cuts(drop, runs, |list|, i);
    GapAt(list, drop, End(runs, i), Next(runs, |list|, i), Held(runs, i));
  }

  lemma GapAt<T>(list: seq<T>, drop: set<int>, end: int, next: int, held: nat)
    requires 0 <= end <= next <= |list|
    requires forall p :: end <= p < next ==> p !in drop
    requires |Without(list[..end], drop)| == end - held && |Without(list[..next], drop)| == next - held
    ensures 0 <= end - held <= next - held <= |Without(list, drop)|
    ensures Without(list, drop)[end - held..next - held] == list[end..next]
    ensures next == |list| ==> |Without(list, drop)| == |list| - held
  {
    GapOfRest(list, drop, end, next);
    assert next == |list| ==> list[..next] == list;
  }

  /** Each run's home is a place in the rest. */
  lemma HomesPlace<T>(list: seq<T>, rest: seq<T>, runs: seq<seq<int>>)
    requires Apart(runs, |list|)
    requires forall i :: 0 <= i <= |runs| ==> GapMatches(list, rest, runs, i)
    ensures Places(Homes(runs), |rest|)
  {
    forall i | 0 <= i < |runs| ensures 0 <= Homes(runs)[i] <= |rest| {
      assert GapMatches(list, rest, runs, i);
    }
    forall i, j | 0 <= i < j < |runs| ensures Homes(runs)[i] <= Homes(runs)[j] {
      HomesAscend(runs, |list|, i, j);
    }
  }

  /** The run `i` and what comes before it, since the last, are together a stretch of the list. */
  ghost predicate Covers<T>(list: seq<T>, rest: seq<T>, us: seq<int>, pieces: seq<seq<T>>, ends: seq<int>, i: nat)
    requires |us| == |pieces| == |ends| - 1 && Places(us, |rest|) && i < |us|
  {
    && 0 <= ends[i] <= ends[i + 1] <= |list|
    && rest[Reached(us, i)..us[i]] + pieces[i] == list[ends[i]..ends[i + 1]]
  }

  lemma {:induction false} WovenCovers<T>(list: seq<T>, rest: seq<T>, us: seq<int>, pieces: seq<seq<T>>, ends: seq<int>, i: nat)
    requires |us| == |pieces| == |ends| - 1 && Places(us, |rest|) && i <= |us|
    requires ends[0] == 0 && forall k :: 0 <= k < |us| ==> Covers(list, rest, us, pieces, ends, k)
    ensures 0 <= ends[i] <= |list|
    ensures Woven(rest, us, pieces, i) == list[..ends[i]]
  {
    if i > 0 {
      WovenCovers(list, rest, us, pieces, ends, i - 1);
      assert Covers(list, rest, us, pieces, ends, i - 1);
      var gap := rest[Reached(us, i - 1)..us[i - 1]];
      assert list[..ends[i - 1]] + gap + pieces[i - 1] == list[..ends[i - 1]] + (gap + pieces[i - 1]);
    }
  }

  ghost function Ends(runs: seq<seq<int>>): (ends: seq<int>)
    requires forall k :: 0 <= k < |runs| ==> runs[k] != []
    ensures |ends| == |runs| + 1
    ensures forall i :: 0 <= i <= |runs| ==> ends[i] == End(runs, i)
  {
    seq(|runs| + 1, i requires 0 <= i <= |runs| => End(runs, i))
  }

  lemma HomeCovers<T>(list: seq<T>, rest: seq<T>, runs: seq<seq<int>>, i: nat)
    requires Within(runs, |list|) && Places(Homes(runs), |rest|) && i < |runs|
    requires GapMatches(list, rest, runs, i)
    ensures Covers(list, rest, Homes(runs), Pieces(list, runs), Ends(runs), i)
  {
    ReachedHome(runs, i);
    assert WithinOne(runs[i], |list|);
    var end, start := End(runs, i), runs[i][0];
    assert rest[Reached(Homes(runs), i)..Homes(runs)[i]] == list[end..start];
    assert list[end..start] + Stretch(list, runs[i]) == list[end..End(runs, i + 1)];
  }

  lemma ReachedHome(runs: seq<seq<int>>, i: nat)
    requires i <= |runs| && forall k :: 0 <= k < |runs| ==> runs[k] != []
    ensures Reached(Homes(runs), i) == End(runs, i) - Held(runs, i)
  {}

  /** A list is what a selection leaves of it, woven with the selection's runs. */
  lemma HomeWeave<T>(list: seq<T>, drop: set<int>, runs: seq<seq<int>>)
    requires Apart(runs, |list|) && Drops(drop, runs, |list|)
    ensures Within(runs, |list|) && Places(Homes(runs), |Without(list, drop)|)
    ensures Weave(Without(list, drop), Homes(runs), Pieces(list, runs)) == list
  {
    assert Within(runs, |list|) by {
      assert forall i :: 0 <= i < |runs| ==> IsRun(runs[i], |list|);
    }
    forall i | 0 <= i <= |runs| ensures Cuts(drop, runs, |list|, i) {
      DropsCuts(drop, runs, |list|, i);
    }
    forall i | 0 <= i <= |runs| ensures GapMatches(list, Without(list, drop), runs, i) {
      GapMatch(list, drop, runs, i);
    }
    HomesPlace(list, Without(list, drop), runs);
    MatchedWeave(list, Without(list, drop), runs);
  }

  lemma MatchedWeave<T>(list: seq<T>, rest: seq<T>, runs: seq<seq<int>>)
    requires Within(runs, |list|) && Places(Homes(runs), |rest|)
    requires forall i :: 0 <= i <= |runs| ==> GapMatches(list, rest, runs, i)
    ensures Weave(rest, Homes(runs), Pieces(list, runs)) == list
  {
    var k := |runs|;
    var us, pieces, ends := Homes(runs), Pieces(list, runs), Ends(runs);
    forall i | 0 <= i < k ensures Covers(list, rest, us, pieces, ends, i) {
      assert GapMatches(list, rest, runs, i);
      HomeCovers(list, rest, runs, i);
    }
    WovenCovers(list, rest, us, pieces, ends, k);
    WeaveCut(rest, us, pieces, k);
    LastGap(list, rest, runs);
    assert list == list[..ends[k]] + list[ends[k]..];
  }

  lemma LastGap<T>(list: seq<T>, rest: seq<T>, runs: seq<seq<int>>)
    requires Within(runs, |list|) && Places(Homes(runs), |rest|)
    requires GapMatches(list, rest, runs, |runs|)
    ensures 0 <= End(runs, |runs|) <= |list| && 0 <= Reached(Homes(runs), |runs|) <= |rest|
    ensures rest[Reached(Homes(runs), |runs|)..] == list[End(runs, |runs|)..]
  {
    var k := |runs|;
    ReachedHome(runs, k);
    assert rest[End(runs, k) - Held(runs, k)..|rest|] == list[End(runs, k)..|list|];
  }
}
