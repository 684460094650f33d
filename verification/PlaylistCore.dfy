/** The Rust core's playlist edits (crates/core/src/playlist.rs), and that they agree with the
    device's. */
module PlaylistCore {
  import opened Wrappers
  import opened Orders
  import opened Sorting
  import Device = Playlist
  import Weaves

  /** One edit. An add's items are already expanded. */
  datatype Op<T> =
    | Add(at: Option<nat>, items: seq<T>)
    | Remove(positions: seq<nat>)
    | Move(positions: seq<nat>, to: nat)

  datatype OpError = Empty | OutOfRange(p: int) | Duplicate(p: int)

  // ---- What each step answers ----

  function Refused(sorted: seq<int>, length: nat, i: nat): Option<OpError>
    requires i <= |sorted|
    decreases |sorted| - i
  {
    if i == |sorted| then None
    else if sorted[i] >= length then Some(OutOfRange(sorted[i]))
    else if i > 0 && sorted[i - 1] == sorted[i] then Some(Duplicate(sorted[i]))
    else Refused(sorted, length, i + 1)
  }

  function Selected(positions: seq<nat>, length: nat): Result<seq<int>, OpError> {
    if positions == [] then Err(Empty)
    else
      var sorted := Sort<int>(CompareInt, positions);
      match Refused(sorted, length, 0)
      case Some(error) => Err(error)
      case None => Ok(sorted)
  }

  lemma SortedNats(positions: seq<int>)
    requires forall p :: p in positions ==> 0 <= p
    ensures forall i :: 0 <= i < |positions| ==> 0 <= Sort(CompareInt, positions)[i]
  {
    CompareIntTotal();
    SortSorts(CompareInt, positions);
    var sorted := Sort(CompareInt, positions);
    forall i | 0 <= i < |sorted| ensures 0 <= sorted[i] {
      assert sorted[i] in multiset(sorted);
      assert sorted[i] in positions;
    }
  }

  /** The core and the device select the same positions, and refuse the same ones alike. */
  lemma SelectedAlike(positions: seq<nat>, length: nat)
    ensures Like(Selected(positions, length), Device.Selection(positions, length))
  {
    if positions != [] {
      SortedNats(positions);
      RefusedAlike(Sort<int>(CompareInt, positions), length, 0);
    }
  }

  lemma {:induction false} RefusedAlike(sorted: seq<int>, length: nat, i: nat)
    requires i <= |sorted| && forall k :: 0 <= k < |sorted| ==> 0 <= sorted[k]
    ensures var (core, device) := (Refused(sorted, length, i), Device.FirstBad(sorted, length, i));
            && core.Some? == device.Some?
            && (core.Some? ==> SameReason(core.value, device.value))
    decreases |sorted| - i
  {
    if i < |sorted| {
      RefusedAlike(sorted, length, i + 1);
    }
  }

  function OpApplied<T>(list: seq<T>, op: Op<T>): Result<seq<T>, OpError> {
    match op
    case Add(optionalAt, items) =>
      var at := if optionalAt.Some? then optionalAt.value else |list|;
      if at > |list| then Err(OutOfRange(at)) else Ok(Device.Spliced(list, at, items))
    case Remove(positions) =>
      var drop :- Selected(positions, |list|);
      Ok(Device.Without(list, Device.AsSet(drop)))
    case Move(positions, at) =>
      var moving :- Selected(positions, |list|);
      SelectedAlike(positions, |list|);
      Device.SelectionSelects(positions, |list|);
      var rest := Device.Without(list, Device.AsSet(moving));
      if at > |rest| then Err(OutOfRange(at)) else Ok(Device.Spliced(rest, at, Device.At(list, moving)))
  }

  function Applied<T>(items: seq<T>, ops: seq<Op<T>>): Result<seq<T>, OpError>
    decreases |ops|
  {
    if ops == [] then Ok(items)
    else
      var next :- OpApplied(items, ops[0]);
      Applied(next, ops[1..])
  }

  // ---- The code ----

  /** The positions, sorted, unless one is bad. */
  method Selection(positions: seq<nat>, length: nat) returns (r: Result<seq<int>, OpError>)
    ensures r == Selected(positions, length)
  {
    if positions == [] {
      return Err(Empty);
    }
    var sorted := Sort<int>(CompareInt, positions);
    for i := 0 to |sorted|
      invariant Refused(sorted, length, i) == Refused(sorted, length, 0)
    {
      var p := sorted[i];
      if p >= length {
        return Err(OutOfRange(p));
      }
      if i > 0 && sorted[i - 1] == p {
        return Err(Duplicate(p));
      }
    }
    return Ok(sorted);
  }

  /** Parts a list, in one pass over it and the places to drop, into what is left and what was there. */
  method Without<T>(list: seq<T>, drop: seq<int>) returns (rest: seq<T>, taken: seq<T>)
    requires Device.Selects(drop, |list|)
    ensures rest == Device.Without(list, Device.AsSet(drop))
    ensures taken == Device.At(list, drop)
  {
    var next := 0;
    rest, taken := [], [];
    for i := 0 to |list|
      invariant next <= |drop|
      invariant forall k :: 0 <= k < next ==> drop[k] < i
      invariant forall k :: next <= k < |drop| ==> drop[k] >= i
      invariant rest == Device.Without(list[..i], Device.AsSet(drop))
      invariant taken == Device.At(list, drop[..next])
    {
      assert list[..i + 1][..i] == list[..i];
      if next < |drop| && drop[next] == i {
        assert i in Device.AsSet(drop);
        taken := taken + [list[i]];
        next := next + 1;
      } else {
        assert i !in Device.AsSet(drop);
        rest := rest + [list[i]];
      }
    }
    assert list[..|list|] == list && drop[..next] == drop;
  }

  method ApplyOp<T>(list: seq<T>, op: Op<T>) returns (r: Result<seq<T>, OpError>)
    ensures r == OpApplied(list, op)
  {
    match op
    case Add(optionalAt, items) =>
      var at := if optionalAt.Some? then optionalAt.value else |list|;
      if at > |list| {
        return Err(OutOfRange(at));
      }
      r := Ok(list[..at] + items + list[at..]);
    case Remove(positions) =>
      var drop := Selection(positions, |list|);
      if drop.Err? {
        return Err(drop.error);
      }
      SelectedAlike(positions, |list|);
      Device.SelectionSelects(positions, |list|);
      var rest, _ := Without(list, drop.value);
      r := Ok(rest);
    case Move(positions, at) =>
      var moving := Selection(positions, |list|);
      if moving.Err? {
        return Err(moving.error);
      }
      SelectedAlike(positions, |list|);
      Device.SelectionSelects(positions, |list|);
      var rest, taken := Without(list, moving.value);
      if at > |rest| {
        return Err(OutOfRange(at));
      }
      r := Ok(rest[..at] + taken + rest[at..]);
  }

  method ApplyOps<T>(items: seq<T>, ops: seq<Op<T>>) returns (r: Result<seq<T>, OpError>)
    ensures r == Applied(items, ops)
  {
    var list := items;
    for i := 0 to |ops|
      invariant Applied(list, ops[i..]) == Applied(items, ops)
    {
      assert ops[i..][1..] == ops[i + 1..];
      var next := ApplyOp(list, ops[i]);
      if next.Err? {
        return Err(next.error);
      }
      list := next.value;
    }
    return Ok(list);
  }

  // ---- The device and the core agree ----

  ghost predicate SameReason(core: OpError, device: Device.Error) {
    match core
    case Empty => device == Device.NoPositions
    case OutOfRange(p) => device == Device.OutOfRange(p)
    case Duplicate(p) => device == Device.GivenTwice(p)
  }

  /** The same answer: the same value, or a refusal for the same reason. */
  ghost predicate Like<A>(core: Result<A, OpError>, device: Result<A, Device.Error>) {
    match core
    case Ok(value) => device == Ok(value)
    case Err(reason) => device.Err? && SameReason(reason, device.error)
  }

  /** `core` is the device's `op`, its adds expanded: the edit the device sends. */
  ghost predicate Sent<P, T>(op: Device.Op<P>, resolve: Device.Resolve<P, T>, core: Op<T>) {
    match (op, core)
    case (Add(at, items), Add(coreAt, coreItems)) =>
      && resolve(items) == Ok(coreItems)
      && (if at.None? then coreAt.None? else coreAt.Some? && coreAt.value == at.value)
    case (Remove(positions), Remove(corePositions)) => positions == corePositions
    case (Move(positions, at), Move(corePositions, coreAt)) => positions == corePositions && at == coreAt
    case _ => false
  }

  /** An add that names nothing, where it would fit: refused on the device, no change in the core. */
  ghost predicate NamesNothing<P, T>(list: seq<T>, op: Device.Op<P>) {
    op.Add? && op.items.named == [] && (op.at.None? || 0 <= op.at.value <= |list|)
  }

  /** One op does the same on the device as in the core, for the same reason when refused. */
  lemma OpAgrees<P, T>(list: seq<T>, op: Device.Op<P>, resolve: Device.Resolve<P, T>, core: Op<T>)
    requires Sent(op, resolve, core) && !(op.Add? && op.items.named == [])
    ensures Like(OpApplied(list, core), Device.ApplyOp(list, op, resolve))
  {
    match op
    case Add(_, _) =>
    case Remove(positions) =>
      SelectedAlike(core.positions, |list|);
    case Move(positions, _) =>
      SelectedAlike(core.positions, |list|);
  }

  /** The only op the two take differently is an add that names nothing where it would fit. */
  lemma OpAgreesUnless<P, T>(list: seq<T>, op: Device.Op<P>, resolve: Device.Resolve<P, T>, core: Op<T>)
    requires Sent(op, resolve, core)
    ensures Device.ApplyOp(list, op, resolve).Ok? == OpApplied(list, core).Ok? <==> !NamesNothing(list, op)
  {
    if !(op.Add? && op.items.named == []) {
      OpAgrees(list, op, resolve, core);
    }
  }

  /** An edit whose adds each name something gives the same list on the device as in the core, and
      is refused by both or neither, for the same reason. */
  lemma {:induction false} EditAgrees<P, T>(list: seq<T>, ops: seq<Device.Op<P>>, resolve: Device.Resolve<P, T>, core: seq<Op<T>>)
    requires |ops| == |core|
    requires forall i :: 0 <= i < |ops| ==> Sent(ops[i], resolve, core[i])
    requires forall i :: 0 <= i < |ops| ==> !(ops[i].Add? && ops[i].items.named == [])
    ensures Like(Applied(list, core), Device.Applied(list, ops, resolve))
    decreases |ops|
  {
    if ops != [] {
      OpAgrees(list, ops[0], resolve, core[0]);
      var next := OpApplied(list, core[0]);
      if next.Ok? {
        EditAgrees(next.value, ops[1..], resolve, core[1..]);
      }
    }
  }

  // ---- What a move does ----

  /** What is taken out and what is left are the list between them. */
  lemma {:induction false} SplitCounts<T>(list: seq<T>, sel: seq<int>)
    requires Device.Selects(sel, |list|)
    ensures multiset(Device.Without(list, Device.AsSet(sel))) + multiset(Device.At(list, sel)) == multiset(list)
    decreases |list|
  {
    if list != [] {
      var n := |list| - 1;
      assert list == list[..n] + [list[n]];
      if sel != [] && sel[|sel| - 1] == n {
        SplitCounts(list[..n], sel[..|sel| - 1]);
        TakenLast(list, sel);
      } else {
        SplitCounts(list[..n], sel);
        LeftLast(list, sel);
      }
    }
  }

  lemma TakenLast<T>(list: seq<T>, sel: seq<int>)
    requires Device.Selects(sel, |list|) && sel != [] && sel[|sel| - 1] == |list| - 1
    ensures var (front, sel') := (list[..|list| - 1], sel[..|sel| - 1]);
            && Device.Selects(sel', |front|)
            && Device.Without(list, Device.AsSet(sel)) == Device.Without(front, Device.AsSet(sel'))
            && Device.At(list, sel) == Device.At(front, sel') + [list[|list| - 1]]
  {
    var front, sel' := list[..|list| - 1], sel[..|sel| - 1];
    assert forall p :: p in sel <==> p in sel' || p == |list| - 1 by {
      assert sel == sel' + [|list| - 1];
    }
    Weaves.WithoutAgrees(front, Device.AsSet(sel), Device.AsSet(sel'));
  }

  lemma LeftLast<T>(list: seq<T>, sel: seq<int>)
    requires Device.Selects(sel, |list|) && list != [] && (sel != [] ==> sel[|sel| - 1] != |list| - 1)
    ensures var front := list[..|list| - 1];
            && Device.Selects(sel, |front|)
            && Device.Without(list, Device.AsSet(sel)) == Device.Without(front, Device.AsSet(sel)) + [list[|list| - 1]]
            && Device.At(list, sel) == Device.At(front, sel)
  {
    forall i | 0 <= i < |sel| ensures sel[i] < |list| - 1 {
      if i < |sel| - 1 {
        assert sel[i] < sel[|sel| - 1];
      }
    }
  }

  /** A move keeps every item, puts the picked ones together at `at` in playlist order, and leaves
      the others in order around them. */
  lemma MoveGathers<T>(list: seq<T>, positions: seq<nat>, at: nat)
    requires OpApplied(list, Move(positions, at)).Ok?
    ensures Selected(positions, |list|).Ok?
    ensures var moved := OpApplied(list, Move(positions, at)).value;
            var picked := Selected(positions, |list|).value;
            && Device.Selects(picked, |list|) && multiset(picked) == multiset(positions)
            && multiset(moved) == multiset(list)
            && at + |picked| <= |moved|
            && moved[at..at + |picked|] == Device.At(list, picked)
            && moved[..at] + moved[at + |picked|..] == Device.Without(list, Device.AsSet(picked))
  {
    SelectedAlike(positions, |list|);
    Device.SelectionSelects(positions, |list|);
    var picked := Selected(positions, |list|).value;
    SplitCounts(list, picked);
    SplicedGathers(Device.Without(list, Device.AsSet(picked)), at, Device.At(list, picked));
  }

  lemma SplicedGathers<T>(rest: seq<T>, at: nat, taken: seq<T>)
    requires at <= |rest|
    ensures var moved := Device.Spliced(rest, at, taken);
            && multiset(moved) == multiset(rest) + multiset(taken)
            && moved[at..at + |taken|] == taken
            && moved[..at] + moved[at + |taken|..] == rest
  {
    assert rest == rest[..at] + rest[at..];
  }

  /** Positions given in another order make the same remove and the same move. */
  lemma OrderGivenIsNothing<T>(list: seq<T>, a: seq<nat>, b: seq<nat>, at: nat)
    requires multiset(a) == multiset(b)
    ensures OpApplied(list, Move(a, at)) == OpApplied(list, Move(b, at))
    ensures OpApplied(list, Remove(a)) == OpApplied(list, Remove(b))
  {
    CompareIntTotal();
    assert |a| == |multiset(a)| && |b| == |multiset(b)|;
    SortOfPermutation<int>(CompareInt, a, b);
  }
}
