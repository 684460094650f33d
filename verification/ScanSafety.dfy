/** What a scan keeps, however often it is stopped, killed and started (crates/scanner/src/scan.rs:111-224, 258-336). */
module ScanSafety {
  import opened Wrappers
  import opened Orders
  import opened Paths
  import opened Scopes
  import opened Walks
  import opened ScanSteps

  // ---- The cursor's order ----

  lemma NoLaterTransitive(a: Option<Cursor>, b: Option<Cursor>, c: Option<Cursor>)
    requires NoLater(a, b) && NoLater(b, c)
    ensures NoLater(a, c)
  {
    PathsTotal();
  }

  lemma NoLaterSelf(a: Option<Cursor>)
    ensures NoLater(a, a)
  {
    PathsTotal();
  }

  /** What an earlier cursor is past, a later one is past. */
  lemma PassedLater(a: Option<Cursor>, b: Option<Cursor>, i: nat, path: Path)
    requires NoLater(a, b) && Passed(a, i, path)
    ensures Passed(b, i, path)
  {
    PathsTotal();
  }

  // ---- Membership ----

  lemma {:induction false} KeptMember(items: seq<Item>, cursor: Path, item: Item)
    ensures item in KeptFrom(items, cursor) <==> item in items && Keeps(item, cursor)
  {
    if items != [] {
      KeptMember(items[1..], cursor, item);
    }
  }

  lemma IncreasingTail(item: Item, todo: seq<Item>)
    requires Increasing([item] + todo)
    ensures Increasing(todo)
    ensures forall y :: y in todo ==> ComparePaths(item.path, y.path) == Less
  {
    var all := [item] + todo;
    assert forall k :: 0 <= k < |todo| ==> all[k + 1] == todo[k];
    forall y | y in todo ensures ComparePaths(item.path, y.path) == Less {
      var k :| 0 <= k < |todo| && todo[k] == y;
      assert all[0] == item && all[k + 1] == y;
    }
  }

  // ---- Scopes behind and passed ----

  /** What is behind stays behind as more is saved, skipped or found unanswered. */
  lemma BehindGrows(w: World, s: State, s': State, i: nat)
    requires i <= |w| && Behind(w, s, i)
    requires s.saved <= s'.saved && s.skipped <= s'.skipped && s'.start == s.start
    requires forall j :: j in s.unanswered ==> j in s'.unanswered
    ensures Behind(w, s', i)
  {
    forall j: nat | j < i && Whole(w, j, s.saved) ensures Whole(w, j, s'.saved) {
    }
  }

  /** A cursor may move to the start of the next scope, or within this one, past folders that are
      done. */
  lemma SafeAt(w: World, s: State, cursor: Option<Cursor>, done: set<Outcome>, i: nat)
    requires i <= |w| && Behind(w, s, i) && s.saved <= done && From(cursor) == i && cursor.Some?
    requires forall j :: j in s.unanswered ==> j in s.skipped
    requires i < |w| ==>
               forall item :: item in ItemsOf(w[i]) && item.Directory? && Passed(cursor, i, item.path) ==>
                 OutcomesFor(i, item) <= done
    ensures Safe(w, cursor, done, s.skipped)
  {
    forall j: nat, item | j < |w| && item in ItemsOf(w[j]) && item.Directory? && Due(w, cursor, j, s.skipped) && Passed(cursor, j, item.path)
      ensures OutcomesFor(j, item) <= done
    {
      if j < i {
        assert Whole(w, j, s.saved);
      }
    }
  }

  /** More saved, or more skipped, is as safe. */
  lemma SafeGrows(w: World, cursor: Option<Cursor>, done: set<Outcome>, done': set<Outcome>, skipped: set<nat>, skipped': set<nat>)
    requires Safe(w, cursor, done, skipped) && done <= done' && skipped <= skipped'
    ensures Safe(w, cursor, done', skipped')
  {}

  // ---- Each step keeps the invariant ----

  lemma KeepsStart(w: World, s: State, s': State)
    requires ValidWorld(w) && Inv(w, s) && Next(w, s, Start, s')
    ensures Inv(w, s')
  {
    var from := From(s.row);
    forall i: nat, item | i < |w| && item in ItemsOf(w[i]) && item.Directory? && Due(w, s.row, i, s'.skipped) && Passed(s.row, i, item.path)
      ensures OutcomesFor(i, item) <= s.saved
    {
      assert Due(w, s.row, i, s.skipped);
    }
    forall j: nat | j < from && !Linked(w[j]) && j !in s'.skipped ensures Whole(w, j, s.saved) {
      forall item | item in ItemsOf(w[j]) && item.Directory? ensures OutcomesFor(j, item) <= s.saved {
        assert Passed(s.row, j, item.path) && Due(w, s.row, j, s.skipped);
      }
    }
    NoLaterSelf(s.row);
    assert s.saved + {} == s.saved;
  }

  lemma KeepsSkip(w: World, s: State, s': State)
    requires ValidWorld(w) && Inv(w, s) && Next(w, s, SkipScope, s')
    ensures Inv(w, s')
  {
    hide Safe, Whole, ItemsOf, OutcomesFor;
    SafeGrows(w, s.row, s.saved, s.saved, s.skipped, s'.skipped);
    SafeGrows(w, s.cursor, s.saved + s.batch, s.saved + s.batch, s.skipped, s'.skipped);
    BehindGrows(w, s, s', s.at.i);
  }

  lemma KeepsLoseRoot(w: World, s: State, s': State)
    requires ValidWorld(w) && Inv(w, s) && Next(w, s, LoseRoot, s')
    ensures Inv(w, s')
  {
    hide Safe, Whole, ItemsOf, OutcomesFor, Left;
    SafeGrows(w, s.cursor, s.saved + s.batch, s'.saved, s.skipped, s'.skipped);
    assert s'.saved + s'.batch == s'.saved;
    BehindGrows(w, s, s', s.at.i);
    NoLaterSelf(s.cursor);
  }

  lemma KeepsPassLink(w: World, s: State, s': State)
    requires ValidWorld(w) && Inv(w, s) && Next(w, s, PassLink, s')
    ensures Inv(w, s')
  {
    BehindGrows(w, s, s', s.at.i);
    PastIsSafe(w, s, s');
  }

  lemma KeepsFinishScope(w: World, s: State, s': State)
    requires ValidWorld(w) && Inv(w, s) && Next(w, s, FinishScope, s')
    ensures Inv(w, s')
  {
    var i := s.at.i;
    BehindGrows(w, s, s', i);
    forall item | item in ItemsOf(w[i]) && item.Directory? ensures OutcomesFor(i, item) <= s'.saved {
      assert Passed(s.cursor, i, item.path) && Due(w, s.cursor, i, s.skipped);
      assert OutcomesFor(i, item) <= s.saved + s.batch;
    }
    assert Whole(w, i, s'.saved);
    PastIsSafe(w, s, s');
  }

  /** Moving the cursor past a scope that is behind, and saving it. */
  lemma PastIsSafe(w: World, s: State, s': State)
    requires Inv(w, s) && (s.at.AtScope? || s.at.Walking?) && s.at.i < |w|
    requires s' == PastScope(s) || s' == PastScope(Flushed(s))
    requires Behind(w, s', s.at.i) && (Linked(w[s.at.i]) || Whole(w, s.at.i, s'.saved))
    ensures Inv(w, s')
  {
    var i := s.at.i;
    assert Behind(w, s', i + 1);
    SafeAt(w, s', s'.cursor, s'.saved, i + 1);
    assert s'.saved + s'.batch == s'.saved;
    NoLaterSelf(s'.cursor);
  }

  lemma KeepsEnter(w: World, s: State, s': State)
    requires ValidWorld(w) && Inv(w, s) && Next(w, s, EnterScope, s')
    ensures Inv(w, s')
  {
    var i := s.at.i;
    var resume := ResumeAfter(s.cursor, i);
    LeftAtEntry(w, s.cursor, i);
    BehindGrows(w, s, s', i);
  }

  /** A walk that resumes at the cursor has left exactly what the cursor is not past. */
  lemma LeftAtEntry(w: World, cursor: Option<Cursor>, i: nat)
    requires ValidWorld(w) && i < |w| && From(cursor) <= i
    ensures Left(w, cursor, i, Walked(SetupOf(w[i], ResumeAfter(cursor, i))))
  {
    hide Walked, Increasing, ItemsOf;
    var resume := ResumeAfter(cursor, i);
    var items, todo := ItemsOf(w[i]), Walked(SetupOf(w[i], resume));
    WalkInOrder(SetupOf(w[i], resume));
    forall item: Item | item.Directory?
      ensures item in items ==> Passed(cursor, i, item.path) || item in todo
      ensures item in todo ==> !Passed(cursor, i, item.path)
    {
      LeftItem(w[i], cursor, i, item);
    }
  }

  lemma WalkInOrder(setup: Setup)
    requires Valid(setup.tree)
    ensures Increasing(Walked(setup))
  {
    VisitIncreasing(setup.scope, if setup.excluded then Gone else setup.tree, setup.depth, setup.resumeAfter);
  }

  lemma LeftItem(target: Target, cursor: Option<Cursor>, i: nat, item: Item)
    requires Valid(target.tree) && From(cursor) <= i && item.Directory?
    ensures item in Walked(SetupOf(target, ResumeAfter(cursor, i))) <==> item in ItemsOf(target) && !Passed(cursor, i, item.path)
  {
    hide Walked, Increasing;
    var resume := ResumeAfter(cursor, i);
    if resume.Some? {
      WalkResumes(SetupOf(target, None), resume.value);
      KeptMember(ItemsOf(target), resume.value, item);
      PathsTotal();
      assert ComparePaths(item.path, resume.value) == ComparePaths(resume.value, item.path).Reverse();
    }
  }

  lemma KeepsCheckpoint(w: World, s: State, s': State)
    requires ValidWorld(w) && Inv(w, s) && Next(w, s, Checkpoint, s')
    ensures Inv(w, s')
  {
    assert s'.saved + s'.batch == s.saved + s.batch;
    BehindGrows(w, s, s', s.at.i);
    NoLaterSelf(s.cursor);
  }

  lemma KeepsStop(w: World, s: State, s': State)
    requires ValidWorld(w) && Inv(w, s) && (Next(w, s, Stop, s') || Next(w, s, Kill, s') || Next(w, s, Fail, s'))
    ensures Inv(w, s')
  {}

  lemma KeepsNoteFailed(w: World, s: State, s': State)
    requires ValidWorld(w) && Inv(w, s) && Next(w, s, NoteFailed, s')
    ensures Inv(w, s')
  {
    assert s.at.todo == [s.at.todo[0]] + s.at.todo[1..];
    IncreasingTail(s.at.todo[0], s.at.todo[1..]);
    BehindGrows(w, s, s', s.at.i);
  }

  lemma KeepsOpenFolder(w: World, s: State, s': State)
    requires ValidWorld(w) && Inv(w, s) && Next(w, s, OpenFolder, s')
    ensures Inv(w, s')
  {
    assert s.at.todo == [s.at.todo[0]] + s.at.todo[1..];
    BehindGrows(w, s, s', s.at.i);
  }

  lemma KeepsProcessFile(w: World, s: State, s': State)
    requires ValidWorld(w) && Inv(w, s) && Next(w, s, ProcessFile, s')
    ensures Inv(w, s')
  {
    SafeGrows(w, s.cursor, s.saved + s.batch, s'.saved + s'.batch, s.skipped, s.skipped);
    BehindGrows(w, s, s', s.at.i);
  }

  lemma KeepsCloseFolder(w: World, s: State, s': State)
    requires ValidWorld(w) && Inv(w, s) && Next(w, s, CloseFolder, s')
    ensures Inv(w, s')
  {
    var i, item, todo := s.at.i, s.at.item, s.at.todo;
    IncreasingTail(item, todo);
    BehindGrows(w, s, s', i);
    CloseMoves(w, s.cursor, i, item, todo);
    NoLaterTransitive(s.row, s.cursor, s'.cursor);
    forall y | y in ItemsOf(w[i]) && y.Directory? && Passed(s'.cursor, i, y.path)
      ensures OutcomesFor(i, y) <= s'.saved + s'.batch
    {
      if Passed(s.cursor, i, y.path) {
        assert Due(w, s.cursor, i, s.skipped);
        assert OutcomesFor(i, y) <= s.saved + s.batch;
      } else {
        assert y in [item] + todo && y !in todo;
        assert OutcomesFor(i, item) <= s'.saved + s'.batch;
      }
    }
    SafeAt(w, s', s'.cursor, s'.saved + s'.batch, i);
  }

  /** The cursor moves from before a folder to it: past the folder, and nothing after. */
  lemma CloseMoves(w: World, cursor: Option<Cursor>, i: nat, item: Item, todo: seq<Item>)
    requires i < |w| && From(cursor) <= i && item.Directory? && Left(w, cursor, i, [item] + todo)
    ensures var cursor' := Some(Cursor(i, Some(item.path)));
            && NoLater(cursor, cursor')
            && Left(w, cursor', i, todo)
            && Passed(cursor', i, item.path)
            && forall y :: y in todo ==> !Passed(cursor', i, y.path)
  {
    var cursor' := Some(Cursor(i, Some(item.path)));
    PathsTotal();
    IncreasingTail(item, todo);
    assert item in [item] + todo;
    assert NoLater(cursor, cursor') by {
      if cursor.Some? && cursor.value.scope == i && cursor.value.after.Some? {
        assert !Passed(cursor, i, item.path);
        assert ComparePaths(item.path, cursor.value.after.value) == ComparePaths(cursor.value.after.value, item.path).Reverse();
      }
    }
    forall y | y in todo ensures !Passed(cursor', i, y.path) {
      assert ComparePaths(y.path, item.path) == ComparePaths(item.path, y.path).Reverse();
    }
    forall y | y in ItemsOf(w[i]) && y.Directory? ensures Passed(cursor', i, y.path) || y in todo {
      if Passed(cursor, i, y.path) {
        PassedLater(cursor, cursor', i, y.path);
      } else {
        assert y in [item] + todo;
      }
    }
    assert Passed(cursor', i, item.path) by {
      assert ComparePaths(item.path, item.path) == ComparePaths(item.path, item.path).Reverse();
    }
  }

  /** Every step keeps the invariant. */
  lemma StepKeeps(w: World, s: State, e: Event, s': State)
    requires ValidWorld(w) && Inv(w, s) && Next(w, s, e, s')
    ensures Inv(w, s')
  {
    match e
    case Start => KeepsStart(w, s, s');
    case Stop => KeepsStop(w, s, s');
    case Kill => KeepsStop(w, s, s');
    case Fail => KeepsStop(w, s, s');
    case SkipScope => KeepsSkip(w, s, s');
    case PassLink => KeepsPassLink(w, s, s');
    case EnterScope => KeepsEnter(w, s, s');
    case LoseRoot => KeepsLoseRoot(w, s, s');
    case FinishScope => KeepsFinishScope(w, s, s');
    case Finish =>
    case Checkpoint => KeepsCheckpoint(w, s, s');
    case NoteFailed => KeepsNoteFailed(w, s, s');
    case OpenFolder => KeepsOpenFolder(w, s, s');
    case ProcessFile => KeepsProcessFile(w, s, s');
    case CloseFolder => KeepsCloseFolder(w, s, s');
  }

  // ---- Whole runs, with their stops, kills and restarts ----

  /** `states` are those a scan goes through by `events`, from before its first start. */
  ghost predicate IsRun(w: World, states: seq<State>, events: seq<Event>) {
    && |states| == |events| + 1
    && states[0] == INITIAL
    && forall k :: 0 <= k < |events| ==> Next(w, states[k], events[k], states[k + 1])
  }

  lemma InitialInv(w: World)
    ensures Inv(w, INITIAL)
  {}

  lemma {:induction false} RunKeeps(w: World, states: seq<State>, events: seq<Event>, k: nat)
    requires ValidWorld(w) && IsRun(w, states, events) && k < |states|
    ensures Inv(w, states[k])
  {
    hide Inv;
    if k == 0 {
      InitialInv(w);
    } else {
      RunKeeps(w, states, events, k - 1);
      StepKeeps(w, states[k - 1], events[k - 1], states[k]);
    }
  }

  /** No step moves the saved cursor back, or loses anything saved. */
  lemma StepForward(w: World, s: State, e: Event, s': State)
    requires Inv(w, s) && Next(w, s, e, s')
    ensures NoLater(s.row, s'.row) && s.saved <= s'.saved
  {
    hide Safe, Behind, Left, Walked;
    NoLaterSelf(s.row);
    NoLaterSelf(s.cursor);
  }

  /** Throughout a scan's runs the saved cursor never moves back, and nothing saved is lost. */
  lemma {:induction false} SavedForward(w: World, states: seq<State>, events: seq<Event>, j: nat, k: nat)
    requires ValidWorld(w) && IsRun(w, states, events) && j <= k < |states|
    ensures NoLater(states[j].row, states[k].row) && states[j].saved <= states[k].saved
    decreases k - j
  {
    hide Inv;
    if j == k {
      NoLaterSelf(states[j].row);
    } else {
      SavedForward(w, states, events, j, k - 1);
      RunKeeps(w, states, events, k - 1);
      StepForward(w, states[k - 1], events[k - 1], states[k]);
      NoLaterTransitive(states[j].row, states[k - 1].row, states[k].row);
    }
  }

  /** At any moment of any run, so after any kill, every listed folder the saved cursor is past is whole
      in the store: each of its files, and its reconcile. */
  lemma NothingPassedIsLost(w: World, states: seq<State>, events: seq<Event>, k: nat, i: nat, item: Item)
    requires ValidWorld(w) && IsRun(w, states, events) && k < |states| && i < |w|
    requires item in ItemsOf(w[i]) && item.Directory? && Passed(states[k].row, i, item.path)
    ensures Linked(w[i]) || i in states[k].skipped || OutcomesFor(i, item) <= states[k].saved
  {
    RunKeeps(w, states, events, k);
    assert Linked(w[i]) || i in states[k].skipped || Due(w, states[k].row, i, states[k].skipped);
  }

  /** How a run that was not interrupted ends: each scope from where it started is whole in the store, or
      is a link's, or is returned for a retry; and it completes only if none is returned. */
  lemma EndsHonestly(w: World, states: seq<State>, events: seq<Event>, k: nat)
    requires ValidWorld(w) && IsRun(w, states, events) && k < |states|
    requires states[k].at.Completed? || states[k].at.Suspended?
    ensures var s := states[k];
            && (s.at.Completed? <==> s.unanswered == [])
            && forall i: nat :: s.start <= i < |w| ==> Linked(w[i]) || Whole(w, i, s.saved) || i in s.unanswered
  {
    RunKeeps(w, states, events, k);
  }

  ghost predicate LosesRoot(e: Event) {
    e.SkipScope? || e.LoseRoot?
  }

  lemma {:induction false} NoneSkipped(w: World, states: seq<State>, events: seq<Event>, k: nat)
    requires IsRun(w, states, events) && k < |states|
    requires forall i :: 0 <= i < k ==> !LosesRoot(events[i])
    ensures states[k].skipped == {}
  {
    if k > 0 {
      NoneSkipped(w, states, events, k - 1);
      assert Next(w, states[k - 1], events[k - 1], states[k]) && !LosesRoot(events[k - 1]);
    }
  }

  /** If every root answers, a scan that completes has processed every listed folder of every scope
      whole, however often it was stopped or killed and started again. */
  lemma EveryFolderProcessed(w: World, states: seq<State>, events: seq<Event>, k: nat, i: nat)
    requires ValidWorld(w) && IsRun(w, states, events) && k < |states| && i < |w| && !Linked(w[i])
    requires forall j :: 0 <= j < k ==> !LosesRoot(events[j])
    requires states[k].at.Completed?
    ensures Whole(w, i, states[k].saved)
  {
    RunKeeps(w, states, events, k);
    NoneSkipped(w, states, events, k);
  }

  /** If a completed scan misses a scope, an earlier run skipped it, and the last run started past it. */
  lemma MissedOnlyIfForgotten(w: World, states: seq<State>, events: seq<Event>, k: nat, i: nat)
    requires ValidWorld(w) && IsRun(w, states, events) && k < |states| && i < |w| && !Linked(w[i])
    requires states[k].at.Completed? && !Whole(w, i, states[k].saved)
    ensures i < states[k].start && i in states[k].skipped
    ensures exists j :: 0 <= j < k && LosesRoot(events[j])
  {
    RunKeeps(w, states, events, k);
    if forall j :: 0 <= j < k ==> !LosesRoot(events[j]) {
      NoneSkipped(w, states, events, k);
    }
  }

  // ---- A scan that forgets a scope ----

  const SILENT: Path := [[97]]
  const HEARD: Path := [[98]]
  const TWO: World := [
    Target(Scope(SILENT, SILENT, Subtree), Listed([], [[120]]), false, false),
    Target(Scope(HEARD, HEARD, Subtree), Gone, false, false)]
  const FOLDER: Item := Listing(HEARD, Gone)
  const PAST: Option<Cursor> := Some(Cursor(2, None))
  const DONE: set<Outcome> := {FolderDone(1, HEARD)}

  /** The first run: its scope's root silent, it goes on to the next, and is stopped once through it. */
  function FirstRun(k: nat): State {
    if k == 0 then INITIAL
    else if k == 1 then State(None, {}, None, {}, [], 0, {}, AtScope(0))
    else if k == 2 then State(None, {}, None, {}, [0], 0, {0}, AtScope(1))
    else if k == 3 then State(None, {}, None, {}, [0], 0, {0}, Walking(1, [FOLDER]))
    else if k == 4 then State(None, {}, None, {}, [0], 0, {0}, InFolder(1, FOLDER, 0, []))
    else if k == 5 then State(None, {}, Some(Cursor(1, Some(HEARD))), DONE, [0], 0, {0}, Walking(1, []))
    else if k == 6 then State(PAST, DONE, PAST, {}, [0], 0, {0}, AtScope(2))
    else State(PAST, DONE, PAST, {}, [0], 0, {0}, Down)
  }

  lemma FirstRunSteps()
    ensures Next(TWO, FirstRun(0), Start, FirstRun(1)) && Next(TWO, FirstRun(1), SkipScope, FirstRun(2))
    ensures Next(TWO, FirstRun(2), EnterScope, FirstRun(3))
    ensures Next(TWO, FirstRun(3), OpenFolder, FirstRun(4)) && Next(TWO, FirstRun(4), CloseFolder, FirstRun(5))
    ensures Next(TWO, FirstRun(5), FinishScope, FirstRun(6)) && Next(TWO, FirstRun(6), Stop, FirstRun(7))
  {
    assert Walked(SetupOf(TWO[1], None)) == [FOLDER];
  }

  /** The next run, which starts past both scopes. */
  function SecondRun(k: nat): State {
    State(PAST, DONE, PAST, {}, [], 2, {0}, if k == 0 then AtScope(2) else Completed)
  }

  lemma SecondRunSteps()
    ensures Next(TWO, FirstRun(7), Start, SecondRun(0)) && Next(TWO, SecondRun(0), Finish, SecondRun(1))
  {
    assert (set j | j in FirstRun(7).skipped && j < 2) == {0};
  }

  lemma SilentNotWhole()
    ensures !Whole(TWO, 0, DONE)
  {
    var missed := Listing(SILENT, TWO[0].tree);
    assert ItemsOf(TWO[0]) == [missed] + VisitFrom(SILENT, TWO[0].tree, 0, None);
    assert missed in ItemsOf(TWO[0]) && FolderDone(0, SILENT) in OutcomesFor(0, missed);
  }

  /** A scan can complete with a scope never walked: the first scope's root does not answer, the second
      is scanned, a shutdown comes before the run ends, and the next run has nothing left to do. */
  lemma ForgottenScope() returns (states: seq<State>, events: seq<Event>)
    ensures ValidWorld(TWO) && IsRun(TWO, states, events)
    ensures states[|events|].at.Completed? && states[|events|].unanswered == []
    ensures !Linked(TWO[0]) && !Whole(TWO, 0, states[|events|].saved)
    ensures forall e :: e in events ==> !e.Kill? && !e.Fail?
  {
    hide Next, Whole, Valid;
    FirstRunSteps();
    SecondRunSteps();
    SilentNotWhole();
    TwoValid();
    states := [FirstRun(0), FirstRun(1), FirstRun(2), FirstRun(3), FirstRun(4), FirstRun(5), FirstRun(6), FirstRun(7),
               SecondRun(0), SecondRun(1)];
    events := [Start, SkipScope, EnterScope, OpenFolder, CloseFolder, FinishScope, Stop, Start, Finish];
  }

  lemma TwoValid()
    ensures ValidWorld(TWO)
  {}
}
