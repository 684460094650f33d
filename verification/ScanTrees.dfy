/** What a completed scan has in the store, in terms of the trees it scanned (crates/scanner/src/scan.rs:83-224). */
module ScanTrees {
  import opened Wrappers
  import opened Paths
  import opened Scopes
  import opened Walks
  import opened WalkTrees
  import opened ScanSteps
  import opened ScanSafety
  import opened ScanResumes

  /** The folder at `under` in the scope is one that a scan works: of an excluded scope, and of one that is its
      folder alone, only its own. */
  ghost predicate Works(target: Target, under: Path) {
    if target.excluded || target.scope.depth.OneFolder? then under == [] else HasFolder(target.tree, under)
  }

  /** What is there: an excluded scope's folder counts as gone. */
  ghost function There(target: Target, under: Path): Node
    requires Works(target, under)
  {
    if target.excluded then Gone else Below(target.tree, under)
  }

  /** All of the scope is in `saved`: each file of each folder listed, and that each folder that is listed, or gone,
      was reconciled. */
  ghost predicate Stored(target: Target, i: nat, saved: set<Outcome>) {
    forall under | Works(target, under) && !There(target, under).Unreadable? ::
      && FolderDone(i, target.scope.path + under) in saved
      && (There(target, under).Listed? ==>
            forall name :: name in There(target, under).audio ==> FileDone(i, target.scope.path + under, name) in saved)
  }

  lemma WorksItem(target: Target, under: Path) returns (item: Item)
    requires Valid(target.tree) && Works(target, under)
    ensures item in ItemsOf(target) && Tells(item, target.scope.path + under, There(target, under))
  {
    var path := target.scope.path + under;
    assert path[|target.scope.path|..] == under;
    if target.excluded {
      YieldsExcluded(SetupOf(target, None));
      item := ItemsOf(target)[0];
    } else if target.scope.depth.OneFolder? {
      YieldsOne(SetupOf(target, None));
      assert path == target.scope.path;
      item := ItemsOf(target)[0];
    } else {
      item := ItemFor(path, Below(target.tree, under));
      ItemTells(path, Below(target.tree, under));
      hide Tells, ItemFor;
      YieldsTree(target.scope.path, target.tree, item);
      VisitsEvery(target.scope.path, target.tree, under);
    }
  }

  /** A scope whose items are all in the store is so with all of its tree. */
  lemma WholeStored(w: World, i: nat, saved: set<Outcome>)
    requires ValidWorld(w) && i < |w| && Whole(w, i, saved)
    ensures Stored(w[i], i, saved)
  {
    var target := w[i];
    forall under | Works(target, under) && !There(target, under).Unreadable?
      ensures FolderDone(i, target.scope.path + under) in saved
      ensures There(target, under).Listed? ==>
        forall name :: name in There(target, under).audio ==> FileDone(i, target.scope.path + under, name) in saved
    {
      var item := WorksItem(target, under);
      hide Works, There, ItemsOf;
      assert item.Directory? && OutcomesFor(i, item) <= saved;
      if There(target, under).Listed? {
        forall name | name in There(target, under).audio ensures FileDone(i, target.scope.path + under, name) in saved {
          assert name in multiset(item.audio);
        }
      }
    }
  }

  /** If every root answers, a scan that completes has in the store every audio file of every folder listed, and
      every folder's reconcile, of each scope but a link's, however often it was stopped or killed. */
  lemma EveryFileStored(w: World, states: seq<State>, events: seq<Event>, k: nat, i: nat)
    requires ValidWorld(w) && IsRun(w, states, events) && k < |states| && i < |w| && (w[i].excluded || !w[i].linked)
    requires forall j :: 0 <= j < k ==> !LosesRoot(events[j])
    requires states[k].at.Completed?
    ensures Stored(w[i], i, states[k].saved)
  {
    EveryFolderProcessed(w, states, events, k, i);
    WholeStored(w, i, states[k].saved);
  }

  /** And whether they answer or not, if no scope left unanswered lay behind where its last run started. */
  lemma StoredUnlessResumedPast(w: World, states: seq<State>, events: seq<Event>, j: nat, k: nat, i: nat)
    requires ValidWorld(w) && IsRun(w, states, events) && j < k < |states| && states[k].at.Completed?
    requires events[j].Start? && forall m :: j < m < k ==> !events[m].Start?
    requires forall i :: i in states[j].skipped ==> i >= From(states[j].row)
    requires i < |w| && (w[i].excluded || !w[i].linked)
    ensures Stored(w[i], i, states[k].saved)
  {
    WholeUnlessResumedPast(w, states, events, j, k, i);
    WholeStored(w, i, states[k].saved);
  }

  // ---- And nothing else ----

  /** The outcome is of a folder that a scan works, or of a file of one; and of no scope that a symlink leads to, but
      an excluded one. */
  ghost predicate OfTree(w: World, o: Outcome) {
    && o.scope < |w| && (w[o.scope].excluded || !w[o.scope].linked)
    && w[o.scope].scope.path <= o.dir
    && var under := o.dir[|w[o.scope].scope.path|..];
       && Works(w[o.scope], under) && !There(w[o.scope], under).Unreadable?
       && (o.FileDone? ==> There(w[o.scope], under).Listed? && o.name in There(w[o.scope], under).audio)
  }

  /** Each item is one of a folder that a scan works. */
  lemma ItemWorks(target: Target, item: Item)
    requires Valid(target.tree) && item in ItemsOf(target)
    ensures target.scope.path <= item.path && Works(target, item.path[|target.scope.path|..])
    ensures Tells(item, item.path, There(target, item.path[|target.scope.path|..]))
  {
    var path := target.scope.path;
    if target.excluded {
      YieldsExcluded(SetupOf(target, None));
    } else if target.scope.depth.OneFolder? {
      YieldsOne(SetupOf(target, None));
    } else {
      hide Tells;
      YieldsTree(path, target.tree, item);
    }
  }

  ghost predicate ItemsOnly(w: World, s: State) {
    match s.at
    case Walking(i, todo) => i < |w| && !Linked(w[i]) && forall item :: item in todo && item.Directory? ==> item in ItemsOf(w[i])
    case InFolder(i, item, _, todo) =>
      i < |w| && !Linked(w[i]) && item in ItemsOf(w[i]) && forall it :: it in todo && it.Directory? ==> it in ItemsOf(w[i])
    case _ => true
  }

  ghost predicate OnlyTree(w: World, s: State) {
    ItemsOnly(w, s) && forall o :: o in s.saved + s.batch ==> OfTree(w, o)
  }

  lemma StepItemsOnly(w: World, s: State, e: Event, s': State)
    requires ValidWorld(w) && Inv(w, s) && Next(w, s, e, s') && ItemsOnly(w, s)
    ensures ItemsOnly(w, s')
  {
    hide ItemsOf, Safe, Behind, Left;
    if e.EnterScope? {
      var i := s.at.i;
      forall item | item in s'.at.todo && item.Directory? ensures item in ItemsOf(w[i]) {
        LeftItem(w[i], s.cursor, i, item);
      }
    }
  }

  lemma StepOnly(w: World, s: State, e: Event, s': State)
    requires ValidWorld(w) && Inv(w, s) && Next(w, s, e, s') && OnlyTree(w, s)
    ensures OnlyTree(w, s')
  {
    StepItemsOnly(w, s, e, s');
    if e.ProcessFile? || e.CloseFolder? {
      var (i, item) := (s.at.i, s.at.item);
      ItemWorks(w[i], item);
      hide Works, There, ItemsOf, Inv;
      assert s'.at.i == i;
      if e.ProcessFile? {
        assert item.audio[s.at.k] in multiset(item.audio);
      }
    } else {
      hide OfTree, Inv, ItemsOnly, Walked;
      assert s'.saved + s'.batch <= s.saved + s.batch;
    }
  }

  lemma {:induction false} RunOnly(w: World, states: seq<State>, events: seq<Event>, k: nat)
    requires ValidWorld(w) && IsRun(w, states, events) && k < |states|
    ensures OnlyTree(w, states[k])
  {
    hide Inv, Next;
    if k > 0 {
      RunOnly(w, states, events, k - 1);
      hide OnlyTree;
      RunKeeps(w, states, events, k - 1);
      StepOnly(w, states[k - 1], events[k - 1], states[k]);
    }
  }

  /** At any moment of any run, all that is saved is of files and folders of the trees. */
  lemma SavedOnlyTrees(w: World, states: seq<State>, events: seq<Event>, k: nat, o: Outcome)
    requires ValidWorld(w) && IsRun(w, states, events) && k < |states| && o in states[k].saved
    ensures OfTree(w, o)
  {
    RunOnly(w, states, events, k);
  }

  // ---- What a stop loses ----

  /** The event ends a run without saving what is in hand. */
  predicate Loses(e: Event) {
    e.Kill? || e.Fail?
  }

  /** Saved, or in hand in a run that has not ended. */
  ghost predicate Holds(s: State, o: Outcome) {
    o in s.saved || (o in s.batch && Running(s))
  }

  lemma StepHolds(w: World, s: State, e: Event, s': State, o: Outcome)
    requires Inv(w, s) && Next(w, s, e, s') && Holds(s, o) && !Loses(e)
    ensures Holds(s', o)
  {
    hide Safe, Behind, Left, Walked;
  }

  /** Nothing is lost but by a kill or a failure: what a scan has once done is in its store or in hand as long as neither
      comes, and so in its store once it stops or ends. */
  lemma {:induction false} StopsLoseNothing(w: World, states: seq<State>, events: seq<Event>, j: nat, k: nat, o: Outcome)
    requires ValidWorld(w) && IsRun(w, states, events) && j <= k < |states| && Holds(states[j], o)
    requires forall m :: j <= m < k ==> !Loses(events[m])
    ensures Holds(states[k], o) && (!Running(states[k]) ==> o in states[k].saved)
    decreases k - j
  {
    if j < k {
      StopsLoseNothing(w, states, events, j, k - 1, o);
      hide Inv, Next;
      RunKeeps(w, states, events, k - 1);
      hide Holds;
      StepHolds(w, states[k - 1], events[k - 1], states[k], o);
    }
  }

  /** And the start after a stop has all that was in hand in its store, and the cursor and the scope as they were. */
  lemma ResumesWhereStopped(w: World, s: State, stopped: State, s': State)
    requires Inv(w, s) && Next(w, s, Stop, stopped) && Next(w, stopped, Start, s')
    ensures s'.cursor == s.cursor && s'.saved == s.saved + s.batch
    ensures s'.at == AtScope(if s.cursor.Some? then s.cursor.value.scope else 0)
  {
    hide Safe, Behind, Left, Walked;
  }

  // ---- What a run returns ----

  /** The event leaves scope `i` because its root does not answer. */
  ghost predicate Leaves(s: State, e: Event, i: nat) {
    LosesRoot(e) && (s.at.AtScope? || s.at.Walking? || s.at.InFolder?) && s.at.i == i
  }

  ghost predicate Climbs(s: seq<nat>) {
    forall a, b :: 0 <= a < b < |s| ==> s[a] < s[b]
  }

  lemma StepReturns(w: World, s: State, e: Event, s': State)
    requires Inv(w, s) && Next(w, s, e, s') && Climbs(s.unanswered)
    ensures Climbs(s'.unanswered)
    ensures forall i: nat :: i in s'.unanswered <==> !e.Start? && (i in s.unanswered || Leaves(s, e, i))
  {
    hide Safe, Behind, Left, Walked;
    if LosesRoot(e) {
      assert s'.unanswered == s.unanswered + [s.at.i];
      assert forall a :: 0 <= a < |s.unanswered| ==> s.unanswered[a] in s.unanswered;
    }
  }

  /** A run leaves unanswered just the scopes that it left, each once and in order; it is these that it returns. */
  lemma {:induction false} ReturnsWhatItLeft(w: World, states: seq<State>, events: seq<Event>, j: nat, k: nat)
    requires ValidWorld(w) && IsRun(w, states, events) && j < k < |states|
    requires events[j].Start? && forall m :: j < m < k ==> !events[m].Start?
    ensures Climbs(states[k].unanswered)
    ensures forall i: nat :: i in states[k].unanswered <==> exists m :: j < m < k && Leaves(states[m], events[m], i)
    decreases k
  {
    hide Inv, Next, Climbs, Leaves;
    var (s, e, s') := (states[k - 1], events[k - 1], states[k]);
    assert Next(w, s, e, s');
    RunKeeps(w, states, events, k - 1);
    if j + 1 == k {
      Starts(w, s, s');
    } else {
      ReturnsWhatItLeft(w, states, events, j, k - 1);
      StepReturns(w, s, e, s');
    }
  }

  lemma Starts(w: World, s: State, s': State)
    requires Next(w, s, Start, s')
    ensures s'.unanswered == [] && Climbs(s'.unanswered)
  {
  }
}
