/** A scan over its scopes, its cursor and its batch, as steps (crates/scanner/src/scan.rs), with
    stops, kills and restarts. What is flushed, the batch with the cursor, is saved at once or not
    at all (crates/scanner/src/store.rs:88-95). */
module ScanSteps {
  import opened Wrappers
  import opened Orders
  import opened Paths
  import opened Scopes
  import opened Walks

  /** A scope with the tree under it, which stays as it is; `excluded` if the scope is in a folder left out, `linked`
      if a symlink leads to it. */
  datatype Target = Target(scope: Scope, tree: Node, excluded: bool, linked: bool)

  type World = seq<Target>

  /** A place in a scan: a scope, and the last folder of it that is done, if any. */
  datatype Cursor = Cursor(scope: nat, after: Option<Path>)

  /** What a batch holds: that a file is done, or that its folder is reconciled, its files done before. */
  datatype Outcome = FileDone(scope: nat, dir: Path, name: Name) | FolderDone(scope: nat, dir: Path)

  datatype Phase =
    | Down
    | AtScope(i: nat)
    | Walking(i: nat, todo: seq<Item>)
    | InFolder(i: nat, item: Item, k: nat, todo: seq<Item>)
    | Completed
    | Suspended
    | Broken

  /** What the store holds, what a running scan holds, and where it is. `start` is where the run began,
      and `skipped` every scope left because its root did not answer that no run is to come to again. */
  datatype State = State(
    row: Option<Cursor>, saved: set<Outcome>,
    cursor: Option<Cursor>, batch: set<Outcome>, unanswered: seq<nat>,
    start: nat, skipped: set<nat>, at: Phase)

  datatype Event =
    | Start | Stop | Kill | Fail
    | SkipScope | PassLink | EnterScope | LoseRoot | FinishScope | Finish
    | Checkpoint | NoteFailed | OpenFolder | ProcessFile | CloseFolder

  const INITIAL := State(None, {}, None, {}, [], 0, {}, Down)

  // ---- Steps ----

  function SetupOf(target: Target, resumeAfter: Option<Path>): Setup {
    Setup(target.scope.path, target.tree, target.scope.depth, target.excluded, resumeAfter)
  }

  /** Whether a scope is left alone: one that a symlink leads to, unless it is excluded. */
  predicate Linked(target: Target) {
    target.linked && !target.excluded
  }

  /** The scope a run starts at. */
  function From(row: Option<Cursor>): nat {
    if row.Some? then row.value.scope else 0
  }

  /** Where the walk of the scope `i` resumes. */
  function ResumeAfter(cursor: Option<Cursor>, i: nat): Option<Path> {
    if cursor.Some? && cursor.value.scope == i then cursor.value.after else None
  }

  /** `s` once its batch and its cursor are saved. */
  function Flushed(s: State): State {
    s.(row := s.cursor, saved := s.saved + s.batch, batch := {})
  }

  /** `s` once its scope's root was found not to answer. */
  function Unanswered(s: State): State
    requires s.at.AtScope? || s.at.Walking? || s.at.InFolder?
  {
    s.(unanswered := s.unanswered + [s.at.i], skipped := s.skipped + {s.at.i}, at := AtScope(s.at.i + 1))
  }

  /** `s` once the cursor has moved past the whole of its scope, and was saved. */
  function PastScope(s: State): State
    requires s.at.AtScope? || s.at.Walking?
  {
    Flushed(s.(cursor := Some(Cursor(s.at.i + 1, None)), at := AtScope(s.at.i + 1)))
  }

  ghost predicate Next(w: World, s: State, e: Event, s': State) {
    match e
    // A start resumes at the saved cursor; a scan that ended never starts again.
    case Start => s.at.Down? &&
      s' == s.(cursor := s.row, batch := {}, unanswered := [], start := From(s.row),
               skipped := (set j | j in s.skipped && j < From(s.row)), at := AtScope(From(s.row)))
    // A shutdown flushes what is in hand.
    case Stop => (s.at.AtScope? || s.at.Walking? || s.at.InFolder?) && s' == Flushed(s).(at := Down)
    case Kill => !s.at.Down? && !s.at.Completed? && !s.at.Suspended? && !s.at.Broken? && s' == s.(at := Down)
    // A store failure or a panic ends the scan at what was saved.
    case Fail => (s.at.AtScope? || s.at.Walking? || s.at.InFolder?) && s' == s.(cursor := s.row, batch := {}, at := Broken)
    case SkipScope => s.at.AtScope? && s.at.i < |w| && s' == Unanswered(s)
    case PassLink => s.at.AtScope? && s.at.i < |w| && Linked(w[s.at.i]) && s' == PastScope(s)
    case EnterScope => s.at.AtScope? && s.at.i < |w| && !Linked(w[s.at.i]) &&
      s' == s.(at := Walking(s.at.i, Walked(SetupOf(w[s.at.i], ResumeAfter(s.cursor, s.at.i)))))
    case Checkpoint => (s.at.Walking? || s.at.InFolder?) && s' == Flushed(s)
    case NoteFailed => s.at.Walking? && s.at.todo != [] && s.at.todo[0].Failed? &&
      s' == s.(at := Walking(s.at.i, s.at.todo[1..]))
    case OpenFolder => s.at.Walking? && s.at.todo != [] && s.at.todo[0].Directory? &&
      s' == s.(at := InFolder(s.at.i, s.at.todo[0], 0, s.at.todo[1..]))
    case ProcessFile => s.at.InFolder? && s.at.item.Directory? && s.at.k < |s.at.item.audio| &&
      s' == s.(batch := s.batch + {FileDone(s.at.i, s.at.item.path, s.at.item.audio[s.at.k])},
               at := s.at.(k := s.at.k + 1))
    // The cursor comes to a folder after its last file.
    case CloseFolder => s.at.InFolder? && s.at.item.Directory? && s.at.k == |s.at.item.audio| &&
      s' == s.(batch := s.batch + {FolderDone(s.at.i, s.at.item.path)},
               cursor := Some(Cursor(s.at.i, Some(s.at.item.path))),
               at := Walking(s.at.i, s.at.todo))
    // The root went during a folder's reconcile, or was gone once the walk was over.
    case LoseRoot =>
      && (s.at.InFolder? || (s.at.Walking? && s.at.todo == []))
      && s' == Unanswered(Flushed(s))
    case FinishScope => s.at.Walking? && s.at.todo == [] && s' == PastScope(Flushed(s))
    case Finish => s.at.AtScope? && s.at.i >= |w| && s' == s.(at := if s.unanswered == [] then Completed else Suspended)
  }

  // ---- What is kept ----

  ghost predicate ValidWorld(w: World) {
    forall i :: 0 <= i < |w| ==> Valid(w[i].tree)
  }

  /** Everything a full walk of the scope yields. */
  ghost function ItemsOf(target: Target): seq<Item> {
    Walked(SetupOf(target, None))
  }

  /** All that processing a folder saves. */
  ghost function OutcomesFor(i: nat, item: Item): set<Outcome>
    requires item.Directory?
  {
    {FolderDone(i, item.path)} + set name | name in item.audio :: FileDone(i, item.path, name)
  }

  /** Every listed folder of the scope is in `done`, whole. */
  ghost predicate Whole(w: World, i: nat, done: set<Outcome>)
    requires i < |w|
  {
    forall item :: item in ItemsOf(w[i]) && item.Directory? ==> OutcomesFor(i, item) <= done
  }

  /** Whether the cursor is past `path` in the scope `i`. */
  predicate Passed(cursor: Option<Cursor>, i: nat, path: Path) {
    cursor.Some? &&
    (i < cursor.value.scope
     || (i == cursor.value.scope && cursor.value.after.Some? && ComparePaths(path, cursor.value.after.value) != Greater))
  }

  predicate NoLater(a: Option<Cursor>, b: Option<Cursor>) {
    a.None? ||
    (b.Some? &&
     (a.value.scope < b.value.scope
      || (a.value.scope == b.value.scope
          && (a.value.after.None?
              || (b.value.after.Some? && ComparePaths(a.value.after.value, b.value.after.value) != Greater)))))
  }

  /** Whether what the cursor is past in the scope `i` has to be saved: it is in that scope, or past
      one that was neither skipped nor a link's. */
  predicate Due(w: World, cursor: Option<Cursor>, i: nat, skipped: set<nat>)
    requires i < |w|
  {
    !Linked(w[i]) && (i in skipped ==> From(cursor) == i)
  }

  /** All that `cursor` is past is in `done`, but for scopes that were skipped. */
  ghost predicate Safe(w: World, cursor: Option<Cursor>, done: set<Outcome>, skipped: set<nat>) {
    forall i: nat, item ::
      (i < |w| && item in ItemsOf(w[i]) && item.Directory? && Due(w, cursor, i, skipped) && Passed(cursor, i, item.path)) ==>
        OutcomesFor(i, item) <= done
  }

  /** Every scope before `i` is whole in the store, unless it is a link's, or was skipped: in this run
      if the run came to it, and else in one before. */
  ghost predicate Behind(w: World, s: State, i: nat)
    requires i <= |w|
  {
    forall j: nat :: j < i ==>
      || Linked(w[j])
      || Whole(w, j, s.saved)
      || (if j < s.start then j in s.skipped else j in s.unanswered)
  }

  /** `todo` is what is left to walk of the scope after the cursor. */
  ghost predicate Left(w: World, cursor: Option<Cursor>, i: nat, todo: seq<Item>)
    requires i < |w|
  {
    && Increasing(todo)
    && (forall item :: item in ItemsOf(w[i]) && item.Directory? ==> Passed(cursor, i, item.path) || item in todo)
    && (forall item :: item in todo && item.Directory? ==> !Passed(cursor, i, item.path))
  }

  ghost predicate InPhase(w: World, s: State) {
    match s.at
    case Down => true
    case Broken => true
    case Completed => s.unanswered == [] && Behind(w, s, |w|)
    case Suspended => s.unanswered != [] && Behind(w, s, |w|)
    case AtScope(i) =>
      && s.start <= i <= |w| && From(s.cursor) <= i && s.cursor == s.row && s.batch == {} && Behind(w, s, i)
      && (forall j :: j in s.skipped ==> j < i)
    case Walking(i, todo) =>
      && s.start <= i < |w| && !Linked(w[i]) && From(s.cursor) <= i && Behind(w, s, i)
      && (forall j :: j in s.skipped ==> j < i)
      && Left(w, s.cursor, i, todo)
    case InFolder(i, item, k, todo) =>
      && s.start <= i < |w| && !Linked(w[i]) && From(s.cursor) <= i && Behind(w, s, i)
      && (forall j :: j in s.skipped ==> j < i)
      && item.Directory? && k <= |item.audio| && Left(w, s.cursor, i, [item] + todo)
      && (forall m :: 0 <= m < k ==> FileDone(i, item.path, item.audio[m]) in s.saved + s.batch)
  }

  ghost predicate Running(s: State) {
    s.at.AtScope? || s.at.Walking? || s.at.InFolder?
  }

  ghost predicate Inv(w: World, s: State) {
    && From(s.row) <= |w|
    && Safe(w, s.row, s.saved, s.skipped)
    && (forall j :: j in s.unanswered ==> j in s.skipped)
    && (s.at.Down? || s.at.Broken? || s.start <= |w|)
    && (Running(s) ==> Safe(w, s.cursor, s.saved + s.batch, s.skipped) && NoLater(s.row, s.cursor))
    && InPhase(w, s)
  }
}
