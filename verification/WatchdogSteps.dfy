/** The watchdog and its children (crates/ffmpeg/src/registry.rs:15-96, crates/ffmpeg/src/pooled.rs:15-120), as steps of
    them and of a system that may give a pid to another process as soon as the one that had it is reaped. */
module WatchdogSteps {
  import opened Wrappers

  type Pid = nat

  /** A child started by the pool, by its number. */
  type ChildId = nat

  const STALL_TIMEOUT_MS: int := 120_000

  /** Whose process a pid is: a child's, until it is reaped, or some other's. */
  datatype Owner = Ours(child: ChildId) | Foreign

  /** What the registry keeps of a child: when it last made progress, and whose flag marks it stalled. */
  datatype Entry = Entry(lastProgress: int, child: ChildId)

  datatype Phase =
    | Unspawned
    | Spawned(pid: Pid)      // not yet registered
    | Running(pid: Pid)      // registered
    | Killed(pid: Pid)       // by its own drop, still registered
    | Left(pid: Pid, finishing: bool)  // unregistered, not yet reaped
    | Reaped(finishing: bool)
    | Ended(stalled: bool)   // finished, and whether it says the child stalled

  /** A signal sent: by the watchdog, with the time of its check and of the child's last progress, or by the
      drop of a child; and whose process got it. */
  datatype Signal = Signal(byWatchdog: bool, child: ChildId, now: int, lastProgress: int, got: Option<Owner>)

  /** The watchdog holds the registry's lock while it checks: `left` are still to be looked at. */
  datatype Watch = Asleep | Woken(now: int) | Checking(now: int, left: set<Pid>)

  datatype State = State(
    clock: int, owners: map<Pid, Owner>, registry: map<Pid, Entry>, stalled: set<ChildId>,
    children: seq<Phase>, watch: Watch, signals: seq<Signal>)

  datatype Event =
    | Tick(ms: nat)
    | Appears(pid: Pid)
    | Disappears(pid: Pid)
    | Spawn(c: ChildId, pid: Pid)
    | Register(c: ChildId)
    | Progress(c: ChildId)
    | Kill(c: ChildId)
    | Unregister(c: ChildId)
    | Reap(c: ChildId)
    | Finish(c: ChildId)
    | Wake
    | Lock
    | Look(pid: Pid)
    | Sleep

  predicate IsChild(s: State, c: ChildId) {
    c < |s.children|
  }

  function With(s: State, c: ChildId, phase: Phase): State
    requires IsChild(s, c)
  {
    s.(children := s.children[c := phase])
  }

  function OwnerOf(s: State, pid: Pid): Option<Owner> {
    if pid in s.owners then Some(s.owners[pid]) else None
  }

  /** Whether the registry's lock is free. */
  predicate Free(s: State) {
    !s.watch.Checking?
  }

  function Elapsed(now: int, last: int): int {
    if now > last then now - last else 0
  }

  predicate Stalls(now: int, entry: Entry) {
    Elapsed(now, entry.lastProgress) > STALL_TIMEOUT_MS
  }

  /** The children, of those with an entry under `pids`, that a check as of `now` kills. */
  function Marked(registry: map<Pid, Entry>, now: int, pids: set<Pid>): set<ChildId> {
    set pid | pid in pids && pid in registry && Stalls(now, registry[pid]) :: registry[pid].child
  }

  function Registered(s: State, c: ChildId): State
    requires IsChild(s, c) && s.children[c].Spawned?
  {
    var pid := s.children[c].pid;
    With(s, c, Running(pid)).(registry := s.registry[pid := Entry(s.clock, c)])
  }

  function Progressed(s: State, pid: Pid): State {
    if pid in s.registry then s.(registry := s.registry[pid := s.registry[pid].(lastProgress := s.clock)]) else s
  }

  function Signalled(s: State, signal: Signal): State {
    s.(signals := s.signals + [signal])
  }

  /** The watchdog's look at one child. */
  function Looked(s: State, pid: Pid): State
    requires s.watch.Checking? && pid in s.registry
  {
    var entry := s.registry[pid];
    var s' := s.(watch := Checking(s.watch.now, s.watch.left - {pid}));
    if Stalls(s.watch.now, entry) then
      Signalled(s'.(stalled := s.stalled + {entry.child}),
                Signal(true, entry.child, s.watch.now, entry.lastProgress, OwnerOf(s, pid)))
    else s'
  }

  ghost predicate Next(s: State, e: Event, s': State) {
    match e
    case Tick(ms) => s' == s.(clock := s.clock + ms)
    case Appears(pid) => pid !in s.owners && s' == s.(owners := s.owners[pid := Foreign])
    case Disappears(pid) => pid in s.owners && s.owners[pid].Foreign? && s' == s.(owners := s.owners - {pid})
    // The system gives a new child any pid no process has.
    case Spawn(c, pid) =>
      && IsChild(s, c) && s.children[c].Unspawned? && pid !in s.owners
      && s' == With(s, c, Spawned(pid)).(owners := s.owners[pid := Ours(c)])
    case Register(c) => IsChild(s, c) && s.children[c].Spawned? && Free(s) && s' == Registered(s, c)
    case Progress(c) => IsChild(s, c) && s.children[c].Running? && Free(s) && s' == Progressed(s, s.children[c].pid)
    case Kill(c) =>
      && IsChild(s, c) && s.children[c].Running?
      && var pid := s.children[c].pid;
         s' == Signalled(With(s, c, Killed(pid)), Signal(false, c, s.clock, 0, OwnerOf(s, pid)))
    case Unregister(c) =>
      && IsChild(s, c) && (s.children[c].Running? || s.children[c].Killed?) && Free(s)
      && var pid := s.children[c].pid;
         s' == With(s, c, Left(pid, s.children[c].Running?)).(registry := s.registry - {pid})
    case Reap(c) =>
      && IsChild(s, c) && s.children[c].Left?
      && s' == With(s, c, Reaped(s.children[c].finishing)).(owners := s.owners - {s.children[c].pid})
    case Finish(c) =>
      && IsChild(s, c) && s.children[c].Reaped? && s.children[c].finishing
      && s' == With(s, c, Ended(c in s.stalled))
    // The time of a check is taken before its lock.
    case Wake => s.watch.Asleep? && s' == s.(watch := Woken(s.clock))
    case Lock => s.watch.Woken? && s' == s.(watch := Checking(s.watch.now, s.registry.Keys))
    case Look(pid) => s.watch.Checking? && pid in s.watch.left && pid in s.registry && s' == Looked(s, pid)
    case Sleep => s.watch.Checking? && s.watch.left == {} && s' == s.(watch := Asleep)
  }

  ghost predicate Initial(s: State) {
    && s.registry == map[] && s.stalled == {} && s.watch == Asleep && s.signals == []
    && (forall pid :: pid in s.owners ==> s.owners[pid].Foreign?)
    && forall c :: 0 <= c < |s.children| ==> s.children[c].Unspawned?
  }

  // ---- What is kept ----

  predicate Alive(phase: Phase) {
    phase.Spawned? || phase.Running? || phase.Killed? || phase.Left?
  }

  predicate IsRegistered(phase: Phase) {
    phase.Running? || phase.Killed?
  }

  /** A child not yet reaped has its pid to itself, and its entry while it is registered. */
  ghost predicate ChildHolds(s: State, c: ChildId)
    requires IsChild(s, c)
  {
    var phase := s.children[c];
    && (Alive(phase) ==> phase.pid in s.owners && s.owners[phase.pid] == Ours(c))
    && (IsRegistered(phase) ==> phase.pid in s.registry && s.registry[phase.pid].child == c)
  }

  /** An entry is of a child registered, under its own pid. */
  ghost predicate EntryHolds(s: State, pid: Pid)
    requires pid in s.registry
  {
    var c := s.registry[pid].child;
    IsChild(s, c) && IsRegistered(s.children[c]) && s.children[c].pid == pid
  }

  /** A signal got to the process of the child it was for, and the watchdog's only after it stalled. */
  predicate Right(signal: Signal) {
    && signal.got == Some(Ours(signal.child))
    && (signal.byWatchdog ==> Elapsed(signal.now, signal.lastProgress) > STALL_TIMEOUT_MS)
  }

  /** The watchdog has signalled the child. */
  ghost predicate KilledAsStalled(signals: seq<Signal>, c: ChildId) {
    exists i :: 0 <= i < |signals| && signals[i].byWatchdog && signals[i].child == c
  }

  ghost predicate Marks(s: State) {
    && (forall c :: c in s.stalled <==> KilledAsStalled(s.signals, c))
    && (forall c :: c in s.stalled ==> IsChild(s, c) && !s.children[c].Unspawned?)
    && forall c :: 0 <= c < |s.children| && s.children[c].Ended? ==> s.children[c].stalled == (c in s.stalled)
  }

  ghost predicate Inv(s: State) {
    && (forall c :: 0 <= c < |s.children| ==> ChildHolds(s, c))
    && (forall pid :: pid in s.registry ==> EntryHolds(s, pid))
    && (forall i :: 0 <= i < |s.signals| ==> Right(s.signals[i]))
    && Marks(s)
    && (s.watch.Checking? ==> s.watch.left <= s.registry.Keys)
  }
}
