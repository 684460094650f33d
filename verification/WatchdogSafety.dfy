/** What the pool and its watchdog keep, however their steps and the system's interleave. */
module WatchdogSafety {
  import opened Wrappers
  import opened WatchdogSteps

  // ---- Each step keeps the invariant ----

  lemma InitialWell(s: State)
    requires Initial(s)
    ensures Inv(s)
  {
  }

  /** A child's pid is its own: no other child alive has it. */
  lemma OwnPid(s: State, c: ChildId, d: ChildId)
    requires Inv(s) && IsChild(s, c) && IsChild(s, d) && Alive(s.children[c]) && Alive(s.children[d])
    requires s.children[c].pid == s.children[d].pid
    ensures c == d
  {
    assert ChildHolds(s, c) && ChildHolds(s, d);
  }

  /** A child not yet registered finds no entry under its pid, so registering it overwrites none. */
  lemma NoneThere(s: State, c: ChildId)
    requires Inv(s) && IsChild(s, c) && Alive(s.children[c]) && !IsRegistered(s.children[c])
    ensures s.children[c].pid !in s.registry
  {
    if s.children[c].pid in s.registry {
      assert EntryHolds(s, s.children[c].pid);
      OwnPid(s, c, s.registry[s.children[c].pid].child);
    }
  }

  /** A pid no process has is in no entry and no child's. */
  lemma FreePid(s: State, pid: Pid)
    requires Inv(s) && pid !in s.owners
    ensures pid !in s.registry && forall c :: 0 <= c < |s.children| && Alive(s.children[c]) ==> s.children[c].pid != pid
  {
    forall c | 0 <= c < |s.children| && Alive(s.children[c]) ensures s.children[c].pid != pid {
      assert ChildHolds(s, c);
    }
    assert pid in s.registry ==> EntryHolds(s, pid);
  }

  lemma MarksStay(s: State, s': State)
    requires Marks(s) && |s'.children| == |s.children| && s'.stalled == s.stalled
    requires s.signals <= s'.signals && forall i :: |s.signals| <= i < |s'.signals| ==> !s'.signals[i].byWatchdog
    requires forall c :: 0 <= c < |s.children| && !s.children[c].Unspawned? ==> !s'.children[c].Unspawned?
    requires forall c :: 0 <= c < |s.children| && s'.children[c].Ended? ==> s.children[c].Ended? || s'.children[c].stalled == (c in s.stalled)
    requires forall c :: 0 <= c < |s.children| && s.children[c].Ended? ==> s'.children[c] == s.children[c]
    ensures Marks(s')
  {
    forall c ensures KilledAsStalled(s'.signals, c) <==> KilledAsStalled(s.signals, c) {
      if KilledAsStalled(s.signals, c) {
        var i :| 0 <= i < |s.signals| && s.signals[i].byWatchdog && s.signals[i].child == c;
        assert s'.signals[i] == s.signals[i];
      }
    }
  }

  /** The system's own steps, and the clock's. */
  lemma SystemKeeps(s: State, e: Event, s': State)
    requires Inv(s) && Next(s, e, s') && (e.Tick? || e.Appears? || e.Disappears?)
    ensures Inv(s')
  {
    MarksStay(s, s');
    hide Marks;
    forall c | 0 <= c < |s'.children| ensures ChildHolds(s', c) {
      assert ChildHolds(s, c);
    }
    forall pid | pid in s'.registry ensures EntryHolds(s', pid) {
      assert EntryHolds(s, pid);
    }
  }

  /** A child's step keeps the rest, if it looks after itself. */
  lemma ChildKeeps(s: State, s': State, c: ChildId)
    requires Inv(s) && IsChild(s, c) && |s'.children| == |s.children|
    requires forall d :: 0 <= d < |s.children| && d != c ==> s'.children[d] == s.children[d]
    requires forall d :: 0 <= d < |s.children| && d != c && Alive(s.children[d]) ==>
      OwnerOf(s', s.children[d].pid) == OwnerOf(s, s.children[d].pid)
    requires forall pid :: pid in s.registry && s.registry[pid].child != c ==> pid in s'.registry && s'.registry[pid] == s.registry[pid]
    requires forall pid :: pid in s'.registry && s'.registry[pid].child != c ==> pid in s.registry && s.registry[pid] == s'.registry[pid]
    requires forall pid :: pid in s'.registry && s'.registry[pid].child == c ==> EntryHolds(s', pid)
    requires ChildHolds(s', c) && Marks(s')
    requires forall i :: 0 <= i < |s'.signals| ==> Right(s'.signals[i])
    requires s'.watch.Checking? ==> s'.watch.left <= s'.registry.Keys
    ensures Inv(s')
  {
    hide Marks, Right;
    forall d | 0 <= d < |s'.children| ensures ChildHolds(s', d) {
      assert ChildHolds(s, d);
    }
    forall pid | pid in s'.registry ensures EntryHolds(s', pid) {
      if s'.registry[pid].child != c {
        assert EntryHolds(s, pid);
      }
    }
  }

  lemma SpawnKeeps(s: State, s': State, c: ChildId, pid: Pid)
    requires Inv(s) && Next(s, Spawn(c, pid), s')
    ensures Inv(s')
  {
    FreePid(s, pid);
    MarksStay(s, s');
    hide Marks, Right;
    assert ChildHolds(s, c);
    forall q | q in s.registry ensures s.registry[q].child != c {
      assert EntryHolds(s, q);
    }
    ChildKeeps(s, s', c);
  }

  lemma RegisterKeeps(s: State, s': State, c: ChildId)
    requires Inv(s) && Next(s, Register(c), s')
    ensures Inv(s')
  {
    NoneThere(s, c);
    MarksStay(s, s');
    NoOtherEntry(s, c);
    hide Marks, Right;
    assert ChildHolds(s, c);
    ChildKeeps(s, s', c);
  }

  /** A child has no entry but under its pid, and none unless it is registered. */
  lemma NoOtherEntry(s: State, c: ChildId)
    requires Inv(s) && IsChild(s, c)
    ensures forall pid :: pid in s.registry && s.registry[pid].child == c ==> IsRegistered(s.children[c]) && s.children[c].pid == pid
  {
    forall pid | pid in s.registry && s.registry[pid].child == c ensures IsRegistered(s.children[c]) && s.children[c].pid == pid {
      assert EntryHolds(s, pid);
    }
  }

  lemma ProgressKeeps(s: State, s': State, c: ChildId)
    requires Inv(s) && Next(s, Progress(c), s')
    ensures Inv(s')
  {
    assert ChildHolds(s, c);
    MarksStay(s, s');
    NoOtherEntry(s, c);
    hide Marks, Right;
    ChildKeeps(s, s', c);
  }

  lemma KillKeeps(s: State, s': State, c: ChildId)
    requires Inv(s) && Next(s, Kill(c), s')
    ensures Inv(s')
  {
    assert ChildHolds(s, c);
    MarksStay(s, s');
    NoOtherEntry(s, c);
    hide Marks;
    ChildKeeps(s, s', c);
  }

  lemma UnregisterKeeps(s: State, s': State, c: ChildId)
    requires Inv(s) && Next(s, Unregister(c), s')
    ensures Inv(s')
  {
    assert ChildHolds(s, c);
    MarksStay(s, s');
    NoOtherEntry(s, c);
    hide Marks, Right;
    ChildKeeps(s, s', c);
  }

  lemma ReapKeeps(s: State, s': State, c: ChildId)
    requires Inv(s) && Next(s, Reap(c), s')
    ensures Inv(s')
  {
    assert ChildHolds(s, c);
    MarksStay(s, s');
    NoOtherEntry(s, c);
    forall d | 0 <= d < |s.children| && d != c && Alive(s.children[d]) ensures s.children[d].pid != s.children[c].pid {
      if s.children[d].pid == s.children[c].pid {
        OwnPid(s, c, d);
      }
    }
    hide Marks, Right;
    ChildKeeps(s, s', c);
  }

  lemma FinishKeeps(s: State, s': State, c: ChildId)
    requires Inv(s) && Next(s, Finish(c), s')
    ensures Inv(s')
  {
    assert ChildHolds(s, c);
    MarksStay(s, s');
    NoOtherEntry(s, c);
    hide Marks, Right;
    ChildKeeps(s, s', c);
  }

  lemma WatchKeeps(s: State, e: Event, s': State)
    requires Inv(s) && Next(s, e, s') && (e.Wake? || e.Lock? || e.Sleep?)
    ensures Inv(s')
  {
    MarksStay(s, s');
    hide Marks, Right;
    forall c | 0 <= c < |s'.children| ensures ChildHolds(s', c) {
      assert ChildHolds(s, c);
    }
    forall pid | pid in s'.registry ensures EntryHolds(s', pid) {
      assert EntryHolds(s, pid);
    }
  }

  lemma LookKeeps(s: State, s': State, pid: Pid)
    requires Inv(s) && Next(s, Look(pid), s')
    ensures Inv(s')
  {
    var c := s.registry[pid].child;
    assert EntryHolds(s, pid);
    assert ChildHolds(s, c);
    LookMarks(s, s', pid);
    hide Marks;
    forall c | 0 <= c < |s'.children| ensures ChildHolds(s', c) {
      assert ChildHolds(s, c);
    }
    forall pid | pid in s'.registry ensures EntryHolds(s', pid) {
      assert EntryHolds(s, pid);
    }
  }

  lemma LookMarks(s: State, s': State, pid: Pid)
    requires Marks(s) && Next(s, Look(pid), s') && EntryHolds(s, pid)
    ensures Marks(s')
  {
    var entry := s.registry[pid];
    if Stalls(s.watch.now, entry) {
      forall c ensures KilledAsStalled(s'.signals, c) <==> KilledAsStalled(s.signals, c) || c == entry.child {
        if KilledAsStalled(s.signals, c) {
          var i :| 0 <= i < |s.signals| && s.signals[i].byWatchdog && s.signals[i].child == c;
          assert s'.signals[i] == s.signals[i];
        }
        assert s'.signals[|s.signals|].byWatchdog && s'.signals[|s.signals|].child == entry.child;
      }
    }
  }

  lemma StepKeeps(s: State, e: Event, s': State)
    requires Inv(s) && Next(s, e, s')
    ensures Inv(s')
  {
    match e
    case Spawn(c, pid) => SpawnKeeps(s, s', c, pid);
    case Register(c) => RegisterKeeps(s, s', c);
    case Progress(c) => ProgressKeeps(s, s', c);
    case Kill(c) => KillKeeps(s, s', c);
    case Unregister(c) => UnregisterKeeps(s, s', c);
    case Reap(c) => ReapKeeps(s, s', c);
    case Finish(c) => FinishKeeps(s, s', c);
    case Look(pid) => LookKeeps(s, s', pid);
    case Tick(_) => SystemKeeps(s, e, s');
    case Appears(_) => SystemKeeps(s, e, s');
    case Disappears(_) => SystemKeeps(s, e, s');
    case _ => WatchKeeps(s, e, s');
  }

  // ---- Whole runs ----

  ghost predicate IsRun(states: seq<State>, events: seq<Event>) {
    && |states| == |events| + 1
    && Initial(states[0])
    && forall k :: 0 <= k < |events| ==> Next(states[k], events[k], states[k + 1])
  }

  lemma {:induction false} RunKeeps(states: seq<State>, events: seq<Event>, k: nat)
    requires IsRun(states, events) && k < |states|
    ensures Inv(states[k])
  {
    hide Inv, Next;
    if k == 0 {
      InitialWell(states[0]);
    } else {
      RunKeeps(states, events, k - 1);
      StepKeeps(states[k - 1], events[k - 1], states[k]);
    }
  }

  /** Every signal sent, by the watchdog or a drop, got to the child it was for, not yet reaped then. */
  lemma SignalsReachOwn(states: seq<State>, events: seq<Event>, k: nat, i: nat)
    requires IsRun(states, events) && k < |states| && i < |states[k].signals|
    ensures states[k].signals[i].got == Some(Ours(states[k].signals[i].child))
  {
    RunKeeps(states, events, k);
    assert Right(states[k].signals[i]);
  }

  /** A child is marked just if the watchdog has signalled it, and each signal of the watchdog came longer than the
      timeout after its child's last progress. */
  lemma StalledOnlyIfSilent(states: seq<State>, events: seq<Event>, k: nat, c: ChildId)
    requires IsRun(states, events) && k < |states|
    ensures c in states[k].stalled <==> KilledAsStalled(states[k].signals, c)
    ensures forall i :: 0 <= i < |states[k].signals| && states[k].signals[i].byWatchdog ==>
      states[k].signals[i].now - states[k].signals[i].lastProgress > STALL_TIMEOUT_MS
    ensures IsChild(states[k], c) && states[k].children[c].Ended? ==>
      states[k].children[c].stalled == KilledAsStalled(states[k].signals, c)
  {
    RunKeeps(states, events, k);
    forall i | 0 <= i < |states[k].signals| && states[k].signals[i].byWatchdog
      ensures states[k].signals[i].now - states[k].signals[i].lastProgress > STALL_TIMEOUT_MS
    {
      assert Right(states[k].signals[i]);
    }
  }

  /** A child registers under a pid with no entry, and only its own progress restarts its clock. */
  lemma EntriesAreOwn(states: seq<State>, events: seq<Event>, k: nat)
    requires IsRun(states, events) && k < |events|
    ensures events[k].Register? ==> IsChild(states[k], events[k].c) && states[k].children[events[k].c].Spawned?
    ensures events[k].Register? ==> states[k].children[events[k].c].pid !in states[k].registry
    ensures events[k].Progress? ==> IsChild(states[k], events[k].c) && states[k].children[events[k].c].Running?
    ensures events[k].Progress? ==> states[k].children[events[k].c].pid in states[k].registry
    ensures events[k].Progress? ==> states[k].registry[states[k].children[events[k].c].pid].child == events[k].c
  {
    RunKeeps(states, events, k);
    assert Next(states[k], events[k], states[k + 1]);
    if events[k].Register? {
      NoneThere(states[k], events[k].c);
    } else if events[k].Progress? {
      assert ChildHolds(states[k], events[k].c);
    }
  }

  /** The child's entry, if it has one, is of `since` or later. */
  ghost predicate Since(s: State, c: ChildId, since: int) {
    IsChild(s, c) && !s.children[c].Unspawned? && !s.children[c].Spawned? && since <= s.clock
    && forall pid :: pid in s.registry && s.registry[pid].child == c ==> s.registry[pid].lastProgress >= since
  }

  lemma SinceStays(s: State, e: Event, s': State, c: ChildId, since: int)
    requires Inv(s) && Since(s, c, since) && Next(s, e, s')
    ensures Since(s', c, since)
  {
    hide Marks, Right;
    if e.Progress? {
      assert ChildHolds(s, e.c);
    }
  }

  lemma {:induction false} SinceRuns(states: seq<State>, events: seq<Event>, j: nat, k: nat, c: ChildId, since: int)
    requires IsRun(states, events) && j <= k < |states| && Since(states[j], c, since)
    ensures Since(states[k], c, since)
  {
    hide Inv, Since, Next;
    if j < k {
      SinceRuns(states, events, j, k - 1, c, since);
      RunKeeps(states, events, k - 1);
      SinceStays(states[k - 1], events[k - 1], states[k], c, since);
    }
  }

  /** The watchdog signals no child within the timeout of its registering, or of any progress it made. */
  lemma NotWithinTimeout(states: seq<State>, events: seq<Event>, j: nat, k: nat, pid: Pid)
    requires IsRun(states, events) && j < k < |events| && (events[j].Register? || events[j].Progress?) && events[k] == Look(pid)
    requires pid in states[k].registry && states[k].registry[pid].child == events[j].c
    requires |states[k + 1].signals| > |states[k].signals|
    ensures states[k].watch.Checking? && states[k].watch.now - states[j].clock > STALL_TIMEOUT_MS
  {
    assert Next(states[j], events[j], states[j + 1]) && Next(states[k], events[k], states[k + 1]);
    RunKeeps(states, events, j);
    assert ChildHolds(states[j], events[j].c);
    NoOtherEntry(states[j], events[j].c);
    hide Marks, Right;
    assert Since(states[j + 1], events[j].c, states[j].clock);
    hide Inv;
    SinceRuns(states, events, j + 1, k, events[j].c, states[j].clock);
  }

  // ---- A whole check ----

  /** The watchdog's signal to the child of an entry. */
  function Kills(entry: Entry, now: int): Signal {
    Signal(true, entry.child, now, entry.lastProgress, Some(Ours(entry.child)))
  }

  /** So far into the check that began at `from`: the registry is as it was, and of the entries looked at the
      children that stalled are marked and signalled, and no other is marked. */
  ghost predicate SoFar(from: State, s: State, now: int, pids: set<Pid>) {
    && s.registry == from.registry
    && s.stalled == from.stalled + Marked(from.registry, now, pids)
    && from.signals <= s.signals
    && AllKilled(from.registry, now, pids, s.signals[|from.signals|..])
  }

  ghost predicate AllKilled(registry: map<Pid, Entry>, now: int, pids: set<Pid>, signals: seq<Signal>) {
    forall pid :: pid in pids && pid in registry && Stalls(now, registry[pid]) ==> Kills(registry[pid], now) in signals
  }

  lemma StepSoFar(from: State, s: State, e: Event, s': State, now: int, left: set<Pid>)
    requires Inv(s) && Next(s, e, s') && !e.Sleep? && s.watch == Checking(now, left)
    requires SoFar(from, s, now, from.registry.Keys - left)
    ensures s'.watch.Checking? && s'.watch.now == now && SoFar(from, s', now, from.registry.Keys - s'.watch.left)
  {
    if e.Look? {
      LookSoFar(from, s, e.pid, s', now, left);
    } else {
      hide Inv, Marked;
      assert s'.signals == s.signals || s'.signals == s.signals + [s'.signals[|s.signals|]];
      LaterToo(s.signals, s'.signals, |from.signals|);
    }
  }

  lemma LaterToo(a: seq<Signal>, b: seq<Signal>, n: nat)
    requires n <= |a| && a <= b
    ensures forall x :: x in a[n..] ==> x in b[n..]
  {
    assert b[n..] == a[n..] + b[|a|..];
  }

  lemma LookSoFar(from: State, s: State, pid: Pid, s': State, now: int, left: set<Pid>)
    requires Inv(s) && Next(s, Look(pid), s') && s.watch == Checking(now, left)
    requires SoFar(from, s, now, from.registry.Keys - left)
    ensures s'.watch.Checking? && s'.watch.now == now && SoFar(from, s', now, from.registry.Keys - s'.watch.left)
  {
    LookKills(s, pid, s');
    hide Inv, Next, AllKilled;
    var looked := from.registry.Keys - left;
    assert from.registry.Keys - s'.watch.left == looked + {pid};
    MarkedBoth(from.registry, now, looked, {pid});
    hide Marked;
    KilledToo(from, s, s', now, looked, pid);
  }

  lemma KilledToo(from: State, s: State, s': State, now: int, pids: set<Pid>, pid: Pid)
    requires from.signals <= s.signals && AllKilled(from.registry, now, pids, s.signals[|from.signals|..])
    requires pid in from.registry
    requires s'.signals == if Stalls(now, from.registry[pid]) then s.signals + [Kills(from.registry[pid], now)] else s.signals
    ensures from.signals <= s'.signals && AllKilled(from.registry, now, pids + {pid}, s'.signals[|from.signals|..])
  {
    LaterToo(s.signals, s'.signals, |from.signals|);
    if Stalls(now, from.registry[pid]) {
      assert s'.signals[|from.signals|..] == s.signals[|from.signals|..] + [Kills(from.registry[pid], now)];
    }
  }

  lemma LookKills(s: State, pid: Pid, s': State)
    requires Inv(s) && Next(s, Look(pid), s')
    ensures pid in s.registry && s'.watch == Checking(s.watch.now, s.watch.left - {pid}) && s'.registry == s.registry
    ensures var (entry, now) := (s.registry[pid], s.watch.now);
      && s'.stalled == s.stalled + Marked(s.registry, now, {pid})
      && s'.signals == if Stalls(now, entry) then s.signals + [Kills(entry, now)] else s.signals
  {
    assert EntryHolds(s, pid);
    assert ChildHolds(s, s.registry[pid].child);
    hide Inv;
    assert Marked(s.registry, s.watch.now, {pid}) ==
      if Stalls(s.watch.now, s.registry[pid]) then {s.registry[pid].child} else {};
  }

  lemma MarkedBoth(registry: map<Pid, Entry>, now: int, a: set<Pid>, b: set<Pid>)
    ensures Marked(registry, now, a + b) == Marked(registry, now, a) + Marked(registry, now, b)
  {
  }

  lemma {:induction false} CheckSoFar(states: seq<State>, events: seq<Event>, j: nat, k: nat)
    requires IsRun(states, events) && j < k < |states| && events[j] == Lock
    requires forall m :: j < m < k ==> !events[m].Sleep?
    ensures states[j].watch.Woken? && states[k].watch.Checking? && states[k].watch.now == states[j].watch.now
    ensures SoFar(states[j], states[k], states[j].watch.now, states[j].registry.Keys - states[k].watch.left)
  {
    hide SoFar, Inv, Next;
    var from := states[j];
    if j + 1 == k {
      CheckBegins(from, states[k]);
    } else {
      CheckSoFar(states, events, j, k - 1);
      RunKeeps(states, events, k - 1);
      StepSoFar(from, states[k - 1], events[k - 1], states[k], from.watch.now, states[k - 1].watch.left);
    }
  }

  lemma CheckBegins(from: State, s: State)
    requires Next(from, Lock, s)
    ensures from.watch.Woken? && s.watch.Checking? && s.watch.now == from.watch.now
    ensures SoFar(from, s, from.watch.now, from.registry.Keys - s.watch.left)
  {
    assert from.registry.Keys - s.watch.left == {};
  }

  /** By its end a check has newly marked just the children, of those registered as it took the lock, that had been
      silent for longer than two minutes as of its waking, and has signalled each. */
  lemma CheckMarksAll(states: seq<State>, events: seq<Event>, j: nat, k: nat)
    requires IsRun(states, events) && j < k < |events| && events[j] == Lock && events[k] == Sleep
    requires forall m :: j < m < k ==> !events[m].Sleep?
    ensures states[j].watch.Woken?
    ensures SoFar(states[j], states[k + 1], states[j].watch.now, states[j].registry.Keys)
    ensures var (from, s, now) := (states[j], states[k + 1], states[j].watch.now);
      forall c :: c in s.stalled <==> c in from.stalled || SilentFor(from.registry, now, c)
  {
    CheckSoFar(states, events, j, k);
    assert Next(states[k], Sleep, states[k + 1]);
    assert states[j].registry.Keys - {} == states[j].registry.Keys;
    MarkedExactly(states[j].registry, states[j].watch.now);
  }

  /** By the registry the child made its last progress more than two minutes before `now`. */
  ghost predicate SilentFor(registry: map<Pid, Entry>, now: int, c: ChildId) {
    exists pid :: pid in registry && registry[pid].child == c && now - registry[pid].lastProgress > 120_000
  }

  lemma MarkedExactly(registry: map<Pid, Entry>, now: int)
    ensures forall c :: c in Marked(registry, now, registry.Keys) <==> SilentFor(registry, now, c)
  {
  }

  // ---- What the registry says of a child ----

  /** The event starts the child's clock, or restarts it. */
  predicate Restarts(e: Event, c: ChildId) {
    (e.Register? || e.Progress?) && e.c == c
  }

  lemma EntryStep(s: State, e: Event, s': State, pid: Pid)
    requires Inv(s) && Next(s, e, s') && pid in s'.registry
    ensures if Restarts(e, s'.registry[pid].child) then s'.registry[pid].lastProgress == s.clock
      else pid in s.registry && s'.registry[pid] == s.registry[pid]
  {
    hide Marks, Right;
    if e.Progress? {
      assert ChildHolds(s, e.c);
    }
    if pid in s.registry {
      assert EntryHolds(s, pid);
    }
  }

  /** An entry's time is that of its child's registering, or of the last progress it made since. */
  lemma {:induction false} EntryClock(states: seq<State>, events: seq<Event>, k: nat, pid: Pid) returns (j: nat)
    requires IsRun(states, events) && k < |states| && pid in states[k].registry
    ensures var entry := states[k].registry[pid];
      && j < k && Restarts(events[j], entry.child) && entry.lastProgress == states[j].clock
      && forall m :: j < m < k ==> !Restarts(events[m], entry.child)
  {
    hide Inv, Next;
    assert k > 0;
    RunKeeps(states, events, k - 1);
    EntryStep(states[k - 1], events[k - 1], states[k], pid);
    if Restarts(events[k - 1], states[k].registry[pid].child) {
      j := k - 1;
    } else {
      j := EntryClock(states, events, k - 1, pid);
    }
  }

  // ---- A drop ----

  /** The child was dropped unfinished. */
  predicate Dropped(phase: Phase) {
    phase.Killed? || ((phase.Left? || phase.Reaped?) && !phase.finishing)
  }

  ghost predicate KilledByDrop(signals: seq<Signal>, c: ChildId) {
    exists i :: 0 <= i < |signals| && !signals[i].byWatchdog && signals[i].child == c && signals[i].got == Some(Ours(c))
  }

  lemma DropStep(s: State, e: Event, s': State, c: ChildId)
    requires Inv(s) && Next(s, e, s') && IsChild(s', c)
    ensures IsChild(s, c) && s.signals <= s'.signals
    ensures Dropped(s'.children[c]) && !Dropped(s.children[c]) ==> KilledByDrop(s'.signals, c)
  {
    if e == Kill(c) {
      assert ChildHolds(s, c);
      assert s'.signals[|s.signals|].child == c;
    }
  }

  /** A child dropped unfinished was sent a kill, and got it itself. */
  lemma {:induction false} DropKills(states: seq<State>, events: seq<Event>, k: nat, c: ChildId)
    requires IsRun(states, events) && k < |states| && IsChild(states[k], c) && Dropped(states[k].children[c])
    ensures KilledByDrop(states[k].signals, c)
  {
    hide Inv, Next, Dropped;
    if k == 0 {
      NoneDropped(states[0], c);
    } else {
      RunKeeps(states, events, k - 1);
      DropStep(states[k - 1], events[k - 1], states[k], c);
      if Dropped(states[k - 1].children[c]) {
        DropKills(states, events, k - 1, c);
      }
    }
  }

  lemma NoneDropped(s: State, c: ChildId)
    requires Initial(s) && IsChild(s, c)
    ensures !Dropped(s.children[c])
  {
  }
}
