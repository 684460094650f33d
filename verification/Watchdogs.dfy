/** The registry of running children and the life of each (crates/ffmpeg/src/registry.rs:54-96,
    crates/ffmpeg/src/pooled.rs:20-120). Every change is a step of `WatchdogSteps`, and the system and the other
    threads may step between any two. */
module Watchdogs {
  import opened Wrappers
  import opened WatchdogSteps
  import WatchdogSafety

  class Registry {
    var now: int
    var children: map<Pid, Entry>
    var stalled: set<ChildId>
    /** Every state of the pool so far, and the events between them. */
    ghost var states: seq<State>
    ghost var events: seq<Event>

    ghost function Now(): State
      requires |states| > 0
      reads this
    {
      states[|states| - 1]
    }

    /** All that has happened is a run of the steps, and this is where it is. */
    ghost predicate Tracked()
      reads this
    {
      && WatchdogSafety.IsRun(states, events) && |states| > 0
      && Now().clock == now && Now().registry == children && Now().stalled == stalled
    }

    /** Child `c` is where it was, and no check holds the lock. */
    ghost predicate At(c: ChildId, phase: Phase)
      reads this
    {
      Tracked() && IsChild(Now(), c) && Now().children[c] == phase && Free(Now())
    }

    constructor (now: int, ghost most: nat, ghost owners: map<Pid, Owner>)
      requires forall pid :: pid in owners ==> owners[pid].Foreign?
      ensures Tracked() && Initial(Now()) && |Now().children| == most
    {
      this.now, children, stalled := now, map[], {};
      states := [State(now, owners, map[], {}, seq(most, _ => Unspawned), Asleep, [])];
      events := [];
    }

    ghost method Record(e: Event, s: State)
      requires WatchdogSafety.IsRun(states, events) && |states| > 0 && Next(Now(), e, s)
      modifies this`states, this`events
      ensures WatchdogSafety.IsRun(states, events) && |states| > 0 && Now() == s && old(states) <= states
    {
      hide Next;
      states, events := states + [s], events + [e];
    }

    /** Time passes, other processes come and go, and the other children and the watchdog do what they do. */
    method Others(c: ChildId, ghost phase: Phase)
      requires At(c, phase)
      modifies this
      ensures At(c, phase) && old(states) <= states
    {
    }

    /** The same, while a check holds the lock: the registry stays, and who is marked. */
    method OthersInCheck(ghost watch: Watch)
      requires Tracked() && Now().watch == watch && watch.Checking?
      modifies this
      ensures Tracked() && Now().watch == watch && old(states) <= states
      ensures children == old(children) && stalled == old(stalled)
    {
    }

    method Register(pid: Pid, c: ChildId)
      requires At(c, Spawned(pid))
      modifies this`children, this`states, this`events
      ensures At(c, Running(pid)) && old(states) <= states
      ensures pid !in old(children) && children == old(children)[pid := Entry(now, c)]
    {
      hide WatchdogSafety.IsRun;
      ghost var s := Now();
      WatchdogSafety.RunKeeps(states, events, |states| - 1);
      WatchdogSafety.NoneThere(s, c);
      children := children[pid := Entry(now, c)];
      Record(Event.Register(c), Registered(s, c));
    }

    method Progress(pid: Pid, ghost c: ChildId)
      requires At(c, Running(pid))
      modifies this`children, this`states, this`events
      ensures At(c, Running(pid)) && old(states) <= states
      ensures pid in old(children) && old(children)[pid].child == c && children == old(children)[pid := Entry(now, c)]
    {
      hide WatchdogSafety.IsRun;
      ghost var s := Now();
      WatchdogSafety.RunKeeps(states, events, |states| - 1);
      assert ChildHolds(s, c);
      if pid in children {
        children := children[pid := children[pid].(lastProgress := now)];
      }
      Record(Event.Progress(c), Progressed(s, pid));
    }

    method Unregister(pid: Pid, ghost c: ChildId, ghost phase: Phase)
      requires At(c, phase) && (phase == Running(pid) || phase == Killed(pid))
      modifies this`children, this`states, this`events
      ensures At(c, Left(pid, phase.Running?)) && children == old(children) - {pid} && old(states) <= states
    {
      hide WatchdogSafety.IsRun;
      ghost var s := Now();
      children := children - {pid};
      Record(Event.Unregister(c), With(s, c, Left(pid, phase.Running?)).(registry := s.registry - {pid}));
    }

    /** Looks at every child under the lock: by the end just those that stalled as of `asOf` are marked besides
        those marked before, and each of them is signalled. */
    method ReapStalled(asOf: int)
      requires Tracked() && Now().watch == Woken(asOf)
      modifies this
      ensures Tracked() && Now().watch == Asleep && children == old(children) && old(states) <= states
      ensures stalled == old(stalled) + Marked(children, asOf, children.Keys)
      ensures forall c :: c in Marked(children, asOf, children.Keys) ==> KilledAsStalled(Now().signals, c)
    {
      hide WatchdogSafety.IsRun, Next;
      var left := children.Keys;
      TakeLock(asOf);
      assert children.Keys - left == {};
      while left != {}
        invariant Tracked() && Now().watch == Checking(asOf, left) && left <= children.Keys
        invariant children == old(children) && old(states) <= states
        invariant stalled == old(stalled) + Marked(children, asOf, children.Keys - left)
      {
        OthersInCheck(Checking(asOf, left));
        var pid :| pid in left;
        LookAt(asOf, pid, left);
        MarkedOneMore(children, asOf, left, pid);
        left := left - {pid};
      }
      LeaveLock(asOf);
      assert children.Keys - {} == children.Keys;
      forall c | c in stalled ensures KilledAsStalled(Now().signals, c) {
        WatchdogSafety.StalledOnlyIfSilent(states, events, |states| - 1, c);
      }
    }

    ghost method TakeLock(asOf: int)
      requires Tracked() && Now().watch == Woken(asOf)
      modifies this`states, this`events
      ensures Tracked() && Now().watch == Checking(asOf, children.Keys) && old(states) <= states
    {
      hide WatchdogSafety.IsRun;
      Record(Lock, Now().(watch := Checking(asOf, Now().registry.Keys)));
    }

    ghost method LeaveLock(asOf: int)
      requires Tracked() && Now().watch == Checking(asOf, {})
      modifies this`states, this`events
      ensures Tracked() && Now().watch == Asleep && old(states) <= states
    {
      hide WatchdogSafety.IsRun;
      Record(Sleep, Now().(watch := Asleep));
    }

    /** Signals one child if it stalls. */
    method LookAt(asOf: int, pid: Pid, ghost left: set<Pid>)
      requires Tracked() && Now().watch == Checking(asOf, left) && pid in left && pid in children
      modifies this`stalled, this`states, this`events
      ensures Tracked() && Now().watch == Checking(asOf, left - {pid}) && old(states) <= states
      ensures stalled == if Stalls(asOf, children[pid]) then old(stalled) + {children[pid].child} else old(stalled)
    {
      hide WatchdogSafety.IsRun;
      ghost var s := Now();
      if Elapsed(asOf, children[pid].lastProgress) > STALL_TIMEOUT_MS {
        stalled := stalled + {children[pid].child};
      }
      Record(Look(pid), Looked(s, pid));
    }
  }

  lemma MarkedOneMore(children: map<Pid, Entry>, asOf: int, left: set<Pid>, pid: Pid)
    requires left <= children.Keys && pid in left
    ensures Marked(children, asOf, children.Keys - (left - {pid})) ==
      Marked(children, asOf, children.Keys - left) + if Stalls(asOf, children[pid]) then {children[pid].child} else {}
  {
    assert children.Keys - (left - {pid}) == (children.Keys - left) + {pid};
    WatchdogSafety.MarkedBoth(children, asOf, children.Keys - left, {pid});
  }

  /** What a child that finished comes to. */
  datatype Finished = Well | Stalled | Failed | Unreaped

  /** A child of the pool, from its spawn to its end. */
  class Pooled {
    const registry: Registry
    const id: ChildId
    const pid: Pid
    var reaped: bool

    /** While it is not reaped it is registered. */
    ghost predicate Valid()
      reads this, registry
    {
      if reaped then registry.Tracked() else registry.At(id, Running(pid))
    }

    /** Spawns and registers a child: `pid` is one no process has. */
    constructor Spawn(registry: Registry, id: ChildId, pid: Pid)
      requires registry.At(id, Unspawned) && pid !in registry.Now().owners
      modifies registry
      ensures Valid() && !reaped && this.registry == registry && this.id == id && this.pid == pid
      ensures old(registry.states) <= registry.states
    {
      this.registry, this.id, this.pid, reaped := registry, id, pid, false;
      new;
      hide WatchdogSafety.IsRun;
      ghost var s := registry.Now();
      registry.Record(Event.Spawn(id, pid), With(s, id, Spawned(pid)).(owners := s.owners[pid := Ours(id)]));
      hide Next;
      registry.Others(id, Spawned(pid));
      registry.Register(pid, id);
    }

    /** Unregisters the child and then reaps it, once its output ends. Reaping may fail, which leaves it a process
        of the pool; `exitsWell` is how it ended. */
    method Finish(exitsWell: bool) returns (r: Finished)
      requires Valid() && !reaped
      modifies this, registry
      ensures Valid() && reaped && old(registry.states) <= registry.states
      ensures !r.Unreaped? ==> (r.Stalled? <==> KilledAsStalled(registry.Now().signals, id))
      ensures r.Well? ==> exitsWell
      ensures r.Failed? ==> !exitsWell
      ensures r.Unreaped? ==> registry.At(id, Left(pid, true))
    {
      hide WatchdogSafety.IsRun, Next;
      registry.Others(id, Running(pid));
      registry.Unregister(pid, id, Running(pid));
      reaped := true;
      registry.Others(id, Left(pid, true));
      var waits: bool := *;
      if !waits {
        return Unreaped;
      }
      Reap(true);
      registry.Others(id, Reaped(true));
      Ends();
      r := if id in registry.stalled then Stalled else if exitsWell then Well else Failed;
    }

    /** The system takes the child's pid back. */
    method Reap(ghost finishing: bool)
      requires registry.At(id, Left(pid, finishing))
      modifies registry`states, registry`events
      ensures registry.At(id, Reaped(finishing)) && old(registry.states) <= registry.states
    {
      hide WatchdogSafety.IsRun;
      ghost var s := registry.Now();
      registry.Record(Event.Reap(id), With(s, id, Reaped(finishing)).(owners := s.owners - {pid}));
    }

    ghost method Ends()
      requires registry.At(id, Reaped(true))
      modifies registry`states, registry`events
      ensures registry.At(id, Ended(id in registry.stalled)) && old(registry.states) <= registry.states
      ensures id in registry.stalled <==> KilledAsStalled(registry.Now().signals, id)
    {
      hide WatchdogSafety.IsRun;
      ghost var s := registry.Now();
      registry.Record(Event.Finish(id), With(s, id, Ended(id in s.stalled)));
      WatchdogSafety.StalledOnlyIfSilent(registry.states, registry.events, |registry.states| - 1, id);
    }

    /** Kills, unregisters and reaps a child not finished, and leaves alone one that was. Reaping may fail. */
    method Drop()
      requires Valid()
      modifies this, registry
      ensures Valid() && reaped && old(registry.states) <= registry.states
      ensures old(reaped) ==> registry.states == old(registry.states)
      ensures !old(reaped) ==> registry.At(id, Reaped(false)) || registry.At(id, Left(pid, false))
      ensures !old(reaped) ==> WatchdogSafety.KilledByDrop(registry.Now().signals, id)
    {
      hide WatchdogSafety.IsRun, Next, WatchdogSafety.KilledByDrop;
      if reaped {
        return;
      }
      registry.Others(id, Running(pid));
      Kill();
      registry.Others(id, Killed(pid));
      registry.Unregister(pid, id, Killed(pid));
      reaped := true;
      registry.Others(id, Left(pid, false));
      var waits: bool := *;
      if waits {
        Reap(false);
      }
      WatchdogSafety.DropKills(registry.states, registry.events, |registry.states| - 1, id);
    }

    method Kill()
      requires registry.At(id, Running(pid))
      modifies registry`states, registry`events
      ensures registry.At(id, Killed(pid)) && old(registry.states) <= registry.states
    {
      hide WatchdogSafety.IsRun;
      ghost var s := registry.Now();
      registry.Record(Event.Kill(id), Signalled(With(s, id, Killed(pid)), Signal(false, id, s.clock, 0, OwnerOf(s, pid))));
    }
  }
}
