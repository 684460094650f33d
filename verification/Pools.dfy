/** The schedule the pool's threads share, and what each does with it
    (crates/scanner/src/pool.rs:74-163). */
module Pools {
  import opened Wrappers
  import opened PoolSteps

  /** What a thread finds: a job, a wait, or no reason to wait. */
  datatype Found = Pass(job: nat) | Later(wait: int) | Nothing

  class Schedule {
    const jobs: seq<Job>
    const size: nat
    var now: int
    var at: seq<int>
    var next: nat
    var running: map<nat, nat>
    /** Every state of the pool so far, and the events between them. */
    ghost var states: seq<State>
    ghost var events: seq<Event>

    ghost function Now(): State
      requires |states| > 0
      reads this
    {
      states[|states| - 1]
    }

    /** All that has happened is a run of the steps, and this is where it is. */
    ghost predicate Tracked()
      reads this
    {
      && IsRun(states, events) && |states| > 0
      && (var s := Now();
          s == State(jobs, size, now, at, next, running, s.threads) && Inv(s))
    }

    ghost predicate Runs(t: nat, thread: Thread)
      reads this
    {
      Tracked() && t < |Now().threads| && Now().threads[t] == thread
    }

    constructor (jobs: seq<Job>, size: nat, now: int)
      ensures Tracked() && this.jobs == jobs && this.size == size && Now() == Initial(jobs, size, now)
    {
      this.jobs, this.size, this.now := jobs, size, now;
      at := seq(|jobs|, _ => now);
      next, running := 0, map[];
      states, events := [Initial(jobs, size, now)], [];
      InitialInv(jobs, size, now);
    }

    ghost method Record(e: Event, s: State)
      requires IsRun(states, events) && |states| > 0 && Inv(Now()) && PoolSteps.Next(Now(), e, s)
      modifies this`states, this`events
      ensures IsRun(states, events) && |states| > 0 && Now() == s && Inv(s) && old(states) <= states
    {
      StepKeeps(Now(), e, s);
      hide PoolSteps.Next, Inv;
      states, events := states + [s], events + [e];
    }

    /** Time passes, and the other threads do what they do. */
    method Others(t: nat, ghost thread: Thread)
      requires Runs(t, thread)
      modifies this
      ensures Runs(t, thread) && old(states) <= states
    {
    }

    method IsOpen(job: nat) returns (open: bool)
      requires Tracked() && job < |jobs|
      ensures open == Open(Now(), job)
    {
      open := (if jobs[job].library in running then running[jobs[job].library] else 0) < size;
    }

    /** The loop in turn finds what `FirstReady` is. */
    method Find() returns (found: Option<nat>)
      requires Tracked()
      ensures found == FirstReady(Now(), 0)
    {
      var count := |jobs|;
      found := None;
      for i := 0 to count
        invariant FirstReady(Now(), 0) == FirstReady(Now(), i)
      {
        var job := (next + i) % count;
        var open := IsOpen(job);
        if at[job] <= now && open {
          return Some(job);
        }
      }
    }

    /** When the first of the open jobs is due. */
    method Soonest() returns (soonest: Option<int>)
      requires Tracked()
      ensures soonest.None? ==> forall j :: 0 <= j < |jobs| ==> !Open(Now(), j)
      ensures soonest.Some? ==> exists j :: 0 <= j < |jobs| && Open(Now(), j) && at[j] == soonest.value
      ensures soonest.Some? ==> forall j :: 0 <= j < |jobs| && Open(Now(), j) ==> soonest.value <= at[j]
    {
      hide IsRun;
      assert |at| == |jobs|;
      hide Inv;
      soonest := None;
      for i := 0 to |jobs|
        invariant soonest.None? ==> forall j :: 0 <= j < i ==> !Open(Now(), j)
        invariant soonest.Some? ==> exists j :: 0 <= j < i && Open(Now(), j) && at[j] == soonest.value
        invariant soonest.Some? ==> forall j :: 0 <= j < i && Open(Now(), j) ==> soonest.value <= at[j]
      {
        var open := IsOpen(i);
        if open && (soonest.None? || at[i] < soonest.value) {
          soonest := Some(at[i]);
        }
      }
    }

    /** Gives thread `t` the first job ready, or else the wait, never zero, to when the first open job is due; or
        neither, exactly without jobs or with a size of 0. */
    method Take(t: nat) returns (found: Found)
      requires Runs(t, Free)
      modifies this`next, this`running, this`states, this`events
      ensures old(states) <= states
      ensures found.Nothing? <==> jobs == [] || size == 0
      ensures found.Pass? ==> Some(found.job) == FirstReady(old(Now()), 0) && Runs(t, Busy(found.job)) && found.job < |jobs|
      ensures !found.Pass? ==> Runs(t, Free)
      ensures found.Pass? <==> exists j :: 0 <= j < |jobs| && Ready(old(Now()), j)
      ensures found.Later? ==> found.wait > 0
      ensures found.Later? ==> exists j :: 0 <= j < |jobs| && Open(old(Now()), j) && at[j] == now + found.wait
      ensures found.Later? ==> forall j :: 0 <= j < |jobs| && Open(old(Now()), j) ==> at[j] >= now + found.wait
    {
      hide IsRun;
      ghost var s := Now();
      NoneReady(s);
      NothingOpen(s, t);
      hide Inv, Open, FirstReady;
      var job := Find();
      if job.None? {
        found := Waits(t);
        return;
      }
      Start(t, job.value);
      found := Pass(job.value);
    }

    /** With no job ready, the wait of thread `t`. */
    method Waits(t: nat) returns (found: Found)
      requires Runs(t, Free) && FirstReady(Now(), 0).None?
      modifies this`states, this`events
      ensures Runs(t, Free) && old(states) <= states && Now() == old(Now())
      ensures found.Nothing? <==> forall j :: 0 <= j < |jobs| ==> !Open(Now(), j)
      ensures !found.Nothing? ==> found.Later? && found.wait > 0
      ensures found.Later? ==> exists j :: 0 <= j < |jobs| && Open(Now(), j) && at[j] == now + found.wait
      ensures found.Later? ==> forall j :: 0 <= j < |jobs| && Open(Now(), j) ==> at[j] >= now + found.wait
    {
      hide IsRun, Open, FirstReady;
      ghost var s := Now();
      NoneReady(s);
      var soonest := Soonest();
      if soonest.Some? {
        NotDue(s, soonest.value);
      }
      hide Inv;
      Record(Wait(t), s);
      found := if soonest.None? then Nothing else Later(if soonest.value < now then 0 else soonest.value - now);
    }

    /** Has thread `t` take the job found. */
    method Start(t: nat, job: nat)
      requires Runs(t, Free) && FirstReady(Now(), 0) == Some(job)
      modifies this`next, this`running, this`states, this`events
      ensures old(states) <= states && Runs(t, Busy(job)) && Now() == Taken(old(Now()), t, job)
    {
      hide IsRun;
      ghost var s := Now();
      var library := jobs[job].library;
      next := (job + 1) % |jobs|;
      running := running[library := (if library in running then running[library] else 0) + 1];
      Record(Event.Take(t), Taken(s, t, job));
    }

    /** Notes that thread `t` is done with a pass of `job`, which waits if the pass did nothing. */
    method Finish(t: nat, job: nat, idle: bool)
      requires Runs(t, Busy(job)) && job < |jobs|
      modifies this`at, this`running, this`states, this`events
      ensures Runs(t, Free) && old(states) <= states
      ensures at == if idle then old(at)[job := now + jobs[job].idle] else old(at)
    {
      hide IsRun;
      ghost var s := Now();
      CountedWhileBusy(s, t);
      var library := jobs[job].library;
      // The count is a `usize`: it is never 0 here.
      assert library in running && running[library] > 0;
      running := running[library := running[library] - 1];
      if idle {
        at := at[job := now + jobs[job].idle];
      }
      Record(Event.Finish(t, idle), Finished(s, t, idle));
    }

    /** One turn of a free thread: none, which ends it, exactly without jobs or with a size of 0, and no wait at all
        exactly if a job was ready. */
    method RunNext(t: nat) returns (wait: Option<int>)
      requires Runs(t, Free)
      modifies this
      ensures Runs(t, Free) && old(states) <= states
      ensures wait.None? <==> jobs == [] || size == 0
      ensures wait.Some? ==> wait.value >= 0
      ensures wait == Some(0) <==> exists j :: 0 <= j < |jobs| && Ready(old(Now()), j)
    {
      hide IsRun, Inv, Tracked;
      var found := Take(t);
      match found {
        case Nothing => return None;
        case Later(ms) => return Some(ms);
        case Pass(job) =>
          Others(t, Busy(job));
          var idle: bool := *;
          Finish(t, job, idle);
          return Some(0);
      }
    }
  }

  /** An open job that is not ready is due later. */
  lemma NotDue(s: State, soonest: int)
    requires |s.at| == |s.jobs| && forall j :: 0 <= j < |s.jobs| ==> !Ready(s, j)
    requires exists j :: 0 <= j < |s.jobs| && Open(s, j) && s.at[j] == soonest
    ensures soonest > s.clock
  {
    var j :| 0 <= j < |s.jobs| && Open(s, j) && s.at[j] == soonest;
    assert !Ready(s, j);
  }

  /** For a free thread, nothing is open only without jobs or with a size of 0. */
  lemma NothingOpen(s: State, t: nat)
    requires Inv(s) && t < |s.threads| && s.threads[t].Free?
    ensures (forall j :: 0 <= j < |s.jobs| ==> !Open(s, j)) <==> s.jobs == [] || s.size == 0
  {
    if s.jobs != [] && s.size > 0 {
      var job := SomeOpen(s, t);
    }
  }
}
