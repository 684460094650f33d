/** The pool that runs every library's jobs, as steps of its threads (crates/scanner/src/pool.rs:74-163). */
module PoolSteps {
  import opened Wrappers

  /** A job of a library, and how long an idle pass of it has it wait. */
  datatype Job = Job(library: nat, idle: nat)

  datatype Thread = Free | Busy(job: nat)

  /** `at` is when each job is due, `next` the job whose turn is first, `running` the count of passes by library. */
  datatype State = State(
    jobs: seq<Job>, size: nat, clock: int, at: seq<int>, next: nat, running: map<nat, nat>, threads: seq<Thread>)

  /** Each thread takes a job under the schedule's lock, runs a pass of it without, and is done with it under the
      lock. */
  datatype Event =
    | Tick(ms: nat)
    | Take(t: nat)
    // No job is ready: the thread is to look again.
    | Wait(t: nat)
    | Finish(t: nat, idle: bool)

  function Libraries(jobs: seq<Job>): set<nat> {
    set j | 0 <= j < |jobs| :: jobs[j].library
  }

  /** As many threads as the size, and another where there are two libraries. */
  function ThreadCount(jobs: seq<Job>, size: nat): nat {
    if |Libraries(jobs)| > 1 then size + 1 else size
  }

  function Initial(jobs: seq<Job>, size: nat, now: int): State {
    State(jobs, size, now, seq(|jobs|, _ => now), 0, map[], seq(ThreadCount(jobs, size), _ => Free))
  }

  function Running(running: map<nat, nat>, library: nat): nat {
    if library in running then running[library] else 0
  }

  /** Whether the count of the job's library is below the size. */
  predicate Open(s: State, job: nat) {
    job < |s.jobs| && Running(s.running, s.jobs[job].library) < s.size
  }

  /** Whether the job is due and open. */
  predicate Ready(s: State, job: nat) {
    job < |s.at| && s.at[job] <= s.clock && Open(s, job)
  }

  /** The `i`th job to look at. */
  function InTurn(s: State, i: nat): (job: nat)
    requires |s.jobs| > 0
    ensures job < |s.jobs|
  {
    (s.next + i) % |s.jobs|
  }

  /** The first job ready, looking from the `i`th. */
  function FirstReady(s: State, i: nat): (job: Option<nat>)
    requires |s.jobs| == |s.at|
    ensures job.Some? ==> Ready(s, job.value)
    decreases |s.jobs| - i
  {
    if i >= |s.jobs| then None
    else if Ready(s, InTurn(s, i)) then Some(InTurn(s, i))
    else FirstReady(s, i + 1)
  }

  function Taken(s: State, t: nat, job: nat): State
    requires t < |s.threads| && job < |s.jobs|
  {
    var library := s.jobs[job].library;
    s.(next := (job + 1) % |s.jobs|, running := s.running[library := Running(s.running, library) + 1],
       threads := s.threads[t := Busy(job)])
  }

  function Finished(s: State, t: nat, idle: bool): State
    requires t < |s.threads| && s.threads[t].Busy? && s.threads[t].job < |s.jobs| == |s.at|
    requires Running(s.running, s.jobs[s.threads[t].job].library) > 0
  {
    var job := s.threads[t].job;
    var library := s.jobs[job].library;
    s.(running := s.running[library := Running(s.running, library) - 1], threads := s.threads[t := Free],
       at := if idle then s.at[job := s.clock + s.jobs[job].idle] else s.at)
  }

  predicate Well(s: State) {
    && |s.at| == |s.jobs|
    && forall t :: 0 <= t < |s.threads| && s.threads[t].Busy? ==> s.threads[t].job < |s.jobs|
  }

  ghost predicate Next(s: State, e: Event, s': State) {
    Well(s) &&
    match e
    case Tick(ms) => s' == s.(clock := s.clock + ms)
    case Take(t) =>
      && t < |s.threads| && s.threads[t].Free?
      && var job := FirstReady(s, 0);
         job.Some? && s' == Taken(s, t, job.value)
    case Wait(t) =>
      t < |s.threads| && s.threads[t].Free? && FirstReady(s, 0).None? && s' == s
    case Finish(t, idle) =>
      && t < |s.threads| && s.threads[t].Busy?
      && Running(s.running, s.jobs[s.threads[t].job].library) > 0
      && s' == Finished(s, t, idle)
  }

  // ---- What is kept ----

  predicate RunsFor(s: State, t: nat, library: nat)
    requires Well(s) && t < |s.threads|
  {
    s.threads[t].Busy? && s.jobs[s.threads[t].job].library == library
  }

  /** The threads running passes of a library. */
  function At(s: State, library: nat): set<nat>
    requires Well(s)
  {
    set t | 0 <= t < |s.threads| && RunsFor(s, t, library)
  }

  /** The counts are of the threads, and within the share. */
  ghost predicate CountsAt(s: State, library: nat)
    requires Well(s)
  {
    Running(s.running, library) == |At(s, library)| <= s.size
  }

  ghost predicate Inv(s: State) {
    && Well(s)
    && |s.threads| == ThreadCount(s.jobs, s.size)
    && (s.jobs != [] ==> s.next < |s.jobs|)
    && forall library: nat {:trigger CountsAt(s, library)} :: CountsAt(s, library)
  }

  // ---- The first job ready ----

  /** It is ready, and none looked at before it is. */
  lemma {:induction false} FirstReadyIsFirst(s: State, i: nat)
    requires |s.jobs| == |s.at|
    ensures FirstReady(s, i).None? ==> forall k :: i <= k < |s.jobs| ==> !Ready(s, InTurn(s, k))
    ensures FirstReady(s, i).Some? ==>
      exists k :: i <= k < |s.jobs| && InTurn(s, k) == FirstReady(s, i).value && Ready(s, InTurn(s, k))
        && forall l :: i <= l < k ==> !Ready(s, InTurn(s, l))
    decreases |s.jobs| - i
  {
    if i < |s.jobs| && !Ready(s, InTurn(s, i)) {
      FirstReadyIsFirst(s, i + 1);
    }
  }

  /** How far from its turn a job is. */
  function Distance(s: State, job: nat): nat
    requires job < |s.jobs| && s.next < |s.jobs|
  {
    if job >= s.next then job - s.next else job + |s.jobs| - s.next
  }

  lemma TurnOf(s: State, job: nat)
    requires job < |s.jobs| && s.next < |s.jobs|
    ensures Distance(s, job) < |s.jobs| && InTurn(s, Distance(s, job)) == job
  {
    ModOnce(s.next + Distance(s, job), |s.jobs|);
  }

  lemma DistanceOf(s: State, k: nat)
    requires k < |s.jobs| && s.next < |s.jobs|
    ensures Distance(s, InTurn(s, k)) == k
  {
    ModOnce(s.next + k, |s.jobs|);
  }

  lemma ModOnce(x: nat, n: nat)
    requires x < 2 * n
    ensures x % n == if x < n then x else x - n
  {
  }

  /** Every job is looked at, so nothing is found only if nothing is ready. */
  lemma NoneReady(s: State)
    requires Well(s) && (s.jobs != [] ==> s.next < |s.jobs|)
    ensures FirstReady(s, 0).None? <==> forall j :: 0 <= j < |s.jobs| ==> !Ready(s, j)
  {
    FirstReadyIsFirst(s, 0);
    forall j | 0 <= j < |s.jobs| && FirstReady(s, 0).None? ensures !Ready(s, j) {
      TurnOf(s, j);
    }
  }

  // ---- Each step keeps the counts ----

  lemma InitialInv(jobs: seq<Job>, size: nat, now: int)
    ensures Inv(Initial(jobs, size, now))
  {
    var s := Initial(jobs, size, now);
    forall library: nat ensures CountsAt(s, library) {
      assert At(s, library) == {};
    }
  }

  lemma TakeKeeps(s: State, t: nat, s': State)
    requires Inv(s) && Next(s, Take(t), s')
    ensures Inv(s')
  {
    var job := FirstReady(s, 0).value;
    TakenKeeps(s, t, job);
  }

  lemma TakenKeeps(s: State, t: nat, job: nat)
    requires Inv(s) && t < |s.threads| && s.threads[t].Free? && job < |s.jobs| && Open(s, job)
    ensures Inv(Taken(s, t, job))
  {
    var s' := Taken(s, t, job);
    forall library: nat ensures CountsAt(s', library) {
      assert CountsAt(s, library);
      if library == s.jobs[job].library {
        assert At(s', library) == At(s, library) + {t};
      } else {
        assert At(s', library) == At(s, library);
      }
    }
  }

  lemma FinishKeeps(s: State, t: nat, idle: bool, s': State)
    requires Inv(s) && Next(s, Finish(t, idle), s')
    ensures Inv(s')
  {
    var job := s.threads[t].job;
    forall library: nat ensures CountsAt(s', library) {
      assert CountsAt(s, library);
      if library == s.jobs[job].library {
        assert At(s', library) == At(s, library) - {t};
      } else {
        assert At(s', library) == At(s, library);
      }
    }
  }

  lemma StepKeeps(s: State, e: Event, s': State)
    requires Inv(s) && Next(s, e, s')
    ensures Inv(s') && s'.jobs == s.jobs && s'.size == s.size
  {
    match e
    case Tick(ms) =>
      forall library: nat ensures CountsAt(s', library) {
        assert CountsAt(s, library);
        assert At(s', library) == At(s, library);
      }
    case Wait(t) =>
    case Take(t) => TakeKeeps(s, t, s');
    case Finish(t, idle) => FinishKeeps(s, t, idle, s');
  }

  /** A thread that is done finds its pass counted, so the count never falls below zero. */
  lemma CountedWhileBusy(s: State, t: nat)
    requires Inv(s) && t < |s.threads| && s.threads[t].Busy?
    ensures Running(s.running, s.jobs[s.threads[t].job].library) > 0
  {
    var library := s.jobs[s.threads[t].job].library;
    assert CountsAt(s, library);
    assert t in At(s, library);
  }

  // ---- Whole runs ----

  ghost predicate IsRun(states: seq<State>, events: seq<Event>) {
    && |states| == |events| + 1
    && states[0] == Initial(states[0].jobs, states[0].size, states[0].clock)
    && forall k :: 0 <= k < |events| ==> Next(states[k], events[k], states[k + 1])
  }

  lemma {:induction false} RunKeeps(states: seq<State>, events: seq<Event>, k: nat)
    requires IsRun(states, events) && k < |states|
    ensures Inv(states[k]) && states[k].jobs == states[0].jobs && states[k].size == states[0].size
  {
    hide Inv, Next;
    if k == 0 {
      InitialInv(states[0].jobs, states[0].size, states[0].clock);
    } else {
      RunKeeps(states, events, k - 1);
      StepKeeps(states[k - 1], events[k - 1], states[k]);
    }
  }

  lemma {:induction false} AtMost(a: set<nat>, n: nat)
    requires forall x :: x in a ==> x < n
    ensures |a| <= n
  {
    if n == 0 {
      assert a == {};
    } else {
      AtMost(a - {n - 1}, n - 1);
    }
  }

  lemma {:induction false} AtLeast(a: set<nat>, n: nat)
    requires forall x: nat :: x < n ==> x in a
    ensures |a| >= n
  {
    if n > 0 {
      AtLeast(a - {n - 1}, n - 1);
    }
  }

  /** No library runs more than `size` passes at once, and where there is another library a thread is left
      for it, even if all of those hang. */
  lemma WithinShare(states: seq<State>, events: seq<Event>, k: nat, library: nat)
    requires IsRun(states, events) && k < |states|
    ensures Inv(states[k]) && |At(states[k], library)| <= states[0].size
    ensures |Libraries(states[0].jobs)| > 1 ==>
      exists t :: 0 <= t < |states[k].threads| && !RunsFor(states[k], t, library)
  {
    RunKeeps(states, events, k);
    var s := states[k];
    assert CountsAt(s, library);
    if |Libraries(s.jobs)| > 1 && forall t :: 0 <= t < |s.threads| ==> RunsFor(s, t, library) {
      AtLeast(At(s, library), |s.threads|);
      assert false;
    }
  }

  /** A free thread leaves some job open, if there are jobs and the pool has a size. */
  lemma SomeOpen(s: State, t: nat) returns (job: nat)
    requires Inv(s) && t < |s.threads| && s.threads[t].Free? && s.jobs != [] && s.size > 0
    ensures job < |s.jobs| && Open(s, job)
  {
    job := 0;
    if !Open(s, 0) {
      var first := s.jobs[0].library;
      if other :| 0 <= other < |s.jobs| && s.jobs[other].library != first {
        job := other;
        LeavesRoom(s, t, first, s.jobs[other].library);
      } else {
        OneLibrary(s, t, first);
      }
    }
  }

  /** Two libraries that both run their whole share take more threads than there are. */
  lemma LeavesRoom(s: State, t: nat, one: nat, other: nat)
    requires Inv(s) && t < |s.threads| && s.threads[t].Free? && s.size > 0 && one != other
    requires Running(s.running, one) >= s.size
    ensures Running(s.running, other) < s.size
  {
    assert CountsAt(s, one) && CountsAt(s, other);
    AtMost(At(s, one) + At(s, other) + {t}, |s.threads|);
    assert At(s, one) !! At(s, other);
  }

  lemma AtMostOne(a: set<nat>, x: nat)
    requires forall y :: y in a ==> y == x
    ensures |a| <= 1
  {
    assert a == {} || a == {x};
  }

  lemma OneLibrary(s: State, t: nat, library: nat)
    requires Inv(s) && t < |s.threads| && s.threads[t].Free?
    requires forall j :: 0 <= j < |s.jobs| ==> s.jobs[j].library == library
    ensures Running(s.running, library) < s.size
  {
    assert CountsAt(s, library);
    AtMost(At(s, library) + {t}, |s.threads|);
    AtMostOne(Libraries(s.jobs), library);
  }

  // ---- Turns ----

  /** A take, while `job` is ready, is of it or brings it nearer its turn. */
  lemma TakeNears(s: State, t: nat, s': State, job: nat)
    requires Inv(s) && Next(s, Take(t), s') && job < |s.jobs| && Ready(s, job)
    ensures s'.threads[t] != Busy(job) ==> Distance(s', job) < Distance(s, job)
  {
    FirstReadyIsFirst(s, 0);
    TurnOf(s, job);
    var taken := s'.threads[t].job;
    var k :| 0 <= k < |s.jobs| && InTurn(s, k) == taken && forall l :: 0 <= l < k ==> !Ready(s, InTurn(s, l));
    DistanceOf(s, k);
    ModOnce(taken + 1, |s.jobs|);
  }

  predicate TakesJob(states: seq<State>, events: seq<Event>, k: nat, job: nat)
    requires k < |events| && |states| == |events| + 1
  {
    var s' := states[k + 1];
    events[k].Take? && events[k].t < |s'.threads| && s'.threads[events[k].t] == Busy(job)
  }

  /** How many of the events from `a` up to `b` are takes. */
  function Takes(events: seq<Event>, a: nat, b: nat): nat
    requires a <= b <= |events|
  {
    if a == b then 0 else Takes(events, a, b - 1) + if events[b - 1].Take? then 1 else 0
  }

  /** A job that stays ready, and is not taken, sees at most one other take for each other job. */
  lemma {:induction false} TakenInTurn(states: seq<State>, events: seq<Event>, a: nat, b: nat, job: nat)
    requires |states| == |events| + 1 && IsRun(states, events) && a <= b < |states| && job < |states[0].jobs|
    requires forall k :: a <= k < b ==> Ready(states[k], job) && !TakesJob(states, events, k, job)
    ensures states[a].jobs == states[b].jobs == states[0].jobs
    ensures states[a].next < |states[0].jobs| && states[b].next < |states[0].jobs|
    ensures Takes(events, a, b) + Distance(states[b], job) <= Distance(states[a], job) <= |states[0].jobs| - 1
  {
    hide Inv, Next, Ready, IsRun, TakesJob;
    NextInRange(states, events, a);
    if a < b {
      TakenInTurn(states, events, a, b - 1, job);
      NextInRange(states, events, b - 1);
      NextInRange(states, events, b);
      StepNears(states, events, b - 1, job);
    }
  }

  lemma NextInRange(states: seq<State>, events: seq<Event>, k: nat)
    requires IsRun(states, events) && k < |states| && states[0].jobs != []
    ensures states[k].jobs == states[0].jobs && states[k].next < |states[k].jobs|
  {
    RunKeeps(states, events, k);
  }

  lemma StepNears(states: seq<State>, events: seq<Event>, k: nat, job: nat)
    requires |states| == |events| + 1 && IsRun(states, events) && k < |events| && job < |states[0].jobs|
    requires Ready(states[k], job) && !TakesJob(states, events, k, job)
    requires states[k].jobs == states[k + 1].jobs == states[0].jobs
    ensures states[k].next < |states[k].jobs| && states[k + 1].next < |states[k + 1].jobs|
    ensures Distance(states[k + 1], job) + (if events[k].Take? then 1 else 0) <= Distance(states[k], job)
  {
    RunKeeps(states, events, k);
    RunKeeps(states, events, k + 1);
    assert Next(states[k], events[k], states[k + 1]);
    if events[k].Take? {
      TakeNears(states[k], events[k].t, states[k + 1], job);
    }
  }

  // ---- Idle jobs ----

  lemma {:induction false} DueNoSooner(states: seq<State>, events: seq<Event>, j: nat, k: nat, job: nat, until: int)
    requires IsRun(states, events) && j <= k < |states| && Well(states[j]) && job < |states[j].jobs|
    requires states[j].at[job] >= until && until <= states[j].clock + states[j].jobs[job].idle
    ensures job < |states[k].at| && states[k].at[job] >= until && Well(states[k])
    ensures states[k].jobs == states[j].jobs && states[j].clock <= states[k].clock
  {
    if j < k {
      DueNoSooner(states, events, j, k - 1, job, until);
      assert Next(states[k - 1], events[k - 1], states[k]);
      RunKeeps(states, events, k);
    }
  }

  /** A job whose pass did nothing is not taken again, by any thread, before its wait is over. */
  lemma IdleWaits(states: seq<State>, events: seq<Event>, j: nat, k: nat)
    requires IsRun(states, events) && |states| == |events| + 1 && j < k < |events| && events[j].Finish? && events[j].idle
    requires events[j].t < |states[j].threads| && states[j].threads[events[j].t].Busy?
    requires TakesJob(states, events, k, states[j].threads[events[j].t].job)
    ensures var job := states[j].threads[events[j].t].job;
      job < |states[j].jobs| && states[k].clock >= states[j].clock + states[j].jobs[job].idle
  {
    var job := states[j].threads[events[j].t].job;
    assert Next(states[j], events[j], states[j + 1]) && Next(states[k], events[k], states[k + 1]);
    RunKeeps(states, events, j + 1);
    DueNoSooner(states, events, j + 1, k, job, states[j].clock + states[j].jobs[job].idle);
    assert Ready(states[k], job);
  }

  /** And a job waits only so: one that is not due is within its wait from the end of a pass of it that did nothing. */
  lemma {:induction false} WaitsOnlyIdle(states: seq<State>, events: seq<Event>, k: nat, job: nat) returns (j: nat)
    requires IsRun(states, events) && |states| == |events| + 1 && k < |states| && job < |states[k].at| && states[k].at[job] > states[k].clock
    ensures j < k && events[j].Finish? && events[j].idle
    ensures events[j].t < |states[j].threads| && states[j].threads[events[j].t] == Busy(job) && job < |states[0].jobs|
    ensures states[k].at[job] == states[j].clock + states[0].jobs[job].idle
  {
    RunKeeps(states, events, k);
    if k > 0 {
      var (s, e, s') := (states[k - 1], events[k - 1], states[k]);
      assert Next(s, e, s');
      RunKeeps(states, events, k - 1);
      hide IsRun, FirstReady;
      if e.Finish? && e.idle && s.threads[e.t] == Busy(job) {
        j := k - 1;
      } else {
        j := WaitsOnlyIdle(states, events, k - 1, job);
      }
    }
  }
}
