/** Which results a job stores, and what its passes count (crates/scanner/src/jobs.rs:1-14, :32-44, :201-224). */
module JobVerdicts {
  import opened Wrappers
  import opened JobSteps
  import opened JobSafety

  /** The file that an event of a pass is of. */
  function FileOf(s: State, p: nat): File
    requires IsPass(s, p) && (s.passes[p].Working? || s.passes[p].Keeping?) && s.passes[p].todo != []
  {
    s.passes[p].todo[0]
  }

  // ---- What comes of a failed decode ----

  /** Just a rejected content of a file that opens, and an attempt at a file within reach and struck, are verdicts; just
      a file within reach that does not open, or not after its content was rejected, is left to wait; and all else ends
      the pass: a decoder that could not run, a root out of reach, and an attempt at a file not struck. */
  lemma FailureExactly(s: State, e: Event, s': State)
    requires Next(s, e, s') && (e.Judged? || e.Unopenable? || e.BacksOff?)
    ensures Decodes(s, e.p)
    ensures var (x, struck) := (e.failure, s.passes[e.p].todo[0] in s.struck);
      && (e.Judged? <==> (x.cause == Content && x.opens) || (x.cause == Attempt && x.answers && struck))
      && (e.Unopenable? <==> x.answers && (x.cause == Opening || (x.cause == Content && !x.opens)))
      && (e.BacksOff? <==>
            (x.cause == Host || (x.cause == Opening && !x.answers) || (x.cause == Content && !x.opens && !x.answers)
             || (x.cause == Attempt && (!x.answers || !struck))))
  {
  }

  /** Where each leaves the pass: with an empty result to keep, with the claim to drop, or at its end; and nothing
      stored, whichever it is. */
  lemma FailureLeaves(s: State, e: Event, s': State)
    requires Next(s, e, s') && (e.Judged? || e.Unopenable? || e.BacksOff?)
    ensures s'.stored == s.stored && s'.empty == s.empty && IsPass(s', e.p)
    ensures e.Judged? ==> s'.passes[e.p].Keeping? && s'.passes[e.p].verdict && s'.passes[e.p].todo == s.passes[e.p].todo
    ensures e.Unopenable? ==> s'.passes[e.p].Dropping?
    ensures e.BacksOff? ==> s'.passes[e.p].Closing? && s'.passes[e.p].run.backedOff
  {
    hide FetchSize, Fetched, StillWaiting, Condemns, Bars, StruckAfter;
  }

  /** A pass that keeps a result stores it, empty for a verdict, or the store fails. */
  lemma KeepingEnds(s: State, e: Event, s': State, p: nat)
    requires Next(s, e, s') && IsPass(s, p) && IsPass(s', p) && s.passes[p].Keeping? && s'.passes[p] != s.passes[p]
    ensures e == Keep(p) || e == StoreFails(p, None)
    ensures e == Keep(p) ==> FileOf(s, p) in s'.stored && (FileOf(s, p) in s'.empty <==> s.passes[p].verdict)
    ensures e == StoreFails(p, None) ==> s'.stored == s.stored && s'.empty == s.empty && s'.passes[p].Closing?
  {
    hide FetchSize, Fetched, StillWaiting, Condemns, Bars, StruckAfter;
  }

  /** The event gave the pass what it keeps: a result, or a verdict. */
  predicate Gave(s: State, e: Event, p: nat, todo: seq<File>, verdict: bool) {
    && Decodes(s, p) && s.passes[p].todo == todo
    && (if verdict then e.Judged? && e.p == p else e == Succeeds(p))
  }

  /** What a pass keeps came of its own decode of that file. */
  lemma {:induction false} KeepsOwn(states: seq<State>, events: seq<Event>, k: nat, p: nat) returns (j: nat)
    requires IsRun(states, events) && k < |states| && IsPass(states[k], p) && states[k].passes[p].Keeping?
    ensures j < k && Gave(states[j], events[j], p, states[k].passes[p].todo, states[k].passes[p].verdict)
  {
    assert k > 0;
    hide Next, Gave;
    var (s, e, s') := (states[k - 1], events[k - 1], states[k]);
    if IsPass(s, p) && s.passes[p] == s'.passes[p] {
      j := KeepsOwn(states, events, k - 1, p);
    } else {
      j := k - 1;
      ComesToKeep(s, e, s', p);
    }
  }

  lemma ComesToKeep(s: State, e: Event, s': State, p: nat)
    requires Next(s, e, s') && IsPass(s', p) && s'.passes[p].Keeping? && !(IsPass(s, p) && s.passes[p] == s'.passes[p])
    ensures Gave(s, e, p, s'.passes[p].todo, s'.passes[p].verdict)
  {
    hide FetchSize, Fetched, StillWaiting, Condemns, Bars, StruckAfter;
  }

  /** A step that gives a file a result, empty or not, is of a pass that keeps it. */
  lemma StoresByKeep(s: State, e: Event, s': State, f: File)
    requires Next(s, e, s')
    ensures f in s'.stored && f !in s.stored ==> e.Keep? && Keeps(s, e.p) && FileOf(s, e.p) == f
    ensures f in s'.empty && f !in s.empty ==> e.Keep? && Keeps(s, e.p) && FileOf(s, e.p) == f && s.passes[e.p].verdict
  {
    hide FetchSize, Fetched, StillWaiting, Condemns, Bars, StruckAfter;
  }

  /** Over all runs a file has an empty result only of a verdict on it: its content was rejected though it opens, or a
      second attempt failed with its root answering, after a first and no success since. */
  lemma {:induction false} EmptyOnlyOfVerdict(states: seq<State>, events: seq<Event>, k: nat, f: File) returns (j: nat, first: nat)
    requires IsRun(states, events) && k < |states| && f in states[k].empty && f !in states[0].empty
    ensures j < k && events[j].Judged? && Decodes(states[j], events[j].p) && FileOf(states[j], events[j].p) == f
    ensures var x := events[j].failure;
      (x.cause == Content && x.opens) || (x.cause == Attempt && x.answers)
    ensures events[j].failure.cause == Attempt ==>
      first < j && Strikes(states[first], events[first], f) && forall i :: first < i < j ==> !Clears(states[i], events[i], f)
  {
    var (s, e, s') := (states[k - 1], events[k - 1], states[k]);
    assert Next(s, e, s');
    if f in s.empty {
      j, first := EmptyOnlyOfVerdict(states, events, k - 1, f);
    } else {
      StoresByKeep(s, e, s', f);
      j := KeepsOwn(states, events, k - 1, e.p);
      first := 0;
      assert Next(states[j], events[j], states[j + 1]);
      FailureExactly(states[j], events[j], states[j + 1]);
      if events[j].failure.cause == Attempt {
        first := JudgedTwice(states, events, j);
      }
    }
  }

  /** And a result at all only of a decode of it by a pass, that gave one or a verdict. */
  lemma {:induction false} StoredOnlyOfDecode(states: seq<State>, events: seq<Event>, k: nat, f: File) returns (j: nat)
    requires IsRun(states, events) && k < |states| && f in states[k].stored && f !in states[0].stored
    ensures j < k && (events[j].Judged? || events[j].Succeeds?) && Decodes(states[j], events[j].p)
    ensures FileOf(states[j], events[j].p) == f
  {
    var (s, e, s') := (states[k - 1], events[k - 1], states[k]);
    assert Next(s, e, s');
    if f in s.stored {
      j := StoredOnlyOfDecode(states, events, k - 1, f);
    } else {
      StoresByKeep(s, e, s', f);
      j := KeepsOwn(states, events, k - 1, e.p);
    }
  }

  // ---- What a pass counts ----

  /** How many of the first `k` events are the pass's keeping of results, or of verdicts. */
  function Kept(states: seq<State>, events: seq<Event>, k: nat, p: nat, verdict: bool): nat
    requires k <= |events| < |states|
  {
    if k == 0 then 0
    else
      var (s, e) := (states[k - 1], events[k - 1]);
      Kept(states, events, k - 1, p, verdict) + if e == Keep(p) && Keeps(s, p) && s.passes[p].verdict == verdict then 1 else 0
  }

  /** How many of them leave a file of the pass to wait. */
  function LeftToWait(events: seq<Event>, k: nat, p: nat): nat
    requires k <= |events|
  {
    if k == 0 then 0 else LeftToWait(events, k - 1, p) + if events[k - 1].Unopenable? && events[k - 1].p == p then 1 else 0
  }

  /** The run of a pass that has one, and else the counts of one that has done nothing. */
  function RunOf(pass: Pass): Run {
    match pass
    case Idle => NoRun(0)
    case Taking(limit, _, _, _, _, _, _, _, _) => NoRun(limit)
    case Working(run, _) => run
    case Keeping(run, _, _) => run
    case Dropping(run, _) => run
    case Closing(run, _, _) => run
    case Finished(run, _) => run
  }

  lemma StepCounts(s: State, e: Event, s': State, p: nat)
    requires Next(s, e, s') && IsPass(s, p)
    ensures IsPass(s', p)
    ensures var (run, run') := (RunOf(s.passes[p]), RunOf(s'.passes[p]));
      && run'.done == run.done + (if e == Keep(p) && Keeps(s, p) && !s.passes[p].verdict then 1 else 0)
      && run'.failed == run.failed + (if e == Keep(p) && Keeps(s, p) && s.passes[p].verdict then 1 else 0)
      && run'.skipped == run.skipped + (if e.Unopenable? && e.p == p then 1 else 0)
      && (run'.backedOff <==> run.backedOff || (e.BacksOff? && e.p == p))
  {
    if e.Tick? || e.Forget? || e.p != p {
      OthersStay(s, e, s', p);
    } else {
      StepCountsOwn(s, e, s');
    }
    hide Next;
  }

  lemma StepCountsOwn(s: State, e: Event, s': State)
    requires Next(s, e, s') && !e.Tick? && !e.Forget?
    ensures IsPass(s, e.p) && IsPass(s', e.p)
    ensures var (run, run') := (RunOf(s.passes[e.p]), RunOf(s'.passes[e.p]));
      && run'.done == run.done + (if e.Keep? && Keeps(s, e.p) && !s.passes[e.p].verdict then 1 else 0)
      && run'.failed == run.failed + (if e.Keep? && Keeps(s, e.p) && s.passes[e.p].verdict then 1 else 0)
      && run'.skipped == run.skipped + (if e.Unopenable? then 1 else 0)
      && (run'.backedOff <==> run.backedOff || e.BacksOff?)
  {
    if e.Begin? || e.FetchFails? || e.Consider? || e.EndTake? {
      TakingCounts(s, e, s');
      hide Next;
    } else {
      hide FetchSize, Fetched, StillWaiting, Condemns, Bars, StruckAfter, Full, Waits, Starting, Considered;
    }
  }

  lemma TakingCounts(s: State, e: Event, s': State)
    requires Next(s, e, s') && (e.Begin? || e.FetchFails? || e.Consider? || e.EndTake?)
    ensures IsPass(s, e.p) && IsPass(s', e.p)
    ensures var (run, run') := (RunOf(s.passes[e.p]), RunOf(s'.passes[e.p]));
      run'.done == run.done == run'.failed == run.failed == run'.skipped == run.skipped == 0 && !run'.backedOff && !run.backedOff
  {
    hide FetchSize, Fetched, StillWaiting, Condemns, Bars, StruckAfter, Full, Waits;
  }

  lemma OthersStay(s: State, e: Event, s': State, p: nat)
    requires Next(s, e, s') && IsPass(s, p) && (e.Tick? || e.Forget? || e.p != p)
    ensures IsPass(s', p) && s'.passes[p] == s.passes[p]
  {
    hide FetchSize, Fetched, StillWaiting, Condemns, Bars, StruckAfter, Starting, Dropped, Counted, Full, Waits;
  }

  /** A pass counts as done the results it stored, as failed the verdicts it stored, and as skipped the files it left to
      wait; and it backed off if a decode of it did. */
  lemma {:induction false} CountsItsOwn(states: seq<State>, events: seq<Event>, k: nat, p: nat)
    requires |states| == |events| + 1 && IsRun(states, events) && k < |states| && IsPass(states[0], p)
    ensures IsPass(states[k], p)
    ensures var run := RunOf(states[k].passes[p]);
      && run.done == Kept(states, events, k, p, false)
      && run.failed == Kept(states, events, k, p, true)
      && run.skipped == LeftToWait(events, k, p)
      && (run.backedOff <==> exists j :: 0 <= j < k && events[j].BacksOff? && events[j].p == p)
  {
    hide Next;
    if k > 0 {
      CountsItsOwn(states, events, k - 1, p);
      StepCounts(states[k - 1], events[k - 1], states[k], p);
    }
  }

  // ---- How long a file waits ----

  /** No file is to wait longer than the job has one wait. */
  lemma {:induction false} WaitsNoLonger(states: seq<State>, events: seq<Event>, k: nat)
    requires IsRun(states, events) && k < |states|
    ensures states[k].retryAfter == states[0].retryAfter
    ensures forall f :: f in states[k].waiting ==> states[k].waiting[f] <= states[k].clock + states[0].retryAfter
  {
    if k > 0 {
      WaitsNoLonger(states, events, k - 1);
      assert Next(states[k - 1], events[k - 1], states[k]);
    }
  }

  /** The waits a fetch keeps are just those of the files it then passes over as waiting. */
  lemma KeepsJustWaits(s: State, f: File)
    ensures f in StillWaiting(s.waiting, s.clock) <==> Waits(s, f)
    ensures Waits(s, f) ==> StillWaiting(s.waiting, s.clock)[f] == s.waiting[f]
  {
  }

  predicate IsOf(s: State, p: nat, f: File) {
    Decodes(s, p) && FileOf(s, p) == f
  }

  lemma StepWaits(s: State, e: Event, s': State, f: File)
    requires Next(s, e, s') && f in s'.waiting
    ensures if e.Unopenable? && IsOf(s, e.p, f) then Bars(e.failure) && s'.waiting[f] == s.clock + s.retryAfter
      else f in s.waiting && s'.waiting[f] == s.waiting[f] && (e.Succeeds? || e.Judged? ==> !IsOf(s, e.p, f))
  {
  }

  /** A file waits only for a decode of it that found it within reach and not to open, for one wait from then, and only
      until it decodes or a verdict is given. */
  lemma {:induction false} WaitsOnlyFor(states: seq<State>, events: seq<Event>, k: nat, f: File) returns (j: nat)
    requires IsRun(states, events) && k < |states| && f in states[k].waiting
    ensures j < k && events[j].Unopenable? && IsOf(states[j], events[j].p, f) && Bars(events[j].failure)
    ensures states[k].waiting[f] == states[j].clock + states[0].retryAfter
    ensures forall i :: j < i < k && (events[i].Succeeds? || events[i].Judged?) ==> !IsOf(states[i], events[i].p, f)
  {
    var e := events[k - 1];
    StepWaits(states[k - 1], e, states[k], f);
    WaitsNoLonger(states, events, k - 1);
    hide Next, IsOf;
    if e.Unopenable? && IsOf(states[k - 1], e.p, f) {
      j := k - 1;
    } else {
      j := WaitsOnlyFor(states, events, k - 1, f);
    }
  }

  // ---- Strikes ----

  /** An event that has a struck file start over: it decodes, or an attempt at it, the second, is its verdict. */
  predicate Settles(s: State, e: Event, f: File) {
    || Clears(s, e, f)
    || (e.Judged? && IsOf(s, e.p, f) && e.failure.cause.Attempt?)
    || (e.StoreFails? && e.problem.Some? && IsOf(s, e.p, f) && e.problem.value.cause.Attempt?)
  }

  lemma StepStrikes(s: State, e: Event, s': State, f: File)
    requires Next(s, e, s')
    ensures f in s'.struck <==> Strikes(s, e, f) || (f in s.struck && !Settles(s, e, f))
  {
    hide FetchSize, Fetched, StillWaiting, Starting, Dropped, Counted, Waits;
  }

  ghost predicate StruckSince(states: seq<State>, events: seq<Event>, j: nat, k: nat, f: File)
    requires j < k < |states| == |events| + 1
  {
    Strikes(states[j], events[j], f) && forall i {:trigger Settles(states[i], events[i], f)} :: j < i < k ==> !Settles(states[i], events[i], f)
  }

  ghost predicate StruckBy(states: seq<State>, events: seq<Event>, k: nat, f: File)
    requires k < |states| == |events| + 1
  {
    exists j: nat :: j < k && StruckSince(states, events, j, k, f)
  }

  /** A file is struck exactly from a first attempt within reach that broke off until it decodes or the second does; so
      that just the second is a verdict. */
  lemma {:induction false} StruckExactly(states: seq<State>, events: seq<Event>, k: nat, f: File)
    requires |states| == |events| + 1 && IsRun(states, events) && k < |states|
    ensures f in states[k].struck <==> StruckBy(states, events, k, f)
  {
    if k > 0 {
      StruckExactly(states, events, k - 1, f);
      assert Next(states[k - 1], events[k - 1], states[k]);
      StepStrikes(states[k - 1], events[k - 1], states[k], f);
      hide Next, Settles, Strikes, IsRun, StruckBy;
      SinceNext(states, events, k, f);
    }
  }

  lemma SinceNext(states: seq<State>, events: seq<Event>, k: nat, f: File)
    requires 0 < k < |states| == |events| + 1
    ensures StruckBy(states, events, k, f) <==>
      (Strikes(states[k - 1], events[k - 1], f)
       || (StruckBy(states, events, k - 1, f) && !Settles(states[k - 1], events[k - 1], f)))
  {
    hide Settles, Strikes;
    var settles := Settles(states[k - 1], events[k - 1], f);
    if Strikes(states[k - 1], events[k - 1], f) {
      assert StruckSince(states, events, k - 1, k, f);
    }
    if StruckBy(states, events, k - 1, f) && !settles {
      var j: nat :| j < k - 1 && StruckSince(states, events, j, k - 1, f);
      assert StruckSince(states, events, j, k, f);
    }
    if StruckBy(states, events, k, f) && !Strikes(states[k - 1], events[k - 1], f) {
      var j: nat :| j < k && StruckSince(states, events, j, k, f);
      assert !settles && StruckSince(states, events, j, k - 1, f);
    }
  }
}
