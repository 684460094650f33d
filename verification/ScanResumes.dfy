/** Just when a scan completes without a scope it never got through (crates/scanner/src/scan.rs:79-82, :113-220). */
module ScanResumes {
  import opened Wrappers
  import opened ScanSteps
  import opened ScanSafety

  /** Whether the event takes the cursor past the whole of the scope `i`. */
  predicate Passes(s: State, e: Event, i: nat) {
    (e.FinishScope? && s.at.Walking? && s.at.i == i) || (e.PassLink? && s.at.AtScope? && s.at.i == i)
  }

  /** Some run before the state `k` got through the scope `i`. */
  ghost predicate GotThrough(states: seq<State>, events: seq<Event>, k: nat, i: nat)
    requires k <= |events| && |states| == |events| + 1
  {
    exists j :: 0 <= j < k && Passes(states[j], events[j], i)
  }

  /** How far a scan has come: up to its scope in a run, and else up to where the next would resume. */
  function Front(w: World, s: State): nat {
    match s.at
    case AtScope(i) => i
    case Walking(i, _) => i
    case InFolder(i, _, _, _) => i
    case Completed => |w|
    case Suspended => |w|
    case _ => From(s.row)
  }

  /** Every scope up to there was got through, or skipped, and none both. */
  ghost predicate Parts(w: World, s: State, through: set<nat>) {
    && (forall i :: i in through ==> i < From(s.row) && i !in s.skipped)
    && (forall i: nat :: i < Front(w, s) ==> i in through || i in s.skipped)
    && (forall i :: i in s.skipped ==> i < |w|)
  }

  function After(s: State, e: Event, through: set<nat>): set<nat> {
    if (e.FinishScope? && s.at.Walking?) || (e.PassLink? && s.at.AtScope?) then through + {s.at.i} else through
  }

  /** Where a run is, its cursor is not ahead. */
  lemma NotAhead(w: World, s: State)
    requires Inv(w, s)
    ensures Running(s) ==> From(s.row) <= From(s.cursor) <= Front(w, s) <= |w|
    ensures s.at.Walking? || s.at.InFolder? ==> s.at.i < |w|
  {
    hide Safe, Behind, Left;
  }

  lemma StepParts(w: World, s: State, e: Event, s': State, through: set<nat>)
    requires Inv(w, s) && Parts(w, s, through) && Next(w, s, e, s')
    ensures Parts(w, s', After(s, e, through))
  {
    NotAhead(w, s);
    hide Inv;
  }

  /** The scopes got through before the state `k`. */
  function Through(states: seq<State>, events: seq<Event>, k: nat): set<nat>
    requires k <= |events| && |states| == |events| + 1
  {
    if k == 0 then {} else After(states[k - 1], events[k - 1], Through(states, events, k - 1))
  }

  lemma {:induction false} ThroughIsGotThrough(states: seq<State>, events: seq<Event>, k: nat, i: nat)
    requires k <= |events| && |states| == |events| + 1
    ensures i in Through(states, events, k) <==> GotThrough(states, events, k, i)
  {
    if k > 0 {
      ThroughIsGotThrough(states, events, k - 1, i);
      if Passes(states[k - 1], events[k - 1], i) {
        assert GotThrough(states, events, k, i);
      } else if GotThrough(states, events, k, i) {
        var j :| 0 <= j < k && Passes(states[j], events[j], i);
        assert j < k - 1;
      }
    }
  }

  lemma {:induction false} RunParts(w: World, states: seq<State>, events: seq<Event>, k: nat)
    requires ValidWorld(w) && IsRun(w, states, events) && k < |states|
    ensures Parts(w, states[k], Through(states, events, k))
  {
    hide Inv, Next, After;
    if k > 0 {
      RunParts(w, states, events, k - 1);
      RunKeeps(w, states, events, k - 1);
      hide Parts;
      StepParts(w, states[k - 1], events[k - 1], states[k], Through(states, events, k - 1));
    }
  }

  /** A run adds to what was skipped just what it returns. */
  lemma {:induction false} SkippedSince(w: World, states: seq<State>, events: seq<Event>, j: nat, k: nat)
    requires IsRun(w, states, events) && j < k < |states| && events[j].Start?
    requires forall m :: j < m < k ==> !events[m].Start?
    ensures forall i :: i in states[k].skipped <==> i in states[j + 1].skipped || i in states[k].unanswered
  {
    assert Next(w, states[k - 1], events[k - 1], states[k]);
    if j + 1 < k {
      SkippedSince(w, states, events, j, k - 1);
    }
  }

  /** A scan that completes has got through every scope exactly if, as its last run started, no scope left
      unanswered before lay behind where it resumed. */
  lemma GotThroughAllUnlessResumedPast(w: World, states: seq<State>, events: seq<Event>, j: nat, k: nat)
    requires ValidWorld(w) && IsRun(w, states, events) && j < k < |states| && states[k].at.Completed?
    requires events[j].Start? && forall m :: j < m < k ==> !events[m].Start?
    ensures (forall i: nat :: i < |w| ==> GotThrough(states, events, k, i))
            <==> (forall i :: i in states[j].skipped ==> i >= From(states[j].row))
  {
    RunParts(w, states, events, k);
    RunKeeps(w, states, events, k);
    SkippedSince(w, states, events, j, k);
    assert states[k].unanswered == [];
    assert Next(w, states[j], events[j], states[j + 1]);
    hide Inv, Next, IsRun, Through;
    assert forall i :: i in states[k].skipped <==> i in states[j].skipped && i < From(states[j].row);
    assert (forall i :: i in states[j].skipped ==> i >= From(states[j].row)) <==> states[k].skipped == {};
    forall i: nat ensures GotThrough(states, events, k, i) <==> i in Through(states, events, k) {
      ThroughIsGotThrough(states, events, k, i);
    }
    hide GotThrough;
    if states[k].skipped != {} {
      var i :| i in states[k].skipped;
      assert i < |w| && i !in Through(states, events, k);
    }
  }

  /** So if none did, every scope that is no link's is whole in the store. */
  lemma WholeUnlessResumedPast(w: World, states: seq<State>, events: seq<Event>, j: nat, k: nat, i: nat)
    requires ValidWorld(w) && IsRun(w, states, events) && j < k < |states| && states[k].at.Completed?
    requires events[j].Start? && forall m :: j < m < k ==> !events[m].Start?
    requires forall i :: i in states[j].skipped ==> i >= From(states[j].row)
    requires i < |w| && !Linked(w[i])
    ensures Whole(w, i, states[k].saved)
  {
    RunParts(w, states, events, k);
    RunKeeps(w, states, events, k);
    SkippedSince(w, states, events, j, k);
    assert states[k].unanswered == [];
    assert Next(w, states[j], events[j], states[j + 1]);
    if !Whole(w, i, states[k].saved) {
      MissedOnlyIfForgotten(w, states, events, k, i);
    }
  }
}
