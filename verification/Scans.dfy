/** The loops of a scan (crates/scanner/src/scan.rs, crates/scanner/src/scan/writer.rs), each pass of
    which is a step of `ScanSteps`. What the surroundings decide, when to flush, when to stop and
    which roots answer, is left open. */
module Scans {
  import opened Wrappers
  import opened Paths
  import opened Scopes
  import opened Walks
  import opened ScanSteps
  import ScanSafety

  /** Whether to go on, or which of the three ways the walk is cut short. */
  datatype Halt = Going | StopAsked | RootGone | StoreFailed

  /** How a run ended: to be resumed, with the scan over and some scopes to retry, or with an error of the store. */
  datatype RunEnd = Stopped | Done(retry: seq<nat>) | Errored

  class Scan {
    const world: World
    /** What the store holds. */
    var row: Option<Cursor>
    var saved: set<Outcome>
    /** What the run holds. */
    var cursor: Option<Cursor>
    var batch: set<Outcome>
    var unanswered: seq<nat>
    ghost var start: nat
    ghost var skipped: set<nat>
    ghost var at: Phase
    /** Every state so far, and the events between them. */
    ghost var states: seq<State>
    ghost var events: seq<Event>

    ghost function Now(): State
      reads this
    {
      State(row, saved, cursor, batch, unanswered, start, skipped, at)
    }

    /** All that has happened is a run of the steps, and this is where it is. */
    ghost predicate Tracked()
      reads this
    {
      ValidWorld(world) && ScanSafety.IsRun(world, states, events) && states[|events|] == Now()
    }

    constructor (world: World)
      requires ValidWorld(world)
      ensures Tracked() && at.Down? && this.world == world && states == [INITIAL]
    {
      this.world := world;
      row, saved, cursor, batch, unanswered := None, {}, None, {}, [];
      start, skipped, at := 0, {}, Down;
      states, events := [INITIAL], [];
    }

    /** Notes that `e` brought the scan where it is. */
    ghost method Record(e: Event)
      requires ValidWorld(world) && ScanSafety.IsRun(world, states, events)
      requires Next(world, states[|events|], e, Now())
      modifies this`states, this`events
      ensures Tracked() && old(states) <= states
    {
      hide Next;
      states, events := states + [Now()], events + [e];
    }

    /** Saves the batch with the cursor, both or neither. */
    method Flush() returns (ok: bool)
      modifies this`row, this`saved, this`batch
      ensures Now() == if ok then Flushed(old(Now())) else old(Now())
    {
      ok := *;
      if ok {
        row, saved, batch := cursor, saved + batch, {};
      }
    }

    /** An error of the store: the scan is left at the cursor saved. */
    method Fail()
      requires Tracked() && (at.AtScope? || at.Walking? || at.InFolder?)
      modifies this`cursor, this`batch, this`at, this`states, this`events
      ensures Tracked() && at.Broken? && cursor == row && old(states) <= states
    {
      cursor, batch, at := row, {}, Broken;
      Record(Event.Fail);
    }

    /** May flush, and may ask to stop; it ends the scan only if a flush failed, and moves nothing else. */
    method Checkpoint() returns (halt: Halt)
      requires Tracked() && (at.Walking? || at.InFolder?)
      modifies this
      ensures Tracked() && old(states) <= states
      ensures if halt == StoreFailed then at.Broken? else (halt == Going || halt == StopAsked) && at == old(at)
      ensures halt != StoreFailed ==> cursor == old(cursor)
    {
      var due: bool := *;
      if due {
        var ok := Flush();
        if !ok {
          Fail();
          return StoreFailed;
        }
        Record(Event.Checkpoint);
      }
      var stopping: bool := *;
      halt := if stopping then StopAsked else Going;
    }

    /** Adds to the batch that the folder's next file is done. */
    method ProcessFile(i: nat, dir: Item, k: nat, ghost todo: seq<Item>)
      requires Tracked() && dir.Directory? && at == InFolder(i, dir, k, todo) && k < |dir.audio|
      modifies this`batch, this`at, this`states, this`events
      ensures Tracked() && at == InFolder(i, dir, k + 1, todo) && old(states) <= states
    {
      batch := batch + {FileDone(i, dir.path, dir.audio[k])};
      at := InFolder(i, dir, k + 1, todo);
      Record(Event.ProcessFile);
    }

    /** Moves the cursor past a folder all of which is processed. */
    method CloseFolder(i: nat, dir: Item, ghost todo: seq<Item>)
      requires Tracked() && dir.Directory? && at == InFolder(i, dir, |dir.audio|, todo)
      modifies this`batch, this`cursor, this`at, this`states, this`events
      ensures Tracked() && at == Walking(i, todo) && old(states) <= states
    {
      batch := batch + {FolderDone(i, dir.path)};
      cursor := Some(Cursor(i, Some(dir.path)));
      at := Walking(i, todo);
      Record(Event.CloseFolder);
    }

    /** Processes each audio file of `dir`, with a checkpoint before it, and then reconciles it. Only a
        folder done whole moves the cursor. */
    method ProcessDirectory(i: nat, dir: Item, ghost todo: seq<Item>) returns (halt: Halt)
      requires Tracked() && dir.Directory? && at == InFolder(i, dir, 0, todo)
      modifies this
      ensures Tracked() && old(states) <= states
      ensures match halt
              case Going => at == Walking(i, todo)
              case StoreFailed => at.Broken?
              case _ => at.InFolder? && at.i == i
    {
      hide Tracked;
      // What the store holds of the folder is read first.
      var read: bool := *;
      if !read {
        Fail();
        return StoreFailed;
      }
      for k := 0 to |dir.audio|
        invariant Tracked() && at == InFolder(i, dir, k, todo) && old(states) <= states
      {
        halt := Checkpoint();
        if halt != Going {
          return;
        }
        ProcessFile(i, dir, k, todo);
      }
      // Tracks the folder no longer lists are marked only while the root answers, each after a checkpoint.
      var missing: nat :| missing >= 0;
      var answers: bool := *;
      if missing > 0 && !answers {
        return RootGone;
      }
      for m := 0 to missing
        invariant Tracked() && at == InFolder(i, dir, |dir.audio|, todo) && old(states) <= states
      {
        halt := Checkpoint();
        if halt != Going {
          return;
        }
      }
      CloseFolder(i, dir, todo);
      halt := Going;
    }

    /** Starts the walk of the scope from where it resumes. */
    method EnterScope(i: nat) returns (walk: Walk)
      requires Tracked() && at == AtScope(i) && i < |world| && !Linked(world[i])
      modifies this`at, this`states, this`events
      ensures Tracked() && old(states) <= states
      ensures fresh(walk) && walk.Good() && at == Walking(i, walk.Remaining())
    {
      hide ToCome, Walked, ScanSafety.IsRun;
      var setup := SetupOf(world[i], ResumeAfter(cursor, i));
      walk := new Walk(setup);
      at := Walking(i, Walked(setup));
      Record(Event.EnterScope);
    }

    /** Goes on from the walk's next item: past it, or into it. */
    method TakeItem(i: nat, item: Item, ghost todo: seq<Item>)
      requires Tracked() && at == Walking(i, [item] + todo)
      modifies this`at, this`states, this`events
      ensures Tracked() && old(states) <= states
      ensures at == if item.Failed? then Walking(i, todo) else InFolder(i, item, 0, todo)
    {
      assert ([item] + todo)[1..] == todo;
      if item.Failed? {
        at := Walking(i, todo);
        Record(NoteFailed);
      } else {
        at := InFolder(i, item, 0, todo);
        Record(OpenFolder);
      }
    }

    /** Walks the scope from where it resumes, until it is done, asked to stop or without its root. */
    method WalkScope(i: nat) returns (halt: Halt)
      requires Tracked() && at == AtScope(i) && i < |world| && !Linked(world[i])
      modifies this
      ensures Tracked() && old(states) <= states
      ensures match halt
              case Going => at == Walking(i, [])
              case StopAsked => (at.Walking? || at.InFolder?) && at.i == i
              case RootGone => at.InFolder? && at.i == i
              case StoreFailed => at.Broken?
    {
      hide Tracked, ToCome;
      var walk := EnterScope(i);
      while true
        invariant Tracked() && old(states) <= states && fresh(walk)
        invariant walk.Good() && at == Walking(i, walk.Remaining())
        decreases |walk.Remaining()|
      {
        var item := walk.Next();
        if item.None? {
          return Going;
        }
        halt := Checkpoint();
        if halt != Going {
          return;
        }
        ghost var todo := walk.Remaining();
        TakeItem(i, item.value, todo);
        if item.value.Directory? {
          halt := ProcessDirectory(i, item.value, todo);
          if halt != Going {
            return;
          }
        }
      }
    }

    /** Stops before a scope, where no batch is in hand to save. */
    method StopBefore(i: nat)
      requires Tracked() && at == AtScope(i)
      modifies this`at, this`states, this`events
      ensures Tracked() && at.Down? && old(states) <= states
    {
      ScanSafety.RunKeeps(world, states, events, |events|);
      assert saved + batch == saved;
      at := Down;
      Record(Event.Stop);
    }

    /** Stops inside a scope: the batch is saved first. */
    method StopWithin() returns (ok: bool)
      requires Tracked() && (at.Walking? || at.InFolder?)
      modifies this
      ensures Tracked() && old(states) <= states && if ok then at.Down? else at.Broken?
    {
      ok := Flush();
      if !ok {
        Fail();
        return;
      }
      at := Down;
      Record(Event.Stop);
    }

    /** Notes a scope unanswered, and goes to the next. */
    method Skip(i: nat)
      requires Tracked() && i < |world| && at == AtScope(i)
      modifies this
      ensures Tracked() && at == AtScope(i + 1) && old(states) <= states
    {
      unanswered := unanswered + [i];
      skipped := skipped + {i};
      at := AtScope(i + 1);
      Record(SkipScope);
    }

    /** The same of a scope walked, saving what was made of it. */
    method Leave(i: nat) returns (ok: bool)
      requires Tracked() && i < |world| && ((at.InFolder? && at.i == i) || at == Walking(i, []))
      modifies this
      ensures Tracked() && old(states) <= states && if ok then at == AtScope(i + 1) else at.Broken?
    {
      ok := Flush();
      if !ok {
        Fail();
        return;
      }
      unanswered := unanswered + [i];
      skipped := skipped + {i};
      at := AtScope(i + 1);
      Record(LoseRoot);
    }

    /** Saves what was made of the scope `i`, and then moves the cursor past it and saves that. */
    method Pass(i: nat) returns (ok: bool)
      requires Tracked() && i < |world| && at == Walking(i, [])
      modifies this
      ensures Tracked() && old(states) <= states && if ok then at == AtScope(i + 1) else at.Broken?
    {
      ok := Flush();
      if !ok {
        Fail();
        return;
      }
      Record(Event.Checkpoint);
      ok := PassOver(i, Event.FinishScope);
    }

    /** Moves the cursor past the scope `i`, and saves it. */
    method PassOver(i: nat, ghost e: Event) returns (ok: bool)
      requires Tracked() && i < |world|
      requires if at.AtScope? then at.i == i && Linked(world[i]) && e == PassLink else at == Walking(i, []) && e == FinishScope
      requires batch == {}
      modifies this
      ensures Tracked() && old(states) <= states && if ok then at == AtScope(i + 1) else at.Broken?
    {
      cursor := Some(Cursor(i + 1, None));
      ok := Flush();
      if !ok {
        cursor, at := row, Broken;
        Record(Event.Fail);
        return;
      }
      at := AtScope(i + 1);
      Record(e);
    }

    /** Starts a run where the store's cursor is. */
    method Begin()
      requires Tracked() && at.Down?
      modifies this
      ensures Tracked() && at == AtScope(From(old(row))) && old(states) <= states
    {
      var from := From(row);
      cursor, batch, unanswered := row, {}, [];
      start, skipped, at := from, (set j | j in skipped && j < from), AtScope(from);
      Record(Event.Start);
    }

    /** Ends the scan, past its last scope, if the store saves that. */
    method End(i: nat) returns (end: RunEnd)
      requires Tracked() && at == AtScope(i) && i >= |world|
      modifies this
      ensures Tracked() && old(states) <= states && EndsAs(end)
    {
      var ok: bool := *;
      if !ok {
        Fail();
        return Errored;
      }
      at := if unanswered == [] then Completed else Suspended;
      Record(Event.Finish);
      end := RunEnd.Done(unanswered);
    }

    /** Where each end of a run leaves the scan. */
    ghost predicate EndsAs(end: RunEnd)
      reads this
    {
      match end
      case Stopped => at.Down?
      case Done(retry) => at == (if retry == [] then Completed else Suspended) && retry == unanswered
      case Errored => at.Broken?
    }

    /** One run: every scope from the cursor's on, until done or asked to stop. */
    method ScanScopes() returns (end: RunEnd)
      requires Tracked() && at.Down?
      modifies this
      ensures Tracked() && old(states) <= states && EndsAs(end)
    {
      hide Tracked;
      var i := From(row);
      Begin();
      // The start is saved, and the tag types read.
      var ok: bool := *;
      if !ok {
        Fail();
        return Errored;
      }
      while i < |world|
        invariant Tracked() && old(states) <= states && at == AtScope(i)
      {
        var stopping: bool := *;
        if stopping {
          StopBefore(i);
          return Stopped;
        }
        var end := ScanScope(i);
        if end.Some? {
          return end.value;
        }
        i := i + 1;
      }
      // A shutdown asked for since leaves the scan running at its cursor.
      var stopping: bool := *;
      if stopping {
        StopBefore(i);
        return Stopped;
      }
      end := End(i);
    }

    /** One scope of a run, which may end it. */
    method ScanScope(i: nat) returns (end: Option<RunEnd>)
      requires Tracked() && at == AtScope(i) && i < |world|
      modifies this
      ensures Tracked() && old(states) <= states
      ensures if end.None? then at == AtScope(i + 1) else !end.value.Done? && EndsAs(end.value)
    {
      hide Tracked;
      var answers: bool, ok: bool := *, *;
      if !answers {
        Skip(i);
        return None;
      }
      if Linked(world[i]) {
        NothingInHand(i);
        ok := PassOver(i, PassLink);
        return if ok then None else Some(Errored);
      }
      var halt := WalkScope(i);
      if halt == StoreFailed {
        return Some(Errored);
      }
      if halt == StopAsked {
        ok := StopWithin();
        return Some(if ok then Stopped else Errored);
      }
      answers := *;
      if halt == RootGone || !answers {
        ok := Leave(i);
      } else {
        ok := Pass(i);
      }
      end := if ok then None else Some(Errored);
    }

    /** Between scopes nothing is in hand. */
    lemma NothingInHand(i: nat)
      requires Tracked() && at == AtScope(i)
      ensures batch == {}
    {
      ScanSafety.RunKeeps(world, states, events, |events|);
    }
  }
}
