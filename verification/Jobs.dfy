/** A background job's memory and the loops of its passes (crates/scanner/src/jobs.rs:101-296). Every change a
    pass makes is a step of `JobSteps`, and the other passes may step between any two. */
module Jobs {
  import opened Wrappers
  import opened JobSteps
  import JobSafety

  /** How a decode ended: with a result, or not. */
  datatype Decoded = Gives | Fails(failure: Failure)

  datatype Outcome = Verdict | Skipped | BackOff

  /** Whether a pass goes on after a file, ends, or ends with the store's error. */
  datatype After = GoesOn | Breaks | Errs

  datatype Report = Report(done: nat, failed: nat, skipped: nat, backedOff: bool)

  class Retries {
    const retryAfter: nat
    var now: int
    var struck: set<File>
    var waiting: map<File, int>
    var inHand: set<File>
    /** Every state of the job so far, and the events between them. */
    ghost var states: seq<State>
    ghost var events: seq<Event>

    /** All that has happened is a run of the steps, and this is where it is. */
    ghost predicate Tracked()
      reads this
    {
      && JobSafety.IsRun(states, events) && |states| > 0
      && Now().clock == now && Now().retryAfter == retryAfter
      && Now().struck == struck && Now().waiting == waiting && Now().inHand.Keys == inHand
    }

    ghost function Now(): State
      requires |states| > 0
      reads this
    {
      states[|states| - 1]
    }

    /** A job with nothing struck, waiting or in hand, of so many passes, all idle; the store has results for `stored`,
        empty ones for `empty`. */
    constructor (retryAfter: nat, now: int, ghost passes: nat, ghost stored: set<File>, ghost empty: set<File>)
      ensures Tracked() && Now().stored == stored && Now().empty == empty && |Now().passes| == passes
      ensures Initial(Now())
    {
      this.retryAfter, this.now := retryAfter, now;
      struck, waiting, inHand := {}, map[], {};
      states := [State(now, retryAfter, None, map[], map[], {}, stored, empty, seq(passes, _ => Idle))];
      events := [];
    }

    /** Whether pass `p` can go on: it is as it was, and no other pass is taking. */
    ghost predicate At(p: nat, pass: Pass)
      reads this
    {
      Tracked() && IsPass(Now(), p) && Now().passes[p] == pass && Now().lock == if pass.Taking? then Some(p) else None
    }

    ghost method Record(e: Event, s: State)
      requires JobSafety.IsRun(states, events) && Next(Now(), e, s)
      modifies this`states, this`events
      ensures JobSafety.IsRun(states, events) && Now() == s && old(states) <= states
    {
      hide Next;
      states, events := states + [s], events + [e];
    }

    /** Time passes, and the other passes do what they do, whatever that is. */
    method Others(p: nat, ghost pass: Pass)
      requires At(p, pass)
      modifies this
      ensures At(p, pass) && old(states) <= states
    {
    }

    /** Leaves only the waits that end after now, and sizes the fetch by how many those are. */
    method Fetch(limit: nat, held: nat) returns (size: nat)
      modifies this`waiting
      ensures waiting == StillWaiting(old(waiting), now) && size == FetchSize(limit, held, |waiting|)
    {
      waiting := map f | f in waiting && waiting[f] > now :: waiting[f];
      size := SaturatingAdd(SaturatingAdd(limit, held), SaturatingDouble(|waiting|));
    }

    /** What the store answers is up to it. */
    method Query(size: nat) returns (files: seq<File>)
      requires |states| > 0
      ensures Fetched(Now(), size, files)
    {
      files := [];
    }

    /** A take as the machine has one, from a pass idle to a pass working on what it took, or ended if the store has
        no answer. */
    method Take(p: nat, limit: nat) returns (taken: Option<seq<File>>, ghost run: Run)
      requires At(p, Idle) && limit <= USIZE_MAX && |inHand| <= USIZE_MAX
      modifies this
      ensures old(states) <= states
      ensures taken.Some? ==> At(p, Working(run, taken.value)) && JustTook(run, limit, |taken.value|)
      ensures taken.None? ==> At(p, Finished(run, true)) && run.limit == limit
    {
      var held := |inHand|;
      ghost var s := Now();
      var size := Fetch(limit, held);
      var share := size - held;
      var fails: bool := *;
      if fails {
        run := NoRun(limit);
        Record(FetchFails(p, limit), With(s, p, Finished(run, true)).(waiting := StillWaiting(s.waiting, s.clock)));
        return None, run;
      }
      var files := Query(size);
      Record(Begin(p, limit, files), With(s, p, Starting(s, limit, files)).(lock := Some(p), waiting := StillWaiting(s.waiting, s.clock)));
      var free := Sift(p, files, share);
      s := Now();
      var t := s.passes[p];
      run := Run(t.limit, |t.held|, |t.waits|, t.full, |t.taken|, 0, 0, 0, false);
      Record(EndTake(p), With(s, p, Working(run, t.taken)).(lock := None));
      taken := Some(free);
    }

    /** Looks at `files` in order until `share` are taken. */
    method Sift(p: nat, files: seq<File>, share: nat) returns (taken: seq<File>)
      requires Tracked() && IsPass(Now(), p) && At(p, Now().passes[p]) && Now().passes[p].Taking?
      requires var t := Now().passes[p]; t.taken == [] && t.files == files && t.share == share
      modifies this
      ensures Tracked() && IsPass(Now(), p) && At(p, Now().passes[p]) && old(states) <= states
      ensures var t := Now().passes[p];
        && t.Taking? && t.taken == taken && t.limit == old(Now().passes[p].limit) && (t.files == [] || |taken| == share)
        && t.share == share
    {
      hide JobSafety.IsRun, Next;
      taken := [];
      var i := 0;
      ghost var t := Now().passes[p];
      while i < |files| && |taken| < share
        invariant i <= |files| && |taken| <= share && old(states) <= states
        invariant At(p, t) && t.Taking? && t.taken == taken && t.files == files[i..]
        invariant t.limit == old(Now().passes[p].limit) && t.share == share
      {
        Others(p, t);
        ghost var s := Now();
        var f := files[i];
        if !(f in waiting && now < waiting[f]) && f !in inHand {
          inHand := inHand + {f};
          taken := taken + [f];
        }
        MayConsider(s, p);
        Record(Consider(p), Considered(s, p));
        t := Now().passes[p];
        i := i + 1;
      }
    }

    /** Notes that `f` decoded, and waits no longer. */
    method Succeeded(f: File)
      modifies this`struck, this`waiting
      ensures struck == old(struck) - {f} && waiting == old(waiting) - {f}
    {
      struck := struck - {f};
      waiting := waiting - {f};
    }

    /** A verdict if the failure is the file's own, a wait if it bars the file, and else none. */
    method Judge(f: File, failure: Failure) returns (outcome: Option<Outcome>)
      modifies this`struck
      ensures outcome == Some(Verdict) <==> Condemns(failure, f in old(struck))
      ensures outcome == Some(Skipped) <==> Bars(failure)
      ensures outcome != Some(BackOff) && struck == StruckAfter(failure, f, old(struck))
    {
      match failure.cause {
        case Host => return None;
        case Content =>
          if failure.opens {
            return Some(Verdict);
          }
        case Opening =>
        case Attempt =>
          if !failure.answers {
            return None;
          }
          if f !in struck {
            struck := struck + {f};
            return None;
          }
          struck := struck - {f};
          return Some(Verdict);
      }
      if !failure.answers {
        return None;
      }
      outcome := Some(Skipped);
    }

    /** Judges a failed decode, and has the store record the problem, which may fail: `outcome` is then none. */
    method Failed(p: nat, failure: Failure, ghost run: Run, f: File, ghost todo: seq<File>) returns (outcome: Option<Outcome>, ghost pass: Pass)
      requires At(p, Working(run, [f] + todo)) && !Full(run)
      modifies this
      ensures At(p, pass) && old(states) <= states
      ensures match outcome
        case None => pass == Closing(run, [f] + todo, true)
        case Some(Verdict) => pass == Keeping(run, [f] + todo, true) && Condemns(failure, f in old(struck))
        case Some(Skipped) => pass == Dropping(run.(skipped := run.skipped + 1), [f] + todo) && Bars(failure)
        case Some(BackOff) =>
          pass == Closing(run.(backedOff := true), [f] + todo, false) && !Condemns(failure, f in old(struck)) && !Bars(failure)
    {
      hide JobSafety.IsRun, Next, Condemns, Bars, StruckAfter;
      ghost var s := Now();
      var judged := Judge(f, failure);
      if judged.None? {
        pass := Closing(run.(backedOff := true), [f] + todo, false);
        MayBackOff(s, p, f, failure);
        Record(BacksOff(p, failure), With(s, p, pass).(struck := struck));
        return Some(BackOff), pass;
      }
      assert judged == Some(if judged.value.Verdict? then Verdict else Skipped);
      var fails: bool := *;
      if fails {
        pass := Closing(run, [f] + todo, true);
        MayErr(s, p, f, failure);
        Record(StoreFails(p, Some(failure)), With(s, p, pass).(struck := struck));
        return None, pass;
      }
      if judged == Some(Skipped) {
        waiting := waiting[f := now + retryAfter];
        pass := Dropping(run.(skipped := run.skipped + 1), [f] + todo);
        MaySkip(s, p, f, failure);
        Record(Unopenable(p, failure), With(s, p, pass).(waiting := waiting));
      } else {
        waiting := waiting - {f};
        pass := Keeping(run, [f] + todo, true);
        MayJudge(s, p, f, failure);
        Record(Judged(p, failure), With(s, p, pass).(waiting := waiting, struck := struck));
      }
      outcome := judged;
    }

    /** Saves the result at the head of the pass's claims: if that works it is counted and its claim is to be
        dropped, and else the pass closes. */
    method Keep(p: nat, ghost pass: Pass) returns (kept: bool, ghost after: Pass)
      requires At(p, pass) && pass.Keeping? && pass.todo != []
      modifies this`states, this`events
      ensures At(p, after) && old(states) <= states
      ensures after == if kept then Dropping(Counted(pass.run, pass.verdict), pass.todo) else Closing(pass.run, pass.todo, true)
    {
      hide JobSafety.IsRun;
      kept := *;
      ghost var s := Now();
      if kept {
        after := Dropping(Counted(pass.run, pass.verdict), pass.todo);
        Record(Event.Keep(p), With(s, p, after).(stored := s.stored + {pass.todo[0]},
                                                 empty := if pass.verdict then s.empty + {pass.todo[0]} else s.empty - {pass.todo[0]}));
      } else {
        after := Closing(pass.run, pass.todo, true);
        Record(StoreFails(p, None), With(s, p, after));
      }
    }

    /** Drops a claim, which gives the file back. */
    method GiveBack(p: nat, f: File, ghost pass: Pass)
      requires At(p, pass) && (pass.Dropping? || pass.Closing?) && pass.todo != [] && pass.todo[0] == f
      modifies this`inHand, this`states, this`events
      ensures At(p, Dropped(pass)) && old(states) <= states
    {
      hide JobSafety.IsRun;
      ghost var s := Now();
      inHand := inHand - {f};
      Record(Drop(p), JobSteps.GivenBack(With(s, p, Dropped(pass)), f));
    }

    /** Decodes `f`, the next file of the pass, and does with it what comes of that. */
    method DecodeOne(p: nat, f: File, r: Report, ghost run: Run, ghost todo: seq<File>)
      returns (r': Report, after: After, ghost run': Run)
      requires At(p, Working(run, [f] + todo)) && !Full(run)
      requires r == Report(run.done, run.failed, run.skipped, run.backedOff) && !r.backedOff
      modifies this
      ensures old(states) <= states && run'.limit == run.limit
      ensures r' == Report(run'.done, run'.failed, run'.skipped, run'.backedOff)
      ensures after.GoesOn? ==> At(p, Working(run', todo)) && !r'.backedOff
      ensures !after.GoesOn? ==> At(p, Closing(run', [f] + todo, after.Errs?))
    {
      hide JobSafety.IsRun, Next, Tracked;
      ghost var pass;
      r', run' := r, run;
      var decoded: Decoded :| true;
      var keeps := true;
      if decoded.Gives? {
        var cleared := Succeeds(p, f, run, todo);
        if !cleared {
          return r', Errs, run';
        }
        pass := Keeping(run, [f] + todo, false);
        r' := r.(done := r.done + 1);
      } else {
        var outcome;
        outcome, pass := Failed(p, decoded.failure, run, f, todo);
        if outcome.None? {
          return r', Errs, run';
        }
        match outcome.value {
          case BackOff =>
            r' := r.(backedOff := true);
            return r', Breaks, pass.run;
          case Skipped =>
            r' := r.(skipped := r.skipped + 1);
            keeps := false;
          case Verdict => r' := r.(failed := r.failed + 1);
        }
      }
      if keeps {
        Others(p, pass);
        var kept;
        kept, pass := Keep(p, pass);
        if !kept {
          return r, Errs, run;
        }
      }
      Others(p, pass);
      run' := pass.run;
      GiveBack(p, f, pass);
      assert ([f] + todo)[1..] == todo;
      after := GoesOn;
    }

    /** A file decoded: the store clears its problem, which may fail, and then it is noted. */
    method Succeeds(p: nat, f: File, ghost run: Run, ghost todo: seq<File>) returns (cleared: bool)
      requires At(p, Working(run, [f] + todo)) && !Full(run)
      modifies this
      ensures old(states) <= states
      ensures At(p, if cleared then Keeping(run, [f] + todo, false) else Closing(run, [f] + todo, true))
    {
      hide JobSafety.IsRun;
      ghost var s := Now();
      SuccessSteps(s, p, f, run, todo);
      hide Next;
      cleared := *;
      if cleared {
        Succeeded(f);
        Record(Event.Succeeds(p), With(s, p, Keeping(run, [f] + todo, false)).(struck := struck, waiting := waiting));
      } else {
        Record(StoreFails(p, None), With(s, p, Closing(run, [f] + todo, true)));
      }
    }

    /** One pass: it decodes what it takes, in order, until `limit` files are decoded or judged, and gives each
        back once done with it. None if the store fails. */
    method RunPass(p: nat, limit: nat) returns (report: Option<Report>, ghost run: Run)
      requires At(p, Idle) && limit <= USIZE_MAX && |inHand| <= USIZE_MAX
      modifies this
      ensures old(states) <= states && run.limit == limit && At(p, Finished(run, report.None?))
      ensures report.Some? ==> report.value == Report(run.done, run.failed, run.skipped, run.backedOff)
    {
      hide JobSafety.IsRun, Next, Tracked;
      var taken;
      taken, run := Take(p, limit);
      if taken.None? {
        return None, run;
      }
      var files := taken.value;
      var r := Report(0, 0, 0, false);
      var after := GoesOn;
      var i := 0;
      ghost var pass := Working(run, files);
      while i < |files| && r.done + r.failed < limit
        invariant i <= |files| && old(states) <= states
        invariant pass == Working(run, files[i..]) && At(p, pass) && run.limit == limit
        invariant r == Report(run.done, run.failed, run.skipped, run.backedOff) && !r.backedOff
        invariant after == GoesOn
      {
        Others(p, pass);
        assert files[i..] == [files[i]] + files[i + 1..];
        r, after, run := DecodeOne(p, files[i], r, run, files[i + 1..]);
        if after != GoesOn {
          break;
        }
        i := i + 1;
        pass := Working(run, files[i..]);
      }
      if after == GoesOn {
        Stops(p, run, files[i..]);
      }
      LetGo(p, files[i..], run, after == Errs);
      report := if after == Errs then None else Some(r);
    }

    ghost method Stops(p: nat, run: Run, todo: seq<File>)
      requires At(p, Working(run, todo)) && (todo == [] || Full(run))
      modifies this`states, this`events
      ensures At(p, Closing(run, todo, false)) && old(states) <= states
    {
      hide JobSafety.IsRun;
      Record(Stop(p), With(Now(), p, Closing(run, todo, false)));
    }

    /** Drops the claims a pass ends with. */
    method LetGo(p: nat, files: seq<File>, ghost run: Run, ghost storeFailed: bool)
      requires At(p, Closing(run, files, storeFailed))
      modifies this
      ensures At(p, Finished(run, storeFailed)) && old(states) <= states
    {
      hide JobSafety.IsRun, Next, Tracked;
      for i := 0 to |files|
        invariant At(p, Closing(run, files[i..], storeFailed)) && old(states) <= states
      {
        ghost var pass := Closing(run, files[i..], storeFailed);
        Others(p, pass);
        GiveBack(p, files[i], pass);
      }
      Ends(p, run, storeFailed);
    }

    ghost method Ends(p: nat, run: Run, storeFailed: bool)
      requires At(p, Closing(run, [], storeFailed))
      modifies this`states, this`events
      ensures At(p, Finished(run, storeFailed)) && old(states) <= states
    {
      hide JobSafety.IsRun;
      Record(Finish(p), With(Now(), p, Finished(run, storeFailed)));
    }
  }

  lemma MayConsider(s: State, p: nat)
    requires IsPass(s, p) && s.passes[p].Taking? && s.passes[p].files != [] && |s.passes[p].taken| < s.passes[p].share
    ensures Next(s, Consider(p), Considered(s, p))
  {
  }

  /** A success noted, and the store's failure to clear a problem, as steps. */
  lemma SuccessSteps(s: State, p: nat, f: File, run: Run, todo: seq<File>)
    requires IsPass(s, p) && s.passes[p] == Working(run, [f] + todo) && !Full(run)
    ensures Next(s, Event.Succeeds(p), With(s, p, Keeping(run, [f] + todo, false)).(struck := s.struck - {f}, waiting := s.waiting - {f}))
    ensures Next(s, StoreFails(p, None), With(s, p, Closing(run, [f] + todo, true)))
  {
    assert ([f] + todo)[0] == f;
  }

  // ---- A failure as a step ----

  predicate DecodesNext(s: State, p: nat, f: File) {
    Decodes(s, p) && s.passes[p].todo[0] == f
  }

  lemma MayBackOff(s: State, p: nat, f: File, failure: Failure)
    requires DecodesNext(s, p, f) && !Condemns(failure, f in s.struck) && !Bars(failure)
    ensures var pass := Closing(s.passes[p].run.(backedOff := true), s.passes[p].todo, false);
      Next(s, BacksOff(p, failure), With(s, p, pass).(struck := StruckAfter(failure, f, s.struck)))
  {
  }

  lemma MayErr(s: State, p: nat, f: File, failure: Failure)
    requires DecodesNext(s, p, f) && (Condemns(failure, f in s.struck) || Bars(failure))
    ensures var pass := Closing(s.passes[p].run, s.passes[p].todo, true);
      Next(s, StoreFails(p, Some(failure)), With(s, p, pass).(struck := StruckAfter(failure, f, s.struck)))
  {
  }

  lemma MaySkip(s: State, p: nat, f: File, failure: Failure)
    requires DecodesNext(s, p, f) && Bars(failure)
    ensures StruckAfter(failure, f, s.struck) == s.struck
    ensures var run := s.passes[p].run;
      Next(s, Unopenable(p, failure), With(s, p, Dropping(run.(skipped := run.skipped + 1), s.passes[p].todo))
                                        .(waiting := s.waiting[f := s.clock + s.retryAfter]))
  {
  }

  lemma MayJudge(s: State, p: nat, f: File, failure: Failure)
    requires DecodesNext(s, p, f) && Condemns(failure, f in s.struck)
    ensures var pass := Keeping(s.passes[p].run, s.passes[p].todo, true);
      Next(s, Judged(p, failure), With(s, p, pass).(struck := StruckAfter(failure, f, s.struck), waiting := s.waiting - {f}))
  {
  }

  ghost predicate JustTook(run: Run, limit: nat, taken: nat) {
    run.limit == limit && run.took == taken && run.done == run.failed == run.skipped == 0 && !run.backedOff
  }
}
