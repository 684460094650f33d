/** What passes of a job keep, however their steps interleave (crates/scanner/src/jobs.rs:139-225). */
module JobSafety {
  import opened Wrappers
  import opened Sequences
  import opened JobSteps

  // ---- Each step keeps the invariant ----

  lemma InitialWell(s: State)
    requires Initial(s)
    ensures Inv(s)
  {
  }

  /** A pass that does not move keeps well if what it reads of the rest does not change under it. */
  lemma OthersKeep(s: State, s': State, q: nat)
    requires IsPass(s, q) && IsPass(s', q) && s.passes[q] == s'.passes[q] && PassInv(s, q)
    requires forall f :: f in s.inHand && s.inHand[f] == q ==> f in s'.inHand && s'.inHand[f] == q
    requires forall f :: f in s'.stored ==> f in s.stored || (f in s.inHand && s.inHand[f] != q)
    requires s.passes[q].Taking? ==> s'.inHand.Keys == s.inHand.Keys
    requires s.passes[q].Taking? ==> s'.waiting.Keys <= s.waiting.Keys + (set f | f in s.inHand && s.inHand[f] != q)
    ensures PassInv(s', q)
  {
    var t := s.passes[q];
    if t.Taking? {
      forall f | f in s.inHand && s.inHand[f] != q ensures f in t.held {
        assert f in t.held + (set g | g in t.taken);
      }
      forall f | f in t.files && f in s'.stored ensures f in t.held {
      }
    }
  }

  /** What one step of a pass does to the rest. */
  ghost predicate Yields(s: State, s': State, p: nat) {
    && |s'.passes| == |s.passes| && IsPass(s, p)
    && (forall q :: 0 <= q < |s.passes| && q != p ==> s'.passes[q] == s.passes[q])
    && (forall f :: f in s.inHand && s.inHand[f] != p ==> f in s'.inHand && s'.inHand[f] == s.inHand[f])
    && (forall f :: f in s'.stored ==> f in s.stored || (f in s.inHand && s.inHand[f] == p))
    && (s.lock.Some? && s.lock != Some(p) ==>
          && s'.inHand.Keys == s.inHand.Keys
          && s'.waiting.Keys <= s.waiting.Keys + (set f | f in s.inHand && s.inHand[f] == p))
  }

  /** So the others keep well, and the step has to look after its own pass only. */
  lemma YieldingKeeps(s: State, s': State, p: nat)
    requires Inv(s) && Yields(s, s', p)
    requires LockHeld(s') && AllClaimed(s') && PassInv(s', p)
    ensures Inv(s')
  {
    forall q | 0 <= q < |s'.passes| ensures PassInv(s', q) {
      if q != p {
        assert PassInv(s, q);
        hide PassInv;
        OthersKeep(s, s', q);
      }
    }
  }

  /** Files in hand stay claimed if the others' stay in their hands and the pass claims the rest. */
  lemma StaysClaimed(s: State, s': State, p: nat)
    requires AllClaimed(s) && IsPass(s, p) && |s'.passes| == |s.passes|
    requires forall q :: 0 <= q < |s.passes| && q != p ==> s'.passes[q] == s.passes[q]
    requires forall f :: f in s'.inHand ==>
      (s'.inHand[f] == p && f in Claims(s'.passes[p])) || (f in s.inHand && s.inHand[f] != p && s'.inHand[f] == s.inHand[f])
    ensures AllClaimed(s')
  {
  }

  lemma BeginKeeps(s: State, s': State, p: nat, limit: nat, files: seq<File>)
    requires Inv(s) && Next(s, Begin(p, limit, files), s')
    ensures Inv(s')
  {
    hide FetchSize;
    assert PassInv(s, p);
    StartsWell(s, s', p, limit, files);
    StaysClaimed(s, s', p) by { NoneOfIdle(s, p); }
    hide AllClaimed, Fetched, PassInv, OwnClaims, NoneStored, TakesWell;
    YieldingKeeps(s, s', p);
  }

  lemma StartsWell(s: State, s': State, p: nat, limit: nat, files: seq<File>)
    requires Next(s, Begin(p, limit, files), s')
    ensures PassInv(s', p)
  {
    StartsSifting(s, s', p, limit, files);
    assert IsPass(s', p) && s'.passes[p] == Starting(s, limit, files) && |s.inHand| <= USIZE_MAX;
    assert |files| <= FetchSize(limit, |s.inHand|, |StillWaiting(s.waiting, s.clock)|);
    hide Next, FetchSize, SiftsWell;
    assert SharesWell(s'.passes[p]);
    hide SharesWell, Fetched;
    assert OwnClaims(s', p) && NoneStored(s', p);
  }

  lemma StartsSifting(s: State, s': State, p: nat, limit: nat, files: seq<File>)
    requires Next(s, Begin(p, limit, files), s')
    ensures SiftsWell(s'.passes[p], s'.inHand.Keys, s'.waiting.Keys, s'.stored)
  {
    hide FetchSize;
    var t := s'.passes[p];
    assert t.held + (set f | f in t.taken) == t.held;
  }

  lemma NoneOfIdle(s: State, p: nat)
    requires AllClaimed(s) && IsPass(s, p) && Claims(s.passes[p]) == []
    ensures forall f :: f in s.inHand ==> s.inHand[f] != p
  {
  }

  /** A file looked at is passed over, being in another hand or waiting. */
  lemma PassesOver(t: Pass, inHand: set<File>, waiting: set<File>, stored: set<File>)
    requires t.Taking? && t.files != [] && SharesWell(t) && SiftsWell(t, inHand, waiting, stored)
    requires t.files[0] in inHand + waiting
    ensures var t' := t.(files := t.files[1..], passed := t.passed + {t.files[0]});
      SharesWell(t') && SiftsWell(t', inHand, waiting, stored)
  {
    var f := t.files[0];
    assert f in t.files;
    assert f in t.held + t.waits;
    assert |t.passed + {f}| == |t.passed| + 1;
    assert forall g :: g in t.files[1..] ==> g in t.files && g != f;
  }

  /** Or taken. */
  lemma Takes(t: Pass, inHand: set<File>, waiting: set<File>, stored: set<File>)
    requires t.Taking? && t.files != [] && SharesWell(t) && SiftsWell(t, inHand, waiting, stored)
    requires |t.taken| < t.share
    ensures var t' := t.(files := t.files[1..], taken := t.taken + [t.files[0]]);
      SharesWell(t') && SiftsWell(t', inHand + {t.files[0]}, waiting, stored)
  {
    var f := t.files[0];
    assert (set g | g in t.taken + [f]) == (set g | g in t.taken) + {f};
    assert forall g :: g in t.files[1..] ==> g in t.files && g != f;
  }

  lemma ConsiderKeeps(s: State, s': State, p: nat)
    requires Inv(s) && Next(s, Consider(p), s')
    ensures Inv(s')
  {
    hide LockHeld, PassInv, AllClaimed;
    if Waits(s, s.passes[p].files[0]) || s.passes[p].files[0] in s.inHand {
      ConsiderPasses(s, s', p);
    } else {
      ConsiderTakes(s, s', p);
    }
  }

  lemma ConsiderPasses(s: State, s': State, p: nat)
    requires Inv(s) && IsPass(s, p) && s.passes[p].Taking? && s.passes[p].files != []
    requires s' == Considered(s, p) && (Waits(s, s.passes[p].files[0]) || s.passes[p].files[0] in s.inHand)
    ensures Inv(s')
  {
    hide SharesWell, SiftsWell, OwnClaims, NoneStored, AllClaimed;
    assert PassInv(s, p);
    PassesOver(s.passes[p], s.inHand.Keys, s.waiting.Keys, s.stored);
    SameButLock(s, s', p);
    assert PassInv(s', p);
    hide PassInv;
    YieldingKeeps(s, s', p);
  }

  lemma ConsiderTakes(s: State, s': State, p: nat)
    requires Inv(s) && IsPass(s, p) && s.passes[p].Taking? && s.passes[p].files != [] && |s.passes[p].taken| < s.passes[p].share
    requires s.passes[p].files[0] !in s.inHand && s' == Considered(s, p) && !Waits(s, s.passes[p].files[0])
    ensures Inv(s')
  {
    hide SharesWell, SiftsWell, OwnClaims, NoneStored, AllClaimed;
    assert PassInv(s, p);
    FreeFile(s, p);
    Takes(s.passes[p], s.inHand.Keys, s.waiting.Keys, s.stored);
    TakenClaimed(s, s', p);
    TakenWell(s, s', p);
    hide PassInv;
    YieldingKeeps(s, s', p);
  }

  lemma TakenWell(s: State, s': State, p: nat)
    requires IsPass(s, p) && s.passes[p].Taking? && s.passes[p].files != []
    requires s.passes[p].files[0] !in s.inHand && s' == Considered(s, p) && !Waits(s, s.passes[p].files[0])
    requires SharesWell(s'.passes[p])
    requires SiftsWell(s'.passes[p], s.inHand.Keys + {s.passes[p].files[0]}, s.waiting.Keys, s.stored)
    requires OwnClaims(s', p) && NoneStored(s', p)
    ensures PassInv(s', p)
  {
    hide SharesWell, SiftsWell, OwnClaims, NoneStored;
    assert s'.inHand.Keys == s.inHand.Keys + {s.passes[p].files[0]};
  }

  lemma FreeFile(s: State, p: nat)
    requires IsPass(s, p) && s.passes[p].Taking? && s.passes[p].files != [] && s.passes[p].files[0] !in s.inHand
    requires SiftsWell(s.passes[p], s.inHand.Keys, s.waiting.Keys, s.stored)
    ensures s.passes[p].files[0] !in s.stored
  {
    var t := s.passes[p];
    assert t.files[0] in t.files;
    assert t.files[0] !in t.held + (set f | f in t.taken);
  }

  lemma TakenClaimed(s: State, s': State, p: nat)
    requires AllClaimed(s) && IsPass(s, p) && OwnClaims(s, p) && NoneStored(s, p)
    requires s.passes[p].Taking? && s.passes[p].files != [] && !Waits(s, s.passes[p].files[0])
    requires s.passes[p].files[0] !in s.inHand && s.passes[p].files[0] !in s.stored && s' == Considered(s, p)
    ensures AllClaimed(s') && OwnClaims(s', p) && NoneStored(s', p)
  {
    var (t, t') := (s.passes[p], s'.passes[p]);
    var f := t.files[0];
    assert t'.taken == t.taken + [f] && t'.taken[|t.taken|] == f;
    assert forall g :: g in t'.taken ==> g == f || g in t.taken;
    StaysClaimed(s, s', p);
  }

  lemma EndTakeKeeps(s: State, s': State, p: nat)
    requires Inv(s) && Next(s, EndTake(p), s')
    ensures Inv(s')
  {
    hide OwnClaims, NoneStored, AllClaimed, FetchSize, SiftsWell;
    assert PassInv(s, p);
    EndsTaking(s, s', p);
    hide SharesWell;
    SameButLock(s, s', p);
    assert PassInv(s', p);
    hide PassInv;
    YieldingKeeps(s, s', p);
  }

  lemma EndsTaking(s: State, s': State, p: nat)
    requires Next(s, EndTake(p), s') && SharesWell(s.passes[p])
    ensures CountsWell(s'.passes[p])
  {
    hide FetchSize;
    if s.passes[p].full {
      TakesEnough(s.passes[p]);
    }
  }

  lemma SameButLock(s: State, s': State, p: nat)
    requires AllClaimed(s) && IsPass(s, p) && OwnClaims(s, p) && NoneStored(s, p)
    requires s' == s.(passes := s'.passes, lock := s'.lock) && |s'.passes| == |s.passes|
    requires forall q :: 0 <= q < |s.passes| && q != p ==> s'.passes[q] == s.passes[q]
    requires Claims(s'.passes[p]) == Claims(s.passes[p]) && Undecoded(s'.passes[p]) == Undecoded(s.passes[p])
    ensures AllClaimed(s') && OwnClaims(s', p) && NoneStored(s', p)
  {
  }

  /** What is passed over is in other hands or waiting, so a full fetch leaves enough to take. */
  lemma TakesEnough(t: Pass)
    requires t.Taking? && SharesWell(t) && t.full && (t.files == [] || |t.taken| == t.share)
    ensures |t.taken| >= FetchSize(t.limit, |t.held|, |t.waits|) - |t.held| - |t.waits|
  {
    CardinalityOfSum(t.passed, t.held, t.waits);
  }

  lemma CardinalityOfSum(a: set<File>, b: set<File>, c: set<File>)
    requires a <= b + c
    ensures |a| <= |b| + |c|
  {
    assert a == (a * b) + (a - b);
    Smaller(a * b, b);
    Smaller(a - b, c);
  }

  lemma {:induction false} Smaller(a: set<File>, b: set<File>)
    requires a <= b
    ensures |a| <= |b|
  {
    if f :| f in a {
      Smaller(a - {f}, b - {f});
    }
  }

  /** A step of a pass that has its files, in which it moves on, drops none and takes none. */
  ghost predicate Moves(s: State, s': State, p: nat) {
    && IsPass(s, p) && |s'.passes| == |s.passes| && s'.passes == s.passes[p := s'.passes[p]]
    && !s.passes[p].Taking? && !s'.passes[p].Taking?
    && s'.lock == s.lock && s'.inHand == s.inHand
    && Claims(s'.passes[p]) == Claims(s.passes[p])
    && s'.waiting.Keys <= s.waiting.Keys + (set f | f in Claims(s.passes[p]))
  }

  lemma MovingKeeps(s: State, s': State, p: nat)
    requires Inv(s) && Moves(s, s', p)
    requires CountsWell(s.passes[p]) ==> CountsWell(s'.passes[p])
    requires forall f :: f in s'.stored ==> f in s.stored || f in Claims(s.passes[p])
    requires NoneStored(s, p) ==> NoneStored(s', p)
    ensures Inv(s')
  {
    assert PassInv(s, p);
    YieldingKeeps(s, s', p);
  }

  lemma DecodedKeeps(s: State, e: Event, s': State)
    requires Inv(s) && Next(s, e, s')
    requires e.Succeeds? || e.Judged? || e.Unopenable? || e.BacksOff?
    ensures Inv(s')
  {
    hide AllClaimed, OwnClaims, TakesWell, PassInv, NoneStored, LockHeld;
    SameUndecoded(s, e, s');
    CountsOn(s, e, s');
    MovesOn(s, e, s');
    hide CountsWell, Moves;
    MovingKeeps(s, s', e.p);
  }

  lemma CountsOn(s: State, e: Event, s': State)
    requires Next(s, e, s') && (e.Succeeds? || e.Judged? || e.Unopenable? || e.BacksOff?)
    ensures CountsWell(s.passes[e.p]) ==> CountsWell(s'.passes[e.p])
  {
    hide FetchSize;
  }

  lemma MovesOn(s: State, e: Event, s': State)
    requires Next(s, e, s') && (e.Succeeds? || e.Judged? || e.Unopenable? || e.BacksOff?)
    ensures Moves(s, s', e.p) && s'.stored == s.stored
  {
    assert s.passes[e.p].todo[0] in Claims(s.passes[e.p]);
  }

  lemma SameUndecoded(s: State, e: Event, s': State)
    requires Next(s, e, s')
    requires e.Succeeds? || e.Judged? || e.Unopenable? || e.BacksOff?
    ensures NoneStored(s, e.p) ==> NoneStored(s', e.p)
  {
    var todo := s.passes[e.p].todo;
    assert forall f :: f in todo[1..] ==> f in todo;
  }

  lemma EndedKeeps(s: State, e: Event, s': State)
    requires Inv(s) && Next(s, e, s')
    requires e.FetchFails? || e.StoreFails? || e.Stop? || e.Finish?
    ensures Inv(s')
  {
    hide AllClaimed, OwnClaims, TakesWell, PassInv, LockHeld;
    MovingKeeps(s, s', e.p);
  }

  lemma KeepKeeps(s: State, s': State, p: nat)
    requires Inv(s) && Next(s, Keep(p), s')
    ensures Inv(s')
  {
    KeptUndecoded(s, s', p);
    hide AllClaimed, OwnClaims, TakesWell, PassInv, NoneStored, LockHeld;
    assert s.passes[p].todo[0] in Claims(s.passes[p]);
    MovingKeeps(s, s', p);
  }

  lemma KeptUndecoded(s: State, s': State, p: nat)
    requires Inv(s) && Next(s, Keep(p), s')
    ensures NoneStored(s', p)
  {
    hide AllClaimed, TakesWell, LockHeld;
    assert PassInv(s, p);
    var todo := s.passes[p].todo;
    forall f | f in todo[1..] ensures f !in s'.stored {
      assert f in todo && f != todo[0];
    }
  }

  lemma DropKeeps(s: State, s': State, p: nat)
    requires Inv(s) && Next(s, Drop(p), s')
    ensures Inv(s')
  {
    assert PassInv(s, p);
    DropLeaves(s, s', p);
    hide AllClaimed, OwnClaims, NoneStored;
    assert PassInv(s', p);
    hide PassInv;
    YieldingKeeps(s, s', p);
  }

  lemma DropLeaves(s: State, s': State, p: nat)
    requires AllClaimed(s) && IsPass(s, p) && OwnClaims(s, p) && NoneStored(s, p) && Drops(s, p) && s.lock.None?
    requires s' == GivenBack(With(s, p, Dropped(s.passes[p])), s.passes[p].todo[0])
    ensures AllClaimed(s') && OwnClaims(s', p) && NoneStored(s', p) && Yields(s, s', p)
  {
    var todo := s.passes[p].todo;
    assert todo[0] in Claims(s.passes[p]);
    assert forall g :: g in todo[1..] <==> g in todo && g != todo[0];
    StaysClaimed(s, s', p);
  }

  lemma StepKeeps(s: State, e: Event, s': State)
    requires Inv(s) && Next(s, e, s')
    ensures Inv(s')
  {
    match e
    case Tick(ms) => ForgetKeeps(s, s');
    case Forget(f) => ForgetKeeps(s, s');
    case Begin(p, limit, files) => BeginKeeps(s, s', p, limit, files);
    case Consider(p) => ConsiderKeeps(s, s', p);
    case EndTake(p) => EndTakeKeeps(s, s', p);
    case Keep(p) => KeepKeeps(s, s', p);
    case Drop(p) => DropKeeps(s, s', p);
    case FetchFails(_, _) => EndedKeeps(s, e, s');
    case StoreFails(_, _) => EndedKeeps(s, e, s');
    case Stop(_) => EndedKeeps(s, e, s');
    case Finish(_) => EndedKeeps(s, e, s');
    case _ => DecodedKeeps(s, e, s');
  }

  lemma ForgetKeeps(s: State, s': State)
    requires Inv(s) && s'.stored <= s.stored && s' == s.(clock := s'.clock, stored := s'.stored, empty := s'.empty)
    ensures Inv(s')
  {
    forall q | 0 <= q < |s'.passes| ensures PassInv(s', q) {
      assert PassInv(s, q);
      OthersKeep(s, s', q);
    }
  }

  // ---- Whole runs ----

  ghost predicate IsRun(states: seq<State>, events: seq<Event>) {
    && |states| == |events| + 1
    && Initial(states[0])
    && forall k :: 0 <= k < |events| ==> Next(states[k], events[k], states[k + 1])
  }

  lemma {:induction false} RunKeeps(states: seq<State>, events: seq<Event>, k: nat)
    requires IsRun(states, events) && k < |states|
    ensures Inv(states[k])
  {
    hide Inv, Next;
    if k == 0 {
      InitialWell(states[0]);
    } else {
      RunKeeps(states, events, k - 1);
      StepKeeps(states[k - 1], events[k - 1], states[k]);
    }
  }

  /** In hand are exactly the files of live claims, and no two claims are of one file. */
  lemma InHandIsClaimed(states: seq<State>, events: seq<Event>, k: nat)
    requires IsRun(states, events) && k < |states|
    ensures var s := states[k];
      && (forall f :: f in s.inHand <==> exists p :: 0 <= p < |s.passes| && f in Claims(s.passes[p]))
      && (forall p :: 0 <= p < |s.passes| ==> Distinct(Claims(s.passes[p])))
      && (forall p, q, f :: 0 <= p < |s.passes| && 0 <= q < |s.passes| && p != q && f in Claims(s.passes[p]) ==>
            f !in Claims(s.passes[q]))
  {
    RunKeeps(states, events, k);
    var s := states[k];
    forall p | 0 <= p < |s.passes|
      ensures Distinct(Claims(s.passes[p])) && forall f :: f in Claims(s.passes[p]) ==> f in s.inHand && s.inHand[f] == p
    {
      assert PassInv(s, p);
    }
  }

  /** What a pass decodes has no result, and no other pass has it in hand. */
  lemma DecodesUndecoded(states: seq<State>, events: seq<Event>, k: nat, p: nat)
    requires IsRun(states, events) && k < |states| && Decodes(states[k], p)
    ensures var (s, f) := (states[k], states[k].passes[p].todo[0]);
      f !in s.stored && forall q :: 0 <= q < |s.passes| && q != p ==> f !in Claims(s.passes[q])
  {
    RunKeeps(states, events, k);
    var s := states[k];
    assert PassInv(s, p);
    assert s.passes[p].todo[0] in Claims(s.passes[p]);
    InHandIsClaimed(states, events, k);
  }

  /** What is stored is stored after, unless forgotten between. */
  lemma {:induction false} StoredStays(states: seq<State>, events: seq<Event>, f: File, j: nat, k: nat)
    requires IsRun(states, events) && j <= k < |states| && f in states[j].stored
    requires forall i :: j <= i < k ==> events[i] != Forget(f)
    ensures f in states[k].stored
  {
    if j < k {
      StoredStays(states, events, f, j, k - 1);
      assert events[k - 1] != Forget(f);
      assert Next(states[k - 1], events[k - 1], states[k]);
    }
  }

  /** Once a pass has kept a file's result, no pass decodes the file again, unless it is forgotten. */
  lemma DecodedOnce(states: seq<State>, events: seq<Event>, j: nat, k: nat, p: nat)
    requires IsRun(states, events) && j < k < |states|
    requires events[j].Keep? && Decodes(states[k], p)
    requires Keeps(states[j], events[j].p)
    requires forall i :: j < i < k ==> events[i] != Forget(states[j].passes[events[j].p].todo[0])
    ensures states[k].passes[p].todo[0] != states[j].passes[events[j].p].todo[0]
  {
    assert Next(states[j], events[j], states[j + 1]);
    var f := states[j].passes[events[j].p].todo[0];
    StoredStays(states, events, f, j + 1, k);
    DecodesUndecoded(states, events, k, p);
  }

  /** No pass decodes and judges more than its limit. */
  lemma WithinLimit(states: seq<State>, events: seq<Event>, k: nat, p: nat)
    requires IsRun(states, events) && k < |states| && IsPass(states[k], p)
    requires states[k].passes[p].Working? || states[k].passes[p].Keeping? || states[k].passes[p].Dropping?
      || states[k].passes[p].Closing? || states[k].passes[p].Finished?
    ensures var run := states[k].passes[p].run;
      run.done + run.failed <= run.limit && run.done + run.failed + run.skipped <= run.took
  {
    RunKeeps(states, events, k);
    assert PassInv(states[k], p);
  }

  /** A pass the store had enough files for took its limit and as many again as were waiting, if the count it
      fetched for is one a `usize` holds. */
  lemma TookLimitAndWaiting(states: seq<State>, events: seq<Event>, k: nat, p: nat)
    requires IsRun(states, events) && k < |states| && IsPass(states[k], p)
    requires states[k].passes[p].Working? || states[k].passes[p].Closing? || states[k].passes[p].Finished?
    requires var run := states[k].passes[p].run;
      run.full && run.limit + run.held + 2 * run.waiting <= USIZE_MAX
    ensures var run := states[k].passes[p].run; run.took >= run.limit + run.waiting
  {
    RunKeeps(states, events, k);
    assert PassInv(states[k], p);
  }

  /** Such a pass decodes and judges its whole limit, unless it backs off, the store fails, or more files
      prove unopenable than were waiting as it began. */
  lemma DoesWholeLimit(states: seq<State>, events: seq<Event>, k: nat, p: nat)
    requires IsRun(states, events) && k < |states| && IsPass(states[k], p) && states[k].passes[p].Finished?
    requires var run := states[k].passes[p].run;
      run.full && run.limit + run.held + 2 * run.waiting <= USIZE_MAX && !run.backedOff && run.skipped <= run.waiting
    requires !states[k].passes[p].storeFailed
    ensures var run := states[k].passes[p].run; run.done + run.failed == run.limit
  {
    RunKeeps(states, events, k);
    assert PassInv(states[k], p);
  }

  // ---- Verdicts on attempts ----

  /** The event is a failed attempt that strikes `f`. */
  predicate Strikes(s: State, e: Event, f: File) {
    e.BacksOff? && e.failure.cause.Attempt? && e.failure.answers && Decodes(s, e.p) && s.passes[e.p].todo[0] == f
  }

  /** The event is a success of `f`. */
  predicate Clears(s: State, e: Event, f: File) {
    e.Succeeds? && Decodes(s, e.p) && s.passes[e.p].todo[0] == f
  }

  /** A struck file failed before, and has not decoded since. */
  lemma {:induction false} StruckBefore(states: seq<State>, events: seq<Event>, k: nat, f: File) returns (j: nat)
    requires IsRun(states, events) && k < |states| && f in states[k].struck
    ensures j < k && Strikes(states[j], events[j], f)
    ensures forall i :: j < i < k ==> !Clears(states[i], events[i], f)
  {
    var e := events[k - 1];
    assert Next(states[k - 1], e, states[k]);
    if Strikes(states[k - 1], e, f) {
      j := k - 1;
    } else {
      j := StruckBefore(states, events, k - 1, f);
    }
  }

  /** So a verdict on an attempt comes only after a strike, with no success between the two. */
  lemma JudgedTwice(states: seq<State>, events: seq<Event>, k: nat) returns (j: nat)
    requires IsRun(states, events) && k < |events| && events[k].Judged? && events[k].failure.cause.Attempt? && Decodes(states[k], events[k].p)
    ensures var f := states[k].passes[events[k].p].todo[0];
      j < k && Strikes(states[j], events[j], f) && forall i :: j < i < k ==> !Clears(states[i], events[i], f)
  {
    assert Next(states[k], events[k], states[k + 1]);
    j := StruckBefore(states, events, k, states[k].passes[events[k].p].todo[0]);
  }

  // ---- Files that do not open ----

  /** Before `until` the file waits, and no pass has it to decode. */
  ghost predicate HeldBack(s: State, f: File, until: int) {
    s.clock < until ==>
      && f in s.waiting && s.waiting[f] >= until
      && forall p :: 0 <= p < |s.passes| ==> f !in Undecoded(s.passes[p])
  }

  lemma StepHoldsBack(s: State, e: Event, s': State, f: File, until: int)
    requires HeldBack(s, f, until) && Next(s, e, s')
    ensures HeldBack(s', f, until)
  {
    if s'.clock < until && !e.Tick? && !e.Forget? {
      assert s.clock < until;
      assert f !in Undecoded(s.passes[e.p]);
      PassHoldsBack(s, e, s', f, until);
    }
  }

  lemma PassHoldsBack(s: State, e: Event, s': State, f: File, until: int)
    requires HeldBack(s, f, until) && Next(s, e, s') && s.clock < until && !e.Tick? && !e.Forget?
    ensures IsPass(s', e.p) && f !in Undecoded(s'.passes[e.p]) && f in s'.waiting && s'.waiting[f] >= until
    ensures forall q :: 0 <= q < |s'.passes| && q != e.p ==> q < |s.passes| && s'.passes[q] == s.passes[q]
  {
    hide Fetched, FetchSize;
    assert IsPass(s, e.p) && f !in Undecoded(s.passes[e.p]);
    if s.passes[e.p].Working? && s.passes[e.p].todo != [] {
      assert s.passes[e.p].todo[0] in Undecoded(s.passes[e.p]);
    }
  }

  lemma {:induction false} RunHoldsBack(states: seq<State>, events: seq<Event>, j: nat, k: nat, f: File, until: int)
    requires IsRun(states, events) && j <= k < |states| && HeldBack(states[j], f, until)
    ensures HeldBack(states[k], f, until)
  {
    hide HeldBack, Next;
    if j < k {
      RunHoldsBack(states, events, j, k - 1, f, until);
      StepHoldsBack(states[k - 1], events[k - 1], states[k], f, until);
    }
  }

  /** From a file's failure to open until its wait is over no pass decodes it. */
  lemma NotTriedEarly(states: seq<State>, events: seq<Event>, j: nat, k: nat, p: nat)
    requires IsRun(states, events) && j < k < |states| && events[j].Unopenable? && Decodes(states[j], events[j].p)
    requires Decodes(states[k], p) && states[k].passes[p].todo[0] == states[j].passes[events[j].p].todo[0]
    ensures states[k].clock >= states[j].clock + states[j].retryAfter
  {
    var (s, q) := (states[j], events[j].p);
    var (f, until) := (s.passes[q].todo[0], s.clock + s.retryAfter);
    assert Next(s, events[j], states[j + 1]);
    RunKeeps(states, events, j);
    UnopenableHeldBack(s, q, events[j].failure, states[j + 1]);
    RunHoldsBack(states, events, j + 1, k, f, until);
    assert states[k].passes[p].todo[0] in Undecoded(states[k].passes[p]);
  }

  lemma UnopenableHeldBack(s: State, q: nat, failure: Failure, s': State)
    requires Inv(s) && Next(s, Unopenable(q, failure), s')
    ensures HeldBack(s', s.passes[q].todo[0], s.clock + s.retryAfter)
  {
    var (f, todo) := (s.passes[q].todo[0], s.passes[q].todo);
    assert PassInv(s, q);
    assert f in Claims(s.passes[q]);
    forall p | 0 <= p < |s'.passes| ensures f !in Undecoded(s'.passes[p]) {
      assert PassInv(s, p);
      if p == q {
        assert forall g :: g in todo[1..] ==> g != f;
      }
    }
  }
}
