/** Passes of a background job side by side, as steps (crates/scanner/src/jobs.rs:101-296): a pass takes files under the
    lock of those in hand and gives each back under it; what it decodes it stores without that lock. */
module JobSteps {
  import opened Wrappers
  import opened Sequences

  type File = nat

  const USIZE_MAX: nat := 0xFFFF_FFFF_FFFF_FFFF

  function SaturatingAdd(a: nat, b: nat): nat {
    if a + b > USIZE_MAX then USIZE_MAX else a + b
  }

  function SaturatingDouble(a: nat): nat {
    SaturatingAdd(a, a)
  }

  /** The size of a fetch: the limit and the files in hand, and every waiting one twice, as far as a `usize` goes. */
  function FetchSize(limit: nat, inHand: nat, waiting: nat): (r: nat)
    ensures inHand <= USIZE_MAX ==> inHand <= r
  {
    SaturatingAdd(SaturatingAdd(limit, inHand), SaturatingDouble(waiting))
  }

  /** What a pass has done, of the `took` files it took; `held` were in other hands and `waiting` waiting as
      it fetched, and `full` is whether the store had as many files as it fetched for. */
  datatype Run = Run(limit: nat, held: nat, waiting: nat, full: bool, took: nat,
                     done: nat, failed: nat, skipped: nat, backedOff: bool)

  function NoRun(limit: nat): Run {
    Run(limit, 0, 0, false, 0, 0, 0, 0, false)
  }

  datatype Pass =
    | Idle
    // Holding the lock: `files` are still to be looked at, `passed` were not free, and `held` and `waits`
    // were in hand and waiting as it fetched.
    | Taking(limit: nat, share: nat, fetched: nat, full: bool, files: seq<File>, taken: seq<File>,
             passed: set<File>, held: set<File>, waits: set<File>)
    | Working(run: Run, todo: seq<File>)
    | Keeping(run: Run, todo: seq<File>, verdict: bool)
    | Dropping(run: Run, todo: seq<File>)
    | Closing(run: Run, todo: seq<File>, storeFailed: bool)
    | Finished(run: Run, storeFailed: bool)

  /** `inHand` gives for each file in hand the pass whose claim it is; `stored` are the files with a result, and
      `empty` those whose result is an empty one. */
  datatype State = State(
    clock: int, retryAfter: nat, lock: Option<nat>, inHand: map<File, nat>, waiting: map<File, int>,
    struck: set<File>, stored: set<File>, empty: set<File>, passes: seq<Pass>)

  /** Where a decode failed: the file did not open, its content was rejected, this attempt broke off, or no decoder
      could run. */
  datatype Cause = Opening | Content | Attempt | Host

  /** A failed decode, and whether after it the file opens, and its root answers. */
  datatype Failure = Failure(cause: Cause, opens: bool, answers: bool)

  datatype Event =
    | Tick(ms: nat)
    // A file's result goes, as when the file changes.
    | Forget(f: File)
    | Begin(p: nat, limit: nat, files: seq<File>)
    // The store has no answer for the fetch.
    | FetchFails(p: nat, limit: nat)
    | Consider(p: nat)
    | EndTake(p: nat)
    | Succeeds(p: nat)
    | Judged(p: nat, failure: Failure)
    | Unopenable(p: nat, failure: Failure)
    | BacksOff(p: nat, failure: Failure)
    // The store fails, on the problem of a failed decode or else.
    | StoreFails(p: nat, problem: Option<Failure>)
    | Keep(p: nat)
    | Drop(p: nat)
    | Stop(p: nat)
    | Finish(p: nat)

  /** The files a pass has claimed. */
  function Claims(pass: Pass): seq<File> {
    match pass
    case Idle => []
    case Taking(_, _, _, _, _, taken, _, _, _) => taken
    case Working(_, todo) => todo
    case Keeping(_, todo, _) => todo
    case Dropping(_, todo) => todo
    case Closing(_, todo, _) => todo
    case Finished(_, _) => []
  }

  predicate IsPass(s: State, p: nat) {
    p < |s.passes|
  }

  function With(s: State, p: nat, pass: Pass): State
    requires IsPass(s, p)
  {
    s.(passes := s.passes[p := pass])
  }

  /** The waiting files whose wait is not over. */
  function StillWaiting(waiting: map<File, int>, now: int): map<File, int> {
    map f | f in waiting && waiting[f] > now :: waiting[f]
  }

  predicate Waits(s: State, f: File) {
    f in s.waiting && s.clock < s.waiting[f]
  }

  /** What a store answers when asked for `size` files to decode: that many at most, each once, and none with
      a result. */
  ghost predicate Fetched(s: State, size: nat, files: seq<File>) {
    |files| <= size && Distinct(files) && forall f :: f in files ==> f !in s.stored
  }

  /** A pass that has fetched and looked at nothing yet: its share is the size of the fetch less what others hold. */
  function Starting(s: State, limit: nat, files: seq<File>): Pass
    requires |s.inHand| <= USIZE_MAX
  {
    var waiting := StillWaiting(s.waiting, s.clock);
    var size := FetchSize(limit, |s.inHand|, |waiting|);
    Taking(limit, size - |s.inHand|, |files|, |files| == size, files, [], {}, s.inHand.Keys, waiting.Keys)
  }

  /** The next file looked at: taken if it is neither waiting nor in hand. */
  function Considered(s: State, p: nat): State
    requires IsPass(s, p) && s.passes[p].Taking? && s.passes[p].files != []
  {
    var pass := s.passes[p];
    var f := pass.files[0];
    if Waits(s, f) || f in s.inHand then
      With(s, p, pass.(files := pass.files[1..], passed := pass.passed + {f}))
    else
      With(s, p, pass.(files := pass.files[1..], taken := pass.taken + [f])).(inHand := s.inHand[f := p])
  }

  /** The pass without the claim it drops. */
  function Dropped(pass: Pass): Pass
    requires (pass.Dropping? || pass.Closing?) && pass.todo != []
  {
    match pass
    case Dropping(run, todo) => Working(run, todo[1..])
    case Closing(run, todo, storeFailed) => Closing(run, todo[1..], storeFailed)
  }

  /** A claim is dropped, and its file given back. */
  function GivenBack(s: State, f: File): State {
    s.(inHand := s.inHand - {f})
  }

  /** The run with one more file judged, or decoded. */
  function Counted(run: Run, verdict: bool): Run {
    if verdict then run.(failed := run.failed + 1) else run.(done := run.done + 1)
  }

  predicate Full(run: Run) {
    run.done + run.failed >= run.limit
  }

  /** Whether a failure is the file's own, which was struck before or not. */
  predicate Condemns(failure: Failure, struck: bool) {
    match failure.cause
    case Content => failure.opens
    case Attempt => failure.answers && struck
    case _ => false
  }

  /** Whether it is that a file within reach does not open. */
  predicate Bars(failure: Failure) {
    failure.answers && (failure.cause.Opening? || (failure.cause.Content? && !failure.opens))
  }

  /** An attempt within reach strikes a file, or clears the strike it finds. */
  function StruckAfter(failure: Failure, f: File, struck: set<File>): set<File> {
    if !failure.cause.Attempt? || !failure.answers then struck
    else if f in struck then struck - {f}
    else struck + {f}
  }

  ghost predicate Next(s: State, e: Event, s': State) {
    match e
    case Tick(ms) => s' == s.(clock := s.clock + ms)
    case Forget(f) => s' == s.(stored := s.stored - {f}, empty := s.empty - {f})
    case Begin(p, limit, files) =>
      && IsPass(s, p) && s.passes[p].Idle? && s.lock.None? && limit <= USIZE_MAX && |s.inHand| <= USIZE_MAX
      && Fetched(s, FetchSize(limit, |s.inHand|, |StillWaiting(s.waiting, s.clock)|), files)
      && s' == With(s, p, Starting(s, limit, files)).(lock := Some(p), waiting := StillWaiting(s.waiting, s.clock))
    case FetchFails(p, limit) =>
      && IsPass(s, p) && s.passes[p].Idle? && s.lock.None?
      && s' == With(s, p, Finished(NoRun(limit), true)).(waiting := StillWaiting(s.waiting, s.clock))
    case Consider(p) =>
      && IsPass(s, p) && s.passes[p].Taking? && s.passes[p].files != [] && |s.passes[p].taken| < s.passes[p].share
      && s' == Considered(s, p)
    case EndTake(p) =>
      && IsPass(s, p) && s.passes[p].Taking? && (s.passes[p].files == [] || |s.passes[p].taken| == s.passes[p].share)
      && var pass := s.passes[p];
         var run := Run(pass.limit, |pass.held|, |pass.waits|, pass.full, |pass.taken|, 0, 0, 0, false);
         s' == With(s, p, Working(run, pass.taken)).(lock := None)
    case Succeeds(p) =>
      && Decodes(s, p)
      && var f := s.passes[p].todo[0];
         s' == With(s, p, Keeping(s.passes[p].run, s.passes[p].todo, false)).(struck := s.struck - {f}, waiting := s.waiting - {f})
    case Judged(p, failure) =>
      && Decodes(s, p) && Condemns(failure, s.passes[p].todo[0] in s.struck)
      && var f := s.passes[p].todo[0];
         s' == With(s, p, Keeping(s.passes[p].run, s.passes[p].todo, true))
               .(struck := StruckAfter(failure, f, s.struck), waiting := s.waiting - {f})
    case Unopenable(p, failure) =>
      && Decodes(s, p) && Bars(failure)
      && var (f, run) := (s.passes[p].todo[0], s.passes[p].run);
         s' == With(s, p, Dropping(run.(skipped := run.skipped + 1), s.passes[p].todo))
               .(waiting := s.waiting[f := s.clock + s.retryAfter])
    case BacksOff(p, failure) =>
      && Decodes(s, p) && !Condemns(failure, s.passes[p].todo[0] in s.struck) && !Bars(failure)
      && s' == With(s, p, Closing(s.passes[p].run.(backedOff := true), s.passes[p].todo, false))
               .(struck := StruckAfter(failure, s.passes[p].todo[0], s.struck))
    case StoreFails(p, problem) =>
      && (if problem.None? then Decodes(s, p) || Keeps(s, p)
          else Decodes(s, p) && (Condemns(problem.value, s.passes[p].todo[0] in s.struck) || Bars(problem.value)))
      && s' == With(s, p, Closing(s.passes[p].run, s.passes[p].todo, true))
               .(struck := if problem.None? then s.struck else StruckAfter(problem.value, s.passes[p].todo[0], s.struck))
    case Keep(p) =>
      && Keeps(s, p)
      && var (f, run, verdict) := (s.passes[p].todo[0], s.passes[p].run, s.passes[p].verdict);
         s' == With(s, p, Dropping(Counted(run, verdict), s.passes[p].todo))
               .(stored := s.stored + {f}, empty := if verdict then s.empty + {f} else s.empty - {f})
    case Drop(p) =>
      && Drops(s, p) && s.lock.None?
      && s' == GivenBack(With(s, p, Dropped(s.passes[p])), s.passes[p].todo[0])
    case Stop(p) =>
      && IsPass(s, p) && s.passes[p].Working? && (s.passes[p].todo == [] || Full(s.passes[p].run))
      && s' == With(s, p, Closing(s.passes[p].run, s.passes[p].todo, false))
    case Finish(p) =>
      && IsPass(s, p) && s.passes[p].Closing? && s.passes[p].todo == []
      && s' == With(s, p, Finished(s.passes[p].run, s.passes[p].storeFailed))
  }

  /** Whether the pass decodes the next of its files now. */
  predicate Decodes(s: State, p: nat) {
    IsPass(s, p) && s.passes[p].Working? && s.passes[p].todo != [] && !Full(s.passes[p].run)
  }

  predicate Keeps(s: State, p: nat) {
    IsPass(s, p) && s.passes[p].Keeping? && s.passes[p].todo != []
  }

  predicate Drops(s: State, p: nat) {
    IsPass(s, p) && (s.passes[p].Dropping? || s.passes[p].Closing?) && s.passes[p].todo != []
  }

  ghost predicate Initial(s: State) {
    s.lock.None? && s.inHand == map[] && s.struck == {} && s.waiting == map[] && forall p :: 0 <= p < |s.passes| ==> s.passes[p].Idle?
  }

  // ---- What is kept ----

  /** Each claim is the pass's own, and only one. */
  ghost predicate OwnClaims(s: State, p: nat)
    requires IsPass(s, p)
  {
    && Distinct(Claims(s.passes[p]))
    && forall f :: f in Claims(s.passes[p]) ==> f in s.inHand && s.inHand[f] == p
  }

  /** Every file in hand is in a live claim. */
  ghost predicate AllClaimed(s: State) {
    forall f :: f in s.inHand ==> IsPass(s, s.inHand[f]) && f in Claims(s.passes[s.inHand[f]])
  }

  /** A pass's claims it has yet to decode. */
  function Undecoded(pass: Pass): seq<File> {
    if pass.Dropping? && pass.todo != [] then pass.todo[1..]
    else if pass.Closing? then []
    else Claims(pass)
  }

  ghost predicate NoneStored(s: State, p: nat)
    requires IsPass(s, p)
  {
    forall f :: f in Undecoded(s.passes[p]) ==> f !in s.stored
  }

  /** While a pass takes, only it adds to what is in hand; what others find unopenable is in their hands. */
  ghost predicate TakesWell(s: State, p: nat)
    requires IsPass(s, p)
  {
    s.passes[p].Taking? ==>
      SharesWell(s.passes[p]) && SiftsWell(s.passes[p], s.inHand.Keys, s.waiting.Keys, s.stored)
  }

  ghost predicate SharesWell(t: Pass)
    requires t.Taking?
  {
    && t.passed <= t.held + t.waits
    && |t.passed| + |t.taken| + |t.files| == t.fetched
    && |t.taken| <= t.share
    && |t.held| <= USIZE_MAX
    && t.share == FetchSize(t.limit, |t.held|, |t.waits|) - |t.held|
    && (t.full ==> t.fetched == FetchSize(t.limit, |t.held|, |t.waits|))
  }

  ghost predicate SiftsWell(t: Pass, inHand: set<File>, waiting: set<File>, stored: set<File>)
    requires t.Taking?
  {
    && inHand == t.held + (set f | f in t.taken)
    && waiting <= t.waits + t.held
    && Distinct(t.files)
    && forall f :: f in t.files ==> f !in t.taken && f !in t.passed && (f in stored ==> f in t.held)
  }

  /** What a pass took, when the store had as many files as it fetched for. */
  ghost predicate TookEnough(run: Run) {
    run.full ==> run.took >= FetchSize(run.limit, run.held, run.waiting) - run.held - run.waiting
  }

  function Handled(run: Run): nat {
    run.done + run.failed + run.skipped
  }

  ghost predicate CountsWell(pass: Pass) {
    match pass
    case Working(run, todo) => RunWell(run) && !run.backedOff && Handled(run) + |todo| == run.took
    case Keeping(run, todo, _) => RunWell(run) && !run.backedOff && !Full(run) && todo != [] && Handled(run) + |todo| == run.took
    case Dropping(run, todo) => RunWell(run) && !run.backedOff && todo != [] && Handled(run) + |todo| == run.took + 1
    case Closing(run, _, storeFailed) => EndsWell(run, storeFailed)
    case Finished(run, storeFailed) => EndsWell(run, storeFailed)
    case _ => true
  }

  ghost predicate RunWell(run: Run) {
    run.done + run.failed <= run.limit && TookEnough(run)
  }

  ghost predicate EndsWell(run: Run, storeFailed: bool) {
    && RunWell(run)
    && Handled(run) <= run.took
    && (!run.backedOff && !storeFailed ==> Full(run) || Handled(run) == run.took)
  }

  ghost predicate LockHeld(s: State) {
    && (s.lock.Some? ==> IsPass(s, s.lock.value) && s.passes[s.lock.value].Taking?)
    && forall p :: 0 <= p < |s.passes| && s.passes[p].Taking? ==> s.lock == Some(p)
  }

  ghost predicate PassInv(s: State, p: nat)
    requires IsPass(s, p)
  {
    OwnClaims(s, p) && NoneStored(s, p) && TakesWell(s, p) && CountsWell(s.passes[p])
  }

  ghost predicate Inv(s: State) {
    LockHeld(s) && AllClaimed(s) && forall p :: 0 <= p < |s.passes| ==> PassInv(s, p)
  }
}
