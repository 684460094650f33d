/** Reporting a player's progress (web/src/lib/progress.ts): what a device sends, and what it makes of
    the states it hears. */
module Progress {
  import opened Wrappers

  type Device = nat

  datatype Status = Playing | Paused | Buffering | Stopped

  /** A report, without what it says of the track: `start` asks to take over. */
  datatype Report = Report(status: Status, start: bool)

  /** What a device's player is told to do. */
  datatype Action = StopPlaying | SendReport | DoNothing

  /** From this long after a start was sent, states that name another device count again. */
  const CONFIRM_WITHIN_MS := 5_000

  /** `start`: a report sent now is to be a start; `byUser`: by the user's hand; `startedAt`: when a start was sent,
      while no state has settled it; `active`: the device takes itself for the one that plays. */
  datatype Local = Local(start: bool, byUser: bool, startedAt: Option<int>, active: bool)

  const FRESH := Local(false, false, None, false)

  // ---- What each event makes of it ----

  function Started(p: Local): Local {
    p.(start := true, byUser := true)
  }

  function PausedHere(p: Local): Local {
    if p.byUser then p.(start := false, byUser := false) else p
  }

  function Connected(p: Local): Local {
    p.(start := true, startedAt := None, active := false)
  }

  /** A device that is neither active nor to start sends nothing. */
  function ToSend(p: Local, status: Status): Option<Report> {
    if !p.start && !p.active then None else Some(Report(status, p.start && status != Stopped))
  }

  /** Once a report was sent, if it went. */
  function Reported(p: Local, status: Status, went: bool, now: int): Local {
    match ToSend(p, status)
    case None => p
    case Some(report) => if went && report.start then Local(false, false, Some(now), true) else p
  }

  /** Whether a state is of another device, and too soon after a start from here to count. */
  predicate Ignored(p: Local, here: bool, now: int) {
    !here && p.startedAt.Some? && now - p.startedAt.value < CONFIRM_WITHIN_MS
  }

  function Heard(p: Local, me: Device, named: Option<Device>, playing: bool, now: int): (Local, Action) {
    var here := named == Some(me);
    if Ignored(p, here, now) then (p, DoNothing)
    else
      var refused := !here && p.startedAt.Some?;
      var q := p.(active := here, startedAt := None);
      if !playing then (q.(start := p.byUser), DoNothing)
      else if here then (q, if p.start then SendReport else DoNothing)
      else if (named.None? && !refused) || p.byUser then (q.(start := true), SendReport)
      else (q.(start := false), if named.None? then DoNothing else StopPlaying)
  }

  /** What a device is told, of a state that counts while it plays: to stop, just if another device is named and no
      start is due by the user's hand; to report, just if a start is due and it is named, or by the user's hand, or no
      device is named and no start of its own was refused. Of any other state it is told nothing. */
  lemma HeardAction(p: Local, me: Device, named: Option<Device>, playing: bool, now: int)
    ensures var (counts, action) := (playing && !Ignored(p, named == Some(me), now), Heard(p, me, named, playing, now).1);
      && (action == StopPlaying <==> counts && named.Some? && named != Some(me) && !p.byUser)
      && (action == SendReport <==>
            (counts && ((named == Some(me) && p.start) || (named != Some(me) && p.byUser) || (named.None? && p.startedAt.None?))))
  {
  }

  /** A state that does not name the device, less than five seconds after a start went, changes nothing. Any other
      settles whether the device is active, and leaves a start due just by the user's hand, or for the report it calls
      for. */
  lemma HeardState(p: Local, me: Device, named: Option<Device>, playing: bool, now: int)
    requires p.byUser ==> p.start
    ensures var (q, action) := Heard(p, me, named, playing, now);
      if named != Some(me) && p.startedAt.Some? && now < p.startedAt.value + 5000 then q == p && action == DoNothing
      else
        && q.startedAt.None? && (q.active <==> named == Some(me)) && q.byUser == p.byUser
        && (q.start <==> p.byUser || action == SendReport)
  {
  }

  /** On a new connection any report but a stop takes over, and each state counts; and once the user has started and
      paused on it, nothing goes, since the device is not active. */
  lemma ConnectedAnew(p: Local, status: Status, here: bool, now: int)
    ensures ToSend(Connected(p), status) == Some(Report(status, status != Stopped))
    ensures !Ignored(Connected(p), here, now)
    ensures ToSend(PausedHere(Started(Connected(p))), status).None?
  {
  }

  /** After a pause a start goes just if one was due that is not of the user's hand, so that one from connecting stays;
      and a pause undoes all that the user's start did. */
  lemma PausedDrops(p: Local, status: Status)
    requires p.byUser ==> p.start
    ensures var sent := ToSend(PausedHere(p), status);
      (sent.Some? && sent.value.start) <==> (p.start && !p.byUser && status != Stopped)
    ensures !p.start ==> PausedHere(Started(p)) == p
  {
  }

  // ---- The code ----

  class Tracker {
    var start: bool
    var byUser: bool
    var startedAt: Option<int>
    var active: bool

    function Now(): Local
      reads this
    {
      Local(start, byUser, startedAt, active)
    }

    constructor ()
      ensures Now() == FRESH
    {
      start, byUser, startedAt, active := false, false, None, false;
    }

    /** Playback begins by the user's hand. */
    method UserStarted()
      modifies this
      ensures Now() == Started(old(Now()))
    {
      start, byUser := true, true;
    }

    /** A start of the user's that was not sent is dropped; any other is kept. */
    method UserPaused()
      modifies this
      ensures Now() == PausedHere(old(Now()))
    {
      if byUser {
        start, byUser := false, false;
      }
    }

    /** The device is not active, and a report is to be a start; any start sent before is forgotten. */
    method NewConnection()
      modifies this
      ensures Now() == Connected(old(Now()))
    {
      start := true;
      startedAt := None;
      active := false;
    }

    /** Sends what `ToSend` gives, if there is a connection to send it on: only a start that went makes the device
        active. */
    method SendProgress(status: Status, goes: bool, now: int) returns (sent: Option<Report>)
      modifies this
      ensures sent == if goes then ToSend(old(Now()), status) else None
      ensures Now() == Reported(old(Now()), status, goes, now)
    {
      if !start && !active {
        return None;
      }
      // A stop never starts.
      var takesOver := start && status != Stopped;
      if !goes {
        return None;
      }
      sent := Some(Report(status, takesOver));
      if takesOver {
        start, byUser := false, false;
        startedAt := Some(now);
        active := true;
      }
    }

    /** Heard by the device `me`: the state after it, and what its player is told, are those `Heard` gives. */
    method HearState(me: Device, named: Option<Device>, playing: bool, now: int) returns (action: Action)
      modifies this
      ensures (Now(), action) == Heard(old(Now()), me, named, playing, now)
    {
      var here := named == Some(me);
      var unconfirmed := if here then None else startedAt;
      if unconfirmed.Some? && now - unconfirmed.value < CONFIRM_WITHIN_MS {
        return DoNothing;
      }
      var refused := unconfirmed.Some?;
      active := here;
      startedAt := None;
      if !playing {
        start := byUser;
        return DoNothing;
      }
      if here {
        return if start then SendReport else DoNothing;
      }
      if (named.None? && !refused) || byUser {
        start := true;
        return SendReport;
      }
      start := false;
      action := if named.None? then DoNothing else StopPlaying;
    }
  }
}
