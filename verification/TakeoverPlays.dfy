/** Which device's player plays, and when a start takes over (web/src/lib/progress.ts:1-10, :39-103). */
module TakeoverPlays {
  import opened Wrappers
  import opened Progress
  import opened Takeover

  /** A player begins to play only while a report of it would go: a start is due, or the device is active. */
  predicate PlayerBegins(net: Net, e: Event) {
    e.PlayerTurns? && e.playing && Is(net, e.d) ==> net.peers[e.d].local.start || net.peers[e.d].local.active
  }

  /** A start of the device's, or a state that names it, is on its way. */
  ghost predicate OnItsWay(p: Peer, d: Device) {
    (exists k :: 0 <= k < |p.up| && p.up[k].start) || Some(d) in p.down
  }

  /** A connected device that plays has a start due, or is active, or is about to be. */
  ghost predicate Pursues(net: Net, d: Device)
    requires Is(net, d)
  {
    var p := net.peers[d];
    && (p.local.byUser ==> p.local.start)
    && (p.connected && p.playing ==> p.local.start || p.local.active || OnItsWay(p, d))
  }

  lemma StaysOnItsWay(p: Peer, p': Peer, d: Device)
    requires OnItsWay(p, d) && p.up <= p'.up && p.down <= p'.down
    ensures OnItsWay(p', d)
  {
    if k :| 0 <= k < |p.up| && p.up[k].start {
      assert p'.up[k].start;
    }
  }

  lemma DevicePursues(net: Net, e: Event, net': Net, d: Device)
    requires Is(net, d) && Is(net', d) && Pursues(net, d) && Confirming(net, d) && Next(net, e, net')
    requires !e.Refuses? && PlayerBegins(net, e)
    ensures Pursues(net', d)
  {
    if e == Hears(d) {
      HearsPursues(net, net', d);
    } else if e == Serves(d) {
      ServesPursues(net, net', d);
    } else if e.Sends? && e.d == d {
      SendsPursues(net, e.status, net', d);
    } else {
      hide Heard, Reported, OnItsWay;
      if net.peers[d].connected && net'.peers[d].connected && OnItsWay(net.peers[d], d) && e != Connects(d) {
        StaysOnItsWay(net.peers[d], net'.peers[d], d);
      }
    }
  }

  lemma HearsPursues(net: Net, net': Net, d: Device)
    requires Is(net, d) && Is(net', d) && Pursues(net, d) && Confirming(net, d) && Next(net, Hears(d), net')
    ensures Pursues(net', d)
  {
    var p := net.peers[d];
    assert p.down == [p.down[0]] + p.down[1..];
    HeardAction(p.local, d, p.down[0], p.playing, net.clock);
    HeardState(p.local, d, p.down[0], p.playing, net.clock);
  }

  lemma ServesPursues(net: Net, net': Net, d: Device)
    requires Is(net, d) && Is(net', d) && Pursues(net, d) && Next(net, Serves(d), net')
    ensures Pursues(net', d)
  {
    hide Heard, Reported;
    var (p, p') := (net.peers[d], net'.peers[d]);
    if k :| 0 <= k < |p.up| && p.up[k].start {
      if k > 0 {
        assert p'.up[k - 1].start;
      } else {
        assert p'.down[|p'.down| - 1] == Some(d);
      }
    }
  }

  lemma SendsPursues(net: Net, status: Status, net': Net, d: Device)
    requires Is(net, d) && Is(net', d) && Pursues(net, d) && Next(net, Sends(d, status), net')
    ensures Pursues(net', d)
  {
    hide Heard, Served, Announce, OnItsWay;
    if OnItsWay(net.peers[d], d) {
      StaysOnItsWay(net.peers[d], net'.peers[d], d);
    }
  }

  lemma {:induction false} RunPursues(nets: seq<Net>, events: seq<Event>, k: nat)
    requires IsRun(nets, events) && k < |nets|
    requires forall j :: 0 <= j < k ==> !events[j].Refuses? && PlayerBegins(nets[j], events[j])
    ensures forall d :: 0 <= d < |nets[k].peers| ==> Pursues(nets[k], d)
  {
    hide Next, Pursues, PlayerBegins;
    if k == 0 {
      forall d | 0 <= d < |nets[0].peers| ensures Pursues(nets[0], d) {
        NonePlays(nets[0], d);
      }
    } else {
      RunPursues(nets, events, k - 1);
      RunConfirms(nets, events, k - 1);
      SameDevices(nets[k - 1], events[k - 1], nets[k]);
      forall d | 0 <= d < |nets[k].peers| ensures Pursues(nets[k], d) {
        DevicePursues(nets[k - 1], events[k - 1], nets[k], d);
      }
    }
  }

  lemma NonePlays(net: Net, d: Device)
    requires Initial(net) && Is(net, d)
    ensures Pursues(net, d)
  {
  }

  /** One player plays: with nothing on its way, no start refused and none of the device's own due, a connected device
      that plays is the one the server names. So of two connected devices that play, one has a start due. */
  lemma PlaysAsNamed(nets: seq<Net>, events: seq<Event>, k: nat, d: Device)
    requires IsRun(nets, events) && k < |nets| && Quiet(nets[k])
    requires forall j :: 0 <= j < k ==> !events[j].Refuses? && PlayerBegins(nets[j], events[j])
    requires Is(nets[k], d) && nets[k].peers[d].connected && nets[k].peers[d].playing && !nets[k].peers[d].local.start
    ensures Named(nets[k]) == Some(d)
  {
    RunPursues(nets, events, k);
    assert Pursues(nets[k], d);
    OnePlays(nets, events, k, d);
  }

  // ---- Starts ----

  /** A start due goes with the next report but a stop, as the last on its way; then the device is active and the start
      no longer due. A report goes just if a start is due or the device is active, and a stop starts nothing. */
  lemma SendsStart(net: Net, d: Device, status: Status, net': Net)
    requires Next(net, Sends(d, status), net') && net.peers[d].connected
    ensures var (p, p', starts) := (net.peers[d], net'.peers[d], net.peers[d].local.start && status != Stopped);
      && p'.up == p.up + (if p.local.start || p.local.active then [Report(status, starts)] else [])
      && (starts ==> p'.local.active && !p'.local.start && !p'.local.byUser && p'.local.startedAt == Some(net.clock))
      && (!starts ==> p'.local == p.local)
  {
  }

  /** Once the server takes a start it names the device, and tells it so. */
  lemma TakesOver(net: Net, d: Device, net': Net)
    requires Next(net, Serves(d), net') && net.peers[d].up[0].start
    ensures Named(net') == Some(d) && net'.peers[d].down == net.peers[d].down + [Some(d)]
  {
  }

  /** A stop never takes over: the server comes to name a device only by a report of it that is no stop. */
  ghost predicate StopsStartNothing(net: Net) {
    forall d, k :: 0 <= d < |net.peers| && 0 <= k < |net.peers[d].up| && net.peers[d].up[k].start ==> !net.peers[d].up[k].status.Stopped?
  }

  lemma StepStopsStartNothing(net: Net, e: Event, net': Net)
    requires StopsStartNothing(net) && Next(net, e, net')
    ensures StopsStartNothing(net')
  {
    hide Heard;
    SameDevices(net, e, net');
    forall d, k | 0 <= d < |net'.peers| && 0 <= k < |net'.peers[d].up| && net'.peers[d].up[k].start
      ensures !net'.peers[d].up[k].status.Stopped?
    {
      UpFrom(net, e, net', d, k);
    }
  }

  /** A report on its way was on its way before, or is the one just sent. */
  lemma UpFrom(net: Net, e: Event, net': Net, d: Device, k: nat)
    requires Is(net, d) && Is(net', d) && Next(net, e, net') && k < |net'.peers[d].up|
    ensures net'.peers[d].up[k] in net.peers[d].up
      || (e.Sends? && e.d == d && ToSend(net.peers[d].local, e.status) == Some(net'.peers[d].up[k]))
  {
    hide Heard, Reported;
  }

  lemma {:induction false} RunStopsStartNothing(nets: seq<Net>, events: seq<Event>, k: nat)
    requires IsRun(nets, events) && k < |nets|
    ensures StopsStartNothing(nets[k])
  {
    hide Next;
    if k > 0 {
      RunStopsStartNothing(nets, events, k - 1);
      hide StopsStartNothing;
      StepStopsStartNothing(nets[k - 1], events[k - 1], nets[k]);
    }
  }

  /** In every run, the server comes to name a device just as it takes a start of it, and no start is a stop. */
  lemma NamedByStart(nets: seq<Net>, events: seq<Event>, k: nat, d: Device)
    requires IsRun(nets, events) && k < |events|
    requires Named(nets[k]) != Some(d) && Named(nets[k + 1]) == Some(d)
    ensures events[k] == Serves(d) && Is(nets[k], d) && nets[k].peers[d].up != []
    ensures nets[k].peers[d].up[0].start && !nets[k].peers[d].up[0].status.Stopped?
  {
    RunStopsStartNothing(nets, events, k);
    assert Next(nets[k], events[k], nets[k + 1]);
    hide Heard, Reported, StopsStartNothing;
    assert events[k] == Serves(d) && nets[k].peers[d].up[0].start;
    assert StopsStartNothing(nets[k]) ==> !nets[k].peers[d].up[0].status.Stopped? by {
      StartsAreNoStops(nets[k], d);
    }
  }

  lemma StartsAreNoStops(net: Net, d: Device)
    requires Is(net, d) && net.peers[d].up != [] && net.peers[d].up[0].start
    ensures StopsStartNothing(net) ==> !net.peers[d].up[0].status.Stopped?
  {
  }

  /** A start due is lost just three ways: it goes; the user, who started, pauses; or a state counts that names another
      device, or none after a refusal, or comes while nothing plays, and the user did not start. */
  lemma StartLost(net: Net, e: Event, net': Net, d: Device)
    requires Is(net, d) && Is(net', d) && Next(net, e, net') && net.peers[d].local.start && !net'.peers[d].local.start
    ensures var p := net.peers[d];
      || (e.Sends? && e.d == d && p.connected && e.status != Stopped)
      || (e == UserPauses(d) && p.local.byUser)
      || (e == Hears(d) && !p.local.byUser && p.down[0] != Some(d) && !Ignored(p.local, false, net.clock)
            && (!p.playing || p.down[0].Some? || p.local.startedAt.Some?))
      || (e == Hears(d) && !p.local.byUser && p.down[0] == Some(d) && !p.playing)
  {
  }

  // ---- What makes a device active ----

  /** The device sends a start, or hears a state that names it. */
  predicate Activates(net: Net, e: Event, d: Device) {
    Is(net, d) &&
    var p := net.peers[d];
    || (e.Sends? && e.d == d && p.connected && p.local.start && e.status != Stopped)
    || (e == Hears(d) && p.down != [] && p.down[0] == Some(d))
  }

  lemma ComesActive(net: Net, e: Event, net': Net, d: Device)
    requires Is(net, d) && Is(net', d) && Next(net, e, net')
    ensures e == Connects(d) ==> !net'.peers[d].local.active
    ensures net'.peers[d].local.active ==> net.peers[d].local.active || Activates(net, e, d)
  {
  }

  /** A device is active only by a start it sent on the connection it has, or a state it heard on it. */
  lemma {:induction false} ActiveOnlySince(nets: seq<Net>, events: seq<Event>, j: nat, k: nat, d: Device)
    requires IsRun(nets, events) && j < k < |nets| && Is(nets[k], d) && nets[k].peers[d].local.active
    requires events[j] == Connects(d)
    ensures exists m :: j < m < k && Activates(nets[m], events[m], d)
    decreases k
  {
    hide Next, Activates;
    assert Next(nets[k - 1], events[k - 1], nets[k]);
    SameDevices(nets[k - 1], events[k - 1], nets[k]);
    ComesActive(nets[k - 1], events[k - 1], nets[k], d);
    if j < k - 1 && !Activates(nets[k - 1], events[k - 1], d) {
      ActiveOnlySince(nets, events, j, k - 1, d);
    }
  }
}
