/** Which device plays, with every device, its connection and the server (web/e2e/fixtures.ts:957-978). */
module Takeover {
  import opened Wrappers
  import opened Progress

  /** A device, its connection, numbered among the device's own, and what is on the way each way: reports
      to the server, and the device each state on its way here names. */
  datatype Peer = Peer(local: Local, playing: bool, connected: bool, epoch: nat, up: seq<Report>, down: seq<Option<Device>>)

  /** The connection the server has as playing. */
  datatype Connection = Connection(device: Device, epoch: nat)

  /** The server takes a report that starts playback, or any from the connection it has as playing, and tells every
      device; reports and states arrive in order. */
  datatype Net = Net(clock: int, active: Option<Connection>, peers: seq<Peer>)

  datatype Event =
    | Tick(ms: nat)
    | UserStarts(d: Device)
    | UserPauses(d: Device)
    | PlayerTurns(d: Device, playing: bool)
    | Sends(d: Device, status: Status)
    | Hears(d: Device)
    | Serves(d: Device)
    | Refuses(d: Device)
    | Connects(d: Device)
    | Disconnects(d: Device)
    | NoticesGone

  /** The device a state names. */
  function Named(net: Net): Option<Device> {
    if net.active.Some? then Some(net.active.value.device) else None
  }

  /** A state naming `named` goes to every device connected. */
  function Told(peers: seq<Peer>, named: Option<Device>): (r: seq<Peer>)
    ensures |r| == |peers|
    ensures forall i :: 0 <= i < |peers| ==> r[i] == if peers[i].connected then peers[i].(down := peers[i].down + [named]) else peers[i]
  {
    seq(|peers|, i requires 0 <= i < |peers| => if peers[i].connected then peers[i].(down := peers[i].down + [named]) else peers[i])
  }

  /** The server makes `active` the connection playing, and says so. */
  function Announce(net: Net, active: Option<Connection>): Net {
    var named := if active.Some? then Some(active.value.device) else None;
    net.(active := active, peers := Told(net.peers, named))
  }

  predicate Is(net: Net, d: Device) {
    d < |net.peers|
  }

  function With(net: Net, d: Device, peer: Peer): Net
    requires Is(net, d)
  {
    net.(peers := net.peers[d := peer])
  }

  function Sent(net: Net, d: Device, status: Status): Peer
    requires Is(net, d)
  {
    var p := net.peers[d];
    var report := ToSend(p.local, status);
    p.(local := Reported(p.local, status, p.connected, net.clock),
       up := if p.connected && report.Some? then p.up + [report.value] else p.up)
  }

  /** The server takes the next report from `d`. */
  function Served(net: Net, d: Device): Net
    requires Is(net, d) && net.peers[d].up != []
  {
    var p := net.peers[d];
    var report := p.up[0];
    var here := Connection(d, p.epoch);
    var taken := With(net, d, p.(up := p.up[1..]));
    if report.start then Announce(taken, Some(here))
    else if net.active == Some(here) then Announce(taken, if report.status.Stopped? then None else Some(here))
    else Answered(taken, d)
  }

  /** The server tells `d` alone which device it names. */
  function Answered(net: Net, d: Device): Net
    requires Is(net, d)
  {
    With(net, d, net.peers[d].(down := net.peers[d].down + [Named(net)]))
  }

  /** Whether `c` is no longer its device's connection. */
  predicate Gone(net: Net, c: Connection) {
    Is(net, c.device) ==> !net.peers[c.device].connected || net.peers[c.device].epoch != c.epoch
  }

  ghost predicate Next(net: Net, e: Event, net': Net) {
    match e
    case Tick(ms) => net' == net.(clock := net.clock + ms)
    case UserStarts(d) => Is(net, d) && net' == With(net, d, net.peers[d].(local := Started(net.peers[d].local)))
    case UserPauses(d) =>
      Is(net, d) && net' == With(net, d, net.peers[d].(local := PausedHere(net.peers[d].local), playing := false))
    case PlayerTurns(d, playing) => Is(net, d) && net' == With(net, d, net.peers[d].(playing := playing))
    case Sends(d, status) => Is(net, d) && net' == With(net, d, Sent(net, d, status))
    case Hears(d) =>
      Is(net, d) && net.peers[d].connected && net.peers[d].down != [] &&
      var (local, action) := Heard(net.peers[d].local, d, net.peers[d].down[0], net.peers[d].playing, net.clock);
      net' == With(net, d, net.peers[d].(
        local := local, playing := net.peers[d].playing && action != StopPlaying, down := net.peers[d].down[1..]))
    case Serves(d) => Is(net, d) && net.peers[d].connected && net.peers[d].up != [] && net' == Served(net, d)
    // The server may refuse any report: it then tells `d` which device it names.
    case Refuses(d) =>
      Is(net, d) && net.peers[d].connected && net.peers[d].up != [] &&
      net' == Answered(With(net, d, net.peers[d].(up := net.peers[d].up[1..])), d)
    case Connects(d) =>
      Is(net, d) &&
      net' == With(net, d, net.peers[d].(
        local := Connected(net.peers[d].local), connected := true, epoch := net.peers[d].epoch + 1, up := [], down := [Named(net)]))
    case Disconnects(d) =>
      Is(net, d) && net.peers[d].connected && net' == With(net, d, net.peers[d].(connected := false, up := [], down := []))
    // The server finds the connection it has as playing gone.
    case NoticesGone =>
      net.active.Some? && Gone(net, net.active.value) && net' == Announce(net, None)
  }

  // ---- Agreement ----

  /** What holds of each connected device: the last state on its way is the server's; once none is, and no
      takeover from here is unconfirmed, the device is active exactly if the server names it. */
  ghost predicate Agrees(net: Net, d: Device)
    requires Is(net, d)
  {
    var p := net.peers[d];
    p.connected ==>
      && (p.down != [] ==> p.down[|p.down| - 1] == Named(net))
      && (p.down == [] && p.local.startedAt.None? ==> (p.local.active <==> Named(net) == Some(d)))
  }

  /** A takeover yet to be confirmed is on its way to the server, or its confirmation is on its way back. */
  ghost predicate Confirming(net: Net, d: Device)
    requires Is(net, d)
  {
    var p := net.peers[d];
    p.connected && p.local.startedAt.Some? ==>
      (exists k :: 0 <= k < |p.up| && p.up[k].start) || Some(d) in p.down
  }

  ghost predicate Inv(net: Net) {
    forall d :: 0 <= d < |net.peers| ==> Agrees(net, d)
  }

  ghost predicate AllConfirming(net: Net) {
    forall d :: 0 <= d < |net.peers| ==> Confirming(net, d)
  }

  /** Whatever the server does about reports, agreement lasts. */
  lemma StepAgrees(net: Net, e: Event, net': Net)
    requires Inv(net) && Next(net, e, net')
    ensures Inv(net')
  {
    forall d | 0 <= d < |net'.peers| ensures Agrees(net', d) {
      assert Agrees(net, d);
      DeviceAgrees(net, e, net', d);
    }
  }

  lemma DeviceAgrees(net: Net, e: Event, net': Net, d: Device)
    requires Is(net, d) && Is(net', d) && Agrees(net, d) && Next(net, e, net')
    ensures Agrees(net', d)
  {
    if e.Serves? || e.Refuses? {
      ServerAgrees(net, e, net', d);
    } else if e.Hears? || e.Sends? {
      DeviceStepAgrees(net, e, net', d);
    }
  }

  lemma ServerAgrees(net: Net, e: Event, net': Net, d: Device)
    requires Is(net, d) && Is(net', d) && Agrees(net, d) && Next(net, e, net') && (e.Serves? || e.Refuses?)
    ensures Agrees(net', d)
  {
    hide Heard, Reported;
  }

  lemma DeviceStepAgrees(net: Net, e: Event, net': Net, d: Device)
    requires Is(net, d) && Is(net', d) && Agrees(net, d) && Next(net, e, net') && (e.Hears? || e.Sends?)
    ensures Agrees(net', d)
  {
    hide Served, Announce, Told;
  }

  /** While the server takes every start, no takeover is left unconfirmed. */
  lemma StepConfirms(net: Net, e: Event, net': Net)
    requires AllConfirming(net) && Next(net, e, net') && !e.Refuses?
    ensures AllConfirming(net')
  {
    forall d | 0 <= d < |net'.peers| ensures Confirming(net', d) {
      assert Confirming(net, d);
      DeviceConfirms(net, e, net', d);
    }
  }

  lemma DeviceConfirms(net: Net, e: Event, net': Net, d: Device)
    requires Is(net, d) && Is(net', d) && Confirming(net, d) && Next(net, e, net') && !e.Refuses?
    ensures Confirming(net', d)
  {
    if e == Serves(d) {
      ServeConfirms(net, net', d);
    } else if e == Hears(d) {
      var p := net.peers[d];
      assert p.down == [p.down[0]] + p.down[1..];
    } else if e.Sends? && e.d == d {
      SendConfirms(net, e.status, net', d);
    } else {
      hide Heard, Reported;
    }
  }

  lemma ServeConfirms(net: Net, net': Net, d: Device)
    requires Is(net, d) && Is(net', d) && Confirming(net, d) && Next(net, Serves(d), net')
    ensures Confirming(net', d)
  {
    hide Heard, Reported;
    var p, p' := net.peers[d], net'.peers[d];
    if p.local.startedAt.Some? {
      if k :| 0 <= k < |p.up| && p.up[k].start {
        if k > 0 {
          assert p'.up[k - 1].start;
        } else {
          assert p'.down[|p'.down| - 1] == Some(d);
        }
      }
    }
  }

  lemma SendConfirms(net: Net, status: Status, net': Net, d: Device)
    requires Is(net, d) && Is(net', d) && Confirming(net, d) && Next(net, Sends(d, status), net')
    ensures Confirming(net', d)
  {
    hide Heard, Served, Announce;
    var p, p' := net.peers[d], net'.peers[d];
    if p'.local.startedAt.Some? && p'.up != p.up {
      var last := |p'.up| - 1;
      assert p'.up == p.up + [p'.up[last]];
      if k :| 0 <= k < |p.up| && p.up[k].start {
        assert p'.up[k].start;
      }
      assert p'.local.startedAt != p.local.startedAt ==> p'.up[last].start;
    }
  }

  /** A device whose takeover is unconfirmed is active, as far as it knows. */
  ghost predicate StartedActive(net: Net) {
    forall d :: 0 <= d < |net.peers| && net.peers[d].local.startedAt.Some? ==> net.peers[d].local.active
  }

  lemma StepStartedActive(net: Net, e: Event, net': Net)
    requires StartedActive(net) && Next(net, e, net')
    ensures StartedActive(net')
  {}

  // ---- Every run ----

  ghost predicate Initial(net: Net) {
    net.active == None && forall d :: 0 <= d < |net.peers| ==> !net.peers[d].connected && net.peers[d].local == FRESH && net.peers[d].up == []
  }

  /** `nets` are the states of a run by `events`, in any order they can come. */
  ghost predicate IsRun(nets: seq<Net>, events: seq<Event>) {
    && |nets| == |events| + 1
    && Initial(nets[0])
    && forall k :: 0 <= k < |events| ==> Next(nets[k], events[k], nets[k + 1])
  }

  lemma {:induction false} RunAgrees(nets: seq<Net>, events: seq<Event>, k: nat)
    requires IsRun(nets, events) && k < |nets|
    ensures Inv(nets[k]) && StartedActive(nets[k])
  {
    hide Next;
    if k > 0 {
      RunAgrees(nets, events, k - 1);
      StepAgrees(nets[k - 1], events[k - 1], nets[k]);
      StepStartedActive(nets[k - 1], events[k - 1], nets[k]);
    }
  }

  lemma {:induction false} RunConfirms(nets: seq<Net>, events: seq<Event>, k: nat)
    requires IsRun(nets, events) && k < |nets|
    requires forall j :: 0 <= j < k ==> !events[j].Refuses?
    ensures AllConfirming(nets[k])
  {
    hide Next;
    if k > 0 {
      RunConfirms(nets, events, k - 1);
      StepConfirms(nets[k - 1], events[k - 1], nets[k]);
    }
  }

  /** Nothing is on its way to or from a connected device. */
  ghost predicate Quiet(net: Net) {
    forall d :: 0 <= d < |net.peers| && net.peers[d].connected ==> net.peers[d].up == [] && net.peers[d].down == []
  }

  /** Exactly one plays: while the server takes every start, once nothing is on its way, a connected device
      is active exactly if it is the one the server names, so no two are. Ignoring a foreign state while a
      takeover is unconfirmed never breaks this. */
  lemma OnePlays(nets: seq<Net>, events: seq<Event>, k: nat, d: Device)
    requires IsRun(nets, events) && k < |nets| && Quiet(nets[k])
    requires forall j :: 0 <= j < k ==> !events[j].Refuses?
    requires Is(nets[k], d) && nets[k].peers[d].connected
    ensures nets[k].peers[d].local.active <==> Named(nets[k]) == Some(d)
    ensures nets[k].peers[d].local.active ==>
              forall e :: 0 <= e < |nets[k].peers| && e != d && nets[k].peers[e].connected ==> !nets[k].peers[e].local.active
  {
    RunAgrees(nets, events, k);
    RunConfirms(nets, events, k);
    assert Agrees(nets[k], d) && Confirming(nets[k], d);
    forall e | 0 <= e < |nets[k].peers| && nets[k].peers[e].connected
      ensures nets[k].peers[e].local.active <==> Named(nets[k]) == Some(e)
    {
      assert Agrees(nets[k], e) && Confirming(nets[k], e);
    }
  }

  /** With starts refused too, a connected device the server does not name is active, once nothing is on its
      way, exactly while a takeover from it is unconfirmed. */
  lemma DisagreesWhileUnconfirmed(nets: seq<Net>, events: seq<Event>, k: nat, d: Device)
    requires IsRun(nets, events) && k < |nets| && Quiet(nets[k])
    requires Is(nets[k], d) && nets[k].peers[d].connected
    ensures (nets[k].peers[d].local.active <==> Named(nets[k]) == Some(d))
            <==> (nets[k].peers[d].local.startedAt.Some? ==> Named(nets[k]) == Some(d))
  {
    RunAgrees(nets, events, k);
    assert Agrees(nets[k], d);
  }

  /** Nor does that last: the first state heard once the takeover could have been confirmed settles it. */
  lemma UnconfirmedSettles(p: Local, me: Device, named: Option<Device>, playing: bool, now: int)
    requires p.startedAt.Some? ==> named == Some(me) || now - p.startedAt.value >= CONFIRM_WITHIN_MS
    ensures var q := Heard(p, me, named, playing, now).0;
            q.startedAt == None && (q.active <==> named == Some(me))
  {}

  // ---- Messages run out ----

  ghost function Pending(peers: seq<Peer>, i: nat, weight: nat): nat
    requires i <= |peers|
  {
    if i == 0 then 0 else Pending(peers, i - 1, weight) + |peers[i - 1].up| * weight + |peers[i - 1].down|
  }

  /** What is on its way, each report counted with all the states it may bring about. */
  ghost function OnTheWay(net: Net): nat {
    Pending(net.peers, |net.peers|, |net.peers| + 1)
  }

  lemma {:induction false} PendingChange(a: seq<Peer>, b: seq<Peer>, d: nat, i: nat, weight: nat)
    requires |a| == |b| && i <= |a| && d < |a|
    requires forall k :: 0 <= k < |a| && k != d ==> a[k].up == b[k].up && a[k].down == b[k].down
    ensures Pending(b, i, weight) + (if d < i then |a[d].up| * weight + |a[d].down| else 0)
         == Pending(a, i, weight) + (if d < i then |b[d].up| * weight + |b[d].down| else 0)
  {
    if i > 0 {
      PendingChange(a, b, d, i - 1, weight);
    }
  }

  lemma {:induction false} PendingTold(peers: seq<Peer>, named: Option<Device>, i: nat, weight: nat)
    requires i <= |peers|
    ensures Pending(Told(peers, named), i, weight) <= Pending(peers, i, weight) + i
  {
    if i > 0 {
      PendingTold(peers, named, i - 1, weight);
    }
  }

  /** Each message delivered leaves fewer on their way, so left alone the devices come to agree. */
  lemma DeliveryEnds(net: Net, e: Event, net': Net)
    requires Next(net, e, net') && (e.Hears? || e.Serves? || e.Refuses?)
    ensures OnTheWay(net') < OnTheWay(net)
  {
    if e.Hears? {
      PendingChange(net.peers, net'.peers, e.d, |net.peers|, |net.peers| + 1);
    } else {
      TakingEnds(net, e.d, net');
    }
  }

  lemma TakingEnds(net: Net, d: Device, net': Net)
    requires Is(net, d) && net.peers[d].up != [] && (Next(net, Serves(d), net') || Next(net, Refuses(d), net'))
    ensures OnTheWay(net') < OnTheWay(net)
  {
    var n, p := |net.peers|, net.peers[d];
    var taken := net.peers[d := p.(up := p.up[1..])];
    TakesOne(net.peers, d, n + 1);
    TakenThen(net, d, net');
    hide Next, Pending;
    if net'.peers == Told(taken, Named(net')) {
      PendingTold(taken, Named(net'), n, n + 1);
    } else {
      PendingChange(taken, net'.peers, d, n, n + 1);
    }
  }

  lemma TakesOne(peers: seq<Peer>, d: nat, weight: nat)
    requires d < |peers| && peers[d].up != []
    ensures var taken := peers[d := peers[d].(up := peers[d].up[1..])];
      Pending(taken, |peers|, weight) + weight == Pending(peers, |peers|, weight)
  {
    PendingChange(peers, peers[d := peers[d].(up := peers[d].up[1..])], d, |peers|, weight);
    LessOne(|peers[d].up|, weight);
  }

  /** The report taken, the server tells every device, or answers one. */
  lemma TakenThen(net: Net, d: Device, net': Net)
    requires Is(net, d) && net.peers[d].up != [] && (Next(net, Serves(d), net') || Next(net, Refuses(d), net'))
    ensures var taken := net.peers[d := net.peers[d].(up := net.peers[d].up[1..])];
      || net'.peers == Told(taken, Named(net'))
      || net'.peers == taken[d := taken[d].(down := taken[d].down + [Named(net)])]
  {
  }

  lemma LessOne(count: nat, weight: nat)
    requires count > 0
    ensures (count - 1) * weight + weight == count * weight
  {}

  // ---- Devices cut off ----

  /** While a device is disconnected nothing but connecting it changes whether it takes itself for active. */
  lemma CutOffStep(net: Net, e: Event, net': Net, d: Device)
    requires Is(net, d) && !net.peers[d].connected && Next(net, e, net') && e != Connects(d)
    ensures Is(net', d) && !net'.peers[d].connected && net'.peers[d].local.active == net.peers[d].local.active
  {}

  lemma {:induction false} CutOffRun(nets: seq<Net>, events: seq<Event>, j: nat, k: nat, d: Device)
    requires IsRun(nets, events) && j <= k < |nets| && Is(nets[j], d) && !nets[j].peers[d].connected
    requires forall m :: j <= m < k ==> events[m] != Connects(d)
    ensures Is(nets[k], d) && !nets[k].peers[d].connected && nets[k].peers[d].local.active == nets[j].peers[d].local.active
  {
    hide Next;
    if j < k {
      CutOffRun(nets, events, j, k - 1, d);
      CutOffStep(nets[k - 1], events[k - 1], nets[k], d);
    }
  }

  /** Event `j` cut the device off while it was active, and it has not connected since. */
  predicate CutOffAt(nets: seq<Net>, events: seq<Event>, j: nat, k: nat, d: Device)
    requires j < k <= |events| && |nets| == |events| + 1
  {
    && events[j] == Disconnects(d) && Is(nets[j], d) && nets[j].peers[d].local.active
    && forall m :: j < m < k ==> events[m] != Connects(d)
  }

  ghost predicate CutOffActive(nets: seq<Net>, events: seq<Event>, k: nat, d: Device)
    requires k <= |events| && |nets| == |events| + 1
  {
    exists j :: 0 <= j < k && CutOffAt(nets, events, j, k, d)
  }

  lemma SameDevices(net: Net, e: Event, net': Net)
    requires Next(net, e, net')
    ensures |net'.peers| == |net.peers|
  {}

  /** Only a disconnection disconnects a device, and it leaves the device as it was. */
  lemma Disconnecting(net: Net, e: Event, net': Net, d: Device)
    requires Is(net, d) && Is(net', d) && Next(net, e, net')
    ensures net.peers[d].connected && !net'.peers[d].connected ==>
      e == Disconnects(d) && net'.peers[d].local == net.peers[d].local
    ensures e == Disconnects(d) ==> net.peers[d].connected && !net'.peers[d].connected
    ensures e == Connects(d) ==> net'.peers[d].connected
  {}

  /** A disconnected device is active exactly if it was cut off active: one that never connected is not. */
  lemma {:induction false} DisconnectedActive(nets: seq<Net>, events: seq<Event>, k: nat, d: Device)
    requires |nets| == |events| + 1 && IsRun(nets, events) && k < |nets| && Is(nets[k], d) && !nets[k].peers[d].connected
    ensures nets[k].peers[d].local.active <==> CutOffActive(nets, events, k, d)
  {
    hide Next;
    if k > 0 {
      var (net, e) := (nets[k - 1], events[k - 1]);
      SameDevices(net, e, nets[k]);
      Disconnecting(net, e, nets[k], d);
      if net.peers[d].connected {
        LastCut(nets, events, k, d);
      } else {
        DisconnectedActive(nets, events, k - 1, d);
        CutOffStep(net, e, nets[k], d);
        CutOffBefore(nets, events, k, d);
      }
    }
  }

  lemma LastCut(nets: seq<Net>, events: seq<Event>, k: nat, d: Device)
    requires |nets| == |events| + 1 && IsRun(nets, events) && 0 < k < |nets| && events[k - 1] == Disconnects(d)
    requires Is(nets[k - 1], d)
    ensures CutOffActive(nets, events, k, d) <==> nets[k - 1].peers[d].local.active
  {
    if nets[k - 1].peers[d].local.active {
      assert CutOffAt(nets, events, k - 1, k, d);
    } else if j :| 0 <= j < k && CutOffAt(nets, events, j, k, d) {
      NotCutTwice(nets, events, j, k, d);
    }
  }

  /** A device cut off is not cut off again until it connects. */
  lemma NotCutTwice(nets: seq<Net>, events: seq<Event>, j: nat, k: nat, d: Device)
    requires |nets| == |events| + 1 && IsRun(nets, events) && j < k < |nets| && events[k - 1] == Disconnects(d)
    requires CutOffAt(nets, events, j, k, d)
    ensures j == k - 1
  {
    assert Next(nets[j], events[j], nets[j + 1]) && Next(nets[k - 1], events[k - 1], nets[k]);
    SameDevices(nets[j], events[j], nets[j + 1]);
    Disconnecting(nets[j], events[j], nets[j + 1], d);
    if j + 1 < k {
      CutOffRun(nets, events, j + 1, k - 1, d);
    }
  }

  lemma CutOffBefore(nets: seq<Net>, events: seq<Event>, k: nat, d: Device)
    requires |nets| == |events| + 1 && 0 < k <= |events| && events[k - 1] != Disconnects(d) && events[k - 1] != Connects(d)
    ensures CutOffActive(nets, events, k, d) <==> CutOffActive(nets, events, k - 1, d)
  {
    var before := k - 1;
    if j :| 0 <= j < before && CutOffAt(nets, events, j, before, d) {
      assert CutOffAt(nets, events, j, k, d);
    }
    if j :| 0 <= j < k && CutOffAt(nets, events, j, k, d) {
      assert CutOffAt(nets, events, j, before, d);
    }
  }

  /** What makes a device active with nothing on its way: connected, that the server names it, or that a start from
      it is yet unconfirmed; disconnected, that it was cut off active. */
  ghost predicate Holds(nets: seq<Net>, events: seq<Event>, k: nat, d: Device)
    requires k <= |events| && |nets| == |events| + 1 && Is(nets[k], d)
  {
    if nets[k].peers[d].connected then Named(nets[k]) == Some(d) || nets[k].peers[d].local.startedAt.Some?
    else CutOffActive(nets, events, k, d)
  }

  /** Connected or not, and starts refused or not, that is exactly when it is active. */
  lemma ActiveExactly(nets: seq<Net>, events: seq<Event>, k: nat, d: Device)
    requires |nets| == |events| + 1 && IsRun(nets, events) && k < |nets| && Quiet(nets[k]) && Is(nets[k], d)
    ensures nets[k].peers[d].local.active <==> Holds(nets, events, k, d)
  {
    RunAgrees(nets, events, k);
    assert Agrees(nets[k], d);
    hide IsRun;
    if !nets[k].peers[d].connected {
      DisconnectedActive(nets, events, k, d);
    }
  }

  /** At most one of all the devices is active exactly if no two of them hold. */
  lemma OneActiveUnlessTwoHold(nets: seq<Net>, events: seq<Event>, k: nat)
    requires |nets| == |events| + 1 && IsRun(nets, events) && k < |nets| && Quiet(nets[k])
    ensures (forall d, e :: 0 <= d < e < |nets[k].peers| ==> !(nets[k].peers[d].local.active && nets[k].peers[e].local.active))
            <==> (forall d, e :: 0 <= d < e < |nets[k].peers| ==> !(Holds(nets, events, k, d) && Holds(nets, events, k, e)))
  {
    forall d | 0 <= d < |nets[k].peers| ensures nets[k].peers[d].local.active <==> Holds(nets, events, k, d) {
      ActiveExactly(nets, events, k, d);
    }
    hide Holds, IsRun, Quiet;
  }

  /** With no start refused, a device is active exactly if the server names it, just if it is connected, or was cut
      off active or not as the server now names it or not. */
  lemma ActiveAsNamed(nets: seq<Net>, events: seq<Event>, k: nat, d: Device)
    requires |nets| == |events| + 1 && IsRun(nets, events) && k < |nets| && Quiet(nets[k]) && Is(nets[k], d)
    requires forall j :: 0 <= j < k ==> !events[j].Refuses?
    ensures (nets[k].peers[d].local.active <==> Named(nets[k]) == Some(d))
            <==> (nets[k].peers[d].connected || (CutOffActive(nets, events, k, d) <==> Named(nets[k]) == Some(d)))
  {
    if nets[k].peers[d].connected {
      OnePlays(nets, events, k, d);
    } else {
      DisconnectedActive(nets, events, k, d);
    }
  }

  /** What holds then: the connected device the server names, and the devices cut off active. */
  ghost predicate NamedOrCutOff(nets: seq<Net>, events: seq<Event>, k: nat, d: Device)
    requires k <= |events| && |nets| == |events| + 1 && Is(nets[k], d)
  {
    if nets[k].peers[d].connected then Named(nets[k]) == Some(d) else CutOffActive(nets, events, k, d)
  }

  /** With no start refused, at most one of all the devices is active exactly if no two are such: the one the server
      names, connected, and those cut off active. */
  lemma OneActiveUnlessCutOff(nets: seq<Net>, events: seq<Event>, k: nat)
    requires |nets| == |events| + 1 && IsRun(nets, events) && k < |nets| && Quiet(nets[k])
    requires forall j :: 0 <= j < k ==> !events[j].Refuses?
    ensures (forall d, e :: 0 <= d < e < |nets[k].peers| ==> !(nets[k].peers[d].local.active && nets[k].peers[e].local.active))
            <==> (forall d, e :: 0 <= d < e < |nets[k].peers| ==>
                    !(NamedOrCutOff(nets, events, k, d) && NamedOrCutOff(nets, events, k, e)))
  {
    forall d | 0 <= d < |nets[k].peers| ensures nets[k].peers[d].local.active <==> NamedOrCutOff(nets, events, k, d) {
      ActiveAsNamed(nets, events, k, d);
      ActiveExactly(nets, events, k, d);
    }
    hide NamedOrCutOff, IsRun, Quiet;
  }

  // ---- A run with a device cut off ----

  const SENT: Local := Local(false, false, Some(0), true)
  const START: Report := Report(Playing, true)
  const IDLE: Peer := Peer(FRESH, true, false, 0, [], [])
  const OFF: Peer := Peer(SENT, true, false, 1, [], [])

  /** A peer on its first connection. */
  function First(local: Local, up: seq<Report>, down: seq<Option<Device>>): Peer {
    Peer(local, true, true, 1, up, down)
  }

  /** The first device takes over and is cut off; then the second does, and its takeover is confirmed. */
  function CutOff(k: nat): Net {
    var joined := Connected(FRESH);
    var second := Some(Connection(1, 1));
    if k == 0 then Net(0, None, [IDLE, IDLE])
    else if k == 1 then Net(0, None, [First(joined, [], [None]), IDLE])
    else if k == 2 then Net(0, None, [First(SENT, [START], [None]), IDLE])
    else if k == 3 then Net(0, None, [OFF, IDLE])
    else if k == 4 then Net(0, None, [OFF, First(joined, [], [None])])
    else if k == 5 then Net(0, None, [OFF, First(SENT, [START], [None])])
    else if k == 6 then Net(0, second, [OFF, First(SENT, [], [None, Some(1)])])
    else if k == 7 then Net(0, second, [OFF, First(SENT, [], [Some(1)])])
    else Net(0, second, [OFF, First(Local(false, false, None, true), [], [])])
  }

  function CutOffEvent(k: nat): Event {
    if k == 0 then Connects(0) else if k == 1 then Sends(0, Playing) else if k == 2 then Disconnects(0)
    else if k == 3 then Connects(1) else if k == 4 then Sends(1, Playing) else if k == 5 then Serves(1)
    else Hears(1)
  }

  lemma OfTwo(a: Peer, b: Peer, c: Peer)
    ensures [a, b][0 := c] == [c, b] && [a, b][1 := c] == [a, c]
  {}

  lemma CutOffConnects(k: nat)
    requires k == 0 || k == 2 || k == 3
    ensures Next(CutOff(k), CutOffEvent(k), CutOff(k + 1))
  {
    var d := if k == 3 then 1 else 0;
    OfTwo(CutOff(k).peers[0], CutOff(k).peers[1], CutOff(k + 1).peers[d]);
  }

  lemma CutOffSends(k: nat)
    requires k == 1 || k == 4
    ensures Next(CutOff(k), CutOffEvent(k), CutOff(k + 1))
  {
    var d := if k == 4 then 1 else 0;
    assert ToSend(Connected(FRESH), Playing) == Some(START);
    assert [] + [START] == [START];
    assert Sent(CutOff(k), d, Playing) == CutOff(k + 1).peers[d];
    OfTwo(CutOff(k).peers[0], CutOff(k).peers[1], CutOff(k + 1).peers[d]);
  }

  lemma CutOffServes()
    ensures Next(CutOff(5), Serves(1), CutOff(6))
  {
    var taken := First(SENT, [], [None]);
    assert [START][1..] == [];
    OfTwo(OFF, CutOff(5).peers[1], taken);
    assert [None] + [Some(1 as Device)] == [None, Some(1)];
    assert Told([OFF, taken], Some(1)) == CutOff(6).peers;
  }

  lemma CutOffHears(k: nat)
    requires k == 6 || k == 7
    ensures Next(CutOff(k), Hears(1), CutOff(k + 1))
  {
    assert [None, Some(1 as Device)][1..] == [Some(1)] && [Some(1 as Device)][1..] == [];
    OfTwo(OFF, CutOff(k).peers[1], CutOff(k + 1).peers[1]);
  }

  /** A device that loses its connection keeps taking itself for the active one until it has another: the
      devices of which one at most is active are those connected. */
  lemma CutOffStaysActive() returns (nets: seq<Net>, events: seq<Event>)
    ensures IsRun(nets, events) && Quiet(nets[|events|])
    ensures var peers := nets[|events|].peers;
            |peers| == 2 && peers[0].local.active && !peers[0].connected && peers[1].local.active && peers[1].connected
  {
    hide Next;
    nets, events := seq(9, k requires 0 <= k => CutOff(k)), seq(8, k requires 0 <= k => CutOffEvent(k));
    CutOffServes();
    forall k | 0 <= k < 8 ensures Next(CutOff(k), CutOffEvent(k), CutOff(k + 1)) {
      if k == 0 || k == 2 || k == 3 {
        CutOffConnects(k);
      } else if k == 1 || k == 4 {
        CutOffSends(k);
      } else if k > 5 {
        CutOffHears(k);
      }
    }
  }

  // ---- A run with a start refused ----

  /** A device connects and takes over, which the server refuses, answering that none plays. */
  function Refused(k: nat): Net {
    if k == 0 then Net(0, None, [IDLE])
    else if k == 1 then Net(0, None, [First(Connected(FRESH), [], [None])])
    else if k == 2 then Net(0, None, [First(SENT, [START], [None])])
    else if k == 3 then Net(0, None, [First(SENT, [], [None, None])])
    else if k == 4 then Net(0, None, [First(SENT, [], [None])])
    else Net(0, None, [First(SENT, [], [])])
  }

  function RefusedEvent(k: nat): Event {
    if k == 0 then Connects(0) else if k == 1 then Sends(0, Playing) else if k == 2 then Refuses(0) else Hears(0)
  }

  lemma RefusedStep(k: nat)
    requires k < 5
    ensures Next(Refused(k), RefusedEvent(k), Refused(k + 1))
  {
    var (p, p') := (Refused(k).peers[0], Refused(k + 1).peers[0]);
    assert [p][0 := p'] == [p'];
    if k == 1 {
      assert ToSend(Connected(FRESH), Playing) == Some(START) && [] + [START] == [START];
    } else if k == 2 {
      var taken := First(SENT, [], [None]);
      assert [START][1..] == [] && [p][0 := taken] == [taken] && [taken][0 := p'] == [p'];
      assert p.down + [None] == p'.down;
    } else if k > 2 {
      assert p.down[1..] == p'.down;
    }
  }

  /** A refused start leaves a connected device active, with nothing on its way, though the server names none: so
      it is while the takeover is unconfirmed, and the states heard came too soon to settle it. */
  lemma RefusedStaysActive() returns (nets: seq<Net>, events: seq<Event>)
    ensures IsRun(nets, events) && Quiet(nets[|events|])
    ensures var net := nets[|events|];
            |net.peers| == 1 && net.peers[0].connected && net.peers[0].local.active && Named(net) == None
  {
    hide Next;
    nets, events := seq(6, k requires 0 <= k => Refused(k)), seq(5, k requires 0 <= k => RefusedEvent(k));
    forall k | 0 <= k < 5 ensures Next(Refused(k), RefusedEvent(k), Refused(k + 1)) {
      RefusedStep(k);
    }
  }
}
