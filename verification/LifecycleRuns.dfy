/** What the life cycle of a connection keeps over whole runs: reconnecting never stalls, disconnecting ends. */
module LifecycleRuns {
  import opened Options
  import opened Registration
  import opened Lifecycle

  ghost predicate IsRun(states: seq<Life>, events: seq<Event>) {
    |states| == |events| + 1 &&
    forall i :: 0 <= i < |events| ==> Enabled(states[i], events[i]) && states[i + 1] == Step(states[i], events[i])
  }

  lemma {:induction false} RunKeepsInv(states: seq<Life>, events: seq<Event>, k: nat)
    requires IsRun(states, events) && Inv(states[0]) && k < |states|
    ensures Inv(states[k])
  {
    hide Inv, Enabled, Step;
    if k > 0 {
      RunKeepsInv(states, events, k - 1);
      StepKeepsInv(states[k - 1], events[k - 1]);
    }
  }

  /**
   * In every state of every run registrations and the bus name go with the connection: exactly one id per
   * interface of each object while the name is owned, nothing registered otherwise.
   */
  lemma NameFollowsConnection(bus: BusKind, named: bool, interfaces: seq<nat>,
                              states: seq<Life>, events: seq<Event>, k: nat)
    requires bus != NoAddress && IsRun(states, events) && states[0] == Created(bus, named, interfaces) && k < |states|
    ensures var l := states[k];
            && (l.owner ==> l.connected && l.named) && |l.ids| == |l.interfaces|
            && (forall i :: 0 <= i < |l.ids| ==> l.ids[i].Some? == l.owner)
            && (forall i :: 0 <= i < |l.ids| && l.ids[i].Some? ==> |l.ids[i].value| == l.interfaces[i])
            && NotShared(l.ids) && l.registry.live == AllIds(l.ids) && (!l.owner ==> l.registry.live == {})
  {
    CreatedInv(bus, named, interfaces);
    RunKeepsInv(states, events, k);
    if !states[k].owner {
      NoIdsWhenNoOwner(states[k]);
    }
  }

  // --- reconnecting ---------------------------------------------------------

  /** Connect(TRUE) comes first, and nobody calls Connect or Disconnect after that. */
  predicate AutoReconnectOnly(events: seq<Event>) {
    |events| > 0 && events[0] == Connect(true) && forall i :: 0 < i < |events| ==> !OtherThread(events[i])
  }

  lemma StepKeepsReconnect(l: Life, e: Event)
    requires CloseInv(l) && Enabled(l, e) && !OtherThread(e) && l.started && l.reconnect && l.disconnectStatus == 0
    ensures var m := Step(l, e); m.started && m.reconnect && m.disconnectStatus == 0
  {
    hide RegisterObjects, UnregisterObjects, NoIds, Outcomes;
    match e
    case OnBusGet(ok, oks) =>
    case OnNameLost =>
    case OnNameLostClose =>
    case _ =>
  }

  lemma {:induction false} RunKeepsReconnect(states: seq<Life>, events: seq<Event>, k: nat)
    requires IsRun(states, events) && Inv(states[0]) && states[0].disconnectStatus == 0
    requires AutoReconnectOnly(events) && 0 < k < |states|
    ensures states[k].started && states[k].reconnect && states[k].disconnectStatus == 0
  {
    if k > 1 {
      hide StatusInv, NameInv, CloseInv, Enabled, Step;
      RunKeepsReconnect(states, events, k - 1);
      RunKeepsInv(states, events, k - 1);
      StepKeepsReconnect(states[k - 1], events[k - 1]);
    }
  }

  /**
   * No double connect and no stall: in every state of every run with automatic reconnects, also when an old
   * timer overlaps a new one after a lost name.
   */
  lemma ReconnectMachine(bus: BusKind, named: bool, interfaces: seq<nat>, states: seq<Life>, events: seq<Event>, k: nat)
    requires bus != NoAddress && IsRun(states, events) && states[0] == Created(bus, named, interfaces)
    requires AutoReconnectOnly(events) && 0 < k < |states|
    ensures var l := states[k];
            && 0 <= l.status <= 4
            && l.busGets == (if l.status == 2 then 1 else 0)
            && (l.connected <==> l.status == 3 || l.status == 4)
            && l.refs == (if l.connected then 1 else 0)
            && l.connectSources == (if l.status == 0 then 1 else 0)
            && (1 <= l.status <= 3 ==> l.timers >= 1)
  {
    CreatedInv(bus, named, interfaces);
    RunKeepsInv(states, events, k);
    RunKeepsReconnect(states, events, k);
  }

  /**
   * A do_reconnect timer repeats if and only if automatic reconnects are on and there is no connection yet, refused
   * (status 1) or on its way (status 2). On a connection it ends, and with automatic reconnects it confirms the
   * connection.
   */
  lemma TimerRepeatsIff(states: seq<Life>, events: seq<Event>, k: nat)
    requires IsRun(states, events) && Inv(states[0]) && k < |events| && events[k] == DoReconnect
    ensures var l, m := states[k], states[k + 1];
            && l.timers > 0 && (l.timers - 1 <= m.timers <= l.timers)
            && (m.timers == l.timers <==> l.reconnect && 1 <= l.status <= 2)
            && m.busGets == (if l.reconnect && 1 <= l.status <= 2 then 1 else l.busGets)
            && (l.connected ==> m.timers < l.timers && m.status == if l.reconnect then 4 else l.status)
            && (!l.connected ==> m.status == if l.reconnect && l.status == 1 then 2 else l.status)
            && m == l.(timers := m.timers, status := m.status, busGets := m.busGets)
  {
    RunKeepsInv(states, events, k);
  }

  function Reconnects(events: seq<Event>): nat {
    if events == [] then 0 else Reconnects(events[..|events| - 1]) + if events[|events| - 1].DoReconnect? then 1 else 0
  }

  lemma ConnectedTimers(l: Life, e: Event)
    requires Inv(l) && Enabled(l, e) && l.connected && Step(l, e).connected
    ensures Step(l, e).timers == l.timers - if e.DoReconnect? then 1 else 0
  {
    hide RegisterObjects, UnregisterObjects, NoIds, NameInv;
  }

  /** As long as a connection stays up, each do_reconnect takes one timer away, so that in the end none is left. */
  lemma {:induction false} TimersRunOut(states: seq<Life>, events: seq<Event>)
    requires IsRun(states, events) && Inv(states[0]) && forall i :: 0 <= i < |states| ==> states[i].connected
    ensures states[|events|].timers == states[0].timers - Reconnects(events)
    decreases |events|
  {
    hide Inv, Enabled, Step;
    var n := |events| - 1;
    if events != [] {
      TimersRunOut(states[..n + 1], events[..n]);
      RunKeepsInv(states, events, n);
      assert states[n + 1].connected;
      ConnectedTimers(states[n], events[n]);
    }
  }

  /**
   * When the connection is gone after a lost name, with automatic reconnects a do_connect is pending; without them the
   * status is 0 if the connection had been confirmed and 1 otherwise, and nothing that is pending connects again.
   */
  lemma NameLostLeads(states: seq<Life>, events: seq<Event>, k: nat)
    requires IsRun(states, events) && Inv(states[0]) && k < |events|
    requires events[k].OnNameLostClose? || (events[k].OnNameLost? && states[k].bus != Address)
    ensures var l, m := states[k], states[k + 1];
            && l.connected && !m.connected && !m.owner && m.registry.live == {} && m.refs == 0
            && (l.reconnect ==> m.status == 0 && m.connectSources == 1 && m.reconnect && CanConnect(m))
            && (!l.reconnect ==>
                  m.status == (if l.status == 4 then 0 else 1) && m.connectSources == 0 && !CanConnect(m))
            && m.timers == l.timers && m.nameLostCloses == 0
  {
    RunKeepsInv(states, events, k);
    RunKeepsInv(states, events, k + 1);
    NoIdsWhenNoOwner(states[k + 1]);
    hide RegisterObjects, UnregisterObjects;
  }

  /** On a connection with an address it is closed first: until then it stays, but the name and the objects are gone. */
  lemma NameLostCloses(states: seq<Life>, events: seq<Event>, k: nat)
    requires IsRun(states, events) && Inv(states[0]) && k < |events|
    requires events[k].OnNameLost? && states[k].bus == Address
    ensures var l, m := states[k], states[k + 1];
            && m.connected && m.status == l.status && m.nameLostCloses == 1
            && !m.owner && m.registry.live == {} && Enabled(m, OnNameLostClose)
  {
    RunKeepsInv(states, events, k);
    RunKeepsInv(states, events, k + 1);
    NoIdsWhenNoOwner(states[k + 1]);
    hide RegisterObjects, UnregisterObjects;
  }

  /** on_bus_get makes a connection exactly if the bus gives one, and owns the name exactly if there is a name. */
  lemma BusGetLeads(states: seq<Life>, events: seq<Event>, k: nat)
    requires IsRun(states, events) && Inv(states[0]) && k < |events| && events[k].OnBusGet?
    ensures var l, m := states[k], states[k + 1];
            && l.status == 2 && m.status == (if events[k].ok then 3 else 1) && (m.connected <==> events[k].ok)
            && (m.owner <==> m.connected && m.named)
            && m.timers == l.timers && m.reconnect == l.reconnect && m.busGets == 0
  {
    RunKeepsInv(states, events, k);
    RunKeepsInv(states, events, k + 1);
    hide RegisterObjects;
  }

  /** Without a bus and an address there never is a connection: after do_connect nothing is pending any more. */
  lemma {:induction false} NoAddressRun(named: bool, interfaces: seq<nat>, states: seq<Life>, events: seq<Event>,
                                        k: nat)
    requires IsRun(states, events) && states[0] == Created(NoAddress, named, interfaces) && k < |states|
    ensures var l := states[k];
            && l.bus == NoAddress && !l.connected && !l.owner && l.busGets == l.timers == l.disconnectStatus == 0
            && l.nameLostCloses == l.flushSources == l.flushes == l.disconnectSources == l.disconnectCloses == 0
            && (l.status == 0 || l.status == 2) && l.connectSources == (if l.started && l.status == 0 then 1 else 0)
            && (!l.started ==> l.status == 0)
  {
    if k > 0 {
      NoAddressRun(named, interfaces, states, events, k - 1);
      hide RegisterObjects, UnregisterObjects, Outcomes, NoIds;
    }
  }

  /** Connecting to a message bus, and losing the name before the timer has run. */
  lemma NameLostEarly(l: Life) returns (a: Life, b: Life, c: Life)
    requires l == Created(TypedBus, true, []).(reconnect := true, connectSources := 1, started := true)
    ensures Enabled(l, DoConnect) && a == Step(l, DoConnect)
    ensures Enabled(a, OnBusGet(true, [])) && b == Step(a, OnBusGet(true, []))
    ensures Enabled(b, OnNameLost) && c == Step(b, OnNameLost)
    ensures c.timers == 1 && c.status == 0 && c.connectSources == 1 && c.bus == TypedBus
  {
    hide RegisterObjects, UnregisterObjects;
    a := DoConnectStep(l);
    b := OnBusGetStep(a, true, []);
    c := OnNameLostStep(b);
  }

  lemma FirstConnect()
    ensures var l := Created(TypedBus, true, []);
            && Enabled(l, Connect(true))
            && Step(l, Connect(true)) == l.(reconnect := true, connectSources := 1, started := true)
  {
  }

  lemma ConnectAgain(l: Life)
    requires l.status == 0 && l.connectSources == 1 && l.bus == TypedBus
    ensures Enabled(l, DoConnect) && Step(l, DoConnect).status == 2 && Step(l, DoConnect).timers == l.timers + 1
  {
  }

  /** Two timers at once: the name is lost before the first timer has seen the connection. */
  lemma TimersOverlap() returns (states: seq<Life>, events: seq<Event>)
    ensures IsRun(states, events) && states[0] == Created(TypedBus, true, []) && AutoReconnectOnly(events)
    ensures |events| == 5 && states[5].timers == 2 && states[5].status == 2
  {
    hide Enabled, Step, Created;
    FirstConnect();
    var s0 := Created(TypedBus, true, []);
    var s1 := Step(s0, Connect(true));
    var s2, s3, s4 := NameLostEarly(s1);
    ConnectAgain(s4);
    states := [s0, s1, s2, s3, s4, Step(s4, DoConnect)];
    events := [Connect(true), DoConnect, OnBusGet(true, []), OnNameLost, DoConnect];
  }

  /** All registrations succeed. */
  function AllOk(interfaces: seq<nat>): (oks: seq<seq<bool>>)
    ensures |oks| == |interfaces| && forall i :: 0 <= i < |oks| ==> |oks[i]| == interfaces[i]
  {
    seq(|interfaces|, i requires 0 <= i < |interfaces| => seq(interfaces[i], _ => true))
  }

  /** There is a connection, or something pending leads to one if the bus answers. */
  predicate CanConnect(l: Life) {
    l.status >= 2 || l.connectSources > 0 || (l.status == 1 && l.reconnect && l.timers > 0)
  }

  /** What is pending asks the bus for a connection. */
  lemma Asking(l: Life)
    requires Inv(l) && CanConnect(l) && l.status < 2
    ensures var e := if l.status == 0 then DoConnect else DoReconnect;
            Enabled(l, e) && Step(l, e).status == 2 && Step(l, e).disconnectStatus == 0
  {
  }

  lemma Answered(l: Life)
    requires Inv(l) && l.status == 2
    ensures var answer := OnBusGet(true, AllOk(l.interfaces));
            Enabled(l, answer) && Step(l, answer).status == 3 && Step(l, answer).connected
    ensures l.disconnectStatus == Step(l, OnBusGet(true, AllOk(l.interfaces))).disconnectStatus == 0
  {
    hide RegisterObjects;
  }

  /** While not connected, at most two callbacks that are pending lead to a connection as soon as the bus answers. */
  lemma Connecting(l: Life) returns (states: seq<Life>, events: seq<Event>)
    requires Inv(l) && CanConnect(l) && l.status < 3
    ensures IsRun(states, events) && states[0] == l && |events| <= 2
    ensures states[|events|].status == 3 && states[|events|].connected
    ensures l.disconnectStatus == states[|events|].disconnectStatus == 0
    ensures forall i :: 0 <= i < |events| ==> !OtherThread(events[i])
  {
    assert l.disconnectStatus == 0;
    if l.status == 2 {
      Answered(l);
      hide Enabled, Step;
      var answer := OnBusGet(true, AllOk(l.interfaces));
      states, events := [l, Step(l, answer)], [answer];
    } else {
      Asking(l);
      var e := if l.status == 0 then DoConnect else DoReconnect;
      StepKeepsInv(l, e);
      hide Enabled, Step;
      var m := Step(l, e);
      Answered(m);
      var answer := OnBusGet(true, AllOk(m.interfaces));
      states, events := [l, m, Step(m, answer)], [e, answer];
    }
  }

  /** Connect on what is not connected and not on its way, refused or never asked for, makes a connection possible. */
  lemma ConnectLeads(l: Life, auto: bool)
    requires Inv(l) && l.status <= 1 && l.connectSources == 0 && l.disconnectStatus == 0
    ensures Enabled(l, Connect(auto))
    ensures var m := Step(l, Connect(auto)); CanConnect(m) && (m.reconnect <==> auto) && Enabled(m, DoConnect)
  {
  }

  /** With automatic reconnects that is so in every reachable state. */
  lemma Recovery(l: Life) returns (states: seq<Life>, events: seq<Event>)
    requires Inv(l) && l.started && l.reconnect && l.status < 3
    ensures IsRun(states, events) && states[0] == l && |events| <= 2
    ensures states[|events|].status == 3 && states[|events|].connected
    ensures forall i :: 0 <= i < |events| ==> !OtherThread(events[i])
  {
    states, events := Connecting(l);
  }

  /** Otherwise no callback of the main loop ever makes a connection. */
  lemma NeverConnects(l: Life, e: Event)
    requires Inv(l) && !CanConnect(l) && l.disconnectStatus == 0 && Enabled(l, e) && !OtherThread(e)
    ensures var m := Step(l, e); !CanConnect(m) && m.disconnectStatus == 0
  {
    assert !l.owner;
    hide RegisterObjects, UnregisterObjects, NameInv;
  }

  // --- disconnecting --------------------------------------------------------

  /** What a Disconnect leaves behind when it returns. */
  ghost predicate Down(l: Life) {
    && l.disconnectStatus == 2 && !l.connected && l.status == 0 && l.refs == 0
    && !l.owner && l.ids == NoIds(|l.interfaces|) && l.registry.live == {}
    && l.flushSources + l.flushes + l.disconnectSources + l.disconnectCloses == 0
  }

  /** The callbacks still to come, counting the timers that are running out. */
  function Remaining(l: Life): nat {
    4 * l.flushSources + 3 * l.flushes + 2 * l.disconnectSources + l.disconnectCloses + l.timers
  }

  lemma DisconnectStarts(l: Life)
    requires Inv(l) && Enabled(l, Disconnect)
    ensures var m := Step(l, Disconnect); m.disconnectStatus == 1 && Remaining(m) == 4 + l.timers
  {
  }

  /** Until it is finished, every callback brings it nearer, whichever comes first. */
  lemma DisconnectProgress(l: Life, e: Event)
    requires Inv(l) && Enabled(l, e) && l.disconnectStatus == 1
    ensures var m := Step(l, e); m.disconnectStatus == 2 || (m.disconnectStatus == 1 && Remaining(m) < Remaining(l))
  {
  }

  lemma DisconnectPending(l: Life)
    requires Inv(l) && l.disconnectStatus == 1
    ensures Enabled(l, DoFlush) || Enabled(l, OnFlush) || Enabled(l, DoDisconnect) || Enabled(l, OnDisconnectClose)
  {
  }

  lemma PendingRemains(l: Life)
    requires Enabled(l, DoFlush) || Enabled(l, OnFlush) || Enabled(l, DoDisconnect) || Enabled(l, OnDisconnectClose)
    ensures Remaining(l) > 0
  {
  }

  lemma DisconnectedIsDown(l: Life)
    requires Inv(l) && l.disconnectStatus == 2
    ensures Down(l) && Enabled(l, DisconnectReturns)
  {
    NoIdsWhenNoOwner(l);
  }

  lemma ClosingGoesOn(l: Life, e: Event)
    requires Enabled(l, e) && !OtherThread(e) && l.disconnectStatus > 0
    ensures Step(l, e).disconnectStatus > 0
  {
    hide RegisterObjects, UnregisterObjects, NoIds, Outcomes;
    match e
    case OnBusGet(ok, oks) =>
    case OnNameLost =>
    case OnNameLostClose =>
    case DoDisconnect =>
    case _ =>
  }

  /** What is pending leads to the end of a Disconnect. */
  lemma {:induction false} Closing(l: Life) returns (states: seq<Life>, events: seq<Event>)
    requires Inv(l) && l.disconnectStatus == 1
    ensures IsRun(states, events) && states[0] == l && Down(states[|events|])
    ensures forall i :: 0 <= i < |events| ==> !OtherThread(events[i])
    decreases Remaining(l)
  {
    hide Inv, Step, Down, Remaining;
    DisconnectPending(l);
    var e := if Enabled(l, DoFlush) then DoFlush else if Enabled(l, OnFlush) then OnFlush
             else if Enabled(l, DoDisconnect) then DoDisconnect else OnDisconnectClose;
    hide Enabled;
    var m := Step(l, e);
    DisconnectProgress(l, e);
    StepKeepsInv(l, e);
    if m.disconnectStatus == 2 {
      DisconnectedIsDown(m);
      states, events := [l, m], [e];
    } else {
      var rest, more := Closing(m);
      states, events := [l] + rest, [e] + more;
    }
  }

  /** A run that starts with a Disconnect reaches the end after at most four callbacks, plus one for each timer. */
  lemma {:induction false} DisconnectEnds(states: seq<Life>, events: seq<Event>)
    requires IsRun(states, events) && Inv(states[0]) && states[0].disconnectStatus == 1
    requires |events| >= Remaining(states[0])
    ensures exists k :: 0 < k <= Remaining(states[0]) && Down(states[k])
    decreases |events|
  {
    hide Inv, Enabled, Step, Down;
    DisconnectPending(states[0]);
    PendingRemains(states[0]);
    var e := events[0];
    DisconnectProgress(states[0], e);
    StepKeepsInv(states[0], e);
    if states[1].disconnectStatus == 2 {
      DisconnectedIsDown(states[1]);
      assert Down(states[1]);
    } else {
      DisconnectEnds(states[1..], events[1..]);
      var k :| 0 < k <= Remaining(states[1]) && Down(states[1..][k]);
      assert Down(states[k + 1]);
    }
  }
}
